/** The flat-file block store: files named by CID strings, and running totals. */
module BlockStore {
  import opened Common
  import opened Cid

  const MAX_BLOCK_SIZE: nat := 16 * 1024 * 1024

  /** Any hash into 32 bytes; collisions are the business of the properties that must exclude them. */
  type HashFn = bytes -> Digest

  datatype StoreError = NotOpen | BlockTooLarge | NotFound | Corrupt

  datatype Path = Path(shard: string, name: string)

  type Blocks = map<Path, bytes>

  datatype StoreState = StoreState(blocks: Blocks, totalBlocks: int, totalBytes: int, lastGcAt: real)

  const EMPTY_STORE: StoreState := StoreState(map[], 0, 0, 0.0)

  function PathOf(name: string): Path {
    Path(name[Min(1, |name|)..Min(3, |name|)], name)
  }

  function BlockPath(cid: CID): Path {
    PathOf(ToStr(cid))
  }

  function Put(h: HashFn, st: StoreState, data: bytes, codec: Codec): (StoreState, Result<CID, StoreError>) {
    if |data| > MAX_BLOCK_SIZE then (st, Err(BlockTooLarge))
    else
      var cid := CID(h(data), codec);
      if BlockPath(cid) in st.blocks then (st, Ok(cid))
      else (st.(blocks := st.blocks[BlockPath(cid) := data],
                totalBlocks := st.totalBlocks + 1, totalBytes := st.totalBytes + |data|), Ok(cid))
  }

  function Get(h: HashFn, st: StoreState, cid: CID): Result<bytes, StoreError> {
    if BlockPath(cid) !in st.blocks then Err(NotFound)
    else if h(st.blocks[BlockPath(cid)]) != cid.digest then Err(Corrupt)
    else Ok(st.blocks[BlockPath(cid)])
  }

  function Delete(st: StoreState, cid: CID): (StoreState, bool) {
    var p := BlockPath(cid);
    if p !in st.blocks then (st, false)
    else (st.(blocks := st.blocks - {p}, totalBlocks := Max(0, st.totalBlocks - 1),
              totalBytes := Max(0, st.totalBytes - |st.blocks[p]|)), true)
  }

  /** The blocks whose file name is the string of a pinned CID. */
  function Kept(blocks: Blocks, pinned: set<CID>): Blocks {
    map p | p in blocks && FromStr(p.name).Ok? && FromStr(p.name).value in pinned :: blocks[p]
  }

  ghost function SumSizes(blocks: Blocks): nat {
    if blocks == map[] then 0
    else
      var p :| p in blocks;
      |blocks[p]| + SumSizes(blocks - {p})
  }

  /** Two shard directories take the blocks of all CIDs, one of them only those of the JSON codec. */
  lemma TwoShards(cid: CID)
    ensures BlockPath(cid) == Path(if cid.codec == Json then "ag" else "af", ToStr(cid))
  {
    hide ToStr;
    FirstThree(cid);
    var s := ToStr(cid);
    assert s[1..3] == s[..3][1..];
  }

  // --- invariants --------------------------------------------------------------------

  /** The file's name is the string of a CID, and the file stands where that CID's block belongs. */
  ghost predicate Named(p: Path) {
    FromStr(p.name).Ok? && BlockPath(FromStr(p.name).value) == p
  }

  ghost predicate Addressed(h: HashFn, blocks: Blocks) {
    forall p :: p in blocks ==>
      Named(p) && h(blocks[p]) == FromStr(p.name).value.digest && |blocks[p]| <= MAX_BLOCK_SIZE
  }

  ghost predicate Counted(st: StoreState) {
    st.totalBlocks == |st.blocks| && st.totalBytes == SumSizes(st.blocks)
  }

  ghost predicate StoreInv(h: HashFn, st: StoreState) {
    Addressed(h, st.blocks) && Counted(st)
  }

  /** Whatever a repository holds, its blocks stand in these two directories. */
  lemma BlocksInTwoShards(h: HashFn, st: StoreState)
    requires StoreInv(h, st)
    ensures forall p :: p in st.blocks ==> p.shard == "af" || p.shard == "ag"
  {
    hide ToStr, FromStr, BlockPath;
    forall p | p in st.blocks ensures p.shard == "af" || p.shard == "ag" { TwoShards(FromStr(p.name).value); }
  }

  lemma BlockPathParses(cid: CID)
    ensures FromStr(BlockPath(cid).name) == Ok(cid) && Named(BlockPath(cid))
  {
    StrRoundTrip(cid);
  }

  /** Removing any block takes its size off the sum, whichever block the sum starts with. */
  lemma {:induction false} SumWithout(blocks: Blocks, p: Path)
    requires p in blocks
    ensures SumSizes(blocks) == |blocks[p]| + SumSizes(blocks - {p})
    ensures |blocks - {p}| == |blocks| - 1
  {
    var q :| q in blocks && SumSizes(blocks) == |blocks[q]| + SumSizes(blocks - {q});
    assert (blocks - {p}).Keys == blocks.Keys - {p};
    if p != q {
      SumWithout(blocks - {q}, p);
      SumWithout(blocks - {p}, q);
      assert blocks - {q} - {p} == blocks - {p} - {q};
    }
  }

  lemma SumWith(blocks: Blocks, p: Path, data: bytes)
    requires p !in blocks
    ensures SumSizes(blocks[p := data]) == SumSizes(blocks) + |data|
    ensures |blocks[p := data]| == |blocks| + 1
  {
    SumWithout(blocks[p := data], p);
    assert blocks[p := data] - {p} == blocks;
  }

  lemma PutKeepsInv(h: HashFn, st: StoreState, data: bytes, codec: Codec)
    requires StoreInv(h, st)
    ensures StoreInv(h, Put(h, st, data, codec).0)
  {
    hide FromStr, ToStr;
    var cid := CID(h(data), codec);
    BlockPathParses(cid);
    if |data| <= MAX_BLOCK_SIZE && BlockPath(cid) !in st.blocks {
      SumWith(st.blocks, BlockPath(cid), data);
    }
  }

  /** Deleting keeps the invariant, and the clamps at zero change nothing. */
  lemma DeleteKeepsInv(h: HashFn, st: StoreState, cid: CID)
    requires StoreInv(h, st)
    ensures var (st', deleted) := Delete(st, cid);
      && StoreInv(h, st')
      && (deleted <==> BlockPath(cid) in st.blocks) && BlockPath(cid) !in st'.blocks
      && (forall p :: p != BlockPath(cid) ==> (p in st'.blocks <==> p in st.blocks))
      && (forall p :: p in st'.blocks ==> st'.blocks[p] == st.blocks[p])
      && (!deleted ==> st' == st)
      && (deleted ==>
            && st'.totalBlocks == st.totalBlocks - 1
            && st'.totalBytes == st.totalBytes - |st.blocks[BlockPath(cid)]|)
  {
    hide FromStr, ToStr;
    if BlockPath(cid) in st.blocks { SumWithout(st.blocks, BlockPath(cid)); }
  }

  /** A stored block is found under the CID put returned; another content only if it has the same hash. */
  lemma GetAfterPut(h: HashFn, st: StoreState, data: bytes, codec: Codec)
    requires StoreInv(h, st) && |data| <= MAX_BLOCK_SIZE
    ensures var (st', cid) := Put(h, st, data, codec);
      cid.Ok? && Get(h, st', cid.value).Ok? && h(Get(h, st', cid.value).value) == h(data)
  {
    hide FromStr, ToStr;
    BlockPathParses(CID(h(data), codec));
  }

  // --- the class ---------------------------------------------------------------------

  class Store {
    const h: HashFn
    var blocks: Blocks
    var totalBlocks: int
    var totalBytes: int
    var lastGcAt: real
    var isOpen: bool

    constructor (h: HashFn)
      ensures this.h == h && View() == EMPTY_STORE && isOpen && Valid()
    {
      this.h := h;
      blocks, totalBlocks, totalBytes, lastGcAt, isOpen := map[], 0, 0, 0.0, true;
    }

    ghost function View(): StoreState
      reads this
    {
      StoreState(blocks, totalBlocks, totalBytes, lastGcAt)
    }

    ghost predicate Valid()
      reads this
    {
      StoreInv(h, View())
    }

    method PutBlock(data: bytes, codec: Codec) returns (r: Result<CID, StoreError>)
      modifies this
      ensures isOpen == old(isOpen)
      ensures !isOpen ==> View() == old(View()) && r == Err(NotOpen)
      ensures isOpen ==> (View(), r) == Put(h, old(View()), data, codec)
      ensures old(Valid()) ==> Valid()
    {
      hide FromStr, ToStr, StoreInv;
      if old(Valid()) { PutKeepsInv(h, View(), data, codec); }
      if !isOpen {
        return Err(NotOpen);
      }
      if |data| > MAX_BLOCK_SIZE {
        return Err(BlockTooLarge);
      }
      var cid := CID(h(data), codec);
      var path := BlockPath(cid);
      if path in blocks {
        return Ok(cid);
      }
      blocks := blocks[path := data];
      totalBlocks := totalBlocks + 1;
      totalBytes := totalBytes + |data|;
      r := Ok(cid);
    }

    method GetBlock(cid: CID) returns (r: Result<bytes, StoreError>)
      ensures r == if isOpen then Get(h, View(), cid) else Err(NotOpen)
    {
      hide FromStr, ToStr;
      if !isOpen {
        return Err(NotOpen);
      }
      var path := BlockPath(cid);
      if path !in blocks {
        return Err(NotFound);
      }
      var data := blocks[path];
      if h(data) != cid.digest {
        return Err(Corrupt);
      }
      r := Ok(data);
    }

    method DeleteBlock(cid: CID) returns (deleted: Result<bool, StoreError>)
      modifies this
      ensures isOpen == old(isOpen)
      ensures !isOpen ==> View() == old(View()) && deleted == Err(NotOpen)
      ensures isOpen ==> View() == Delete(old(View()), cid).0 && deleted == Ok(Delete(old(View()), cid).1)
      ensures old(Valid()) ==> Valid()
    {
      hide FromStr, ToStr, StoreInv;
      if old(Valid()) { DeleteKeepsInv(h, View(), cid); }
      if !isOpen {
        return Err(NotOpen);
      }
      var path := BlockPath(cid);
      if path !in blocks {
        return Ok(false);
      }
      var size := |blocks[path]|;
      blocks := blocks - {path};
      totalBlocks := Max(0, totalBlocks - 1);
      totalBytes := Max(0, totalBytes - size);
      deleted := Ok(true);
    }

    /** The CID of every file whose name parses, in no particular order; other files are skipped. */
    method ListCids() returns (listed: Result<seq<CID>, StoreError>)
      ensures !isOpen ==> listed == Err(NotOpen)
      ensures isOpen ==> listed.Ok? && exists files :: ListsFiles(listed.value, files, blocks)
    {
      hide FromStr, ToStr;
      if !isOpen {
        return Err(NotOpen);
      }
      var cids: seq<CID> := [];
      ghost var files: seq<Path> := [];
      var rest := blocks.Keys;
      while rest != {}
        invariant rest <= blocks.Keys && |cids| == |files|
        invariant forall i, j :: 0 <= i < j < |files| ==> files[i] != files[j]
        invariant forall p :: p in files <==> p in blocks && Parses(p) && p !in rest
        invariant forall i :: 0 <= i < |files| ==> Parses(files[i]) && cids[i] == CidOf(files[i])
        decreases rest
      {
        var file :| file in rest;
        rest := rest - {file};
        if Walked(file) {
          var cid := FromStr(file.name);
          if cid.Ok? {
            cids := cids + [cid.value];
            files := files + [file];
          }
        }
      }
      DistinctSize(files, Parsing(blocks));
      assert ListsFiles(cids, files, blocks);
      listed := Ok(cids);
    }

    /** Walking the files and parsing their names counts, for each name that parses, the block of that CID, whatever
        the totals were before. */
    method Recount() returns (r: Result<(), StoreError>)
      modifies this
      ensures isOpen == old(isOpen) && (r.Ok? <==> isOpen) && (r.Err? ==> r == Err(NotOpen) && View() == old(View()))
      ensures r.Ok? ==>
        View() == old(View()).(totalBlocks := |Measured(blocks)|, totalBytes := SumSizes(Measured(blocks)))
    {
      hide Measured, ListsFiles;
      var listed := ListCids();
      if listed.Err? {
        return Err(NotOpen);
      }
      ghost var files :| ListsFiles(listed.value, files, blocks);
      totalBlocks, totalBytes := Measure(listed.value, files);
      r := Ok(());
    }

    /** The counting loop of recount. */
    method Measure(cids: seq<CID>, ghost files: seq<Path>) returns (blockCount: nat, byteCount: nat)
      requires ListsFiles(cids, files, blocks)
      ensures blockCount == |Measured(blocks)| && byteCount == SumSizes(Measured(blocks))
    {
      hide FromStr, ToStr, BlockPath, SumSizes, ListsFiles, Measured, Without;
      blockCount, byteCount := 0, 0;
      ghost var all := Measured(blocks);
      NothingWithout(all);
      for i := 0 to |cids|
        invariant i <= |files|
        invariant blockCount + |Without(all, files[..i])| == |all|
        invariant byteCount + SumSizes(Without(all, files[..i])) == SumSizes(all)
      {
        MeasureStep(cids, files, blocks, i);
        var path := BlockPath(cids[i]);
        if path in blocks {
          blockCount := blockCount + 1;
          byteCount := byteCount + |blocks[path]|;
        }
      }
      MeasuredAll(cids, files, blocks);
    }

    /** Deletes the block of every CID found by parsing file names that is not pinned, and returns how many there were. */
    method GcOrphans(pinned: set<CID>, now: real) returns (r: Result<nat, StoreError>)
      modifies this
      ensures isOpen == old(isOpen)
      ensures !isOpen ==> View() == old(View()) && r == Err(NotOpen)
      ensures isOpen ==> View() == Collected(old(View()), pinned, now) && r == Ok(|old(blocks)| - |blocks|)
      ensures old(Valid()) ==> Valid() && (isOpen ==> blocks == Kept(old(blocks), pinned))
    {
      hide FromStr, ToStr, BlockPath, StoreInv, Kept, Collected, ListsFiles;
      if old(Valid()) { CollectedExact(h, View(), pinned, now); }
      var deleted := 0;
      var listed := ListCids();
      if listed.Err? {
        return Err(NotOpen);
      }
      var cids := listed.value;
      ghost var files :| ListsFiles(cids, files, blocks);
      for i := 0 to |cids|
        invariant isOpen
        invariant Sweep(View(), cids[i..], pinned) == Sweep(old(View()), cids, pinned)
        invariant deleted == |old(blocks)| - |blocks|
      {
        var cid := cids[i];
        assert cids[i..][1..] == cids[i + 1..];
        if cid !in pinned {
          DeleteCounts(View(), cid);
          var gone := DeleteBlock(cid);
          if gone == Ok(true) {
            deleted := deleted + 1;
          }
        }
      }
      SweepCollects(old(View()), cids, files, pinned, now);
      lastGcAt := now;
      r := Ok(deleted);
    }
  }

  /** Hidden files are passed over. */
  predicate Walked(p: Path) {
    !(|p.name| > 0 && p.name[0] == '.')
  }

  /** The walk over the files takes this one for a block. */
  predicate Parses(p: Path) {
    Walked(p) && FromStr(p.name).Ok?
  }

  lemma {:induction false} DistinctSize<T>(xs: seq<T>, s: set<T>)
    requires forall i, j :: 0 <= i < j < |xs| ==> xs[i] != xs[j]
    requires forall x :: x in xs <==> x in s
    ensures |xs| == |s|
    decreases |xs|
  {
    if |xs| > 0 {
      var n := |xs| - 1;
      assert xs == xs[..n] + [xs[n]];
      DistinctSize(xs[..n], s - {xs[n]});
    } else {
      assert s == {};
    }
  }

  function CidOf(p: Path): CID
    requires Parses(p)
  {
    FromStr(p.name).value
  }

  function Parsing(blocks: Blocks): set<Path> {
    set p | p in blocks && Parses(p)
  }

  /** The CIDs of all files whose names parse, each file once. */
  ghost predicate ListsFiles(cids: seq<CID>, files: seq<Path>, blocks: Blocks) {
    && |cids| == |files| == |Parsing(blocks)|
    && (forall i, j :: 0 <= i < j < |files| ==> files[i] != files[j])
    && (forall p :: p in files <==> p in Parsing(blocks))
    && (forall i :: 0 <= i < |files| ==> files[i] in Parsing(blocks) && cids[i] == CidOf(files[i]))
  }

  /** What recount measures for each file whose name parses: the block stored for that CID, if there is one. */
  function Measured(blocks: Blocks): Blocks {
    map p | p in Parsing(blocks) && BlockPath(CidOf(p)) in blocks :: blocks[BlockPath(CidOf(p))]
  }

  /** The blocks of files not yet walked. */
  function Without(all: Blocks, files: seq<Path>): Blocks {
    map p | p in all && p !in files :: all[p]
  }

  lemma NothingWithout(all: Blocks)
    ensures Without(all, []) == all
  {
  }

  lemma MeasureStep(cids: seq<CID>, files: seq<Path>, blocks: Blocks, i: nat)
    requires ListsFiles(cids, files, blocks) && i < |cids|
    ensures |files| == |cids|
    ensures var before, after := Without(Measured(blocks), files[..i]), Without(Measured(blocks), files[..i + 1]);
      if BlockPath(cids[i]) in blocks
      then |after| == |before| - 1 && SumSizes(before) == |blocks[BlockPath(cids[i])]| + SumSizes(after)
      else after == before
  {
    hide FromStr, BlockPath, SumSizes, Parses;
    var all, p := Measured(blocks), files[i];
    var before, after := Without(all, files[..i]), Without(all, files[..i + 1]);
    assert files[..i + 1] == files[..i] + [p];
    assert p !in files[..i];
    if BlockPath(cids[i]) in blocks {
      assert p in before && before[p] == blocks[BlockPath(cids[i])];
      assert after == before - {p};
      SumWithout(before, p);
    } else {
      assert p !in all;
      assert after == before;
    }
  }

  lemma MeasuredAll(cids: seq<CID>, files: seq<Path>, blocks: Blocks)
    requires ListsFiles(cids, files, blocks)
    ensures |cids| == |files| && files[..|cids|] == files
    ensures |Without(Measured(blocks), files)| == 0 && SumSizes(Without(Measured(blocks), files)) == 0
  {
    hide FromStr, BlockPath, Parses;
    assert Without(Measured(blocks), files) == map[];
  }

  /** When every file whose name parses stands at the place of its CID, stray files are left out and every block is
      measured for itself; so the counters of a repository without stray files, if exact, are left alone. */
  lemma MeasuredExact(h: HashFn, st: StoreState)
    requires forall p :: p in Parsing(st.blocks) ==> Named(p)
    ensures Measured(st.blocks) == map p | p in Parsing(st.blocks) :: st.blocks[p]
    ensures StoreInv(h, st) ==>
      st.(totalBlocks := |Measured(st.blocks)|, totalBytes := SumSizes(Measured(st.blocks))) == st
  {
    hide FromStr, ToStr, BlockPath;
    if StoreInv(h, st) {
      forall p | p in st.blocks ensures Parses(p) {
        assert Named(p);
        FileNameStart(p);
      }
      assert Measured(st.blocks) == st.blocks;
    }
  }

  /** The walk of gc_orphans: deletes the listed CIDs that are not pinned, one by one. */
  function Sweep(st: StoreState, cids: seq<CID>, pinned: set<CID>): StoreState
    decreases |cids|
  {
    if |cids| == 0 then st
    else Sweep(if cids[0] in pinned then st else Delete(st, cids[0]).0, cids[1..], pinned)
  }

  lemma TimeKeepsInv(h: HashFn, st: StoreState, now: real)
    requires StoreInv(h, st)
    ensures StoreInv(h, st.(lastGcAt := now))
  {
  }

  lemma DeleteCounts(st: StoreState, cid: CID)
    ensures |Delete(st, cid).0.blocks| == |st.blocks| - if Delete(st, cid).1 then 1 else 0
  {
    hide FromStr, ToStr;
    if BlockPath(cid) in st.blocks { SumWithout(st.blocks, BlockPath(cid)); }
  }

  function Doomed(cids: seq<CID>, pinned: set<CID>): set<Path> {
    set c | c in cids && c !in pinned :: BlockPath(c)
  }

  lemma {:induction false} SweepRemoves(st: StoreState, cids: seq<CID>, pinned: set<CID>)
    ensures Sweep(st, cids, pinned).blocks == st.blocks - Doomed(cids, pinned)
    decreases |cids|
  {
    hide FromStr, ToStr, BlockPath;
    if |cids| > 0 {
      var st' := if cids[0] in pinned then st else Delete(st, cids[0]).0;
      SweepRemoves(st', cids[1..], pinned);
      assert cids == [cids[0]] + cids[1..];
      assert Doomed(cids, pinned)
          == (if cids[0] in pinned then {} else {BlockPath(cids[0])}) + Doomed(cids[1..], pinned);
    }
  }

  /** The blocks of the CIDs that the walk finds and that are not pinned. */
  function Orphans(blocks: Blocks, pinned: set<CID>): set<Path> {
    set p | p in Parsing(blocks) && CidOf(p) !in pinned :: BlockPath(CidOf(p))
  }

  /** A total after n deletions of the given sum: the clamp acts at each of them. */
  function Reduced(total: int, n: nat, sum: int): int {
    if n == 0 then total else Max(0, total - sum)
  }

  /** What gc_orphans makes of any repository, whatever files there are and whatever the totals say. */
  ghost function Collected(st: StoreState, pinned: set<CID>, now: real): StoreState {
    var kept := st.blocks - Orphans(st.blocks, pinned);
    CollectedFewer(st.blocks, kept);
    var n := |st.blocks| - |kept|;
    StoreState(kept, Reduced(st.totalBlocks, n, n), Reduced(st.totalBytes, n, SumSizes(st.blocks) - SumSizes(kept)), now)
  }

  lemma CollectedFewer(blocks: Blocks, kept: Blocks)
    requires kept.Keys <= blocks.Keys
    ensures |kept| <= |blocks|
  {
    SubsetSize(kept.Keys, blocks.Keys);
  }

  ghost predicate Fewer(st: StoreState, n: nat, x: nat, st': StoreState) {
    && |st.blocks| == |st'.blocks| + n && SumSizes(st.blocks) == SumSizes(st'.blocks) + x && (n == 0 ==> x == 0)
    && st'.totalBlocks == Reduced(st.totalBlocks, n, n) && st'.totalBytes == Reduced(st.totalBytes, n, x)
    && st'.lastGcAt == st.lastGcAt
  }

  lemma {:induction false} SweepTotals(st: StoreState, cids: seq<CID>, pinned: set<CID>) returns (n: nat, x: nat)
    ensures Fewer(st, n, x, Sweep(st, cids, pinned))
    decreases |cids|
  {
    hide FromStr, ToStr, BlockPath, SumSizes, Delete;
    if |cids| == 0 {
      return 0, 0;
    }
    var st1 := if cids[0] in pinned then st else Delete(st, cids[0]).0;
    var m, y := DeleteTotals(st, cids[0]);
    if cids[0] in pinned { m, y := 0, 0; }
    n, x := SweepTotals(st1, cids[1..], pinned);
    FewerTwice(st, m, y, st1, n, x, Sweep(st1, cids[1..], pinned));
    n, x := m + n, y + x;
  }

  lemma FewerTwice(st: StoreState, m: nat, y: nat, st1: StoreState, n: nat, x: nat, st2: StoreState)
    requires Fewer(st, m, y, st1) && Fewer(st1, n, x, st2)
    ensures Fewer(st, m + n, y + x, st2)
  {
    hide SumSizes, Reduced;
    ReducedAgain(st.totalBlocks, m, m, n, n);
    ReducedAgain(st.totalBytes, m, y, n, x);
  }

  lemma ReducedAgain(total: int, n: nat, x: nat, m: nat, y: nat)
    requires (n == 0 ==> x == 0) && (m == 0 ==> y == 0)
    ensures Reduced(Reduced(total, n, x), m, y) == Reduced(total, n + m, x + y)
  {
  }

  lemma DeleteTotals(st: StoreState, cid: CID) returns (n: nat, x: nat)
    ensures Fewer(st, n, x, Delete(st, cid).0)
  {
    hide FromStr, ToStr, SumSizes;
    n, x := 0, 0;
    if BlockPath(cid) in st.blocks {
      SumWithout(st.blocks, BlockPath(cid));
      n, x := 1, |st.blocks[BlockPath(cid)]|;
    }
  }

  /** Sweeping any listing of the walk gives that. */
  lemma SweepCollects(st: StoreState, cids: seq<CID>, files: seq<Path>, pinned: set<CID>, now: real)
    requires ListsFiles(cids, files, st.blocks)
    ensures Sweep(st, cids, pinned).(lastGcAt := now) == Collected(st, pinned, now)
  {
    hide FromStr, ToStr, BlockPath, SumSizes, Sweep;
    SweepRemoves(st, cids, pinned);
    var n, x := SweepTotals(st, cids, pinned);
    DoomedAreOrphans(cids, files, st.blocks, pinned);
    hide ListsFiles, Doomed, Orphans;
  }

  lemma DoomedAreOrphans(cids: seq<CID>, files: seq<Path>, blocks: Blocks, pinned: set<CID>)
    requires ListsFiles(cids, files, blocks)
    ensures Doomed(cids, pinned) == Orphans(blocks, pinned)
  {
    hide FromStr, BlockPath, Parses;
    forall path ensures path in Doomed(cids, pinned) <==> path in Orphans(blocks, pinned) {
      if path in Doomed(cids, pinned) {
        var i :| 0 <= i < |cids| && cids[i] !in pinned && BlockPath(cids[i]) == path;
        assert files[i] in Parsing(blocks);
      }
      if path in Orphans(blocks, pinned) {
        var p :| p in Parsing(blocks) && CidOf(p) !in pinned && BlockPath(CidOf(p)) == path;
        assert p in files;
        var i :| 0 <= i < |files| && files[i] == p;
        assert cids[i] in cids;
      }
    }
  }

  /** In a repository without stray files and with exact totals it is exactly the pinned blocks, with exact totals. */
  lemma CollectedExact(h: HashFn, st: StoreState, pinned: set<CID>, now: real)
    requires StoreInv(h, st)
    ensures var kept := Kept(st.blocks, pinned);
      Collected(st, pinned, now) == StoreState(kept, |kept|, SumSizes(kept), now) && StoreInv(h, Collected(st, pinned, now))
  {
    KeptAreNotOrphans(h, st, pinned);
    KeptAddressed(h, st.blocks, pinned);
    hide FromStr, ToStr, BlockPath, SumSizes, Orphans, Kept, Addressed, Collected;
    CollectedTotals(st, pinned, now);
  }

  lemma CollectedTotals(st: StoreState, pinned: set<CID>, now: real)
    requires Counted(st)
    ensures var kept := st.blocks - Orphans(st.blocks, pinned);
      Collected(st, pinned, now) == StoreState(kept, |kept|, SumSizes(kept), now)
  {
    hide FromStr, ToStr, BlockPath, SumSizes, Orphans, Reduced;
    var kept := st.blocks - Orphans(st.blocks, pinned);
    SubmapTotals(kept, st.blocks);
    var n := |st.blocks| - |kept|;
    ReducedExact(st.totalBlocks, n, n);
    ReducedExact(st.totalBytes, n, SumSizes(st.blocks) - SumSizes(kept));
  }

  lemma SubmapTotals(a: Blocks, b: Blocks)
    requires forall p :: p in a ==> p in b && b[p] == a[p]
    ensures |a| <= |b| && SumSizes(a) <= SumSizes(b) && (|a| == |b| ==> SumSizes(a) == SumSizes(b))
  {
    hide SumSizes;
    SubsetSize(a.Keys, b.Keys);
    SumOfSubmap(a, b);
    if |a| == |b| { SameSize(a, b); }
  }

  lemma ReducedExact(total: int, n: nat, sum: nat)
    requires sum <= total && (n == 0 ==> sum == 0)
    ensures Reduced(total, n, sum) == total - sum
  {
  }

  lemma KeptAddressed(h: HashFn, blocks: Blocks, pinned: set<CID>)
    ensures Addressed(h, blocks) ==> Addressed(h, Kept(blocks, pinned))
    ensures forall p :: p in Kept(blocks, pinned) ==> p in blocks && Kept(blocks, pinned)[p] == blocks[p]
  {
    hide FromStr, ToStr, BlockPath;
  }

  lemma KeptAreNotOrphans(h: HashFn, st: StoreState, pinned: set<CID>)
    requires StoreInv(h, st)
    ensures st.blocks - Orphans(st.blocks, pinned) == Kept(st.blocks, pinned)
  {
    hide FromStr, ToStr, BlockPath, SumSizes, Parses, Orphans, Kept;
    forall p | p in st.blocks ensures Parses(p) && BlockPath(CidOf(p)) == p {
      assert Named(p);
      ParsesNamed(p);
    }
    KeptIsRest(st.blocks, pinned);
  }

  lemma ParsesNamed(p: Path)
    requires Named(p)
    ensures Parses(p)
  {
    hide FromStr, BlockPath;
    FileNameStart(p);
  }

  lemma KeptIsRest(blocks: Blocks, pinned: set<CID>)
    requires forall p :: p in blocks ==> Parses(p) && BlockPath(CidOf(p)) == p
    ensures Kept(blocks, pinned) == blocks - Orphans(blocks, pinned)
  {
    hide FromStr, BlockPath;
  }

  lemma {:induction false} SumOfSubmap(a: Blocks, b: Blocks)
    requires forall p :: p in a ==> p in b && b[p] == a[p]
    ensures SumSizes(a) <= SumSizes(b)
    decreases |a|
  {
    if a != map[] {
      var p :| p in a;
      SumWithout(a, p);
      SumWithout(b, p);
      SumOfSubmap(a - {p}, b - {p});
    }
  }

  lemma SameSize(a: Blocks, b: Blocks)
    requires (forall p :: p in a ==> p in b && b[p] == a[p]) && |a| == |b|
    ensures a == b
  {
    SubsetSame(a.Keys, b.Keys);
  }

  /** Sweeping a complete list leaves exactly the pinned blocks and exact totals. */
  lemma SweepKeeps(h: HashFn, st: StoreState, cids: seq<CID>, files: seq<Path>, pinned: set<CID>)
    requires StoreInv(h, st) && ListsFiles(cids, files, st.blocks)
    ensures Sweep(st, cids, pinned).blocks == Kept(st.blocks, pinned)
    ensures StoreInv(h, Sweep(st, cids, pinned))
  {
    hide FromStr, ToStr, StoreInv, Kept, Sweep, ListsFiles, Collected;
    SweepCollects(st, cids, files, pinned, st.lastGcAt);
    CollectedExact(h, st, pinned, st.lastGcAt);
    var n, x := SweepTotals(st, cids, pinned);
  }

  /** File names of blocks start with the multibase prefix. */
  lemma FileNameStart(p: Path)
    requires Named(p)
    ensures |p.name| > 0 && p.name[0] == 'b'
  {
  }

  // --- runs --------------------------------------------------------------------------

  datatype BlockOp = PutOp(data: bytes, codec: Codec) | DeleteOp(cid: CID) | GcOp(pinned: set<CID>, now: real)

  /** An operation may turn st into st'; gc may list the files in any order. */
  ghost predicate Applies(h: HashFn, st: StoreState, op: BlockOp, st': StoreState) {
    match op
    case PutOp(data, codec) => st' == Put(h, st, data, codec).0
    case DeleteOp(cid) => st' == Delete(st, cid).0
    case GcOp(pinned, now) => exists cids: seq<CID> :: st' == Sweep(st, cids, pinned).(lastGcAt := now)
  }

  lemma {:induction false} SweepKeepsInv(h: HashFn, st: StoreState, cids: seq<CID>, pinned: set<CID>)
    requires StoreInv(h, st)
    ensures StoreInv(h, Sweep(st, cids, pinned))
    decreases |cids|
  {
    hide FromStr, ToStr;
    if |cids| > 0 {
      DeleteKeepsInv(h, st, cids[0]);
      SweepKeepsInv(h, if cids[0] in pinned then st else Delete(st, cids[0]).0, cids[1..], pinned);
    }
  }

  /** After any sequence of operations from an empty repository the totals are exact. */
  lemma {:induction false} TotalsExact(h: HashFn, states: seq<StoreState>, ops: seq<BlockOp>, k: nat)
    requires |states| == |ops| + 1 && states[0] == EMPTY_STORE && k < |states|
    requires forall i :: 0 <= i < |ops| ==> Applies(h, states[i], ops[i], states[i + 1])
    ensures StoreInv(h, states[k])
    ensures states[k].totalBlocks == |states[k].blocks| && states[k].totalBytes == SumSizes(states[k].blocks)
  {
    hide FromStr, Addressed, Applies;
    if k > 0 {
      TotalsExact(h, states, ops, k - 1);
      AppliesKeepsInv(h, states[k - 1], ops[k - 1], states[k]);
    } else {
      EmptyStoreInv(h);
    }
  }

  lemma EmptyStoreInv(h: HashFn)
    ensures StoreInv(h, EMPTY_STORE)
  {
  }

  lemma AppliesKeepsInv(h: HashFn, st: StoreState, op: BlockOp, st': StoreState)
    requires StoreInv(h, st) && Applies(h, st, op, st')
    ensures StoreInv(h, st')
  {
    hide FromStr, ToStr, StoreInv, Put, Delete;
    match op {
      case PutOp(data, codec) => PutKeepsInv(h, st, data, codec);
      case DeleteOp(cid) => DeleteKeepsInv(h, st, cid);
      case GcOp(pinned, now) =>
        var cids: seq<CID> :| st' == Sweep(st, cids, pinned).(lastGcAt := now);
        SweepKeepsInv(h, st, cids, pinned);
        TimeKeepsInv(h, Sweep(st, cids, pinned), now);
    }
  }
}
