/** What the content store promises: files read back, collection, and the storage limit. */
module IpfsProperties {
  import opened Common
  import opened Digits
  import opened Cid
  import opened BlockStore
  import opened Pins
  import opened IpfsStore

  ghost predicate RepoInv(c: Config, r: Repo) {
    StoreInv(c.hash, r.store) && Canonical(r.pins)
  }

  /** No block of st is missing from st' or changed in it. */
  ghost predicate Extends(st: StoreState, st': StoreState) {
    forall p :: p in st.blocks ==> p in st'.blocks && st'.blocks[p] == st.blocks[p]
  }

  function Concat(parts: seq<bytes>): bytes {
    if |parts| == 0 then [] else parts[0] + Concat(parts[1..])
  }

  ghost predicate CollisionFree(h: HashFn, contents: set<bytes>) {
    forall x, y :: x in contents && y in contents && h(x) == h(y) ==> x == y
  }

  function Contents(parts: seq<bytes>): set<bytes> {
    set x | x in parts
  }

  // --- chunking ----------------------------------------------------------------------

  /** The chunks put together are the content, unless a chunk size of zero stops the reading at once. */
  lemma {:induction false} ConcatChunks(content: bytes, n: int)
    ensures Concat(Chunks(content, n)) == (if n == 0 then [] else content)
    decreases |content|
  {
    var chunk := ReadAt(content, 0, n);
    if |chunk| > 0 {
      ConcatChunks(content[|chunk|..], n);
      assert chunk + content[|chunk|..] == content;
    }
  }

  lemma NoChunks(content: bytes, n: int)
    ensures |Chunks(content, n)| == 0 <==> n == 0 || |content| == 0
  {
  }

  /** Chunks are full except the last, so there are ceil(size / n) of them. */
  lemma {:induction false} ChunkCount(content: bytes, n: nat)
    requires n > 0
    ensures forall i :: 0 <= i < |Chunks(content, n)| ==> 0 < |Chunks(content, n)[i]| <= n
    ensures (|Chunks(content, n)| - 1) * n < |content| <= |Chunks(content, n)| * n || |content| == |Chunks(content, n)| == 0
    decreases |content|
  {
    var chunk := ReadAt(content, 0, n);
    if |chunk| > 0 {
      ChunkCount(content[|chunk|..], n);
      var k := |Chunks(content[|chunk|..], n)|;
      assert (k + 1) * n == k * n + n;
      assert (k - 1) * n == k * n - n;
    }
  }

  /** The same count with the ceiling written as a division. */
  lemma ChunkCountCeil(content: bytes, n: nat)
    requires n > 0
    ensures |Chunks(content, n)| == (|content| + n - 1) / n
  {
    ChunkCount(content, n);
    var k, v := |Chunks(content, n)|, |content| + n - 1;
    assert (k - 1) * n == k * n - n;
    if k == 0 {
      DivModUnique(0, v, n);
    } else {
      MulMono(0, k, n);
      DivModUnique(k, v - k * n, n);
    }
  }

  // --- storing chunks ------------------------------------------------------------------

  lemma PutExtends(h: HashFn, st: StoreState, data: bytes, codec: Codec)
    ensures Extends(st, Put(h, st, data, codec).0)
    ensures Put(h, st, data, codec).0.blocks.Values <= st.blocks.Values + {data}
  {
    hide FromStr, ToStr, BlockPath;
  }

  lemma PutStores(h: HashFn, st: StoreState, data: bytes, codec: Codec)
    requires |data| <= MAX_BLOCK_SIZE
    ensures var (st', cid) := Put(h, st, data, codec);
      cid == Ok(CID(h(data), codec)) && BlockPath(CID(h(data), codec)) in st'.blocks
  {
    hide FromStr, ToStr, BlockPath;
  }

  lemma ExtendsTransitive(a: StoreState, b: StoreState, c: StoreState)
    requires Extends(a, b) && Extends(b, c)
    ensures Extends(a, c)
  {
  }

  lemma {:induction false} PutChunksExtends(h: HashFn, st: StoreState, chunks: seq<bytes>)
    ensures Extends(st, PutChunks(h, st, chunks).0)
    ensures PutChunks(h, st, chunks).0.blocks.Values <= st.blocks.Values + Contents(chunks)
    ensures StoreInv(h, st) ==> StoreInv(h, PutChunks(h, st, chunks).0)
    decreases |chunks|
  {
    hide FromStr, ToStr, Put, Extends, StoreInv;
    if |chunks| == 0 {
      ExtendsItself(st);
    } else {
      var (st1, cid) := Put(h, st, chunks[0], Raw);
      PutExtends(h, st, chunks[0], Raw);
      if StoreInv(h, st) { PutKeepsInv(h, st, chunks[0], Raw); }
      PutChunksExtends(h, st1, chunks[1..]);
      ExtendsTransitive(st, st1, PutChunks(h, st1, chunks[1..]).0);
      assert Contents(chunks) == {chunks[0]} + Contents(chunks[1..]) by {
        assert chunks == [chunks[0]] + chunks[1..];
      }
    }
  }

  lemma ExtendsItself(st: StoreState)
    ensures Extends(st, st)
  {
  }

  /** The string a chunk is listed under. */
  function ChunkName(h: HashFn, chunk: bytes): string {
    ToStr(CID(h(chunk), Raw))
  }

  /** Chunks that fit are all stored, and listed in order under their own CIDs. */
  lemma {:induction false} PutChunksStores(h: HashFn, st: StoreState, chunks: seq<bytes>)
    requires forall i :: 0 <= i < |chunks| ==> |chunks[i]| <= MAX_BLOCK_SIZE
    ensures var (st', names) := PutChunks(h, st, chunks);
      && names.Ok? && |names.value| == |chunks|
      && forall i :: 0 <= i < |chunks| ==>
        names.value[i] == ChunkName(h, chunks[i]) && BlockPath(CID(h(chunks[i]), Raw)) in st'.blocks
    decreases |chunks|
  {
    hide FromStr, ToStr, Put, BlockPath;
    if |chunks| > 0 {
      var (st1, cid) := Put(h, st, chunks[0], Raw);
      PutStores(h, st, chunks[0], Raw);
      PutChunksStores(h, st1, chunks[1..]);
      PutChunksExtends(h, st1, chunks[1..]);
      var (st2, names) := PutChunks(h, st1, chunks[1..]);
      forall i | 0 < i < |chunks|
        ensures names.value[i - 1] == ChunkName(h, chunks[i]) && BlockPath(CID(h(chunks[i]), Raw)) in st2.blocks
      {
        assert chunks[1..][i - 1] == chunks[i];
      }
    }
  }

  /** Storing succeeds only when every chunk is within the block size. */
  lemma {:induction false} PutChunksFails(h: HashFn, st: StoreState, chunks: seq<bytes>)
    requires PutChunks(h, st, chunks).1.Ok?
    ensures forall i :: 0 <= i < |chunks| ==> |chunks[i]| <= MAX_BLOCK_SIZE
    decreases |chunks|
  {
    hide FromStr, ToStr;
    if |chunks| > 0 {
      PutChunksFails(h, Put(h, st, chunks[0], Raw).0, chunks[1..]);
      forall i | 0 < i < |chunks| ensures |chunks[i]| <= MAX_BLOCK_SIZE { assert chunks[1..][i - 1] == chunks[i]; }
    }
  }

  // --- reading back ---------------------------------------------------------------------

  /** A stored block whose content no other relevant content collides with is returned as it was put. */
  lemma GetStored(h: HashFn, st: StoreState, data: bytes, codec: Codec, contents: set<bytes>)
    requires StoreInv(h, st) && BlockPath(CID(h(data), codec)) in st.blocks
    requires CollisionFree(h, contents) && data in contents && st.blocks.Values <= contents
    ensures Get(h, st, CID(h(data), codec)) == Ok(data)
  {
    hide FromStr, ToStr;
    var cid := CID(h(data), codec);
    BlockPathParses(cid);
    assert st.blocks[BlockPath(cid)] in st.blocks.Values;
  }

  lemma {:induction false} ReadChunksBack(c: Config, st: StoreState, chunks: seq<bytes>, names: seq<string>)
    requires |names| == |chunks|
    requires forall i :: 0 <= i < |chunks| ==>
      names[i] == ChunkName(c.hash, chunks[i]) && Get(c.hash, st, CID(c.hash(chunks[i]), Raw)) == Ok(chunks[i])
    ensures ReadChunks(c, st, names) == Ok(Concat(chunks))
    decreases |chunks|
  {
    hide FromStr, ToStr, Get;
    if |chunks| > 0 {
      StrRoundTrip(CID(c.hash(chunks[0]), Raw));
      forall i | 0 <= i < |chunks[1..]|
        ensures names[1..][i] == ChunkName(c.hash, chunks[1..][i])
        ensures Get(c.hash, st, CID(c.hash(chunks[1..][i]), Raw)) == Ok(chunks[1..][i])
      {
        assert chunks[1..][i] == chunks[i + 1] && names[1..][i] == names[i + 1];
      }
      ReadChunksBack(c, st, chunks[1..], names[1..]);
    }
  }

  /** The manifest add_file writes for a file. */
  function ManifestOf(c: Config, content: bytes, name: string, chunkSize: int, now: real): Manifest {
    var chunks := Chunks(content, chunkSize);
    Manifest(name, |content|, seq(|chunks|, i requires 0 <= i < |chunks| => ChunkName(c.hash, chunks[i])), chunkSize, now)
  }

  /** All byte strings whose hashes matter when a file is added to a repository. */
  ghost function Relevant(c: Config, r: Repo, content: bytes, name: string, chunkSize: int, now: real): set<bytes> {
    r.store.blocks.Values + Contents(Chunks(content, chunkSize)) + {c.encode(ManifestOf(c, content, name, chunkSize, now))}
  }

  /** What a successful add_file has done: the manifest and every chunk are stored, nothing else changed. */
  lemma AddFileStores(c: Config, r: Repo, content: bytes, name: string, tags: seq<string>, chunkSize: int, now: real)
    requires RepoInv(c, r) && AddFile(c, r, Some(content), name, tags, chunkSize, now).1.Ok?
    ensures var (r', cid) := AddFile(c, r, Some(content), name, tags, chunkSize, now);
      var manifest := c.encode(ManifestOf(c, content, name, chunkSize, now));
      && cid.value == CID(c.hash(manifest), DagCbor) && BlockPath(cid.value) in r'.store.blocks
      && (forall i :: 0 <= i < |Chunks(content, chunkSize)| ==>
            BlockPath(CID(c.hash(Chunks(content, chunkSize)[i]), Raw)) in r'.store.blocks)
      && Extends(r.store, r'.store) && RepoInv(c, r')
      && r'.store.blocks.Values <= Relevant(c, r, content, name, chunkSize, now)
      && r'.pins.Keys == r.pins.Keys + {ToStr(cid.value)}
  {
    hide FromStr, ToStr, BlockPath, StoreInv, Put, Chunks, PutChunks, Canonical, Pin;
    var chunks := Chunks(content, chunkSize);
    var (st1, names) := PutChunks(c.hash, r.store, chunks);
    PutChunksFails(c.hash, r.store, chunks);
    PutChunksStores(c.hash, r.store, chunks);
    PutChunksExtends(c.hash, r.store, chunks);
    assert names.value == ManifestOf(c, content, name, chunkSize, now).chunks;
    var manifest := c.encode(ManifestOf(c, content, name, chunkSize, now));
    var (st2, cid) := Put(c.hash, st1, manifest, DagCbor);
    PutExtends(c.hash, st1, manifest, DagCbor);
    PutKeepsInv(c.hash, st1, manifest, DagCbor);
    ManifestStored(c.hash, st1, manifest);
    PinKeepsCanonical(r.pins, cid.value, Recursive, Some(name), Some(|content|), tags, now);
  }

  lemma ManifestStored(h: HashFn, st: StoreState, data: bytes)
    ensures var (st', cid) := Put(h, st, data, DagCbor);
      cid.Ok? ==> cid.value == CID(h(data), DagCbor) && BlockPath(cid.value) in st'.blocks
  {
    if |data| <= MAX_BLOCK_SIZE { PutStores(h, st, data, DagCbor); }
  }

  /** Reading a file whose manifest and chunks are all stored. */
  lemma ReadStoredFile(c: Config, st: StoreState, content: bytes, name: string, chunkSize: int, now: real, contents: set<bytes>)
    requires Faithful(c, ManifestOf(c, content, name, chunkSize, now)) && StoreInv(c.hash, st)
    requires CollisionFree(c.hash, contents) && st.blocks.Values <= contents
    requires var manifest := c.encode(ManifestOf(c, content, name, chunkSize, now));
      manifest in contents && BlockPath(CID(c.hash(manifest), DagCbor)) in st.blocks
    requires forall i :: 0 <= i < |Chunks(content, chunkSize)| ==>
      && Chunks(content, chunkSize)[i] in contents
      && BlockPath(CID(c.hash(Chunks(content, chunkSize)[i]), Raw)) in st.blocks
    ensures var manifest := c.encode(ManifestOf(c, content, name, chunkSize, now));
      GetFile(c, st, CID(c.hash(manifest), DagCbor)) == Ok(Concat(Chunks(content, chunkSize)))
  {
    hide FromStr, ToStr, BlockPath, StoreInv, Get, Chunks, Concat;
    var chunks := Chunks(content, chunkSize);
    var m := ManifestOf(c, content, name, chunkSize, now);
    GetStored(c.hash, st, c.encode(m), DagCbor, contents);
    forall i | 0 <= i < |chunks|
      ensures m.chunks[i] == ChunkName(c.hash, chunks[i])
      ensures Get(c.hash, st, CID(c.hash(chunks[i]), Raw)) == Ok(chunks[i])
    {
      GetStored(c.hash, st, chunks[i], Raw, contents);
    }
    ReadChunksBack(c, st, chunks, m.chunks);
  }

  /** The manifest an added file's CID leads to, and the bytes it reads as. */
  lemma AddedFileReads(c: Config, r: Repo, content: bytes, name: string, tags: seq<string>, chunkSize: int, now: real)
    requires Faithful(c, ManifestOf(c, content, name, chunkSize, now)) && RepoInv(c, r)
    requires CollisionFree(c.hash, Relevant(c, r, content, name, chunkSize, now))
    requires AddFile(c, r, Some(content), name, tags, chunkSize, now).1.Ok?
    ensures var (r', cid) := AddFile(c, r, Some(content), name, tags, chunkSize, now);
      && GetFile(c, r'.store, cid.value) == Ok(Concat(Chunks(content, chunkSize)))
      && GetContent(c, r'.store, cid.value).Ok?
      && c.decode(GetContent(c, r'.store, cid.value).value) == File(ManifestOf(c, content, name, chunkSize, now))
  {
    hide FromStr, ToStr, BlockPath, StoreInv, AddFile, GetFile, Chunks, ManifestOf, Canonical;
    var (r', cid) := AddFile(c, r, Some(content), name, tags, chunkSize, now);
    var all := Relevant(c, r, content, name, chunkSize, now);
    AddFileStores(c, r, content, name, tags, chunkSize, now);
    forall i | 0 <= i < |Chunks(content, chunkSize)| ensures Chunks(content, chunkSize)[i] in all {
      assert Chunks(content, chunkSize)[i] in Chunks(content, chunkSize);
    }
    ReadStoredFile(c, r'.store, content, name, chunkSize, now, all);
    GetStored(c.hash, r'.store, c.encode(ManifestOf(c, content, name, chunkSize, now)), DagCbor, all);
  }

  /** get_file of what add_file returned gives the file's bytes back, unless the chunk size was zero and the
      file was not empty. Only collisions among the stored blocks, the chunks and the manifest are excluded. */
  lemma FileRoundTrip(c: Config, r: Repo, content: bytes, name: string, tags: seq<string>, chunkSize: int, now: real)
    requires Faithful(c, ManifestOf(c, content, name, chunkSize, now)) && RepoInv(c, r)
    requires CollisionFree(c.hash, Relevant(c, r, content, name, chunkSize, now))
    requires AddFile(c, r, Some(content), name, tags, chunkSize, now).1.Ok?
    ensures var (r', cid) := AddFile(c, r, Some(content), name, tags, chunkSize, now);
      GetFile(c, r'.store, cid.value) == Ok(content) <==> chunkSize != 0 || |content| == 0
  {
    hide AddFile, GetFile, Chunks, RepoInv, Relevant, Concat;
    AddedFileReads(c, r, content, name, tags, chunkSize, now);
    ConcatChunks(content, chunkSize);
  }

  /** The conditions of the round trip can be met: any file of one block whose hash is not that of the empty manifest of
      this configuration is added and read back. */
  lemma OneChunkReadsBack(h: HashFn, content: bytes, name: string, tags: seq<string>, now: real)
    requires 0 < |content| <= MAX_BLOCK_SIZE && h(content) != h([])
    ensures var m := Manifest(name, |content|, [ChunkName(h, content)], |content|, now);
      var c := Config(h, (_: Manifest) => [], (_: bytes) => File(m), |content|, true);
      var (r, cid) := AddFile(c, EMPTY_REPO, Some(content), name, tags, |content|, now);
      cid.Ok? && GetFile(c, r.store, cid.value) == Ok(content)
  {
    hide FromStr, ToStr, BlockPath, RepoInv, Concat, GetFile, AddFile;
    var m := Manifest(name, |content|, [ChunkName(h, content)], |content|, now);
    var c := Config(h, (_: Manifest) => [], (_: bytes) => File(m), |content|, true);
    EmptyRepoInv(c);
    assert ReadAt(content, 0, |content|) == content && content[|content|..] == [];
    NoChunks([], |content|);
    assert Chunks(content, |content|) == [content];
    assert ManifestOf(c, content, name, |content|, now) == m;
    AddFileSucceeds(c, EMPTY_REPO, content, name, tags, |content|, now);
    FileRoundTrip(c, EMPTY_REPO, content, name, tags, |content|, now);
  }

  /** With a chunk size from one to the block limit, add_file succeeds exactly within its documented limits,
      plus the block limit on the manifest itself. */
  lemma AddFileSucceeds(c: Config, r: Repo, content: bytes, name: string, tags: seq<string>, chunkSize: int, now: real)
    requires 1 <= chunkSize <= MAX_BLOCK_SIZE
    ensures AddFile(c, r, Some(content), name, tags, chunkSize, now).1.Ok? <==>
      && |content| <= 2 * 1024 * 1024 * 1024 && r.store.totalBytes + |content| <= c.maxBytes
      && |c.encode(ManifestOf(c, content, name, chunkSize, now))| <= MAX_BLOCK_SIZE
  {
    hide FromStr, ToStr, BlockPath, Chunks, PutChunks;
    var chunks := Chunks(content, chunkSize);
    ChunkCount(content, chunkSize);
    PutChunksStores(c.hash, r.store, chunks);
    assert PutChunks(c.hash, r.store, chunks).1.value == ManifestOf(c, content, name, chunkSize, now).chunks;
  }

  /** Equal chunks share one block and different chunks do not. */
  lemma ChunksShareBlocks(h: HashFn, a: bytes, b: bytes)
    requires CollisionFree(h, {a, b})
    ensures ChunkName(h, a) == ChunkName(h, b) <==> a == b
    ensures BlockPath(CID(h(a), Raw)) == BlockPath(CID(h(b), Raw)) <==> a == b
  {
    hide FromStr, ToStr;
    if ChunkName(h, a) == ChunkName(h, b) { ToStrInjective(CID(h(a), Raw), CID(h(b), Raw)); }
  }

  // --- later operations -------------------------------------------------------------------

  datatype StoreOp =
    | AddOp(data: bytes, codec: Codec, pin: bool, name: Option<string>, tags: seq<string>, now: real)
    | AddFileOp(file: Option<bytes>, fileName: string, tags: seq<string>, chunkSize: int, now: real)
    | PinOp(cid: CID, name: Option<string>, tags: seq<string>, now: real)
    | UnpinOp(cid: CID)
    | GcOp(now: real)

  ghost function Apply(c: Config, r: Repo, op: StoreOp): Repo {
    match op
    case AddOp(data, codec, pin, name, tags, now) => Add(c, r, data, codec, pin, name, tags, now).0
    case AddFileOp(file, name, tags, chunkSize, now) => AddFile(c, r, file, name, tags, chunkSize, now).0
    case PinOp(cid, name, tags, now) => r.(pins := Pin(r.pins, cid, Recursive, name, None, tags, now))
    case UnpinOp(cid) => r.(pins := Unpin(r.pins, cid))
    case GcOp(now) => Collect(r, now).0
  }

  ghost function Run(c: Config, r: Repo, ops: seq<StoreOp>): Repo
    decreases |ops|
  {
    if |ops| == 0 then r else Run(c, Apply(c, r, ops[0]), ops[1..])
  }

  /** Collection in a repository kept by this code alone. */
  lemma CollectIs(c: Config, r: Repo, now: real)
    requires StoreInv(c.hash, r.store)
    ensures var kept := Kept(r.store.blocks, PinnedSet(r.pins));
      && Collect(r, now) == (r.(store := StoreState(kept, |kept|, SumSizes(kept), now)), |r.store.blocks| - |kept|)
      && StoreInv(c.hash, Collect(r, now).0.store)
  {
    hide FromStr, ToStr, BlockPath, StoreInv, Collected, Kept;
    CollectedExact(c.hash, r.store, PinnedSet(r.pins), now);
  }

  lemma CollectKeepsInv(c: Config, r: Repo, now: real)
    requires RepoInv(c, r)
    ensures RepoInv(c, Collect(r, now).0)
  {
    CollectIs(c, r, now);
    hide StoreInv, Collected, Canonical;
  }

  lemma ApplyKeepsInv(c: Config, r: Repo, op: StoreOp)
    requires RepoInv(c, r)
    ensures RepoInv(c, Apply(c, r, op))
    ensures !op.GcOp? ==> Extends(r.store, Apply(c, r, op).store)
  {
    hide FromStr, ToStr, BlockPath, Put, PutChunks, Chunks, StoreInv, Pin, Canonical, Kept, PinnedSet, Extends;
    ExtendsItself(r.store);
    match op {
      case AddOp(data, codec, pin, name, tags, now) =>
        var cid := Put(c.hash, r.store, data, codec).1;
        PutKeepsInv(c.hash, r.store, data, codec);
        PutExtends(c.hash, r.store, data, codec);
        if cid.Ok? { PinKeepsCanonical(r.pins, cid.value, Recursive, name, Some(|data|), tags, now); }
      case AddFileOp(file, name, tags, chunkSize, now) =>
        if file.Some? { AddFileKeepsInv(c, r, file.value, name, tags, chunkSize, now); }
      case PinOp(cid, name, tags, now) => PinKeepsCanonical(r.pins, cid, Recursive, name, None, tags, now);
      case UnpinOp(cid) => UnpinKeepsCanonical(r.pins, cid);
      case GcOp(now) => CollectKeepsInv(c, r, now);
    }
  }

  lemma UnpinKeepsCanonical(pins: PinTable, cid: CID)
    requires Canonical(pins)
    ensures Canonical(Unpin(pins, cid))
  {
    hide FromStr, ToStr;
  }

  lemma AddFileKeepsInv(c: Config, r: Repo, content: bytes, name: string, tags: seq<string>, chunkSize: int, now: real)
    requires RepoInv(c, r)
    ensures var r' := AddFile(c, r, Some(content), name, tags, chunkSize, now).0;
      RepoInv(c, r') && Extends(r.store, r'.store)
  {
    hide FromStr, ToStr, BlockPath, Put, PutChunks, Chunks, StoreInv, Pin, Canonical, Extends;
    ExtendsItself(r.store);
    var chunks := Chunks(content, chunkSize);
    var (st1, names) := PutChunks(c.hash, r.store, chunks);
    PutChunksExtends(c.hash, r.store, chunks);
    if names.Ok? {
      var manifest := c.encode(Manifest(name, |content|, names.value, chunkSize, now));
      var (st2, cid) := Put(c.hash, st1, manifest, DagCbor);
      PutKeepsInv(c.hash, st1, manifest, DagCbor);
      PutExtends(c.hash, st1, manifest, DagCbor);
      ExtendsTransitive(r.store, st1, st2);
      if cid.Ok? {
        PinKeepsCanonical(r.pins, cid.value, Recursive, Some(name), Some(|content|), tags, now);
      }
    }
  }

  lemma {:induction false} RunKeepsInv(c: Config, r: Repo, ops: seq<StoreOp>)
    requires RepoInv(c, r)
    ensures RepoInv(c, Run(c, r, ops))
    ensures (forall i :: 0 <= i < |ops| ==> !ops[i].GcOp?) ==> Extends(r.store, Run(c, r, ops).store)
    decreases |ops|
  {
    hide RepoInv, Apply, Extends;
    if |ops| == 0 {
      ExtendsItself(r.store);
    } else {
      ApplyKeepsInv(c, r, ops[0]);
      RunKeepsInv(c, Apply(c, r, ops[0]), ops[1..]);
      if forall i :: 0 <= i < |ops| ==> !ops[i].GcOp? {
        ExtendsTransitive(r.store, Apply(c, r, ops[0]).store, Run(c, r, ops).store);
      }
    }
  }

  lemma {:induction false} ReadChunksExtends(c: Config, st: StoreState, st': StoreState, names: seq<string>)
    requires Extends(st, st') && ReadChunks(c, st, names).Ok?
    ensures ReadChunks(c, st', names) == ReadChunks(c, st, names)
    decreases |names|
  {
    hide FromStr, ToStr, BlockPath;
    if |names| > 0 { ReadChunksExtends(c, st, st', names[1..]); }
  }

  /** A file that can be read stays readable, with the same bytes, through any adds, pins and unpins. */
  lemma FileSurvives(c: Config, r: Repo, cid: CID, ops: seq<StoreOp>)
    requires RepoInv(c, r) && GetFile(c, r.store, cid).Ok?
    requires forall i :: 0 <= i < |ops| ==> !ops[i].GcOp?
    ensures GetFile(c, Run(c, r, ops).store, cid) == GetFile(c, r.store, cid)
  {
    hide FromStr, ToStr, BlockPath, Run, RepoInv, ReadChunks;
    RunKeepsInv(c, r, ops);
    var m := c.decode(GetContent(c, r.store, cid).value).manifest;
    ReadChunksExtends(c, r.store, Run(c, r, ops).store, m.chunks);
  }

  // --- collection ------------------------------------------------------------------------

  /** gc leaves exactly the stored blocks whose CID is pinned, counts the others, and finds nothing on a second run. */
  lemma CollectExact(c: Config, r: Repo, cid: CID, now: real, later: real)
    requires RepoInv(c, r)
    ensures var (r', deleted) := Collect(r, now);
      && (BlockPath(cid) in r'.store.blocks <==> BlockPath(cid) in r.store.blocks && ToStr(cid) in r.pins)
      && deleted == |r.store.blocks| - |r'.store.blocks| >= 0
      && Collect(r', later) == (r'.(store := r'.store.(lastGcAt := later)), 0)
  {
    hide FromStr, ToStr, StoreInv, Collected, Kept, SumSizes, Canonical, PinnedSet;
    CollectIs(c, r, now);
    CollectKeepsInv(c, r, now);
    CollectIs(c, Collect(r, now).0, later);
    KeptExact(r.store.blocks, PinnedSet(r.pins), cid);
    PinnedSetExact(r.pins, cid);
  }

  lemma KeptExact(blocks: Blocks, pinned: set<CID>, cid: CID)
    ensures var kept := Kept(blocks, pinned);
      && (BlockPath(cid) in kept <==> BlockPath(cid) in blocks && cid in pinned)
      && |kept| <= |blocks| && Kept(kept, pinned) == kept
  {
    hide FromStr, ToStr;
    BlockPathParses(cid);
    var kept := Kept(blocks, pinned);
    assert kept.Keys <= blocks.Keys;
    SubsetSize(kept.Keys, blocks.Keys);
  }

  lemma GetAfterCollect(c: Config, r: Repo, cid: CID, now: real)
    requires RepoInv(c, r) && Get(c.hash, r.store, cid).Ok?
    ensures var st := Collect(r, now).0.store;
      if ToStr(cid) in r.pins then Get(c.hash, st, cid) == Get(c.hash, r.store, cid)
      else Get(c.hash, st, cid) == Err(NotFound)
  {
    CollectIs(c, r, now);
    hide Collected;
    hide FromStr, ToStr;
    BlockPathParses(cid);
    PinnedSetExact(r.pins, cid);
  }

  /** Every listed chunk is itself pinned. */
  ghost predicate ChunksPinned(pins: PinTable, names: seq<string>) {
    forall i :: 0 <= i < |names| ==> FromStr(names[i]).Ok? && ToStr(FromStr(names[i]).value) in pins
  }

  lemma {:induction false} ReadAfterCollect(c: Config, r: Repo, names: seq<string>, now: real)
    requires RepoInv(c, r) && ReadChunks(c, r.store, names).Ok?
    ensures var after := ReadChunks(c, Collect(r, now).0.store, names);
      if ChunksPinned(r.pins, names) then after == ReadChunks(c, r.store, names) else after == Err(ContentNotFound)
    decreases |names|
  {
    hide FromStr, ToStr, RepoInv, Collect, Get;
    if |names| > 0 {
      GetAfterCollect(c, r, FromStr(names[0]).value, now);
      ReadAfterCollect(c, r, names[1..], now);
      assert ChunksPinned(r.pins, names) <==> ToStr(FromStr(names[0]).value) in r.pins && ChunksPinned(r.pins, names[1..]) by {
        assert names == [names[0]] + names[1..];
      }
    }
  }

  /** A readable file whose manifest is pinned is readable after gc exactly when each of its chunks is itself
      pinned; its bytes are then unchanged. */
  lemma FileAfterCollect(c: Config, r: Repo, cid: CID, now: real)
    requires RepoInv(c, r) && GetFile(c, r.store, cid).Ok? && ToStr(cid) in r.pins
    ensures var names := c.decode(GetContent(c, r.store, cid).value).manifest.chunks;
      var after := GetFile(c, Collect(r, now).0.store, cid);
      if ChunksPinned(r.pins, names) then after == GetFile(c, r.store, cid) else after == Err(ContentNotFound)
  {
    hide FromStr, ToStr, RepoInv, Collect, Get, ReadChunks, ChunksPinned;
    GetAfterCollect(c, r, cid, now);
    ReadAfterCollect(c, r, c.decode(GetContent(c, r.store, cid).value).manifest.chunks, now);
  }

  /** The comment that chunks are retained through their manifest does not hold: after the next gc a file just added
      reads as before exactly if each of its chunks happens to be pinned for itself. */
  lemma AddedFileAfterCollect(c: Config, r: Repo, content: bytes, name: string, tags: seq<string>, chunkSize: int,
                              t0: real, t1: real)
    requires Faithful(c, ManifestOf(c, content, name, chunkSize, t0)) && RepoInv(c, r)
    requires CollisionFree(c.hash, Relevant(c, r, content, name, chunkSize, t0))
    requires AddFile(c, r, Some(content), name, tags, chunkSize, t0).1.Ok?
    ensures var (r', cid) := AddFile(c, r, Some(content), name, tags, chunkSize, t0);
      var chunks := Chunks(content, chunkSize);
      var pinned := forall i :: 0 <= i < |chunks| ==> ChunkName(c.hash, chunks[i]) in r.pins;
      GetFile(c, Collect(r', t1).0.store, cid.value) == if pinned then Ok(Concat(chunks)) else Err(ContentNotFound)
  {
    hide FromStr, ToStr, BlockPath, AddFile, Collect, GetFile, ReadChunks, Chunks, Get, ChunksPinned, RepoInv, Relevant, Faithful, Concat;
    var (r', cid) := AddFile(c, r, Some(content), name, tags, chunkSize, t0);
    AddFileStores(c, r, content, name, tags, chunkSize, t0);
    AddedFileReads(c, r, content, name, tags, chunkSize, t0);
    FileAfterCollect(c, r', cid.value, t1);
    ChunkPins(c.hash, r.pins, r'.pins, cid.value, ManifestOf(c, content, name, chunkSize, t0), Chunks(content, chunkSize));
  }

  /** The manifest's own pin, which has another codec, pins no chunk. */
  lemma ChunkPins(h: HashFn, pins: PinTable, pins': PinTable, cid: CID, m: Manifest, chunks: seq<bytes>)
    requires pins'.Keys == pins.Keys + {ToStr(cid)} && cid.codec == DagCbor && |m.chunks| == |chunks|
    requires forall i :: 0 <= i < |chunks| ==> m.chunks[i] == ChunkName(h, chunks[i])
    ensures ChunksPinned(pins', m.chunks) <==> forall i :: 0 <= i < |chunks| ==> ChunkName(h, chunks[i]) in pins
  {
    hide FromStr, ToStr;
    forall i | 0 <= i < |chunks|
      ensures FromStr(m.chunks[i]).Ok? && ToStr(FromStr(m.chunks[i]).value) == ChunkName(h, chunks[i]) != ToStr(cid)
    {
      var chunk := CID(h(chunks[i]), Raw);
      StrRoundTrip(chunk);
      if ToStr(chunk) == ToStr(cid) { ToStrInjective(chunk, cid); }
    }
  }

  /** So in a new repository a file with any content, added with a usable chunk size, is gone after the next gc. */
  lemma FreshFileLost(c: Config, content: bytes, name: string, tags: seq<string>, chunkSize: int, t0: real, t1: real)
    requires Faithful(c, ManifestOf(c, content, name, chunkSize, t0))
    requires CollisionFree(c.hash, Relevant(c, EMPTY_REPO, content, name, chunkSize, t0))
    requires AddFile(c, EMPTY_REPO, Some(content), name, tags, chunkSize, t0).1.Ok?
    ensures var (r, cid) := AddFile(c, EMPTY_REPO, Some(content), name, tags, chunkSize, t0);
      GetFile(c, Collect(r, t1).0.store, cid.value)
      == if chunkSize != 0 && |content| > 0 then Err(ContentNotFound) else Ok([])
  {
    hide FromStr, ToStr, BlockPath, AddFile, Collect, GetFile, Chunks, RepoInv, Relevant, Faithful, Concat;
    EmptyRepoInv(c);
    AddedFileAfterCollect(c, EMPTY_REPO, content, name, tags, chunkSize, t0, t1);
    ConcatChunks(content, chunkSize);
    NoChunks(content, chunkSize);
    var chunks := Chunks(content, chunkSize);
    if |chunks| > 0 { assert ChunkName(c.hash, chunks[0]) !in EMPTY_REPO.pins; }
  }

  /** A chunk size of zero is accepted: every non-empty file of legal size can be added and reads back empty. */
  lemma ZeroChunkSizeLosesFile(h: HashFn, content: bytes, name: string, tags: seq<string>, now: real)
    requires 0 < |content| <= MAX_FILE_SIZE
    ensures var m := Manifest(name, |content|, [], 0, now);
      var c := Config(h, (_: Manifest) => [], (_: bytes) => File(m), |content|, true);
      var (r, cid) := AddFile(c, EMPTY_REPO, Some(content), name, tags, 0, now);
      cid.Ok? && GetFile(c, r.store, cid.value) == Ok([])
  {
    hide FromStr, ToStr, BlockPath, RepoInv, Concat, GetFile;
    var m := Manifest(name, |content|, [], 0, now);
    var c := Config(h, (_: Manifest) => [], (_: bytes) => File(m), |content|, true);
    EmptyRepoInv(c);
    ConcatChunks(content, 0);
    NoChunks(content, 0);
    assert ManifestOf(c, content, name, 0, now) == m;
    AddedFileReads(c, EMPTY_REPO, content, name, tags, 0, now);
  }

  // --- the storage limit -----------------------------------------------------------------

  lemma PutBytes(h: HashFn, st: StoreState, data: bytes, codec: Codec)
    ensures var st' := Put(h, st, data, codec).0;
      st.totalBytes <= st'.totalBytes <= st.totalBytes + |data|
      && (|data| > MAX_BLOCK_SIZE ==> st' == st)
  {
    hide ToStr, BlockPath;
  }

  lemma {:induction false} PutChunksBytes(h: HashFn, st: StoreState, chunks: seq<bytes>)
    ensures st.totalBytes <= PutChunks(h, st, chunks).0.totalBytes <= st.totalBytes + |Concat(chunks)|
    decreases |chunks|
  {
    hide ToStr, Put;
    if |chunks| > 0 {
      PutBytes(h, st, chunks[0], Raw);
      PutChunksBytes(h, Put(h, st, chunks[0], Raw).0, chunks[1..]);
    }
  }

  /** add never takes the total above the limit, and refuses everything once it is above. */
  lemma AddWithinLimit(c: Config, r: Repo, data: bytes, codec: Codec, pin: bool, name: Option<string>, tags: seq<string>, now: real)
    ensures var (r', result) := Add(c, r, data, codec, pin, name, tags, now);
      && (r.store.totalBytes <= c.maxBytes ==> r'.store.totalBytes <= c.maxBytes)
      && (r.store.totalBytes > c.maxBytes ==> result == Err(StorageLimitExceeded) && r' == r)
  {
    hide ToStr, Put, Pin;
    PutBytes(c.hash, r.store, data, codec);
  }

  /** add_file overshoots by at most the manifest, which is one block, and refuses everything once the limit is passed. */
  lemma AddFileOvershoot(c: Config, r: Repo, content: bytes, name: string, tags: seq<string>, chunkSize: int, now: real)
    ensures var (r', result) := AddFile(c, r, Some(content), name, tags, chunkSize, now);
      && (r.store.totalBytes <= c.maxBytes ==> r'.store.totalBytes <= c.maxBytes + MAX_BLOCK_SIZE)
      && (r.store.totalBytes > c.maxBytes ==> result.Err? && r' == r)
      && (result.Err? && r.store.totalBytes <= c.maxBytes ==> r'.store.totalBytes <= c.maxBytes)
  {
    hide ToStr, Put, PutChunks, Pin, Chunks, Concat;
    var chunks := Chunks(content, chunkSize);
    var (st1, names) := PutChunks(c.hash, r.store, chunks);
    PutChunksBytes(c.hash, r.store, chunks);
    ConcatChunks(content, chunkSize);
    if names.Ok? {
      var manifest := c.encode(Manifest(name, |content|, names.value, chunkSize, now));
      PutBytes(c.hash, st1, manifest, DagCbor);
      FailedPut(c.hash, st1, manifest);
    }
  }

  lemma FailedPut(h: HashFn, st: StoreState, data: bytes)
    ensures Put(h, st, data, DagCbor).1.Err? <==> |data| > MAX_BLOCK_SIZE
  {
    hide ToStr, BlockPath;
  }

  lemma CollectShrinks(c: Config, r: Repo, now: real)
    requires RepoInv(c, r)
    ensures Collect(r, now).0.store.totalBytes <= r.store.totalBytes
  {
    CollectIs(c, r, now);
    hide Collected;
    hide FromStr, ToStr, BlockPath;
    SumOfSubmap(Kept(r.store.blocks, PinnedSet(r.pins)), r.store.blocks);
  }

  /** In every sequential run from an empty repository the total stays within one block of the limit. */
  lemma LimitHolds(c: Config, ops: seq<StoreOp>)
    ensures RepoInv(c, Run(c, EMPTY_REPO, ops))
    ensures Run(c, EMPTY_REPO, ops).store.totalBytes <= c.maxBytes + MAX_BLOCK_SIZE
  {
    hide RepoInv, Apply, ToStr, FromStr;
    EmptyRepoInv(c);
    LimitHoldsFrom(c, EMPTY_REPO, ops);
    RunKeepsInv(c, EMPTY_REPO, ops);
  }

  lemma EmptyRepoInv(c: Config)
    ensures RepoInv(c, EMPTY_REPO)
  {
    hide ToStr, FromStr;
  }

  lemma {:induction false} LimitHoldsFrom(c: Config, r: Repo, ops: seq<StoreOp>)
    requires RepoInv(c, r) && r.store.totalBytes <= c.maxBytes + MAX_BLOCK_SIZE
    ensures Run(c, r, ops).store.totalBytes <= c.maxBytes + MAX_BLOCK_SIZE
    decreases |ops|
  {
    hide RepoInv, ToStr, FromStr, Add, AddFile, Collect, Pin, Unpin;
    if |ops| > 0 {
      var r' := Apply(c, r, ops[0]);
      ApplyKeepsInv(c, r, ops[0]);
      match ops[0] {
        case AddOp(data, codec, pin, name, tags, now) => AddWithinLimit(c, r, data, codec, pin, name, tags, now);
        case AddFileOp(file, name, tags, chunkSize, now) =>
          if file.Some? { AddFileOvershoot(c, r, file.value, name, tags, chunkSize, now); } else { MissingFile(c, r, name, tags, chunkSize, now); }
        case GcOp(now) => CollectShrinks(c, r, now);
        case _ =>
      }
      LimitHoldsFrom(c, r', ops[1..]);
    }
  }

  lemma MissingFile(c: Config, r: Repo, name: string, tags: seq<string>, chunkSize: int, now: real)
    ensures AddFile(c, r, None, name, tags, chunkSize, now) == (r, Err(FileNotFound))
  {
  }
}
