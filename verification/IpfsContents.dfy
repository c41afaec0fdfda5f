/** What single contents and pins become, and that damaged blocks are never passed off as contents. */
module IpfsContents {
  import opened Common
  import opened Cid
  import opened BlockStore
  import opened Pins
  import opened IpfsStore
  import opened IpfsProperties

  // --- add ---------------------------------------------------------------------------------------

  /** add succeeds exactly within the capacity and the block limit, and changes nothing otherwise. What it returned reads
      as the data, is pinned if it was, if the caller asks for it or by configuration, and reads as the data after a
      collection exactly if it is pinned. */
  lemma AddedContentReads(c: Config, r: Repo, data: bytes, codec: Codec, pin: bool, name: Option<string>,
                          tags: seq<string>, now: real, later: real)
    requires RepoInv(c, r) && CollisionFree(c.hash, r.store.blocks.Values + {data})
    ensures var (r', result) := Add(c, r, data, codec, pin, name, tags, now);
      && (result.Ok? <==> r.store.totalBytes + |data| <= c.maxBytes && |data| <= 16 * 1024 * 1024)
      && (result.Err? ==> r' == r)
      && (result.Ok? ==>
            && result.value == CID(c.hash(data), codec) && RepoInv(c, r')
            && GetContent(c, r'.store, result.value) == Ok(data)
            && (ToStr(result.value) in r'.pins <==> ToStr(result.value) in r.pins || pin || c.autoPin)
            && (forall s :: s != ToStr(result.value) ==> (s in r'.pins <==> s in r.pins))
            && GetContent(c, Collect(r', later).0.store, result.value)
               == if ToStr(result.value) in r'.pins then Ok(data) else Err(ContentNotFound))
  {
    AddResult(c, r, data, codec, pin, name, tags, now);
    hide FromStr, ToStr, Put, Add, BlockPath, RepoInv, Pin, Get, CollisionFree, Collect;
    var (r', result) := Add(c, r, data, codec, pin, name, tags, now);
    if result.Ok? {
      AddedStored(c, r, r', data, codec, pin || c.autoPin, name, tags, now);
      AddedCollected(c, r', data, codec, later);
    }
  }

  lemma AddedStored(c: Config, r: Repo, r': Repo, data: bytes, codec: Codec, pin: bool, name: Option<string>,
                    tags: seq<string>, now: real)
    requires RepoInv(c, r) && CollisionFree(c.hash, r.store.blocks.Values + {data}) && |data| <= MAX_BLOCK_SIZE
    requires r'.store == Put(c.hash, r.store, data, codec).0
    requires r'.pins == if pin then Pin(r.pins, CID(c.hash(data), codec), Recursive, name, Some(|data|), tags, now) else r.pins
    ensures var cid := CID(c.hash(data), codec);
      && RepoInv(c, r') && Get(c.hash, r'.store, cid) == Ok(data)
      && (ToStr(cid) in r'.pins <==> ToStr(cid) in r.pins || pin)
      && (forall s :: s != ToStr(cid) ==> (s in r'.pins <==> s in r.pins))
  {
    var cid := CID(c.hash(data), codec);
    hide FromStr, ToStr, BlockPath, Put, StoreInv, Canonical, Get;
    PutStores(c.hash, r.store, data, codec);
    PutExtends(c.hash, r.store, data, codec);
    PutKeepsInv(c.hash, r.store, data, codec);
    PinKeepsCanonical(r.pins, cid, Recursive, name, Some(|data|), tags, now);
    GetStored(c.hash, r'.store, data, codec, r.store.blocks.Values + {data});
  }

  lemma AddedCollected(c: Config, r: Repo, data: bytes, codec: Codec, later: real)
    requires RepoInv(c, r) && Get(c.hash, r.store, CID(c.hash(data), codec)) == Ok(data)
    ensures GetContent(c, Collect(r, later).0.store, CID(c.hash(data), codec))
      == if ToStr(CID(c.hash(data), codec)) in r.pins then Ok(data) else Err(ContentNotFound)
  {
    hide FromStr, ToStr, BlockPath, RepoInv, Get, Collect;
    GetAfterCollect(c, r, CID(c.hash(data), codec), later);
  }

  lemma AddResult(c: Config, r: Repo, data: bytes, codec: Codec, pin: bool, name: Option<string>, tags: seq<string>, now: real)
    ensures var (r', result) := Add(c, r, data, codec, pin, name, tags, now);
      if r.store.totalBytes + |data| <= c.maxBytes && |data| <= 16 * 1024 * 1024
      then && result == Ok(CID(c.hash(data), codec)) && r'.store == Put(c.hash, r.store, data, codec).0
           && r'.pins == (if pin || c.autoPin then Pin(r.pins, CID(c.hash(data), codec), Recursive, name, Some(|data|), tags, now)
                          else r.pins)
      else result.Err? && r' == r
  {
    hide FromStr, ToStr, BlockPath, Pin;
  }

  /** It reads as the data after any further adds, pins and unpins. */
  lemma AddedContentStays(c: Config, r: Repo, data: bytes, codec: Codec, pin: bool, name: Option<string>,
                          tags: seq<string>, now: real, ops: seq<StoreOp>)
    requires RepoInv(c, r) && CollisionFree(c.hash, r.store.blocks.Values + {data})
    requires Add(c, r, data, codec, pin, name, tags, now).1.Ok?
    requires forall i :: 0 <= i < |ops| ==> !ops[i].GcOp?
    ensures var (r', result) := Add(c, r, data, codec, pin, name, tags, now);
      GetContent(c, Run(c, r', ops).store, result.value) == Ok(data)
  {
    hide Add, RepoInv, Collect, Apply, Run, ToStr, FromStr, BlockPath, CollisionFree, GetContent, Extends;
    AddedContentReads(c, r, data, codec, pin, name, tags, now, now);
    var (r', result) := Add(c, r, data, codec, pin, name, tags, now);
    RunKeepsInv(c, r', ops);
    StillReads(c, r'.store, Run(c, r', ops).store, result.value);
  }

  lemma StillReads(c: Config, st: StoreState, st': StoreState, cid: CID)
    requires Extends(st, st') && GetContent(c, st, cid).Ok?
    ensures GetContent(c, st', cid) == GetContent(c, st, cid)
  {
    hide ToStr, FromStr, BlockPath;
  }

  // --- damaged blocks -----------------------------------------------------------------------------

  /** The block of a content is there and undamaged. */
  predicate Intact(h: HashFn, st: StoreState, data: bytes, codec: Codec) {
    var p := BlockPath(CID(h(data), codec));
    p in st.blocks && st.blocks[p] == data
  }

  /** Whatever has become of the files: looking up a content gives it back if its block is intact, and otherwise says
      that it is missing or damaged. */
  lemma GetNeverLies(c: Config, st: StoreState, data: bytes, codec: Codec)
    requires CollisionFree(c.hash, st.blocks.Values + {data})
    ensures GetContent(c, st, CID(c.hash(data), codec))
      == if Intact(c.hash, st, data, codec) then Ok(data)
         else if BlockPath(CID(c.hash(data), codec)) in st.blocks then Err(IntegrityFailure) else Err(ContentNotFound)
  {
    hide FromStr, ToStr;
    var p := BlockPath(CID(c.hash(data), codec));
    if p in st.blocks { assert st.blocks[p] in st.blocks.Values; }
  }

  /** All blocks of a file are there and undamaged. */
  ghost predicate FileIntact(c: Config, st: StoreState, content: bytes, name: string, chunkSize: int, now: real) {
    && Intact(c.hash, st, c.encode(ManifestOf(c, content, name, chunkSize, now)), DagCbor)
    && forall i :: 0 <= i < |Chunks(content, chunkSize)| ==> Intact(c.hash, st, Chunks(content, chunkSize)[i], Raw)
  }

  lemma {:induction false} ChunksNeverLie(c: Config, st: StoreState, chunks: seq<bytes>, names: seq<string>)
    requires |names| == |chunks| && forall i :: 0 <= i < |chunks| ==> names[i] == ChunkName(c.hash, chunks[i])
    requires forall i :: 0 <= i < |chunks| ==> CollisionFree(c.hash, st.blocks.Values + {chunks[i]})
    ensures ReadChunks(c, st, names).Ok? <==> forall i :: 0 <= i < |chunks| ==> Intact(c.hash, st, chunks[i], Raw)
    ensures ReadChunks(c, st, names).Ok? ==> ReadChunks(c, st, names).value == Concat(chunks)
    decreases |chunks|
  {
    hide FromStr, ToStr, Intact, GetContent, CollisionFree, BlockPath;
    if |chunks| > 0 {
      StrRoundTrip(CID(c.hash(chunks[0]), Raw));
      GetNeverLies(c, st, chunks[0], Raw);
      forall i | 0 <= i < |chunks[1..]|
        ensures names[1..][i] == ChunkName(c.hash, chunks[1..][i]) && CollisionFree(c.hash, st.blocks.Values + {chunks[1..][i]})
      {
        assert chunks[1..][i] == chunks[i + 1] && names[1..][i] == names[i + 1];
      }
      ChunksNeverLie(c, st, chunks[1..], names[1..]);
      assert forall i :: 0 < i < |chunks| ==> chunks[i] == chunks[1..][i - 1];
      assert (forall i :: 0 <= i < |chunks[1..]| ==> Intact(c.hash, st, chunks[1..][i], Raw)) <==>
        (forall i :: 0 < i < |chunks| ==> Intact(c.hash, st, chunks[i], Raw)) by {
        assert forall i :: 0 <= i < |chunks[1..]| ==> chunks[1..][i] == chunks[i + 1];
      }
    }
  }

  /** Whatever has become of the files: a file reads exactly if all its blocks are intact, and never as anything else. */
  lemma FileNeverLies(c: Config, st: StoreState, content: bytes, name: string, chunkSize: int, now: real)
    requires Faithful(c, ManifestOf(c, content, name, chunkSize, now))
    requires CollisionFree(c.hash, st.blocks.Values + {c.encode(ManifestOf(c, content, name, chunkSize, now))})
    requires forall i :: 0 <= i < |Chunks(content, chunkSize)| ==>
      CollisionFree(c.hash, st.blocks.Values + {Chunks(content, chunkSize)[i]})
    ensures var result := GetFile(c, st, CID(c.hash(c.encode(ManifestOf(c, content, name, chunkSize, now))), DagCbor));
      && (result.Ok? <==> FileIntact(c, st, content, name, chunkSize, now))
      && (result.Ok? ==> result.value == Concat(Chunks(content, chunkSize)))
  {
    hide FromStr, ToStr, Chunks, GetContent, CollisionFree, ReadChunks, Intact, BlockPath;
    var m := ManifestOf(c, content, name, chunkSize, now);
    GetNeverLies(c, st, c.encode(m), DagCbor);
    ChunksNeverLie(c, st, Chunks(content, chunkSize), m.chunks);
  }

  // --- what get_file makes of any manifest -----------------------------------------------------------

  /** The contents behind one name of a manifest. */
  function NamedContent(c: Config, st: StoreState, name: string): Result<bytes, IpfsError> {
    var cid := FromStr(name);
    if cid.Err? then Err(BadChunkCid) else GetContent(c, st, cid.value)
  }

  /** The first name that cannot be read. */
  predicate FirstUnread(c: Config, st: StoreState, names: seq<string>, i: int) {
    && 0 <= i < |names| && NamedContent(c, st, names[i]).Err?
    && forall j :: 0 <= j < i ==> NamedContent(c, st, names[j]).Ok?
  }

  lemma {:induction false} ReadUntil(c: Config, st: StoreState, names: seq<string>, i: nat)
    requires FirstUnread(c, st, names, i)
    ensures ReadChunks(c, st, names) == NamedContent(c, st, names[i])
    decreases i
  {
    hide FromStr, GetContent;
    if i > 0 {
      assert NamedContent(c, st, names[0]).Ok?;
      assert names[1..][i - 1] == names[i];
      forall j | 0 <= j < i - 1 ensures NamedContent(c, st, names[1..][j]).Ok? {
        assert NamedContent(c, st, names[j + 1]).Ok?;
      }
      ReadUntil(c, st, names[1..], i - 1);
    }
  }

  lemma {:induction false} ReadAll(c: Config, st: StoreState, names: seq<string>, parts: seq<bytes>)
    requires |parts| == |names| && forall i :: 0 <= i < |names| ==> NamedContent(c, st, names[i]) == Ok(parts[i])
    ensures ReadChunks(c, st, names) == Ok(Concat(parts))
    decreases |names|
  {
    hide FromStr, GetContent;
    if |names| > 0 {
      assert NamedContent(c, st, names[0]) == Ok(parts[0]);
      forall j | 0 <= j < |names| - 1 ensures NamedContent(c, st, names[1..][j]) == Ok(parts[1..][j]) {
        assert NamedContent(c, st, names[j + 1]) == Ok(parts[j + 1]);
      }
      ReadAll(c, st, names[1..], parts[1..]);
    }
  }

  /** What reading a file gives for any block and any manifest: the contents of its names in order, or the error of the
      manifest, or of the first name that cannot be read. */
  lemma AnyManifest(c: Config, st: StoreState, cid: CID)
    ensures var result, data := GetFile(c, st, cid), GetContent(c, st, cid);
      && (data.Err? ==> result == data)
      && (data.Ok? && c.decode(data.value) == Malformed ==> result == Err(MalformedManifest))
      && (data.Ok? && c.decode(data.value) == NotAFile ==> result == Err(NotAFileManifest))
      && (data.Ok? && c.decode(data.value).File? ==>
            var names := c.decode(data.value).manifest.chunks;
            && (forall i :: 0 <= i < |names| && FirstUnread(c, st, names, i) ==> result == NamedContent(c, st, names[i]))
            && (forall parts: seq<bytes> ::
                  |parts| == |names| && (forall i :: 0 <= i < |names| ==> NamedContent(c, st, names[i]) == Ok(parts[i]))
                  ==> result == Ok(Concat(parts))))
  {
    hide FromStr, GetContent, NamedContent, FirstUnread;
    var data := GetContent(c, st, cid);
    if data.Ok? && c.decode(data.value).File? {
      var names := c.decode(data.value).manifest.chunks;
      forall i | 0 <= i < |names| && FirstUnread(c, st, names, i)
        ensures GetFile(c, st, cid) == NamedContent(c, st, names[i])
      {
        ReadUntil(c, st, names, i);
      }
      forall parts: seq<bytes> | |parts| == |names| && (forall i :: 0 <= i < |names| ==> NamedContent(c, st, names[i]) == Ok(parts[i]))
        ensures GetFile(c, st, cid) == Ok(Concat(parts))
      {
        ReadAll(c, st, names, parts);
      }
    }
  }

  // --- pins over a run ------------------------------------------------------------------------------

  /** The pin that an operation makes for a CID, in the repository it starts from. */
  ghost function PinMade(c: Config, r: Repo, op: StoreOp, cid: CID): Option<PinRecord> {
    match op
    case AddOp(data, codec, pin, name, tags, now) =>
      if r.store.totalBytes + |data| <= c.maxBytes && |data| <= 16 * 1024 * 1024 && (pin || c.autoPin)
         && cid == CID(c.hash(data), codec)
      then Some(PinRecord(ToStr(cid), Recursive, name, now, Some(|data|), tags)) else None
    case AddFileOp(file, name, tags, chunkSize, now) =>
      if file.Some? && AddFile(c, r, file, name, tags, chunkSize, now).1 == Ok(cid)
      then Some(PinRecord(ToStr(cid), Recursive, Some(name), now, Some(|file.value|), tags)) else None
    case PinOp(x, name, tags, now) =>
      if x == cid then Some(PinRecord(ToStr(cid), Recursive, name, now, None, tags)) else None
    case _ => None
  }

  lemma OnePin(c: Config, r: Repo, op: StoreOp, cid: CID)
    ensures var pins, pins', made := r.pins, Apply(c, r, op).pins, PinMade(c, r, op, cid);
      if op == UnpinOp(cid) then ToStr(cid) !in pins'
      else if ToStr(cid) in pins then ToStr(cid) in pins' && pins'[ToStr(cid)] == pins[ToStr(cid)]
      else (ToStr(cid) in pins' <==> made.Some?) && (made.Some? ==> pins'[ToStr(cid)] == made.value)
  {
    match op {
      case AddOp(data, codec, pin, name, tags, now) =>
        AddResult(c, r, data, codec, pin, name, tags, now);
        DifferentNames(cid, CID(c.hash(data), codec));
      case AddFileOp(file, name, tags, chunkSize, now) =>
        AddFileKeepsPins(c, r, file, name, tags, chunkSize, now);
        if AddFile(c, r, file, name, tags, chunkSize, now).1.Ok? {
          DifferentNames(cid, AddFile(c, r, file, name, tags, chunkSize, now).1.value);
        }
      case PinOp(x, name, tags, now) => DifferentNames(cid, x);
      case UnpinOp(x) => DifferentNames(cid, x);
      case GcOp(now) =>
    }
    hide FromStr, ToStr, Add, AddFile, Collected;
  }

  lemma DifferentNames(a: CID, b: CID)
    ensures ToStr(a) == ToStr(b) <==> a == b
  {
    hide FromStr, ToStr;
    if ToStr(a) == ToStr(b) { ToStrInjective(a, b); }
  }

  lemma AddFileKeepsPins(c: Config, r: Repo, file: Option<bytes>, name: string, tags: seq<string>, chunkSize: int, now: real)
    ensures var (r', result) := AddFile(c, r, file, name, tags, chunkSize, now);
      r'.pins == if result.Ok? && file.Some?
                 then Pin(r.pins, result.value, Recursive, Some(name), Some(|file.value|), tags, now) else r.pins
  {
    hide FromStr, ToStr, Put, PutChunks, Chunks, Pin;
  }

  lemma {:induction false} RunAppend(c: Config, r: Repo, ops: seq<StoreOp>, op: StoreOp)
    ensures Run(c, r, ops + [op]) == Apply(c, Run(c, r, ops), op)
    decreases |ops|
  {
    hide Apply;
    if |ops| > 0 {
      assert (ops + [op])[1..] == ops[1..] + [op];
      RunAppend(c, Apply(c, r, ops[0]), ops[1..], op);
    } else {
      assert (ops + [op])[1..] == [];
    }
  }

  /** The i-th operation pins the CID while it is not pinned, and none since has unpinned it. */
  ghost predicate PinnedBy(c: Config, ops: seq<StoreOp>, i: nat, cid: CID) {
    && i < |ops| && PinMade(c, Run(c, EMPTY_REPO, ops[..i]), ops[i], cid).Some?
    && ToStr(cid) !in Run(c, EMPTY_REPO, ops[..i]).pins
    && forall j :: i < j < |ops| ==> ops[j] != UnpinOp(cid)
  }

  /** In every run from an empty repository a CID is pinned exactly when some operation pinned it and none since has
      unpinned it, and its record is the one that operation made. */
  lemma {:induction false} PinnedInRun(c: Config, ops: seq<StoreOp>, cid: CID)
    ensures var pins := Run(c, EMPTY_REPO, ops).pins;
      && (ToStr(cid) in pins <==> exists i: nat :: PinnedBy(c, ops, i, cid))
      && (forall i: nat :: PinnedBy(c, ops, i, cid) ==>
            ToStr(cid) in pins && pins[ToStr(cid)] == PinMade(c, Run(c, EMPTY_REPO, ops[..i]), ops[i], cid).value)
    decreases |ops|
  {
    hide ToStr, FromStr, PinMade, Apply;
    if |ops| > 0 {
      var n: nat := |ops| - 1;
      var front, op := ops[..n], ops[n];
      var before := Run(c, EMPTY_REPO, front);
      assert front + [op] == ops;
      PinnedInRun(c, front, cid);
      RunAppend(c, EMPTY_REPO, front, op);
      OnePin(c, before, op, cid);
      forall i: nat
        ensures PinnedBy(c, ops, i, cid) <==>
          if i < n then PinnedBy(c, front, i, cid) && op != UnpinOp(cid)
          else i == n && PinMade(c, before, op, cid).Some? && ToStr(cid) !in before.pins
        ensures i < n ==> ops[..i] == front[..i] && ops[i] == front[i]
      {
        if i < n { assert ops[..i] == front[..i] && ops[i] == front[i]; }
      }
      UnpinPinsNothing(c, before, cid);
      hide PinnedBy, Run;
      if ToStr(cid) in Run(c, EMPTY_REPO, ops).pins {
        if ToStr(cid) in before.pins {
          var i: nat :| PinnedBy(c, front, i, cid);
          InRange(c, front, i, cid);
          assert PinnedBy(c, ops, i, cid);
        } else {
          assert PinnedBy(c, ops, n, cid);
        }
      }
    } else {
      assert Run(c, EMPTY_REPO, ops) == EMPTY_REPO;
      forall i: nat ensures !PinnedBy(c, ops, i, cid) {}
    }
  }

  lemma UnpinPinsNothing(c: Config, r: Repo, cid: CID)
    ensures PinMade(c, r, UnpinOp(cid), cid) == None
  {
  }

  lemma InRange(c: Config, ops: seq<StoreOp>, i: nat, cid: CID)
    requires PinnedBy(c, ops, i, cid)
    ensures i < |ops|
  {
  }
}
