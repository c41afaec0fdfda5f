/** The content store: adding bytes and chunked files, reading them back, pins and collection. */
module IpfsStore {
  import opened Common
  import opened Cid
  import opened BlockStore
  import opened Pins

  const MAX_FILE_SIZE: nat := 2 * 1024 * 1024 * 1024

  /** The JSON manifest of a chunked file. */
  datatype Manifest = Manifest(name: string, size: nat, chunks: seq<string>, chunkSize: int, addedAt: real)

  /** What json.loads and the "type" field make of a block. */
  datatype Parsed = Malformed | NotAFile | File(manifest: Manifest)

  datatype Config = Config(
    hash: HashFn, encode: Manifest -> bytes, decode: bytes -> Parsed, maxBytes: nat, autoPin: bool)

  /** The manifest survives being written as JSON and parsed. */
  ghost predicate Faithful(c: Config, m: Manifest) {
    c.decode(c.encode(m)) == File(m)
  }

  datatype IpfsError =
    | NotRunning | FileNotFound | FileTooLarge | StorageLimitExceeded | TooLargeBlock
    | ContentNotFound | IntegrityFailure | MalformedManifest | NotAFileManifest | BadChunkCid

  datatype Repo = Repo(store: StoreState, pins: PinTable)

  const EMPTY_REPO: Repo := Repo(EMPTY_STORE, map[])

  // --- adding ------------------------------------------------------------------------

  predicate Fits(c: Config, st: StoreState, incoming: nat) {
    st.totalBytes + incoming <= c.maxBytes
  }

  function Add(c: Config, r: Repo, data: bytes, codec: Codec, pin: bool, name: Option<string>,
               tags: seq<string>, now: real): (Repo, Result<CID, IpfsError>) {
    if !Fits(c, r.store, |data|) then (r, Err(StorageLimitExceeded))
    else
      var (st, cid) := Put(c.hash, r.store, data, codec);
      if cid.Err? then (r.(store := st), Err(TooLargeBlock))
      else
        (Repo(st, if pin || c.autoPin
                  then Pin(r.pins, cid.value, Recursive, name, Some(|data|), tags, now) else r.pins),
         Ok(cid.value))
  }

  /** f.read(n) at a position: up to n bytes, or everything when n is negative. */
  function ReadAt(content: bytes, pos: nat, n: int): bytes
    requires pos <= |content|
  {
    if n < 0 || pos + n > |content| then content[pos..] else content[pos..pos + n]
  }

  /** What reading until an empty result yields. */
  function Chunks(content: bytes, n: int): seq<bytes>
    decreases |content|
  {
    var chunk := ReadAt(content, 0, n);
    if |chunk| == 0 then [] else [chunk] + Chunks(content[|chunk|..], n)
  }

  function PutChunks(h: HashFn, st: StoreState, chunks: seq<bytes>): (StoreState, Result<seq<string>, StoreError>)
    decreases |chunks|
  {
    if |chunks| == 0 then (st, Ok([]))
    else
      var (st1, cid) := Put(h, st, chunks[0], Raw);
      if cid.Err? then (st1, Err(cid.error))
      else
        var (st2, rest) := PutChunks(h, st1, chunks[1..]);
        if rest.Err? then (st2, rest) else (st2, Ok([ToStr(cid.value)] + rest.value))
  }

  function AddFile(c: Config, r: Repo, file: Option<bytes>, name: string, tags: seq<string>,
                   chunkSize: int, now: real): (Repo, Result<CID, IpfsError>) {
    if file.None? then (r, Err(FileNotFound))
    else if |file.value| > MAX_FILE_SIZE then (r, Err(FileTooLarge))
    else if !Fits(c, r.store, |file.value|) then (r, Err(StorageLimitExceeded))
    else
      var (st1, cids) := PutChunks(c.hash, r.store, Chunks(file.value, chunkSize));
      if cids.Err? then (r.(store := st1), Err(TooLargeBlock))
      else
        var manifest := c.encode(Manifest(name, |file.value|, cids.value, chunkSize, now));
        var (st2, cid) := Put(c.hash, st1, manifest, DagCbor);
        if cid.Err? then (r.(store := st2), Err(TooLargeBlock))
        else (Repo(st2, Pin(r.pins, cid.value, Recursive, Some(name), Some(|file.value|), tags, now)), Ok(cid.value))
  }

  // --- reading -----------------------------------------------------------------------

  function GetContent(c: Config, st: StoreState, cid: CID): Result<bytes, IpfsError> {
    match Get(c.hash, st, cid)
    case Ok(data) => Ok(data)
    case Err(NotFound) => Err(ContentNotFound)
    case Err(_) => Err(IntegrityFailure)
  }

  function ReadChunks(c: Config, st: StoreState, names: seq<string>): Result<bytes, IpfsError>
    decreases |names|
  {
    if |names| == 0 then Ok([])
    else
      var cid := FromStr(names[0]);
      if cid.Err? then Err(BadChunkCid)
      else
        var chunk := GetContent(c, st, cid.value);
        if chunk.Err? then chunk
        else
          var rest := ReadChunks(c, st, names[1..]);
          if rest.Err? then rest else Ok(chunk.value + rest.value)
  }

  function GetFile(c: Config, st: StoreState, cid: CID): Result<bytes, IpfsError> {
    var data := GetContent(c, st, cid);
    if data.Err? then data
    else
      match c.decode(data.value)
      case Malformed => Err(MalformedManifest)
      case NotAFile => Err(NotAFileManifest)
      case File(m) => ReadChunks(c, st, m.chunks)
  }

  // --- the class ---------------------------------------------------------------------

  class Ipfs {
    const c: Config
    const blockstore: Store
    const pinManager: PinManager
    var running: bool

    constructor (c: Config)
      ensures this.c == c && running && Valid() && View() == EMPTY_REPO
      ensures fresh(blockstore) && fresh(pinManager)
    {
      this.c := c;
      blockstore := new Store(c.hash);
      pinManager := new PinManager();
      running := true;
    }

    ghost predicate Valid()
      reads this, blockstore
    {
      blockstore.h == c.hash && blockstore.isOpen
    }

    ghost function View(): Repo
      reads this, blockstore, pinManager
    {
      Repo(blockstore.View(), pinManager.pins)
    }

    method AddBytes(data: bytes, codec: Codec, pin: bool, name: Option<string>, tags: seq<string>, now: real)
      returns (r: Result<CID, IpfsError>)
      requires Valid()
      modifies blockstore, pinManager
      ensures Valid()
      ensures !running ==> View() == old(View()) && r == Err(NotRunning)
      ensures running ==> (View(), r) == Add(c, old(View()), data, codec, pin, name, tags, now)
    {
      hide ToStr, FromStr, StoreInv;
      if !running {
        return Err(NotRunning);
      }
      if blockstore.totalBytes + |data| > c.maxBytes {
        return Err(StorageLimitExceeded);
      }
      var cid := blockstore.PutBlock(data, codec);
      if cid.Err? {
        return Err(TooLargeBlock);
      }
      if pin || c.autoPin {
        var _ := pinManager.PinCid(cid.value, Recursive, name, Some(|data|), tags, now);
      }
      r := Ok(cid.value);
    }

    /** The read-and-store loop of add_file. */
    method StoreChunks(content: bytes, chunkSize: int) returns (cids: Result<seq<string>, StoreError>)
      requires Valid()
      modifies blockstore
      ensures Valid()
      ensures (blockstore.View(), cids) == PutChunks(c.hash, old(blockstore.View()), Chunks(content, chunkSize))
    {
      hide ToStr, FromStr, StoreInv, Put, Resumes;
      var names: seq<string> := [];
      var pos := 0;
      ResumesFromStart(c.hash, blockstore.View(), Chunks(content, chunkSize));
      assert content[0..] == content;
      while true
        invariant Valid() && pos <= |content|
        invariant Resumes(c.hash, old(blockstore.View()), Chunks(content, chunkSize),
                          blockstore.View(), names, Chunks(content[pos..], chunkSize))
        decreases |content| - pos
      {
        var chunk := ReadAt(content, pos, chunkSize);
        assert chunk == ReadAt(content[pos..], 0, chunkSize);
        if |chunk| == 0 {
          break;
        }
        assert content[pos..][|chunk|..] == content[pos + |chunk|..];
        ghost var todo := Chunks(content[pos..], chunkSize);
        assert todo[0] == chunk && todo[1..] == Chunks(content[pos + |chunk|..], chunkSize);
        ResumesAfterPut(c.hash, old(blockstore.View()), Chunks(content, chunkSize), blockstore.View(), names, todo);
        var cid := blockstore.PutBlock(chunk, Raw);
        if cid.Err? {
          return Err(cid.error);
        }
        names := names + [ToStr(cid.value)];
        pos := pos + |chunk|;
      }
      ResumesToEnd(c.hash, old(blockstore.View()), Chunks(content, chunkSize), blockstore.View(), names);
      cids := Ok(names);
    }

    method AddFileFrom(file: Option<bytes>, name: string, tags: seq<string>, chunkSize: int, now: real)
      returns (r: Result<CID, IpfsError>)
      requires Valid()
      modifies blockstore, pinManager
      ensures Valid()
      ensures !running ==> View() == old(View()) && r == Err(NotRunning)
      ensures running ==> (View(), r) == AddFile(c, old(View()), file, name, tags, chunkSize, now)
    {
      hide ToStr, FromStr, StoreInv, PutChunks, Chunks, Put;
      if !running {
        return Err(NotRunning);
      }
      if file.None? {
        return Err(FileNotFound);
      }
      if |file.value| > MAX_FILE_SIZE {
        return Err(FileTooLarge);
      }
      if blockstore.totalBytes + |file.value| > c.maxBytes {
        return Err(StorageLimitExceeded);
      }
      var cids := StoreChunks(file.value, chunkSize);
      if cids.Err? {
        return Err(TooLargeBlock);
      }
      var manifest := c.encode(Manifest(name, |file.value|, cids.value, chunkSize, now));
      var cid := blockstore.PutBlock(manifest, DagCbor);
      if cid.Err? {
        return Err(TooLargeBlock);
      }
      var _ := pinManager.PinCid(cid.value, Recursive, Some(name), Some(|file.value|), tags, now);
      r := Ok(cid.value);
    }

    method GetBytes(cid: CID) returns (r: Result<bytes, IpfsError>)
      requires Valid()
      ensures r == if running then GetContent(c, blockstore.View(), cid) else Err(NotRunning)
    {
      hide ToStr, FromStr, StoreInv;
      if !running {
        return Err(NotRunning);
      }
      var data := blockstore.GetBlock(cid);
      match data {
        case Ok(d) => r := Ok(d);
        case Err(NotFound) => r := Err(ContentNotFound);
        case Err(_) => r := Err(IntegrityFailure);
      }
    }

    method GetWholeFile(cid: CID) returns (r: Result<bytes, IpfsError>)
      requires Valid()
      ensures r == if running then GetFile(c, blockstore.View(), cid) else Err(NotRunning)
    {
      hide ToStr, FromStr, StoreInv, GetContent;
      if !running {
        return Err(NotRunning);
      }
      var data := GetBytes(cid);
      if data.Err? {
        return data;
      }
      var parsed := c.decode(data.value);
      if parsed.Malformed? {
        return Err(MalformedManifest);
      }
      if parsed.NotAFile? {
        return Err(NotAFileManifest);
      }
      var names := parsed.manifest.chunks;
      ghost var st := blockstore.View();
      var parts: bytes := [];
      assert names[0..] == names;
      if ReadChunks(c, st, names).Ok? { assert parts + ReadChunks(c, st, names).value == ReadChunks(c, st, names).value; }
      for i := 0 to |names|
        invariant ReadChunks(c, st, names)
               == var rest := ReadChunks(c, st, names[i..]); if rest.Err? then rest else Ok(parts + rest.value)
      {
        assert names[i..][0] == names[i] && names[i..][1..] == names[i + 1..];
        var chunkCid := FromStr(names[i]);
        if chunkCid.Err? {
          return Err(BadChunkCid);
        }
        var chunk := GetBytes(chunkCid.value);
        if chunk.Err? {
          return chunk;
        }
        ghost var rest := ReadChunks(c, st, names[i + 1..]);
        if rest.Ok? { assert parts + (chunk.value + rest.value) == (parts + chunk.value) + rest.value; }
        parts := parts + chunk.value;
      }
      assert names[|names|..] == [] && parts + [] == parts;
      r := Ok(parts);
    }

    method Gc(now: real) returns (r: Result<nat, IpfsError>)
      requires Valid()
      modifies blockstore
      ensures Valid() && (old(StoreInv(c.hash, blockstore.View())) ==> StoreInv(c.hash, blockstore.View()))
      ensures !running ==> View() == old(View()) && r == Err(NotRunning)
      ensures running ==> View() == Collect(old(View()), now).0 && r == Ok(Collect(old(View()), now).1)
    {
      hide ToStr, FromStr, Addressed, Kept, PinnedSet, Collected;
      if !running {
        return Err(NotRunning);
      }
      var pinned := pinManager.PinnedCids();
      var deleted := blockstore.GcOrphans(pinned, now);
      r := Ok(deleted.value);
    }
  }

  lemma ResumesFromStart(h: HashFn, st: StoreState, all: seq<bytes>)
    ensures Resumes(h, st, all, st, [], all)
  {
    var r := PutChunks(h, st, all).1;
    if r.Ok? { assert [] + r.value == r.value; }
  }

  lemma ResumesToEnd(h: HashFn, start: StoreState, all: seq<bytes>, st: StoreState, names: seq<string>)
    requires Resumes(h, start, all, st, names, [])
    ensures PutChunks(h, start, all) == (st, Ok(names))
  {
    assert names + [] == names;
  }

  lemma ResumesAfterPut(h: HashFn, start: StoreState, all: seq<bytes>, st: StoreState, names: seq<string>, todo: seq<bytes>)
    requires |todo| > 0 && Resumes(h, start, all, st, names, todo)
    ensures var (st1, cid) := Put(h, st, todo[0], Raw);
      if cid.Err? then PutChunks(h, start, all) == (st1, Err(cid.error))
      else Resumes(h, start, all, st1, names + [ToStr(cid.value)], todo[1..])
  {
    hide Put, ToStr;
    var (st1, cid) := Put(h, st, todo[0], Raw);
    if cid.Ok? {
      var rest := PutChunks(h, st1, todo[1..]).1;
      if rest.Ok? { assert names + ([ToStr(cid.value)] + rest.value) == names + [ToStr(cid.value)] + rest.value; }
    }
  }

  /** Storing all chunks is storing the rest from the present state and prefixing the names so far. */
  ghost predicate Resumes(h: HashFn, start: StoreState, all: seq<bytes>, st: StoreState, names: seq<string>, todo: seq<bytes>) {
    var whole, rest := PutChunks(h, start, all), PutChunks(h, st, todo);
    whole.0 == rest.0 && whole.1 == (if rest.1.Err? then rest.1 else Ok(names + rest.1.value))
  }

  /** Collection: the unpinned blocks go, and their number is returned. */
  ghost function Collect(r: Repo, now: real): (Repo, int) {
    var st := Collected(r.store, PinnedSet(r.pins), now);
    (r.(store := st), |r.store.blocks| - |st.blocks|)
  }
}
