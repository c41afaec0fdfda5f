/** The crypto key store: key records, rotation, retired keys, and the file they are kept in. */
module KeyStore {
  import opened Common

  const RETIRED_KEY_TTL: real := 86400.0

  type KeyId = string

  datatype PrivKey = PrivKey(raw: bytes)

  datatype KeyType = X25519Static | X25519Session | Hmac

  datatype KeyRecord = KeyRecord(
    keyId: KeyId, keyType: KeyType, createdAt: real, retiredAt: Option<real>, publicHex: Option<string>)

  /** A retired X25519 key as held in memory. */
  datatype Retired = Retired(keyId: KeyId, priv: PrivKey, retiredAt: real)

  /** The decrypted content of the key file; records keep the order in which they were inserted. */
  datatype Payload = Payload(records: seq<KeyRecord>, keys: map<KeyId, bytes>)

  datatype Disk = Absent | Unreadable | Stored(payload: Payload)

  datatype KeyState = KeyState(
    running: bool, records: seq<KeyRecord>, staticPriv: Option<PrivKey>, retired: seq<Retired>,
    hmacKey: Option<bytes>, disk: Disk)

  /** Random material for a full generation. */
  datatype Material = Material(staticId: KeyId, staticPriv: PrivKey, hmacId: KeyId, hmacKey: bytes)

  datatype KeyError = NotStarted | LoadFailed

  // --- records -------------------------------------------------------------------------

  predicate IsActive(r: KeyRecord, t: KeyType) {
    r.keyType == t && r.retiredAt.None?
  }

  /** A retirement time of zero counts as not retired here. */
  predicate IsExpired(r: KeyRecord, now: real) {
    r.retiredAt.Some? && r.retiredAt.value != 0.0 && now - r.retiredAt.value > RETIRED_KEY_TTL
  }

  /** Position of the first active record of a type. */
  function FirstActive(rs: seq<KeyRecord>, t: KeyType): (i: Option<nat>)
    ensures i.Some? ==> i.value < |rs| && IsActive(rs[i.value], t)
    ensures i.None? ==> forall j :: 0 <= j < |rs| ==> !IsActive(rs[j], t)
  {
    if |rs| == 0 then None
    else if IsActive(rs[0], t) then Some(0)
    else
      var rest := FirstActive(rs[1..], t);
      if rest.None? then
        assert forall j :: 0 < j < |rs| ==> rs[j] == rs[1..][j - 1];
        None
      else Some(rest.value + 1)
  }

  /** Dictionary insertion: an existing id keeps its place. */
  function Insert(rs: seq<KeyRecord>, r: KeyRecord): seq<KeyRecord> {
    if |rs| == 0 then [r]
    else if rs[0].keyId == r.keyId then [r] + rs[1..]
    else [rs[0]] + Insert(rs[1..], r)
  }

  function Retire(rs: seq<KeyRecord>, i: Option<nat>, now: real): seq<KeyRecord>
    requires i.Some? ==> i.value < |rs|
  {
    if i.None? then rs else rs[i.value := rs[i.value].(retiredAt := Some(now))]
  }

  // --- saving and loading -----------------------------------------------------------------

  function WithRetired(keys: map<KeyId, bytes>, retired: seq<Retired>): map<KeyId, bytes>
    decreases |retired|
  {
    if |retired| == 0 then keys
    else WithRetired(keys[retired[0].keyId := retired[0].priv.raw], retired[1..])
  }

  function Present(key: Option<bytes>): bool {
    key.Some? && |key.value| > 0
  }

  function SavedKeys(s: KeyState): map<KeyId, bytes> {
    var x, h := FirstActive(s.records, X25519Static), FirstActive(s.records, Hmac);
    var keys0 := if s.staticPriv.Some? && x.Some? then map[s.records[x.value].keyId := s.staticPriv.value.raw] else map[];
    var keys1 := WithRetired(keys0, s.retired);
    if Present(s.hmacKey) && h.Some? then keys1[s.records[h.value].keyId := s.hmacKey.value] else keys1
  }

  function Save(s: KeyState): KeyState {
    s.(disk := Stored(Payload(s.records, SavedKeys(s))))
  }

  function GenerateAll(pub: PrivKey -> string, s: KeyState, m: Material, now: real): KeyState {
    var rs := Insert(s.records, KeyRecord(m.staticId, X25519Static, now, None, Some(pub(m.staticPriv))));
    s.(records := Insert(rs, KeyRecord(m.hmacId, Hmac, now, None, None)),
       staticPriv := Some(m.staticPriv), hmacKey := Some(m.hmacKey))
  }

  /** Retired keys that are stored and have not expired, in record order. */
  function LoadedRetired(rs: seq<KeyRecord>, keys: map<KeyId, bytes>, now: real): seq<Retired>
    decreases |rs|
  {
    if |rs| == 0 then []
    else
      (if rs[0].keyType == X25519Static && rs[0].retiredAt.Some? && !IsExpired(rs[0], now) && rs[0].keyId in keys
       then [Retired(rs[0].keyId, PrivKey(keys[rs[0].keyId]), rs[0].retiredAt.value)] else [])
      + LoadedRetired(rs[1..], keys, now)
  }

  function LoadedKey(p: Payload, t: KeyType): Option<bytes> {
    var i := FirstActive(p.records, t);
    if i.Some? && p.records[i.value].keyId in p.keys then Some(p.keys[p.records[i.value].keyId]) else None
  }

  /** _load without its last step. */
  function Reload(s: KeyState, p: Payload, now: real): KeyState {
    var x, h := LoadedKey(p, X25519Static), LoadedKey(p, Hmac);
    s.(records := p.records,
       staticPriv := if x.Some? then Some(PrivKey(x.value)) else s.staticPriv,
       retired := s.retired + LoadedRetired(p.records, p.keys, now),
       hmacKey := if h.Some? then h else s.hmacKey)
  }

  /** Keys missing after a load are all generated anew. */
  predicate Regenerates(s: KeyState) {
    s.staticPriv.None? || !Present(s.hmacKey)
  }

  function Load(pub: PrivKey -> string, s: KeyState, p: Payload, m: Material, now: real): KeyState {
    var s' := Reload(s, p, now);
    if Regenerates(s') then Save(GenerateAll(pub, s', m, now)) else s'
  }

  // --- operations ---------------------------------------------------------------------------

  function Start(pub: PrivKey -> string, s: KeyState, m: Material, now: real): (KeyState, Result<(), KeyError>) {
    if s.running then (s, Ok(()))
    else
      match s.disk
      case Absent => (Save(GenerateAll(pub, s, m, now)).(running := true), Ok(()))
      case Unreadable => (s, Err(LoadFailed))
      case Stored(p) => (Load(pub, s, p, m, now).(running := true), Ok(()))
  }

  function Stop(s: KeyState): KeyState {
    if !s.running then s
    else Save(s).(staticPriv := None, hmacKey := None, retired := [], running := false)
  }

  function Pruned(retired: seq<Retired>, now: real): seq<Retired>
    decreases |retired|
  {
    if |retired| == 0 then []
    else (if now - retired[0].retiredAt <= RETIRED_KEY_TTL then [retired[0]] else []) + Pruned(retired[1..], now)
  }

  /** The three clock readings of a rotation: retiring, creating, pruning. */
  function RotateStatic(pub: PrivKey -> string, s: KeyState, id: KeyId, priv: PrivKey,
                        retireAt: real, createAt: real, pruneAt: real): (KeyState, Result<KeyRecord, KeyError>) {
    if !s.running then (s, Err(NotStarted))
    else
      var active := FirstActive(s.records, X25519Static);
      var retiring := active.Some? && s.staticPriv.Some?;
      var rs := if retiring then Retire(s.records, active, retireAt) else s.records;
      var retired := if retiring
                     then s.retired + [Retired(s.records[active.value].keyId, s.staticPriv.value, retireAt)] else s.retired;
      var record := KeyRecord(id, X25519Static, createAt, None, Some(pub(priv)));
      (Save(s.(records := Insert(rs, record), staticPriv := Some(priv), retired := Pruned(retired, pruneAt))), Ok(record))
  }

  /** Does not look at whether the store is running. */
  function RotateHmac(s: KeyState, id: KeyId, key: bytes, retireAt: real, createAt: real): KeyState {
    var rs := Retire(s.records, FirstActive(s.records, Hmac), retireAt);
    Save(s.(hmacKey := Some(key), records := Insert(rs, KeyRecord(id, Hmac, createAt, None, None))))
  }

  function GetRetired(retired: seq<Retired>, id: KeyId): Option<PrivKey>
    decreases |retired|
  {
    if |retired| == 0 then None
    else if retired[0].keyId == id then Some(retired[0].priv)
    else GetRetired(retired[1..], id)
  }

  /** A new store object on the file a previous process left. */
  function Reopen(s: KeyState): KeyState {
    KeyState(false, [], None, [], None, s.disk)
  }

  // --- the class ------------------------------------------------------------------------------

  class CryptoKeyStore {
    const pub: PrivKey -> string
    var running: bool
    var records: seq<KeyRecord>
    var staticPriv: Option<PrivKey>
    var retired: seq<Retired>
    var hmacKey: Option<bytes>
    var disk: Disk

    constructor (pub: PrivKey -> string, disk: Disk)
      ensures this.pub == pub && View() == KeyState(false, [], None, [], None, disk)
    {
      this.pub, this.disk := pub, disk;
      running, records, staticPriv, retired, hmacKey := false, [], None, [], None;
    }

    ghost function View(): KeyState
      reads this
    {
      KeyState(running, records, staticPriv, retired, hmacKey, disk)
    }

    method SaveFile()
      modifies this`disk
      ensures View() == Save(old(View()))
    {
      var keys: map<KeyId, bytes> := map[];
      if staticPriv.Some? {
        var active := FirstActive(records, X25519Static);
        if active.Some? {
          keys := keys[records[active.value].keyId := staticPriv.value.raw];
        }
      }
      ghost var keys0 := keys;
      assert retired[0..] == retired;
      for i := 0 to |retired|
        invariant WithRetired(keys, retired[i..]) == WithRetired(keys0, retired)
      {
        assert retired[i..][0] == retired[i] && retired[i..][1..] == retired[i + 1..];
        keys := keys[retired[i].keyId := retired[i].priv.raw];
      }
      if Present(hmacKey) {
        var active := FirstActive(records, Hmac);
        if active.Some? {
          keys := keys[records[active.value].keyId := hmacKey.value];
        }
      }
      disk := Stored(Payload(records, keys));
    }

    method Generate(m: Material, now: real)
      modifies this`records, this`staticPriv, this`hmacKey
      ensures View() == GenerateAll(pub, old(View()), m, now)
    {
      records := Insert(records, KeyRecord(m.staticId, X25519Static, now, None, Some(pub(m.staticPriv))));
      staticPriv := Some(m.staticPriv);
      hmacKey := Some(m.hmacKey);
      records := Insert(records, KeyRecord(m.hmacId, Hmac, now, None, None));
    }

    method LoadFile(p: Payload, m: Material, now: real)
      modifies this
      ensures View() == Load(pub, old(View()), p, m, now)
    {
      records := p.records;
      var x := LoadedKey(p, X25519Static);
      if x.Some? {
        staticPriv := Some(PrivKey(x.value));
      }
      LoadRetired(p, now);
      var h := LoadedKey(p, Hmac);
      if h.Some? {
        hmacKey := h;
      }
      if staticPriv.None? || !Present(hmacKey) {
        Generate(m, now);
        SaveFile();
      }
    }

    /** The loop that restores the private keys of retired records still within their time. */
    method LoadRetired(p: Payload, now: real)
      modifies this`retired
      ensures retired == old(retired) + LoadedRetired(p.records, p.keys, now)
    {
      assert p.records[0..] == p.records;
      for i := 0 to |p.records|
        invariant retired + LoadedRetired(p.records[i..], p.keys, now)
               == old(retired) + LoadedRetired(p.records, p.keys, now)
      {
        var rec := p.records[i];
        assert p.records[i..][0] == rec && p.records[i..][1..] == p.records[i + 1..];
        ghost var rest := LoadedRetired(p.records[i + 1..], p.keys, now);
        if rec.keyType == X25519Static && rec.retiredAt.Some? && !IsExpired(rec, now) && rec.keyId in p.keys {
          var entry := Retired(rec.keyId, PrivKey(p.keys[rec.keyId]), rec.retiredAt.value);
          assert retired + ([entry] + rest) == retired + [entry] + rest;
          retired := retired + [entry];
        } else {
          assert retired + ([] + rest) == retired + rest;
        }
      }
      assert LoadedRetired(p.records[|p.records|..], p.keys, now) == [] && retired + [] == retired;
    }

    method StartStore(m: Material, now: real) returns (r: Result<(), KeyError>)
      modifies this
      ensures (View(), r) == Start(pub, old(View()), m, now)
    {
      if running {
        return Ok(());
      }
      match disk {
        case Stored(p) => LoadFile(p, m, now);
        case Unreadable => return Err(LoadFailed);
        case Absent => Generate(m, now); SaveFile();
      }
      running := true;
      r := Ok(());
    }

    method StopStore()
      modifies this
      ensures View() == Stop(old(View()))
    {
      if !running {
        return;
      }
      SaveFile();
      staticPriv, hmacKey, retired, running := None, None, [], false;
    }

    method RotateStaticKey(id: KeyId, priv: PrivKey, retireAt: real, createAt: real, pruneAt: real)
      returns (r: Result<KeyRecord, KeyError>)
      modifies this
      ensures (View(), r) == RotateStatic(pub, old(View()), id, priv, retireAt, createAt, pruneAt)
    {
      if !running {
        return Err(NotStarted);
      }
      var active := FirstActive(records, X25519Static);
      if active.Some? && staticPriv.Some? {
        records := records[active.value := records[active.value].(retiredAt := Some(retireAt))];
        retired := retired + [Retired(records[active.value].keyId, staticPriv.value, retireAt)];
      }
      var record := KeyRecord(id, X25519Static, createAt, None, Some(pub(priv)));
      records := Insert(records, record);
      staticPriv := Some(priv);
      retired := Pruned(retired, pruneAt);
      SaveFile();
      r := Ok(record);
    }

    method RotateHmacKey(id: KeyId, key: bytes, retireAt: real, createAt: real)
      modifies this
      ensures View() == RotateHmac(old(View()), id, key, retireAt, createAt)
    {
      hmacKey := Some(key);
      var active := FirstActive(records, Hmac);
      if active.Some? {
        records := records[active.value := records[active.value].(retiredAt := Some(retireAt))];
      }
      records := Insert(records, KeyRecord(id, Hmac, createAt, None, None));
      SaveFile();
    }

    method GetRetiredPriv(id: KeyId) returns (r: Option<PrivKey>)
      ensures r == GetRetired(retired, id)
    {
      assert retired[0..] == retired;
      for i := 0 to |retired|
        invariant GetRetired(retired, id) == GetRetired(retired[i..], id)
      {
        assert retired[i..][0] == retired[i] && retired[i..][1..] == retired[i + 1..];
        if retired[i].keyId == id {
          return Some(retired[i].priv);
        }
      }
      r := None;
    }
  }
}
