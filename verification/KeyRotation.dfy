/** Whole-run properties of the key store: retention of retired keys and the active keys. */
module KeyRotation {
  import opened Common
  import opened KeyStore

  /** The store with the history of retirements, the latest clock reading and the ids used so far. */
  datatype KeySys = KeySys(s: KeyState, log: seq<Retired>, clock: real, used: set<KeyId>)

  datatype Step =
    | StartStep(m: Material, now: real)
    | StopStep
    | CrashStep
    | RotateStaticStep(id: KeyId, priv: PrivKey, retireAt: real, createAt: real, pruneAt: real)
    | RotateHmacStep(id: KeyId, key: bytes, retireAt: real, createAt: real)

  /** Clock readings do not go back, ids are new, and the HMAC key is rotated only while running. */
  ghost predicate Allowed(sys: KeySys, step: Step) {
    match step
    case StartStep(m, now) =>
      sys.clock <= now && m.staticId != m.hmacId && {m.staticId, m.hmacId} !! sys.used && |m.hmacKey| > 0
    case StopStep => true
    case CrashStep => true
    case RotateStaticStep(id, _, retireAt, createAt, pruneAt) =>
      sys.clock <= retireAt <= createAt <= pruneAt && id !in sys.used
    case RotateHmacStep(id, key, retireAt, createAt) =>
      sys.s.running && sys.clock <= retireAt <= createAt && id !in sys.used && |key| > 0
  }

  /** What a rotation of the static key retires. */
  function Retirement(s: KeyState, retireAt: real): seq<Retired> {
    var active := FirstActive(s.records, X25519Static);
    if s.running && active.Some? && s.staticPriv.Some?
    then [Retired(s.records[active.value].keyId, s.staticPriv.value, retireAt)] else []
  }

  ghost function Apply(pub: PrivKey -> string, sys: KeySys, step: Step): KeySys {
    match step
    case StartStep(m, now) =>
      KeySys(Start(pub, sys.s, m, now).0, sys.log, now, sys.used + {m.staticId, m.hmacId})
    case StopStep => sys.(s := Stop(sys.s))
    case CrashStep => sys.(s := Reopen(sys.s))
    case RotateStaticStep(id, priv, retireAt, createAt, pruneAt) =>
      KeySys(RotateStatic(pub, sys.s, id, priv, retireAt, createAt, pruneAt).0,
             sys.log + Retirement(sys.s, retireAt), pruneAt, sys.used + {id})
    case RotateHmacStep(id, key, retireAt, createAt) =>
      KeySys(RotateHmac(sys.s, id, key, retireAt, createAt), sys.log, createAt, sys.used + {id})
  }

  ghost predicate Run(pub: PrivKey -> string, states: seq<KeySys>, steps: seq<Step>) {
    && |states| == |steps| + 1
    && states[0].s == KeyState(false, [], None, [], None, Absent) && states[0].log == [] && states[0].used == {}
    && forall i :: 0 <= i < |steps| ==>
      Allowed(states[i], steps[i]) && states[i + 1] == Apply(pub, states[i], steps[i])
  }

  // --- the invariant ---------------------------------------------------------------------

  ghost predicate DistinctIds(rs: seq<KeyRecord>) {
    forall i, j :: 0 <= i < j < |rs| ==> rs[i].keyId != rs[j].keyId
  }

  ghost predicate OnlyActive(rs: seq<KeyRecord>, t: KeyType, i: int) {
    && 0 <= i < |rs| && IsActive(rs[i], t)
    && forall j :: 0 <= j < |rs| && j != i ==> !IsActive(rs[j], t)
  }

  ghost predicate OneActive(rs: seq<KeyRecord>, t: KeyType) {
    exists i :: OnlyActive(rs, t, i)
  }

  /** The records show when the key was retired. */
  ghost predicate Recorded(rs: seq<KeyRecord>, e: Retired) {
    exists i :: 0 <= i < |rs| && rs[i].keyId == e.keyId && rs[i].keyType == X25519Static && rs[i].retiredAt == Some(e.retiredAt)
  }

  /** Every retired static record belongs to an entry of the history. */
  ghost predicate LogComplete(rs: seq<KeyRecord>, log: seq<Retired>) {
    forall i :: 0 <= i < |rs| && rs[i].keyType == X25519Static && rs[i].retiredAt.Some? ==>
      exists e :: e in log && e.keyId == rs[i].keyId && rs[i].retiredAt == Some(e.retiredAt)
  }

  ghost predicate Recent(e: Retired, clock: real) {
    clock - e.retiredAt <= 86400.0
  }

  ghost predicate RecordsInv(rs: seq<KeyRecord>, sys: KeySys) {
    && DistinctIds(rs) && OneActive(rs, X25519Static) && OneActive(rs, Hmac)
    && (forall i :: 0 <= i < |rs| ==> rs[i].keyId in sys.used)
    && (forall e :: e in sys.log ==> Recorded(rs, e))
    && (forall a, b :: a in sys.log && b in sys.log && a.keyId == b.keyId ==> a == b)
    && LogComplete(rs, sys.log)
  }

  /** The private key is the one whose public half the active record shows. */
  ghost predicate Belongs(pub: PrivKey -> string, rs: seq<KeyRecord>, priv: PrivKey) {
    forall i :: OnlyActive(rs, X25519Static, i) ==> rs[i].publicHex == Some(pub(priv))
  }

  /** Memory while running. */
  ghost predicate Live(pub: PrivKey -> string, sys: KeySys) {
    var s := sys.s;
    && RecordsInv(s.records, sys)
    && s.staticPriv.Some? && Belongs(pub, s.records, s.staticPriv.value) && Present(s.hmacKey)
    && (forall r :: r in s.retired ==> r in sys.log)
    && (forall e :: e in sys.log && Recent(e, sys.clock) ==> e in s.retired)
  }

  /** The file holds both active keys and every recently retired one. */
  ghost predicate Backed(pub: PrivKey -> string, p: Payload, sys: KeySys) {
    var x, h := LoadedKey(p, X25519Static), LoadedKey(p, Hmac);
    && RecordsInv(p.records, sys)
    && x.Some? && Belongs(pub, p.records, PrivKey(x.value)) && Present(h)
    && (forall e :: e in sys.log && Recent(e, sys.clock) ==> e.keyId in p.keys && p.keys[e.keyId] == e.priv.raw)
    && (forall e :: e in sys.log && e.keyId in p.keys ==> p.keys[e.keyId] == e.priv.raw)
  }

  /** File and memory agree on the records and on both active keys. */
  ghost predicate InStep(s: KeyState, p: Payload) {
    && s.records == p.records && s.staticPriv.Some?
    && LoadedKey(p, X25519Static) == Some(s.staticPriv.value.raw) && LoadedKey(p, Hmac) == s.hmacKey
  }

  ghost predicate Cleared(s: KeyState) {
    s.staticPriv.None? && s.hmacKey.None? && s.retired == []
  }

  ghost predicate Inv(pub: PrivKey -> string, sys: KeySys) {
    match sys.s.disk
    case Absent => !sys.s.running && sys.s.records == [] && Cleared(sys.s) && sys.log == []
    case Unreadable => false
    case Stored(p) =>
      && Backed(pub, p, sys)
      && (if sys.s.running then Live(pub, sys) && InStep(sys.s, p)
          else Cleared(sys.s) && (sys.s.records == p.records || sys.s.records == []))
  }

  // --- records ---------------------------------------------------------------------------

  lemma FirstActiveIsOnly(rs: seq<KeyRecord>, t: KeyType, i: nat)
    requires OnlyActive(rs, t, i)
    ensures FirstActive(rs, t) == Some(i)
  {
    assert IsActive(rs[i], t);
    assert FirstActive(rs, t).Some?;
  }

  lemma {:induction false} InsertFresh(rs: seq<KeyRecord>, r: KeyRecord)
    requires forall i :: 0 <= i < |rs| ==> rs[i].keyId != r.keyId
    ensures Insert(rs, r) == rs + [r]
  {
    if |rs| > 0 {
      InsertFresh(rs[1..], r);
      assert [rs[0]] + (rs[1..] + [r]) == rs + [r];
    }
  }

  lemma AppendKeepsRecorded(rs: seq<KeyRecord>, r: KeyRecord, e: Retired)
    requires Recorded(rs, e)
    ensures Recorded(rs + [r], e)
  {
    var i :| 0 <= i < |rs| && rs[i].keyId == e.keyId && rs[i].keyType == X25519Static && rs[i].retiredAt == Some(e.retiredAt);
    assert (rs + [r])[i] == rs[i];
  }

  lemma UpdateKeepsRecorded(rs: seq<KeyRecord>, t: KeyType, i: nat, now: real, e: Retired)
    requires Recorded(rs, e) && i < |rs| && IsActive(rs[i], t)
    ensures Recorded(rs[i := rs[i].(retiredAt := Some(now))], e)
  {
    var j :| 0 <= j < |rs| && rs[j].keyId == e.keyId && rs[j].keyType == X25519Static && rs[j].retiredAt == Some(e.retiredAt);
    assert rs[i := rs[i].(retiredAt := Some(now))][j] == rs[j];
  }

  /** Retiring the active record of a type and adding a new one leaves exactly one active of each type. */
  lemma ReplaceActive(rs: seq<KeyRecord>, t: KeyType, i: nat, now: real, r: KeyRecord, other: KeyType)
    requires OnlyActive(rs, t, i) && IsActive(r, t) && other != t && OneActive(rs, other)
    requires forall k :: 0 <= k < |rs| ==> rs[k].keyId != r.keyId
    ensures var rs' := Insert(Retire(rs, FirstActive(rs, t), now), r);
      && rs' == rs[i := rs[i].(retiredAt := Some(now))] + [r]
      && OnlyActive(rs', t, |rs|) && OneActive(rs', other)
  {
    FirstActiveIsOnly(rs, t, i);
    var mid := rs[i := rs[i].(retiredAt := Some(now))];
    InsertFresh(mid, r);
    var o :| OnlyActive(rs, other, o);
    assert OnlyActive(mid + [r], other, o);
  }

  // --- the file ----------------------------------------------------------------------------

  lemma {:induction false} WithRetiredFrame(keys: map<KeyId, bytes>, retired: seq<Retired>, id: KeyId)
    requires forall r :: r in retired ==> r.keyId != id
    ensures id in WithRetired(keys, retired) <==> id in keys
    ensures id in keys ==> WithRetired(keys, retired)[id] == keys[id]
    decreases |retired|
  {
    if |retired| > 0 {
      assert retired[0] in retired;
      WithRetiredFrame(keys[retired[0].keyId := retired[0].priv.raw], retired[1..], id);
    }
  }

  lemma {:induction false} WithRetiredHolds(keys: map<KeyId, bytes>, retired: seq<Retired>, e: Retired)
    requires e in retired && forall r :: r in retired && r.keyId == e.keyId ==> r == e
    ensures e.keyId in WithRetired(keys, retired) && WithRetired(keys, retired)[e.keyId] == e.priv.raw
    decreases |retired|
  {
    var keys' := keys[retired[0].keyId := retired[0].priv.raw];
    if e in retired[1..] {
      WithRetiredHolds(keys', retired[1..], e);
    } else {
      assert retired == [retired[0]] + retired[1..];
      forall r | r in retired[1..] ensures r.keyId != e.keyId { assert r in retired; }
      WithRetiredFrame(keys', retired[1..], e.keyId);
    }
  }

  /** A retired key's id is not the id of an active record. */
  lemma RetiredNotActive(rs: seq<KeyRecord>, e: Retired, t: KeyType, i: nat)
    requires DistinctIds(rs) && Recorded(rs, e) && i < |rs| && IsActive(rs[i], t)
    ensures e.keyId != rs[i].keyId
  {
    var j :| 0 <= j < |rs| && rs[j].keyId == e.keyId && rs[j].keyType == X25519Static && rs[j].retiredAt == Some(e.retiredAt);
    if j < i { assert rs[j].keyId != rs[i].keyId; }
    if i < j { assert rs[i].keyId != rs[j].keyId; }
  }

  lemma RetiredIsRecorded(pub: PrivKey -> string, sys: KeySys, r: Retired)
    requires Live(pub, sys) && r in sys.s.retired
    ensures Recorded(sys.s.records, r)
  {
    assert r in sys.log;
  }

  /** What saving writes for the two active keys and for a retired one. */
  lemma SavedActive(pub: PrivKey -> string, sys: KeySys)
    requires Live(pub, sys)
    ensures InStep(sys.s, Payload(sys.s.records, SavedKeys(sys.s)))
  {
    hide RecordsInv;
    var s := sys.s;
    assert DistinctIds(s.records) && OneActive(s.records, X25519Static) && OneActive(s.records, Hmac) by { RecordsFacts(s.records, sys); }
    var i :| OnlyActive(s.records, X25519Static, i);
    var j :| OnlyActive(s.records, Hmac, j);
    FirstActiveIsOnly(s.records, X25519Static, i);
    FirstActiveIsOnly(s.records, Hmac, j);
    forall r | r in s.retired ensures r.keyId != s.records[i].keyId && r.keyId != s.records[j].keyId {
      RetiredIsRecorded(pub, sys, r);
      RetiredNotActive(s.records, r, X25519Static, i);
      RetiredNotActive(s.records, r, Hmac, j);
    }
    assert s.records[i].keyId != s.records[j].keyId;
    var keys0 := map[s.records[i].keyId := s.staticPriv.value.raw];
    WithRetiredFrame(keys0, s.retired, s.records[i].keyId);
  }

  lemma RecordsFacts(rs: seq<KeyRecord>, sys: KeySys)
    requires RecordsInv(rs, sys)
    ensures DistinctIds(rs) && OneActive(rs, X25519Static) && OneActive(rs, Hmac)
    ensures forall e :: e in sys.log ==> Recorded(rs, e)
    ensures forall a, b :: a in sys.log && b in sys.log && a.keyId == b.keyId ==> a == b
  {
  }

  lemma SavedRetired(pub: PrivKey -> string, sys: KeySys, e: Retired)
    requires Live(pub, sys) && e in sys.log
    ensures var keys := SavedKeys(sys.s);
      && (e in sys.s.retired ==> e.keyId in keys)
      && (e.keyId in keys ==> keys[e.keyId] == e.priv.raw)
  {
    var s := sys.s;
    hide RecordsInv;
    RecordsFacts(s.records, sys);
    var i :| OnlyActive(s.records, X25519Static, i);
    var j :| OnlyActive(s.records, Hmac, j);
    FirstActiveIsOnly(s.records, X25519Static, i);
    FirstActiveIsOnly(s.records, Hmac, j);
    RetiredNotActive(s.records, e, X25519Static, i);
    RetiredNotActive(s.records, e, Hmac, j);
    var keys0 := map[s.records[i].keyId := s.staticPriv.value.raw];
    if e in s.retired {
      WithRetiredHolds(keys0, s.retired, e);
    } else {
      forall r | r in s.retired ensures r.keyId != e.keyId { assert r in sys.log; }
      WithRetiredFrame(keys0, s.retired, e.keyId);
    }
  }

  /** Saving a live store writes a file that backs it. */
  lemma SaveBacks(pub: PrivKey -> string, sys: KeySys)
    requires Live(pub, sys)
    ensures var p := Payload(sys.s.records, SavedKeys(sys.s)); Backed(pub, p, sys) && InStep(sys.s, p)
  {
    hide SavedKeys, LoadedKey, RecordsInv;
    SavedActive(pub, sys);
    forall e | e in sys.log
      ensures Recent(e, sys.clock) ==> e.keyId in SavedKeys(sys.s)
      ensures e.keyId in SavedKeys(sys.s) ==> SavedKeys(sys.s)[e.keyId] == e.priv.raw
    {
      SavedRetired(pub, sys, e);
    }
  }

  /** Loading does not take a retirement time of zero for one. */
  ghost predicate Loadable(e: Retired, now: real) {
    Recent(e, now) || e.retiredAt == 0.0
  }

  // --- loading -------------------------------------------------------------------------------

  lemma {:induction false} LoadedRetiredContains(rs: seq<KeyRecord>, keys: map<KeyId, bytes>, now: real, e: Retired)
    requires Recorded(rs, e) && Loadable(e, now) && e.keyId in keys && keys[e.keyId] == e.priv.raw
    ensures e in LoadedRetired(rs, keys, now)
    decreases |rs|
  {
    var i :| 0 <= i < |rs| && rs[i].keyId == e.keyId && rs[i].keyType == X25519Static && rs[i].retiredAt == Some(e.retiredAt);
    if i > 0 {
      assert rs[1..][i - 1] == rs[i];
      LoadedRetiredContains(rs[1..], keys, now, e);
    } else {
      assert LoadedRetired(rs, keys, now)[0] == e;
    }
  }

  lemma {:induction false} LoadedRetiredSound(rs: seq<KeyRecord>, keys: map<KeyId, bytes>, now: real, r: Retired)
    requires r in LoadedRetired(rs, keys, now)
    ensures Recorded(rs, r) && Loadable(r, now) && r.keyId in keys && r.priv == PrivKey(keys[r.keyId])
    decreases |rs|
  {
    if r in LoadedRetired(rs[1..], keys, now) {
      LoadedRetiredSound(rs[1..], keys, now, r);
      var i :| 0 <= i < |rs[1..]| && rs[1..][i].keyId == r.keyId && rs[1..][i].keyType == X25519Static && rs[1..][i].retiredAt == Some(r.retiredAt);
      assert rs[i + 1] == rs[1..][i];
    } else {
      assert rs[0].keyId == r.keyId;
    }
  }

  lemma LoadedInLog(pub: PrivKey -> string, sys: KeySys, p: Payload, now: real, r: Retired)
    requires Backed(pub, p, sys) && r in LoadedRetired(p.records, p.keys, now)
    ensures r in sys.log
  {
    LoadedRetiredSound(p.records, p.keys, now, r);
    var i :| 0 <= i < |p.records| && p.records[i].keyId == r.keyId && p.records[i].keyType == X25519Static
      && p.records[i].retiredAt == Some(r.retiredAt);
    var e :| e in sys.log && e.keyId == p.records[i].keyId && p.records[i].retiredAt == Some(e.retiredAt);
    assert p.keys[e.keyId] == e.priv.raw;
    assert e == r;
  }

  /** Loading a good file restores both active keys, without generating anything, and every recent retired key. */
  lemma LoadRestores(pub: PrivKey -> string, sys: KeySys, p: Payload, m: Material, now: real)
    requires Backed(pub, p, sys) && Cleared(sys.s) && sys.clock <= now
    ensures var s' := Load(pub, sys.s, p, m, now);
      && s' == Reload(sys.s, p, now) && InStep(s', p)
      && Live(pub, sys.(s := s', clock := now))
  {
    hide LoadedRetired, RecordsInv;
    var s' := Reload(sys.s, p, now);
    assert s'.retired == LoadedRetired(p.records, p.keys, now);
    forall r | r in s'.retired ensures r in sys.log { LoadedInLog(pub, sys, p, now, r); }
    RecordsFacts(p.records, sys);
    forall e | e in sys.log && Recent(e, now) ensures e in s'.retired {
      LoadedRetiredContains(p.records, p.keys, now, e);
    }
    assert RecordsInv(p.records, sys.(s := s', clock := now)) by { RecordsFrame(p.records, sys, sys.(s := s', clock := now)); }
  }

  lemma RecordsFrame(rs: seq<KeyRecord>, sys: KeySys, sys': KeySys)
    requires RecordsInv(rs, sys) && sys'.log == sys.log && sys.used <= sys'.used
    ensures RecordsInv(rs, sys')
  {
  }

  lemma BackedFrame(pub: PrivKey -> string, p: Payload, sys: KeySys, sys': KeySys)
    requires Backed(pub, p, sys) && sys'.log == sys.log && sys.used <= sys'.used && sys.clock <= sys'.clock
    ensures Backed(pub, p, sys')
  {
    hide LoadedKey;
    RecordsFrame(p.records, sys, sys');
  }

  lemma LiveFrame(pub: PrivKey -> string, sys: KeySys, sys': KeySys)
    requires Live(pub, sys) && sys'.log == sys.log && sys.used <= sys'.used && sys.clock <= sys'.clock
    requires sys'.s.records == sys.s.records && sys'.s.staticPriv == sys.s.staticPriv
    requires sys'.s.hmacKey == sys.s.hmacKey && sys'.s.retired == sys.s.retired
    ensures Live(pub, sys')
  {
    RecordsFrame(sys.s.records, sys, sys');
  }

  // --- steps ----------------------------------------------------------------------------------

  lemma GeneratedLive(pub: PrivKey -> string, sys: KeySys, m: Material, now: real)
    requires sys.s.records == [] && Cleared(sys.s) && sys.log == [] && m.staticId != m.hmacId && |m.hmacKey| > 0
    ensures Live(pub, sys.(s := GenerateAll(pub, sys.s, m, now), used := sys.used + {m.staticId, m.hmacId}))
  {
    var s' := GenerateAll(pub, sys.s, m, now);
    var r0 := KeyRecord(m.staticId, X25519Static, now, None, Some(pub(m.staticPriv)));
    var r1 := KeyRecord(m.hmacId, Hmac, now, None, None);
    InsertFresh([], r0);
    InsertFresh([r0], r1);
    assert s'.records == [r0, r1];
    assert OnlyActive(s'.records, X25519Static, 0) && OnlyActive(s'.records, Hmac, 1);
  }

  lemma StartKeepsInv(pub: PrivKey -> string, sys: KeySys, m: Material, now: real)
    requires Inv(pub, sys) && Allowed(sys, StartStep(m, now))
    ensures Inv(pub, Apply(pub, sys, StartStep(m, now)))
  {
    hide Live, Backed, GenerateAll, Load, SavedKeys, LoadedKey;
    var sys' := Apply(pub, sys, StartStep(m, now));
    match sys.s.disk {
      case Absent =>
        var sys1 := sys.(s := GenerateAll(pub, sys.s, m, now), used := sys.used + {m.staticId, m.hmacId}, clock := now);
        GeneratedLive(pub, sys.(clock := now), m, now);
        SaveBacks(pub, sys1);
        SavedFrame(pub, sys1, sys');
      case Stored(p) =>
        BackedFrame(pub, p, sys, sys');
        if sys.s.running {
          LiveFrame(pub, sys, sys');
        } else {
          LoadRestores(pub, sys, p, m, now);
          LiveFrame(pub, sys.(s := Load(pub, sys.s, p, m, now), clock := now), sys');
          ReloadDisk(sys.s, p, now);
        }
      case Unreadable =>
    }
  }

  lemma ReloadDisk(s: KeyState, p: Payload, now: real)
    ensures Reload(s, p, now).disk == s.disk
  {
  }

  /** A saved live state keeps its facts however the disk and running fields are set. */
  lemma SavedFrame(pub: PrivKey -> string, sys: KeySys, sys': KeySys)
    requires Live(pub, sys) && sys'.log == sys.log && sys'.used == sys.used && sys'.clock == sys.clock
    requires sys'.s == Save(sys.s).(running := true)
    ensures Live(pub, sys') && sys'.s.disk == Stored(Payload(sys.s.records, SavedKeys(sys.s)))
    ensures Backed(pub, sys'.s.disk.payload, sys') && InStep(sys'.s, sys'.s.disk.payload)
  {
    hide SavedKeys, LoadedKey;
    SaveBacks(pub, sys);
    BackedFrame(pub, Payload(sys.s.records, SavedKeys(sys.s)), sys, sys');
    LiveFrame(pub, sys, sys');
  }

  lemma StopKeepsInv(pub: PrivKey -> string, sys: KeySys)
    requires Inv(pub, sys)
    ensures Inv(pub, Apply(pub, sys, StopStep))
  {
    hide Live, Backed, SavedKeys, LoadedKey;
    if sys.s.running {
      var sys' := Apply(pub, sys, StopStep);
      SaveBacks(pub, sys);
      BackedFrame(pub, Payload(sys.s.records, SavedKeys(sys.s)), sys, sys');
    }
  }

  lemma CrashKeepsInv(pub: PrivKey -> string, sys: KeySys)
    requires Inv(pub, sys)
    ensures Inv(pub, Apply(pub, sys, CrashStep))
  {
    hide Live, LoadedKey;
    if sys.s.disk.Stored? { BackedFrame(pub, sys.s.disk.payload, sys, Apply(pub, sys, CrashStep)); }
  }

  lemma {:induction false} PrunedExact(retired: seq<Retired>, now: real, r: Retired)
    ensures r in Pruned(retired, now) <==> r in retired && Recent(r, now)
    decreases |retired|
  {
    if |retired| > 0 {
      PrunedExact(retired[1..], now, r);
      assert retired == [retired[0]] + retired[1..];
    }
  }

  /** Every retired static record still has its entry after one more record is retired. */
  lemma RotatedLogComplete(rs: seq<KeyRecord>, log: seq<Retired>, i: nat, now: real, r: KeyRecord, e: Retired)
    requires LogComplete(rs, log) && i < |rs| && r.retiredAt.None?
    requires e.keyId == rs[i].keyId && e.retiredAt == now
    ensures LogComplete(rs[i := rs[i].(retiredAt := Some(now))] + [r], log + [e])
  {
    var rs' := rs[i := rs[i].(retiredAt := Some(now))] + [r];
    forall j | 0 <= j < |rs'| && rs'[j].keyType == X25519Static && rs'[j].retiredAt.Some?
      ensures exists x :: x in log + [e] && x.keyId == rs'[j].keyId && rs'[j].retiredAt == Some(x.retiredAt)
    {
      if j == i {
        assert e in log + [e];
      } else {
        var x :| x in log && x.keyId == rs[j].keyId && rs[j].retiredAt == Some(x.retiredAt);
        assert x in log + [e];
      }
    }
  }

  lemma RotatedRecorded(rs: seq<KeyRecord>, t: KeyType, i: nat, now: real, r: KeyRecord, x: Retired)
    requires DistinctIds(rs) && Recorded(rs, x) && i < |rs| && IsActive(rs[i], t)
    ensures Recorded(rs[i := rs[i].(retiredAt := Some(now))] + [r], x) && x.keyId != rs[i].keyId
  {
    UpdateKeepsRecorded(rs, t, i, now, x);
    AppendKeepsRecorded(rs[i := rs[i].(retiredAt := Some(now))], r, x);
    RetiredNotActive(rs, x, t, i);
  }

  /** The records after a rotation of the static key. */
  lemma RotatedRecords(sys: KeySys, sys': KeySys, i: nat, now: real, r: KeyRecord, e: Retired)
    requires RecordsInv(sys.s.records, sys) && OnlyActive(sys.s.records, X25519Static, i)
    requires IsActive(r, X25519Static) && r.keyId !in sys.used
    requires e.keyId == sys.s.records[i].keyId && e.retiredAt == now
    requires sys'.log == sys.log + [e] && sys'.used == sys.used + {r.keyId}
    requires sys'.s.records == sys.s.records[i := sys.s.records[i].(retiredAt := Some(now))] + [r]
    requires OneActive(sys'.s.records, X25519Static) && OneActive(sys'.s.records, Hmac)
    ensures RecordsInv(sys'.s.records, sys')
  {
    hide LogComplete, Recorded;
    var rs, rs' := sys.s.records, sys'.s.records;
    forall x | x in sys.log ensures Recorded(rs', x) && x.keyId != e.keyId {
      RotatedRecorded(rs, X25519Static, i, now, r, x);
    }
    assert rs'[i].keyId == e.keyId;
    NewlyRecorded(rs', i, e);
    RotatedLogComplete(rs, sys.log, i, now, r, e);
  }

  lemma NewlyRecorded(rs: seq<KeyRecord>, i: nat, e: Retired)
    requires i < |rs| && rs[i].keyId == e.keyId && rs[i].keyType == X25519Static && rs[i].retiredAt == Some(e.retiredAt)
    ensures Recorded(rs, e)
  {
  }

  lemma RotateStaticKeepsInv(pub: PrivKey -> string, sys: KeySys, step: Step)
    requires Inv(pub, sys) && step.RotateStaticStep? && Allowed(sys, step) && sys.s.running
    ensures Inv(pub, Apply(pub, sys, step))
  {
    hide Backed, SavedKeys, LoadedKey, Pruned, Insert, RecordsInv;
    var s := sys.s;
    RecordsFacts(s.records, sys);
    var i :| OnlyActive(s.records, X25519Static, i);
    FirstActiveIsOnly(s.records, X25519Static, i);
    var e := Retired(s.records[i].keyId, s.staticPriv.value, step.retireAt);
    var r := KeyRecord(step.id, X25519Static, step.createAt, None, Some(pub(step.priv)));
    FreshRecord(s.records, sys, step.id);
    ReplaceActive(s.records, X25519Static, i, step.retireAt, r, Hmac);
    var rs' := Insert(Retire(s.records, Some(i), step.retireAt), r);
    var s1 := s.(records := rs', staticPriv := Some(step.priv), retired := Pruned(s.retired + [e], step.pruneAt));
    var sys1 := KeySys(s1, sys.log + [e], step.pruneAt, sys.used + {step.id});
    RotatedRecords(sys, sys1, i, step.retireAt, r, e);
    assert Belongs(pub, rs', step.priv) by {
      forall k | OnlyActive(rs', X25519Static, k) ensures rs'[k].publicHex == Some(pub(step.priv)) {
        assert IsActive(rs'[|s.records|], X25519Static);
      }
    }
    forall x ensures x in s1.retired ==> x in sys1.log { PrunedExact(s.retired + [e], step.pruneAt, x); }
    forall x | x in sys1.log && Recent(x, step.pruneAt) ensures x in s1.retired { PrunedExact(s.retired + [e], step.pruneAt, x); }
    SavedFrame(pub, sys1, Apply(pub, sys, step));
  }

  lemma FreshRecord(rs: seq<KeyRecord>, sys: KeySys, id: KeyId)
    requires RecordsInv(rs, sys) && id !in sys.used
    ensures forall k :: 0 <= k < |rs| ==> rs[k].keyId != id
  {
  }

  /** The records after a rotation of the HMAC key. */
  lemma RotatedHmacRecords(sys: KeySys, sys': KeySys, i: nat, now: real, r: KeyRecord)
    requires RecordsInv(sys.s.records, sys) && OnlyActive(sys.s.records, Hmac, i)
    requires IsActive(r, Hmac) && r.keyId !in sys.used
    requires sys'.log == sys.log && sys'.used == sys.used + {r.keyId}
    requires sys'.s.records == sys.s.records[i := sys.s.records[i].(retiredAt := Some(now))] + [r]
    requires OneActive(sys'.s.records, X25519Static) && OneActive(sys'.s.records, Hmac)
    ensures RecordsInv(sys'.s.records, sys')
  {
    var rs, rs' := sys.s.records, sys'.s.records;
    forall x | x in sys.log ensures Recorded(rs', x) { RotatedRecorded(rs, Hmac, i, now, r, x); }
    forall j | 0 <= j < |rs'| && rs'[j].keyType == X25519Static && rs'[j].retiredAt.Some?
      ensures exists x :: x in sys'.log && x.keyId == rs'[j].keyId && rs'[j].retiredAt == Some(x.retiredAt)
    {
      assert rs'[j] == rs[j];
    }
  }

  lemma RotateHmacKeepsInv(pub: PrivKey -> string, sys: KeySys, step: Step)
    requires Inv(pub, sys) && step.RotateHmacStep? && Allowed(sys, step)
    ensures Inv(pub, Apply(pub, sys, step))
  {
    hide Backed, SavedKeys, LoadedKey, Insert, RecordsInv;
    var s := sys.s;
    RecordsFacts(s.records, sys);
    var i :| OnlyActive(s.records, Hmac, i);
    FirstActiveIsOnly(s.records, Hmac, i);
    var r := KeyRecord(step.id, Hmac, step.createAt, None, None);
    FreshRecord(s.records, sys, step.id);
    ReplaceActive(s.records, Hmac, i, step.retireAt, r, X25519Static);
    var rs' := Insert(Retire(s.records, Some(i), step.retireAt), r);
    var sys1 := KeySys(s.(records := rs', hmacKey := Some(step.key)), sys.log, step.createAt, sys.used + {step.id});
    RotatedHmacRecords(sys, sys1, i, step.retireAt, r);
    var x :| OnlyActive(s.records, X25519Static, x);
    assert IsActive(rs'[x], X25519Static);
    SavedFrame(pub, sys1, Apply(pub, sys, step));
  }

  lemma StepKeepsInv(pub: PrivKey -> string, sys: KeySys, step: Step)
    requires Inv(pub, sys) && Allowed(sys, step)
    ensures Inv(pub, Apply(pub, sys, step)) && sys.clock <= Apply(pub, sys, step).clock
  {
    hide Live, LoadedKey, RecordsInv;
    match step {
      case StartStep(m, now) => StartKeepsInv(pub, sys, m, now);
      case StopStep => StopKeepsInv(pub, sys);
      case CrashStep => CrashKeepsInv(pub, sys);
      case RotateStaticStep(id, _, _, _, pruneAt) =>
        if sys.s.running {
          RotateStaticKeepsInv(pub, sys, step);
        } else if sys.s.disk.Stored? {
          assert sys.log + [] == sys.log;
          BackedFrame(pub, sys.s.disk.payload, sys, Apply(pub, sys, step));
        }
      case RotateHmacStep(_, _, _, _) => RotateHmacKeepsInv(pub, sys, step);
    }
  }

  // --- runs -------------------------------------------------------------------------------------

  lemma {:induction false} RunKeepsInv(pub: PrivKey -> string, states: seq<KeySys>, steps: seq<Step>, k: nat)
    requires Run(pub, states, steps) && k < |states|
    ensures Inv(pub, states[k])
  {
    if k > 0 {
      RunKeepsInv(pub, states, steps, k - 1);
      StepKeepsInv(pub, states[k - 1], steps[k - 1]);
    }
  }

  lemma {:induction false} LogGrows(pub: PrivKey -> string, states: seq<KeySys>, steps: seq<Step>, j: nat, k: nat)
    requires Run(pub, states, steps) && j <= k < |states|
    ensures states[j].log <= states[k].log
  {
    if j < k { LogGrows(pub, states, steps, j, k - 1); }
  }

  lemma {:induction false} GetRetiredFinds(retired: seq<Retired>, e: Retired)
    requires e in retired && forall r :: r in retired && r.keyId == e.keyId ==> r == e
    ensures GetRetired(retired, e.keyId) == Some(e.priv)
    decreases |retired|
  {
    if retired[0].keyId != e.keyId {
      assert retired == [retired[0]] + retired[1..];
      GetRetiredFinds(retired[1..], e);
    } else {
      assert retired[0] in retired;
    }
  }

  /** Retention: the key that a rotation at step i takes out of service is returned under its id, with the same
      bytes, in every later running state no more than the TTL after it was retired, whatever rotations, stops,
      crashes and restarts happened in between. */
  lemma RetiredKeyAvailable(pub: PrivKey -> string, states: seq<KeySys>, steps: seq<Step>, i: nat, k: nat, now: real)
    requires Run(pub, states, steps) && i < k < |states|
    requires steps[i].RotateStaticStep? && states[i].s.running && states[k].s.running
    requires states[k].clock <= now && now - steps[i].retireAt <= 86400.0
    ensures FirstActive(states[i].s.records, X25519Static).Some? && states[i].s.staticPriv.Some?
    ensures var id := states[i].s.records[FirstActive(states[i].s.records, X25519Static).value].keyId;
      GetRetired(states[k].s.retired, id) == states[i].s.staticPriv
  {
    hide LoadedKey, Belongs;
    RunKeepsInv(pub, states, steps, i);
    RunKeepsInv(pub, states, steps, k);
    var s := states[i].s;
    var x :| OnlyActive(s.records, X25519Static, x);
    FirstActiveIsOnly(s.records, X25519Static, x);
    var e := Retired(s.records[x].keyId, s.staticPriv.value, steps[i].retireAt);
    assert states[i + 1] == Apply(pub, states[i], steps[i]);
    assert e in states[i + 1].log;
    LogGrows(pub, states, steps, i + 1, k);
    assert e in states[k].log && Recent(e, states[k].clock);
    GetRetiredFinds(states[k].s.retired, e);
  }

  /** What get_retired_priv returns for a key of the history, from whether it is in memory. */
  lemma HeldIff(pub: PrivKey -> string, sys: KeySys, e: Retired)
    requires Inv(pub, sys) && sys.s.running && e in sys.log
    ensures GetRetired(sys.s.retired, e.keyId) == if e in sys.s.retired then Some(e.priv) else None
  {
    hide Backed, RecordsInv, InStep;
    RecordsFacts(sys.s.records, sys);
    if e in sys.s.retired {
      GetRetiredFinds(sys.s.retired, e);
    } else if GetRetired(sys.s.retired, e.keyId).Some? {
      var r := GetRetiredSound(sys.s.retired, e.keyId);
      assert false;
    }
  }

  /** Right after a rotation the store returns exactly the keys ever retired no more than the TTL ago. */
  lemma HeldAfterRotation(pub: PrivKey -> string, states: seq<KeySys>, steps: seq<Step>, i: nat, e: Retired)
    requires Run(pub, states, steps) && i < |steps| && steps[i].RotateStaticStep? && states[i].s.running
    requires e in states[i + 1].log
    ensures GetRetired(states[i + 1].s.retired, e.keyId) == if Recent(e, steps[i].pruneAt) then Some(e.priv) else None
  {
    RunKeepsInv(pub, states, steps, i);
    RunKeepsInv(pub, states, steps, i + 1);
    assert states[i + 1] == Apply(pub, states[i], steps[i]);
    RotationHolds(pub, states[i], steps[i], e);
    hide Inv, Apply, Run;
    HeldIff(pub, states[i + 1], e);
  }

  lemma RotationHolds(pub: PrivKey -> string, sys: KeySys, step: Step, e: Retired)
    requires step.RotateStaticStep? && sys.s.running && Inv(pub, Apply(pub, sys, step)) && e in Apply(pub, sys, step).log
    ensures Apply(pub, sys, step).s.running && (e in Apply(pub, sys, step).s.retired <==> Recent(e, step.pruneAt))
  {
    hide Backed, InStep, RecordsInv, Pruned, Insert, Retire, SavedKeys;
    var active := FirstActive(sys.s.records, X25519Static);
    var retired := sys.s.retired + Retirement(sys.s, step.retireAt);
    assert sys.s.retired + [] == sys.s.retired;
    PrunedExact(retired, step.pruneAt, e);
  }

  /** Right after a start it returns those and, since loading does not take a time of zero for a retirement, a key
      retired at time zero that the file still holds. */
  lemma HeldAfterStart(pub: PrivKey -> string, states: seq<KeySys>, steps: seq<Step>, i: nat, e: Retired)
    requires Run(pub, states, steps) && i < |steps| && steps[i].StartStep? && !states[i].s.running
    requires e in states[i + 1].log
    ensures states[i].s.disk.Stored?
    ensures GetRetired(states[i + 1].s.retired, e.keyId)
      == if Recent(e, steps[i].now) || (e.retiredAt == 0.0 && e.keyId in states[i].s.disk.payload.keys)
         then Some(e.priv) else None
  {
    RunKeepsInv(pub, states, steps, i);
    RunKeepsInv(pub, states, steps, i + 1);
    assert states[i + 1] == Apply(pub, states[i], steps[i]) && Allowed(states[i], steps[i]);
    StartHolds(pub, states[i], steps[i], e);
    hide Inv, Apply, Run, Allowed;
    HeldIff(pub, states[i + 1], e);
  }

  lemma StartHolds(pub: PrivKey -> string, sys: KeySys, step: Step, e: Retired)
    requires step.StartStep? && !sys.s.running && Inv(pub, sys) && Allowed(sys, step) && e in sys.log
    ensures sys.s.disk.Stored? && Apply(pub, sys, step).s.running && Apply(pub, sys, step).log == sys.log
    ensures e in Apply(pub, sys, step).s.retired
      <==> Recent(e, step.now) || (e.retiredAt == 0.0 && e.keyId in sys.s.disk.payload.keys)
  {
    hide RecordsInv, Load, LoadedRetired, LoadedKey;
    var p := sys.s.disk.payload;
    LoadRestores(pub, sys, p, step.m, step.now);
    RecordsFacts(p.records, sys);
    assert Reload(sys.s, p, step.now).retired == LoadedRetired(p.records, p.keys, step.now);
    if e in LoadedRetired(p.records, p.keys, step.now) { LoadedRetiredSound(p.records, p.keys, step.now, e); }
    if Loadable(e, step.now) && e.keyId in p.keys { LoadedRetiredContains(p.records, p.keys, step.now, e); }
  }

  /** A key retired at time zero can outlive the TTL: it does after a start, a rotation at time zero, a stop and a start
      at any later time. */
  lemma ZeroTimeKeyOutlives(pub: PrivKey -> string, m: Material, id: KeyId, priv: PrivKey, m': Material, later: real)
    returns (states: seq<KeySys>, steps: seq<Step>)
    requires m.staticId != m.hmacId && |m.hmacKey| > 0 && id !in {m.staticId, m.hmacId}
    requires m'.staticId != m'.hmacId && |m'.hmacKey| > 0 && {m'.staticId, m'.hmacId} !! {m.staticId, m.hmacId, id}
    requires later > RETIRED_KEY_TTL
    ensures Run(pub, states, steps) && |states| == 5
    ensures Retired(m.staticId, m.staticPriv, 0.0) in states[4].log && states[4].clock == later
    ensures GetRetired(states[4].s.retired, m.staticId) == Some(m.staticPriv)
  {
    var e := Retired(m.staticId, m.staticPriv, 0.0);
    states, steps := FourSteps(pub, m, id, priv, m', later);
    RunKeepsInv(pub, states, steps, 3);
    hide Run;
    assert Recent(e, states[3].clock);
    HeldAfterStart(pub, states, steps, 3, e);
  }

  lemma FourSteps(pub: PrivKey -> string, m: Material, id: KeyId, priv: PrivKey, m': Material, later: real)
    returns (states: seq<KeySys>, steps: seq<Step>)
    requires m.staticId != m.hmacId && |m.hmacKey| > 0 && id !in {m.staticId, m.hmacId}
    requires m'.staticId != m'.hmacId && |m'.hmacKey| > 0 && {m'.staticId, m'.hmacId} !! {m.staticId, m.hmacId, id}
    requires later > 0.0
    ensures Run(pub, states, steps) && |states| == 5 && steps[3] == StartStep(m', later) && !states[3].s.running
    ensures var e := Retired(m.staticId, m.staticPriv, 0.0);
      e in states[3].log && states[3].clock == 0.0 && states[4].log == states[3].log && states[4].clock == later
  {
    var k0 := KeySys(KeyState(false, [], None, [], None, Absent), [], 0.0, {});
    steps := [StartStep(m, 0.0), RotateStaticStep(id, priv, 0.0, 0.0, 0.0), StopStep, StartStep(m', later)];
    FirstStart(pub, k0, m);
    hide Load, SavedKeys, LoadedKey, RotateStatic, RotateHmac, Save, FirstActive, Start, Retirement;
    var k1 := Apply(pub, k0, steps[0]);
    var k2 := Apply(pub, k1, steps[1]);
    var k3 := Apply(pub, k2, steps[2]);
    states := [k0, k1, k2, k3, Apply(pub, k3, steps[3])];
    assert k2.log == [] + [Retired(m.staticId, m.staticPriv, 0.0)];
    assert Allowed(k0, steps[0]) && Allowed(k1, steps[1]) && Allowed(k2, steps[2]) && Allowed(k3, steps[3]);
    RunOfFour(pub, states, steps);
    hide Run, Allowed;
  }

  lemma RunOfFour(pub: PrivKey -> string, states: seq<KeySys>, steps: seq<Step>)
    requires |states| == 5 && |steps| == 4 && states[0] == KeySys(KeyState(false, [], None, [], None, Absent), [], 0.0, {})
    requires Allowed(states[0], steps[0]) && states[1] == Apply(pub, states[0], steps[0])
    requires Allowed(states[1], steps[1]) && states[2] == Apply(pub, states[1], steps[1])
    requires Allowed(states[2], steps[2]) && states[3] == Apply(pub, states[2], steps[2])
    requires Allowed(states[3], steps[3]) && states[4] == Apply(pub, states[3], steps[3])
    ensures Run(pub, states, steps)
  {
    hide Allowed, Apply;
  }

  lemma FirstStart(pub: PrivKey -> string, sys: KeySys, m: Material)
    requires sys.s == KeyState(false, [], None, [], None, Absent) && m.staticId != m.hmacId
    ensures var s := Start(pub, sys.s, m, 0.0).0;
      && s.running && Retirement(s, 0.0) == [Retired(m.staticId, m.staticPriv, 0.0)]
  {
  }

  /** In every running state there is exactly one active record of each type, the private key in memory belongs to
      the active static record, and whatever get_retired_priv returns was once retired under that id. */
  lemma ActiveKeys(pub: PrivKey -> string, states: seq<KeySys>, steps: seq<Step>, k: nat)
    requires Run(pub, states, steps) && k < |states| && states[k].s.running
    ensures var s := states[k].s;
      && OneActive(s.records, X25519Static) && OneActive(s.records, Hmac)
      && s.staticPriv.Some? && Present(s.hmacKey)
      && (forall i :: OnlyActive(s.records, X25519Static, i) ==> s.records[i].publicHex == Some(pub(s.staticPriv.value)))
      && (forall id :: GetRetired(s.retired, id).Some? ==>
            exists e :: e in states[k].log && e.keyId == id && GetRetired(s.retired, id) == Some(e.priv))
  {
    hide LoadedKey;
    RunKeepsInv(pub, states, steps, k);
    var s := states[k].s;
    forall id | GetRetired(s.retired, id).Some?
      ensures exists e :: e in states[k].log && e.keyId == id && GetRetired(s.retired, id) == Some(e.priv)
    {
      var e := GetRetiredSound(s.retired, id);
    }
  }

  lemma {:induction false} GetRetiredSound(retired: seq<Retired>, id: KeyId) returns (e: Retired)
    requires GetRetired(retired, id).Some?
    ensures e in retired && e.keyId == id && GetRetired(retired, id) == Some(e.priv)
    decreases |retired|
  {
    if retired[0].keyId == id { e := retired[0]; } else { e := GetRetiredSound(retired[1..], id); }
  }

  /** Stopping or crashing and starting again restores both active keys and the records; nothing is regenerated. */
  lemma RestartRestores(pub: PrivKey -> string, states: seq<KeySys>, steps: seq<Step>, k: nat, m: Material, now: real, crash: bool)
    requires Run(pub, states, steps) && k < |states| && states[k].s.running && states[k].clock <= now
    ensures var s := states[k].s;
      var down := if crash then Reopen(s) else Stop(s);
      var up := Start(pub, down, m, now).0;
      && up.running && up.staticPriv == s.staticPriv && up.hmacKey == s.hmacKey && up.records == s.records
      && down.disk.Stored? && !Regenerates(Reload(down, down.disk.payload, now))
  {
    hide Live, Backed, Load, LoadedKey, SavedKeys;
    RunKeepsInv(pub, states, steps, k);
    var sys := states[k];
    var step := if crash then CrashStep else StopStep;
    var sys' := Apply(pub, sys, step);
    if crash { CrashKeepsInv(pub, sys); } else { StopKeepsInv(pub, sys); SavedActive(pub, sys); }
    LoadRestores(pub, sys', sys'.s.disk.payload, m, now);
    ReloadPresent(pub, sys', now, m);
  }

  lemma ReloadPresent(pub: PrivKey -> string, sys: KeySys, now: real, m: Material)
    requires sys.s.disk.Stored? && Backed(pub, sys.s.disk.payload, sys) && Cleared(sys.s)
    ensures !Regenerates(Reload(sys.s, sys.s.disk.payload, now))
  {
    hide LoadedKey;
  }

  // --- rotating the HMAC key of a stopped store --------------------------------------------------

  lemma TwoActive(rs: seq<KeyRecord>, t: KeyType, i: nat, j: nat)
    requires i < j < |rs| && IsActive(rs[i], t) && IsActive(rs[j], t)
    ensures !OneActive(rs, t)
  {
    assert IsActive(rs[i], t) && IsActive(rs[j], t);
  }

  /** Rotating the HMAC key of a stopped store appends a record and saves no other key. */
  lemma StoppedRotation(pub: PrivKey -> string, sys: KeySys, id: KeyId, key: bytes, t1: real, t2: real) returns (mid: seq<KeyRecord>)
    requires Inv(pub, sys) && !sys.s.running && |key| > 0 && id !in sys.used
    ensures var s1 := RotateHmac(sys.s, id, key, t1, t2);
      && s1 == sys.s.(hmacKey := Some(key), records := mid + [KeyRecord(id, Hmac, t2, None, None)],
                      disk := Stored(Payload(s1.records, SavedKeys(s1))))
    ensures DistinctIds(mid + [KeyRecord(id, Hmac, t2, None, None)])
    ensures forall i :: 0 <= i < |mid| ==> mid[i].keyId in sys.used
  {
    hide RecordsInv, LoadedKey, SavedKeys, Belongs;
    var s := sys.s;
    mid := Retire(s.records, FirstActive(s.records, Hmac), t1);
    if s.disk.Stored? { RecordsFacts(s.disk.payload.records, sys); UsedIds(s.disk.payload.records, sys); }
    InsertFresh(mid, KeyRecord(id, Hmac, t2, None, None));
    SavedKeysFrame(s.(hmacKey := Some(key), records := mid + [KeyRecord(id, Hmac, t2, None, None)]));
  }

  /** Saving does not change what would be saved. */
  lemma SavedKeysFrame(s: KeyState)
    ensures SavedKeys(Save(s)) == SavedKeys(s)
  {
  }

  /** Starting it again then generates everything anew beside the records that are there. */
  lemma StartAfterLoss(pub: PrivKey -> string, s1: KeyState, used: set<KeyId>, m: Material, now: real)
    requires !s1.running && s1.staticPriv.None? && s1.retired == [] && Present(s1.hmacKey)
    requires s1.disk == Stored(Payload(s1.records, SavedKeys(s1))) && DistinctIds(s1.records)
    requires FirstActive(s1.records, Hmac).Some?
    requires forall i :: 0 <= i < |s1.records| ==> s1.records[i].keyId in used
    requires m.staticId != m.hmacId && {m.staticId, m.hmacId} !! used
    ensures var up := Start(pub, s1, m, now).0;
      && up.staticPriv == Some(m.staticPriv)
      && up.records == s1.records + [KeyRecord(m.staticId, X25519Static, now, None, Some(pub(m.staticPriv)))]
                       + [KeyRecord(m.hmacId, Hmac, now, None, None)]
  {
    StaticKeyLost(s1, SavedKeys(s1));
    hide LoadedRetired, LoadedKey, SavedKeys, FirstActive;
    var k0 := KeyRecord(m.staticId, X25519Static, now, None, Some(pub(m.staticPriv)));
    InsertFresh(s1.records, k0);
    InsertFresh(s1.records + [k0], KeyRecord(m.hmacId, Hmac, now, None, None));
  }

  lemma UsedIds(rs: seq<KeyRecord>, sys: KeySys)
    requires RecordsInv(rs, sys)
    ensures forall i :: 0 <= i < |rs| ==> rs[i].keyId in sys.used
  {
  }

  /** If only an HMAC record's key is saved, no static key can be loaded. */
  lemma StaticKeyLost(s: KeyState, keys: map<KeyId, bytes>)
    requires DistinctIds(s.records) && FirstActive(s.records, Hmac).Some?
    requires keys.Keys <= {s.records[FirstActive(s.records, Hmac).value].keyId}
    ensures LoadedKey(Payload(s.records, keys), X25519Static).None?
  {
    var x, h := FirstActive(s.records, X25519Static), FirstActive(s.records, Hmac).value;
    if x.Some? {
      assert x.value != h;
      assert s.records[x.value].keyId != s.records[h].keyId;
    }
  }

  /** rotate_hmac_key does not check that the store is running. From any reachable state, the next start finds one
      active record of each type exactly when the store was running; a stopped store loses its static key. */
  lemma RotateHmacSafeIffRunning(pub: PrivKey -> string, states: seq<KeySys>, steps: seq<Step>, k: nat,
                                 id: KeyId, key: bytes, t1: real, t2: real, m: Material, now: real)
    requires Run(pub, states, steps) && k < |states| && states[k].clock <= t1 <= t2 <= now
    requires |key| > 0 && id !in states[k].used
    requires m.staticId != m.hmacId && {m.staticId, m.hmacId} !! states[k].used + {id}
    ensures var s := states[k].s;
      var up := Start(pub, Stop(RotateHmac(s, id, key, t1, t2)), m, now).0;
      && (OneActive(up.records, X25519Static) && OneActive(up.records, Hmac) <==> s.running)
      && (!s.running ==> up.staticPriv == Some(m.staticPriv))
  {
    hide Backed, Load, LoadedKey, SavedKeys, RotateHmac, RecordsInv;
    RunKeepsInv(pub, states, steps, k);
    var sys := states[k];
    if sys.s.running {
      var step := RotateHmacStep(id, key, t1, t2);
      RotateHmacKeepsInv(pub, sys, step);
      var sys1 := Apply(pub, sys, step);
      StopKeepsInv(pub, sys1);
      var sys2 := Apply(pub, sys1, StopStep);
      assert sys1.s.running by { RotateHmacRunning(sys.s, id, key, t1, t2); }
      LoadRestores(pub, sys2, sys2.s.disk.payload, m, now);
      RecordsFacts(Load(pub, sys2.s, sys2.s.disk.payload, m, now).records,
                   sys2.(s := Load(pub, sys2.s, sys2.s.disk.payload, m, now), clock := now));
    } else {
      var mid := StoppedRotation(pub, sys, id, key, t1, t2);
      var s1 := RotateHmac(sys.s, id, key, t1, t2);
      assert IsActive(s1.records[|mid|], Hmac);
      StartAfterLoss(pub, s1, sys.used + {id}, m, now);
      var up := Start(pub, Stop(s1), m, now).0;
      var n := |s1.records|;
      assert up.records[n - 1] == s1.records[n - 1];
      TwoActive(up.records, Hmac, n - 1, n + 1);
    }
  }

  lemma RotateHmacRunning(s: KeyState, id: KeyId, key: bytes, t1: real, t2: real)
    ensures RotateHmac(s, id, key, t1, t2).running == s.running
  {
  }
}
