/** Which keys are in use: those of the latest rotation, through stops, crashes and restarts. */
module KeyCurrent {
  import opened Common
  import opened KeyStore
  import opened KeyRotation

  datatype StaticKey = StaticKey(id: KeyId, priv: PrivKey, at: real)
  datatype HmacKey = HmacKey(id: KeyId, key: bytes, at: real)

  /** The static key of the latest rotation while running, or else of the first start. */
  function LatestStatic(states: seq<KeySys>, steps: seq<Step>, k: nat): Option<StaticKey>
    requires k <= |steps| < |states|
  {
    if k == 0 then None
    else
      var before := LatestStatic(states, steps, k - 1);
      match steps[k - 1]
      case RotateStaticStep(id, priv, _, createAt, _) =>
        if states[k - 1].s.running then Some(StaticKey(id, priv, createAt)) else before
      case StartStep(m, now) => if before.None? then Some(StaticKey(m.staticId, m.staticPriv, now)) else before
      case _ => before
  }

  function LatestHmac(states: seq<KeySys>, steps: seq<Step>, k: nat): Option<HmacKey>
    requires k <= |steps| < |states|
  {
    if k == 0 then None
    else
      var before := LatestHmac(states, steps, k - 1);
      match steps[k - 1]
      case RotateHmacStep(id, key, _, createAt) => Some(HmacKey(id, key, createAt))
      case StartStep(m, now) => if before.None? then Some(HmacKey(m.hmacId, m.hmacKey, now)) else before
      case _ => before
  }

  /** The records have exactly one active record of the type, and it is this one. */
  ghost predicate ActiveIs(rs: seq<KeyRecord>, t: KeyType, r: KeyRecord) {
    exists i :: OnlyActive(rs, t, i) && rs[i] == r
  }

  ghost predicate RecordsShow(pub: PrivKey -> string, rs: seq<KeyRecord>, x: StaticKey, h: HmacKey) {
    && ActiveIs(rs, X25519Static, KeyRecord(x.id, X25519Static, x.at, None, Some(pub(x.priv))))
    && ActiveIs(rs, Hmac, KeyRecord(h.id, Hmac, h.at, None, None))
  }

  /** Memory while running, and the file while stopped, hold these keys. */
  ghost predicate Holds(pub: PrivKey -> string, s: KeyState, x: Option<StaticKey>, h: Option<HmacKey>) {
    match s.disk
    case Absent => x.None? && h.None?
    case Unreadable => false
    case Stored(p) =>
      && x.Some? && h.Some?
      && (s.running ==>
            RecordsShow(pub, s.records, x.value, h.value) && s.staticPriv == Some(x.value.priv) && s.hmacKey == Some(h.value.key))
      && (!s.running ==>
            && RecordsShow(pub, p.records, x.value, h.value)
            && LoadedKey(p, X25519Static) == Some(x.value.priv.raw) && LoadedKey(p, Hmac) == Some(h.value.key))
  }

  lemma StoppedHolds(pub: PrivKey -> string, sys: KeySys, p: Payload, x: Option<StaticKey>, h: Option<HmacKey>)
    requires Holds(pub, sys.s, x, h) && sys.s.disk.Stored? && sys.s.running && InStep(sys.s, p)
    ensures Holds(pub, KeyState(false, [], None, [], None, Stored(p)), x, h)
    ensures Holds(pub, sys.s.(staticPriv := None, hmacKey := None, retired := [], running := false, disk := Stored(p)), x, h)
  {
    hide ActiveIs, LoadedKey;
  }

  lemma StopHolds(pub: PrivKey -> string, sys: KeySys, x: Option<StaticKey>, h: Option<HmacKey>)
    requires Inv(pub, sys) && Holds(pub, sys.s, x, h)
    ensures Holds(pub, Stop(sys.s), x, h) && Holds(pub, Reopen(sys.s), x, h)
  {
    if sys.s.running {
      hide ActiveIs, LoadedKey, SavedKeys, Live, Backed;
      SavedActive(pub, sys);
      StoppedHolds(pub, sys, Payload(sys.s.records, SavedKeys(sys.s)), x, h);
      StoppedHolds(pub, sys, sys.s.disk.payload, x, h);
    } else {
      hide ActiveIs, LoadedKey, Live, Backed;
    }
  }

  lemma StartHolds(pub: PrivKey -> string, sys: KeySys, m: Material, now: real, x: Option<StaticKey>, h: Option<HmacKey>)
    requires Inv(pub, sys) && Holds(pub, sys.s, x, h) && Allowed(sys, StartStep(m, now))
    ensures Holds(pub, Start(pub, sys.s, m, now).0,
                  if x.None? then Some(StaticKey(m.staticId, m.staticPriv, now)) else x,
                  if h.None? then Some(HmacKey(m.hmacId, m.hmacKey, now)) else h)
  {
    match sys.s.disk {
      case Absent =>
        var r0 := KeyRecord(m.staticId, X25519Static, now, None, Some(pub(m.staticPriv)));
        var r1 := KeyRecord(m.hmacId, Hmac, now, None, None);
        InsertFresh([], r0);
        InsertFresh([r0], r1);
        assert OnlyActive([r0, r1], X25519Static, 0) && OnlyActive([r0, r1], Hmac, 1);
        assert ActiveIs([r0, r1], X25519Static, r0) && ActiveIs([r0, r1], Hmac, r1);
        assert GenerateAll(pub, sys.s, m, now).records == [r0, r1];
        hide SavedKeys;
      case Stored(p) =>
        if !sys.s.running {
          hide ActiveIs, LoadedKey, Live, LoadedRetired;
          LoadRestores(pub, sys, p, m, now);
          hide Load, Backed;
        }
      case Unreadable =>
    }
  }

  lemma RotatedTo(pub: PrivKey -> string, s: KeyState, i: nat, id: KeyId, priv: PrivKey, retireAt: real, createAt: real, pruneAt: real)
    requires s.running && s.staticPriv.Some? && FirstActive(s.records, X25519Static) == Some(i)
    ensures var (s', result) := RotateStatic(pub, s, id, priv, retireAt, createAt, pruneAt);
      var r := KeyRecord(id, X25519Static, createAt, None, Some(pub(priv)));
      && s'.running && s'.staticPriv == Some(priv) && s'.hmacKey == s.hmacKey && s'.disk.Stored? && result == Ok(r)
      && s'.records == Insert(Retire(s.records, Some(i), retireAt), r)
  {
    hide SavedKeys, Pruned, Insert, Retire, FirstActive;
  }

  lemma RotateStaticHolds(pub: PrivKey -> string, sys: KeySys, step: Step, x: Option<StaticKey>, h: Option<HmacKey>)
    requires Inv(pub, sys) && Holds(pub, sys.s, x, h) && step.RotateStaticStep? && Allowed(sys, step)
    ensures var (s', result) := RotateStatic(pub, sys.s, step.id, step.priv, step.retireAt, step.createAt, step.pruneAt);
      if sys.s.running
      then && Holds(pub, s', Some(StaticKey(step.id, step.priv, step.createAt)), h)
           && result == Ok(KeyRecord(step.id, X25519Static, step.createAt, None, Some(pub(step.priv))))
      else s' == sys.s && result == Err(NotStarted)
  {
    if sys.s.running {
      hide Backed, SavedKeys, LoadedKey, Pruned, RecordsInv, Insert;
      var s := sys.s;
      RecordsFacts(s.records, sys);
      var i :| OnlyActive(s.records, X25519Static, i);
      FirstActiveIsOnly(s.records, X25519Static, i);
      var r := KeyRecord(step.id, X25519Static, step.createAt, None, Some(pub(step.priv)));
      FreshRecord(s.records, sys, step.id);
      ReplaceActive(s.records, X25519Static, i, step.retireAt, r, Hmac);
      OtherStays(s.records, X25519Static, i, step.retireAt, r, Hmac, KeyRecord(h.value.id, Hmac, h.value.at, None, None));
      NewIs(s.records, i, step.retireAt, r);
      RotatedTo(pub, s, i, step.id, step.priv, step.retireAt, step.createAt, step.pruneAt);
      hide ActiveIs, RotateStatic, FirstActive, Retire;
    }
  }

  lemma NewIs(rs: seq<KeyRecord>, i: nat, now: real, r: KeyRecord)
    requires i < |rs| && OnlyActive(rs[i := rs[i].(retiredAt := Some(now))] + [r], r.keyType, |rs|)
    ensures ActiveIs(rs[i := rs[i].(retiredAt := Some(now))] + [r], r.keyType, r)
  {
    assert (rs[i := rs[i].(retiredAt := Some(now))] + [r])[|rs|] == r;
  }

  /** The active record of the other type stays the active one. */
  lemma OtherStays(rs: seq<KeyRecord>, t: KeyType, i: nat, now: real, r: KeyRecord, other: KeyType, o: KeyRecord)
    requires OnlyActive(rs, t, i) && IsActive(r, t) && other != t && ActiveIs(rs, other, o)
    ensures ActiveIs(rs[i := rs[i].(retiredAt := Some(now))] + [r], other, o)
  {
    var j :| OnlyActive(rs, other, j) && rs[j] == o;
    assert OnlyActive(rs[i := rs[i].(retiredAt := Some(now))] + [r], other, j);
  }

  lemma RotateHmacHolds(pub: PrivKey -> string, sys: KeySys, step: Step, x: Option<StaticKey>, h: Option<HmacKey>)
    requires Inv(pub, sys) && Holds(pub, sys.s, x, h) && step.RotateHmacStep? && Allowed(sys, step)
    ensures Holds(pub, RotateHmac(sys.s, step.id, step.key, step.retireAt, step.createAt),
                  x, Some(HmacKey(step.id, step.key, step.createAt)))
  {
    hide Backed, SavedKeys, LoadedKey, RecordsInv, Insert;
    var s := sys.s;
    RecordsFacts(s.records, sys);
    var i :| OnlyActive(s.records, Hmac, i);
    FirstActiveIsOnly(s.records, Hmac, i);
    var r := KeyRecord(step.id, Hmac, step.createAt, None, None);
    FreshRecord(s.records, sys, step.id);
    ReplaceActive(s.records, Hmac, i, step.retireAt, r, X25519Static);
    OtherStays(s.records, Hmac, i, step.retireAt, r, X25519Static,
               KeyRecord(x.value.id, X25519Static, x.value.at, None, Some(pub(x.value.priv))));
    NewIs(s.records, i, step.retireAt, r);
    hide ActiveIs;
  }

  lemma {:induction false} RunHolds(pub: PrivKey -> string, states: seq<KeySys>, steps: seq<Step>, k: nat)
    requires Run(pub, states, steps) && k < |states|
    ensures Holds(pub, states[k].s, LatestStatic(states, steps, k), LatestHmac(states, steps, k))
  {
    if k > 0 {
      hide Holds, Inv, Start, Stop, RotateStatic, RotateHmac;
      RunHolds(pub, states, steps, k - 1);
      RunKeepsInv(pub, states, steps, k - 1);
      var sys, step := states[k - 1], steps[k - 1];
      var x, h := LatestStatic(states, steps, k - 1), LatestHmac(states, steps, k - 1);
      assert Allowed(sys, step) && states[k] == KeyRotation.Apply(pub, sys, step);
      match step {
        case StartStep(m, now) => StartHolds(pub, sys, m, now, x, h);
        case StopStep => StopHolds(pub, sys, x, h);
        case CrashStep => StopHolds(pub, sys, x, h);
        case RotateStaticStep(id, priv, retireAt, createAt, pruneAt) => RotateStaticHolds(pub, sys, step, x, h);
        case RotateHmacStep(id, key, retireAt, createAt) => RotateHmacHolds(pub, sys, step, x, h);
      }
    }
  }

  /** In every running state of every run the keys in use are those of the latest rotation of each kind, or of the first
      start, and the one active record of each kind shows exactly that key, its id and when it was made. */
  lemma KeysAreLatest(pub: PrivKey -> string, states: seq<KeySys>, steps: seq<Step>, k: nat)
    requires Run(pub, states, steps) && k < |states| && states[k].s.running
    ensures var s, x, h := states[k].s, LatestStatic(states, steps, k), LatestHmac(states, steps, k);
      && x.Some? && h.Some? && s.staticPriv == Some(x.value.priv) && s.hmacKey == Some(h.value.key)
      && ActiveIs(s.records, X25519Static, KeyRecord(x.value.id, X25519Static, x.value.at, None, Some(pub(x.value.priv))))
      && ActiveIs(s.records, Hmac, KeyRecord(h.value.id, Hmac, h.value.at, None, None))
  {
    RunHolds(pub, states, steps, k);
    RunKeepsInv(pub, states, steps, k);
    hide ActiveIs, Backed, Live, LoadedKey;
  }

  /** In particular a rotation while running puts the new key in use, and it stays in use until the next one. */
  lemma RotatedKeyInUse(pub: PrivKey -> string, states: seq<KeySys>, steps: seq<Step>, i: nat, k: nat)
    requires Run(pub, states, steps) && i < k < |states| && states[i].s.running && states[k].s.running
    requires steps[i].RotateStaticStep?
    requires forall j :: i < j < k ==> !steps[j].RotateStaticStep? || !states[j].s.running
    ensures states[k].s.staticPriv == Some(steps[i].priv)
    ensures ActiveIs(states[k].s.records, X25519Static,
                     KeyRecord(steps[i].id, X25519Static, steps[i].createAt, None, Some(pub(steps[i].priv))))
  {
    LatestStays(states, steps, i, k);
    KeysAreLatest(pub, states, steps, k);
    hide ActiveIs;
  }

  lemma {:induction false} LatestStays(states: seq<KeySys>, steps: seq<Step>, i: nat, k: nat)
    requires i < k <= |steps| < |states| && states[i].s.running && steps[i].RotateStaticStep?
    requires forall j :: i < j < k ==> !steps[j].RotateStaticStep? || !states[j].s.running
    ensures LatestStatic(states, steps, k) == Some(StaticKey(steps[i].id, steps[i].priv, steps[i].createAt))
  {
    if i + 1 < k { LatestStays(states, steps, i, k - 1); }
  }

  /** The same of the HMAC key. */
  lemma RotatedHmacInUse(pub: PrivKey -> string, states: seq<KeySys>, steps: seq<Step>, i: nat, k: nat)
    requires Run(pub, states, steps) && i < k < |states| && states[k].s.running && steps[i].RotateHmacStep?
    requires forall j :: i < j < k ==> !steps[j].RotateHmacStep?
    ensures states[k].s.hmacKey == Some(steps[i].key)
    ensures ActiveIs(states[k].s.records, Hmac, KeyRecord(steps[i].id, Hmac, steps[i].createAt, None, None))
  {
    HmacStays(states, steps, i, k);
    KeysAreLatest(pub, states, steps, k);
    hide ActiveIs;
  }

  lemma {:induction false} HmacStays(states: seq<KeySys>, steps: seq<Step>, i: nat, k: nat)
    requires i < k <= |steps| < |states| && steps[i].RotateHmacStep?
    requires forall j :: i < j < k ==> !steps[j].RotateHmacStep?
    ensures LatestHmac(states, steps, k) == Some(HmacKey(steps[i].id, steps[i].key, steps[i].createAt))
  {
    if i + 1 < k { HmacStays(states, steps, i, k - 1); }
  }

  /** Starting fails exactly when the store is stopped and its file cannot be read, and then changes nothing. */
  lemma StartFails(pub: PrivKey -> string, s: KeyState, m: Material, now: real)
    ensures var (s', result) := Start(pub, s, m, now);
      && (result.Err? <==> !s.running && s.disk.Unreadable?)
      && (result.Err? ==> s' == s) && (result.Ok? ==> s'.running) && (s.running ==> s' == s)
  {
    hide Load, GenerateAll, SavedKeys;
  }

  // --- files of any content ------------------------------------------------------------------

  /** The i-th record is the first active one of its type. */
  ghost predicate FirstAt(rs: seq<KeyRecord>, t: KeyType, i: nat) {
    i < |rs| && IsActive(rs[i], t) && forall j :: 0 <= j < i ==> !IsActive(rs[j], t)
  }

  /** The file holds these bytes for the first active record of the type. */
  ghost predicate HasKey(p: Payload, t: KeyType, key: bytes) {
    exists i: nat :: FirstAt(p.records, t, i) && p.records[i].keyId in p.keys && p.keys[p.records[i].keyId] == key
  }

  lemma {:induction false} FirstActiveAt(rs: seq<KeyRecord>, t: KeyType, i: nat)
    ensures FirstActive(rs, t) == Some(i) <==> FirstAt(rs, t, i)
  {
    if |rs| > 0 && !IsActive(rs[0], t) {
      if i > 0 {
        FirstActiveAt(rs[1..], t, i - 1);
        if FirstAt(rs[1..], t, i - 1) { assert forall j :: 0 < j < i ==> rs[j] == rs[1..][j - 1]; }
        if FirstAt(rs, t, i) { assert forall j :: 0 <= j < i - 1 ==> rs[1..][j] == rs[j + 1]; }
      }
    }
  }

  lemma LoadedIs(p: Payload, t: KeyType, key: bytes)
    ensures LoadedKey(p, t) == Some(key) <==> HasKey(p, t, key)
  {
    var i := FirstActive(p.records, t);
    if i.Some? { FirstActiveAt(p.records, t, i.value); }
    if HasKey(p, t, key) {
      var j: nat :| FirstAt(p.records, t, j) && p.records[j].keyId in p.keys && p.keys[p.records[j].keyId] == key;
      FirstActiveAt(p.records, t, j);
    }
  }

  /** A new store started on any file takes over the records and the keys of the first active record of either type,
      and leaves the file alone, if the file holds both; otherwise both keys are new. */
  lemma StartFromAnyFile(pub: PrivKey -> string, p: Payload, m: Material, now: real)
    ensures var (s', result) := Start(pub, KeyState(false, [], None, [], None, Stored(p)), m, now);
      && result == Ok(()) && s'.running
      && (if (exists k :: HasKey(p, X25519Static, k)) && exists k :: HasKey(p, Hmac, k) && |k| > 0
          then && s'.disk == Stored(p) && s'.records == p.records
               && s'.staticPriv.Some? && HasKey(p, X25519Static, s'.staticPriv.value.raw)
               && s'.hmacKey.Some? && HasKey(p, Hmac, s'.hmacKey.value)
          else s'.staticPriv == Some(m.staticPriv) && s'.hmacKey == Some(m.hmacKey))
  {
    hide HasKey, LoadedKey, SavedKeys, LoadedRetired, Insert;
    var x, h := LoadedKey(p, X25519Static), LoadedKey(p, Hmac);
    if x.Some? { LoadedIs(p, X25519Static, x.value); }
    if h.Some? { LoadedIs(p, Hmac, h.value); }
    if k :| HasKey(p, X25519Static, k) { LoadedIs(p, X25519Static, k); }
    if k :| HasKey(p, Hmac, k) && |k| > 0 { LoadedIs(p, Hmac, k); }
  }

  lemma AppendFirstAt(rs: seq<KeyRecord>, t: KeyType, i: nat, more: seq<KeyRecord>)
    requires FirstAt(rs, t, i)
    ensures FirstAt(rs + more, t, i)
  {
    forall j | 0 <= j <= i ensures (rs + more)[j] == rs[j] {}
  }

  /** What the file holds under the ids of the first active static record and of another record. */
  lemma SavedStatic(s: KeyState, i: nat, other: nat)
    requires FirstAt(s.records, X25519Static, i) && s.staticPriv.Some? && DistinctIds(s.records)
    requires i != other < |s.records| && IsActive(s.records[other], X25519Static)
    requires forall r :: r in s.retired ==> Recorded(s.records, r)
    ensures var keys, id := SavedKeys(s), s.records[other].keyId;
      && s.records[i].keyId in keys && keys[s.records[i].keyId] == s.staticPriv.value.raw && id !in keys
  {
    FirstActiveAt(s.records, X25519Static, i);
    var keys0 := map[s.records[i].keyId := s.staticPriv.value.raw];
    forall r | r in s.retired ensures r.keyId != s.records[i].keyId && r.keyId != s.records[other].keyId {
      RetiredNotActive(s.records, r, X25519Static, i);
      RetiredNotActive(s.records, r, X25519Static, other);
    }
    WithRetiredFrame(keys0, s.retired, s.records[i].keyId);
    WithRetiredFrame(keys0, s.retired, s.records[other].keyId);
    var h := FirstActive(s.records, Hmac);
    if h.Some? { DifferentIds(s.records, h.value, i); DifferentIds(s.records, h.value, other); }
    DifferentIds(s.records, i, other);
    hide FirstActive, WithRetired, Recorded, DistinctIds, FirstAt;
  }

  lemma DifferentIds(rs: seq<KeyRecord>, i: nat, j: nat)
    requires DistinctIds(rs) && i < |rs| && j < |rs| && i != j
    ensures rs[i].keyId != rs[j].keyId
  {
  }

  predicate NewIds(rs: seq<KeyRecord>, m: Material) {
    m.staticId != m.hmacId && forall j :: 0 <= j < |rs| ==> rs[j].keyId != m.staticId && rs[j].keyId != m.hmacId
  }

  lemma RegeneratedRecords(pub: PrivKey -> string, s: KeyState, m: Material, now: real)
    requires DistinctIds(s.records) && NewIds(s.records, m)
    ensures var s' := GenerateAll(pub, s, m, now);
      && s'.records == s.records + [KeyRecord(m.staticId, X25519Static, now, None, Some(pub(m.staticPriv))),
                                    KeyRecord(m.hmacId, Hmac, now, None, None)]
      && DistinctIds(s'.records) && s'.retired == s.retired && s'.staticPriv == Some(m.staticPriv)
  {
    var k0 := KeyRecord(m.staticId, X25519Static, now, None, Some(pub(m.staticPriv)));
    InsertFresh(s.records, k0);
    InsertFresh(s.records + [k0], KeyRecord(m.hmacId, Hmac, now, None, None));
  }

  lemma Regenerating(pub: PrivKey -> string, p: Payload, m: Material, now: real) returns (s0: KeyState)
    requires !((exists k :: HasKey(p, X25519Static, k)) && exists k :: HasKey(p, Hmac, k) && |k| > 0)
    ensures s0.records == p.records && s0.retired == LoadedRetired(p.records, p.keys, now)
    ensures Start(pub, KeyState(false, [], None, [], None, Stored(p)), m, now).0
         == Save(GenerateAll(pub, s0, m, now)).(running := true)
  {
    hide HasKey, LoadedKey, SavedKeys, LoadedRetired, Insert;
    var x, h := LoadedKey(p, X25519Static), LoadedKey(p, Hmac);
    if x.Some? { LoadedIs(p, X25519Static, x.value); }
    if h.Some? { LoadedIs(p, Hmac, h.value); }
    s0 := Reload(KeyState(false, [], None, [], None, Stored(p)), p, now);
  }

  lemma StillRecorded(p: Payload, now: real, more: seq<KeyRecord>)
    ensures forall r :: r in LoadedRetired(p.records, p.keys, now) ==> Recorded(p.records + more, r)
  {
    forall r | r in LoadedRetired(p.records, p.keys, now) ensures Recorded(p.records + more, r) {
      LoadedRetiredSound(p.records, p.keys, now, r);
      var i :| 0 <= i < |p.records| && p.records[i].keyId == r.keyId && p.records[i].keyType == X25519Static
               && p.records[i].retiredAt == Some(r.retiredAt);
      assert (p.records + more)[i] == p.records[i];
    }
  }

  /** When a file shows an active static record but lacks a key, the new private key is saved under the id of that old
      record, and nothing under the id of its own. */
  lemma RegeneratedUnderOldId(pub: PrivKey -> string, p: Payload, m: Material, now: real, i: nat)
    requires DistinctIds(p.records) && FirstAt(p.records, X25519Static, i) && NewIds(p.records, m)
    requires !((exists k :: HasKey(p, X25519Static, k)) && exists k :: HasKey(p, Hmac, k) && |k| > 0)
    ensures var s' := Start(pub, KeyState(false, [], None, [], None, Stored(p)), m, now).0;
      && s'.disk.Stored? && s'.disk.payload.records == s'.records && FirstAt(s'.records, X25519Static, i)
      && i < |p.records| < |s'.records| && s'.records[i] == p.records[i] && m.staticId !in s'.disk.payload.keys
      && HasKey(s'.disk.payload, X25519Static, m.staticPriv.raw)
  {
    hide HasKey, LoadedRetired, SavedKeys, Insert, Load, Recorded, DistinctIds, NewIds, FirstAt;
    FirstInRange(p.records, X25519Static, i);
    var s0 := Regenerating(pub, p, m, now);
    RegeneratedRecords(pub, s0, m, now);
    var s, n := GenerateAll(pub, s0, m, now), |p.records|;
    var more := s.records[n..];
    assert s.records == p.records + more;
    AppendFirstAt(p.records, X25519Static, i, more);
    StillRecorded(p, now, more);
    SavedStatic(s, i, n);
    HeldAt(Payload(s.records, SavedKeys(s)), X25519Static, i);
  }

  lemma FirstInRange(rs: seq<KeyRecord>, t: KeyType, i: nat)
    requires FirstAt(rs, t, i)
    ensures i < |rs|
  {
  }

  lemma HeldAt(p: Payload, t: KeyType, i: nat)
    requires i < |p.records| && FirstAt(p.records, t, i) && p.records[i].keyId in p.keys
    ensures HasKey(p, t, p.keys[p.records[i].keyId])
  {
  }
}
