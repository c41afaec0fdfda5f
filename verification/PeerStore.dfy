/** The registry of known peers and its two indices. */
module PeerStore {
  import opened Common

  datatype PeerStatus =
    | DISCOVERED | CONNECTING | CONNECTED | HANDSHAKING | VERIFIED | DEGRADED | DISCONNECTED | BANNED

  function Rank(s: PeerStatus): int {
    match s
    case DISCOVERED => 0
    case CONNECTING => 1
    case CONNECTED => 2
    case HANDSHAKING => 3
    case VERIFIED => 4
    case DEGRADED => 2
    case DISCONNECTED => 0
    case BANNED => -1
  }

  datatype Peer = Peer(nodeId: string, peerId: string, publicKey: string, addresses: seq<string>, aka: Option<string>,
                       status: PeerStatus, lastSeen: real)

  /** The primary index, and the secondary one from peer ids to node ids. */
  datatype Registry = Registry(byNodeId: map<string, Peer>, byPeerId: map<string, string>)

  /** The addresses of a list that are not in the known ones, in order; a repeated one is repeated. */
  function NewAddresses(known: seq<string>, addresses: seq<string>): seq<string> {
    if |addresses| == 0 then []
    else
      var last := addresses[|addresses| - 1];
      NewAddresses(known, addresses[..|addresses| - 1]) + (if last in known then [] else [last])
  }

  /** An optional string that is absent or empty counts as missing. */
  predicate Missing(s: Option<string>) {
    s.None? || s.value == ""
  }

  function Merge(existing: Peer, peer: Peer, now: real): Peer {
    existing.(addresses := existing.addresses + NewAddresses(existing.addresses, peer.addresses),
              aka := if !Missing(peer.aka) && Missing(existing.aka) then peer.aka else existing.aka,
              status := if Rank(peer.status) > Rank(existing.status) then peer.status else existing.status,
              lastSeen := now)
  }

  function AddOrUpdate(s: Registry, peer: Peer, now: real): Registry {
    if peer.nodeId in s.byNodeId then s.(byNodeId := s.byNodeId[peer.nodeId := Merge(s.byNodeId[peer.nodeId], peer, now)])
    else Registry(s.byNodeId[peer.nodeId := peer], s.byPeerId[peer.peerId := peer.nodeId])
  }

  function Remove(s: Registry, nodeId: string): Registry {
    if nodeId in s.byNodeId then Registry(s.byNodeId - {nodeId}, s.byPeerId - {s.byNodeId[nodeId].peerId}) else s
  }

  function SetStatus(s: Registry, nodeId: string, status: PeerStatus): Registry {
    if nodeId in s.byNodeId then s.(byNodeId := s.byNodeId[nodeId := s.byNodeId[nodeId].(status := status)]) else s
  }

  function ByPeerId(s: Registry, peerId: string): Option<Peer> {
    if peerId in s.byPeerId && s.byPeerId[peerId] != "" && s.byPeerId[peerId] in s.byNodeId
    then Some(s.byNodeId[s.byPeerId[peerId]]) else None
  }

  // --- the classes ---------------------------------------------------------------------------

  class PeerInfo {
    const nodeId: string
    const peerId: string
    const publicKey: string
    var addresses: seq<string>
    var aka: Option<string>
    var status: PeerStatus
    var lastSeen: real

    constructor (p: Peer)
      ensures View() == p
    {
      nodeId, peerId, publicKey := p.nodeId, p.peerId, p.publicKey;
      addresses, aka, status, lastSeen := p.addresses, p.aka, p.status, p.lastSeen;
    }

    ghost function View(): Peer
      reads this
    {
      Peer(nodeId, peerId, publicKey, addresses, aka, status, lastSeen)
    }

    method Touch(now: real)
      modifies this`lastSeen
      ensures View() == old(View()).(lastSeen := now)
    {
      lastSeen := now;
    }

    /** The part of add_or_update that merges another description of the same peer into this one. */
    method MergeFrom(peer: PeerInfo, now: real)
      modifies this
      ensures View() == Merge(old(View()), old(peer.View()), now)
    {
      var known, incoming := addresses, peer.addresses;
      for i := 0 to |incoming|
        invariant addresses == known + NewAddresses(known, incoming[..i])
        invariant View() == old(View()).(addresses := addresses)
      {
        assert incoming[..i + 1][..i] == incoming[..i];
        if incoming[i] !in known { addresses := addresses + [incoming[i]]; }
      }
      assert incoming[..|incoming|] == incoming;
      if peer == this { AllKnown(known); }
      if !Missing(peer.aka) && Missing(aka) { aka := peer.aka; }
      if Rank(peer.status) > Rank(status) { status := peer.status; }
      Touch(now);
    }
  }

  class Store {
    var byNodeId: map<string, PeerInfo>
    var byPeerId: map<string, string>

    constructor ()
      ensures Valid() && View() == Registry(map[], map[])
    {
      byNodeId, byPeerId := map[], map[];
    }

    /** Peers are filed under their own node ids. */
    ghost predicate Valid()
      reads this
    {
      forall n :: n in byNodeId ==> byNodeId[n].nodeId == n
    }

    ghost function View(): Registry
      reads this, byNodeId.Values
    {
      Registry(map n | n in byNodeId :: byNodeId[n].View(), byPeerId)
    }

    method AddPeer(peer: PeerInfo, now: real) returns (stored: PeerInfo)
      requires Valid()
      modifies this, byNodeId.Values
      ensures Valid() && View() == AddOrUpdate(old(View()), old(peer.View()), now)
      ensures peer.nodeId in byNodeId && stored == byNodeId[peer.nodeId]
      ensures stored == if peer.nodeId in old(byNodeId) then old(byNodeId)[peer.nodeId] else peer
    {
      if peer.nodeId !in byNodeId {
        byNodeId := byNodeId[peer.nodeId := peer];
        byPeerId := byPeerId[peer.peerId := peer.nodeId];
        return peer;
      }
      stored := byNodeId[peer.nodeId];
      stored.MergeFrom(peer, now);
    }

    method RemovePeer(nodeId: string) returns (removed: Option<PeerInfo>)
      requires Valid()
      modifies this
      ensures Valid() && View() == Remove(old(View()), nodeId)
      ensures removed == if nodeId in old(byNodeId) then Some(old(byNodeId)[nodeId]) else None
    {
      if nodeId !in byNodeId {
        return None;
      }
      removed := Some(byNodeId[nodeId]);
      byNodeId := byNodeId - {nodeId};
      byPeerId := byPeerId - {removed.value.peerId};
    }

    method Ban(nodeId: string)
      requires Valid()
      modifies byNodeId.Values
      ensures Valid() && View() == SetStatus(old(View()), nodeId, BANNED)
    {
      if nodeId in byNodeId {
        byNodeId[nodeId].status := BANNED;
      }
    }

    method GetByPeerId(peerId: string) returns (peer: Option<PeerInfo>)
      requires Valid()
      ensures peer.Some? == ByPeerId(View(), peerId).Some?
      ensures peer.Some? ==> peer.value in byNodeId.Values && peer.value.View() == ByPeerId(View(), peerId).value
    {
      if peerId in byPeerId && byPeerId[peerId] != "" && byPeerId[peerId] in byNodeId {
        return Some(byNodeId[byPeerId[peerId]]);
      }
      return None;
    }
  }

  lemma {:induction false} NewExact(known: seq<string>, addresses: seq<string>)
    ensures forall a :: a in NewAddresses(known, addresses) <==> a in addresses && a !in known
  {
    if |addresses| > 0 {
      var n := |addresses| - 1;
      assert addresses == addresses[..n] + [addresses[n]];
      NewExact(known, addresses[..n]);
    }
  }

  lemma AllKnown(known: seq<string>)
    ensures NewAddresses(known, known) == []
  {
    NewExact(known, known);
    if NewAddresses(known, known) != [] {
      assert NewAddresses(known, known)[0] in NewAddresses(known, known);
    }
  }

  // --- one update --------------------------------------------------------------------------------

  /** An update loses no address and adds exactly the new ones; it never lowers the rank; it changes neither id; and
      a ban survives it exactly when the update itself says the peer is banned. */
  lemma MergeMeaning(existing: Peer, peer: Peer, now: real)
    ensures var m := Merge(existing, peer, now);
      && (forall a :: a in m.addresses <==> a in existing.addresses || a in peer.addresses)
      && existing.addresses <= m.addresses
      && Rank(m.status) == Max(Rank(existing.status), Rank(peer.status))
      && (Rank(peer.status) <= Rank(existing.status) ==> m.status == existing.status)
      && m.nodeId == existing.nodeId && m.peerId == existing.peerId && m.publicKey == existing.publicKey
      && (!Missing(existing.aka) ==> m.aka == existing.aka)
      && (existing.status == BANNED ==> (m.status == BANNED <==> peer.status == BANNED))
  {
    NewExact(existing.addresses, peer.addresses);
  }

  // --- the indices ---------------------------------------------------------------------------------

  /** Each index undoes the other. */
  ghost predicate Inverse(s: Registry) {
    && (forall n :: n in s.byNodeId ==> s.byNodeId[n].nodeId == n)
    && (forall n :: n in s.byNodeId ==> s.byNodeId[n].peerId in s.byPeerId && s.byPeerId[s.byNodeId[n].peerId] == n)
    && (forall p :: p in s.byPeerId ==> s.byPeerId[p] in s.byNodeId && s.byNodeId[s.byPeerId[p]].peerId == p)
  }

  /** Adding keeps the indices inverse exactly when the node is already known or its peer id is not. */
  lemma AddKeepsInverse(s: Registry, peer: Peer, now: real)
    requires Inverse(s)
    ensures Inverse(AddOrUpdate(s, peer, now)) <==> peer.nodeId in s.byNodeId || peer.peerId !in s.byPeerId
  {
    hide NewAddresses;
    var t := AddOrUpdate(s, peer, now);
    if peer.nodeId !in s.byNodeId && peer.peerId in s.byPeerId {
      var n := s.byPeerId[peer.peerId];
      assert n in s.byNodeId && n != peer.nodeId;
      assert t.byNodeId[n] == s.byNodeId[n] && t.byPeerId[peer.peerId] == peer.nodeId;
    }
  }

  lemma RemoveKeepsInverse(s: Registry, nodeId: string)
    requires Inverse(s)
    ensures Inverse(Remove(s, nodeId))
    ensures nodeId !in Remove(s, nodeId).byNodeId
    ensures forall p :: ByPeerId(Remove(s, nodeId), p) == NotOf(ByPeerId(s, p), nodeId)
  {
  }

  function NotOf(found: Option<Peer>, nodeId: string): Option<Peer> {
    if found.Some? && found.value.nodeId == nodeId then None else found
  }

  lemma StatusKeepsInverse(s: Registry, nodeId: string, status: PeerStatus)
    requires Inverse(s)
    ensures Inverse(SetStatus(s, nodeId, status))
  {
  }

  // --- every run -------------------------------------------------------------------------------------

  datatype Op = Add(peer: Peer, now: real) | Del(nodeId: string) | Mark(nodeId: string, status: PeerStatus)

  function Apply(s: Registry, op: Op): Registry {
    match op
    case Add(peer, now) => AddOrUpdate(s, peer, now)
    case Del(nodeId) => Remove(s, nodeId)
    case Mark(nodeId, status) => SetStatus(s, nodeId, status)
  }

  function Run(ops: seq<Op>): Registry {
    if |ops| == 0 then Registry(map[], map[]) else Apply(Run(ops[..|ops| - 1]), ops[|ops| - 1])
  }

  ghost predicate Mentions(ops: seq<Op>, nodeId: string, peerId: string) {
    exists i :: 0 <= i < |ops| && ops[i].Add? && ops[i].peer.nodeId == nodeId && ops[i].peer.peerId == peerId
  }

  /** No two nodes among the peers ever added have the same peer id, and every node id is non-empty. */
  ghost predicate DistinctIds(ops: seq<Op>) {
    && (forall n, p :: Mentions(ops, n, p) ==> n != "")
    && (forall m, n, p :: Mentions(ops, m, p) && Mentions(ops, n, p) ==> m == n)
  }

  ghost predicate AllMentioned(s: Registry, ops: seq<Op>) {
    forall n :: n in s.byNodeId ==> Mentions(ops, n, s.byNodeId[n].peerId)
  }

  lemma MentionedEarlier(ops: seq<Op>, nodeId: string, peerId: string)
    requires |ops| > 0 && Mentions(ops[..|ops| - 1], nodeId, peerId)
    ensures Mentions(ops, nodeId, peerId)
  {
    var front := ops[..|ops| - 1];
    var i :| 0 <= i < |front| && front[i].Add? && front[i].peer.nodeId == nodeId && front[i].peer.peerId == peerId;
    assert ops[i] == front[i];
  }

  lemma LastMentioned(ops: seq<Op>)
    requires |ops| > 0 && ops[|ops| - 1].Add?
    ensures Mentions(ops, ops[|ops| - 1].peer.nodeId, ops[|ops| - 1].peer.peerId)
  {
  }

  /** In every run of adds, removals and status changes the indices stay inverse. */
  lemma {:induction false} RunInverse(ops: seq<Op>)
    requires DistinctIds(ops)
    ensures Inverse(Run(ops)) && AllMentioned(Run(ops), ops)
  {
    if |ops| > 0 {
      var front, op := ops[..|ops| - 1], ops[|ops| - 1];
      hide Mentions, Merge;
      forall n, p | Mentions(front, n, p) ensures Mentions(ops, n, p) { MentionedEarlier(ops, n, p); }
      if op.Add? { LastMentioned(ops); }
      RunInverse(front);
      var s := Run(front);
      match op {
        case Add(peer, now) =>
          if peer.peerId in s.byPeerId { assert Mentions(front, s.byPeerId[peer.peerId], peer.peerId); }
          AddKeepsInverse(s, peer, now);
        case Del(nodeId) => RemoveKeepsInverse(s, nodeId);
        case Mark(nodeId, status) => StatusKeepsInverse(s, nodeId, status);
      }
    }
  }

  /** Hence both look-ups find the same peers: one by its peer id exactly the one stored under its node id. */
  lemma LookupsAgree(ops: seq<Op>, peerId: string, peer: Peer)
    requires DistinctIds(ops)
    ensures ByPeerId(Run(ops), peerId) == Some(peer)
        <==> peer.nodeId in Run(ops).byNodeId && Run(ops).byNodeId[peer.nodeId] == peer && peer.peerId == peerId
  {
    RunInverse(ops);
  }

  /** Two nodes that give the same peer id break the indices: the look-up finds the second only, and once that one is
      removed it finds nothing although the first is still stored. */
  lemma SharedPeerIdBreaksIndices(a: Peer, b: Peer, t0: real, t1: real)
    requires a.nodeId != b.nodeId && b.nodeId != "" && a.peerId == b.peerId
    ensures var both := Run([Add(a, t0), Add(b, t1)]);
      && !Inverse(both) && both.byNodeId == map[a.nodeId := a, b.nodeId := b] && ByPeerId(both, a.peerId) == Some(b)
      && var rest := Run([Add(a, t0), Add(b, t1), Del(b.nodeId)]);
        rest.byNodeId == map[a.nodeId := a] && ByPeerId(rest, a.peerId) == None
  {
    var one, two, three := [Add(a, t0)], [Add(a, t0), Add(b, t1)], [Add(a, t0), Add(b, t1), Del(b.nodeId)];
    assert one[..0] == [] && two[..1] == one && three[..2] == two;
    assert Run(one) == Registry(map[a.nodeId := a], map[a.peerId := a.nodeId]);
    assert Run(two) == Registry(map[a.nodeId := a, b.nodeId := b], map[a.peerId := b.nodeId]);
    assert !Inverse(Run(two)) by { assert Run(two).byNodeId[a.nodeId] == a; }
    assert Run(three) == Registry(map[a.nodeId := a], map[]);
  }

  // --- one peer through a run --------------------------------------------------------------------------

  /** The i-th operation added the node, and none since has removed it. */
  ghost predicate Live(ops: seq<Op>, n: string, i: nat) {
    i < |ops| && ops[i].Add? && ops[i].peer.nodeId == n && forall j :: i < j < |ops| ==> ops[j] != Del(n)
  }

  ghost predicate First(ops: seq<Op>, n: string, i: nat) {
    Live(ops, n, i) && forall j: nat :: j < i ==> !Live(ops, n, j)
  }

  ghost predicate Latest(ops: seq<Op>, n: string, i: nat) {
    Live(ops, n, i) && forall j: nat :: i < j ==> !Live(ops, n, j)
  }

  /** How far a connection with a peer has come; a ban is the lowest. */
  function Order(s: PeerStatus): int {
    if s == BANNED then -1
    else if s == DISCOVERED || s == DISCONNECTED then 0
    else if s == CONNECTING then 1
    else if s == CONNECTED || s == DEGRADED then 2
    else if s == HANDSHAKING then 3
    else 4
  }

  /** The status by the log alone: that of the first add, raised by later ones, set by marks, gone by a removal. */
  function StatusLog(ops: seq<Op>, n: string): Option<PeerStatus> {
    if |ops| == 0 then None
    else
      var before := StatusLog(ops[..|ops| - 1], n);
      match ops[|ops| - 1]
      case Add(peer, now) =>
        if peer.nodeId != n then before
        else if before.None? then Some(peer.status)
        else if Order(peer.status) > Order(before.value) then Some(peer.status)
        else before
      case Mark(x, status) => if x == n && before.Some? then Some(status) else before
      case Del(x) => if x == n then None else before
  }

  /** The name by the log alone: that of the first add, replaced by the first later one that gives one while there is
      none; an empty name is none. */
  function NameLog(ops: seq<Op>, n: string): Option<Option<string>> {
    if |ops| == 0 then None
    else
      var before := NameLog(ops[..|ops| - 1], n);
      match ops[|ops| - 1]
      case Add(peer, now) =>
        if peer.nodeId != n then before
        else if before.None? then Some(peer.aka)
        else if (before.value == None || before.value == Some("")) && peer.aka != None && peer.aka != Some("") then Some(peer.aka)
        else before
      case Mark(x, status) => before
      case Del(x) => if x == n then None else before
  }

  /** What a stored peer owes to the log of operations. */
  ghost predicate Accounted(ops: seq<Op>, n: string, p: Peer) {
    && p.nodeId == n
    && (forall a :: a in p.addresses <==> exists i: nat :: Live(ops, n, i) && a in ops[i].peer.addresses)
    && (forall i: nat :: First(ops, n, i) ==> p.peerId == ops[i].peer.peerId && p.publicKey == ops[i].peer.publicKey)
    && (forall i: nat :: Latest(ops, n, i) ==> p.lastSeen == if First(ops, n, i) then ops[i].peer.lastSeen else ops[i].now)
  }

  lemma LiveStep(ops: seq<Op>, n: string, i: nat)
    requires |ops| > 0
    ensures var front, op := ops[..|ops| - 1], ops[|ops| - 1];
      Live(ops, n, i) <==>
        if i < |front| then Live(front, n, i) && op != Del(n) else i == |front| && op.Add? && op.peer.nodeId == n
    ensures i < |ops| - 1 ==> ops[..|ops| - 1][i] == ops[i]
  {
  }

  /** What is stored under a node id after a run, and after one more operation. */
  function StoredAfter(ops: seq<Op>, n: string): Option<Peer> {
    if n in Run(ops).byNodeId then Some(Run(ops).byNodeId[n]) else None
  }

  function PeerAfter(before: Option<Peer>, op: Op, n: string): Option<Peer> {
    match op
    case Add(peer, now) =>
      if peer.nodeId != n then before else if before.None? then Some(peer) else Some(Merge(before.value, peer, now))
    case Del(x) => if x == n then None else before
    case Mark(x, status) => if x == n && before.Some? then Some(before.value.(status := status)) else before
  }

  lemma StoredStep(ops: seq<Op>, n: string)
    requires |ops| > 0
    ensures StoredAfter(ops, n) == PeerAfter(StoredAfter(ops[..|ops| - 1], n), ops[|ops| - 1], n)
  {
    hide Merge;
  }

  ghost predicate SomeLive(ops: seq<Op>, n: string) {
    exists i: nat :: Live(ops, n, i)
  }

  /** The operation leaves the adds of the node as they were. */
  ghost predicate Spares(front: seq<Op>, ops: seq<Op>, n: string) {
    forall i: nat :: (Live(ops, n, i) <==> Live(front, n, i)) && (Live(front, n, i) ==> i < |front| && i < |ops| && front[i] == ops[i])
  }

  /** The operation adds the node once more. */
  ghost predicate Extends(front: seq<Op>, ops: seq<Op>, n: string) {
    && |ops| == |front| + 1 && Live(ops, n, |front|)
    && forall i: nat :: (Live(ops, n, i) <==> Live(front, n, i) || i == |front|)
                        && (Live(front, n, i) ==> i < |front| && front[i] == ops[i])
  }

  lemma StepOfLive(ops: seq<Op>, n: string)
    requires |ops| > 0
    ensures var front, op := ops[..|ops| - 1], ops[|ops| - 1];
      if op.Add? && op.peer.nodeId == n then Extends(front, ops, n)
      else if op == Del(n) then !SomeLive(ops, n) else Spares(front, ops, n)
  {
    var front := ops[..|ops| - 1];
    forall i: nat
      ensures Live(ops, n, i) <==>
        if i < |front| then Live(front, n, i) && ops[|ops| - 1] != Del(n)
        else i == |front| && ops[|ops| - 1].Add? && ops[|ops| - 1].peer.nodeId == n
      ensures Live(front, n, i) ==> i < |front| && front[i] == ops[i]
    {
      LiveStep(ops, n, i);
    }
    hide Live;
  }

  lemma SparedOrder(front: seq<Op>, ops: seq<Op>, n: string)
    requires Spares(front, ops, n)
    ensures forall i: nat :: (First(ops, n, i) <==> First(front, n, i)) && (Latest(ops, n, i) <==> Latest(front, n, i))
    ensures forall i: nat :: First(front, n, i) || Latest(front, n, i) ==> i < |front| && i < |ops| && front[i] == ops[i]
  {
    hide Live;
  }

  lemma SparedAddresses(front: seq<Op>, ops: seq<Op>, n: string, a: string)
    requires Spares(front, ops, n)
    ensures (exists i: nat :: Live(ops, n, i) && a in ops[i].peer.addresses) <==>
      (exists i: nat :: Live(front, n, i) && a in front[i].peer.addresses)
  {
    if i: nat :| Live(front, n, i) && a in front[i].peer.addresses {
      assert Live(ops, n, i) && a in ops[i].peer.addresses;
    }
    if i: nat :| Live(ops, n, i) && a in ops[i].peer.addresses {
      assert Live(front, n, i) && a in front[i].peer.addresses;
    }
  }

  lemma SparedAccounted(front: seq<Op>, ops: seq<Op>, n: string, p: Peer, p': Peer)
    requires Spares(front, ops, n) && Accounted(front, n, p) && p' == p.(status := p'.status)
    ensures Accounted(ops, n, p')
  {
    SparedOrder(front, ops, n);
    forall a ensures a in p'.addresses <==> exists i: nat :: Live(ops, n, i) && a in ops[i].peer.addresses {
      SparedAddresses(front, ops, n, a);
    }
    hide Live, First, Latest, Spares;
  }

  lemma NewAccounted(front: seq<Op>, ops: seq<Op>, n: string)
    requires Extends(front, ops, n) && !SomeLive(front, n)
    ensures Accounted(ops, n, ops[|front|].peer)
  {
    var last: nat := |front|;
    assert forall i: nat :: Live(ops, n, i) <==> i == last;
    assert ops[last].peer.nodeId == n;
    hide Live;
    assert First(ops, n, last);
  }

  lemma MergedAccounted(front: seq<Op>, ops: seq<Op>, n: string, p: Peer)
    requires Extends(front, ops, n) && SomeLive(front, n) && Accounted(front, n, p)
    ensures Accounted(ops, n, Merge(p, ops[|front|].peer, ops[|front|].now))
  {
    var last: nat := |front|;
    var peer, p' := ops[last].peer, Merge(p, ops[last].peer, ops[last].now);
    MergeMeaning(p, peer, ops[last].now);
    assert p'.lastSeen == ops[last].now;
    hide Live, Merge;
    forall a ensures a in p'.addresses <==> exists i: nat :: Live(ops, n, i) && a in ops[i].peer.addresses {
      if a in p.addresses {
        var i: nat :| Live(front, n, i) && a in front[i].peer.addresses;
        assert Live(ops, n, i) && a in ops[i].peer.addresses;
      }
      if a in peer.addresses { assert Live(ops, n, last) && a in ops[last].peer.addresses; }
      if i: nat :| Live(ops, n, i) && a in ops[i].peer.addresses {
        if i < last { assert Live(front, n, i) && a in front[i].peer.addresses; }
      }
    }
    var some: nat :| Live(front, n, some);
    forall i: nat | First(ops, n, i) ensures p'.peerId == ops[i].peer.peerId && p'.publicKey == ops[i].peer.publicKey {
      assert Live(ops, n, some) && i != last;
      assert First(front, n, i);
    }
    forall i: nat | Latest(ops, n, i) ensures i == last && !First(ops, n, i) {
      assert Live(ops, n, last) && Live(ops, n, some);
    }
  }

  lemma RanksAreOrder(s: PeerStatus)
    ensures Rank(s) == Order(s)
  {
  }

  lemma LogStep(ops: seq<Op>, n: string, before: Option<Peer>)
    requires |ops| > 0
    requires StatusLog(ops[..|ops| - 1], n) == if before.Some? then Some(before.value.status) else None
    requires NameLog(ops[..|ops| - 1], n) == if before.Some? then Some(before.value.aka) else None
    ensures var after := PeerAfter(before, ops[|ops| - 1], n);
      && StatusLog(ops, n) == (if after.Some? then Some(after.value.status) else None)
      && NameLog(ops, n) == (if after.Some? then Some(after.value.aka) else None)
  {
    var op := ops[|ops| - 1];
    if op.Add? {
      RanksAreOrder(op.peer.status);
      if before.Some? { RanksAreOrder(before.value.status); }
    }
    hide NewAddresses, Rank, Order;
  }

  /** In every run, a node is stored exactly when some add of it has not been followed by its removal, and what is stored
      owes to those adds: the addresses of all, the ids of the first, the time of the latest; the status and the name are
      those of the log. */
  lemma {:induction false} PeersAreAccounted(ops: seq<Op>, n: string)
    ensures var stored := StoredAfter(ops, n);
      && (stored.Some? <==> SomeLive(ops, n))
      && (stored.Some? ==> Accounted(ops, n, stored.value))
      && StatusLog(ops, n) == (if stored.Some? then Some(stored.value.status) else None)
      && NameLog(ops, n) == (if stored.Some? then Some(stored.value.aka) else None)
  {
    if |ops| > 0 {
      var front, op := ops[..|ops| - 1], ops[|ops| - 1];
      var before := StoredAfter(front, n);
      PeersAreAccounted(front, n);
      StoredStep(ops, n);
      LogStep(ops, n, before);
      StepOfLive(ops, n);
      hide Accounted, StatusLog, NameLog, StoredAfter, Merge, Live;
      if op.Add? && op.peer.nodeId == n {
        assert SomeLive(ops, n) by { assert Live(ops, n, |front|); }
        if before.Some? { MergedAccounted(front, ops, n, before.value); } else { NewAccounted(front, ops, n); }
      } else if op != Del(n) {
        if before.Some? { SparedAccounted(front, ops, n, before.value, PeerAfter(before, op, n).value); }
      }
    } else {
      NothingLive(n);
    }
  }

  lemma NothingLive(n: string)
    ensures !SomeLive([], n) && StoredAfter([], n) == None
  {
  }

  /** An add never lowers the rank of a stored peer and leaves it at least that of the peer added; a mark leaves exactly
      its status. */
  lemma StatusMoves(ops: seq<Op>, n: string)
    requires |ops| > 0 && StoredAfter(ops[..|ops| - 1], n).Some?
    ensures var op, before, after := ops[|ops| - 1], StoredAfter(ops[..|ops| - 1], n), StoredAfter(ops, n);
      && (op.Add? ==> after.Some? && Order(after.value.status) >= Order(before.value.status))
      && (op.Add? && op.peer.nodeId == n ==> Order(after.value.status) >= Order(op.peer.status))
      && (op.Mark? && op.nodeId == n ==> after.Some? && after.value.status == op.status)
  {
    StoredStep(ops, n);
    RanksAreOrder(StoredAfter(ops[..|ops| - 1], n).value.status);
    if ops[|ops| - 1].Add? { RanksAreOrder(ops[|ops| - 1].peer.status); }
    hide StoredAfter, NewAddresses, Rank, Order;
  }
}
