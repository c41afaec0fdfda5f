/** The pin registry: a dictionary from CID strings to pin records. */
module Pins {
  import opened Common
  import opened Cid

  datatype PinType = Recursive | Direct

  datatype PinRecord = PinRecord(
    cid: string, pinType: PinType, name: Option<string>, pinnedAt: real, size: Option<nat>, tags: seq<string>)

  type PinTable = map<string, PinRecord>

  /** Pinning keeps an existing record as it is. */
  function Pin(pins: PinTable, cid: CID, pinType: PinType, name: Option<string>, size: Option<nat>,
               tags: seq<string>, now: real): PinTable {
    if ToStr(cid) in pins then pins
    else pins[ToStr(cid) := PinRecord(ToStr(cid), pinType, name, now, size, tags)]
  }

  function Unpin(pins: PinTable, cid: CID): PinTable {
    pins - {ToStr(cid)}
  }

  /** The CIDs the keys parse to; keys that do not parse are skipped. */
  function PinnedSet(pins: PinTable): set<CID> {
    set s | s in pins && FromStr(s).Ok? :: FromStr(s).value
  }

  /** Every key is the string of a CID, as it is when only pin adds keys. */
  ghost predicate Canonical(pins: PinTable) {
    forall s :: s in pins ==> FromStr(s).Ok? && ToStr(FromStr(s).value) == s
  }

  lemma PinKeepsCanonical(pins: PinTable, cid: CID, pinType: PinType, name: Option<string>, size: Option<nat>,
                          tags: seq<string>, now: real)
    requires Canonical(pins)
    ensures Canonical(Pin(pins, cid, pinType, name, size, tags, now))
    ensures Pin(pins, cid, pinType, name, size, tags, now).Keys == pins.Keys + {ToStr(cid)}
  {
    hide FromStr, ToStr;
    StrRoundTrip(cid);
  }

  /** The set handed to the collector holds a CID exactly when that CID is pinned. */
  lemma PinnedSetExact(pins: PinTable, cid: CID)
    requires Canonical(pins)
    ensures cid in PinnedSet(pins) <==> ToStr(cid) in pins
  {
    hide FromStr, ToStr;
    StrRoundTrip(cid);
    if cid in PinnedSet(pins) {
      var s :| s in pins && FromStr(s) == Ok(cid);
    }
  }

  class PinManager {
    var pins: PinTable

    constructor ()
      ensures pins == map[]
    {
      pins := map[];
    }

    method PinCid(cid: CID, pinType: PinType, name: Option<string>, size: Option<nat>, tags: seq<string>, now: real)
      returns (record: PinRecord)
      modifies this
      ensures pins == Pin(old(pins), cid, pinType, name, size, tags, now)
      ensures ToStr(cid) in pins && record == pins[ToStr(cid)]
    {
      hide ToStr;
      var key := ToStr(cid);
      if key in pins {
        return pins[key];
      }
      record := PinRecord(key, pinType, name, now, size, tags);
      pins := pins[key := record];
    }

    method UnpinCid(cid: CID) returns (removed: bool)
      modifies this
      ensures pins == Unpin(old(pins), cid) && removed == (ToStr(cid) in old(pins))
    {
      hide ToStr;
      var key := ToStr(cid);
      if key !in pins {
        assert pins - {key} == pins;
        return false;
      }
      pins := pins - {key};
      removed := true;
    }

    method IsPinned(cid: CID) returns (r: bool)
      ensures r == (ToStr(cid) in pins)
      ensures Canonical(pins) ==> r == (cid in PinnedSet(pins))
    {
      hide ToStr, PinnedSet, Canonical;
      if Canonical(pins) { PinnedSetExact(pins, cid); }
      r := ToStr(cid) in pins;
    }

    method PinnedCids() returns (result: set<CID>)
      ensures result == PinnedSet(pins)
    {
      hide FromStr;
      result := {};
      var rest := pins.Keys;
      while rest != {}
        invariant rest <= pins.Keys
        invariant result == set s | s in pins && s !in rest && FromStr(s).Ok? :: FromStr(s).value
        decreases rest
      {
        var key :| key in rest;
        rest := rest - {key};
        var cid := FromStr(key);
        if cid.Ok? {
          result := result + {cid.value};
        }
      }
    }
  }
}
