/**
 * The one-off maintenance script that gives every shipment without tracking history an initial
 * entry reflecting its current status. The database connection string is a parameter; the
 * script aborts with exit code 1 without one and otherwise ends with exit code 0.
 */
module Backfill {
  import opened Wrappers
  import opened Text
  import opened Tables
  import opened ShipmentModel
  import opened ShipmentHandlers

  const UnknownLocation := "Unknown"

  /** The entry the script adds: the current status (or "pending"), at the origin (or "Unknown"). */
  function InitialEntry(s: Shipment, now: int): (e: TrackingEntry)
    ensures e.status != "" && e.location.Some? && e.location.value != ""
    ensures s.status != "" ==> e.status == s.status
    ensures s.status == "" ==> e.status == DefaultStatus
    ensures Truthy(s.origin) ==> e.location == s.origin
    ensures !Truthy(s.origin) ==> e.location == Some(UnknownLocation)
    ensures e.timestamp == now
  {
    TrackingEntry(Or(Some(s.status), DefaultStatus), Some(Or(s.origin, UnknownLocation)), now)
  }

  /** The record after the script has handled it: the entry appended, every other field kept. */
  function WithInitialEntry(s: Shipment, now: int): (r: Shipment)
    ensures r.trackingHistory == s.trackingHistory + [InitialEntry(s, now)]
    ensures r.(trackingHistory := s.trackingHistory) == s
  {
    s.(trackingHistory := s.trackingHistory + [InitialEntry(s, now)])
  }

  predicate LacksHistory(s: Shipment) {
    s.trackingHistory == []
  }

  /** The shipments the script selects: those with no tracking history, in natural order. */
  function NeedsBackfill(t: map<nat, Shipment>, n: nat): (ids: seq<nat>)
    ensures forall i, j :: 0 <= i < j < |ids| ==> ids[i] < ids[j]
    ensures forall k :: k in ids <==> k in t && k < n && t[k].trackingHistory == []
    ensures forall i :: 0 <= i < |ids| ==> ids[i] in t
  {
    KeysWhere(t, n, LacksHistory)
  }

  /** The collection after the listed shipments were handled in turn. */
  function Backfilled(t: map<nat, Shipment>, ids: seq<nat>, now: int): (r: map<nat, Shipment>)
    ensures r.Keys == t.Keys
  {
    ApplyEach(t, ids, s => WithInitialEntry(s, now))
  }

  /** How the script ends: aborted before connecting (exit code 1), or done with its count (exit code 0). */
  datatype Outcome = Aborted | Completed(count: nat)

  /**
   * The script: without a connection string it aborts and changes nothing; otherwise every selected
   * shipment gets its initial entry and the count reported is the number selected.
   */
  method Run(db: ShipmentStore, mongoUri: Option<string>, now: int) returns (outcome: Outcome)
    requires db.Valid()
    modifies db
    ensures db.Valid()
    ensures !Truthy(mongoUri) ==> outcome == Aborted && unchanged(db)
    ensures Truthy(mongoUri) ==>
      var ids := NeedsBackfill(old(db.shipments), old(db.nextId));
      && outcome == Completed(|ids|)
      && db.shipments == Backfilled(old(db.shipments), ids, now)
      && db.nextId == old(db.nextId) && db.nextReplyId == old(db.nextReplyId)
  {
    if !Truthy(mongoUri) {
      return Aborted;
    }
    var ids := NeedsBackfill(db.shipments, db.nextId);
    var backfilled, count := BackfillEach(db.shipments, ids, now);
    BackfilledKeepsValid(db.shipments, db.nextId, db.nextReplyId, ids, now);
    db.Store(backfilled);
    outcome := Completed(count);
  }

  /** The script's loop: each listed shipment in turn gets its entry, and each one is counted. */
  method BackfillEach(t: map<nat, Shipment>, ids: seq<nat>, now: int) returns (backfilled: map<nat, Shipment>, count: nat)
    requires forall i :: 0 <= i < |ids| ==> ids[i] in t
    ensures backfilled == Backfilled(t, ids, now)
    ensures count == |ids|
  {
    backfilled, count := t, 0;
    while count < |ids|
      invariant 0 <= count <= |ids|
      invariant backfilled == Backfilled(t, ids[..count], now)
    {
      var id := ids[count];
      ApplyEachStep(t, ids, count, s => WithInitialEntry(s, now));
      backfilled := backfilled[id := WithInitialEntry(backfilled[id], now)];
      count := count + 1;
    }
    assert ids[..|ids|] == ids;
  }

  /** The script keeps the collection's invariant: the added entry always has a status. */
  lemma {:induction false} BackfilledKeepsValid(t: map<nat, Shipment>, n: nat, rn: nat, ids: seq<nat>, now: int)
    requires ValidTable(t, n, rn)
    ensures ValidTable(Backfilled(t, ids, now), n, rn)
    decreases |ids|
  {
    if ids != [] {
      var prefix := ids[..|ids| - 1];
      BackfilledKeepsValid(t, n, rn, prefix, now);
      var before := Backfilled(t, prefix, now);
      var id := ids[|ids| - 1];
      if id in before {
        var s := WithInitialEntry(before[id], now);
        forall i | 0 <= i < |s.trackingHistory|
          ensures s.trackingHistory[i].status != ""
        {
          if i < |before[id].trackingHistory| {
            assert s.trackingHistory[i] == before[id].trackingHistory[i];
          }
        }
        SameTrackingNumberNotTaken(before, n, rn, id);
        ReplaceKeepsValid(before, n, rn, s);
      }
    }
  }

  /**
   * After the script, each selected shipment's history is exactly its initial entry, and every other
   * shipment is unchanged.
   */
  lemma BackfilledAt(t: map<nat, Shipment>, n: nat, now: int, k: nat)
    requires k in t
    ensures var after := Backfilled(t, NeedsBackfill(t, n), now);
            k in after
            && (k < n && t[k].trackingHistory == [] ==>
                  after[k] == WithInitialEntry(t[k], now) && after[k].trackingHistory == [InitialEntry(t[k], now)])
            && (k >= n || t[k].trackingHistory != [] ==> after[k] == t[k])
  {
    var ids := NeedsBackfill(t, n);
    ApplyEachAt(t, ids, s => WithInitialEntry(s, now), k);
  }

  /** A second run selects nothing: every shipment below the counter now has a history. */
  lemma SecondRunSelectsNothing(t: map<nat, Shipment>, n: nat, now: int)
    ensures NeedsBackfill(Backfilled(t, NeedsBackfill(t, n), now), n) == []
  {
    var after := Backfilled(t, NeedsBackfill(t, n), now);
    forall k | k in after && k < n
      ensures after[k].trackingHistory != []
    {
      BackfilledAt(t, n, now, k);
    }
    NoneSelected(after, n);
  }

  lemma {:induction false} NoneSelected(m: map<nat, Shipment>, n: nat)
    requires forall k :: k in m && k < n ==> m[k].trackingHistory != []
    ensures NeedsBackfill(m, n) == []
  {
    if n > 0 {
      NoneSelected(m, n - 1);
    }
  }

  /**
   * A backfilled shipment's status agrees with its history exactly when its status was not empty;
   * an empty status gets a "pending" entry instead.
   */
  lemma BackfilledStatusMatchesIff(t: map<nat, Shipment>, n: nat, now: int, k: nat)
    requires k in t && k < n && t[k].trackingHistory == []
    ensures StatusMatchesHistory(Backfilled(t, NeedsBackfill(t, n), now)[k]) <==> t[k].status != ""
  {
    BackfilledAt(t, n, now, k);
    var e := InitialEntry(t[k], now);
    assert e.status == Or(Some(t[k].status), DefaultStatus);
  }
}
