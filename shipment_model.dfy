/**
 * The shipment record and its embedded tracking history and replies, the schema's validation
 * rules, the request body that creates or edits a shipment, and the record-level updates the
 * handlers make. A collection of shipments is a map from id to record.
 */
module ShipmentModel {
  import opened Wrappers
  import opened Text
  import opened Tables

  /** A user's object id. */
  type UserId = nat

  /** The authenticated user a handler acts for. */
  datatype Caller = Caller(id: UserId, role: string, email: string)

  /** One step of a shipment's journey; `location` is optional. */
  datatype TrackingEntry = TrackingEntry(status: string, location: Option<string>, timestamp: int)

  /** A message posted on a shipment, with its own id and optionally the user who posted it. */
  datatype Reply = Reply(id: nat, message: string, user: Option<UserId>, timestamp: int)

  /**
   * A stored shipment. `details` stands for the free-form descriptive fields (names, addresses,
   * phone numbers, dimensions, dates, notes) that no handler reads; `sender` and `qrCodeUrl` are
   * None when null.
   */
  datatype Shipment = Shipment(
    id: nat,
    trackingNumber: string,
    sender: Option<UserId>,
    origin: Option<string>,
    details: map<string, string>,
    status: string,
    qrCodeUrl: Option<string>,
    trackingHistory: seq<TrackingEntry>,
    replies: seq<Reply>)

  const DefaultStatus := "pending"

  /** The schema's required fields: a tracking number, a status per history entry, a message per reply. */
  predicate WellFormed(s: Shipment) {
    && s.trackingNumber != ""
    && (forall i :: 0 <= i < |s.trackingHistory| ==> s.trackingHistory[i].status != "")
    && (forall i :: 0 <= i < |s.replies| ==> s.replies[i].message != "")
  }

  /** The current status is the status of the latest tracking entry. */
  predicate StatusMatchesHistory(s: Shipment) {
    |s.trackingHistory| > 0 && s.trackingHistory[|s.trackingHistory| - 1].status == s.status
  }

  /** No two shipments share a tracking number (the unique index). */
  predicate UniqueTrackingNumbers(t: map<nat, Shipment>) {
    forall a, b :: a in t && b in t && t[a].trackingNumber == t[b].trackingNumber ==> a == b
  }

  /** Some shipment other than `id` already carries `tn`. */
  predicate TakenByOther(t: map<nat, Shipment>, tn: string, id: nat) {
    exists k :: k in t && k != id && t[k].trackingNumber == tn
  }

  /**
   * The collection's invariant: every record is stored under its own id, below the id counter,
   * is well formed, has reply ids below the reply counter, and tracking numbers are unique.
   */
  predicate ValidTable(t: map<nat, Shipment>, nextId: nat, nextReplyId: nat) {
    && KeysBelow(t, nextId)
    && (forall k :: k in t ==> t[k].id == k && WellFormed(t[k]))
    && (forall k, i :: k in t && 0 <= i < |t[k].replies| ==> t[k].replies[i].id < nextReplyId)
    && UniqueTrackingNumbers(t)
  }

  /**
   * A request body. For a create, a missing field takes the schema default; for an edit, a missing
   * field is left as it is and the descriptive fields in `details` overwrite the stored ones.
   */
  datatype Body = Body(
    trackingNumber: Option<string>,
    sender: Option<UserId>,
    origin: Option<string>,
    details: map<string, string>,
    status: Option<string>,
    qrCodeUrl: Option<string>,
    trackingHistory: Option<seq<TrackingEntry>>)

  const EmptyBody := Body(None, None, None, map[], None, None, None)

  /**
   * `new Shipment(body)` followed by the creation entry: defaults filled in, and a "pending" entry
   * at the origin appended after whatever history the body carried.
   */
  function NewShipment(id: nat, body: Body, now: int): (s: Shipment)
    ensures s.id == id && s.replies == []
    ensures body.trackingNumber.Some? ==> s.trackingNumber == body.trackingNumber.value
    ensures body.trackingNumber.None? ==> s.trackingNumber == ""
    ensures s.sender == body.sender && s.origin == body.origin && s.qrCodeUrl == body.qrCodeUrl
    ensures s.details == body.details
    ensures s.status == (if body.status.Some? then body.status.value else DefaultStatus)
    ensures |s.trackingHistory| >= 1
    ensures s.trackingHistory[|s.trackingHistory| - 1] == TrackingEntry(DefaultStatus, body.origin, now)
    ensures s.trackingHistory[..|s.trackingHistory| - 1] == body.trackingHistory.GetOr([])
  {
    var history := body.trackingHistory.GetOr([]);
    Shipment(id, body.trackingNumber.GetOr(""), body.sender, body.origin, body.details,
      body.status.GetOr(DefaultStatus), body.qrCodeUrl,
      history + [TrackingEntry(DefaultStatus, body.origin, now)], [])
  }

  /**
   * A created shipment's status agrees with its history exactly when the body left the status out
   * or asked for "pending": a body that names another status starts out inconsistent.
   */
  lemma CreatedStatusMatchesIff(id: nat, body: Body, now: int)
    ensures StatusMatchesHistory(NewShipment(id, body, now))
        <==> body.status.None? || body.status.value == DefaultStatus
  {
  }

  /** The new record passes the schema's validators exactly when the body supplies what they require. */
  lemma NewShipmentWellFormedIff(id: nat, body: Body, now: int)
    ensures WellFormed(NewShipment(id, body, now)) <==>
      && Truthy(body.trackingNumber)
      && forall i :: 0 <= i < |body.trackingHistory.GetOr([])| ==> body.trackingHistory.GetOr([])[i].status != ""
  {
    var s := NewShipment(id, body, now);
    var h := body.trackingHistory.GetOr([]);
    if WellFormed(s) {
      forall i | 0 <= i < |h|
        ensures h[i].status != ""
      {
        assert s.trackingHistory[i] == h[i];
      }
    }
  }

  /** `findByIdAndUpdate(id, body)`: the fields the body names are set, the others are kept. */
  function Patched(s: Shipment, p: Body): (r: Shipment)
    ensures r.id == s.id && r.replies == s.replies
    ensures r.trackingNumber == (if p.trackingNumber.Some? then p.trackingNumber.value else s.trackingNumber)
    ensures r.sender == (if p.sender.Some? then p.sender else s.sender)
    ensures r.origin == (if p.origin.Some? then p.origin else s.origin)
    ensures r.status == (if p.status.Some? then p.status.value else s.status)
    ensures r.qrCodeUrl == (if p.qrCodeUrl.Some? then p.qrCodeUrl else s.qrCodeUrl)
    ensures r.trackingHistory == (if p.trackingHistory.Some? then p.trackingHistory.value else s.trackingHistory)
    ensures forall k :: k in r.details <==> k in s.details || k in p.details
    ensures forall k :: k in p.details ==> r.details[k] == p.details[k]
    ensures forall k :: k in s.details && k !in p.details ==> r.details[k] == s.details[k]
    ensures p == EmptyBody ==> r == s
    ensures p.status.None? && p.trackingHistory.None? ==> (StatusMatchesHistory(r) <==> StatusMatchesHistory(s))
  {
    Shipment(s.id,
      p.trackingNumber.GetOr(s.trackingNumber),
      if p.sender.Some? then p.sender else s.sender,
      if p.origin.Some? then p.origin else s.origin,
      s.details + p.details,
      p.status.GetOr(s.status),
      if p.qrCodeUrl.Some? then p.qrCodeUrl else s.qrCodeUrl,
      p.trackingHistory.GetOr(s.trackingHistory),
      s.replies)
  }

  /** Applying the same edit twice is the same as applying it once. */
  lemma PatchIdempotent(s: Shipment, p: Body)
    ensures Patched(Patched(s, p), p) == Patched(s, p)
  {
    assert (s.details + p.details) + p.details == s.details + p.details;
  }

  /**
   * An edit that sets the status without a new history leaves the status out of step with the
   * latest entry whenever the two differ.
   */
  lemma PatchStatusBreaksHistory(s: Shipment, p: Body)
    requires p.status.Some? && p.trackingHistory.None?
    requires |s.trackingHistory| > 0 && s.trackingHistory[|s.trackingHistory| - 1].status != p.status.value
    ensures !StatusMatchesHistory(Patched(s, p))
  {
  }

  /**
   * The status-change update: the new status is set and an entry for it is appended, so the record
   * ends consistent whatever it was before; earlier entries and every other field are kept.
   */
  function WithStatus(s: Shipment, status: string, location: Option<string>, now: int): (r: Shipment)
    ensures StatusMatchesHistory(r) && r.status == status
    ensures |r.trackingHistory| == |s.trackingHistory| + 1
    ensures r.trackingHistory[..|s.trackingHistory|] == s.trackingHistory
    ensures r.trackingHistory[|s.trackingHistory|] == TrackingEntry(status, location, now)
    ensures r.(status := s.status, trackingHistory := s.trackingHistory) == s
  {
    s.(status := status, trackingHistory := s.trackingHistory + [TrackingEntry(status, location, now)])
  }

  /** Appending a reply: earlier replies and every other field are kept. */
  function WithReply(s: Shipment, reply: Reply): (r: Shipment)
    ensures |r.replies| == |s.replies| + 1
    ensures r.replies[..|s.replies|] == s.replies && r.replies[|s.replies|] == reply
    ensures r.(replies := s.replies) == s
  {
    s.(replies := s.replies + [reply])
  }

  /** A well-formed record stays well formed under a status change with a non-empty status. */
  lemma WithStatusWellFormed(s: Shipment, status: string, location: Option<string>, now: int)
    requires WellFormed(s) && status != ""
    ensures WellFormed(WithStatus(s, status, location, now))
  {
    var r := WithStatus(s, status, location, now);
    forall i | 0 <= i < |r.trackingHistory|
      ensures r.trackingHistory[i].status != ""
    {
      if i < |s.trackingHistory| {
        assert r.trackingHistory[i] == s.trackingHistory[i];
      }
    }
  }

  /** A well-formed record stays well formed when a reply with a non-empty message is added. */
  lemma WithReplyWellFormed(s: Shipment, reply: Reply)
    requires WellFormed(s) && reply.message != ""
    ensures WellFormed(WithReply(s, reply))
  {
    var r := WithReply(s, reply);
    forall i | 0 <= i < |r.replies|
      ensures r.replies[i].message != ""
    {
      if i < |s.replies| {
        assert r.replies[i] == s.replies[i];
      }
    }
  }

  /** The records with ids in `ids` that exist, each updated by `f` in turn; the others untouched. */
  function ApplyEach(t: map<nat, Shipment>, ids: seq<nat>, f: Shipment -> Shipment): (r: map<nat, Shipment>)
    ensures r.Keys == t.Keys
    decreases |ids|
  {
    if ids == [] then t
    else
      var before := ApplyEach(t, ids[..|ids| - 1], f);
      var id := ids[|ids| - 1];
      if id in before then before[id := f(before[id])] else before
  }

  /**
   * When the ids are distinct, each listed record is updated exactly once from its original value,
   * and the unlisted ones are unchanged.
   */
  lemma {:induction false} ApplyEachAt(t: map<nat, Shipment>, ids: seq<nat>, f: Shipment -> Shipment, k: nat)
    requires forall i, j :: 0 <= i < j < |ids| ==> ids[i] != ids[j]
    requires k in t
    ensures k in ids ==> ApplyEach(t, ids, f)[k] == f(t[k])
    ensures k !in ids ==> ApplyEach(t, ids, f)[k] == t[k]
    decreases |ids|
  {
    if ids != [] {
      var prefix := ids[..|ids| - 1];
      ApplyEachAt(t, prefix, f, k);
      if k == ids[|ids| - 1] {
        assert k !in prefix;
      } else {
        assert k in ids ==> k in prefix;
      }
    }
  }

  /** Storing a new well-formed record under the next id, with a fresh tracking number, keeps the invariant. */
  lemma InsertKeepsValid(t: map<nat, Shipment>, n: nat, rn: nat, s: Shipment)
    requires ValidTable(t, n, rn)
    requires s.id == n && WellFormed(s) && s.replies == []
    requires !TakenByOther(t, s.trackingNumber, n)
    ensures ValidTable(t[n := s], n + 1, rn)
  {
  }

  /**
   * Replacing a record by a well-formed one with the same id, reply ids below the counter and a
   * tracking number no other record has keeps the invariant.
   */
  lemma ReplaceKeepsValid(t: map<nat, Shipment>, n: nat, rn: nat, s: Shipment)
    requires ValidTable(t, n, rn)
    requires s.id in t && WellFormed(s)
    requires forall i :: 0 <= i < |s.replies| ==> s.replies[i].id < rn
    requires !TakenByOther(t, s.trackingNumber, s.id)
    ensures ValidTable(t[s.id := s], n, rn)
  {
  }

  /** A record that keeps its tracking number never clashes with another one. */
  lemma SameTrackingNumberNotTaken(t: map<nat, Shipment>, n: nat, rn: nat, id: nat)
    requires ValidTable(t, n, rn) && id in t
    ensures !TakenByOther(t, t[id].trackingNumber, id)
  {
  }

  /** Removing a record keeps the invariant. */
  lemma RemoveKeepsValid(t: map<nat, Shipment>, n: nat, rn: nat, id: nat)
    requires ValidTable(t, n, rn)
    ensures ValidTable(t - {id}, n, rn)
  {
  }

  /** One more step of ApplyEach: the next listed record is updated from the current state. */
  lemma ApplyEachStep(t: map<nat, Shipment>, ids: seq<nat>, i: nat, f: Shipment -> Shipment)
    requires i < |ids| && ids[i] in t
    ensures var before := ApplyEach(t, ids[..i], f);
            ids[i] in before && ApplyEach(t, ids[..i + 1], f) == before[ids[i] := f(before[ids[i]])]
  {
    var next := ids[..i + 1];
    assert next[..|next| - 1] == ids[..i] && next[|next| - 1] == ids[i];
  }
}
