/**
 * The shipment request handlers. The collection is a `ShipmentStore` whose handlers that write
 * change it in place; the read handlers are functions of the stored records. Each handler takes
 * the clock reading, the tracking-site setting, the QR renderer and the user records it consults
 * as parameters, and returns its response together with the notices it sends.
 */
module ShipmentHandlers {
  import opened Wrappers
  import opened Text
  import opened Tables
  import opened ShipmentModel
  import opened QrCodes
  import opened Notifications

  /** The roles that may list every shipment and change a shipment's status. */
  predicate IsStaffRole(role: string) {
    role == "admin" || role == "agent" || role == "employee"
  }

  /** The outcome of the edit handler's ownership guard; `Crashed` is a guard that throws. */
  datatype Access = Allowed | Denied | Crashed

  /**
   * The guard as written. The sender is loaded as a user document before the comparison, and a
   * loaded document's string form is a printout of its fields, never an id, so only an admin gets
   * through; a missing sender (null, or a user that no longer exists) makes the guard throw.
   */
  function EditAccessAsWritten(caller: Caller, s: Shipment, users: seq<User>): (r: Access)
    ensures r == Allowed <==> caller.role == "admin"
    ensures r == Crashed <==> caller.role != "admin" && (s.sender.None? || FindUser(users, s.sender.value).None?)
  {
    if caller.role == "admin" then Allowed
    else if s.sender.None? || FindUser(users, s.sender.value).None? then Crashed
    else Denied
  }

  /**
   * The guard as intended: an admin, or the shipment's own sender. A missing sender still makes
   * the comparison throw.
   */
  function EditAccess(caller: Caller, s: Shipment, users: seq<User>): (r: Access)
    ensures r == Allowed <==> caller.role == "admin" || (s.sender == Some(caller.id) && FindUser(users, caller.id).Some?)
    ensures r == Crashed <==> caller.role != "admin" && (s.sender.None? || FindUser(users, s.sender.value).None?)
    ensures r == Denied ==> s.sender != Some(caller.id)
  {
    if caller.role == "admin" then Allowed
    else if s.sender.None? || FindUser(users, s.sender.value).None? then Crashed
    else if s.sender.value == caller.id then Allowed
    else Denied
  }

  /** A client editing their own shipment is refused by the guard as written and let through by the intended one. */
  lemma OwnerRefusedAsWritten()
    ensures var client := Caller(7, "client", "client@example.com");
            var users := [User(7, Some("client@example.com"), "client", None)];
            var s := Shipment(1, "TRK-1", Some(7), None, map[], "pending", None, [], []);
            EditAccessAsWritten(client, s, users) == Denied && EditAccess(client, s, users) == Allowed
  {
  }

  /** The two guards agree on everyone except a non-admin owner. */
  lemma EditGuardsDifferOnlyForOwners(caller: Caller, s: Shipment, users: seq<User>)
    ensures EditAccessAsWritten(caller, s, users) != EditAccess(caller, s, users)
        <==> caller.role != "admin" && s.sender == Some(caller.id) && FindUser(users, caller.id).Some?
  {
  }

  /** The batch run's summary; `errors` lists the shipments whose generation threw. */
  datatype BatchError = BatchError(trackingNumber: string, message: string)
  datatype BatchReport = BatchReport(generatedCount: nat, totalChecked: nat, errors: seq<BatchError>)

  class ShipmentStore {
    var shipments: map<nat, Shipment>
    var nextId: nat
    var nextReplyId: nat

    predicate Valid()
      reads this
    {
      ValidTable(shipments, nextId, nextReplyId)
    }

    constructor()
      ensures Valid() && shipments == map[]
    {
      shipments := map[];
      nextId := 0;
      nextReplyId := 0;
    }

    /** Stores a new well-formed shipment under the next id; the reply counter stays. */
    method Add(s: Shipment)
      requires Valid() && s.id == nextId && WellFormed(s) && s.replies == []
      requires !TakenByOther(shipments, s.trackingNumber, nextId)
      modifies this
      ensures Valid() && shipments == old(shipments)[old(nextId) := s]
      ensures nextId == old(nextId) + 1 && nextReplyId == old(nextReplyId)
    {
      InsertKeepsValid(shipments, nextId, nextReplyId, s);
      shipments := shipments[nextId := s];
      nextId := nextId + 1;
    }

    /**
     * Creating a shipment: the record built from the body is rejected with 400 when a required field
     * is missing or its tracking number is taken; otherwise it is stored with its creation entry,
     * then stamped with a QR code when rendering succeeds, and both notices are sent.
     */
    method Create(body: Body, now: int, base: Option<string>, render: string -> Option<string>, users: seq<User>)
      returns (resp: Response<Shipment>, notices: seq<Notice>)
      requires Valid()
      modifies this
      ensures Valid()
      ensures var s := NewShipment(old(nextId), body, now);
        if !WellFormed(s) || TakenByOther(old(shipments), s.trackingNumber, old(nextId)) then
          resp == Err(BAD_REQUEST) && notices == [] && unchanged(this)
        else
          var stamped := StampQrCode(s, base, render);
          && resp == Ok(CREATED, stamped)
          && shipments == old(shipments)[old(nextId) := stamped]
          && nextId == old(nextId) + 1 && nextReplyId == old(nextReplyId)
          && notices == Notify(Created, stamped, users)
    {
      var s := NewShipment(nextId, body, now);
      if !WellFormed(s) || TakenByOther(shipments, s.trackingNumber, nextId) {
        return Err(BAD_REQUEST), [];
      }
      var stamped := StampQrCode(s, base, render);
      Add(stamped);
      notices := Notify(Created, stamped, users);
      resp := Ok(CREATED, stamped);
    }

    /**
     * Editing a shipment: 404 for an unknown id; the ownership guard answers 403 or, when it throws,
     * 400; an edit that empties a required field or takes another shipment's tracking number is
     * rejected with 400; otherwise the fields the body names are replaced and both notices are sent.
     */
    method Edit(caller: Caller, id: nat, patch: Body, users: seq<User>)
      returns (resp: Response<Shipment>, notices: seq<Notice>)
      requires Valid()
      modifies this
      ensures Valid()
      ensures id !in old(shipments) ==> resp == Err(NOT_FOUND) && notices == [] && unchanged(this)
      ensures id in old(shipments) ==>
        var access := EditAccess(caller, old(shipments)[id], users);
        var s := Patched(old(shipments)[id], patch);
        if access == Crashed then resp == Err(BAD_REQUEST) && notices == [] && unchanged(this)
        else if access == Denied then resp == Err(FORBIDDEN) && notices == [] && unchanged(this)
        else if !WellFormed(s) || TakenByOther(old(shipments), s.trackingNumber, id) then
          resp == Err(BAD_REQUEST) && notices == [] && unchanged(this)
        else
          && resp == Ok(OK, s)
          && shipments == old(shipments)[id := s]
          && nextId == old(nextId) && nextReplyId == old(nextReplyId)
          && notices == Notify(Edited, s, users)
    {
      if id !in shipments {
        return Err(NOT_FOUND), [];
      }
      var access := EditAccess(caller, shipments[id], users);
      if access == Crashed {
        return Err(BAD_REQUEST), [];
      }
      if access == Denied {
        return Err(FORBIDDEN), [];
      }
      var s := Patched(shipments[id], patch);
      if !WellFormed(s) || TakenByOther(shipments, s.trackingNumber, id) {
        return Err(BAD_REQUEST), [];
      }
      ReplaceKeepsValid(shipments, nextId, nextReplyId, s);
      shipments := shipments[id := s];
      notices := Notify(Edited, s, users);
      resp := Ok(OK, s);
    }

    /** Deleting a shipment: 404 for an unknown id, otherwise the record is gone and nothing else changes. */
    method Delete(id: nat) returns (resp: Response<()>)
      requires Valid()
      modifies this
      ensures Valid()
      ensures id !in old(shipments) ==> resp == Err(NOT_FOUND) && unchanged(this)
      ensures id in old(shipments) ==>
        && resp == Ok(OK, ())
        && shipments == old(shipments) - {id}
        && nextId == old(nextId) && nextReplyId == old(nextReplyId)
    {
      if id !in shipments {
        return Err(NOT_FOUND);
      }
      RemoveKeepsValid(shipments, nextId, nextReplyId, id);
      shipments := shipments - {id};
      resp := Ok(OK, ());
    }

    /**
     * Changing the status: 403 for a role other than admin, agent or employee; 400 when no status is
     * given (the pushed entry fails validation before the lookup); 404 for an unknown id; otherwise
     * the status is set and an entry for it appended, and both notices are sent.
     */
    method ChangeStatus(caller: Caller, id: nat, status: Option<string>, location: Option<string>, now: int, users: seq<User>)
      returns (resp: Response<Shipment>, notices: seq<Notice>)
      requires Valid()
      modifies this
      ensures Valid()
      ensures !IsStaffRole(caller.role) ==> resp == Err(FORBIDDEN) && notices == [] && unchanged(this)
      ensures IsStaffRole(caller.role) && !Truthy(status) ==> resp == Err(BAD_REQUEST) && notices == [] && unchanged(this)
      ensures IsStaffRole(caller.role) && Truthy(status) && id !in old(shipments) ==>
        resp == Err(NOT_FOUND) && notices == [] && unchanged(this)
      ensures IsStaffRole(caller.role) && Truthy(status) && id in old(shipments) ==>
        var s := WithStatus(old(shipments)[id], status.value, location, now);
        && resp == Ok(OK, s)
        && shipments == old(shipments)[id := s]
        && nextId == old(nextId) && nextReplyId == old(nextReplyId)
        && notices == Notify(StatusChanged, s, users)
    {
      if !IsStaffRole(caller.role) {
        return Err(FORBIDDEN), [];
      }
      if !Truthy(status) {
        return Err(BAD_REQUEST), [];
      }
      if id !in shipments {
        return Err(NOT_FOUND), [];
      }
      var s := WithStatus(shipments[id], status.value, location, now);
      WithStatusWellFormed(shipments[id], status.value, location, now);
      ReplaceKeepsValid(shipments, nextId, nextReplyId, s);
      shipments := shipments[id := s];
      notices := Notify(StatusChanged, s, users);
      resp := Ok(OK, s);
    }

    /**
     * Replying: 404 for an unknown id; 500 when the message is missing (saving fails validation);
     * otherwise a reply by the caller with a fresh id is appended and both notices are sent.
     */
    method AddReply(caller: Caller, id: nat, message: Option<string>, now: int, users: seq<User>)
      returns (resp: Response<Shipment>, notices: seq<Notice>)
      requires Valid()
      modifies this
      ensures Valid()
      ensures id !in old(shipments) ==> resp == Err(NOT_FOUND) && notices == [] && unchanged(this)
      ensures id in old(shipments) && !Truthy(message) ==> resp == Err(SERVER_ERROR) && notices == [] && unchanged(this)
      ensures id in old(shipments) && Truthy(message) ==>
        var s := WithReply(old(shipments)[id], Reply(old(nextReplyId), message.value, Some(caller.id), now));
        && resp == Ok(OK, s)
        && shipments == old(shipments)[id := s]
        && nextId == old(nextId) && nextReplyId == old(nextReplyId) + 1
        && notices == Notify(Replied, s, users)
    {
      if id !in shipments {
        return Err(NOT_FOUND), [];
      }
      if !Truthy(message) {
        return Err(SERVER_ERROR), [];
      }
      var before := shipments[id];
      var s := WithReply(before, Reply(nextReplyId, message.value, Some(caller.id), now));
      WithReplyWellFormed(before, Reply(nextReplyId, message.value, Some(caller.id), now));
      forall i | 0 <= i < |s.replies|
        ensures s.replies[i].id < nextReplyId + 1
      {
        if i < |before.replies| {
          assert s.replies[i] == before.replies[i];
        }
      }
      ReplaceKeepsValid(shipments, nextId, nextReplyId + 1, s);
      shipments := shipments[id := s];
      nextReplyId := nextReplyId + 1;
      notices := Notify(Replied, s, users);
      resp := Ok(OK, s);
    }

    /** Stores a whole collection that keeps the invariant; the counters stay. */
    method Store(t: map<nat, Shipment>)
      requires ValidTable(t, nextId, nextReplyId)
      modifies this
      ensures Valid() && shipments == t && nextId == old(nextId) && nextReplyId == old(nextReplyId)
    {
      shipments := t;
    }

    /**
     * The batch run: 403 for a non-admin; otherwise the helper runs on each shipment whose code is
     * null, in turn, and the report counts its successes out of the shipments checked. The helper
     * never throws, so the error list is always empty.
     */
    method GenerateMissingQrCodes(caller: Caller, base: Option<string>, render: string -> Option<string>)
      returns (resp: Response<BatchReport>)
      requires Valid()
      modifies this
      ensures Valid()
      ensures caller.role != "admin" ==> resp == Err(FORBIDDEN) && unchanged(this)
      ensures caller.role == "admin" ==>
        var ids := MissingQr(old(shipments), old(nextId));
        && resp == Ok(OK, BatchReport(GeneratedCount(old(shipments), ids, base, render), |ids|, []))
        && shipments == Provisioned(old(shipments), ids, base, render)
        && nextId == old(nextId) && nextReplyId == old(nextReplyId)
    {
      if caller.role != "admin" {
        return Err(FORBIDDEN);
      }
      var ids := MissingQr(shipments, nextId);
      var provisioned, report := RunBatch(shipments, ids, base, render);
      ProvisionedKeepsValid(shipments, nextId, nextReplyId, ids, base, render);
      Store(provisioned);
      resp := Ok(OK, report);
    }
  }

  /**
   * The batch over the candidates: none gives an empty report at once; otherwise the helper runs
   * on each candidate in turn and its successes are counted. Nothing is ever added to `errors`.
   */
  method RunBatch(t: map<nat, Shipment>, ids: seq<nat>, base: Option<string>, render: string -> Option<string>)
    returns (provisioned: map<nat, Shipment>, report: BatchReport)
    requires forall i :: 0 <= i < |ids| ==> ids[i] in t
    ensures provisioned == Provisioned(t, ids, base, render)
    ensures report == BatchReport(GeneratedCount(t, ids, base, render), |ids|, [])
  {
    if |ids| == 0 {
      return t, BatchReport(0, 0, []);
    }
    var generated;
    provisioned, generated := ProvisionEach(t, ids, QrHelper(base, render));
    report := BatchReport(generated, |ids|, []);
  }

  /**
   * The batch loop: `helper` runs on each listed shipment in turn, and its successes are counted.
   * The loop is proved for any helper; the batch run passes the QR helper.
   */
  method ProvisionEach(t: map<nat, Shipment>, ids: seq<nat>, helper: Shipment -> QrResult)
    returns (provisioned: map<nat, Shipment>, generated: nat)
    requires forall i :: 0 <= i < |ids| ==> ids[i] in t
    ensures provisioned == AfterEach(t, ids, helper)
    ensures generated == Successes(t, ids, helper)
  {
    provisioned, generated := t, 0;
    var i := 0;
    while i < |ids|
      invariant 0 <= i <= |ids|
      invariant provisioned == AfterEach(t, ids[..i], helper)
      invariant generated == Successes(t, ids[..i], helper)
    {
      provisioned, generated := ProvisionNext(t, ids, i, helper, provisioned, generated);
      i := i + 1;
    }
    assert ids[..|ids|] == ids;
  }

  /** One turn of the batch loop: the next shipment goes through `helper` and a success adds one. */
  method ProvisionNext(t: map<nat, Shipment>, ids: seq<nat>, i: nat, helper: Shipment -> QrResult,
                       provisioned: map<nat, Shipment>, generated: nat)
    returns (provisioned': map<nat, Shipment>, generated': nat)
    requires i < |ids| && ids[i] in t
    requires provisioned == AfterEach(t, ids[..i], helper)
    requires generated == Successes(t, ids[..i], helper)
    ensures provisioned' == AfterEach(t, ids[..i + 1], helper)
    ensures generated' == Successes(t, ids[..i + 1], helper)
  {
    var id := ids[i];
    BatchStep(t, ids, i, helper);
    var result := helper(provisioned[id]);
    provisioned' := provisioned[id := result.shipment];
    generated' := generated + (if result.ok then 1 else 0);
  }

  /** Listing every shipment: 403 unless the caller is admin, agent or employee; otherwise each record once. */
  function ListAll(caller: Caller, t: map<nat, Shipment>, n: nat): (r: Response<seq<Shipment>>)
    requires KeysBelow(t, n)
    ensures r.Err? <==> !IsStaffRole(caller.role)
    ensures r.Err? ==> r.code == FORBIDDEN
    ensures r.Ok? ==> r.code == OK && |r.value| == |t.Keys| && forall x :: x in r.value <==> x in t.Values
  {
    if !IsStaffRole(caller.role) then Err(FORBIDDEN)
    else
      KeysBelowCount(t, n);
      Ok(OK, Rows(t, n))
  }

  /** The query condition `{sender: id}`. */
  function SentBy(id: UserId): Shipment -> bool {
    (s: Shipment) => s.sender == Some(id)
  }

  /**
   * The caller's own shipments: exactly the stored records whose sender is the caller, one row
   * per record, in natural order.
   */
  function ListMine(caller: Caller, t: map<nat, Shipment>, n: nat): (r: seq<Shipment>)
    requires KeysBelow(t, n)
    ensures forall x :: x in r <==> x in t.Values && x.sender == Some(caller.id)
    ensures |r| == |Matching(t, SentBy(caller.id))|
    ensures var ks := KeysWhere(t, n, SentBy(caller.id));
      |r| == |ks| && forall i :: 0 <= i < |r| ==> r[i] == t[ks[i]]
  {
    Where(t, n, SentBy(caller.id))
  }

  /** What the public tracking page sees: the record without its sender. */
  datatype PublicShipment = PublicShipment(
    id: nat,
    trackingNumber: string,
    origin: Option<string>,
    details: map<string, string>,
    status: string,
    qrCodeUrl: Option<string>,
    trackingHistory: seq<TrackingEntry>,
    replies: seq<Reply>)

  /** `select('-sender')`: every field but the sender. */
  function Public(s: Shipment): PublicShipment {
    PublicShipment(s.id, s.trackingNumber, s.origin, s.details, s.status, s.qrCodeUrl, s.trackingHistory, s.replies)
  }

  /** A public record with a sender put back. */
  function WithSender(p: PublicShipment, sender: Option<UserId>): Shipment {
    Shipment(p.id, p.trackingNumber, sender, p.origin, p.details, p.status, p.qrCodeUrl, p.trackingHistory, p.replies)
  }

  /**
   * The public record drops the sender and nothing else: putting the sender back restores the
   * shipment, and two shipments look the same in public exactly when they differ at most in sender.
   */
  lemma PublicDropsOnlySender(a: Shipment, b: Shipment)
    ensures WithSender(Public(a), a.sender) == a
    ensures Public(a) == Public(b) <==> a.(sender := b.sender) == b
  {
  }

  /** The first record with the tracking number, in the given order. */
  function FirstWithTrackingNumber(rows: seq<Shipment>, tn: string): (r: Option<Shipment>)
    ensures r.Some? ==> r.value in rows && r.value.trackingNumber == tn
    ensures r.None? ==> forall s :: s in rows ==> s.trackingNumber != tn
  {
    if rows == [] then None
    else if rows[0].trackingNumber == tn then Some(rows[0])
    else FirstWithTrackingNumber(rows[1..], tn)
  }

  /**
   * Public tracking: 404 exactly when no shipment has the tracking number; otherwise a shipment with
   * that number, without its sender.
   */
  function Track(t: map<nat, Shipment>, n: nat, tn: string): (r: Response<PublicShipment>)
    requires KeysBelow(t, n)
    ensures r.Err? <==> forall k :: k in t ==> t[k].trackingNumber != tn
    ensures r.Err? ==> r.code == NOT_FOUND
    ensures r.Ok? ==> r.code == OK && exists k :: k in t && t[k].trackingNumber == tn && r.value == Public(t[k])
  {
    match FirstWithTrackingNumber(Rows(t, n), tn)
    case None => Err(NOT_FOUND)
    case Some(s) => Ok(OK, Public(s))
  }

  /** Tracking numbers are unique, so tracking a stored shipment's number shows that shipment. */
  lemma TrackFindsTheShipment(t: map<nat, Shipment>, n: nat, rn: nat, k: nat)
    requires ValidTable(t, n, rn) && k in t
    ensures Track(t, n, t[k].trackingNumber) == Ok(OK, Public(t[k]))
  {
  }
}
