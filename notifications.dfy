/**
 * The e-mails a shipment event triggers: one to the shipment's sender (the client) when the
 * sender's user record has an address, and one request to all admin and employee users with an
 * address, each address once. The message bodies are HTML text and are not modelled; the
 * subjects are.
 */
module Notifications {
  import opened Wrappers
  import opened Text
  import opened ShipmentModel
  import opened Mailer

  /** A user record as the notification helpers read it. */
  datatype User = User(id: UserId, email: Option<string>, role: string, fullName: Option<string>)

  /** `User.findById(id)`: the user with that id, if any. */
  function FindUser(users: seq<User>, id: UserId): (r: Option<User>)
    ensures r.Some? ==> r.value in users && r.value.id == id
    ensures r.None? ==> forall u :: u in users ==> u.id != id
  {
    if users == [] then None
    else if users[0].id == id then Some(users[0])
    else FindUser(users[1..], id)
  }

  /**
   * The client's address: present exactly when the shipment has a sender, that user exists and
   * has a non-empty address.
   */
  function ClientAddress(s: Shipment, users: seq<User>): (r: Option<string>)
    ensures r.Some? <==> s.sender.Some? && FindUser(users, s.sender.value).Some? && Truthy(FindUser(users, s.sender.value).value.email)
    ensures r.Some? ==> r.value != "" && exists u :: u in users && u.id == s.sender.value && u.email == r
  {
    if s.sender.None? then None
    else
      match FindUser(users, s.sender.value)
      case None => None
      case Some(u) => if Truthy(u.email) then u.email else None
  }

  predicate IsStaff(u: User) {
    u.role == "admin" || u.role == "employee"
  }

  /** The non-empty addresses of the admin and employee users; StaffAddressesSnoc shows they come in user order, duplicates kept. */
  function StaffAddresses(users: seq<User>): (r: seq<string>)
    ensures forall e :: e in r ==> e != ""
    ensures forall u :: u in users && IsStaff(u) && Truthy(u.email) ==> u.email.value in r
    ensures forall e :: e in r ==> exists u :: u in users && IsStaff(u) && u.email == Some(e)
  {
    if users == [] then []
    else
      var u := users[0];
      (if IsStaff(u) && Truthy(u.email) then [u.email.value] else []) + StaffAddresses(users[1..])
  }

  /** The staff addresses of a longer user list extend those of its prefix: the user order is kept. */
  lemma {:induction false} StaffAddressesSnoc(users: seq<User>, u: User)
    ensures StaffAddresses(users + [u])
      == StaffAddresses(users) + (if IsStaff(u) && Truthy(u.email) then [u.email.value] else [])
    decreases |users|
  {
    if users == [] {
      assert [u][1..] == [];
    } else {
      assert (users + [u])[1..] == users[1..] + [u];
      StaffAddressesSnoc(users[1..], u);
    }
  }

  predicate Distinct<T(==,!new)>(s: seq<T>) {
    forall i, j :: 0 <= i < j < |s| ==> s[i] != s[j]
  }

  /** `Array.from(new Set(xs))`: each element once, at the place it first occurs. */
  function Dedupe<T(==,!new)>(xs: seq<T>): (r: seq<T>)
    ensures Distinct(r)
    ensures forall e :: e in r <==> e in xs
    ensures |r| <= |xs|
    decreases |xs|
  {
    if xs == [] then []
    else
      var prefix := xs[..|xs| - 1];
      var d := Dedupe(prefix);
      var x := xs[|xs| - 1];
      assert xs == prefix + [x];
      if x in d then d else d + [x]
  }

  /** A list without repetitions is its own set. */
  lemma {:induction false} DedupeDistinct<T(!new)>(xs: seq<T>)
    requires Distinct(xs)
    ensures Dedupe(xs) == xs
    decreases |xs|
  {
    if xs != [] {
      var prefix := xs[..|xs| - 1];
      DedupeDistinct(prefix);
      assert xs[|xs| - 1] !in prefix;
    }
  }

  /** Taking the set twice changes nothing. */
  lemma DedupeIdempotent<T(!new)>(xs: seq<T>)
    ensures Dedupe(Dedupe(xs)) == Dedupe(xs)
  {
    DedupeDistinct(Dedupe(xs));
  }

  /** An element seen again later is not repeated; a new one is added at the end. */
  lemma DedupeSnoc<T(!new)>(xs: seq<T>, x: T)
    ensures Dedupe(xs + [x]) == Dedupe(xs) + (if x in xs then [] else [x])
  {
    assert (xs + [x])[..|xs + [x]| - 1] == xs;
  }

  /** The admin request's recipients: every staff address, each once. */
  function AdminAddresses(users: seq<User>): (r: seq<string>)
    ensures Distinct(r)
    ensures forall e :: e in r <==> e in StaffAddresses(users)
  {
    Dedupe(StaffAddresses(users))
  }

  /**
   * The admin recipients grow in user order: a further staff user adds their address at the end,
   * unless an earlier staff user already has it.
   */
  lemma AdminAddressesSnoc(users: seq<User>, u: User)
    ensures AdminAddresses(users + [u])
      == AdminAddresses(users)
         + (if IsStaff(u) && Truthy(u.email) && u.email.value !in StaffAddresses(users) then [u.email.value] else [])
  {
    var xs := StaffAddresses(users);
    StaffAddressesSnoc(users, u);
    if IsStaff(u) && Truthy(u.email) {
      var e := u.email.value;
      assert StaffAddresses(users + [u]) == xs + [e];
      DedupeSnoc(xs, e);
    } else {
      assert StaffAddresses(users + [u]) == xs;
    }
  }

  /** The events that trigger notifications. */
  datatype Event = Created | Edited | StatusChanged | Replied

  const AdminSubjectPrefix := "Admin Notification: "

  /** How a subject names the shipment: `#` and its tracking number. */
  function Tag(s: Shipment): string {
    "#" + s.trackingNumber
  }

  function ClientSubject(e: Event, s: Shipment): string {
    match e
    case Created => "New Shipment Created: " + Tag(s)
    case Edited => "Shipment Updated: " + Tag(s)
    case StatusChanged => "Status Update for Shipment: " + Tag(s)
    case Replied => "New Reply for Shipment: " + Tag(s)
  }

  function AdminSubject(e: Event, s: Shipment): string {
    match e
    case Created => "New Shipment Created: " + Tag(s)
    case Edited => "Shipment Updated: " + Tag(s)
    case StatusChanged => "Status Changed for Shipment: " + Tag(s) + (" to " + s.status)
    case Replied => "New Reply on Shipment: " + Tag(s)
  }

  /** `x` ends with `suffix`. */
  predicate EndsWith(x: string, suffix: string) {
    |suffix| <= |x| && x[|x| - |suffix|..] == suffix
  }

  /**
   * Every subject names the shipment: it ends with `#` and the tracking number, except the admin
   * subject of a status change, which ends with the new status.
   */
  lemma SubjectsNameTheShipment(e: Event, s: Shipment)
    ensures EndsWith(ClientSubject(e, s), Tag(s))
    ensures e != StatusChanged ==> EndsWith(AdminSubject(e, s), Tag(s))
    ensures e == StatusChanged ==> EndsWith(AdminSubject(e, s), " to " + s.status)
  {
    match e
    case Created => SuffixOfAppend("New Shipment Created: ", Tag(s));
    case Edited => SuffixOfAppend("Shipment Updated: ", Tag(s));
    case StatusChanged =>
      SuffixOfAppend("Status Update for Shipment: ", Tag(s));
      SuffixOfAppend("Status Changed for Shipment: " + Tag(s), " to " + s.status);
    case Replied =>
      SuffixOfAppend("New Reply for Shipment: ", Tag(s));
      SuffixOfAppend("New Reply on Shipment: ", Tag(s));
  }

  lemma SuffixOfAppend(prefix: string, suffix: string)
    ensures EndsWith(prefix + suffix, suffix)
  {
    assert (prefix + suffix)[|prefix|..] == suffix;
  }

  /** One `sendMail` call: its `to` argument and its subject. */
  datatype Notice = Notice(to: To, subject: string)

  /**
   * The notices one event sends, client first: the client notice exactly when the client has an
   * address, the admin notice exactly when some staff user has one.
   */
  function Notify(e: Event, s: Shipment, users: seq<User>): (r: seq<Notice>)
    ensures |r| == (if ClientAddress(s, users).Some? then 1 else 0) + (if AdminAddresses(users) != [] then 1 else 0)
    ensures ClientAddress(s, users).Some? ==> r[0] == Notice(AddressText(ClientAddress(s, users).value), ClientSubject(e, s))
    ensures AdminAddresses(users) != [] ==>
      r[|r| - 1] == Notice(AddressList(AdminAddresses(users)), AdminSubjectPrefix + AdminSubject(e, s))
  {
    var client := ClientAddress(s, users);
    var staff := AdminAddresses(users);
    (if client.Some? then [Notice(AddressText(client.value), ClientSubject(e, s))] else [])
      + (if staff != [] then [Notice(AddressList(staff), AdminSubjectPrefix + AdminSubject(e, s))] else [])
  }

  /**
   * The admin request, once built, goes to every admin and employee address exactly once, and to
   * no one else.
   */
  lemma AdminRequestReachesStaffOnce(cfg: Config, e: Event, s: Shipment, users: seq<User>)
    requires Truthy(cfg.apiKey) && AdminAddresses(users) != []
    ensures var n := Notify(e, s, users)[|Notify(e, s, users)| - 1];
            var p := SendMail(cfg, n.to, n.subject, "").value;
            && Distinct(Addresses(p))
            && (forall u :: u in users && IsStaff(u) && Truthy(u.email) ==> u.email.value in Addresses(p))
            && (forall a :: a in Addresses(p) ==> exists u :: u in users && IsStaff(u) && u.email == Some(a))
  {
    var n := Notify(e, s, users)[|Notify(e, s, users)| - 1];
    SendMailReachesRecipients(cfg, n.to, n.subject, "");
  }

  /** A client address without commas or surrounding spaces is the client request's only recipient. */
  lemma ClientRequestReachesClient(cfg: Config, e: Event, s: Shipment, users: seq<User>)
    requires Truthy(cfg.apiKey) && ClientAddress(s, users).Some? && CleanAddress(ClientAddress(s, users).value)
    ensures var n := Notify(e, s, users)[0];
            Addresses(SendMail(cfg, n.to, n.subject, "").value) == [ClientAddress(s, users).value]
  {
    var n := Notify(e, s, users)[0];
    SendMailReachesRecipients(cfg, n.to, n.subject, "");
  }

  /** The mail requests built for a list of notices: all of them with a key, none without. */
  function Outbox(cfg: Config, notices: seq<Notice>): (r: seq<Payload>)
    ensures |r| == (if Truthy(cfg.apiKey) then |notices| else 0)
    ensures forall i :: 0 <= i < |r| ==> r[i].subject == notices[i].subject && Addresses(r[i]) == Recipients(notices[i].to)
  {
    if !Truthy(cfg.apiKey) then
      []
    else
      seq(|notices|, i requires 0 <= i < |notices| =>
        SendMailReachesRecipients(cfg, notices[i].to, notices[i].subject, "");
        SendMail(cfg, notices[i].to, notices[i].subject, "").value)
  }
}
