/**
 * The logistics facilities: their schema (a unique trimmed name of 2 to 100 characters, an optional
 * unique code stored in upper case, a required country, optional contact fields with the e-mail
 * stored in lower case, an active flag), the create, update, delete and toggle handlers, and the
 * two sorted listings. The collection is a `FacilityStore` whose handlers change it in place; the
 * clock reading is a parameter.
 */
module Facilities {
  import opened Wrappers
  import opened Text
  import opened Tables
  import opened Ordering

  const NameMinLength := 2
  const NameMaxLength := 100

  datatype Facility = Facility(
    id: nat,
    name: string,
    code: Option<string>,
    country: string,
    state: Option<string>,
    city: Option<string>,
    address: Option<string>,
    contactPerson: Option<string>,
    contactPhone: Option<string>,
    contactEmail: Option<string>,
    isActive: bool,
    capacity: Option<int>,
    notes: Option<string>,
    createdAt: int,
    updatedAt: int)

  /** The request-body fields the handlers read; `None` is a field left out of the body. */
  datatype FacilityBody = FacilityBody(
    name: Option<string>,
    code: Option<string>,
    country: Option<string>,
    state: Option<string>,
    city: Option<string>,
    address: Option<string>,
    contactPerson: Option<string>,
    contactPhone: Option<string>,
    contactEmail: Option<string>,
    isActive: Option<bool>,
    capacity: Option<int>,
    notes: Option<string>)

  /** The `trim` and `uppercase` setters of the code; their order does not matter. */
  function CodeOf(o: Option<string>): (r: Option<string>)
    ensures r.Some? <==> o.Some?
    ensures r.Some? ==> r.value == Upper(Trim(o.value)) && r.value == Trim(Upper(o.value))
  {
    match o
    case None => None
    case Some(v) =>
      TrimCommutesWithCase(v);
      Some(Upper(Trim(v)))
  }

  /** The `trim` and `lowercase` setters of the contact e-mail; their order does not matter. */
  function EmailOf(o: Option<string>): (r: Option<string>)
    ensures r.Some? <==> o.Some?
    ensures r.Some? ==> r.value == Lower(Trim(o.value)) && r.value == Trim(Lower(o.value))
  {
    match o
    case None => None
    case Some(v) =>
      TrimCommutesWithCase(v);
      Some(Lower(Trim(v)))
  }

  /** Normalising a stored code again changes nothing. */
  lemma CodeOfIdempotent(o: Option<string>)
    ensures CodeOf(CodeOf(o)) == CodeOf(o)
  {
    if o.Some? {
      var t := Trim(o.value);
      TrimCommutesWithCase(t);
      TrimIdempotent(o.value);
      UpperIdempotent(t);
    }
  }

  /** Normalising a stored e-mail address again changes nothing. */
  lemma EmailOfIdempotent(o: Option<string>)
    ensures EmailOf(EmailOf(o)) == EmailOf(o)
  {
    if o.Some? {
      var t := Trim(o.value);
      TrimCommutesWithCase(t);
      TrimIdempotent(o.value);
      LowerIdempotent(t);
    }
  }

  /** The schema's validators on the name and the country. */
  predicate PassesValidation(f: Facility) {
    NameMinLength <= |f.name| <= NameMaxLength && f.country != ""
  }

  /**
   * A created facility passes the schema exactly when its trimmed name has 2 to 100 characters and
   * its trimmed country is non-empty.
   */
  lemma NewFacilityPassesValidationIff(id: nat, b: FacilityBody, now: int)
    requires b.name.Some? && b.country.Some?
    ensures PassesValidation(NewFacility(id, b, now)) <==>
      NameMinLength <= |Trim(b.name.value)| <= NameMaxLength && Trim(b.country.value) != ""
  {
  }

  /**
   * The record the create handler saves: every given field through its setter, the missing ones
   * absent, active, both timestamps the creation time. The body's `isActive` is not read.
   */
  function NewFacility(id: nat, b: FacilityBody, now: int): (f: Facility)
    requires b.name.Some? && b.country.Some?
    ensures f.id == id && f.isActive && f.createdAt == now && f.updatedAt == now
    ensures f.name == Trim(b.name.value) && f.country == Trim(b.country.value)
    ensures f.code == CodeOf(b.code) && f.contactEmail == EmailOf(b.contactEmail)
    ensures f.state == TrimOption(b.state) && f.city == TrimOption(b.city) && f.address == TrimOption(b.address)
    ensures f.contactPerson == TrimOption(b.contactPerson) && f.contactPhone == TrimOption(b.contactPhone)
    ensures f.capacity == b.capacity && f.notes == TrimOption(b.notes)
  {
    Facility(id, Trim(b.name.value), CodeOf(b.code), Trim(b.country.value), TrimOption(b.state), TrimOption(b.city),
      TrimOption(b.address), TrimOption(b.contactPerson), TrimOption(b.contactPhone), EmailOf(b.contactEmail),
      true, b.capacity, TrimOption(b.notes), now, now)
  }

  /** The update validators: only the fields the body names are checked. */
  predicate UpdatePassesValidation(b: FacilityBody) {
    && (b.name.Some? ==> NameMinLength <= |Trim(b.name.value)| <= NameMaxLength)
    && (b.country.Some? ==> Trim(b.country.value) != "")
  }

  /** The record after `findByIdAndUpdate`: each named field through its setter, the modification time set. */
  function Updated(f: Facility, b: FacilityBody, now: int): (r: Facility)
    ensures r.id == f.id && r.createdAt == f.createdAt && r.updatedAt == now
  {
    Facility(
      f.id,
      if b.name.Some? then Trim(b.name.value) else f.name,
      if b.code.Some? then CodeOf(b.code) else f.code,
      if b.country.Some? then Trim(b.country.value) else f.country,
      if b.state.Some? then TrimOption(b.state) else f.state,
      if b.city.Some? then TrimOption(b.city) else f.city,
      if b.address.Some? then TrimOption(b.address) else f.address,
      if b.contactPerson.Some? then TrimOption(b.contactPerson) else f.contactPerson,
      if b.contactPhone.Some? then TrimOption(b.contactPhone) else f.contactPhone,
      if b.contactEmail.Some? then EmailOf(b.contactEmail) else f.contactEmail,
      b.isActive.GetOr(f.isActive),
      if b.capacity.Some? then b.capacity else f.capacity,
      if b.notes.Some? then TrimOption(b.notes) else f.notes,
      f.createdAt,
      now)
  }

  /** The required fields and the flag after an update: each one the body names is set through its setter, the others are kept. */
  lemma UpdatedRequiredFields(f: Facility, b: FacilityBody, now: int)
    ensures var r := Updated(f, b, now);
      && r.name == (if b.name.Some? then Trim(b.name.value) else f.name)
      && r.code == (if b.code.Some? then Some(Upper(Trim(b.code.value))) else f.code)
      && r.country == (if b.country.Some? then Trim(b.country.value) else f.country)
      && r.isActive == (if b.isActive.Some? then b.isActive.value else f.isActive)
  {
  }

  /** The optional fields after an update: each one the body names goes through its setter, the others are kept. */
  lemma UpdatedOptionalFields(f: Facility, b: FacilityBody, now: int)
    ensures var r := Updated(f, b, now);
      && r.state == (if b.state.Some? then Some(Trim(b.state.value)) else f.state)
      && r.city == (if b.city.Some? then Some(Trim(b.city.value)) else f.city)
      && r.address == (if b.address.Some? then Some(Trim(b.address.value)) else f.address)
      && r.contactPerson == (if b.contactPerson.Some? then Some(Trim(b.contactPerson.value)) else f.contactPerson)
      && r.contactPhone == (if b.contactPhone.Some? then Some(Trim(b.contactPhone.value)) else f.contactPhone)
      && r.contactEmail == (if b.contactEmail.Some? then Some(Lower(Trim(b.contactEmail.value))) else f.contactEmail)
      && r.capacity == (if b.capacity.Some? then b.capacity else f.capacity)
      && r.notes == (if b.notes.Some? then Some(Trim(b.notes.value)) else f.notes)
  {
  }

  /** An update that names no field moves only the modification time. */
  lemma EmptyUpdateTouchesOnlyTime(f: Facility, now: int)
    ensures Updated(f, FacilityBody(None, None, None, None, None, None, None, None, None, None, None, None), now)
      == f.(updatedAt := now)
  {
  }

  /**
   * Checking only the named fields is enough: an update that passes its validators keeps a valid
   * record valid, and one that fails them would have produced an invalid record.
   */
  lemma UpdateValidationSuffices(f: Facility, b: FacilityBody, now: int)
    requires PassesValidation(f)
    ensures PassesValidation(Updated(f, b, now)) <==> UpdatePassesValidation(b)
  {
  }

  /** The toggle handler's record: the flag flipped and the modification time set. */
  function Toggled(f: Facility, now: int): (r: Facility)
    ensures r.isActive == !f.isActive && r.updatedAt == now
    ensures r.(isActive := f.isActive, updatedAt := f.updatedAt) == f
  {
    f.(isActive := !f.isActive, updatedAt := now)
  }

  /** Toggling twice restores every field but the modification time. */
  lemma ToggleTwice(f: Facility, now: int, later: int)
    ensures Toggled(Toggled(f, now), later) == f.(updatedAt := later)
  {
  }

  /** Another record already holds the name, or the code when one is given: the unique indexes refuse the write. */
  predicate Clashes(t: map<nat, Facility>, f: Facility) {
    exists k :: k in t && k != f.id && (t[k].name == f.name || (f.code.Some? && t[k].code == f.code))
  }

  /** No two records share a name, nor a code (records without a code are not indexed). */
  predicate UniqueKeys(t: map<nat, Facility>) {
    forall a, b :: a in t && b in t && a != b ==>
      t[a].name != t[b].name && (t[a].code.Some? ==> t[a].code != t[b].code)
  }

  /** The collection's invariant: every record is stored under its own id, valid, and the indexes hold. */
  predicate ValidFacilities(t: map<nat, Facility>, n: nat) {
    && KeysBelow(t, n)
    && (forall k :: k in t ==> t[k].id == k && PassesValidation(t[k]))
    && UniqueKeys(t)
  }

  /** A valid record the indexes accept may be stored under its id. */
  lemma StoreKeepsValid(t: map<nat, Facility>, n: nat, f: Facility)
    requires ValidFacilities(t, n) && f.id < n && PassesValidation(f) && !Clashes(t, f)
    ensures ValidFacilities(t[f.id := f], n)
  {
  }

  /** A valid record the indexes accept may be stored under the next id. */
  lemma InsertKeepsValid(t: map<nat, Facility>, n: nat, f: Facility)
    requires ValidFacilities(t, n) && f.id == n && PassesValidation(f) && !Clashes(t, f)
    ensures ValidFacilities(t[n := f], n + 1)
  {
  }

  /** A record whose names do not change cannot clash with the others. */
  lemma SameKeysNoClash(t: map<nat, Facility>, n: nat, f: Facility)
    requires ValidFacilities(t, n) && f.id in t && f.name == t[f.id].name && f.code == t[f.id].code
    ensures !Clashes(t, f)
  {
  }

  /** The full listing's order: active facilities first, then by name. */
  predicate FacilityBefore(a: Facility, b: Facility) {
    if a.isActive != b.isActive then a.isActive else LexLe(a.name, b.name)
  }

  /** The active listing's order: by name. */
  predicate NameBefore(a: Facility, b: Facility) {
    LexLe(a.name, b.name)
  }

  lemma FacilityBeforeIsTotalPreorder()
    ensures TotalPreorder(FacilityBefore)
  {
    forall a: Facility, b: Facility
      ensures FacilityBefore(a, b) || FacilityBefore(b, a)
    {
      LexLeTotal(a.name, b.name);
    }
    forall a: Facility, b: Facility, c: Facility | FacilityBefore(a, b) && FacilityBefore(b, c)
      ensures FacilityBefore(a, c)
    {
      if a.isActive == b.isActive == c.isActive {
        LexLeTransitive(a.name, b.name, c.name);
      }
    }
  }

  lemma NameBeforeIsTotalPreorder()
    ensures TotalPreorder(NameBefore)
  {
    forall a: Facility, b: Facility
      ensures NameBefore(a, b) || NameBefore(b, a)
    {
      LexLeTotal(a.name, b.name);
    }
    forall a: Facility, b: Facility, c: Facility | NameBefore(a, b) && NameBefore(b, c)
      ensures NameBefore(a, c)
    {
      LexLeTransitive(a.name, b.name, c.name);
    }
  }

  /** Every facility, each once, sorted by the listing order. */
  function AllFacilities(t: map<nat, Facility>, n: nat): (r: seq<Facility>)
    requires KeysBelow(t, n)
    ensures SortedBy(r, FacilityBefore)
    ensures |r| == |t.Keys|
    ensures forall x :: x in r <==> x in t.Values
  {
    FacilityBeforeIsTotalPreorder();
    KeysBelowCount(t, n);
    var r := SortBy(Rows(t, n), FacilityBefore);
    SameMembers(r, Rows(t, n));
    r
  }

  function IdOf(f: Facility): nat {
    f.id
  }

  predicate IsActive(f: Facility) {
    f.isActive
  }

  /** The active facilities, each once, sorted by name. */
  function ActiveFacilities(t: map<nat, Facility>, n: nat): (r: seq<Facility>)
    requires KeysBelow(t, n)
    ensures SortedBy(r, NameBefore)
    ensures |r| == |Matching(t, IsActive)|
    ensures forall x :: x in r <==> x in t.Values && x.isActive
  {
    NameBeforeIsTotalPreorder();
    var active := Where(t, n, IsActive);
    var r := SortBy(active, NameBefore);
    SameMembers(r, active);
    r
  }

  /**
   * Names are unique, so the active listing is in strictly increasing name order: the sort
   * leaves no tie for the database to break.
   */
  lemma ActiveFacilitiesStrictlyByName(t: map<nat, Facility>, n: nat, i: nat, j: nat)
    requires ValidFacilities(t, n)
    requires i < j < |ActiveFacilities(t, n)|
    ensures LexLe(ActiveFacilities(t, n)[i].name, ActiveFacilities(t, n)[j].name)
    ensures ActiveFacilities(t, n)[i].name != ActiveFacilities(t, n)[j].name
  {
    var r := ActiveFacilities(t, n);
    var active := Where(t, n, IsActive);
    assert multiset(r) == multiset(active);
    assert r[i] in t.Values && r[j] in t.Values;
    if r[i].name == r[j].name {
      var a :| a in t && t[a] == r[i];
      var b :| b in t && t[b] == r[j];
      assert a == b;
      assert r[i] == r[j];
      OnceInWhere(t, n, IsActive, IdOf, r[i]);
      TwiceInSeq(r, i, j);
      assert false;
    }
  }

  class FacilityStore {
    var facilities: map<nat, Facility>
    var nextId: nat

    predicate Valid()
      reads this
    {
      ValidFacilities(facilities, nextId)
    }

    constructor()
      ensures Valid() && facilities == map[]
    {
      facilities := map[];
      nextId := 0;
    }

    /** Stores a new record under the next id. */
    method Add(f: Facility)
      requires Valid() && f.id == nextId && PassesValidation(f) && !Clashes(facilities, f)
      modifies this
      ensures Valid() && facilities == old(facilities)[old(nextId) := f] && nextId == old(nextId) + 1
    {
      InsertKeepsValid(facilities, nextId, f);
      facilities := facilities[nextId := f];
      nextId := nextId + 1;
    }

    /**
     * Creating a facility: 400 when the name or country is missing or empty; 500 when the saved
     * record fails validation; 400 when its name or code is already taken; otherwise 201.
     */
    method Create(b: FacilityBody, now: int) returns (resp: Response<Facility>)
      requires Valid()
      modifies this
      ensures Valid()
      ensures !Truthy(b.name) || !Truthy(b.country) ==> resp == Err(BAD_REQUEST) && unchanged(this)
      ensures Truthy(b.name) && Truthy(b.country) ==>
        var f := NewFacility(old(nextId), b, now);
        if !PassesValidation(f) then resp == Err(SERVER_ERROR) && unchanged(this)
        else if Clashes(old(facilities), f) then resp == Err(BAD_REQUEST) && unchanged(this)
        else resp == Ok(CREATED, f) && facilities == old(facilities)[old(nextId) := f] && nextId == old(nextId) + 1
    {
      if !Truthy(b.name) || !Truthy(b.country) {
        return Err(BAD_REQUEST);
      }
      var f := NewFacility(nextId, b, now);
      if !PassesValidation(f) {
        return Err(SERVER_ERROR);
      }
      if Clashes(facilities, f) {
        return Err(BAD_REQUEST);
      }
      Add(f);
      resp := Ok(CREATED, f);
    }

    /**
     * Updating a facility: the validators run on the body first (500), then an unknown id gives
     * 404, then a name or code already taken gives 400; otherwise the named fields are replaced.
     */
    method Update(id: nat, b: FacilityBody, now: int) returns (resp: Response<Facility>)
      requires Valid()
      modifies this
      ensures Valid()
      ensures !UpdatePassesValidation(b) ==> resp == Err(SERVER_ERROR) && unchanged(this)
      ensures UpdatePassesValidation(b) && id !in old(facilities) ==> resp == Err(NOT_FOUND) && unchanged(this)
      ensures UpdatePassesValidation(b) && id in old(facilities) ==>
        var f := Updated(old(facilities)[id], b, now);
        if Clashes(old(facilities), f) then resp == Err(BAD_REQUEST) && unchanged(this)
        else resp == Ok(OK, f) && facilities == old(facilities)[id := f] && nextId == old(nextId)
    {
      if !UpdatePassesValidation(b) {
        return Err(SERVER_ERROR);
      }
      if id !in facilities {
        return Err(NOT_FOUND);
      }
      var f := Updated(facilities[id], b, now);
      if Clashes(facilities, f) {
        return Err(BAD_REQUEST);
      }
      UpdateValidationSuffices(facilities[id], b, now);
      StoreKeepsValid(facilities, nextId, f);
      facilities := facilities[id := f];
      resp := Ok(OK, f);
    }

    /** Deleting a facility: 404 for an unknown id, otherwise the record is gone and nothing else changes. */
    method Delete(id: nat) returns (resp: Response<()>)
      requires Valid()
      modifies this
      ensures Valid()
      ensures id !in old(facilities) ==> resp == Err(NOT_FOUND) && unchanged(this)
      ensures id in old(facilities) ==> resp == Ok(OK, ()) && facilities == old(facilities) - {id} && nextId == old(nextId)
    {
      if id !in facilities {
        return Err(NOT_FOUND);
      }
      facilities := facilities - {id};
      resp := Ok(OK, ());
    }

    /** Toggling a facility: 404 for an unknown id, otherwise its active flag is flipped and saved. */
    method ToggleStatus(id: nat, now: int) returns (resp: Response<Facility>)
      requires Valid()
      modifies this
      ensures Valid()
      ensures id !in old(facilities) ==> resp == Err(NOT_FOUND) && unchanged(this)
      ensures id in old(facilities) ==>
        var f := Toggled(old(facilities)[id], now);
        resp == Ok(OK, f) && facilities == old(facilities)[id := f] && nextId == old(nextId)
    {
      if id !in facilities {
        return Err(NOT_FOUND);
      }
      var f := Toggled(facilities[id], now);
      SameKeysNoClash(facilities, nextId, f);
      StoreKeepsValid(facilities, nextId, f);
      facilities := facilities[id := f];
      resp := Ok(OK, f);
    }
  }
}
