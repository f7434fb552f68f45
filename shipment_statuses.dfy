/**
 * The configurable catalogue of shipment statuses: their schema (a unique trimmed name of 2 to 100
 * characters, an optional unique code, a description of at most 500 characters, a display colour,
 * one of six categories, a display order and an active flag), the create, update, delete and
 * toggle handlers, and the two listings sorted by display order and name. The collection is a
 * `StatusStore` whose handlers change it in place; the clock reading is a parameter.
 */
module ShipmentStatuses {
  import opened Wrappers
  import opened Text
  import opened Tables
  import opened Ordering

  const NameMinLength := 2
  const NameMaxLength := 100
  const DescriptionMaxLength := 500
  const DefaultColor := "#6B7280"

  /** The schema's category enumeration. */
  datatype Category = Pending | Processing | InTransit | Delivered | Failed | Other

  /** A category's stored spelling. */
  function CategoryName(c: Category): string {
    match c
    case Pending => "pending"
    case Processing => "processing"
    case InTransit => "in-transit"
    case Delivered => "delivered"
    case Failed => "failed"
    case Other => "other"
  }

  /** The enum validator: a spelling in the list names its category, anything else is refused. */
  function ParseCategory(s: string): (r: Option<Category>)
    ensures r.Some? ==> CategoryName(r.value) == s
  {
    if s == "pending" then Some(Pending)
    else if s == "processing" then Some(Processing)
    else if s == "in-transit" then Some(InTransit)
    else if s == "delivered" then Some(Delivered)
    else if s == "failed" then Some(Failed)
    else if s == "other" then Some(Other)
    else None
  }

  /** Every category's spelling is accepted and read back as that category. */
  lemma ParseCategoryName(c: Category)
    ensures ParseCategory(CategoryName(c)) == Some(c)
  {
  }

  /** The validator accepts exactly the six spellings. */
  lemma ParseCategoryAcceptsExactlyNames(s: string)
    ensures ParseCategory(s).Some? <==> exists c :: CategoryName(c) == s
  {
    if ParseCategory(s).None? {
      forall c: Category
        ensures CategoryName(c) != s
      {
        ParseCategoryName(c);
      }
    }
  }

  datatype ShipmentStatus = ShipmentStatus(
    id: nat,
    name: string,
    code: Option<string>,
    description: Option<string>,
    color: string,
    category: Category,
    displayOrder: int,
    isActive: bool,
    createdAt: int,
    updatedAt: int)

  /** The request-body fields the handlers read; `None` is a field left out of the body. */
  datatype StatusBody = StatusBody(
    name: Option<string>,
    code: Option<string>,
    description: Option<string>,
    color: Option<string>,
    category: Option<string>,
    displayOrder: Option<int>,
    isActive: Option<bool>)

  /** The schema's validators on the name and the description. */
  predicate PassesValidation(s: ShipmentStatus) {
    && NameMinLength <= |s.name| <= NameMaxLength
    && (s.description.Some? ==> |s.description.value| <= DescriptionMaxLength)
  }

  /**
   * The validators on the fields a body names: name length, description length and the category
   * enumeration. On create they see every field, on update only the named ones.
   */
  predicate BodyPassesValidation(b: StatusBody) {
    && (b.name.Some? ==> NameMinLength <= |Trim(b.name.value)| <= NameMaxLength)
    && (b.description.Some? ==> |Trim(b.description.value)| <= DescriptionMaxLength)
    && (b.category.Some? ==> ParseCategory(b.category.value).Some?)
  }

  /**
   * The record the create handler saves, for a body whose fields pass validation: text trimmed,
   * the default colour, category, order and active flag where the body gives none, both timestamps
   * the creation time. The body's `isActive` is not read.
   */
  function NewStatus(id: nat, b: StatusBody, now: int): (s: ShipmentStatus)
    requires b.name.Some? && BodyPassesValidation(b)
    ensures s.id == id && s.isActive && s.createdAt == now && s.updatedAt == now
    ensures s.name == Trim(b.name.value) && s.code == TrimOption(b.code) && s.description == TrimOption(b.description)
    ensures b.color.None? ==> s.color == DefaultColor
    ensures b.color.Some? ==> s.color == Trim(b.color.value)
    ensures b.category.None? ==> s.category == Other
    ensures b.displayOrder.None? ==> s.displayOrder == 0
    ensures b.displayOrder.Some? ==> s.displayOrder == b.displayOrder.value
  {
    ShipmentStatus(
      id,
      Trim(b.name.value),
      TrimOption(b.code),
      TrimOption(b.description),
      if b.color.Some? then Trim(b.color.value) else DefaultColor,
      if b.category.Some? then ParseCategory(b.category.value).value else Other,
      b.displayOrder.GetOr(0),
      true,
      now,
      now)
  }

  /** A body accepted on create gives a record that passes the schema's validators. */
  lemma NewStatusPassesValidation(id: nat, b: StatusBody, now: int)
    requires b.name.Some? && BodyPassesValidation(b)
    ensures PassesValidation(NewStatus(id, b, now))
  {
  }

  /** The record after `findByIdAndUpdate`, for a body that passes validation: each named field replaced, the modification time set. */
  function Updated(s: ShipmentStatus, b: StatusBody, now: int): (r: ShipmentStatus)
    requires BodyPassesValidation(b)
    ensures r.id == s.id && r.createdAt == s.createdAt && r.updatedAt == now
    ensures b.name.Some? ==> r.name == Trim(b.name.value)
    ensures b.name.None? ==> r.name == s.name
    ensures b.category.None? ==> r.category == s.category
    ensures b == StatusBody(None, None, None, None, None, None, None) ==> r == s.(updatedAt := now)
  {
    ShipmentStatus(
      s.id,
      if b.name.Some? then Trim(b.name.value) else s.name,
      if b.code.Some? then TrimOption(b.code) else s.code,
      if b.description.Some? then TrimOption(b.description) else s.description,
      if b.color.Some? then Trim(b.color.value) else s.color,
      if b.category.Some? then ParseCategory(b.category.value).value else s.category,
      b.displayOrder.GetOr(s.displayOrder),
      b.isActive.GetOr(s.isActive),
      s.createdAt,
      now)
  }

  /**
   * The other fields after an update: the text ones the body names are trimmed, the category is
   * the one it spells, order and flag are taken as given; the fields it leaves out are kept.
   */
  lemma UpdatedFields(s: ShipmentStatus, b: StatusBody, now: int)
    requires BodyPassesValidation(b)
    ensures var r := Updated(s, b, now);
      && r.code == (if b.code.Some? then Some(Trim(b.code.value)) else s.code)
      && r.description == (if b.description.Some? then Some(Trim(b.description.value)) else s.description)
      && r.color == (if b.color.Some? then Trim(b.color.value) else s.color)
      && (b.category.Some? ==> CategoryName(r.category) == b.category.value)
      && r.displayOrder == (if b.displayOrder.Some? then b.displayOrder.value else s.displayOrder)
      && r.isActive == (if b.isActive.Some? then b.isActive.value else s.isActive)
  {
  }

  /** The category a new status gets is the one the body spells. */
  lemma NewStatusCategory(id: nat, b: StatusBody, now: int)
    requires b.name.Some? && BodyPassesValidation(b) && b.category.Some?
    ensures CategoryName(NewStatus(id, b, now).category) == b.category.value
  {
  }

  /** An update that passes its validators keeps a valid record valid. */
  lemma UpdatedPassesValidation(s: ShipmentStatus, b: StatusBody, now: int)
    requires PassesValidation(s) && BodyPassesValidation(b)
    ensures PassesValidation(Updated(s, b, now))
  {
  }

  /** The toggle handler's record: the flag flipped and the modification time set. */
  function Toggled(s: ShipmentStatus, now: int): (r: ShipmentStatus)
    ensures r.isActive == !s.isActive && r.updatedAt == now
    ensures r.(isActive := s.isActive, updatedAt := s.updatedAt) == s
  {
    s.(isActive := !s.isActive, updatedAt := now)
  }

  /** Toggling twice restores every field but the modification time. */
  lemma ToggleTwice(s: ShipmentStatus, now: int, later: int)
    ensures Toggled(Toggled(s, now), later) == s.(updatedAt := later)
  {
  }

  /** Another record already holds the name, or the code when one is given: the unique indexes refuse the write. */
  predicate Clashes(t: map<nat, ShipmentStatus>, s: ShipmentStatus) {
    exists k :: k in t && k != s.id && (t[k].name == s.name || (s.code.Some? && t[k].code == s.code))
  }

  /** No two records share a name, nor a code (records without a code are not indexed). */
  predicate UniqueKeys(t: map<nat, ShipmentStatus>) {
    forall a, b :: a in t && b in t && a != b ==>
      t[a].name != t[b].name && (t[a].code.Some? ==> t[a].code != t[b].code)
  }

  /** The collection's invariant: every record is stored under its own id, valid, and the indexes hold. */
  predicate ValidStatuses(t: map<nat, ShipmentStatus>, n: nat) {
    && KeysBelow(t, n)
    && (forall k :: k in t ==> t[k].id == k && PassesValidation(t[k]))
    && UniqueKeys(t)
  }

  /** A valid record the indexes accept may be stored under its id. */
  lemma StoreKeepsValid(t: map<nat, ShipmentStatus>, n: nat, s: ShipmentStatus)
    requires ValidStatuses(t, n) && s.id < n && PassesValidation(s) && !Clashes(t, s)
    ensures ValidStatuses(t[s.id := s], n)
  {
  }

  /** A valid record the indexes accept may be stored under the next id. */
  lemma InsertKeepsValid(t: map<nat, ShipmentStatus>, n: nat, s: ShipmentStatus)
    requires ValidStatuses(t, n) && s.id == n && PassesValidation(s) && !Clashes(t, s)
    ensures ValidStatuses(t[n := s], n + 1)
  {
  }

  /** A record whose name and code do not change cannot clash with the others. */
  lemma SameKeysNoClash(t: map<nat, ShipmentStatus>, n: nat, s: ShipmentStatus)
    requires ValidStatuses(t, n) && s.id in t && s.name == t[s.id].name && s.code == t[s.id].code
    ensures !Clashes(t, s)
  {
  }

  /** The listing order: ascending display order, then by name. */
  predicate StatusBefore(a: ShipmentStatus, b: ShipmentStatus) {
    if a.displayOrder != b.displayOrder then a.displayOrder < b.displayOrder else LexLe(a.name, b.name)
  }

  lemma StatusBeforeIsTotalPreorder()
    ensures TotalPreorder(StatusBefore)
  {
    forall a: ShipmentStatus, b: ShipmentStatus
      ensures StatusBefore(a, b) || StatusBefore(b, a)
    {
      LexLeTotal(a.name, b.name);
    }
    forall a: ShipmentStatus, b: ShipmentStatus, c: ShipmentStatus | StatusBefore(a, b) && StatusBefore(b, c)
      ensures StatusBefore(a, c)
    {
      if a.displayOrder == b.displayOrder == c.displayOrder {
        LexLeTransitive(a.name, b.name, c.name);
      }
    }
  }

  /** Every status, each once, sorted by display order and name. */
  function AllStatuses(t: map<nat, ShipmentStatus>, n: nat): (r: seq<ShipmentStatus>)
    requires KeysBelow(t, n)
    ensures SortedBy(r, StatusBefore)
    ensures |r| == |t.Keys|
    ensures forall x :: x in r <==> x in t.Values
  {
    StatusBeforeIsTotalPreorder();
    KeysBelowCount(t, n);
    var r := SortBy(Rows(t, n), StatusBefore);
    SameMembers(r, Rows(t, n));
    r
  }

  predicate IsActive(s: ShipmentStatus) {
    s.isActive
  }

  /** The active statuses, each once, sorted by display order and name. */
  function ActiveStatuses(t: map<nat, ShipmentStatus>, n: nat): (r: seq<ShipmentStatus>)
    requires KeysBelow(t, n)
    ensures SortedBy(r, StatusBefore)
    ensures |r| == |Matching(t, IsActive)|
    ensures forall x :: x in r <==> x in t.Values && x.isActive
  {
    StatusBeforeIsTotalPreorder();
    var active := Where(t, n, IsActive);
    var r := SortBy(active, StatusBefore);
    SameMembers(r, active);
    r
  }

  function StatusId(s: ShipmentStatus): nat {
    s.id
  }

  /** Each status is stored under its own id, so the active listing shows each active status once. */
  lemma ActiveStatusesEachOnce(t: map<nat, ShipmentStatus>, n: nat, x: ShipmentStatus)
    requires ValidStatuses(t, n) && x in ActiveStatuses(t, n)
    ensures multiset(ActiveStatuses(t, n))[x] == 1
  {
    var active := Where(t, n, IsActive);
    assert multiset(ActiveStatuses(t, n)) == multiset(active);
    assert x in multiset(active);
    OnceInWhere(t, n, IsActive, StatusId, x);
  }

  class StatusStore {
    var statuses: map<nat, ShipmentStatus>
    var nextId: nat

    predicate Valid()
      reads this
    {
      ValidStatuses(statuses, nextId)
    }

    constructor()
      ensures Valid() && statuses == map[]
    {
      statuses := map[];
      nextId := 0;
    }

    /** Stores a new record under the next id. */
    method Add(s: ShipmentStatus)
      requires Valid() && s.id == nextId && PassesValidation(s) && !Clashes(statuses, s)
      modifies this
      ensures Valid() && statuses == old(statuses)[old(nextId) := s] && nextId == old(nextId) + 1
    {
      InsertKeepsValid(statuses, nextId, s);
      statuses := statuses[nextId := s];
      nextId := nextId + 1;
    }

    /**
     * Creating a status: 400 when the name is missing or empty; 500 when a field fails validation
     * (a name of the wrong length, a description too long, an unknown category); 400 when the name
     * or code is already taken; otherwise 201.
     */
    method Create(b: StatusBody, now: int) returns (resp: Response<ShipmentStatus>)
      requires Valid()
      modifies this
      ensures Valid()
      ensures !Truthy(b.name) ==> resp == Err(BAD_REQUEST) && unchanged(this)
      ensures Truthy(b.name) && !BodyPassesValidation(b) ==> resp == Err(SERVER_ERROR) && unchanged(this)
      ensures Truthy(b.name) && BodyPassesValidation(b) ==>
        var s := NewStatus(old(nextId), b, now);
        if Clashes(old(statuses), s) then resp == Err(BAD_REQUEST) && unchanged(this)
        else resp == Ok(CREATED, s) && statuses == old(statuses)[old(nextId) := s] && nextId == old(nextId) + 1
    {
      if !Truthy(b.name) {
        return Err(BAD_REQUEST);
      }
      if !BodyPassesValidation(b) {
        return Err(SERVER_ERROR);
      }
      var s := NewStatus(nextId, b, now);
      if Clashes(statuses, s) {
        return Err(BAD_REQUEST);
      }
      NewStatusPassesValidation(nextId, b, now);
      Add(s);
      resp := Ok(CREATED, s);
    }

    /**
     * Updating a status: the validators run on the body first (500), then an unknown id gives 404,
     * then a name or code already taken gives 400; otherwise the named fields are replaced.
     */
    method Update(id: nat, b: StatusBody, now: int) returns (resp: Response<ShipmentStatus>)
      requires Valid()
      modifies this
      ensures Valid()
      ensures !BodyPassesValidation(b) ==> resp == Err(SERVER_ERROR) && unchanged(this)
      ensures BodyPassesValidation(b) && id !in old(statuses) ==> resp == Err(NOT_FOUND) && unchanged(this)
      ensures BodyPassesValidation(b) && id in old(statuses) ==>
        var s := Updated(old(statuses)[id], b, now);
        if Clashes(old(statuses), s) then resp == Err(BAD_REQUEST) && unchanged(this)
        else resp == Ok(OK, s) && statuses == old(statuses)[id := s] && nextId == old(nextId)
    {
      if !BodyPassesValidation(b) {
        return Err(SERVER_ERROR);
      }
      if id !in statuses {
        return Err(NOT_FOUND);
      }
      var s := Updated(statuses[id], b, now);
      if Clashes(statuses, s) {
        return Err(BAD_REQUEST);
      }
      UpdatedPassesValidation(statuses[id], b, now);
      StoreKeepsValid(statuses, nextId, s);
      statuses := statuses[id := s];
      resp := Ok(OK, s);
    }

    /** Deleting a status: 404 for an unknown id, otherwise the record is gone and nothing else changes. */
    method Delete(id: nat) returns (resp: Response<()>)
      requires Valid()
      modifies this
      ensures Valid()
      ensures id !in old(statuses) ==> resp == Err(NOT_FOUND) && unchanged(this)
      ensures id in old(statuses) ==> resp == Ok(OK, ()) && statuses == old(statuses) - {id} && nextId == old(nextId)
    {
      if id !in statuses {
        return Err(NOT_FOUND);
      }
      statuses := statuses - {id};
      resp := Ok(OK, ());
    }

    /** Toggling a status: 404 for an unknown id, otherwise its active flag is flipped and saved. */
    method ToggleActive(id: nat, now: int) returns (resp: Response<ShipmentStatus>)
      requires Valid()
      modifies this
      ensures Valid()
      ensures id !in old(statuses) ==> resp == Err(NOT_FOUND) && unchanged(this)
      ensures id in old(statuses) ==>
        var s := Toggled(old(statuses)[id], now);
        resp == Ok(OK, s) && statuses == old(statuses)[id := s] && nextId == old(nextId)
    {
      if id !in statuses {
        return Err(NOT_FOUND);
      }
      var s := Toggled(statuses[id], now);
      SameKeysNoClash(statuses, nextId, s);
      StoreKeepsValid(statuses, nextId, s);
      statuses := statuses[id := s];
      resp := Ok(OK, s);
    }
  }
}
