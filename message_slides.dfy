/**
 * The announcement slides shown on the site: their schema (trimmed title of at most 100
 * characters, trimmed message of at most 500, an active flag, a display order, an optional icon
 * and a background colour), the create, update, delete and bulk-activation handlers, and the two
 * sorted listings. The collection is a `SlideStore` whose handlers change it in place; the clock
 * reading is a parameter.
 */
module MessageSlides {
  import opened Wrappers
  import opened Text
  import opened Tables
  import opened Ordering

  const TitleMaxLength := 100
  const MessageMaxLength := 500
  const DefaultBackgroundColor := "#1976D2"

  datatype Slide = Slide(
    id: nat,
    title: string,
    message: string,
    isActive: bool,
    displayOrder: int,
    icon: Option<string>,
    backgroundColor: string,
    createdAt: int,
    updatedAt: int)

  /** The request-body fields the handlers read; `None` is a field left out of the body. */
  datatype SlideBody = SlideBody(
    title: Option<string>,
    message: Option<string>,
    isActive: Option<bool>,
    displayOrder: Option<int>,
    icon: Option<string>,
    backgroundColor: Option<string>)

  /** The schema's validators: title and message present and within their maximum lengths. */
  predicate PassesValidation(s: Slide) {
    s.title != "" && |s.title| <= TitleMaxLength && s.message != "" && |s.message| <= MessageMaxLength
  }

  /** The schema's `trim` setters have run on every text field. */
  predicate Normalised(s: Slide) {
    && IsTrimmed(s.title) && IsTrimmed(s.message) && IsTrimmed(s.backgroundColor)
    && (s.icon.Some? ==> IsTrimmed(s.icon.value))
  }

  /**
   * The record the create handler stores: title and message trimmed, active unless the body says
   * otherwise, order 0 unless a non-zero one is given, no icon unless a non-empty one is given,
   * the default colour unless a non-empty one is given; both timestamps are the creation time.
   */
  function NewSlide(id: nat, b: SlideBody, now: int): (s: Slide)
    requires b.title.Some? && b.message.Some?
    ensures Normalised(s) && s.id == id
    ensures s.title == Trim(b.title.value) && s.message == Trim(b.message.value)
    ensures b.isActive.Some? ==> s.isActive == b.isActive.value
    ensures b.isActive.None? ==> s.isActive
    ensures b.displayOrder.Some? ==> s.displayOrder == b.displayOrder.value
    ensures b.displayOrder.None? ==> s.displayOrder == 0
    ensures Truthy(b.icon) ==> s.icon == Some(Trim(b.icon.value))
    ensures !Truthy(b.icon) ==> s.icon == None
    ensures s.backgroundColor == Trim(Or(b.backgroundColor, DefaultBackgroundColor))
    ensures s.createdAt == now && s.updatedAt == now
  {
    Slide(id, Trim(b.title.value), Trim(b.message.value), b.isActive.GetOr(true), b.displayOrder.GetOr(0),
      if Truthy(b.icon) then TrimOption(b.icon) else None,
      Trim(Or(b.backgroundColor, DefaultBackgroundColor)), now, now)
  }

  /** The fields after the update handler's assignments: each field the body names is replaced, trimmed by the schema. */
  function Assigned(s: Slide, b: SlideBody): (r: Slide)
    ensures r.id == s.id && r.createdAt == s.createdAt && r.updatedAt == s.updatedAt
    ensures r.title == (if b.title.Some? then Trim(b.title.value) else s.title)
    ensures r.message == (if b.message.Some? then Trim(b.message.value) else s.message)
    ensures r.isActive == (if b.isActive.Some? then b.isActive.value else s.isActive)
    ensures r.displayOrder == (if b.displayOrder.Some? then b.displayOrder.value else s.displayOrder)
    ensures r.icon == (if b.icon.Some? then Some(Trim(b.icon.value)) else s.icon)
    ensures r.backgroundColor == (if b.backgroundColor.Some? then Trim(b.backgroundColor.value) else s.backgroundColor)
    ensures Normalised(s) ==> Normalised(r)
    ensures b == SlideBody(None, None, None, None, None, None) ==> r == s
  {
    s.(
      title := if b.title.Some? then Trim(b.title.value) else s.title,
      message := if b.message.Some? then Trim(b.message.value) else s.message,
      isActive := b.isActive.GetOr(s.isActive),
      displayOrder := b.displayOrder.GetOr(s.displayOrder),
      icon := if b.icon.Some? then TrimOption(b.icon) else s.icon,
      backgroundColor := if b.backgroundColor.Some? then Trim(b.backgroundColor.value) else s.backgroundColor)
  }

  /** Sending the same update twice stores the same fields as sending it once. */
  lemma AssignedIdempotent(s: Slide, b: SlideBody)
    ensures Assigned(Assigned(s, b), b) == Assigned(s, b)
  {
    var once := Assigned(s, b);
    var twice := Assigned(once, b);
    assert twice.title == once.title by {
      if b.title.Some? {
        TrimIdempotent(b.title.value);
      }
    }
    assert twice.message == once.message by {
      if b.message.Some? {
        TrimIdempotent(b.message.value);
      }
    }
    assert twice.icon == once.icon by {
      if b.icon.Some? {
        TrimIdempotent(b.icon.value);
      }
    }
    assert twice.backgroundColor == once.backgroundColor by {
      if b.backgroundColor.Some? {
        TrimIdempotent(b.backgroundColor.value);
      }
    }
  }

  /** What `save` stores: when some field changed, the record with the modification time set to now; otherwise the record as it was. */
  function Saved(before: Slide, changed: Slide, now: int): (r: Slide)
    requires changed.updatedAt == before.updatedAt
    ensures r.(updatedAt := before.updatedAt) == changed
    ensures r.updatedAt == before.updatedAt <==> changed == before || now == before.updatedAt
    ensures changed == before ==> r == before
    ensures changed != before ==> r == changed.(updatedAt := now)
  {
    if changed == before then before else changed.(updatedAt := now)
  }

  /** An update whose body names no field stores the record as it was, modification time included. */
  lemma EmptyUpdateChangesNothing(s: Slide, now: int)
    ensures Saved(s, Assigned(s, SlideBody(None, None, None, None, None, None)), now) == s
  {
  }

  /** The bulk update's effect on one record: the flag set when the body gives one, the modification time moved. */
  function BulkSet(s: Slide, isActive: Option<bool>, now: int): (r: Slide)
    ensures r.(isActive := s.isActive, updatedAt := s.updatedAt) == s
    ensures r.isActive == isActive.GetOr(s.isActive) && r.updatedAt == now
  {
    s.(isActive := isActive.GetOr(s.isActive), updatedAt := now)
  }

  /** `updateMany({_id: {$in: ids}}, {isActive})`: every listed record that exists is updated; the rest stay. */
  function BulkUpdated(t: map<nat, Slide>, ids: seq<nat>, isActive: Option<bool>, now: int): (r: map<nat, Slide>)
    ensures r.Keys == t.Keys
    ensures forall k :: k in t && k in ids ==> r[k] == BulkSet(t[k], isActive, now)
    ensures forall k :: k in t && k !in ids ==> r[k] == t[k]
  {
    map k | k in t :: if k in ids then BulkSet(t[k], isActive, now) else t[k]
  }

  /** The number of records the bulk update matched: the distinct listed ids that exist. */
  function MatchedCount(t: map<nat, Slide>, ids: seq<nat>): (c: nat)
    ensures c <= |t.Keys| && c <= |ids|
    ensures c == 0 <==> forall k :: k in ids ==> k !in t
    ensures (forall i :: 0 <= i < |ids| ==> ids[i] in t) && Distinct(ids) ==> c == |ids|
  {
    var matched := set k | k in ids && k in t;
    assert matched <= t.Keys && matched <= Elements(ids);
    SubsetCard(matched, t.Keys);
    SubsetCard(matched, Elements(ids));
    ElementsCount(ids);
    assert (forall i :: 0 <= i < |ids| ==> ids[i] in t) ==> matched == Elements(ids);
    assert matched == {} ==> forall k :: k in ids ==> k !in t by {
      if matched == {} {
        forall k | k in ids
          ensures k !in t
        {
          assert k in t ==> k in matched;
        }
      }
    }
    |matched|
  }

  /** The bulk update keeps the store invariant: it touches only the flag and the modification time. */
  lemma BulkUpdatedKeepsValid(t: map<nat, Slide>, n: nat, ids: seq<nat>, isActive: Option<bool>, now: int)
    requires ValidSlides(t, n)
    ensures ValidSlides(BulkUpdated(t, ids, isActive, now), n)
  {
    var r := BulkUpdated(t, ids, isActive, now);
    forall k | k in r
      ensures r[k].id == k && PassesValidation(r[k]) && Normalised(r[k])
    {
      assert r[k].(isActive := t[k].isActive, updatedAt := t[k].updatedAt) == t[k];
    }
  }

  /** Running the same bulk update twice leaves the same flags; only the modification time differs. */
  lemma BulkUpdatedIdempotent(t: map<nat, Slide>, ids: seq<nat>, isActive: Option<bool>, now: int, later: int)
    ensures var once := BulkUpdated(t, ids, isActive, now);
            var twice := BulkUpdated(once, ids, isActive, later);
            twice.Keys == once.Keys
            && forall k :: k in once ==> twice[k].(updatedAt := once[k].updatedAt) == once[k]
  {
  }

  /**
   * The listing order: active slides first, then ascending display order, then the most recently
   * created first.
   */
  predicate SlideBefore(a: Slide, b: Slide) {
    if a.isActive != b.isActive then a.isActive
    else if a.displayOrder != b.displayOrder then a.displayOrder < b.displayOrder
    else a.createdAt >= b.createdAt
  }

  /** The active listing's order: ascending display order, then the most recently created first. */
  predicate ActiveSlideBefore(a: Slide, b: Slide) {
    if a.displayOrder != b.displayOrder then a.displayOrder < b.displayOrder
    else a.createdAt >= b.createdAt
  }

  lemma SlideBeforeIsTotalPreorder()
    ensures TotalPreorder(SlideBefore)
  {
  }

  lemma ActiveSlideBeforeIsTotalPreorder()
    ensures TotalPreorder(ActiveSlideBefore)
  {
  }

  /** Every slide, each once, sorted by the listing order. */
  function AllSlides(t: map<nat, Slide>, n: nat): (r: seq<Slide>)
    requires KeysBelow(t, n)
    ensures SortedBy(r, SlideBefore)
    ensures |r| == |t.Keys|
    ensures forall x :: x in r <==> x in t.Values
  {
    SlideBeforeIsTotalPreorder();
    KeysBelowCount(t, n);
    var r := SortBy(Rows(t, n), SlideBefore);
    SameMembers(r, Rows(t, n));
    r
  }

  predicate IsActive(s: Slide) {
    s.isActive
  }

  /** The active slides, each once, sorted by the active listing order. */
  function ActiveSlides(t: map<nat, Slide>, n: nat): (r: seq<Slide>)
    requires KeysBelow(t, n)
    ensures SortedBy(r, ActiveSlideBefore)
    ensures |r| == |Matching(t, IsActive)|
    ensures forall x :: x in r <==> x in t.Values && x.isActive
  {
    ActiveSlideBeforeIsTotalPreorder();
    var active := Where(t, n, IsActive);
    var r := SortBy(active, ActiveSlideBefore);
    SameMembers(r, active);
    r
  }

  function SlideId(s: Slide): nat {
    s.id
  }

  /** Each slide is stored under its own id, so the active listing shows each active slide once. */
  lemma ActiveSlidesEachOnce(t: map<nat, Slide>, n: nat, x: Slide)
    requires ValidSlides(t, n) && x in ActiveSlides(t, n)
    ensures multiset(ActiveSlides(t, n))[x] == 1
  {
    var active := Where(t, n, IsActive);
    assert multiset(ActiveSlides(t, n)) == multiset(active);
    assert x in multiset(active);
    OnceInWhere(t, n, IsActive, SlideId, x);
  }

  /** In the full listing no inactive slide comes before an active one. */
  lemma ActiveSlidesComeFirst(t: map<nat, Slide>, n: nat, i: nat, j: nat)
    requires KeysBelow(t, n)
    requires i < j < |AllSlides(t, n)| && AllSlides(t, n)[j].isActive
    ensures AllSlides(t, n)[i].isActive
  {
    assert SlideBefore(AllSlides(t, n)[i], AllSlides(t, n)[j]);
  }

  /** The collection's invariant: every record is stored under its own id, passed validation and was trimmed. */
  predicate ValidSlides(t: map<nat, Slide>, n: nat) {
    KeysBelow(t, n) && forall k :: k in t ==> t[k].id == k && PassesValidation(t[k]) && Normalised(t[k])
  }

  /**
   * A created slide passes the schema exactly when its trimmed title and message are non-empty and
   * within their maximum lengths.
   */
  lemma NewSlidePassesValidationIff(id: nat, b: SlideBody, now: int)
    requires b.title.Some? && b.message.Some?
    ensures PassesValidation(NewSlide(id, b, now)) <==>
      && Trim(b.title.value) != "" && |Trim(b.title.value)| <= TitleMaxLength
      && Trim(b.message.value) != "" && |Trim(b.message.value)| <= MessageMaxLength
  {
  }

  /** A valid, trimmed record may be stored under the next id. */
  lemma InsertKeepsValid(t: map<nat, Slide>, n: nat, s: Slide)
    requires ValidSlides(t, n) && s.id == n && PassesValidation(s) && Normalised(s)
    ensures ValidSlides(t[n := s], n + 1)
  {
  }

  class SlideStore {
    var slides: map<nat, Slide>
    var nextId: nat

    predicate Valid()
      reads this
    {
      ValidSlides(slides, nextId)
    }

    constructor()
      ensures Valid() && slides == map[]
    {
      slides := map[];
      nextId := 0;
    }

    /** Stores a new record under the next id. */
    method Add(s: Slide)
      requires Valid() && s.id == nextId && PassesValidation(s) && Normalised(s)
      modifies this
      ensures Valid() && slides == old(slides)[old(nextId) := s] && nextId == old(nextId) + 1
    {
      InsertKeepsValid(slides, nextId, s);
      slides := slides[nextId := s];
      nextId := nextId + 1;
    }

    /**
     * Creating a slide: 400 when the title or message is missing or empty, and 400 when the record
     * built from them fails validation (a title or message of spaces only, or too long); otherwise
     * the record is stored under a fresh id and returned with 201.
     */
    method Create(b: SlideBody, now: int) returns (resp: Response<Slide>)
      requires Valid()
      modifies this
      ensures Valid()
      ensures !Truthy(b.title) || !Truthy(b.message) ==> resp == Err(BAD_REQUEST) && unchanged(this)
      ensures Truthy(b.title) && Truthy(b.message) ==>
        var s := NewSlide(old(nextId), b, now);
        if !PassesValidation(s) then resp == Err(BAD_REQUEST) && unchanged(this)
        else resp == Ok(CREATED, s) && slides == old(slides)[old(nextId) := s] && nextId == old(nextId) + 1
    {
      if !Truthy(b.title) || !Truthy(b.message) {
        return Err(BAD_REQUEST);
      }
      var s := NewSlide(nextId, b, now);
      if !PassesValidation(s) {
        return Err(BAD_REQUEST);
      }
      Add(s);
      resp := Ok(CREATED, s);
    }

    /**
     * Updating a slide: 404 for an unknown id; 400 when the changed fields fail validation;
     * otherwise the fields the body names are replaced and the record saved.
     */
    method Update(id: nat, b: SlideBody, now: int) returns (resp: Response<Slide>)
      requires Valid()
      modifies this
      ensures Valid()
      ensures id !in old(slides) ==> resp == Err(NOT_FOUND) && unchanged(this)
      ensures id in old(slides) ==>
        var s := Assigned(old(slides)[id], b);
        if !PassesValidation(s) then resp == Err(BAD_REQUEST) && unchanged(this)
        else
          var saved := Saved(old(slides)[id], s, now);
          resp == Ok(OK, saved) && slides == old(slides)[id := saved] && nextId == old(nextId)
    {
      if id !in slides {
        return Err(NOT_FOUND);
      }
      var s := Assigned(slides[id], b);
      if !PassesValidation(s) {
        return Err(BAD_REQUEST);
      }
      var saved := Saved(slides[id], s, now);
      slides := slides[id := saved];
      resp := Ok(OK, saved);
    }

    /** Deleting a slide: 404 for an unknown id, otherwise the record is gone and nothing else changes. */
    method Delete(id: nat) returns (resp: Response<()>)
      requires Valid()
      modifies this
      ensures Valid()
      ensures id !in old(slides) ==> resp == Err(NOT_FOUND) && unchanged(this)
      ensures id in old(slides) ==> resp == Ok(OK, ()) && slides == old(slides) - {id} && nextId == old(nextId)
    {
      if id !in slides {
        return Err(NOT_FOUND);
      }
      slides := slides - {id};
      resp := Ok(OK, ());
    }

    /**
     * Bulk activation: 400 when no id list, or an empty one, is given; otherwise every listed slide
     * that exists gets the flag, and the reply reports how many were matched.
     */
    method BulkUpdateStatus(ids: Option<seq<nat>>, isActive: Option<bool>, now: int) returns (resp: Response<nat>)
      requires Valid()
      modifies this
      ensures Valid()
      ensures ids.None? || ids == Some([]) ==> resp == Err(BAD_REQUEST) && unchanged(this)
      ensures ids.Some? && ids.value != [] ==>
        && resp == Ok(OK, MatchedCount(old(slides), ids.value))
        && slides == BulkUpdated(old(slides), ids.value, isActive, now)
        && nextId == old(nextId)
    {
      if ids.None? || ids.value == [] {
        return Err(BAD_REQUEST);
      }
      var matched := MatchedCount(slides, ids.value);
      var updated := BulkUpdated(slides, ids.value, isActive, now);
      BulkUpdatedKeepsValid(slides, nextId, ids.value, isActive, now);
      slides := updated;
      resp := Ok(OK, matched);
    }
  }
}
