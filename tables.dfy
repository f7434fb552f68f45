/**
 * A collection of records keyed by id. Ids are handed out in increasing order, so walking the
 * keys upwards gives the collection's natural (insertion) order, which is what an unsorted
 * `find()` returns.
 */
module Tables {
  /** Every key was handed out before the counter reached `n`. */
  predicate KeysBelow<R>(t: map<nat, R>, n: nat) {
    forall k :: k in t ==> k < n
  }

  /** The keys below `n` whose records satisfy `p`, in increasing order. */
  function KeysWhere<R>(t: map<nat, R>, n: nat, p: R -> bool): (ks: seq<nat>)
    ensures forall i, j :: 0 <= i < j < |ks| ==> ks[i] < ks[j]
    ensures forall k :: k in ks <==> k in t && k < n && p(t[k])
    ensures forall i :: 0 <= i < |ks| ==> ks[i] < n
  {
    if n == 0 then []
    else KeysWhere(t, n - 1, p) + (if n - 1 in t && p(t[n - 1]) then [n - 1] else [])
  }

  /** The keys below `n`, in increasing order. */
  function KeysInOrder<R>(t: map<nat, R>, n: nat): (ks: seq<nat>)
    ensures forall i, j :: 0 <= i < j < |ks| ==> ks[i] < ks[j]
    ensures forall k :: k in ks <==> k in t && k < n
    ensures forall i :: 0 <= i < |ks| ==> ks[i] < n
  {
    KeysWhere(t, n, _ => true)
  }

  /** The records stored under the listed keys, in the keys' order. */
  function At<R>(t: map<nat, R>, ks: seq<nat>): (rows: seq<R>)
    requires forall i :: 0 <= i < |ks| ==> ks[i] in t
    ensures |rows| == |ks|
    ensures forall i :: 0 <= i < |ks| ==> rows[i] == t[ks[i]]
  {
    seq(|ks|, i requires 0 <= i < |ks| => t[ks[i]])
  }

  /** The keys whose records satisfy `p`. */
  function Matching<R>(t: map<nat, R>, p: R -> bool): set<nat> {
    set k | k in t && p(t[k])
  }

  /**
   * A query with a condition (`find({...})`): the records satisfying `p`, in natural order, one
   * row per matching key.
   */
  function Where<R(==,!new)>(t: map<nat, R>, n: nat, p: R -> bool): (rows: seq<R>)
    requires KeysBelow(t, n)
    ensures |rows| == |KeysWhere(t, n, p)| == |Matching(t, p)|
    ensures forall i :: 0 <= i < |rows| ==> rows[i] == t[KeysWhere(t, n, p)[i]]
    ensures forall x :: x in rows <==> x in t.Values && p(x)
  {
    var ks := KeysWhere(t, n, p);
    var rows := At(t, ks);
    DistinctCount(ks, Matching(t, p));
    assert forall x :: x in t.Values && p(x) ==> x in rows by {
      forall x | x in t.Values && p(x)
        ensures x in rows
      {
        var k :| k in t && t[k] == x;
        assert k in ks;
        var i :| 0 <= i < |ks| && ks[i] == k;
        assert rows[i] == x;
      }
    }
    rows
  }

  /** The records in natural order: each record of the collection exactly once. */
  function Rows<R(==,!new)>(t: map<nat, R>, n: nat): (rows: seq<R>)
    requires KeysBelow(t, n)
    ensures |rows| == |KeysInOrder(t, n)|
    ensures forall i :: 0 <= i < |rows| ==> KeysInOrder(t, n)[i] in t && rows[i] == t[KeysInOrder(t, n)[i]]
    ensures forall x :: x in rows <==> x in t.Values
  {
    var ks := KeysInOrder(t, n);
    var rows := At(t, ks);
    assert forall x :: x in t.Values ==> x in rows by {
      forall x | x in t.Values
        ensures x in rows
      {
        var k :| k in t && t[k] == x;
        assert k in ks;
        var i :| 0 <= i < |ks| && ks[i] == k;
        assert rows[i] == x;
      }
    }
    rows
  }

  /** Every key of a collection below its counter is listed, so the listing has one row per record. */
  lemma KeysBelowCount<R>(t: map<nat, R>, n: nat)
    requires KeysBelow(t, n)
    ensures |KeysInOrder(t, n)| == |t.Keys|
  {
    var ks := KeysInOrder(t, n);
    DistinctCount(ks, t.Keys);
  }

  lemma {:induction false} DistinctCount(ks: seq<nat>, keys: set<nat>)
    requires forall i, j :: 0 <= i < j < |ks| ==> ks[i] < ks[j]
    requires forall k :: k in ks <==> k in keys
    ensures |ks| == |keys|
    decreases |ks|
  {
    if ks != [] {
      var last := ks[|ks| - 1];
      var prefix := ks[..|ks| - 1];
      assert last !in prefix;
      forall k
        ensures k in prefix <==> k in keys - {last}
      {
        if k in prefix {
          var i :| 0 <= i < |prefix| && prefix[i] == k;
          assert k < last;
        }
        if k in keys - {last} {
          assert k in ks;
          var i :| 0 <= i < |ks| && ks[i] == k;
          assert i < |ks| - 1;
          assert k == prefix[i];
        }
      }
      DistinctCount(prefix, keys - {last});
    } else {
      assert forall k :: k !in keys;
      assert keys == {};
    }
  }

  /** No value occurs twice. */
  predicate Distinct<T(==)>(s: seq<T>) {
    forall i, j :: 0 <= i < j < |s| ==> s[i] != s[j]
  }

  /** The values a sequence holds. */
  function Elements(ks: seq<nat>): set<nat> {
    set k | k in ks
  }

  /** A subset is no larger than the set that holds it. */
  lemma SubsetCard(a: set<nat>, b: set<nat>)
    requires a <= b
    ensures |a| <= |b|
  {
    assert b == a + (b - a);
  }

  /** A sequence holds at most as many different values as elements, and exactly as many when none repeats. */
  lemma {:induction false} ElementsCount(ks: seq<nat>)
    ensures |Elements(ks)| <= |ks|
    ensures Distinct(ks) ==> |Elements(ks)| == |ks|
    decreases |ks|
  {
    if ks != [] {
      var prefix := ks[..|ks| - 1];
      var last := ks[|ks| - 1];
      ElementsCount(prefix);
      assert ks == prefix + [last];
      assert Elements(ks) == Elements(prefix) + {last};
      if Distinct(ks) {
        assert last !in prefix;
      }
    }
  }

  /** When every record is stored under its own key, a query lists each record it matches once. */
  lemma OnceInWhere<R(!new)>(t: map<nat, R>, n: nat, p: R -> bool, key: R -> nat, x: R)
    requires KeysBelow(t, n) && forall k :: k in t ==> key(t[k]) == k
    requires x in Where(t, n, p)
    ensures multiset(Where(t, n, p))[x] == 1
  {
    var rows := Where(t, n, p);
    var ks := KeysWhere(t, n, p);
    var i :| 0 <= i < |rows| && rows[i] == x;
    forall j | 0 <= j < |rows| && j != i
      ensures rows[j] != x
    {
      assert key(rows[j]) == ks[j] && key(rows[i]) == ks[i];
      assert ks[i] != ks[j] by {
        if i < j {
          assert ks[i] < ks[j];
        } else {
          assert ks[j] < ks[i];
        }
      }
    }
    SingleOccurrence(rows, i);
  }

  lemma {:induction false} SingleOccurrence<T>(s: seq<T>, i: nat)
    requires i < |s|
    requires forall j :: 0 <= j < |s| && j != i ==> s[j] != s[i]
    ensures multiset(s)[s[i]] == 1
    decreases |s|
  {
    var x := s[i];
    var last := |s| - 1;
    assert s == s[..last] + [s[last]];
    if i == last {
      assert x !in s[..last];
    } else {
      SingleOccurrence(s[..last], i);
    }
  }

  /** A value at two positions occurs at least twice. */
  lemma {:induction false} TwiceInSeq<T>(s: seq<T>, i: nat, j: nat)
    requires i < j < |s| && s[i] == s[j]
    ensures multiset(s)[s[i]] >= 2
  {
    assert s == s[..j] + [s[j]] + s[j + 1..];
    assert s[i] in s[..j];
  }
}
