/** Ascending order on integer sequences: the comparator `(a, b) => a - b`
    that every sort of the quiz session uses. */
module Sorting {

  predicate Sorted(s: seq<int>) {
    forall i, j :: 0 <= i < j < |s| ==> s[i] <= s[j]
  }

  /** Ascending and free of duplicates. */
  predicate StrictlySorted(s: seq<int>) {
    forall i, j :: 0 <= i < j < |s| ==> s[i] < s[j]
  }

  /** The set of values a sequence holds. */
  function Elems(s: seq<int>): set<int> {
    set x | x in s
  }

  lemma ElemsSnoc(s: seq<int>, v: int)
    ensures Elems(s + [v]) == Elems(s) + {v}
  {
  }

  lemma ElemsCons(a: int, t: seq<int>)
    ensures Elems([a] + t) == {a} + Elems(t)
  {
  }

  /** An array is ascending when its tail is and its head is not above any
      value of the tail. */
  lemma SortedCons(a: int, t: seq<int>)
    ensures Sorted([a] + t) <==> Sorted(t) && forall y :: y in Elems(t) ==> a <= y
  {
    var s := [a] + t;
    if Sorted(s) {
      forall y | y in Elems(t) ensures a <= y {
        var j :| 0 <= j < |t| && t[j] == y;
        assert s[0] == a && s[j + 1] == y;
      }
      forall i, j | 0 <= i < j < |t| ensures t[i] <= t[j] {
        assert s[i + 1] == t[i] && s[j + 1] == t[j];
      }
    }
    if Sorted(t) && forall y :: y in Elems(t) ==> a <= y {
      forall i, j | 0 <= i < j < |s| ensures s[i] <= s[j] {
        assert s[j] == t[j - 1] && t[j - 1] in Elems(t);
        assert i > 0 ==> s[i] == t[i - 1];
      }
    }
  }

  /** The same for duplicate-free ascending arrays, with a strictly smaller
      head. */
  lemma StrictlySortedCons(a: int, t: seq<int>)
    ensures StrictlySorted([a] + t) <==> StrictlySorted(t) && forall y :: y in Elems(t) ==> a < y
  {
    var s := [a] + t;
    if StrictlySorted(s) {
      forall y | y in Elems(t) ensures a < y {
        var j :| 0 <= j < |t| && t[j] == y;
        assert s[0] == a && s[j + 1] == y;
      }
      forall i, j | 0 <= i < j < |t| ensures t[i] < t[j] {
        assert s[i + 1] == t[i] && s[j + 1] == t[j];
      }
    }
    if StrictlySorted(t) && forall y :: y in Elems(t) ==> a < y {
      forall i, j | 0 <= i < j < |s| ensures s[i] < s[j] {
        assert s[j] == t[j - 1] && t[j - 1] in Elems(t);
        assert i > 0 ==> s[i] == t[i - 1];
      }
    }
  }

  /** Places `x` in front of the first element that is not smaller. */
  function Insert(x: int, s: seq<int>): (r: seq<int>)
    requires Sorted(s)
    ensures Sorted(r)
    ensures multiset(r) == multiset(s) + multiset{x}
    decreases |s|
  {
    if s == [] || x <= s[0] then
      [x] + s
    else
      assert s == [s[0]] + s[1..];
      var t := Insert(x, s[1..]);
      SortedCons(s[0], s[1..]);
      SortedCons(s[0], t);
      assert forall y :: y in Elems(t) ==> s[0] <= y by {
        forall y | y in Elems(t) ensures s[0] <= y {
          assert y in multiset(t);
          assert y == x || y in Elems(s[1..]);
        }
      }
      assert multiset([s[0]] + t) == multiset{s[0]} + multiset(t);
      assert multiset(s) == multiset{s[0]} + multiset(s[1..]);
      [s[0]] + t
  }

  /** The ascending arrangement of `s`, which is what
      `Array.prototype.sort((a, b) => a - b)` leaves in an array of numbers. */
  function SortSeq(s: seq<int>): (r: seq<int>)
    ensures Sorted(r)
    ensures multiset(r) == multiset(s)
  {
    if s == [] then []
    else
      assert s == s[..|s| - 1] + [s[|s| - 1]];
      Insert(s[|s| - 1], SortSeq(s[..|s| - 1]))
  }

  /** There is only one ascending arrangement of a multiset. */
  lemma {:induction false} SortedUnique(a: seq<int>, b: seq<int>)
    requires Sorted(a) && Sorted(b)
    requires multiset(a) == multiset(b)
    ensures a == b
    decreases |a|
  {
    assert |a| == |multiset(a)| == |multiset(b)| == |b|;
    if a != [] {
      assert a[0] in multiset(b);
      assert b[0] in multiset(a);
      assert a[0] == b[0];
      assert a == [a[0]] + a[1..];
      assert b == [b[0]] + b[1..];
      assert multiset(a[1..]) == multiset(a) - multiset{a[0]};
      assert multiset(b[1..]) == multiset(b) - multiset{b[0]};
      SortedUnique(a[1..], b[1..]);
    }
  }

  /** Sorting an ascending sequence leaves it as it is. */
  lemma SortSeqOfSorted(s: seq<int>)
    requires Sorted(s)
    ensures SortSeq(s) == s
  {
    SortedUnique(SortSeq(s), s);
  }

  /** Two duplicate-free ascending sequences with the same values are equal. */
  lemma {:induction false} StrictlySortedUnique(a: seq<int>, b: seq<int>)
    requires StrictlySorted(a) && StrictlySorted(b)
    requires Elems(a) == Elems(b)
    ensures a == b
    decreases |a|
  {
    assert a != [] ==> a[0] in Elems(a);
    assert b != [] ==> b[0] in Elems(b);
    if a != [] {
      assert a[0] in Elems(b);
      assert b[0] in Elems(a);
      assert a[0] == b[0];
      assert Elems(a[1..]) == Elems(a) - {a[0]} by {
        assert a == [a[0]] + a[1..];
      }
      assert Elems(b[1..]) == Elems(b) - {b[0]} by {
        assert b == [b[0]] + b[1..];
      }
      StrictlySortedUnique(a[1..], b[1..]);
    }
  }

  /** Inserting a new value into a duplicate-free ascending sequence keeps
      it duplicate-free. */
  lemma {:induction false} InsertStrict(x: int, s: seq<int>)
    requires StrictlySorted(s) && x !in s
    ensures StrictlySorted(Insert(x, s))
    decreases |s|
  {
    if s != [] {
      assert s == [s[0]] + s[1..];
      StrictlySortedCons(s[0], s[1..]);
      ElemsCons(s[0], s[1..]);
      if x <= s[0] {
        StrictlySortedCons(x, s);
      } else {
        InsertStrict(x, s[1..]);
        var t := Insert(x, s[1..]);
        StrictlySortedCons(s[0], t);
        forall y | y in Elems(t) ensures s[0] < y {
          assert y in multiset(t);
          assert y == x || y in Elems(s[1..]);
        }
      }
    }
  }

  /** A sequence in which no value occurs twice, ascending, is strictly
      ascending. */
  lemma SortedSimpleIsStrict(s: seq<int>)
    requires Sorted(s)
    requires forall x :: multiset(s)[x] <= 1
    ensures StrictlySorted(s)
  {
    forall i, j | 0 <= i < j < |s| ensures s[i] != s[j] {
      assert s == s[..j] + s[j..];
      assert s[..j][i] == s[i];
      assert s[j..][0] == s[j];
      assert multiset(s)[s[j]] == multiset(s[..j])[s[j]] + multiset(s[j..])[s[j]];
    }
  }
}
