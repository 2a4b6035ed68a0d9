/** What `selectAnswer` stores (client/src/hooks/use-quiz.ts:98-120): the
    multi-answer toggle and the write into a copy of the selections array. */
module Selecting {
  import opened QuizTypes
  import opened Sorting

  /** `current.filter((i) => i !== x)`. */
  function Without(s: seq<int>, x: int): (r: seq<int>)
    ensures Elems(r) == Elems(s) - {x}
    ensures multiset(r) == multiset(s)[x := 0]
    ensures Sorted(s) ==> Sorted(r)
    ensures StrictlySorted(s) ==> StrictlySorted(r)
  {
    if s == [] then []
    else
      var t := Without(s[1..], x);
      WithoutValues(s, x, t);
      WithoutOrder(s, x, t);
      if s[0] == x then t else [s[0]] + t
  }

  /** One step of the filter, on the values kept. */
  lemma WithoutValues(s: seq<int>, x: int, t: seq<int>)
    requires s != []
    requires Elems(t) == Elems(s[1..]) - {x}
    requires multiset(t) == multiset(s[1..])[x := 0]
    ensures var r := if s[0] == x then t else [s[0]] + t;
      Elems(r) == Elems(s) - {x} && multiset(r) == multiset(s)[x := 0]
  {
    assert s == [s[0]] + s[1..];
    ElemsCons(s[0], s[1..]);
    ElemsCons(s[0], t);
    assert multiset(s) == multiset{s[0]} + multiset(s[1..]);
    assert multiset([s[0]] + t) == multiset{s[0]} + multiset(t);
  }

  /** One step of the filter, on the order of what is kept. */
  lemma WithoutOrder(s: seq<int>, x: int, t: seq<int>)
    requires s != []
    requires Elems(t) == Elems(s[1..]) - {x}
    requires Sorted(s[1..]) ==> Sorted(t)
    requires StrictlySorted(s[1..]) ==> StrictlySorted(t)
    ensures var r := if s[0] == x then t else [s[0]] + t;
      (Sorted(s) ==> Sorted(r)) && (StrictlySorted(s) ==> StrictlySorted(r))
  {
    assert s == [s[0]] + s[1..];
    SortedCons(s[0], s[1..]);
    SortedCons(s[0], t);
    StrictlySortedCons(s[0], s[1..]);
    StrictlySortedCons(s[0], t);
  }

  /** The multi-answer toggle: an index already selected is removed,
      otherwise it is appended and the array sorted ascending. */
  function Toggle(current: seq<int>, x: int): (r: seq<int>)
    ensures Elems(r) == if x in current then Elems(current) - {x} else Elems(current) + {x}
    ensures x !in current ==> Sorted(r)
    ensures Sorted(current) ==> Sorted(r)
  {
    if x in current then Without(current, x)
    else
      var r := SortSeq(current + [x]);
      assert forall y :: y in r <==> y in multiset(r);
      r
  }

  /** A duplicate-free ascending selection stays duplicate-free and
      ascending under the toggle. */
  lemma ToggleKeepsStrict(current: seq<int>, x: int)
    requires StrictlySorted(current)
    ensures StrictlySorted(Toggle(current, x))
  {
    if x !in current {
      assert (current + [x])[..|current|] == current;
      SortSeqOfSorted(current);
      InsertStrict(x, current);
    }
  }

  /** Toggling the same index twice restores a duplicate-free ascending
      selection. */
  lemma ToggleTwice(current: seq<int>, x: int)
    requires StrictlySorted(current)
    ensures Toggle(Toggle(current, x), x) == current
  {
    ToggleKeepsStrict(current, x);
    ToggleKeepsStrict(Toggle(current, x), x);
    StrictlySortedUnique(Toggle(Toggle(current, x), x), current);
  }

  /** The question `questions[i]`, or none past the end (`q?.type`). */
  function QuestionAt(questions: seq<Question>, i: nat): (q: Option<Question>)
    ensures q.Some? <==> i < |questions|
    ensures q.Some? ==> q.value == questions[i]
  {
    if i < |questions| then Some(questions[i]) else None
  }

  /** Reading slot `i` of a JavaScript array: past the end it is undefined. */
  function SlotAt(a: seq<Selection>, i: nat): Selection {
    if i < |a| then a[i] else Hole
  }

  /** `updated[i] = v` on a JavaScript array: past the end the array grows
      to `i + 1` and the slots in between are holes. */
  function WriteSlot(a: seq<Selection>, i: nat, v: Selection): (r: seq<Selection>)
    ensures |r| == if i < |a| then |a| else i + 1
    ensures SlotAt(r, i) == v
    ensures forall j :: 0 <= j < |a| && j != i ==> r[j] == a[j]
    ensures forall j :: |a| <= j < i ==> r[j] == Hole
  {
    if i < |a| then a[i := v]
    else a + seq(i - |a|, _ => Hole) + [v]
  }

  /** The value `selectAnswer(x)` writes into the current slot, given the
      current question (if any) and what the slot holds. */
  function NextSelection(q: Option<Question>, slot: Selection, x: int): Selection {
    if q.Some? && IsMultiAnswer(q.value) then
      Indices(Toggle(if slot.Indices? then slot.indices else [], x))
    else
      Index(x)
  }

  /** On a multi-answer question the slot becomes an array holding the
      previous array's indices with `x` flipped in or out (a non-array slot
      counts as empty); on any other question, or with no question, it
      becomes exactly `x`. */
  lemma NextSelectionMeaning(q: Option<Question>, slot: Selection, x: int)
    ensures var r := NextSelection(q, slot, x);
      var before := if slot.Indices? then Elems(slot.indices) else {};
      if q.Some? && IsMultiAnswer(q.value) then
        r.Indices?
        && Elems(r.indices) == (if x in before then before - {x} else before + {x})
      else
        r == Index(x)
  {
    if slot.Indices? {
      assert x in Elems(slot.indices) <==> x in slot.indices;
    }
  }

  /** Selecting the same index twice on a multi-answer question returns a
      duplicate-free ascending array selection to what it was, and turns an
      unset slot into an empty array, not back into `null`. */
  lemma SelectTwice(q: Question, slot: Selection, x: int)
    requires IsMultiAnswer(q)
    requires slot.Indices? ==> StrictlySorted(slot.indices)
    ensures var twice := NextSelection(Some(q), NextSelection(Some(q), slot, x), x);
      twice == if slot.Indices? then slot else Indices([])
  {
    var current := if slot.Indices? then slot.indices else [];
    ToggleTwice(current, x);
  }
}
