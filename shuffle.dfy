/** Question shuffle and choice shuffle (client/src/hooks/use-quiz.ts:41-43,
    78-80, 209-210, 232-249). The random order `shuffleArray` produces is an
    argument here: a permutation of the positions. */
module Shuffle {
  import opened QuizTypes
  import opened Sorting
  import opened Scoring

  /** The positions 0, 1, ..., n - 1: `q.choices.map((_, idx) => idx)`. */
  function Iota(n: nat): seq<int> {
    seq(n, i => i)
  }

  /** `perm` holds every position below `n` exactly once. */
  predicate IsPermutation(perm: seq<int>, n: nat) {
    multiset(perm) == multiset(Iota(n))
  }

  /** Every index in `idx` is a position of a sequence of length `n`. */
  predicate IndicesBelow(idx: seq<int>, n: nat) {
    forall j :: 0 <= j < |idx| ==> 0 <= idx[j] < n
  }

  /** A permutation of n positions has length n, holds only positions below
      n, and holds each of them. */
  lemma PermutationFacts(perm: seq<int>, n: nat)
    requires IsPermutation(perm, n)
    ensures |perm| == n
    ensures IndicesBelow(perm, n)
    ensures forall k :: 0 <= k < n ==> k in perm
  {
    assert |perm| == |multiset(perm)| == |multiset(Iota(n))| == |Iota(n)|;
    forall j | 0 <= j < |perm| ensures 0 <= perm[j] < n {
      assert perm[j] in multiset(perm);
      assert perm[j] in Iota(n);
    }
    forall k | 0 <= k < n ensures k in perm {
      assert Iota(n)[k] == k;
      assert k in multiset(Iota(n));
    }
  }

  /** `idx.map((i) => xs[i])`: the elements of `xs` at the given positions. */
  function Pick<T>(xs: seq<T>, idx: seq<int>): seq<T>
    requires IndicesBelow(idx, |xs|)
  {
    seq(|idx|, j requires 0 <= j < |idx| => xs[idx[j]])
  }

  lemma PickAppend<T>(xs: seq<T>, a: seq<int>, b: seq<int>)
    requires IndicesBelow(a, |xs|) && IndicesBelow(b, |xs|)
    ensures IndicesBelow(a + b, |xs|)
    ensures Pick(xs, a + b) == Pick(xs, a) + Pick(xs, b)
  {
    assert IndicesBelow(a + b, |xs|) by {
      forall j | 0 <= j < |a + b| ensures 0 <= (a + b)[j] < |xs| {
        if j >= |a| { assert (a + b)[j] == b[j - |a|]; }
      }
    }
  }

  /** Taking position `j` out of `p`. */
  lemma PickRemove<T>(xs: seq<T>, p: seq<int>, j: nat)
    requires IndicesBelow(p, |xs|) && j < |p|
    ensures IndicesBelow(p[..j] + p[j + 1..], |xs|)
    ensures multiset(p[..j] + p[j + 1..]) == multiset(p) - multiset{p[j]}
    ensures multiset(Pick(xs, p)) == multiset(Pick(xs, p[..j] + p[j + 1..])) + multiset{xs[p[j]]}
  {
    var front, back := p[..j], p[j + 1..];
    assert IndicesBelow(front, |xs|) && IndicesBelow(back, |xs|) && IndicesBelow([p[j]], |xs|);
    assert p == front + ([p[j]] + back);
    PickAppend(xs, [p[j]], back);
    PickAppend(xs, front, [p[j]] + back);
    PickAppend(xs, front, back);
    assert Pick(xs, [p[j]]) == [xs[p[j]]];
  }

  /** Picking by two rearrangements of the same positions picks the same
      elements, each as often. */
  lemma {:induction false} PickRespectsMultiset<T>(xs: seq<T>, p1: seq<int>, p2: seq<int>)
    requires IndicesBelow(p1, |xs|) && IndicesBelow(p2, |xs|)
    requires multiset(p1) == multiset(p2)
    ensures multiset(Pick(xs, p1)) == multiset(Pick(xs, p2))
    decreases |p1|
  {
    if p1 != [] {
      var x := p1[0];
      assert x in multiset(p2);
      var j := IndexOf(p2, x);
      var rest1, rest2 := p1[1..], p2[..j] + p2[j + 1..];
      calc {
        multiset(Pick(xs, p1));
        { PickRemove(xs, p1, 0); assert p1[..0] + p1[1..] == rest1; }
        multiset(Pick(xs, rest1)) + multiset{xs[x]};
        { PickRemove(xs, p1, 0);
          assert p1[..0] + p1[1..] == rest1;
          PickRemove(xs, p2, j);
          PickRespectsMultiset(xs, rest1, rest2); }
        multiset(Pick(xs, rest2)) + multiset{xs[x]};
        { PickRemove(xs, p2, j); }
        multiset(Pick(xs, p2));
      }
    } else {
      assert multiset(p2) == multiset{};
    }
  }

  /** `shuffleArray(xs)`: a reordering that keeps every element, each as
      often as before. */
  lemma PermuteKeepsElements<T>(xs: seq<T>, perm: seq<int>)
    requires IsPermutation(perm, |xs|)
    ensures IndicesBelow(perm, |xs|)
    ensures |Pick(xs, perm)| == |xs|
    ensures multiset(Pick(xs, perm)) == multiset(xs)
  {
    PermutationFacts(perm, |xs|);
    PickRespectsMultiset(xs, perm, Iota(|xs|));
    assert Pick(xs, Iota(|xs|)) == xs;
  }

  /** `perm.indexOf(k)`: the first position holding `k`, or -1. */
  function IndexOf(perm: seq<int>, k: int): (r: int)
    ensures -1 <= r < |perm|
    ensures r == -1 <==> k !in perm
    ensures r >= 0 ==> perm[r] == k && forall j :: 0 <= j < r ==> perm[j] != k
  {
    if perm == [] then -1
    else if perm[0] == k then 0
    else
      var t := IndexOf(perm[1..], k);
      assert perm == [perm[0]] + perm[1..];
      if t == -1 then -1 else t + 1
  }

  /** `ks.map((oldIdx) => perm.indexOf(oldIdx))`. */
  function RemapIndices(perm: seq<int>, ks: seq<int>): seq<int> {
    seq(|ks|, i requires 0 <= i < |ks| => IndexOf(perm, ks[i]))
  }

  /** The new `answer` of a question whose choices are reordered by `perm`:
      a single index is looked up in `perm`; an array is looked up element by
      element and then sorted ascending. */
  function RemapAnswer(perm: seq<int>, a: Answer): Answer {
    match a
    case Single(k) => Single(IndexOf(perm, k))
    case Multi(ks) => Multi(SortSeq(RemapIndices(perm, ks)))
  }

  /** One question after `shuffleChoices`, its choices reordered by `perm`. */
  function ShuffleQuestion(q: Question, perm: seq<int>): Question
    requires IsPermutation(perm, |q.choices|)
  {
    PermutationFacts(perm, |q.choices|);
    q.(choices := Pick(q.choices, perm), answer := RemapAnswer(perm, q.answer))
  }

  /** Reordering the choices keeps every other field, and keeps the choices
      themselves, each as often as before. */
  lemma ShuffleQuestionKeepsRecord(q: Question, perm: seq<int>)
    requires IsPermutation(perm, |q.choices|)
    ensures var r := ShuffleQuestion(q, perm);
      r.id == q.id && r.prompt == q.prompt && r.kind == q.kind
      && r.category == q.category && r.image == q.image
      && r.answer.Single? == q.answer.Single?
      && |r.choices| == |q.choices|
      && multiset(r.choices) == multiset(q.choices)
  {
    PermuteKeepsElements(q.choices, perm);
  }

  /** A single answer that names a choice still names the same choice text
      after the shuffle; one that names no choice becomes -1. */
  lemma SingleAnswerFollowsItsChoice(q: Question, perm: seq<int>)
    requires IsPermutation(perm, |q.choices|)
    requires q.answer.Single?
    ensures var r := ShuffleQuestion(q, perm);
      var k := q.answer.index;
      r.answer.Single?
      && (0 <= k < |q.choices| ==>
            0 <= r.answer.index < |r.choices| && r.choices[r.answer.index] == q.choices[k])
      && (!(0 <= k < |q.choices|) ==> r.answer.index == -1)
  {
    PermutationFacts(perm, |q.choices|);
  }

  /** Looked up in `perm`, an index of the original choices names the same
      choice among the reordered ones. */
  lemma RemapIndicesFollowChoices(choices: seq<string>, perm: seq<int>, ks: seq<int>)
    requires IsPermutation(perm, |choices|)
    requires IndicesBelow(ks, |choices|)
    ensures |perm| == |choices| && IndicesBelow(perm, |choices|)
    ensures IndicesBelow(RemapIndices(perm, ks), |choices|)
    ensures Pick(Pick(choices, perm), RemapIndices(perm, ks)) == Pick(choices, ks)
  {
    PermutationFacts(perm, |choices|);
  }

  /** Sorting keeps indices that name choices naming choices. */
  lemma SortKeepsIndicesBelow(m: seq<int>, n: nat)
    requires IndicesBelow(m, n)
    ensures IndicesBelow(SortSeq(m), n)
  {
    var sorted := SortSeq(m);
    forall j | 0 <= j < |sorted| ensures 0 <= sorted[j] < n {
      assert sorted[j] in multiset(m);
    }
  }

  /** An answer array that names choices is rewritten into an ascending
      array of the same length that names the same choice texts, each as
      often as before. */
  lemma MultiAnswerFollowsItsChoices(q: Question, perm: seq<int>)
    requires IsPermutation(perm, |q.choices|)
    requires q.answer.Multi? && IndicesBelow(q.answer.indices, |q.choices|)
    ensures var r := ShuffleQuestion(q, perm);
      r.answer.Multi?
      && Sorted(r.answer.indices)
      && |r.answer.indices| == |q.answer.indices|
      && IndicesBelow(r.answer.indices, |r.choices|)
      && multiset(Pick(r.choices, r.answer.indices)) == multiset(Pick(q.choices, q.answer.indices))
  {
    var n := |q.choices|;
    var ks := q.answer.indices;
    var m := RemapIndices(perm, ks);
    RemapIndicesFollowChoices(q.choices, perm, ks);
    SortKeepsIndicesBelow(m, n);
    var newChoices := Pick(q.choices, perm);
    assert |newChoices| == |perm| == n;
    var sorted := SortSeq(m);
    assert ShuffleQuestion(q, perm) == q.(choices := newChoices, answer := Multi(sorted));
    assert |sorted| == |multiset(sorted)| == |multiset(m)| == |m|;
    PickRespectsMultiset(newChoices, sorted, m);
  }

  /** A selection re-expressed in the shuffled index space: the same choice
      texts, at their new positions. */
  function RemapSelection(perm: seq<int>, sel: Selection): Selection {
    match sel
    case Index(i) => Index(IndexOf(perm, i))
    case Indices(s) => Indices(RemapIndices(perm, s))
    case _ => sel
  }

  /** Every index a selection holds names one of `n` choices. */
  predicate SelectionBelow(sel: Selection, n: nat) {
    (sel.Index? ==> 0 <= sel.index < n) && (sel.Indices? ==> IndicesBelow(sel.indices, n))
  }

  /** Every index an answer holds names one of `n` choices. */
  predicate AnswerBelow(a: Answer, n: nat) {
    (a.Single? ==> 0 <= a.index < n) && (a.Multi? ==> IndicesBelow(a.indices, n))
  }

  /** Looking indices up in a permutation maps equal sets to equal sets and
      different sets to different sets. */
  lemma RemapElemsIff(perm: seq<int>, n: nat, s: seq<int>, ks: seq<int>)
    requires IsPermutation(perm, n)
    requires IndicesBelow(s, n) && IndicesBelow(ks, n)
    ensures Elems(RemapIndices(perm, s)) == Elems(RemapIndices(perm, ks)) <==> Elems(s) == Elems(ks)
  {
    PermutationFacts(perm, n);
    var a := RemapIndices(perm, s);
    var b := RemapIndices(perm, ks);
    if Elems(s) == Elems(ks) {
      forall x | x in Elems(a) ensures x in Elems(b) {
        var i :| 0 <= i < |a| && a[i] == x;
        assert s[i] in Elems(ks);
        var j :| 0 <= j < |ks| && ks[j] == s[i];
        assert b[j] == x;
      }
      forall x | x in Elems(b) ensures x in Elems(a) {
        var j :| 0 <= j < |b| && b[j] == x;
        assert ks[j] in Elems(s);
        var i :| 0 <= i < |s| && s[i] == ks[j];
        assert a[i] == x;
      }
    }
    if Elems(a) == Elems(b) {
      forall y | y in Elems(s) ensures y in Elems(ks) {
        var i :| 0 <= i < |s| && s[i] == y;
        assert a[i] in Elems(b);
        var j :| 0 <= j < |b| && b[j] == a[i];
        assert perm[a[i]] == y && perm[b[j]] == ks[j];
      }
      forall y | y in Elems(ks) ensures y in Elems(s) {
        var j :| 0 <= j < |ks| && ks[j] == y;
        assert b[j] in Elems(a);
        var i :| 0 <= i < |a| && a[i] == b[j];
        assert perm[a[i]] == s[i] && perm[b[j]] == y;
      }
    }
  }

  /** Correctness is unchanged when both the selection and the answer are
      looked up in the same permutation. */
  lemma RemapKeepsCorrect(sel: Selection, q: Question, perm: seq<int>, n: nat)
    requires IsPermutation(perm, n)
    requires SelectionBelow(sel, n) && AnswerBelow(q.answer, n)
    ensures Correct(RemapSelection(perm, sel), q.(answer := RemapAnswer(perm, q.answer))) == Correct(sel, q)
  {
    PermutationFacts(perm, n);
    if IsMultiAnswer(q) && sel.Indices? && q.answer.Multi? {
      var m := RemapIndices(perm, q.answer.indices);
      assert Elems(SortSeq(m)) == Elems(m) by {
        forall x ensures x in SortSeq(m) <==> x in m {
          assert x in SortSeq(m) <==> x in multiset(SortSeq(m));
        }
      }
      RemapElemsIff(perm, n, sel.indices, q.answer.indices);
    } else if !IsMultiAnswer(q) && sel.Index? && q.answer.Single? {
      var i, k := sel.index, q.answer.index;
      assert perm[IndexOf(perm, i)] == i && perm[IndexOf(perm, k)] == k;
    }
  }

  /** Shuffling the choices never changes whether a selection is correct:
      picking the same choice texts in the shuffled question scores exactly
      what picking them in the original did. */
  lemma ShufflePreservesPoints(sel: Selection, q: Question, perm: seq<int>)
    requires IsPermutation(perm, |q.choices|)
    requires SelectionBelow(sel, |q.choices|) && AnswerBelow(q.answer, |q.choices|)
    ensures Points(RemapSelection(perm, sel), ShuffleQuestion(q, perm)) == Points(sel, q)
  {
    var r := ShuffleQuestion(q, perm);
    var rs := RemapSelection(perm, sel);
    RemapKeepsCorrect(sel, q, perm, |q.choices|);
    assert Correct(rs, r) == Correct(rs, q.(answer := RemapAnswer(perm, q.answer)));
    PointsIffCorrect(sel, q);
    PointsIffCorrect(rs, r);
  }

  /** The choices ["A", "B", "C"] with answer 1 ("B"), reversed, become
      ["C", "B", "A"] with answer 1. */
  lemma ReversedChoicesExample()
    ensures var q := Question(1, "Pick B", ["A", "B", "C"], Single(1), MultipleChoice, "letters", None);
      IsPermutation([2, 1, 0], 3)
      && ShuffleQuestion(q, [2, 1, 0]).choices == ["C", "B", "A"]
      && ShuffleQuestion(q, [2, 1, 0]).answer == Single(1)
  {
    assert Iota(3) == [0, 1, 2];
    assert multiset([2, 1, 0]) == multiset([0, 1, 2]);
    var q := Question(1, "Pick B", ["A", "B", "C"], Single(1), MultipleChoice, "letters", None);
    assert Pick(q.choices, [2, 1, 0]) == ["C", "B", "A"];
    assert IndexOf([2, 1, 0], 1) == 1;
  }
}
