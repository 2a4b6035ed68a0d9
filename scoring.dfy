/** The scoring engine: `calculateScore` and its helper `uniqueSorted`
    (client/src/hooks/use-quiz.ts:163-206). */
module Scoring {
  import opened QuizTypes
  import opened Sorting

  /** The values of `s` in order of first occurrence: what the `seen` loop
      of `uniqueSorted` pushes to `out`. */
  function Dedup(s: seq<int>): (r: seq<int>)
    ensures multiset(r) == multiset(Elems(s))
  {
    if s == [] then []
    else
      var prefix := s[..|s| - 1];
      var v := s[|s| - 1];
      var d := Dedup(prefix);
      assert Elems(s) == Elems(prefix) + {v} by {
        assert s == prefix + [v];
      }
      assert v in d <==> v in multiset(Elems(prefix));
      if v in d then d else d + [v]
  }

  lemma DedupSnoc(s: seq<int>, v: int)
    ensures Dedup(s + [v]) == if v in Dedup(s) then Dedup(s) else Dedup(s) + [v]
  {
    assert (s + [v])[..|s|] == s;
  }

  /** One step of the `seen` loop over `arr`: a value already seen leaves
      `out` as it is, a new one is appended and recorded. */
  lemma SeenStep(arr: seq<int>, i: nat, out: seq<int>, seen: set<int>)
    requires i < |arr| && out == Dedup(arr[..i]) && seen == Elems(out)
    ensures arr[i] in seen ==> Dedup(arr[..i + 1]) == out
    ensures arr[i] !in seen ==>
      Dedup(arr[..i + 1]) == out + [arr[i]] && seen + {arr[i]} == Elems(out + [arr[i]])
  {
    assert arr[..i + 1] == arr[..i] + [arr[i]];
    DedupSnoc(arr[..i], arr[i]);
    ElemsSnoc(out, arr[i]);
  }

  /** `uniqueSorted(arr)`: the distinct values of `arr`, ascending. */
  function Normalize(s: seq<int>): seq<int> {
    SortSeq(Dedup(s))
  }

  /** The normal form is duplicate-free, ascending, and holds exactly the
      values of its input. */
  lemma NormalizeMeaning(s: seq<int>)
    ensures StrictlySorted(Normalize(s))
    ensures Elems(Normalize(s)) == Elems(s)
  {
    var r := Normalize(s);
    assert multiset(r) == multiset(Elems(s));
    SortedSimpleIsStrict(r);
    forall x ensures x in r <==> x in Elems(s) {
      assert x in r <==> x in multiset(r);
    }
  }

  /** Two arrays normalise alike exactly when they hold the same values:
      order and duplicates do not matter. */
  lemma NormalizeEqualIff(a: seq<int>, b: seq<int>)
    ensures Normalize(a) == Normalize(b) <==> Elems(a) == Elems(b)
  {
    NormalizeMeaning(a);
    NormalizeMeaning(b);
    if Elems(a) == Elems(b) {
      StrictlySortedUnique(Normalize(a), Normalize(b));
    }
  }

  /** `uniqueSorted`: a `seen` table filters repeats into `out`, which is
      then sorted ascending. `Array.prototype.sort` is taken by its
      specification, the ascending arrangement. */
  method UniqueSorted(arr: seq<int>) returns (out: seq<int>)
    ensures out == Normalize(arr)
  {
    var seen: set<int> := {};
    out := [];
    for i := 0 to |arr|
      invariant out == Dedup(arr[..i])
      invariant seen == Elems(out)
    {
      var v := arr[i];
      SeenStep(arr, i, out, seen);
      if v in seen {
        continue;
      }
      seen := seen + {v};
      out := out + [v];
    }
    assert arr[..|arr|] == arr;
    out := SortSeq(out);
  }

  /** The length check and the element-by-element loop that compare the two
      normal forms. */
  method SameElements(a: seq<int>, b: seq<int>) returns (same: bool)
    ensures same <==> a == b
  {
    if |a| != |b| {
      return false;
    }
    for j := 0 to |a|
      invariant forall k :: 0 <= k < j ==> a[k] == b[k]
    {
      if a[j] != b[j] {
        return false;
      }
    }
    return true;
  }

  /** What one question adds to the score. */
  function Points(ans: Selection, q: Question): nat {
    if IsMultiAnswer(q) then
      if ans.Indices? && q.answer.Multi? && Normalize(ans.indices) == Normalize(q.answer.indices)
      then 1 else 0
    else
      if ans.Index? && q.answer.Single? && ans.index == q.answer.index
      then 1 else 0
  }

  /** A selection is correct when it has the answer's shape and, for a
      multi-answer question, picks exactly the set of correct indices; for any
      other question, exactly the correct index. */
  predicate Correct(ans: Selection, q: Question) {
    if IsMultiAnswer(q) then
      ans.Indices? && q.answer.Multi? && Elems(ans.indices) == Elems(q.answer.indices)
    else
      ans.Index? && q.answer == Single(ans.index)
  }

  /** A question adds exactly one point when its selection is correct, and
      nothing otherwise: no partial credit, no error on a shape mismatch. */
  lemma PointsIffCorrect(ans: Selection, q: Question)
    ensures Points(ans, q) == if Correct(ans, q) then 1 else 0
  {
    if ans.Indices? && q.answer.Multi? {
      NormalizeEqualIff(ans.indices, q.answer.indices);
    }
  }

  /** The score of `answers` against `questions`: the reduce over the
      answers, skipping those with no question at their index. */
  function Score(answers: seq<Selection>, questions: seq<Question>): (s: nat)
    ensures s <= |answers| && s <= |questions|
  {
    if answers == [] then 0
    else
      var i := |answers| - 1;
      Score(answers[..i], questions)
        + (if i < |questions| then Points(answers[i], questions[i]) else 0)
  }

  /** The indices that have both a selection and a question, and whose
      selection is correct. */
  function CorrectIndices(answers: seq<Selection>, questions: seq<Question>): set<nat> {
    set i: nat | i < |answers| && i < |questions| && Correct(answers[i], questions[i])
  }

  lemma CorrectIndicesStep(answers: seq<Selection>, questions: seq<Question>)
    requires answers != []
    ensures var i := |answers| - 1;
      CorrectIndices(answers, questions)
        == CorrectIndices(answers[..i], questions)
           + (if i < |questions| && Correct(answers[i], questions[i]) then {i} else {})
  {
    var i := |answers| - 1;
    forall k: nat | k < i
      ensures answers[..i][k] == answers[k]
    {
    }
  }

  /** The score counts the correctly answered questions. */
  lemma {:induction false} ScoreCountsCorrect(answers: seq<Selection>, questions: seq<Question>)
    ensures Score(answers, questions) == |CorrectIndices(answers, questions)|
    decreases |answers|
  {
    if answers != [] {
      var i := |answers| - 1;
      ScoreCountsCorrect(answers[..i], questions);
      if i < |questions| {
        PointsIffCorrect(answers[i], questions[i]);
      }
      CorrectIndicesStep(answers, questions);
      assert i !in CorrectIndices(answers[..i], questions);
    }
  }

  /** `calculateScore(answers, questions)`. */
  method CalculateScore(answers: seq<Selection>, questions: seq<Question>) returns (score: nat)
    ensures score == Score(answers, questions)
  {
    score := 0;
    for i := 0 to |answers|
      invariant score == Score(answers[..i], questions)
    {
      assert answers[..i + 1][..i] == answers[..i];
      var ans := answers[i];
      if i >= |questions| {
        continue;
      }
      var q := questions[i];
      if IsMultiAnswer(q) {
        if !ans.Indices? || !q.answer.Multi? {
          continue;
        }
        var aNorm := UniqueSorted(ans.indices);
        var bNorm := UniqueSorted(q.answer.indices);
        var same := SameElements(aNorm, bNorm);
        if same {
          score := score + 1;
        }
      } else if ans.Index? && q.answer.Single? && ans.index == q.answer.index {
        score := score + 1;
      }
    }
    assert answers[..|answers|] == answers;
  }
}
