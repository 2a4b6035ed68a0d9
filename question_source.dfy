/** The all-categories path of the question fetch
    (client/src/hooks/use-quiz.ts:51-63), with the network replaced by the
    outcome of each category's fetch, in category-list order. */
module QuestionSource {
  import opened QuizTypes

  /** What fetching one category file produced. */
  datatype Fetch = Loaded(questions: seq<Question>) | Failed

  /** The questions of the loaded categories, concatenated in order. */
  function Aggregate(results: seq<Fetch>): seq<Question> {
    if results == [] then []
    else
      var last := results[|results| - 1];
      Aggregate(results[..|results| - 1]) + (if last.Loaded? then last.questions else [])
  }

  /** Aggregating a concatenation of fetch outcomes concatenates the two
      aggregates: each category contributes on its own. */
  lemma {:induction false} AggregateAppend(a: seq<Fetch>, b: seq<Fetch>)
    ensures Aggregate(a + b) == Aggregate(a) + Aggregate(b)
    decreases |b|
  {
    if b == [] {
      assert a + b == a;
    } else {
      var n := |b| - 1;
      assert (a + b)[..|a + b| - 1] == a + b[..n];
      AggregateAppend(a, b[..n]);
    }
  }

  /** A category that fails to load is skipped: the others' questions are
      all there, in the same order. */
  lemma SkipsFailedCategory(before: seq<Fetch>, after: seq<Fetch>)
    ensures Aggregate(before + [Failed] + after) == Aggregate(before + after)
  {
    AggregateAppend(before, [Failed]);
    AggregateAppend(before + [Failed], after);
    AggregateAppend(before, after);
    assert Aggregate([Failed]) == [] by {
      assert [Failed][..0] == [];
    }
  }

  /** The loop over the category list, pushing each loaded file's
      questions onto `allQuestions`; a failed fetch is skipped. */
  method AggregateAll(results: seq<Fetch>) returns (allQuestions: seq<Question>)
    ensures allQuestions == Aggregate(results)
  {
    allQuestions := [];
    for i := 0 to |results|
      invariant allQuestions == Aggregate(results[..i])
    {
      assert results[..i + 1][..i] == results[..i];
      if results[i].Loaded? {
        allQuestions := allQuestions + results[i].questions;
      }
    }
    assert results[..|results|] == results;
  }
}
