/** The quiz session the `useQuiz` hook holds (client/src/hooks/use-quiz.ts:14-39),
    its actions and the values it derives for the screen. Each action is a
    method that updates the session in place; what the hook reads from its
    surroundings (the fetched data, the shuffle preference, the clock, the
    random order) is passed in. */
module Session {
  import opened QuizTypes
  import opened Sorting
  import opened Scoring
  import opened Selecting
  import opened Shuffle

  /** `new Array(n).fill(null)`. */
  function Nulls(n: nat): seq<Selection> {
    seq(n, _ => Null)
  }

  /** `queryResult.data ?? []`. */
  function OrEmpty(data: Option<seq<Question>>): seq<Question> {
    if data.Some? then data.value else []
  }

  /** The list the load effect and `resetQuiz` install: the fetched list, or
      its reordering by `perm` when the shuffle preference is on. Either way
      it holds the fetched questions, each as often as fetched. */
  function Prepared(data: seq<Question>, shuffled: bool, perm: seq<int>): (r: seq<Question>)
    requires shuffled ==> IsPermutation(perm, |data|)
    ensures |r| == |data|
    ensures multiset(r) == multiset(data)
  {
    if shuffled then
      PermuteKeepsElements(data, perm);
      Pick(data, perm)
    else
      data
  }

  /** One permutation of the choice positions per question. */
  predicate ChoicePermutations(questions: seq<Question>, perms: seq<seq<int>>) {
    |perms| == |questions|
    && forall i :: 0 <= i < |questions| ==> IsPermutation(perms[i], |questions[i].choices|)
  }

  /** `quizState.questions.map(...)` in `shuffleChoices`. */
  function ShuffleAll(questions: seq<Question>, perms: seq<seq<int>>): seq<Question>
    requires ChoicePermutations(questions, perms)
  {
    seq(|questions|, i requires 0 <= i < |questions| => ShuffleQuestion(questions[i], perms[i]))
  }

  /** `Math.max(0, index - 1)`: where `previousQuestion` moves the pointer. */
  function PreviousIndex(index: nat): (r: nat)
    ensures r <= index
    ensures index > 0 ==> r + 1 == index
  {
    if index == 0 then 0 else index - 1
  }

  /** `Math.round(index / count * 100)` for `count > 0`, in integers. */
  function Percent(index: nat, count: nat): (r: nat)
    requires count > 0
    ensures 2 * count * r <= 200 * index + count < 2 * count * r + 2 * count
    ensures index < count ==> r <= 100
  {
    var d := 2 * count;
    var n := 200 * index + count;
    var r := n / d;
    assert d * r + n % d == n;
    assert index < count ==> r <= 100 by {
      if index < count {
        assert n < d * 101;
        BelowProduct(d, r, 101);
      }
    }
    r
  }

  /** For a positive factor, a smaller product has a smaller co-factor. */
  lemma BelowProduct(d: int, a: int, b: int)
    requires d > 0 && d * a < d * b
    ensures a < b
  {
    assert d * (b - a) > 0;
  }

  class QuizSession {
    var currentQuestionIndex: nat
    var selectedAnswers: seq<Selection>
    var answeredQuestions: set<nat>
    var score: nat
    var startTime: Timestamp
    var endTime: Timestamp
    var isCompleted: bool
    var questions: seq<Question>

    /** What every action keeps: the session is completed exactly when it
        has an end time, and every array selection is duplicate-free and
        ascending. */
    ghost predicate Valid()
      reads this
    {
      (isCompleted <==> endTime.At?)
      && forall i :: 0 <= i < |selectedAnswers| && selectedAnswers[i].Indices? ==>
           StrictlySorted(selectedAnswers[i].indices)
    }

    /** The intended shape of a session: the pointer is inside the list (0
        for an empty list), there is one selection per question, and every
        answered index names a question. The hook does not enforce it. */
    ghost predicate WellFormed()
      reads this
    {
      currentQuestionIndex < (if |questions| == 0 then 1 else |questions|)
      && |selectedAnswers| == |questions|
      && forall i :: i in answeredQuestions ==> i < |questions|
    }

    /** The initial state of the hook. */
    constructor ()
      ensures Valid() && WellFormed()
      ensures currentQuestionIndex == 0 && selectedAnswers == [] && answeredQuestions == {}
      ensures score == 0 && startTime == NoTime && endTime == NoTime && !isCompleted
      ensures questions == []
    {
      currentQuestionIndex := 0;
      selectedAnswers := [];
      answeredQuestions := {};
      score := 0;
      startTime := NoTime;
      endTime := NoTime;
      isCompleted := false;
      questions := [];
    }

    /** The load effect: once the fetch has produced a list, installs it
        (reordered by `perm` when `shuffled`) with one `null` selection per
        question. The pointer and the answered set are left as they are. */
    method LoadQuestions(data: Option<seq<Question>>, shuffled: bool, perm: seq<int>)
      requires Valid()
      requires data.Some? && shuffled ==> IsPermutation(perm, |data.value|)
      modifies this
      ensures Valid()
      ensures data.None? ==> questions == old(questions) && selectedAnswers == old(selectedAnswers)
      ensures data.Some? ==> questions == Prepared(data.value, shuffled, perm)
      ensures data.Some? ==> selectedAnswers == Nulls(|questions|)
      ensures currentQuestionIndex == old(currentQuestionIndex)
      ensures answeredQuestions == old(answeredQuestions)
      ensures score == old(score) && isCompleted == old(isCompleted)
      ensures startTime == old(startTime) && endTime == old(endTime)
      ensures old(WellFormed()) && |questions| >= |old(questions)| ==> WellFormed()
    {
      if data.Some? {
        var prepared := Prepared(data.value, shuffled, perm);
        questions := prepared;
        selectedAnswers := Nulls(|prepared|);
      }
    }

    /** `startQuiz`: records the start time and returns to the first
        question. */
    method StartQuiz(now: int)
      requires Valid()
      modifies this
      ensures Valid()
      ensures startTime == At(now) && currentQuestionIndex == 0
      ensures questions == old(questions) && selectedAnswers == old(selectedAnswers)
      ensures answeredQuestions == old(answeredQuestions) && score == old(score)
      ensures endTime == old(endTime) && isCompleted == old(isCompleted)
      ensures old(WellFormed()) ==> WellFormed()
    {
      startTime := At(now);
      currentQuestionIndex := 0;
    }

    /** `selectAnswer(answerIndex)`: writes the current slot of a copy of
        the selections, toggling on a multi-answer question and overwriting
        otherwise. No lock is checked: an answered question changes too. */
    method SelectAnswer(answerIndex: int)
      requires Valid()
      modifies this
      ensures Valid()
      ensures selectedAnswers ==
        WriteSlot(old(selectedAnswers), currentQuestionIndex,
                  NextSelection(QuestionAt(questions, currentQuestionIndex),
                                SlotAt(old(selectedAnswers), currentQuestionIndex), answerIndex))
      ensures currentQuestionIndex == old(currentQuestionIndex) && questions == old(questions)
      ensures answeredQuestions == old(answeredQuestions) && score == old(score)
      ensures startTime == old(startTime) && endTime == old(endTime) && isCompleted == old(isCompleted)
      ensures old(WellFormed()) && |questions| > 0 ==> WellFormed()
    {
      var p := currentQuestionIndex;
      var q := QuestionAt(questions, p);
      var updated := selectedAnswers;
      if q.Some? && IsMultiAnswer(q.value) {
        var slot := SlotAt(updated, p);
        var current := if slot.Indices? then slot.indices else [];
        ToggleKeepsStrict(current, answerIndex);
        updated := WriteSlot(updated, p, Indices(Toggle(current, answerIndex)));
      } else {
        updated := WriteSlot(updated, p, Index(answerIndex));
      }
      selectedAnswers := updated;
    }

    /** `submitAnswer`: marks the current question answered. */
    method SubmitAnswer()
      requires Valid()
      modifies this
      ensures Valid()
      ensures answeredQuestions == old(answeredQuestions) + {currentQuestionIndex}
      ensures currentQuestionIndex == old(currentQuestionIndex) && questions == old(questions)
      ensures selectedAnswers == old(selectedAnswers) && score == old(score)
      ensures startTime == old(startTime) && endTime == old(endTime) && isCompleted == old(isCompleted)
      ensures old(WellFormed()) && |questions| > 0 ==> WellFormed()
    {
      answeredQuestions := answeredQuestions + {currentQuestionIndex};
    }

    /** `completeQuiz`: records the end time, scores the current selections
        and marks the session completed. */
    method CompleteQuiz(now: int)
      requires Valid()
      modifies this
      ensures Valid()
      ensures isCompleted && endTime == At(now) && score == Score(selectedAnswers, questions)
      ensures currentQuestionIndex == old(currentQuestionIndex) && questions == old(questions)
      ensures selectedAnswers == old(selectedAnswers) && answeredQuestions == old(answeredQuestions)
      ensures startTime == old(startTime)
      ensures old(WellFormed()) ==> WellFormed()
    {
      var s := CalculateScore(selectedAnswers, questions);
      endTime := At(now);
      score := s;
      isCompleted := true;
    }

    /** `nextQuestion`: moves to the next question, or, from the last
        position or beyond, completes the session without moving. */
    method NextQuestion(now: int)
      requires Valid()
      modifies this
      ensures Valid()
      ensures old(currentQuestionIndex) + 1 < |questions| ==>
        currentQuestionIndex == old(currentQuestionIndex) + 1
        && isCompleted == old(isCompleted) && endTime == old(endTime) && score == old(score)
      ensures old(currentQuestionIndex) + 1 >= |questions| ==>
        currentQuestionIndex == old(currentQuestionIndex)
        && isCompleted && endTime == At(now) && score == Score(selectedAnswers, questions)
      ensures questions == old(questions) && selectedAnswers == old(selectedAnswers)
      ensures answeredQuestions == old(answeredQuestions) && startTime == old(startTime)
      ensures old(WellFormed()) ==> WellFormed()
    {
      var nextIndex := currentQuestionIndex + 1;
      if nextIndex >= |questions| {
        CompleteQuiz(now);
        return;
      }
      currentQuestionIndex := nextIndex;
    }

    /** `previousQuestion`: moves back one question (not below the first)
        and reopens the question it lands on; its selection is kept. */
    method PreviousQuestion()
      requires Valid()
      modifies this
      ensures Valid()
      ensures currentQuestionIndex == PreviousIndex(old(currentQuestionIndex))
      ensures answeredQuestions == old(answeredQuestions) - {currentQuestionIndex}
      ensures questions == old(questions) && selectedAnswers == old(selectedAnswers)
      ensures score == old(score) && startTime == old(startTime)
      ensures endTime == old(endTime) && isCompleted == old(isCompleted)
      ensures old(WellFormed()) ==> WellFormed()
    {
      var prevIndex := PreviousIndex(currentQuestionIndex);
      var newAnswered := answeredQuestions;
      newAnswered := newAnswered - {prevIndex};
      currentQuestionIndex := prevIndex;
      answeredQuestions := newAnswered;
    }

    /** `resetQuiz`: rebuilds the session from the fetched list (empty if
        there is none), reordered by `perm` when `shuffled`. */
    method ResetQuiz(data: Option<seq<Question>>, shuffled: bool, perm: seq<int>)
      requires shuffled ==> IsPermutation(perm, |OrEmpty(data)|)
      modifies this
      ensures Valid() && WellFormed()
      ensures questions == Prepared(OrEmpty(data), shuffled, perm)
      ensures selectedAnswers == Nulls(|questions|) && answeredQuestions == {}
      ensures currentQuestionIndex == 0 && score == 0 && !isCompleted
      ensures startTime == NoTime && endTime == NoTime
    {
      var resetQuestions := OrEmpty(data);
      if shuffled {
        resetQuestions := Prepared(resetQuestions, true, perm);
      }
      currentQuestionIndex := 0;
      selectedAnswers := Nulls(|resetQuestions|);
      answeredQuestions := {};
      score := 0;
      startTime := NoTime;
      endTime := NoTime;
      isCompleted := false;
      questions := resetQuestions;
    }

    /** `submitQuiz`: completes the session wherever the pointer is. */
    method SubmitQuiz(now: int)
      requires Valid()
      modifies this
      ensures Valid()
      ensures isCompleted && endTime == At(now) && score == Score(selectedAnswers, questions)
      ensures currentQuestionIndex == old(currentQuestionIndex) && questions == old(questions)
      ensures selectedAnswers == old(selectedAnswers) && answeredQuestions == old(answeredQuestions)
      ensures startTime == old(startTime)
      ensures old(WellFormed()) ==> WellFormed()
    {
      CompleteQuiz(now);
    }

    /** `shuffleChoices`: reorders every question's choices by its own
        permutation, rewriting its answer to follow the choices, and clears
        the selections, the answered set and the pointer. */
    method ShuffleChoices(perms: seq<seq<int>>)
      requires Valid()
      requires ChoicePermutations(questions, perms)
      modifies this
      ensures Valid() && WellFormed()
      ensures questions == ShuffleAll(old(questions), perms)
      ensures selectedAnswers == Nulls(|questions|) && answeredQuestions == {}
      ensures currentQuestionIndex == 0
      ensures score == old(score) && startTime == old(startTime)
      ensures endTime == old(endTime) && isCompleted == old(isCompleted)
    {
      var updatedQuestions := ShuffleAll(questions, perms);
      questions := updatedQuestions;
      selectedAnswers := Nulls(|updatedQuestions|);
      answeredQuestions := {};
      currentQuestionIndex := 0;
    }

    /** `quizState.selectedAnswers[quizState.currentQuestionIndex]`. */
    function CurrentSelection(): Selection
      reads this
    {
      SlotAt(selectedAnswers, currentQuestionIndex)
    }

    /** `currentQuestion`: the question under the pointer, if there is one. */
    function CurrentQuestion(): (q: Option<Question>)
      reads this
      ensures q.Some? <==> currentQuestionIndex < |questions|
      ensures q.Some? ==> q.value == questions[currentQuestionIndex]
    {
      QuestionAt(questions, currentQuestionIndex)
    }

    /** `canGoNext`: there are questions and the current selection is
        neither `null` nor an empty array. An undefined slot passes. */
    function CanGoNext(): (b: bool)
      reads this
      ensures b <==> |questions| > 0 && CurrentSelection() != Null && CurrentSelection() != Indices([])
    {
      if |questions| == 0 then false
      else
        match CurrentSelection()
        case Indices(s) => |s| > 0
        case Null => false
        case _ => true
    }

    /** `canGoPrevious`: exactly when `previousQuestion` would move the
        pointer. */
    function CanGoPrevious(): (b: bool)
      reads this
      ensures b <==> PreviousIndex(currentQuestionIndex) < currentQuestionIndex
    {
      currentQuestionIndex > 0
    }

    /** `isLastQuestion`: the pointer is on the last question, the one from
        which `nextQuestion` completes the session. */
    function IsLastQuestion(): (b: bool)
      reads this
      ensures b ==> currentQuestionIndex < |questions| <= currentQuestionIndex + 1
      ensures currentQuestionIndex < |questions| && !b ==> currentQuestionIndex + 1 < |questions|
    {
      currentQuestionIndex == |questions| - 1
    }

    /** `isCurrentQuestionAnswered`: the lock the question card honours. */
    function IsCurrentQuestionAnswered(): bool
      reads this
    {
      currentQuestionIndex in answeredQuestions
    }

    /** `progress`: 0 for an empty list, otherwise the percentage of the
        list before the pointer, rounded half up; at most 100 while the
        pointer is inside the list. */
    function Progress(): (r: nat)
      reads this
      ensures |questions| == 0 ==> r == 0
      ensures |questions| > 0 ==>
        2 * |questions| * r <= 200 * currentQuestionIndex + |questions| < 2 * |questions| * (r + 1)
      ensures currentQuestionIndex < |questions| ==> r <= 100
    {
      if |questions| == 0 then 0 else Percent(currentQuestionIndex, |questions|)
    }
  }
}
