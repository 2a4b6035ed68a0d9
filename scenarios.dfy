/** Short runs of the session through its actions, as the quiz page drives
    them (client/src/pages/quiz.tsx:48-57), with what each run ends in. */
module Scenarios {
  import opened QuizTypes
  import opened Scoring
  import opened Session

  function SingleAnswerQuestion(id: int, answer: int): Question {
    Question(id, "Question", ["first", "second"], Single(answer), MultipleChoice, "general", None)
  }

  /** `handleSubmitAnswer`: submits the current answer and, when correct
      answers are not shown, moves straight on. */
  method HandleSubmitAnswer(s: QuizSession, showCorrectAnswer: bool, now: int)
    requires s.Valid()
    modifies s
    ensures s.Valid()
    ensures s.answeredQuestions == old(s.answeredQuestions) + {old(s.currentQuestionIndex)}
    ensures showCorrectAnswer ==>
      s.currentQuestionIndex == old(s.currentQuestionIndex) && s.isCompleted == old(s.isCompleted)
      && s.score == old(s.score) && s.endTime == old(s.endTime)
    ensures !showCorrectAnswer && old(s.currentQuestionIndex) + 1 < |s.questions| ==>
      s.currentQuestionIndex == old(s.currentQuestionIndex) + 1 && s.isCompleted == old(s.isCompleted)
      && s.score == old(s.score) && s.endTime == old(s.endTime)
    ensures !showCorrectAnswer && old(s.currentQuestionIndex) + 1 >= |s.questions| ==>
      s.currentQuestionIndex == old(s.currentQuestionIndex) && s.isCompleted && s.endTime == At(now)
      && s.score == Score(s.selectedAnswers, s.questions)
    ensures s.questions == old(s.questions) && s.selectedAnswers == old(s.selectedAnswers)
    ensures s.startTime == old(s.startTime)
  {
    if showCorrectAnswer {
      s.SubmitAnswer();
    } else {
      s.SubmitAnswer();
      s.NextQuestion(now);
    }
  }

  /** Submitting twice marks the same set as submitting once. */
  method SubmitTwice(s: QuizSession) returns (once: set<nat>)
    requires s.Valid()
    modifies s
    ensures once == old(s.answeredQuestions) + {old(s.currentQuestionIndex)}
    ensures s.answeredQuestions == once
  {
    s.SubmitAnswer();
    once := s.answeredQuestions;
    s.SubmitAnswer();
  }

  /** Two single-answer questions (answers 0 and 1); choice 0 is selected on
      each and submitted on the first, then the quiz is submitted early: one
      point of two. */
  method EarlySubmit() returns (finalScore: nat, total: nat)
    ensures finalScore == 1 && total == 2
  {
    var q0, q1 := SingleAnswerQuestion(1, 0), SingleAnswerQuestion(2, 1);
    var s := new QuizSession();
    s.LoadQuestions(Some([q0, q1]), false, []);
    s.StartQuiz(100);
    s.SelectAnswer(0);
    s.SubmitAnswer();
    s.NextQuestion(101);
    s.SelectAnswer(0);
    s.SubmitQuiz(102);
    assert s.selectedAnswers == [Index(0), Index(0)];
    assert [Index(0), Index(0)][..1] == [Index(0)];
    assert Score([Index(0)], [q0, q1]) == 1 by {
      assert [Index(0)][..0] == [];
    }
    finalScore, total := s.score, |s.questions|;
  }

  /** With three questions, `nextQuestion` on the last one completes the
      session and leaves the pointer at 2. */
  method OverrunCompletes() returns (pointer: nat, completed: bool)
    ensures pointer == 2 && completed
  {
    var q := SingleAnswerQuestion(1, 0);
    var s := new QuizSession();
    s.LoadQuestions(Some([q, q, q]), false, []);
    s.StartQuiz(0);
    s.NextQuestion(1);
    s.NextQuestion(2);
    assert !s.isCompleted;
    s.NextQuestion(3);
    pointer, completed := s.currentQuestionIndex, s.isCompleted;
  }

  /** Going back reopens the question landed on and keeps its selection. */
  method BackReopens() returns (answered: bool, kept: Selection)
    ensures !answered && kept == Index(1)
  {
    var q := SingleAnswerQuestion(1, 0);
    var s := new QuizSession();
    s.LoadQuestions(Some([q, q]), false, []);
    s.StartQuiz(0);
    s.SelectAnswer(1);
    s.SubmitAnswer();
    s.NextQuestion(1);
    s.PreviousQuestion();
    answered, kept := s.IsCurrentQuestionAnswered(), s.CurrentSelection();
  }

  /** Four questions with the pointer on the second: progress 25. */
  method QuarterProgress() returns (progress: nat)
    ensures progress == 25
  {
    var q := SingleAnswerQuestion(1, 0);
    var s := new QuizSession();
    s.LoadQuestions(Some([q, q, q, q]), false, []);
    s.StartQuiz(0);
    s.NextQuestion(1);
    progress := s.Progress();
  }

  /** The load effect keeps the pointer: after reloading a shorter list the
      pointer lies past its end, and progress exceeds 100. */
  method ShorterReloadKeepsPointer() returns (pointer: nat, progress: nat)
    ensures pointer == 2 && progress == 200
  {
    var q := SingleAnswerQuestion(1, 0);
    var s := new QuizSession();
    s.LoadQuestions(Some([q, q, q]), false, []);
    s.NextQuestion(1);
    s.NextQuestion(2);
    s.LoadQuestions(Some([q]), false, []);
    assert !s.WellFormed();
    pointer, progress := s.currentQuestionIndex, s.Progress();
  }
}
