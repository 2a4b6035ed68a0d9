/** The values a quiz session is made of: questions, their answers and the
    per-question selections the user makes. */
module QuizTypes {

  datatype Option<T> = None | Some(value: T)

  /** The question kinds. Only `MultipleChoiceV2` is scored as a set of
      indices; the other two share the single-index shape. */
  datatype QuestionType = TrueFalse | MultipleChoice | MultipleChoiceV2

  /** The correct answer: one choice index, or an array of choice indices.
      The shape is not tied to the kind: a record may carry either. */
  datatype Answer = Single(index: int) | Multi(indices: seq<int>)

  /** A question record. `choices` is the index space answers refer to. */
  datatype Question = Question(
    id: int,
    prompt: string,
    choices: seq<string>,
    answer: Answer,
    kind: QuestionType,
    category: string,
    image: Option<string>)

  /** One slot of the selections array: `null`, a number, an array of
      numbers, or a hole (`undefined`), which is what a slot past the end of
      the array reads as and what writing past the end leaves behind. */
  datatype Selection = Null | Hole | Index(index: int) | Indices(indices: seq<int>)

  /** A start or end time: unset, or the clock reading it was set to. */
  datatype Timestamp = NoTime | At(instant: int)

  predicate IsMultiAnswer(q: Question) {
    q.kind == MultipleChoiceV2
  }
}
