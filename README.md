# Quiz session model

A Dafny model of the quiz session that the `useQuiz` React hook holds
(`client/src/hooks/use-quiz.ts`): the question list, one selection per
question, the set of answered questions, the pointer to the current
question, the completion flag, the timestamps and the score. The model also
covers the scoring engine (`calculateScore` and `uniqueSorted`) and the
choice shuffle that rewrites answers so they follow their choices.

Layout:

- `quiz_types.dfy` (`QuizTypes`): questions, their kinds and answers, and
  what a selection slot can hold: `null`, an unset slot (`undefined`, after
  JavaScript grew the array past its end), a number or an array of numbers.
- `sorting.dfy` (`Sorting`): the ascending arrangement that the
  `(a, b) => a - b` sorts produce. It is defined as a function, proved
  sorted and a permutation of its input, and proved to be the only such
  arrangement.
- `scoring.dfy` (`Scoring`): `uniqueSorted` and `calculateScore` as loops,
  each proved equal to a specification function. The lemmas then say what
  that function means: one point per correctly answered question, set
  equality for multi-answer questions, and nothing for a shape mismatch.
- `selecting.dfy` (`Selecting`): the multi-answer toggle and the
  array-slot write of `selectAnswer`.
- `shuffle.dfy` (`Shuffle`): permutations, reordering by a permutation,
  `indexOf`, and the per-question remapping of `shuffleChoices`. Proved:
  every answer index still names the same choice text, and a selection
  carried along with the same permutation scores the same.
- `session.dfy` (`Session`): the class `QuizSession`, with one method per
  action and one function per derived value.
- `question_source.dfy` (`QuestionSource`): the all-categories loop of the
  fetch, as a fold over the outcome of each category's fetch.
- `scenarios.dfy` (`Scenarios`): the quiz page's `handleSubmitAnswer`
  (`client/src/pages/quiz.tsx`), and short concrete runs of the session
  with their results.

The hook reads some values from its surroundings: the fetched list, the
shuffle preference, the clock and `Math.random`. The methods take these as
parameters. Timestamps are `NoTime` or `At(instant)`. A shuffle is a
permutation `perm` of the positions `0 .. n-1`. The shuffled list is
`[xs[perm[0]], ..., xs[perm[n-1]]]`. Every property about shuffling is
proved for every permutation.

The model follows the code where the code and the intended design part
ways:

- The load effect does not clamp the pointer and does not clear the
  answered set when it installs a list. After a shorter list is installed,
  the pointer can lie past the end. `Scenarios.ShorterReloadKeepsPointer`
  shows this with a progress of 200. `LoadQuestions` keeps `WellFormed`
  when the list does not shrink; a shorter list can break it.
- `selectAnswer` checks no lock. The selection of an already submitted
  question can still change. Locking is done only by the question card's
  input handler.
- `selectAnswer` on an empty list writes slot 0 of an empty array, and
  `submitAnswer` on an empty list marks index 0 answered. After either,
  the selections or the answered set no longer match the list. The
  `WellFormed` clauses of `SelectAnswer` and `SubmitAnswer` therefore
  require a non-empty list.
- `progress` lies in 0..100 only while the pointer is inside the list.

## Model

| member | source | states |
|---|---|---|
| Sorting.Insert | client/src/hooks/use-quiz.ts:112 | inserting into an ascending array keeps it ascending and adds exactly the one element |
| Sorting.SortSeq | client/src/hooks/use-quiz.ts:176 | the numeric sort yields an ascending array that is a permutation of its input |
| Sorting.SortedUnique | client/src/hooks/use-quiz.ts:176 | two ascending arrays with the same elements and multiplicities are equal, so every correct sort gives the same result |
| Sorting.SortSeqOfSorted | client/src/hooks/use-quiz.ts:112 | sorting an array that is already ascending leaves it unchanged |
| Sorting.StrictlySortedUnique | client/src/hooks/use-quiz.ts:167-178 | two duplicate-free ascending arrays that hold the same values are equal |
| Sorting.InsertStrict | client/src/hooks/use-quiz.ts:112 | inserting a new value into a duplicate-free ascending array keeps it duplicate-free and ascending |
| Scoring.Normalize | client/src/hooks/use-quiz.ts:167-178 | `uniqueSorted` as a function: the sorted result of the `seen` filter; `NormalizeMeaning` and `NormalizeEqualIff` give its meaning |
| Scoring.Dedup | client/src/hooks/use-quiz.ts:168-175 | the `seen` filter keeps each value of the input exactly once |
| Scoring.NormalizeMeaning | client/src/hooks/use-quiz.ts:167-178 | `uniqueSorted` yields a duplicate-free ascending array holding exactly the input's values |
| Scoring.NormalizeEqualIff | client/src/hooks/use-quiz.ts:184-194 | two arrays normalise alike if and only if they hold the same values, whatever their order and repeats |
| Scoring.UniqueSorted | client/src/hooks/use-quiz.ts:167-178 | the loop over `seen` and `out` followed by the sort computes the normal form |
| Scoring.SameElements | client/src/hooks/use-quiz.ts:190-193 | returns true if and only if the two arrays are equal |
| Scoring.Points | client/src/hooks/use-quiz.ts:181-204 | the reduce callback: what one question adds to the score; `PointsIffCorrect` gives its meaning |
| Scoring.PointsIffCorrect | client/src/hooks/use-quiz.ts:184-204 | a question adds 1 if and only if its selection is correct, meaning a number equal to a numeric answer, or for a multi-answer question an array with the same set of values as an array answer; otherwise it adds 0 |
| Scoring.Score | client/src/hooks/use-quiz.ts:180-205 | the score is at most the number of selections and at most the number of questions |
| Scoring.ScoreCountsCorrect | client/src/hooks/use-quiz.ts:180-205 | the score is the number of indices that have both a selection and a question and whose selection is correct |
| Scoring.CalculateScore | client/src/hooks/use-quiz.ts:163-206 | the reduce over the selections, skipping indices with no question, computes the score |
| Selecting.Without | client/src/hooks/use-quiz.ts:111 | the filter removes every occurrence of the given value, keeps every other value as often as before, and keeps an ascending array ascending, with or without duplicates |
| Selecting.Toggle | client/src/hooks/use-quiz.ts:104-112 | a present index is removed, an absent one is added, and the result is ascending when the index was absent or the input was ascending |
| Selecting.ToggleKeepsStrict | client/src/hooks/use-quiz.ts:109-112 | a duplicate-free ascending selection stays duplicate-free and ascending |
| Selecting.ToggleTwice | client/src/hooks/use-quiz.ts:109-112 | toggling the same index twice restores a duplicate-free ascending selection |
| Selecting.QuestionAt | client/src/hooks/use-quiz.ts:100 | the question at the pointer exists exactly when the pointer is inside the list |
| Selecting.WriteSlot | client/src/hooks/use-quiz.ts:101-115 | writing a slot sets that slot and leaves every other slot unchanged; past the end the array grows and the gap is left unset |
| Selecting.NextSelection | client/src/hooks/use-quiz.ts:103-116 | the value `selectAnswer` writes into the current slot; `NextSelectionMeaning` gives its meaning |
| Selecting.SlotAt | client/src/hooks/use-quiz.ts:104-105 | reading a slot, undefined past the end; `WriteSlot` states what a write leaves in each slot |
| Selecting.NextSelectionMeaning | client/src/hooks/use-quiz.ts:100-116 | on a multi-answer question the slot becomes an array with the chosen index flipped in or out, and a non-array slot counts as empty; otherwise the slot becomes the chosen index |
| Selecting.SelectTwice | client/src/hooks/use-quiz.ts:103-113 | selecting the same index twice on a multi-answer question restores an array selection, and turns `null` into `[]` |
| Shuffle.Iota | client/src/hooks/use-quiz.ts:234 | the positions `0..n-1`, the identity permutation; `PermutationFacts` gives what every permutation of them holds |
| Shuffle.Pick | client/src/hooks/use-quiz.ts:236 | reordering a list by an index array; `PermuteKeepsElements` and `PickRespectsMultiset` give its meaning |
| Shuffle.PermutationFacts | client/src/hooks/use-quiz.ts:234-235 | a permutation of `0..n-1` has length n, holds only valid positions, and holds every position |
| Shuffle.PickRespectsMultiset | client/src/hooks/use-quiz.ts:41-43 | reorderings by index arrays with the same multiset pick the same multiset of items |
| Shuffle.PermuteKeepsElements | client/src/hooks/use-quiz.ts:41-43 | reordering a list by a permutation keeps every item, each as often as before |
| Shuffle.IndexOf | client/src/hooks/use-quiz.ts:242 | `indexOf` gives the first position holding the value, or -1 exactly when the value is absent |
| Shuffle.RemapIndices | client/src/hooks/use-quiz.ts:241-242 | each old index mapped to its position in the permutation; `RemapIndicesFollowChoices` gives its meaning |
| Shuffle.RemapAnswer | client/src/hooks/use-quiz.ts:238-246 | the new answer: `indexOf` for a single answer, the sorted remapped indices for an array answer; `SingleAnswerFollowsItsChoice` and `MultiAnswerFollowsItsChoices` give its meaning |
| Shuffle.ShuffleQuestion | client/src/hooks/use-quiz.ts:233-249 | the map callback of `shuffleChoices`; `ShuffleQuestionKeepsRecord` and `ShufflePreservesPoints` give its meaning |
| Shuffle.ShuffleQuestionKeepsRecord | client/src/hooks/use-quiz.ts:233-249 | the shuffle keeps the id, prompt, kind, category, image and the number of choices, and reorders the choices by the permutation |
| Shuffle.SingleAnswerFollowsItsChoice | client/src/hooks/use-quiz.ts:244-246 | a valid single answer points to the same choice text after the shuffle; an invalid one becomes -1 |
| Shuffle.RemapIndicesFollowChoices | client/src/hooks/use-quiz.ts:236-242 | every remapped valid index points to the choice text its old index pointed to |
| Shuffle.SortKeepsIndicesBelow | client/src/hooks/use-quiz.ts:243 | sorting remapped indices keeps them all valid positions |
| Shuffle.MultiAnswerFollowsItsChoices | client/src/hooks/use-quiz.ts:239-243 | a multi answer of valid indices stays ascending, keeps its length, and points to the same choice texts after the shuffle |
| Shuffle.RemapElemsIff | client/src/hooks/use-quiz.ts:241-242 | two sets of valid indices are equal if and only if their remapped sets are equal |
| Shuffle.RemapKeepsCorrect | client/src/hooks/use-quiz.ts:238-246 | a selection of valid indices is correct before the shuffle if and only if, carried along, it is correct after |
| Shuffle.ShufflePreservesPoints | client/src/hooks/use-quiz.ts:232-249 | a selection carried along with the permutation scores the same on the shuffled question |
| Shuffle.ReversedChoicesExample | client/src/hooks/use-quiz.ts:232-249 | reversing choices A, B, C with answer 1 gives C, B, A with answer 1 |
| Session.Nulls | client/src/hooks/use-quiz.ts:84 | `new Array(n).fill(null)`, also used at lines 213 and 254 |
| Session.OrEmpty | client/src/hooks/use-quiz.ts:209 | the fetched list, or the empty list when there is none |
| Session.ShuffleAll | client/src/hooks/use-quiz.ts:233-249 | every question shuffled by its own permutation; `ShuffleChoices` installs it |
| Session.Prepared | client/src/hooks/use-quiz.ts:76-80 | the installed list holds the fetched questions, each as often as fetched, whether or not it is shuffled |
| Session.PreviousIndex | client/src/hooks/use-quiz.ts:140 | going back never raises the pointer, and from a positive pointer it lowers it by one |
| Session.Percent | client/src/hooks/use-quiz.ts:282-286 | the percentage is `index/count*100` rounded half up, and at most 100 while index < count |
| Session.QuizSession.constructor | client/src/hooks/use-quiz.ts:29-39 | the initial session is empty, unstarted and uncompleted |
| Session.QuizSession.LoadQuestions | client/src/hooks/use-quiz.ts:76-87 | with data, installs the prepared list with one `null` selection per question and keeps pointer, answered set, score and timestamps; without data, changes nothing |
| Session.QuizSession.StartQuiz | client/src/hooks/use-quiz.ts:89-96 | sets the start time and moves the pointer to 0, changing nothing else |
| Session.QuizSession.SelectAnswer | client/src/hooks/use-quiz.ts:98-120 | writes only the current slot, with the toggled array on a multi-answer question and the chosen index otherwise; keeps selections duplicate-free and ascending; no lock check |
| Session.QuizSession.SubmitAnswer | client/src/hooks/use-quiz.ts:122-128 | adds exactly the current index to the answered set, changing nothing else |
| Session.QuizSession.NextQuestion | client/src/hooks/use-quiz.ts:130-136 | moves forward while a next question exists; otherwise keeps the pointer and completes with the score of the current selections |
| Session.QuizSession.PreviousQuestion | client/src/hooks/use-quiz.ts:138-150 | moves to `max(0, pointer-1)` and removes exactly that index from the answered set; selections are untouched |
| Session.QuizSession.CompleteQuiz | client/src/hooks/use-quiz.ts:152-161 | sets the end time, marks the session completed and stores the score of the selections |
| Session.QuizSession.ResetQuiz | client/src/hooks/use-quiz.ts:208-222 | rebuilds the session: pointer 0, all-`null` selections of the new list's length, empty answered set, score 0, no timestamps, not completed |
| Session.QuizSession.SubmitQuiz | client/src/hooks/use-quiz.ts:224-226 | completes wherever the pointer is, scoring the current selections |
| Session.QuizSession.ShuffleChoices | client/src/hooks/use-quiz.ts:232-258 | shuffles every question's choices by its own permutation, clears selections and answered set, and sets the pointer to 0; start time, score and completion are untouched |
| Session.QuizSession.CurrentSelection | client/src/hooks/use-quiz.ts:260-261 | the slot under the pointer, undefined past the end; `CanGoNext` states what it decides |
| Session.QuizSession.CurrentQuestion | client/src/hooks/use-quiz.ts:277-278 | the current question exists exactly when the pointer is inside the list |
| Session.QuizSession.CanGoNext | client/src/hooks/use-quiz.ts:260-267 | false on an empty list; otherwise true if and only if the current selection is neither `null` nor an empty array |
| Session.QuizSession.CanGoPrevious | client/src/hooks/use-quiz.ts:295 | true exactly when going back would move the pointer |
| Session.QuizSession.IsLastQuestion | client/src/hooks/use-quiz.ts:297-298 | when true, the pointer is on the last question; inside the list, when false, a next question exists |
| Session.QuizSession.Progress | client/src/hooks/use-quiz.ts:279-286 | 0 for an empty list, otherwise the rounded percentage of the list before the pointer, at most 100 while the pointer is inside the list |
| QuestionSource.Aggregate | client/src/hooks/use-quiz.ts:51-63 | the loaded categories' questions concatenated in list order; `AggregateAppend` and `SkipsFailedCategory` give its meaning |
| QuestionSource.AggregateAppend | client/src/hooks/use-quiz.ts:51-63 | each category contributes its questions on its own, in list order |
| QuestionSource.SkipsFailedCategory | client/src/hooks/use-quiz.ts:52-62 | a category that fails to load is skipped and the others' questions keep their order |
| QuestionSource.AggregateAll | client/src/hooks/use-quiz.ts:51-63 | the loop over the category list concatenates the loaded categories' questions in order |
| Scenarios.HandleSubmitAnswer | client/src/pages/quiz.tsx:48-57 | marks the current question answered; when answers are hidden, also moves on or completes |
| Scenarios.SubmitTwice | client/src/hooks/use-quiz.ts:122-128 | submitting twice leaves the same answered set as submitting once |
| Scenarios.EarlySubmit | client/src/hooks/use-quiz.ts:224-226 | submitting after one right and one wrong answer scores 1 of 2 |
| Scenarios.OverrunCompletes | client/src/hooks/use-quiz.ts:130-136 | `nextQuestion` on the last of three questions completes with the pointer still at 2 |
| Scenarios.BackReopens | client/src/hooks/use-quiz.ts:138-150 | going back reopens the question and keeps its selection |
| Scenarios.QuarterProgress | client/src/hooks/use-quiz.ts:279-286 | the second of four questions shows progress 25 |
| Scenarios.ShorterReloadKeepsPointer | client/src/hooks/use-quiz.ts:76-87 | reloading a shorter list keeps the pointer past its end, and progress reaches 200 |

## Left out

- Fetching (`queryFn`, `useQuery`, client/src/hooks/use-quiz.ts:45-74) is network I/O. Only the all-categories loop is modelled, as a fold over the outcome of each category's fetch. Also left out: the error thrown when the category list or a single category fails to load, and the loading flag.
- React plumbing is left out: `useState`, `useEffect` re-triggering, and functional updaters. Each action is a sequential transition of the session. `shuffleChoices` reads the list through a render-time closure, and the model reads the current list instead.
- `Date` timestamps are clock values passed in. They are modelled only as set or unset.
- `shuffleArray` relies on `Math.random` and a random comparator. It is replaced by a permutation parameter. Whether that comparator yields every order, or yields them fairly, is not modelled.
- Session.QuizSession.Progress: `Math.round` of a floating-point quotient is modelled as exact round-half-up on integers. IEEE rounding at half-way points is not modelled.
- `Array.prototype.sort` with `(a, b) => a - b` is modelled by its specification, the ascending arrangement. The engine's in-place sorting algorithm is not modelled.
- Numbers are modelled as integers. Fractional, `NaN` or non-numeric selections and answers are not modelled. The `seen` record of `uniqueSorted` is modelled as a set of integers.
- `toggleShuffle` and `toggleShowCorrectAnswer` flip booleans held outside the session. The shuffle preference and `showCorrectAnswer` are parameters.
- `sessionId` is always `null` and is not modelled.
- Session.QuizSession.IsCurrentQuestionAnswered is modelled as a plain membership test with no contract of its own. Locking on it is done by the question card (client/src/components/quiz/question-card.tsx:130-132), which is rendering and is not part of this model.
- Everything else in client/src/pages/quiz.tsx is presentation and is not modelled.
