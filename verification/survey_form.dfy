/**
 * The logic of the survey form: the answers entered so far, the per-question
 * error flags, the three change handlers, validation of required questions,
 * the responses handed on at submission, and the choices a rating question
 * offers. Rendering, alerts and the callbacks' effects are not modelled; the
 * state a React update would produce is returned instead.
 */
module SurveyForm {
  import opened Wrappers
  import opened Seqs
  import opened Domain
  import opened Surveys

  /** One answered question. */
  datatype Entry = Entry(questionId: string, answer: Answer)

  /**
   * The answers record: one entry per question id, in the order the ids were
   * first set, which is the order `Object.entries` lists them in.
   */
  type Answers = seq<Entry>

  predicate DistinctKeys(rs: Answers) {
    forall i, j :: 0 <= i < j < |rs| ==> rs[i].questionId != rs[j].questionId
  }

  /** `responses[questionId]`: the answer stored under that id, if any. */
  function Lookup(rs: Answers, questionId: string): (r: Option<Answer>)
    ensures r.None? <==> forall i :: 0 <= i < |rs| ==> rs[i].questionId != questionId
  {
    if |rs| == 0 then None
    else if rs[0].questionId == questionId then Some(rs[0].answer)
    else
      var r := Lookup(rs[1..], questionId);
      assert forall i :: 1 <= i < |rs| ==> rs[i] == rs[1..][i - 1];
      r
  }

  /** `{ ...prev, [questionId]: answer }`: an existing id keeps its place, a new one goes last. */
  function Put(rs: Answers, questionId: string, answer: Answer): Answers {
    if |rs| == 0 then [Entry(questionId, answer)]
    else if rs[0].questionId == questionId then [Entry(questionId, answer)] + rs[1..]
    else [rs[0]] + Put(rs[1..], questionId, answer)
  }

  /** After `Put`, the id holds the new answer and every other id its old one. */
  lemma {:induction false} PutLookup(rs: Answers, questionId: string, answer: Answer, k: string)
    ensures Lookup(Put(rs, questionId, answer), k) == if k == questionId then Some(answer) else Lookup(rs, k)
    decreases |rs|
  {
    if |rs| > 0 && rs[0].questionId != questionId && rs[0].questionId != k {
      PutLookup(rs[1..], questionId, answer, k);
      assert Put(rs, questionId, answer)[1..] == Put(rs[1..], questionId, answer);
    }
  }

  /** The ids already present keep their places; a new id is added at the end. */
  lemma {:induction false} PutPlaces(rs: Answers, questionId: string, answer: Answer)
    ensures var r := Put(rs, questionId, answer);
      && |r| == (if Lookup(rs, questionId).None? then |rs| + 1 else |rs|)
      && (forall i :: 0 <= i < |rs| ==> r[i].questionId == rs[i].questionId)
      && (Lookup(rs, questionId).None? ==> r[|rs|] == Entry(questionId, answer))
    decreases |rs|
  {
    if |rs| > 0 && rs[0].questionId != questionId {
      var tail := Put(rs[1..], questionId, answer);
      PutPlaces(rs[1..], questionId, answer);
      assert forall i :: 1 <= i < |rs| ==> rs[i] == rs[1..][i - 1];
      assert forall i :: 1 <= i <= |tail| ==> Put(rs, questionId, answer)[i] == tail[i - 1];
    }
  }

  /** `Put` never introduces a second entry for an id. */
  lemma PutDistinct(rs: Answers, questionId: string, answer: Answer)
    requires DistinctKeys(rs)
    ensures DistinctKeys(Put(rs, questionId, answer))
  {
    PutPlaces(rs, questionId, answer);
    var r := Put(rs, questionId, answer);
    if |r| > |rs| {
      forall i | 0 <= i < |rs|
        ensures r[i].questionId != questionId
      {
        assert Lookup(rs, questionId).None?;
      }
    }
  }

  /** `PutLookup` for every id, and `PutDistinct`, in one place. */
  lemma PutAll(rs: Answers, questionId: string, answer: Answer)
    ensures forall k :: Lookup(Put(rs, questionId, answer), k) == if k == questionId then Some(answer) else Lookup(rs, k)
    ensures DistinctKeys(rs) ==> DistinctKeys(Put(rs, questionId, answer))
  {
    forall k
      ensures Lookup(Put(rs, questionId, answer), k) == if k == questionId then Some(answer) else Lookup(rs, k)
    {
      PutLookup(rs, questionId, answer, k);
    }
    if DistinctKeys(rs) {
      PutDistinct(rs, questionId, answer);
    }
  }

  /** An error entry: `""` once the question was edited, the "required" message after failed validation. */
  datatype ErrorText = Cleared | RequiredMessage

  datatype FormState = FormState(answers: Answers, errors: map<string, ErrorText>)

  const EmptyForm: FormState := FormState([], map[])

  /** `to` differs from `from` only at `questionId`, in both the answers and the errors. */
  ghost predicate ChangesOnly(from: FormState, to: FormState, questionId: string) {
    && (forall k :: k != questionId ==> Lookup(to.answers, k) == Lookup(from.answers, k))
    && (forall k :: k != questionId ==> (k in to.errors <==> k in from.errors))
    && (forall k :: k != questionId && k in from.errors ==> to.errors[k] == from.errors[k])
  }

  /** The common body of the three handlers: store the answer, clear that question's error. */
  function SetAnswer(st: FormState, questionId: string, answer: Answer): (r: FormState)
    ensures Lookup(r.answers, questionId) == Some(answer)
    ensures questionId in r.errors && r.errors[questionId] == Cleared
    ensures ChangesOnly(st, r, questionId)
    ensures DistinctKeys(st.answers) ==> DistinctKeys(r.answers)
  {
    PutAll(st.answers, questionId, answer);
    FormState(Put(st.answers, questionId, answer), st.errors[questionId := Cleared])
  }

  /** `handleTextChange`. */
  function HandleTextChange(st: FormState, questionId: string, value: string): (r: FormState)
    ensures Lookup(r.answers, questionId) == Some(TextAnswer(value))
    ensures questionId in r.errors && r.errors[questionId] == Cleared
    ensures ChangesOnly(st, r, questionId)
  {
    SetAnswer(st, questionId, TextAnswer(value))
  }

  /** `handleRatingChange`. */
  function HandleRatingChange(st: FormState, questionId: string, value: int): (r: FormState)
    ensures Lookup(r.answers, questionId) == Some(NumberAnswer(value))
    ensures questionId in r.errors && r.errors[questionId] == Cleared
    ensures ChangesOnly(st, r, questionId)
  {
    SetAnswer(st, questionId, NumberAnswer(value))
  }

  /** An option button is drawn as selected when the stored answer is exactly that option. */
  predicate IsSelected(st: FormState, questionId: string, option: string) {
    Lookup(st.answers, questionId) == Some(TextAnswer(option))
  }

  /**
   * `handleMultipleChoiceChange`, also used by the yes/no buttons with "yes" and
   * "no": afterwards the picked option, and no other, is drawn as selected.
   */
  function HandleMultipleChoiceChange(st: FormState, questionId: string, value: string): (r: FormState)
    ensures forall option :: IsSelected(r, questionId, option) <==> option == value
    ensures questionId in r.errors && r.errors[questionId] == Cleared
    ensures ChangesOnly(st, r, questionId)
  {
    SetAnswer(st, questionId, TextAnswer(value))
  }

  /** One user action on the form: typing, tapping a rating, or picking an option or yes/no. */
  datatype Edit =
    | TypeText(questionId: string, text: string)
    | PickRating(questionId: string, rating: int)
    | PickChoice(questionId: string, choice: string)

  /** The form after the given actions, in order. */
  function ApplyEdits(st: FormState, edits: seq<Edit>): FormState
    decreases |edits|
  {
    if |edits| == 0 then st
    else
      var next := match edits[0]
        case TypeText(q, text) => HandleTextChange(st, q, text)
        case PickRating(q, rating) => HandleRatingChange(st, q, rating)
        case PickChoice(q, choice) => HandleMultipleChoiceChange(st, q, choice);
      ApplyEdits(next, edits[1..])
  }

  /** However the user fills it in, starting from the empty form, no question is stored twice. */
  lemma {:induction false} EditsKeepIdsDistinct(st: FormState, edits: seq<Edit>)
    requires DistinctKeys(st.answers)
    ensures DistinctKeys(ApplyEdits(st, edits).answers)
    decreases |edits|
  {
    if |edits| > 0 {
      var next := match edits[0]
        case TypeText(q, text) => SetAnswer(st, q, TextAnswer(text))
        case PickRating(q, rating) => SetAnswer(st, q, NumberAnswer(rating))
        case PickChoice(q, choice) => SetAnswer(st, q, TextAnswer(choice));
      EditsKeepIdsDistinct(next, edits[1..]);
    }
  }

  /** The empty form satisfies the premise of `EditsKeepIdsDistinct`. */
  lemma EmptyFormIdsDistinct(edits: seq<Edit>)
    ensures DistinctKeys(ApplyEdits(EmptyForm, edits).answers)
  {
    EditsKeepIdsDistinct(EmptyForm, edits);
  }

  /** JavaScript truthiness of `responses[id]`: missing, `""` and `0` all count as unanswered. */
  predicate Answered(a: Option<Answer>) {
    a.Some? && match a.value
      case TextAnswer(text) => |text| > 0
      case NumberAnswer(number) => number != 0
  }

  /** The question at position `i` is required and has no truthy answer. */
  predicate Fails(qs: seq<SurveyQuestion>, i: int, rs: Answers)
    requires 0 <= i < |qs|
  {
    qs[i].required && !Answered(Lookup(rs, qs[i].id))
  }

  /** The error record `validateForm` builds from scratch: one "required" entry per failing question. */
  function RequiredErrors(qs: seq<SurveyQuestion>, rs: Answers): (errors: map<string, ErrorText>)
    ensures forall k :: k in errors <==> exists i :: 0 <= i < |qs| && qs[i].id == k && Fails(qs, i, rs)
    ensures forall k :: k in errors ==> errors[k] == RequiredMessage
  {
    if |qs| == 0 then map[]
    else
      var front := qs[..|qs| - 1];
      var errors := RequiredErrors(front, rs);
      assert forall i :: 0 <= i < |front| ==> front[i] == qs[i];
      var q := qs[|qs| - 1];
      if Fails(qs, |qs| - 1, rs) then errors[q.id := RequiredMessage] else errors
  }

  /** What `validateForm` leaves behind: its verdict and the form with the rebuilt errors. */
  datatype Validation = Validation(valid: bool, state: FormState)

  /**
   * `validateForm`: valid exactly when every required question has a truthy
   * answer; the new errors name exactly the failing questions, whatever the
   * errors were before, and the answers are untouched.
   */
  function ValidateForm(survey: Survey, st: FormState): (r: Validation)
    ensures r.state.answers == st.answers
    ensures r.valid <==> forall i :: 0 <= i < |survey.questions| ==> !Fails(survey.questions, i, st.answers)
    ensures forall k :: k in r.state.errors <==>
      exists i :: 0 <= i < |survey.questions| && survey.questions[i].id == k && Fails(survey.questions, i, st.answers)
  {
    var errors := RequiredErrors(survey.questions, st.answers);
    assert forall i :: 0 <= i < |survey.questions| && Fails(survey.questions, i, st.answers) ==>
      survey.questions[i].id in errors;
    if |errors| == 0 then
      assert errors == map[];
      Validation(true, FormState(st.answers, errors))
    else
      Validation(false, FormState(st.answers, errors))
  }

  /** An answer of 0 or "" to a required question fails validation and flags that question. */
  lemma FalsyAnswerFails(survey: Survey, st: FormState, i: nat, answer: Answer)
    requires i < |survey.questions| && survey.questions[i].required
    requires Lookup(st.answers, survey.questions[i].id) == Some(answer)
    requires answer == NumberAnswer(0) || answer == TextAnswer("")
    ensures !ValidateForm(survey, st).valid
    ensures survey.questions[i].id in ValidateForm(survey, st).state.errors
  {
    assert Fails(survey.questions, i, st.answers);
  }

  /** Optional questions never appear among the errors, whatever their answer. */
  lemma OptionalNeverFlagged(survey: Survey, st: FormState, k: string)
    requires forall i :: 0 <= i < |survey.questions| && survey.questions[i].id == k ==> !survey.questions[i].required
    ensures k !in ValidateForm(survey, st).state.errors
  {
  }

  /** `handleSubmit`: the form after validation, and the responses passed to `onSubmit` if it was called. */
  datatype Submission = Submission(state: FormState, sent: Option<seq<SurveyResponse>>)

  /** `Object.entries(responses).map(...)`: one response per stored answer, tagged with the survey id. */
  function ToResponses(surveyId: string, rs: Answers): (r: seq<SurveyResponse>)
    ensures |r| == |rs|
    ensures forall i :: 0 <= i < |r| ==>
      r[i].surveyId == surveyId && r[i].questionId == rs[i].questionId && r[i].answer == rs[i].answer
  {
    if |rs| == 0 then [] else [SurveyResponse(surveyId, rs[0].questionId, rs[0].answer)] + ToResponses(surveyId, rs[1..])
  }

  function HandleSubmit(survey: Survey, st: FormState): (r: Submission)
    ensures r.state == ValidateForm(survey, st).state
    ensures r.sent.Some? <==> forall i :: 0 <= i < |survey.questions| ==> !Fails(survey.questions, i, st.answers)
    ensures r.sent.Some? ==> r.sent.value == ToResponses(survey.id, st.answers)
  {
    var v := ValidateForm(survey, st);
    if !v.valid then Submission(v.state, None)
    else Submission(v.state, Some(ToResponses(survey.id, st.answers)))
  }

  /**
   * A submission answers every required question: each one has a response
   * for this survey with a truthy answer, and (with distinct ids) no
   * question is answered twice.
   */
  lemma SubmissionAnswersRequired(survey: Survey, st: FormState, i: nat)
    requires HandleSubmit(survey, st).sent.Some?
    requires i < |survey.questions| && survey.questions[i].required
    ensures var sent := HandleSubmit(survey, st).sent.value;
      exists j :: 0 <= j < |sent| && sent[j].surveyId == survey.id && sent[j].questionId == survey.questions[i].id
        && Answered(Some(sent[j].answer))
  {
    var q := survey.questions[i];
    assert !Fails(survey.questions, i, st.answers);
    var sent := HandleSubmit(survey, st).sent.value;
    var j := FindAnswer(st.answers, q.id);
    assert sent[j].questionId == q.id;
  }

  /** The position of the entry `Lookup` finds. */
  lemma {:induction false} FindAnswer(rs: Answers, questionId: string) returns (j: nat)
    requires Lookup(rs, questionId).Some?
    ensures j < |rs| && rs[j].questionId == questionId && Some(rs[j].answer) == Lookup(rs, questionId)
    decreases |rs|
  {
    if rs[0].questionId == questionId {
      j := 0;
    } else {
      j := FindAnswer(rs[1..], questionId);
      j := j + 1;
    }
  }

  /** Answers built only through the handlers never hold two entries for one question. */
  lemma SubmissionIdsDistinct(survey: Survey, st: FormState)
    requires DistinctKeys(st.answers)
    requires HandleSubmit(survey, st).sent.Some?
    ensures var sent := HandleSubmit(survey, st).sent.value;
      forall i, j :: 0 <= i < j < |sent| ==> sent[i].questionId != sent[j].questionId
  {
  }

  // ------------------------------------------------------------- rating choices

  /** `question.min || 1`: a missing or zero minimum becomes 1. */
  function LowestRating(q: SurveyQuestion): int {
    if q.min.None? || q.min.value == 0 then 1 else q.min.value
  }

  /** `question.max || 5`: a missing or zero maximum becomes 5. */
  function HighestRating(q: SurveyQuestion): int {
    if q.max.None? || q.max.value == 0 then 5 else q.max.value
  }

  /** `lo, lo + 1, ..., hi`, empty when `hi < lo`. */
  function Range(lo: int, hi: int): (r: seq<int>)
    ensures |r| == if hi < lo then 0 else hi - lo + 1
    ensures forall i :: 0 <= i < |r| ==> r[i] == lo + i
    decreases hi - lo
  {
    if hi < lo then [] else Range(lo, hi - 1) + [hi]
  }

  /**
   * `Array.from({ length: max - min + 1 }, (_, i) => min + i)`: the rating
   * buttons, where a negative length gives none.
   */
  function RatingChoices(q: SurveyQuestion): seq<int> {
    Range(LowestRating(q), HighestRating(q))
  }

  /** A rating is offered exactly when it lies between the effective bounds, and each is offered once. */
  lemma RatingChoicesSpec(q: SurveyQuestion, rating: int)
    ensures rating in RatingChoices(q) <==> LowestRating(q) <= rating <= HighestRating(q)
    ensures NoDuplicates(RatingChoices(q))
    ensures |RatingChoices(q)| == if HighestRating(q) < LowestRating(q) then 0 else HighestRating(q) - LowestRating(q) + 1
  {
    var r := RatingChoices(q);
    if LowestRating(q) <= rating <= HighestRating(q) {
      assert r[rating - LowestRating(q)] == rating;
    }
  }

  /** "survey-2" declares ratings from 0 to 10, but `0 || 1` makes the buttons run from 1 to 10. */
  lemma FilmRatingStartsAtOne()
    ensures RatingChoices(FilmSurvey.questions[0]) == Range(1, 10)
    ensures 0 !in RatingChoices(FilmSurvey.questions[0])
  {
  }

  /** In every catalogue survey, any rating button or yes/no button gives a truthy answer. */
  lemma CatalogueChoicesAnswer(s: nat, i: nat, st: FormState, rating: int, yes: bool)
    requires s < |Catalogue| && i < |Catalogue[s].questions|
    requires rating in RatingChoices(Catalogue[s].questions[i])
    ensures Answered(Lookup(HandleRatingChange(st, Catalogue[s].questions[i].id, rating).answers, Catalogue[s].questions[i].id))
    ensures Answered(Lookup(HandleMultipleChoiceChange(st, Catalogue[s].questions[i].id, if yes then "yes" else "no").answers,
      Catalogue[s].questions[i].id))
  {
    var q := Catalogue[s].questions[i];
    RatingChoicesSpec(q, rating);
    assert LowestRating(q) >= 1;
  }
}
