/**
 * The records of the festival guide (films, venues, screenings, events,
 * surveys, passes). Free-text display fields such as addresses, synopses, descriptions,
 * poster and trailer URLs and question wording carry no behaviour and are not
 * part of these records.
 */
module Domain {
  import opened Wrappers
  import opened Dates

  datatype Coordinates = Coordinates(latitude: real, longitude: real)

  datatype Venue = Venue(
    id: string,
    name: string,
    coordinates: Option<Coordinates>,
    capacity: Option<nat>)

  /** A film; `duration` is in minutes. */
  datatype Film = Film(
    id: string,
    title: string,
    originalTitle: Option<string>,
    director: string,
    year: int,
    duration: nat,
    genres: seq<string>,
    country: string)

  /** A screening ("projection") of a film; start and end times are "HH:MM" strings. */
  datatype Projection = Projection(
    id: string,
    filmId: string,
    date: Date,
    startTime: string,
    endTime: string,
    venue: Venue,
    ticketsAvailable: bool,
    price: Option<real>)

  /** The source spells these "conference", "atelier", "masterclass" and "autre". */
  datatype EventType = Conference | Workshop | Masterclass | OtherEvent

  datatype Event = Event(
    id: string,
    title: string,
    eventType: EventType,
    date: Date,
    startTime: string,
    endTime: string,
    venue: Venue,
    speakers: Option<seq<string>>,
    isFree: bool)

  datatype QuestionType = TextQuestion | RatingQuestion | MultipleChoiceQuestion | YesNoQuestion

  datatype SurveyQuestion = SurveyQuestion(
    id: string,
    questionType: QuestionType,
    required: bool,
    options: Option<seq<string>>,
    min: Option<int>,
    max: Option<int>)

  datatype Survey = Survey(
    id: string,
    title: string,
    questions: seq<SurveyQuestion>,
    qrCode: string,
    createdAt: Date,
    expiresAt: Option<Date>)

  /** A stored answer is a string (text, choice, "yes"/"no") or a number (rating). */
  datatype Answer = TextAnswer(text: string) | NumberAnswer(number: int)

  datatype SurveyResponse = SurveyResponse(surveyId: string, questionId: string, answer: Answer)

  datatype CompletedSurvey = CompletedSurvey(
    id: string,
    surveyId: string,
    surveyTitle: string,
    responses: seq<SurveyResponse>,
    completedAt: Date)

  /** What the pass QR code encodes; the source serialises it with `JSON.stringify`. */
  datatype PassQrPayload = PassQrPayload(
    passId: string,
    firstName: string,
    lastName: string,
    email: string,
    passType: string,
    purchaseTimestamp: int)

  /** A festival pass; `createdAt` and `validUntil` are millisecond timestamps. */
  datatype UserPass = UserPass(
    id: string,
    firstName: string,
    lastName: string,
    email: string,
    photoUri: string,
    qrCode: PassQrPayload,
    passType: string,
    createdAt: int,
    validUntil: int)
}
