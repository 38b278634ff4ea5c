/**
 * The survey catalogue (three surveys reachable by id or by scanning their QR
 * code) and its two lookups: by key, and the surveys open at a given moment.
 */
module Surveys {
  import opened Wrappers
  import opened Seqs
  import opened Dates
  import opened Domain

  /**
   * `new Date("YYYY-MM-DD")`: an ISO date-only string is read as midnight UTC;
   * `timestamp` is that instant in milliseconds since the epoch. The calendar
   * fields are the UTC ones; only the timestamp takes part in comparisons.
   */
  function IsoDay(year: int, month: int, day: int, timestamp: int): Date {
    Date(year, month, day, 0, timestamp)
  }

  function Question(id: string, questionType: QuestionType, required: bool): SurveyQuestion {
    SurveyQuestion(id, questionType, required, None, None, None)
  }

  function RatingQuestion(id: string, required: bool, min: int, max: int): SurveyQuestion {
    SurveyQuestion(id, QuestionType.RatingQuestion, required, None, Some(min), Some(max))
  }

  function ChoiceQuestion(id: string, required: bool, options: seq<string>): SurveyQuestion {
    SurveyQuestion(id, MultipleChoiceQuestion, required, Some(options), None, None)
  }

  /** "survey-1": festival satisfaction, open from 1 to 28 February 2026. */
  const SatisfactionSurvey: Survey := Survey(
    "survey-1", "Satisfaction Festival",
    [
      RatingQuestion("q1", true, 1, 5),
      Question("q2", TextQuestion, true),
      Question("q3", YesNoQuestion, true),
      ChoiceQuestion("q4", false, ["La sélection de films", "L'ambiance", "Les salles de cinéma", "Les animations"])
    ],
    "survey-1", IsoDay(2026, 2, 1, 1769904000000), Some(IsoDay(2026, 2, 28, 1772236800000)))

  /** "survey-2": rating of a film just seen, open from 5 to 15 February 2026. */
  const FilmSurvey: Survey := Survey(
    "survey-2", "Évaluation de Film",
    [
      RatingQuestion("q1", true, 0, 10),
      ChoiceQuestion("q2", true, ["Excellente", "Bonne", "Moyenne", "Décevante"]),
      Question("q3", YesNoQuestion, true),
      Question("q4", TextQuestion, false)
    ],
    "survey-2", IsoDay(2026, 2, 5, 1770249600000), Some(IsoDay(2026, 2, 15, 1771113600000)))

  /** "survey-3": continuous improvement, open from 10 to 28 February 2026. */
  const ImprovementSurvey: Survey := Survey(
    "survey-3", "Amélioration Continue",
    [
      Question("q1", YesNoQuestion, true),
      RatingQuestion("q2", true, 1, 5),
      Question("q3", TextQuestion, false)
    ],
    "survey-3", IsoDay(2026, 2, 10, 1770681600000), Some(IsoDay(2026, 2, 28, 1772236800000)))

  /** `SURVEYS`. */
  const Catalogue: seq<Survey> := [SatisfactionSurvey, FilmSurvey, ImprovementSurvey]

  function MatchesKey(key: string): Survey -> bool {
    (s: Survey) => s.id == key || s.qrCode == key
  }

  /** `getSurveyById`: the first survey whose id or QR code is `key`, if any. */
  function GetSurveyById(key: string): (r: Option<Survey>)
    ensures r.None? <==> forall i :: 0 <= i < |Catalogue| ==> Catalogue[i].id != key && Catalogue[i].qrCode != key
    ensures r.Some? ==> r.value in Catalogue && (r.value.id == key || r.value.qrCode == key)
  {
    Find(Catalogue, MatchesKey(key))
  }

  /** The survey found is the first one matching: no earlier survey has that id or QR code. */
  lemma GetSurveyByIdIsFirst(key: string) returns (i: nat)
    requires GetSurveyById(key).Some?
    ensures i < |Catalogue| && Catalogue[i] == GetSurveyById(key).value
    ensures forall j :: 0 <= j < i ==> Catalogue[j].id != key && Catalogue[j].qrCode != key
  {
    i := FindFirst(Catalogue, MatchesKey(key));
  }

  /** Survey ids are distinct and every QR code is its survey's id. */
  lemma CatalogueKeys()
    ensures forall i, j :: 0 <= i < j < |Catalogue| ==> Catalogue[i].id != Catalogue[j].id
    ensures forall i :: 0 <= i < |Catalogue| ==> Catalogue[i].qrCode == Catalogue[i].id
  {
  }

  /** Looking a survey up by its id or by its QR code finds that very survey. */
  lemma LookupByEitherKey(i: nat)
    requires i < |Catalogue|
    ensures GetSurveyById(Catalogue[i].id) == Some(Catalogue[i])
    ensures GetSurveyById(Catalogue[i].qrCode) == Some(Catalogue[i])
  {
    CatalogueKeys();
    var key := Catalogue[i].id;
    var j := GetSurveyByIdIsFirst(key);
    assert Catalogue[j].id == key;
  }

  /** Open at `now`: created no later than `now`, and not expired before `now`. */
  predicate IsOpen(s: Survey, now: Date) {
    s.createdAt.timestamp <= now.timestamp && (s.expiresAt.None? || s.expiresAt.value.timestamp >= now.timestamp)
  }

  function OpenAt(now: Date): Survey -> bool {
    (s: Survey) => IsOpen(s, now)
  }

  /**
   * `getActiveSurveys` with the current time as `now`: the surveys whose
   * window contains `now`, both ends included, in catalogue order.
   */
  function GetActiveSurveys(now: Date): (r: seq<Survey>)
    ensures IsSubsequence(r, Catalogue)
    ensures forall s :: s in r <==>
      s in Catalogue && s.createdAt.timestamp <= now.timestamp
      && (s.expiresAt.None? || now.timestamp <= s.expiresAt.value.timestamp)
  {
    FilterContents(Catalogue, OpenAt(now));
    Filter(Catalogue, OpenAt(now))
  }

  /** On 15 February 2026 at midnight UTC, the day "survey-2" expires, all three surveys are still open. */
  lemma OpenOnExpiryDay(now: Date)
    requires now.timestamp == 1771113600000
    ensures GetActiveSurveys(now) == Catalogue
  {
    FilterAll(Catalogue, OpenAt(now));
  }

  /** On 20 February 2026 "survey-2" has closed and the other two remain, in order. */
  lemma OpenAfterFilmSurveyCloses(now: Date)
    requires now.timestamp == 1771545600000
    ensures GetActiveSurveys(now) == [SatisfactionSurvey, ImprovementSurvey]
  {
    assert Catalogue == [SatisfactionSurvey] + [FilmSurvey] + [ImprovementSurvey];
    FilterAppend([SatisfactionSurvey] + [FilmSurvey], [ImprovementSurvey], OpenAt(now));
    FilterAppend([SatisfactionSurvey], [FilmSurvey], OpenAt(now));
    FilterAll([SatisfactionSurvey], OpenAt(now));
    FilterNone([FilmSurvey], OpenAt(now));
    FilterAll([ImprovementSurvey], OpenAt(now));
  }
}
