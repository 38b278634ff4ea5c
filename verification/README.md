# FEFFS festival guide — a Dafny model of its core

The FEFFS app is the mobile guide to the Strasbourg European Fantastic Film
Festival. This project models the parts of it that carry logic:

- the schedule planner, which finds time overlaps and impossible walks between
  screenings, validates a whole personal schedule and suggests other screenings;
- the local store for the personal schedule, the pass and the completed surveys;
- the film, screening, event and survey catalogues and their lookups;
- the rules in the survey form and the pass purchase form.

Everything is immutable data and pure functions over sequences. A few
algorithms with loops are methods: the conflict scan (`Schedule.ScanConflicts`,
used by `Schedule.CheckConflicts`), full-schedule validation, the email check,
and the pass form's validation and submission. The survey form's validation is
a function.

Modules, one per file:

| module | file | models |
|---|---|---|
| `Wrappers`, `Seqs`, `Sorting` | wrappers.dfy, seqs.dfy, sorting.dfy | `Option`, `filter`/`find`, and the stable `Array.prototype.sort` with the application's comparators |
| `JsText` | js_text.dfy | `trim`, `toString`, `padStart`, `Number(string)` and `indexOf`, to the extent the code relies on them |
| `Dates`, `Domain` | dates.dfy, domain.dfy | the calendar fields of a `Date`, the festival's three days, and the records of types/index.ts |
| `Schedule` | schedule.dfy | services/schedule.ts |
| `Storage` | storage.dfy | services/storage.ts |
| `Films`, `Events`, `Surveys` | films.dfy, events.dfy, surveys.dfy | data/films.ts, data/events.ts, data/surveys.ts |
| `SurveyForm`, `PassForm` | survey_form.dfy, pass_form.dfy | the logic of components/survey-form.tsx and components/pass-purchase-form.tsx |

## Model

| member | source | states |
|---|---|---|
| Schedule.CalculateDistance | services/schedule.ts:17-40 | The distance is never negative. It is 0 when either venue has no coordinates; otherwise it is the great-circle kernel applied to the two coordinate pairs. |
| Schedule.EstimateTravelTime | services/schedule.ts:46-54 | The walk takes `ceil(15 * distance) + 5` minutes (4 km/h plus a 5-minute buffer). So it is at least 5, and exactly 5 when a venue has no coordinates. |
| Schedule.TimeToMinutesNonNegative | services/schedule.ts:59-62 | A time that parses is a non-negative number of minutes. |
| Schedule.TimeToMinutesOfFields | services/schedule.ts:59-62 | Splitting "hh:mm" at the colon and converting each side with `Number` gives `hours * 60 + minutes`. A side that is not a number gives NaN. |
| Schedule.TimeToMinutesOfDigits | services/schedule.ts:59-62 | Two non-empty digit runs around a colon convert to their decimal value, hours times 60 plus minutes. |
| Schedule.TimeToMinutesOfClock | services/schedule.ts:59-62 | A five-character "HH:MM" reading converts to `HH * 60 + MM`. |
| Schedule.TimeWithoutColon | services/schedule.ts:59-62 | A time with no colon has no minutes field, and the sum is NaN. |
| Schedule.TimeOverlapSpec | services/schedule.ts:67-84 | Overlap is symmetric and false on different calendar days. On one day it is exactly `start1 < end2 && start2 < end1`, so back-to-back screenings do not overlap. |
| Schedule.HasTravelConflict | services/schedule.ts:89-141 | Never a time conflict. A conflict exactly when the screenings share a day and one starts strictly after the other ends, with a gap shorter than the walk between them. |
| Schedule.TravelConflictReportsLaterScreening | services/schedule.ts:105-137 | A reported conflict names the later screening. Its gap is positive and below the needed time, and that time is the estimate from the earlier venue to the later one. |
| Schedule.TravelConflictSymmetric | services/schedule.ts:102-140 | Swapping the two screenings does not change whether a travel conflict is reported. |
| Schedule.NoTravelConflictCases | services/schedule.ts:94-140 | No travel conflict in three cases: different days, overlapping screenings, and back-to-back screenings (which also do not overlap). |
| Schedule.HasTimeOverlap | services/schedule.ts:67-84 | An overlap needs the same calendar day and four readable times, because a NaN time compares false. With readable, ordered times it is exactly `start1 < end2 && start2 < end1`. |
| Schedule.PairCheck | services/schedule.ts:154-168 | The pair check reports a conflict exactly when the pair overlaps or has a travel conflict. It reports a time entry exactly on overlap, and that entry names the other screening with the overlap message. |
| Schedule.KeepConflictsFollowsOrder | services/schedule.ts:152-169 | The conflicts kept by the scan are the checks of the conflicting screenings, one each, in list order. |
| Schedule.ConflictsAgainst | services/schedule.ts:152-169 | The loop of `checkConflicts` gives at most one entry per existing screening, and every entry is a conflict. |
| Schedule.ConflictsAgainstFollowsOrder | services/schedule.ts:146-172 | `checkConflicts` lists one result per conflicting existing screening, in the existing list's order. |
| Schedule.ConflictsAgainstEmpty | services/schedule.ts:146-172 | No conflicts exactly when no existing screening overlaps the new one or is too far to walk to. |
| Schedule.ScanConflicts | services/schedule.ts:152-169 | The loop builds exactly the list of the conflicts of `p` with each other screening, in order. |
| Schedule.CheckConflicts | services/schedule.ts:146-172 | At most one entry per existing screening. Every entry has `hasConflict` set. The list is empty exactly when nothing conflicts. |
| Schedule.PairConflicts | services/schedule.ts:190-211 | The double loop of `validateFullSchedule` over positions `i < j` collects only conflicts. |
| Schedule.PairCount | services/schedule.ts:190-191 | The pairs `i < j` of `n` positions number n(n-1)/2. |
| Schedule.PairConflictsBound | services/schedule.ts:190-211 | Each unordered pair is examined once, so there are at most as many conflicts as pairs. |
| Schedule.PairConflictsEmpty | services/schedule.ts:190-211 | The pair loops find nothing exactly when no two screenings of the list conflict. |
| Schedule.ConflictingSymmetric | services/schedule.ts:67-141 | Whether two screenings conflict does not depend on their order. |
| Schedule.ValidateFullSchedule | services/schedule.ts:177-217 | The verdict is valid exactly when the conflict list is empty, and exactly when no two input screenings conflict. There are at most n(n-1)/2 conflicts, and a list of 0 or 1 screenings is valid. The input is only read. |
| Schedule.SortedScheduleVerdict | services/schedule.ts:183-211 | Sorting first does not change which pairs conflict: the sorted list is conflict-free exactly when the input is. |
| Schedule.ValidityIgnoresOrder | services/schedule.ts:183-209 | Two inputs holding the same screenings in different orders get the same verdict. |
| Schedule.GetSuggestedAlternatives | services/schedule.ts:222-234 | Keeps, in order and with their multiplicity, the screenings of the same film other than the given one and the conflicting id. No conflict test is made. |
| Sorting.SortBySorted | services/schedule.ts:183-187 | With readable start times, the sorted schedule is ordered by date, then by start minutes. |
| Sorting.SortByStable | services/schedule.ts:183-187 | The sort is stable: screenings with equal keys keep their relative order (`Array.prototype.sort` is stable). |
| Storage.GetUserSchedule | services/storage.ts:34-42 | An absent key reads as no selection. Otherwise the stored list is returned. |
| Storage.SaveUserSchedule | services/storage.ts:17-29 | The saved list is what a later read returns. No other key changes. |
| Storage.SaveThenGet | services/storage.ts:17-42 | Saving a selection and reading it back gives the same list. |
| Storage.IsProjectionInSchedule | services/storage.ts:81-91 | True exactly when the stored selection contains the id. |
| Storage.AddProjectionToSchedule | services/storage.ts:47-60 | An id already selected leaves the store unchanged. A new id is appended at the end. No other key changes. |
| Storage.AddKeepsNoDuplicates | services/storage.ts:47-60 | Adding never creates a duplicate in a duplicate-free selection. |
| Storage.RemoveProjectionFromSchedule | services/storage.ts:65-76 | The result keeps the other ids in order, each as many times as it occurred, and drops every copy of the removed one. The list is written back even when nothing was removed. No other key changes. |
| Storage.AddThenRemoveQueries | services/storage.ts:47-91 | An id is selected right after it is added and not selected right after it is removed. |
| Storage.RemoveAbsentKeepsSelection | services/storage.ts:65-76 | Removing an id that is not selected leaves the selection as it was. |
| Storage.AddThenRemoveRestores | services/storage.ts:47-76 | Adding a new id and then removing it restores the selection. |
| Storage.ClearSchedule | services/storage.ts:96-103 | The selection key is deleted, so the selection reads as empty. No other key changes. |
| Storage.GetUserPass | services/storage.ts:120-128 | An absent key reads as no pass. Otherwise the stored pass is returned. |
| Storage.SaveUserPass | services/storage.ts:108-115 | The saved pass is what a later read returns. No other key changes. |
| Storage.ClearUserPass | services/storage.ts:133-140 | After clearing, there is no pass. No other key changes. |
| Storage.GetCompletedSurveys | services/storage.ts:159-167 | An absent key reads as an empty list. Otherwise the stored list is returned. |
| Storage.SaveCompletedSurvey | services/storage.ts:145-154 | The survey is appended to the stored list. No other key changes. |
| Storage.HasSurveyBeenCompleted | services/storage.ts:172-182 | True exactly when some stored entry has that survey id. |
| Storage.SaveMarksCompleted | services/storage.ts:145-182 | A survey counts as completed right after it is saved, and saving never un-completes another. |
| Storage.ScheduleOperationsKeepOtherKeys | services/storage.ts:3-103 | The four selection operations leave the pass and the completed surveys as they were. |
| JsText.TrimSpec | services/schedule.ts:60 | `trim` leaves nothing exactly for blank strings, and leaves a string without blank ends unchanged. |
| JsText.ToNumberSpec | services/schedule.ts:60 | `Number` maps a blank string to 0 and a digit run to its value, and never yields a negative value here. |
| JsText.DecimalSpec | data/films.ts:118-121 | `toString` writes digits whose value is the number, a single digit exactly below 10. |
| JsText.PadStart2Digits | data/films.ts:118-121 | Padding with zeros to two places keeps the value. |
| JsText.IndexOfSpec | services/schedule.ts:60 | The first colon found is the first occurrence; -1 exactly when there is none. |
| Films.TwoDigitsSpec | data/films.ts:118-121 | The padded hour or minute has at least two digits, and its value is the number. |
| Films.ClockTimeRoundTrip | data/films.ts:118-121 | Reading a written "HH:MM" time back with `timeToMinutes` gives `hours * 60 + minutes`. |
| Films.StartTimeIsClockTime | data/films.ts:118 | The start time written as the padded hour followed by ":00" is the clock time of that hour and 0 minutes. |
| Films.ScreeningStart | data/films.ts:115-118 | A screening starts at minute `60 * (14 + 2 * filmIndex + day)`. |
| Films.ScreeningEnd | data/films.ts:119-121 | A screening ends exactly the film's duration after it starts. |
| Films.GenerateProjections | data/films.ts:104-137 | Three screenings per film, and the sorted list is a permutation of the generation order. |
| Films.GeneratedScreening | data/films.ts:108-133 | Every film gets a screening on each of days 0, 1 and 2, at the venue `VENUES[filmIndex % VENUES.length]`. |
| Films.GeneratedOrigin | data/films.ts:108-136 | Every generated screening is that of some film on some day 0..2. |
| Films.ScreeningIdsDiffer | data/films.ts:124 | Ids `proj-<filmId>-<day>` differ when the film ids or the days differ. |
| Films.GeneratedIdsDistinct | data/films.ts:108-136 | With distinct film ids, all 3n generated ids are distinct. |
| Films.GeneratedSortedByDate | data/films.ts:136 | The result is sorted by nondecreasing date timestamp. |
| Films.GeneratedKeepsFilmOrder | data/films.ts:108-136 | Among screenings with the same timestamp, the generation order (film order) is kept. |
| Films.CatalogueEndsBeforeMidnight | data/films.ts:40-136 | Every shipped screening has readable times, starts before it ends, and ends before midnight. |
| Films.CatalogueIdsDistinct | data/films.ts:40-136 | The shipped screening ids are distinct. |
| Films.GetFilmById | data/films.ts:144-146 | No result exactly when no film has the id. Otherwise the result is a catalogue film with that id. |
| Films.GetFilmByIdFindsEachFilm | data/films.ts:144-146 | Each catalogue film is found by its own id. |
| Films.GetProjectionsByFilmId | data/films.ts:151-153 | Exactly the screenings of that film, as an ordered subsequence of the catalogue. |
| Films.ThreeScreeningsPerFilm | data/films.ts:108-153 | Each film's three screenings are all returned for its id. |
| Films.GetProjectionsByDate | data/films.ts:158-165 | Exactly the screenings on that calendar day, as an ordered subsequence of the catalogue. |
| Events.DayEvents | data/events.ts:46-182 | Each festival day has three events, all dated at that day's midnight. |
| Events.AllEvents | data/events.ts:42-187 | Nine events, and event `i` is dated at midnight of festival day `i / 3`. |
| Events.DayEventsShape | data/events.ts:46-182 | Each day's events are dated at that day's midnight, and their start and end times are "HH:MM" readings with start before end. |
| Events.EventsShape | data/events.ts:46-182 | Every event falls on its festival day at midnight, with start minutes below end minutes. |
| Events.GetEventById | data/events.ts:192-194 | No result exactly when no event has the id. Otherwise the result is an event with that id. |
| Events.EventIdsDistinct | data/events.ts:50-182 | The nine event ids are distinct. |
| Events.GetEventByIdFindsEachEvent | data/events.ts:192-194 | Each event is found by its own id. |
| Events.GetEventsByDate | data/events.ts:199-206 | Exactly the events on that calendar day, as an ordered subsequence. |
| Events.EventsOfFestivalDay | data/events.ts:199-206 | On distinct festival days, asking for a festival day gives exactly that day's three events, in order. |
| Events.GetEventsByType | data/events.ts:211-215 | Exactly the events of that type, as an ordered subsequence. |
| Events.GetFreeEvents | data/events.ts:220-222 | Exactly the free events, as an ordered subsequence. |
| Surveys.GetSurveyById | data/surveys.ts:122-124 | No result exactly when no survey has the key as id or QR code. Otherwise the result matches the key on one of the two. |
| Surveys.GetSurveyByIdIsFirst | data/surveys.ts:122-124 | The survey found is the first in catalogue order that matches. |
| Surveys.CatalogueKeys | data/surveys.ts:6-117 | Survey ids are distinct, and each QR code equals its survey's id. |
| Surveys.LookupByEitherKey | data/surveys.ts:6-124 | Looking a survey up by its id or by its QR code finds that very survey. |
| Surveys.GetActiveSurveys | data/surveys.ts:129-134 | Keeps, in catalogue order, exactly the surveys created no later than now and not expired before now. Both bounds are inclusive. |
| Surveys.OpenOnExpiryDay | data/surveys.ts:55-134 | On the instant "survey-2" expires, all three surveys are still active. |
| Surveys.OpenAfterFilmSurveyCloses | data/surveys.ts:6-134 | On 20 February 2026, exactly "survey-1" and "survey-3" are active, in that order. |
| SurveyForm.PutLookup | components/survey-form.tsx:31-44 | After an answer is stored, its question holds it and every other question keeps its answer. |
| SurveyForm.PutPlaces | components/survey-form.tsx:31-44 | An existing key keeps its place in `Object.entries` order. A new key is added last. |
| SurveyForm.SetAnswer | components/survey-form.tsx:31-44 | Stores the answer and clears that question's error. Nothing else changes, and question ids stay distinct. |
| SurveyForm.HandleTextChange | components/survey-form.tsx:31-34 | The typed text becomes the answer. Only that question's answer and error change. |
| SurveyForm.HandleRatingChange | components/survey-form.tsx:36-39 | The rating becomes the answer. Only that question's answer and error change. |
| SurveyForm.HandleMultipleChoiceChange | components/survey-form.tsx:41-44 | Afterwards the picked option, or "yes"/"no", and no other option is the selected one for that question. Only that question's answer and error change. |
| SurveyForm.EditsKeepIdsDistinct | components/survey-form.tsx:26-44 | Any sequence of edits keeps at most one answer per question. |
| SurveyForm.RequiredErrors | components/survey-form.tsx:47-53 | The rebuilt errors list exactly the required questions without a truthy answer, each with the "required" message. |
| SurveyForm.ValidateForm | components/survey-form.tsx:46-57 | Valid exactly when every required question has a truthy answer. The new errors name exactly the failing questions, whatever the old errors were. |
| SurveyForm.FalsyAnswerFails | components/survey-form.tsx:50 | An answer of 0 or "" to a required question fails validation and flags that question. |
| SurveyForm.ToResponses | components/survey-form.tsx:68-74 | One response per stored answer, in entry order, each carrying the survey id, question id and answer. |
| SurveyForm.HandleSubmit | components/survey-form.tsx:59-77 | Responses are sent exactly when validation passes. The form keeps the rebuilt errors. |
| SurveyForm.SubmissionAnswersRequired | components/survey-form.tsx:59-77 | A sent submission has, for every required question, a response for this survey with a truthy answer. |
| SurveyForm.SubmissionIdsDistinct | components/survey-form.tsx:68-74 | A submission built from distinct keys never answers one question twice. |
| SurveyForm.RatingChoicesSpec | components/survey-form.tsx:118-131 | A rating is offered exactly when it lies within `(min or 1)..(max or 5)`. Each is offered once, `max - min + 1` of them, and none when max < min. |
| SurveyForm.FilmRatingStartsAtOne | components/survey-form.tsx:118-131 | The 0-to-10 rating of "survey-2" shows buttons 1 to 10, because `0 || 1` is 1. |
| SurveyForm.CatalogueChoicesAnswer | components/survey-form.tsx:118-141 | In the shipped surveys, any rating button or yes/no button gives an answer that counts for a required question. |
| PassForm.EmailOfParts | components/pass-purchase-form.tsx:47-50 | Every `local@domain.tld` with non-empty parts free of blanks and '@' passes the pattern. |
| PassForm.EmailParts | components/pass-purchase-form.tsx:47-50 | Every address the pattern accepts splits into such parts. |
| PassForm.ValidateEmail | components/pass-purchase-form.tsx:47-50 | The check accepts exactly the addresses matching `^[^\s@]+@[^\s@]+\.[^\s@]+$`. |
| PassForm.PaddedEmailInvalid | components/pass-purchase-form.tsx:47-66 | An address with a blank at either end fails the pattern, although it is not blank. |
| PassForm.ValidateForm | components/pass-purchase-form.tsx:52-75 | Each field is flagged exactly when its rule fails. A blank email gets "required", never "invalid". Valid exactly when nothing is flagged. |
| PassForm.Edit | components/pass-purchase-form.tsx:203-260 | Sets the field and clears only that field's error. |
| PassForm.EditFirstName | components/pass-purchase-form.tsx:203-206 | Typing a first name stores it and clears only that field's error. |
| PassForm.EditLastName | components/pass-purchase-form.tsx:230-233 | Typing a last name stores it and clears only that field's error. |
| PassForm.EditEmail | components/pass-purchase-form.tsx:257-260 | Typing an email stores it as typed and clears only that field's error. |
| PassForm.SelectPassType | components/pass-purchase-form.tsx:295-297 | Choosing a pass type stores its id and leaves every error as it was. |
| PassForm.PhotoPicked | components/pass-purchase-form.tsx:77-90 | A picture with a non-empty URI is stored and clears only the photo error. A cancelled pick changes nothing. |
| PassForm.HandleSubmit | components/pass-purchase-form.tsx:92-118 | The form's errors are replaced by the ones validation rebuilds, whether or not a pass is issued. A pass is issued exactly when the form is valid. It carries the fields as typed, untrimmed, and is valid for seven days from now. |

## Left out

- The haversine formula and floating point: the distance kernel is a parameter known only to be non-negative.
- JavaScript `Date`, time zones and the clock: dates are records of calendar fields and a timestamp. The festival days and "now" are inputs.
- Calendar arithmetic (`setDate(getDate() + n)` across a month end): the three festival days are supplied already computed.
- `Number(string)` beyond blanks and decimal digits (signs, fractions, exponents, hexadecimal, `Infinity`): such text reads as NaN. Times in this application never contain them.
- The sort order when a start time does not parse: the comparator then returns NaN, which the language reads as a tie with every element. Such a comparator is not consistent, so the language leaves the resulting order to the implementation. The model fixes one allowed order, the stable insertion order. The validity verdict does not depend on it, but the order of the conflict list does.
- AsyncStorage, JSON text, `try`/`catch` error paths and concurrent calls: the store is a map of already parsed values. A key holding a value of the wrong shape reads as absent.
- The preferences key: no operation of the store reads or writes it.
- Message text: conflict messages are kept as their kind and parameters, form errors as their kind. Alerts are not modelled.
- Display fields (addresses, synopses, descriptions, question wording, poster and trailer URLs): they carry no behaviour. The survey title is kept because completed surveys store it.
- The pass QR code JSON text and the `passType` cast: the QR content is kept as a record.
- Films.GenerateProjections: takes the venue list as a non-empty input. The shipped list has three venues.
- Films.ScreeningIdsDiffer: requires days below 10, which covers the three days generated.
- PassForm.HandleSubmit: uses a single reading of the clock for the pass id, the QR timestamp, `createdAt` and `validUntil`. The code reads the clock separately for each, so they can differ by milliseconds.
- PassForm.PhotoPicked: models the result of the picker after it returns. The camera, the loading flag and the stale-closure overwrite of a concurrent edit during the `await` are not modelled.
- SurveyForm.ToResponses: lists keys in insertion order. `Object.entries` lists integer-like keys first, and no question id here is integer-like.
- Surveys.IsoDay: `new Date("YYYY-MM-DD")` is midnight UTC. The model keeps UTC calendar fields, and only the timestamps are compared.
- The scenario "back-to-back screenings at distant venues are a travel conflict" does not hold in the code. Its comparisons are strict (`start2 > end1`), so a gap of 0 reports nothing. The model follows the code (Schedule.NoTravelConflictCases).
