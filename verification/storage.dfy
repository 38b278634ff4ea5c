/**
 * The persisted user state: a key-value store holding the personal screening
 * selection (a list of screening ids), the purchased pass, and the completed
 * surveys. Each operation takes the store and returns the store it leaves
 * behind together with its result; serialisation, asynchrony and storage
 * failures are not modelled.
 */
module Storage {
  import opened Wrappers
  import opened Seqs
  import opened Domain

  const UserScheduleKey: string := "@feffs_user_schedule"
  const UserPassKey: string := "@feffs_user_pass"
  const PreferencesKey: string := "@feffs_preferences"
  const CompletedSurveysKey: string := "@feffs_completed_surveys"

  /** What a key holds, after parsing its stored JSON text. */
  datatype StoredValue =
    | IdList(ids: seq<string>)
    | PassRecord(pass: UserPass)
    | SurveyList(surveys: seq<CompletedSurvey>)

  datatype Store = Store(entries: map<string, StoredValue>)

  /** Every key this module writes holds a value of the shape it writes there. */
  predicate WellShaped(st: Store) {
    && (UserScheduleKey in st.entries ==> st.entries[UserScheduleKey].IdList?)
    && (UserPassKey in st.entries ==> st.entries[UserPassKey].PassRecord?)
    && (CompletedSurveysKey in st.entries ==> st.entries[CompletedSurveysKey].SurveyList?)
  }

  /** `a` and `b` hold the same keys with the same values, except possibly `key`. */
  ghost predicate SameExcept(a: Store, b: Store, key: string) {
    forall k :: k != key ==> (k in a.entries <==> k in b.entries) && (k in a.entries ==> a.entries[k] == b.entries[k])
  }

  /** Writing `v` at `key`: a later read of `key` finds `v`, and no other key changes. */
  function SetItem(st: Store, key: string, v: StoredValue): (r: Store)
    ensures key in r.entries && r.entries[key] == v
    ensures SameExcept(st, r, key)
  {
    Store(st.entries[key := v])
  }

  /** Deleting `key`: it is absent afterwards, and no other key changes. */
  function RemoveItem(st: Store, key: string): (r: Store)
    ensures key !in r.entries
    ensures SameExcept(st, r, key)
  {
    Store(st.entries - {key})
  }

  // ---------------------------------------------------------------- selection

  /** `getUserSchedule`: the stored id list, or no ids when nothing is stored. */
  function GetUserSchedule(st: Store): (ids: seq<string>)
    ensures UserScheduleKey !in st.entries ==> ids == []
    ensures UserScheduleKey in st.entries && st.entries[UserScheduleKey].IdList? ==>
      ids == st.entries[UserScheduleKey].ids
  {
    if UserScheduleKey in st.entries && st.entries[UserScheduleKey].IdList? then st.entries[UserScheduleKey].ids
    else []
  }

  /** `saveUserSchedule`: replaces the stored list by `ids`, touching no other key. */
  function SaveUserSchedule(st: Store, ids: seq<string>): (r: Store)
    ensures GetUserSchedule(r) == ids
    ensures SameExcept(st, r, UserScheduleKey)
    ensures WellShaped(st) ==> WellShaped(r)
  {
    SetItem(st, UserScheduleKey, IdList(ids))
  }

  /** `isProjectionInSchedule`. */
  function IsProjectionInSchedule(st: Store, projectionId: string): (b: bool)
    ensures b <==> exists i :: 0 <= i < |GetUserSchedule(st)| && GetUserSchedule(st)[i] == projectionId
  {
    projectionId in GetUserSchedule(st)
  }

  /**
   * `addProjectionToSchedule`: an id already selected leaves the store as it
   * was (nothing is written); otherwise the id is appended at the end.
   */
  function AddProjectionToSchedule(st: Store, projectionId: string): (r: Store)
    ensures projectionId in GetUserSchedule(st) ==> r == st
    ensures projectionId !in GetUserSchedule(st) ==> GetUserSchedule(r) == GetUserSchedule(st) + [projectionId]
    ensures SameExcept(st, r, UserScheduleKey)
    ensures WellShaped(st) ==> WellShaped(r)
  {
    var schedule := GetUserSchedule(st);
    if projectionId !in schedule then SaveUserSchedule(st, schedule + [projectionId]) else st
  }

  function IsNot(projectionId: string): string -> bool {
    (id: string) => id != projectionId
  }

  /**
   * `removeProjectionFromSchedule`: every occurrence of the id goes, the other
   * ids keep their order, and the list is written back even when nothing was removed.
   */
  function RemoveProjectionFromSchedule(st: Store, projectionId: string): (r: Store)
    ensures UserScheduleKey in r.entries
    ensures IsSubsequence(GetUserSchedule(r), GetUserSchedule(st))
    ensures forall id :: id in GetUserSchedule(r) <==> id in GetUserSchedule(st) && id != projectionId
    ensures forall id :: (multiset(GetUserSchedule(r))[id]
      == if id == projectionId then 0 else multiset(GetUserSchedule(st))[id])
    ensures SameExcept(st, r, UserScheduleKey)
    ensures WellShaped(st) ==> WellShaped(r)
  {
    var schedule := GetUserSchedule(st);
    FilterContents(schedule, IsNot(projectionId));
    SaveUserSchedule(st, Filter(schedule, IsNot(projectionId)))
  }

  /** `clearSchedule`: the key is deleted, so the selection reads back empty. */
  function ClearSchedule(st: Store): (r: Store)
    ensures UserScheduleKey !in r.entries
    ensures GetUserSchedule(r) == []
    ensures SameExcept(st, r, UserScheduleKey)
    ensures WellShaped(st) ==> WellShaped(r)
  {
    RemoveItem(st, UserScheduleKey)
  }

  /** Saving then reading the selection gives back exactly what was saved. */
  lemma SaveThenGet(st: Store, ids: seq<string>)
    ensures GetUserSchedule(SaveUserSchedule(st, ids)) == ids
  {
  }

  /** An id is selected right after it is added and not selected right after it is removed. */
  lemma AddThenRemoveQueries(st: Store, projectionId: string)
    ensures IsProjectionInSchedule(AddProjectionToSchedule(st, projectionId), projectionId)
    ensures !IsProjectionInSchedule(RemoveProjectionFromSchedule(st, projectionId), projectionId)
  {
    var added := AddProjectionToSchedule(st, projectionId);
    if projectionId !in GetUserSchedule(st) {
      assert GetUserSchedule(added)[|GetUserSchedule(st)|] == projectionId;
    }
  }

  /** Adding keeps a duplicate-free selection duplicate-free. */
  lemma AddKeepsNoDuplicates(st: Store, projectionId: string)
    requires NoDuplicates(GetUserSchedule(st))
    ensures NoDuplicates(GetUserSchedule(AddProjectionToSchedule(st, projectionId)))
  {
    var s := GetUserSchedule(st);
    if projectionId !in s {
      var t := s + [projectionId];
      forall i, j | 0 <= i < j < |t| ensures t[i] != t[j] {
        if j == |s| {
          assert t[i] == s[i];
        } else {
          assert t[i] == s[i] && t[j] == s[j];
        }
      }
    }
  }

  /** Removing an id that is not selected leaves the selection as it was. */
  lemma RemoveAbsentKeepsSelection(st: Store, projectionId: string)
    requires projectionId !in GetUserSchedule(st)
    ensures GetUserSchedule(RemoveProjectionFromSchedule(st, projectionId)) == GetUserSchedule(st)
  {
    FilterAll(GetUserSchedule(st), IsNot(projectionId));
  }

  /** Adding an id that was not selected and then removing it restores the selection. */
  lemma AddThenRemoveRestores(st: Store, projectionId: string)
    requires projectionId !in GetUserSchedule(st)
    ensures GetUserSchedule(RemoveProjectionFromSchedule(AddProjectionToSchedule(st, projectionId), projectionId))
      == GetUserSchedule(st)
  {
    var s := GetUserSchedule(st);
    var p := IsNot(projectionId);
    FilterAppend(s, [projectionId], p);
    FilterAll(s, p);
    assert [projectionId][1..] == [];
  }

  // ------------------------------------------------------------------- pass

  /** `getUserPass`: the stored pass, or none. */
  function GetUserPass(st: Store): (r: Option<UserPass>)
    ensures UserPassKey !in st.entries ==> r.None?
    ensures UserPassKey in st.entries && st.entries[UserPassKey].PassRecord? ==> r == Some(st.entries[UserPassKey].pass)
  {
    if UserPassKey in st.entries && st.entries[UserPassKey].PassRecord? then Some(st.entries[UserPassKey].pass) else None
  }

  /** `saveUserPass`: a later read returns the pass; no other key changes. */
  function SaveUserPass(st: Store, pass: UserPass): (r: Store)
    ensures GetUserPass(r) == Some(pass)
    ensures SameExcept(st, r, UserPassKey)
    ensures WellShaped(st) ==> WellShaped(r)
  {
    SetItem(st, UserPassKey, PassRecord(pass))
  }

  /** `clearUserPass`: the pass is gone; no other key changes. */
  function ClearUserPass(st: Store): (r: Store)
    ensures GetUserPass(r).None?
    ensures SameExcept(st, r, UserPassKey)
    ensures WellShaped(st) ==> WellShaped(r)
  {
    RemoveItem(st, UserPassKey)
  }

  // --------------------------------------------------------- completed surveys

  /** `getCompletedSurveys`: the stored list, or an empty one. */
  function GetCompletedSurveys(st: Store): (r: seq<CompletedSurvey>)
    ensures CompletedSurveysKey !in st.entries ==> r == []
    ensures CompletedSurveysKey in st.entries && st.entries[CompletedSurveysKey].SurveyList? ==>
      r == st.entries[CompletedSurveysKey].surveys
  {
    if CompletedSurveysKey in st.entries && st.entries[CompletedSurveysKey].SurveyList? then
      st.entries[CompletedSurveysKey].surveys
    else []
  }

  /** `saveCompletedSurvey`: appends to the stored list, touching no other key. */
  function SaveCompletedSurvey(st: Store, survey: CompletedSurvey): (r: Store)
    ensures GetCompletedSurveys(r) == GetCompletedSurveys(st) + [survey]
    ensures SameExcept(st, r, CompletedSurveysKey)
    ensures WellShaped(st) ==> WellShaped(r)
  {
    SetItem(st, CompletedSurveysKey, SurveyList(GetCompletedSurveys(st) + [survey]))
  }

  /** `hasSurveyBeenCompleted` (`some`): some stored entry is for that survey. */
  function HasSurveyBeenCompleted(st: Store, surveyId: string): (b: bool)
    ensures b <==> exists i :: 0 <= i < |GetCompletedSurveys(st)| && GetCompletedSurveys(st)[i].surveyId == surveyId
  {
    Find(GetCompletedSurveys(st), ForSurvey(surveyId)).Some?
  }

  function ForSurvey(surveyId: string): CompletedSurvey -> bool {
    (s: CompletedSurvey) => s.surveyId == surveyId
  }

  /** A survey counts as completed right after it is saved, and saving never un-completes another. */
  lemma SaveMarksCompleted(st: Store, survey: CompletedSurvey, surveyId: string)
    ensures HasSurveyBeenCompleted(SaveCompletedSurvey(st, survey), survey.surveyId)
    ensures HasSurveyBeenCompleted(st, surveyId) ==> HasSurveyBeenCompleted(SaveCompletedSurvey(st, survey), surveyId)
  {
    var before := GetCompletedSurveys(st);
    var after := GetCompletedSurveys(SaveCompletedSurvey(st, survey));
    assert after[|before|] == survey;
    if HasSurveyBeenCompleted(st, surveyId) {
      var i :| 0 <= i < |before| && before[i].surveyId == surveyId;
      assert after[i] == before[i];
    }
  }

  /** The selection operations leave the pass and the completed surveys as they were. */
  lemma ScheduleOperationsKeepOtherKeys(st: Store, projectionId: string, ids: seq<string>)
    ensures var r := SaveUserSchedule(st, ids);
      GetUserPass(r) == GetUserPass(st) && GetCompletedSurveys(r) == GetCompletedSurveys(st)
    ensures var r := AddProjectionToSchedule(st, projectionId);
      GetUserPass(r) == GetUserPass(st) && GetCompletedSurveys(r) == GetCompletedSurveys(st)
    ensures var r := RemoveProjectionFromSchedule(st, projectionId);
      GetUserPass(r) == GetUserPass(st) && GetCompletedSurveys(r) == GetCompletedSurveys(st)
    ensures var r := ClearSchedule(st);
      GetUserPass(r) == GetUserPass(st) && GetCompletedSurveys(r) == GetCompletedSurveys(st)
  {
  }
}
