/**
 * The screening-schedule conflict engine: parsing "HH:MM" times, same-day
 * overlap, travel-time sufficiency between venues, the incremental check of
 * one candidate screening, the whole-schedule audit, and the alternative
 * screenings offered for a conflict. Everything is pure; the great-circle
 * distance between two coordinate pairs is supplied by the caller.
 */
module Schedule {
  import opened Wrappers
  import opened JsText
  import opened Dates
  import opened Domain
  import opened Seqs
  import opened Sorting

  /**
   * The haversine great-circle distance in kilometres between two coordinate
   * pairs (Earth radius 6371 km). Only its non-negativity is relied on.
   */
  type DistanceKernel = f: (Coordinates, Coordinates) -> real | forall p, q :: 0.0 <= f(p, q)
    witness (p: Coordinates, q: Coordinates) => 0.0

  /** Distance between two venues; 0 when either venue has no coordinates. */
  function CalculateDistance(v1: Venue, v2: Venue, haversine: DistanceKernel): (d: real)
    ensures d >= 0.0
    ensures v1.coordinates.None? || v2.coordinates.None? ==> d == 0.0
    ensures v1.coordinates.Some? && v2.coordinates.Some? ==> d == haversine(v1.coordinates.value, v2.coordinates.value)
  {
    if v1.coordinates.None? || v2.coordinates.None? then 0.0
    else haversine(v1.coordinates.value, v2.coordinates.value)
  }

  const WalkingSpeedKmPerHour: real := 4.0
  const TravelBufferMinutes: int := 5

  /** `Math.ceil`: the least integer not below `x`. */
  function Ceil(x: real): (n: int)
    ensures (n - 1) as real < x <= n as real
  {
    -((-x).Floor)
  }

  /**
   * Walking time at 4 km/h, rounded up to a whole minute, plus a 5-minute
   * buffer. For a distance `d` km this is the integer `m` with
   * `m - 6 < 15 d <= m - 5`.
   */
  function EstimateTravelTime(v1: Venue, v2: Venue, haversine: DistanceKernel): (m: int)
    ensures m >= TravelBufferMinutes
    ensures var d := CalculateDistance(v1, v2, haversine);
      (m - TravelBufferMinutes - 1) as real < 15.0 * d <= (m - TravelBufferMinutes) as real
    ensures v1.coordinates.None? || v2.coordinates.None? ==> m == TravelBufferMinutes
  {
    var distance := CalculateDistance(v1, v2, haversine);
    var timeInHours := distance / WalkingSpeedKmPerHour;
    Ceil(timeInHours * 60.0) + TravelBufferMinutes
  }

  /** The text before the first ':' (the whole string when there is none). */
  function HoursField(t: string): string {
    var i := IndexOf(t, ':');
    if i < 0 then t else t[..i]
  }

  /** The text between the first and second ':', or none when there is no ':'. */
  function MinutesField(t: string): Option<string> {
    var i := IndexOf(t, ':');
    if i < 0 then None
    else
      var rest := t[i + 1..];
      var j := IndexOf(rest, ':');
      Some(if j < 0 then rest else rest[..j])
  }

  /**
   * `timeToMinutes`: split on ':', convert the first two fields with
   * `Number`, and return `hours * 60 + minutes`; `NaN` when either field is
   * missing or not a number.
   */
  function TimeToMinutes(t: string): Num {
    var hours := ToNumber(HoursField(t));
    var minutes := if MinutesField(t).Some? then ToNumber(MinutesField(t).value) else NaN;
    if hours.Finite? && minutes.Finite? then Finite(hours.value * 60 + minutes.value) else NaN
  }

  /** `Number` never yields a negative value here, so neither does a parsed time. */
  lemma TimeToMinutesNonNegative(t: string)
    ensures TimeToMinutes(t).Finite? ==> TimeToMinutes(t).value >= 0
  {
    ToNumberSpec(HoursField(t));
    if MinutesField(t).Some? {
      ToNumberSpec(MinutesField(t).value);
    }
  }

  /** Joining two colon-free fields with ':' gives them back as the hours and minutes fields. */
  lemma FieldsOfJoin(hh: string, mm: string)
    requires ':' !in hh && ':' !in mm
    ensures HoursField(hh + ":" + mm) == hh
    ensures MinutesField(hh + ":" + mm) == Some(mm)
  {
    var t := hh + ":" + mm;
    IndexOfSpec(t, ':');
    var i := IndexOf(t, ':');
    assert t[|hh|] == ':';
    assert t[..|hh|] == hh;
    assert i == |hh|;
    assert t[i + 1..] == mm;
    IndexOfSpec(mm, ':');
  }

  lemma DigitsHaveNoColon(s: string)
    requires AllDigits(s)
    ensures ':' !in s
  {
    forall k | 0 <= k < |s| ensures s[k] != ':' {
      assert IsDigit(s[k]);
    }
  }

  /**
   * Two colon-free fields joined by ':' parse to hours * 60 + minutes when
   * both convert to numbers, and to `NaN` otherwise.
   */
  lemma TimeToMinutesOfFields(hh: string, mm: string)
    requires ':' !in hh && ':' !in mm
    ensures TimeToMinutes(hh + ":" + mm) ==
      if ToNumber(hh).Finite? && ToNumber(mm).Finite? then Finite(ToNumber(hh).value * 60 + ToNumber(mm).value)
      else NaN
  {
    FieldsOfJoin(hh, mm);
  }

  /** "HH:MM" with digit fields parses to hours * 60 + minutes. */
  lemma TimeToMinutesOfDigits(hh: string, mm: string)
    requires |hh| > 0 && |mm| > 0 && AllDigits(hh) && AllDigits(mm)
    ensures TimeToMinutes(hh + ":" + mm) == Finite(DigitsValue(hh) * 60 + DigitsValue(mm))
  {
    DigitsHaveNoColon(hh);
    DigitsHaveNoColon(mm);
    TimeToMinutesOfFields(hh, mm);
    ToNumberSpec(hh);
    ToNumberSpec(mm);
  }

  lemma TwoDigitValue(s: string)
    requires |s| == 2 && IsDigit(s[0]) && IsDigit(s[1])
    ensures AllDigits(s) && DigitsValue(s) == DigitValue(s[0]) * 10 + DigitValue(s[1])
  {
    assert s[..1] == [s[0]] && s[..1][..0] == [];
    assert DigitsValue(s[..1]) == DigitValue(s[0]);
  }

  /** A five-character "HH:MM" reading: two digits, ':', two digits. */
  predicate IsClockReading(t: string) {
    |t| == 5 && t[2] == ':' && IsDigit(t[0]) && IsDigit(t[1]) && IsDigit(t[3]) && IsDigit(t[4])
  }

  /** The minute count an "HH:MM" reading denotes. */
  function ClockMinutes(t: string): int
    requires IsClockReading(t)
  {
    (DigitValue(t[0]) * 10 + DigitValue(t[1])) * 60 + DigitValue(t[3]) * 10 + DigitValue(t[4])
  }

  /** An "HH:MM" reading parses to the minute count it denotes. */
  lemma TimeToMinutesOfClock(t: string)
    requires IsClockReading(t)
    ensures TimeToMinutes(t) == Finite(ClockMinutes(t))
  {
    var hh, mm := t[..2], t[3..];
    assert t == hh + ":" + mm;
    TwoDigitValue(hh);
    TwoDigitValue(mm);
    TimeToMinutesOfDigits(hh, mm);
  }

  lemma TimeWithoutColon(t: string)
    requires ':' !in t
    ensures TimeToMinutes(t) == NaN
  {
    IndexOfSpec(t, ':');
  }

  function StartMinutes(p: Projection): Num {
    TimeToMinutes(p.startTime)
  }

  function EndMinutes(p: Projection): Num {
    TimeToMinutes(p.endTime)
  }

  /** Both times parse and the screening does not end before it starts. */
  predicate WellFormedTimes(p: Projection) {
    StartMinutes(p).Finite? && EndMinutes(p).Finite? && StartMinutes(p).value <= EndMinutes(p).value
  }

  /**
   * `hasTimeOverlap`: same calendar day and the half-open intervals
   * [start, end) intersect. A time that does not parse compares false, so
   * it never overlaps anything; back-to-back screenings do not overlap.
   */
  function HasTimeOverlap(p1: Projection, p2: Projection): (r: bool)
    ensures r ==> SameCalendarDay(p1.date, p2.date)
    ensures SameCalendarDay(p1.date, p2.date) && WellFormedTimes(p1) && WellFormedTimes(p2) ==>
      (r <==> StartMinutes(p1).value < EndMinutes(p2).value && StartMinutes(p2).value < EndMinutes(p1).value)
    ensures r ==> StartMinutes(p1).Finite? && EndMinutes(p1).Finite? && StartMinutes(p2).Finite? && EndMinutes(p2).Finite?
  {
    if !SameCalendarDay(p1.date, p2.date) then false
    else Less(StartMinutes(p1), EndMinutes(p2)) && Less(StartMinutes(p2), EndMinutes(p1))
  }

  /**
   * Overlap is symmetric, never holds across calendar days, and on one day
   * with readable times is exactly the intersection of [start, end) intervals,
   * so back-to-back screenings do not overlap.
   */
  lemma TimeOverlapSpec(p1: Projection, p2: Projection)
    ensures HasTimeOverlap(p1, p2) == HasTimeOverlap(p2, p1)
    ensures !SameCalendarDay(p1.date, p2.date) ==> !HasTimeOverlap(p1, p2)
    ensures SameCalendarDay(p1.date, p2.date) && WellFormedTimes(p1) && WellFormedTimes(p2) ==>
      (HasTimeOverlap(p1, p2) <==>
        StartMinutes(p1).value < EndMinutes(p2).value && StartMinutes(p2).value < EndMinutes(p1).value)
    ensures EndMinutes(p1) == StartMinutes(p2) ==> !HasTimeOverlap(p1, p2)
  {
  }

  /** The text shown with a conflict, kept as its kind and parameters. */
  datatype ConflictMessage =
    | OverlapWith(startTime: string, endTime: string)
    | OverlapInSchedule
    | InsufficientTravel(needed: int, available: int, fromVenue: string, toVenue: string)

  /** `ConflictResult`: `hasConflict` is false only for `NoConflict`. */
  datatype ConflictResult =
    | NoConflict
    | TimeConflict(conflictingProjection: Projection, message: ConflictMessage)
    | TravelConflict(conflictingProjection: Projection, travelTimeNeeded: int, message: ConflictMessage)
  {
    predicate HasConflict() {
      !NoConflict?
    }
  }

  /** `later` starts strictly after `earlier` ends, too soon to walk between their venues. */
  ghost predicate GapTooShort(earlier: Projection, later: Projection, haversine: DistanceKernel) {
    Less(EndMinutes(earlier), StartMinutes(later))
    && StartMinutes(later).value - EndMinutes(earlier).value < EstimateTravelTime(earlier.venue, later.venue, haversine)
  }

  /**
   * `r` reports `later` as a travel conflict following `earlier`: a positive gap
   * below the walking estimate from the earlier venue to the later one.
   */
  ghost predicate ReportsTravelGap(r: ConflictResult, earlier: Projection, later: Projection, haversine: DistanceKernel) {
    && r.TravelConflict?
    && r.conflictingProjection == later
    && Less(EndMinutes(earlier), StartMinutes(later))
    && var gap := StartMinutes(later).value - EndMinutes(earlier).value;
    && 0 < gap < r.travelTimeNeeded
    && r.travelTimeNeeded == EstimateTravelTime(earlier.venue, later.venue, haversine)
    && r.message == InsufficientTravel(r.travelTimeNeeded, gap, earlier.venue.name, later.venue.name)
  }

  /**
   * `hasTravelConflict`: on the same day, the second screening following the
   * first is tested before the first following the second. The strict
   * comparisons mean back-to-back and overlapping screenings never qualify.
   */
  function HasTravelConflict(p1: Projection, p2: Projection, haversine: DistanceKernel): (r: ConflictResult)
    ensures !r.TimeConflict?
    ensures r.HasConflict() <==>
      SameCalendarDay(p1.date, p2.date) && (GapTooShort(p1, p2, haversine) || GapTooShort(p2, p1, haversine))
  {
    if !SameCalendarDay(p1.date, p2.date) then NoConflict
    else
      var end1 := EndMinutes(p1);
      var start2 := StartMinutes(p2);
      var needed12 := EstimateTravelTime(p1.venue, p2.venue, haversine);
      if Less(end1, start2) && start2.value - end1.value < needed12 then
        TravelConflict(p2, needed12, InsufficientTravel(needed12, start2.value - end1.value, p1.venue.name, p2.venue.name))
      else
        var end2 := EndMinutes(p2);
        var start1 := StartMinutes(p1);
        var needed21 := EstimateTravelTime(p2.venue, p1.venue, haversine);
        if Less(end2, start1) && start1.value - end2.value < needed21 then
          TravelConflict(p1, needed21, InsufficientTravel(needed21, start1.value - end2.value, p2.venue.name, p1.venue.name))
        else NoConflict
  }

  /**
   * A travel conflict names the screening that starts after the other ends:
   * the gap between them is positive and below the walking estimate from the
   * earlier venue to the later one, and both figures appear in the message.
   */
  lemma TravelConflictReportsLaterScreening(p1: Projection, p2: Projection, haversine: DistanceKernel)
    ensures var r := HasTravelConflict(p1, p2, haversine);
      r.HasConflict() ==> ReportsTravelGap(r, p1, p2, haversine) || ReportsTravelGap(r, p2, p1, haversine)
  {
    if HasTravelConflict(p1, p2, haversine).HasConflict() {
      if GapTooShort(p1, p2, haversine) {
        ForwardTravelConflict(p1, p2, haversine);
      } else {
        BackwardTravelConflict(p1, p2, haversine);
      }
    }
  }

  /** The second screening following the first too closely is the one reported. */
  lemma ForwardTravelConflict(p1: Projection, p2: Projection, haversine: DistanceKernel)
    requires SameCalendarDay(p1.date, p2.date) && GapTooShort(p1, p2, haversine)
    ensures ReportsTravelGap(HasTravelConflict(p1, p2, haversine), p1, p2, haversine)
  {
  }

  /** Otherwise a conflict is the first screening following the second too closely. */
  lemma BackwardTravelConflict(p1: Projection, p2: Projection, haversine: DistanceKernel)
    requires HasTravelConflict(p1, p2, haversine).HasConflict() && !GapTooShort(p1, p2, haversine)
    ensures ReportsTravelGap(HasTravelConflict(p1, p2, haversine), p2, p1, haversine)
  {
  }

  /** Whether a travel conflict is found does not depend on the order of the two screenings. */
  lemma TravelConflictSymmetric(p1: Projection, p2: Projection, haversine: DistanceKernel)
    ensures HasTravelConflict(p1, p2, haversine).HasConflict() == HasTravelConflict(p2, p1, haversine).HasConflict()
  {
  }

  /** Different days, overlapping intervals, or well-formed back-to-back screenings: never a travel conflict. */
  lemma NoTravelConflictCases(p1: Projection, p2: Projection, haversine: DistanceKernel)
    ensures !SameCalendarDay(p1.date, p2.date) ==> !HasTravelConflict(p1, p2, haversine).HasConflict()
    ensures HasTimeOverlap(p1, p2) ==> !HasTravelConflict(p1, p2, haversine).HasConflict()
    ensures WellFormedTimes(p1) && WellFormedTimes(p2) && EndMinutes(p1) == StartMinutes(p2)
      ==> !HasTravelConflict(p1, p2, haversine).HasConflict() && !HasTimeOverlap(p1, p2)
  {
  }

  /** The two screenings conflict in time or in travel. */
  predicate Conflicting(p1: Projection, p2: Projection, haversine: DistanceKernel) {
    HasTimeOverlap(p1, p2) || HasTravelConflict(p1, p2, haversine).HasConflict()
  }

  /** One pair as both entry points examine it: the time check first, the travel check otherwise. */
  function PairCheck(p: Projection, q: Projection, timeMessage: ConflictMessage, haversine: DistanceKernel): (r: ConflictResult)
    ensures r.HasConflict() <==> Conflicting(p, q, haversine)
    ensures r.TimeConflict? <==> HasTimeOverlap(p, q)
    ensures r.TimeConflict? ==> r.conflictingProjection == q && r.message == timeMessage
  {
    if HasTimeOverlap(p, q) then TimeConflict(q, timeMessage) else HasTravelConflict(p, q, haversine)
  }

  /** The results of `check` on each of `xs` in turn, keeping only real conflicts. */
  function KeepConflicts<X>(xs: seq<X>, check: X -> ConflictResult): (r: seq<ConflictResult>)
    ensures |r| <= |xs|
    ensures forall k :: 0 <= k < |r| ==> r[k].HasConflict()
  {
    if |xs| == 0 then []
    else
      var c := check(xs[0]);
      (if c.HasConflict() then [c] else []) + KeepConflicts(xs[1..], check)
  }

  function Flags<X>(check: X -> ConflictResult): X -> bool {
    (x: X) => check(x).HasConflict()
  }

  /** Entry `k` is the result for the `k`-th element that `check` flags. */
  lemma {:induction false} KeepConflictsFollowsOrder<X>(xs: seq<X>, check: X -> ConflictResult)
    ensures var r := KeepConflicts(xs, check);
      var hits := Filter(xs, Flags(check));
      |r| == |hits| && forall k :: 0 <= k < |r| ==> r[k] == check(hits[k])
    decreases |xs|
  {
    if |xs| > 0 {
      KeepConflictsFollowsOrder(xs[1..], check);
      var c := check(xs[0]);
      var rest := KeepConflicts(xs[1..], check);
      var hits := Filter(xs[1..], Flags(check));
      assert Flags(check)(xs[0]) == c.HasConflict();
      if c.HasConflict() {
        assert Filter(xs, Flags(check)) == [xs[0]] + hits;
        assert KeepConflicts(xs, check) == [c] + rest;
      } else {
        assert Filter(xs, Flags(check)) == hits;
        assert KeepConflicts(xs, check) == rest;
      }
    }
  }

  /** No entry at all exactly when `check` flags none of `xs`. */
  lemma {:induction false} KeepConflictsEmpty<X>(xs: seq<X>, check: X -> ConflictResult)
    ensures |KeepConflicts(xs, check)| == 0 <==> forall i :: 0 <= i < |xs| ==> !check(xs[i]).HasConflict()
    decreases |xs|
  {
    if |xs| > 0 {
      KeepConflictsEmpty(xs[1..], check);
      assert forall i :: 1 <= i < |xs| ==> xs[i] == xs[1..][i - 1];
    }
  }

  /** Peeling position `i` off a suffix of `xs`, after the entries `done` already found. */
  lemma KeepConflictsStep<X>(xs: seq<X>, i: nat, check: X -> ConflictResult, done: seq<ConflictResult>)
    requires i < |xs|
    ensures var c := check(xs[i]);
      done + KeepConflicts(xs[i..], check)
      == (if c.HasConflict() then done + [c] else done) + KeepConflicts(xs[i + 1..], check)
  {
    assert xs[i..][0] == xs[i];
    assert xs[i..][1..] == xs[i + 1..];
    var c := check(xs[i]);
    var rest := KeepConflicts(xs[i + 1..], check);
    if c.HasConflict() {
      assert done + ([c] + rest) == (done + [c]) + rest;
    }
  }

  function PairChecker(p: Projection, timeMessage: ConflictMessage, haversine: DistanceKernel): Projection -> ConflictResult {
    (q: Projection) => PairCheck(p, q, timeMessage, haversine)
  }

  /** The results for `p` against each of `others` in turn, keeping only real conflicts. */
  function ConflictsAgainst(p: Projection, others: seq<Projection>, timeMessage: ConflictMessage, haversine: DistanceKernel)
    : (r: seq<ConflictResult>)
    ensures |r| <= |others|
    ensures forall k :: 0 <= k < |r| ==> r[k].HasConflict()
  {
    KeepConflicts(others, PairChecker(p, timeMessage, haversine))
  }

  function ConflictsWith(p: Projection, haversine: DistanceKernel): Projection -> bool {
    (q: Projection) => Conflicting(p, q, haversine)
  }

  /**
   * The entries follow the order of `others`: entry `k` is the check of `p`
   * against the `k`-th conflicting screening, so each screening contributes at
   * most one entry, a time entry naming it exactly when the two overlap.
   */
  lemma ConflictsAgainstFollowsOrder(p: Projection, others: seq<Projection>, timeMessage: ConflictMessage, haversine: DistanceKernel)
    ensures var r := ConflictsAgainst(p, others, timeMessage, haversine);
      var hits := Filter(others, ConflictsWith(p, haversine));
      |r| == |hits| && forall k :: 0 <= k < |r| ==> r[k] == PairCheck(p, hits[k], timeMessage, haversine)
  {
    var check := PairChecker(p, timeMessage, haversine);
    KeepConflictsFollowsOrder(others, check);
    FilterAgree(others, Flags(check), ConflictsWith(p, haversine));
  }

  /** No entry at all exactly when `p` conflicts with none of `others`. */
  lemma ConflictsAgainstEmpty(p: Projection, others: seq<Projection>, timeMessage: ConflictMessage, haversine: DistanceKernel)
    ensures |ConflictsAgainst(p, others, timeMessage, haversine)| == 0 <==>
      forall i :: 0 <= i < |others| ==> !Conflicting(p, others[i], haversine)
  {
    KeepConflictsEmpty(others, PairChecker(p, timeMessage, haversine));
  }

  /**
   * The scan shared by both entry points: `p` against each of `others` in
   * list order; an overlap is reported as a time conflict with `timeMessage`
   * and skips the travel check.
   */
  method ScanConflicts(p: Projection, others: seq<Projection>, timeMessage: ConflictMessage, haversine: DistanceKernel)
    returns (found: seq<ConflictResult>)
    ensures found == ConflictsAgainst(p, others, timeMessage, haversine)
  {
    ghost var check := PairChecker(p, timeMessage, haversine);
    found := [];
    for i := 0 to |others|
      invariant found + KeepConflicts(others[i..], check) == KeepConflicts(others, check)
    {
      var other := others[i];
      KeepConflictsStep(others, i, check, found);
      if HasTimeOverlap(p, other) {
        assert check(other) == TimeConflict(other, timeMessage);
        found := found + [TimeConflict(other, timeMessage)];
        continue;
      }
      var travelConflict := HasTravelConflict(p, other, haversine);
      assert check(other) == travelConflict;
      if travelConflict.HasConflict() {
        found := found + [travelConflict];
      }
    }
    assert others[|others|..] == [];
  }

  /**
   * `checkConflicts`: the candidate against every accepted screening, in list
   * order, a time conflict quoting the candidate's own times. Nothing is
   * reported exactly when the candidate conflicts with none of them.
   */
  method CheckConflicts(newProjection: Projection, existingProjections: seq<Projection>, haversine: DistanceKernel)
    returns (conflicts: seq<ConflictResult>)
    ensures conflicts == ConflictsAgainst(newProjection, existingProjections,
      OverlapWith(newProjection.startTime, newProjection.endTime), haversine)
    ensures |conflicts| <= |existingProjections|
    ensures forall k :: 0 <= k < |conflicts| ==> conflicts[k].HasConflict()
    ensures |conflicts| == 0 <==>
      forall i :: 0 <= i < |existingProjections| ==> !Conflicting(newProjection, existingProjections[i], haversine)
  {
    var message := OverlapWith(newProjection.startTime, newProjection.endTime);
    conflicts := ScanConflicts(newProjection, existingProjections, message, haversine);
    ConflictsAgainstEmpty(newProjection, existingProjections, message, haversine);
  }

  /** Every pair `i < j` of `s`, row by row, each checked as (s[i], s[j]). */
  function PairConflicts(s: seq<Projection>, haversine: DistanceKernel): (r: seq<ConflictResult>)
    ensures forall k :: 0 <= k < |r| ==> r[k].HasConflict()
  {
    if |s| == 0 then []
    else ConflictsAgainst(s[0], s[1..], OverlapInSchedule, haversine) + PairConflicts(s[1..], haversine)
  }

  /** Peeling row `i` off a suffix of `s`, after the entries `done` already found. */
  lemma PairConflictsStep(s: seq<Projection>, i: nat, haversine: DistanceKernel, done: seq<ConflictResult>)
    requires i < |s|
    ensures done + PairConflicts(s[i..], haversine)
      == (done + ConflictsAgainst(s[i], s[i + 1..], OverlapInSchedule, haversine)) + PairConflicts(s[i + 1..], haversine)
  {
    assert s[i..][0] == s[i];
    assert s[i..][1..] == s[i + 1..];
  }

  /** The number of unordered pairs of `n` items: `n - 1` with the first one, plus those of the rest. */
  function PairCount(n: nat): (c: nat)
    ensures 2 * c == n * (n - 1)
  {
    if n == 0 then 0 else n - 1 + PairCount(n - 1)
  }

  /** At most one entry per unordered pair. */
  lemma {:induction false} PairConflictsBound(s: seq<Projection>, haversine: DistanceKernel)
    ensures |PairConflicts(s, haversine)| <= PairCount(|s|)
    decreases |s|
  {
    if |s| > 0 {
      PairConflictsBound(s[1..], haversine);
      PairConflictsLength(s, haversine);
    }
  }

  lemma PairConflictsLength(s: seq<Projection>, haversine: DistanceKernel)
    requires |s| > 0
    ensures |PairConflicts(s, haversine)| <= |s| - 1 + |PairConflicts(s[1..], haversine)|
  {
  }

  function NotConflicting(haversine: DistanceKernel): (Projection, Projection) -> bool {
    (a: Projection, b: Projection) => !Conflicting(a, b, haversine)
  }

  /** Whether two screenings conflict does not depend on the order they are given in. */
  lemma ConflictingSymmetric(a: Projection, b: Projection, haversine: DistanceKernel)
    ensures Conflicting(a, b, haversine) == Conflicting(b, a, haversine)
  {
  }

  lemma NotConflictingSymmetric(haversine: DistanceKernel)
    ensures Symmetric(NotConflicting(haversine))
  {
    forall a, b ensures NotConflicting(haversine)(a, b) == NotConflicting(haversine)(b, a) {
      ConflictingSymmetric(a, b, haversine);
    }
  }

  /** No entry at all exactly when no pair of positions conflicts. */
  lemma {:induction false} PairConflictsEmpty(s: seq<Projection>, haversine: DistanceKernel)
    ensures |PairConflicts(s, haversine)| == 0 <==> Pairwise(s, NotConflicting(haversine))
    decreases |s|
  {
    if |s| > 0 {
      PairConflictsEmpty(s[1..], haversine);
      ConflictsAgainstEmpty(s[0], s[1..], OverlapInSchedule, haversine);
      assert forall i :: 1 <= i < |s| ==> s[i] == s[1..][i - 1];
      if Pairwise(s[1..], NotConflicting(haversine)) && forall i :: 0 <= i < |s[1..]| ==> !Conflicting(s[0], s[1..][i], haversine) {
        forall i, j | 0 <= i < j < |s| ensures NotConflicting(haversine)(s[i], s[j]) {
          if i > 0 {
            assert NotConflicting(haversine)(s[1..][i - 1], s[1..][j - 1]);
          }
        }
      }
    }
  }

  /** The sort key of the whole-schedule audit: timestamp, then start minutes. */
  function ScheduleKey(p: Projection): SortKey {
    SortKey(p.date.timestamp, StartMinutes(p))
  }

  datatype ScheduleReport = ScheduleReport(isValid: bool, conflicts: seq<ConflictResult>)

  /**
   * `validateFullSchedule`: sort a copy by (timestamp, start minutes), then
   * check every pair of positions i < j once, the time check first. The
   * verdict depends only on which screenings are selected, not on their order.
   */
  method ValidateFullSchedule(projections: seq<Projection>, haversine: DistanceKernel) returns (report: ScheduleReport)
    ensures report.conflicts == PairConflicts(SortBy(projections, ScheduleKey), haversine)
    ensures report.isValid <==> |report.conflicts| == 0
    ensures report.isValid <==> Pairwise(projections, NotConflicting(haversine))
    ensures 2 * |report.conflicts| <= |projections| * (|projections| - 1)
    ensures |projections| <= 1 ==> report.isValid
  {
    var allConflicts: seq<ConflictResult> := [];
    var sortedProjections := SortBy(projections, ScheduleKey);
    for i := 0 to |sortedProjections|
      invariant allConflicts + PairConflicts(sortedProjections[i..], haversine) == PairConflicts(sortedProjections, haversine)
    {
      PairConflictsStep(sortedProjections, i, haversine, allConflicts);
      var row := ScanConflicts(sortedProjections[i], sortedProjections[i + 1..], OverlapInSchedule, haversine);
      allConflicts := allConflicts + row;
    }
    assert sortedProjections[|sortedProjections|..] == [];
    report := ScheduleReport(|allConflicts| == 0, allConflicts);
    SortedScheduleVerdict(projections, haversine);
    SortedScheduleBound(projections, haversine);
  }

  /**
   * The audit of the sorted copy is empty exactly when no two selected
   * screenings conflict, whatever order they were selected in.
   */
  lemma SortedScheduleVerdict(projections: seq<Projection>, haversine: DistanceKernel)
    ensures |PairConflicts(SortBy(projections, ScheduleKey), haversine)| == 0
      <==> Pairwise(projections, NotConflicting(haversine))
  {
    var sorted := SortBy(projections, ScheduleKey);
    PairConflictsEmpty(sorted, haversine);
    NotConflictingSymmetric(haversine);
    PairwisePermutation(sorted, projections, NotConflicting(haversine));
  }

  /** The audit of the sorted copy has at most one entry per unordered pair of selected screenings. */
  lemma SortedScheduleBound(projections: seq<Projection>, haversine: DistanceKernel)
    ensures 2 * |PairConflicts(SortBy(projections, ScheduleKey), haversine)| <= |projections| * (|projections| - 1)
  {
    var sorted := SortBy(projections, ScheduleKey);
    PairConflictsBound(sorted, haversine);
    assert |sorted| == |projections|;
  }

  /** Any reordering of the selection gets the same verdict. */
  lemma ValidityIgnoresOrder(xs: seq<Projection>, ys: seq<Projection>, haversine: DistanceKernel)
    requires multiset(xs) == multiset(ys)
    ensures |PairConflicts(SortBy(xs, ScheduleKey), haversine)| == 0
      <==> |PairConflicts(SortBy(ys, ScheduleKey), haversine)| == 0
  {
    PairConflictsEmpty(SortBy(xs, ScheduleKey), haversine);
    PairConflictsEmpty(SortBy(ys, ScheduleKey), haversine);
    NotConflictingSymmetric(haversine);
    PairwisePermutation(SortBy(xs, ScheduleKey), SortBy(ys, ScheduleKey), NotConflicting(haversine));
  }

  function SameFilmElsewhere(projection: Projection, conflictingProjectionId: string): Projection -> bool {
    (p: Projection) => p.filmId == projection.filmId && p.id != projection.id && p.id != conflictingProjectionId
  }

  /**
   * `getSuggestedAlternatives`: the other screenings of the same film, in
   * catalogue order, minus the one in conflict. No conflict check is made.
   */
  function GetSuggestedAlternatives(projection: Projection, allProjections: seq<Projection>, conflictingProjectionId: string)
    : (r: seq<Projection>)
    ensures IsSubsequence(r, allProjections)
    ensures forall p :: p in r <==>
      p in allProjections && p.filmId == projection.filmId && p.id != projection.id && p.id != conflictingProjectionId
    ensures forall p :: p in allProjections && SameFilmElsewhere(projection, conflictingProjectionId)(p) ==>
      multiset(r)[p] == multiset(allProjections)[p]
  {
    FilterContents(allProjections, SameFilmElsewhere(projection, conflictingProjectionId));
    Filter(allProjections, SameFilmElsewhere(projection, conflictingProjectionId))
  }
}
