/**
 * The festival's side events: three venues, nine events over the three
 * festival days (three per day, each dated at local midnight), and the
 * lookups the screens use.
 */
module Events {
  import opened Wrappers
  import opened Seqs
  import opened JsText
  import opened Dates
  import opened Domain
  import opened Schedule

  const VillageFantastique: Venue :=
    Venue("venue-village", "Village Fantastique", Some(Coordinates(48.5833, 7.7458)), Some(200))

  const Bibliotheque: Venue :=
    Venue("venue-biblio", "Bibliothèque Nationale Universitaire", Some(Coordinates(48.5852, 7.7527)), Some(150))

  const CinemaStar: Venue :=
    Venue("venue-star", "Cinéma Star Saint-Exupéry", Some(Coordinates(48.5734053, 7.7521113)), Some(100))

  /** The first day's events, dated `date` (that day at midnight). */
  function FirstDayEvents(date: Date): (r: seq<Event>)
    ensures |r| == 3 && forall k :: 0 <= k < |r| ==> r[k].date == date
  {
    [
      Event("event-1", "Masterclass Robert Eggers", Masterclass, date, "14:00", "16:00", Bibliotheque,
            Some(["Robert Eggers"]), false),
      Event("event-2", "Atelier Maquillage Effets Spéciaux", Workshop, date, "10:00", "12:30", VillageFantastique,
            Some(["Marie Dubois", "Jean-Pierre Martin"]), true),
      Event("event-3", "Conférence : L'évolution du film d'horreur", Conference, date, "17:00", "18:30", Bibliotheque,
            Some(["Dr. Sophie Laurent", "François Theurel"]), true)
    ]
  }

  function SecondDayEvents(date: Date): (r: seq<Event>)
    ensures |r| == 3 && forall k :: 0 <= k < |r| ==> r[k].date == date
  {
    [
      Event("event-4", "Rencontre avec Coralie Fargeat", Conference, date, "15:00", "16:30", CinemaStar,
            Some(["Coralie Fargeat"]), false),
      Event("event-5", "Atelier Écriture de Scénario Fantastique", Workshop, date, "10:00", "13:00", VillageFantastique,
            Some(["Claire Mathon"]), true),
      Event("event-6", "Table ronde : Le fantastique européen", Conference, date, "18:00", "19:30", Bibliotheque,
            Some(["Tilman Singer", "Pascal Laugier", "Julia Ducournau"]), true)
    ]
  }

  function ThirdDayEvents(date: Date): (r: seq<Event>)
    ensures |r| == 3 && forall k :: 0 <= k < |r| ==> r[k].date == date
  {
    [
      Event("event-7", "Masterclass Musique de Film d'Horreur", Masterclass, date, "14:00", "16:00", Bibliotheque,
            Some(["Robin Coudert (Rob)"]), false),
      Event("event-8", "Atelier Bruitage et Sound Design", Workshop, date, "10:00", "12:00", VillageFantastique,
            None, true),
      Event("event-9", "Cérémonie de clôture", OtherEvent, date, "20:00", "23:00", CinemaStar,
            None, false)
    ]
  }

  /** The events of festival day `day` (0, 1 or 2), dated at that day's midnight. */
  function DayEvents(days: FestivalDays, day: nat): (r: seq<Event>)
    ensures |r| == 3
    ensures forall k :: 0 <= k < |r| ==> r[k].date == AtMidnight(days.Day(day))
  {
    var date := AtMidnight(days.Day(day));
    if day == 0 then FirstDayEvents(date)
    else if day == 1 then SecondDayEvents(date)
    else ThirdDayEvents(date)
  }

  /** `generateEvents` / `EVENTS`: the three days' events in order. */
  function AllEvents(days: FestivalDays): (r: seq<Event>)
    ensures |r| == 9
    ensures forall i :: 0 <= i < |r| ==> r[i].date == AtMidnight(days.Day(i / 3))
  {
    DayEvents(days, 0) + DayEvents(days, 1) + DayEvents(days, 2)
  }

  /** Event `i` of the catalogue is event `i % 3` of day `i / 3`. */
  lemma AllEventsIndex(days: FestivalDays, i: nat)
    requires i < 9
    ensures AllEvents(days)[i] == DayEvents(days, i / 3)[i % 3]
  {
  }

  /** Both times are "HH:MM" readings, the start one earlier than the end one. */
  predicate ClockTimesInOrder(e: Event) {
    IsClockReading(e.startTime) && IsClockReading(e.endTime) && ClockMinutes(e.startTime) < ClockMinutes(e.endTime)
  }

  lemma FirstDayInOrder(date: Date)
    ensures forall k :: 0 <= k < 3 ==> ClockTimesInOrder(FirstDayEvents(date)[k])
  {
  }

  lemma SecondDayInOrder(date: Date)
    ensures forall k :: 0 <= k < 3 ==> ClockTimesInOrder(SecondDayEvents(date)[k])
  {
  }

  lemma ThirdDayInOrder(date: Date)
    ensures forall k :: 0 <= k < 3 ==> ClockTimesInOrder(ThirdDayEvents(date)[k])
  {
  }

  /** Each day's events are dated at that day's midnight and their times are in order. */
  lemma DayEventsShape(days: FestivalDays, day: nat, k: nat)
    requires day < 3 && k < 3
    ensures var e := DayEvents(days, day)[k];
      e.date == AtMidnight(days.Day(day)) && ClockTimesInOrder(e)
  {
    var date := AtMidnight(days.Day(day));
    if day == 0 {
      FirstDayInOrder(date);
    } else if day == 1 {
      SecondDayInOrder(date);
    } else {
      ThirdDayInOrder(date);
    }
  }

  /**
   * Every generated event falls on its festival day, at midnight, and starts
   * before it ends once its "HH:MM" times are parsed.
   */
  lemma EventsShape(days: FestivalDays, i: nat)
    requires i < |AllEvents(days)|
    ensures var e := AllEvents(days)[i];
      && SameCalendarDay(e.date, days.Day(i / 3))
      && e.date.msOfDay == 0
      && Less(TimeToMinutes(e.startTime), TimeToMinutes(e.endTime))
  {
    AllEventsIndex(days, i);
    DayEventsShape(days, i / 3, i % 3);
    var e := AllEvents(days)[i];
    TimeToMinutesOfClock(e.startTime);
    TimeToMinutesOfClock(e.endTime);
  }

  function HasEventId(eventId: string): Event -> bool {
    (e: Event) => e.id == eventId
  }

  /** `getEventById`: the first event with that id, if any. */
  function GetEventById(days: FestivalDays, eventId: string): (r: Option<Event>)
    ensures r.None? <==> forall i :: 0 <= i < |AllEvents(days)| ==> AllEvents(days)[i].id != eventId
    ensures r.Some? ==> r.value in AllEvents(days) && r.value.id == eventId
  {
    Find(AllEvents(days), HasEventId(eventId))
  }

  /** The ids of a day's events end in the digits `first`, `first + 1` and `first + 2`. */
  predicate NumberedFrom(events: seq<Event>, first: int) {
    forall k :: 0 <= k < |events| ==> |events[k].id| == 7 && events[k].id[6] as int == '0' as int + first + k
  }

  lemma FirstDayIds(date: Date)
    ensures NumberedFrom(FirstDayEvents(date), 1)
  {
  }

  lemma SecondDayIds(date: Date)
    ensures NumberedFrom(SecondDayEvents(date), 4)
  {
  }

  lemma ThirdDayIds(date: Date)
    ensures NumberedFrom(ThirdDayEvents(date), 7)
  {
  }

  /** Event `k` of a day is numbered `3 * day + k + 1`, written as one digit after "event-". */
  lemma DayEventId(days: FestivalDays, day: nat, k: nat)
    requires day < 3 && k < 3
    ensures var id := DayEvents(days, day)[k].id;
      |id| == 7 && id[6] as int == '1' as int + 3 * day + k
  {
    var date := AtMidnight(days.Day(day));
    if day == 0 {
      FirstDayIds(date);
    } else if day == 1 {
      SecondDayIds(date);
    } else {
      ThirdDayIds(date);
    }
  }

  /** The nine event ids are distinct. */
  lemma EventIdsDistinct(days: FestivalDays)
    ensures forall i, j :: 0 <= i < j < |AllEvents(days)| ==> AllEvents(days)[i].id != AllEvents(days)[j].id
  {
    forall i, j | 0 <= i < j < |AllEvents(days)| ensures AllEvents(days)[i].id != AllEvents(days)[j].id {
      AllEventsIndex(days, i);
      AllEventsIndex(days, j);
      DayEventId(days, i / 3, i % 3);
      DayEventId(days, j / 3, j % 3);
    }
  }

  /** Looking up an event by its id finds that event. */
  lemma GetEventByIdFindsEachEvent(days: FestivalDays, i: nat)
    requires i < |AllEvents(days)|
    ensures GetEventById(days, AllEvents(days)[i].id) == Some(AllEvents(days)[i])
  {
    EventIdsDistinct(days);
    var j := FindFirst(AllEvents(days), HasEventId(AllEvents(days)[i].id));
  }

  function OnDay(date: Date): Event -> bool {
    (e: Event) => SameCalendarDay(e.date, date)
  }

  /** `getEventsByDate`: the events on that calendar day, in catalogue order. */
  function GetEventsByDate(days: FestivalDays, date: Date): (r: seq<Event>)
    ensures IsSubsequence(r, AllEvents(days))
    ensures forall e :: e in r <==> e in AllEvents(days) && SameCalendarDay(e.date, date)
  {
    FilterContents(AllEvents(days), OnDay(date));
    Filter(AllEvents(days), OnDay(date))
  }

  /** The three festival days fall on three different calendar days. */
  predicate DistinctDays(days: FestivalDays) {
    && !SameCalendarDay(days.first, days.second)
    && !SameCalendarDay(days.first, days.third)
    && !SameCalendarDay(days.second, days.third)
  }

  /** Filtering three blocks by a test that passes exactly the elements of block `which` keeps that block. */
  lemma FilterOneOfThree<T>(a: seq<T>, b: seq<T>, c: seq<T>, p: T -> bool, which: nat)
    requires which < 3
    requires forall i :: 0 <= i < |a| ==> p(a[i]) == (which == 0)
    requires forall i :: 0 <= i < |b| ==> p(b[i]) == (which == 1)
    requires forall i :: 0 <= i < |c| ==> p(c[i]) == (which == 2)
    ensures Filter(a + b + c, p) == if which == 0 then a else if which == 1 then b else c
  {
    if which == 0 { FilterAll(a, p); } else { FilterNone(a, p); }
    if which == 1 { FilterAll(b, p); } else { FilterNone(b, p); }
    if which == 2 { FilterAll(c, p); } else { FilterNone(c, p); }
    FilterAppend(a + b, c, p);
    FilterAppend(a, b, p);
  }

  /** An event of festival day `d` is on festival day `day` exactly when `d == day`. */
  lemma DayEventOnDay(days: FestivalDays, day: nat, d: nat, k: nat)
    requires DistinctDays(days) && day < 3 && d < 3 && k < 3
    ensures OnDay(days.Day(day))(DayEvents(days, d)[k]) == (d == day)
  {
    DayEventsShape(days, d, k);
  }

  /** Asking for a festival day gives exactly that day's three events. */
  lemma EventsOfFestivalDay(days: FestivalDays, day: nat)
    requires DistinctDays(days) && day < 3
    ensures GetEventsByDate(days, days.Day(day)) == DayEvents(days, day)
  {
    forall d, k | 0 <= d < 3 && 0 <= k < 3 ensures OnDay(days.Day(day))(DayEvents(days, d)[k]) == (d == day) {
      DayEventOnDay(days, day, d, k);
    }
    FilterOneOfThree(DayEvents(days, 0), DayEvents(days, 1), DayEvents(days, 2), OnDay(days.Day(day)), day);
  }

  function OfType(eventType: EventType): Event -> bool {
    (e: Event) => e.eventType == eventType
  }

  /** `getEventsByType`: the events of that type, in catalogue order. */
  function GetEventsByType(days: FestivalDays, eventType: EventType): (r: seq<Event>)
    ensures IsSubsequence(r, AllEvents(days))
    ensures forall e :: e in r <==> e in AllEvents(days) && e.eventType == eventType
  {
    FilterContents(AllEvents(days), OfType(eventType));
    Filter(AllEvents(days), OfType(eventType))
  }

  function IsFree(): Event -> bool {
    (e: Event) => e.isFree
  }

  /** `getFreeEvents`: the free events, in catalogue order. */
  function GetFreeEvents(days: FestivalDays): (r: seq<Event>)
    ensures IsSubsequence(r, AllEvents(days))
    ensures forall e :: e in r <==> e in AllEvents(days) && e.isFree
  {
    FilterContents(AllEvents(days), IsFree());
    Filter(AllEvents(days), IsFree())
  }
}
