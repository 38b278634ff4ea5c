/**
 * The film catalogue: three venues, four films, and the screenings generated
 * for the three festival days, with the lookups the screens use. The three
 * days are supplied by the caller (today, tomorrow and the day after, each at
 * the current time of day).
 */
module Films {
  import opened Wrappers
  import opened Seqs
  import opened JsText
  import opened Dates
  import opened Domain
  import opened Sorting
  import opened Schedule

  const FestivalVenues: VenueList := [
    Venue("venue-1", "Cinéma Star Saint-Exupéry", Some(Coordinates(48.5734053, 7.7521113)), Some(400)),
    Venue("venue-2", "Cinéma Odyssée", Some(Coordinates(48.5839, 7.7455)), Some(300)),
    Venue("venue-3", "Star UGC", Some(Coordinates(48.5798, 7.7507)), Some(250))
  ]

  const FestivalFilms: seq<Film> := [
    Film("film-1", "Nosferatu", Some("Nosferatu"), "Robert Eggers", 2024, 132, ["Horreur", "Fantastique"], "USA"),
    Film("film-2", "The Substance", Some("The Substance"), "Coralie Fargeat", 2024, 141,
         ["Horreur", "Science-Fiction", "Thriller"], "France"),
    Film("film-3", "Longlegs", Some("Longlegs"), "Oz Perkins", 2024, 101, ["Horreur", "Thriller"], "USA"),
    Film("film-4", "Cuckoo", Some("Cuckoo"), "Tilman Singer", 2024, 102, ["Horreur", "Mystère"], "Allemagne")
  ]

  /** `n.toString().padStart(2, "0")`. */
  function TwoDigits(n: nat): string {
    PadStart2(Decimal(n))
  }

  /** At least two digits, whose value is `n`. */
  lemma TwoDigitsSpec(n: nat)
    ensures |TwoDigits(n)| >= 2 && AllDigits(TwoDigits(n)) && DigitsValue(TwoDigits(n)) == n
  {
    DecimalSpec(n);
    PadStart2Digits(Decimal(n));
  }

  /** "HH:MM" for a clock reading; the hour is not reduced modulo 24. */
  function ClockTime(hours: nat, minutes: nat): string {
    TwoDigits(hours) + ":" + TwoDigits(minutes)
  }

  /** Formatting a clock reading and parsing it back gives its minute count. */
  lemma ClockTimeRoundTrip(hours: nat, minutes: nat)
    ensures TimeToMinutes(ClockTime(hours, minutes)) == Finite(hours * 60 + minutes)
  {
    TwoDigitsSpec(hours);
    TwoDigitsSpec(minutes);
    TimeToMinutesOfDigits(TwoDigits(hours), TwoDigits(minutes));
  }

  /** The hour at which film number `filmIndex` starts on day `day`. */
  function StartHour(filmIndex: nat, day: nat): nat {
    14 + filmIndex * 2 + day
  }

  function ScreeningId(filmId: string, day: nat): string {
    "proj-" + filmId + "-" + Decimal(day)
  }

  /** The venue list the screenings are spread over; the source's list is never empty. */
  type VenueList = s: seq<Venue> | |s| > 0 witness [Venue("", "", None, None)]

  /** The venue of film number `filmIndex`: the venues are used in turn. */
  function VenueFor(venues: VenueList, filmIndex: nat): Venue {
    venues[filmIndex % |venues|]
  }

  /** The screening of `film`, number `filmIndex` in the list, on festival day `day`. */
  function ScreeningOf(film: Film, filmIndex: nat, day: nat, venue: Venue, days: FestivalDays): Projection {
    var startHour := StartHour(filmIndex, day);
    Projection(
      ScreeningId(film.id, day),
      film.id,
      days.Day(day),
      ClockTime(startHour, 0),
      ClockTime(startHour + film.duration / 60, film.duration % 60),
      venue,
      true,
      Some(8.5))
  }

  function ScreeningCell(venues: VenueList, days: FestivalDays): (Film, nat, nat) -> Projection {
    (film: Film, filmIndex: nat, day: nat) => ScreeningOf(film, filmIndex, day, VenueFor(venues, filmIndex), days)
  }

  /**
   * The `forEach` over `xs` from position `start` with the inner loop over
   * days 0, 1, 2: `cell(xs[i], i, day)` in that order.
   */
  function ThreePerItem<F, T>(xs: seq<F>, start: nat, cell: (F, nat, nat) -> T): (r: seq<T>)
    ensures start <= |xs| ==> |r| == 3 * (|xs| - start)
    decreases |xs| - start
  {
    if start >= |xs| then []
    else
      [cell(xs[start], start, 0), cell(xs[start], start, 1), cell(xs[start], start, 2)]
      + ThreePerItem(xs, start + 1, cell)
  }

  /** Position `3 * (i - start) + day` holds the cell of item `i` on day `day`. */
  lemma {:induction false} ThreePerItemIndex<F, T>(xs: seq<F>, start: nat, cell: (F, nat, nat) -> T, i: nat, day: nat)
    requires start <= i < |xs| && day < 3
    ensures ThreePerItem(xs, start, cell)[3 * (i - start) + day] == cell(xs[i], i, day)
    decreases i - start
  {
    var head := [cell(xs[start], start, 0), cell(xs[start], start, 1), cell(xs[start], start, 2)];
    var rest := ThreePerItem(xs, start + 1, cell);
    assert ThreePerItem(xs, start, cell) == head + rest;
    if start < i {
      ThreePerItemIndex(xs, start + 1, cell, i, day);
      assert (head + rest)[3 * (i - start) + day] == rest[3 * (i - start - 1) + day];
    }
  }

  /** Every element of the list is the cell of some item on some day. */
  lemma ThreePerItemOrigin<F, T>(xs: seq<F>, cell: (F, nat, nat) -> T, y: T) returns (i: nat, day: nat)
    requires y in ThreePerItem(xs, 0, cell)
    ensures i < |xs| && day < 3 && y == cell(xs[i], i, day)
  {
    var r := ThreePerItem(xs, 0, cell);
    var k :| 0 <= k < |r| && r[k] == y;
    i, day := k / 3, k % 3;
    ThreePerItemIndex(xs, 0, cell, i, day);
  }

  /** The comparator `a.date.getTime() - b.date.getTime()`: the timestamp alone. */
  function DateKey(p: Projection): SortKey {
    SortKey(p.date.timestamp, Finite(0))
  }

  /** The screenings in generation order, before sorting. */
  function Unsorted(films: seq<Film>, venues: VenueList, days: FestivalDays): (r: seq<Projection>)
    ensures |r| == 3 * |films|
  {
    ThreePerItem(films, 0, ScreeningCell(venues, days))
  }

  /** `generateProjections`: every film on every festival day, sorted by date. */
  function GenerateProjections(films: seq<Film>, venues: VenueList, days: FestivalDays): (r: seq<Projection>)
    ensures |r| == 3 * |films|
    ensures multiset(r) == multiset(Unsorted(films, venues, days))
  {
    SortBy(Unsorted(films, venues, days), DateKey)
  }

  /** `PROJECTIONS`: the screenings of the shipped films and venues. */
  function Projections(days: FestivalDays): seq<Projection> {
    GenerateProjections(FestivalFilms, FestivalVenues, days)
  }

  /** Position `3 * filmIndex + day` of the generation order holds that film on that day. */
  lemma UnsortedIndex(films: seq<Film>, venues: VenueList, days: FestivalDays, filmIndex: nat, day: nat)
    requires filmIndex < |films| && day < 3
    ensures Unsorted(films, venues, days)[3 * filmIndex + day] == ScreeningOf(films[filmIndex], filmIndex, day, VenueFor(venues, filmIndex), days)
  {
    var cell := ScreeningCell(venues, days);
    ThreePerItemIndex(films, 0, cell, filmIndex, day);
    assert 3 * (filmIndex - 0) + day == 3 * filmIndex + day;
    assert cell(films[filmIndex], filmIndex, day) == ScreeningOf(films[filmIndex], filmIndex, day, VenueFor(venues, filmIndex), days);
  }

  /** Every film is screened on every festival day. */
  lemma GeneratedScreening(films: seq<Film>, venues: VenueList, days: FestivalDays, filmIndex: nat, day: nat)
    requires filmIndex < |films| && day < 3
    ensures ScreeningOf(films[filmIndex], filmIndex, day, VenueFor(venues, filmIndex), days) in GenerateProjections(films, venues, days)
  {
    var u := Unsorted(films, venues, days);
    UnsortedIndex(films, venues, days, filmIndex, day);
    assert u[3 * filmIndex + day] in multiset(u);
  }

  /** Every generated screening is some film on some festival day. */
  lemma GeneratedOrigin(films: seq<Film>, venues: VenueList, days: FestivalDays, p: Projection)
    returns (filmIndex: nat, day: nat)
    requires p in GenerateProjections(films, venues, days)
    ensures filmIndex < |films| && day < 3
    ensures p == ScreeningOf(films[filmIndex], filmIndex, day, VenueFor(venues, filmIndex), days)
  {
    var cell := ScreeningCell(venues, days);
    assert p in ThreePerItem(films, 0, cell) by {
      assert p in multiset(GenerateProjections(films, venues, days));
    }
    filmIndex, day := ThreePerItemOrigin(films, cell, p);
  }

  /**
   * The source writes a start time as the padded hour followed by ":00";
   * that is the clock reading of the hour and zero minutes, which is how
   * `ScreeningOf` writes it.
   */
  lemma StartTimeIsClockTime(hours: nat)
    ensures TwoDigits(hours) + ":00" == ClockTime(hours, 0)
  {
    assert TwoDigits(0) == "00" by {
      assert Decimal(0) == "0";
    }
  }

  /** A time written as `ClockTime(hours, minutes)` parses to its minute count. */
  lemma ClockTimeMinutes(t: string, hours: nat, minutes: nat)
    requires t == ClockTime(hours, minutes)
    ensures TimeToMinutes(t) == Finite(hours * 60 + minutes)
  {
    ClockTimeRoundTrip(hours, minutes);
  }

  /** A generated screening starts on the hour `14 + 2 * filmIndex + day`. */
  lemma ScreeningStart(film: Film, filmIndex: nat, day: nat, venue: Venue, days: FestivalDays)
    ensures StartMinutes(ScreeningOf(film, filmIndex, day, venue, days)) == Finite(StartHour(filmIndex, day) * 60)
  {
    StartsOnTheHour(ScreeningOf(film, filmIndex, day, venue, days), StartHour(filmIndex, day));
  }

  lemma StartsOnTheHour(p: Projection, hour: nat)
    requires p.startTime == ClockTime(hour, 0)
    ensures StartMinutes(p) == Finite(hour * 60)
  {
    ClockTimeRoundTrip(hour, 0);
  }

  /** A generated screening ends `duration` minutes after the hour it starts on. */
  lemma ScreeningEnd(film: Film, filmIndex: nat, day: nat, venue: Venue, days: FestivalDays)
    ensures EndMinutes(ScreeningOf(film, filmIndex, day, venue, days))
      == Finite(StartHour(filmIndex, day) * 60 + film.duration)
  {
    var h := StartHour(filmIndex, day);
    var p := ScreeningOf(film, filmIndex, day, venue, days);
    ClockTimeMinutes(p.endTime, h + film.duration / 60, film.duration % 60);
    assert (h + film.duration / 60) * 60 + film.duration % 60 == h * 60 + film.duration;
  }

  /** The id names the film and the day: different films or different days give different ids. */
  lemma ScreeningIdsDiffer(filmId1: string, day1: nat, filmId2: string, day2: nat)
    requires day1 < 10 && day2 < 10
    requires filmId1 != filmId2 || day1 != day2
    ensures ScreeningId(filmId1, day1) != ScreeningId(filmId2, day2)
  {
    DecimalSpec(day1);
    DecimalSpec(day2);
    var a, b := ScreeningId(filmId1, day1), ScreeningId(filmId2, day2);
    if |filmId1| != |filmId2| {
      assert |a| != |b|;
    } else if filmId1 != filmId2 {
      var k :| 0 <= k < |filmId1| && filmId1[k] != filmId2[k];
      assert a[5 + k] == filmId1[k] && b[5 + k] == filmId2[k];
    } else {
      assert a[|a| - 1] == DigitChar(day1) && b[|b| - 1] == DigitChar(day2);
      assert DigitValue(DigitChar(day1)) == day1 && DigitValue(DigitChar(day2)) == day2;
    }
  }

  predicate DistinctFilmIds(films: seq<Film>) {
    forall i, j :: 0 <= i < j < |films| ==> films[i].id != films[j].id
  }

  function DifferentIds(): (Projection, Projection) -> bool {
    (a: Projection, b: Projection) => a.id != b.id
  }

  /** Position `k` of the generation order carries the id of film `k / 3` on day `k % 3`. */
  lemma UnsortedId(films: seq<Film>, venues: VenueList, days: FestivalDays, k: nat)
    requires k < 3 * |films|
    ensures Unsorted(films, venues, days)[k].id == ScreeningId(films[k / 3].id, k % 3)
  {
    UnsortedIndex(films, venues, days, k / 3, k % 3);
  }

  /** Films with distinct ids get screenings with distinct ids, before sorting. */
  lemma UnsortedIdsDiffer(films: seq<Film>, venues: VenueList, days: FestivalDays, i: nat, j: nat)
    requires DistinctFilmIds(films)
    requires i < j < 3 * |films|
    ensures Unsorted(films, venues, days)[i].id != Unsorted(films, venues, days)[j].id
  {
    UnsortedId(films, venues, days, i);
    UnsortedId(films, venues, days, j);
    assert i / 3 < j / 3 || i % 3 != j % 3;
    if i / 3 < j / 3 {
      assert films[i / 3].id != films[j / 3].id;
    }
    ScreeningIdsDiffer(films[i / 3].id, i % 3, films[j / 3].id, j % 3);
  }

  /** Films with distinct ids get screenings with distinct ids. */
  lemma GeneratedIdsDistinct(films: seq<Film>, venues: VenueList, days: FestivalDays)
    requires DistinctFilmIds(films)
    ensures forall i, j :: 0 <= i < j < 3 * |films| ==>
      GenerateProjections(films, venues, days)[i].id != GenerateProjections(films, venues, days)[j].id
  {
    var u := Unsorted(films, venues, days);
    forall i, j | 0 <= i < j < |u| ensures DifferentIds()(u[i], u[j]) {
      UnsortedIdsDiffer(films, venues, days, i, j);
    }
    assert Symmetric(DifferentIds());
    PairwisePermutation(u, GenerateProjections(films, venues, days), DifferentIds());
  }

  /** The generated list is in nondecreasing timestamp order. */
  lemma GeneratedSortedByDate(films: seq<Film>, venues: VenueList, days: FestivalDays)
    ensures var r := GenerateProjections(films, venues, days);
      forall i, j :: 0 <= i < j < |r| ==> r[i].date.timestamp <= r[j].date.timestamp
  {
    var u := Unsorted(films, venues, days);
    SortBySorted(u, DateKey);
  }

  /** Screenings sharing a timestamp keep their generation order, that is, film order. */
  lemma GeneratedKeepsFilmOrder(films: seq<Film>, venues: VenueList, days: FestivalDays, timestamp: int)
    ensures Filter(GenerateProjections(films, venues, days), KeyIs(DateKey, SortKey(timestamp, Finite(0))))
      == Filter(Unsorted(films, venues, days), KeyIs(DateKey, SortKey(timestamp, Finite(0))))
  {
    SortByStable(Unsorted(films, venues, days), DateKey, SortKey(timestamp, Finite(0)));
  }

  /** Even on the last festival day, every shipped film ends before midnight. */
  lemma FestivalFilmsFit(filmIndex: nat, day: nat)
    requires filmIndex < |FestivalFilms| && day < 3
    ensures 0 < FestivalFilms[filmIndex].duration
    ensures StartHour(filmIndex, day) * 60 + FestivalFilms[filmIndex].duration < 24 * 60
  {
    var films := FestivalFilms;
    assert films[0].duration == 132 && films[1].duration == 141;
    assert films[2].duration == 101 && films[3].duration == 102;
  }

  /** Every shipped screening parses, starts before it ends, and ends before midnight. */
  lemma CatalogueEndsBeforeMidnight(days: FestivalDays, p: Projection)
    requires p in Projections(days)
    ensures StartMinutes(p).Finite? && EndMinutes(p).Finite?
    ensures StartMinutes(p).value < EndMinutes(p).value < 24 * 60
  {
    var filmIndex, day := GeneratedOrigin(FestivalFilms, FestivalVenues, days, p);
    var film, venue := FestivalFilms[filmIndex], VenueFor(FestivalVenues, filmIndex);
    ScreeningStart(film, filmIndex, day, venue, days);
    ScreeningEnd(film, filmIndex, day, venue, days);
    FestivalFilmsFit(filmIndex, day);
  }

  /** The shipped films have distinct ids, so every shipped screening id is distinct too. */
  lemma CatalogueIdsDistinct(days: FestivalDays)
    ensures forall i, j :: 0 <= i < j < |Projections(days)| ==> Projections(days)[i].id != Projections(days)[j].id
  {
    GeneratedIdsDistinct(FestivalFilms, FestivalVenues, days);
  }

  function HasFilmId(filmId: string): Film -> bool {
    (f: Film) => f.id == filmId
  }

  /** `getFilmById`: the first film with that id, if any. */
  function GetFilmById(filmId: string): (r: Option<Film>)
    ensures r.None? <==> forall i :: 0 <= i < |FestivalFilms| ==> FestivalFilms[i].id != filmId
    ensures r.Some? ==> r.value in FestivalFilms && r.value.id == filmId
  {
    Find(FestivalFilms, HasFilmId(filmId))
  }

  /** Looking up a shipped film by its id finds that film. */
  lemma GetFilmByIdFindsEachFilm(i: nat)
    requires i < |FestivalFilms|
    ensures GetFilmById(FestivalFilms[i].id) == Some(FestivalFilms[i])
  {
    assert DistinctFilmIds(FestivalFilms);
    var j := FindFirst(FestivalFilms, HasFilmId(FestivalFilms[i].id));
  }

  function OfFilm(filmId: string): Projection -> bool {
    (p: Projection) => p.filmId == filmId
  }

  /** `getProjectionsByFilmId`: the screenings of that film, in catalogue order. */
  function GetProjectionsByFilmId(days: FestivalDays, filmId: string): (r: seq<Projection>)
    ensures IsSubsequence(r, Projections(days))
    ensures forall p :: p in r <==> p in Projections(days) && p.filmId == filmId
  {
    FilterContents(Projections(days), OfFilm(filmId));
    Filter(Projections(days), OfFilm(filmId))
  }

  /** Each shipped film has exactly one screening per festival day. */
  lemma ThreeScreeningsPerFilm(days: FestivalDays, i: nat, day: nat)
    requires i < |FestivalFilms| && day < 3
    ensures ScreeningOf(FestivalFilms[i], i, day, VenueFor(FestivalVenues, i), days) in GetProjectionsByFilmId(days, FestivalFilms[i].id)
  {
    GeneratedScreening(FestivalFilms, FestivalVenues, days, i, day);
  }

  function OnDay(date: Date): Projection -> bool {
    (p: Projection) => SameCalendarDay(p.date, date)
  }

  /** `getProjectionsByDate`: the screenings on that calendar day, in catalogue order. */
  function GetProjectionsByDate(days: FestivalDays, date: Date): (r: seq<Projection>)
    ensures IsSubsequence(r, Projections(days))
    ensures forall p :: p in r <==> p in Projections(days) && SameCalendarDay(p.date, date)
  {
    FilterContents(Projections(days), OnDay(date));
    Filter(Projections(days), OnDay(date))
  }
}
