/**
 * The four statistic groups printed for a selection: most frequent times,
 * most popular stations and route, trip durations, and user counts with
 * the demographic figures of the cities that record them.
 */
module Stats {
  import opened Wrappers
  import opened Seqs
  import opened Mode
  import opened Groups
  import opened Trips
  import opened Selection

  datatype TimeStats = TimeStats(month: int, weekday: int, hour: int)

  /** Most common month, weekday and start hour of a non-empty selection. */
  function TimeStatsOf(s: seq<Trip>): (r: TimeStats)
    requires |s| > 0
    ensures IsMode(MonthColumn(s), r.month)
    ensures IsMode(DayColumn(s), r.weekday)
    ensures IsMode(HourColumn(s), r.hour)
  {
    TimeStats(ModeOf(MonthColumn(s)), ModeOf(DayColumn(s)), ModeOf(HourColumn(s)))
  }

  datatype StationStats = StationStats(start: string, end: string, route: string)

  /** Most common start station, end station and joined route of a non-empty selection. */
  function StationStatsOf(s: seq<Trip>): (r: StationStats)
    requires |s| > 0
    ensures IsMode(StartColumn(s), r.start)
    ensures IsMode(EndColumn(s), r.end)
    ensures IsMode(RouteColumn(s), r.route)
  {
    StationStats(ModeOf(StartColumn(s)), ModeOf(EndColumn(s)), ModeOf(RouteColumn(s)))
  }

  /** The (start, end) pair of every record. */
  function PairColumn(s: seq<Trip>): (c: seq<(string, string)>)
    ensures |c| == |s| && forall i :: 0 <= i < |s| ==> c[i] == (s[i].startStation, s[i].endStation)
  {
    seq(|s|, i requires 0 <= i < |s| => (s[i].startStation, s[i].endStation))
  }

  /**
   * When no start station name contains '>', the mode of the joined route
   * strings is the join of the most common (start, end) pair: joining then
   * counting loses nothing.
   */
  lemma RouteModeIsPairMode(s: seq<Trip>)
    requires |s| > 0
    requires forall i :: 0 <= i < |s| ==> NoArrow(s[i].startStation)
    ensures StationStatsOf(s).route == Route(ModeOf(PairColumn(s)).0, ModeOf(PairColumn(s)).1)
  {
    var pairs := PairColumn(s);
    var join := (p: (string, string)) => Route(p.0, p.1);
    assert Image(pairs, join) == RouteColumn(s);
    forall i, j | 0 <= i < |pairs| && 0 <= j < |pairs| && join(pairs[i]) == join(pairs[j])
      ensures pairs[i] == pairs[j]
    {
      RouteInjective(pairs[i].0, pairs[i].1, pairs[j].0, pairs[j].1);
    }
    ModeOfInjectiveImage(pairs, join);
  }

  /** Nearest integer to num / den, halves to the even neighbour (Python's `round`). */
  function RoundHalfEven(num: int, den: int): (r: int)
    requires den > 0
    ensures 2 * (r * den - num) <= den && 2 * (num - r * den) <= den
    ensures 2 * (r * den - num) == den || 2 * (num - r * den) == den ==> r % 2 == 0
  {
    var q := num / den;
    var rem := num % den;
    if 2 * rem < den then q
    else if 2 * rem > den then q + 1
    else if q % 2 == 0 then q
    else q + 1
  }

  lemma RoundHalfEvenExamples()
    ensures RoundHalfEven(60, 3) == 20
    ensures RoundHalfEven(5, 2) == 2 && RoundHalfEven(7, 2) == 4 && RoundHalfEven(7, 3) == 2
  {
  }

  /**
   * Duration figures of a selection. The mean is kept exactly, as the
   * fraction total / count; `roundedMean` is the figure the program reports.
   */
  datatype DurationStats = DurationStats(total: int, count: nat, roundedMean: int)

  /**
   * Total and mean trip duration of a non-empty selection: the total is the
   * sum of the durations, the mean total / count lies between the shortest
   * and the longest trip, and the reported mean is the nearest integer to it,
   * halves going to the even neighbour.
   */
  function DurationStatsOf(s: seq<Trip>): (r: DurationStats)
    requires |s| > 0
    ensures r.total == Sum(DurationColumn(s)) && r.count == |s|
    ensures r.count * Min(DurationColumn(s)) <= r.total <= r.count * Max(DurationColumn(s))
    ensures 2 * (r.roundedMean * r.count - r.total) <= r.count
    ensures 2 * (r.total - r.roundedMean * r.count) <= r.count
    ensures (2 * (r.roundedMean * r.count - r.total) == r.count || 2 * (r.total - r.roundedMean * r.count) == r.count)
      ==> r.roundedMean % 2 == 0
  {
    var d := DurationColumn(s);
    SumBounds(d, Min(d), Max(d));
    DurationStats(Sum(d), |s|, RoundHalfEven(Sum(d), |s|))
  }

  function TripWithDuration(seconds: int): Trip
  {
    Trip(1, 0, 0, seconds, "A", "B", "Subscriber", None, None)
  }

  /** Durations 10, 20 and 30 seconds total 60 with a mean of 20. */
  lemma DurationExample()
    ensures var r := DurationStatsOf([TripWithDuration(10), TripWithDuration(20), TripWithDuration(30)]);
      r.total == 60 && r.total == 20 * r.count && r.roundedMean == 20
  {
    var s := [TripWithDuration(10), TripWithDuration(20), TripWithDuration(30)];
    assert DurationColumn(s) == [10, 20, 30];
  }

  /** Means of exactly 1.5 and 2.5 seconds are both reported as 2, the even neighbour. */
  lemma DurationTieExample()
    ensures DurationStatsOf([TripWithDuration(1), TripWithDuration(2)]).roundedMean == 2
    ensures DurationStatsOf([TripWithDuration(2), TripWithDuration(3)]).roundedMean == 2
  {
    assert DurationColumn([TripWithDuration(1), TripWithDuration(2)]) == [1, 2];
    assert DurationColumn([TripWithDuration(2), TripWithDuration(3)]) == [2, 3];
  }

  datatype Demographics = Demographics(
    genderCounts: seq<Group<string>>,
    birthYearMin: int,
    birthYearMax: int,
    birthYearMode: int)

  datatype UserStats = UserStats(typeCounts: seq<Group<string>>, demographics: Option<Demographics>)

  /**
   * `g` is the user-type breakdown of `s`: one group per user type present,
   * each holding the number of trips of that type, the counts summing to
   * the number of trips.
   */
  ghost predicate IsTypeBreakdown(s: seq<Trip>, g: seq<Group<string>>)
  {
    && GroupTotal(g) == |s|
    && (forall i :: 0 <= i < |g| ==> g[i].count == Count(UserTypeColumn(s), g[i].key) > 0)
    && (forall j :: 0 <= j < |s| ==> exists i :: 0 <= i < |g| && g[i].key == s[j].userType)
  }

  /**
   * `dm` describes the demographics of `s`: one gender group per filled
   * gender, each counting the trips with that gender, adding up to the trips
   * carrying one; the
   * birth-year figures are the least, greatest and most common filled year.
   */
  ghost predicate IsDemographicBreakdown(s: seq<Trip>, dm: Demographics)
  {
    var years := BirthYearColumn(s);
    && GroupTotal(dm.genderCounts) == GenderCarriers(s)
    && (forall i :: 0 <= i < |dm.genderCounts| ==>
          dm.genderCounts[i].count == Count(GenderCells(s), Some(dm.genderCounts[i].key)) > 0)
    && (forall i, j :: 0 <= i < j < |dm.genderCounts| ==> dm.genderCounts[i].key != dm.genderCounts[j].key)
    && (forall j :: 0 <= j < |s| && s[j].gender.Some? ==>
          exists i :: 0 <= i < |dm.genderCounts| && dm.genderCounts[i].key == s[j].gender.value)
    && dm.birthYearMin <= dm.birthYearMode <= dm.birthYearMax
    && dm.birthYearMin in years && dm.birthYearMax in years
    && IsMode(years, dm.birthYearMode)
    && (forall i :: 0 <= i < |years| ==> dm.birthYearMin <= years[i] <= dm.birthYearMax)
  }

  /** Trips per user type. */
  function UserTypeCounts(s: seq<Trip>): (g: seq<Group<string>>)
    ensures IsTypeBreakdown(s, g)
  {
    var column := UserTypeColumn(s);
    var g := GroupCounts(column);
    assert forall j :: 0 <= j < |s| ==> exists i :: 0 <= i < |g| && g[i].key == column[j];
    g
  }

  /** Gender counts and birth-year figures; needs at least one filled birth year. */
  function DemographicsOf(s: seq<Trip>): (dm: Demographics)
    requires |BirthYearColumn(s)| > 0
    ensures IsDemographicBreakdown(s, dm)
  {
    var years := BirthYearColumn(s);
    var genders := GenderColumn(s);
    var groups := GroupCounts(genders);
    forall j | 0 <= j < |s| && s[j].gender.Some?
      ensures exists i :: 0 <= i < |groups| && groups[i].key == s[j].gender.value
    {
      var g := s[j].gender.value;
      assert GenderCells(s)[j] == Some(g);
      assert Count(genders, g) > 0;
      var k := IndexOf(genders, g);
      assert genders[k] == g;
    }
    Demographics(groups, Min(years), Max(years), ModeOf(years))
  }

  /**
   * User-type counts, and for cities that record them, gender counts and the
   * earliest, latest and most common birth year. A city with demographic
   * columns needs at least one filled birth-year cell in the selection.
   */
  function UserStatsOf(s: seq<Trip>, city: City): (r: UserStats)
    requires HasDemographics(city) ==> |BirthYearColumn(s)| > 0
    ensures IsTypeBreakdown(s, r.typeCounts)
    ensures r.demographics.None? <==> city == Washington
    ensures r.demographics.Some? ==> IsDemographicBreakdown(s, r.demographics.value)
  {
    var types := UserTypeCounts(s);
    if city == Washington then UserStats(types, None)
    else UserStats(types, Some(DemographicsOf(s)))
  }

  datatype StatsError = EmptySelection | NoBirthYears

  datatype Report = Report(time: TimeStats, stations: StationStats, duration: DurationStats, users: UserStats)

  /**
   * All four statistic groups of a selection. An empty selection, and a
   * selection without any birth year in a city that records them, have no
   * statistics: the program stops with an exception there.
   */
  function Analyze(s: seq<Trip>, city: City): (r: Result<Report, StatsError>)
    ensures r.Failure? <==> |s| == 0 || (HasDemographics(city) && |BirthYearColumn(s)| == 0)
    ensures r.Failure? ==> (r.error == EmptySelection <==> |s| == 0)
    ensures r.Success? ==>
      var rep := r.value;
      && IsMode(MonthColumn(s), rep.time.month)
      && IsMode(DayColumn(s), rep.time.weekday)
      && IsMode(HourColumn(s), rep.time.hour)
      && IsMode(StartColumn(s), rep.stations.start)
      && IsMode(EndColumn(s), rep.stations.end)
      && IsMode(RouteColumn(s), rep.stations.route)
      && rep.duration.total == Sum(DurationColumn(s)) && rep.duration.count == |s|
      && |s| * Min(DurationColumn(s)) <= rep.duration.total <= |s| * Max(DurationColumn(s))
      && 2 * (rep.duration.roundedMean * |s| - rep.duration.total) <= |s|
      && 2 * (rep.duration.total - rep.duration.roundedMean * |s|) <= |s|
      && ((2 * (rep.duration.roundedMean * |s| - rep.duration.total) == |s|
           || 2 * (rep.duration.total - rep.duration.roundedMean * |s|) == |s|)
          ==> rep.duration.roundedMean % 2 == 0)
      && IsTypeBreakdown(s, rep.users.typeCounts)
      && (rep.users.demographics.None? <==> city == Washington)
      && (rep.users.demographics.Some? ==> IsDemographicBreakdown(s, rep.users.demographics.value))
  {
    if |s| == 0 then Failure(EmptySelection)
    else if HasDemographics(city) && |BirthYearColumn(s)| == 0 then Failure(NoBirthYears)
    else Success(Report(TimeStatsOf(s), StationStatsOf(s), DurationStatsOf(s), UserStatsOf(s, city)))
  }

  /** A filter that keeps nothing leads to the explicit empty-selection outcome. */
  lemma EmptySelectionReported(records: seq<Trip>, spec: FilterSpec, city: City)
    requires forall i :: 0 <= i < |records| ==> !Matches(spec, records[i])
    ensures Analyze(LoadFilter(records, spec), city) == Failure(EmptySelection)
  {
    SelectNone(records, spec);
  }
}
