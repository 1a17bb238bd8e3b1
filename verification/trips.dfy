/**
 * One trip record after loading: the calendar fields derived from the start
 * timestamp, the trip duration in whole seconds, the two stations, the user
 * type, and the demographic columns that only some cities carry.
 */
module Trips {
  import opened Wrappers
  import opened Seqs

  /** The three supported cities. */
  datatype City = Chicago | NewYork | Washington

  /** Washington's data set has no gender and no birth-year columns. */
  predicate HasDemographics(c: City)
  {
    c != Washington
  }

  /** The city named by a validated answer to the city question. */
  function CityOfAnswer(answer: string): (c: City)
    requires answer in ["chicago", "new york", "washington"]
    ensures c == Washington <==> answer == "washington"
    ensures HasDemographics(c) <==> answer != "washington"
  {
    if answer == "chicago" then Chicago
    else if answer == "new york" then NewYork
    else Washington
  }

  datatype Trip = Trip(
    month: int,
    dayOfWeek: int,
    hour: int,
    duration: int,
    startStation: string,
    endStation: string,
    userType: string,
    gender: Option<string>,
    birthYear: Option<int>)

  function MonthColumn(s: seq<Trip>): (c: seq<int>)
    ensures |c| == |s| && forall i :: 0 <= i < |s| ==> c[i] == s[i].month
  {
    seq(|s|, i requires 0 <= i < |s| => s[i].month)
  }

  function DayColumn(s: seq<Trip>): (c: seq<int>)
    ensures |c| == |s| && forall i :: 0 <= i < |s| ==> c[i] == s[i].dayOfWeek
  {
    seq(|s|, i requires 0 <= i < |s| => s[i].dayOfWeek)
  }

  function HourColumn(s: seq<Trip>): (c: seq<int>)
    ensures |c| == |s| && forall i :: 0 <= i < |s| ==> c[i] == s[i].hour
  {
    seq(|s|, i requires 0 <= i < |s| => s[i].hour)
  }

  function DurationColumn(s: seq<Trip>): (c: seq<int>)
    ensures |c| == |s| && forall i :: 0 <= i < |s| ==> c[i] == s[i].duration
  {
    seq(|s|, i requires 0 <= i < |s| => s[i].duration)
  }

  function StartColumn(s: seq<Trip>): (c: seq<string>)
    ensures |c| == |s| && forall i :: 0 <= i < |s| ==> c[i] == s[i].startStation
  {
    seq(|s|, i requires 0 <= i < |s| => s[i].startStation)
  }

  function EndColumn(s: seq<Trip>): (c: seq<string>)
    ensures |c| == |s| && forall i :: 0 <= i < |s| ==> c[i] == s[i].endStation
  {
    seq(|s|, i requires 0 <= i < |s| => s[i].endStation)
  }

  function UserTypeColumn(s: seq<Trip>): (c: seq<string>)
    ensures |c| == |s| && forall i :: 0 <= i < |s| ==> c[i] == s[i].userType
  {
    seq(|s|, i requires 0 <= i < |s| => s[i].userType)
  }

  /** Number of records whose gender cell is filled. */
  function GenderCarriers(s: seq<Trip>): nat
  {
    if |s| == 0 then 0 else (if s[0].gender.Some? then 1 else 0) + GenderCarriers(s[1..])
  }

  /** The filled gender cells in record order; blank cells are not grouped. */
  function GenderColumn(s: seq<Trip>): (c: seq<string>)
    ensures |c| == GenderCarriers(s)
    ensures forall g :: Count(c, g) == Count(GenderCells(s), Some(g))
  {
    if |s| == 0 then []
    else
      var rest := GenderColumn(s[1..]);
      assert GenderCells(s)[1..] == GenderCells(s[1..]);
      if s[0].gender.Some? then [s[0].gender.value] + rest else rest
  }

  /** Every gender cell, blank or not. */
  function GenderCells(s: seq<Trip>): (c: seq<Option<string>>)
    ensures |c| == |s| && forall i :: 0 <= i < |s| ==> c[i] == s[i].gender
  {
    seq(|s|, i requires 0 <= i < |s| => s[i].gender)
  }

  /** The filled birth-year cells in record order; blank cells are skipped. */
  function BirthYearColumn(s: seq<Trip>): (c: seq<int>)
    ensures |c| <= |s|
    ensures forall y :: y in c <==> exists i :: 0 <= i < |s| && s[i].birthYear == Some(y)
    ensures forall y :: Count(c, y) == Count(BirthYearCells(s), Some(y))
  {
    if |s| == 0 then []
    else
      var rest := BirthYearColumn(s[1..]);
      assert forall i :: 1 <= i < |s| ==> s[i] == s[1..][i - 1];
      assert BirthYearCells(s)[1..] == BirthYearCells(s[1..]);
      if s[0].birthYear.Some? then [s[0].birthYear.value] + rest else rest
  }

  /** Every birth-year cell, blank or not. */
  function BirthYearCells(s: seq<Trip>): (c: seq<Option<int>>)
    ensures |c| == |s| && forall i :: 0 <= i < |s| ==> c[i] == s[i].birthYear
  {
    seq(|s|, i requires 0 <= i < |s| => s[i].birthYear)
  }

  /** The separator that joins the two station names into a route. */
  const RouteSeparator: string := " --> "

  /** The route of a trip, its two station names joined by the separator. */
  function Route(start: string, end: string): (r: string)
    ensures |r| == |start| + |RouteSeparator| + |end|
    ensures r[..|start|] == start && r[|start| + |RouteSeparator|..] == end
  {
    start + RouteSeparator + end
  }

  function RouteColumn(s: seq<Trip>): (c: seq<string>)
    ensures |c| == |s| && forall i :: 0 <= i < |s| ==> c[i] == Route(s[i].startStation, s[i].endStation)
  {
    seq(|s|, i requires 0 <= i < |s| => Route(s[i].startStation, s[i].endStation))
  }

  /** A station name with no '>' cannot hide a separator. */
  predicate NoArrow(name: string)
  {
    forall i :: 0 <= i < |name| ==> name[i] != '>'
  }

  /** In a route whose start name has no '>', the first '>' is the separator's. */
  lemma FirstArrow(a: string, b: string)
    requires NoArrow(a)
    ensures |Route(a, b)| > |a| + 3 && Route(a, b)[|a| + 3] == '>'
    ensures forall i :: 0 <= i < |a| + 3 ==> Route(a, b)[i] != '>'
  {
    var r := Route(a, b);
    forall i | 0 <= i < |a| + 3 ensures r[i] != '>' {
      if i < |a| {
        assert r[i] == a[i];
      } else {
        assert r[i] == RouteSeparator[i - |a|];
      }
    }
  }

  /**
   * When the start station names contain no '>', a route string determines
   * both of its stations: the first '>' sits right after the start name.
   */
  lemma RouteInjective(a: string, b: string, c: string, d: string)
    requires NoArrow(a) && NoArrow(c)
    requires Route(a, b) == Route(c, d)
    ensures a == c && b == d
  {
    FirstArrow(a, b);
    FirstArrow(c, d);
    assert |a| <= |c|;
    assert |c| <= |a|;
  }

  /** Trips A to B and B to A give different routes for '>'-free names. */
  lemma RouteReversalDistinct(a: string, b: string)
    requires NoArrow(a) && NoArrow(b) && a != b
    ensures Route(a, b) != Route(b, a)
  {
    if Route(a, b) == Route(b, a) {
      RouteInjective(a, b, b, a);
    }
  }

  /** Without that restriction the reversal property fails: these two routes collide. */
  lemma RouteCollision()
    ensures "p" != "p --> p"
    ensures Route("p", "p --> p") == Route("p --> p", "p")
  {
  }
}
