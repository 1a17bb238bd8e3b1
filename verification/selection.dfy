/**
 * The record selection of `load_data`: the answers to the month and day
 * questions become an optional month number and an optional weekday number,
 * and the city's records are narrowed by month, then by weekday.
 */
module Selection {
  import opened Wrappers
  import opened Seqs
  import opened Trips

  /** The month vocabulary; a month's number is its position plus one. */
  const MonthNames: seq<string> := ["jan", "feb", "mar", "apr", "may", "jun"]

  /** The weekday vocabulary: the digits 0 to 6. */
  const DayAnswers: seq<string> := ["0", "1", "2", "3", "4", "5", "6"]

  /** The answer that switches a filter off. */
  const NoFilter: string := "none"

  /** Month number of a month name, as `months.index(name) + 1`. */
  function MonthNumber(name: string): (m: int)
    requires name in MonthNames
    ensures 1 <= m <= 6
    ensures MonthNames[m - 1] == name
  {
    IndexOf(MonthNames, name) + 1
  }

  /** Distinct month names never share a month number. */
  lemma MonthNumberInjective(a: string, b: string)
    requires a in MonthNames && b in MonthNames
    requires a != b
    ensures MonthNumber(a) != MonthNumber(b)
  {
  }

  lemma MonthNumberExamples()
    ensures MonthNumber("jan") == 1 && MonthNumber("mar") == 3 && MonthNumber("jun") == 6
  {
    assert MonthNames[0] == "jan";
    assert MonthNames[2] == "mar";
    assert MonthNames[5] == "jun";
  }

  /** Weekday number of a one-digit answer, as `int(answer)`. */
  function DayNumber(answer: string): (d: int)
    requires answer in DayAnswers
    ensures 0 <= d <= 6
    ensures DayAnswers[d] == answer
  {
    (answer[0] as int) - ('0' as int)
  }

  /** What to keep: an optional month number and an optional weekday number. */
  datatype FilterSpec = FilterSpec(month: Option<int>, day: Option<int>)

  /** The filter chosen by a validated pair of answers; "none" switches a dimension off. */
  function SpecOfAnswers(monthAnswer: string, dayAnswer: string): (spec: FilterSpec)
    requires monthAnswer in MonthNames || monthAnswer == NoFilter
    requires dayAnswer in DayAnswers || dayAnswer == NoFilter
    ensures spec.month.None? <==> monthAnswer == NoFilter
    ensures spec.month.Some? ==> 1 <= spec.month.value <= 6 && MonthNames[spec.month.value - 1] == monthAnswer
    ensures spec.day.None? <==> dayAnswer == NoFilter
    ensures spec.day.Some? ==> 0 <= spec.day.value <= 6 && DayAnswers[spec.day.value] == dayAnswer
  {
    FilterSpec(
      if monthAnswer != NoFilter then Some(MonthNumber(monthAnswer)) else None,
      if dayAnswer != NoFilter then Some(DayNumber(dayAnswer)) else None)
  }

  /** A record passes when it agrees with every dimension the filter constrains. */
  predicate Matches(spec: FilterSpec, t: Trip)
  {
    && (spec.month.Some? ==> t.month == spec.month.value)
    && (spec.day.Some? ==> t.dayOfWeek == spec.day.value)
  }

  /**
   * The records that match `spec`, in their original order: every kept
   * record matches, every matching record is kept as often as it occurs,
   * and nothing else is.
   */
  function Select(s: seq<Trip>, spec: FilterSpec): (r: seq<Trip>)
    ensures |r| <= |s|
    ensures forall i :: 0 <= i < |r| ==> Matches(spec, r[i])
    ensures forall t :: t in r <==> t in s && Matches(spec, t)
    ensures IsSubseq(r, s)
  {
    if |s| == 0 then []
    else
      var rest := Select(s[1..], spec);
      if Matches(spec, s[0]) then
        assert ([s[0]] + rest)[1..] == rest;
        [s[0]] + rest
      else
        SubseqOfTail(rest, s);
        rest
  }

  /** Selection keeps each record's multiplicity when it matches and drops it otherwise. */
  lemma {:induction false} SelectCount(s: seq<Trip>, spec: FilterSpec, t: Trip)
    ensures Count(Select(s, spec), t) == if Matches(spec, t) then Count(s, t) else 0
  {
    if |s| > 0 {
      SelectCount(s[1..], spec, t);
      if Matches(spec, s[0]) {
        assert ([s[0]] + Select(s[1..], spec))[1..] == Select(s[1..], spec);
      }
    }
  }

  /** A filter that no record matches keeps nothing. */
  lemma {:induction false} SelectNone(s: seq<Trip>, spec: FilterSpec)
    requires forall i :: 0 <= i < |s| ==> !Matches(spec, s[i])
    ensures Select(s, spec) == []
  {
    if |s| > 0 {
      SelectNone(s[1..], spec);
    }
  }

  /** Selection distributes over concatenation, so relative order is preserved. */
  lemma {:induction false} SelectAppend(a: seq<Trip>, b: seq<Trip>, spec: FilterSpec)
    ensures Select(a + b, spec) == Select(a, spec) + Select(b, spec)
  {
    if |a| == 0 {
      assert a + b == b;
    } else {
      assert (a + b)[0] == a[0];
      assert (a + b)[1..] == a[1..] + b;
      SelectAppend(a[1..], b, spec);
    }
  }

  /** With no month and no day filter, every record is kept. */
  lemma {:induction false} SelectAllIsIdentity(s: seq<Trip>)
    ensures Select(s, FilterSpec(None, None)) == s
  {
    if |s| > 0 {
      SelectAllIsIdentity(s[1..]);
      assert [s[0]] + s[1..] == s;
    }
  }

  /** Narrowing by month and then by weekday is narrowing once by both. */
  lemma {:induction false} SelectThenSelect(s: seq<Trip>, m: int, d: int)
    ensures Select(Select(s, FilterSpec(Some(m), None)), FilterSpec(None, Some(d)))
         == Select(s, FilterSpec(Some(m), Some(d)))
  {
    if |s| > 0 {
      SelectThenSelect(s[1..], m, d);
      var inner := Select(s[1..], FilterSpec(Some(m), None));
      if s[0].month == m {
        assert ([s[0]] + inner)[0] == s[0];
        assert ([s[0]] + inner)[1..] == inner;
      }
    }
  }

  /**
   * `load_data`'s narrowing: the month mask first (if a month is chosen),
   * then the weekday mask (if a day is chosen). It keeps exactly the
   * records that match both optional selectors, in order, and with both
   * selectors off it returns the input unchanged.
   */
  function LoadFilter(s: seq<Trip>, spec: FilterSpec): (r: seq<Trip>)
    ensures r == Select(s, spec)
    ensures spec.month.None? && spec.day.None? ==> r == s
  {
    SelectAllIsIdentity(s);
    if spec.month.Some? && spec.day.Some? then
      SelectThenSelect(s, spec.month.value, spec.day.value);
      Select(Select(s, FilterSpec(spec.month, None)), FilterSpec(None, spec.day))
    else if spec.month.Some? then Select(s, FilterSpec(spec.month, None))
    else if spec.day.Some? then Select(s, FilterSpec(None, spec.day))
    else s
  }
}
