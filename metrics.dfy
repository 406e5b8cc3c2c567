/** The integer arithmetic behind the plotted curves of `draw_evolution_graph`:
    the cumulative-from-end death totals and the windowed average of daily
    deaths, over the records of one country in feed order. */
module Metrics {
  import opened CovidData

  /** The deaths of a run of records, added up front to back. */
  function SumDeaths(records: seq<Record>): int {
    if records == [] then 0 else records[0].deaths + SumDeaths(records[1..])
  }

  lemma {:induction false} SumDeathsAppend(a: seq<Record>, b: seq<Record>)
    ensures SumDeaths(a + b) == SumDeaths(a) + SumDeaths(b)
  {
    if a == [] {
      assert a + b == b;
    } else {
      assert (a + b)[1..] == a[1..] + b;
      SumDeathsAppend(a[1..], b);
    }
  }

  /** The running-sum block: walks the records from the last to the first,
      adding up deaths, and emits one (day, running sum) point per record,
      then the final sum. */
  method CumulativeFromEnd(records: seq<Record>) returns (deaths: seq<(int, int)>, runningSum: int)
    ensures |deaths| == |records|
    ensures forall k :: 0 <= k < |records| ==>
      deaths[k] == (records[|records| - 1 - k].day, SumDeaths(records[|records| - 1 - k..]))
    ensures runningSum == SumDeaths(records)
    ensures records != [] ==> deaths[0] == (records[|records| - 1].day, records[|records| - 1].deaths)
    ensures records != [] ==> deaths[|records| - 1] == (records[0].day, runningSum)
    ensures forall k :: 0 <= k < |records| - 1 ==>
      deaths[k + 1].1 == deaths[k].1 + records[|records| - 2 - k].deaths
  {
    var n := |records|;
    runningSum := 0;
    deaths := [];
    for i := 0 to n
      invariant |deaths| == i
      invariant runningSum == SumDeaths(records[n - i..])
      invariant forall k :: 0 <= k < i ==> deaths[k] == (records[n - 1 - k].day, SumDeaths(records[n - 1 - k..]))
    {
      var record := records[n - 1 - i];
      assert records[n - 1 - i..][1..] == records[n - i..];
      runningSum := runningSum + record.deaths;
      deaths := deaths + [(record.day, runningSum)];
    }
    assert records[0..] == records;
    if n > 0 {
      assert records[n - 1..][1..] == [];
    }
    forall k | 0 <= k < n - 1
      ensures deaths[k + 1].1 == deaths[k].1 + records[n - 2 - k].deaths
    {
      SumDeathsFrom(records, n - 2 - k);
    }
  }

  /** A suffix sum is its first record's deaths plus the next suffix sum. */
  lemma SumDeathsFrom(records: seq<Record>, j: nat)
    requires j < |records|
    ensures SumDeaths(records[j..]) == records[j].deaths + SumDeaths(records[j + 1..])
  {
    assert records[j..][1..] == records[j + 1..];
  }

  /** Cumulative-from-end on deaths 5, 3, 2 gives 10, 5, 2 at those records. */
  lemma CumulativeExample(a: Record, b: Record, c: Record)
    requires a.deaths == 5 && b.deaths == 3 && c.deaths == 2
    ensures SumDeaths([a, b, c][0..]) == 10
    ensures SumDeaths([a, b, c][1..]) == 5
    ensures SumDeaths([a, b, c][2..]) == 2
  {
    assert [a, b, c][2..] == [c] && [c][1..] == [];
    assert SumDeaths([c]) == 2;
    assert [a, b, c][1..] == [b, c] && [b, c][1..] == [c];
    assert SumDeaths([b, c]) == 5;
    assert [a, b, c][0..] == [a, b, c] && [a, b, c][1..] == [b, c];
  }

  /** Iterator `skip(n)`: drops up to n items from the front. */
  function Skip<T>(s: seq<T>, n: nat): (r: seq<T>)
    ensures |r| == if n <= |s| then |s| - n else 0
    ensures forall i :: 0 <= i < |r| ==> r[i] == s[n + i]
  {
    if n == 0 || s == [] then s else Skip(s[1..], n - 1)
  }

  /** Iterator `take(n)`: keeps up to n items from the front. */
  function Take<T>(s: seq<T>, n: nat): (r: seq<T>)
    ensures |r| == if n <= |s| then n else |s|
    ensures forall i :: 0 <= i < |r| ==> r[i] == s[i]
  {
    if n == 0 || s == [] then [] else [s[0]] + Take(s[1..], n - 1)
  }

  function Min(a: int, b: int): int {
    if a <= b then a else b
  }

  /** The integer sum of `averaged_daily_deaths`: the deaths of the avgDays
      records that end just before currentDay (currentDay itself is not in
      the window), or of fewer when the records run out first. The `usize`
      subtraction currentDay - avgDays must not underflow. */
  function WindowDeaths(records: seq<Record>, currentDay: nat, avgDays: nat): (total: int)
    requires avgDays <= currentDay
    ensures total == SumDeaths(records[Min(currentDay - avgDays, |records|)..Min(currentDay, |records|)])
    ensures currentDay <= |records| ==> total == SumDeaths(records[currentDay - avgDays..currentDay])
  {
    var window := Take(Skip(records, currentDay - avgDays), avgDays);
    assert window == records[Min(currentDay - avgDays, |records|)..Min(currentDay, |records|)];
    SumDeaths(window)
  }

  /** The window is the difference of two prefix sums. */
  lemma WindowDeathsIsPrefixDifference(records: seq<Record>, currentDay: nat, avgDays: nat)
    requires avgDays <= currentDay <= |records|
    ensures WindowDeaths(records, currentDay, avgDays)
            == SumDeaths(records[..currentDay]) - SumDeaths(records[..currentDay - avgDays])
  {
    var start := currentDay - avgDays;
    assert records[..currentDay] == records[..start] + records[start..currentDay];
    SumDeathsAppend(records[..start], records[start..currentDay]);
  }

  /** Moving the window one record on adds the record that enters and drops
      the one that leaves. */
  lemma WindowDeathsSlides(records: seq<Record>, currentDay: nat, avgDays: nat)
    requires avgDays <= currentDay < |records|
    ensures WindowDeaths(records, currentDay + 1, avgDays)
            == WindowDeaths(records, currentDay, avgDays) + records[currentDay].deaths
               - records[currentDay - avgDays].deaths
  {
    WindowDeathsIsPrefixDifference(records, currentDay, avgDays);
    WindowDeathsIsPrefixDifference(records, currentDay + 1, avgDays);
    var start := currentDay - avgDays;
    assert records[..currentDay + 1] == records[..currentDay] + [records[currentDay]];
    SumDeathsAppend(records[..currentDay], [records[currentDay]]);
    assert records[..start + 1] == records[..start] + [records[start]];
    SumDeathsAppend(records[..start], [records[start]]);
  }

  /** `averaged_daily_deaths`: the window's deaths divided by avgDays. */
  function AveragedDailyDeaths(records: seq<Record>, currentDay: nat, avgDays: nat): (average: real)
    requires 0 < avgDays <= currentDay
    ensures currentDay <= |records| ==>
      average * avgDays as real == SumDeaths(records[currentDay - avgDays..currentDay]) as real
  {
    WindowDeaths(records, currentDay, avgDays) as real / avgDays as real
  }

  function Enumerate<T>(s: seq<T>): seq<(nat, T)> {
    seq(|s|, i requires 0 <= i < |s| => (i, s[i]))
  }

  /** The rolling series: `records.iter().enumerate().skip(avgDays)` mapped to
      (day, averaged deaths). One point per index i with avgDays <= i < len,
      placed at record i and averaging records i - avgDays to i - 1. */
  function RollingAverage(records: seq<Record>, avgDays: nat): (points: seq<(int, real)>)
    requires 0 < avgDays
    ensures |points| == if avgDays < |records| then |records| - avgDays else 0
    ensures forall k :: 0 <= k < |points| ==>
      && points[k].0 == records[avgDays + k].day
      && points[k].1 * avgDays as real == SumDeaths(records[k..k + avgDays]) as real
  {
    var indexed := Skip(Enumerate(records), avgDays);
    assert forall k :: 0 <= k < |indexed| ==> indexed[k] == (avgDays + k, records[avgDays + k]);
    seq(|indexed|, k requires 0 <= k < |indexed| =>
      (indexed[k].1.day, AveragedDailyDeaths(records, indexed[k].0, avgDays)))
  }

  /** With avgDays == len there is no point at all: the first point needs a
      full window before it. */
  lemma RollingAverageNeedsMoreThanWindow(records: seq<Record>, avgDays: nat)
    requires 0 < avgDays && |records| <= avgDays
    ensures RollingAverage(records, avgDays) == []
  {
  }

  /** Window 3 over daily deaths 10, 20, 30, 40 gives one point, at the last
      record, averaging the three records before it: 20. */
  lemma RollingAverageExample(a: Record, b: Record, c: Record, d: Record)
    requires a.deaths == 10 && b.deaths == 20 && c.deaths == 30 && d.deaths == 40
    ensures RollingAverage([a, b, c, d], 3) == [(d.day, 20.0)]
  {
    var records := [a, b, c, d];
    var points := RollingAverage(records, 3);
    assert records[0..3] == [a, b, c];
    assert [c][1..] == [] && SumDeaths([c]) == 30;
    assert [b, c][1..] == [c] && SumDeaths([b, c]) == 50;
    assert [a, b, c][1..] == [b, c] && SumDeaths([a, b, c]) == 60;
    assert points[0].1 * 3.0 == 60.0;
  }

  /** The countries drawn on every chart, by display name. */
  const ChartedCountries: seq<string> :=
    ["Spain", "Sweden", "Belgium", "United Kingdom", "Germany", "Brazil", "United States of America"]

  /** The filter in front of each chart: the regions whose display name is
      in the charted list, in their given order. */
  function SelectCharted(regions: seq<CountryData>): (charted: seq<CountryData>)
    ensures |charted| <= |regions|
    ensures forall c :: c in charted <==> c in regions && c.countryName in ChartedCountries
  {
    if regions == [] then []
    else
      (if regions[0].countryName in ChartedCountries then [regions[0]] else [])
      + SelectCharted(regions[1..])
  }
}
