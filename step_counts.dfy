/**
 * The step-count script: HealthKit step samples are grouped by the day they
 * start on, the days are visited in ascending order, and each day's counts
 * are totalled into 24 hourly slots.
 */
module StepCounts {
  import opened Options
  import opened Enumerations
  import opened LexOrder

  /** One entry of the `stepCounts` list: its `startDate` when the entry has
      one, and its `count` as `int(...)` reads it. */
  datatype Sample = Sample(startDate: Option<string>, count: int)

  predicate IsDigit(c: char)
  {
    '0' <= c <= '9'
  }

  predicate DigitsAt(s: string, lo: nat, hi: nat)
    requires lo <= hi <= |s|
  {
    forall i :: lo <= i < hi ==> IsDigit(s[i])
  }

  /** The first ten characters read as "%Y-%m-%d". */
  predicate DateLayout(s: string)
  {
    && |s| >= 10
    && DigitsAt(s, 0, 4) && s[4] == '-'
    && DigitsAt(s, 5, 7) && s[7] == '-'
    && DigitsAt(s, 8, 10)
  }

  /** The hour written at characters 11 and 12 of a timestamp. */
  function Hour(s: string): nat
    requires |s| >= 13 && IsDigit(s[11]) && IsDigit(s[12])
  {
    10 * (s[11] as int - '0' as int) + (s[12] as int - '0' as int)
  }

  /** The first nineteen characters laid out as "%Y-%m-%dT%H:%M:%S" with an
      hour below 24: the layout `strptime` parses, without its range checks
      on month, day, minute and second. */
  predicate WellFormed(s: string)
  {
    && DateLayout(s)
    && |s| >= 19 && s[10] == 'T'
    && DigitsAt(s, 11, 13) && s[13] == ':'
    && DigitsAt(s, 14, 16) && s[16] == ':'
    && DigitsAt(s, 17, 19)
    && Hour(s) < 24
  }

  /** `truncateDateStr`: the date of a timestamp at midnight, in ISO form. */
  function TruncateDateStr(s: string): (d: string)
    requires DateLayout(s)
    ensures |d| == 19 && d[..10] == s[..10] && d[10..] == "T00:00:00"
  {
    s[..10] + "T00:00:00"
  }

  /** Only the first ten characters matter to `truncateDateStr`. */
  lemma TruncateReadsDateOnly(s: string, t: string)
    requires DateLayout(s) && DateLayout(t) && s[..10] == t[..10]
    ensures TruncateDateStr(s) == TruncateDateStr(t)
  {
  }

  /** A truncated date is a well-formed timestamp, and truncating it again
      changes nothing. */
  lemma TruncateIdempotent(s: string)
    requires DateLayout(s)
    ensures WellFormed(TruncateDateStr(s)) && Hour(TruncateDateStr(s)) == 0
    ensures TruncateDateStr(TruncateDateStr(s)) == TruncateDateStr(s)
  {
    var d := TruncateDateStr(s);
    assert d[..10] == s[..10];
    assert forall i :: 0 <= i < 10 ==> d[i] == s[i];
  }

  /** A sample the script can process without `strptime` raising. */
  predicate Parsable(x: Sample)
  {
    x.startDate.Some? ==> WellFormed(x.startDate.value)
  }

  predicate AllParsable(steps: seq<Sample>)
  {
    forall i :: 0 <= i < |steps| ==> Parsable(steps[i])
  }

  /** A sample that has a well-formed `startDate`. */
  predicate Timed(x: Sample)
  {
    x.startDate.Some? && WellFormed(x.startDate.value)
  }

  predicate AllTimed(g: seq<Sample>)
  {
    forall i :: 0 <= i < |g| ==> Timed(g[i])
  }

  /** The key a sample is grouped under (line 60). */
  function DayKey(x: Sample): string
    requires Timed(x)
  {
    TruncateDateStr(x.startDate.value)[..19]
  }

  /** The hour slot a sample is counted in (lines 84-85). */
  function HourOf(x: Sample): nat
    requires Timed(x)
  {
    Hour(x.startDate.value)
  }

  function CountOf(x: Sample): int
  {
    x.count
  }

  function One(x: Sample): int
  {
    1
  }

  /** The samples that have a `startDate`, in input order. */
  function Dated(steps: seq<Sample>): (d: seq<Sample>)
    ensures forall i :: 0 <= i < |d| ==> d[i] in steps && d[i].startDate.Some?
  {
    if steps == [] then []
    else
      var last := steps[|steps| - 1];
      Dated(steps[..|steps| - 1]) + (if last.startDate.Some? then [last] else [])
  }

  /** The days some sample starts on. */
  function Days(steps: seq<Sample>): set<string>
    requires AllParsable(steps)
  {
    if steps == [] then {}
    else
      var last := steps[|steps| - 1];
      Days(steps[..|steps| - 1]) + (if last.startDate.Some? then {DayKey(last)} else {})
  }

  /** The samples that start on day `k`, in input order. */
  function OnDay(steps: seq<Sample>, k: string): (g: seq<Sample>)
    requires AllParsable(steps)
    ensures forall i :: 0 <= i < |g| ==> g[i] in steps && Timed(g[i]) && DayKey(g[i]) == k
    ensures g != [] ==> k in Days(steps)
  {
    if steps == [] then []
    else
      var last := steps[|steps| - 1];
      OnDay(steps[..|steps| - 1], k) + (if last.startDate.Some? && DayKey(last) == k then [last] else [])
  }

  /** The total weight of a list of samples. */
  function SumBy(g: seq<Sample>, w: Sample -> int): int
  {
    if g == [] then 0 else SumBy(g[..|g| - 1], w) + w(g[|g| - 1])
  }

  /** The total weight of the groups of the days `ks`, taken in that order. */
  function GroupsTotal(steps: seq<Sample>, ks: seq<string>, w: Sample -> int): int
    requires AllParsable(steps)
  {
    if ks == [] then 0
    else GroupsTotal(steps, ks[..|ks| - 1], w) + SumBy(OnDay(steps, ks[|ks| - 1]), w)
  }

  /** `v` added once for every occurrence of `k` in `ks`. */
  function Hits(ks: seq<string>, k: string, v: int): int
  {
    if ks == [] then 0 else Hits(ks[..|ks| - 1], k, v) + (if ks[|ks| - 1] == k then v else 0)
  }

  lemma {:induction false} HitsOnce(ks: seq<string>, k: string, v: int)
    requires Distinct(ks)
    ensures Hits(ks, k, v) == (if k in ks then v else 0)
  {
    if ks != [] {
      var init := ks[..|ks| - 1];
      assert Distinct(init);
      HitsOnce(init, k, v);
      assert ks == init + [ks[|ks| - 1]];
      if ks[|ks| - 1] == k {
        assert k !in init by {
          forall i | 0 <= i < |init| ensures init[i] != k {
            assert ks[i] == init[i];
          }
        }
      }
    }
  }

  /** Appending one sample to the input adds its weight once to every listed
      group of its day. */
  lemma {:induction false} GroupsTotalSnoc(steps: seq<Sample>, ks: seq<string>, w: Sample -> int)
    requires steps != [] && AllParsable(steps)
    ensures AllParsable(steps[..|steps| - 1])
    ensures
      var last := steps[|steps| - 1];
      GroupsTotal(steps, ks, w) ==
        GroupsTotal(steps[..|steps| - 1], ks, w)
        + (if last.startDate.Some? then Hits(ks, DayKey(last), w(last)) else 0)
  {
    var init := steps[..|steps| - 1];
    var last := steps[|steps| - 1];
    if ks != [] {
      GroupsTotalSnoc(steps, ks[..|ks| - 1], w);
      var k := ks[|ks| - 1];
      OnDaySnoc(steps, k, w);
    }
  }

  lemma {:induction false} OnDaySnoc(steps: seq<Sample>, k: string, w: Sample -> int)
    requires steps != [] && AllParsable(steps)
    ensures AllParsable(steps[..|steps| - 1])
    ensures
      var last := steps[|steps| - 1];
      SumBy(OnDay(steps, k), w) ==
        SumBy(OnDay(steps[..|steps| - 1], k), w)
        + (if last.startDate.Some? && DayKey(last) == k then w(last) else 0)
  {
    var last := steps[|steps| - 1];
    var g := OnDay(steps[..|steps| - 1], k);
    if last.startDate.Some? && DayKey(last) == k {
      assert OnDay(steps, k) == g + [last];
      assert (g + [last])[..|g|] == g;
      assert SumBy(g + [last], w) == SumBy(g, w) + w(last);
    } else {
      assert OnDay(steps, k) == g;
    }
  }

  /** Grouping loses and duplicates nothing: over any repetition-free list of
      days that covers every day of the input, the groups together weigh what
      the dated samples weigh. */
  lemma {:induction false} GroupingConserves(steps: seq<Sample>, ks: seq<string>, w: Sample -> int)
    requires AllParsable(steps)
    requires Distinct(ks) && forall k :: k in Days(steps) ==> k in ks
    ensures GroupsTotal(steps, ks, w) == SumBy(Dated(steps), w)
  {
    if steps == [] {
      EmptyGroupsTotal(steps, ks, w);
    } else {
      var init := steps[..|steps| - 1];
      var last := steps[|steps| - 1];
      GroupsTotalSnoc(steps, ks, w);
      GroupingConserves(init, ks, w);
      if last.startDate.Some? {
        HitsOnce(ks, DayKey(last), w(last));
        var d := Dated(init);
        assert Dated(steps) == d + [last];
        assert (d + [last])[..|d|] == d;
        assert SumBy(d + [last], w) == SumBy(d, w) + w(last);
      } else {
        assert Dated(steps) == Dated(init);
      }
    }
  }

  lemma {:induction false} EmptyGroupsTotal(steps: seq<Sample>, ks: seq<string>, w: Sample -> int)
    requires steps == []
    ensures GroupsTotal(steps, ks, w) == 0
  {
    if ks != [] {
      EmptyGroupsTotal(steps, ks[..|ks| - 1], w);
    }
  }

  /** The grouping loop (lines 55-66): every dated sample is appended to the
      list of its day, in input order; samples without `startDate` are skipped. */
  method GroupByDate(steps: seq<Sample>) returns (byDate: map<string, seq<Sample>>)
    requires AllParsable(steps)
    ensures byDate.Keys == Days(steps)
    ensures forall k :: k in byDate ==> byDate[k] == OnDay(steps, k)
  {
    byDate := map[];
    for i := 0 to |steps|
      invariant AllParsable(steps[..i])
      invariant byDate.Keys == Days(steps[..i])
      invariant forall k :: k in byDate ==> byDate[k] == OnDay(steps[..i], k)
    {
      var data := steps[i];
      assert steps[..i + 1] == steps[..i] + [data];
      assert steps[..i + 1][..i] == steps[..i];
      if data.startDate.None? {
        continue;
      }
      var dateStr := TruncateDateStr(data.startDate.value)[..19];
      if dateStr in byDate {
        byDate := byDate[dateStr := byDate[dateStr] + [data]];
      } else {
        byDate := byDate[dateStr := [data]];
      }
    }
    assert steps[..|steps|] == steps;
  }

  /** The sum of a list of integers. */
  function Sum(s: seq<int>): int
  {
    if s == [] then 0 else Sum(s[..|s| - 1]) + s[|s| - 1]
  }

  /** The steps counted in hour `h` of a group. */
  function CountAt(g: seq<Sample>, h: nat): int
    requires AllTimed(g)
  {
    if g == [] then 0
    else
      var last := g[|g| - 1];
      CountAt(g[..|g| - 1], h) + (if HourOf(last) == h then last.count else 0)
  }

  /** The steps counted in the hours below `n`. */
  function HoursBelow(g: seq<Sample>, n: nat): int
    requires AllTimed(g)
  {
    if n == 0 then 0 else HoursBelow(g, n - 1) + CountAt(g, n - 1)
  }

  lemma {:induction false} HoursBelowSnoc(g: seq<Sample>, n: nat)
    requires g != [] && AllTimed(g)
    ensures AllTimed(g[..|g| - 1])
    ensures
      var last := g[|g| - 1];
      HoursBelow(g, n) == HoursBelow(g[..|g| - 1], n) + (if HourOf(last) < n then last.count else 0)
  {
    if n > 0 {
      HoursBelowSnoc(g, n - 1);
    }
  }

  /** Every sample lands in one of the 24 slots, so the slots together hold
      the group's whole count. */
  lemma {:induction false} DayConserves(g: seq<Sample>)
    requires AllTimed(g)
    ensures HoursBelow(g, 24) == SumBy(g, CountOf)
  {
    if g == [] {
      ZeroHours(g, 24);
    } else {
      HoursBelowSnoc(g, 24);
      DayConserves(g[..|g| - 1]);
    }
  }

  lemma {:induction false} ZeroHours(g: seq<Sample>, n: nat)
    requires g == []
    ensures HoursBelow(g, n) == 0
  {
    if n > 0 {
      ZeroHours(g, n - 1);
    }
  }

  lemma {:induction false} SlotsSum(g: seq<Sample>, totals: seq<int>, n: nat)
    requires AllTimed(g) && n <= |totals|
    requires forall h :: 0 <= h < |totals| ==> totals[h] == CountAt(g, h)
    ensures Sum(totals[..n]) == HoursBelow(g, n)
  {
    if n > 0 {
      SlotsSum(g, totals, n - 1);
      assert totals[..n][..n - 1] == totals[..n - 1];
    }
  }

  /** The inner loop (lines 79-85): `totals` starts as 24 zeros and each
      sample adds its count to the slot of its hour; afterwards slot `h` holds
      the steps of hour `h`, and the slots add up to the group's count. */
  method HourlyTotals(group: seq<Sample>) returns (totals: seq<int>)
    requires AllTimed(group)
    ensures |totals| == 24
    ensures forall h :: 0 <= h < 24 ==> totals[h] == CountAt(group, h)
    ensures Sum(totals) == SumBy(group, CountOf)
  {
    var slots := new int[24](_ => 0);
    for s := 0 to |group|
      invariant AllTimed(group[..s])
      invariant forall h :: 0 <= h < 24 ==> slots[h] == CountAt(group[..s], h)
    {
      assert group[..s + 1] == group[..s] + [group[s]];
      assert group[..s + 1][..s] == group[..s];
      var hour := Hour(group[s].startDate.value);
      slots[hour] := slots[hour] + group[s].count;
    }
    assert group[..|group|] == group;
    totals := slots[..];
    SlotsSum(group, totals, 24);
    assert totals[..24] == totals;
    DayConserves(group);
  }

  /** The total of a series of hourly slot lists. */
  function SeriesTotal(series: seq<seq<int>>): int
  {
    if series == [] then 0 else SeriesTotal(series[..|series| - 1]) + Sum(series[|series| - 1])
  }

  /** The outer loop (lines 71-85): the days in ascending order, each with its
      24 hourly totals. The plotting is not part of this model. */
  method DailyTotals(byDate: map<string, seq<Sample>>) returns (days: seq<string>, series: seq<seq<int>>)
    requires forall k :: k in byDate ==> AllTimed(byDate[k])
    ensures Enumerates(days, byDate.Keys) && StrictlyAscending(days)
    ensures |series| == |days|
    ensures forall i :: 0 <= i < |days| ==>
      && |series[i]| == 24
      && (forall h :: 0 <= h < 24 ==> series[i][h] == CountAt(byDate[days[i]], h))
      && Sum(series[i]) == SumBy(byDate[days[i]], CountOf)
  {
    days := SortedKeys(byDate.Keys);
    series := [];
    for i := 0 to |days|
      invariant |series| == i
      invariant forall j :: 0 <= j < i ==>
        && |series[j]| == 24
        && (forall h :: 0 <= h < 24 ==> series[j][h] == CountAt(byDate[days[j]], h))
        && Sum(series[j]) == SumBy(byDate[days[j]], CountOf)
    {
      var totals := HourlyTotals(byDate[days[i]]);
      series := series + [totals];
    }
  }

  lemma {:induction false} SeriesMatchesGroups(steps: seq<Sample>, days: seq<string>, series: seq<seq<int>>)
    requires AllParsable(steps) && |series| == |days|
    requires forall i :: 0 <= i < |days| ==> Sum(series[i]) == SumBy(OnDay(steps, days[i]), CountOf)
    ensures SeriesTotal(series) == GroupsTotal(steps, days, CountOf)
  {
    if days != [] {
      SeriesMatchesGroups(steps, days[..|days| - 1], series[..|series| - 1]);
    }
  }

  /** The whole script without its file handling and plotting: group, then
      total per hour, day by day in ascending order. The plotted series hold,
      between them, exactly the steps of the samples that have a `startDate`,
      and as many series as there are days. */
  method StepCountSeries(steps: seq<Sample>) returns (days: seq<string>, series: seq<seq<int>>)
    requires AllParsable(steps)
    ensures Enumerates(days, Days(steps)) && StrictlyAscending(days)
    ensures |series| == |days| == |Days(steps)|
    ensures forall i :: 0 <= i < |days| ==> |series[i]| == 24
    ensures forall i, h :: 0 <= i < |days| && 0 <= h < 24 ==> series[i][h] == CountAt(OnDay(steps, days[i]), h)
    ensures SeriesTotal(series) == SumBy(Dated(steps), CountOf)
    ensures GroupsTotal(steps, days, One) == |Dated(steps)|
  {
    var byDate := GroupByDate(steps);
    days, series := DailyTotals(byDate);
    EnumerationLength(days, Days(steps));
    SeriesMatchesGroups(steps, days, series);
    GroupingConserves(steps, days, CountOf);
    GroupingConserves(steps, days, One);
    DatedOnes(steps);
  }

  lemma {:induction false} DatedOnes(steps: seq<Sample>)
    ensures SumBy(Dated(steps), One) == |Dated(steps)|
  {
    if steps != [] {
      DatedOnes(steps[..|steps| - 1]);
      var d := Dated(steps[..|steps| - 1]);
      var last := steps[|steps| - 1];
      if last.startDate.Some? {
        assert Dated(steps) == d + [last];
        assert (d + [last])[..|d|] == d;
        assert SumBy(d + [last], One) == SumBy(d, One) + One(last);
      } else {
        assert Dated(steps) == d;
      }
    }
  }
}
