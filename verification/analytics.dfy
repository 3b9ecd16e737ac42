/** The mood analytics pipeline (src/components/Analytics.js): the time-range
    filter, the per-day series behind the line and bar charts, the label
    distribution behind the pie chart, the summary statistics and the emoji
    lookup. Timestamps are integers (milliseconds); the wall clock is the
    `now` parameter; the local calendar is the parameter `cal`, which maps a
    timestamp to its calendar date. Averages are integer tenths. */
module Analytics {
  import opened Basics
  import opened Moods
  import opened App
  import Grouping
  import Sorting

  /** One day in milliseconds: `subDays(now, n)` is modelled as `now - n * DayMs`. */
  const DayMs := 86_400_000

  /** The range selector; every value other than the three windows behaves like `all`. */
  datatype TimeRange = Week | Month | Year | AllTime | Unrecognised

  /** The look-back of a selector in days, or `None` when the selector keeps everything. */
  function LookbackDays(range: TimeRange): Option<nat>
  {
    match range
    case Week => Some(7)
    case Month => Some(30)
    case Year => Some(365)
    case _ => None
  }

  /** The `isWithinInterval` test: both ends inclusive. */
  function InWindow(start: int, end: int): Sample -> bool
  {
    (s: Sample) => start <= s.time <= end
  }

  /** `filteredData`. */
  function FilterByRange(data: seq<Sample>, range: TimeRange, now: int): seq<Sample>
  {
    if |data| == 0 then []
    else match LookbackDays(range)
      case None => data
      case Some(n) => Filter(data, InWindow(now - n * DayMs, now))
  }

  /** The filter keeps the input order and keeps exactly the samples inside the
      closed window, as often as they occur; without a window it keeps everything. */
  lemma {:induction false} FilterByRangeSpec(data: seq<Sample>, range: TimeRange, now: int)
    ensures IsSubsequence(FilterByRange(data, range, now), data)
    ensures LookbackDays(range).None? ==> FilterByRange(data, range, now) == data
    ensures LookbackDays(range).Some? ==>
      var start := now - LookbackDays(range).value * DayMs;
      forall s: Sample :: multiset(FilterByRange(data, range, now))[s]
        == if start <= s.time <= now then multiset(data)[s] else 0
  {
    if LookbackDays(range).Some? {
      WindowSpec(data, now - LookbackDays(range).value * DayMs, now);
    } else if |data| > 0 {
      SubsequenceRefl(data);
    }
  }

  /** Filtering by a window, as a subsequence and a multiset. */
  lemma {:induction false} WindowSpec(data: seq<Sample>, start: int, end: int)
    ensures IsSubsequence(Filter(data, InWindow(start, end)), data)
    ensures forall s: Sample ::
      multiset(Filter(data, InWindow(start, end)))[s] == if start <= s.time <= end then multiset(data)[s] else 0
  {
    var keep := InWindow(start, end);
    FilterSpec(data, keep);
    forall s: Sample ensures keep(s) == (start <= s.time <= end) {
    }
  }

  /** Filtering the filtered view again with the same range and clock changes nothing. */
  lemma {:induction false} FilterByRangeIdempotent(data: seq<Sample>, range: TimeRange, now: int)
    ensures FilterByRange(FilterByRange(data, range, now), range, now) == FilterByRange(data, range, now)
  {
    if |data| > 0 && LookbackDays(range).Some? {
      FilterIdempotent(data, InWindow(now - LookbackDays(range).value * DayMs, now));
    }
  }

  /** A sample logged just now is shown whatever the range. */
  lemma {:induction false} JustLoggedIsVisible(data: seq<Sample>, mood: Mood, notes: string, id: int, now: int, range: TimeRange)
    ensures Sample(id, now, mood, notes) in FilterByRange(AddMoodEntry(data, mood, notes, id, now), range, now)
  {
    var all := AddMoodEntry(data, mood, notes, id, now);
    var s := Sample(id, now, mood, notes);
    FilterByRangeSpec(all, range, now);
    assert all[|data|] == s;
    assert s in multiset(all);
    if LookbackDays(range).Some? {
      assert multiset(FilterByRange(all, range, now))[s] == multiset(all)[s];
    }
  }

  /** The window is closed at its start: a sample exactly seven days old is
      kept by the week view, one a millisecond older is not. */
  lemma {:induction false} WeekWindowEdges(s: Sample, now: int)
    ensures s.time == now - 7 * DayMs ==> FilterByRange([s], Week, now) == [s]
    ensures s.time == now - 7 * DayMs - 1 ==> FilterByRange([s], Week, now) == []
  {
    var keep := InWindow(now - 7 * DayMs, now);
    assert FilterByRange([s], Week, now) == Filter([s], keep);
    assert [s][1..] == [];
    assert Filter([s], keep) == (if keep(s) then [s] else []) + Filter([], keep);
  }

  /* ---------------- The daily series ---------------- */

  type MonthNumber = m: int | 1 <= m <= 12 witness 1
  type DayNumber = d: int | 1 <= d <= 31 witness 1

  /** A local calendar date. */
  datatype Date = Date(year: int, month: MonthNumber, day: DayNumber)

  /** The `'MMM d'` label: month and day, without the year. */
  datatype DayLabel = DayLabel(month: MonthNumber, day: DayNumber)

  function LabelOf(cal: int -> Date, t: int): DayLabel
  {
    DayLabel(cal(t).month, cal(t).day)
  }

  /** Calendar order of labels within one year. */
  predicate LabelBefore(a: DayLabel, b: DayLabel)
  {
    a.month < b.month || (a.month == b.month && a.day < b.day)
  }

  /** The comparator parses `label + ', 2024'`; within one year that orders labels
      by month, then day, which this key reproduces. */
  function SortKey(l: DayLabel): int
  {
    l.month * 32 + l.day
  }

  /** The key orders labels exactly as the calendar does, and tells them apart. */
  lemma {:induction false} SortKeyOrder(a: DayLabel, b: DayLabel)
    ensures SortKey(a) < SortKey(b) <==> LabelBefore(a, b)
    ensures SortKey(a) == SortKey(b) <==> a == b
  {
  }

  /** One chart point: `{date, moods, total, count, average}`. */
  datatype DayPoint = DayPoint(date: DayLabel, moods: seq<int>, total: int, count: nat, averageTenths: int)

  /** `Math.round((total / count) * 10)`: round half up of `10 * total / count`. */
  function RoundTenths(total: int, count: int): (r: int)
    requires count > 0
    ensures 2 * count * r <= 20 * total + count < 2 * count * (r + 1)
  {
    var d := 2 * count;
    var q := (20 * total + count) / d;
    assert d * q + (20 * total + count) % d == 20 * total + count;
    assert d * (q + 1) == d * q + d;
    q
  }

  /** A mean of values between `lo` and `hi` rounds to between `10 * lo` and `10 * hi` tenths. */
  lemma {:induction false} RoundTenthsWithin(total: int, count: int, lo: int, hi: int)
    requires count > 0
    requires count * lo <= total <= count * hi
    ensures 10 * lo <= RoundTenths(total, count) <= 10 * hi
  {
    var r := RoundTenths(total, count);
    if r < 10 * lo {
      assert r + 1 <= 10 * lo;
      assert 2 * count * (r + 1) <= 2 * count * (10 * lo) by {
        MultiplyMonotone(2 * count, r + 1, 10 * lo);
      }
      assert false;
    }
    if r > 10 * hi {
      assert 10 * hi + 1 <= r;
      assert 2 * count * (10 * hi + 1) <= 2 * count * r by {
        MultiplyMonotone(2 * count, 10 * hi + 1, r);
      }
      assert false;
    }
  }

  lemma {:induction false} MultiplyMonotone(c: nat, a: int, b: int)
    requires a <= b
    ensures c * a <= c * b
  {
    assert c * b - c * a == c * (b - a);
  }

  /** The rounding rule on the values themselves: the rounded mean lies between
      ten times the smallest and ten times the largest value. */
  lemma {:induction false} MeanWithin(vs: seq<int>)
    requires |vs| > 0
    ensures 10 * Min(vs) <= RoundTenths(Sum(vs), |vs|) <= 10 * Max(vs)
  {
    SumBounds(vs, Min(vs), Max(vs));
    RoundTenthsWithin(Sum(vs), |vs|, Min(vs), Max(vs));
  }

  /** Half-up, not to even: 1.5 stays 1.5, 1.333.. becomes 1.3, 2.25 becomes 2.3. */
  lemma {:induction false} RoundingExamples()
    ensures RoundTenths(Sum([1, 2]), 2) == 15
    ensures RoundTenths(Sum([1, 1, 2]), 3) == 13
    ensures RoundTenths(9, 4) == 23
  {
    assert Sum([1, 2]) == 3 by { assert [1, 2][..1] == [1]; assert [1][..0] == []; }
    assert Sum([1, 1, 2]) == 4 by {
      assert [1, 1, 2][..2] == [1, 1];
      assert [1, 1][..1] == [1];
      assert [1][..0] == [];
    }
  }

  /** The keyed values the `reduce` sees: each sample's label and mood value. */
  function DayItems(data: seq<Sample>, cal: int -> Date): seq<(DayLabel, int)>
  {
    seq(|data|, i requires 0 <= i < |data| => (LabelOf(cal, data[i].time), data[i].mood.value))
  }

  /** The mood values logged on day `l` (of any year), in input order. */
  function MoodsOn(data: seq<Sample>, cal: int -> Date, l: DayLabel): seq<int>
  {
    Grouping.ValuesUnder(DayItems(data, cal), l)
  }

  /** Some sample falls on day `l` (of any year). */
  ghost predicate Occurs(data: seq<Sample>, cal: int -> Date, l: DayLabel)
  {
    exists i :: 0 <= i < |data| && LabelOf(cal, data[i].time) == l
  }

  /** The `map` that adds the rounded average to a bucket. */
  function ToPoint(g: Grouping.Group<DayLabel>): DayPoint
    requires g.count > 0
  {
    DayPoint(g.key, g.values, g.total, g.count, RoundTenths(g.total, g.count))
  }

  function Points(gs: seq<Grouping.Group<DayLabel>>): seq<DayPoint>
    requires forall i :: 0 <= i < |gs| ==> gs[i].count > 0
  {
    seq(|gs|, i requires 0 <= i < |gs| => ToPoint(gs[i]))
  }

  function PointRank(): DayPoint -> int
  {
    (p: DayPoint) => SortKey(p.date)
  }

  function PointCount(): DayPoint -> int
  {
    (p: DayPoint) => p.count
  }

  /** `chartData`: bucket by label, add averages, sort by label within 2024. */
  function DailySeries(data: seq<Sample>, cal: int -> Date): seq<DayPoint>
  {
    if |data| == 0 then []
    else
      var items := DayItems(data, cal);
      Grouping.GroupByWellFormed(items);
      Sorting.SortBy(Points(Grouping.GroupBy(items)), PointRank())
  }

  /** What a point of the series holds: the values logged on its day, a count
      and total that agree with them, and their mean in tenths rounded half up,
      which lies between ten times their minimum and ten times their maximum. */
  ghost predicate PointOf(data: seq<Sample>, cal: int -> Date, p: DayPoint)
  {
    && p.moods == MoodsOn(data, cal, p.date)
    && p.count == |p.moods| >= 1
    && p.total == Sum(p.moods)
    && 2 * p.count * p.averageTenths <= 20 * p.total + p.count < 2 * p.count * (p.averageTenths + 1)
    && 10 * Min(p.moods) <= p.averageTenths <= 10 * Max(p.moods)
  }

  /** The buckets before sorting: one per group, in group order. */
  lemma {:induction false} PointsOfGroups(data: seq<Sample>, cal: int -> Date)
    requires |data| > 0
    ensures var items := DayItems(data, cal);
      var gs := Grouping.GroupBy(items);
      && (forall i :: 0 <= i < |gs| ==> gs[i].count > 0)
      && |Points(gs)| == |gs|
      && DailySeries(data, cal) == Sorting.SortBy(Points(gs), PointRank())
      && (forall i :: 0 <= i < |gs| ==> Points(gs)[i].date == gs[i].key)
  {
    Grouping.GroupByWellFormed(DayItems(data, cal));
  }

  /** A group holding the values logged on its day makes the point of that day. */
  lemma {:induction false} PointOfGroup(data: seq<Sample>, cal: int -> Date, g: Grouping.Group<DayLabel>)
    requires Grouping.Consistent(g)
    requires g.values == MoodsOn(data, cal, g.key)
    ensures PointOf(data, cal, ToPoint(g))
  {
    MeanWithin(g.values);
  }

  /** Each bucket before sorting is the point of its day. */
  lemma {:induction false} PointsAreDays(data: seq<Sample>, cal: int -> Date)
    requires |data| > 0
    ensures var gs := Grouping.GroupBy(DayItems(data, cal));
      && (forall i :: 0 <= i < |gs| ==> gs[i].count > 0)
      && (forall i :: 0 <= i < |gs| ==> PointOf(data, cal, Points(gs)[i]))
  {
    var items := DayItems(data, cal);
    var gs := Grouping.GroupBy(items);
    Grouping.GroupByWellFormed(items);
    Grouping.GroupByContents(items);
    forall i | 0 <= i < |gs| ensures PointOf(data, cal, Points(gs)[i]) {
      PointOfGroup(data, cal, gs[i]);
    }
  }

  /** The series is strictly ascending by (month, day): at most one point per day of the year. */
  lemma {:induction false} DailySeriesAscending(data: seq<Sample>, cal: int -> Date)
    ensures var r := DailySeries(data, cal);
      forall i, j :: 0 <= i < j < |r| ==> LabelBefore(r[i].date, r[j].date)
  {
    if |data| > 0 {
      var items := DayItems(data, cal);
      var gs := Grouping.GroupBy(items);
      PointsOfGroups(data, cal);
      Grouping.GroupByWellFormed(items);
      var ps := Points(gs);
      forall i, j | 0 <= i < j < |ps| ensures PointRank()(ps[i]) != PointRank()(ps[j]) {
        SortKeyOrder(ps[i].date, ps[j].date);
      }
      Sorting.SortByStrict(ps, PointRank());
      var r := DailySeries(data, cal);
      forall i, j | 0 <= i < j < |r| ensures LabelBefore(r[i].date, r[j].date) {
        SortKeyOrder(r[i].date, r[j].date);
      }
    }
  }

  /** Every point of the series is the point of its day. */
  lemma {:induction false} DailySeriesContents(data: seq<Sample>, cal: int -> Date)
    ensures var r := DailySeries(data, cal);
      forall i :: 0 <= i < |r| ==> PointOf(data, cal, r[i])
  {
    if |data| > 0 {
      var gs := Grouping.GroupBy(DayItems(data, cal));
      PointsOfGroups(data, cal);
      PointsAreDays(data, cal);
      var ps := Points(gs);
      var isDay := (p: DayPoint) => PointOf(data, cal, p);
      assert forall i :: 0 <= i < |ps| ==> isDay(ps[i]);
      Sorting.SortByKeeps(ps, PointRank(), isDay);
    }
  }

  /** A day on which something was logged has a point. */
  lemma {:induction false} LoggedDayHasPoint(data: seq<Sample>, cal: int -> Date, l: DayLabel)
    requires Occurs(data, cal, l)
    ensures exists i :: 0 <= i < |DailySeries(data, cal)| && DailySeries(data, cal)[i].date == l
  {
    var items := DayItems(data, cal);
    var gs := Grouping.GroupBy(items);
    PointsOfGroups(data, cal);
    var ps := Points(gs);
    var r := DailySeries(data, cal);
    Sorting.SortBySpec(ps, PointRank());
    Grouping.GroupByKeys(items);
    Grouping.KeysOfMembership(items, l);
    var a :| 0 <= a < |data| && LabelOf(cal, data[a].time) == l;
    assert items[a].0 == l;
    assert l in Grouping.GroupKeys(gs);
    var j :| 0 <= j < |gs| && gs[j].key == l;
    assert ps[j] in multiset(r);
    var i :| 0 <= i < |r| && r[i] == ps[j];
    assert r[i].date == l;
  }

  /** A point's day is a day on which something was logged. */
  lemma {:induction false} PointDayWasLogged(data: seq<Sample>, cal: int -> Date, i: nat)
    requires i < |DailySeries(data, cal)|
    ensures Occurs(data, cal, DailySeries(data, cal)[i].date)
  {
    var items := DayItems(data, cal);
    var gs := Grouping.GroupBy(items);
    PointsOfGroups(data, cal);
    var ps := Points(gs);
    var r := DailySeries(data, cal);
    var l := r[i].date;
    Sorting.SortBySpec(ps, PointRank());
    Grouping.GroupByKeys(items);
    Grouping.KeysOfMembership(items, l);
    assert r[i] in multiset(ps);
    var j :| 0 <= j < |ps| && ps[j] == r[i];
    assert gs[j].key in Grouping.GroupKeys(gs);
    var a :| 0 <= a < |items| && items[a].0 == l;
    assert LabelOf(cal, data[a].time) == l;
  }

  /** The series has a point for exactly the days on which something was logged. */
  lemma {:induction false} DailySeriesDays(data: seq<Sample>, cal: int -> Date, l: DayLabel)
    ensures Occurs(data, cal, l) <==>
      exists i :: 0 <= i < |DailySeries(data, cal)| && DailySeries(data, cal)[i].date == l
  {
    if Occurs(data, cal, l) {
      LoggedDayHasPoint(data, cal, l);
    }
    if exists i :: 0 <= i < |DailySeries(data, cal)| && DailySeries(data, cal)[i].date == l {
      var i :| 0 <= i < |DailySeries(data, cal)| && DailySeries(data, cal)[i].date == l;
      PointDayWasLogged(data, cal, i);
    }
  }

  /** Points(gs) counts what the groups count. */
  lemma {:induction false} PointsCount(gs: seq<Grouping.Group<DayLabel>>)
    requires forall i :: 0 <= i < |gs| ==> gs[i].count > 0
    ensures SumOf(Points(gs), PointCount()) == Grouping.TotalCount(gs)
  {
    if |gs| > 0 {
      var n := |gs| - 1;
      PointsCount(gs[..n]);
      assert forall i :: 0 <= i < n ==> gs[..n][i] == gs[i];
      assert Points(gs) == Points(gs[..n]) + [ToPoint(gs[n])];
      assert SumOf([ToPoint(gs[n])], PointCount()) == gs[n].count;
      SumOfAppend(Points(gs[..n]), [ToPoint(gs[n])], PointCount());
    }
  }

  /** Every sample is counted in exactly one point: the counts add up to the number of samples. */
  lemma {:induction false} DailySeriesCounts(data: seq<Sample>, cal: int -> Date)
    ensures SumOf(DailySeries(data, cal), PointCount()) == |data|
  {
    if |data| > 0 {
      var items := DayItems(data, cal);
      var gs := Grouping.GroupBy(items);
      PointsOfGroups(data, cal);
      PointsCount(gs);
      Grouping.GroupByTotalCount(items);
      Sorting.SortBySumOf(Points(gs), PointRank(), PointCount());
    }
  }

  /** Only month and day reach the series: calendars that agree on them give the same series. */
  lemma {:induction false} YearIgnored(data: seq<Sample>, cal1: int -> Date, cal2: int -> Date)
    requires forall t :: cal1(t).month == cal2(t).month && cal1(t).day == cal2(t).day
    ensures DailySeries(data, cal1) == DailySeries(data, cal2)
  {
    assert DayItems(data, cal1) == DayItems(data, cal2);
  }

  /** Grouping two keyed values, spelled out. */
  lemma {:induction false} GroupTwo<K>(items: seq<(K, int)>)
    requires |items| == 2
    ensures Grouping.GroupBy(items) ==
      if items[0].0 == items[1].0
      then [Grouping.Group(items[0].0, [items[0].1, items[1].1], items[0].1 + items[1].1, 2)]
      else [Grouping.Group(items[0].0, [items[0].1], items[0].1, 1),
            Grouping.Group(items[1].0, [items[1].1], items[1].1, 1)]
  {
    var first := items[..1];
    assert first[..0] == [];
    assert first[0] == items[0];
    assert Grouping.GroupBy(first[..0]) == [];
    assert Grouping.Find([], items[0].0) == None;
    var g1 := Grouping.GroupBy(first);
    assert g1 == Grouping.File([], items[0].0, items[0].1);
    assert g1 == [Grouping.Group(items[0].0, [items[0].1], items[0].1, 1)];
    assert [items[0].1] + [items[1].1] == [items[0].1, items[1].1];
  }

  /** Sorting two points, spelled out. */
  lemma {:induction false} SortTwo(p: DayPoint, q: DayPoint)
    ensures Sorting.SortBy([p, q], PointRank()) ==
      if SortKey(p.date) <= SortKey(q.date) then [p, q] else [q, p]
  {
    var rank := PointRank();
    assert [p, q][1..] == [q];
    assert [q][1..] == [];
    assert Sorting.SortBy([q], rank) == Sorting.Insert(q, [], rank) == [q];
    assert Sorting.SortBy([p, q], rank) == Sorting.Insert(p, [q], rank);
    assert rank(p) == SortKey(p.date) && rank(q) == SortKey(q.date);
    if rank(p) > rank(q) {
      assert Sorting.Insert(p, [q], rank) == [q] + Sorting.Insert(p, [], rank);
    }
  }

  /** Two samples on the same month and day of different years share one point. */
  lemma {:induction false} SameDayOfDifferentYearsMerge(a: Sample, b: Sample, cal: int -> Date)
    requires cal(a.time).year != cal(b.time).year
    requires LabelOf(cal, a.time) == LabelOf(cal, b.time)
    ensures var va := a.mood.value;
      var vb := b.mood.value;
      DailySeries([a, b], cal) == [DayPoint(LabelOf(cal, a.time), [va, vb], va + vb, 2, RoundTenths(va + vb, 2))]
  {
    var items := DayItems([a, b], cal);
    assert items[0] == (LabelOf(cal, a.time), a.mood.value);
    assert items[1] == (LabelOf(cal, b.time), b.mood.value);
    GroupTwo(items);
    var gs := Grouping.GroupBy(items);
    var p := ToPoint(gs[0]);
    assert Points(gs) == [p];
    assert [p][1..] == [];
    assert Sorting.SortBy([p], PointRank()) == Sorting.Insert(p, [], PointRank());
    PointsOfGroups([a, b], cal);
    assert DailySeries([a, b], cal) == [p];
    assert gs[0] == Grouping.Group(LabelOf(cal, a.time), [a.mood.value, b.mood.value], a.mood.value + b.mood.value, 2);
  }

  /** Across a new year the series is out of calendar order: 31 December 2023
      is listed after 1 January 2024. */
  lemma {:induction false} YearBoundaryMisorder(a: Sample, b: Sample, cal: int -> Date)
    requires cal(a.time) == Date(2023, 12, 31)
    requires cal(b.time) == Date(2024, 1, 1)
    ensures |DailySeries([a, b], cal)| == 2
    ensures DailySeries([a, b], cal)[0].date == DayLabel(1, 1)
    ensures DailySeries([a, b], cal)[1].date == DayLabel(12, 31)
  {
    var items := DayItems([a, b], cal);
    assert items[0] == (DayLabel(12, 31), a.mood.value);
    assert items[1] == (DayLabel(1, 1), b.mood.value);
    GroupTwo(items);
    var gs := Grouping.GroupBy(items);
    assert Points(gs) == [ToPoint(gs[0]), ToPoint(gs[1])];
    SortTwo(ToPoint(gs[0]), ToPoint(gs[1]));
  }

  /* ---------------- The distribution ---------------- */

  /** One pie slice: `{name, value, color}`. */
  datatype Slice = Slice(name: string, value: nat, colour: string)

  /** The pie chart's colour table. */
  const Colours: map<string, string> := map[
    "Very Sad" := "#6B7280",
    "Sad" := "#9CA3AF",
    "Neutral" := "#D1D5DB",
    "Happy" := "#93C5FD",
    "Very Happy" := "#60A5FA",
    "Ecstatic" := "#3B82F6"
  ]

  const FallbackColour := "#6B7280"

  /** `colors[mood] || '#6B7280'`. */
  function ColourOf(name: string): string
  {
    if name in Colours then Colours[name] else FallbackColour
  }

  /** The chart colours agree with the mood table, and only the table's labels have one. */
  lemma {:induction false} ColoursMatchTable()
    ensures forall i :: 0 <= i < |Table| ==> ColourOf(Table[i].name) == Table[i].colour
    ensures forall n :: n in Colours ==> exists i :: 0 <= i < |Table| && Table[i].name == n
    ensures forall n :: n !in Colours ==> ColourOf(n) == FallbackColour
  {
    forall n | n in Colours ensures exists i :: 0 <= i < |Table| && Table[i].name == n {
      if n == "Very Sad" { assert Table[0].name == n; }
      else if n == "Sad" { assert Table[1].name == n; }
      else if n == "Neutral" { assert Table[2].name == n; }
      else if n == "Happy" { assert Table[3].name == n; }
      else if n == "Very Happy" { assert Table[4].name == n; }
      else { assert Table[5].name == n; }
    }
  }

  /** The keyed values of the label count: each sample's label, counted once. */
  function LabelItems(data: seq<Sample>): seq<(string, int)>
  {
    seq(|data|, i requires 0 <= i < |data| => (data[i].mood.name, 1))
  }

  /** The number of samples carrying label `name`. */
  function Occurrences(data: seq<Sample>, name: string): nat
  {
    if |data| == 0 then 0
    else
      var n := |data| - 1;
      Occurrences(data[..n], name) + (if data[n].mood.name == name then 1 else 0)
  }

  lemma {:induction false} OccurrencesAreFiled(data: seq<Sample>, name: string)
    ensures |Grouping.ValuesUnder(LabelItems(data), name)| == Occurrences(data, name)
  {
    if |data| > 0 {
      var n := |data| - 1;
      assert LabelItems(data)[..n] == LabelItems(data[..n]);
      OccurrencesAreFiled(data[..n], name);
    }
  }

  /** `pieData`: count per label in first-occurrence order, with its colour. */
  function Distribution(data: seq<Sample>): seq<Slice>
  {
    if |data| == 0 then []
    else
      var gs := Grouping.GroupBy(LabelItems(data));
      seq(|gs|, i requires 0 <= i < |gs| => Slice(gs[i].key, gs[i].count, ColourOf(gs[i].key)))
  }

  /** One slice per label present and none for absent labels; each slice counts
      the samples with its label (at least one) and carries that label's colour. */
  lemma {:induction false} DistributionSpec(data: seq<Sample>)
    ensures var r := Distribution(data);
      && (forall i, j :: 0 <= i < j < |r| ==> r[i].name != r[j].name)
      && (forall i :: 0 <= i < |r| ==>
            r[i].value == Occurrences(data, r[i].name) >= 1 && r[i].colour == ColourOf(r[i].name))
  {
    if |data| > 0 {
      var items := LabelItems(data);
      var gs := Grouping.GroupBy(items);
      var r := Distribution(data);
      Grouping.GroupByWellFormed(items);
      Grouping.GroupByContents(items);
      Grouping.GroupByKeys(items);
      forall i | 0 <= i < |r| ensures r[i].value == Occurrences(data, r[i].name) {
        OccurrencesAreFiled(data, r[i].name);
      }
    }
  }

  /** A label has a slice exactly when some sample carries it. */
  lemma {:induction false} DistributionLabels(data: seq<Sample>, name: string)
    ensures (exists i :: 0 <= i < |Distribution(data)| && Distribution(data)[i].name == name) <==>
            (exists a :: 0 <= a < |data| && data[a].mood.name == name)
  {
    if |data| > 0 {
      var items := LabelItems(data);
      var gs := Grouping.GroupBy(items);
      var r := Distribution(data);
      Grouping.GroupByKeys(items);
      {
        Grouping.KeysOfMembership(items, name);
        if exists a :: 0 <= a < |data| && data[a].mood.name == name {
          var a :| 0 <= a < |data| && data[a].mood.name == name;
          assert items[a].0 == name;
          assert name in Grouping.GroupKeys(gs);
          var j :| 0 <= j < |gs| && gs[j].key == name;
          assert r[j].name == name;
        }
        if exists i :: 0 <= i < |r| && r[i].name == name {
          var i :| 0 <= i < |r| && r[i].name == name;
          assert gs[i].key in Grouping.GroupKeys(gs);
          var a :| 0 <= a < |items| && items[a].0 == name;
          assert data[a].mood.name == name;
        }
      }
    }
  }

  /** Slices are listed in the order their labels first occur. */
  lemma {:induction false} DistributionOrder(data: seq<Sample>)
    ensures var r := Distribution(data);
      forall i, j :: 0 <= i < j < |r| ==>
        exists a :: (0 <= a < |data| && data[a].mood.name == r[i].name &&
          forall b :: 0 <= b <= a ==> data[b].mood.name != r[j].name)
  {
    if |data| > 0 {
      var items := LabelItems(data);
      var gs := Grouping.GroupBy(items);
      var r := Distribution(data);
      Grouping.GroupByFirstOccurrenceOrder(items);
      assert |r| == |gs|;
      assert forall i :: 0 <= i < |r| ==> r[i].name == gs[i].key;
      assert forall b :: 0 <= b < |data| ==> items[b].0 == data[b].mood.name;
      forall i, j | 0 <= i < j < |r|
        ensures exists a :: (0 <= a < |data| && data[a].mood.name == r[i].name &&
          forall b :: 0 <= b <= a ==> data[b].mood.name != r[j].name)
      {
        var a := Grouping.FirstIndex(items, gs[i].key);
        var c := Grouping.FirstIndex(items, gs[j].key);
        assert a < c;
        assert data[a].mood.name == r[i].name;
        assert forall b :: 0 <= b <= a ==> data[b].mood.name != r[j].name;
      }
    }
  }

  function SliceCount(): Slice -> int
  {
    (s: Slice) => s.value
  }

  /** The slice counts add up to the number of samples. */
  lemma {:induction false} DistributionTotal(data: seq<Sample>)
    ensures SumOf(Distribution(data), SliceCount()) == |data|
  {
    if |data| > 0 {
      var items := LabelItems(data);
      Grouping.GroupByTotalCount(items);
      SlicesCount(Grouping.GroupBy(items));
    }
  }

  lemma {:induction false} SlicesCount(gs: seq<Grouping.Group<string>>)
    ensures SumOf(seq(|gs|, i requires 0 <= i < |gs| => Slice(gs[i].key, gs[i].count, ColourOf(gs[i].key))), SliceCount())
      == Grouping.TotalCount(gs)
  {
    if |gs| > 0 {
      var n := |gs| - 1;
      SlicesCount(gs[..n]);
      var all := seq(|gs|, i requires 0 <= i < |gs| => Slice(gs[i].key, gs[i].count, ColourOf(gs[i].key)));
      var pre := seq(n, i requires 0 <= i < n => Slice(gs[..n][i].key, gs[..n][i].count, ColourOf(gs[..n][i].key)));
      assert all == pre + [all[n]];
      SumOfAppend(pre, [all[n]], SliceCount());
    }
  }

  /* ---------------- Summary statistics ---------------- */

  /** `stats`: the average in tenths, the extremes and the sample count. */
  datatype Stats = Stats(averageTenths: int, highest: int, lowest: int, total: nat)

  function MoodValues(data: seq<Sample>): seq<int>
  {
    seq(|data|, i requires 0 <= i < |data| => data[i].mood.value)
  }

  /** `stats`: `null` exactly when there are no samples. */
  function Summary(data: seq<Sample>): (r: Option<Stats>)
    ensures r.None? <==> |data| == 0
    ensures r.Some? ==> r.value.total == |data|
  {
    if |data| == 0 then None
    else
      var vs := MoodValues(data);
      Some(Stats(RoundTenths(Sum(vs), |vs|), Max(vs), Min(vs), |data|))
  }

  /** The extremes are the largest and the smallest value, each attained by some sample. */
  lemma {:induction false} SummaryExtremes(data: seq<Sample>)
    requires |data| > 0
    ensures var s := Summary(data).value;
      && (exists i :: 0 <= i < |data| && data[i].mood.value == s.highest)
      && (forall i :: 0 <= i < |data| ==> data[i].mood.value <= s.highest)
      && (exists i :: 0 <= i < |data| && data[i].mood.value == s.lowest)
      && (forall i :: 0 <= i < |data| ==> s.lowest <= data[i].mood.value)
  {
    var vs := MoodValues(data);
    var s := Summary(data).value;
    assert s.highest == Max(vs) && s.lowest == Min(vs);
    assert forall i :: 0 <= i < |data| ==> vs[i] == data[i].mood.value;
    var h :| 0 <= h < |vs| && vs[h] == s.highest;
    assert data[h].mood.value == s.highest;
    var l :| 0 <= l < |vs| && vs[l] == s.lowest;
    assert data[l].mood.value == s.lowest;
  }

  /** The average is the mean value in tenths, rounded half up, and lies
      between ten times the lowest and ten times the highest value. */
  lemma {:induction false} SummaryAverage(data: seq<Sample>)
    requires |data| > 0
    ensures var s := Summary(data).value;
      var total := Sum(MoodValues(data));
      && 2 * |data| * s.averageTenths <= 20 * total + |data| < 2 * |data| * (s.averageTenths + 1)
      && 10 * s.lowest <= s.averageTenths <= 10 * s.highest
  {
    MeanWithin(MoodValues(data));
  }

  /* ---------------- Emoji ---------------- */

  /** `getMoodEmoji`: total, with the neutral face for anything outside 1..6. */
  function MoodEmoji(value: int): Emoji
  {
    match value
    case 1 => Crying
    case 2 => Worried
    case 3 => NeutralFace
    case 4 => SlightSmile
    case 5 => Smiling
    case 6 => StarStruck
    case _ => NeutralFace
  }

  /** The lookup gives each table mood its own emoji and the neutral face elsewhere. */
  lemma {:induction false} MoodEmojiAgreesWithTable()
    ensures forall i :: 0 <= i < |Table| ==> MoodEmoji(Table[i].value) == Table[i].emoji
    ensures forall v :: v < 1 || v > 6 ==> MoodEmoji(v) == NeutralFace
  {
  }

  /** `Math.round(stats.average)` on a value given in tenths. */
  function RoundToUnit(tenths: int): int
  {
    (tenths + 5) / 10
  }

  /** The stat card's emoji for the average. */
  function AverageEmoji(s: Stats): Emoji
  {
    MoodEmoji(RoundToUnit(s.averageTenths))
  }

  /** When every logged value comes from the table, the average's emoji is
      that of a table mood lying between the lowest and the highest value. */
  lemma {:induction false} AverageEmojiInRange(data: seq<Sample>)
    requires |data| > 0
    requires forall i :: 0 <= i < |data| ==> 1 <= data[i].mood.value <= 6
    ensures var s := Summary(data).value;
      exists k :: 0 <= k < |Table| && s.lowest <= Table[k].value <= s.highest
        && AverageEmoji(s) == Table[k].emoji
  {
    var s := Summary(data).value;
    SummaryAverage(data);
    var u := RoundToUnit(s.averageTenths);
    assert s.lowest <= u <= s.highest;
    assert 1 <= s.lowest && s.highest <= 6;
    assert Table[u - 1].value == u;
  }

  /* ---------------- The pipeline ---------------- */

  /** Without samples the pipeline shows nothing: no points, no slices, no stats. */
  lemma {:induction false} EmptyPipeline(range: TimeRange, now: int, cal: int -> Date)
    ensures FilterByRange([], range, now) == []
    ensures DailySeries([], cal) == []
    ensures Distribution([]) == []
    ensures Summary([]) == None
  {
  }

  /** Over one filtered view the three aggregates count the same samples. */
  lemma {:induction false} PipelineCountsAgree(data: seq<Sample>, range: TimeRange, now: int, cal: int -> Date)
    ensures var f := FilterByRange(data, range, now);
      && SumOf(DailySeries(f, cal), PointCount()) == |f|
      && SumOf(Distribution(f), SliceCount()) == |f|
      && (Summary(f).Some? ==> Summary(f).value.total == |f|)
  {
    var f := FilterByRange(data, range, now);
    DailySeriesCounts(f, cal);
    DistributionTotal(f);
  }
}
