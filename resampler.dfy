/**
 * The monthly resampler (`processMonthlyData`): turns an unordered list of
 * historical samples into at most twelve chart points, one per UTC calendar
 * month, each taken from one representative sample of its month.
 *
 * `Resample` is the specification of the result; `ProcessMonthlyData` is the
 * step-by-step procedure (in-place sort, grouping into a dictionary, choice
 * of a representative per month, final sort and slice) and is proved to
 * return `Resample` of the sorted input. The lemmas state what the chart
 * relies on: at most twelve points, ascending, one per month, none before
 * the floor, each the earliest sample of its month.
 */
module Resampler {
  import opened Wrappers
  import opened Seqs
  import opened Calendar

  /** A point in time: milliseconds since the epoch (`getTime()`) and the UTC date it falls on. */
  datatype Timestamp = Timestamp(instant: int, utc: Date)

  /** One historical observation; `apy` and `tvlUsd` may be missing. */
  datatype Sample = Sample(timestamp: Timestamp, apy: Option<real>, tvlUsd: Option<real>)

  /** One chart point: label, the representative's timestamp and values, its UTC day and ISO date. */
  datatype Point = Point(date: string, timestamp: Timestamp, apy: real, tvl: real, actualDay: int, fullDate: string)

  function InstantOf(x: Sample): int {
    x.timestamp.instant
  }

  function PointInstant(p: Point): int {
    p.timestamp.instant
  }

  function MonthOf(x: Sample): YearMonth {
    MonthOfDate(x.timestamp.utc)
  }

  function PointMonth(p: Point): YearMonth {
    MonthOfDate(p.timestamp.utc)
  }

  /** The month of a sample, as a number that grows by one per calendar month. */
  function SampleOrdinal(x: Sample): int {
    MonthOrdinal(MonthOf(x))
  }

  function PointOrdinal(p: Point): int {
    MonthOrdinal(PointMonth(p))
  }

  /**
   * The calendar date of a timestamp is determined by its instant: a later
   * instant never falls on an earlier date. Every timestamp the source builds
   * with `new Date(...)` has this property; the model states it for the
   * samples it is given.
   */
  ghost predicate WellDated(s: seq<Sample>) {
    forall x, y :: x in s && y in s && InstantOf(x) <= InstantOf(y) ==> DateLe(x.timestamp.utc, y.timestamp.utc)
  }

  lemma WellDatedSub(s: seq<Sample>, t: seq<Sample>)
    requires WellDated(s)
    requires forall x :: x in t ==> x in s
    ensures WellDated(t)
  {
  }

  /** A sample of an earlier month has an earlier instant. */
  lemma EarlierMonthEarlierInstant(s: seq<Sample>, x: Sample, y: Sample)
    requires WellDated(s) && x in s && y in s
    requires MonthOrdinal(MonthOf(x)) < MonthOrdinal(MonthOf(y))
    ensures InstantOf(x) < InstantOf(y)
  {
    MonthOrdinalInjective(MonthOf(x), MonthOf(y));
  }

  // ----- the specification -----

  /** The samples at or after the floor (`if (date < twelveMonthsAgo) continue;`), in order. */
  function Kept(s: seq<Sample>, floor: int): seq<Sample> {
    Filter(s, x => InstantOf(x) >= floor)
  }

  /** The samples of month `m`, in order: the bucket `monthlyGroups[key]`. */
  function InMonth(t: seq<Sample>, m: YearMonth): seq<Sample> {
    Filter(t, x => MonthOf(x) == m)
  }

  /** The distinct months of `t` in order of first occurrence: the keys of `monthlyGroups`. */
  function MonthsIn(t: seq<Sample>): (r: seq<YearMonth>)
    ensures forall m :: m in r <==> InMonth(t, m) != []
    ensures forall i, j :: 0 <= i < j < |r| ==> r[i] != r[j]
  {
    if t == [] then []
    else
      var init := MonthsIn(t[..|t| - 1]);
      var m := MonthOf(t[|t| - 1]);
      assert t == t[..|t| - 1] + [t[|t| - 1]];
      assert forall n :: InMonth(t, n) != [] <==> InMonth(t[..|t| - 1], n) != [] || n == m;
      if m in init then init else init + [m]
  }

  /** `Array.prototype.find`: the first index whose element satisfies `p`. */
  function FindIndex(b: seq<Sample>, p: Sample -> bool): (r: Option<nat>)
    ensures r.None? <==> forall i :: 0 <= i < |b| ==> !p(b[i])
    ensures r.Some? ==> r.value < |b| && p(b[r.value]) && forall j :: 0 <= j < r.value ==> !p(b[j])
  {
    if b == [] then None
    else if p(b[0]) then Some(0)
    else match FindIndex(b[1..], p)
      case None => None
      case Some(i) => Some(i + 1)
  }

  predicate IsFirstDay(x: Sample) {
    x.timestamp.utc.day == 1
  }

  predicate IsEarlyDay(x: Sample) {
    x.timestamp.utc.day <= 5
  }

  /** `i` is the first index of `b` whose element satisfies `p`. */
  ghost predicate FirstWith(b: seq<Sample>, i: int, p: Sample -> bool) {
    0 <= i < |b| && p(b[i]) && forall j :: 0 <= j < i ==> !p(b[j])
  }

  /**
   * The representative of a bucket: its first day-1 sample, else its first
   * sample of days 1..5, else its first sample; nothing for an empty bucket
   * (the `if (bestPoint)` guard).
   */
  function Representative(b: seq<Sample>): (r: Option<Sample>)
    ensures r.None? <==> b == []
    ensures r.Some? ==> r.value in b
  {
    match FindIndex(b, IsFirstDay)
    case Some(i) => Some(b[i])
    case None =>
      match FindIndex(b, IsEarlyDay)
      case Some(i) => Some(b[i])
      case None => if b == [] then None else Some(b[0])
  }

  /**
   * The three-step rule, first match wins: the first day-1 sample; failing
   * that, the first sample of days 1..5; failing that, the first sample.
   */
  lemma RepresentativeRule(b: seq<Sample>)
    ensures forall i :: FirstWith(b, i, IsFirstDay) ==> Representative(b) == Some(b[i])
    ensures (forall i :: 0 <= i < |b| ==> !IsFirstDay(b[i])) ==>
              forall i :: FirstWith(b, i, IsEarlyDay) ==> Representative(b) == Some(b[i])
    ensures b != [] && (forall i :: 0 <= i < |b| ==> !IsEarlyDay(b[i])) ==> Representative(b) == Some(b[0])
  {
    var first, early := FindIndex(b, IsFirstDay), FindIndex(b, IsEarlyDay);
    forall i | FirstWith(b, i, IsFirstDay)
      ensures first == Some(i)
    {
    }
    if first.None? {
      forall i | FirstWith(b, i, IsEarlyDay)
        ensures early == Some(i)
      {
      }
    }
  }

  /** `value || 0`: a missing (or zero) value reads as 0. */
  function OrZero(v: Option<real>): (r: real)
    ensures r == v.GetOr(0.0)
  {
    match v
    case Some(a) => if a != 0.0 then a else 0.0
    case None => 0.0
  }

  /** The chart point built from a representative sample. */
  function ToPoint(x: Sample): Point {
    Point(Label(MonthOf(x)), x.timestamp, OrZero(x.apy), OrZero(x.tvlUsd), x.timestamp.utc.day, IsoDate(x.timestamp.utc))
  }

  /** The representative of each month of `ms` whose bucket in `t` is not empty, in the order of `ms`. */
  function RepsOf(t: seq<Sample>, ms: seq<YearMonth>): seq<Sample> {
    if ms == [] then []
    else
      RepsOf(t, ms[..|ms| - 1]) +
      match Representative(InMonth(t, ms[|ms| - 1]))
      case Some(x) => [x]
      case None => []
  }

  /**
   * A point copies its sample: the same timestamp and month, the values with
   * a missing one read as 0, the UTC day, a label naming the month, and an
   * ISO date that reads back as the sample's UTC date.
   */
  lemma PointFields(x: Sample)
    ensures ToPoint(x).timestamp == x.timestamp && PointMonth(ToPoint(x)) == MonthOf(x)
    ensures ToPoint(x).apy == x.apy.GetOr(0.0) && ToPoint(x).tvl == x.tvlUsd.GetOr(0.0)
    ensures ToPoint(x).actualDay == x.timestamp.utc.day && 1 <= ToPoint(x).actualDay <= 31
    ensures ToPoint(x).date[..4] == MonthNames[MonthOf(x).month] + " "
    ensures 0 <= x.timestamp.utc.year <= 9999 ==>
              |ToPoint(x).fullDate| == 10 && ParseIsoDate(ToPoint(x).fullDate) == Some(x.timestamp.utc)
  {
    MonthNamesTable();
    var prefix := MonthNames[MonthOf(x).month] + " ";
    assert ToPoint(x).date == prefix + IntString(MonthOf(x).year);
    if 0 <= x.timestamp.utc.year <= 9999 {
      IsoDateRoundTrip(x.timestamp.utc);
    }
  }

  /** The chart points of the given representatives, one each, in order. */
  function ToPoints(reps: seq<Sample>): seq<Point> {
    Map(reps, ToPoint)
  }

  lemma ToPointsSnoc(reps: seq<Sample>, x: Sample)
    ensures ToPoints(reps + [x]) == ToPoints(reps) + [ToPoint(x)]
  {
    MapAppend(reps, [x], ToPoint);
  }

  /** The representatives of `ms + [m]`: those of `ms`, then that of `m` if its bucket has one. */
  lemma RepsOfSnoc(t: seq<Sample>, ms: seq<YearMonth>, m: YearMonth)
    ensures RepsOf(t, ms + [m]) == RepsOf(t, ms) + match Representative(InMonth(t, m))
                                                   case Some(x) => [x]
                                                   case None => []
  {
    assert (ms + [m])[..|ms|] == ms;
  }

  /** The representatives of concatenated key lists are concatenated. */
  lemma {:induction false} RepsOfAppend(t: seq<Sample>, ms: seq<YearMonth>, ns: seq<YearMonth>)
    ensures RepsOf(t, ms + ns) == RepsOf(t, ms) + RepsOf(t, ns)
    decreases |ns|
  {
    if ns == [] {
      assert ms + ns == ms;
    } else {
      var ns', n := ns[..|ns| - 1], ns[|ns| - 1];
      assert ms + ns == (ms + ns') + [n] && ns == ns' + [n];
      RepsOfAppend(t, ms, ns');
      RepsOfSnoc(t, ms + ns', n);
      RepsOfSnoc(t, ns', n);
    }
  }

  /** Visiting the keys in another order yields the same representatives, rearranged. */
  lemma {:induction false} RepsOfPermutation(t: seq<Sample>, ms: seq<YearMonth>, ns: seq<YearMonth>)
    requires multiset(ms) == multiset(ns)
    ensures multiset(RepsOf(t, ms)) == multiset(RepsOf(t, ns))
    decreases |ms|
  {
    assert |ms| == |multiset(ms)| == |multiset(ns)| == |ns|;
    if ms != [] {
      var i := MatchLast(ms, ns);
      var m, ms' := ms[|ms| - 1], ms[..|ms| - 1];
      assert ms == ms' + [m];
      RepsOfPermutation(t, ms', ns[..i] + ns[i + 1..]);
      RepsOfSnoc(t, ms', m);
      RepsOfAppend(t, ns[..i] + [m], ns[i + 1..]);
      RepsOfSnoc(t, ns[..i], m);
      RepsOfAppend(t, ns[..i], ns[i + 1..]);
    }
  }

  /** `.slice(-12)`. */
  function Last12(s: seq<Point>): (r: seq<Point>)
    ensures |r| == if |s| <= 12 then |s| else 12
    ensures r == s[|s| - |r|..]
  {
    if |s| <= 12 then s else s[|s| - 12..]
  }

  /** The representative of every month with a kept sample, in order of first occurrence. */
  function Representatives(s: seq<Sample>, floor: int): seq<Sample> {
    var kept := Kept(s, floor);
    RepsOf(kept, MonthsIn(kept))
  }

  /** Every month's point before truncation, for input `s` in its sorted order. */
  function MonthlyPoints(s: seq<Sample>, floor: int): seq<Point> {
    ToPoints(Representatives(s, floor))
  }

  /** The resampled chart series for input `s` in its sorted order. */
  function Resample(s: seq<Sample>, floor: int): seq<Point> {
    Last12(MonthlyPoints(s, floor))
  }

  // ----- properties of the specification -----

  /** A bucket's representative is a sample of that month. */
  lemma RepresentativeOfMonth(t: seq<Sample>, m: YearMonth)
    requires InMonth(t, m) != []
    ensures Representative(InMonth(t, m)).Some?
    ensures Representative(InMonth(t, m)).value in t
    ensures MonthOf(Representative(InMonth(t, m)).value) == m
  {
  }

  /** When every bucket of `ms` is non-empty, representative `i` is that of month `ms[i]`. */
  lemma {:induction false} RepsOfIndex(t: seq<Sample>, ms: seq<YearMonth>)
    requires forall m :: m in ms ==> InMonth(t, m) != []
    ensures |RepsOf(t, ms)| == |ms|
    ensures forall i :: 0 <= i < |ms| ==> RepsOf(t, ms)[i] == Representative(InMonth(t, ms[i])).value
  {
    if ms != [] {
      var init, m := ms[..|ms| - 1], ms[|ms| - 1];
      assert forall n :: n in init ==> n in ms;
      RepsOfIndex(t, init);
      var rep := Representative(InMonth(t, m));
      assert InMonth(t, m) != [];
      assert rep.Some?;
      assert RepsOf(t, ms) == RepsOf(t, init) + [rep.value];
      forall i | 0 <= i < |ms|
        ensures RepsOf(t, ms)[i] == Representative(InMonth(t, ms[i])).value
      {
        if i < |init| {
          assert ms[i] == init[i];
        }
      }
    }
  }

  /**
   * Exactly one representative per month that has a kept sample, in the
   * order the months first occur; each is a kept input sample of its month.
   */
  lemma RepresentativesIndex(s: seq<Sample>, floor: int)
    ensures |Representatives(s, floor)| == |MonthsIn(Kept(s, floor))|
    ensures forall i :: 0 <= i < |Representatives(s, floor)| ==>
              var x := Representatives(s, floor)[i];
              x == Representative(InMonth(Kept(s, floor), MonthsIn(Kept(s, floor))[i])).value
              && x in s && InstantOf(x) >= floor && MonthOf(x) == MonthsIn(Kept(s, floor))[i]
  {
    var kept := Kept(s, floor);
    var ms := MonthsIn(kept);
    RepsOfIndex(kept, ms);
    var reps := Representatives(s, floor);
    forall i | 0 <= i < |reps|
      ensures reps[i] in s && InstantOf(reps[i]) >= floor && MonthOf(reps[i]) == ms[i]
    {
      RepresentativeOfMonth(kept, ms[i]);
      assert reps[i] in kept;
    }
  }

  /** Representative `i` is a kept input sample of the `i`-th month. */
  lemma RepresentativeAt(s: seq<Sample>, floor: int, i: int)
    requires 0 <= i < |Representatives(s, floor)|
    ensures Representatives(s, floor)[i] in s && InstantOf(Representatives(s, floor)[i]) >= floor
  {
    RepresentativesIndex(s, floor);
  }

  /** One representative per month with a kept sample. */
  lemma RepresentativesLength(s: seq<Sample>, floor: int)
    ensures |Representatives(s, floor)| == |MonthsIn(Kept(s, floor))|
  {
    var kept := Kept(s, floor);
    RepsOfLength(kept, MonthsIn(kept));
  }

  lemma {:induction false} RepsOfLength(t: seq<Sample>, ms: seq<YearMonth>)
    requires forall m :: m in ms ==> InMonth(t, m) != []
    ensures |RepsOf(t, ms)| == |ms|
  {
    if ms != [] {
      var init, m := ms[..|ms| - 1], ms[|ms| - 1];
      assert forall n :: n in init ==> n in ms;
      RepsOfLength(t, init);
      RepresentativeOfMonth(t, m);
    }
  }

  /** Every month with a sample at or after the floor has a representative. */
  lemma RepresentativesCover(s: seq<Sample>, floor: int)
    ensures forall x :: x in s && InstantOf(x) >= floor ==>
              exists k :: 0 <= k < |Representatives(s, floor)| && MonthOf(Representatives(s, floor)[k]) == MonthOf(x)
  {
    RepresentativesIndex(s, floor);
    var kept := Kept(s, floor);
    var ms := MonthsIn(kept);
    var reps := Representatives(s, floor);
    forall x | x in s && InstantOf(x) >= floor
      ensures exists k :: 0 <= k < |reps| && MonthOf(reps[k]) == MonthOf(x)
    {
      assert x in kept;
      assert x in InMonth(kept, MonthOf(x));
      var k :| 0 <= k < |ms| && ms[k] == MonthOf(x);
      assert MonthOf(reps[k]) == MonthOf(x);
    }
  }

  /** For sorted, well-dated input the months are visited in strictly chronological order. */
  lemma {:induction false} MonthsInAscending(t: seq<Sample>)
    requires SortedBy(t, InstantOf) && WellDated(t)
    ensures StrictlyAscendingBy(MonthsIn(t), MonthOrdinal)
  {
    if t != [] {
      var init, m := t[..|t| - 1], MonthOf(t[|t| - 1]);
      assert SortedBy(init, InstantOf);
      WellDatedSub(t, init);
      MonthsInAscending(init);
      var ms := MonthsIn(init);
      assert MonthsIn(t) == if m in ms then ms else ms + [m];
      if m !in ms {
        forall i | 0 <= i < |ms| ensures MonthOrdinal(ms[i]) < MonthOrdinal(m) {
          MonthsBeforeLast(t, ms[i]);
          MonthOrdinalInjective(ms[i], m);
        }
        AscendingSnoc(ms, m, MonthOrdinal);
      }
    }
  }

  /** Every month seen before the last sample of sorted, well-dated input is no later than the last sample's. */
  lemma MonthsBeforeLast(t: seq<Sample>, n: YearMonth)
    requires SortedBy(t, InstantOf) && WellDated(t) && t != []
    requires n in MonthsIn(t[..|t| - 1])
    ensures MonthOrdinal(n) <= MonthOrdinal(MonthOf(t[|t| - 1]))
  {
    var init, last := t[..|t| - 1], t[|t| - 1];
    var y := InMonth(init, n)[0];
    assert y in init && MonthOf(y) == n;
    var k :| 0 <= k < |init| && init[k] == y;
    assert t[k] == y;
    assert InstantOf(y) <= InstantOf(last);
    assert DateLe(y.timestamp.utc, last.timestamp.utc);
    MonthOrdinalInjective(n, MonthOf(last));
  }

  /** The kept samples of sorted, well-dated input are sorted and well-dated. */
  lemma KeptSortedWellDated(s: seq<Sample>, floor: int)
    requires SortedBy(s, InstantOf) && WellDated(s)
    ensures SortedBy(Kept(s, floor), InstantOf) && WellDated(Kept(s, floor))
  {
    FilterSorted(s, x => InstantOf(x) >= floor, InstantOf);
    WellDatedSub(s, Kept(s, floor));
  }

  /**
   * For sorted, well-dated input the representatives ascend strictly, both
   * by instant and by month.
   */
  lemma RepresentativesAscending(s: seq<Sample>, floor: int)
    requires SortedBy(s, InstantOf) && WellDated(s)
    ensures StrictlyAscendingBy(Representatives(s, floor), InstantOf)
    ensures StrictlyAscendingBy(Representatives(s, floor), SampleOrdinal)
  {
    var kept := Kept(s, floor);
    var ms := MonthsIn(kept);
    var reps := Representatives(s, floor);
    KeptSortedWellDated(s, floor);
    MonthsInAscending(kept);
    RepresentativesIndex(s, floor);
    forall i, j | 0 <= i < j < |reps|
      ensures InstantOf(reps[i]) < InstantOf(reps[j])
      ensures SampleOrdinal(reps[i]) < SampleOrdinal(reps[j])
    {
      assert MonthOrdinal(ms[i]) < MonthOrdinal(ms[j]);
      EarlierMonthEarlierInstant(s, reps[i], reps[j]);
    }
  }

  /**
   * In a sorted, well-dated bucket of one month the three-step choice always
   * lands on the bucket's first, that is earliest, sample.
   */
  lemma RepresentativeIsEarliest(b: seq<Sample>)
    requires b != []
    requires SortedBy(b, InstantOf) && WellDated(b)
    requires forall i :: 0 <= i < |b| ==> MonthOf(b[i]) == MonthOf(b[0])
    ensures Representative(b) == Some(b[0])
  {
    forall i | 0 <= i < |b|
      ensures b[0].timestamp.utc.day <= b[i].timestamp.utc.day
    {
      assert InstantOf(b[0]) <= InstantOf(b[i]);
      assert DateLe(b[0].timestamp.utc, b[i].timestamp.utc);
    }
    RepresentativeRule(b);
    if IsFirstDay(b[0]) {
      assert FirstWith(b, 0, IsFirstDay);
    } else if IsEarlyDay(b[0]) {
      assert FirstWith(b, 0, IsEarlyDay);
    }
  }

  /**
   * For sorted, well-dated input each representative is the earliest kept
   * sample of its month; so a month with a day-1 sample is represented on
   * day 1.
   */
  lemma RepresentativesEarliest(s: seq<Sample>, floor: int)
    requires SortedBy(s, InstantOf) && WellDated(s)
    ensures forall k, x ::
              (0 <= k < |Representatives(s, floor)| && x in s && InstantOf(x) >= floor
               && MonthOf(x) == MonthOf(Representatives(s, floor)[k])) ==>
                InstantOf(Representatives(s, floor)[k]) <= InstantOf(x)
                && (IsFirstDay(x) ==> IsFirstDay(Representatives(s, floor)[k]))
  {
    var reps := Representatives(s, floor);
    forall k, x | 0 <= k < |reps| && x in s && InstantOf(x) >= floor && MonthOf(x) == MonthOf(reps[k])
      ensures InstantOf(reps[k]) <= InstantOf(x)
      ensures IsFirstDay(x) ==> IsFirstDay(reps[k])
    {
      RepresentativeEarliestAt(s, floor, k, x);
    }
  }

  /** The pointwise form of `RepresentativesEarliest`. */
  lemma RepresentativeEarliestAt(s: seq<Sample>, floor: int, k: int, x: Sample)
    requires SortedBy(s, InstantOf) && WellDated(s)
    requires 0 <= k < |Representatives(s, floor)| && x in s && InstantOf(x) >= floor
    requires MonthOf(x) == MonthOf(Representatives(s, floor)[k])
    ensures InstantOf(Representatives(s, floor)[k]) <= InstantOf(x)
    ensures IsFirstDay(x) ==> IsFirstDay(Representatives(s, floor)[k])
  {
    var kept := Kept(s, floor);
    var ms := MonthsIn(kept);
    KeptSortedWellDated(s, floor);
    RepresentativesIndex(s, floor);
    assert x in kept;
    BucketEarliest(kept, ms[k], x);
  }

  /** In sorted, well-dated samples the representative of a month is its earliest sample. */
  lemma BucketEarliest(t: seq<Sample>, m: YearMonth, x: Sample)
    requires SortedBy(t, InstantOf) && WellDated(t)
    requires x in t && MonthOf(x) == m
    ensures Representative(InMonth(t, m)).Some?
    ensures InstantOf(Representative(InMonth(t, m)).value) <= InstantOf(x)
    ensures IsFirstDay(x) ==> IsFirstDay(Representative(InMonth(t, m)).value)
  {
    var b := InMonth(t, m);
    FilterSorted(t, y => MonthOf(y) == m, InstantOf);
    WellDatedSub(t, b);
    assert x in b;
    RepresentativeIsEarliest(b);
    var j :| 0 <= j < |b| && b[j] == x;
    assert InstantOf(b[0]) <= InstantOf(x);
    assert DateLe(b[0].timestamp.utc, x.timestamp.utc);
  }

  /** A point has its sample's instant and month. */
  lemma PointKeys(x: Sample)
    ensures PointInstant(ToPoint(x)) == InstantOf(x)
    ensures PointOrdinal(ToPoint(x)) == SampleOrdinal(x)
  {
  }

  /** The series is the points of the last representatives, as many as it has. */
  lemma ResampleIsSuffix(s: seq<Sample>, floor: int)
    ensures |Resample(s, floor)| <= |Representatives(s, floor)|
    ensures Resample(s, floor)
            == ToPoints(Representatives(s, floor)[|Representatives(s, floor)| - |Resample(s, floor)|..])
  {
    Last12Suffix(Representatives(s, floor));
  }

  lemma Last12Suffix(reps: seq<Sample>)
    ensures |Last12(ToPoints(reps))| <= |reps|
    ensures Last12(ToPoints(reps)) == ToPoints(reps[|reps| - |Last12(ToPoints(reps))|..])
  {
    MapSuffix(reps, ToPoint, |reps| - |Last12(ToPoints(reps))|);
  }

  /**
   * The chart series: at most twelve points, one per month with a sample at
   * or after the floor while there are at most twelve such months, and the
   * last ones of the full monthly series.
   */
  lemma ResampleBounds(s: seq<Sample>, floor: int)
    ensures |Resample(s, floor)| <= 12
    ensures |Resample(s, floor)| == if |MonthsIn(Kept(s, floor))| <= 12 then |MonthsIn(Kept(s, floor))| else 12
    ensures Resample(s, floor) == MonthlyPoints(s, floor)[|MonthlyPoints(s, floor)| - |Resample(s, floor)|..]
  {
    MonthlyPointsLength(s, floor);
    var full := MonthlyPoints(s, floor);
    assert Resample(s, floor) == Last12(full);
  }

  lemma MonthlyPointsLength(s: seq<Sample>, floor: int)
    ensures |MonthlyPoints(s, floor)| == |MonthsIn(Kept(s, floor))|
  {
    RepresentativesLength(s, floor);
    assert |MonthlyPoints(s, floor)| == |Representatives(s, floor)|;
  }

  /** Every point of the series is the point of an input sample at or after the floor. */
  lemma ResampleFromKept(s: seq<Sample>, floor: int, p: Point)
    requires p in Resample(s, floor)
    ensures PointInstant(p) >= floor
    ensures exists x :: x in s && InstantOf(x) >= floor && p == ToPoint(x)
  {
    var reps := Representatives(s, floor);
    ResampleOfRepresentative(reps, p);
    var i :| 0 <= i < |reps| && p == ToPoint(reps[i]);
    RepresentativeAt(s, floor, i);
    PointKeys(reps[i]);
  }

  lemma ResampleOfRepresentative(reps: seq<Sample>, p: Point)
    requires p in Last12(ToPoints(reps))
    ensures exists i :: 0 <= i < |reps| && p == ToPoint(reps[i])
  {
    var r := Last12(ToPoints(reps));
    MapSuffixMember(reps, ToPoint, |reps| - |r|, p);
  }

  /** Every month with a sample at or after the floor has a point before truncation. */
  lemma MonthlyPointsCover(s: seq<Sample>, floor: int)
    ensures forall x :: x in s && InstantOf(x) >= floor ==>
              exists k :: 0 <= k < |MonthlyPoints(s, floor)| && PointMonth(MonthlyPoints(s, floor)[k]) == MonthOf(x)
  {
    RepresentativesCover(s, floor);
    var reps := Representatives(s, floor);
    var full := MonthlyPoints(s, floor);
    forall x | x in s && InstantOf(x) >= floor
      ensures exists k :: 0 <= k < |full| && PointMonth(full[k]) == MonthOf(x)
    {
      var k :| 0 <= k < |reps| && MonthOf(reps[k]) == MonthOf(x);
      assert full[k] == ToPoint(reps[k]);
    }
  }

  /** The series is empty exactly when no sample is at or after the floor (empty input included). */
  lemma ResampleEmptyIff(s: seq<Sample>, floor: int)
    ensures Resample(s, floor) == [] <==> forall x :: x in s ==> InstantOf(x) < floor
  {
    ResampleBounds(s, floor);
    var kept := Kept(s, floor);
    if x :| x in s && InstantOf(x) >= floor {
      assert x in InMonth(kept, MonthOf(x));
      assert MonthOf(x) in MonthsIn(kept);
    } else {
      assert kept == [];
    }
  }

  /** For sorted, well-dated input the points before truncation ascend strictly by timestamp. */
  lemma MonthlyPointsAscending(s: seq<Sample>, floor: int)
    requires SortedBy(s, InstantOf) && WellDated(s)
    ensures StrictlyAscendingBy(MonthlyPoints(s, floor), PointInstant)
  {
    RepresentativesAscending(s, floor);
    var reps := Representatives(s, floor);
    forall i | 0 <= i < |reps| ensures PointInstant(ToPoint(reps[i])) == InstantOf(reps[i]) {
      PointKeys(reps[i]);
    }
    MapAscending(reps, ToPoint, InstantOf, PointInstant);
  }

  /**
   * For sorted, well-dated input the series ascends strictly by timestamp
   * and by month, so no month appears twice.
   */
  lemma ResampleAscending(s: seq<Sample>, floor: int)
    requires SortedBy(s, InstantOf) && WellDated(s)
    ensures StrictlyAscendingBy(Resample(s, floor), PointInstant)
    ensures StrictlyAscendingBy(Resample(s, floor), PointOrdinal)
  {
    RepresentativesAscending(s, floor);
    ResampleIsSuffix(s, floor);
    var reps := Representatives(s, floor);
    var d := |reps| - |Resample(s, floor)|;
    var tail := reps[d..];
    forall i, j | 0 <= i < j < |tail|
      ensures InstantOf(tail[i]) < InstantOf(tail[j]) && SampleOrdinal(tail[i]) < SampleOrdinal(tail[j])
    {
      assert tail[i] == reps[d + i] && tail[j] == reps[d + j];
    }
    forall i | 0 <= i < |tail|
      ensures PointInstant(ToPoint(tail[i])) == InstantOf(tail[i])
      ensures PointOrdinal(ToPoint(tail[i])) == SampleOrdinal(tail[i])
    {
      PointKeys(tail[i]);
    }
    MapAscending(tail, ToPoint, InstantOf, PointInstant);
    MapAscending(tail, ToPoint, SampleOrdinal, PointOrdinal);
  }

  /**
   * For sorted, well-dated input point `k` of the series is taken from the
   * earliest sample of its month at or after the floor: no such sample `x`
   * is earlier, and when `x` falls on day 1 the point does too.
   */
  lemma ResampleEarliest(s: seq<Sample>, floor: int, k: int, x: Sample)
    requires SortedBy(s, InstantOf) && WellDated(s)
    requires 0 <= k < |Resample(s, floor)| && x in s && InstantOf(x) >= floor
    requires MonthOf(x) == PointMonth(Resample(s, floor)[k])
    ensures PointInstant(Resample(s, floor)[k]) <= InstantOf(x)
    ensures IsFirstDay(x) ==> Resample(s, floor)[k].actualDay == 1
  {
    RepresentativesEarliest(s, floor);
    var reps := Representatives(s, floor);
    var full := MonthlyPoints(s, floor);
    var r := Resample(s, floor);
    var d := |full| - |r|;
    var y := reps[d + k];
    assert r[k] == full[d + k] == ToPoint(y);
    assert MonthOf(x) == MonthOf(y);
    assert InstantOf(y) <= InstantOf(x) && (IsFirstDay(x) ==> IsFirstDay(y));
  }

  // ----- the procedure -----

  /**
   * The grouping loop: walks the sorted samples, skips those before the
   * floor and appends each other sample to its month's bucket, creating the
   * bucket (and its key) on first use.
   */
  method GroupByMonth(sorted: seq<Sample>, floor: int) returns (groups: map<YearMonth, seq<Sample>>, keys: seq<YearMonth>)
    ensures keys == MonthsIn(Kept(sorted, floor))
    ensures forall m :: m in groups <==> m in keys
    ensures forall m :: m in groups ==> groups[m] == InMonth(Kept(sorted, floor), m)
  {
    groups, keys := map[], [];
    for i := 0 to |sorted|
      invariant Grouped(groups, keys, Kept(sorted[..i], floor))
    {
      var x := sorted[i];
      if InstantOf(x) < floor {
        GroupedSkip(sorted, i, floor, groups, keys);
        continue;
      }
      ghost var groups0, keys0 := groups, keys;
      groups, keys := Push(groups, keys, x);
      GroupedPush(sorted, i, floor, groups0, keys0, groups, keys);
    }
    assert sorted[..|sorted|] == sorted;
  }

  /** A sample before the floor leaves the buckets as they are. */
  lemma GroupedSkip(sorted: seq<Sample>, i: int, floor: int, groups: map<YearMonth, seq<Sample>>, keys: seq<YearMonth>)
    requires 0 <= i < |sorted| && InstantOf(sorted[i]) < floor
    requires Grouped(groups, keys, Kept(sorted[..i], floor))
    ensures Grouped(groups, keys, Kept(sorted[..i + 1], floor))
  {
    KeptStep(sorted, i, floor);
  }

  /** A sample at or after the floor goes into its month's bucket. */
  lemma GroupedPush(sorted: seq<Sample>, i: int, floor: int,
                    groups: map<YearMonth, seq<Sample>>, keys: seq<YearMonth>,
                    groups': map<YearMonth, seq<Sample>>, keys': seq<YearMonth>)
    requires 0 <= i < |sorted| && InstantOf(sorted[i]) >= floor
    requires Grouped(groups, keys, Kept(sorted[..i], floor))
    requires PushedTo(groups, keys, sorted[i], groups', keys')
    ensures Grouped(groups', keys', Kept(sorted[..i + 1], floor))
  {
    KeptStep(sorted, i, floor);
    GroupedStep(groups, keys, Kept(sorted[..i], floor), sorted[i], groups', keys');
  }

  /** The kept prefix grows by the next sample exactly when that sample is at or after the floor. */
  lemma KeptStep(sorted: seq<Sample>, i: int, floor: int)
    requires 0 <= i < |sorted|
    ensures Kept(sorted[..i + 1], floor)
            == if InstantOf(sorted[i]) >= floor then Kept(sorted[..i], floor) + [sorted[i]] else Kept(sorted[..i], floor)
  {
    KeptSnoc(sorted[..i], sorted[i], floor);
    assert sorted[..i + 1] == sorted[..i] + [sorted[i]];
  }

  /** `groups'` and `keys'` are `groups` and `keys` after pushing `x` into its month's bucket. */
  ghost predicate PushedTo(groups: map<YearMonth, seq<Sample>>, keys: seq<YearMonth>, x: Sample,
                           groups': map<YearMonth, seq<Sample>>, keys': seq<YearMonth>) {
    && keys' == (if MonthOf(x) in groups then keys else keys + [MonthOf(x)])
    && MonthOf(x) in groups'
    && groups'[MonthOf(x)] == (if MonthOf(x) in groups then groups[MonthOf(x)] else []) + [x]
    && (forall n :: n != MonthOf(x) ==> (n in groups' <==> n in groups))
    && (forall n :: n != MonthOf(x) && n in groups ==> groups'[n] == groups[n])
  }

  /** Adds `x` to its month's bucket, creating the bucket and its key on first use. */
  method Push(groups: map<YearMonth, seq<Sample>>, keys: seq<YearMonth>, x: Sample)
    returns (groups': map<YearMonth, seq<Sample>>, keys': seq<YearMonth>)
    ensures PushedTo(groups, keys, x, groups', keys')
  {
    var m := MonthOf(x);
    groups', keys' := groups, keys;
    if m !in groups' {
      groups' := groups'[m := []];
      keys' := keys' + [m];
    }
    groups' := groups'[m := groups'[m] + [x]];
  }

  /** The dictionary and key list hold exactly the buckets of `t`, keys in order of first occurrence. */
  ghost predicate Grouped(groups: map<YearMonth, seq<Sample>>, keys: seq<YearMonth>, t: seq<Sample>) {
    && keys == MonthsIn(t)
    && (forall m :: m in groups <==> m in keys)
    && (forall m :: m in groups ==> groups[m] == InMonth(t, m))
  }

  /** Pushing one more sample into its month's bucket, creating the bucket if needed. */
  lemma GroupedStep(groups: map<YearMonth, seq<Sample>>, keys: seq<YearMonth>, t: seq<Sample>, x: Sample,
                    groups': map<YearMonth, seq<Sample>>, keys': seq<YearMonth>)
    requires Grouped(groups, keys, t)
    requires PushedTo(groups, keys, x, groups', keys')
    ensures Grouped(groups', keys', t + [x])
  {
    var m := MonthOf(x);
    MonthsInSnoc(t, x);
    forall n ensures n in groups' <==> n in keys' {
      if n != m {
        assert n in groups' <==> n in groups;
      }
    }
    forall n | n in groups' ensures groups'[n] == InMonth(t + [x], n) {
      InMonthSnoc(t, x, n);
      if n != m {
        assert n in groups && groups'[n] == groups[n];
      } else if m in groups {
        assert groups[m] == InMonth(t, m);
      } else {
        assert m !in MonthsIn(t);
      }
    }
  }

  lemma KeptSnoc(s: seq<Sample>, x: Sample, floor: int)
    ensures Kept(s + [x], floor) == if InstantOf(x) >= floor then Kept(s, floor) + [x] else Kept(s, floor)
  {
    assert (s + [x])[..|s|] == s;
  }

  lemma InMonthSnoc(t: seq<Sample>, x: Sample, m: YearMonth)
    ensures InMonth(t + [x], m) == if MonthOf(x) == m then InMonth(t, m) + [x] else InMonth(t, m)
  {
    assert (t + [x])[..|t|] == t;
  }

  lemma MonthsInSnoc(t: seq<Sample>, x: Sample)
    ensures MonthsIn(t + [x]) == if MonthOf(x) in MonthsIn(t) then MonthsIn(t) else MonthsIn(t) + [MonthOf(x)]
  {
    assert (t + [x])[..|t|] == t;
  }

  /**
   * The order in which the per-month loop visits the keys does not matter:
   * once the points are sorted by time, any rearrangement of the keys gives
   * the specified monthly series.
   */
  lemma KeyOrderIrrelevant(s: seq<Sample>, floor: int, ms: seq<YearMonth>, pts: seq<Point>)
    requires SortedBy(s, InstantOf) && WellDated(s)
    requires multiset(ms) == multiset(MonthsIn(Kept(s, floor)))
    requires SortedBy(pts, PointInstant)
    requires multiset(pts) == multiset(ToPoints(RepsOf(Kept(s, floor), ms)))
    ensures pts == MonthlyPoints(s, floor)
  {
    var kept := Kept(s, floor);
    RepsOfPermutation(kept, ms, MonthsIn(kept));
    MapPermutation(RepsOf(kept, ms), Representatives(s, floor), ToPoint);
    MonthlyPointsAscending(s, floor);
    SortedPermutationUnique(MonthlyPoints(s, floor), pts, PointInstant);
  }

  /**
   * `processMonthlyData`: sorts `raw` in place by time, groups the samples
   * from `floor` on by UTC month, takes one representative per month (in
   * key order), builds its point, sorts the points by time and keeps the
   * last twelve. The result is `Resample` of the sorted input.
   */
  method ProcessMonthlyData(raw: array?<Sample>, floor: int) returns (result: seq<Point>)
    requires raw != null ==> WellDated(raw[..])
    modifies raw
    ensures raw == null ==> result == []
    ensures raw != null ==> SortedBy(raw[..], InstantOf) && multiset(raw[..]) == old(multiset(raw[..]))
    ensures raw != null ==> WellDated(raw[..])
    ensures raw != null ==> result == Resample(raw[..], floor)
  {
    if raw == null || raw.Length == 0 {
      return [];
    }
    SortBy(raw, InstantOf);
    var sorted := raw[..];
    assert WellDated(sorted) by {
      forall x | x in sorted ensures x in old(raw[..]) {
        assert x in multiset(sorted);
      }
    }
    ghost var kept := Kept(sorted, floor);
    var groups, keys := GroupByMonth(sorted, floor);

    // Object.keys(monthlyGroups).sort(): the keys in string order
    KeyLessOrder();
    var monthKeys := SortedCopyWith(keys, KeyLess);
    forall m | m in monthKeys ensures m in keys {
      assert m in multiset(monthKeys);
    }

    var monthlyData := BuildMonthlyData(groups, monthKeys, kept);

    // monthlyData.sort(...).slice(-12): sorting by time undoes any effect of the key order
    var sortedData := SortedCopy(monthlyData, PointInstant);
    KeyOrderIrrelevant(sorted, floor, monthKeys, sortedData);
    result := Last12(sortedData);
  }

  /**
   * The per-month loop: for each key in order, picks the bucket's
   * representative and, when there is one, appends its point.
   */
  method BuildMonthlyData(groups: map<YearMonth, seq<Sample>>, monthKeys: seq<YearMonth>, ghost kept: seq<Sample>)
    returns (monthlyData: seq<Point>)
    requires forall m :: m in monthKeys ==> m in groups && groups[m] == InMonth(kept, m)
    ensures monthlyData == ToPoints(RepsOf(kept, monthKeys))
  {
    monthlyData := [];
    ghost var reps: seq<Sample> := [];
    for j := 0 to |monthKeys|
      invariant reps == RepsOf(kept, monthKeys[..j])
      invariant monthlyData == ToPoints(reps)
    {
      var key := monthKeys[j];
      assert groups[key] == InMonth(kept, key);
      RepsOfSnoc(kept, monthKeys[..j], key);
      assert monthKeys[..j + 1] == monthKeys[..j] + [key];
      var bestPoint := Representative(groups[key]);
      if bestPoint.Some? {
        ToPointsSnoc(reps, bestPoint.value);
        reps := reps + [bestPoint.value];
        monthlyData := monthlyData + [ToPoint(bestPoint.value)];
      }
    }
    assert monthKeys[..|monthKeys|] == monthKeys;
  }
}
