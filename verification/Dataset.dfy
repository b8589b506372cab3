/**
 Inter-quartile outliers of a labelled dataset (dataset/dataset.go), with values as exact reals.
 */
module Dataset {
  import opened Wrappers
  import opened StableSort

  type Values = map<string, real>

  datatype DatasetError = NoValues | TooFewValues

  datatype Outlier = Outlier(upper: bool, lower: bool)

  const NO_OUTLIER := Outlier(false, false)

  predicate Less(x: real, y: real) {
    x < y
  }

  lemma LessIsOrder()
    ensures Order(Less)
  {
  }

  ghost predicate Ascending(v: seq<real>) {
    forall i, j :: 0 <= i < j < |v| ==> v[i] <= v[j]
  }

  // The values of a dataset in some order of its labels.
  ghost function Listing(d: Values): (v: seq<real>)
    ensures |v| == |d|
    decreases |d|
  {
    if d == map[] then []
    else
      var name := Pick(d.Keys);
      [d[name]] + Listing(d - {name})
  }

  // Any label may be listed first.
  lemma {:induction false} ListingRemove(d: Values, name: string)
    requires name in d
    ensures multiset(Listing(d)) == multiset{d[name]} + multiset(Listing(d - {name}))
    decreases |d|
  {
    hide Listing;
    var first := Pick(d.Keys);
    ListingHead(d);
    if name != first {
      var both := d - {first} - {name};
      ListingRemove(d - {first}, name);
      ListingRemove(d - {name}, first);
      assert d - {name} - {first} == both;
    }
  }

  lemma ListingHead(d: Values)
    requires d != map[]
    ensures var first := Pick(d.Keys);
      multiset(Listing(d)) == multiset{d[first]} + multiset(Listing(d - {first}))
  {
    var first := Pick(d.Keys);
    assert Listing(d) == [d[first]] + Listing(d - {first});
  }

  // rawValues ranges over the map and sorts. The result is the same for every order of the range.
  method RawValues(d: Values) returns (values: seq<real>)
    ensures multiset(values) == multiset(Listing(d)) && Ascending(values) && |values| == |d|
  {
    hide Listing, Ascending, Order, Sorted;
    values := [];
    var left := d;
    ListingNone();
    while left != map[]
      invariant left.Keys <= d.Keys && forall l :: l in left ==> left[l] == d[l]
      invariant multiset(values) + multiset(Listing(left)) == multiset(Listing(d))
      invariant |values| + |left| == |d|
      decreases |left|
    {
      var name := NextKey(left.Keys);
      ListingRemove(left, name);
      values := values + [left[name]];
      left := left - {name};
    }
    assert |multiset(values)| == |multiset(Listing(d))|;
    LessIsOrder();
    values := Sort(values, Less);
    SortedAscends(values);
  }

  lemma ListingNone()
    ensures Listing(map[]) == []
  {
  }

  lemma SortedAscends(v: seq<real>)
    requires Sorted(v, Less)
    ensures Ascending(v)
  {
    assert forall i, j :: 0 <= i < j < |v| ==> !Less(v[j], v[i]);
  }

  // Sorted values are determined by the dataset.
  lemma {:induction false} AscendingUnique(a: seq<real>, b: seq<real>)
    requires multiset(a) == multiset(b) && Ascending(a) && Ascending(b)
    ensures a == b
    decreases |a|
  {
    hide Ascending;
    assert |multiset(a)| == |a| && |multiset(b)| == |b|;
    if a != [] {
      SameLeast(a, b);
      AscendingTail(a);
      AscendingTail(b);
      WithoutFirst(a);
      WithoutFirst(b);
      AscendingUnique(a[1..], b[1..]);
      assert a == [a[0]] + a[1..] && b == [b[0]] + b[1..];
    }
  }

  lemma SameLeast(a: seq<real>, b: seq<real>)
    requires multiset(a) == multiset(b) && Ascending(a) && Ascending(b) && a != [] && b != []
    ensures a[0] == b[0]
  {
    assert a[0] in multiset(b) && b[0] in multiset(a);
    var i :| 0 <= i < |b| && b[i] == a[0];
    var j :| 0 <= j < |a| && a[j] == b[0];
    assert b[0] <= b[i] && a[0] <= a[j];
  }

  lemma AscendingTail(v: seq<real>)
    requires Ascending(v) && v != []
    ensures Ascending(v[1..])
  {
  }

  lemma WithoutFirst(v: seq<real>)
    requires v != []
    ensures multiset(v[1..]) == multiset(v) - multiset{v[0]}
  {
    assert v == [v[0]] + v[1..];
  }

  lemma WithoutOne(v: seq<real>, k: nat)
    requires k < |v|
    ensures multiset(v[..k] + v[k + 1..]) == multiset(v) - multiset{v[k]}
  {
    assert v == v[..k] + [v[k]] + v[k + 1..];
  }

  // getMedian, of values that are sorted already.
  function GetMedian(values: seq<real>): (r: Result<real, DatasetError>)
    ensures r.Ok? <==> values != []
    ensures Ascending(values) && r.Ok? ==> values[0] <= r.value <= values[|values| - 1]
    ensures Ascending(values) && r.Ok? ==> MedianSplits(values, r.value)
  {
    var n := |values|;
    if n == 0 then Err(NoValues)
    else if n % 2 == 0 then Ok((values[(n - 1) / 2] + values[n / 2]) / 2.0)
    else Ok(values[n / 2])
  }

  // A median has at most half the values below it and at most half above it.
  ghost predicate MedianSplits(v: seq<real>, m: real) {
    (forall k :: |v| / 2 <= k < |v| ==> m <= v[k]) &&
    (forall k :: 0 <= k < |v| - |v| / 2 ==> v[k] <= m)
  }

  datatype Quartile = Quartile(lower: real, upper: real)

  // quartiles, by the exclusive method: the median of an odd number of values is in neither half.
  method Quartiles(d: Values) returns (r: Result<Quartile, DatasetError>)
    ensures r == QuartilesOf(d)
    ensures r == Err(TooFewValues) <==> |d| < 3
    ensures r.Ok? <==> |d| >= 3
  {
    hide GetMedian, SortedValues, Ascending, Listing;
    var count := |d|;
    if count < 3 {
      return Err(TooFewValues);
    }
    var cutoffLower, cutoffUpper;
    if count % 2 == 0 {
      cutoffLower, cutoffUpper := count / 2, count / 2;
    } else {
      cutoffLower := (count - 1) / 2;
      cutoffUpper := cutoffLower + 1;
    }
    var raw := RawValues(d);
    AscendingUnique(raw, SortedValues(d));
    assert count - count / 2 == cutoffUpper;
    // Neither half is empty, so neither median fails.
    var lower := GetMedian(raw[..cutoffLower]);
    var upper := GetMedian(raw[cutoffUpper..]);
    r := Ok(Quartile(lower.value, upper.value));
  }

  ghost function SortedValues(d: Values): (v: seq<real>)
    ensures multiset(v) == multiset(Listing(d)) && |v| == |d| && Ascending(v)
  {
    LessIsOrder();
    var v := Sort(Listing(d), Less);
    SortedAscends(v);
    v
  }

  // The medians of the two halves of the sorted values.
  ghost function HalfMedians(v: seq<real>): (r: Quartile)
    requires |v| >= 2 && Ascending(v)
    ensures r.lower <= r.upper
  {
    var half := |v| / 2;
    assert v[half - 1] <= v[|v| - half];
    Quartile(GetMedian(v[..half]).value, GetMedian(v[|v| - half..]).value)
  }

  ghost function QuartilesOf(d: Values): (r: Result<Quartile, DatasetError>)
    ensures r.Ok? ==> r.value.lower <= r.value.upper
  {
    if |d| < 3 then Err(TooFewValues) else Ok(HalfMedians(SortedValues(d)))
  }

  // How far beyond a quartile a value must lie.
  function Distance(q: Quartile, multiplier: real): real {
    (q.upper - q.lower) * multiplier
  }

  function IsIQROutlier(value: real, q: Quartile, multiplier: real): Outlier {
    var distance := Distance(q, multiplier);
    Outlier(value > q.upper + distance, value < q.lower - distance)
  }

  // No label of too small a dataset is an outlier.
  function Classify(value: real, q: Result<Quartile, DatasetError>, multiplier: real): Outlier {
    if q.Err? then NO_OUTLIER else IsIQROutlier(value, q.value, multiplier)
  }

  method GetOutliers(d: Values, multiplier: real) returns (outliers: map<string, Outlier>)
    ensures outliers == OutliersOf(d, multiplier)
  {
    hide QuartilesOf, Classify;
    outliers := map[];
    var q := Quartiles(d);
    var left := d.Keys;
    while left != {}
      invariant left <= d.Keys
      invariant outliers.Keys == d.Keys - left
      invariant forall l :: l in outliers ==> outliers[l] == Classify(d[l], q, multiplier)
    {
      var name := NextKey(left);
      outliers := outliers[name := Classify(d[name], q, multiplier)];
      left := left - {name};
    }
  }

  ghost function OutliersOf(d: Values, multiplier: real): (r: map<string, Outlier>) {
    map name | name in d :: Classify(d[name], QuartilesOf(d), multiplier)
  }

  // The lower fence is the upper fence of the mirrored values.
  lemma OutlierMirror(value: real, q: Quartile, multiplier: real)
    ensures IsIQROutlier(value, q, multiplier).lower
       <==> IsIQROutlier(-value, Quartile(-q.upper, -q.lower), multiplier).upper
  {
  }

  // The multiplier decides by how many ranges a value lies beyond its quartile; the range itself being
  // empty, every value beyond the quartiles is an outlier.
  lemma CriticalMultiplier(value: real, q: Quartile, multiplier: real)
    requires q.lower <= q.upper
    ensures q.lower < q.upper ==>
      (IsIQROutlier(value, q, multiplier).lower <==> multiplier < (q.lower - value) / (q.upper - q.lower))
    ensures q.lower < q.upper ==>
      (IsIQROutlier(value, q, multiplier).upper <==> multiplier < (value - q.upper) / (q.upper - q.lower))
    ensures q.lower == q.upper ==> IsIQROutlier(value, q, multiplier) == Outlier(value > q.upper, value < q.lower)
  {
    hide Distance;
    if q.lower == q.upper {
      DistanceOfNone(q, multiplier);
    } else {
      DistanceReaches(q, multiplier, q.lower - value);
      DistanceReaches(q, multiplier, value - q.upper);
    }
  }

  lemma DistanceReaches(q: Quartile, multiplier: real, gap: real)
    requires q.lower < q.upper
    ensures Distance(q, multiplier) < gap <==> multiplier < gap / (q.upper - q.lower)
  {
    var range := q.upper - q.lower;
    Ratio(range, gap);
    var critical := gap / range;
    DistanceGap(q, multiplier, critical);
    if multiplier < critical {
      DistanceFalls(q, multiplier, critical);
    } else {
      DistanceGrows(q, critical, multiplier);
    }
  }

  lemma Ratio(range: real, gap: real)
    requires range != 0.0
    ensures range * (gap / range) == gap
  {
  }

  // The fences of a sorted listing of the values.
  lemma OutliersSay(d: Values, multiplier: real, v: seq<real>, name: string)
    requires Ascending(v) && multiset(v) == multiset(Listing(d)) && name in d
    ensures var outlier, n, half := OutliersOf(d, multiplier)[name], |d|, |d| / 2;
      |v| == n &&
      if n < 3 then outlier == Outlier(false, false)
      else
        var lower := (v[(half - 1) / 2] + v[half / 2]) / 2.0;
        var upper := (v[n - 1 - (half - 1) / 2] + v[n - 1 - half / 2]) / 2.0;
        (outlier.lower <==> d[name] < lower - (upper - lower) * multiplier) &&
        (outlier.upper <==> d[name] > upper + (upper - lower) * multiplier)
  {
    hide Listing, Ascending, HalfMedians, SortedValues, IsIQROutlier;
    assert |multiset(v)| == |multiset(Listing(d))|;
    AscendingUnique(v, SortedValues(d));
    if |d| >= 3 {
      QuartilesSay(v);
      Fences(d[name], QuartilesOf(d).value, multiplier);
    }
  }

  lemma Fences(value: real, q: Quartile, multiplier: real)
    ensures IsIQROutlier(value, q, multiplier).lower <==> value < q.lower - (q.upper - q.lower) * multiplier
    ensures IsIQROutlier(value, q, multiplier).upper <==> value > q.upper + (q.upper - q.lower) * multiplier
  {
  }

  lemma QuartilesSay(v: seq<real>)
    requires |v| >= 2 && Ascending(v)
    ensures var q, n, half := HalfMedians(v), |v|, |v| / 2;
      q.lower == (v[(half - 1) / 2] + v[half / 2]) / 2.0 &&
      q.upper == (v[n - 1 - (half - 1) / 2] + v[n - 1 - half / 2]) / 2.0
  {
    hide GetMedian, Ascending;
    LowerMedian(v, |v| / 2);
    UpperMedian(v, |v| / 2);
  }

  lemma LowerMedian(v: seq<real>, half: nat)
    requires 0 < half <= |v|
    ensures GetMedian(v[..half]).Ok? && GetMedian(v[..half]).value == (v[(half - 1) / 2] + v[half / 2]) / 2.0
  {
    hide GetMedian;
    MedianIndex(v[..half]);
  }

  lemma UpperMedian(v: seq<real>, half: nat)
    requires 0 < half <= |v|
    ensures GetMedian(v[|v| - half..]).Ok?
    ensures GetMedian(v[|v| - half..]).value == (v[|v| - 1 - (half - 1) / 2] + v[|v| - 1 - half / 2]) / 2.0
  {
    hide GetMedian;
    MedianIndex(v[|v| - half..]);
    assert half - 1 - (half - 1) / 2 == half / 2;
  }

  // The middle value, or the mean of the two.
  lemma MedianIndex(v: seq<real>)
    requires v != []
    ensures GetMedian(v).Ok? && GetMedian(v).value == (v[(|v| - 1) / 2] + v[|v| / 2]) / 2.0
  {
  }

  // No value can lie beyond both ends exactly when the multiplier is at least -1/2 or the quartiles
  // coincide; so no label is both an upper and a lower outlier for any multiplier from 0 up.
  lemma OutlierOnOneSide(q: Quartile, multiplier: real)
    requires q.lower <= q.upper
    ensures (forall value :: !(IsIQROutlier(value, q, multiplier) == Outlier(true, true)))
       <==> q.lower == q.upper || multiplier >= -0.5
  {
    hide Distance;
    DistanceAtHalf(q);
    if q.lower == q.upper {
      DistanceOfNone(q, multiplier);
    } else if multiplier >= -0.5 {
      DistanceGrows(q, -0.5, multiplier);
    } else {
      DistanceFalls(q, multiplier, -0.5);
      var middle := (q.upper + q.lower) / 2.0;
      assert IsIQROutlier(middle, q, multiplier) == Outlier(true, true);
    }
  }

  lemma DistanceAtHalf(q: Quartile)
    ensures Distance(q, -0.5) == (q.lower - q.upper) / 2.0
  {
  }

  lemma DistanceAtZero(q: Quartile)
    ensures Distance(q, 0.0) == 0.0
  {
  }

  lemma DistanceOfNone(q: Quartile, multiplier: real)
    requires q.lower == q.upper
    ensures Distance(q, multiplier) == 0.0
  {
    var range := q.upper - q.lower;
    assert range == 0.0;
  }

  lemma DistanceGrows(q: Quartile, low: real, high: real)
    requires q.lower <= q.upper && low <= high
    ensures Distance(q, low) <= Distance(q, high)
  {
    DistanceGap(q, low, high);
    Product(q.upper - q.lower, high - low);
  }

  lemma DistanceFalls(q: Quartile, low: real, high: real)
    requires q.lower < q.upper && low < high
    ensures Distance(q, low) < Distance(q, high)
  {
    DistanceGap(q, low, high);
    Product(q.upper - q.lower, high - low);
  }

  lemma DistanceGap(q: Quartile, low: real, high: real)
    ensures Distance(q, high) == Distance(q, low) + (q.upper - q.lower) * (high - low)
  {
  }

  lemma Product(x: real, y: real)
    requires x >= 0.0 && y >= 0.0
    ensures x * y >= 0.0
    ensures x > 0.0 && y > 0.0 ==> x * y > 0.0
  {
  }

  ghost function LowerOutliers(d: Values, multiplier: real): set<string> {
    set name | name in d && OutliersOf(d, multiplier)[name].lower
  }

  ghost function UpperOutliers(d: Values, multiplier: real): set<string> {
    set name | name in d && OutliersOf(d, multiplier)[name].upper
  }

  lemma OutliersDisjoint(d: Values, multiplier: real)
    requires multiplier >= -0.5
    ensures LowerOutliers(d, multiplier) !! UpperOutliers(d, multiplier)
  {
    var q := QuartilesOf(d);
    if q.Ok? {
      OutlierOnOneSide(q.value, multiplier);
      forall name | name in d
        ensures OutliersOf(d, multiplier)[name] != Outlier(true, true)
      {
        assert IsIQROutlier(d[name], q.value, multiplier) != Outlier(true, true);
      }
    }
  }

  // Raising the multiplier never adds an outlier.
  lemma OutliersShrink(d: Values, low: real, high: real)
    requires low <= high
    ensures LowerOutliers(d, high) <= LowerOutliers(d, low)
    ensures UpperOutliers(d, high) <= UpperOutliers(d, low)
  {
    hide QuartilesOf;
    var q := QuartilesOf(d);
    if q.Ok? {
      forall name | name in d
        ensures OutliersOf(d, high)[name].lower ==> OutliersOf(d, low)[name].lower
        ensures OutliersOf(d, high)[name].upper ==> OutliersOf(d, low)[name].upper
      {
        OutlierShrinks(d[name], q.value, low, high);
      }
    }
  }

  lemma OutlierShrinks(value: real, q: Quartile, low: real, high: real)
    requires q.lower <= q.upper && low <= high
    ensures IsIQROutlier(value, q, high).lower ==> IsIQROutlier(value, q, low).lower
    ensures IsIQROutlier(value, q, high).upper ==> IsIQROutlier(value, q, low).upper
  {
    hide Distance;
    DistanceGrows(q, low, high);
  }

  /* At most a quarter of the labels lies strictly beyond a quartile. */

  ghost function LabelsBelow(d: Values, x: real): set<string> {
    set name | name in d && d[name] < x
  }

  ghost function CountBelow(v: seq<real>, x: real): nat {
    if v == [] then 0 else (if v[0] < x then 1 else 0) + CountBelow(v[1..], x)
  }

  lemma {:induction false} LabelsCounted(d: Values, x: real)
    ensures |LabelsBelow(d, x)| == CountBelow(Listing(d), x)
    decreases |d|
  {
    hide LabelsBelow;
    if d == map[] {
      NoLabels(x);
    } else {
      var name := Pick(d.Keys);
      LabelsCounted(d - {name}, x);
      LabelsRemove(d, x, name);
    }
  }

  lemma NoLabels(x: real)
    ensures LabelsBelow(map[], x) == {}
  {
  }

  lemma LabelsRemove(d: Values, x: real, name: string)
    requires name in d
    ensures |LabelsBelow(d, x)| == |LabelsBelow(d - {name}, x)| + if d[name] < x then 1 else 0
  {
    var rest := LabelsBelow(d - {name}, x);
    assert LabelsBelow(d, x) == if d[name] < x then rest + {name} else rest;
  }

  lemma {:induction false} CountRemove(v: seq<real>, k: nat, x: real)
    requires k < |v|
    ensures CountBelow(v, x) == (if v[k] < x then 1 else 0) + CountBelow(v[..k] + v[k + 1..], x)
    decreases |v|
  {
    if k == 0 {
      assert v[..k] + v[k + 1..] == v[1..];
    } else {
      CountRemove(v[1..], k - 1, x);
      var less := v[..k] + v[k + 1..];
      assert less[1..] == v[1..][..k - 1] + v[1..][k..];
    }
  }

  // Counting does not depend on the order.
  lemma {:induction false} CountPermuted(a: seq<real>, b: seq<real>, x: real)
    requires multiset(a) == multiset(b)
    ensures CountBelow(a, x) == CountBelow(b, x)
    decreases |a|
  {
    assert |multiset(a)| == |a| && |multiset(b)| == |b|;
    if a != [] {
      assert a[0] in multiset(b);
      var k :| 0 <= k < |b| && b[k] == a[0];
      CountRemove(b, k, x);
      WithoutFirst(a);
      WithoutOne(b, k);
      CountPermuted(a[1..], b[..k] + b[k + 1..], x);
    }
  }

  lemma {:induction false} CountPrefix(v: seq<real>, k: nat, x: real)
    requires k <= |v| && forall j :: k <= j < |v| ==> v[j] >= x
    ensures CountBelow(v, x) <= k
    decreases |v|
  {
    if v != [] {
      CountPrefix(v[1..], if k == 0 then 0 else k - 1, x);
    }
  }

  lemma BelowLowerQuartile(d: Values)
    requires |d| >= 3
    ensures |LabelsBelow(d, QuartilesOf(d).value.lower)| <= |d| / 4
  {
    hide SortedValues, GetMedian, Listing, CountBelow, LabelsBelow;
    var v, half, x := SortedValues(d), |d| / 2, QuartilesOf(d).value.lower;
    LabelsCounted(d, x);
    CountPermuted(v, Listing(d), x);
    UpperPart(v, half, x);
    CountPrefix(v, half / 2, x);
  }

  lemma UpperPart(v: seq<real>, half: nat, x: real)
    requires 0 < half <= |v| && Ascending(v) && MedianSplits(v[..half], x)
    ensures forall j :: half / 2 <= j < |v| ==> v[j] >= x
  {
    assert v[..half][half / 2] >= x;
  }

  lemma SizeOfQuartiles(d: Values)
    ensures QuartilesOf(d).Ok? <==> |d| >= 3
  {
  }

  // At most a quarter of the labels are lower outliers.
  lemma FewLowerOutliers(d: Values, multiplier: real)
    requires multiplier >= 0.0
    ensures |LowerOutliers(d, multiplier)| <= |d| / 4
  {
    hide QuartilesOf;
    var q := QuartilesOf(d);
    SizeOfQuartiles(d);
    if q.Ok? {
      BelowLowerQuartile(d);
      forall name | name in LowerOutliers(d, multiplier)
        ensures name in LabelsBelow(d, q.value.lower)
      {
        OutlierShrinks(d[name], q.value, 0.0, multiplier);
        DistanceAtZero(q.value);
      }
      SubsetSize(LowerOutliers(d, multiplier), LabelsBelow(d, q.value.lower));
    } else {
      assert LowerOutliers(d, multiplier) == {};
    }
  }

  lemma {:induction false} SubsetSize(a: set<string>, b: set<string>)
    requires a <= b
    ensures |a| <= |b|
    decreases |a|
  {
    if a != {} {
      var x := Pick(a);
      SubsetSize(a - {x}, b - {x});
    }
  }
}
