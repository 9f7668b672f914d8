/** The direction resolver: the fixed 16-point compass table, the
    arithmetic mean of the sample bearings, and the label nearest to it. */
module Compass {
  import opened Options
  import opened Stats

  /** Label and bearing in degrees, in the table's insertion order, which is
      also the order Python iterates the dictionary's keys in. */
  const Table: seq<(string, real)> := [
    ("N", 0.0), ("NNE", 22.5), ("NE", 45.0), ("ENE", 67.5),
    ("E", 90.0), ("ESE", 112.5), ("SE", 135.0), ("SSE", 157.5),
    ("S", 180.0), ("SSW", 202.5), ("SW", 225.0), ("WSW", 247.5),
    ("W", 270.0), ("WNW", 292.5), ("NW", 315.0), ("NNW", 337.5)
  ]

  function Label(i: nat): string
    requires i < |Table|
  {
    Table[i].0
  }

  function Bearing(i: nat): real
    requires i < |Table|
  {
    Table[i].1
  }

  /** The table is 16 points 22.5 degrees apart, starting at N = 0. */
  lemma TableEvenlySpaced()
    ensures |Table| == 16
    ensures forall i :: 0 <= i < |Table| ==> Bearing(i) == 22.5 * (i as real)
  {
  }

  /** The 16 labels are pairwise different, so a label names one entry. */
  lemma LabelsDistinct()
    ensures forall i, j :: 0 <= i < j < |Table| ==> Label(i) != Label(j)
  {
  }

  /** `d` is a key of the table (exactly: no trimming, no case folding). */
  predicate IsLabel(d: string)
  {
    exists i :: 0 <= i < |Table| && Label(i) == d
  }

  /** Every label has at least one letter (so it is never the sentinel's ""). */
  lemma LabelNotEmpty(d: string)
    requires IsLabel(d)
    ensures |d| > 0
  {
  }

  function IndexFrom(d: string, i: nat): (r: Option<nat>)
    requires i <= |Table|
    ensures r.Some? ==> i <= r.value < |Table| && Label(r.value) == d
    ensures r.None? <==> forall j :: i <= j < |Table| ==> Label(j) != d
    decreases |Table| - i
  {
    if i == |Table| then None
    else if Label(i) == d then Some(i)
    else IndexFrom(d, i + 1)
  }

  /** The dictionary lookup `direccion_a_grados[d]`; `None` is the KeyError. */
  function Lookup(d: string): (r: Option<real>)
    ensures r.Some? <==> IsLabel(d)
    ensures forall i :: 0 <= i < |Table| && Label(i) == d ==> r == Some(Bearing(i))
  {
    LabelsDistinct();
    match IndexFrom(d, 0)
    case None => None
    case Some(i) => Some(Bearing(i))
  }

  /** The bearings of all the samples, in order; `None` as soon as one
      sample is not a key of the table. */
  function Bearings(labels: seq<string>): (r: Option<seq<real>>)
    ensures r.Some? <==> forall i :: 0 <= i < |labels| ==> IsLabel(labels[i])
    ensures r.Some? ==> |r.value| == |labels|
  {
    if |labels| == 0 then Some([])
    else
      assert forall i :: 1 <= i < |labels| ==> labels[i] == labels[1..][i - 1];
      match Lookup(labels[0])
      case None => None
      case Some(b) =>
        match Bearings(labels[1..])
        case None => None
        case Some(bs) => Some([b] + bs)
  }

  /** The i-th bearing is the table's bearing for the i-th sample. */
  lemma {:induction false} BearingsPointwise(labels: seq<string>)
    requires Bearings(labels).Some?
    ensures forall i :: 0 <= i < |labels| ==> Lookup(labels[i]) == Some(Bearings(labels).value[i])
  {
    if |labels| > 0 {
      BearingsPointwise(labels[1..]);
      assert forall i :: 1 <= i < |labels| ==> labels[i] == labels[1..][i - 1];
    }
  }

  /** Every bearing of the table lies in [0, 337.5]. */
  lemma LookupInRange(d: string)
    requires Lookup(d).Some?
    ensures 0.0 <= Lookup(d).value <= 337.5
  {
    TableEvenlySpaced();
    var k :| 0 <= k < |Table| && Label(k) == d;
    assert Lookup(d) == Some(Bearing(k));
  }

  lemma BearingsInRange(labels: seq<string>)
    requires Bearings(labels).Some?
    ensures forall i :: 0 <= i < |labels| ==> 0.0 <= Bearings(labels).value[i] <= 337.5
  {
    BearingsPointwise(labels);
    forall i | 0 <= i < |labels|
      ensures 0.0 <= Bearings(labels).value[i] <= 337.5
    {
      LookupInRange(labels[i]);
    }
  }

  /** The plain (not circular) mean of the sample bearings; `None` when a
      sample is unknown or there are no samples (Python's ZeroDivisionError). */
  function MeanBearing(labels: seq<string>): (r: Option<real>)
    ensures r.Some? <==> |labels| > 0 && forall i :: 0 <= i < |labels| ==> IsLabel(labels[i])
    ensures r.Some? ==> 0.0 <= r.value <= 337.5
  {
    match Bearings(labels)
    case None => None
    case Some(bs) =>
      if |bs| == 0 then None
      else
        BearingsInRange(labels);
        MeanWithin(bs, 0.0, 337.5);
        Some(Mean(bs))
  }

  /** The mean bearing of known samples is the mean of their bearings. */
  lemma MeanBearingOfKnown(labels: seq<string>)
    requires |labels| > 0 && Bearings(labels).Some?
    ensures MeanBearing(labels) == Some(Mean(Bearings(labels).value))
  {
  }

  function Abs(x: real): real
  {
    if x < 0.0 then -x else x
  }

  /** The key of the `sort` in `calcular_direccion_prominente`: how far entry
      `i` is from the mean. It is zero exactly on the entry's own bearing. */
  function Distance(i: nat, mean: real): (r: real)
    requires i < |Table|
    ensures r >= 0.0
    ensures r == 0.0 <==> Bearing(i) == mean
    ensures Bearing(i) - r <= mean <= Bearing(i) + r
    ensures r == Bearing(i) - mean || r == mean - Bearing(i)
  {
    Abs(Bearing(i) - mean)
  }

  function Distances(mean: real): (d: seq<real>)
    ensures |d| == |Table|
    ensures forall i :: 0 <= i < |Table| ==> d[i] == Distance(i, mean)
  {
    seq(|Table|, i requires 0 <= i < |Table| => Distance(i, mean))
  }

  /** Entry `k` is at minimal distance from `mean`, and every earlier entry
      is strictly farther. */
  predicate IsFirstNearest(k: nat, mean: real)
  {
    && k < |Table|
    && (forall j :: 0 <= j < |Table| ==> Distance(k, mean) <= Distance(j, mean))
    && (forall j :: 0 <= j < k ==> Distance(k, mean) < Distance(j, mean))
  }

  /** At most one entry is the first nearest. */
  lemma FirstNearestUnique(k: nat, k': nat, mean: real)
    requires IsFirstNearest(k, mean) && IsFirstNearest(k', mean)
    ensures k == k'
  {
    var d, d' := Distance(k, mean), Distance(k', mean);
    assert d == d';
    assert k < k' ==> d' < d;
    assert k' < k ==> d < d';
  }

  function NearestIndex(mean: real): (k: nat)
    ensures IsFirstNearest(k, mean)
  {
    FirstMin(Distances(mean))
  }

  /** The label `calcular_direccion_prominente` returns for a mean bearing. */
  function Nearest(mean: real): (r: string)
    ensures IsLabel(r)
    ensures exists k :: IsFirstNearest(k, mean) && Label(k) == r
  {
    Label(NearestIndex(mean))
  }

  /** `calcular_direccion_prominente` as written: sort the keys stably by distance to the mean and
      take the first; any such order begins with the nearest label. */
  lemma NearestIsSortedHead(order: seq<nat>, mean: real)
    requires IsStableSortByKey(order, Distances(mean))
    ensures order[0] < |Table| && Label(order[0]) == Nearest(mean)
  {
    StableSortHead(order, Distances(mean));
  }

  /** A mean that falls on a table bearing resolves to that entry's label. */
  lemma NearestOfTableBearing(k: nat)
    requires k < |Table|
    ensures Nearest(Bearing(k)) == Label(k)
  {
    TableEvenlySpaced();
    var n := NearestIndex(Bearing(k));
    assert Distance(k, Bearing(k)) == 0.0;
    assert Distance(n, Bearing(k)) == 0.0;
    assert Bearing(n) == Bearing(k);
  }

  /** Tie-break: 11.25 is equally far from N and NNE; N comes first. */
  lemma NearestTieGoesToEarlier()
    ensures Nearest(11.25) == "N"
  {
    forall j | 0 <= j < |Table|
      ensures Distance(0, 11.25) <= Distance(j, 11.25)
    {
      AtLeastHalfStepFromTie(j);
    }
    FirstNearestUnique(0, NearestIndex(11.25), 11.25);
  }

  /** No entry is nearer to 11.25 than half a step; N and NNE are exactly that far. */
  lemma AtLeastHalfStepFromTie(j: int)
    requires 0 <= j < |Table|
    ensures Distance(j, 11.25) >= 11.25
    ensures j < 2 ==> Distance(j, 11.25) == 11.25
  {
    if j >= 2 {
      BeyondNorthEast();
    }
  }

  /** Every entry from NE on is at least 45 degrees. */
  lemma BeyondNorthEast()
    ensures forall j :: 2 <= j < |Table| ==> Bearing(j) >= 45.0
  {
  }

  /** Since the table bearings are 22.5 apart, a mean in [0, 337.5] is never
      more than half a step (11.25 degrees) from the label chosen. */
  lemma NearestWithinHalfStep(mean: real)
    requires 0.0 <= mean <= 337.5
    ensures exists k :: 0 <= k < |Table| && Label(k) == Nearest(mean) && Distance(k, mean) <= 11.25
  {
    TableEvenlySpaced();
    var j := CoveringEntry(mean, 0);
    var n := NearestIndex(mean);
    assert Distance(n, mean) <= Distance(j, mean);
  }

  lemma {:induction false} CoveringEntry(mean: real, k: nat) returns (j: nat)
    requires k < |Table|
    requires 22.5 * (k as real) - 11.25 <= mean <= 337.5
    ensures k <= j < |Table| && Distance(j, mean) <= 11.25
    decreases |Table| - k
  {
    TableEvenlySpaced();
    if mean <= 22.5 * (k as real) + 11.25 {
      j := k;
    } else {
      j := CoveringEntry(mean, k + 1);
    }
  }

  /** `calcular_direccion_prominente`: the table label nearest to the mean
      bearing of the samples; `None` where Python raises (an unknown label,
      or no samples at all). */
  function Predominant(labels: seq<string>): (r: Option<string>)
    ensures r.Some? <==> |labels| > 0 && forall i :: 0 <= i < |labels| ==> IsLabel(labels[i])
    ensures r.Some? ==> IsLabel(r.value)
  {
    match MeanBearing(labels)
    case None => None
    case Some(m) => Some(Nearest(m))
  }

  /** The direction returned is the first table label nearest to the
      arithmetic mean of the samples' bearings. */
  lemma PredominantIsFirstNearest(labels: seq<string>) returns (bs: seq<real>, m: real, k: nat)
    requires |labels| > 0 && Bearings(labels).Some?
    ensures Bearings(labels) == Some(bs) && |bs| == |labels|
    ensures m * (|bs| as real) == Sum(bs)
    ensures IsFirstNearest(k, m) && Predominant(labels) == Some(Label(k))
  {
    bs := Bearings(labels).value;
    m := Mean(bs);
    MeanTimesCount(bs, m);
    MeanBearingOfKnown(labels);
    k := NearestIndex(m);
  }

  /** A single known sample is its own predominant direction. */
  lemma PredominantOfSingle(d: string)
    requires IsLabel(d)
    ensures Predominant([d]) == Some(d)
  {
    var k :| 0 <= k < |Table| && Label(k) == d;
    var bs := Bearings([d]).value;
    assert bs == [Bearing(k)];
    MeanOfConstant(bs, Bearing(k));
    NearestOfTableBearing(k);
  }

  lemma LookupNorthEast()
    ensures Lookup("N") == Some(0.0) && Lookup("E") == Some(90.0)
  {
    assert Label(0) == "N" && Label(4) == "E";
  }

  /** Bearings of a non-empty list: the first sample's bearing, then the rest. */
  lemma BearingsCons(labels: seq<string>)
    requires |labels| > 0 && Bearings(labels).Some?
    ensures Bearings(labels[1..]).Some?
    ensures Bearings(labels).value == [Lookup(labels[0]).value] + Bearings(labels[1..]).value
  {
  }

  /** Samples that are all "N" or "E" have bearing sum 90 per "E". */
  lemma {:induction false} NorthEastSum(labels: seq<string>)
    requires forall i :: 0 <= i < |labels| ==> labels[i] == "N" || labels[i] == "E"
    ensures Bearings(labels).Some?
    ensures Sum(Bearings(labels).value) == 90.0 * (multiset(labels)["E"] as real)
    ensures |labels| == multiset(labels)["N"] + multiset(labels)["E"]
  {
    if |labels| > 0 {
      var rest := labels[1..];
      assert forall i :: 0 <= i < |rest| ==> rest[i] == labels[i + 1];
      NorthEastSum(rest);
      NorthEastHead(labels);
      CountCons(labels, "N");
      CountCons(labels, "E");
    }
  }

  /** One "N" or "E" sample in front adds 0 or 90 to the bearing sum. */
  lemma NorthEastHead(labels: seq<string>)
    requires |labels| > 0 && (labels[0] == "N" || labels[0] == "E")
    requires Bearings(labels[1..]).Some?
    ensures Bearings(labels).Some?
    ensures Sum(Bearings(labels).value) == (if labels[0] == "E" then 90.0 else 0.0) + Sum(Bearings(labels[1..]).value)
  {
    LookupNorthEast();
    SumCons(Lookup(labels[0]).value, Bearings(labels[1..]).value);
  }

  lemma CountCons(labels: seq<string>, x: string)
    requires |labels| > 0
    ensures multiset(labels)[x] == (if labels[0] == x then 1 else 0) + multiset(labels[1..])[x]
  {
    assert labels == [labels[0]] + labels[1..];
  }

  lemma HalfOfNinety(sum: real, e: nat, n: nat)
    requires sum == 90.0 * (e as real) && n == 2 * e
    ensures sum == 45.0 * (n as real)
  {
  }

  /** As many "N" as "E" samples average to 45 degrees, exactly NE. */
  lemma PredominantOfNorthAndEast(labels: seq<string>)
    requires |labels| > 0
    requires forall i :: 0 <= i < |labels| ==> labels[i] == "N" || labels[i] == "E"
    requires multiset(labels)["N"] == multiset(labels)["E"]
    ensures Predominant(labels) == Some("NE")
  {
    NorthEastSum(labels);
    MeanOfHalfEast(labels, multiset(labels)["E"]);
    assert Bearing(2) == 45.0 && Label(2) == "NE";
    NearestOfTableBearing(2);
  }

  /** 2e samples whose bearings sum to 90e have mean bearing 45. */
  lemma MeanOfHalfEast(labels: seq<string>, e: nat)
    requires |labels| == 2 * e && e > 0
    requires Bearings(labels).Some?
    requires Sum(Bearings(labels).value) == 90.0 * (e as real)
    ensures MeanBearing(labels) == Some(45.0)
  {
    var bs := Bearings(labels).value;
    HalfOfNinety(Sum(bs), e, |bs|);
    MeanFromSum(bs, 45.0);
    MeanBearingOfKnown(labels);
  }

  /** The mean is not circular: N (0) and NNW (337.5), neighbours on the
      compass, average to 168.75, which resolves to SSE, nearly opposite. */
  lemma PredominantWrapsAround()
    ensures Predominant(["N", "NNW"]) == Some("SSE")
  {
    MeanOfNorthAndNorthNorthWest();
    NearestOfOppositeMean();
  }

  lemma MeanOfNorthAndNorthNorthWest()
    ensures MeanBearing(["N", "NNW"]) == Some(168.75)
  {
    assert Label(0) == "N" && Label(15) == "NNW";
    assert Lookup("N") == Some(0.0) && Lookup("NNW") == Some(337.5);
    var labels := ["N", "NNW"];
    BearingsCons(labels);
    BearingsCons(labels[1..]);
    var bs := Bearings(labels).value;
    assert bs == [0.0, 337.5];
    SumCons(0.0, [337.5]);
    SumCons(337.5, []);
    assert Mean(bs) == 168.75;
  }

  /** 168.75 lies halfway between SSE (157.5) and S (180); SSE comes first. */
  lemma NearestOfOppositeMean()
    ensures Nearest(168.75) == "SSE"
  {
    TableEvenlySpaced();
    var n := NearestIndex(168.75);
    assert Distance(7, 168.75) == 11.25;
    assert Distance(8, 168.75) == 11.25;
    assert 7 <= n <= 8;
    assert n != 8;
  }

  /** The bearings of a concatenation are the concatenated bearings, and they
      exist exactly when both parts' bearings do. */
  lemma BearingsOfAppend(a: seq<string>, b: seq<string>)
    ensures Bearings(a + b).Some? <==> Bearings(a).Some? && Bearings(b).Some?
    ensures Bearings(a + b).Some? ==> Bearings(a + b).value == Bearings(a).value + Bearings(b).value
  {
    var ab := a + b;
    assert forall i :: 0 <= i < |a| ==> ab[i] == a[i];
    assert forall i :: 0 <= i < |b| ==> ab[|a| + i] == b[i];
    if Bearings(ab).Some? {
      BearingsOfAppendPointwise(a, b);
    }
  }

  lemma BearingsOfAppendPointwise(a: seq<string>, b: seq<string>)
    requires Bearings(a + b).Some? && Bearings(a).Some? && Bearings(b).Some?
    ensures Bearings(a + b).value == Bearings(a).value + Bearings(b).value
  {
    var ab := a + b;
    BearingsPointwise(ab);
    BearingsPointwise(a);
    BearingsPointwise(b);
    var x, y, z := Bearings(ab).value, Bearings(a).value, Bearings(b).value;
    forall i | 0 <= i < |x|
      ensures x[i] == (y + z)[i]
    {
      if i < |a| {
        assert ab[i] == a[i];
        assert Some(x[i]) == Lookup(a[i]) == Some(y[i]);
      } else {
        assert ab[i] == b[i - |a|];
        assert Some(x[i]) == Lookup(b[i - |a|]) == Some(z[i - |a|]);
      }
    }
  }

  /** Repeating the whole sample list leaves the predominant direction as it
      was. */
  lemma PredominantOfDoubled(labels: seq<string>)
    ensures Predominant(labels + labels) == Predominant(labels)
  {
    BearingsOfAppend(labels, labels);
    if Bearings(labels).Some? && |labels| > 0 {
      MeanOfDoubled(Bearings(labels).value);
    }
  }
}
