/** Exact arithmetic behind `sum(xs) / len(xs)` and behind taking the head
    of a list stably sorted by a key. */
module Stats {

  function Sum(s: seq<real>): real
  {
    if |s| == 0 then 0.0 else s[0] + Sum(s[1..])
  }

  /** `sum(s) / len(s)`; Python raises ZeroDivisionError on an empty list,
      which callers model before calling this. */
  function Mean(s: seq<real>): (m: real)
    requires |s| > 0
    ensures m * (|s| as real) == Sum(s)
  {
    Sum(s) / (|s| as real)
  }

  lemma MeanTimesCount(s: seq<real>, m: real)
    requires |s| > 0 && m == Mean(s)
    ensures m * (|s| as real) == Sum(s)
  {
  }

  function Min(s: seq<real>): (m: real)
    requires |s| > 0
    ensures m in s
    ensures forall i :: 0 <= i < |s| ==> m <= s[i]
  {
    if |s| == 1 then s[0]
    else
      var rest := Min(s[1..]);
      assert forall i :: 1 <= i < |s| ==> s[i] == s[1..][i - 1];
      if s[0] <= rest then s[0] else rest
  }

  function Max(s: seq<real>): (m: real)
    requires |s| > 0
    ensures m in s
    ensures forall i :: 0 <= i < |s| ==> s[i] <= m
  {
    if |s| == 1 then s[0]
    else
      var rest := Max(s[1..]);
      assert forall i :: 1 <= i < |s| ==> s[i] == s[1..][i - 1];
      if rest <= s[0] then s[0] else rest
  }

  lemma SumCons(x: real, s: seq<real>)
    ensures Sum([x] + s) == x + Sum(s)
  {
    assert ([x] + s)[1..] == s;
  }

  lemma {:induction false} SumAppend(a: seq<real>, b: seq<real>)
    ensures Sum(a + b) == Sum(a) + Sum(b)
    decreases |a|
  {
    if |a| > 0 {
      SumAppend(a[1..], b);
      assert (a + b)[1..] == a[1..] + b;
    } else {
      assert a + b == b;
    }
  }

  /** Python's `sum` adds from the left, starting at 0: the last element is
      added to the sum of the ones before it. */
  lemma SumIsLeftFold(s: seq<real>)
    requires |s| > 0
    ensures Sum(s) == Sum(s[..|s| - 1]) + s[|s| - 1]
  {
    var last := [s[|s| - 1]];
    SumAppend(s[..|s| - 1], last);
    assert s[..|s| - 1] + last == s;
    assert Sum(last) == s[|s| - 1] + Sum(last[1..]);
  }

  /** Every element within [lo, hi] puts the sum within |s| copies of them. */
  lemma {:induction false} SumWithin(s: seq<real>, lo: real, hi: real)
    requires forall i :: 0 <= i < |s| ==> lo <= s[i] <= hi
    ensures (|s| as real) * lo <= Sum(s) <= (|s| as real) * hi
    decreases |s|
  {
    if |s| > 0 {
      assert forall i :: 0 <= i < |s| - 1 ==> s[1..][i] == s[i + 1];
      SumWithin(s[1..], lo, hi);
    }
  }

  /** The mean lies between any common lower and upper bound of the data. */
  lemma MeanWithin(s: seq<real>, lo: real, hi: real)
    requires |s| > 0
    requires forall i :: 0 <= i < |s| ==> lo <= s[i] <= hi
    ensures lo <= Mean(s) <= hi
  {
    SumWithin(s, lo, hi);
    var n := |s| as real;
    assert Mean(s) * n == Sum(s);
  }

  /** In particular it lies between the smallest and the largest element. */
  lemma MeanBetweenExtremes(s: seq<real>)
    requires |s| > 0
    ensures Min(s) <= Mean(s) <= Max(s)
  {
    MeanWithin(s, Min(s), Max(s));
  }

  /** The mean of a constant list is that constant. */
  lemma MeanOfConstant(s: seq<real>, c: real)
    requires |s| > 0
    requires forall i :: 0 <= i < |s| ==> s[i] == c
    ensures Mean(s) == c
  {
    MeanWithin(s, c, c);
  }

  /** A sum of |s| times c means an average of c. */
  lemma MeanFromSum(s: seq<real>, c: real)
    requires |s| > 0
    requires Sum(s) == c * (|s| as real)
    ensures Mean(s) == c
  {
    var n := |s| as real;
    assert n > 0.0;
    assert (c * n) / n == c;
  }

  /** Listing the same data twice does not move the mean. */
  lemma MeanOfDoubled(s: seq<real>)
    requires |s| > 0
    ensures Mean(s + s) == Mean(s)
  {
    SumAppend(s, s);
    var n := |s| as real;
    assert Mean(s + s) == (2.0 * Sum(s)) / (2.0 * n);
  }

  /** The first position holding the smallest key: what `keys.index(min(keys))`
      would give, and what heads a stable sort by that key. */
  function FirstMin(d: seq<real>): (k: nat)
    requires |d| > 0
    ensures k < |d|
    ensures forall j :: 0 <= j < |d| ==> d[k] <= d[j]
    ensures forall j :: 0 <= j < k ==> d[k] < d[j]
  {
    if |d| == 1 then 0
    else
      var k := FirstMin(d[..|d| - 1]);
      assert forall j :: 0 <= j < |d| - 1 ==> d[..|d| - 1][j] == d[j];
      if d[|d| - 1] < d[k] then |d| - 1 else k
  }

  /** `order` lists every index of `d` exactly once. */
  predicate IsPermutationOfIndices(order: seq<nat>, n: nat)
  {
    && |order| == n
    && (forall p, q :: 0 <= p < q < |order| ==> order[p] != order[q])
    && (forall p :: 0 <= p < |order| ==> order[p] < n)
    && (forall k :: 0 <= k < n ==> k in order)
  }

  /** `order` is what Python's stable `sort(key=...)` produces from the
      indices of `d` in their original order: ascending keys, and equal keys
      keep their original relative order. */
  predicate IsStableSortByKey(order: seq<nat>, d: seq<real>)
  {
    && IsPermutationOfIndices(order, |d|)
    && (forall p, q :: 0 <= p < q < |order| ==> d[order[p]] <= d[order[q]])
    && (forall p, q :: 0 <= p < q < |order| && d[order[p]] == d[order[q]] ==> order[p] < order[q])
  }

  /** Whatever stable sort is used, its head is the first minimiser: Python's
      `sorted(..., key=k)[0]` picks the earliest index among those with the
      smallest key. */
  lemma StableSortHead(order: seq<nat>, d: seq<real>)
    requires |d| > 0
    requires IsStableSortByKey(order, d)
    ensures order[0] == FirstMin(d)
  {
    var m := FirstMin(d);
    assert m in order;
    var p :| 0 <= p < |order| && order[p] == m;
    var head := order[0];
    assert d[head] <= d[m];
    assert d[head] == d[m];
    assert !(head < m);
    assert p > 0 ==> head < m;
  }
}
