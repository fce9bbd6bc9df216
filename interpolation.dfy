/** One-dimensional piecewise-linear interpolation over a key-to-value table,
    with the behaviour of a linear, bounds-checked interpolant: the keys are
    sorted, the segment holding the argument is found by a left-sided search,
    and an argument outside the key range is an error, never extrapolated. */
module Interpolation {
  import opened Outcomes
  import opened Numeric

  predicate StrictlyIncreasing(xs: seq<real>) {
    forall i, j :: 0 <= i < j < |xs| ==> xs[i] < xs[j]
  }

  /** The straight line through (x0, y0) and (x1, y1), evaluated at x as
      slope * (x - x0) + y0. */
  function Lerp(x0: real, y0: real, x1: real, y1: real, x: real): real
    requires x0 != x1
  {
    (y1 - y0) / (x1 - x0) * (x - x0) + y0
  }

  /** The slope form equals the textbook two-point form
      y0 + (y1 - y0) * (x - x0) / (x1 - x0). */
  lemma LerpTwoPointForm(x0: real, y0: real, x1: real, y1: real, x: real)
    requires x0 != x1
    ensures Lerp(x0, y0, x1, y1, x) == y0 + (y1 - y0) * (x - x0) / (x1 - x0)
  {
    SlopeForm(y1 - y0, x - x0, x1 - x0);
  }

  /** Between its two end points the line stays between their values, and
      strictly between them inside the segment when they differ. */
  lemma LerpBetween(x0: real, y0: real, x1: real, y1: real, x: real)
    requires x0 < x1 && x0 <= x <= x1
    ensures x == x0 ==> Lerp(x0, y0, x1, y1, x) == y0
    ensures x == x1 ==> Lerp(x0, y0, x1, y1, x) == y1
    ensures y0 <= y1 ==> y0 <= Lerp(x0, y0, x1, y1, x) <= y1
    ensures y1 <= y0 ==> y1 <= Lerp(x0, y0, x1, y1, x) <= y0
    ensures x0 < x < x1 && y0 < y1 ==> y0 < Lerp(x0, y0, x1, y1, x) < y1
    ensures x0 < x < x1 && y1 < y0 ==> y1 < Lerp(x0, y0, x1, y1, x) < y0
  {
    var d := x1 - x0;
    var q := (x - x0) / d;
    FractionOfWhole(x - x0, d);
    SlopeForm(x - x0, y1 - y0, d);
    SlopeForm(y1 - y0, x - x0, d);
    assert Lerp(x0, y0, x1, y1, x) == y0 + (y1 - y0) * q;
    assert x == x1 ==> q == 1.0;
    assert (y1 - y0) * q + (y1 - y0) * (1.0 - q) == y1 - y0;
  }

  lemma {:induction false} LeastOf(s: set<real>) returns (m: real)
    requires s != {}
    ensures m in s && forall y :: y in s ==> m <= y
  {
    if forall y :: y !in s {
      assert false;
    }
    var x :| x in s;
    var rest := s - {x};
    if rest == {} {
      m := x;
      forall y | y in s
        ensures m <= y
      {
        assert y !in rest;
      }
    } else {
      var least := LeastOf(rest);
      m := if x <= least then x else least;
      forall y | y in s
        ensures m <= y
      {
        if y != x {
          assert y in rest;
        }
      }
    }
  }

  lemma LeastExists(s: set<real>)
    requires s != {}
    ensures exists m :: m in s && forall y :: y in s ==> m <= y
  {
    var m := LeastOf(s);
  }

  /** The smallest element of a non-empty finite set of reals. */
  function Least(s: set<real>): (m: real)
    requires s != {}
    ensures m in s && forall y :: y in s ==> m <= y
  {
    LeastExists(s);
    var m :| m in s && forall y :: y in s ==> m <= y;
    m
  }

  /** The keys of a table in ascending order: each key exactly once. */
  function SortedKeys(s: set<real>): (ks: seq<real>)
    ensures |ks| == |s|
    ensures forall k :: k in ks <==> k in s
    ensures StrictlyIncreasing(ks)
    decreases s
  {
    if s == {} then []
    else
      var m := Least(s);
      var rest := SortedKeys(s - {m});
      PrependLeast(m, s, rest);
      [m] + rest
  }

  lemma PrependLeast(m: real, s: set<real>, rest: seq<real>)
    requires m in s && forall y :: y in s ==> m <= y
    requires forall k :: k in rest <==> k in s - {m}
    requires StrictlyIncreasing(rest)
    ensures forall k :: k in [m] + rest <==> k in s
    ensures StrictlyIncreasing([m] + rest)
  {
    var ks := [m] + rest;
    forall i, j | 0 <= i < j < |ks|
      ensures ks[i] < ks[j]
    {
      assert ks[j] == rest[j - 1];
      assert rest[j - 1] in rest;
      if 0 < i {
        assert ks[i] == rest[i - 1];
      }
    }
  }

  /** Left-sided search in sorted keys: the number of keys strictly below x,
      which is also the first position where x could be inserted. */
  function SearchLeft(xs: seq<real>, x: real): (i: nat)
    requires StrictlyIncreasing(xs)
    ensures i <= |xs|
    ensures forall j :: 0 <= j < i ==> xs[j] < x
    ensures forall j :: i <= j < |xs| ==> x <= xs[j]
  {
    if xs == [] || x <= xs[0] then 0
    else 1 + SearchLeft(xs[1..], x)
  }

  /** Linear interpolation through the points (xs[i], ys[i]). The segment is
      chosen from the left-sided search position, clipped to [1, |xs| - 1];
      the value is slope * (x - x_lo) + y_lo on that segment. */
  function Interpolate(xs: seq<real>, ys: seq<real>, x: real): (r: Result<real>)
    requires |xs| == |ys| && StrictlyIncreasing(xs)
    ensures r.Err? <==> |xs| < 2 || x < xs[0] || xs[|xs| - 1] < x
    ensures |xs| < 2 ==> r == Err(TooFewPoints)
    ensures 2 <= |xs| && x < xs[0] ==> r == Err(BelowRange)
    ensures 2 <= |xs| && xs[0] <= x && xs[|xs| - 1] < x ==> r == Err(AboveRange)
  {
    if |xs| < 2 then Err(TooFewPoints)
    else if x < xs[0] then Err(BelowRange)
    else if xs[|xs| - 1] < x then Err(AboveRange)
    else
      var hi := UpperIndex(xs, x);
      Ok(Lerp(xs[hi - 1], ys[hi - 1], xs[hi], ys[hi], x))
  }

  /** The upper end of the segment used for x: the left-sided search
      position clipped to [1, |xs| - 1]. For x inside the key range the
      segment [xs[hi - 1], xs[hi]] holds x. */
  function UpperIndex(xs: seq<real>, x: real): (hi: nat)
    requires StrictlyIncreasing(xs) && 2 <= |xs|
    ensures 1 <= hi < |xs|
    ensures xs[0] <= x <= xs[|xs| - 1] ==> xs[hi - 1] <= x <= xs[hi]
    ensures xs[0] < x ==> xs[hi - 1] < x
    ensures x <= xs[0] ==> hi == 1
  {
    var found := SearchLeft(xs, x);
    if found < 1 then 1 else if found > |xs| - 1 then |xs| - 1 else found
  }

  /** Inside the key range, the result is the line through the end points
      of the segment that UpperIndex selects. */
  lemma InterpolateOnUpperSegment(xs: seq<real>, ys: seq<real>, x: real)
    requires |xs| == |ys| && StrictlyIncreasing(xs)
    requires 2 <= |xs| && xs[0] <= x <= xs[|xs| - 1]
    ensures var hi := UpperIndex(xs, x);
            Interpolate(xs, ys, x) == Ok(Lerp(xs[hi - 1], ys[hi - 1], xs[hi], ys[hi], x))
  {
  }

  /** Whatever segment [xs[i], xs[i+1]] holds the argument, the result is
      the line through that segment's two points (at a shared end point the
      two neighbouring segments agree). */
  lemma InterpolateOnSegment(xs: seq<real>, ys: seq<real>, x: real, i: nat)
    requires |xs| == |ys| && StrictlyIncreasing(xs)
    requires i + 1 < |xs| && xs[i] <= x <= xs[i + 1]
    ensures Interpolate(xs, ys, x) == Ok(Lerp(xs[i], ys[i], xs[i + 1], ys[i + 1], x))
  {
    assert xs[0] <= xs[i] && xs[i + 1] <= xs[|xs| - 1];
    var hi := UpperIndex(xs, x);
    var lo := hi - 1;
    InterpolateOnUpperSegment(xs, ys, x);
    IndexOrder(xs, i, hi);
    if xs[0] < x {
      IndexOrder(xs, lo, i + 1);
    }
    assert lo == i || lo + 1 == i;
    if lo + 1 == i {
      // x is the end point xs[i] shared by both segments
      LerpBetween(xs[i], ys[i], xs[i + 1], ys[i + 1], x);
      LerpBetween(xs[lo], ys[lo], xs[hi], ys[hi], x);
    }
  }

  /** At a key, interpolation gives back the value stored at that key. */
  lemma InterpolateAtKey(xs: seq<real>, ys: seq<real>, k: nat)
    requires |xs| == |ys| && StrictlyIncreasing(xs)
    requires 2 <= |xs| && k < |xs|
    ensures Interpolate(xs, ys, xs[k]) == Ok(ys[k])
  {
    if k + 1 < |xs| {
      InterpolateOnSegment(xs, ys, xs[k], k);
      LerpBetween(xs[k], ys[k], xs[k + 1], ys[k + 1], xs[k]);
    } else {
      InterpolateOnSegment(xs, ys, xs[k], k - 1);
      LerpBetween(xs[k - 1], ys[k - 1], xs[k], ys[k], xs[k]);
    }
  }

  /** Every argument inside the key range lies on some segment. */
  lemma SegmentOf(xs: seq<real>, x: real) returns (i: nat)
    requires StrictlyIncreasing(xs)
    requires 2 <= |xs| && xs[0] <= x <= xs[|xs| - 1]
    ensures i + 1 < |xs| && xs[i] <= x <= xs[i + 1]
  {
    i := UpperIndex(xs, x) - 1;
  }

  /** The values of a table, listed in the order of its sorted keys. */
  function ValuesAt(table: map<real, real>, ks: seq<real>): (ys: seq<real>)
    requires forall i :: 0 <= i < |ks| ==> ks[i] in table
    ensures |ys| == |ks|
    ensures forall i :: 0 <= i < |ks| ==> ys[i] == table[ks[i]]
  {
    seq(|ks|, i requires 0 <= i < |ks| => table[ks[i]])
  }

  /** Interpolation over a dictionary-like table: sort the keys, list the
      values in that order, interpolate.
      It fails exactly when there are fewer than two entries or the argument
      lies below every key or above every key, and it returns the stored
      value when the argument is a key. */
  function LinearInterpolation(table: map<real, real>, argument: real): (r: Result<real>)
    ensures r.Err? <==>
              |table| < 2
              || (forall k :: k in table ==> argument < k)
              || (forall k :: k in table ==> k < argument)
    ensures |table| < 2 ==> r == Err(TooFewPoints)
    ensures 2 <= |table| && argument in table ==> r == Ok(table[argument])
  {
    var xs := SortedKeys(table.Keys);
    var ys := ValuesAt(table, xs);
    LinearInterpolationFacts(table, argument, xs, ys);
    Interpolate(xs, ys, argument)
  }

  lemma LinearInterpolationFacts(table: map<real, real>, argument: real, xs: seq<real>, ys: seq<real>)
    requires xs == SortedKeys(table.Keys) && ys == ValuesAt(table, xs)
    ensures |xs| == |table|
    ensures 2 <= |xs| ==>
              ((forall k :: k in table ==> argument < k) <==> argument < xs[0])
    ensures 2 <= |xs| ==>
              ((forall k :: k in table ==> k < argument) <==> xs[|xs| - 1] < argument)
    ensures 2 <= |xs| && argument in table ==> Interpolate(xs, ys, argument) == Ok(table[argument])
  {
    assert |table| == |table.Keys|;
    if 2 <= |xs| {
      KeysWithinEnds(table, xs);
      assert xs[0] in table && xs[|xs| - 1] in table;
      if argument in table {
        assert argument in xs;
        var j :| 0 <= j < |xs| && xs[j] == argument;
        InterpolateAtKey(xs, ys, j);
      }
    }
  }

  /** Every key of a table lies between the first and the last sorted key. */
  lemma KeysWithinEnds(table: map<real, real>, xs: seq<real>)
    requires xs == SortedKeys(table.Keys) && xs != []
    ensures forall k :: k in table ==> xs[0] <= k <= xs[|xs| - 1]
  {
    forall k | k in table
      ensures xs[0] <= k <= xs[|xs| - 1]
    {
      assert k in xs;
      var j :| 0 <= j < |xs| && xs[j] == k;
      assert 0 < j ==> xs[0] < xs[j];
      assert j < |xs| - 1 ==> xs[j] < xs[|xs| - 1];
    }
  }

  /** Between two neighbouring keys lo < hi (no key strictly between them),
      the result is the line through (lo, table[lo]) and (hi, table[hi]),
      and it lies between the two stored values. */
  lemma LinearInterpolationBetweenKeys(table: map<real, real>, lo: real, hi: real, argument: real)
    requires lo in table && hi in table && lo < hi
    requires forall k :: k in table ==> k <= lo || hi <= k
    requires lo <= argument <= hi
    ensures LinearInterpolation(table, argument) == Ok(Lerp(lo, table[lo], hi, table[hi], argument))
    ensures table[lo] <= table[hi] ==>
              table[lo] <= LinearInterpolation(table, argument).value <= table[hi]
    ensures table[hi] <= table[lo] ==>
              table[hi] <= LinearInterpolation(table, argument).value <= table[lo]
  {
    var xs := SortedKeys(table.Keys);
    var ys := ValuesAt(table, xs);
    var i := NeighbourPosition(table, xs, lo, hi);
    InterpolateOnSegment(xs, ys, argument, i);
    LerpBetween(lo, table[lo], hi, table[hi], argument);
  }

  /** Neighbouring keys of a table sit next to each other in its sorted keys. */
  lemma NeighbourPosition(table: map<real, real>, xs: seq<real>, lo: real, hi: real) returns (i: nat)
    requires xs == SortedKeys(table.Keys)
    requires lo in table && hi in table && lo < hi
    requires forall k :: k in table ==> k <= lo || hi <= k
    ensures i + 1 < |xs| && xs[i] == lo && xs[i + 1] == hi
  {
    assert lo in xs && hi in xs;
    i :| 0 <= i < |xs| && xs[i] == lo;
    var j :| 0 <= j < |xs| && xs[j] == hi;
    IndexOrder(xs, i, j);
    assert xs[i + 1] in xs;
    assert hi <= xs[i + 1];
    IndexOrder(xs, j, i + 1);
  }

  /** In strictly increasing keys, positions are ordered like the keys. */
  lemma IndexOrder(xs: seq<real>, a: nat, b: nat)
    requires StrictlyIncreasing(xs) && a < |xs| && b < |xs|
    ensures xs[a] < xs[b] ==> a < b
    ensures xs[a] <= xs[b] ==> a <= b
  {
  }

  /** An interpolated value lies between two of the interpolated values. */
  lemma InterpolateWithinValues(xs: seq<real>, ys: seq<real>, x: real) returns (lo: nat, hi: nat)
    requires |xs| == |ys| && StrictlyIncreasing(xs) && Interpolate(xs, ys, x).Ok?
    ensures lo < |ys| && hi < |ys|
    ensures ys[lo] <= Interpolate(xs, ys, x).value <= ys[hi]
  {
    var i := SegmentOf(xs, x);
    InterpolateOnSegment(xs, ys, x, i);
    LerpBetween(xs[i], ys[i], xs[i + 1], ys[i + 1], x);
    if ys[i] <= ys[i + 1] {
      lo, hi := i, i + 1;
    } else {
      lo, hi := i + 1, i;
    }
  }
}
