/** Counting through all combinations of values, the last position fastest. */
module Odometer {

  ghost predicate AllPositive(sizes: seq<nat>) {
    forall i | 0 <= i < |sizes| :: sizes[i] > 0
  }

  /** One choice for every position. */
  ghost predicate Digits(d: seq<nat>, sizes: seq<nat>) {
    |d| == |sizes| && forall i | 0 <= i < |d| :: d[i] < sizes[i]
  }

  ghost function Product(sizes: seq<nat>): nat {
    if sizes == [] then 1 else sizes[0] * Product(sizes[1..])
  }

  /** How many combinations come before d in lexicographic order. */
  ghost function Rank(d: seq<nat>, sizes: seq<nat>): nat
    requires Digits(d, sizes)
  {
    if d == [] then 0 else d[0] * Product(sizes[1..]) + Rank(d[1..], sizes[1..])
  }

  ghost function Zeros(n: nat): (d: seq<nat>)
    ensures |d| == n && forall i | 0 <= i < n :: d[i] == 0
  {
    if n == 0 then [] else [0] + Zeros(n - 1)
  }

  /** All combinations in lexicographic order: those that begin with 0, then those with 1, ... */
  ghost function AllFrom(v: nat, sizes: seq<nat>): seq<seq<nat>>
    requires sizes != [] && v <= sizes[0]
    decreases |sizes|, sizes[0] - v
  {
    if v == sizes[0] then [] else Prefixed(v, All(sizes[1..])) + AllFrom(v + 1, sizes)
  }

  ghost function All(sizes: seq<nat>): seq<seq<nat>>
    decreases |sizes|, if sizes == [] then 0 else sizes[0] + 1
  {
    if sizes == [] then [[]] else AllFrom(0, sizes)
  }

  ghost function Prefixed(v: nat, ds: seq<seq<nat>>): (r: seq<seq<nat>>)
    ensures |r| == |ds| && forall i | 0 <= i < |ds| :: r[i] == [v] + ds[i]
  {
    seq(|ds|, i requires 0 <= i < |ds| => [v] + ds[i])
  }

  lemma {:induction false} AllFromLength(v: nat, sizes: seq<nat>)
    requires sizes != [] && v <= sizes[0]
    ensures |AllFrom(v, sizes)| == (sizes[0] - v) * Product(sizes[1..])
    decreases |sizes|, sizes[0] - v
  {
    hide All;
    if v < sizes[0] {
      AllLength(sizes[1..]);
      AllFromLength(v + 1, sizes);
      Distribute(sizes[0] - v - 1, Product(sizes[1..]));
    }
  }

  lemma Distribute(a: nat, b: nat)
    ensures (a + 1) * b == b + a * b
  {
  }

  lemma {:induction false} AllLength(sizes: seq<nat>)
    ensures |All(sizes)| == Product(sizes)
    decreases |sizes|, if sizes == [] then 0 else sizes[0] + 1
  {
    if sizes != [] {
      AllFromLength(0, sizes);
    }
  }

  /** Every combination stands in the list, at its rank. */
  lemma {:induction false} AllAt(d: seq<nat>, sizes: seq<nat>)
    requires Digits(d, sizes)
    ensures Rank(d, sizes) < |All(sizes)| == Product(sizes) && All(sizes)[Rank(d, sizes)] == d
    decreases |sizes|, if sizes == [] then 0 else sizes[0] + 1
  {
    AllLength(sizes);
    if d != [] {
      AllFromAt(0, d, sizes);
    }
  }

  /** The rank of d among the combinations that begin with v or more. */
  ghost function RankFrom(v: nat, d: seq<nat>, sizes: seq<nat>): nat
    requires Digits(d, sizes) && d != [] && v <= d[0]
  {
    (d[0] - v) * Product(sizes[1..]) + Rank(d[1..], sizes[1..])
  }

  lemma RankFromHere(d: seq<nat>, sizes: seq<nat>)
    requires Digits(d, sizes) && d != []
    ensures RankFrom(d[0], d, sizes) == Rank(d[1..], sizes[1..])
  {
  }

  lemma RankFromNext(v: nat, d: seq<nat>, sizes: seq<nat>)
    requires Digits(d, sizes) && d != [] && v < d[0]
    ensures RankFrom(v, d, sizes) == Product(sizes[1..]) + RankFrom(v + 1, d, sizes)
  {
    hide Rank, Product;
    Distribute(d[0] - v - 1, Product(sizes[1..]));
  }

  lemma {:induction false} AllFromAt(v: nat, d: seq<nat>, sizes: seq<nat>)
    requires Digits(d, sizes) && d != [] && v <= d[0]
    ensures RankFrom(v, d, sizes) < |AllFrom(v, sizes)| && AllFrom(v, sizes)[RankFrom(v, d, sizes)] == d
    decreases |sizes|, sizes[0] - v
  {
    hide RankFrom, AllFrom, Rank;
    if d[0] == v {
      AllAt(d[1..], sizes[1..]);
      BlockAt(v, sizes, Rank(d[1..], sizes[1..]));
      RankFromHere(d, sizes);
      assert [v] + d[1..] == d;
    } else {
      AllFromAt(v + 1, d, sizes);
      LaterAt(v, sizes, RankFrom(v + 1, d, sizes));
      RankFromNext(v, d, sizes);
    }
  }

  lemma BlockAt(v: nat, sizes: seq<nat>, i: nat)
    requires sizes != [] && v < sizes[0] && i < |All(sizes[1..])|
    ensures i < |AllFrom(v, sizes)| && AllFrom(v, sizes)[i] == [v] + All(sizes[1..])[i]
  {
  }

  lemma LaterAt(v: nat, sizes: seq<nat>, i: nat)
    requires sizes != [] && v < sizes[0] && i < |AllFrom(v + 1, sizes)|
    ensures var p := Product(sizes[1..]);
      p + i < |AllFrom(v, sizes)| && AllFrom(v, sizes)[p + i] == AllFrom(v + 1, sizes)[i]
  {
    AllLength(sizes[1..]);
    var a, b := Prefixed(v, All(sizes[1..])), AllFrom(v + 1, sizes);
    assert (a + b)[|a| + i] == b[i];
  }

  lemma {:induction false} RankBound(d: seq<nat>, sizes: seq<nat>)
    requires Digits(d, sizes)
    ensures Rank(d, sizes) < Product(sizes)
  {
    AllAt(d, sizes);
  }

  /** Different combinations have different ranks. */
  lemma RankInjective(d: seq<nat>, e: seq<nat>, sizes: seq<nat>)
    requires Digits(d, sizes) && Digits(e, sizes) && Rank(d, sizes) == Rank(e, sizes)
    ensures d == e
  {
    AllAt(d, sizes);
    AllAt(e, sizes);
  }

  // ---------- one step ----------

  /** From the right, positions at their last value wrap around, and the next one goes up; none is
      left when all have wrapped around. */
  ghost function Increment(d: seq<nat>, sizes: seq<nat>, i: nat): (bool, seq<nat>)
    requires Digits(d, sizes) && i <= |d|
    decreases i
  {
    if i == 0 then (false, d)
    else if d[i - 1] + 1 < sizes[i - 1] then (true, d[i - 1 := d[i - 1] + 1])
    else Increment(d[i - 1 := 0], sizes, i - 1)
  }

  lemma {:induction false} IncrementDigits(d: seq<nat>, sizes: seq<nat>, i: nat)
    requires Digits(d, sizes) && AllPositive(sizes) && i <= |d|
    ensures Digits(Increment(d, sizes, i).1, sizes)
    decreases i
  {
    if i > 0 && d[i - 1] + 1 >= sizes[i - 1] {
      IncrementDigits(d[i - 1 := 0], sizes, i - 1);
    }
  }

  /** The worth of a step at position i. */
  ghost function Weight(sizes: seq<nat>, i: nat): nat
    requires i <= |sizes|
  {
    Product(sizes[i..])
  }

  lemma WeightStep(sizes: seq<nat>, i: nat)
    requires i < |sizes|
    ensures Weight(sizes, i) == sizes[i] * Weight(sizes, i + 1)
  {
    assert sizes[i..][1..] == sizes[i + 1..];
  }

  lemma {:induction false} RankUpdate(d: seq<nat>, sizes: seq<nat>, i: nat, v: nat)
    requires Digits(d, sizes) && i < |d| && v < sizes[i]
    ensures Digits(d[i := v], sizes)
    ensures Rank(d[i := v], sizes) == Rank(d, sizes) + (v - d[i]) * Weight(sizes, i + 1)
  {
    var e := d[i := v];
    if i == 0 {
      assert e[1..] == d[1..];
      var p := Product(sizes[1..]);
      assert v * p == d[0] * p + (v - d[0]) * p;
    } else {
      assert e[1..] == d[1..][i - 1 := v];
      RankUpdate(d[1..], sizes[1..], i - 1, v);
      assert sizes[1..][i..] == sizes[i + 1..];
    }
  }

  lemma WrapWorth(s: nat, w: nat)
    requires s > 0
    ensures (0 - (s - 1)) * w + s * w == w
  {
    var a := s - 1;
    assert (0 - a) * w == 0 - a * w && (a + 1) * w == a * w + w;
  }

  /** Going up at position i - 1. */
  lemma UpRank(d: seq<nat>, sizes: seq<nat>, i: nat)
    requires Digits(d, sizes) && 0 < i <= |d| && d[i - 1] + 1 < sizes[i - 1]
    ensures var e := d[i - 1 := d[i - 1] + 1];
      Digits(e, sizes) && Rank(e, sizes) == Rank(d, sizes) + Weight(sizes, i)
  {
    hide Rank, Weight;
    var v := d[i - 1] + 1;
    RankUpdate(d, sizes, i - 1, v);
    assert v - d[i - 1] == 1;
  }

  /** Wrapping around at position i - 1, and then adding what a step there is worth. */
  lemma WrapRank(d: seq<nat>, sizes: seq<nat>, i: nat)
    requires Digits(d, sizes) && 0 < i <= |d| && d[i - 1] + 1 == sizes[i - 1]
    ensures var e := d[i - 1 := 0];
      Digits(e, sizes) && Rank(e, sizes) + Weight(sizes, i - 1) == Rank(d, sizes) + Weight(sizes, i)
  {
    hide Rank, Weight;
    RankUpdate(d, sizes, i - 1, 0);
    WeightStep(sizes, i - 1);
    WrapWorth(sizes[i - 1], Weight(sizes, i));
  }

  /** Wrapping around from position i on and going up before it adds the worth of a step. */
  lemma {:induction false} IncrementRank(d: seq<nat>, sizes: seq<nat>, i: nat)
    requires Digits(d, sizes) && AllPositive(sizes) && i <= |d|
    ensures Digits(Increment(d, sizes, i).1, sizes)
    ensures Increment(d, sizes, i).0 ==> Rank(Increment(d, sizes, i).1, sizes) == Rank(d, sizes) + Weight(sizes, i)
    decreases i
  {
    hide Rank, Weight;
    IncrementDigits(d, sizes, i);
    if i > 0 {
      if d[i - 1] + 1 < sizes[i - 1] {
        UpRank(d, sizes, i);
      } else {
        WrapRank(d, sizes, i);
        IncrementRank(d[i - 1 := 0], sizes, i - 1);
      }
    }
  }

  /** All positions have their last value. */
  ghost predicate AllLast(d: seq<nat>, sizes: seq<nat>, i: nat)
    requires |d| == |sizes| && i <= |d|
  {
    forall j | 0 <= j < i :: d[j] + 1 == sizes[j]
  }

  lemma {:induction false} IncrementStops(d: seq<nat>, sizes: seq<nat>, i: nat)
    requires Digits(d, sizes) && AllPositive(sizes) && i <= |d|
    ensures Increment(d, sizes, i).0 <==> !AllLast(d, sizes, i)
    decreases i
  {
    if i > 0 && d[i - 1] + 1 >= sizes[i - 1] {
      IncrementStops(d[i - 1 := 0], sizes, i - 1);
    }
  }

  lemma {:induction false} LastRank(d: seq<nat>, sizes: seq<nat>)
    requires Digits(d, sizes) && AllLast(d, sizes, |d|)
    ensures Rank(d, sizes) + 1 == Product(sizes)
  {
    if d != [] {
      var p := Product(sizes[1..]);
      forall j | 0 <= j < |d[1..]| ensures d[1..][j] + 1 == sizes[1..][j] {
        assert d[1..][j] == d[j + 1];
      }
      LastRank(d[1..], sizes[1..]);
      Distribute(d[0], p);
    }
  }

  /** A step goes to the next combination, and there is none exactly after the last one. */
  lemma IncrementIsNext(d: seq<nat>, sizes: seq<nat>)
    requires Digits(d, sizes) && AllPositive(sizes)
    ensures var n := Increment(d, sizes, |d|);
      && Digits(n.1, sizes)
      && (n.0 <==> Rank(d, sizes) + 1 < Product(sizes))
      && (n.0 ==> Rank(n.1, sizes) == Rank(d, sizes) + 1)
  {
    IncrementRank(d, sizes, |d|);
    IncrementStops(d, sizes, |d|);
    assert Weight(sizes, |d|) == 1;
    if AllLast(d, sizes, |d|) {
      LastRank(d, sizes);
    } else {
      RankBound(Increment(d, sizes, |d|).1, sizes);
    }
  }

  lemma {:induction false} ZerosRank(sizes: seq<nat>)
    requires AllPositive(sizes)
    ensures Digits(Zeros(|sizes|), sizes) && Rank(Zeros(|sizes|), sizes) == 0
  {
    if sizes != [] {
      assert Zeros(|sizes|)[1..] == Zeros(|sizes[1..]|);
      ZerosRank(sizes[1..]);
    }
  }

  /** The first position at which they differ decides. */
  ghost predicate Before(d: seq<nat>, e: seq<nat>)
    requires |d| == |e|
  {
    d != [] && (d[0] < e[0] || (d[0] == e[0] && Before(d[1..], e[1..])))
  }

  /** Ranks grow in lexicographic order. */
  lemma {:induction false} RankIsOrder(d: seq<nat>, e: seq<nat>, sizes: seq<nat>)
    requires Digits(d, sizes) && Digits(e, sizes)
    ensures Rank(d, sizes) < Rank(e, sizes) <==> Before(d, e)
  {
    if d != [] {
      var p := Product(sizes[1..]);
      RankIsOrder(d[1..], e[1..], sizes[1..]);
      RankBound(d[1..], sizes[1..]);
      RankBound(e[1..], sizes[1..]);
      if d[0] < e[0] {
        Stride(d[0], e[0], p);
      } else if e[0] < d[0] {
        Stride(e[0], d[0], p);
      }
    }
  }

  lemma Stride(a: nat, b: nat, p: nat)
    requires a < b
    ensures a * p + p <= b * p
  {
    var k := b - a - 1;
    assert b * p == (a + 1 + k) * p == a * p + p + k * p;
  }
}
