/** Type-7 percentiles (pkg/checks/operators.go and pkg/eval/aggregator.go) over
    real samples: linear interpolation between closest ranks. */
module Percentile {
  import opened Floats
  import opened Sequences

  ghost predicate Sorted(s: seq<real>) {
    forall i, j :: 0 <= i < j < |s| ==> s[i] <= s[j]
  }

  function Insert(x: real, s: seq<real>): (r: seq<real>)
    ensures |r| == |s| + 1
  {
    if s == [] || x <= s[0] then [x] + s else [s[0]] + Insert(x, s[1..])
  }

  /** sort.Float64s on a copy. Equal reals are indistinguishable, so the result is unique. */
  function Sort(s: seq<real>): (r: seq<real>)
    ensures |r| == |s|
  {
    if s == [] then [] else Insert(s[0], Sort(s[1..]))
  }

  lemma SortedCons(x: real, t: seq<real>)
    requires Sorted(t) && forall j :: 0 <= j < |t| ==> x <= t[j]
    ensures Sorted([x] + t) && multiset([x] + t) == multiset{x} + multiset(t)
  {
  }

  lemma {:induction false} InsertSorted(x: real, s: seq<real>)
    requires Sorted(s)
    ensures Sorted(Insert(x, s)) && multiset(Insert(x, s)) == multiset(s) + multiset{x}
  {
    if s != [] && x > s[0] {
      var t := Insert(x, s[1..]);
      InsertSorted(x, s[1..]);
      HeadMultiset(s);
      OneMoreMember(t, s[1..], x);
      SortedCons(s[0], t);
    } else {
      SortedCons(x, s);
    }
  }

  /** Sort sorts. */
  lemma {:induction false} SortSorts(s: seq<real>)
    ensures Sorted(Sort(s)) && multiset(Sort(s)) == multiset(s)
  {
    if s != [] {
      SortSorts(s[1..]);
      InsertSorted(s[0], Sort(s[1..]));
      HeadMultiset(s);
    }
  }

  /** The two ranks around the p-th percentile of n samples, and the weight of the upper one. */
  function Rank(p: int, n: nat): real { p as real / 100.0 * (n as real - 1.0) }

  function Low(p: int, n: nat): int { Rank(p, n).Floor }
  function High(p: int, n: nat): int { -((-Rank(p, n)).Floor) }

  /** The interpolation a*(1-f) + b*f. */
  function Blend(a: real, b: real, f: real): real { a * (1.0 - f) + b * f }

  /** Interpolation at a real rank of a sorted sample. */
  function At(s: seq<real>, rank: real): (v: real)
    requires 0.0 <= rank <= |s| as real - 1.0
  {
    var low := rank.Floor;
    var high := -((-rank).Floor);
    if low == high then s[low]
    else
      Blend(s[low], s[high], rank - low as real)
  }

  lemma MulMonotone(a: real, b: real, c: real)
    requires a <= b && 0.0 <= c
    ensures a * c <= b * c
  {
  }

  lemma RankInRange(p: int, n: nat)
    requires 0 <= p <= 100 && n > 0
    ensures 0.0 <= Rank(p, n) <= n as real - 1.0
  {
    var q, m := p as real / 100.0, n as real - 1.0;
    assert 0.0 * m == 0.0 && 1.0 * m == m && Rank(p, n) == q * m;
    MulMonotone(0.0, q, m);
    MulMonotone(q, 1.0, m);
  }

  lemma RankMonotone(p: int, q: int, n: nat)
    requires p <= q && n > 0
    ensures Rank(p, n) <= Rank(q, n)
  {
    MulMonotone(p as real / 100.0, q as real / 100.0, n as real - 1.0);
  }

  function Clamp(p: int): int { if p < 0 then 0 else if p > 100 then 100 else p }

  /** The value of `percentile` in pkg/checks. */
  function Checks(values: seq<real>, p: int): (r: Float) {
    if values == [] then NaN
    else
      RankInRange(Clamp(p), |values|);
      Num(At(Sort(values), Rank(Clamp(p), |values|)))
  }

  lemma SingleSample(s: seq<real>, p: int)
    requires |s| == 1 && 0 <= p <= 100
    ensures Rank(p, 1) == 0.0 && At(s, Rank(p, 1)) == s[0]
  {
    assert p as real / 100.0 * 0.0 == 0.0;
  }

  method ChecksPercentile(values: seq<real>, p: int) returns (r: Float)
    ensures r == Checks(values, p)
  {
    if |values| == 0 {
      return NaN;
    }
    var q := p;
    if q < 0 {
      q := 0;
    }
    if q > 100 {
      q := 100;
    }
    RankInRange(q, |values|);
    var sorted := Sort(values);
    if |sorted| == 1 {
      SingleSample(sorted, q);
      return Num(sorted[0]);
    }
    var rank := Rank(q, |sorted|);
    var low := rank.Floor;
    var high := -((-rank).Floor);
    if low == high {
      return Num(sorted[low]);
    }
    var frac := rank - low as real;
    return Num(Blend(sorted[low], sorted[high], frac));
  }

  // ----- Samples that may be NaN -----

  function IsNum(): Float -> bool { (f: Float) => f.Num? }
  function ValueOf(): Float -> real { (f: Float) => if f.Num? then f.value else 0.0 }

  /** The numbers among the samples, in order. */
  function Nums(values: seq<Float>): seq<real> { Map(Filter(values, IsNum()), ValueOf()) }

  lemma {:induction false} FilterShortens<T>(s: seq<T>, f: T -> bool)
    ensures |Filter(s, f)| <= |s|
  {
    if s != [] {
      FilterShortens(s[1..], f);
    }
  }

  function NaNs(values: seq<Float>): nat {
    FilterShortens(values, IsNum());
    |values| - |Nums(values)|
  }

  /** k NaNs, then the numbers of s. */
  function Blank(k: nat, s: seq<real>): (r: seq<Float>)
    ensures |r| == k + |s|
    ensures forall i :: 0 <= i < |r| ==> r[i] == if i < k then NaN else Num(s[i - k])
  {
    seq(k + |s|, i requires 0 <= i < k + |s| => if i < k then NaN else Num(s[i - k]))
  }

  /** sort.Float64s on a copy: NaN comes before every number. */
  function SortFloats(values: seq<Float>): seq<Float> { Blank(NaNs(values), Sort(Nums(values))) }

  /** The value of `percentile` in pkg/eval: NaN when the lower rank falls among the NaNs, and
      otherwise the interpolation among the numbers, at a rank lowered by the NaNs before them. */
  function Evals(values: seq<Float>, p: int): Float
    requires values != [] && 0 <= p <= 100
  {
    RankInRange(p, |values|);
    var k := NaNs(values);
    if Low(p, |values|) < k then NaN else Num(At(Sort(Nums(values)), Rank(p, |values|) - k as real))
  }

  /** Arithmetic with NaN gives NaN. */
  function BlendFloats(a: Float, b: Float, f: real): Float {
    if a.NaN? || b.NaN? then NaN else Num(Blend(a.value, b.value, f))
  }

  lemma ShiftRank(rank: real, k: nat)
    ensures (rank - k as real).Floor == rank.Floor - k
    ensures (-(rank - k as real)).Floor == (-rank).Floor + k
  {
  }

  lemma SingleFloat(values: seq<Float>, p: int)
    requires |values| == 1 && 0 <= p <= 100
    ensures Evals(values, p) == SortFloats(values)[0]
  {
    assert p as real / 100.0 * 0.0 == 0.0;
  }

  /** What interpolating among the sorted samples gives, NaN being what arithmetic makes of NaN. */
  function Picked(sorted: seq<Float>, rank: real): Float
    requires 0.0 <= rank <= |sorted| as real - 1.0
  {
    var low := rank.Floor;
    var high := -((-rank).Floor);
    if low == high then sorted[low] else BlendFloats(sorted[low], sorted[high], rank - low as real)
  }

  lemma Neighbours(rank: real)
    ensures var low, high := rank.Floor, -((-rank).Floor);
            && low as real <= rank <= high as real
            && (high == low || (high == low + 1 && 0.0 < rank - low as real < 1.0))
            && (high == low <==> rank == low as real)
  {
  }

  lemma PickedInBlank(k: nat, s: seq<real>, rank: real)
    requires 0.0 <= rank <= (k + |s|) as real - 1.0
    ensures rank.Floor < k ==> Picked(Blank(k, s), rank) == NaN
    ensures rank.Floor >= k ==> Picked(Blank(k, s), rank) == Num(At(s, rank - k as real))
  {
    Neighbours(rank);
    ShiftRank(rank, k);
  }

  /** `percentile` in pkg/eval: no clamp and no empty case; its callers pass a
      percentage and at least one sample. */
  method EvalPercentile(values: seq<Float>, p: int) returns (r: Float)
    requires values != [] && 0 <= p <= 100
    ensures r == Evals(values, p)
  {
    RankInRange(p, |values|);
    var sorted := SortFloats(values);
    if |sorted| == 1 {
      SingleFloat(values, p);
      return sorted[0];
    }
    PickedInBlank(NaNs(values), Sort(Nums(values)), Rank(p, |values|));
    var rank := Rank(p, |sorted|);
    var low := rank.Floor;
    var high := -((-rank).Floor);
    if low == high {
      return sorted[low];
    }
    var frac := rank - low as real;
    return BlendFloats(sorted[low], sorted[high], frac);
  }

  lemma NumsConcat(a: seq<Float>, b: seq<Float>)
    ensures Nums(a + b) == Nums(a) + Nums(b) && NaNs(a + b) == NaNs(a) + NaNs(b)
  {
    FilterConcat(a, b, IsNum());
    MapConcat(Filter(a, IsNum()), Filter(b, IsNum()), ValueOf());
  }

  lemma NumsOne(f: Float)
    ensures Nums([f]) == if f.Num? then [f.value] else []
  {
    assert Filter([f], IsNum()) == if f.Num? then [f] else [];
  }

  lemma FloatCountSnoc(front: seq<Float>, x: Float, f: Float)
    requires multiset(front)[f] == if f.Num? then multiset(Nums(front))[f.value] else NaNs(front)
    ensures multiset(front + [x])[f] ==
            if f.Num? then multiset(Nums(front + [x]))[f.value] else NaNs(front + [x])
  {
    NumsConcat(front, [x]);
    NumsOne(x);
  }

  /** How often a sample occurs is how often its number does, or the number of NaNs. */
  lemma {:induction false} FloatCount(values: seq<Float>, f: Float)
    ensures multiset(values)[f] == if f.Num? then multiset(Nums(values))[f.value] else NaNs(values)
  {
    if values != [] {
      var n := |values| - 1;
      FloatCount(values[..n], f);
      FloatCountSnoc(values[..n], values[n], f);
      assert values == values[..n] + [values[n]];
    }
  }

  /** On samples without NaN the two copies agree. */
  lemma CopiesAgree(values: seq<Float>, p: int)
    requires values != [] && 0 <= p <= 100 && NaN !in values
    ensures Evals(values, p) == Checks(Nums(values), p)
  {
    FloatCount(values, NaN);
    assert NaN !in multiset(values);
    RankInRange(p, |values|);
  }

  /** NaN before every number, and numbers in order. */
  predicate FloatLe(a: Float, b: Float) { a.NaN? || (b.Num? && a.value <= b.value) }

  lemma {:induction false} NumsBlank(k: nat, s: seq<real>)
    ensures Nums(Blank(k, s)) == s
  {
    if s != [] {
      var n := |s| - 1;
      assert Blank(k, s) == Blank(k, s[..n]) + [Num(s[n])];
      NumsBlank(k, s[..n]);
      NumsConcat(Blank(k, s[..n]), [Num(s[n])]);
      NumsOne(Num(s[n]));
    } else if k > 0 {
      assert Blank(k, s) == Blank(k - 1, s) + [NaN];
      NumsBlank(k - 1, s);
      NumsConcat(Blank(k - 1, s), [NaN]);
      NumsOne(NaN);
    }
  }

  /** SortFloats sorts. */
  lemma SortFloatsSorts(values: seq<Float>)
    ensures SortedBy(SortFloats(values), FloatLe) && multiset(SortFloats(values)) == multiset(values)
  {
    SortSorts(Nums(values));
    NumsBlank(NaNs(values), Sort(Nums(values)));
    forall f ensures multiset(SortFloats(values))[f] == multiset(values)[f] {
      FloatCount(values, f);
      FloatCount(SortFloats(values), f);
    }
  }

  lemma SamePermutedNums(a: seq<Float>, b: seq<Float>)
    requires multiset(a) == multiset(b)
    ensures multiset(Nums(a)) == multiset(Nums(b)) && NaNs(a) == NaNs(b) && |a| == |b|
  {
    assert |multiset(a)| == |a| && |multiset(b)| == |b|;
    FilterSubMultiset(a, b, IsNum());
    FilterSubMultiset(b, a, IsNum());
    MapSubMultiset(Filter(a, IsNum()), Filter(b, IsNum()), ValueOf());
    MapSubMultiset(Filter(b, IsNum()), Filter(a, IsNum()), ValueOf());
  }

  lemma SameSort(a: seq<real>, b: seq<real>)
    requires multiset(a) == multiset(b)
    ensures Sort(a) == Sort(b)
  {
    SortSorts(a);
    SortSorts(b);
    SortedUnique(Sort(a), Sort(b), (x: real, y: real) => x <= y);
  }

  /** A percentile does not depend on the order of the samples. */
  lemma EvalPermuted(a: seq<Float>, b: seq<Float>, p: int)
    requires a != [] && multiset(a) == multiset(b) && 0 <= p <= 100
    ensures b != [] && Evals(a, p) == Evals(b, p)
  {
    SamePermutedNums(a, b);
    SameSort(Nums(a), Nums(b));
  }

  // ----- Interpolation -----

  lemma BlendBetween(a: real, b: real, f: real)
    requires a <= b && 0.0 <= f <= 1.0
    ensures a <= Blend(a, b, f) <= b
  {
    MulMonotone(0.0, f, b - a);
    MulMonotone(f, 1.0, b - a);
  }

  lemma BlendMonotone(a: real, b: real, f: real, g: real)
    requires a <= b && f <= g
    ensures Blend(a, b, f) <= Blend(a, b, g)
  {
    MulMonotone(f, g, b - a);
  }

  lemma BlendDominance(a: real, b: real, c: real, d: real, f: real)
    requires a <= c && b <= d && 0.0 <= f <= 1.0
    ensures Blend(a, b, f) <= Blend(c, d, f)
  {
    MulMonotone(0.0, c - a, 1.0 - f);
    MulMonotone(0.0, d - b, f);
    assert (c - a) * (1.0 - f) >= 0.0 && (d - b) * f >= 0.0;
  }

  /** Interpolation stays between the two neighbouring order statistics. */
  lemma AtBetween(s: seq<real>, rank: real)
    requires Sorted(s) && 0.0 <= rank <= |s| as real - 1.0
    ensures s[rank.Floor] <= At(s, rank) <= s[-((-rank).Floor)]
  {
    Neighbours(rank);
    var low, high := rank.Floor, -((-rank).Floor);
    if low != high {
      BlendBetween(s[low], s[high], rank - low as real);
    }
  }

  /** Interpolation is monotone in the rank. */
  lemma AtMonotone(s: seq<real>, a: real, b: real)
    requires Sorted(s) && 0.0 <= a <= b <= |s| as real - 1.0
    ensures At(s, a) <= At(s, b)
  {
    Neighbours(a);
    Neighbours(b);
    AtBetween(s, a);
    AtBetween(s, b);
    var low, high := a.Floor, -((-a).Floor);
    if b.Floor == low && low != high {
      BlendMonotone(s[low], s[high], a - low as real, b - low as real);
    } else if b.Floor != low {
      assert high <= b.Floor;
      assert s[high] <= s[b.Floor];
    }
  }

  /** Raising the p-th percentile's p never lowers the value. */
  lemma MonotoneInP(values: seq<real>, p: int, q: int)
    requires values != [] && p <= q
    ensures Checks(values, p).value <= Checks(values, q).value
  {
    SortSorts(values);
    var n := |values|;
    RankInRange(Clamp(p), n);
    RankInRange(Clamp(q), n);
    RankMonotone(Clamp(p), Clamp(q), n);
    AtMonotone(Sort(values), Rank(Clamp(p), n), Rank(Clamp(q), n));
  }

  // ----- Dominance -----

  ghost predicate Dominated(a: seq<real>, b: seq<real>) {
    |a| == |b| && forall i :: 0 <= i < |a| ==> a[i] <= b[i]
  }

  /** Inserting into a nonempty sorted sequence puts the smaller of x and the head
      first and inserts the larger into the tail. */
  lemma InsertHead(x: real, s: seq<real>)
    requires Sorted(s) && s != []
    ensures Insert(x, s) == if x <= s[0] then [x] + Insert(s[0], s[1..]) else [s[0]] + Insert(x, s[1..])
  {
    assert s == [s[0]] + s[1..];
  }

  lemma DominatedCons(x: real, s: seq<real>, y: real, t: seq<real>)
    requires x <= y && Dominated(s, t)
    ensures Dominated([x] + s, [y] + t)
  {
  }

  lemma {:induction false} InsertDominated(x: real, s: seq<real>, y: real, t: seq<real>)
    requires Sorted(s) && Sorted(t) && x <= y && Dominated(s, t)
    ensures Dominated(Insert(x, s), Insert(y, t))
    decreases |s|
  {
    if s != [] {
      var x', y' := if x <= s[0] then s[0] else x, if y <= t[0] then t[0] else y;
      var low, low' := if x <= s[0] then x else s[0], if y <= t[0] then y else t[0];
      InsertHead(x, s);
      InsertHead(y, t);
      InsertDominated(x', s[1..], y', t[1..]);
      DominatedCons(low, Insert(x', s[1..]), low', Insert(y', t[1..]));
    }
  }

  /** Every order statistic is monotone in the samples. */
  lemma {:induction false} SortDominated(a: seq<real>, b: seq<real>)
    requires Dominated(a, b)
    ensures Dominated(Sort(a), Sort(b))
  {
    if a != [] {
      SortDominated(a[1..], b[1..]);
      SortSorts(a[1..]);
      SortSorts(b[1..]);
      InsertDominated(a[0], Sort(a[1..]), b[0], Sort(b[1..]));
    }
  }

  /** Raising any samples never lowers the percentile. */
  lemma MonotoneInValues(a: seq<real>, b: seq<real>, p: int)
    requires a != [] && Dominated(a, b)
    ensures Checks(a, p).value <= Checks(b, p).value
  {
    var n := |a|;
    RankInRange(Clamp(p), n);
    var rank := Rank(Clamp(p), n);
    SortDominated(a, b);
    Neighbours(rank);
    var low, high := rank.Floor, -((-rank).Floor);
    if low != high {
      BlendDominance(Sort(a)[low], Sort(a)[high], Sort(b)[low], Sort(b)[high], rank - low as real);
    }
  }

  // ----- What a percentile is -----

  function AtMost(v: real): real -> bool { (x: real) => x <= v }
  function NotBelow(v: real): real -> bool { (x: real) => x >= v }

  lemma {:induction false} CountPrefix(s: seq<real>, k: nat, v: real)
    requires k <= |s| && forall i :: 0 <= i < k ==> s[i] <= v
    ensures |Filter(s, AtMost(v))| >= k
  {
    if k > 0 {
      CountPrefix(s[1..], k - 1, v);
    }
  }

  lemma {:induction false} CountSuffix(s: seq<real>, k: nat, v: real)
    requires k <= |s| && forall i :: k <= i < |s| ==> s[i] >= v
    ensures |Filter(s, NotBelow(v))| >= |s| - k
  {
    if s != [] {
      CountSuffix(s[1..], if k == 0 then 0 else k - 1, v);
    }
  }

  lemma SplitsSorted(s: seq<real>, rank: real)
    requires Sorted(s) && 0.0 <= rank <= |s| as real - 1.0
    ensures |Filter(s, AtMost(At(s, rank)))| >= rank.Floor + 1
    ensures |Filter(s, NotBelow(At(s, rank)))| >= |s| + (-rank).Floor
  {
    Neighbours(rank);
    AtBetween(s, rank);
    CountPrefix(s, rank.Floor + 1, At(s, rank));
    CountSuffix(s, -((-rank).Floor), At(s, rank));
  }

  /** The defining property: more than floor(rank) samples are at most the
      percentile and at least n - ceil(rank) samples are not below it. */
  lemma SplitsTheSample(values: seq<real>, p: int)
    requires values != []
    ensures var v, n, q := Checks(values, p).value, |values|, Clamp(p);
            && |Filter(values, AtMost(v))| >= Low(q, n) + 1
            && |Filter(values, NotBelow(v))| >= n - High(q, n)
  {
    var n, q := |values|, Clamp(p);
    RankInRange(q, n);
    SortSorts(values);
    SplitsSorted(Sort(values), Rank(q, n));
    FilterSubMultiset(Sort(values), values, AtMost(Checks(values, p).value));
    FilterSubMultiset(Sort(values), values, NotBelow(Checks(values, p).value));
  }

  function Least(s: seq<real>): (m: real)
    requires s != []
    ensures m in s && forall i :: 0 <= i < |s| ==> m <= s[i]
  {
    if |s| == 1 then s[0]
    else
      var m := Least(s[1..]);
      assert forall i :: 0 < i < |s| ==> s[i] == s[1..][i - 1];
      if s[0] < m then s[0] else m
  }

  function Greatest(s: seq<real>): (m: real)
    requires s != []
    ensures m in s && forall i :: 0 <= i < |s| ==> s[i] <= m
  {
    if |s| == 1 then s[0]
    else
      var m := Greatest(s[1..]);
      assert forall i :: 0 < i < |s| ==> s[i] == s[1..][i - 1];
      if s[0] > m then s[0] else m
  }

  lemma SameMembers(s: seq<real>, t: seq<real>, x: real)
    requires multiset(s) == multiset(t) && x in s
    ensures x in t
  {
    assert x in multiset(s);
  }

  lemma FirstIsLeast(s: seq<real>, values: seq<real>)
    requires Sorted(s) && multiset(s) == multiset(values) && s != [] && values != []
    ensures s[0] == Least(values)
  {
    SameMembers(values, s, Least(values));
    SameMembers(s, values, s[0]);
    var i :| 0 <= i < |s| && s[i] == Least(values);
    var j :| 0 <= j < |values| && values[j] == s[0];
  }

  lemma LastIsGreatest(s: seq<real>, values: seq<real>)
    requires Sorted(s) && multiset(s) == multiset(values) && s != [] && values != []
    ensures s[|s| - 1] == Greatest(values)
  {
    SameMembers(values, s, Greatest(values));
    SameMembers(s, values, s[|s| - 1]);
    var i :| 0 <= i < |s| && s[i] == Greatest(values);
    var j :| 0 <= j < |values| && values[j] == s[|s| - 1];
  }

  lemma SortEnds(values: seq<real>)
    requires values != []
    ensures Sort(values)[0] == Least(values) && Sort(values)[|values| - 1] == Greatest(values)
  {
    SortSorts(values);
    FirstIsLeast(Sort(values), values);
    LastIsGreatest(Sort(values), values);
  }

  lemma AtInside(s: seq<real>, rank: real, low: real, high: real)
    requires Sorted(s) && 0.0 <= rank <= |s| as real - 1.0
    requires forall i :: 0 <= i < |s| ==> low <= s[i] <= high
    ensures low <= At(s, rank) <= high
  {
    Neighbours(rank);
    AtBetween(s, rank);
  }

  lemma SortWithin(values: seq<real>)
    requires values != []
    ensures Sorted(Sort(values))
    ensures forall i :: 0 <= i < |values| ==> Least(values) <= Sort(values)[i] <= Greatest(values)
  {
    SortSorts(values);
    SortEnds(values);
  }

  /** Interpolation in a sorted copy lies between the least and the greatest value. */
  lemma AtWithin(values: seq<real>, rank: real)
    requires values != [] && 0.0 <= rank <= |values| as real - 1.0
    ensures Least(values) <= At(Sort(values), rank) <= Greatest(values)
  {
    SortWithin(values);
    AtInside(Sort(values), rank, Least(values), Greatest(values));
  }

  lemma RankAmongNums(values: seq<Float>, p: int)
    requires values != [] && 0 <= p <= 100 && Evals(values, p).Num?
    ensures 0.0 <= Rank(p, |values|) - NaNs(values) as real <= |Nums(values)| as real - 1.0
  {
    RankInRange(p, |values|);
  }

  /** A percentile that is not NaN lies between the least and the greatest number. */
  lemma EvalWithin(values: seq<Float>, p: int)
    requires values != [] && 0 <= p <= 100 && Evals(values, p).Num?
    ensures Nums(values) != []
    ensures Least(Nums(values)) <= Evals(values, p).value <= Greatest(Nums(values))
  {
    RankAmongNums(values, p);
    AtWithin(Nums(values), Rank(p, |values|) - NaNs(values) as real);
  }

  lemma RankEnds(n: nat)
    requires n > 0
    ensures Rank(0, n) == 0.0 && Rank(100, n) == n as real - 1.0
  {
    assert 0 as real / 100.0 == 0.0 && 100 as real / 100.0 == 1.0;
  }

  lemma AtEnds(s: seq<real>)
    requires s != []
    ensures At(s, 0.0) == s[0] && At(s, |s| as real - 1.0) == s[|s| - 1]
  {
    Neighbours(0.0);
    Neighbours(|s| as real - 1.0);
  }

  /** Between the least and the greatest sample, and equal to them at 0 and 100. */
  lemma WithinRange(values: seq<real>, p: int)
    requires values != []
    ensures Least(values) <= Checks(values, p).value <= Greatest(values)
    ensures p <= 0 ==> Checks(values, p).value == Least(values)
    ensures p >= 100 ==> Checks(values, p).value == Greatest(values)
  {
    var n, q := |values|, Clamp(p);
    RankInRange(q, n);
    AtWithin(values, Rank(q, n));
    SortEnds(values);
    RankEnds(n);
    AtEnds(Sort(values));
  }

  // ----- Evenly spaced samples -----

  /** n samples from `low` on, each `step` above the one before. */
  function Even(low: real, step: real, n: nat): (r: seq<real>)
    ensures |r| == n && forall i :: 0 <= i < n ==> r[i] == low + i as real * step
  {
    seq(n, i requires 0 <= i < n => low + i as real * step)
  }

  lemma EvenSorted(low: real, step: real, n: nat)
    requires step >= 0.0
    ensures Sorted(Even(low, step, n))
  {
    forall i, j | 0 <= i < j < n ensures Even(low, step, n)[i] <= Even(low, step, n)[j] {
      MulMonotone(i as real, j as real, step);
    }
  }

  lemma BlendEven(low: real, step: real, a: real, f: real)
    ensures Blend(low + a * step, low + (a + 1.0) * step, f) == low + (a + f) * step
  {
    assert (low + a * step) * (1.0 - f) + (low + a * step) * f == low + a * step;
    assert (low + (a + 1.0) * step) * f == (low + a * step) * f + step * f;
  }

  lemma AtEven(low: real, step: real, n: nat, rank: real)
    requires 0.0 <= rank <= n as real - 1.0
    ensures At(Even(low, step, n), rank) == low + rank * step
  {
    Neighbours(rank);
    var a := rank.Floor;
    if rank != a as real {
      BlendEven(low, step, a as real, rank - a as real);
    }
  }

  lemma EvenSort(values: seq<real>, low: real, step: real)
    requires step >= 0.0 && multiset(values) == multiset(Even(low, step, |values|))
    ensures Sort(values) == Even(low, step, |values|)
  {
    EvenSorted(low, step, |values|);
    SortSorts(values);
    SortedUnique(Sort(values), Even(low, step, |values|), (x: real, y: real) => x <= y);
  }

  /** The p-th part of the way from the first to the last of n evenly spaced samples. */
  function PartOfTheWay(low: real, step: real, n: nat, p: int): real {
    low + p as real / 100.0 * (n as real - 1.0) * step
  }

  lemma PartIs(low: real, step: real, n: nat, p: int)
    ensures low + Rank(p, n) * step == PartOfTheWay(low, step, n, p)
  {
  }

  lemma AtEvenRank(low: real, step: real, n: nat, p: int)
    requires 0.0 <= Rank(p, n) <= n as real - 1.0
    ensures At(Even(low, step, n), Rank(p, n)) == PartOfTheWay(low, step, n, p)
  {
    AtEven(low, step, n, Rank(p, n));
    PartIs(low, step, n, p);
  }

  lemma ChecksSorted(values: seq<real>, p: int, s: seq<real>)
    requires values != [] && 0 <= p <= 100 && Sort(values) == s
    requires 0.0 <= Rank(p, |values|) <= |s| as real - 1.0
    ensures Checks(values, p) == Num(At(s, Rank(p, |values|)))
  {
  }

  /** The p-th percentile of evenly spaced samples, in any order, is the p-th part of the way from
      the first to the last. */
  lemma EvenPercentile(values: seq<real>, low: real, step: real, p: int)
    requires values != [] && step >= 0.0 && multiset(values) == multiset(Even(low, step, |values|))
    requires 0 <= p <= 100
    ensures Checks(values, p) == Num(PartOfTheWay(low, step, |values|, p))
  {
    RankInRange(p, |values|);
    EvenSort(values, low, step);
    ChecksSorted(values, p, Even(low, step, |values|));
    AtEvenRank(low, step, |values|, p);
  }
}
