/** Aggregation of judge scores and the verdict of an eval (pkg/eval/aggregator.go,
    and Observe/Finalize in pkg/eval/executor.go). A score is a number or NaN. */
module Scoring {
  import opened Floats
  import opened Options
  import opened Percentile
  import opened Text
  import opened Sequences

  /** A judge's verdict: a value, or an error. */
  datatype Score = Score(value: Float) | ScoreError

  datatype Threshold = Threshold(aggregate: string, value: string, over: string)
  datatype Eval = Eval(name: string, judged: bool, threshold: Option<Threshold>)
  datatype Status = Pass | Fail | InsufficientSamples | JudgeErrors

  datatype Result = Result(eval: string, aggregate: string, over: nat, requiredOver: nat,
                           value: Float, passed: bool, status: Status, errors: nat)

  // ----- Aggregates -----

  function Sum(s: seq<real>): real { if s == [] then 0.0 else Sum(s[..|s| - 1]) + s[|s| - 1] }

  type Percentage = p: int | 0 <= p <= 100

  datatype Kind = Average | Minimum | Maximum | Pct(p: Percentage) | Unknown

  function KindOf(kind: string): Kind {
    if kind == "avg" || kind == "mean" then Average
    else if kind == "min" then Minimum
    else if kind == "max" then Maximum
    else if kind == "p50" then Pct(50)
    else if kind == "p95" then Pct(95)
    else if kind == "p99" then Pct(99)
    else Unknown
  }

  function Plus(a: Float, b: Float): Float { if a.NaN? || b.NaN? then NaN else Num(a.value + b.value) }

  function Divide(a: Float, n: nat): Float
    requires n > 0
  {
    if a.NaN? then NaN else Num(a.value / n as real)
  }

  predicate Less(a: Float, b: Float) { a.Num? && b.Num? && a.value < b.value }

  /** The sum of the numbers, unless a sample is NaN. */
  function Total(vals: seq<Float>): Float { if NaNs(vals) > 0 then NaN else Num(Sum(Nums(vals))) }

  lemma HeadNum(vals: seq<Float>)
    requires vals != [] && vals[0].Num?
    ensures Nums(vals) != []
  {
  }

  /** A first sample that is NaN is never replaced, as nothing is less or greater than it. */
  function LeastOf(vals: seq<Float>): Float
    requires vals != []
  {
    if vals[0].NaN? then NaN
    else
      HeadNum(vals);
      Num(Least(Nums(vals)))
  }

  function GreatestOf(vals: seq<Float>): Float
    requires vals != []
  {
    if vals[0].NaN? then NaN
    else
      HeadNum(vals);
      Num(Greatest(Nums(vals)))
  }

  function Reduce(kind: Kind, vals: seq<Float>): Float {
    if vals == [] then NaN
    else
      match kind
      case Average => Divide(Total(vals), |vals|)
      case Minimum => LeastOf(vals)
      case Maximum => GreatestOf(vals)
      case Pct(p) => Evals(vals, p)
      case Unknown => NaN
  }

  function NormalKind(kind: string): string {
    var k := Lower(TrimSpace(kind));
    if k == "" then "avg" else k
  }

  /** w spells k in capitals, small letters or a mix. */
  predicate Spells(w: string, k: string) {
    |w| == |k| && forall i :: 0 <= i < |k| ==> w[i] == k[i] || ('A' <= w[i] <= 'Z' && w[i] + 32 as char == k[i])
  }

  /** A kind is the same however it is spelt and whatever white space surrounds it. */
  lemma KindIgnoresCaseAndSpace(before: string, word: string, after: string, kind: string)
    requires AllSpace(before) && AllSpace(after) && Spells(word, kind) && kind != ""
    requires forall i :: 0 <= i < |kind| ==> !IsSpace(word[i]) && !('A' <= kind[i] <= 'Z')
    ensures NormalKind(before + (word + after)) == kind
  {
    TrimLeftSpaces(before, word + after);
    assert (word + after)[0] == word[0];
    assert TrimLeft(word + after) == word + after;
    TrimRightSpaces(word, after);
    assert Lower(word) == kind;
  }

  /** White space alone asks for the mean. */
  lemma BlankKind(blank: string)
    requires AllSpace(blank)
    ensures NormalKind(blank) == "avg"
  {
    TrimLeftSpaces(blank, "");
    assert blank + "" == blank;
  }

  lemma {:induction false} SumBounds(s: seq<real>, lo: real, hi: real)
    requires forall i :: 0 <= i < |s| ==> lo <= s[i] <= hi
    ensures lo * |s| as real <= Sum(s) <= hi * |s| as real
  {
    if s == [] {
      assert |s| as real == 0.0;
    } else {
      var n := |s| - 1;
      SumBounds(s[..n], lo, hi);
      assert |s| as real == n as real + 1.0;
      assert lo * |s| as real == lo * n as real + lo;
      assert hi * |s| as real == hi * n as real + hi;
    }
  }

  lemma QuotientBounds(sum: real, n: real, lo: real, hi: real)
    requires n > 0.0 && lo * n <= sum <= hi * n
    ensures lo <= sum / n <= hi
  {
    assert (sum / n) * n == sum;
  }

  lemma AverageBetween(s: seq<real>, lo: real, hi: real)
    requires s != [] && forall i :: 0 <= i < |s| ==> lo <= s[i] <= hi
    ensures lo <= Sum(s) / |s| as real <= hi
  {
    SumBounds(s, lo, hi);
    QuotientBounds(Sum(s), |s| as real, lo, hi);
  }

  /** When a reduction is NaN. */
  lemma ReduceIsNaN(kind: Kind, vals: seq<Float>)
    ensures Reduce(kind, vals).NaN? <==>
              vals == [] ||
              match kind
              case Average => NaN in vals
              case Pct(p) => Low(p, |vals|) < multiset(vals)[NaN]
              case Unknown => true
              case _ => vals[0].NaN?
  {
    FloatCount(vals, NaN);
    assert NaN in vals <==> NaN in multiset(vals);
  }

  lemma NoNaN(vals: seq<Float>)
    requires vals != [] && NaNs(vals) == 0
    ensures Nums(vals) != [] && |Nums(vals)| == |vals|
  {
  }

  /** A reduction that is not NaN lies between the least and the greatest of the samples that
      are numbers. */
  lemma ReduceInRange(kind: Kind, vals: seq<Float>)
    requires Reduce(kind, vals).Num?
    ensures Nums(vals) != [] && Least(Nums(vals)) <= Reduce(kind, vals).value <= Greatest(Nums(vals))
  {
    match kind
    case Average =>
      NoNaN(vals);
      AverageBetween(Nums(vals), Least(Nums(vals)), Greatest(Nums(vals)));
    case Pct(p) => EvalWithin(vals, p);
    case _ => HeadNum(vals);
  }

  /** What each name reduces a nonempty sample of numbers to; any other name gives NaN. */
  lemma KindsByName(name: string, vals: seq<Float>)
    requires vals != [] && NaN !in vals
    ensures Nums(vals) != []
    ensures var r := Reduce(KindOf(name), vals);
            match name
            case "avg" => r == Num(Sum(Nums(vals)) / |vals| as real)
            case "mean" => r == Num(Sum(Nums(vals)) / |vals| as real)
            case "min" => r == Num(Least(Nums(vals)))
            case "max" => r == Num(Greatest(Nums(vals)))
            case "p50" => r == Checks(Nums(vals), 50)
            case "p95" => r == Checks(Nums(vals), 95)
            case "p99" => r == Checks(Nums(vals), 99)
            case _ => r == NaN
  {
    FloatCount(vals, NaN);
    assert NaN !in multiset(vals);
    assert vals[0] in vals;
    HeadNum(vals);
    if KindOf(name).Pct? {
      CopiesAgree(vals, KindOf(name).p);
    }
  }

  /** A mean, times the samples it is the mean of. */
  function Weight(vals: seq<Float>): real
    requires vals != [] && Reduce(Average, vals).Num?
  {
    Reduce(Average, vals).value * |vals| as real
  }

  lemma WeightIsSum(vals: seq<Float>)
    requires vals != [] && NaN !in vals
    ensures Reduce(Average, vals).Num? && Weight(vals) == Sum(Nums(vals))
  {
    FloatCount(vals, NaN);
    assert NaN !in multiset(vals);
    assert (Sum(Nums(vals)) / |vals| as real) * |vals| as real == Sum(Nums(vals));
  }

  lemma MeanOfOne(x: real)
    ensures Reduce(Average, [Num(x)]) == Num(x)
  {
    NumsOne(Num(x));
    assert [x][..0] == [] && Sum([x]) == x;
    assert Total([Num(x)]) == Num(x);
    assert x / 1.0 == x;
  }

  lemma {:induction false} SumConcat(a: seq<real>, b: seq<real>)
    ensures Sum(a + b) == Sum(a) + Sum(b)
  {
    if b == [] {
      assert a + b == a;
    } else {
      assert (a + b)[..|a + b| - 1] == a + b[..|b| - 1];
      SumConcat(a, b[..|b| - 1]);
    }
  }

  lemma NoNaNInBoth(a: seq<Float>, b: seq<Float>)
    requires NaN !in a && NaN !in b
    ensures NaN !in a + b && Sum(Nums(a + b)) == Sum(Nums(a)) + Sum(Nums(b))
  {
    NumsConcat(a, b);
    SumConcat(Nums(a), Nums(b));
  }

  /** Two means weigh as much in their common mean as they count. */
  lemma MeansWeigh(a: seq<Float>, b: seq<Float>)
    requires a != [] && b != [] && NaN !in a && NaN !in b
    ensures Reduce(Average, a).Num? && Reduce(Average, b).Num? && Reduce(Average, a + b).Num?
    ensures Weight(a + b) == Weight(a) + Weight(b)
  {
    NoNaNInBoth(a, b);
    WeightIsSum(a);
    WeightIsSum(b);
    WeightIsSum(a + b);
  }

  // ----- Whether the order of the samples matters -----

  lemma SumMiddle(a: seq<real>, x: real, b: seq<real>)
    ensures Sum(a + ([x] + b)) == Sum(a + b) + x
  {
    SumConcat(a, [x] + b);
    SumConcat([x], b);
    SumConcat(a, b);
    assert [x][..0] == [];
  }

  lemma SumRemove(s: seq<real>, i: nat)
    requires i < |s|
    ensures Sum(s) == Sum(Remove(s, i)) + s[i]
  {
    var a, b := s[..i], s[i + 1..];
    assert s[i..] == [s[i]] + b;
    assert s == a + s[i..];
    SumMiddle(a, s[i], b);
  }

  lemma {:induction false} SumPermuted(a: seq<real>, b: seq<real>)
    requires multiset(a) == multiset(b)
    ensures Sum(a) == Sum(b)
  {
    if a == [] {
      assert |multiset(b)| == 0;
    } else {
      assert a[0] in multiset(b);
      var i :| 0 <= i < |b| && b[i] == a[0];
      RemoveMultiset(a, 0);
      RemoveMultiset(b, i);
      assert multiset(Remove(a, 0)) == multiset(a) - multiset{a[0]};
      SumPermuted(Remove(a, 0), Remove(b, i));
      SumRemove(a, 0);
      SumRemove(b, i);
    }
  }

  lemma EndsPermuted(a: seq<real>, b: seq<real>)
    requires a != [] && b != [] && |a| == |b| && multiset(a) == multiset(b)
    ensures Least(a) == Least(b) && Greatest(a) == Greatest(b)
  {
    SameSort(a, b);
    SortEnds(a);
    SortEnds(b);
  }

  lemma NoNumbers(vals: seq<Float>)
    requires vals != []
    ensures vals[0].NaN? ==> NaNs(vals) > 0
    ensures vals[0].Num? ==> NaNs(vals) < |vals|
  {
    assert vals[0] in multiset(vals);
    FloatCount(vals, NaN);
    if vals[0].Num? {
      HeadNum(vals);
    }
  }

  lemma ExtremesPermuted(a: seq<Float>, b: seq<Float>)
    requires a != [] && b != [] && multiset(a) == multiset(b) && (NaNs(a) == 0 || NaNs(a) == |a|)
    ensures LeastOf(a) == LeastOf(b) && GreatestOf(a) == GreatestOf(b)
  {
    SamePermutedNums(a, b);
    NoNumbers(a);
    NoNumbers(b);
    if a[0].Num? {
      HeadNum(a);
      EndsPermuted(Nums(a), Nums(b));
    }
  }

  /** Permuting the samples changes nothing, unless a least or greatest value is asked for and
      some but not all samples are NaN. */
  lemma ReducePermuted(kind: Kind, a: seq<Float>, b: seq<Float>)
    requires multiset(a) == multiset(b)
    requires (kind.Minimum? || kind.Maximum?) ==> NaNs(a) == 0 || NaNs(a) == |a|
    ensures Reduce(kind, a) == Reduce(kind, b)
  {
    SamePermutedNums(a, b);
    if a != [] {
      match kind
      case Average => SumPermuted(Nums(a), Nums(b));
      case Pct(p) => EvalPermuted(a, b, p);
      case Unknown =>
      case _ => ExtremesPermuted(a, b);
    }
  }

  /** The same samples, the ith first. */
  function ToFront(vals: seq<Float>, i: nat): (r: seq<Float>)
    requires i < |vals|
    ensures multiset(r) == multiset(vals) && |r| == |vals| && r[0] == vals[i]
  {
    RemoveMultiset(vals, i);
    [vals[i]] + Remove(vals, i)
  }

  lemma AllNums(vals: seq<Float>)
    ensures (forall i :: 0 <= i < |vals| ==> vals[i].Num?) ==> NaNs(vals) == 0
    ensures (forall i :: 0 <= i < |vals| ==> vals[i].NaN?) ==> NaNs(vals) == |vals|
  {
    FloatCount(vals, NaN);
    if forall i :: 0 <= i < |vals| ==> vals[i].Num? {
      assert NaN !in vals;
    }
    if Nums(vals) != [] {
      FloatCount(vals, Num(Nums(vals)[0]));
      assert Nums(vals)[0] in multiset(Nums(vals));
      assert Num(Nums(vals)[0]) in vals;
    }
  }

  /** The reduction depends on the order of the samples exactly when it is min or max and some
      but not all of the samples are NaN. */
  lemma OrderMattersExactly(kind: Kind, vals: seq<Float>)
    ensures (exists other :: multiset(other) == multiset(vals) && Reduce(kind, other) != Reduce(kind, vals)) <==>
            (kind.Minimum? || kind.Maximum?) && 0 < NaNs(vals) < |vals|
  {
    if (kind.Minimum? || kind.Maximum?) && 0 < NaNs(vals) < |vals| {
      AllNums(vals);
      var i :| 0 <= i < |vals| && vals[i].NaN?;
      var j :| 0 <= j < |vals| && vals[j].Num?;
      var other := if vals[0].NaN? then ToFront(vals, j) else ToFront(vals, i);
      assert multiset(other) == multiset(vals) && Reduce(kind, other) != Reduce(kind, vals);
    } else {
      forall other | multiset(other) == multiset(vals) ensures Reduce(kind, other) == Reduce(kind, vals) {
        ReducePermuted(kind, vals, other);
      }
    }
  }

  // ----- The aggregate -----

  lemma {:induction false} LeastSnoc(a: seq<real>, x: real)
    requires a != []
    ensures Least(a + [x]) == if x < Least(a) then x else Least(a)
  {
    if |a| > 1 {
      assert (a + [x])[1..] == a[1..] + [x];
      LeastSnoc(a[1..], x);
    }
  }

  lemma {:induction false} GreatestSnoc(a: seq<real>, x: real)
    requires a != []
    ensures Greatest(a + [x]) == if x > Greatest(a) then x else Greatest(a)
  {
    if |a| > 1 {
      assert (a + [x])[1..] == a[1..] + [x];
      GreatestSnoc(a[1..], x);
    }
  }

  /** One more sample, as the loops of Value take it in. */
  lemma TotalSnoc(vals: seq<Float>, f: Float)
    ensures Total(vals + [f]) == Plus(Total(vals), f)
  {
    NumsConcat(vals, [f]);
    NumsOne(f);
    SumConcat(Nums(vals), Nums([f]));
    assert f.Num? ==> [f.value][..0] == [];
  }

  lemma NumsSnoc(vals: seq<Float>, f: Float)
    ensures Nums(vals + [f]) == if f.Num? then Nums(vals) + [f.value] else Nums(vals)
  {
    NumsConcat(vals, [f]);
    NumsOne(f);
  }

  lemma LeastOfSnoc(vals: seq<Float>, f: Float)
    requires vals != []
    ensures LeastOf(vals + [f]) == if Less(f, LeastOf(vals)) then f else LeastOf(vals)
  {
    NumsSnoc(vals, f);
    if vals[0].Num? && f.Num? {
      HeadNum(vals);
      LeastSnoc(Nums(vals), f.value);
    }
  }

  lemma GreatestOfSnoc(vals: seq<Float>, f: Float)
    requires vals != []
    ensures GreatestOf(vals + [f]) == if Less(GreatestOf(vals), f) then f else GreatestOf(vals)
  {
    NumsSnoc(vals, f);
    if vals[0].Num? && f.Num? {
      HeadNum(vals);
      GreatestSnoc(Nums(vals), f.value);
    }
  }

  class Aggregate {
    const kind: string
    var vals: seq<Float>

    constructor (kind: string)
      ensures this.kind == NormalKind(kind) && vals == []
    {
      this.kind := NormalKind(kind);
      vals := [];
    }

    method Add(s: Score)
      modifies this
      ensures vals == if s.Score? then old(vals) + [s.value] else old(vals)
    {
      if s.ScoreError? {
        return;
      }
      vals := vals + [s.value];
    }

    method Value() returns (r: Float)
      ensures r == Reduce(KindOf(kind), vals)
    {
      if |vals| == 0 {
        return NaN;
      }
      match KindOf(kind)
      case Average =>
        r := Mean();
      case Minimum =>
        r := Smallest();
      case Maximum =>
        r := Largest();
      case Pct(p) =>
        r := EvalPercentile(vals, p);
      case Unknown =>
        r := NaN;
    }

    method Mean() returns (r: Float)
      requires vals != []
      ensures r == Divide(Total(vals), |vals|)
    {
      var sum := Num(0.0);
      for i := 0 to |vals|
        invariant sum == Total(vals[..i])
      {
        assert vals[..i + 1] == vals[..i] + [vals[i]];
        TotalSnoc(vals[..i], vals[i]);
        sum := Plus(sum, vals[i]);
      }
      assert vals[..|vals|] == vals;
      return Divide(sum, |vals|);
    }

    method Smallest() returns (out: Float)
      requires vals != []
      ensures out == LeastOf(vals)
    {
      out := vals[0];
      assert vals[..1] == [vals[0]];
      NumsOne(vals[0]);
      for i := 1 to |vals|
        invariant out == LeastOf(vals[..i])
      {
        assert vals[..i + 1] == vals[..i] + [vals[i]];
        LeastOfSnoc(vals[..i], vals[i]);
        if Less(vals[i], out) {
          out := vals[i];
        }
      }
      assert vals[..|vals|] == vals;
    }

    method Largest() returns (out: Float)
      requires vals != []
      ensures out == GreatestOf(vals)
    {
      out := vals[0];
      assert vals[..1] == [vals[0]];
      NumsOne(vals[0]);
      for i := 1 to |vals|
        invariant out == GreatestOf(vals[..i])
      {
        assert vals[..i + 1] == vals[..i] + [vals[i]];
        GreatestOfSnoc(vals[..i], vals[i]);
        if Less(out, vals[i]) {
          out := vals[i];
        }
      }
      assert vals[..|vals|] == vals;
    }
  }

  // ----- Thresholds -----

  datatype Op = Ge | Le | Eq | Ne | Gt | Lt

  function Symbol(op: Op): string {
    match op
    case Ge => ">="
    case Le => "<="
    case Eq => "=="
    case Ne => "!="
    case Gt => ">"
    case Lt => "<"
  }

  /** IEEE comparison: NaN is unequal to everything and ordered with nothing. */
  predicate Compare(a: Float, op: Op, b: Float) {
    if a.NaN? || b.NaN? then op.Ne?
    else match op
      case Ge => a.value >= b.value
      case Le => a.value <= b.value
      case Eq => a.value == b.value
      case Ne => a.value != b.value
      case Gt => a.value > b.value
      case Lt => a.value < b.value
  }

  const OPS := [Ge, Le, Eq, Ne, Gt, Lt]

  /** The first operator of OPS that starts the expression. */
  function FirstOp(expr: string, i: nat): (op: Option<Op>)
    requires i <= |OPS|
    decreases |OPS| - i
  {
    if i == |OPS| then None
    else if HasPrefix(expr, Symbol(OPS[i])) then Some(OPS[i])
    else FirstOp(expr, i + 1)
  }

  /** None when the expression is malformed. `parse` reads a number. */
  function CheckThreshold(observed: Float, expr: string, parse: string -> Option<Float>): Option<bool> {
    var e := TrimSpace(expr);
    match FirstOp(e, 0)
    case None => None
    case Some(op) =>
      var n := |Symbol(op)|;
      if n > |e| then None
      else match parse(TrimSpace(e[n..]))
        case None => None
        case Some(rhs) => Some(Compare(observed, op, rhs))
  }

  lemma Untrimmed(sym: string, blank: string, num: string)
    requires sym != "" && !IsSpace(sym[0])
    requires num != "" && !IsSpace(num[0]) && !IsSpace(num[|num| - 1])
    requires forall i :: 0 <= i < |blank| ==> IsSpace(blank[i])
    ensures TrimSpace(sym + (blank + num)) == sym + (blank + num)
    ensures TrimSpace(blank + num) == num
    ensures blank + num != "" && (num[0] != '=' ==> (blank + num)[0] != '=')
  {
    var rest := blank + num;
    assert rest[|rest| - 1] == num[|num| - 1];
    assert rest[0] == if blank == "" then num[0] else blank[0];
    var e := sym + rest;
    assert e != "" && e[0] == sym[0] && e[|e| - 1] == rest[|rest| - 1];
    TrimSpaceId(e);
    assert TrimLeft(num) == num;
    TrimLeftSpaces(blank, num);
    assert TrimRight(num) == num;
  }

  lemma OpAt(e: string, i: nat)
    requires i < 6 && |e| >= 2
    ensures var sym := Symbol(OPS[i]);
            FirstOp(e, i) ==
            if e[0] == sym[0] && (|sym| == 2 ==> e[1] == sym[1]) then Some(OPS[i]) else FirstOp(e, i + 1)
  {
    var sym := Symbol(OPS[i]);
    if e[0] == sym[0] && (|sym| == 2 ==> e[1] == sym[1]) {
      assert e[..|sym|] == sym;
    } else {
      assert e[..|sym|][0] == e[0];
      assert |sym| == 2 ==> e[..|sym|][1] == e[1];
    }
  }

  lemma FirstOpIs(sym: string, rest: string, op: Op)
    requires sym == Symbol(op) && rest != "" && rest[0] != '='
    ensures FirstOp(sym + rest, 0) == Some(op)
  {
    var e := sym + rest;
    assert e[..|sym|] == sym;
    assert e[0] == sym[0];
    assert |sym| == 1 ==> e[1] == rest[0];
    assert |sym| == 2 ==> e[1] == sym[1];
    OpAt(e, 5);
    OpAt(e, 4);
    OpAt(e, 3);
    OpAt(e, 2);
    OpAt(e, 1);
    OpAt(e, 0);
    assert FirstOp(e, 6) == None;
  }

  /** The printed form of a threshold is read back as that comparison: ">= 4" is
      never taken for '>' followed by "= 4", whatever blanks surround the number. */
  lemma ThresholdReadsBack(observed: Float, op: Op, blank: string, num: string, parse: string -> Option<Float>)
    requires num != "" && !IsSpace(num[0]) && !IsSpace(num[|num| - 1]) && num[0] != '='
    requires forall i :: 0 <= i < |blank| ==> IsSpace(blank[i])
    requires parse(num).Some?
    ensures CheckThreshold(observed, Symbol(op) + (blank + num), parse) ==
            Some(Compare(observed, op, parse(num).value))
  {
    var sym, rest := Symbol(op), blank + num;
    Untrimmed(sym, blank, num);
    FirstOpIs(sym, rest, op);
    var e := sym + rest;
    assert TrimSpace(e) == e;
    assert FirstOp(e, 0) == Some(op);
    assert e[|sym|..] == rest;
    assert TrimSpace(e[|sym|..]) == num;
  }

  // ----- The verdict of an eval -----

  /** A threshold is met when absent, empty, or well formed and true of the value. */
  predicate Met(value: Float, threshold: Option<Threshold>, parse: string -> Option<Float>) {
    threshold.None? || threshold.value.value == "" ||
    CheckThreshold(value, threshold.value.value, parse) == Some(true)
  }

  function FinalizeStatus(over: nat, required: nat, errors: nat, value: Float,
                          threshold: Option<Threshold>, parse: string -> Option<Float>): (r: (bool, Status))
    ensures r.0 <==> r.1.Pass?
    ensures r.0 <==> over >= 1 && over >= required && Met(value, threshold, parse)
    ensures r.1.JudgeErrors? <==> over == 0 && errors > 0
    ensures r.1.Fail? <==> over >= 1 && over >= required && !Met(value, threshold, parse)
  {
    if over == 0 && errors > 0 then (false, JudgeErrors)
    else if over == 0 then (false, InsufficientSamples)
    else if required > 0 && over < required then (false, InsufficientSamples)
    else if threshold.None? || threshold.value.value == "" then (true, Pass)
    else
      match CheckThreshold(value, threshold.value.value, parse)
      case Some(true) => (true, Pass)
      case _ => (false, Fail)
  }

  /** A printed threshold on an aggregate. */
  function Ask(sym: string, blank: string, num: string, aggregate: string, over: string): Option<Threshold> {
    Some(Threshold(aggregate, sym + (blank + num), over))
  }

  lemma MetIs(v: real, op: Op, n: real, blank: string, num: string, parse: string -> Option<Float>,
              aggregate: string, over: string)
    requires num != "" && !IsSpace(num[0]) && !IsSpace(num[|num| - 1]) && num[0] != '='
    requires forall i :: 0 <= i < |blank| ==> IsSpace(blank[i])
    requires parse(num) == Some(Num(n))
    ensures Met(Num(v), Ask(Symbol(op), blank, num, aggregate, over), parse) == Compare(Num(v), op, Num(n))
  {
    ThresholdReadsBack(Num(v), op, blank, num, parse);
    assert Symbol(op) + (blank + num) != "";
  }

  /** What each printed threshold asks of a number. */
  lemma ThresholdMeans(sym: string, v: real, n: real, blank: string, num: string, parse: string -> Option<Float>,
                       aggregate: string, over: string)
    requires sym in [">=", "<=", "==", "!=", ">", "<"]
    requires num != "" && !IsSpace(num[0]) && !IsSpace(num[|num| - 1]) && num[0] != '='
    requires forall i :: 0 <= i < |blank| ==> IsSpace(blank[i])
    requires parse(num) == Some(Num(n))
    ensures Met(Num(v), Ask(sym, blank, num, aggregate, over), parse) <==>
            match sym
            case ">=" => v >= n
            case "<=" => v <= n
            case "==" => v == n
            case "!=" => v != n
            case ">" => v > n
            case _ => v < n
  {
    var op :=
      match sym
      case ">=" => Ge
      case "<=" => Le
      case "==" => Eq
      case "!=" => Ne
      case ">" => Gt
      case _ => Lt;
    assert Symbol(op) == sym;
    MetIs(v, op, n, blank, num, parse, aggregate, over);
  }

  /** A judge call: the eval it was made for and the verdict that came back. */
  type Call = (Eval, Score)

  /** The values accepted for an eval name, and the number of its failed calls. */
  function Accepted(calls: seq<Call>, name: string): (r: seq<Float>) {
    if calls == [] then []
    else
      var c := calls[|calls| - 1];
      Accepted(calls[..|calls| - 1], name) + (if c.0.name == name && c.1.Score? then [c.1.value] else [])
  }

  function Failed(calls: seq<Call>, name: string): nat {
    if calls == [] then 0
    else
      var c := calls[|calls| - 1];
      Failed(calls[..|calls| - 1], name) + (if c.0.name == name && c.1.ScoreError? then 1 else 0)
  }

  function Named(name: string): Call -> bool { (c: Call) => c.0.name == name }

  function CallsOf(calls: seq<Call>, name: string): nat { |Filter(calls, Named(name))| }

  /** No judge call is lost or counted twice. */
  lemma {:induction false} CallsConserved(calls: seq<Call>, name: string)
    ensures |Accepted(calls, name)| + Failed(calls, name) == CallsOf(calls, name)
  {
    if calls != [] {
      var n := |calls| - 1;
      CallsConserved(calls[..n], name);
      assert calls == calls[..n] + [calls[n]];
      FilterConcat(calls[..n], [calls[n]], Named(name));
    }
  }

  /** The accepted values after one more score. */
  function Extended(vals: seq<Float>, score: Score): seq<Float> {
    match score
    case Score(v) => vals + [v]
    case ScoreError => vals
  }

  lemma CallsSnoc(calls: seq<Call>, c: Call, name: string)
    ensures Accepted(calls + [c], name) ==
            if c.0.name == name then Extended(Accepted(calls, name), c.1) else Accepted(calls, name)
    ensures Failed(calls + [c], name) == Failed(calls, name) + (if c.0.name == name && c.1.ScoreError? then 1 else 0)
  {
    assert (calls + [c])[..|calls|] == calls;
  }

  // ----- The aggregate of an eval -----

  /** The kind an eval asks for. */
  function Declared(ev: Eval): string {
    if ev.threshold.Some? && ev.threshold.value.aggregate != "" then ev.threshold.value.aggregate else "avg"
  }

  /** The eval the first call under a name was made for. */
  function FirstCalled(calls: seq<Call>, name: string): Option<Eval> {
    if calls == [] then None
    else
      var n := |calls| - 1;
      var first := FirstCalled(calls[..n], name);
      if first.Some? then first else if calls[n].0.name == name then Some(calls[n].0) else None
  }

  lemma FirstCalledSnoc(calls: seq<Call>, c: Call, name: string)
    ensures FirstCalled(calls + [c], name) ==
            if FirstCalled(calls, name).Some? then FirstCalled(calls, name)
            else if c.0.name == name then Some(c.0) else None
  {
    assert (calls + [c])[..|calls|] == calls;
  }

  /** The kind of the aggregate kept under a name: that of the first eval called under it,
      and the default when there was no call. */
  function KindFor(calls: seq<Call>, name: string): string {
    match FirstCalled(calls, name)
    case Some(ev) => NormalKind(Declared(ev))
    case None => "avg"
  }

  lemma DefaultKind()
    ensures NormalKind("avg") == "avg"
  {
    TrimSpaceId("avg");
    assert Lower("avg") == "avg";
  }

  lemma {:induction false} FirstCalledIs(calls: seq<Call>, name: string)
    ensures FirstCalled(calls, name).Some? <==> exists c :: c in calls && c.0.name == name
    ensures FirstCalled(calls, name).Some? ==>
              FirstCalled(calls, name).value.name == name &&
              exists c :: c in calls && c.0 == FirstCalled(calls, name).value
  {
    if calls != [] {
      var n := |calls| - 1;
      FirstCalledIs(calls[..n], name);
      assert calls[n] in calls;
      assert calls == calls[..n] + [calls[n]];
    }
  }

  /** An eval whose name no other eval was called under is reduced by the kind it declares. */
  lemma OwnKind(calls: seq<Call>, ev: Eval)
    requires forall c :: c in calls && c.0.name == ev.name ==> c.0 == ev
    ensures KindFor(calls, ev.name) ==
            if exists c :: c in calls && c.0 == ev then NormalKind(Declared(ev)) else "avg"
  {
    FirstCalledIs(calls, ev.name);
  }

  /** One more call, seen by the values and the error count kept under any name. */
  lemma CallCounted(calls: seq<Call>, ev: Eval, score: Score, n: string, vals: seq<Float>, errors: nat)
    requires vals == Accepted(calls, n) && errors == Failed(calls, n)
    ensures Accepted(calls + [(ev, score)], n) == if n == ev.name then Extended(vals, score) else vals
    ensures Failed(calls + [(ev, score)], n) == errors + (if n == ev.name && score.ScoreError? then 1 else 0)
  {
    CallsSnoc(calls, (ev, score), n);
  }

  function Judged(evals: seq<Eval>): seq<Eval> {
    if evals == [] then []
    else Judged(evals[..|evals| - 1]) + (if evals[|evals| - 1].judged then [evals[|evals| - 1]] else [])
  }

  /** An eval with a judge is among those judged, and no other. */
  lemma {:induction false} JudgedExactly(evals: seq<Eval>, ev: Eval)
    ensures multiset(Judged(evals))[ev] == if ev.judged then multiset(evals)[ev] else 0
  {
    if evals != [] {
      var n := |evals| - 1;
      JudgedExactly(evals[..n], ev);
      assert evals == evals[..n] + [evals[n]];
    }
  }

  /** What Finalize says of one eval, in terms of every judge call made. */
  ghost predicate Reports(r: Result, ev: Eval, calls: seq<Call>, parse: string -> Option<Float>,
                          minimum: string -> nat)
  {
    && r.eval == ev.name
    && r.over == |Accepted(calls, ev.name)| && r.errors == Failed(calls, ev.name)
    && r.over + r.errors == CallsOf(calls, ev.name)
    && r.aggregate == KindFor(calls, ev.name)
    && r.value == Reduce(KindOf(r.aggregate), Accepted(calls, ev.name))
    && r.requiredOver == (if ev.threshold.Some? then minimum(ev.threshold.value.over) else 0)
    && (r.passed <==> r.over >= 1 && r.over >= r.requiredOver && Met(r.value, ev.threshold, parse))
    && (r.passed, r.status) == FinalizeStatus(r.over, r.requiredOver, r.errors, r.value, ev.threshold, parse)
  }

  /** A well-formed != threshold. */
  predicate IsNe(expr: string, parse: string -> Option<Float>) {
    var e := TrimSpace(expr);
    HasPrefix(e, "!=") && parse(TrimSpace(e[2..])).Some?
  }

  lemma CheckNaN(expr: string, parse: string -> Option<Float>)
    ensures CheckThreshold(NaN, expr, parse) == Some(true) <==> IsNe(expr, parse)
  {
    var e := TrimSpace(expr);
    if |e| >= 2 {
      OpAt(e, 5);
      OpAt(e, 4);
      OpAt(e, 3);
      OpAt(e, 2);
      OpAt(e, 1);
      OpAt(e, 0);
      assert HasPrefix(e, "!=") <==> e[0] == '!' && e[1] == '=';
    }
  }

  /** An eval whose value is NaN passes exactly when the sample gate is met and its threshold
      is absent, empty or a well-formed !=; without samples it never passes. */
  lemma NaNVerdict(r: Result, ev: Eval, calls: seq<Call>, parse: string -> Option<Float>, minimum: string -> nat)
    requires Reports(r, ev, calls, parse, minimum) && r.value.NaN?
    ensures r.passed <==>
              && r.over >= 1 && r.over >= r.requiredOver
              && (ev.threshold.None? || ev.threshold.value.value == "" || IsNe(ev.threshold.value.value, parse))
    ensures r.over == 0 ==> !r.passed
  {
    if ev.threshold.Some? {
      CheckNaN(ev.threshold.value.value, parse);
    }
  }

  /** With a printed threshold on a number, an eval passes exactly when there are samples enough
      and the number is as the threshold asks. */
  lemma PassMeans(r: Result, ev: Eval, calls: seq<Call>, parse: string -> Option<Float>, minimum: string -> nat,
                  sym: string, n: real, blank: string, num: string, aggregate: string, over: string)
    requires Reports(r, ev, calls, parse, minimum) && r.value.Num?
    requires ev.threshold == Ask(sym, blank, num, aggregate, over) && sym in [">=", "<=", "==", "!=", ">", "<"]
    requires num != "" && !IsSpace(num[0]) && !IsSpace(num[|num| - 1]) && num[0] != '='
    requires AllSpace(blank) && parse(num) == Some(Num(n))
    ensures r.passed <==>
            && r.over >= 1 && r.over >= minimum(over)
            && match sym
               case ">=" => r.value.value >= n
               case "<=" => r.value.value <= n
               case "==" => r.value.value == n
               case "!=" => r.value.value != n
               case ">" => r.value.value > n
               case _ => r.value.value < n
  {
    ThresholdMeans(sym, r.value.value, n, blank, num, parse, aggregate, over);
  }

  function EvalNamed(name: string): Eval -> bool { (ev: Eval) => ev.name == name }

  /** How many judged evals carry the name. */
  function Multiplicity(evals: seq<Eval>, name: string): nat { |Filter(Judged(evals), EvalNamed(name))| }

  /** Since `base` n pairs were observed: every judged eval was called n times. */
  ghost predicate Tallied(base: seq<Call>, calls: seq<Call>, evals: seq<Eval>, n: nat) {
    forall name :: CallsOf(calls, name) == CallsOf(base, name) + n * Multiplicity(evals, name)
  }

  function Verdicts(evals: seq<Eval>, verdicts: seq<Score>): seq<Call>
    requires |verdicts| == |evals|
  {
    if evals == [] then []
    else
      var n := |evals| - 1;
      Verdicts(evals[..n], verdicts[..n]) + (if evals[n].judged then [(evals[n], verdicts[n])] else [])
  }

  lemma {:induction false} VerdictsNamed(evals: seq<Eval>, verdicts: seq<Score>, name: string)
    requires |verdicts| == |evals|
    ensures |Filter(Verdicts(evals, verdicts), Named(name))| == Multiplicity(evals, name)
  {
    if evals != [] {
      var n := |evals| - 1;
      VerdictsNamed(evals[..n], verdicts[..n], name);
      if evals[n].judged {
        FilterConcat(Verdicts(evals[..n], verdicts[..n]), [(evals[n], verdicts[n])], Named(name));
        FilterConcat(Judged(evals[..n]), [evals[n]], EvalNamed(name));
      } else {
        assert Verdicts(evals, verdicts) == Verdicts(evals[..n], verdicts[..n]);
        assert Judged(evals) == Judged(evals[..n]);
      }
    }
  }

  /** Observing one more pair calls every judged eval once more. */
  lemma ObserveTallies(base: seq<Call>, calls: seq<Call>, evals: seq<Eval>, verdicts: seq<Score>, n: nat)
    requires |verdicts| == |evals| && Tallied(base, calls, evals, n)
    ensures Tallied(base, calls + Verdicts(evals, verdicts), evals, n + 1)
  {
    forall name
      ensures CallsOf(calls + Verdicts(evals, verdicts), name) ==
              CallsOf(base, name) + (n + 1) * Multiplicity(evals, name)
    {
      FilterConcat(calls, Verdicts(evals, verdicts), Named(name));
      VerdictsNamed(evals, verdicts, name);
      assert CallsOf(calls, name) == CallsOf(base, name) + n * Multiplicity(evals, name);
    }
  }

  ghost predicate Answered(evals: seq<Eval>, rounds: seq<seq<Score>>) {
    forall i :: 0 <= i < |rounds| ==> |rounds[i]| == |evals|
  }

  /** The calls that observing a pair for each round of verdicts makes. */
  function Observed(evals: seq<Eval>, rounds: seq<seq<Score>>): seq<Call>
    requires Answered(evals, rounds)
  {
    if rounds == [] then []
    else Observed(evals, rounds[..|rounds| - 1]) + Verdicts(evals, rounds[|rounds| - 1])
  }

  /** Observing n pairs calls every judged eval n times. */
  lemma {:induction false} ObservedTallies(base: seq<Call>, evals: seq<Eval>, rounds: seq<seq<Score>>)
    requires Answered(evals, rounds)
    ensures Tallied(base, base + Observed(evals, rounds), evals, |rounds|)
  {
    if rounds == [] {
      assert base + [] == base;
    } else {
      var n := |rounds| - 1;
      ObservedTallies(base, evals, rounds[..n]);
      ObserveTallies(base, base + Observed(evals, rounds[..n]), evals, rounds[n], n);
      Assoc(base, Observed(evals, rounds[..n]), Verdicts(evals, rounds[n]));
    }
  }

  // ----- Evals that share a name -----

  /** The first judged eval of a name. */
  function FirstJudged(evals: seq<Eval>, name: string): (r: Option<Eval>)
    ensures r.Some? ==> r.value in Judged(evals) && r.value.name == name
    ensures forall ev :: ev in Judged(evals) && ev.name == name ==> r.Some?
  {
    if evals == [] then None
    else
      var n := |evals| - 1;
      var first := FirstJudged(evals[..n], name);
      if first.Some? then first else if evals[n].judged && evals[n].name == name then Some(evals[n]) else None
  }

  lemma {:induction false} FirstCalledConcat(a: seq<Call>, b: seq<Call>, name: string)
    ensures FirstCalled(a + b, name) ==
            if FirstCalled(a, name).Some? then FirstCalled(a, name) else FirstCalled(b, name)
  {
    if b == [] {
      assert a + b == a;
    } else {
      var n := |b| - 1;
      FirstCalledConcat(a, b[..n], name);
      Assoc(a, b[..n], [b[n]]);
      assert b == b[..n] + [b[n]];
      FirstCalledSnoc(a + b[..n], b[n], name);
      FirstCalledSnoc(b[..n], b[n], name);
    }
  }

  lemma {:induction false} FirstVerdict(evals: seq<Eval>, verdicts: seq<Score>, name: string)
    requires |verdicts| == |evals|
    ensures FirstCalled(Verdicts(evals, verdicts), name) == FirstJudged(evals, name)
  {
    if evals != [] {
      var n := |evals| - 1;
      FirstVerdict(evals[..n], verdicts[..n], name);
      if evals[n].judged {
        FirstCalledSnoc(Verdicts(evals[..n], verdicts[..n]), (evals[n], verdicts[n]), name);
      } else {
        assert Verdicts(evals, verdicts) == Verdicts(evals[..n], verdicts[..n]);
      }
    }
  }

  /** Once a pair was observed, the first eval called under a name is the scenario's first. */
  lemma {:induction false} FirstObserved(evals: seq<Eval>, rounds: seq<seq<Score>>, name: string)
    requires Answered(evals, rounds) && rounds != []
    ensures FirstCalled(Observed(evals, rounds), name) == FirstJudged(evals, name)
  {
    var n := |rounds| - 1;
    FirstCalledConcat(Observed(evals, rounds[..n]), Verdicts(evals, rounds[n]), name);
    FirstVerdict(evals, rounds[n], name);
    if n > 0 {
      FirstObserved(evals, rounds[..n], name);
    }
  }

  /** Judged evals of one name declare the same kind. */
  ghost predicate KindsAgree(evals: seq<Eval>) {
    forall a, b :: a in Judged(evals) && b in Judged(evals) && a.name == b.name ==>
      NormalKind(Declared(a)) == NormalKind(Declared(b))
  }

  /** After any number of pairs, but at least one, every judged eval is reduced by the kind it
      declares exactly when judged evals of one name declare the same kind. */
  lemma OwnKindExactly(evals: seq<Eval>, rounds: seq<seq<Score>>)
    requires Answered(evals, rounds) && rounds != []
    ensures (forall ev :: ev in Judged(evals) ==>
               KindFor(Observed(evals, rounds), ev.name) == NormalKind(Declared(ev))) <==> KindsAgree(evals)
  {
    forall ev | ev in Judged(evals)
      ensures FirstJudged(evals, ev.name).Some?
      ensures KindFor(Observed(evals, rounds), ev.name) == NormalKind(Declared(FirstJudged(evals, ev.name).value))
    {
      FirstObserved(evals, rounds, ev.name);
    }
  }

  function AskFor(aggregate: string): Eval { Eval("e", true, Some(Threshold(aggregate, "", ""))) }

  function Answer(aggregate: string, value: real): Call { (AskFor(aggregate), Score.Score(Num(value))) }

  lemma VerdictsSnoc(evals: seq<Eval>, verdicts: seq<Score>, i: nat)
    requires i < |evals| == |verdicts|
    ensures Verdicts(evals[..i + 1], verdicts[..i + 1]) ==
            Verdicts(evals[..i], verdicts[..i]) + (if evals[i].judged then [(evals[i], verdicts[i])] else [])
  {
    assert evals[..i + 1][..i] == evals[..i] && verdicts[..i + 1][..i] == verdicts[..i];
  }

  lemma SharedCalls()
    ensures Verdicts([AskFor("max"), AskFor("min")], [Score.Score(Num(5.0)), Score.Score(Num(1.0))]) ==
            [Answer("max", 5.0)] + [Answer("min", 1.0)]
  {
    var evals, verdicts := [AskFor("max"), AskFor("min")], [Score.Score(Num(5.0)), Score.Score(Num(1.0))];
    VerdictsSnoc(evals, verdicts, 0);
    VerdictsSnoc(evals, verdicts, 1);
    assert evals[..2] == evals && verdicts[..2] == verdicts;
  }

  lemma MaximumKind()
    ensures NormalKind("max") == "max"
  {
    TrimSpaceId("max");
    assert Lower("max") == "max";
  }

  lemma SharedKind()
    ensures KindFor([Answer("max", 5.0)] + [Answer("min", 1.0)], "e") == "max"
  {
    FirstCalledSnoc([], Answer("max", 5.0), "e");
    FirstCalledSnoc([Answer("max", 5.0)], Answer("min", 1.0), "e");
    assert [] + [Answer("max", 5.0)] == [Answer("max", 5.0)];
    MaximumKind();
  }

  lemma SharedSamples()
    ensures Accepted([Answer("max", 5.0)] + [Answer("min", 1.0)], "e") == [Num(5.0)] + [Num(1.0)]
  {
    CallsSnoc([], Answer("max", 5.0), "e");
    CallsSnoc([Answer("max", 5.0)], Answer("min", 1.0), "e");
    assert [] + [Answer("max", 5.0)] == [Answer("max", 5.0)];
  }

  /** An eval that asks for the least score behind one of the same name that asks for the
      greatest: it is reported with the greatest. */
  lemma SharedNameWrongKind(parse: string -> Option<Float>, minimum: string -> nat, r: Result)
    requires var verdicts := [Score.Score(Num(5.0)), Score.Score(Num(1.0))];
             Reports(r, AskFor("min"), Verdicts([AskFor("max"), AskFor("min")], verdicts), parse, minimum)
    ensures r.aggregate == "max" && r.value == Num(5.0)
  {
    SharedCalls();
    SharedKind();
    SharedSamples();
    NumsOne(Num(5.0));
    GreatestOfSnoc([Num(5.0)], Num(1.0));
  }

  /** There is an aggregate for every name called, of the kind of its first eval. */
  ghost predicate KindsOk(agg: map<string, Aggregate>, calls: seq<Call>) {
    forall n ::
      && (n in agg <==> FirstCalled(calls, n).Some?)
      && (n in agg ==> agg[n].kind == KindFor(calls, n))
  }

  /** Every aggregate stays, and the eval has one, of its own kind if it is new. */
  ghost predicate Gained(agg: map<string, Aggregate>, agg': map<string, Aggregate>, ev: Eval) {
    && agg'.Keys == agg.Keys + {ev.name}
    && (forall n :: n in agg ==> agg'[n] == agg[n])
    && (ev.name !in agg ==> agg'[ev.name].kind == NormalKind(Declared(ev)))
  }

  lemma KindsStay(agg: map<string, Aggregate>, agg': map<string, Aggregate>, calls: seq<Call>, ev: Eval, score: Score)
    requires KindsOk(agg, calls) && Gained(agg, agg', ev)
    ensures KindsOk(agg', calls + [(ev, score)])
  {
    forall n ensures n in agg' <==> FirstCalled(calls + [(ev, score)], n).Some? {
      FirstCalledSnoc(calls, (ev, score), n);
    }
    forall n | n in agg' ensures agg'[n].kind == KindFor(calls + [(ev, score)], n) {
      FirstCalledSnoc(calls, (ev, score), n);
    }
  }

  class Executor {
    var agg: map<string, Aggregate>
    var err: map<string, nat>
    ghost var calls: seq<Call>

    ghost function Repr(): set<object>
      reads `agg
    {
      set n | n in agg :: agg[n]
    }

    ghost predicate Valid()
      reads this, Repr()
    {
      && Separate()
      && Counts(calls)
      && KindsOk(agg, calls)
    }

    /** The values and the error counts kept are those of the calls. */
    ghost predicate Counts(calls: seq<Call>)
      reads `agg, `err, Repr()
    {
      && (forall n :: Vals(n) == Accepted(calls, n))
      && (forall n :: Errors(n) == Failed(calls, n))
    }

    ghost function Vals(n: string): seq<Float>
      reads `agg, Repr()
    {
      if n in agg then agg[n].vals else []
    }

    function Errors(n: string): nat
      reads `err
    {
      if n in err then err[n] else 0
    }

    constructor ()
      ensures Valid() && calls == [] && agg == map[]
    {
      agg, err, calls := map[], map[], [];
    }

    ghost predicate Separate()
      reads `agg
    {
      forall n, m :: n in agg && m in agg && n != m ==> agg[n] != agg[m]
    }

    /** The aggregate of an eval, created with the eval's own kind on first use. */
    method AggregateFor(ev: Eval) returns (a: Aggregate)
      requires Separate()
      modifies this`agg
      ensures Separate() && ev.name in agg && agg[ev.name] == a
      ensures forall n :: n != ev.name ==> (n in agg <==> n in old(agg)) && (n in agg ==> agg[n] == old(agg[n]))
      ensures if ev.name in old(agg) then a == old(agg[ev.name])
              else fresh(a) && a.vals == [] && a.kind == NormalKind(Declared(ev))
      ensures ev.name !in old(agg) && (ev.threshold.None? || ev.threshold.value.aggregate == "") ==> a.kind == "avg"
      ensures ev.name !in old(agg) && ev.threshold.Some? && ev.threshold.value.aggregate != "" ==>
                a.kind == NormalKind(ev.threshold.value.aggregate)
    {
      if ev.name in agg {
        return agg[ev.name];
      }
      var kind := "avg";
      DefaultKind();
      if ev.threshold.Some? && ev.threshold.value.aggregate != "" {
        kind := ev.threshold.value.aggregate;
      }
      a := new Aggregate(kind);
      agg := agg[ev.name := a];
    }

    /** Adds a score to the aggregate of an eval and counts an error. */
    method Record(ev: Eval, score: Score)
      requires Separate()
      modifies this`agg, this`err, Repr()
      ensures Separate() && fresh(Repr() - old(Repr()))
      ensures forall n :: Vals(n) == if n == ev.name then Extended(old(Vals(n)), score) else old(Vals(n))
      ensures forall n :: Errors(n) == old(Errors(n)) + (if n == ev.name && score.ScoreError? then 1 else 0)
      ensures Gained(old(agg), agg, ev)
    {
      var a := AggregateFor(ev);
      a.Add(score);
      if score.ScoreError? {
        err := err[ev.name := Errors(ev.name) + 1];
      }
      forall n | n != ev.name ensures Vals(n) == old(Vals(n)) {
        assert n in agg ==> agg[n] == old(agg[n]) && agg[n] != a;
      }
    }

    method RecordCall(ev: Eval, score: Score, ghost before: seq<Call>)
      requires Separate() && Counts(before)
      modifies this`agg, this`err, Repr()
      ensures Separate() && fresh(Repr() - old(Repr()))
      ensures Counts(before + [(ev, score)]) && Gained(old(agg), agg, ev)
    {
      Record(ev, score);
      forall n ensures Vals(n) == Accepted(before + [(ev, score)], n) {
        CallCounted(before, ev, score, n, old(Vals(n)), old(Errors(n)));
      }
      forall n ensures Errors(n) == Failed(before + [(ev, score)], n) {
        CallCounted(before, ev, score, n, old(Vals(n)), old(Errors(n)));
      }
    }

    /** scoreOne after the judge has answered. */
    method ScoreOne(ev: Eval, score: Score)
      requires Valid()
      modifies this, Repr()
      ensures Valid() && fresh(Repr() - old(Repr()))
      ensures calls == old(calls) + [(ev, score)]
    {
      RecordCall(ev, score, calls);
      KindsStay(old(agg), agg, calls, ev, score);
      calls := calls + [(ev, score)];
    }

    /** Observe: every judged eval, in order, gets one verdict on the pair. */
    method Observe(evals: seq<Eval>, verdicts: seq<Score>)
      requires Valid() && |verdicts| == |evals|
      modifies this, Repr()
      ensures Valid() && fresh(Repr() - old(Repr()))
      ensures calls == old(calls) + Verdicts(evals, verdicts)
    {
      for i := 0 to |evals|
        invariant Valid() && fresh(Repr() - old(Repr()))
        invariant calls == old(calls) + Verdicts(evals[..i], verdicts[..i])
      {
        VerdictsSnoc(evals, verdicts, i);
        if !evals[i].judged {
          continue;
        }
        Assoc(old(calls), Verdicts(evals[..i], verdicts[..i]), [(evals[i], verdicts[i])]);
        ScoreOne(evals[i], verdicts[i]);
      }
      assert evals[..|evals|] == evals && verdicts[..|verdicts|] == verdicts;
    }

    method Finalize(evals: seq<Eval>, parse: string -> Option<Float>, minimum: string -> nat)
      returns (out: seq<Result>)
      requires Valid()
      ensures |out| == |Judged(evals)|
      ensures forall i :: 0 <= i < |out| ==> Reports(out[i], Judged(evals)[i], calls, parse, minimum)
    {
      out := [];
      for i := 0 to |evals|
        invariant |out| == |Judged(evals[..i])|
        invariant forall j :: 0 <= j < |out| ==> Reports(out[j], Judged(evals[..i])[j], calls, parse, minimum)
      {
        assert evals[..i + 1][..i] == evals[..i];
        if !evals[i].judged {
          continue;
        }
        var r := FinalizeOne(evals[i], parse, minimum);
        out := out + [r];
      }
      assert evals[..|evals|] == evals;
    }

    method FinalizeOne(ev: Eval, parse: string -> Option<Float>, minimum: string -> nat) returns (r: Result)
      requires Valid()
      ensures Reports(r, ev, calls, parse, minimum)
    {
      var a;
      if ev.name in agg {
        a := agg[ev.name];
      } else {
        a := new Aggregate("avg");
      }
      assert Vals(ev.name) == a.vals;
      DefaultKind();
      assert a.kind == KindFor(calls, ev.name);
      CallsConserved(calls, ev.name);
      var value := a.Value();
      var required := if ev.threshold.Some? then minimum(ev.threshold.value.over) else 0;
      var verdict := FinalizeStatus(|a.vals|, required, Errors(ev.name), value, ev.threshold, parse);
      r := Result(ev.name, a.kind, |a.vals|, required, value, verdict.0, verdict.1, Errors(ev.name));
    }
  }
}
