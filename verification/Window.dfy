/** Time-windowed views of a store (pkg/events/window.go). A view is the list of
    the lower bounds wrapped around a base store, innermost first; 0, the zero
    time, disables a bound. The base store is given by its streams. */
module Window {
  import opened Events
  import opened Sequences
  import MemStore

  type Bounds = seq<int>
  type Streams = map<string, seq<Event>>

  function Outer(b: Bounds): int requires b != [] { b[|b| - 1] }
  function Inner(b: Bounds): Bounds requires b != [] { b[..|b| - 1] }

  function Base(c: Streams, stream: string): seq<Event> { if stream in c then c[stream] else [] }

  function QueryRange(b: Bounds, c: Streams, stream: string, from: int, to: int): seq<Event>
    decreases |b|
  {
    if b == [] then Filter(Base(c, stream), MemStore.Within(from, to))
    else
      var since := Outer(b);
      var from' := if since != 0 && (from == 0 || from < since) then since else from;
      QueryRange(Inner(b), c, stream, from', to)
  }

  function Since(b: Bounds, c: Streams, stream: string, from: int): seq<Event>
    decreases |b|
  {
    if b == [] then Filter(Base(c, stream), MemStore.Within(from, 0))
    else
      var since := Outer(b);
      var from' := if from < since then since else from;
      Since(Inner(b), c, stream, from')
  }

  function Query(b: Bounds, c: Streams, stream: string): seq<Event> {
    if b == [] then Base(c, stream) else Since(Inner(b), c, stream, Outer(b))
  }

  /** An event passes every bound that is not disabled, and the caller's own. */
  predicate Passes(b: Bounds, e: Event, from: int, to: int) {
    && MemStore.InRange(e, from, to)
    && forall i :: 0 <= i < |b| ==> b[i] == 0 || e.ts >= b[i]
  }

  function Passing(b: Bounds, from: int, to: int): Event -> bool { (e: Event) => Passes(b, e, from, to) }

  lemma {:induction false} FilterSame<T>(s: seq<T>, f: T -> bool, g: T -> bool)
    requires forall x :: x in s ==> f(x) == g(x)
    ensures Filter(s, f) == Filter(s, g)
  {
    if s != [] {
      assert s[0] in s;
      FilterSame(s[1..], f, g);
    }
  }

  lemma OuterBound(b: Bounds, e: Event, from: int, from': int, to: int)
    requires b != [] && from' == if Outer(b) != 0 && (from == 0 || from < Outer(b)) then Outer(b) else from
    ensures Passes(Inner(b), e, from', to) == Passes(b, e, from, to)
  {
    var n := |b| - 1;
    assert forall i :: 0 <= i < n ==> Inner(b)[i] == b[i];
    if Passes(Inner(b), e, from', to) {
      forall i | 0 <= i < |b| ensures b[i] == 0 || e.ts >= b[i] {
        if i < n {
          assert Inner(b)[i] == b[i];
        }
      }
    }
    if Passes(b, e, from, to) {
      assert b[n] == 0 || e.ts >= b[n];
    }
  }

  /** A range query through any nest of views is the base stream filtered by the
      range and by every bound, for all bounds. */
  lemma {:induction false} QueryRangeExact(b: Bounds, c: Streams, stream: string, from: int, to: int)
    ensures QueryRange(b, c, stream, from, to) == Filter(Base(c, stream), Passing(b, from, to))
    decreases |b|
  {
    if b == [] {
      FilterSame(Base(c, stream), MemStore.Within(from, to), Passing(b, from, to));
    } else {
      var since := Outer(b);
      var from' := if since != 0 && (from == 0 || from < since) then since else from;
      QueryRangeExact(Inner(b), c, stream, from', to);
      forall e: Event ensures Passes(Inner(b), e, from', to) == Passes(b, e, from, to) {
        OuterBound(b, e, from, from', to);
      }
      FilterSame(Base(c, stream), Passing(Inner(b), from', to), Passing(b, from, to));
    }
  }

  /** The later of the caller's bound and every bound of the view. */
  function Latest(b: Bounds, from: int): (m: int)
    ensures from <= m && (forall i :: 0 <= i < |b| ==> b[i] <= m) && (m == from || m in b)
    decreases |b|
  {
    if b == [] then from
    else
      var m := Latest(Inner(b), if from < Outer(b) then Outer(b) else from);
      assert forall i :: 0 <= i < |b| - 1 ==> Inner(b)[i] == b[i];
      m
  }

  /** `Since` through a nest of views is `Since` on the base with the latest bound. */
  lemma {:induction false} SinceLatest(b: Bounds, c: Streams, stream: string, from: int)
    ensures Since(b, c, stream, from) == Filter(Base(c, stream), MemStore.Within(Latest(b, from), 0))
    decreases |b|
  {
    if b != [] {
      SinceLatest(Inner(b), c, stream, if from < Outer(b) then Outer(b) else from);
    }
  }

  lemma LatestDecides(b: Bounds, from: int, e: Event)
    requires !(Latest(b, from) == 0 && (from < 0 || exists i :: 0 <= i < |b| && b[i] < 0))
    ensures MemStore.InRange(e, Latest(b, from), 0) == Passes(b, e, from, 0)
  {
    var m := Latest(b, from);
    if m in b {
      var i :| 0 <= i < |b| && b[i] == m;
    }
    if m == 0 {
      assert forall i :: 0 <= i < |b| ==> b[i] == 0;
    }
  }

  /** `Since` honours every bound on every stream exactly when it does not happen
      that the latest bound is the zero time while another one lies before it. */
  lemma SinceExactly(b: Bounds, from: int)
    ensures (forall c, stream :: Since(b, c, stream, from) == Filter(Base(c, stream), Passing(b, from, 0))) <==>
            !(Latest(b, from) == 0 && (from < 0 || exists i :: 0 <= i < |b| && b[i] < 0))
  {
    var m := Latest(b, from);
    if m == 0 && (from < 0 || exists i :: 0 <= i < |b| && b[i] < 0) {
      var low := if from < 0 then from else var i :| 0 <= i < |b| && b[i] < 0; b[i];
      var e := Event("s", "", low - 1, map[], "", Produced);
      var c: Streams := map["s" := [e]];
      SinceLatest(b, c, "s", from);
      assert !Passes(b, e, from, 0);
      assert Filter(Base(c, "s"), MemStore.Within(m, 0)) == [e];
      assert Filter(Base(c, "s"), Passing(b, from, 0)) == [];
    } else {
      forall c: Streams, stream ensures Since(b, c, stream, from) == Filter(Base(c, stream), Passing(b, from, 0)) {
        SinceLatest(b, c, stream, from);
        forall e: Event ensures MemStore.InRange(e, m, 0) == Passes(b, e, from, 0) {
          LatestDecides(b, from, e);
        }
        FilterSame(Base(c, stream), MemStore.Within(m, 0), Passing(b, from, 0));
      }
    }
  }

  /** Nested views whose bounds are the zero time or later compose to the latest
      bound: the view equals a single window over the base. */
  lemma NestedViewsCompose(b: Bounds, c: Streams, stream: string)
    requires b != [] && forall i :: 0 <= i < |b| ==> b[i] >= 0
    ensures Query(b, c, stream) == Query([Latest(b, 0)], c, stream)
    ensures Query(b, c, stream) == Filter(Base(c, stream), Passing(b, 0, 0))
  {
    var single := [Latest(b, 0)];
    SinceLatest(Inner(b), c, stream, Outer(b));
    assert Latest(b, 0) == Latest(Inner(b), Outer(b)) by {
      assert Outer(b) >= 0;
    }
    assert Inner(single) == [] && Outer(single) == Latest(b, 0);
    SinceExactly(b, 0);
    SinceLatest(b, c, stream, 0);
  }

  // ----- All and AllSorted -----

  /** The events of the base, stream by stream in the order the map is walked. */
  function Flatten(c: Streams, order: seq<string>): seq<Event> {
    if order == [] then [] else Base(c, order[0]) + Flatten(c, order[1..])
  }

  function FlattenSince(b: Bounds, c: Streams, order: seq<string>, from: int): seq<Event> {
    if order == [] then [] else Since(b, c, order[0], from) + FlattenSince(b, c, order[1..], from)
  }

  function All(b: Bounds, c: Streams, order: seq<string>): seq<Event>
    decreases |b|
  {
    if b == [] then Flatten(c, order)
    else if Outer(b) == 0 then All(Inner(b), c, order)
    else FlattenSince(Inner(b), c, order, Outer(b))
  }

  lemma {:induction false} FlattenFiltered(b: Bounds, c: Streams, order: seq<string>, from: int)
    ensures FlattenSince(b, c, order, from) == Filter(Flatten(c, order), MemStore.Within(Latest(b, from), 0))
  {
    if order != [] {
      SinceLatest(b, c, order[0], from);
      FlattenFiltered(b, c, order[1..], from);
      FilterConcat(Base(c, order[0]), Flatten(c, order[1..]), MemStore.Within(Latest(b, from), 0));
    }
  }

  lemma {:induction false} KeepsAll(s: seq<Event>)
    ensures Filter(s, MemStore.Within(0, 0)) == s
  {
    if s != [] {
      KeepsAll(s[1..]);
      assert s == [s[0]] + s[1..];
    }
  }

  /** All through a nest of views keeps exactly the base events past every bound. */
  lemma {:induction false} AllFiltered(b: Bounds, c: Streams, order: seq<string>)
    requires forall i :: 0 <= i < |b| ==> b[i] >= 0
    ensures All(b, c, order) == Filter(Flatten(c, order), MemStore.Within(Latest(b, 0), 0))
    decreases |b|
  {
    if b == [] {
      KeepsAll(Flatten(c, order));
    } else if Outer(b) == 0 {
      AllFiltered(Inner(b), c, order);
    } else {
      FlattenFiltered(Inner(b), c, order, Outer(b));
    }
  }

  function AtTs(t: int): Event -> bool { (e: Event) => e.ts == t }

  /** Events of one time are in the same order in both. */
  ghost predicate SameTies(a: seq<Event>, b: seq<Event>) { forall t :: Filter(a, AtTs(t)) == Filter(b, AtTs(t)) }

  /** Swapping neighbours of different times keeps the order of the events of each time. */
  lemma SwapKeepsTies(a: seq<Event>, b: seq<Event>, j: nat)
    requires 0 < j < |a| && b == a[j - 1 := a[j]][j := a[j - 1]] && a[j].ts != a[j - 1].ts
    ensures SameTies(b, a)
  {
    var front, x, y, back := a[..j - 1], a[j - 1], a[j], a[j + 1..];
    assert a == front + ([x, y] + back) && b == front + ([y, x] + back);
    forall t ensures Filter(b, AtTs(t)) == Filter(a, AtTs(t)) {
      FilterConcat(front, [x, y] + back, AtTs(t));
      FilterConcat([x, y], back, AtTs(t));
      FilterConcat(front, [y, x] + back, AtTs(t));
      FilterConcat([y, x], back, AtTs(t));
      assert [x, y][1..] == [y] && [y, x][1..] == [x] && [x][1..] == [] && [y][1..] == [];
    }
  }

  lemma SwapMultiset(a: seq<Event>, b: seq<Event>, j: nat)
    requires 0 < j < |a| && b == a[j - 1 := a[j]][j := a[j - 1]]
    ensures multiset(b) == multiset(a)
  {
    assert a == a[..j - 1] + [a[j - 1], a[j]] + a[j + 1..];
    assert b == a[..j - 1] + [a[j], a[j - 1]] + a[j + 1..];
  }

  /** The same events, those of one time in the same order. */
  ghost predicate Rearranged(a: seq<Event>, b: seq<Event>) { multiset(a) == multiset(b) && SameTies(a, b) }

  lemma SwapRearranges(was: seq<Event>, a: seq<Event>, b: seq<Event>, j: nat)
    requires Rearranged(a, was) && 0 < j < |a| && b == a[j - 1 := a[j]][j := a[j - 1]] && a[j].ts != a[j - 1].ts
    ensures Rearranged(b, was)
  {
    SwapMultiset(a, b, j);
    SwapKeepsTies(a, b, j);
  }

  /** Sorted up to i, but for the element at j and those before it. */
  ghost predicate SortedBut(a: seq<Event>, i: nat, j: nat)
    requires i < |a|
  {
    forall p, q :: 0 <= p < q <= i && q != j ==> a[p].ts <= a[q].ts
  }

  lemma SinkStep(a: seq<Event>, b: seq<Event>, i: nat, j: nat)
    requires 0 < j <= i < |a| && SortedBut(a, i, j) && a[j].ts < a[j - 1].ts
    requires b == a[j - 1 := a[j]][j := a[j - 1]]
    ensures SortedBut(b, i, j - 1)
  {
  }

  /** The element at j is on its way down among the first i + 1. */
  ghost predicate Sinking(was: seq<Event>, a: seq<Event>, i: nat, j: nat)
    requires i < |a|
  {
    Rearranged(a, was) && SortedBut(a, i, j)
  }

  lemma SinkOnce(was: seq<Event>, a: seq<Event>, b: seq<Event>, i: nat, j: nat)
    requires 0 < j <= i < |a| && Sinking(was, a, i, j) && a[j].ts < a[j - 1].ts
    requires b == a[j - 1 := a[j]][j := a[j - 1]]
    ensures Sinking(was, b, i, j - 1)
  {
    SwapRearranges(was, a, b, j);
    SinkStep(a, b, i, j);
  }

  lemma Sunk(a: seq<Event>, i: nat, j: nat)
    requires j <= i < |a| && SortedBut(a, i, j) && (j > 0 ==> a[j].ts >= a[j - 1].ts)
    ensures SortedByTs(a[..i + 1])
  {
  }

  /** One inner loop: sink the element at i to its place among the sorted ones before it. */
  method Sink(a: array<Event>, i: nat)
    requires i < a.Length && SortedByTs(a[..i])
    modifies a
    ensures SortedByTs(a[..i + 1]) && Rearranged(a[..], old(a[..]))
  {
    var j := i;
    while j > 0 && a[j].ts < a[j - 1].ts
      invariant 0 <= j <= i
      invariant Sinking(old(a[..]), a[..], i, j)
    {
      ghost var before := a[..];
      a[j], a[j - 1] := a[j - 1], a[j];
      SinkOnce(old(a[..]), before, a[..], i, j);
      j := j - 1;
    }
    Sunk(a[..], i, j);
  }

  /** The insertion sort of windowed.AllSorted, in place on the slice All returned: it keeps the
      order of events of one time. */
  method SortInPlace(a: array<Event>)
    modifies a
    ensures SortedByTs(a[..]) && Rearranged(a[..], old(a[..]))
  {
    if a.Length <= 1 {
      return;
    }
    for i := 1 to a.Length
      invariant SortedByTs(a[..i]) && Rearranged(a[..], old(a[..]))
    {
      Sink(a, i);
    }
    assert a[..a.Length] == a[..];
  }
}
