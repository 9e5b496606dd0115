/** The `latency(from, to)` check operator (pkg/checks/operators.go): greedy
    per-key pairing of source events with destination events.

    A matching is a sequence of (source, destination) pairs. It uses every event
    at most once when its sources (destinations), counted with multiplicity, are
    included in the source (destination) stream. */
module Latency {
  import opened Events
  import opened Sequences

  type Match = (Event, Event)

  function HasKey(k: string): Event -> bool { (e: Event) => e.key == k }
  function MatchHasKey(k: string): Match -> bool { (m: Match) => m.0.key == k }
  function TsOf(): Event -> int { (e: Event) => e.ts }
  function Source(): Match -> Event { (m: Match) => m.0 }
  function Destination(): Match -> Event { (m: Match) => m.1 }
  function Duration(): Match -> int { (m: Match) => m.1.ts - m.0.ts }
  function Below(t: int): int -> bool { (x: int) => x < t }
  function AtLeast(t: int): int -> bool { (x: int) => x >= t }

  function OfKey(s: seq<Event>, k: string): seq<Event> { Filter(s, HasKey(k)) }
  function Tss(s: seq<Event>): seq<int> { Map(s, TsOf()) }
  function KeyTss(s: seq<Event>, k: string): seq<int> { Tss(OfKey(s, k)) }
  function MatchesOfKey(m: seq<Match>, k: string): seq<Match> { Filter(m, MatchHasKey(k)) }
  function Durations(m: seq<Match>): seq<int> { Map(m, Duration()) }

  /** Key-equal, never back in time, every event used at most once. */
  ghost predicate ValidMatching(m: seq<Match>, src: seq<Event>, dst: seq<Event>) {
    && (forall p :: p in m ==> p.0.key == p.1.key && p.0.ts <= p.1.ts)
    && multiset(Map(m, Source())) <= multiset(src)
    && multiset(Map(m, Destination())) <= multiset(dst)
  }

  /** Within a key, earlier sources are served first and get the earlier destination. */
  ghost predicate FifoPerKey(m: seq<Match>) {
    forall i, j :: 0 <= i < j < |m| && m[i].0.key == m[j].0.key ==>
      m[i].0.ts <= m[j].0.ts && m[i].1.ts <= m[j].1.ts
  }

  lemma InsertionKeepsOrder(s: seq<Event>, i: nat, e: Event)
    requires SortedByTs(s) && i <= |s|
    requires forall j :: 0 <= j < i ==> s[j].ts <= e.ts
    requires i < |s| ==> e.ts <= s[i].ts
    ensures SortedByTs(s[..i] + [e] + s[i..])
    ensures multiset(s[..i] + [e] + s[i..]) == multiset(s) + multiset{e}
  {
    assert s == s[..i] + s[i..];
  }

  method InsertByTs(s: seq<Event>, e: Event) returns (r: seq<Event>)
    requires SortedByTs(s)
    ensures SortedByTs(r) && multiset(r) == multiset(s) + multiset{e}
  {
    var i := 0;
    while i < |s| && s[i].ts < e.ts
      invariant 0 <= i <= |s|
      invariant forall j :: 0 <= j < i ==> s[j].ts <= e.ts
    {
      i := i + 1;
    }
    InsertionKeepsOrder(s, i, e);
    r := s[..i] + [e] + s[i..];
  }

  /** A sort that leaves the order of equal timestamps open, as sort.Slice does. */
  method SortByTs(evs: seq<Event>) returns (out: seq<Event>)
    ensures SortedByTs(out) && multiset(out) == multiset(evs)
  {
    out := [];
    for n := 0 to |evs|
      invariant SortedByTs(out) && multiset(out) == multiset(evs[..n])
    {
      assert evs[..n + 1] == evs[..n] + [evs[n]];
      out := InsertByTs(out, evs[n]);
    }
    assert evs[..|evs|] == evs;
  }

  /** The index of the first timestamp not before t, or the length. */
  function FirstAtLeast(d: seq<int>, t: int): (i: nat)
    ensures i <= |d| && (i < |d| ==> d[i] >= t)
    ensures forall j :: 0 <= j < i ==> d[j] < t
  {
    if d == [] || d[0] >= t then 0 else 1 + FirstAtLeast(d[1..], t)
  }

  /** Durations of the greedy pairing of one key, over sorted timestamps. */
  function Greedy(s: seq<int>, d: seq<int>): (r: seq<int>) {
    if s == [] then []
    else
      var i := FirstAtLeast(d, s[0]);
      if i == |d| then Greedy(s[1..], d)
      else [d[i] - s[0]] + Greedy(s[1..], Remove(d, i))
  }

  /** s holds the numbers of t in order. */
  ghost predicate SortOf(s: seq<int>, t: seq<int>) { SortedInts(s) && multiset(s) == multiset(t) }

  /** The durations of key k are those of the greedy pairing of the sorted timestamps of the key. */
  ghost predicate GreedyForKey(m: seq<Match>, src: seq<Event>, dst: seq<Event>, k: string) {
    exists s, d :: SortOf(s, KeyTss(src, k)) && SortOf(d, KeyTss(dst, k)) &&
                   Durations(MatchesOfKey(m, k)) == Greedy(s, d)
  }

  /** What a run of the operator returns: a valid matching, FIFO per key, and greedy in every key. */
  ghost predicate GreedyOutcome(m: seq<Match>, src: seq<Event>, dst: seq<Event>) {
    ValidMatching(m, src, dst) && FifoPerKey(m) && forall k :: GreedyForKey(m, src, dst, k)
  }

  // ----- Maximum cardinality -----

  lemma RemoveSorted(d: seq<int>, i: nat)
    requires i < |d| && SortedInts(d)
    ensures SortedInts(Remove(d, i))
  {
  }

  lemma {:induction false} FilterAll(s: seq<int>, f: int -> bool)
    requires forall i :: 0 <= i < |s| ==> f(s[i])
    ensures Filter(s, f) == s
  {
    if s != [] {
      FilterAll(s[1..], f);
      assert s == [s[0]] + s[1..];
    }
  }

  lemma {:induction false} FilterNone(s: seq<int>, f: int -> bool)
    requires forall i :: 0 <= i < |s| ==> !f(s[i])
    ensures Filter(s, f) == []
  {
    if s != [] {
      FilterNone(s[1..], f);
    }
  }

  lemma CountRemove(d: seq<int>, i: nat, t: int)
    requires i < |d|
    ensures |Filter(d, AtLeast(t))| == |Filter(Remove(d, i), AtLeast(t))| + (if d[i] >= t then 1 else 0)
  {
    var a, b := d[..i], d[i + 1..];
    assert d == a + ([d[i]] + b);
    FilterConcat(a, [d[i]] + b, AtLeast(t));
    FilterConcat([d[i]], b, AtLeast(t));
    FilterConcat(a, b, AtLeast(t));
  }

  /** Sources at or after t can only be served by destinations at or after t. */
  lemma {:induction false} GreedyBound(s: seq<int>, d: seq<int>, t: int)
    requires forall i :: 0 <= i < |s| ==> t <= s[i]
    ensures |Greedy(s, d)| <= |Filter(d, AtLeast(t))|
  {
    if s != [] {
      var i := FirstAtLeast(d, s[0]);
      if i == |d| {
        GreedyBound(s[1..], d, t);
      } else {
        GreedyBound(s[1..], Remove(d, i), t);
        CountRemove(d, i, t);
      }
    }
  }

  lemma CertificateFromStart(s: seq<int>, d: seq<int>, i: nat, u: int)
    requires SortedInts(s) && SortedInts(d) && s != []
    requires i == FirstAtLeast(d, s[0]) < |d| && s[0] < u <= d[i]
    requires |Greedy(s[1..], Remove(d, i))| == |Filter(s[1..], Below(u))| + |Filter(Remove(d, i), AtLeast(u))|
    ensures |Greedy(s, d)| == |Filter(s, Below(s[0]))| + |Filter(d, AtLeast(s[0]))|
  {
    var a, b := d[..i], d[i + 1..];
    FilterConcat(a, b, AtLeast(u));
    FilterConcat(a, b, AtLeast(s[0]));
    FilterNone(a, AtLeast(s[0]));
    FilterNone(a, AtLeast(u));
    FilterAll(b, AtLeast(s[0]));
    FilterAll(b, AtLeast(u));
    GreedyBound(s[1..], Remove(d, i), s[0]);
    CountRemove(d, i, s[0]);
    FilterNone(s, Below(s[0]));
  }

  /** The greedy pairing has a certificate: a time t such that its size is the
      number of sources before t plus the number of destinations not before t. */
  lemma {:induction false} GreedyCertificate(s: seq<int>, d: seq<int>) returns (t: int)
    requires SortedInts(s) && SortedInts(d)
    ensures |Greedy(s, d)| == |Filter(s, Below(t))| + |Filter(d, AtLeast(t))|
  {
    if s == [] {
      t := if d == [] then 0 else d[|d| - 1] + 1;
      FilterNone(d, AtLeast(t));
    } else {
      var i := FirstAtLeast(d, s[0]);
      if i == |d| {
        t := s[0];
        GreedyBound(s, d, t);
        FilterNone(d, AtLeast(t));
        FilterNone(s, Below(t));
      } else {
        RemoveSorted(d, i);
        var u := GreedyCertificate(s[1..], Remove(d, i));
        if s[0] < u && u <= d[i] {
          t := s[0];
          CertificateFromStart(s, d, i, u);
        } else {
          t := u;
          CountRemove(d, i, t);
        }
      }
    }
  }

  function SourceTs(): Match -> int { (m: Match) => m.0.ts }
  function DestinationTs(): Match -> int { (m: Match) => m.1.ts }

  /** Every pair has its source before t or its destination not before t. */
  lemma {:induction false} Cover(m: seq<Match>, t: int)
    requires forall p :: p in m ==> p.0.ts <= p.1.ts
    ensures |m| <= |Filter(Map(m, SourceTs()), Below(t))| + |Filter(Map(m, DestinationTs()), AtLeast(t))|
  {
    if m != [] {
      assert m[0] in m;
      Cover(m[1..], t);
    }
  }

  /** Restricting a valid matching to a key restricts both its sides. */
  lemma {:induction false} KeySides(m: seq<Match>, k: string)
    requires forall p :: p in m ==> p.0.key == p.1.key
    ensures OfKey(Map(m, Source()), k) == Map(MatchesOfKey(m, k), Source())
    ensures OfKey(Map(m, Destination()), k) == Map(MatchesOfKey(m, k), Destination())
  {
    if m != [] {
      assert m[0] in m;
      KeySides(m[1..], k);
    }
  }

  /** No valid matching serves more sources of key k than the greedy pairing. */
  lemma KeyMaximum(m: seq<Match>, src: seq<Event>, dst: seq<Event>, k: string, s: seq<int>, d: seq<int>)
    requires ValidMatching(m, src, dst)
    requires SortOf(s, KeyTss(src, k)) && SortOf(d, KeyTss(dst, k))
    ensures |MatchesOfKey(m, k)| <= |Greedy(s, d)|
  {
    var mk := MatchesOfKey(m, k);
    FilterMembers(m, MatchHasKey(k));
    KeySides(m, k);
    FilterSubMultiset(Map(m, Source()), src, HasKey(k));
    FilterSubMultiset(Map(m, Destination()), dst, HasKey(k));
    MapSubMultiset(Map(mk, Source()), OfKey(src, k), TsOf());
    MapSubMultiset(Map(mk, Destination()), OfKey(dst, k), TsOf());
    assert Map(Map(mk, Source()), TsOf()) == Map(mk, SourceTs());
    assert Map(Map(mk, Destination()), TsOf()) == Map(mk, DestinationTs());
    var t := GreedyCertificate(s, d);
    Cover(mk, t);
    FilterSubMultiset(Map(mk, SourceTs()), s, Below(t));
    FilterSubMultiset(Map(mk, DestinationTs()), d, AtLeast(t));
  }

  function KeyOfMatch(): Match -> string { (m: Match) => m.0.key }

  lemma {:induction false} KeyMultiplicity(m: seq<Match>, k: string)
    ensures multiset(Map(m, KeyOfMatch()))[k] == |MatchesOfKey(m, k)|
  {
    if m != [] {
      HeadMultiset(Map(m, KeyOfMatch()));
      assert Map(m, KeyOfMatch())[1..] == Map(m[1..], KeyOfMatch());
      KeyMultiplicity(m[1..], k);
    }
  }

  /** The greedy outcome has maximum cardinality among all valid matchings. */
  lemma GreedyIsMaximum(m: seq<Match>, other: seq<Match>, src: seq<Event>, dst: seq<Event>)
    requires GreedyOutcome(m, src, dst)
    requires ValidMatching(other, src, dst)
    ensures |other| <= |m|
  {
    var mine, theirs := Map(m, KeyOfMatch()), Map(other, KeyOfMatch());
    forall k: string ensures multiset(theirs)[k] <= multiset(mine)[k] {
      assert GreedyForKey(m, src, dst, k);
      var s, d :| SortOf(s, KeyTss(src, k)) && SortOf(d, KeyTss(dst, k)) &&
                  Durations(MatchesOfKey(m, k)) == Greedy(s, d);
      KeyMaximum(other, src, dst, k, s, d);
      KeyMultiplicity(m, k);
      KeyMultiplicity(other, k);
    }
    assert multiset(theirs) <= multiset(mine);
    SubMultisetSize(theirs, mine);
  }

  // ----- Independence of order and of sort ties -----

  lemma SameKeyTss(a: seq<Event>, b: seq<Event>, k: string)
    requires multiset(a) == multiset(b)
    ensures multiset(KeyTss(a, k)) == multiset(KeyTss(b, k))
  {
    FilterSubMultiset(a, b, HasKey(k));
    FilterSubMultiset(b, a, HasKey(k));
    MapSubMultiset(OfKey(a, k), OfKey(b, k), TsOf());
    MapSubMultiset(OfKey(b, k), OfKey(a, k), TsOf());
  }

  function Tagged(): Match -> (string, int) { (m: Match) => (m.0.key, m.1.ts - m.0.ts) }
  function Untag(): ((string, int)) -> int { (p: (string, int)) => p.1 }

  lemma {:induction false} TaggedMultiplicity(m: seq<Match>, k: string, x: int)
    ensures multiset(Map(m, Tagged()))[(k, x)] == multiset(Durations(MatchesOfKey(m, k)))[x]
  {
    if m != [] {
      TaggedMultiplicity(m[1..], k, x);
      var head, tail := m[0], m[1..];
      assert Map(m, Tagged()) == [Tagged()(head)] + Map(tail, Tagged());
      if head.0.key == k {
        assert MatchesOfKey(m, k) == [head] + MatchesOfKey(tail, k);
        assert Durations(MatchesOfKey(m, k)) == [Duration()(head)] + Durations(MatchesOfKey(tail, k));
      } else {
        assert MatchesOfKey(m, k) == MatchesOfKey(tail, k);
      }
    }
  }

  lemma SameDurationsByKey(m1: seq<Match>, m2: seq<Match>)
    requires forall k :: Durations(MatchesOfKey(m1, k)) == Durations(MatchesOfKey(m2, k))
    ensures multiset(Durations(m1)) == multiset(Durations(m2))
  {
    var t1, t2 := Map(m1, Tagged()), Map(m2, Tagged());
    forall p: (string, int) ensures multiset(t1)[p] == multiset(t2)[p] {
      TaggedMultiplicity(m1, p.0, p.1);
      TaggedMultiplicity(m2, p.0, p.1);
    }
    assert multiset(t1) == multiset(t2);
    MapSubMultiset(t1, t2, Untag());
    MapSubMultiset(t2, t1, Untag());
    assert Map(t1, Untag()) == Durations(m1);
    assert Map(t2, Untag()) == Durations(m2);
  }

  lemma SameKeyDurations(m1: seq<Match>, src1: seq<Event>, dst1: seq<Event>,
                         m2: seq<Match>, src2: seq<Event>, dst2: seq<Event>, k: string)
    requires multiset(src1) == multiset(src2) && multiset(dst1) == multiset(dst2)
    requires GreedyForKey(m1, src1, dst1, k) && GreedyForKey(m2, src2, dst2, k)
    ensures Durations(MatchesOfKey(m1, k)) == Durations(MatchesOfKey(m2, k))
  {
    SameKeyTss(src1, src2, k);
    SameKeyTss(dst1, dst2, k);
    var s1, d1 :| SortOf(s1, KeyTss(src1, k)) && SortOf(d1, KeyTss(dst1, k)) &&
                  Durations(MatchesOfKey(m1, k)) == Greedy(s1, d1);
    var s2, d2 :| SortOf(s2, KeyTss(src2, k)) && SortOf(d2, KeyTss(dst2, k)) &&
                  Durations(MatchesOfKey(m2, k)) == Greedy(s2, d2);
    SortedUnique(s1, s2, (x: int, y: int) => x <= y);
    SortedUnique(d1, d2, (x: int, y: int) => x <= y);
  }

  /** The multiset of durations does not depend on the order of either stream,
      nor on how the unstable sorts order equal timestamps. */
  lemma DurationsIndependentOfOrder(m1: seq<Match>, src1: seq<Event>, dst1: seq<Event>,
                                    m2: seq<Match>, src2: seq<Event>, dst2: seq<Event>)
    requires multiset(src1) == multiset(src2) && multiset(dst1) == multiset(dst2)
    requires GreedyOutcome(m1, src1, dst1) && GreedyOutcome(m2, src2, dst2)
    ensures multiset(Durations(m1)) == multiset(Durations(m2))
  {
    forall k ensures Durations(MatchesOfKey(m1, k)) == Durations(MatchesOfKey(m2, k)) {
      SameKeyDurations(m1, src1, dst1, m2, src2, dst2, k);
    }
    SameDurationsByKey(m1, m2);
  }

  // ----- The operator -----

  lemma OfKeySnoc(s: seq<Event>, e: Event, k: string)
    ensures OfKey(s + [e], k) == if e.key == k then OfKey(s, k) + [e] else OfKey(s, k)
  {
    FilterConcat(s, [e], HasKey(k));
  }

  function Of(byKey: map<string, seq<Event>>, k: string): seq<Event> {
    if k in byKey then byKey[k] else []
  }

  /** The buckets after the first loop: destinations grouped by key, in stream order. */
  method Bucket(dst: seq<Event>) returns (byKey: map<string, seq<Event>>)
    ensures forall k :: Of(byKey, k) == OfKey(dst, k)
  {
    byKey := map[];
    for n := 0 to |dst|
      invariant forall k :: Of(byKey, k) == OfKey(dst[..n], k)
    {
      var e := dst[n];
      assert dst[..n + 1] == dst[..n] + [e];
      ghost var before := byKey;
      byKey := byKey[e.key := Of(byKey, e.key) + [e]];
      forall k ensures Of(byKey, k) == OfKey(dst[..n + 1], k) {
        OfKeySnoc(dst[..n], e, k);
        assert Of(before, k) == OfKey(dst[..n], k);
      }
    }
    assert dst[..|dst|] == dst;
  }

  method SortBuckets(byKey: map<string, seq<Event>>) returns (sorted: map<string, seq<Event>>)
    ensures forall k :: SortedByTs(Of(sorted, k)) && multiset(Of(sorted, k)) == multiset(Of(byKey, k))
  {
    sorted := byKey;
    var todo := byKey.Keys;
    while todo != {}
      invariant todo <= byKey.Keys && sorted.Keys == byKey.Keys
      invariant forall k :: k in byKey ==> multiset(sorted[k]) == multiset(byKey[k])
      invariant forall k :: k in byKey && k !in todo ==> SortedByTs(sorted[k])
    {
      var k :| k in todo;
      var evs := SortByTs(sorted[k]);
      sorted := sorted[k := evs];
      todo := todo - {k};
    }
  }

  /** The pairs made so far for key k, followed by the greedy pairing of what is
      left, make up the greedy pairing of the whole key. */
  ghost predicate KeyProgress(k: string, m: seq<Match>, rest: seq<Event>, bucket: seq<Event>,
                              sorted: seq<Event>, bucket0: seq<Event>)
  {
    Durations(MatchesOfKey(m, k)) + Greedy(KeyTss(rest, k), Tss(bucket)) ==
    Greedy(KeyTss(sorted, k), Tss(bucket0))
  }

  /** Every destination is in its bucket or already paired, never both. */
  ghost predicate KeyStock(k: string, m: seq<Match>, bucket: seq<Event>, bucket0: seq<Event>) {
    && SortedByTs(bucket)
    && (forall e :: e in bucket ==> e.key == k)
    && multiset(OfKey(Map(m, Destination()), k)) + multiset(bucket) == multiset(bucket0)
  }

  /** What remains in a bucket is too early for the sources to come, or no earlier
      than every destination already paired from it. */
  ghost predicate KeyFifo(m: seq<Match>, bucket: seq<Event>, k: string) {
    forall i, j :: 0 <= i < |m| && 0 <= j < |bucket| && m[i].0.key == k ==>
      bucket[j].ts < m[i].0.ts || m[i].1.ts <= bucket[j].ts
  }

  lemma FirstAtLeastIs(d: seq<int>, t: int, i: nat)
    requires i <= |d| && (forall j :: 0 <= j < i ==> d[j] < t) && (i < |d| ==> d[i] >= t)
    ensures FirstAtLeast(d, t) == i
  {
  }

  lemma KeyTssStep(rest: seq<Event>, k: string)
    requires rest != []
    ensures KeyTss(rest, k) ==
            if rest[0].key == k then [rest[0].ts] + KeyTss(rest[1..], k) else KeyTss(rest[1..], k)
  {
  }

  lemma DurationsStep(m: seq<Match>, p: Match, k: string)
    ensures Durations(MatchesOfKey(m + [p], k)) ==
            Durations(MatchesOfKey(m, k)) + (if p.0.key == k then [p.1.ts - p.0.ts] else [])
  {
    FilterConcat(m, [p], MatchHasKey(k));
    MapConcat(MatchesOfKey(m, k), MatchesOfKey([p], k), Duration());
  }

  lemma DestinationsStep(m: seq<Match>, p: Match, k: string)
    ensures OfKey(Map(m + [p], Destination()), k) ==
            OfKey(Map(m, Destination()), k) + (if p.1.key == k then [p.1] else [])
  {
    MapConcat(m, [p], Destination());
    FilterConcat(Map(m, Destination()), [p.1], HasKey(k));
    assert Map([p], Destination()) == [p.1];
  }

  lemma ProgressMiss(k: string, m: seq<Match>, rest: seq<Event>, bucket: seq<Event>,
                     sorted: seq<Event>, bucket0: seq<Event>)
    requires KeyProgress(k, m, rest, bucket, sorted, bucket0) && rest != []
    requires rest[0].key == k ==> forall j :: 0 <= j < |bucket| ==> bucket[j].ts < rest[0].ts
    ensures KeyProgress(k, m, rest[1..], bucket, sorted, bucket0)
  {
    KeyTssStep(rest, k);
    if rest[0].key == k {
      FirstAtLeastIs(Tss(bucket), rest[0].ts, |bucket|);
      assert KeyTss(rest, k)[1..] == KeyTss(rest[1..], k);
    }
  }

  lemma Regroup(a: seq<int>, x: int, b: seq<int>)
    ensures a + ([x] + b) == (a + [x]) + b
  {
  }

  lemma GreedyUnfold(s: seq<int>, d: seq<int>, i: nat)
    requires s != [] && i < |d| && d[i] >= s[0]
    requires forall j :: 0 <= j < i ==> d[j] < s[0]
    ensures Greedy(s, d) == [d[i] - s[0]] + Greedy(s[1..], Remove(d, i))
  {
    FirstAtLeastIs(d, s[0], i);
  }

  lemma GreedyTakes(k: string, rest: seq<Event>, bucket: seq<Event>, i: nat)
    requires rest != [] && rest[0].key == k && i < |bucket| && bucket[i].ts >= rest[0].ts
    requires forall j :: 0 <= j < i ==> bucket[j].ts < rest[0].ts
    ensures Greedy(KeyTss(rest, k), Tss(bucket)) ==
            [bucket[i].ts - rest[0].ts] + Greedy(KeyTss(rest[1..], k), Tss(Remove(bucket, i)))
  {
    KeyTssStep(rest, k);
    GreedyUnfold(KeyTss(rest, k), Tss(bucket), i);
    assert KeyTss(rest, k)[1..] == KeyTss(rest[1..], k);
    MapOfRemove(bucket, i, TsOf());
  }

  lemma ProgressHit(k: string, m: seq<Match>, rest: seq<Event>, bucket: seq<Event>, i: nat,
                    sorted: seq<Event>, bucket0: seq<Event>)
    requires KeyProgress(k, m, rest, bucket, sorted, bucket0)
    requires rest != [] && rest[0].key == k && i < |bucket| && bucket[i].ts >= rest[0].ts
    requires forall j :: 0 <= j < i ==> bucket[j].ts < rest[0].ts
    ensures KeyProgress(k, m + [(rest[0], bucket[i])], rest[1..], Remove(bucket, i), sorted, bucket0)
  {
    var p := (rest[0], bucket[i]);
    GreedyTakes(k, rest, bucket, i);
    DurationsStep(m, p, k);
    Regroup(Durations(MatchesOfKey(m, k)), p.1.ts - p.0.ts, Greedy(KeyTss(rest[1..], k), Tss(Remove(bucket, i))));
  }

  lemma StockHit(k: string, m: seq<Match>, p: Match, bucket: seq<Event>, i: nat, bucket0: seq<Event>)
    requires KeyStock(k, m, bucket, bucket0)
    requires i < |bucket| && p.1 == bucket[i]
    ensures KeyStock(k, m + [p], Remove(bucket, i), bucket0)
  {
    assert bucket[i] in bucket;
    DestinationsStep(m, p, k);
    RemoveMultiset(bucket, i);
    var used := OfKey(Map(m, Destination()), k);
    assert multiset(used + [p.1]) == multiset(used) + multiset{p.1};
  }

  lemma ProgressOther(k: string, m: seq<Match>, p: Match, rest: seq<Event>, bucket: seq<Event>,
                      sorted: seq<Event>, bucket0: seq<Event>)
    requires KeyProgress(k, m, rest, bucket, sorted, bucket0)
    requires rest != [] && rest[0].key != k && p.0 == rest[0]
    ensures KeyProgress(k, m + [p], rest[1..], bucket, sorted, bucket0)
  {
    KeyTssStep(rest, k);
    DurationsStep(m, p, k);
    assert Durations(MatchesOfKey(m, k)) + [] == Durations(MatchesOfKey(m, k));
  }

  lemma StockOther(k: string, m: seq<Match>, p: Match, bucket: seq<Event>, bucket0: seq<Event>)
    requires KeyStock(k, m, bucket, bucket0) && p.1.key != k
    ensures KeyStock(k, m + [p], bucket, bucket0)
  {
    DestinationsStep(m, p, k);
    assert OfKey(Map(m, Destination()), k) + [] == OfKey(Map(m, Destination()), k);
  }

  /** Stock over all keys gives the inclusion of the paired destinations. */
  lemma StockGivesInclusion(m: seq<Match>, dst: seq<Event>, byKey: map<string, seq<Event>>,
                            byKey0: map<string, seq<Event>>)
    requires forall k :: KeyStock(k, m, Of(byKey, k), Of(byKey0, k))
    requires forall k :: multiset(Of(byKey0, k)) == multiset(OfKey(dst, k))
    ensures multiset(Map(m, Destination())) <= multiset(dst)
  {
    var used := Map(m, Destination());
    forall e: Event ensures multiset(used)[e] <= multiset(dst)[e] {
      FilterCount(used, HasKey(e.key), e);
      FilterCount(dst, HasKey(e.key), e);
      assert KeyStock(e.key, m, Of(byKey, e.key), Of(byKey0, e.key));
    }
  }

  /** What the loop keeps for one key. */
  ghost predicate KeyInvariant(k: string, m: seq<Match>, rest: seq<Event>, bucket: seq<Event>,
                               sorted: seq<Event>, bucket0: seq<Event>)
  {
    && KeyProgress(k, m, rest, bucket, sorted, bucket0)
    && KeyStock(k, m, bucket, bucket0)
    && KeyFifo(m, bucket, k)
  }

  /** The pairs so far: equal keys, never back in time, and in the order of the sources. */
  ghost predicate Ordered(n: nat, m: seq<Match>, sorted: seq<Event>) {
    && (forall i :: 0 <= i < |m| ==> m[i].0.key == m[i].1.key && m[i].0.ts <= m[i].1.ts)
    && (forall i, j :: 0 <= i < |m| && n <= j < |sorted| ==> m[i].0.ts <= sorted[j].ts)
    && FifoPerKey(m)
  }

  /** What the loop keeps about the pairs as a whole. */
  ghost predicate PairsInvariant(n: nat, m: seq<Match>, sorted: seq<Event>) {
    && n <= |sorted| && SortedByTs(sorted) && Ordered(n, m, sorted)
    && multiset(Map(m, Source())) <= multiset(sorted[..n])
  }

  ghost predicate LoopInvariant(n: nat, m: seq<Match>, sorted: seq<Event>,
                                byKey: map<string, seq<Event>>, byKey0: map<string, seq<Event>>)
  {
    && PairsInvariant(n, m, sorted)
    && forall k :: KeyInvariant(k, m, sorted[n..], Of(byKey, k), sorted, Of(byKey0, k))
  }

  lemma StepMiss(n: nat, m: seq<Match>, sorted: seq<Event>,
                 byKey: map<string, seq<Event>>, byKey0: map<string, seq<Event>>)
    requires LoopInvariant(n, m, sorted, byKey, byKey0) && n < |sorted|
    requires forall j :: 0 <= j < |Of(byKey, sorted[n].key)| ==> Of(byKey, sorted[n].key)[j].ts < sorted[n].ts
    ensures LoopInvariant(n + 1, m, sorted, byKey, byKey0)
  {
    forall k ensures KeyInvariant(k, m, sorted[n + 1..], Of(byKey, k), sorted, Of(byKey0, k)) {
      assert KeyInvariant(k, m, sorted[n..], Of(byKey, k), sorted, Of(byKey0, k));
      ProgressMiss(k, m, sorted[n..], Of(byKey, k), sorted, Of(byKey0, k));
      assert sorted[n..][1..] == sorted[n + 1..];
    }
    assert sorted[..n + 1] == sorted[..n] + [sorted[n]];
  }

  lemma FifoHit(k: string, m: seq<Match>, p: Match, bucket: seq<Event>, i: nat)
    requires KeyFifo(m, bucket, k) && SortedByTs(bucket)
    requires i < |bucket| && p.1 == bucket[i]
    requires forall j :: 0 <= j < i ==> bucket[j].ts < p.0.ts
    ensures KeyFifo(m + [p], Remove(bucket, i), k)
  {
    var m', rest := m + [p], Remove(bucket, i);
    forall a, j | 0 <= a < |m'| && 0 <= j < |rest| && m'[a].0.key == k
      ensures rest[j].ts < m'[a].0.ts || m'[a].1.ts <= rest[j].ts
    {
      var b := if j < i then j else j + 1;
      assert rest[j] == bucket[b];
    }
  }

  lemma KeyHit(k: string, m: seq<Match>, rest: seq<Event>, bucket: seq<Event>, i: nat,
               sorted: seq<Event>, bucket0: seq<Event>)
    requires KeyProgress(k, m, rest, bucket, sorted, bucket0)
    requires KeyStock(k, m, bucket, bucket0) && KeyFifo(m, bucket, k)
    requires rest != [] && rest[0].key == k && i < |bucket| && bucket[i].ts >= rest[0].ts
    requires forall j :: 0 <= j < i ==> bucket[j].ts < rest[0].ts
    ensures KeyInvariant(k, m + [(rest[0], bucket[i])], rest[1..], Remove(bucket, i), sorted, bucket0)
  {
    var p := (rest[0], bucket[i]);
    assert KeyFifo(m + [p], Remove(bucket, i), k) by {
      FifoHit(k, m, p, bucket, i);
    }
    assert KeyStock(k, m + [p], Remove(bucket, i), bucket0) by {
      StockHit(k, m, p, bucket, i, bucket0);
    }
    ProgressHit(k, m, rest, bucket, i, sorted, bucket0);
  }

  lemma KeyOther(k: string, m: seq<Match>, p: Match, rest: seq<Event>, bucket: seq<Event>,
                 sorted: seq<Event>, bucket0: seq<Event>)
    requires KeyInvariant(k, m, rest, bucket, sorted, bucket0)
    requires rest != [] && p.0 == rest[0] && p.0.key != k && p.1.key != k
    ensures KeyInvariant(k, m + [p], rest[1..], bucket, sorted, bucket0)
  {
    ProgressOther(k, m, p, rest, bucket, sorted, bucket0);
    assert KeyStock(k, m + [p], bucket, bucket0) by {
      StockOther(k, m, p, bucket, bucket0);
    }
    assert KeyFifo(m + [p], bucket, k);
  }

  lemma SourcesSnoc(n: nat, m: seq<Match>, sorted: seq<Event>, e: Event)
    requires n < |sorted| && multiset(Map(m, Source())) <= multiset(sorted[..n])
    ensures multiset(Map(m + [(sorted[n], e)], Source())) <= multiset(sorted[..n + 1])
  {
    assert sorted[..n + 1] == sorted[..n] + [sorted[n]];
    MapConcat(m, [(sorted[n], e)], Source());
    assert Map([(sorted[n], e)], Source()) == [sorted[n]];
    assert multiset(Map(m, Source()) + [sorted[n]]) == multiset(Map(m, Source())) + multiset{sorted[n]};
  }

  lemma OrderedSnoc(n: nat, m: seq<Match>, sorted: seq<Event>, p: Match)
    requires n < |sorted| && SortedByTs(sorted) && Ordered(n, m, sorted)
    requires p.0 == sorted[n] && p.0.key == p.1.key && p.0.ts <= p.1.ts
    requires forall i :: 0 <= i < |m| && m[i].0.key == p.0.key ==> m[i].1.ts <= p.1.ts
    ensures Ordered(n + 1, m + [p], sorted)
  {
  }

  lemma PairsHit(n: nat, m: seq<Match>, sorted: seq<Event>, bucket: seq<Event>, i: nat)
    requires PairsInvariant(n, m, sorted) && n < |sorted|
    requires i < |bucket| && bucket[i].key == sorted[n].key && bucket[i].ts >= sorted[n].ts
    requires KeyFifo(m, bucket, sorted[n].key)
    ensures PairsInvariant(n + 1, m + [(sorted[n], bucket[i])], sorted)
  {
    var p := (sorted[n], bucket[i]);
    SourcesSnoc(n, m, sorted, bucket[i]);
    forall a | 0 <= a < |m| && m[a].0.key == p.0.key ensures m[a].1.ts <= p.1.ts {
      assert bucket[i].ts < m[a].0.ts || m[a].1.ts <= bucket[i].ts;
    }
    OrderedSnoc(n, m, sorted, p);
  }

  lemma StepHitKey(k: string, n: nat, m: seq<Match>, sorted: seq<Event>, bucket: seq<Event>, i: nat,
                   mine: seq<Event>, mine': seq<Event>, mine0: seq<Event>)
    requires n < |sorted| && i < |bucket|
    requires KeyInvariant(k, m, sorted[n..], mine, sorted, mine0)
    requires bucket[i].key == sorted[n].key && bucket[i].ts >= sorted[n].ts
    requires forall j :: 0 <= j < i ==> bucket[j].ts < sorted[n].ts
    requires k == sorted[n].key ==> mine == bucket && mine' == Remove(bucket, i)
    requires k != sorted[n].key ==> mine' == mine
    ensures KeyInvariant(k, m + [(sorted[n], bucket[i])], sorted[n + 1..], mine', sorted, mine0)
  {
    assert sorted[n..][1..] == sorted[n + 1..];
    if k == sorted[n].key {
      KeyHit(k, m, sorted[n..], bucket, i, sorted, mine0);
    } else {
      KeyOther(k, m, (sorted[n], bucket[i]), sorted[n..], mine, sorted, mine0);
    }
  }

  lemma StepHit(n: nat, m: seq<Match>, sorted: seq<Event>, i: nat,
                byKey: map<string, seq<Event>>, byKey0: map<string, seq<Event>>)
    requires LoopInvariant(n, m, sorted, byKey, byKey0) && n < |sorted|
    requires i < |Of(byKey, sorted[n].key)|
    requires Of(byKey, sorted[n].key)[i].ts >= sorted[n].ts
    requires forall j :: 0 <= j < i ==> Of(byKey, sorted[n].key)[j].ts < sorted[n].ts
    ensures LoopInvariant(n + 1, m + [(sorted[n], Of(byKey, sorted[n].key)[i])], sorted,
                          byKey[sorted[n].key := Remove(Of(byKey, sorted[n].key), i)], byKey0)
  {
    var s := sorted[n];
    var bucket := Of(byKey, s.key);
    var p := (s, bucket[i]);
    var byKey' := byKey[s.key := Remove(bucket, i)];
    assert KeyInvariant(s.key, m, sorted[n..], bucket, sorted, Of(byKey0, s.key));
    assert bucket[i] in bucket;
    PairsHit(n, m, sorted, bucket, i);
    forall k ensures KeyInvariant(k, m + [p], sorted[n + 1..], Of(byKey', k), sorted, Of(byKey0, k)) {
      assert KeyInvariant(k, m, sorted[n..], Of(byKey, k), sorted, Of(byKey0, k));
      StepHitKey(k, n, m, sorted, bucket, i, Of(byKey, k), Of(byKey', k), Of(byKey0, k));
    }
  }

  lemma {:induction false} FilterKeepsOrder(s: seq<Event>, k: string)
    requires SortedByTs(s)
    ensures SortedInts(KeyTss(s, k))
  {
    if s != [] {
      FilterKeepsOrder(s[1..], k);
      KeyTssStep(s, k);
      FilterMembers(s[1..], HasKey(k));
      var tail := OfKey(s[1..], k);
      forall j | 0 <= j < |tail| ensures s[0].ts <= tail[j].ts {
        assert tail[j] in tail;
        assert tail[j] in s[1..];
      }
    }
  }

  lemma FinishKey(m: seq<Match>, src: seq<Event>, dst: seq<Event>, sorted: seq<Event>,
                  byKey: map<string, seq<Event>>, byKey0: map<string, seq<Event>>, k: string)
    requires LoopInvariant(|sorted|, m, sorted, byKey, byKey0)
    requires multiset(sorted) == multiset(src)
    requires SortedByTs(Of(byKey0, k)) && multiset(Of(byKey0, k)) == multiset(OfKey(dst, k))
    ensures GreedyForKey(m, src, dst, k)
  {
    assert KeyInvariant(k, m, sorted[|sorted|..], Of(byKey, k), sorted, Of(byKey0, k));
    assert KeyTss(sorted[|sorted|..], k) == [];
    FilterKeepsOrder(sorted, k);
    SameKeyTss(sorted, src, k);
    MapSubMultiset(Of(byKey0, k), OfKey(dst, k), TsOf());
    MapSubMultiset(OfKey(dst, k), Of(byKey0, k), TsOf());
    assert SortOf(KeyTss(sorted, k), KeyTss(src, k)) && SortOf(Tss(Of(byKey0, k)), KeyTss(dst, k));
  }

  lemma Finish(m: seq<Match>, src: seq<Event>, dst: seq<Event>, sorted: seq<Event>,
               byKey: map<string, seq<Event>>, byKey0: map<string, seq<Event>>)
    requires LoopInvariant(|sorted|, m, sorted, byKey, byKey0)
    requires multiset(sorted) == multiset(src)
    requires forall k :: SortedByTs(Of(byKey0, k)) && multiset(Of(byKey0, k)) == multiset(OfKey(dst, k))
    ensures GreedyOutcome(m, src, dst)
  {
    assert sorted[..|sorted|] == sorted;
    forall k ensures KeyStock(k, m, Of(byKey, k), Of(byKey0, k)) {
      assert KeyInvariant(k, m, sorted[|sorted|..], Of(byKey, k), sorted, Of(byKey0, k));
    }
    StockGivesInclusion(m, dst, byKey, byKey0);
    forall k ensures GreedyForKey(m, src, dst, k) {
      FinishKey(m, src, dst, sorted, byKey, byKey0, k);
    }
  }

  lemma StartKey(k: string, dst: seq<Event>, sorted: seq<Event>, bucket0: seq<Event>)
    requires SortedByTs(bucket0) && multiset(bucket0) == multiset(OfKey(dst, k))
    ensures KeyInvariant(k, [], sorted, bucket0, sorted, bucket0)
  {
    FilterMembers(dst, HasKey(k));
    forall e | e in bucket0 ensures e.key == k {
      assert e in multiset(OfKey(dst, k));
      assert e in Filter(dst, HasKey(k));
      assert HasKey(k)(e);
    }
    assert KeyProgress(k, [], sorted, bucket0, sorted, bucket0);
    assert KeyStock(k, [], bucket0, bucket0);
  }

  lemma Start(dst: seq<Event>, sorted: seq<Event>, unsorted: map<string, seq<Event>>, byKey0: map<string, seq<Event>>)
    requires SortedByTs(sorted)
    requires forall k :: Of(unsorted, k) == OfKey(dst, k)
    requires forall k :: SortedByTs(Of(byKey0, k)) && multiset(Of(byKey0, k)) == multiset(Of(unsorted, k))
    ensures LoopInvariant(0, [], sorted, byKey0, byKey0)
  {
    assert sorted[0..] == sorted;
    forall k ensures KeyInvariant(k, [], sorted[0..], Of(byKey0, k), sorted, Of(byKey0, k)) {
      assert multiset(Of(byKey0, k)) == multiset(OfKey(dst, k));
      StartKey(k, dst, sorted, Of(byKey0, k));
    }
  }

  /** The first event not before ts is at idx, or there is none and idx is the length. */
  ghost predicate IsFirst(bucket: seq<Event>, ts: int, idx: nat) {
    && idx <= |bucket| && (idx < |bucket| ==> bucket[idx].ts >= ts)
    && forall j :: 0 <= j < idx ==> bucket[j].ts < ts
  }

  method FirstNotBefore(bucket: seq<Event>, ts: int) returns (idx: nat)
    ensures IsFirst(bucket, ts, idx)
  {
    idx := 0;
    while idx < |bucket| && bucket[idx].ts < ts
      invariant 0 <= idx <= |bucket|
      invariant forall j :: 0 <= j < idx ==> bucket[j].ts < ts
    {
      idx := idx + 1;
    }
  }

  /** The source s took the destination at idx of its bucket, if there is one. */
  ghost predicate Served(s: Event, idx: nat, byKey: map<string, seq<Event>>, out: seq<int>,
                         byKey': map<string, seq<Event>>, out': seq<int>)
    requires idx <= |Of(byKey, s.key)|
  {
    var bucket := Of(byKey, s.key);
    if idx == |bucket| then byKey' == byKey && out' == out
    else byKey' == byKey[s.key := Remove(bucket, idx)] && out' == out + [bucket[idx].ts - s.ts]
  }

  /** One source: scan its bucket for the first destination not before it and consume it.
      The duration is clamped at zero as the source does. */
  method Serve(s: Event, byKey: map<string, seq<Event>>, out: seq<int>)
    returns (byKey': map<string, seq<Event>>, out': seq<int>, idx: nat)
    ensures IsFirst(Of(byKey, s.key), s.ts, idx)
    ensures Served(s, idx, byKey, out, byKey', out')
  {
    var bucket := Of(byKey, s.key);
    idx := FirstNotBefore(bucket, s.ts);
    if idx == |bucket| {
      return byKey, out, idx;
    }
    var d := bucket[idx].ts - s.ts;
    if d < 0 {
      d := 0;
    }
    return byKey[s.key := Remove(bucket, idx)], out + [d], idx;
  }

  /** The pairs after serving s. */
  function Paired(m: seq<Match>, s: Event, bucket: seq<Event>, idx: nat): seq<Match>
    requires idx <= |bucket|
  {
    if idx == |bucket| then m else m + [(s, bucket[idx])]
  }

  lemma ServedDurations(m: seq<Match>, s: Event, idx: nat, byKey: map<string, seq<Event>>, out: seq<int>,
                        byKey': map<string, seq<Event>>, out': seq<int>)
    requires idx <= |Of(byKey, s.key)| && Served(s, idx, byKey, out, byKey', out') && out == Durations(m)
    ensures out' == Durations(Paired(m, s, Of(byKey, s.key), idx))
  {
    var bucket := Of(byKey, s.key);
    if idx < |bucket| {
      MapConcat(m, [(s, bucket[idx])], Duration());
    }
  }

  /** Serving one source keeps the loop's invariant, with one more pair if it was served. */
  lemma ServeKeeps(n: nat, m: seq<Match>, sorted: seq<Event>, idx: nat, byKey: map<string, seq<Event>>, out: seq<int>,
                   byKey': map<string, seq<Event>>, out': seq<int>, byKey0: map<string, seq<Event>>)
    requires n < |sorted| && LoopInvariant(n, m, sorted, byKey, byKey0)
    requires IsFirst(Of(byKey, sorted[n].key), sorted[n].ts, idx)
    requires Served(sorted[n], idx, byKey, out, byKey', out')
    ensures LoopInvariant(n + 1, Paired(m, sorted[n], Of(byKey, sorted[n].key), idx), sorted, byKey', byKey0)
  {
    if idx == |Of(byKey, sorted[n].key)| {
      StepMiss(n, m, sorted, byKey, byKey0);
    } else {
      StepHit(n, m, sorted, idx, byKey, byKey0);
    }
  }

  /** The binding of `latency`. `out` holds one duration per pair, in the order
      the sources were served; the pairs themselves are exposed as `m`. */
  method Latency(src: seq<Event>, dst: seq<Event>) returns (out: seq<int>, ghost m: seq<Match>)
    ensures GreedyOutcome(m, src, dst)
    ensures out == Durations(m)
    ensures forall other :: ValidMatching(other, src, dst) ==> |other| <= |out|
  {
    var unsorted := Bucket(dst);
    var dstByKey := SortBuckets(unsorted);
    ghost var byKey0 := dstByKey;
    var srcSorted := SortByTs(src);
    out, m := [], [];
    Start(dst, srcSorted, unsorted, byKey0);
    for n := 0 to |srcSorted|
      invariant LoopInvariant(n, m, srcSorted, dstByKey, byKey0)
      invariant out == Durations(m)
    {
      var rest, longer, idx := Serve(srcSorted[n], dstByKey, out);
      ServedDurations(m, srcSorted[n], idx, dstByKey, out, rest, longer);
      ServeKeeps(n, m, srcSorted, idx, dstByKey, out, rest, longer, byKey0);
      m := Paired(m, srcSorted[n], Of(dstByKey, srcSorted[n].key), idx);
      dstByKey, out := rest, longer;
    }
    assert GreedyOutcome(m, src, dst) by {
      forall k ensures SortedByTs(Of(byKey0, k)) && multiset(Of(byKey0, k)) == multiset(OfKey(dst, k)) {
        assert Of(unsorted, k) == OfKey(dst, k);
      }
      Finish(m, src, dst, srcSorted, dstByKey, byKey0);
    }
    forall other | ValidMatching(other, src, dst) ensures |other| <= |out| {
      GreedyIsMaximum(m, other, src, dst);
    }
  }
}
