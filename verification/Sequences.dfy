/** Facts about sequences and multisets shared by the other modules. */
module Sequences {
  ghost predicate SortedInts(s: seq<int>) {
    forall i, j :: 0 <= i < j < |s| ==> s[i] <= s[j]
  }

  function Remove<T>(s: seq<T>, i: nat): seq<T>
    requires i < |s|
  {
    s[..i] + s[i + 1..]
  }

  lemma RemoveMultiset<T>(s: seq<T>, i: nat)
    requires i < |s|
    ensures multiset(Remove(s, i)) == multiset(s) - multiset{s[i]}
    ensures multiset(s) == multiset(Remove(s, i)) + multiset{s[i]}
  {
    assert s == s[..i] + [s[i]] + s[i + 1..];
  }

  lemma HeadMultiset<T>(s: seq<T>)
    requires s != []
    ensures multiset(s) == multiset{s[0]} + multiset(s[1..])
  {
    assert s == [s[0]] + s[1..];
  }

  lemma OneMoreMember<T>(t: seq<T>, s: seq<T>, x: T)
    requires multiset(t) == multiset(s) + multiset{x}
    ensures forall j :: 0 <= j < |t| ==> t[j] == x || t[j] in s
  {
    forall j | 0 <= j < |t| ensures t[j] == x || t[j] in s {
      assert t[j] in multiset(t);
      assert t[j] == x || t[j] in multiset(s);
    }
  }

  lemma TailMultiset<T>(a: seq<T>, b: seq<T>)
    requires a != [] && b != [] && a[0] == b[0] && multiset(a) == multiset(b)
    ensures multiset(a[1..]) == multiset(b[1..])
  {
    HeadMultiset(a);
    HeadMultiset(b);
    assert multiset(a[1..]) == multiset(a) - multiset{a[0]};
    assert multiset(b[1..]) == multiset(b) - multiset{b[0]};
  }

  ghost predicate Antisymmetric<T(!new)>(le: (T, T) -> bool) {
    forall x, y :: le(x, y) && le(y, x) ==> x == y
  }

  ghost predicate SortedBy<T>(s: seq<T>, le: (T, T) -> bool) {
    forall i, j :: 0 <= i < j < |s| ==> le(s[i], s[j])
  }

  lemma HeadIsLeast<T>(a: seq<T>, x: T, le: (T, T) -> bool)
    requires SortedBy(a, le) && x in multiset(a)
    ensures a != [] && (a[0] == x || le(a[0], x))
  {
    var i :| 0 <= i < |a| && a[i] == x;
  }

  /** A sorted sequence is determined by its multiset. */
  lemma {:induction false} SortedUnique<T(!new)>(a: seq<T>, b: seq<T>, le: (T, T) -> bool)
    requires SortedBy(a, le) && SortedBy(b, le) && Antisymmetric(le) && multiset(a) == multiset(b)
    ensures a == b
  {
    if a == [] {
      assert |multiset(b)| == 0;
    } else {
      HeadMultiset(a);
      assert a[0] in multiset(b);
      HeadIsLeast(b, a[0], le);
      HeadMultiset(b);
      assert b[0] in multiset(a);
      HeadIsLeast(a, b[0], le);
      TailMultiset(a, b);
      SortedUnique(a[1..], b[1..], le);
      assert a == [a[0]] + a[1..] && b == [b[0]] + b[1..];
    }
  }

  function Filter<T>(s: seq<T>, f: T -> bool): (r: seq<T>) {
    if s == [] then [] else (if f(s[0]) then [s[0]] else []) + Filter(s[1..], f)
  }

  function Map<T, U>(s: seq<T>, f: T -> U): (r: seq<U>)
    ensures |r| == |s|
    ensures forall i :: 0 <= i < |s| ==> r[i] == f(s[i])
  {
    if s == [] then [] else [f(s[0])] + Map(s[1..], f)
  }

  lemma Assoc<T>(a: seq<T>, b: seq<T>, c: seq<T>)
    ensures a + b + c == a + (b + c)
  {
  }

  lemma {:induction false} FilterConcat<T>(a: seq<T>, b: seq<T>, f: T -> bool)
    ensures Filter(a + b, f) == Filter(a, f) + Filter(b, f)
  {
    if a == [] {
      assert a + b == b;
    } else {
      assert (a + b)[1..] == a[1..] + b;
      FilterConcat(a[1..], b, f);
      Assoc(if f(a[0]) then [a[0]] else [], Filter(a[1..], f), Filter(b, f));
    }
  }

  lemma MapConcat<T, U>(a: seq<T>, b: seq<T>, f: T -> U)
    ensures Map(a + b, f) == Map(a, f) + Map(b, f)
  {
  }

  lemma {:induction false} FilterMembers<T>(s: seq<T>, f: T -> bool)
    ensures forall x :: x in Filter(s, f) <==> x in s && f(x)
  {
    if s != [] {
      FilterMembers(s[1..], f);
    }
  }

  lemma {:induction false} FilterCount<T>(s: seq<T>, f: T -> bool, x: T)
    ensures multiset(Filter(s, f))[x] == if f(x) then multiset(s)[x] else 0
  {
    if s != [] {
      HeadMultiset(s);
      FilterCount(s[1..], f, x);
    }
  }

  lemma FilterOne<T>(x: T, f: T -> bool)
    ensures multiset(Filter([x], f)) == if f(x) then multiset{x} else multiset{}
  {
  }

  lemma MiddleMultiset<T>(a: seq<T>, x: seq<T>, b: seq<T>)
    ensures multiset(a + (x + b)) == multiset(a + b) + multiset(x)
  {
  }

  lemma FilterMiddle<T>(a: seq<T>, x: T, b: seq<T>, f: T -> bool)
    ensures Filter(a + ([x] + b), f) == Filter(a, f) + (Filter([x], f) + Filter(b, f))
    ensures Filter(a + b, f) == Filter(a, f) + Filter(b, f)
  {
    FilterConcat(a, [x] + b, f);
    FilterConcat([x], b, f);
    FilterConcat(a, b, f);
  }

  lemma FilterRemove<T>(s: seq<T>, i: nat, f: T -> bool)
    requires i < |s|
    ensures multiset(Filter(s, f)) ==
            multiset(Filter(Remove(s, i), f)) + (if f(s[i]) then multiset{s[i]} else multiset{})
  {
    var a, b := s[..i], s[i + 1..];
    assert s == a + ([s[i]] + b);
    FilterMiddle(a, s[i], b, f);
    FilterOne(s[i], f);
    MiddleMultiset(Filter(a, f), Filter([s[i]], f), Filter(b, f));
  }

  lemma SubMultisetSize<T>(a: seq<T>, b: seq<T>)
    requires multiset(a) <= multiset(b)
    ensures |a| <= |b|
  {
    var rest := multiset(b) - multiset(a);
    assert multiset(b) == multiset(a) + rest;
    assert |multiset(b)| == |multiset(a)| + |rest|;
    assert |multiset(a)| == |a| && |multiset(b)| == |b|;
  }

  /** Filtering respects multiset inclusion, so it never depends on order. */
  lemma {:induction false} FilterSubMultiset<T>(a: seq<T>, b: seq<T>, f: T -> bool)
    requires multiset(a) <= multiset(b)
    ensures multiset(Filter(a, f)) <= multiset(Filter(b, f))
    ensures |Filter(a, f)| <= |Filter(b, f)|
  {
    if a == [] {
      assert multiset(Filter(a, f)) == multiset{};
    } else {
      HeadMultiset(a);
      assert a[0] in multiset(b);
      var i :| 0 <= i < |b| && b[i] == a[0];
      RemoveMultiset(b, i);
      assert multiset(a[1..]) <= multiset(Remove(b, i));
      FilterSubMultiset(a[1..], Remove(b, i), f);
      FilterRemove(b, i, f);
    }
    SubMultisetSize(Filter(a, f), Filter(b, f));
  }

  lemma MapSlices<T, U>(s: seq<T>, i: nat, f: T -> U)
    requires i <= |s|
    ensures Map(s[..i], f) == Map(s, f)[..i]
    ensures Map(s[i..], f) == Map(s, f)[i..]
  {
    assert s == s[..i] + s[i..];
    MapConcat(s[..i], s[i..], f);
  }

  lemma MapOfRemove<T, U>(s: seq<T>, i: nat, f: T -> U)
    requires i < |s|
    ensures Map(Remove(s, i), f) == Remove(Map(s, f), i)
  {
    MapConcat(s[..i], s[i + 1..], f);
    MapSlices(s, i, f);
    MapSlices(s, i + 1, f);
  }

  lemma MapRemove<T, U>(s: seq<T>, i: nat, f: T -> U)
    requires i < |s|
    ensures multiset(Map(s, f)) == multiset(Map(Remove(s, i), f)) + multiset{f(s[i])}
  {
    MapOfRemove(s, i, f);
    RemoveMultiset(Map(s, f), i);
  }

  /** Mapping respects multiset inclusion. */
  lemma {:induction false} MapSubMultiset<T, U>(a: seq<T>, b: seq<T>, f: T -> U)
    requires multiset(a) <= multiset(b)
    ensures multiset(Map(a, f)) <= multiset(Map(b, f))
  {
    if a == [] {
      assert multiset(Map(a, f)) == multiset{};
    } else {
      HeadMultiset(a);
      assert a[0] in multiset(b);
      var i :| 0 <= i < |b| && b[i] == a[0];
      RemoveMultiset(b, i);
      var b' := Remove(b, i);
      assert multiset(a[1..]) <= multiset(b');
      MapSubMultiset(a[1..], b', f);
      MapRemove(b, i, f);
      assert Map(a, f) == [f(a[0])] + Map(a[1..], f);
    }
  }
}
