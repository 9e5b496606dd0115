/** Path globbing of the `http(pattern)` check operator (pkg/checks/operators.go).

    `Matches` is the usual meaning of a glob: '*' stands for any text, every other
    character for itself. The scanner places each literal segment as far left as
    it can; it agrees with `Matches` on every string exactly when the pattern has
    no '*' or ends in one. */
module Glob {
  import opened Text

  predicate Matches(pattern: string, s: string)
    decreases |pattern|, |s|
  {
    if pattern == "" then s == ""
    else if pattern[0] == '*' then
      Matches(pattern[1..], s) || (s != "" && Matches(pattern, s[1..]))
    else s != "" && s[0] == pattern[0] && Matches(pattern[1..], s[1..])
  }

  function Join(parts: seq<string>): string
    requires parts != []
  {
    if |parts| == 1 then parts[0] else parts[0] + "*" + Join(parts[1..])
  }

  predicate Starless(parts: seq<string>) { forall p :: p in parts ==> '*' !in p }

  /** strings.Split(s, "*"): the segments between the stars, never empty. */
  function Split(s: string): (parts: seq<string>)
    ensures parts != []
    ensures Starless(parts)
    ensures Join(parts) == s
  {
    if s == "" then [""]
    else
      var rest := Split(s[1..]);
      if s[0] == '*' then [""] + rest
      else [[s[0]] + rest[0]] + rest[1..]
  }

  /** strings.Index: the leftmost occurrence of p in s, or -1. */
  function Index(s: string, p: string): (i: int)
    ensures -1 <= i && i + |p| <= |s| + |p| && (i >= 0 ==> i + |p| <= |s|)
  {
    if HasPrefix(s, p) then 0
    else if s == "" then -1
    else
      var r := Index(s[1..], p);
      if r < 0 then -1 else r + 1
  }

  lemma {:induction false} IndexFound(s: string, p: string)
    requires Index(s, p) >= 0
    ensures HasPrefix(s[Index(s, p)..], p)
  {
    if HasPrefix(s, p) {
      assert s[0..] == s;
    } else {
      IndexFound(s[1..], p);
      assert s[1..][Index(s[1..], p)..] == s[Index(s, p)..];
    }
  }

  lemma {:induction false} IndexLeftmost(s: string, p: string, n: nat)
    requires n <= |s| && HasPrefix(s[n..], p)
    ensures 0 <= Index(s, p) <= n
  {
    if !HasPrefix(s, p) {
      assert n > 0 by {
        assert s[0..] == s;
      }
      assert s[1..][n - 1..] == s[n..];
      IndexLeftmost(s[1..], p, n - 1);
    }
  }

  function From(pos: nat, end: int): int { if end < 0 then -1 else pos + end }

  /** The end of the leftmost placement of the segments in s, or -1. */
  function Scan(parts: seq<string>, s: string): (end: int)
    ensures -1 <= end <= |s|
  {
    if parts == [] then 0
    else
      var i := Index(s, parts[0]);
      if i < 0 then -1 else From(i + |parts[0]|, Scan(parts[1..], s[i + |parts[0]|..]))
  }

  predicate EndsWithStar(p: string) { p != "" && p[|p| - 1] == '*' }

  /** The verdict of the scanner. */
  predicate Verdict(pattern: string, s: string) {
    pattern == "*" || pattern == s ||
    (var parts := Split(pattern);
     var end := Scan(parts, s);
     && HasPrefix(s, parts[0])
     && end >= 0
     && (EndsWithStar(pattern) || end == |s|))
  }

  lemma ScanStep(parts: seq<string>, i: nat, s: string, pos: nat, idx: int)
    requires i < |parts| && pos <= |s| && idx == Index(s[pos..], parts[i])
    ensures From(pos, Scan(parts[i..], s[pos..])) ==
            if idx < 0 then -1
            else From(pos + idx + |parts[i]|, Scan(parts[i + 1..], s[pos + idx + |parts[i]|..]))
  {
    assert parts[i..][1..] == parts[i + 1..];
    if idx >= 0 {
      assert s[pos..][idx + |parts[i]|..] == s[pos + idx + |parts[i]|..];
    }
  }

  lemma PrefixAtZero(s: string, p: string)
    ensures HasPrefix(s, p) <==> Index(s, p) == 0
  {
    if Index(s, p) == 0 {
      IndexFound(s, p);
      assert s[0..] == s;
    }
  }

  /** The end of the last segment when the first one is a prefix of s, or -1 on a miss. */
  function Placed(parts: seq<string>, s: string): int
    requires parts != []
  {
    if HasPrefix(s, parts[0]) then Scan(parts, s) else -1
  }

  /** The first i segments are placed, ending at pos. */
  predicate PlacedTo(parts: seq<string>, s: string, i: nat, pos: nat)
    requires parts != [] && i <= |parts|
  {
    && pos <= |s|
    && Scan(parts, s) == From(pos, Scan(parts[i..], s[pos..]))
    && (if i == 0 then pos == 0 else HasPrefix(s, parts[0]))
  }

  /** Placing one more segment, or missing. */
  lemma PlaceNext(parts: seq<string>, s: string, i: nat, pos: nat)
    requires parts != [] && i < |parts| && PlacedTo(parts, s, i, pos)
    ensures var idx := Index(s[pos..], parts[i]);
            if idx < 0 || (i == 0 && idx != 0) then Placed(parts, s) == -1
            else PlacedTo(parts, s, i + 1, pos + idx + |parts[i]|)
  {
    var idx := Index(s[pos..], parts[i]);
    ScanStep(parts, i, s, pos, idx);
    if i == 0 {
      assert s[0..] == s;
      PrefixAtZero(s, parts[0]);
    }
  }

  /** The loop over the segments. */
  method Place(parts: seq<string>, s: string) returns (end: int)
    requires parts != []
    ensures end == Placed(parts, s)
  {
    assert parts[0..] == parts && s[0..] == s;
    var pos := 0;
    for i := 0 to |parts|
      invariant 0 <= pos && PlacedTo(parts, s, i, pos)
    {
      var p := parts[i];
      var idx := Index(s[pos..], p);
      PlaceNext(parts, s, i, pos);
      if p == "" {
        assert idx == 0;
        continue;
      }
      if idx == -1 {
        return -1;
      }
      // Anchor the first segment: it is empty when the pattern begins with '*'.
      if i == 0 && idx != 0 {
        return -1;
      }
      pos := pos + idx + |p|;
    }
    return pos;
  }

  // ----- Soundness -----

  lemma {:induction false} LiteralPrefix(lit: string, rest: string, s: string)
    requires '*' !in lit
    ensures Matches(lit + rest, s) <==> HasPrefix(s, lit) && Matches(rest, s[|lit|..])
  {
    if lit == "" {
      assert lit + rest == rest;
    } else {
      assert (lit + rest)[1..] == lit[1..] + rest;
      if s != "" {
        LiteralPrefix(lit[1..], rest, s[1..]);
        assert HasPrefix(s, lit) <==> lit[0] == s[0] && HasPrefix(s[1..], lit[1..]) by {
          if |lit| <= |s| {
            assert s[..|lit|] == [s[0]] + s[1..][..|lit| - 1];
            assert lit == [lit[0]] + lit[1..];
          }
        }
        if HasPrefix(s, lit) {
          assert s[|lit|..] == s[1..][|lit[1..]|..];
        }
      }
    }
  }

  /** A star absorbs any text: what matches later also matches earlier. */
  lemma {:induction false} StarAbsorbs(rest: string, s: string, n: nat)
    requires n <= |s| && Matches(rest, s[n..])
    ensures Matches("*" + rest, s)
  {
    assert ("*" + rest)[1..] == rest;
    if n == 0 {
      assert s[0..] == s;
    } else {
      assert s[1..][n - 1..] == s[n..];
      StarAbsorbs(rest, s[1..], n - 1);
    }
  }

  lemma {:induction false} StarGap(rest: string, s: string) returns (n: nat)
    requires Matches("*" + rest, s)
    ensures n <= |s| && Matches(rest, s[n..])
  {
    assert ("*" + rest)[1..] == rest;
    if Matches(rest, s) {
      n := 0;
      assert s[0..] == s;
    } else {
      var k := StarGap(rest, s[1..]);
      n := k + 1;
      assert s[1..][k..] == s[n..];
    }
  }

  lemma JoinCons(p: string, rest: seq<string>)
    requires rest != []
    ensures Join([p] + rest) == p + ("*" + Join(rest))
  {
    assert ([p] + rest)[1..] == rest;
  }

  /** The pattern made of the segments, each preceded by a star. */
  function Starred(parts: seq<string>): string {
    if parts == [] then "" else "*" + (parts[0] + Starred(parts[1..]))
  }

  lemma {:induction false} JoinStarred(parts: seq<string>)
    requires parts != []
    ensures Join(parts) == parts[0] + Starred(parts[1..])
  {
    if |parts| > 1 {
      JoinStarred(parts[1..]);
      assert parts == [parts[0]] + parts[1..];
      JoinCons(parts[0], parts[1..]);
    }
  }

  lemma {:induction false} ScanSound(parts: seq<string>, s: string)
    requires Starless(parts)
    requires Scan(parts, s) == |s|
    ensures Matches(Starred(parts), s)
  {
    if parts != [] {
      var p, i := parts[0], Index(s, parts[0]);
      var n := i + |p|;
      IndexFound(s, p);
      ScanSound(parts[1..], s[n..]);
      assert s[i..][|p|..] == s[n..];
      LiteralPrefix(p, Starred(parts[1..]), s[i..]);
      StarAbsorbs(p + Starred(parts[1..]), s, i);
    }
  }

  /** A trailing star accepts whatever is left. */
  lemma {:induction false} OpenScanSound(parts: seq<string>, s: string)
    requires Starless(parts)
    requires parts != [] && parts[|parts| - 1] == "" && Scan(parts, s) >= 0
    ensures Matches(Starred(parts), s)
  {
    var p, i := parts[0], Index(s, parts[0]);
    var n := i + |p|;
    if |parts| == 1 {
      assert s[|s|..] == "";
      StarAbsorbs("", s, |s|);
      assert Starred(parts) == "*" + "";
    } else {
      IndexFound(s, p);
      OpenScanSound(parts[1..], s[n..]);
      assert s[i..][|p|..] == s[n..];
      LiteralPrefix(p, Starred(parts[1..]), s[i..]);
      StarAbsorbs(p + Starred(parts[1..]), s, i);
    }
  }

  lemma SliceAgain(s: string, n: nat, m: nat)
    requires m <= n <= |s|
    ensures s[n..] == s[m..][n - m..]
  {
  }

  /** Somewhere after the star the literal occurs, and the rest matches what follows it. */
  lemma LiteralGap(p: string, rest: string, s: string) returns (n: nat)
    requires '*' !in p && Matches("*" + (p + rest), s)
    ensures n + |p| <= |s| && HasPrefix(s[n..], p) && Matches(rest, s[n + |p|..])
  {
    n := StarGap(p + rest, s);
    LiteralPrefix(p, rest, s[n..]);
    assert s[n..][|p|..] == s[n + |p|..];
  }

  lemma LaterStarred(parts: seq<string>, s: string, n: nat)
    requires parts != [] && n <= |s| && Matches(Starred(parts), s[n..])
    ensures Matches(Starred(parts), s)
  {
    var rest := parts[0] + Starred(parts[1..]);
    var k := StarGap(rest, s[n..]);
    assert s[n..][k..] == s[n + k..];
    StarAbsorbs(rest, s, n + k);
  }

  /** Leftmost placement is the earliest-ending one, so it never misses. */
  lemma {:induction false} OpenScanComplete(parts: seq<string>, s: string)
    requires Starless(parts)
    requires parts != [] && parts[|parts| - 1] == "" && Matches(Starred(parts), s)
    ensures Scan(parts, s) >= 0
  {
    var p, rest := parts[0], Starred(parts[1..]);
    var n := LiteralGap(p, rest, s);
    IndexLeftmost(s, p, n);
    var m, more := Index(s, p) + |p|, parts[1..];
    assert Scan(parts, s) == From(m, Scan(more, s[m..]));
    if more != [] {
      SliceAgain(s, n + |p|, m);
      LaterStarred(more, s[m..], n + |p| - m);
      assert more[|more| - 1] == "";
      OpenScanComplete(more, s[m..]);
    }
  }

  lemma {:induction false} SplitCount(pattern: string)
    ensures |Split(pattern)| == 1 <==> '*' !in pattern
  {
    if pattern != "" {
      SplitCount(pattern[1..]);
      assert pattern == [pattern[0]] + pattern[1..];
    }
  }

  lemma {:induction false} SplitLast(pattern: string)
    ensures var parts := Split(pattern);
            parts[|parts| - 1] == "" <==> pattern == "" || EndsWithStar(pattern)
  {
    if pattern != "" {
      var rest := pattern[1..];
      SplitLast(rest);
      if rest == "" {
        assert Split(rest) == [""];
      } else {
        assert EndsWithStar(pattern) == EndsWithStar(rest);
      }
    }
  }

  lemma SplitEnds(pattern: string)
    ensures var parts := Split(pattern);
            && (EndsWithStar(pattern) ==> |parts| > 1 && parts[|parts| - 1] == "")
            && ('*' !in pattern <==> |parts| == 1)
            && ('*' in pattern && !EndsWithStar(pattern) ==> parts[|parts| - 1] != "")
  {
    SplitCount(pattern);
    SplitLast(pattern);
  }

  /** Matching a pattern is matching its first segment, then the starred rest. */
  lemma MatchesBySegments(pattern: string, s: string)
    ensures var parts := Split(pattern);
            Matches(pattern, s) <==> HasPrefix(s, parts[0]) && Matches(Starred(parts[1..]), s[|parts[0]|..])
  {
    var parts := Split(pattern);
    JoinStarred(parts);
    LiteralPrefix(parts[0], Starred(parts[1..]), s);
  }

  /** Scanning all segments when the first one is a prefix. */
  lemma ScanFirst(parts: seq<string>, s: string)
    requires parts != [] && HasPrefix(s, parts[0])
    ensures Scan(parts, s) == From(|parts[0]|, Scan(parts[1..], s[|parts[0]|..]))
  {
    assert s[0..] == s;
  }

  lemma {:induction false} SelfMatch(p: string)
    ensures Matches(p, p)
  {
    if p != "" {
      SelfMatch(p[1..]);
    }
  }

  /** Whatever the pattern, the scanner accepts only strings the glob denotes. */
  lemma VerdictSound(pattern: string, s: string)
    requires Verdict(pattern, s)
    ensures Matches(pattern, s)
  {
    if pattern == s {
      SelfMatch(s);
    } else if pattern == "*" {
      StarAbsorbs("", s, |s|);
      assert "*" + "" == "*" && s[|s|..] == "";
    } else {
      var parts := Split(pattern);
      MatchesBySegments(pattern, s);
      ScanFirst(parts, s);
      SplitEnds(pattern);
      if EndsWithStar(pattern) {
        OpenScanSound(parts[1..], s[|parts[0]|..]);
      } else {
        ScanSound(parts[1..], s[|parts[0]|..]);
      }
    }
  }

  /** On a pattern without '*' or ending in '*' nothing is missed. */
  lemma VerdictComplete(pattern: string, s: string)
    requires '*' !in pattern || EndsWithStar(pattern)
    requires Matches(pattern, s)
    ensures Verdict(pattern, s)
  {
    var parts := Split(pattern);
    MatchesBySegments(pattern, s);
    SplitEnds(pattern);
    ScanFirst(parts, s);
    if '*' in pattern {
      OpenScanComplete(parts[1..], s[|parts[0]|..]);
    } else {
      assert parts[1..] == [];
      assert s == s[..|parts[0]|] + s[|parts[0]|..];
    }
  }

  // ----- The patterns on which the scanner misses strings -----

  function Concat(parts: seq<string>): string {
    if parts == [] then "" else parts[0] + Concat(parts[1..])
  }

  lemma PrefixSplit(s: string, p: string, q: string)
    requires HasPrefix(s, p + q)
    ensures HasPrefix(s, p) && HasPrefix(s[|p|..], q)
  {
    assert p == (p + q)[..|p|] == s[..|p|];
    assert q == (p + q)[|p|..] == s[|p|..][..|q|];
  }

  /** If the segments occur back to back starting at n, the leftmost placement
      ends no later than that occurrence. */
  lemma {:induction false} ScanEarliest(parts: seq<string>, s: string, n: nat)
    requires n <= |s| && HasPrefix(s[n..], Concat(parts))
    ensures 0 <= Scan(parts, s) <= n + |Concat(parts)|
  {
    if parts != [] {
      var p, rest := parts[0], Concat(parts[1..]);
      PrefixSplit(s[n..], p, rest);
      IndexLeftmost(s, p, n);
      var m := Index(s, p) + |p|;
      assert s[m..][n + |p| - m..] == s[n..][|p|..];
      ScanEarliest(parts[1..], s[m..], n + |p| - m);
    }
  }

  /** Doubling the last segment of a pattern that has a star but does not end in
      one gives a string that the glob denotes and the scanner rejects. */
  function Missed(pattern: string): string {
    var parts := Split(pattern);
    Concat(parts) + parts[|parts| - 1]
  }

  lemma {:induction false} StarredMatchesDoubled(parts: seq<string>)
    requires parts != [] && Starless(parts)
    ensures Matches(Starred(parts), Concat(parts) + parts[|parts| - 1])
  {
    var p, last := parts[0], parts[|parts| - 1];
    var s := Concat(parts) + last;
    if |parts| == 1 {
      assert Concat(parts) == p + Concat([]);
      assert s == p + p;
      assert s[|p|..] == p;
      assert Starred(parts) == "*" + (p + "");
      assert p + "" == p;
      SelfMatch(p);
      StarAbsorbs(p, s, |p|);
    } else {
      StarredMatchesDoubled(parts[1..]);
      assert s == p + (Concat(parts[1..]) + last);
      assert s[|p|..] == Concat(parts[1..]) + last;
      LiteralPrefix(p, Starred(parts[1..]), s);
      assert s[0..] == s;
      StarAbsorbs(p + Starred(parts[1..]), s, 0);
    }
  }

  lemma {:induction false} NoStarInConcat(parts: seq<string>)
    requires Starless(parts)
    ensures '*' !in Concat(parts)
  {
    if parts != [] {
      NoStarInConcat(parts[1..]);
    }
  }

  lemma MissedIsDenoted(parts: seq<string>, pattern: string)
    requires parts == Split(pattern) && |parts| > 1
    ensures Matches(pattern, Missed(pattern))
  {
    var last := parts[|parts| - 1];
    var s := Missed(pattern);
    MatchesBySegments(pattern, s);
    assert s == parts[0] + (Concat(parts[1..]) + last);
    assert s[..|parts[0]|] == parts[0];
    assert s[|parts[0]|..] == Concat(parts[1..]) + last;
    StarredMatchesDoubled(parts[1..]);
  }

  lemma MissedIsRejected(parts: seq<string>, pattern: string)
    requires parts == Split(pattern) && parts[|parts| - 1] != "" && '*' in pattern && !EndsWithStar(pattern)
    ensures !Verdict(pattern, Missed(pattern))
  {
    var s := Missed(pattern);
    NoStarInConcat(parts);
    assert parts[|parts| - 1] in parts;
    assert s[0..] == s && s[..|Concat(parts)|] == Concat(parts);
    ScanEarliest(parts, s, 0);
  }

  lemma MissedIsMissed(pattern: string)
    requires '*' in pattern && !EndsWithStar(pattern)
    ensures Matches(pattern, Missed(pattern)) && !Verdict(pattern, Missed(pattern))
  {
    var parts := Split(pattern);
    assert |parts| > 1 && parts[|parts| - 1] != "" by {
      SplitEnds(pattern);
    }
    MissedIsDenoted(parts, pattern);
    MissedIsRejected(parts, pattern);
  }

  /** The scanner decides the glob on every string exactly when the pattern has
      no '*' or ends in one. */
  lemma ExactPatterns(pattern: string)
    ensures (forall s :: Verdict(pattern, s) <==> Matches(pattern, s)) <==>
            ('*' !in pattern || EndsWithStar(pattern))
  {
    if '*' !in pattern || EndsWithStar(pattern) {
      forall s ensures Verdict(pattern, s) <==> Matches(pattern, s) {
        if Verdict(pattern, s) {
          VerdictSound(pattern, s);
        }
        if Matches(pattern, s) {
          VerdictComplete(pattern, s);
        }
      }
    } else {
      MissedIsMissed(pattern);
    }
  }

  // ----- What the scanner accepts of the other patterns -----

  /** Each segment after its gap. */
  function Laid(parts: seq<string>, gaps: seq<string>): string
    requires |gaps| == |parts|
  {
    if parts == [] then "" else gaps[0] + (parts[0] + Laid(parts[1..], gaps[1..]))
  }

  /** In the gap and what follows, p occurs nowhere before the end of the gap. */
  ghost predicate NoEarlier(gap: string, p: string, rest: string) {
    forall n :: 0 <= n < |gap| ==> !HasPrefix((gap + (p + rest))[n..], p)
  }

  /** No segment occurs earlier than after its gap. */
  ghost predicate NoneEarlier(parts: seq<string>, gaps: seq<string>)
    requires |gaps| == |parts|
  {
    parts != [] ==>
      NoEarlier(gaps[0], parts[0], Laid(parts[1..], gaps[1..])) && NoneEarlier(parts[1..], gaps[1..])
  }

  /** s is the segments, each after its gap and occurring no earlier. */
  ghost predicate LaidOut(parts: seq<string>, gaps: seq<string>, s: string) {
    |gaps| == |parts| && s == Laid(parts, gaps) && NoneEarlier(parts, gaps)
  }

  lemma LaidCons(p: string, parts: seq<string>, gap: string, gaps: seq<string>)
    requires |gaps| == |parts|
    ensures Laid([p] + parts, [gap] + gaps) == gap + (p + Laid(parts, gaps))
    ensures NoneEarlier([p] + parts, [gap] + gaps) <==>
            NoEarlier(gap, p, Laid(parts, gaps)) && NoneEarlier(parts, gaps)
  {
    assert ([p] + parts)[1..] == parts && ([gap] + gaps)[1..] == gaps;
  }

  /** The leftmost occurrence leaves a gap in which there is none. */
  lemma IndexGap(s: string, p: string)
    requires Index(s, p) >= 0
    ensures var i := Index(s, p); s == s[..i] + (p + s[i + |p|..]) && NoEarlier(s[..i], p, s[i + |p|..])
  {
    var i := Index(s, p);
    IndexFound(s, p);
    assert s[i..] == p + s[i + |p|..];
    assert s == s[..i] + s[i..];
    forall n | 0 <= n < i ensures !HasPrefix(s[n..], p) {
      if HasPrefix(s[n..], p) {
        IndexLeftmost(s, p, n);
      }
    }
  }

  lemma GapIndex(gap: string, p: string, rest: string)
    requires NoEarlier(gap, p, rest)
    ensures Index(gap + (p + rest), p) == |gap|
  {
    var s := gap + (p + rest);
    assert s[|gap|..] == p + rest && (p + rest)[..|p|] == p;
    IndexLeftmost(s, p, |gap|);
    IndexFound(s, p);
  }

  lemma {:induction false} ScanLaysOut(parts: seq<string>, s: string) returns (gaps: seq<string>)
    requires Scan(parts, s) == |s|
    ensures LaidOut(parts, gaps, s) && (parts != [] ==> |gaps[0]| == Index(s, parts[0]))
  {
    if parts == [] {
      gaps := [];
    } else {
      var p, i := parts[0], Index(s, parts[0]);
      var rest := s[i + |p|..];
      var more := ScanLaysOut(parts[1..], rest);
      IndexGap(s, p);
      gaps := [s[..i]] + more;
      assert parts == [p] + parts[1..];
      LaidCons(p, parts[1..], s[..i], more);
    }
  }

  lemma {:induction false} LaidOutScans(parts: seq<string>, gaps: seq<string>, s: string)
    requires LaidOut(parts, gaps, s)
    ensures Scan(parts, s) == |s| && (parts != [] ==> Index(s, parts[0]) == |gaps[0]|)
  {
    if parts != [] {
      var rest := Laid(parts[1..], gaps[1..]);
      GapIndex(gaps[0], parts[0], rest);
      assert s[|gaps[0]| + |parts[0]|..] == rest;
      LaidOutScans(parts[1..], gaps[1..], rest);
    }
  }

  /** The scanner accepts s, other than the pattern itself, for a pattern with a star that does
      not end in one, exactly when s is the segments, the first at the start, each of the others
      after a gap and occurring no earlier than after it. */
  lemma AcceptsExactly(pattern: string, s: string)
    requires '*' in pattern && !EndsWithStar(pattern) && s != pattern
    ensures Verdict(pattern, s) <==> exists gaps :: LaidOut(Split(pattern), gaps, s) && gaps[0] == ""
  {
    var parts := Split(pattern);
    PrefixAtZero(s, parts[0]);
    if Verdict(pattern, s) {
      var gaps := ScanLaysOut(parts, s);
      assert LaidOut(parts, gaps, s) && gaps[0] == "";
    }
    if gaps :| LaidOut(parts, gaps, s) && gaps[0] == "" {
      LaidOutScans(parts, gaps, s);
    }
  }

  lemma VerdictHolds(pattern: string, s: string)
    ensures Verdict(pattern, s) ==> Matches(pattern, s)
    ensures '*' !in pattern || EndsWithStar(pattern) ==> (Verdict(pattern, s) <==> Matches(pattern, s))
    ensures '*' in pattern && !EndsWithStar(pattern) ==>
              (Verdict(pattern, s) <==>
                 s == pattern || exists gaps :: LaidOut(Split(pattern), gaps, s) && gaps[0] == "")
  {
    if Verdict(pattern, s) {
      VerdictSound(pattern, s);
    }
    if '*' !in pattern || EndsWithStar(pattern) {
      if Matches(pattern, s) {
        VerdictComplete(pattern, s);
      }
    } else if s != pattern {
      AcceptsExactly(pattern, s);
    }
  }

  /** What globMatch accepts: only strings that the glob denotes; all of them for a pattern
      without a star or ending in one; for any other, the pattern itself and the strings in which
      no segment occurs earlier than where it is placed. */
  method GlobMatch(pattern: string, s: string) returns (ok: bool)
    ensures ok ==> Matches(pattern, s)
    ensures '*' !in pattern || EndsWithStar(pattern) ==> (ok <==> Matches(pattern, s))
    ensures '*' in pattern && !EndsWithStar(pattern) ==>
              (ok <==> s == pattern || exists gaps :: LaidOut(Split(pattern), gaps, s) && gaps[0] == "")
    ensures ok == Verdict(pattern, s)
  {
    VerdictHolds(pattern, s);
    if pattern == "*" || pattern == s {
      return true;
    }
    var parts := Split(pattern);
    var pos := Place(parts, s);
    if pos < 0 {
      return false;
    }
    return EndsWithStar(pattern) || pos == |s|;
  }
}
