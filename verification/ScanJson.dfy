/** Finding JSON objects in a judge's reply (pkg/eval/anthropic.go): a single-pass
    scanner over balanced braces that honours strings and escapes, and the choice of
    the first object that decodes as a verdict. */
module ScanJson {
  import Floats
  import Sequences

  type Span = (nat, nat)

  /** The scanner's variables; `start` is -1 outside an object. */
  datatype State = State(depth: nat, start: int, inString: bool, escape: bool, out: seq<Span>)

  function Init(): State { State(0, -1, false, false, []) }

  /** The loop body on byte c at index i. */
  function Step(st: State, c: char, i: nat): State {
    if st.inString then
      if st.escape then st.(escape := false)
      else if c == '\\' then st.(escape := true)
      else if c == '"' then st.(inString := false)
      else st
    else if c == '"' then st.(inString := true)
    else if c == '{' then st.(start := if st.depth == 0 then i else st.start, depth := st.depth + 1)
    else if c == '}' && st.depth > 0 then
      if st.depth == 1 && st.start >= 0 then st.(depth := 0, start := -1, out := st.out + [(st.start as nat, i + 1)])
      else st.(depth := st.depth - 1)
    else st
  }

  function Run(st: State, s: string, i: nat): State
    decreases |s|
  {
    if s == "" then st else Run(Step(st, s[0], i), s[1..], i + 1)
  }

  lemma {:induction false} RunConcat(st: State, a: string, b: string, i: nat)
    ensures Run(st, a + b, i) == Run(Run(st, a, i), b, i + |a|)
    decreases |a|
  {
    if a == "" {
      assert a + b == b;
    } else {
      assert (a + b)[1..] == a[1..] + b;
      RunConcat(Step(st, a[0], i), a[1..], b, i + 1);
    }
  }

  lemma RunSnoc(text: string, n: nat)
    requires n < |text|
    ensures Run(Init(), text[..n + 1], 0) == Step(Run(Init(), text[..n], 0), text[n], n)
  {
    assert text[..n + 1] == text[..n] + [text[n]];
    RunConcat(Init(), text[..n], [text[n]], 0);
    assert Run(Run(Init(), text[..n], 0), [text[n]], n) == Run(Step(Run(Init(), text[..n], 0), text[n], n), "", n + 1);
  }

  function Spans(text: string): seq<Span> { Run(Init(), text, 0).out }

  // ----- Any text -----

  /** The reference reading of text[a..n]: brace depth outside strings, from scratch. */
  datatype Lexed = Lexed(depth: int, inString: bool, escape: bool)

  function Lex(text: string, a: nat, n: nat): Lexed
    requires a <= n <= |text|
  {
    if n == a then Lexed(0, false, false)
    else
      var l, c := Lex(text, a, n - 1), text[n - 1];
      if l.inString then Lexed(l.depth, l.escape || c != '"', !l.escape && c == '\\')
      else Lexed(if c == '{' then l.depth + 1 else if c == '}' then l.depth - 1 else l.depth, c == '"', false)
  }

  /** text[a..b] opens with a brace and its depth outside strings first reaches zero at its last byte. */
  ghost predicate Balanced(text: string, a: nat, b: nat) {
    && a < b <= |text| && text[a] == '{'
    && Lex(text, a, b) == Lexed(0, false, false)
    && forall n :: a < n < b ==> Lex(text, a, n).depth > 0
  }

  /** Balanced, disjoint, in order, and within the first n bytes. */
  ghost predicate SpansOk(text: string, n: nat, out: seq<Span>) {
    && (forall i :: 0 <= i < |out| ==> Balanced(text, out[i].0, out[i].1) && out[i].1 <= n)
    && (forall i, j :: 0 <= i < j < |out| ==> out[i].1 <= out[j].0)
  }

  /** The object being read: the reference reading from its start agrees with the variables. */
  ghost predicate OpenOk(text: string, n: nat, st: State)
    requires n <= |text|
  {
    && 0 <= st.start < n && text[st.start] == '{'
    && Lex(text, st.start, n) == Lexed(st.depth, st.inString, st.escape)
    && (forall m :: st.start < m <= n ==> Lex(text, st.start, m).depth > 0)
    && (forall i :: 0 <= i < |st.out| ==> st.out[i].1 <= st.start)
  }

  /** What the scanner has established after n bytes. */
  ghost predicate ScanInvariant(text: string, n: nat, st: State)
    requires n <= |text|
  {
    && SpansOk(text, n, st.out)
    && (if st.depth == 0 then st.start == -1 else OpenOk(text, n, st))
    && (!st.inString ==> !st.escape)
  }

  lemma OpenStep(text: string, n: nat, st: State)
    requires n < |text| && st.depth > 0 && OpenOk(text, n, st) && (!st.inString ==> !st.escape)
    ensures var st' := Step(st, text[n], n);
            if st'.depth > 0 then OpenOk(text, n + 1, st')
            else st'.out == st.out + [(st.start as nat, n + 1)] && Balanced(text, st.start, n + 1)
  {
    var a, st' := st.start as nat, Step(st, text[n], n);
    assert Lex(text, a, n + 1) == Lexed(st'.depth, st'.inString, st'.escape);
    if st'.depth > 0 {
      forall m | a < m <= n + 1 ensures Lex(text, a, m).depth > 0 {
      }
    }
  }

  lemma OpenFresh(text: string, n: nat)
    requires n < |text| && text[n] == '{'
    ensures Lex(text, n, n + 1) == Lexed(1, false, false)
  {
    assert Lex(text, n, n) == Lexed(0, false, false);
  }

  lemma StepKeepsInvariant(text: string, n: nat, st: State)
    requires n < |text| && ScanInvariant(text, n, st)
    ensures ScanInvariant(text, n + 1, Step(st, text[n], n))
  {
    if st.depth > 0 {
      OpenStep(text, n, st);
    } else if !st.inString && text[n] == '{' {
      OpenFresh(text, n);
    }
  }

  /** Whatever the text, the spans found are disjoint, in order, and balanced. */
  lemma {:induction false} SpansAreBalanced(text: string, n: nat)
    requires n <= |text|
    ensures ScanInvariant(text, n, Run(Init(), text[..n], 0))
  {
    if n > 0 {
      SpansAreBalanced(text, n - 1);
      RunSnoc(text, n - 1);
      StepKeepsInvariant(text, n - 1, Run(Init(), text[..n - 1], 0));
    }
  }

  function Texts(text: string, spans: seq<Span>): (r: seq<string>)
    ensures |r| == |spans|
  {
    if spans == [] then []
    else
      var s := spans[|spans| - 1];
      Texts(text, spans[..|spans| - 1]) + [if s.0 <= s.1 <= |text| then text[s.0..s.1] else ""]
  }

  lemma TextsSnoc(text: string, spans: seq<Span>, a: nat, b: nat)
    requires a <= b <= |text|
    ensures Texts(text, spans + [(a, b)]) == Texts(text, spans) + [text[a..b]]
  {
    assert (spans + [(a, b)])[..|spans|] == spans;
  }

  method ScanJsonObjects(text: string) returns (out: seq<string>)
    ensures out == Texts(text, Spans(text))
    ensures forall i :: 0 <= i < |Spans(text)| ==> Balanced(text, Spans(text)[i].0, Spans(text)[i].1)
    ensures forall i, j :: 0 <= i < j < |Spans(text)| ==> Spans(text)[i].1 <= Spans(text)[j].0
  {
    out := [];
    var depth, start, inString, escape := 0, -1, false, false;
    ghost var spans: seq<Span> := [];
    for i := 0 to |text|
      invariant 0 <= depth && -1 <= start <= i
      invariant Run(Init(), text[..i], 0) == State(depth, start, inString, escape, spans)
      invariant out == Texts(text, spans)
    {
      var c := text[i];
      RunSnoc(text, i);
      if inString {
        if escape {
          escape := false;
          continue;
        }
        if c == '\\' {
          escape := true;
        } else if c == '"' {
          inString := false;
        }
        continue;
      }
      if c == '"' {
        inString := true;
      } else if c == '{' {
        if depth == 0 {
          start := i;
        }
        depth := depth + 1;
      } else if c == '}' {
        if depth == 0 {
          continue;
        }
        depth := depth - 1;
        if depth == 0 && start >= 0 {
          TextsSnoc(text, spans, start, i + 1);
          spans := spans + [(start, i + 1)];
          out := out + [text[start..i + 1]];
          start := -1;
        }
      }
    }
    assert text[..|text|] == text;
    SpansAreBalanced(text, |text|);
  }

  // ----- Well-formed objects in prose -----

  /** A character of a string literal: itself, or any character after a backslash. */
  datatype Tok = Plain(c: char) | Escaped(c: char)

  /** The inside of an object: other text, string literals and nested objects. */
  datatype Item = Other(c: char) | Str(toks: seq<Tok>) | Obj(items: seq<Item>)

  predicate WellFormedTok(t: Tok) { t.Plain? ==> t.c != '"' && t.c != '\\' }

  predicate WellFormed(it: Item) {
    match it
    case Other(c) => c != '"' && c != '{' && c != '}'
    case Str(toks) => forall t :: t in toks ==> WellFormedTok(t)
    case Obj(items) => forall i :: 0 <= i < |items| ==> WellFormed(items[i])
  }

  function PrintTok(t: Tok): string { if t.Plain? then [t.c] else ['\\', t.c] }

  function PrintToks(toks: seq<Tok>): string {
    if toks == [] then "" else PrintTok(toks[0]) + PrintToks(toks[1..])
  }

  function PrintItem(it: Item): string
    decreases it, 1
  {
    match it
    case Other(c) => [c]
    case Str(toks) => "\"" + (PrintToks(toks) + "\"")
    case Obj(items) => "{" + (PrintItems(items) + "}")
  }

  function PrintItems(items: seq<Item>): string
    decreases items, 0
  {
    if items == [] then "" else PrintItem(items[0]) + PrintItems(items[1..])
  }

  function PrintObject(items: seq<Item>): (r: string)
    ensures |r| >= 2
  {
    "{" + (PrintItems(items) + "}")
  }

  lemma RunCons(st: State, c: char, rest: string, i: nat)
    ensures Run(st, [c] + rest, i) == Run(Step(st, c, i), rest, i + 1)
  {
    assert ([c] + rest)[1..] == rest;
  }

  lemma RunOne(st: State, c: char, i: nat)
    ensures Run(st, [c], i) == Step(st, c, i)
  {
    assert [c][1..] == "";
    assert Run(Step(st, c, i), "", i + 1) == Step(st, c, i);
  }

  lemma {:induction false} ToksKeep(st: State, toks: seq<Tok>, i: nat)
    requires st.inString && !st.escape && forall t :: t in toks ==> WellFormedTok(t)
    ensures Run(st, PrintToks(toks), i) == st
    decreases |toks|
  {
    if toks != [] {
      var t := toks[0];
      assert t in toks;
      RunConcat(st, PrintTok(t), PrintToks(toks[1..]), i);
      if t.Plain? {
        RunOne(st, t.c, i);
      } else {
        assert PrintTok(t) == ['\\'] + [t.c];
        RunCons(st, '\\', [t.c], i);
        RunOne(st.(escape := true), t.c, i + 1);
      }
      ToksKeep(st, toks[1..], i + |PrintTok(t)|);
    }
  }

  /** Inside an object, a well-formed item leaves the scanner where it was. */
  lemma {:induction false} ItemKeeps(st: State, it: Item, i: nat)
    requires WellFormed(it) && !st.inString && !st.escape && st.depth > 0
    ensures Run(st, PrintItem(it), i) == st
    decreases it, 1
  {
    match it
    case Other(c) => RunOne(st, c, i);
    case Str(toks) =>
      var open := st.(inString := true);
      RunCons(st, '"', PrintToks(toks) + "\"", i);
      RunConcat(open, PrintToks(toks), "\"", i + 1);
      ToksKeep(open, toks, i + 1);
      RunOne(open, '"', i + 1 + |PrintToks(toks)|);
    case Obj(items) =>
      var open := st.(depth := st.depth + 1);
      RunCons(st, '{', PrintItems(items) + "}", i);
      RunConcat(open, PrintItems(items), "}", i + 1);
      ItemsKeep(open, items, i + 1);
      RunOne(open, '}', i + 1 + |PrintItems(items)|);
  }

  lemma {:induction false} ItemsKeep(st: State, items: seq<Item>, i: nat)
    requires (forall k :: 0 <= k < |items| ==> WellFormed(items[k])) && !st.inString && !st.escape && st.depth > 0
    ensures Run(st, PrintItems(items), i) == st
    decreases items, 0
  {
    if items != [] {
      RunConcat(st, PrintItem(items[0]), PrintItems(items[1..]), i);
      ItemKeeps(st, items[0], i);
      ItemsKeep(st, items[1..], i + |PrintItem(items[0])|);
    }
  }

  /** Between objects. */
  predicate Outside(st: State) { st.depth == 0 && st.start == -1 && !st.inString && !st.escape }

  predicate WellFormedItems(items: seq<Item>) { forall k :: 0 <= k < |items| ==> WellFormed(items[k]) }

  lemma ObjectEmits(st: State, items: seq<Item>, i: nat)
    requires Outside(st) && WellFormedItems(items)
    ensures Run(st, PrintObject(items), i) == st.(out := st.out + [(i, i + |PrintObject(items)|)])
  {
    var open := st.(depth := 1, start := i);
    RunCons(st, '{', PrintItems(items) + "}", i);
    RunConcat(open, PrintItems(items), "}", i + 1);
    ItemsKeep(open, items, i + 1);
    RunOne(open, '}', i + 1 + |PrintItems(items)|);
  }

  // ----- Whole replies -----

  predicate IsProseItem(it: Item) {
    match it
    case Other(c) => c != '"' && c != '{'
    case Str(_) => WellFormed(it)
    case Obj(_) => false
  }

  /** Text between objects: anything but opening braces, with its string literals closed. */
  predicate IsProse(p: seq<Item>) { forall i :: 0 <= i < |p| ==> IsProseItem(p[i]) }

  /** Objects, each after some prose; more prose may follow the last one. */
  datatype Piece = Piece(prose: seq<Item>, body: seq<Item>)

  predicate WellFormedPieces(ps: seq<Piece>) {
    forall i :: 0 <= i < |ps| ==> IsProse(ps[i].prose) && WellFormedItems(ps[i].body)
  }

  /** What a text may leave open at its end: a string literal, perhaps in the middle of an
      escape, or an object, with whatever is open inside it. */
  datatype Tail = Closed | OpenStr(toks: seq<Tok>, escaping: bool) | OpenObj(items: seq<Item>, inner: Tail)

  predicate WellFormedTail(t: Tail) {
    match t
    case Closed => true
    case OpenStr(toks, _) => forall t :: t in toks ==> WellFormedTok(t)
    case OpenObj(items, inner) => WellFormedItems(items) && WellFormedTail(inner)
  }

  function PrintTail(t: Tail): string {
    match t
    case Closed => ""
    case OpenStr(toks, escaping) => "\"" + (PrintToks(toks) + (if escaping then "\\" else ""))
    case OpenObj(items, inner) => "{" + (PrintItems(items) + PrintTail(inner))
  }

  function PrintReply(pieces: seq<Piece>, last: seq<Item>, tail: Tail): string {
    if pieces == [] then PrintItems(last) + PrintTail(tail)
    else PrintItems(pieces[0].prose) + (PrintObject(pieces[0].body) + PrintReply(pieces[1..], last, tail))
  }

  function ObjectsOf(pieces: seq<Piece>): (r: seq<string>)
    ensures |r| == |pieces|
  {
    if pieces == [] then [] else [PrintObject(pieces[0].body)] + ObjectsOf(pieces[1..])
  }

  function PieceSpans(pieces: seq<Piece>, i: nat): seq<Span> {
    if pieces == [] then []
    else
      var a := i + |PrintItems(pieces[0].prose)|;
      var b := a + |PrintObject(pieces[0].body)|;
      [(a, b)] + PieceSpans(pieces[1..], b)
  }

  lemma StringKeeps(st: State, toks: seq<Tok>, i: nat)
    requires !st.inString && !st.escape && forall t :: t in toks ==> WellFormedTok(t)
    ensures Run(st, PrintItem(Str(toks)), i) == st
  {
    var open := st.(inString := true);
    RunCons(st, '"', PrintToks(toks) + "\"", i);
    RunConcat(open, PrintToks(toks), "\"", i + 1);
    ToksKeep(open, toks, i + 1);
    RunOne(open, '"', i + 1 + |PrintToks(toks)|);
  }

  lemma {:induction false} ProseKeeps(st: State, p: seq<Item>, i: nat)
    requires Outside(st) && IsProse(p)
    ensures Run(st, PrintItems(p), i) == st
    decreases |p|
  {
    if p != [] {
      RunConcat(st, PrintItem(p[0]), PrintItems(p[1..]), i);
      match p[0] {
        case Other(c) => RunOne(st, c, i);
        case Str(toks) => StringKeeps(st, toks, i);
      }
      ProseKeeps(st, p[1..], i + |PrintItem(p[0])|);
    }
  }

  /** An open string literal is never left. */
  lemma OpenStringStays(st: State, toks: seq<Tok>, escaping: bool, i: nat)
    requires !st.inString && !st.escape && forall t :: t in toks ==> WellFormedTok(t)
    ensures Run(st, PrintTail(OpenStr(toks, escaping)), i) == st.(inString := true, escape := escaping)
  {
    var open, end := st.(inString := true), if escaping then "\\" else "";
    RunCons(st, '"', PrintToks(toks) + end, i);
    RunConcat(open, PrintToks(toks), end, i + 1);
    ToksKeep(open, toks, i + 1);
    if escaping {
      RunOne(open, '\\', i + 1 + |PrintToks(toks)|);
    }
  }

  /** An open tail emits nothing and leaves the scanner inside an object or a string. */
  lemma {:induction false} TailStays(st: State, t: Tail, i: nat)
    requires !st.inString && !st.escape && WellFormedTail(t)
    ensures var e := Run(st, PrintTail(t), i);
            && e.out == st.out && e.depth >= st.depth
            && (if t.Closed? then e == st else e.inString || e.depth > st.depth)
    decreases t
  {
    match t
    case Closed =>
    case OpenStr(toks, escaping) => OpenStringStays(st, toks, escaping, i);
    case OpenObj(items, inner) =>
      var open := st.(start := if st.depth == 0 then i else st.start, depth := st.depth + 1);
      RunCons(st, '{', PrintItems(items) + PrintTail(inner), i);
      RunConcat(open, PrintItems(items), PrintTail(inner), i + 1);
      ItemsKeep(open, items, i + 1);
      TailStays(open, inner, i + 1 + |PrintItems(items)|);
  }

  lemma LastRuns(st: State, last: seq<Item>, tail: Tail, i: nat)
    requires Outside(st) && IsProse(last) && WellFormedTail(tail)
    ensures var e := Run(st, PrintItems(last) + PrintTail(tail), i);
            e.out == st.out && (Outside(e) <==> tail.Closed?)
  {
    RunConcat(st, PrintItems(last), PrintTail(tail), i);
    ProseKeeps(st, last, i);
    TailStays(st, tail, i + |PrintItems(last)|);
  }

  lemma SpansCons(out: seq<Span>, span: Span, pieces: seq<Piece>, i: nat)
    requires pieces != [] && span.0 == i + |PrintItems(pieces[0].prose)|
    requires span.1 == span.0 + |PrintObject(pieces[0].body)|
    ensures out + [span] + PieceSpans(pieces[1..], span.1) == out + PieceSpans(pieces, i)
  {
  }

  lemma PieceRuns(st: State, p: Piece, rest: string, i: nat)
    requires Outside(st) && IsProse(p.prose) && WellFormedItems(p.body)
    ensures var a := i + |PrintItems(p.prose)|;
            var b := a + |PrintObject(p.body)|;
            Run(st, PrintItems(p.prose) + (PrintObject(p.body) + rest), i) ==
            Run(st.(out := st.out + [(a, b)]), rest, b)
  {
    var prose, body := PrintItems(p.prose), PrintObject(p.body);
    RunConcat(st, prose, body + rest, i);
    ProseKeeps(st, p.prose, i);
    RunConcat(st, body, rest, i + |prose|);
    ObjectEmits(st, p.body, i + |prose|);
  }

  /** The scanner's state after a printed reply. */
  lemma {:induction false} ReplyRuns(st: State, pieces: seq<Piece>, last: seq<Item>, tail: Tail, i: nat)
    requires Outside(st) && IsProse(last) && WellFormedPieces(pieces) && WellFormedTail(tail)
    ensures var e := Run(st, PrintReply(pieces, last, tail), i);
            e.out == st.out + PieceSpans(pieces, i) && (Outside(e) <==> tail.Closed?)
    decreases |pieces|
  {
    if pieces == [] {
      LastRuns(st, last, tail, i);
    } else {
      var p, rest := pieces[0], PrintReply(pieces[1..], last, tail);
      var a := i + |PrintItems(p.prose)|;
      var span := (a, a + |PrintObject(p.body)|);
      PieceRuns(st, p, rest, i);
      var st' := st.(out := st.out + [span]);
      ReplyRuns(st', pieces[1..], last, tail, span.1);
      assert Run(st, PrintReply(pieces, last, tail), i) == Run(st', rest, span.1);
      SpansCons(st.out, span, pieces, i);
    }
  }

  lemma {:induction false} TextsFront(text: string, a: seq<Span>, b: seq<Span>)
    ensures Texts(text, a + b) == Texts(text, a) + Texts(text, b)
    decreases |b|
  {
    if b == [] {
      assert a + b == a;
    } else {
      var n := |b| - 1;
      assert (a + b)[..|a + b| - 1] == a + b[..n];
      TextsFront(text, a, b[..n]);
    }
  }

  lemma Middle(before: string, prose: string, body: string, rest: string)
    ensures var text, a := before + (prose + (body + rest)), |before| + |prose|;
            text == before + prose + body + rest && text[a..a + |body|] == body
  {
  }

  lemma OneText(text: string, a: nat, b: nat)
    requires a <= b <= |text|
    ensures Texts(text, [(a, b)]) == [text[a..b]]
  {
    var one: seq<Span> := [(a, b)];
    assert one[..0] == [];
  }

  lemma {:induction false} ReplyTexts(before: string, pieces: seq<Piece>, last: seq<Item>, tail: Tail, text: string)
    requires text == before + PrintReply(pieces, last, tail)
    ensures Texts(text, PieceSpans(pieces, |before|)) == ObjectsOf(pieces)
    decreases |pieces|
  {
    if pieces != [] {
      var prose, body := PrintItems(pieces[0].prose), PrintObject(pieces[0].body);
      Middle(before, prose, body, PrintReply(pieces[1..], last, tail));
      var a, before' := |before| + |prose|, before + prose + body;
      ReplyTexts(before', pieces[1..], last, tail, text);
      OneText(text, a, a + |body|);
      TextsFront(text, [(a, a + |body|)], PieceSpans(pieces[1..], |before'|));
      assert Texts(text, [(a, a + |body|)]) == [body];
    }
  }

  /** Scanning a printed reply returns exactly its closed objects, in order. */
  lemma ScanInvertsPrinting(pieces: seq<Piece>, last: seq<Item>, tail: Tail)
    requires IsProse(last) && WellFormedPieces(pieces) && WellFormedTail(tail)
    ensures var text := PrintReply(pieces, last, tail); Texts(text, Spans(text)) == ObjectsOf(pieces)
  {
    ReplyRuns(Init(), pieces, last, tail, 0);
    assert [] + PieceSpans(pieces, 0) == PieceSpans(pieces, 0);
    ReplyTexts("", pieces, last, tail, PrintReply(pieces, last, tail));
  }

  // ----- Every text is a reply -----

  /** The inside of a string literal up to its closing quote, or up to the end of the text. */
  datatype Literal = Ended(toks: seq<Tok>, rest: string) | Unended(toks: seq<Tok>, escaping: bool)

  predicate LiteralOf(s: string, l: Literal) {
    && (forall t :: t in l.toks ==> WellFormedTok(t))
    && match l
       case Ended(toks, rest) => s == PrintToks(toks) + ("\"" + rest) && |rest| < |s|
       case Unended(toks, escaping) => s == PrintToks(toks) + (if escaping then "\\" else "")
  }

  function ConsTok(tok: Tok, l: Literal): Literal {
    match l
    case Ended(toks, rest) => Ended([tok] + toks, rest)
    case Unended(toks, escaping) => Unended([tok] + toks, escaping)
  }

  lemma TokInFront(s: string, tok: Tok, rest: string, l: Literal)
    requires s == PrintTok(tok) + rest && WellFormedTok(tok) && LiteralOf(rest, l)
    ensures LiteralOf(s, ConsTok(tok, l))
  {
    assert ([tok] + l.toks)[1..] == l.toks;
    var end := if l.Ended? then "\"" + l.rest else if l.escaping then "\\" else "";
    assert rest == PrintToks(l.toks) + end;
    Sequences.Assoc(PrintTok(tok), PrintToks(l.toks), end);
  }

  lemma {:induction false} SplitLiteral(s: string) returns (l: Literal)
    ensures LiteralOf(s, l)
    decreases |s|
  {
    if s == "" {
      l := Unended([], false);
    } else if s[0] == '"' {
      l := Ended([], s[1..]);
      assert s == "\"" + s[1..];
    } else if s == "\\" {
      l := Unended([], true);
    } else {
      var tok := if s[0] == '\\' then Escaped(s[1]) else Plain(s[0]);
      var rest := s[|PrintTok(tok)|..];
      var more := SplitLiteral(rest);
      assert s == PrintTok(tok) + rest;
      l := ConsTok(tok, more);
      TokInFront(s, tok, rest, more);
    }
  }

  /** The inside of an object up to its closing brace, or up to the end of the text. */
  datatype Inside = Shut(items: seq<Item>, rest: string) | Unshut(items: seq<Item>, inner: Tail)

  predicate InsideOf(s: string, n: Inside) {
    && WellFormedItems(n.items)
    && match n
       case Shut(items, rest) => s == PrintItems(items) + ("}" + rest) && |rest| < |s|
       case Unshut(items, inner) => s == PrintItems(items) + PrintTail(inner) && WellFormedTail(inner)
  }

  function ConsItem(it: Item, n: Inside): Inside {
    match n
    case Shut(items, rest) => Shut([it] + items, rest)
    case Unshut(items, inner) => Unshut([it] + items, inner)
  }

  lemma ItemInFront(s: string, it: Item, rest: string, n: Inside)
    requires s == PrintItem(it) + rest && WellFormed(it) && InsideOf(rest, n)
    ensures InsideOf(s, ConsItem(it, n))
  {
    assert ([it] + n.items)[1..] == n.items;
    var end := if n.Shut? then "}" + n.rest else PrintTail(n.inner);
    Sequences.Assoc(PrintItem(it), PrintItems(n.items), end);
  }

  lemma QuoteItem(s: string, toks: seq<Tok>, rest: string)
    requires s != "" && s[0] == '"' && s[1..] == PrintToks(toks) + ("\"" + rest)
    ensures s == PrintItem(Str(toks)) + rest
  {
    assert s == "\"" + s[1..];
  }

  lemma BraceItem(s: string, items: seq<Item>, rest: string)
    requires s != "" && s[0] == '{' && s[1..] == PrintItems(items) + ("}" + rest)
    ensures s == PrintObject(items) + rest && PrintObject(items) == PrintItem(Obj(items))
  {
    assert s == "{" + s[1..];
  }

  lemma {:induction false} SplitInside(s: string) returns (n: Inside)
    ensures InsideOf(s, n)
    decreases |s|
  {
    if s == "" {
      n := Unshut([], Closed);
    } else if s[0] == '}' {
      n := Shut([], s[1..]);
      assert s == "}" + s[1..];
    } else if s[0] == '"' {
      var l := SplitLiteral(s[1..]);
      match l {
        case Ended(toks, rest) =>
          QuoteItem(s, toks, rest);
          var more := SplitInside(rest);
          n := ConsItem(Str(toks), more);
          ItemInFront(s, Str(toks), rest, more);
        case Unended(toks, escaping) =>
          n := Unshut([], OpenStr(toks, escaping));
          assert s == "\"" + s[1..];
      }
    } else if s[0] == '{' {
      var sub := SplitInside(s[1..]);
      match sub {
        case Shut(items, rest) =>
          BraceItem(s, items, rest);
          var more := SplitInside(rest);
          n := ConsItem(Obj(items), more);
          ItemInFront(s, Obj(items), rest, more);
        case Unshut(items, inner) =>
          n := Unshut([], OpenObj(items, inner));
          assert s == "{" + s[1..];
      }
    } else {
      var more := SplitInside(s[1..]);
      n := ConsItem(Other(s[0]), more);
      assert s == PrintItem(Other(s[0])) + s[1..];
      ItemInFront(s, Other(s[0]), s[1..], more);
    }
  }

  datatype Reply = Reply(pieces: seq<Piece>, last: seq<Item>, tail: Tail)

  predicate ReplyOf(s: string, r: Reply) {
    && IsProse(r.last) && WellFormedPieces(r.pieces) && WellFormedTail(r.tail)
    && s == PrintReply(r.pieces, r.last, r.tail)
  }

  /** One more item of prose in front. */
  function ConsProse(it: Item, r: Reply): Reply {
    if r.pieces == [] then r.(last := [it] + r.last)
    else r.(pieces := [Piece([it] + r.pieces[0].prose, r.pieces[0].body)] + r.pieces[1..])
  }

  lemma ProseInFront(s: string, it: Item, rest: string, r: Reply)
    requires s == PrintItem(it) + rest && ReplyOf(rest, r) && IsProse([it])
    ensures ReplyOf(s, ConsProse(it, r))
  {
    var prose := if r.pieces == [] then r.last else r.pieces[0].prose;
    assert IsProse([it] + prose) by {
      assert [it][0] == it;
    }
    assert ([it] + prose)[1..] == prose;
    if r.pieces == [] {
      Sequences.Assoc(PrintItem(it), PrintItems(prose), PrintTail(r.tail));
    } else {
      var more := PrintObject(r.pieces[0].body) + PrintReply(r.pieces[1..], r.last, r.tail);
      Sequences.Assoc(PrintItem(it), PrintItems(prose), more);
      assert ConsProse(it, r).pieces[1..] == r.pieces[1..];
    }
  }

  lemma PieceInFront(s: string, items: seq<Item>, rest: string, r: Reply)
    requires s == PrintObject(items) + rest && ReplyOf(rest, r) && WellFormedItems(items)
    ensures ReplyOf(s, r.(pieces := [Piece([], items)] + r.pieces))
  {
    var pieces := [Piece([], items)] + r.pieces;
    assert pieces[1..] == r.pieces;
    assert PrintItems([]) + s == s;
  }

  lemma OpenReply(s: string, t: Tail)
    requires s != "" && WellFormedTail(t) && PrintTail(t) == [s[0]] + s[1..]
    ensures ReplyOf(s, Reply([], [], t))
  {
    assert s == [s[0]] + s[1..];
    assert PrintItems([]) + PrintTail(t) == s;
  }

  /** Every text is objects in prose, then prose, then what it leaves open. */
  lemma {:induction false} EveryTextIsReply(s: string) returns (r: Reply)
    ensures ReplyOf(s, r)
    decreases |s|
  {
    if s == "" {
      r := Reply([], [], Closed);
    } else if s[0] == '"' {
      var l := SplitLiteral(s[1..]);
      match l {
        case Ended(toks, rest) =>
          QuoteItem(s, toks, rest);
          var more := EveryTextIsReply(rest);
          r := ConsProse(Str(toks), more);
          ProseInFront(s, Str(toks), rest, more);
        case Unended(toks, escaping) =>
          r := Reply([], [], OpenStr(toks, escaping));
          OpenReply(s, r.tail);
      }
    } else if s[0] == '{' {
      var sub := SplitInside(s[1..]);
      match sub {
        case Shut(items, rest) =>
          BraceItem(s, items, rest);
          var more := EveryTextIsReply(rest);
          r := more.(pieces := [Piece([], items)] + more.pieces);
          PieceInFront(s, items, rest, more);
        case Unshut(items, inner) =>
          r := Reply([], [], OpenObj(items, inner));
          OpenReply(s, r.tail);
      }
    } else {
      var more := EveryTextIsReply(s[1..]);
      r := ConsProse(Other(s[0]), more);
      assert s == PrintItem(Other(s[0])) + s[1..];
      ProseInFront(s, Other(s[0]), s[1..], more);
    }
  }

  // ----- When an object is found -----

  /** Every span, and the object being read, began where the scanner was between objects. */
  ghost predicate Origins(text: string, n: nat, st: State)
    requires n <= |text|
  {
    && (forall i :: 0 <= i < |st.out| ==> st.out[i].0 <= n && Outside(Run(Init(), text[..st.out[i].0], 0)))
    && (st.depth > 0 ==> 0 <= st.start <= n && Outside(Run(Init(), text[..st.start], 0)))
  }

  lemma {:induction false} SpansBeginOutside(text: string, n: nat)
    requires n <= |text|
    ensures Origins(text, n, Run(Init(), text[..n], 0))
  {
    if n > 0 {
      SpansBeginOutside(text, n - 1);
      SpansAreBalanced(text, n - 1);
      RunSnoc(text, n - 1);
    }
  }

  lemma {:induction false} OutGrows(st: State, s: string, i: nat)
    ensures st.out <= Run(st, s, i).out
    decreases |s|
  {
    if s != "" {
      OutGrows(Step(st, s[0], i), s[1..], i + 1);
    }
  }

  /** A span just emitted stays. */
  lemma FoundIn(out: seq<Span>, x: Span, st: State, after: string, i: nat)
    requires st.out == out + [x]
    ensures x in Run(st, after, i).out
  {
    OutGrows(st, after, i);
    assert Run(st, after, i).out[|out|] == st.out[|out|];
  }

  lemma SpansInThree(before: string, body: string, after: string)
    ensures var st := Run(Run(Init(), before, 0), body, |before|);
            Spans(before + (body + after)) == Run(st, after, |before| + |body|).out
  {
    RunConcat(Init(), before, body + after, 0);
    RunConcat(Run(Init(), before, 0), body, after, |before|);
  }

  lemma FoundAfter(before: string, items: seq<Item>, after: string)
    requires Outside(Run(Init(), before, 0)) && WellFormedItems(items)
    ensures (|before|, |before| + |PrintObject(items)|) in Spans(before + (PrintObject(items) + after))
  {
    var body, st := PrintObject(items), Run(Init(), before, 0);
    ObjectEmits(st, items, |before|);
    SpansInThree(before, body, after);
    FoundIn(st.out, (|before|, |before| + |body|), Run(st, body, |before|), after, |before| + |body|);
  }

  lemma BeginsOutside(before: string, after: string, b: nat)
    requires (|before|, b) in Spans(before + after)
    ensures Outside(Run(Init(), before, 0))
  {
    var text := before + after;
    SpansBeginOutside(text, |text|);
    assert text[..|text|] == text && text[..|before|] == before;
  }

  /** A well-formed object is found after a text exactly when the text leaves nothing open. */
  lemma FoundExactly(r: Reply, items: seq<Item>, after: string, before: string)
    requires ReplyOf(before, r) && WellFormedItems(items)
    ensures (|before|, |before| + |PrintObject(items)|) in Spans(before + (PrintObject(items) + after))
            <==> r.tail.Closed?
  {
    ReplyRuns(Init(), r.pieces, r.last, r.tail, 0);
    if r.tail.Closed? {
      FoundAfter(before, items, after);
    } else if (|before|, |before| + |PrintObject(items)|) in Spans(before + (PrintObject(items) + after)) {
      BeginsOutside(before, PrintObject(items) + after, |before| + |PrintObject(items)|);
      assert false;
    }
  }

  // ----- Choosing the verdict -----

  /** What decoding a candidate gives: a verdict, no score, or an error. */
  datatype Decoded = Verdict(score: Floats.Float, rationale: string) | NoScore | Bad(error: string)

  datatype Parsed = Found(score: Floats.Float, rationale: string) | DecodeError(error: string) | NoVerdict

  /** The first verdict among the candidates, else the first error, else nothing. */
  function Choose(candidates: seq<string>, decode: string -> Decoded, firstErr: Parsed): Parsed
    requires !firstErr.Found?
    decreases |candidates|
  {
    if candidates == [] then firstErr
    else
      match decode(candidates[0])
      case Verdict(s, r) => Found(s, r)
      case NoScore => Choose(candidates[1..], decode, firstErr)
      case Bad(e) => Choose(candidates[1..], decode, if firstErr.NoVerdict? then DecodeError(e) else firstErr)
  }

  method ParseVerdict(text: string, decode: string -> Decoded) returns (r: Parsed)
    ensures r == Choose(Texts(text, Spans(text)), decode, NoVerdict)
  {
    var candidates := ScanJsonObjects(text);
    var firstErr := NoVerdict;
    for i := 0 to |candidates|
      invariant !firstErr.Found?
      invariant Choose(candidates, decode, NoVerdict) == Choose(candidates[i..], decode, firstErr)
    {
      assert candidates[i..][1..] == candidates[i + 1..];
      match decode(candidates[i]) {
        case Verdict(s, why) => return Found(s, why);
        case NoScore =>
        case Bad(e) =>
          if firstErr.NoVerdict? {
            firstErr := DecodeError(e);
          }
      }
    }
    return firstErr;
  }

  lemma {:induction false} ChooseFirst(candidates: seq<string>, decode: string -> Decoded, firstErr: Parsed, k: nat)
    requires !firstErr.Found? && k < |candidates| && decode(candidates[k]).Verdict?
    requires forall j :: 0 <= j < k ==> !decode(candidates[j]).Verdict?
    ensures Choose(candidates, decode, firstErr) == Found(decode(candidates[k]).score, decode(candidates[k]).rationale)
    decreases k
  {
    if k > 0 {
      var d := decode(candidates[0]);
      var e := if d.Bad? && firstErr.NoVerdict? then DecodeError(d.error) else firstErr;
      ChooseFirst(candidates[1..], decode, e, k - 1);
    }
  }

  /** The first error that decoding the candidates gives, or nothing when there is none. */
  ghost predicate IsFirstError(candidates: seq<string>, decode: string -> Decoded, r: Parsed) {
    if forall j :: 0 <= j < |candidates| ==> !decode(candidates[j]).Bad? then r == NoVerdict
    else exists k :: 0 <= k < |candidates| && decode(candidates[k]).Bad? &&
                     r == DecodeError(decode(candidates[k]).error) &&
                     forall j :: 0 <= j < k ==> !decode(candidates[j]).Bad?
  }

  lemma FirstErrorCons(candidates: seq<string>, decode: string -> Decoded, r: Parsed)
    requires candidates != [] && !decode(candidates[0]).Bad? && IsFirstError(candidates[1..], decode, r)
    ensures IsFirstError(candidates, decode, r)
  {
    var rest := candidates[1..];
    assert forall j :: 0 < j < |candidates| ==> candidates[j] == rest[j - 1];
    if j :| 0 <= j < |rest| && decode(rest[j]).Bad? {
      var k :| 0 <= k < |rest| && decode(rest[k]).Bad? && r == DecodeError(decode(rest[k]).error) &&
               forall j :: 0 <= j < k ==> !decode(rest[j]).Bad?;
      assert decode(candidates[k + 1]).Bad?;
    }
  }

  /** Without a verdict among the candidates the error kept stays, or is the first one that
      decoding them gives. */
  lemma {:induction false} ChooseError(candidates: seq<string>, decode: string -> Decoded, firstErr: Parsed)
    requires !firstErr.Found? && forall j :: 0 <= j < |candidates| ==> !decode(candidates[j]).Verdict?
    ensures firstErr.DecodeError? ==> Choose(candidates, decode, firstErr) == firstErr
    ensures firstErr.NoVerdict? ==> IsFirstError(candidates, decode, Choose(candidates, decode, firstErr))
    decreases |candidates|
  {
    if candidates != [] {
      var d := decode(candidates[0]);
      ChooseError(candidates[1..], decode, if d.Bad? && firstErr.NoVerdict? then DecodeError(d.error) else firstErr);
      if d.NoScore? && firstErr.NoVerdict? {
        FirstErrorCons(candidates, decode, Choose(candidates[1..], decode, firstErr));
      }
    }
  }

  /** In a printed reply, the verdict is the first object that decodes as one,
      whatever objects and prose surround it. */
  lemma VerdictOfReply(pieces: seq<Piece>, last: seq<Item>, tail: Tail, decode: string -> Decoded, k: nat)
    requires IsProse(last) && WellFormedPieces(pieces) && WellFormedTail(tail)
    requires k < |pieces|
    requires decode(ObjectsOf(pieces)[k]).Verdict?
    requires forall j :: 0 <= j < k ==> !decode(ObjectsOf(pieces)[j]).Verdict?
    ensures var text, d := PrintReply(pieces, last, tail), decode(ObjectsOf(pieces)[k]);
            Choose(Texts(text, Spans(text)), decode, NoVerdict) == Found(d.score, d.rationale)
  {
    ScanInvertsPrinting(pieces, last, tail);
    ChooseFirst(ObjectsOf(pieces), decode, NoVerdict, k);
  }

  /** A printed reply without an object that decodes as a verdict gives its first decode error,
      or nothing when no object gives one. */
  lemma ErrorOfReply(pieces: seq<Piece>, last: seq<Item>, tail: Tail, decode: string -> Decoded)
    requires IsProse(last) && WellFormedPieces(pieces) && WellFormedTail(tail)
    requires forall j :: 0 <= j < |pieces| ==> !decode(ObjectsOf(pieces)[j]).Verdict?
    ensures var text := PrintReply(pieces, last, tail);
            IsFirstError(ObjectsOf(pieces), decode, Choose(Texts(text, Spans(text)), decode, NoVerdict))
  {
    ScanInvertsPrinting(pieces, last, tail);
    ChooseError(ObjectsOf(pieces), decode, NoVerdict);
  }
}
