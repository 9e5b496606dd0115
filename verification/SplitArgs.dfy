/** Splitting the argument list of a faker helper (pkg/data/generator.go), and the
    quoting printer it inverts. */
module SplitArgs {
  import Sequences
  import opened Text

  datatype State = State(cur: string, inQuote: bool, out: seq<string>)

  datatype Result = Args(args: seq<string>) | Unterminated

  /** The loop over raw: a backslash inside quotes takes the next character as it is. */
  function Run(st: State, raw: string): State
    decreases |raw|
  {
    if raw == "" then st
    else
      var c := raw[0];
      if c == '\\' && st.inQuote && |raw| > 1 then Run(st.(cur := st.cur + [raw[1]]), raw[2..])
      else if c == '"' then Run(st.(inQuote := !st.inQuote), raw[1..])
      else if c == ',' && !st.inQuote then Run(st.(out := st.out + [TrimSpace(st.cur)], cur := ""), raw[1..])
      else Run(st.(cur := st.cur + [c]), raw[1..])
  }

  predicate IsFakerArrayLiteral(raw: string) {
    |raw| >= 4 && raw[0] == '[' && raw[|raw| - 1] == ']' &&
    var inner := TrimSpace(raw[1..|raw| - 1]);
    inner != "" && inner[0] == '"' && inner[|inner| - 1] == '"'
  }

  function Strip(raw: string): string {
    var raw := TrimSpace(raw);
    if IsFakerArrayLiteral(raw) then TrimSpace(raw[1..|raw| - 1]) else raw
  }

  function Split(raw: string): Result {
    var raw := Strip(raw);
    if raw == "" then Args([])
    else
      var st := Run(State("", false, []), raw);
      if st.inQuote then Unterminated else Args(st.out + [TrimSpace(st.cur)])
  }

  /** One round of the loop at index i. */
  lemma RunAt(st: State, raw: string, i: nat)
    requires i < |raw|
    ensures var c := raw[i];
            Run(st, raw[i..]) ==
            if c == '\\' && st.inQuote && i + 1 < |raw| then Run(st.(cur := st.cur + [raw[i + 1]]), raw[i + 2..])
            else if c == '"' then Run(st.(inQuote := !st.inQuote), raw[i + 1..])
            else if c == ',' && !st.inQuote then
              Run(st.(out := st.out + [TrimSpace(st.cur)], cur := ""), raw[i + 1..])
            else Run(st.(cur := st.cur + [c]), raw[i + 1..])
  {
    assert raw[i..][1..] == raw[i + 1..];
    assert i + 1 < |raw| ==> raw[i..][2..] == raw[i + 2..];
  }

  method SplitArgs(raw0: string) returns (r: Result)
    ensures r == Split(raw0)
  {
    var raw := TrimSpace(raw0);
    if IsFakerArrayLiteral(raw) {
      raw := TrimSpace(raw[1..|raw| - 1]);
    }
    if raw == "" {
      return Args([]);
    }
    var out, cur, inQuote := [], "", false;
    var i := 0;
    while i < |raw|
      invariant 0 <= i <= |raw|
      invariant Run(State("", false, []), raw) == Run(State(cur, inQuote, out), raw[i..])
    {
      var c := raw[i];
      RunAt(State(cur, inQuote, out), raw, i);
      if c == '\\' && inQuote && i + 1 < |raw| {
        cur := cur + [raw[i + 1]];
        i := i + 1;
      } else if c == '"' {
        inQuote := !inQuote;
      } else if c == ',' && !inQuote {
        out := out + [TrimSpace(cur)];
        cur := "";
      } else {
        cur := cur + [c];
      }
      i := i + 1;
    }
    if inQuote {
      return Unterminated;
    }
    return Args(out + [TrimSpace(cur)]);
  }

  // ----- The quoting printer -----

  function EscapeChar(c: char): string { if c == '\\' || c == '"' then ['\\', c] else [c] }

  function Escape(arg: string): string {
    if arg == "" then "" else EscapeChar(arg[0]) + Escape(arg[1..])
  }

  function Quote(arg: string): (r: string)
    ensures |r| >= 2 && r[0] == '"' && r[|r| - 1] == '"'
  {
    "\"" + Escape(arg) + "\""
  }

  function PrintArgs(args: seq<string>): (r: string)
    requires args != []
    ensures |r| >= 2 && r[0] == '"' && r[|r| - 1] == '"'
  {
    if |args| == 1 then Quote(args[0]) else Quote(args[0]) + ("," + PrintArgs(args[1..]))
  }

  function Trimmed(args: seq<string>): (r: seq<string>)
    ensures |r| == |args| && forall i :: 0 <= i < |args| ==> r[i] == TrimSpace(args[i])
  {
    seq(|args|, i requires 0 <= i < |args| => TrimSpace(args[i]))
  }

  lemma CharRoundTrip(st: State, c: char, rest: string)
    requires st.inQuote && rest != ""
    ensures Run(st, EscapeChar(c) + rest) == Run(st.(cur := st.cur + [c]), rest)
  {
    var text := EscapeChar(c) + rest;
    assert text[|EscapeChar(c)|..] == rest;
  }

  /** Inside quotes, the escaped form of an argument is read back as the argument. */
  lemma {:induction false} EscapeRoundTrip(st: State, arg: string, rest: string)
    requires st.inQuote && rest != ""
    ensures Run(st, Escape(arg) + rest) == Run(st.(cur := st.cur + arg), rest)
    decreases |arg|
  {
    if arg == "" {
      assert Escape(arg) + rest == rest;
      assert st.cur + arg == st.cur;
    } else {
      var c, tail := arg[0], arg[1..];
      Sequences.Assoc(EscapeChar(c), Escape(tail), rest);
      CharRoundTrip(st, c, Escape(tail) + rest);
      EscapeRoundTrip(st.(cur := st.cur + [c]), tail, rest);
      Sequences.Assoc(st.cur, [c], tail);
      assert arg == [c] + tail;
    }
  }

  /** A quoted argument is read into `cur`, quotes dropped. */
  lemma QuoteRoundTrip(st: State, arg: string, rest: string)
    requires !st.inQuote
    ensures Run(st, Quote(arg) + rest) == Run(st.(cur := st.cur + arg), rest)
  {
    var text := Quote(arg) + rest;
    var closing := "\"" + rest;
    assert text[1..] == Escape(arg) + closing;
    EscapeRoundTrip(st.(inQuote := true), arg, closing);
    assert closing[1..] == rest;
  }

  lemma TrimmedCons(args: seq<string>)
    requires args != []
    ensures Trimmed(args) == [TrimSpace(args[0])] + Trimmed(args[1..])
  {
  }

  lemma LastRuns(out: seq<string>, arg: string)
    ensures Run(State("", false, out), Quote(arg)) == State(arg, false, out)
  {
    var st := State("", false, out);
    QuoteRoundTrip(st, arg, "");
    assert Quote(arg) + "" == Quote(arg);
    assert st.cur + arg == arg;
  }

  /** A quoted argument before a comma is emitted, trimmed. */
  lemma FirstRuns(out: seq<string>, arg: string, rest: string)
    ensures Run(State("", false, out), Quote(arg) + ("," + rest)) ==
            Run(State("", false, out + [TrimSpace(arg)]), rest)
  {
    var st, tail := State("", false, out), "," + rest;
    QuoteRoundTrip(st, arg, tail);
    assert st.cur + arg == arg;
    assert tail[1..] == rest;
  }

  lemma {:induction false} PrintedRuns(out: seq<string>, args: seq<string>)
    requires args != []
    ensures var st := Run(State("", false, out), PrintArgs(args));
            !st.inQuote && st.out + [TrimSpace(st.cur)] == out + Trimmed(args)
    decreases |args|
  {
    if |args| == 1 {
      LastRuns(out, args[0]);
      TrimmedCons(args);
      assert Trimmed(args[1..]) == [];
    } else {
      FirstRuns(out, args[0], PrintArgs(args[1..]));
      var out' := out + [TrimSpace(args[0])];
      PrintedRuns(out', args[1..]);
      Sequences.Assoc(out, [TrimSpace(args[0])], Trimmed(args[1..]));
      TrimmedCons(args);
    }
  }

  /** Any nonempty argument list, quoted and printed, splits into the arguments
      with their outer white space trimmed. */
  lemma SplitInvertsPrinting(args: seq<string>)
    requires args != []
    ensures Split(PrintArgs(args)) == Args(Trimmed(args))
  {
    var raw := PrintArgs(args);
    assert Strip(raw) == raw by {
      TrimSpaceId(raw);
    }
    var none: seq<string> := [];
    PrintedRuns(none, args);
    assert none + Trimmed(args) == Trimmed(args);
  }

  /** The fakerjs array form of the same list splits the same way. */
  lemma ArrayFormAgrees(args: seq<string>)
    requires args != []
    ensures Split("[" + PrintArgs(args) + "]") == Split(PrintArgs(args))
  {
    var inner := PrintArgs(args);
    var raw := "[" + inner + "]";
    TrimSpaceId(raw);
    TrimSpaceId(inner);
    assert raw[1..|raw| - 1] == inner;
  }

  /** A trimmed argument list comes back unchanged. */
  lemma SplitIsInverse(args: seq<string>)
    requires args != [] && forall i :: 0 <= i < |args| ==> TrimSpace(args[i]) == args[i]
    ensures Split(PrintArgs(args)) == Args(args)
  {
    SplitInvertsPrinting(args);
    assert Trimmed(args) == args;
  }

  // ----- Any text -----

  /** A character inside quotes: as it is, or after a backslash. */
  datatype QuotedChar = Raw(c: char) | Escaped(c: char)

  datatype Token = Plain(c: char) | Comma | Quoted(body: seq<QuotedChar>)

  /** What follows the last token: nothing, or a quote that is never closed, perhaps ending in a
      backslash with nothing behind it. */
  datatype Tail = Closed | Unclosed(body: seq<QuotedChar>, dangling: bool)

  predicate WellFormedBody(body: seq<QuotedChar>) {
    forall i :: 0 <= i < |body| && body[i].Raw? ==> body[i].c != '"' && body[i].c != '\\'
  }

  predicate WellFormedTokens(toks: seq<Token>) {
    forall i :: 0 <= i < |toks| ==>
      match toks[i]
      case Plain(c) => c != '"' && c != ','
      case Comma => true
      case Quoted(body) => WellFormedBody(body)
  }

  predicate WellFormedTail(tail: Tail) { tail.Unclosed? ==> WellFormedBody(tail.body) }

  function PrintBody(body: seq<QuotedChar>, rest: string): string {
    if body == [] then rest
    else (if body[0].Raw? then [body[0].c] else ['\\', body[0].c]) + PrintBody(body[1..], rest)
  }

  function PrintTail(tail: Tail): string {
    match tail
    case Closed => ""
    case Unclosed(body, dangling) => "\"" + PrintBody(body, if dangling then "\\" else "")
  }

  function PrintTokens(toks: seq<Token>, tail: Tail): string {
    if toks == [] then PrintTail(tail)
    else
      match toks[0]
      case Plain(c) => [c] + PrintTokens(toks[1..], tail)
      case Comma => "," + PrintTokens(toks[1..], tail)
      case Quoted(body) => "\"" + PrintBody(body, "\"" + PrintTokens(toks[1..], tail))
  }

  function BodyText(body: seq<QuotedChar>): string {
    if body == [] then "" else [body[0].c] + BodyText(body[1..])
  }

  /** The arguments between the commas: plain characters and the text of quotes, `cur` being what
      the first begins with. */
  function Values(toks: seq<Token>, cur: string): (r: seq<string>)
    ensures r != []
    decreases |toks|
  {
    if toks == [] then [cur]
    else
      match toks[0]
      case Plain(c) => Values(toks[1..], cur + [c])
      case Comma => [cur] + Values(toks[1..], "")
      case Quoted(body) => Values(toks[1..], cur + BodyText(body))
  }

  lemma {:induction false} BodyRuns(st: State, body: seq<QuotedChar>, rest: string)
    requires st.inQuote && WellFormedBody(body)
    ensures Run(st, PrintBody(body, rest)) == Run(st.(cur := st.cur + BodyText(body)), rest)
    decreases |body|
  {
    if body == [] {
      assert st.cur + "" == st.cur;
    } else {
      var c, more := body[0].c, PrintBody(body[1..], rest);
      assert WellFormedBody(body[1..]);
      assert ([c] + more)[1..] == more && (['\\', c] + more)[2..] == more;
      BodyRuns(st.(cur := st.cur + [c]), body[1..], rest);
      Sequences.Assoc(st.cur, [c], BodyText(body[1..]));
    }
  }

  lemma QuoteRuns(st: State, body: seq<QuotedChar>, rest: string)
    requires !st.inQuote && WellFormedBody(body)
    ensures Run(st, "\"" + PrintBody(body, "\"" + rest)) == Run(st.(cur := st.cur + BodyText(body)), rest)
  {
    var inside := st.(inQuote := true);
    assert ("\"" + PrintBody(body, "\"" + rest))[1..] == PrintBody(body, "\"" + rest);
    BodyRuns(inside, body, "\"" + rest);
    assert ("\"" + rest)[1..] == rest;
  }

  lemma TailRuns(st: State, tail: Tail)
    requires !st.inQuote && WellFormedTail(tail)
    ensures tail.Closed? ==> Run(st, PrintTail(tail)) == st
    ensures tail.Unclosed? ==> Run(st, PrintTail(tail)).inQuote
  {
    if tail.Unclosed? {
      var left := if tail.dangling then "\\" else "";
      assert ("\"" + PrintBody(tail.body, left))[1..] == PrintBody(tail.body, left);
      BodyRuns(st.(inQuote := true), tail.body, left);
      assert "\\"[1..] == "";
    }
  }

  lemma PlainRuns(st: State, c: char, rest: string)
    requires !st.inQuote && c != '"'
    ensures Run(st, [c] + rest) ==
            if c == ',' then Run(st.(out := st.out + [TrimSpace(st.cur)], cur := ""), rest)
            else Run(st.(cur := st.cur + [c]), rest)
  {
    assert ([c] + rest)[1..] == rest;
  }

  /** What the loop makes of printed tokens. */
  ghost predicate ReadsAs(st: State, toks: seq<Token>, tail: Tail) {
    var e := Run(st, PrintTokens(toks, tail));
    if tail.Closed? then !e.inQuote && e.out + [TrimSpace(e.cur)] == st.out + Trimmed(Values(toks, st.cur))
    else e.inQuote
  }

  lemma TrimmedFirst(out: seq<string>, cur: string, more: seq<string>)
    ensures out + Trimmed([cur] + more) == out + [TrimSpace(cur)] + Trimmed(more)
  {
    TrimmedCons([cur] + more);
    assert ([cur] + more)[1..] == more;
  }

  lemma {:induction false} TokensRun(st: State, toks: seq<Token>, tail: Tail)
    requires !st.inQuote && WellFormedTokens(toks) && WellFormedTail(tail)
    ensures ReadsAs(st, toks, tail)
    decreases |toks|
  {
    if toks == [] {
      TailRuns(st, tail);
      TrimmedFirst(st.out, st.cur, []);
      assert [st.cur] + [] == [st.cur] && Trimmed([]) == [];
    } else {
      var rest := PrintTokens(toks[1..], tail);
      assert WellFormedTokens(toks[1..]);
      match toks[0]
      case Plain(c) =>
        PlainRuns(st, c, rest);
        TokensRun(st.(cur := st.cur + [c]), toks[1..], tail);
      case Comma =>
        PlainRuns(st, ',', rest);
        TokensRun(st.(out := st.out + [TrimSpace(st.cur)], cur := ""), toks[1..], tail);
        TrimmedFirst(st.out, st.cur, Values(toks[1..], ""));
      case Quoted(body) =>
        QuoteRuns(st, body, rest);
        TokensRun(st.(cur := st.cur + BodyText(body)), toks[1..], tail);
    }
  }

  /** What is left of a text after an opening quote: through the closing one, or to the end. */
  datatype Opening = Shut(body: seq<QuotedChar>, rest: string) | Unshut(body: seq<QuotedChar>, dangling: bool)

  ghost predicate OpeningOf(s: string, o: Opening) {
    && WellFormedBody(o.body)
    && match o
       case Shut(body, rest) => |rest| < |s| && s == PrintBody(body, "\"" + rest)
       case Unshut(body, dangling) => s == PrintBody(body, if dangling then "\\" else "")
  }

  /** One more character in front. */
  function Lengthened(q: QuotedChar, o: Opening): Opening {
    match o
    case Shut(body, rest) => Shut([q] + body, rest)
    case Unshut(body, dangling) => Unshut([q] + body, dangling)
  }

  lemma LengthenedOf(s: string, q: QuotedChar, rest: string, o: Opening)
    requires OpeningOf(rest, o) && WellFormedBody([q])
    requires s == (if q.Raw? then [q.c] else ['\\', q.c]) + rest
    ensures OpeningOf(s, Lengthened(q, o))
  {
    assert [q][0] == q;
    assert ([q] + o.body)[1..] == o.body;
  }

  lemma {:induction false} SplitOpening(s: string) returns (o: Opening)
    ensures OpeningOf(s, o)
    decreases |s|
  {
    if s == "" {
      o := Unshut([], false);
    } else if s == "\\" {
      o := Unshut([], true);
    } else if s[0] == '"' {
      o := Shut([], s[1..]);
      assert s == "\"" + s[1..];
    } else {
      var q, rest := if s[0] == '\\' then Escaped(s[1]) else Raw(s[0]), if s[0] == '\\' then s[2..] else s[1..];
      var inner := SplitOpening(rest);
      assert s == (if q.Raw? then [q.c] else ['\\', q.c]) + rest;
      LengthenedOf(s, q, rest, inner);
      o := Lengthened(q, inner);
    }
  }

  lemma TokensCons(tok: Token, toks: seq<Token>, tail: Tail)
    requires WellFormedTokens([tok]) && WellFormedTokens(toks)
    ensures WellFormedTokens([tok] + toks) && ([tok] + toks)[1..] == toks
  {
    assert [tok][0] == tok;
  }

  /** Every text is tokens and a tail. */
  lemma {:induction false} EveryTextIsTokens(s: string) returns (toks: seq<Token>, tail: Tail)
    ensures WellFormedTokens(toks) && WellFormedTail(tail) && PrintTokens(toks, tail) == s
    decreases |s|
  {
    if s == "" {
      toks, tail := [], Closed;
    } else if s[0] == '"' {
      var o := SplitOpening(s[1..]);
      assert s == "\"" + s[1..];
      match o {
        case Shut(body, rest) =>
          var more;
          more, tail := EveryTextIsTokens(rest);
          TokensCons(Quoted(body), more, tail);
          toks := [Quoted(body)] + more;
        case Unshut(body, dangling) =>
          toks, tail := [], Unclosed(body, dangling);
      }
    } else {
      var tok := if s[0] == ',' then Comma else Plain(s[0]);
      var more;
      more, tail := EveryTextIsTokens(s[1..]);
      TokensCons(tok, more, tail);
      toks := [tok] + more;
      assert s == [s[0]] + s[1..];
    }
  }

  /** What splitting gives, for every text: no arguments when nothing is left of it, an error
      exactly when its last quote is never closed, and otherwise the trimmed arguments. */
  lemma SplitExactly(raw: string) returns (toks: seq<Token>, tail: Tail)
    ensures WellFormedTokens(toks) && WellFormedTail(tail) && PrintTokens(toks, tail) == Strip(raw)
    ensures Split(raw) ==
            if Strip(raw) == "" then Args([])
            else if tail.Closed? then Args(Trimmed(Values(toks, "")))
            else Unterminated
  {
    toks, tail := EveryTextIsTokens(Strip(raw));
    var none: seq<string> := [];
    TokensRun(State("", false, none), toks, tail);
    assert none + Trimmed(Values(toks, "")) == Trimmed(Values(toks, ""));
  }

  /** inner, in brackets with any white space around it, begins and ends with a quote. */
  ghost predicate Bracketed(raw: string, before: string, inner: string, after: string) {
    && raw == "[" + ((before + (inner + after)) + "]") && AllSpace(before) && AllSpace(after)
    && inner != "" && inner[0] == '"' && inner[|inner| - 1] == '"'
  }

  lemma BracketedTrims(raw: string, before: string, inner: string, after: string)
    requires Bracketed(raw, before, inner, after)
    ensures raw[0] == '[' && raw[|raw| - 1] == ']' && TrimSpace(raw[1..|raw| - 1]) == inner
  {
    var mid := before + (inner + after);
    assert raw[1..|raw| - 1] == mid;
    TrimLeftSpaces(before, inner + after);
    assert (inner + after)[0] == inner[0];
    TrimRightSpaces(inner, after);
  }

  lemma BracketSplit(raw: string)
    requires |raw| >= 2 && raw[0] == '[' && raw[|raw| - 1] == ']'
    ensures raw == "[" + (raw[1..|raw| - 1] + "]")
  {
  }

  lemma ArrayLiteralParts(raw: string) returns (before: string, inner: string, after: string)
    requires IsFakerArrayLiteral(raw)
    ensures Bracketed(raw, before, inner, after)
  {
    var mid := raw[1..|raw| - 1];
    before, after := TrimSpaceTrims(mid);
    inner := TrimSpace(mid);
    BracketSplit(raw);
  }

  /** The brackets of a list are dropped exactly when it is an array literal: what is inside them
      begins and ends with a quote. */
  lemma ArrayLiteralExactly(raw: string)
    ensures IsFakerArrayLiteral(raw) <==>
            |raw| >= 4 && exists before, inner, after :: Bracketed(raw, before, inner, after)
  {
    if IsFakerArrayLiteral(raw) {
      var before, inner, after := ArrayLiteralParts(raw);
    }
    if before, inner, after :| |raw| >= 4 && Bracketed(raw, before, inner, after) {
      BracketedTrims(raw, before, inner, after);
    }
  }
}
