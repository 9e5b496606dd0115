/** Reading Server-Sent Events (pkg/httpc/sse.go): the line loop of SSEStream.Next over
    what is left of a response body, and the framing it inverts. */
module Sse {
  import opened Text

  /** `data` is the data lines joined with newlines; decoding it as JSON is a function of it. */
  datatype Event = Event(name: string, data: string, id: string)

  datatype Outcome = Delivered(ev: Event) | Eof | Cancelled

  function Join(parts: seq<string>): string {
    if parts == [] then ""
    else if |parts| == 1 then parts[0]
    else parts[0] + ("\n" + Join(parts[1..]))
  }

  /** What Next has gathered so far. */
  datatype Gathered = Gathered(name: string, id: string, parts: seq<string>) {
    function ToEvent(): Event { Event(name, Join(parts), id) }
  }

  const START := Gathered("", "", [])

  function TrimEol(s: string): (r: string)
    ensures r <= s && forall i :: |r| <= i < |s| ==> s[i] == '\r' || s[i] == '\n'
    ensures r != "" ==> r[|r| - 1] != '\r' && r[|r| - 1] != '\n'
  {
    if s != "" && (s[|s| - 1] == '\r' || s[|s| - 1] == '\n') then TrimEol(s[..|s| - 1]) else s
  }

  function TrimOneSpace(s: string): string { if s != "" && s[0] == ' ' then s[1..] else s }

  /** The effect of one nonblank line. */
  function Absorb(g: Gathered, line: string): Gathered
    requires line != ""
  {
    var k := IndexOf(line, ':');
    if k == 0 || k == |line| then g
    else
      var value := TrimOneSpace(line[k + 1..]);
      if line[..k] == "event" then g.(name := value)
      else if line[..k] == "data" then g.(parts := g.parts + [value])
      else if line[..k] == "id" then g.(id := value)
      else g
  }

  predicate HasLine(body: string) { IndexOf(body, '\n') < |body| }

  function FirstLine(body: string): string
    requires HasLine(body)
  {
    TrimEol(body[..IndexOf(body, '\n') + 1])
  }

  function AfterLine(body: string): (r: string)
    requires HasLine(body)
    ensures |r| < |body|
  {
    body[IndexOf(body, '\n') + 1..]
  }

  /** One call of Next: its outcome and what it leaves of the body. */
  function Read(body: string, g: Gathered): (r: (Outcome, string))
    ensures !r.0.Cancelled?
    ensures if body == "" then r.1 == "" else |r.1| < |body|
    ensures body == "" && g.parts == [] ==> r.0.Eof?
    decreases |body|
  {
    if !HasLine(body) then (if g.parts == [] then Eof else Delivered(g.ToEvent()), "")
    else
      var line, rest := FirstLine(body), AfterLine(body);
      if line != "" then Read(rest, Absorb(g, line))
      else if g.parts == [] then Read(rest, g)
      else (Delivered(g.ToEvent()), rest)
  }

  /** Read, by its first line. */
  lemma ReadLine(body: string, line: string, rest: string, g: Gathered)
    requires HasLine(body) && FirstLine(body) == line && AfterLine(body) == rest
    ensures Read(body, g) == if line != "" then Read(rest, Absorb(g, line))
                             else if g.parts == [] then Read(rest, g)
                             else (Delivered(g.ToEvent()), rest)
  {
  }

  class SSEStream {
    var body: string

    constructor (body: string)
      ensures this.body == body
    {
      this.body := body;
    }

    /** Through the next newline, or everything that is left. */
    method ReadString() returns (line: string, ok: bool)
      modifies this
      ensures var k := IndexOf(old(body), '\n');
              if k < |old(body)| then ok && line == old(body)[..k + 1] && body == old(body)[k + 1..]
              else !ok && line == old(body) && body == ""
    {
      var k := 0;
      while k < |body| && body[k] != '\n'
        invariant k <= |body|
        invariant IndexOf(body, '\n') == k + IndexOf(body[k..], '\n')
      {
        assert body[k..][1..] == body[k + 1..];
        k := k + 1;
      }
      ok := k < |body|;
      if ok {
        line, body := body[..k + 1], body[k + 1..];
      } else {
        line, body := body, "";
      }
    }

    method Next(cancelled: bool) returns (r: Outcome)
      modifies this
      ensures if cancelled then r == Cancelled && body == old(body)
              else r == Read(old(body), START).0 && body == Read(old(body), START).1
    {
      if cancelled {
        return Cancelled;
      }
      var name, id, parts := "", "", [];
      while true
        invariant Read(body, Gathered(name, id, parts)) == Read(old(body), START)
        decreases |body|
      {
        ghost var g, was := Gathered(name, id, parts), body;
        var line, ok := ReadString();
        if !ok {
          if parts == [] {
            return Eof;
          }
          return Delivered(Event(name, Join(parts), id));
        }
        line := TrimEol(line);
        ReadLine(was, line, body, g);
        if line == "" {
          if parts == [] {
            continue;
          }
          return Delivered(Event(name, Join(parts), id));
        }
        if line[0] == ':' {
          continue;
        }
        var k := IndexOf(line, ':');
        if k == |line| {
          continue;
        }
        var field, value := line[..k], TrimOneSpace(line[k + 1..]);
        match field {
          case "event" => name := value;
          case "data" => parts := parts + [value];
          case "id" => id := value;
          case _ =>
        }
      }
    }
  }

  /** Every event that repeated calls of Next deliver before the end of the body. */
  function Drain(body: string, g: Gathered): seq<Event>
    requires g.parts == []
    decreases |body|
  {
    var (r, rest) := Read(body, g);
    if r.Delivered? then [r.ev] + Drain(rest, START) else []
  }

  // ----- The framing -----

  datatype Field = EventField | DataField | IdField

  function FieldName(f: Field): string {
    match f
    case EventField => "event"
    case DataField => "data"
    case IdField => "id"
  }

  /** A line of a frame: a field, with or without a blank after its colon, or anything
      the stream ignores. Lines end in "\n" or "\r\n". */
  datatype Line =
    | Set(field: Field, blank: bool, value: string, crlf: bool)
    | Ignored(text: string, crlf: bool)

  predicate IsLineText(s: string) { '\n' !in s && (s != "" ==> s[|s| - 1] != '\r') }

  predicate WellFormed(l: Line) {
    match l
    case Set(_, blank, value, _) => IsLineText(value) && (!blank && value != "" ==> value[0] != ' ')
    case Ignored(text, _) =>
      && IsLineText(text) && text != ""
      && var k := IndexOf(text, ':'); k == 0 || k == |text| || text[..k] !in ["event", "data", "id"]
  }

  predicate AllWellFormed(ls: seq<Line>) { forall i :: 0 <= i < |ls| ==> WellFormed(ls[i]) }

  predicate FramesWellFormed(fs: seq<seq<Line>>) { forall i :: 0 <= i < |fs| ==> AllWellFormed(fs[i]) }

  function Eol(crlf: bool): string { if crlf then "\r\n" else "\n" }

  function LineText(l: Line): string {
    match l
    case Set(f, blank, value, _) => FieldName(f) + (":" + ((if blank then " " else "") + value))
    case Ignored(text, _) => text
  }

  function PrintLines(ls: seq<Line>, rest: string): string {
    if ls == [] then rest else LineText(ls[0]) + (Eol(ls[0].crlf) + PrintLines(ls[1..], rest))
  }

  /** Frames, each closed by a blank line. */
  function PrintFrames(fs: seq<seq<Line>>, rest: string): string {
    if fs == [] then rest else PrintLines(fs[0], "\n" + PrintFrames(fs[1..], rest))
  }

  /** What one line says on top of what is already known. */
  function Said(g: Gathered, l: Line): Gathered {
    if l.Ignored? then g
    else
      match l.field
      case EventField => g.(name := l.value)
      case DataField => g.(parts := g.parts + [l.value])
      case IdField => g.(id := l.value)
  }

  function Meaning(g: Gathered, ls: seq<Line>): Gathered
    decreases |ls|
  {
    if ls == [] then g else Meaning(Said(g, ls[0]), ls[1..])
  }

  /** Frames with data give an event each; one without leaves its name and id behind. */
  function Merged(fs: seq<seq<Line>>, g: Gathered): seq<Event>
    requires g.parts == []
  {
    if fs == [] then []
    else
      var m := Meaning(g, fs[0]);
      if m.parts == [] then Merged(fs[1..], m) else [m.ToEvent()] + Merged(fs[1..], START)
  }

  /** What the frames say when each stands alone. */
  function Own(fs: seq<seq<Line>>): seq<Event> {
    if fs == [] then []
    else
      var m := Meaning(START, fs[0]);
      (if m.parts == [] then [] else [m.ToEvent()]) + Own(fs[1..])
  }

  // ----- Reading inverts printing -----

  lemma TrimsEol(text: string, crlf: bool)
    requires IsLineText(text)
    ensures TrimEol(text + Eol(crlf)) == text
  {
    var s := text + Eol(crlf);
    assert s[..|s| - 1] == if crlf then text + "\r" else text;
    assert (text + "\r")[..|text|] == text;
    assert TrimEol(text) == text;
  }

  /** Where a printed line ends. */
  lemma LineEnds(text: string, crlf: bool, rest: string)
    requires IsLineText(text)
    ensures var body, k := text + (Eol(crlf) + rest), |text| + |Eol(crlf)| - 1;
            IndexOf(body, '\n') == k && body[..k + 1] == text + Eol(crlf) && body[k + 1..] == rest
  {
    var body, k := text + (Eol(crlf) + rest), |text| + |Eol(crlf)| - 1;
    assert body == text + Eol(crlf) + rest;
    forall j | 0 <= j < k ensures body[j] != '\n' {
      if j < |text| {
        assert body[j] == text[j];
      } else {
        assert body[j] == Eol(crlf)[j - |text|];
      }
    }
    assert body[k] == Eol(crlf)[k - |text|];
    IndexOfAt(body, '\n', k);
  }

  lemma LineSplit(text: string, crlf: bool, rest: string)
    requires IsLineText(text)
    ensures var body := text + (Eol(crlf) + rest);
            HasLine(body) && FirstLine(body) == text && AfterLine(body) == rest
  {
    LineEnds(text, crlf, rest);
    TrimsEol(text, crlf);
  }

  /** A printed line is read back as its text. */
  lemma LineRead(text: string, crlf: bool, rest: string, g: Gathered)
    requires IsLineText(text)
    ensures var body := text + (Eol(crlf) + rest);
            Read(body, g) == if text != "" then Read(rest, Absorb(g, text))
                             else if g.parts == [] then Read(rest, g)
                             else (Delivered(g.ToEvent()), rest)
  {
    LineSplit(text, crlf, rest);
    ReadLine(text + (Eol(crlf) + rest), text, rest, g);
  }

  lemma FieldSplit(name: string, tail: string)
    requires ':' !in name
    ensures var text := name + (":" + tail);
            IndexOf(text, ':') == |name| && text[..|name|] == name && text[|name| + 1..] == tail
  {
    var text := name + (":" + tail);
    assert forall j :: 0 <= j < |name| ==> text[j] == name[j];
    IndexOfAt(text, ':', |name|);
  }

  lemma BlankTrimmed(blank: bool, value: string)
    requires !blank && value != "" ==> value[0] != ' '
    ensures TrimOneSpace((if blank then " " else "") + value) == value
  {
    if blank {
      assert (" " + value)[1..] == value;
    } else {
      assert "" + value == value;
    }
  }

  lemma LineTextOk(l: Line)
    requires WellFormed(l)
    ensures LineText(l) != "" && IsLineText(LineText(l))
  {
    if l.Set? {
      var name, tail := FieldName(l.field), (if l.blank then " " else "") + l.value;
      assert forall i :: 0 <= i < |name| ==> name[i] != '\n';
      assert '\n' !in tail;
      var text := name + (":" + tail);
      assert text[|text| - 1] == if l.value != "" then l.value[|l.value| - 1] else (":" + tail)[|tail|];
    }
  }

  lemma FieldAbsorbed(g: Gathered, l: Line)
    requires l.Set? && WellFormed(l) && LineText(l) != ""
    ensures Absorb(g, LineText(l)) == Said(g, l)
  {
    var name, tail := FieldName(l.field), (if l.blank then " " else "") + l.value;
    FieldSplit(name, tail);
    BlankTrimmed(l.blank, l.value);
    match l.field
    case EventField =>
    case DataField =>
    case IdField =>
  }

  lemma LineAbsorbed(g: Gathered, l: Line)
    requires WellFormed(l)
    ensures LineText(l) != "" && IsLineText(LineText(l))
    ensures Absorb(g, LineText(l)) == Said(g, l)
  {
    LineTextOk(l);
    if l.Set? {
      FieldAbsorbed(g, l);
    }
  }

  lemma {:induction false} LinesRead(ls: seq<Line>, rest: string, g: Gathered)
    requires AllWellFormed(ls)
    ensures Read(PrintLines(ls, rest), g) == Read(rest, Meaning(g, ls))
    decreases |ls|
  {
    if ls != [] {
      LineAbsorbed(g, ls[0]);
      LineRead(LineText(ls[0]), ls[0].crlf, PrintLines(ls[1..], rest), g);
      LinesRead(ls[1..], rest, Said(g, ls[0]));
    }
  }

  lemma LastRead(last: seq<Line>, cut: string, g: Gathered)
    requires g.parts == [] && AllWellFormed(last) && '\n' !in cut
    ensures Drain(PrintLines(last, cut), g) == Merged([last], g)
  {
    LinesRead(last, cut, g);
    IndexOfAt(cut, '\n', |cut|);
    assert Drain("", START) == [];
    assert [last][1..] == [];
  }

  /** Draining printed frames, then the lines of an unclosed frame, then a line cut short,
      gives exactly the merged meaning of all the frames, the unclosed one included. */
  lemma {:induction false} DrainInvertsFraming(fs: seq<seq<Line>>, last: seq<Line>, cut: string, g: Gathered)
    requires g.parts == [] && FramesWellFormed(fs) && AllWellFormed(last) && '\n' !in cut
    ensures Drain(PrintFrames(fs, PrintLines(last, cut)), g) == Merged(fs + [last], g)
    decreases |fs|
  {
    var rest := PrintLines(last, cut);
    if fs == [] {
      LastRead(last, cut, g);
      assert [] + [last] == [last];
    } else {
      var after := PrintFrames(fs[1..], rest);
      LinesRead(fs[0], "\n" + after, g);
      var m := Meaning(g, fs[0]);
      LineRead("", false, after, m);
      assert "" + (Eol(false) + after) == "\n" + after;
      assert (fs + [last])[1..] == fs[1..] + [last];
      DrainInvertsFraming(fs[1..], last, cut, if m.parts == [] then m else START);
    }
  }

  predicate HasData(ls: seq<Line>) { exists i :: 0 <= i < |ls| && ls[i].Set? && ls[i].field.DataField? }

  lemma {:induction false} DataGathered(g: Gathered, ls: seq<Line>)
    ensures Meaning(g, ls).parts == [] <==> g.parts == [] && !HasData(ls)
    decreases |ls|
  {
    if ls != [] {
      DataGathered(Said(g, ls[0]), ls[1..]);
      assert HasData(ls) <==> (ls[0].Set? && ls[0].field.DataField?) || HasData(ls[1..]) by {
        forall i | 0 < i < |ls| ensures ls[i] == ls[1..][i - 1] {
        }
      }
    }
  }

  // ----- When frames stand alone -----

  predicate Sets(ls: seq<Line>, f: Field) { exists i :: 0 <= i < |ls| && ls[i].Set? && ls[i].field == f }

  /** No name or id of a frame without data reaches an event that does not set its own. */
  predicate NothingLeaks(fs: seq<seq<Line>>, g: Gathered) {
    fs == [] ||
    if HasData(fs[0]) then
      && (g.name == "" || Sets(fs[0], EventField)) && (g.id == "" || Sets(fs[0], IdField))
      && NothingLeaks(fs[1..], START)
    else NothingLeaks(fs[1..], Meaning(g, fs[0]))
  }

  lemma {:induction false} MeaningSame(g: Gathered, ls: seq<Line>, h: Gathered)
    ensures g.name == h.name ==> Meaning(g, ls).name == Meaning(h, ls).name
    ensures g.id == h.id ==> Meaning(g, ls).id == Meaning(h, ls).id
    decreases |ls|
  {
    if ls != [] {
      MeaningSame(Said(g, ls[0]), ls[1..], Said(h, ls[0]));
    }
  }

  lemma SetsCons(ls: seq<Line>, f: Field)
    requires ls != []
    ensures Sets(ls, f) <==> (ls[0].Set? && ls[0].field == f) || Sets(ls[1..], f)
  {
    assert forall i :: 0 < i < |ls| ==> ls[i] == ls[1..][i - 1];
  }

  /** What is known before a frame matters only for what the frame does not set. */
  lemma {:induction false} MeaningFrom(g: Gathered, ls: seq<Line>, h: Gathered)
    requires g.parts == h.parts
    ensures Meaning(g, ls).parts == Meaning(h, ls).parts
    ensures Sets(ls, EventField) ==> Meaning(g, ls).name == Meaning(h, ls).name
    ensures !Sets(ls, EventField) ==> Meaning(g, ls).name == g.name
    ensures Sets(ls, IdField) ==> Meaning(g, ls).id == Meaning(h, ls).id
    ensures !Sets(ls, IdField) ==> Meaning(g, ls).id == g.id
    decreases |ls|
  {
    if ls != [] {
      SetsCons(ls, EventField);
      SetsCons(ls, IdField);
      MeaningFrom(Said(g, ls[0]), ls[1..], Said(h, ls[0]));
      MeaningSame(Said(g, ls[0]), ls[1..], Said(h, ls[0]));
    }
  }

  lemma ConsEqual(a: Event, x: seq<Event>, b: Event, y: seq<Event>)
    ensures [a] + x == [b] + y <==> a == b && x == y
  {
    assert ([a] + x)[0] == a && ([a] + x)[1..] == x;
    assert ([b] + y)[0] == b && ([b] + y)[1..] == y;
  }

  lemma {:induction false} StandAloneExactly(fs: seq<seq<Line>>, g: Gathered)
    requires g.parts == []
    ensures Merged(fs, g) == Own(fs) <==> NothingLeaks(fs, g)
    decreases |fs|
  {
    if fs != [] {
      var m, own := Meaning(g, fs[0]), Meaning(START, fs[0]);
      DataGathered(g, fs[0]);
      MeaningFrom(g, fs[0], START);
      MeaningFrom(START, fs[0], START);
      if HasData(fs[0]) {
        StandAloneExactly(fs[1..], START);
        ConsEqual(m.ToEvent(), Merged(fs[1..], START), own.ToEvent(), Own(fs[1..]));
      } else {
        StandAloneExactly(fs[1..], m);
        assert Own(fs) == Own(fs[1..]);
      }
    }
  }

  /** The stream reads every frame on its own exactly when no frame without data leaves
      a name or an id to a later event that does not set one. */
  lemma FramesStandAloneExactly(fs: seq<seq<Line>>, last: seq<Line>, cut: string)
    requires FramesWellFormed(fs) && AllWellFormed(last) && '\n' !in cut
    ensures Drain(PrintFrames(fs, PrintLines(last, cut)), START) == Own(fs + [last])
            <==> NothingLeaks(fs + [last], START)
  {
    DrainInvertsFraming(fs, last, cut, START);
    StandAloneExactly(fs + [last], START);
  }

  lemma {:induction false} DataNeverLeaks(fs: seq<seq<Line>>)
    requires forall i :: 0 <= i < |fs| ==> HasData(fs[i])
    ensures NothingLeaks(fs + [[]], START) && Own(fs + [[]]) == Own(fs) && |Own(fs)| == |fs|
    decreases |fs|
  {
    if fs == [] {
      var none: seq<Line> := [];
      assert ([none])[1..] == [];
      assert !HasData(none);
    } else {
      assert (fs + [[]])[1..] == fs[1..] + [[]];
      DataGathered(START, fs[0]);
      DataNeverLeaks(fs[1..]);
    }
  }

  // ----- What an event holds -----

  /** The lines of a text. */
  function Cut(s: string): seq<string>
    decreases |s|
  {
    var k := IndexOf(s, '\n');
    if k == |s| then [s] else [s[..k]] + Cut(s[k + 1..])
  }

  lemma CutFirst(line: string, rest: string)
    requires '\n' !in line
    ensures Cut(line + ("\n" + rest)) == [line] + Cut(rest)
  {
    var s := line + ("\n" + rest);
    assert s[|line|] == '\n' && s[..|line|] == line && s[|line| + 1..] == rest;
    assert forall j :: 0 <= j < |line| ==> s[j] == line[j];
    IndexOfAt(s, '\n', |line|);
  }

  /** Joined data lines can be told apart again. */
  lemma {:induction false} CutInvertsJoin(parts: seq<string>)
    requires parts != [] && forall i :: 0 <= i < |parts| ==> '\n' !in parts[i]
    ensures Cut(Join(parts)) == parts
    decreases |parts|
  {
    if |parts| == 1 {
      IndexOfAt(parts[0], '\n', |parts[0]|);
    } else {
      CutFirst(parts[0], Join(parts[1..]));
      CutInvertsJoin(parts[1..]);
      assert parts == [parts[0]] + parts[1..];
    }
  }

  predicate IsSet(l: Line, f: Field) { l.Set? && l.field == f }

  /** The values of the data lines of a frame, in order. */
  function DataLines(ls: seq<Line>): seq<string> {
    if ls == [] then [] else (if IsSet(ls[0], DataField) then [ls[0].value] else []) + DataLines(ls[1..])
  }

  /** The last value a frame sets for a field, empty when it sets none. */
  function LastValue(ls: seq<Line>, f: Field): string {
    if ls == [] then ""
    else if Sets(ls[1..], f) then LastValue(ls[1..], f)
    else if IsSet(ls[0], f) then ls[0].value
    else ""
  }

  /** A frame adds its data lines, and its last event name and id replace what was known. */
  lemma {:induction false} MeaningIs(g: Gathered, ls: seq<Line>)
    ensures Meaning(g, ls).parts == g.parts + DataLines(ls)
    ensures Meaning(g, ls).name == if Sets(ls, EventField) then LastValue(ls, EventField) else g.name
    ensures Meaning(g, ls).id == if Sets(ls, IdField) then LastValue(ls, IdField) else g.id
    decreases |ls|
  {
    if ls != [] {
      SetsCons(ls, EventField);
      SetsCons(ls, IdField);
      MeaningIs(Said(g, ls[0]), ls[1..]);
    }
  }

  lemma {:induction false} NothingSet(ls: seq<Line>, f: Field)
    requires !Sets(ls, f)
    ensures LastValue(ls, f) == ""
  {
    if ls != [] {
      SetsCons(ls, f);
      NothingSet(ls[1..], f);
    }
  }

  lemma {:induction false} DataLinesOk(ls: seq<Line>)
    requires AllWellFormed(ls)
    ensures forall i :: 0 <= i < |DataLines(ls)| ==> '\n' !in DataLines(ls)[i]
    ensures DataLines(ls) != [] <==> HasData(ls)
  {
    if ls != [] {
      DataLinesOk(ls[1..]);
      SetsCons(ls, DataField);
      assert HasData(ls) <==> Sets(ls, DataField);
      assert HasData(ls[1..]) <==> Sets(ls[1..], DataField);
      assert WellFormed(ls[0]);
    }
  }

  /** The event holds the frame's last name and id, and its data lines, one by one. */
  predicate Carries(e: Event, ls: seq<Line>) {
    e.name == LastValue(ls, EventField) && e.id == LastValue(ls, IdField) && Cut(e.data) == DataLines(ls)
  }

  lemma OwnCarries(ls: seq<Line>)
    requires AllWellFormed(ls) && HasData(ls)
    ensures Carries(Meaning(START, ls).ToEvent(), ls)
  {
    MeaningIs(START, ls);
    DataLinesOk(ls);
    assert [] + DataLines(ls) == DataLines(ls);
    CutInvertsJoin(DataLines(ls));
    if !Sets(ls, EventField) { NothingSet(ls, EventField); }
    if !Sets(ls, IdField) { NothingSet(ls, IdField); }
  }

  lemma {:induction false} OwnOneByOne(fs: seq<seq<Line>>)
    requires FramesWellFormed(fs) && forall i :: 0 <= i < |fs| ==> HasData(fs[i])
    ensures |Own(fs)| == |fs| && forall i :: 0 <= i < |fs| ==> Own(fs)[i] == Meaning(START, fs[i]).ToEvent()
  {
    if fs != [] {
      DataGathered(START, fs[0]);
      OwnOneByOne(fs[1..]);
    }
  }

  /** Printed frames with data each come back one by one as they were, then the end. */
  lemma FramesRoundTrip(fs: seq<seq<Line>>)
    requires FramesWellFormed(fs) && forall i :: 0 <= i < |fs| ==> HasData(fs[i])
    ensures Drain(PrintFrames(fs, ""), START) == Own(fs) && |Own(fs)| == |fs|
    ensures forall i :: 0 <= i < |fs| ==> Carries(Drain(PrintFrames(fs, ""), START)[i], fs[i])
  {
    DataNeverLeaks(fs);
    FramesStandAloneExactly(fs, [], "");
    OwnOneByOne(fs);
    forall i | 0 <= i < |fs| ensures Carries(Own(fs)[i], fs[i]) {
      OwnCarries(fs[i]);
    }
  }

  lemma MeaningOne(g: Gathered, l: Line)
    ensures Meaning(g, [l]) == Said(g, l)
  {
    assert [l][1..] == [];
  }

  lemma OneFrame(f: seq<Line>, fs: seq<seq<Line>>, g: Gathered)
    requires g.parts == []
    ensures var m := Meaning(g, f);
            Merged([f] + fs, g) == if m.parts == [] then Merged(fs, m) else [m.ToEvent()] + Merged(fs, START)
    ensures var m := Meaning(START, f);
            Own([f] + fs) == (if m.parts == [] then [] else [m.ToEvent()]) + Own(fs)
  {
    assert ([f] + fs)[1..] == fs;
  }

  lemma JoinOne(v: string)
    ensures Join([] + [v]) == v
  {
    assert [] + [v] == [v];
  }

  /** A frame without data, then one with, then nothing. */
  lemma MergedPair(f: seq<Line>, h: seq<Line>)
    requires Meaning(START, f).parts == [] && Meaning(Meaning(START, f), h).parts != []
    ensures Merged([f, h] + [[]], START) == [Meaning(Meaning(START, f), h).ToEvent()]
  {
    var none: seq<Line> := [];
    assert [f, h] + [none] == [f] + ([h] + [none]);
    OneFrame(f, [h] + [none], START);
    OneFrame(h, [none], Meaning(START, f));
    OneFrame(none, [], START);
    assert [none] + [] == [none];
  }

  lemma OwnPair(f: seq<Line>, h: seq<Line>)
    requires Meaning(START, f).parts == [] && Meaning(START, h).parts != []
    ensures Own([f, h]) == [Meaning(START, h).ToEvent()]
  {
    OneFrame(h, [], START);
    OneFrame(f, [h], START);
    assert [f, h] == [f] + [h] && [h] == [h] + [];
  }

  /** A named frame without data gives its name to the next, unnamed, event. */
  lemma NameLeaks(name: string, value: string)
    requires IsLineText(name) && IsLineText(value) && name != ""
    ensures var named, plain := [Set(EventField, true, name, false)], [Set(DataField, true, value, false)];
            && Drain(PrintFrames([named, plain], ""), START) == [Event(name, value, "")]
            && Own([named, plain]) == [Event("", value, "")]
  {
    var named, plain := [Set(EventField, true, name, false)], [Set(DataField, true, value, false)];
    var none: seq<Line> := [];
    DrainInvertsFraming([named, plain], none, "", START);
    MergedPair(named, plain);
    OwnPair(named, plain);
    MeaningOne(START, named[0]);
    MeaningOne(Meaning(START, named), plain[0]);
    MeaningOne(START, plain[0]);
    JoinOne(value);
  }

  // ----- The unclosed frame -----

  lemma {:induction false} MergedSnoc(fs: seq<seq<Line>>, last: seq<Line>, g: Gathered)
    requires g.parts == []
    ensures Merged(fs, g) <= Merged(fs + [last], g)
    ensures |Merged(fs + [last], g)| == |Merged(fs, g)| + (if HasData(last) then 1 else 0)
    decreases |fs|
  {
    if fs == [] {
      assert [last] + [] == [last];
      OneFrame(last, [], g);
      DataGathered(g, last);
    } else {
      assert (fs + [last])[1..] == fs[1..] + [last];
      var m := Meaning(g, fs[0]);
      MergedSnoc(fs[1..], last, if m.parts == [] then m else START);
    }
  }

  /** An unclosed last frame is discarded, as the standard wants, exactly when it has no data. */
  lemma UnclosedExactly(fs: seq<seq<Line>>, last: seq<Line>, cut: string)
    requires FramesWellFormed(fs) && AllWellFormed(last) && '\n' !in cut
    ensures Drain(PrintFrames(fs, PrintLines(last, cut)), START) == Merged(fs, START) <==> !HasData(last)
  {
    DrainInvertsFraming(fs, last, cut, START);
    MergedSnoc(fs, last, START);
  }

  // ----- The last event id -----

  function Ids(events: seq<Event>): seq<string> {
    if events == [] then [] else [events[0].id] + Ids(events[1..])
  }

  /** The id known after a frame when ids stay until another is set. */
  function IdAfter(ls: seq<Line>, running: string): string {
    if Sets(ls, IdField) then Meaning(START, ls).id else running
  }

  /** The ids of the events when ids stay, as in the standard's last event id. */
  function RunningIds(fs: seq<seq<Line>>, running: string): seq<string> {
    if fs == [] then []
    else
      var id := IdAfter(fs[0], running);
      (if HasData(fs[0]) then [id] else []) + RunningIds(fs[1..], id)
  }

  /** Every event sets its own id, or comes when no id or the empty one was set before, or is
      the first since the last id was set. `held` says that no event came since then. */
  predicate IdsKept(fs: seq<seq<Line>>, running: string, held: bool) {
    fs == [] ||
    var own, id := Sets(fs[0], IdField), IdAfter(fs[0], running);
    if HasData(fs[0]) then (own || held || running == "") && IdsKept(fs[1..], id, false)
    else IdsKept(fs[1..], id, own || held)
  }

  lemma IdsCons(e: Event, events: seq<Event>, id: string, ids: seq<string>)
    ensures Ids([e] + events) == [id] + ids <==> e.id == id && Ids(events) == ids
  {
    assert ([e] + events)[1..] == events;
    assert ([e.id] + Ids(events))[0] == e.id && ([e.id] + Ids(events))[1..] == Ids(events);
    assert ([id] + ids)[0] == id && ([id] + ids)[1..] == ids;
  }

  lemma {:induction false} IdsExactly(fs: seq<seq<Line>>, g: Gathered, running: string, held: bool)
    requires g.parts == [] && g.id == if held then running else ""
    ensures Ids(Merged(fs, g)) == RunningIds(fs, running) <==> IdsKept(fs, running, held)
    decreases |fs|
  {
    if fs != [] {
      var m, own, id := Meaning(g, fs[0]), Sets(fs[0], IdField), IdAfter(fs[0], running);
      DataGathered(g, fs[0]);
      MeaningFrom(g, fs[0], START);
      if HasData(fs[0]) {
        IdsExactly(fs[1..], START, id, false);
        IdsCons(m.ToEvent(), Merged(fs[1..], START), id, RunningIds(fs[1..], id));
      } else {
        IdsExactly(fs[1..], m, id, own || held);
        assert RunningIds(fs, running) == RunningIds(fs[1..], id);
      }
    }
  }

  /** The ids delivered are the standard's last event ids exactly when no event relies on an id
      that an event before it was delivered with. */
  lemma RunningIdsExactly(fs: seq<seq<Line>>, last: seq<Line>, cut: string)
    requires FramesWellFormed(fs) && AllWellFormed(last) && '\n' !in cut
    ensures Ids(Drain(PrintFrames(fs, PrintLines(last, cut)), START)) == RunningIds(fs + [last], "")
            <==> IdsKept(fs + [last], "", true)
  {
    DrainInvertsFraming(fs, last, cut, START);
    IdsExactly(fs + [last], START, "", true);
  }

  function Marked(id: string, value: string): seq<Line> {
    [Set(IdField, true, id, false), Set(DataField, true, value, false)]
  }

  function Plain(value: string): seq<Line> { [Set(DataField, true, value, false)] }

  lemma MarkedSays(id: string, value: string)
    ensures Meaning(START, Marked(id, value)) == Gathered("", id, [value])
    ensures HasData(Marked(id, value)) && Sets(Marked(id, value), IdField)
  {
    var ls := Marked(id, value);
    assert ls[1..] == [ls[1]];
    MeaningOne(Said(START, ls[0]), ls[1]);
    assert [] + [value] == [value];
    assert ls[0].field == IdField && ls[1].field == DataField;
  }

  lemma PlainSays(value: string)
    ensures Meaning(START, Plain(value)) == Gathered("", "", [value])
    ensures HasData(Plain(value)) && !Sets(Plain(value), IdField)
  {
    MeaningOne(START, Plain(value)[0]);
    assert [] + [value] == [value];
    assert Plain(value)[0].field == DataField;
  }

  lemma OwnMarked(id: string, value: string)
    ensures Own([Marked(id, value)] + [Plain(value)]) == [Event("", value, id), Event("", value, "")]
  {
    MarkedSays(id, value);
    PlainSays(value);
    OneFrame(Marked(id, value), [Plain(value)], START);
    OneFrame(Plain(value), [], START);
    assert [Plain(value)] + [] == [Plain(value)];
  }

  lemma RunningMarked(id: string, value: string)
    ensures RunningIds([Marked(id, value)] + [Plain(value)], "") == [id, id]
  {
    MarkedSays(id, value);
    PlainSays(value);
    assert ([Marked(id, value)] + [Plain(value)])[1..] == [Plain(value)];
    assert [Plain(value)][1..] == [];
    assert RunningIds([Plain(value)], id) == [id];
  }

  /** An event with an id, then one without: the id is gone where the standard keeps it. */
  lemma IdForgotten(id: string, value: string)
    requires IsLineText(id) && IsLineText(value)
    ensures var fs := [Marked(id, value)] + [Plain(value)];
            && Drain(PrintFrames(fs, ""), START) == [Event("", value, id), Event("", value, "")]
            && RunningIds(fs, "") == [id, id]
  {
    MarkedSays(id, value);
    PlainSays(value);
    FramesRoundTrip([Marked(id, value)] + [Plain(value)]);
    OwnMarked(id, value);
    RunningMarked(id, value);
  }
}
