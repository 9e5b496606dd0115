/** The schema-registry codec (pkg/schemaregistry/codec.go): the wire header and
    the two caches, under any interleaving of callers and registry updates. */
module Codec {
  import opened Options

  // ----- Wire header -----

  type Byte = b: int | 0 <= b < 256

  const MAGIC: Byte := 0
  const HEADER_LEN := 5
  const TWO32 := 0x1_0000_0000

  /** Go's conversion of an int to uint32. */
  function Uint32(id: int): nat { id % TWO32 }

  function BigEndian(b: seq<Byte>): nat
    requires |b| == 4
  {
    ((b[0] as int * 256 + b[1] as int) * 256 + b[2] as int) * 256 + b[3] as int
  }

  /** The four bytes of a 32-bit number, from the most significant. */
  function Bytes(u: nat): (b: seq<Byte>)
    requires u < TWO32
    ensures |b| == 4
  {
    [u / 0x100_0000, u / 0x1_0000 % 256, u / 0x100 % 256, u % 256]
  }

  lemma BytesRecombine(u: nat)
    requires u < TWO32
    ensures BigEndian(Bytes(u)) == u
  {
    var a, b := u / 0x100, u / 0x1_0000;
    assert u == a * 256 + u % 256;
    assert a == b * 256 + a % 256;
    assert b == u / 0x100_0000 * 256 + b % 256;
  }

  method EncodeHeader(id: int) returns (out: array<Byte>)
    ensures fresh(out) && out.Length == HEADER_LEN
    ensures out[0] == MAGIC && BigEndian(out[1..]) == Uint32(id)
  {
    out := new Byte[HEADER_LEN];
    out[0] := MAGIC;
    var u := Uint32(id);
    out[1] := u / 0x100_0000;
    out[2] := u / 0x1_0000 % 256;
    out[3] := u / 0x100 % 256;
    out[4] := u % 256;
    BytesRecombine(u);
    assert out[1..] == Bytes(u);
  }

  /** The header EncodeHeader writes. */
  function Header(id: int): (h: seq<Byte>)
    ensures |h| == HEADER_LEN && h[0] == MAGIC && BigEndian(h[1..]) == Uint32(id)
  {
    var u := Uint32(id);
    BytesRecombine(u);
    var h := [MAGIC] + Bytes(u);
    assert h[1..] == Bytes(u);
    h
  }

  lemma Digit(x: int, y: int, a: int, b: int)
    requires 0 <= a < 256 && 0 <= b < 256 && x * 256 + a == y * 256 + b
    ensures x == y && a == b
  {
  }

  lemma BigEndianUnique(a: seq<Byte>, b: seq<Byte>)
    requires |a| == 4 && |b| == 4 && BigEndian(a) == BigEndian(b)
    ensures a == b
  {
    Digit((a[0] as int * 256 + a[1] as int) * 256 + a[2] as int, (b[0] as int * 256 + b[1] as int) * 256 + b[2] as int,
          a[3] as int, b[3] as int);
    Digit(a[0] as int * 256 + a[1] as int, b[0] as int * 256 + b[1] as int, a[2] as int, b[2] as int);
    Digit(a[0] as int, b[0] as int, a[1] as int, b[1] as int);
  }

  lemma HeaderUnique(h: seq<Byte>, id: int)
    requires |h| == HEADER_LEN && h[0] == MAGIC && BigEndian(h[1..]) == Uint32(id)
    ensures h == Header(id)
  {
    var g := Header(id);
    BigEndianUnique(h[1..], g[1..]);
    assert h == [h[0]] + h[1..] && g == [g[0]] + g[1..];
  }

  datatype Parsed = Parsed(id: nat, body: seq<Byte>) | TooShort | BadMagic

  function ParseHeader(data: seq<Byte>): Parsed {
    if |data| < HEADER_LEN then TooShort
    else if data[0] != MAGIC then BadMagic
    else Parsed(BigEndian(data[1..HEADER_LEN]), data[HEADER_LEN..])
  }

  /** Parsing gives back the body, and the id exactly when it fits in 32 bits. */
  lemma HeaderRoundTrip(id: int, body: seq<Byte>)
    ensures ParseHeader(Header(id) + body).Parsed?
    ensures ParseHeader(Header(id) + body).body == body
    ensures ParseHeader(Header(id) + body).id == id <==> 0 <= id < TWO32
  {
    var data := Header(id) + body;
    assert data[1..HEADER_LEN] == Header(id)[1..];
    assert data[HEADER_LEN..] == body;
  }

  /** Anything the parser accepts is the header of its id followed by its body. */
  lemma ParsedIsHeaded(data: seq<Byte>)
    requires ParseHeader(data).Parsed?
    ensures data == Header(ParseHeader(data).id) + ParseHeader(data).body
    ensures ParseHeader(data).id < TWO32
  {
    var p := ParseHeader(data);
    assert data == data[..HEADER_LEN] + data[HEADER_LEN..];
    assert data[..HEADER_LEN][1..] == data[1..HEADER_LEN];
    HeaderUnique(data[..HEADER_LEN], p.id);
  }

  // ----- Registry -----

  datatype Schema = Schema(id: int, kind: string, text: string)

  /** A handler is built from the type and the text of a schema, and nothing else. */
  datatype Handler = Handler(kind: string, text: string)

  function HandlerOf(s: Schema): Handler { Handler(s.kind, s.text) }

  /** The registry: the latest schema of a subject at each instant, any way it may
      change, and the schema of each id, which never changes. `compiles` says which
      handlers can be built. */
  datatype Registry = Registry(
    latest: (string, int) -> Option<Schema>,
    schema: int -> Option<Schema>,
    compiles: Handler -> bool)

  ghost predicate IdsImmutable(r: Registry) {
    && (forall sub, t :: r.latest(sub, t).Some? ==>
          r.schema(r.latest(sub, t).value.id) == r.latest(sub, t))
    && (forall id :: r.schema(id).Some? ==> r.schema(id).value.id == id)
  }

  // ----- Caches and calls -----

  /** A cached latest pointer; no expiry means it is kept forever. */
  datatype Entry = Entry(id: int, handler: Handler, expires: Option<int>)

  /** A call of Encode or Decode, by the last step it has taken. */
  datatype Call =
    | EncodeStarted(subject: string, now: int)
    | EncodeMissed(subject: string, now: int)
    | EncodeFetched(subject: string, now: int, schema: Schema)
    | EncodeDone(subject: string, now: int, entry: Entry)
    | DecodeStarted(id: int)
    | DecodeMissed(id: int)
    | DecodeFetched(id: int, schema: Schema)
    | DecodeDone(id: int, handler: Handler)
    | Failed

  datatype State = State(clock: int, byID: map<int, Handler>, bySub: map<string, Entry>, calls: map<nat, Call>)

  datatype Step =
    | Tick(d: nat)
    | BeginEncode(c: nat, subject: string)
    | BeginDecode(c: nat, id: int)
    | Lookup(c: nat)
    | Fetch(c: nat, answered: bool)
    | Publish(c: nat)

  predicate Live(e: Entry, now: int) { e.expires.None? || now < e.expires.value }

  function NewEntry(ttl: int, now: int, s: Schema): Entry {
    Entry(s.id, HandlerOf(s), if ttl > 0 then Some(now + ttl) else None)
  }

  function LookupCall(s: State, call: Call): Call {
    match call
    case EncodeStarted(sub, now) =>
      if sub in s.bySub && Live(s.bySub[sub], now) then EncodeDone(sub, now, s.bySub[sub]) else EncodeMissed(sub, now)
    case DecodeStarted(id) =>
      if id in s.byID then DecodeDone(id, s.byID[id]) else DecodeMissed(id)
    case _ => call
  }

  function FetchCall(r: Registry, clock: int, call: Call, answered: bool): Call {
    match call
    case EncodeMissed(sub, now) =>
      if answered && r.latest(sub, clock).Some? then EncodeFetched(sub, now, r.latest(sub, clock).value) else Failed
    case DecodeMissed(id) =>
      if answered && r.schema(id).Some? then DecodeFetched(id, r.schema(id).value) else Failed
    case _ => call
  }

  /** buildHandler, then the writes under the lock. */
  function PublishCall(r: Registry, ttl: int, s: State, c: nat, call: Call): State {
    match call
    case EncodeFetched(sub, now, schema) =>
      if !r.compiles(HandlerOf(schema)) then s.(calls := s.calls[c := Failed])
      else
        var e := NewEntry(ttl, now, schema);
        s.(bySub := s.bySub[sub := e], byID := s.byID[schema.id := e.handler],
           calls := s.calls[c := EncodeDone(sub, now, e)])
    case DecodeFetched(id, schema) =>
      if !r.compiles(HandlerOf(schema)) then s.(calls := s.calls[c := Failed])
      else s.(byID := s.byID[id := HandlerOf(schema)], calls := s.calls[c := DecodeDone(id, HandlerOf(schema))])
    case _ => s
  }

  /** One atomic step; a step that is not enabled changes nothing. */
  function Apply(r: Registry, ttl: int, s: State, step: Step): State {
    match step
    case Tick(d) => s.(clock := s.clock + d)
    case BeginEncode(c, sub) =>
      if c in s.calls then s else s.(calls := s.calls[c := EncodeStarted(sub, s.clock)])
    case BeginDecode(c, id) =>
      if c in s.calls then s else s.(calls := s.calls[c := DecodeStarted(id)])
    case Lookup(c) =>
      if c !in s.calls then s else s.(calls := s.calls[c := LookupCall(s, s.calls[c])])
    case Fetch(c, answered) =>
      if c !in s.calls then s else s.(calls := s.calls[c := FetchCall(r, s.clock, s.calls[c], answered)])
    case Publish(c) =>
      if c !in s.calls then s else PublishCall(r, ttl, s, c, s.calls[c])
  }

  function Start(clock: int): State { State(clock, map[], map[], map[]) }

  function Run(r: Registry, ttl: int, clock: int, steps: seq<Step>): State {
    if steps == [] then Start(clock)
    else Apply(r, ttl, Run(r, ttl, clock, steps[..|steps| - 1]), steps[|steps| - 1])
  }

  // ----- Invariant -----

  /** h is the handler of the registry's schema for the id. */
  ghost predicate IsHandler(r: Registry, id: int, h: Handler) {
    r.schema(id).Some? && HandlerOf(r.schema(id).value) == h
  }

  /** The id was the subject's latest at instant t. */
  ghost predicate LatestAt(r: Registry, sub: string, id: int, t: int) {
    r.latest(sub, t).Some? && r.latest(sub, t).value.id == id
  }

  /** A cached entry was fetched at some instant t and expires within ttl of it. */
  ghost predicate EntryOk(r: Registry, ttl: int, clock: int, sub: string, e: Entry) {
    && IsHandler(r, e.id, e.handler)
    && exists t ::
         t <= clock && LatestAt(r, sub, e.id, t) && (ttl > 0 ==> e.expires.Some? && e.expires.value <= t + ttl)
  }

  /** The id was the subject's latest within the ttl before the call read the clock, or after. */
  ghost predicate FreshFor(r: Registry, ttl: int, clock: int, sub: string, now: int, id: int) {
    exists t :: t <= clock && LatestAt(r, sub, id, t) && (ttl > 0 ==> t > now - ttl)
  }

  ghost predicate CallOk(r: Registry, ttl: int, clock: int, call: Call) {
    match call
    case EncodeStarted(sub, now) => now <= clock
    case EncodeMissed(sub, now) => now <= clock
    case EncodeFetched(sub, now, schema) =>
      && r.schema(schema.id) == Some(schema)
      && exists t :: now <= t <= clock && LatestAt(r, sub, schema.id, t)
    case EncodeDone(sub, now, e) => IsHandler(r, e.id, e.handler) && FreshFor(r, ttl, clock, sub, now, e.id)
    case DecodeStarted(id) => true
    case DecodeMissed(id) => true
    case DecodeFetched(id, schema) => r.schema(id) == Some(schema)
    case DecodeDone(id, h) => IsHandler(r, id, h)
    case Failed => true
  }

  ghost predicate Inv(r: Registry, ttl: int, s: State) {
    && (forall id :: id in s.byID ==> IsHandler(r, id, s.byID[id]))
    && (forall sub :: sub in s.bySub ==> EntryOk(r, ttl, s.clock, sub, s.bySub[sub]))
    && (forall c :: c in s.calls ==> CallOk(r, ttl, s.clock, s.calls[c]))
  }

  lemma TimePasses(r: Registry, ttl: int, s: State, d: nat)
    requires Inv(r, ttl, s)
    ensures Inv(r, ttl, s.(clock := s.clock + d))
  {
  }

  lemma LookupKeeps(r: Registry, ttl: int, s: State, call: Call)
    requires Inv(r, ttl, s) && CallOk(r, ttl, s.clock, call)
    ensures CallOk(r, ttl, s.clock, LookupCall(s, call))
  {
    match call
    case EncodeStarted(sub, now) =>
      if sub in s.bySub && Live(s.bySub[sub], now) {
        var e := s.bySub[sub];
        assert EntryOk(r, ttl, s.clock, sub, e);
        var t :|
          t <= s.clock && LatestAt(r, sub, e.id, t) && (ttl > 0 ==> e.expires.Some? && e.expires.value <= t + ttl);
        assert ttl > 0 ==> t > now - ttl;
      }
    case _ =>
  }

  lemma FetchKeeps(r: Registry, ttl: int, clock: int, call: Call, answered: bool)
    requires IdsImmutable(r) && CallOk(r, ttl, clock, call)
    ensures CallOk(r, ttl, clock, FetchCall(r, clock, call, answered))
  {
    match call
    case EncodeMissed(sub, now) =>
      if answered && r.latest(sub, clock).Some? {
        assert LatestAt(r, sub, r.latest(sub, clock).value.id, clock);
      }
    case _ =>
  }

  lemma PublishKeeps(r: Registry, ttl: int, s: State, c: nat)
    requires IdsImmutable(r) && Inv(r, ttl, s) && c in s.calls
    ensures Inv(r, ttl, PublishCall(r, ttl, s, c, s.calls[c]))
  {
    var call := s.calls[c];
    assert CallOk(r, ttl, s.clock, call);
    match call
    case EncodeFetched(sub, now, schema) =>
      var t :| now <= t <= s.clock && LatestAt(r, sub, schema.id, t);
      var e := NewEntry(ttl, now, schema);
      assert EntryOk(r, ttl, s.clock, sub, e);
      assert FreshFor(r, ttl, s.clock, sub, now, e.id);
    case _ =>
  }

  lemma StepKeeps(r: Registry, ttl: int, s: State, step: Step)
    requires IdsImmutable(r) && Inv(r, ttl, s)
    ensures Inv(r, ttl, Apply(r, ttl, s, step))
  {
    match step
    case Tick(d) => TimePasses(r, ttl, s, d);
    case BeginEncode(c, sub) =>
    case BeginDecode(c, id) =>
    case Lookup(c) =>
      if c in s.calls {
        LookupKeeps(r, ttl, s, s.calls[c]);
      }
    case Fetch(c, answered) =>
      if c in s.calls {
        FetchKeeps(r, ttl, s.clock, s.calls[c], answered);
      }
    case Publish(c) =>
      if c in s.calls {
        PublishKeeps(r, ttl, s, c);
      }
  }

  /** The invariant holds in every reachable state. */
  lemma {:induction false} Reachable(r: Registry, ttl: int, clock: int, steps: seq<Step>)
    requires IdsImmutable(r)
    ensures Inv(r, ttl, Run(r, ttl, clock, steps))
  {
    if steps != [] {
      Reachable(r, ttl, clock, steps[..|steps| - 1]);
      StepKeeps(r, ttl, Run(r, ttl, clock, steps[..|steps| - 1]), steps[|steps| - 1]);
    }
  }

  // ----- What every run guarantees -----

  /** With a positive ttl, the id an Encode call used was the subject's latest at
      some instant after `now - ttl`, where `now` is when the call read the clock:
      in every interleaving, whoever overwrote the cache with what. */
  lemma EncodeIsFresh(r: Registry, ttl: int, clock: int, steps: seq<Step>, c: nat, sub: string, now: int, e: Entry)
    requires IdsImmutable(r) && ttl > 0
    requires var s := Run(r, ttl, clock, steps); c in s.calls && s.calls[c] == EncodeDone(sub, now, e)
    ensures exists t :: now - ttl < t <= Run(r, ttl, clock, steps).clock && LatestAt(r, sub, e.id, t)
  {
    var s := Run(r, ttl, clock, steps);
    Reachable(r, ttl, clock, steps);
    assert CallOk(r, ttl, s.clock, s.calls[c]);
    var t :| t <= s.clock && LatestAt(r, sub, e.id, t) && (ttl > 0 ==> t > now - ttl);
  }

  /** In any run, whatever id an Encode call wrote, a Decode call of that id uses
      the very handler that encoded. */
  lemma DecodeUsesTheEncodingSchema(r: Registry, ttl: int, clock: int, steps: seq<Step>, c: nat, d: nat)
    requires IdsImmutable(r)
    requires var s := Run(r, ttl, clock, steps);
             && c in s.calls && s.calls[c].EncodeDone? && d in s.calls && s.calls[d].DecodeDone?
             && s.calls[d].id == s.calls[c].entry.id
    ensures var s := Run(r, ttl, clock, steps); s.calls[d].handler == s.calls[c].entry.handler
  {
    var s := Run(r, ttl, clock, steps);
    Reachable(r, ttl, clock, steps);
    assert CallOk(r, ttl, s.clock, s.calls[c]) && CallOk(r, ttl, s.clock, s.calls[d]);
  }

  /** End to end: the bytes of an Encode call, given to a Decode call that reaches
      its handler in the same run, give back the value, when the handler itself
      round-trips it and the id fits the header. */
  lemma EncodeDecodeRoundTrip<V>(r: Registry, ttl: int, clock: int, steps: seq<Step>, c: nat, d: nat,
                                 enc: (Handler, V) -> seq<Byte>, dec: (Handler, seq<Byte>) -> Option<V>, v: V)
    requires IdsImmutable(r)
    requires var s := Run(r, ttl, clock, steps); c in s.calls && s.calls[c].EncodeDone?
    requires var e := Run(r, ttl, clock, steps).calls[c].entry;
             0 <= e.id < TWO32 && dec(e.handler, enc(e.handler, v)) == Some(v)
    requires var s := Run(r, ttl, clock, steps); var e := s.calls[c].entry;
             && d in s.calls && s.calls[d].DecodeDone?
             && s.calls[d].id == ParseHeader(Header(e.id) + enc(e.handler, v)).id
    ensures var s := Run(r, ttl, clock, steps); var e := s.calls[c].entry;
            dec(s.calls[d].handler, ParseHeader(Header(e.id) + enc(e.handler, v)).body) == Some(v)
  {
    var e := Run(r, ttl, clock, steps).calls[c].entry;
    HeaderRoundTrip(e.id, enc(e.handler, v));
    DecodeUsesTheEncodingSchema(r, ttl, clock, steps, c, d);
  }

  lemma RunSnoc(r: Registry, ttl: int, clock: int, steps: seq<Step>, step: Step)
    ensures Run(r, ttl, clock, steps + [step]) == Apply(r, ttl, Run(r, ttl, clock, steps), step)
  {
    assert (steps + [step])[..|steps|] == steps;
  }

  // ----- A call goes through -----

  /** The caller whose call the step advances. */
  function Caller(step: Step): Option<nat> {
    match step
    case Tick(_) => None
    case BeginEncode(c, _) => Some(c)
    case BeginDecode(c, _) => Some(c)
    case Lookup(c) => Some(c)
    case Fetch(c, _) => Some(c)
    case Publish(c) => Some(c)
  }

  predicate ByOthers(c: nat, steps: seq<Step>) { forall i :: 0 <= i < |steps| ==> Caller(steps[i]) != Some(c) }

  function RunFrom(r: Registry, ttl: int, s: State, steps: seq<Step>): State
    decreases |steps|
  {
    if steps == [] then s else RunFrom(r, ttl, Apply(r, ttl, s, steps[0]), steps[1..])
  }

  /** What others do leaves a call where it is. */
  lemma {:induction false} OthersLeaveCall(r: Registry, ttl: int, s: State, steps: seq<Step>, c: nat)
    requires c in s.calls && ByOthers(c, steps)
    ensures var e := RunFrom(r, ttl, s, steps); c in e.calls && e.calls[c] == s.calls[c] && s.clock <= e.clock
    decreases |steps|
  {
    if steps != [] {
      assert Caller(steps[0]) != Some(c);
      OthersLeaveCall(r, ttl, Apply(r, ttl, s, steps[0]), steps[1..], c);
    }
  }

  /** The states in which call c looks up and fetches, and the one it ends in, others taking any
      steps between its own. */
  function Looking(r: Registry, ttl: int, s: State, begin: Step, z: seq<Step>): State {
    RunFrom(r, ttl, Apply(r, ttl, s, begin), z)
  }

  function Fetching(r: Registry, ttl: int, looking: State, c: nat, a: seq<Step>): State {
    RunFrom(r, ttl, Apply(r, ttl, looking, Lookup(c)), a)
  }

  function Ending(r: Registry, ttl: int, fetching: State, c: nat, answered: bool, b: seq<Step>): State {
    Apply(r, ttl, RunFrom(r, ttl, Apply(r, ttl, fetching, Fetch(c, answered)), b), Publish(c))
  }

  lemma {:induction false} RunKeeps(r: Registry, ttl: int, s: State, steps: seq<Step>)
    requires IdsImmutable(r) && Inv(r, ttl, s)
    ensures Inv(r, ttl, RunFrom(r, ttl, s, steps))
    decreases |steps|
  {
    if steps != [] {
      StepKeeps(r, ttl, s, steps[0]);
      RunKeeps(r, ttl, Apply(r, ttl, s, steps[0]), steps[1..]);
    }
  }

  lemma DecodeFromLookup(r: Registry, ttl: int, s: State, c: nat, id: int, a: seq<Step>, answered: bool, b: seq<Step>)
    requires IdsImmutable(r) && Inv(r, ttl, s) && ByOthers(c, a) && ByOthers(c, b)
    requires c in s.calls && s.calls[c] == DecodeStarted(id)
    ensures var e := Ending(r, ttl, Fetching(r, ttl, s, c, a), c, answered, b);
            && c in e.calls
            && if id in s.byID || (answered && r.schema(id).Some? && r.compiles(HandlerOf(r.schema(id).value)))
               then r.schema(id).Some? && e.calls[c] == DecodeDone(id, HandlerOf(r.schema(id).value))
               else e.calls[c] == Failed
  {
    var fetching := Fetching(r, ttl, s, c, a);
    OthersLeaveCall(r, ttl, Apply(r, ttl, s, Lookup(c)), a, c);
    OthersLeaveCall(r, ttl, Apply(r, ttl, fetching, Fetch(c, answered)), b, c);
  }

  /** Whatever others do meanwhile, a decode that takes its steps ends with the handler of the
      registry's schema exactly when the id is cached at its lookup or the registry answers with
      a schema that compiles; otherwise it fails. */
  lemma DecodeGoesThrough(r: Registry, ttl: int, s: State, c: nat, id: int, z: seq<Step>,
                          a: seq<Step>, answered: bool, b: seq<Step>)
    requires IdsImmutable(r) && Inv(r, ttl, s) && c !in s.calls
    requires ByOthers(c, z) && ByOthers(c, a) && ByOthers(c, b)
    ensures var looking := Looking(r, ttl, s, BeginDecode(c, id), z);
            var e := Ending(r, ttl, Fetching(r, ttl, looking, c, a), c, answered, b);
            && c in e.calls
            && if id in looking.byID ||
                  (answered && r.schema(id).Some? && r.compiles(HandlerOf(r.schema(id).value)))
               then r.schema(id).Some? && e.calls[c] == DecodeDone(id, HandlerOf(r.schema(id).value))
               else e.calls[c] == Failed
  {
    var began := Apply(r, ttl, s, BeginDecode(c, id));
    OthersLeaveCall(r, ttl, began, z, c);
    StepKeeps(r, ttl, s, BeginDecode(c, id));
    RunKeeps(r, ttl, began, z);
    DecodeFromLookup(r, ttl, RunFrom(r, ttl, began, z), c, id, a, answered, b);
  }

  /** An encode that began at `now` ended with the entry, and both caches hold it. */
  ghost predicate Encoded(e: State, c: nat, sub: string, now: int, entry: Entry) {
    && c in e.calls && e.calls[c] == EncodeDone(sub, now, entry)
    && sub in e.bySub && e.bySub[sub] == entry
    && entry.id in e.byID && e.byID[entry.id] == entry.handler
  }

  lemma EncodeFromLookup(r: Registry, ttl: int, s: State, c: nat, sub: string, now: int,
                         a: seq<Step>, answered: bool, b: seq<Step>)
    requires ByOthers(c, a) && ByOthers(c, b) && c in s.calls && s.calls[c] == EncodeStarted(sub, now)
    ensures var fetching := Fetching(r, ttl, s, c, a);
            var e, latest := Ending(r, ttl, fetching, c, answered, b), r.latest(sub, fetching.clock);
            && c in e.calls
            && if sub in s.bySub && (s.bySub[sub].expires.None? || now < s.bySub[sub].expires.value)
               then e.calls[c] == EncodeDone(sub, now, s.bySub[sub])
               else if answered && latest.Some? && r.compiles(HandlerOf(latest.value))
               then Encoded(e, c, sub, now, Entry(latest.value.id, HandlerOf(latest.value),
                                                  if ttl > 0 then Some(now + ttl) else None))
               else e.calls[c] == Failed
  {
    var fetching := Fetching(r, ttl, s, c, a);
    OthersLeaveCall(r, ttl, Apply(r, ttl, s, Lookup(c)), a, c);
    OthersLeaveCall(r, ttl, Apply(r, ttl, fetching, Fetch(c, answered)), b, c);
  }

  /** The same for an encode: an unexpired entry found at its lookup is used as it is; otherwise
      it ends exactly when the registry answers with a latest schema that compiles, with that
      schema's id and handler and an expiry counted from when the call began. */
  lemma EncodeGoesThrough(r: Registry, ttl: int, s: State, c: nat, sub: string, z: seq<Step>,
                          a: seq<Step>, answered: bool, b: seq<Step>)
    requires c !in s.calls && ByOthers(c, z) && ByOthers(c, a) && ByOthers(c, b)
    ensures var looking := Looking(r, ttl, s, BeginEncode(c, sub), z);
            var fetching := Fetching(r, ttl, looking, c, a);
            var e, latest := Ending(r, ttl, fetching, c, answered, b), r.latest(sub, fetching.clock);
            && c in e.calls
            && if sub in looking.bySub &&
                  (looking.bySub[sub].expires.None? || s.clock < looking.bySub[sub].expires.value)
               then e.calls[c] == EncodeDone(sub, s.clock, looking.bySub[sub])
               else if answered && latest.Some? && r.compiles(HandlerOf(latest.value))
               then Encoded(e, c, sub, s.clock, Entry(latest.value.id, HandlerOf(latest.value),
                                                      if ttl > 0 then Some(s.clock + ttl) else None))
               else e.calls[c] == Failed
  {
    var began := Apply(r, ttl, s, BeginEncode(c, sub));
    OthersLeaveCall(r, ttl, began, z, c);
    EncodeFromLookup(r, ttl, RunFrom(r, ttl, began, z), c, sub, s.clock, a, answered, b);
  }

  const V1 := Schema(1, "AVRO", "v1")
  const V2 := Schema(2, "AVRO", "v2")

  /** A registry whose only subject moves on right after instant 0. */
  function MovingRegistry(): Registry {
    Registry((sub: string, t: int) => if t <= 0 then Some(V1) else Some(V2),
             (id: int) => if id == 1 then Some(V1) else if id == 2 then Some(V2) else None,
             (h: Handler) => true)
  }

  lemma CachedForever(r: Registry, ttl: int, steps: seq<Step>, e: Entry, wait: nat)
    requires var s := Run(r, ttl, 0, steps); s.bySub == map["s" := e] && s.clock == 0 && 1 !in s.calls
    requires e.expires.None?
    ensures exists more :: var s := Run(r, ttl, 0, more); 1 in s.calls && s.calls[1] == EncodeDone("s", wait, e)
  {
    RunSnoc(r, ttl, 0, steps, Tick(wait));
    var a := steps + [Tick(wait)];
    RunSnoc(r, ttl, 0, a, BeginEncode(1, "s"));
    var b := a + [BeginEncode(1, "s")];
    RunSnoc(r, ttl, 0, b, Lookup(1));
    var c := b + [Lookup(1)];
    assert Run(r, ttl, 0, c).calls[1] == EncodeDone("s", wait, e);
  }

  /** Without a positive ttl there is no such bound: an entry fetched once is used
      however long ago that was, while the registry moves on. */
  lemma NoTtlNoFreshness(ttl: int, wait: nat)
    requires ttl <= 0 && wait > 0
    ensures IdsImmutable(MovingRegistry())
    ensures exists steps :: var s := Run(MovingRegistry(), ttl, 0, steps);
              && 1 in s.calls && s.calls[1] == EncodeDone("s", wait, Entry(1, HandlerOf(V1), None))
              && forall t :: t > 0 ==> !LatestAt(MovingRegistry(), "s", 1, t)
  {
    var r := MovingRegistry();
    var e := Entry(1, HandlerOf(V1), None);
    RunSnoc(r, ttl, 0, [], BeginEncode(0, "s"));
    var a := [] + [BeginEncode(0, "s")];
    RunSnoc(r, ttl, 0, a, Lookup(0));
    assert Run(r, ttl, 0, a + [Lookup(0)]).calls[0] == EncodeMissed("s", 0);
    var b := a + [Lookup(0)];
    RunSnoc(r, ttl, 0, b, Fetch(0, true));
    assert Run(r, ttl, 0, b + [Fetch(0, true)]).calls[0] == EncodeFetched("s", 0, V1);
    var c := b + [Fetch(0, true)];
    RunSnoc(r, ttl, 0, c, Publish(0));
    assert Run(r, ttl, 0, c + [Publish(0)]).bySub == map["s" := e];
    CachedForever(r, ttl, c + [Publish(0)], e, wait);
  }

  // ----- The codec object -----

  /** The steps left to call 0 after it began: look up, fetch, publish. */
  function Finished(r: Registry, ttl: int, s: State, answered: bool): State {
    Apply(r, ttl, Apply(r, ttl, Apply(r, ttl, s, Lookup(0)), Fetch(0, answered)), Publish(0))
  }

  lemma FinishedIs(r: Registry, ttl: int, s: State, call: Call, answered: bool)
    requires s.calls == map[0 := call]
    ensures var fetched := FetchCall(r, s.clock, LookupCall(s, call), answered);
            Finished(r, ttl, s, answered) == PublishCall(r, ttl, s.(calls := map[0 := fetched]), 0, fetched)
  {
    var looked := LookupCall(s, call);
    assert s.calls[0 := looked] == map[0 := looked];
    var fetched := FetchCall(r, s.clock, looked, answered);
    assert map[0 := looked][0 := fetched] == map[0 := fetched];
  }

  /** The codec's own fields. A call that nobody interleaves with takes exactly the
      four steps begin, look up, fetch, publish of the protocol above. */
  class Codec {
    const ttl: int
    var byID: map<int, Handler>
    var bySub: map<string, Entry>

    constructor (ttl: int)
      ensures this.ttl == ttl && byID == map[] && bySub == map[]
    {
      this.ttl := ttl;
      byID, bySub := map[], map[];
    }

    /** The protocol state in which `call` is call 0 and the only one. */
    ghost function View(clock: int, call: Call): State
      reads this
    {
      State(clock, byID, bySub, map[0 := call])
    }

    /** An unexpired entry is returned as it is, whatever the registry. Otherwise the subject's
        latest schema is fetched and built, and both caches get what is returned. */
    method HandlerForSubject(r: Registry, clock: int, subject: string, answered: bool) returns (entry: Option<Entry>)
      modifies this
      ensures subject in old(bySub) &&
              (old(bySub)[subject].expires.None? || clock < old(bySub)[subject].expires.value) ==>
                entry == Some(old(bySub)[subject]) && bySub == old(bySub) && byID == old(byID)
      ensures !(subject in old(bySub) &&
                (old(bySub)[subject].expires.None? || clock < old(bySub)[subject].expires.value)) ==>
                && (entry.Some? <==> answered && r.latest(subject, clock).Some? &&
                                     r.compiles(HandlerOf(r.latest(subject, clock).value)))
                && (entry.Some? ==>
                      && entry.value.id == r.latest(subject, clock).value.id
                      && entry.value.handler == HandlerOf(r.latest(subject, clock).value)
                      && entry.value.expires == (if ttl > 0 then Some(clock + ttl) else None)
                      && bySub == old(bySub)[subject := entry.value]
                      && byID == old(byID)[entry.value.id := entry.value.handler])
                && (entry.None? ==> bySub == old(bySub) && byID == old(byID))
      ensures Finished(r, ttl, old(View(clock, EncodeStarted(subject, clock))), answered) ==
              View(clock, if entry.Some? then EncodeDone(subject, clock, entry.value) else Failed)
    {
      FinishedIs(r, ttl, View(clock, EncodeStarted(subject, clock)), EncodeStarted(subject, clock), answered);
      var now := clock;
      if subject in bySub && (bySub[subject].expires.None? || now < bySub[subject].expires.value) {
        return Some(bySub[subject]);
      }
      if !answered || r.latest(subject, clock).None? {
        return None;
      }
      var schema := r.latest(subject, clock).value;
      if !r.compiles(HandlerOf(schema)) {
        return None;
      }
      var expires: Option<int> := None;
      if ttl > 0 {
        expires := Some(now + ttl);
      }
      var fetched := Entry(schema.id, HandlerOf(schema), expires);
      bySub := bySub[subject := fetched];
      byID := byID[schema.id := HandlerOf(schema)];
      return Some(fetched);
    }

    /** A cached handler is returned as it is. Otherwise the schema of the id is fetched and
        built, and the cache gets what is returned. */
    method HandlerForID(r: Registry, clock: int, id: int, answered: bool) returns (h: Option<Handler>)
      modifies this
      ensures h.Some? <==>
              id in old(byID) || (answered && r.schema(id).Some? && r.compiles(HandlerOf(r.schema(id).value)))
      ensures h.Some? ==> h.value == if id in old(byID) then old(byID)[id] else HandlerOf(r.schema(id).value)
      ensures byID == (if h.Some? then old(byID)[id := h.value] else old(byID)) && bySub == old(bySub)
      ensures Finished(r, ttl, old(View(clock, DecodeStarted(id))), answered) ==
              View(clock, if h.Some? then DecodeDone(id, h.value) else Failed)
    {
      FinishedIs(r, ttl, View(clock, DecodeStarted(id)), DecodeStarted(id), answered);
      if id in byID {
        assert byID[id := byID[id]] == byID;
        return Some(byID[id]);
      }
      if !answered || r.schema(id).None? {
        return None;
      }
      var schema := r.schema(id).value;
      if !r.compiles(HandlerOf(schema)) {
        return None;
      }
      byID := byID[id := HandlerOf(schema)];
      return Some(HandlerOf(schema));
    }
  }
}
