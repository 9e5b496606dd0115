/** The read loops of the WebSocket and SSE steps (pkg/orchestrator/websocket.go,
    pkg/orchestrator/sse.go), which are the same loop over different sessions, run
    against a virtual clock. */
module StreamLoop {
  import opened Matching
  import opened Options
  import Sequences

  /** `id` is empty for a WebSocket message. */
  datatype Message = Message(id: string, payload: Payload)

  /** What the session receives next, and when: a message, or the end of the connection. */
  datatype Arrival = Arrival(at: int, message: Option<Message>)

  /** `count` and `every` are off unless positive; `pauseFor` is None when it does not parse.
      A session that honours the context of a read comes back `lag` after the context has ended;
      one that does not looks at the context when the read begins, and then waits for what comes. */
  datatype Config = Config(matcher: Option<Payload -> Check>, count: int, every: int, pauseFor: Option<int>,
                           deadline: int, cancelAt: Option<int>, lag: nat, honours: bool)
  {
    predicate CancelledBy(t: int) { cancelAt.Some? && cancelAt.value <= t }

    /** When the context of a read ends. */
    function Limit(): int {
      if cancelAt.Some? && cancelAt.value < deadline then cancelAt.value else deadline
    }

    function Checked(p: Payload): Check { if matcher.Some? then matcher.value(p) else Miss }

    /** The kth message ends the step. */
    predicate Stops(k: nat, p: Payload) { Checked(p) != Miss || (count > 0 && k >= count) }
  }

  /** `Hung` is a step that stays in a read for ever. */
  datatype Outcome =
    | Matched | Counted | QuietTimeout | TimedOut | Cancelled | MatchFailed | ReadFailed | BadPause | Hung

  predicate Passed(o: Outcome) { o.Matched? || o.Counted? || o.QuietTimeout? }

  datatype Entry = Entry(payload: Payload, ts: int)

  datatype State = State(now: int, received: nat, log: seq<Entry>, previous: Option<Message>)

  function Max(a: int, b: int): int { if a < b then b else a }

  function TimeoutOutcome(cfg: Config): Outcome { if cfg.matcher.Some? then TimedOut else QuietTimeout }

  /** What the step makes of a read that failed at t. */
  function FailureAt(cfg: Config, t: int): Outcome {
    if cfg.CancelledBy(t) then Cancelled else if t > cfg.deadline then TimeoutOutcome(cfg) else ReadFailed
  }

  /** The message read at time t is in the store. */
  function Recorded(st: State, m: Message, t: int): State {
    st.(now := t, received := st.received + 1, log := st.log + [Entry(m.payload, t)])
  }

  /** A read that begins at `start` gets what arrives at `at`. */
  predicate InTime(cfg: Config, start: int, at: int) {
    start < cfg.Limit() && (cfg.honours ==> at < cfg.Limit())
  }

  predicate Arrives(cfg: Config, now: int, script: seq<Arrival>) {
    script != [] && InTime(cfg, now, script[0].at)
  }

  /** A read that waits for what never comes. */
  predicate Hangs(cfg: Config, now: int, script: seq<Arrival>) {
    script == [] && !cfg.honours && now < cfg.Limit()
  }

  predicate PauseDue(cfg: Config, received: nat) { cfg.every > 0 && received % cfg.every == 0 }

  function Pause(cfg: Config, now: int): int
    requires cfg.pauseFor.Some?
  {
    if cfg.pauseFor.value > cfg.deadline - now then cfg.deadline - now else cfg.pauseFor.value
  }

  function Run(cfg: Config, st: State, script: seq<Arrival>): (Outcome, State)
    decreases |script|
  {
    if cfg.CancelledBy(st.now) then (Cancelled, st)
    else if st.now > cfg.deadline then (TimeoutOutcome(cfg), st)
    else if Hangs(cfg, st.now, script) then (Hung, st)
    else if !Arrives(cfg, st.now, script) then
      var t := cfg.Limit() + cfg.lag;
      (FailureAt(cfg, t), st.(now := t))
    else
      var t := Max(st.now, script[0].at);
      if script[0].message.None? then (FailureAt(cfg, t), st.(now := t))
      else
        var m := script[0].message.value;
        var st := Recorded(st, m, t);
        if cfg.Checked(m.payload) == Broken then (MatchFailed, st)
        else if cfg.Checked(m.payload) == Hit then (Matched, st.(previous := Some(m)))
        else if cfg.count > 0 && st.received >= cfg.count then (Counted, st)
        else if !PauseDue(cfg, st.received) then Run(cfg, st, script[1..])
        else if cfg.pauseFor.None? then (BadPause, st)
        else
          var pause := Pause(cfg, t);
          if pause <= 0 then Run(cfg, st, script[1..])
          else if cfg.CancelledBy(t + pause) then (Cancelled, st.(now := Max(t, cfg.cancelAt.value)))
          else Run(cfg, st.(now := t + pause), script[1..])
  }

  predicate PauseOk(cfg: Config, received: nat) { PauseDue(cfg, received) ==> cfg.pauseFor.Some? }

  /** When the step reads again after receiving a message at t. */
  function After(cfg: Config, t: int, received: nat): int {
    if PauseDue(cfg, received) && cfg.pauseFor.Some? && Pause(cfg, t) > 0 then t + Pause(cfg, t) else t
  }

  /** The runner's clock, store and previous record while a step reads a session. */
  class Step {
    var now: int
    var log: seq<Entry>
    var previous: Option<Message>
    var script: seq<Arrival>

    constructor (now: int, script: seq<Arrival>)
      ensures this.now == now && log == [] && previous == None && this.script == script
    {
      this.now, log, previous, this.script := now, [], None, script;
    }

    method ReadLoop(cfg: Config) returns (o: Outcome)
      modifies this
      ensures var (o', st) := Run(cfg, State(old(now), 0, old(log), old(previous)), old(script));
              o == o' && now == st.now && log == st.log && previous == st.previous
    {
      var received := 0;
      while true
        invariant Run(cfg, State(now, received, log, previous), script) ==
                  Run(cfg, State(old(now), 0, old(log), old(previous)), old(script))
        decreases |script|
      {
        if cfg.CancelledBy(now) {
          return Cancelled;
        }
        if now > cfg.deadline {
          return TimeoutOutcome(cfg);
        }
        var msg, hung := Read(cfg);
        if hung {
          return Hung;
        }
        if msg.None? {
          if cfg.CancelledBy(now) {
            return Cancelled;
          }
          if now > cfg.deadline {
            return TimeoutOutcome(cfg);
          }
          return ReadFailed;
        }
        var m := msg.value;
        log := log + [Entry(m.payload, now)];
        received := received + 1;
        if cfg.matcher.Some? {
          var c := cfg.matcher.value(m.payload);
          if c == Broken {
            return MatchFailed;
          }
          if c == Hit {
            previous := Some(m);
            return Matched;
          }
        }
        if cfg.count > 0 && received >= cfg.count {
          return Counted;
        }
        if cfg.every > 0 && received % cfg.every == 0 {
          if cfg.pauseFor.None? {
            return BadPause;
          }
          var pause := cfg.pauseFor.value;
          if pause > cfg.deadline - now {
            pause := cfg.deadline - now;
          }
          if pause > 0 {
            if cfg.CancelledBy(now + pause) {
              now := Max(now, cfg.cancelAt.value);
              return Cancelled;
            }
            now := now + pause;
          }
        }
      }
    }

    /** What is assumed of a session: one read under a context that ends at the limit. */
    method Read(cfg: Config) returns (msg: Option<Message>, hung: bool)
      modifies `now, `script
      ensures hung == Hangs(cfg, old(now), old(script))
      ensures if Arrives(cfg, old(now), old(script)) then
                && msg == old(script)[0].message && now == Max(old(now), old(script)[0].at)
                && script == old(script)[1..]
              else msg == None && script == old(script) && now == if hung then old(now) else cfg.Limit() + cfg.lag
    {
      msg, hung := None, Hangs(cfg, now, script);
      if Arrives(cfg, now, script) {
        msg := script[0].message;
        now := Max(now, script[0].at);
        script := script[1..];
      } else if !hung {
        now := cfg.Limit() + cfg.lag;
      }
    }
  }

  // ----- What is recorded -----

  predicate IsMessages(script: seq<Arrival>) { forall i :: 0 <= i < |script| ==> script[i].message.Some? }

  function Payloads(script: seq<Arrival>): (r: seq<Payload>)
    requires IsMessages(script)
    ensures |r| == |script| && forall i :: 0 <= i < |script| ==> r[i] == script[i].message.value.payload
  {
    seq(|script|, i requires 0 <= i < |script| => script[i].message.value.payload)
  }

  function Logged(log: seq<Entry>): (r: seq<Payload>)
    ensures |r| == |log| && forall i :: 0 <= i < |log| ==> r[i] == log[i].payload
  {
    seq(|log|, i requires 0 <= i < |log| => log[i].payload)
  }

  /** The run's first step takes a message and goes on in state `Next`. */
  predicate GoesOn(cfg: Config, st: State, script: seq<Arrival>) {
    && !cfg.CancelledBy(st.now) && st.now <= cfg.deadline && Arrives(cfg, st.now, script)
    && script[0].message.Some?
    && var m, t := script[0].message.value, Max(st.now, script[0].at);
       && !cfg.Stops(st.received + 1, m.payload)
       && PauseOk(cfg, st.received + 1)
       && !(cfg.CancelledBy(After(cfg, t, st.received + 1)) && After(cfg, t, st.received + 1) > t)
  }

  function Next(cfg: Config, st: State, script: seq<Arrival>): State
    requires script != [] && script[0].message.Some?
  {
    var t := Max(st.now, script[0].at);
    Recorded(st, script[0].message.value, t).(now := After(cfg, t, st.received + 1))
  }

  lemma RunNext(cfg: Config, st: State, script: seq<Arrival>)
    requires GoesOn(cfg, st, script)
    ensures Run(cfg, st, script) == Run(cfg, Next(cfg, st, script), script[1..])
  {
  }

  predicate EndsAtMessage(o: Outcome) { o.Matched? || o.Counted? || o.MatchFailed? }

  /** How a step ends at a message that stops it. */
  function StopOutcome(cfg: Config, p: Payload): Outcome {
    match cfg.Checked(p)
    case Hit => Matched
    case Broken => MatchFailed
    case Miss => Counted
  }

  /** None of the first n - 1 messages stops the step. */
  predicate NoneStops(cfg: Config, received: nat, script: seq<Arrival>, n: int)
    requires n <= |script| && (n > 0 ==> IsMessages(script[..n]))
  {
    forall i :: 0 <= i < n - 1 ==> !cfg.Stops(received + i + 1, script[..n][i].message.value.payload)
  }

  /** From st to e the run took the first n arrivals, all messages, none before the nth
      stopping the step; it ended at a message exactly when the nth does, and as that one says. */
  ghost predicate TookPrefix(cfg: Config, st: State, script: seq<Arrival>, o: Outcome, e: State) {
    var n := e.received - st.received;
    && 0 <= n <= |script| && IsMessages(script[..n])
    && Logged(e.log) == Logged(st.log) + Payloads(script[..n])
    && NoneStops(cfg, st.received, script, n)
    && (EndsAtMessage(o) <==> n > 0 && cfg.Stops(e.received, script[n - 1].message.value.payload))
    && (EndsAtMessage(o) ==> o == StopOutcome(cfg, script[n - 1].message.value.payload))
    && e.previous == if o.Matched? then script[n - 1].message else st.previous
  }

  lemma LoggedSnoc(log: seq<Entry>, e: Entry)
    ensures Logged(log + [e]) == Logged(log) + [e.payload]
  {
  }

  lemma PayloadsCons(script: seq<Arrival>, n: nat)
    requires 0 < n <= |script| && script[0].message.Some? && IsMessages(script[1..][..n - 1])
    ensures IsMessages(script[..n])
    ensures Payloads(script[..n]) == [script[0].message.value.payload] + Payloads(script[1..][..n - 1])
  {
    assert script[..n] == [script[0]] + script[1..][..n - 1];
  }

  lemma NoneStopsCons(cfg: Config, received: nat, script: seq<Arrival>, n: nat)
    requires 0 < n <= |script| && IsMessages(script[..n]) && IsMessages(script[1..][..n - 1])
    requires !cfg.Stops(received + 1, script[0].message.value.payload)
    requires NoneStops(cfg, received + 1, script[1..], n - 1)
    ensures NoneStops(cfg, received, script, n)
  {
    forall i | 0 <= i < n - 1 ensures !cfg.Stops(received + i + 1, script[..n][i].message.value.payload) {
      if i > 0 {
        assert script[..n][i] == script[1..][..n - 1][i - 1];
        assert !cfg.Stops(received + 1 + (i - 1) + 1, script[1..][..n - 1][i - 1].message.value.payload);
      }
    }
  }

  /** One more message in front of a prefix. */
  lemma TookOneMore(cfg: Config, st: State, st': State, script: seq<Arrival>, o: Outcome, e: State)
    requires script != [] && script[0].message.Some? && st'.received == st.received + 1
    requires var p := script[0].message.value.payload;
             Logged(st'.log) == Logged(st.log) + [p] && st'.previous == st.previous && !cfg.Stops(st.received + 1, p)
    requires TookPrefix(cfg, st', script[1..], o, e)
    ensures TookPrefix(cfg, st, script, o, e)
  {
    var n := e.received - st.received;
    PayloadsCons(script, n);
    NoneStopsCons(cfg, st.received, script, n);
    Sequences.Assoc(Logged(st.log), [script[0].message.value.payload], Payloads(script[1..][..n - 1]));
    assert n > 1 ==> script[n - 1] == script[1..][n - 2];
  }

  /** A run that does not go on took nothing, or the first message and no more. */
  lemma StopsHere(cfg: Config, st: State, script: seq<Arrival>)
    requires !GoesOn(cfg, st, script)
    ensures var (o, e) := Run(cfg, st, script); TookPrefix(cfg, st, script, o, e)
  {
    var (o, e) := Run(cfg, st, script);
    if e.received > st.received {
      var p := script[0].message.value.payload;
      LoggedSnoc(st.log, Entry(p, Max(st.now, script[0].at)));
      assert script[..1] == [script[0]];
    } else {
      assert script[..0] == [];
    }
  }

  /** The step takes its arrivals up to the first that stops it, and no further. */
  lemma {:induction false} RecordsPrefix(cfg: Config, st: State, script: seq<Arrival>)
    ensures var (o, e) := Run(cfg, st, script); TookPrefix(cfg, st, script, o, e)
    decreases |script|
  {
    var (o, e) := Run(cfg, st, script);
    if GoesOn(cfg, st, script) {
      var st' := Next(cfg, st, script);
      LoggedSnoc(st.log, st'.log[|st.log|]);
      RunNext(cfg, st, script);
      RecordsPrefix(cfg, st', script[1..]);
      TookOneMore(cfg, st, st', script, o, e);
    } else {
      StopsHere(cfg, st, script);
    }
  }

  // ----- Verdicts -----

  lemma {:induction false} NeverQuiet(cfg: Config, st: State, script: seq<Arrival>)
    requires cfg.matcher.Some?
    ensures !Run(cfg, st, script).0.QuietTimeout?
    decreases |script|
  {
    if GoesOn(cfg, st, script) {
      RunNext(cfg, st, script);
      NeverQuiet(cfg, Next(cfg, st, script), script[1..]);
    }
  }

  /** A step with rules and no count passes exactly when the last message it took matched;
      a step with a count may also pass on its count alone. */
  lemma PassesExactly(cfg: Config, st: State, script: seq<Arrival>)
    requires cfg.matcher.Some?
    ensures var (o, e) := Run(cfg, st, script);
            var n := e.received - st.received;
            0 <= n <= |script| && IsMessages(script[..n]) &&
            (Passed(o) <==>
               && n > 0
               && cfg.Stops(e.received, script[n - 1].message.value.payload)
               && cfg.Checked(script[n - 1].message.value.payload) != Broken)
  {
    RecordsPrefix(cfg, st, script);
    NeverQuiet(cfg, st, script);
  }

  /** A step takes no more messages than its count, and ends on its count exactly then, unless
      the rules decide. */
  lemma CountsExactly(cfg: Config, st: State, script: seq<Arrival>)
    ensures var (o, e) := Run(cfg, st, script);
            && (cfg.count > 0 && st.received < cfg.count ==> e.received <= cfg.count)
            && (o.Counted? ==> cfg.count > 0 && (st.received < cfg.count ==> e.received == cfg.count))
            && (0 < cfg.count <= e.received && e.received > st.received ==> o.Counted? || o.Matched? || o.MatchFailed?)
            && (cfg.matcher.None? && 0 < cfg.count <= e.received && e.received > st.received ==> o.Counted?)
  {
    RecordsPrefix(cfg, st, script);
    var n := Run(cfg, st, script).1.received - st.received;
    if n > 1 {
      assert !cfg.Stops(st.received + (n - 2) + 1, script[..n][n - 2].message.value.payload);
    }
  }

  /** A step without rules neither matches nor breaks one, and a deadline does not fail it. */
  lemma {:induction false} WithoutRules(cfg: Config, st: State, script: seq<Arrival>)
    requires cfg.matcher.None?
    ensures var o := Run(cfg, st, script).0; !o.Matched? && !o.MatchFailed? && !o.TimedOut?
    decreases |script|
  {
    if GoesOn(cfg, st, script) {
      RunNext(cfg, st, script);
      WithoutRules(cfg, Next(cfg, st, script), script[1..]);
    }
  }

  // ----- Which messages, when, and why the step ends -----

  /** When read k begins, if the reads before it brought messages that did not stop the step. */
  function StartOf(cfg: Config, st: State, script: seq<Arrival>, k: nat): int
    requires k <= |script|
    decreases k, 0
  {
    if k == 0 then st.now else After(cfg, InstantOf(cfg, st, script, k - 1), st.received + k)
  }

  /** When read k brings its message. */
  function InstantOf(cfg: Config, st: State, script: seq<Arrival>, k: nat): int
    requires k < |script|
    decreases k, 1
  {
    Max(StartOf(cfg, st, script, k), script[k].at)
  }

  predicate TakenAt(cfg: Config, st: State, script: seq<Arrival>, k: nat)
    requires k < |script|
  {
    script[k].message.Some? && InTime(cfg, StartOf(cfg, st, script, k), script[k].at)
  }

  predicate GoesPast(cfg: Config, st: State, script: seq<Arrival>, k: nat)
    requires k < |script|
  {
    && TakenAt(cfg, st, script, k)
    && !cfg.Stops(st.received + k + 1, script[k].message.value.payload) && PauseOk(cfg, st.received + k + 1)
  }

  predicate GoesPastAll(cfg: Config, st: State, script: seq<Arrival>, k: nat)
    requires k <= |script|
  {
    forall i :: 0 <= i < k ==> GoesPast(cfg, st, script, i)
  }

  /** The times of the later reads do not depend on where one begins to count. */
  lemma {:induction false} StartShift(cfg: Config, st: State, script: seq<Arrival>, k: nat)
    requires k < |script| && script[0].message.Some?
    ensures StartOf(cfg, st, script, k + 1) == StartOf(cfg, Next(cfg, st, script), script[1..], k)
    decreases k
  {
    if k > 0 {
      StartShift(cfg, st, script, k - 1);
      assert script[1..][k - 1] == script[k];
    }
  }

  lemma PastShift(cfg: Config, st: State, script: seq<Arrival>, k: nat)
    requires k + 1 < |script| && script[0].message.Some?
    ensures TakenAt(cfg, st, script, k + 1) == TakenAt(cfg, Next(cfg, st, script), script[1..], k)
    ensures GoesPast(cfg, st, script, k + 1) == GoesPast(cfg, Next(cfg, st, script), script[1..], k)
  {
    StartShift(cfg, st, script, k);
    assert script[1..][k] == script[k + 1];
  }

  lemma AllShift(cfg: Config, st: State, script: seq<Arrival>, k: nat)
    requires k < |script| && script[0].message.Some? && GoesPast(cfg, st, script, 0)
    ensures GoesPastAll(cfg, st, script, k + 1) <==> GoesPastAll(cfg, Next(cfg, st, script), script[1..], k)
  {
    if GoesPastAll(cfg, st, script, k + 1) {
      forall i | 0 <= i < k ensures GoesPast(cfg, Next(cfg, st, script), script[1..], i) {
        PastShift(cfg, st, script, i);
      }
    }
    if GoesPastAll(cfg, Next(cfg, st, script), script[1..], k) {
      forall i | 0 <= i < k + 1 ensures GoesPast(cfg, st, script, i) {
        if i > 0 {
          PastShift(cfg, st, script, i - 1);
        }
      }
    }
  }

  lemma NothingAfter(cfg: Config, st: State, script: seq<Arrival>)
    requires |script| > 1 && !GoesOn(cfg, st, script)
    ensures GoesPast(cfg, st, script, 0) ==> !TakenAt(cfg, st, script, 1) && !GoesPast(cfg, st, script, 1)
  {
    assert StartOf(cfg, st, script, 1) == After(cfg, InstantOf(cfg, st, script, 0), st.received + 1);
  }

  lemma TakesOneAtMost(cfg: Config, st: State, script: seq<Arrival>, k: nat)
    requires k < |script| && !GoesOn(cfg, st, script)
    ensures k < Run(cfg, st, script).1.received - st.received <==>
            TakenAt(cfg, st, script, k) && GoesPastAll(cfg, st, script, k)
  {
    if k > 0 {
      NothingAfter(cfg, st, script);
    }
  }

  /** Whatever the pauses, arrival k is taken exactly when it is a message whose read begins in
      time, and gets it, and every arrival before it is taken too and does not end the step. */
  lemma {:induction false} TakesExactly(cfg: Config, st: State, script: seq<Arrival>, k: nat)
    requires k < |script|
    ensures k < Run(cfg, st, script).1.received - st.received <==>
            TakenAt(cfg, st, script, k) && GoesPastAll(cfg, st, script, k)
    decreases |script|
  {
    RecordsPrefix(cfg, st, script);
    if GoesOn(cfg, st, script) {
      var st' := Next(cfg, st, script);
      RunNext(cfg, st, script);
      RecordsPrefix(cfg, st', script[1..]);
      if k > 0 {
        TakesExactly(cfg, st', script[1..], k - 1);
        PastShift(cfg, st, script, k - 1);
        AllShift(cfg, st, script, k - 1);
      }
    } else {
      TakesOneAtMost(cfg, st, script, k);
    }
  }

  /** How a step ends that begins a read at `start` with `rest` still to come, the first of
      which it does not take. */
  function EndAt(cfg: Config, start: int, rest: seq<Arrival>): Outcome {
    if cfg.CancelledBy(start) then Cancelled
    else if start > cfg.deadline then TimeoutOutcome(cfg)
    else if Hangs(cfg, start, rest) then Hung
    else if Arrives(cfg, start, rest) then FailureAt(cfg, Max(start, rest[0].at))
    else FailureAt(cfg, cfg.Limit() + cfg.lag)
  }

  /** Every outcome has its reason: the last message taken stopped the step, or its pause is
      malformed, or else what the next read, which begins at a known time, met. */
  ghost predicate EndsAs(cfg: Config, st: State, script: seq<Arrival>, o: Outcome, n: nat)
    requires n <= |script| && (n > 0 ==> script[n - 1].message.Some?)
  {
    o == if n > 0 && cfg.Stops(st.received + n, script[n - 1].message.value.payload)
         then StopOutcome(cfg, script[n - 1].message.value.payload)
         else if n > 0 && !PauseOk(cfg, st.received + n) then BadPause
         else EndAt(cfg, StartOf(cfg, st, script, n), script[n..])
  }

  lemma EndsHere(cfg: Config, st: State, script: seq<Arrival>)
    requires !GoesOn(cfg, st, script)
    ensures var (o, e) := Run(cfg, st, script);
            var n := e.received - st.received;
            && 0 <= n <= |script| && (n > 0 ==> script[n - 1].message.Some?)
            && EndsAs(cfg, st, script, o, n)
  {
    assert script[0..] == script;
    var n := Run(cfg, st, script).1.received - st.received;
    if n > 0 {
      assert n == 1;
      assert StartOf(cfg, st, script, 1) == After(cfg, InstantOf(cfg, st, script, 0), st.received + 1);
    }
  }

  lemma {:induction false} OutcomeExactly(cfg: Config, st: State, script: seq<Arrival>)
    ensures var (o, e) := Run(cfg, st, script);
            var n := e.received - st.received;
            && 0 <= n <= |script| && (n > 0 ==> script[n - 1].message.Some?)
            && EndsAs(cfg, st, script, o, n)
    decreases |script|
  {
    var (o, e) := Run(cfg, st, script);
    if GoesOn(cfg, st, script) {
      var st', n := Next(cfg, st, script), e.received - st.received;
      RunNext(cfg, st, script);
      OutcomeExactly(cfg, st', script[1..]);
      StartShift(cfg, st, script, n - 1);
      assert script[1..][n - 1..] == script[n..];
      assert n > 1 ==> script[1..][n - 2] == script[n - 1];
    } else {
      EndsHere(cfg, st, script);
    }
  }

  // ----- Time -----

  /** A run that takes anything more began in time. */
  lemma LaterIsInTime(cfg: Config, st: State, script: seq<Arrival>, t: int)
    requires t <= st.now
    ensures |Run(cfg, st, script).1.log| > |st.log| ==> t < cfg.Limit()
  {
  }

  /** Everything is recorded in time order, and all records but the last lie before the limit;
      the last too when reads honour their context. */
  lemma {:induction false} RecordsInTime(cfg: Config, st: State, script: seq<Arrival>)
    ensures var e := Run(cfg, st, script).1;
            && st.now <= e.now && |st.log| <= |e.log| && e.log[..|st.log|] == st.log
            && (forall i :: |st.log| <= i < |e.log| ==> st.now <= e.log[i].ts)
            && (forall i, j :: |st.log| <= i < j < |e.log| ==> e.log[i].ts <= e.log[j].ts)
            && (forall i :: |st.log| <= i < |e.log| - (if cfg.honours then 0 else 1) ==> e.log[i].ts < cfg.Limit())
    decreases |script|
  {
    if GoesOn(cfg, st, script) {
      var st' := Next(cfg, st, script);
      RunNext(cfg, st, script);
      RecordsInTime(cfg, st', script[1..]);
      LaterIsInTime(cfg, st', script[1..], Max(st.now, script[0].at));
    }
  }

  /** The first entry of a run stays. */
  lemma RecordedFirst(cfg: Config, st: State, script: seq<Arrival>)
    requires GoesOn(cfg, st, script)
    ensures var e := Run(cfg, st, script).1;
            |st.log| < |e.log| && e.log[|st.log|].ts == InstantOf(cfg, st, script, 0)
  {
    var st' := Next(cfg, st, script);
    RunNext(cfg, st, script);
    RecordsInTime(cfg, st', script[1..]);
    var e := Run(cfg, st, script).1;
    assert e.log[..|st'.log|][|st.log|] == st'.log[|st.log|];
  }

  /** Every message is recorded with the instant at which its read brought it. */
  lemma {:induction false} InstantsRecorded(cfg: Config, st: State, script: seq<Arrival>)
    ensures var e := Run(cfg, st, script).1;
            var n := e.received - st.received;
            && 0 <= n <= |script| && |e.log| == |st.log| + n
            && forall i :: 0 <= i < n ==> e.log[|st.log| + i].ts == InstantOf(cfg, st, script, i)
    decreases |script|
  {
    var e := Run(cfg, st, script).1;
    if GoesOn(cfg, st, script) {
      var st' := Next(cfg, st, script);
      RunNext(cfg, st, script);
      InstantsRecorded(cfg, st', script[1..]);
      RecordedFirst(cfg, st, script);
      forall i | 0 <= i < e.received - st.received ensures e.log[|st.log| + i].ts == InstantOf(cfg, st, script, i) {
        if i > 0 {
          StartShift(cfg, st, script, i - 1);
          assert script[1..][i - 1] == script[i];
          assert e.log[|st'.log| + (i - 1)].ts == InstantOf(cfg, st', script[1..], i - 1);
        }
      }
    }
  }

  /** Between two messages the step pauses as long as is declared or, if that is less, for the
      time left, after every so many messages and not otherwise. */
  lemma PausesKept(cfg: Config, st: State, script: seq<Arrival>, k: nat)
    requires k + 1 < Run(cfg, st, script).1.received - st.received
    ensures var log, first := Run(cfg, st, script).1.log, |st.log| + k;
            var due := cfg.every > 0 && (st.received + k + 1) % cfg.every == 0;
            && k + 1 < |script| && first + 1 < |log| && (due ==> cfg.pauseFor.Some?)
            && var left := cfg.deadline - log[first].ts;
               var pause := if !due then 0 else if cfg.pauseFor.value > left then left else cfg.pauseFor.value;
               var resumed := if pause > 0 then log[first].ts + pause else log[first].ts;
               log[first + 1].ts == if resumed < script[k + 1].at then script[k + 1].at else resumed
  {
    InstantsRecorded(cfg, st, script);
    TakesExactly(cfg, st, script, k + 1);
    assert GoesPast(cfg, st, script, k);
    var e := Run(cfg, st, script).1;
    assert e.log[|st.log| + k].ts == InstantOf(cfg, st, script, k);
    assert e.log[|st.log| + (k + 1)].ts == InstantOf(cfg, st, script, k + 1);
  }

  /** The clock passes the deadline by no more than a late read does, whatever the pauses, unless
      reads do not honour their context: then one arrival may carry it to its own time. */
  lemma {:induction false} ClockBounded(cfg: Config, st: State, script: seq<Arrival>)
    ensures var e := Run(cfg, st, script).1;
            e.now <= Max(st.now, cfg.deadline + cfg.lag) ||
            (!cfg.honours && exists j :: 0 <= j < |script| && e.now == script[j].at)
    decreases |script|
  {
    if GoesOn(cfg, st, script) {
      RunNext(cfg, st, script);
      ClockBounded(cfg, Next(cfg, st, script), script[1..]);
      var e := Run(cfg, st, script).1;
      if j :| 0 <= j < |script| - 1 && e.now == script[1..][j].at {
        assert e.now == script[j + 1].at;
      }
    }
  }

  /** A cancellation is noticed when it comes, or at once if it came before, or by a late read. */
  lemma {:induction false} CancelNoticed(cfg: Config, st: State, script: seq<Arrival>)
    ensures var (o, e) := Run(cfg, st, script);
            o.Cancelled? ==>
              cfg.cancelAt.Some? &&
              (e.now <= Max(st.now, cfg.cancelAt.value + cfg.lag) ||
               (!cfg.honours && exists j :: 0 <= j < |script| && e.now == script[j].at))
    decreases |script|
  {
    if GoesOn(cfg, st, script) {
      RunNext(cfg, st, script);
      CancelNoticed(cfg, Next(cfg, st, script), script[1..]);
      var e := Run(cfg, st, script).1;
      if j :| 0 <= j < |script| - 1 && e.now == script[1..][j].at {
        assert e.now == script[j + 1].at;
      }
    }
  }

  /** Timeouts and cancellations are true ones, and a failed read is neither. */
  lemma {:induction false} OutcomesTrue(cfg: Config, st: State, script: seq<Arrival>)
    ensures var (o, e) := Run(cfg, st, script);
            && (o.TimedOut? || o.QuietTimeout? ==> e.now > cfg.deadline)
            && (o.Cancelled? ==> cfg.CancelledBy(e.now))
            && (o.ReadFailed? ==> !cfg.CancelledBy(e.now) && e.now <= cfg.deadline)
    decreases |script|
  {
    if GoesOn(cfg, st, script) {
      RunNext(cfg, st, script);
      OutcomesTrue(cfg, Next(cfg, st, script), script[1..]);
    }
  }

  /** A step that takes a message which stops it takes nothing after it. */
  lemma NothingPastAStop(cfg: Config, st: State, script: seq<Arrival>, k: nat)
    requires k < |script| && script[k].message.Some?
    requires cfg.Stops(st.received + k + 1, script[k].message.value.payload)
    ensures var (o, e) := Run(cfg, st, script);
            && e.received <= st.received + k + 1
            && (e.received == st.received + k + 1 ==> o == StopOutcome(cfg, script[k].message.value.payload))
  {
    RecordsPrefix(cfg, st, script);
  }

  lemma LastInstant(cfg: Config, st: State, script: seq<Arrival>, k: nat)
    requires k < |script| && Run(cfg, st, script).1.received == st.received + k + 1
    ensures var log := Run(cfg, st, script).1.log; log != [] && log[|log| - 1].ts == InstantOf(cfg, st, script, k)
  {
    InstantsRecorded(cfg, st, script);
    var e := Run(cfg, st, script).1;
    assert e.log[|st.log| + k].ts == InstantOf(cfg, st, script, k);
  }

  /** The matching message of arrival k, its read begun in time after messages that do not end
      the step, is the one the step passes on exactly when it comes before the limit or reads do
      not honour their context. */
  lemma LateMatchPasses(cfg: Config, st: State, script: seq<Arrival>, k: nat)
    requires k < |script| && GoesPastAll(cfg, st, script, k) && StartOf(cfg, st, script, k) < cfg.Limit()
    requires script[k].message.Some? && cfg.Checked(script[k].message.value.payload) == Hit
    ensures var (o, e) := Run(cfg, st, script);
            o == Matched && e.received == st.received + k + 1 <==> !cfg.honours || script[k].at < cfg.Limit()
  {
    TakesExactly(cfg, st, script, k);
    NothingPastAStop(cfg, st, script, k);
  }

  /** A late match is recorded at its own time. */
  lemma LateMatchRecorded(cfg: Config, st: State, script: seq<Arrival>, k: nat)
    requires k < |script| && GoesPastAll(cfg, st, script, k) && StartOf(cfg, st, script, k) < cfg.Limit()
    requires script[k].message.Some? && cfg.Checked(script[k].message.value.payload) == Hit
    requires !cfg.honours && script[k].at >= cfg.Limit()
    ensures var log := Run(cfg, st, script).1.log; log != [] && log[|log| - 1].ts == script[k].at
  {
    LateMatchPasses(cfg, st, script, k);
    LastInstant(cfg, st, script, k);
  }

  // ----- Slow mode -----

  function Unpaused(cfg: Config): Config { cfg.(every := 0) }

  /** A state of the unpaused run that is not behind a state of the paused one. */
  predicate Ahead(fast: State, slow: State) {
    fast.now <= slow.now && fast.received == slow.received && fast.previous == slow.previous
  }

  /** Slow mode only truncates: the unpaused step takes at least the same messages, and a
      step that ends at a message ends at the same one, the same way, without its pauses. */
  lemma {:induction false} SlowModeOnlyTruncates(cfg: Config, slow: State, fast: State, script: seq<Arrival>)
    requires Ahead(fast, slow)
    ensures var (o, e) := Run(cfg, slow, script);
            var (o', e') := Run(Unpaused(cfg), fast, script);
            && e.received <= e'.received
            && (EndsAtMessage(o) ==> o' == o && e'.received == e.received && e'.previous == e.previous)
    decreases |script|
  {
    RecordsPrefix(Unpaused(cfg), fast, script);
    if GoesOn(cfg, slow, script) {
      RunNext(cfg, slow, script);
      RunNext(Unpaused(cfg), fast, script);
      SlowModeOnlyTruncates(cfg, Next(cfg, slow, script), Next(Unpaused(cfg), fast, script), script[1..]);
    } else if Run(cfg, slow, script).1.received > slow.received {
      if GoesOn(Unpaused(cfg), fast, script) {
        RunNext(Unpaused(cfg), fast, script);
        RecordsPrefix(Unpaused(cfg), Next(Unpaused(cfg), fast, script), script[1..]);
      }
    }
  }

  /** Without pauses the reads begin when the latest message before them came. */
  lemma {:induction false} UnpausedStart(cfg: Config, st: State, script: seq<Arrival>, k: nat)
    requires cfg.every <= 0 && k <= |script|
    ensures StartOf(cfg, st, script, k) < cfg.Limit() <==>
            st.now < cfg.Limit() && forall i :: 0 <= i < k ==> script[i].at < cfg.Limit()
    decreases k
  {
    if k > 0 {
      UnpausedStart(cfg, st, script, k - 1);
    }
  }

  /** Arrivals 0 to k are messages, those before k there before the limit, k too if reads honour
      their context, and none before k stops the step. */
  predicate TakenUnpaused(cfg: Config, st: State, script: seq<Arrival>, k: nat)
    requires k < |script|
  {
    && st.now < cfg.Limit() && script[k].message.Some? && (cfg.honours ==> script[k].at < cfg.Limit())
    && forall i :: 0 <= i < k ==>
         && script[i].message.Some? && script[i].at < cfg.Limit()
         && !cfg.Stops(st.received + i + 1, script[i].message.value.payload)
  }

  /** Without pauses, arrival k is taken exactly when nothing before it ends the step. */
  lemma UnpausedTakesExactly(cfg: Config, st: State, script: seq<Arrival>, k: nat)
    requires cfg.every <= 0 && k < |script|
    ensures k < Run(cfg, st, script).1.received - st.received <==> TakenUnpaused(cfg, st, script, k)
  {
    TakesExactly(cfg, st, script, k);
    UnpausedStart(cfg, st, script, k);
    forall i | 0 <= i < k
      ensures GoesPast(cfg, st, script, i) <==>
              && script[i].message.Some? && InTime(cfg, StartOf(cfg, st, script, i), script[i].at)
              && !cfg.Stops(st.received + i + 1, script[i].message.value.payload)
    {
    }
    if TakenUnpaused(cfg, st, script, k) {
      forall i | 0 <= i < k ensures GoesPast(cfg, st, script, i) {
        UnpausedStart(cfg, st, script, i);
      }
    }
  }
}
