/** The eval executor's run protocol (pkg/eval/executor.go): snapshot cursors,
    reseed, read the fresh inputs, and wait for one unused output per input, on
    a store that the agent under test appends to at any moment.

    Streams only grow here: the model describes runs in which no stream reaches
    its retention cap. `MemStore.CursorsNeedNoEviction` says what a full stream
    does to the cursors. */
module EvalRun {
  import opened Events
  import Floats
  import Options
  import opened Scoring
  import Sequences

  /** What a run needs of the scenario: the agent's topics and the evals. */
  datatype Agent = Agent(consumes: seq<string>, produces: seq<string>, evals: seq<Eval>)

  /** A position in a stream. */
  datatype Pos = Pos(stream: string, idx: nat)

  /** What one input was judged against: the output at a position, or nothing. `seen` holds
      what the last pass read of the output streams, in order, through the stream of the hit. */
  datatype Outcome = Hit(pos: Pos, seen: seq<seq<Event>>) | Missing(seen: seq<seq<Event>>)

  datatype Sample = Sample(input: Pos, key: string, iter: nat, outcome: Outcome, verdicts: seq<Score>)

  type Store = map<string, seq<Event>>

  /** One iteration: the store when it began, when the reseed began, when the reseed ended
      and when the fresh inputs had been read; the cursors taken before the reseed; and for
      each consumed topic how long it was when the fresh inputs were read. */
  datatype Window = Window(start: Store, reseeding: Store, seeded: Store, read: Store,
                           inCur: map<string, nat>, outCur: map<string, nat>, ends: seq<nat>)

  datatype MatchStatus = MatchHit | MatchTimeout | MatchCancelled
  datatype RunStatus = RunOk | RunCancelled | ReseedFailed | NoAgent | NoReseed

  const POLL := 50_000_000

  function Cursor(cur: map<string, nat>, s: string): nat { if s in cur then cur[s] else 0 }
  function UsedIn(used: map<string, set<nat>>, s: string): set<nat> { if s in used then used[s] else {} }

  function Read(st: Store, s: string): seq<Event> { if s in st then st[s] else [] }

  ghost predicate Grew(st: Store, st': Store) { forall s :: Read(st, s) <= Read(st', s) }

  /** One call of the reseed callback: the stores at its two ends. */
  datatype Reseeding = Reseeding(began: Store, ended: Store)

  /** The store at some instant, the reseeds until then and the stores at which the fresh
      inputs had been read until then. */
  datatype Record = Record(store: Store, reseeds: seq<Reseeding>, readings: seq<Store>)

  /** The store, the clock and the context, shared with everybody else, and a record of what
      happened to the store. */
  class World {
    var streams: map<string, seq<Event>>
    var now: int
    var cancelled: bool
    ghost var reseeds: seq<Reseeding>
    ghost var readings: seq<Store>

    ghost function Recorded(): Record
      reads this
    {
      Record(streams, reseeds, readings)
    }

    function Query(s: string): seq<Event>
      reads this
    {
      Read(streams, s)
    }

    /** Others run for at least `pause`: they append any events, and may cancel. */
    method Interfere(pause: nat)
      modifies `streams, `now, `cancelled
      ensures Grew(old(streams), streams)
      ensures now >= old(now) + pause
      ensures old(cancelled) ==> cancelled
    {
      var more: seq<Event> := *;
      for i := 0 to |more|
        invariant now == old(now) && cancelled == old(cancelled)
        invariant Grew(old(streams), streams)
      {
        streams := streams[more[i].stream := Query(more[i].stream) + [more[i]]];
      }
      var extra: int := *;
      var cancel: bool := *;
      now := now + pause + (if extra < 0 then 0 else extra);
      cancelled := cancelled || cancel;
    }

    /** The reseed callback: it and others append any events, and it may fail. */
    method Reseed() returns (failed: bool)
      modifies `streams, `now, `cancelled, `reseeds
      ensures Grew(old(streams), streams)
      ensures reseeds == old(reseeds) + [Reseeding(old(streams), streams)]
    {
      ghost var began := streams;
      Interfere(0);
      reseeds := reseeds + [Reseeding(began, streams)];
      failed := *;
    }
  }

  function Range(s: string, from: nat, to: nat): (r: seq<Pos>)
    ensures |r| == if from < to then to - from else 0
    ensures forall i :: 0 <= i < |r| ==> r[i] == Pos(s, from + i)
  {
    if from >= to then [] else seq(to - from, i requires 0 <= i => Pos(s, from + i))
  }

  /** The inputs of one iteration: per topic, the positions from its cursor to its end. */
  function Fresh(topics: seq<string>, cur: map<string, nat>, ends: seq<nat>): (r: seq<Pos>)
    requires |ends| == |topics|
  {
    if topics == [] then []
    else
      var n := |topics| - 1;
      Fresh(topics[..n], cur, ends[..n]) + Range(topics[n], Cursor(cur, topics[n]), ends[n])
  }

  function AllFresh(topics: seq<string>, windows: seq<Window>): (r: seq<Pos>)
    requires forall w :: w in windows ==> |w.ends| == |topics|
  {
    if windows == [] then []
    else AllFresh(topics, windows[..|windows| - 1]) +
         Fresh(topics, windows[|windows| - 1].inCur, windows[|windows| - 1].ends)
  }

  ghost function Inputs(log: seq<Sample>): (r: seq<Pos>)
    ensures |r| == |log| && forall i :: 0 <= i < |log| ==> r[i] == log[i].input
  {
    seq(|log|, i requires 0 <= i < |log| => log[i].input)
  }

  /** The sample was judged against the output at p. */
  predicate JudgedWith(s: Sample, p: Pos) { s.outcome.Hit? && s.outcome.pos == p }

  /** The output at p was judged with one of the first n inputs. */
  ghost predicate JudgedBefore(n: nat, log: seq<Sample>, p: Pos)
    requires n <= |log|
  {
    exists j :: 0 <= j < n && JudgedWith(log[j], p)
  }

  /** Used outputs are exactly those of earlier hits, and no hit repeats one. */
  ghost predicate UsedOnce(used: map<string, set<nat>>, log: seq<Sample>) {
    && (forall i :: 0 <= i < |log| && log[i].outcome.Hit? ==>
          log[i].outcome.pos.idx in UsedIn(used, log[i].outcome.pos.stream))
    && (forall s, k :: k in UsedIn(used, s) ==> JudgedBefore(|log|, log, Pos(s, k)))
    && (forall i, j :: 0 <= i < j < |log| && log[i].outcome.Hit? ==> !JudgedWith(log[j], log[i].outcome.pos))
  }

  /** x is one of the inputs that the window's iteration read. */
  ghost predicate FreshIn(topics: seq<string>, w: Window, x: Pos) {
    |w.ends| == |topics| && x in Fresh(topics, w.inCur, w.ends)
  }

  /** A sample pairs an input that its own iteration read with an output of the same key,
      at or after that iteration's output cursor. */
  ghost predicate HonestSample(st: Store, ag: Agent, s: Sample, windows: seq<Window>) {
    && s.iter < |windows| && |s.verdicts| == |ag.evals|
    && FreshIn(ag.consumes, windows[s.iter], s.input)
    && s.input.idx < |Read(st, s.input.stream)|
    && Read(st, s.input.stream)[s.input.idx].key == s.key
    && (s.outcome.Hit? ==>
          var p := s.outcome.pos;
          && p.stream in ag.produces
          && Cursor(windows[s.iter].outCur, p.stream) <= p.idx < |Read(st, p.stream)|
          && Read(st, p.stream)[p.idx].key == s.key)
  }

  ghost predicate Honest(st: Store, ag: Agent, log: seq<Sample>, windows: seq<Window>) {
    forall i :: 0 <= i < |log| ==> HonestSample(st, ag, log[i], windows)
  }

  /** How much of its jth read the pass passed over: all of it, or what comes before the hit. */
  function Passed(o: Outcome, j: nat): nat
    requires j < |o.seen|
  {
    if o.Hit? && j == |o.seen| - 1 then o.pos.idx else |o.seen[j]|
  }

  /** The pass read the output streams in their order, through the one of its hit, or all. */
  ghost predicate ReadInOrder(o: Outcome, outs: seq<string>) {
    && |o.seen| <= |outs|
    && match o
       case Hit(p, seen) => seen != [] && outs[|seen| - 1] == p.stream && p.idx < |seen[|seen| - 1]|
       case Missing(seen) => |seen| == |outs|
  }

  /** Each stream was read at some instant between the two stores. */
  ghost predicate ReadsBetween(st: Store, st': Store, seen: seq<seq<Event>>, outs: seq<string>) {
    |seen| <= |outs| && forall j :: 0 <= j < |seen| ==> Read(st, outs[j]) <= seen[j] <= Read(st', outs[j])
  }

  /** Every matching output past the cursor that the pass passed over, in an earlier stream or
      before its hit, had been judged with an earlier input. */
  ghost predicate PassedJudged(i: nat, log: seq<Sample>, lower: map<string, nat>, outs: seq<string>)
    requires i < |log| && ReadInOrder(log[i].outcome, outs)
  {
    var o := log[i].outcome;
    forall j, k :: 0 <= j < |o.seen| && Cursor(lower, outs[j]) <= k < Passed(o, j) && o.seen[j][k].key == log[i].key ==>
      JudgedBefore(i, log, Pos(outs[j], k))
  }

  /** The pass that ended the wait of an input read the output streams in order, each no earlier
      than when the iteration's inputs were read, and took the first match not judged before. */
  ghost predicate SearchedAt(st: Store, i: nat, log: seq<Sample>, w: Window, outs: seq<string>)
    requires i < |log|
  {
    && ReadInOrder(log[i].outcome, outs)
    && ReadsBetween(w.read, st, log[i].outcome.seen, outs)
    && PassedJudged(i, log, w.outCur, outs)
  }

  /** Every input got the first output there was for it, or there was none. */
  ghost predicate Searched(st: Store, ag: Agent, log: seq<Sample>, windows: seq<Window>) {
    forall i :: 0 <= i < |log| ==>
      log[i].iter < |windows| && SearchedAt(st, i, log, windows[log[i].iter], ag.produces)
  }

  /** What the sample's wait read was in the store. */
  ghost predicate Within(s: Sample, outs: seq<string>, st: Store) {
    ReadsBetween(map[], st, s.outcome.seen, outs)
  }

  /** An iteration starts with everything that the waits of earlier ones read in the store. */
  ghost predicate Settled(ag: Agent, log: seq<Sample>, windows: seq<Window>) {
    forall i, l :: 0 <= i < |log| && log[i].iter < l < |windows| ==> Within(log[i], ag.produces, windows[l].start)
  }

  ghost predicate Sound(st: Store, ag: Agent, used: map<string, set<nat>>, log: seq<Sample>, windows: seq<Window>) {
    && UsedOnce(used, log) && Honest(st, ag, log, windows)
    && Searched(st, ag, log, windows) && Settled(ag, log, windows)
  }

  lemma ReadsGrow(st: Store, a: Store, b: Store, seen: seq<seq<Event>>, outs: seq<string>)
    requires ReadsBetween(st, a, seen, outs) && Grew(a, b)
    ensures ReadsBetween(st, b, seen, outs)
  {
    forall j | 0 <= j < |seen| ensures seen[j] <= Read(b, outs[j]) {
      assert seen[j] <= Read(a, outs[j]) <= Read(b, outs[j]);
    }
  }

  lemma ReadsFromEarlier(st: Store, a: Store, b: Store, seen: seq<seq<Event>>, outs: seq<string>)
    requires ReadsBetween(a, b, seen, outs) && Grew(st, a)
    ensures ReadsBetween(st, b, seen, outs)
  {
    forall j | 0 <= j < |seen| ensures Read(st, outs[j]) <= seen[j] {
      assert Read(st, outs[j]) <= Read(a, outs[j]) <= seen[j];
    }
  }

  lemma SoundGrows(st: Store, st': Store, ag: Agent, used: map<string, set<nat>>, log: seq<Sample>,
                   windows: seq<Window>)
    requires Sound(st, ag, used, log, windows) && Grew(st, st')
    ensures Sound(st', ag, used, log, windows)
  {
    forall i | 0 <= i < |log| ensures HonestSample(st', ag, log[i], windows) {
      assert HonestSample(st, ag, log[i], windows);
      assert Read(st, log[i].input.stream) <= Read(st', log[i].input.stream);
      if log[i].outcome.Hit? {
        assert Read(st, log[i].outcome.pos.stream) <= Read(st', log[i].outcome.pos.stream);
      }
    }
    forall i | 0 <= i < |log| ensures SearchedAt(st', i, log, windows[log[i].iter], ag.produces) {
      assert SearchedAt(st, i, log, windows[log[i].iter], ag.produces);
      ReadsGrow(windows[log[i].iter].read, st, st', log[i].outcome.seen, ag.produces);
    }
  }

  lemma JudgedStays(n: nat, log: seq<Sample>, s: Sample, p: Pos)
    requires n <= |log| && JudgedBefore(n, log, p)
    ensures JudgedBefore(n, log + [s], p) && JudgedBefore(|log| + 1, log + [s], p)
  {
    var j :| 0 <= j < n && JudgedWith(log[j], p);
    assert JudgedWith((log + [s])[j], p);
  }

  lemma PassedStays(i: nat, log: seq<Sample>, s: Sample, lower: map<string, nat>, outs: seq<string>)
    requires i < |log| && ReadInOrder(log[i].outcome, outs) && PassedJudged(i, log, lower, outs)
    ensures PassedJudged(i, log + [s], lower, outs)
  {
    var o := log[i].outcome;
    forall j, k | 0 <= j < |o.seen| && Cursor(lower, outs[j]) <= k < Passed(o, j) && o.seen[j][k].key == log[i].key
      ensures JudgedBefore(i, log + [s], Pos(outs[j], k))
    {
      JudgedStays(i, log, s, Pos(outs[j], k));
    }
  }

  function Mark(used: map<string, set<nat>>, p: Pos): map<string, set<nat>> {
    used[p.stream := UsedIn(used, p.stream) + {p.idx}]
  }

  lemma MarkOnce(used: map<string, set<nat>>, log: seq<Sample>, s: Sample)
    requires UsedOnce(used, log) && s.outcome.Hit? && s.outcome.pos.idx !in UsedIn(used, s.outcome.pos.stream)
    ensures UsedOnce(Mark(used, s.outcome.pos), log + [s])
  {
    var p, log', used' := s.outcome.pos, log + [s], Mark(used, s.outcome.pos);
    forall t, k | k in UsedIn(used', t) ensures JudgedBefore(|log'|, log', Pos(t, k)) {
      if Pos(t, k) == p {
        assert JudgedWith(log'[|log|], p);
      } else {
        assert k in UsedIn(used, t);
        JudgedStays(|log|, log, s, Pos(t, k));
      }
    }
    assert forall i :: 0 <= i < |log| ==> log'[i] == log[i];
  }

  lemma HonestSnoc(st: Store, ag: Agent, log: seq<Sample>, windows: seq<Window>, s: Sample)
    requires Honest(st, ag, log, windows) && HonestSample(st, ag, s, windows)
    ensures Honest(st, ag, log + [s], windows)
  {
  }

  lemma SettledSnoc(ag: Agent, log: seq<Sample>, windows: seq<Window>, s: Sample)
    requires Settled(ag, log, windows) && s.iter == |windows| - 1
    ensures Settled(ag, log + [s], windows)
  {
  }

  /** Every matching output past the cursor that the pass passed over is used. */
  ghost predicate PassedUsed(used: map<string, set<nat>>, o: Outcome, lower: map<string, nat>,
                             outs: seq<string>, key: string)
    requires ReadInOrder(o, outs)
  {
    forall j, k :: 0 <= j < |o.seen| && Cursor(lower, outs[j]) <= k < Passed(o, j) && o.seen[j][k].key == key ==>
      k in UsedIn(used, outs[j])
  }

  /** What the last pass of a wait did between two stores, with these outputs used before. */
  ghost predicate LookedUp(st: Store, st': Store, used: map<string, set<nat>>, o: Outcome,
                           lower: map<string, nat>, outs: seq<string>, key: string)
  {
    ReadInOrder(o, outs) && ReadsBetween(st, st', o.seen, outs) && PassedUsed(used, o, lower, outs, key)
  }

  lemma PassedSnoc(used: map<string, set<nat>>, log: seq<Sample>, s: Sample, lower: map<string, nat>, outs: seq<string>)
    requires UsedOnce(used, log) && ReadInOrder(s.outcome, outs) && PassedUsed(used, s.outcome, lower, outs, s.key)
    ensures PassedJudged(|log|, log + [s], lower, outs)
  {
    var o := s.outcome;
    forall j, k | 0 <= j < |o.seen| && Cursor(lower, outs[j]) <= k < Passed(o, j) && o.seen[j][k].key == s.key
      ensures JudgedBefore(|log|, log + [s], Pos(outs[j], k))
    {
      assert k in UsedIn(used, outs[j]);
      JudgedStays(|log|, log, s, Pos(outs[j], k));
    }
  }

  /** Noting a sample whose wait took the first match not used, or found none, keeps this of all. */
  lemma SearchedSnoc(st: Store, ag: Agent, used: map<string, set<nat>>, log: seq<Sample>,
                     windows: seq<Window>, s: Sample)
    requires UsedOnce(used, log) && Searched(st, ag, log, windows) && s.iter < |windows|
    requires var w := windows[s.iter]; LookedUp(w.read, st, used, s.outcome, w.outCur, ag.produces, s.key)
    ensures Searched(st, ag, log + [s], windows)
  {
    var log' := log + [s];
    forall i | 0 <= i < |log'| ensures SearchedAt(st, i, log', windows[log'[i].iter], ag.produces) {
      if i < |log| {
        assert log'[i] == log[i] && SearchedAt(st, i, log, windows[log[i].iter], ag.produces);
        PassedStays(i, log, s, windows[log[i].iter].outCur, ag.produces);
      } else {
        PassedSnoc(used, log, s, windows[s.iter].outCur, ag.produces);
      }
    }
  }

  /** Judging the first matching output not used before keeps the run sound. */
  lemma HitKeepsSound(st: Store, ag: Agent, used: map<string, set<nat>>, log: seq<Sample>,
                      windows: seq<Window>, s: Sample)
    requires Sound(st, ag, used, log, windows) && HonestSample(st, ag, s, windows) && s.iter == |windows| - 1
    requires var w := windows[s.iter]; LookedUp(w.read, st, used, s.outcome, w.outCur, ag.produces, s.key)
    requires s.outcome.Hit? && s.outcome.pos.idx !in UsedIn(used, s.outcome.pos.stream)
    ensures Sound(st, ag, Mark(used, s.outcome.pos), log + [s], windows)
  {
    SearchedSnoc(st, ag, used, log, windows, s);
    HonestSnoc(st, ag, log, windows, s);
    SettledSnoc(ag, log, windows, s);
    MarkOnce(used, log, s);
  }

  lemma MissOnce(used: map<string, set<nat>>, log: seq<Sample>, s: Sample)
    requires UsedOnce(used, log) && s.outcome.Missing?
    ensures UsedOnce(used, log + [s])
  {
    var log' := log + [s];
    forall t, k | k in UsedIn(used, t) ensures JudgedBefore(|log'|, log', Pos(t, k)) {
      JudgedStays(|log|, log, s, Pos(t, k));
    }
    assert forall i :: 0 <= i < |log| ==> log'[i] == log[i];
  }

  /** Recording a missing output keeps the run sound when the last pass found every matching
      output used, and read no less than was there when the inputs were read. */
  lemma MissKeepsSound(st: Store, ag: Agent, used: map<string, set<nat>>, log: seq<Sample>,
                       windows: seq<Window>, s: Sample)
    requires Sound(st, ag, used, log, windows) && HonestSample(st, ag, s, windows) && s.iter == |windows| - 1
    requires var w := windows[s.iter]; LookedUp(w.read, st, used, s.outcome, w.outCur, ag.produces, s.key)
    requires s.outcome.Missing?
    ensures Sound(st, ag, used, log + [s], windows)
  {
    SearchedSnoc(st, ag, used, log, windows, s);
    HonestSnoc(st, ag, log, windows, s);
    SettledSnoc(ag, log, windows, s);
    MissOnce(used, log, s);
  }

  /** The pass has found no unused event with the key in what it has read. */
  ghost predicate NothingLeft(used: map<string, set<nat>>, seen: seq<seq<Event>>, lower: map<string, nat>,
                              outs: seq<string>, key: string)
    requires |seen| <= |outs|
  {
    forall j, k :: 0 <= j < |seen| && Cursor(lower, outs[j]) <= k < |seen[j]| && seen[j][k].key == key ==>
      k in UsedIn(used, outs[j])
  }

  /** The stream read last has not grown since. */
  ghost predicate UpToNow(st: Store, seen: seq<seq<Event>>, outs: seq<string>) {
    0 < |seen| <= |outs| ==> seen[|seen| - 1] == Read(st, outs[|seen| - 1])
  }

  lemma ReadsSnoc(st: Store, a: Store, b: Store, seen: seq<seq<Event>>, outs: seq<string>)
    requires |seen| < |outs| && ReadsBetween(st, a, seen, outs) && Grew(a, b) && Grew(st, b)
    ensures ReadsBetween(st, b, seen + [Read(b, outs[|seen|])], outs)
  {
    ReadsGrow(st, a, b, seen, outs);
    assert Read(st, outs[|seen|]) <= Read(b, outs[|seen|]);
  }

  /** A pass that has found nothing so far. */
  ghost predicate LookingUp(st: Store, st': Store, used: map<string, set<nat>>, seen: seq<seq<Event>>,
                            lower: map<string, nat>, outs: seq<string>, key: string)
  {
    ReadsBetween(st, st', seen, outs) && NothingLeft(used, seen, lower, outs, key) && UpToNow(st', seen, outs)
  }

  /** The first n events of a stream, past the cursor, hold no unused match. */
  ghost predicate AllUsed(used: map<string, set<nat>>, name: string, all: seq<Event>, lower: nat, n: nat, key: string)
    requires n <= |all|
  {
    forall k :: lower <= k < n && all[k].key == key ==> k in UsedIn(used, name)
  }

  lemma NothingLeftSnoc(used: map<string, set<nat>>, seen: seq<seq<Event>>, lower: map<string, nat>,
                        outs: seq<string>, key: string, all: seq<Event>)
    requires |seen| < |outs| && NothingLeft(used, seen, lower, outs, key)
    requires AllUsed(used, outs[|seen|], all, Cursor(lower, outs[|seen|]), |all|, key)
    ensures NothingLeft(used, seen + [all], lower, outs, key)
  {
  }

  /** One stream more without an unused match. */
  lemma LookedFurther(st: Store, a: Store, b: Store, used: map<string, set<nat>>, seen: seq<seq<Event>>,
                      lower: map<string, nat>, outs: seq<string>, key: string)
    requires |seen| < |outs| && LookingUp(st, a, used, seen, lower, outs, key) && Grew(a, b) && Grew(st, b)
    requires var name := outs[|seen|]; var all := Read(b, name);
             AllUsed(used, name, all, Cursor(lower, name), |all|, key)
    ensures LookingUp(st, b, used, seen + [Read(b, outs[|seen|])], lower, outs, key)
  {
    ReadsSnoc(st, a, b, seen, outs);
    NothingLeftSnoc(used, seen, lower, outs, key, Read(b, outs[|seen|]));
  }

  /** The first unused match in the next stream is the hit of the pass. */
  lemma HitLookedUp(st: Store, a: Store, b: Store, used: map<string, set<nat>>, seen: seq<seq<Event>>,
                    lower: map<string, nat>, outs: seq<string>, key: string, idx: nat)
    requires |seen| < |outs| && LookingUp(st, a, used, seen, lower, outs, key) && Grew(a, b) && Grew(st, b)
    requires var name := outs[|seen|]; var all := Read(b, name);
             idx < |all| && AllUsed(used, name, all, Cursor(lower, name), idx, key)
    ensures var o := Hit(Pos(outs[|seen|], idx), seen + [Read(b, outs[|seen|])]);
            LookedUp(st, b, used, o, lower, outs, key) && UpToNow(b, o.seen, outs)
  {
    ReadsSnoc(st, a, b, seen, outs);
  }

  /** An event e with the key, at position p of an output stream, not before its cursor. */
  ghost predicate HitAt(st: Store, p: Pos, e: Event, outs: seq<string>, key: string, lower: map<string, nat>) {
    && p.stream in outs
    && Cursor(lower, p.stream) <= p.idx < |Read(st, p.stream)|
    && Read(st, p.stream)[p.idx] == e && e.key == key
  }

  /** Whatever the wait ended with, noting it keeps the run sound. */
  lemma PairKeepsSound(st: Store, st': Store, ag: Agent, used: map<string, set<nat>>, used': map<string, set<nat>>,
                       log: seq<Sample>, windows: seq<Window>, s: Sample, status: MatchStatus, e: Event)
    requires Sound(st, ag, used, log, windows) && Grew(st, st') && !status.MatchCancelled?
    requires windows != [] && s.iter == |windows| - 1
    requires FreshIn(ag.consumes, windows[s.iter], s.input) && Grew(windows[s.iter].read, st)
    requires |s.verdicts| == |ag.evals|
    requires s.input.idx < |Read(st, s.input.stream)| && Read(st, s.input.stream)[s.input.idx].key == s.key
    requires LookedUp(st, st', used, s.outcome, windows[s.iter].outCur, ag.produces, s.key)
    requires status.MatchHit? ==>
               && s.outcome.Hit? && HitAt(st', s.outcome.pos, e, ag.produces, s.key, windows[s.iter].outCur)
               && s.outcome.pos.idx !in UsedIn(used, s.outcome.pos.stream) && used' == Mark(used, s.outcome.pos)
    requires status.MatchTimeout? ==> s.outcome.Missing? && used' == used
    ensures Sound(st', ag, used', log + [s], windows)
  {
    SoundGrows(st, st', ag, used, log, windows);
    assert Read(st, s.input.stream) <= Read(st', s.input.stream);
    ReadsFromEarlier(windows[s.iter].read, st, st', s.outcome.seen, ag.produces);
    if status.MatchHit? {
      HitKeepsSound(st', ag, used, log, windows, s);
    } else {
      MissKeepsSound(st', ag, used, log, windows, s);
    }
  }

  ghost predicate AllIn(topics: seq<string>, w: Window, pos: seq<Pos>) {
    forall i :: 0 <= i < |pos| ==> FreshIn(topics, w, pos[i])
  }

  /** The inputs judged since log0 are the first i of pos. */
  ghost predicate JudgedTo(log0: seq<Sample>, log: seq<Sample>, pos: seq<Pos>, i: nat) {
    i <= |pos| && Inputs(log) == Inputs(log0) + pos[..i] <= Inputs(log0) + pos
  }

  lemma JudgedOneMore(log0: seq<Sample>, log: seq<Sample>, s: Sample, pos: seq<Pos>, i: nat)
    requires i < |pos| && JudgedTo(log0, log, pos, i) && s.input == pos[i]
    ensures JudgedTo(log0, log + [s], pos, i + 1)
  {
    assert Inputs(log + [s]) == Inputs(log) + [pos[i]];
    assert pos[..i + 1] == pos[..i] + [pos[i]];
    assert pos == pos[..i + 1] + pos[i + 1..];
  }

  lemma JudgedAll(log0: seq<Sample>, log: seq<Sample>, pos: seq<Pos>)
    requires JudgedTo(log0, log, pos, |pos|)
    ensures Inputs(log) == Inputs(log0) + pos
  {
    assert pos[..|pos|] == pos;
  }

  ghost predicate EventsAt(st: Store, pos: seq<Pos>, out: seq<Event>) {
    |out| == |pos| &&
    forall i :: 0 <= i < |pos| ==>
      pos[i].idx < |Read(st, pos[i].stream)| && Read(st, pos[i].stream)[pos[i].idx] == out[i]
  }

  lemma EventAt(st: Store, st': Store, pos: seq<Pos>, out: seq<Event>, i: nat)
    requires EventsAt(st, pos, out) && Grew(st, st') && i < |pos|
    ensures pos[i].idx < |Read(st', pos[i].stream)| && Read(st', pos[i].stream)[pos[i].idx] == out[i]
  {
    assert Read(st, pos[i].stream) <= Read(st', pos[i].stream);
  }

  /** Each cursor is the length of its stream at some instant between the two stores. */
  ghost predicate Snapshot(st: Store, st': Store, topics: seq<string>, cur: map<string, nat>) {
    forall t :: t in topics ==> t in cur && |Read(st, t)| <= cur[t] <= |Read(st', t)|
  }

  ghost predicate ReadTo(st: Store, st': Store, topics: seq<string>, ends: seq<nat>) {
    |ends| == |topics| &&
    forall p :: 0 <= p < |topics| ==> |Read(st, topics[p])| <= ends[p] <= |Read(st', topics[p])|
  }

  lemma EventsStay(st: Store, st': Store, pos: seq<Pos>, out: seq<Event>)
    requires EventsAt(st, pos, out) && Grew(st, st')
    ensures EventsAt(st', pos, out)
  {
    forall i | 0 <= i < |pos|
      ensures pos[i].idx < |Read(st', pos[i].stream)| && Read(st', pos[i].stream)[pos[i].idx] == out[i]
    {
      assert Read(st, pos[i].stream) <= Read(st', pos[i].stream);
    }
  }

  lemma ReadToStep(st: Store, before: Store, st': Store, topics: seq<string>, i: nat, ends: seq<nat>)
    requires i < |topics| && ReadTo(st, before, topics[..i], ends) && Grew(st, st') && Grew(before, st')
    ensures ReadTo(st, st', topics[..i + 1], ends + [|Read(st', topics[i])|])
  {
    forall p | 0 <= p < i + 1 ensures |Read(st, topics[p])| <= |Read(st', topics[p])| {
      assert Read(st, topics[p]) <= Read(st', topics[p]);
    }
    forall p | 0 <= p < i ensures ends[p] <= |Read(st', topics[p])| {
      assert topics[..i][p] == topics[p];
      assert Read(before, topics[p]) <= Read(st', topics[p]);
    }
    forall p | 0 <= p < i ensures |Read(st, topics[p])| <= ends[p] {
      assert topics[..i][p] == topics[p];
    }
  }

  /** What a stream holds from a cursor on. */
  function Tail(all: seq<Event>, start: nat): seq<Event> { if start < |all| then all[start..] else [] }

  lemma EventsConcat(st: Store, a: seq<Pos>, out: seq<Event>, b: seq<Pos>, more: seq<Event>)
    requires EventsAt(st, a, out) && EventsAt(st, b, more)
    ensures EventsAt(st, a + b, out + more)
  {
  }

  lemma FreshSnoc(topics: seq<string>, i: nat, cur: map<string, nat>, ends: seq<nat>, end: nat)
    requires i < |topics| && |ends| == i
    ensures Fresh(topics[..i + 1], cur, ends + [end]) ==
            Fresh(topics[..i], cur, ends) + Range(topics[i], Cursor(cur, topics[i]), end)
  {
    assert topics[..i + 1][..i] == topics[..i];
    assert (ends + [end])[..i] == ends;
  }

  lemma FreshStep(st: Store, topics: seq<string>, i: nat, cur: map<string, nat>, ends: seq<nat>,
                  out: seq<Event>, start: nat)
    requires i < |topics| && |ends| == i && EventsAt(st, Fresh(topics[..i], cur, ends), out)
    requires start == Cursor(cur, topics[i])
    ensures var all := Read(st, topics[i]);
            EventsAt(st, Fresh(topics[..i + 1], cur, ends + [|all|]), out + Tail(all, start))
  {
    var all := Read(st, topics[i]);
    FreshSnoc(topics, i, cur, ends, |all|);
    EventsConcat(st, Fresh(topics[..i], cur, ends), out,
                 Range(topics[i], start, |all|), Tail(all, start));
  }

  /** What one window says about the run: its cursors are lengths taken between its
      start and its reseed, and its ends are lengths read after the reseed. */
  ghost predicate WindowOk(st: Store, ag: Agent, w: Window) {
    && Grew(w.start, w.reseeding) && Grew(w.reseeding, w.seeded) && Grew(w.seeded, w.read) && Grew(w.read, st)
    && Snapshot(w.start, w.reseeding, ag.consumes, w.inCur)
    && Snapshot(w.start, w.reseeding, ag.produces, w.outCur)
    && ReadTo(w.seeded, w.read, ag.consumes, w.ends)
  }

  /** Each window reads on from where the earlier ones stopped. */
  ghost predicate InOrder(topics: seq<string>, windows: seq<Window>) {
    && (forall k :: 0 <= k < |windows| ==> |windows[k].ends| == |topics|)
    && (forall k, l, p :: 0 <= k < l < |windows| && 0 <= p < |topics| ==>
          windows[k].ends[p] <= Cursor(windows[l].inCur, topics[p]))
  }

  /** The run and its iterations follow each other in time: each starts on a store grown from
      the one the run began on and from those of earlier iterations. */
  ghost predicate Successive(began: Store, windows: seq<Window>) {
    && (forall k :: 0 <= k < |windows| ==> Grew(began, windows[k].start))
    && (forall k, l :: 0 <= k < l < |windows| ==> Grew(windows[k].read, windows[l].start))
  }

  ghost predicate WindowsOk(began: Store, st: Store, ag: Agent, windows: seq<Window>) {
    && (forall k :: 0 <= k < |windows| ==> WindowOk(st, ag, windows[k]))
    && InOrder(ag.consumes, windows) && Successive(began, windows)
  }

  /** The ends of the windows' reseeds, and the stores at which their inputs had been read. */
  ghost function Reseedings(windows: seq<Window>): (r: seq<Reseeding>)
    ensures |r| == |windows|
  {
    if windows == [] then []
    else
      var n := |windows| - 1;
      Reseedings(windows[..n]) + [Reseeding(windows[n].reseeding, windows[n].seeded)]
  }

  ghost function Readings(windows: seq<Window>): (r: seq<Store>)
    ensures |r| == |windows|
  {
    if windows == [] then [] else Readings(windows[..|windows| - 1]) + [windows[|windows| - 1].read]
  }

  /** Since `b` the world's record gained the reseed and the reading of every window, in order,
      and the reseed that failed, if one did. */
  ghost predicate Noted(b: Record, reseeds: seq<Reseeding>, readings: seq<Store>, windows: seq<Window>, failed: bool) {
    && (if failed then reseeds != [] && reseeds[..|reseeds| - 1] == b.reseeds + Reseedings(windows)
        else reseeds == b.reseeds + Reseedings(windows))
    && readings == b.readings + Readings(windows)
  }

  lemma NotedSnoc(b: Record, reseeds: seq<Reseeding>, readings: seq<Store>, windows: seq<Window>, win: Window)
    requires Noted(b, reseeds, readings, windows, false)
    ensures Noted(b, reseeds + [Reseeding(win.reseeding, win.seeded)], readings + [win.read], windows + [win], false)
  {
    assert (windows + [win])[..|windows|] == windows;
    Sequences.Assoc(b.reseeds, Reseedings(windows), [Reseeding(win.reseeding, win.seeded)]);
    Sequences.Assoc(b.readings, Readings(windows), [win.read]);
  }

  lemma {:induction false} ReseedingAt(windows: seq<Window>, k: nat)
    requires k < |windows|
    ensures Reseedings(windows)[k] == Reseeding(windows[k].reseeding, windows[k].seeded)
  {
    if k < |windows| - 1 {
      ReseedingAt(windows[..|windows| - 1], k);
    }
  }

  lemma NotedReseed(b: Record, reseeds: seq<Reseeding>, readings: seq<Store>, windows: seq<Window>, k: nat)
    requires Noted(b, reseeds, readings, windows, false) && k < |windows|
    ensures reseeds[|b.reseeds| + k] == Reseeding(windows[k].reseeding, windows[k].seeded)
  {
    ReseedingAt(windows, k);
  }

  lemma {:induction false} ReadingAt(windows: seq<Window>, k: nat)
    requires k < |windows|
    ensures Readings(windows)[k] == windows[k].read
  {
    if k < |windows| - 1 {
      ReadingAt(windows[..|windows| - 1], k);
    }
  }

  lemma NotedReading(b: Record, reseeds: seq<Reseeding>, readings: seq<Store>, windows: seq<Window>,
                     failed: bool, k: nat)
    requires Noted(b, reseeds, readings, windows, failed) && k < |windows|
    ensures |b.readings| + k < |readings| && readings[|b.readings| + k] == windows[k].read
  {
    ReadingAt(windows, k);
  }

  lemma GrewTransitive(a: Store, b: Store, c: Store)
    requires Grew(a, b) && Grew(b, c)
    ensures Grew(a, c)
  {
    forall s ensures Read(a, s) <= Read(c, s) {
      assert Read(a, s) <= Read(b, s) <= Read(c, s);
    }
  }

  lemma WindowsStay(began: Store, st: Store, st': Store, ag: Agent, windows: seq<Window>)
    requires WindowsOk(began, st, ag, windows) && Grew(st, st')
    ensures WindowsOk(began, st', ag, windows)
  {
    forall k | 0 <= k < |windows| ensures WindowOk(st', ag, windows[k]) {
      GrewTransitive(windows[k].read, st, st');
    }
  }

  lemma StoreGrows(began: Store, st: Store, st': Store, ag: Agent, used: map<string, set<nat>>, log: seq<Sample>,
                   windows: seq<Window>)
    requires Grew(st, st') && Sound(st, ag, used, log, windows) && WindowsOk(began, st, ag, windows)
    ensures Sound(st', ag, used, log, windows) && WindowsOk(began, st', ag, windows)
  {
    SoundGrows(st, st', ag, used, log, windows);
    WindowsStay(began, st, st', ag, windows);
  }

  lemma NewWindowOk(start: Store, between: Store, ag: Agent, win: Window)
    requires win.start == start && Grew(start, between) && Grew(between, win.reseeding)
    requires Grew(win.reseeding, win.seeded) && Grew(win.seeded, win.read)
    requires Snapshot(start, between, ag.consumes, win.inCur)
    requires Snapshot(between, win.reseeding, ag.produces, win.outCur)
    requires ReadTo(win.seeded, win.read, ag.consumes, win.ends)
    ensures WindowOk(win.read, ag, win)
  {
    GrewTransitive(start, between, win.reseeding);
    forall t | t in ag.consumes ensures t in win.inCur && win.inCur[t] <= |Read(win.reseeding, t)| {
      assert Read(between, t) <= Read(win.reseeding, t);
    }
    forall t | t in ag.produces ensures t in win.outCur && |Read(start, t)| <= win.outCur[t] {
      assert Read(start, t) <= Read(between, t);
    }
  }

  lemma WithinSound(st: Store, ag: Agent, used: map<string, set<nat>>, log: seq<Sample>,
                    windows: seq<Window>, i: nat)
    requires Sound(st, ag, used, log, windows) && i < |log|
    ensures Within(log[i], ag.produces, st)
  {
    var w := windows[log[i].iter];
    assert SearchedAt(st, i, log, w, ag.produces);
    ReadsFromEarlier(map[], w.read, st, log[i].outcome.seen, ag.produces);
  }

  lemma SettledWithWindow(ag: Agent, used: map<string, set<nat>>, log: seq<Sample>, windows: seq<Window>, win: Window)
    requires Sound(win.start, ag, used, log, windows)
    ensures Settled(ag, log, windows + [win])
  {
    var windows' := windows + [win];
    forall i, l | 0 <= i < |log| && log[i].iter < l < |windows'|
      ensures Within(log[i], ag.produces, windows'[l].start)
    {
      if l == |windows| {
        WithinSound(win.start, ag, used, log, windows, i);
      } else {
        assert windows'[l] == windows[l];
      }
    }
  }

  lemma SoundWithWindow(st: Store, ag: Agent, used: map<string, set<nat>>, log: seq<Sample>,
                        windows: seq<Window>, win: Window)
    requires Sound(win.start, ag, used, log, windows) && Sound(st, ag, used, log, windows)
    ensures Sound(st, ag, used, log, windows + [win])
  {
    var windows' := windows + [win];
    assert forall k :: 0 <= k < |windows| ==> windows'[k] == windows[k];
    forall i | 0 <= i < |log| ensures HonestSample(st, ag, log[i], windows') {
      assert HonestSample(st, ag, log[i], windows);
    }
    SettledWithWindow(ag, used, log, windows, win);
  }

  /** A window opened on a grown store begins where the earlier ones ended, or after. */
  lemma LaterWindow(st: Store, ag: Agent, w: Window, win: Window, p: nat)
    requires WindowOk(win.start, ag, w) && WindowOk(st, ag, win)
    requires p < |ag.consumes|
    ensures w.ends[p] <= Cursor(win.inCur, ag.consumes[p])
  {
    var t := ag.consumes[p];
    assert t in ag.consumes;
    assert Read(w.read, t) <= Read(win.start, t);
  }

  lemma InOrderSnoc(topics: seq<string>, windows: seq<Window>, win: Window)
    requires InOrder(topics, windows) && |win.ends| == |topics|
    requires forall k, p :: 0 <= k < |windows| && 0 <= p < |topics| ==>
               windows[k].ends[p] <= Cursor(win.inCur, topics[p])
    ensures InOrder(topics, windows + [win])
  {
    var windows' := windows + [win];
    forall k, l, p | 0 <= k < l < |windows'| && 0 <= p < |topics|
      ensures |windows'[k].ends| == |topics| && windows'[k].ends[p] <= Cursor(windows'[l].inCur, topics[p])
    {
      assert windows'[k] == windows[k];
      if l < |windows| {
        assert windows'[l] == windows[l];
      }
    }
  }

  lemma SuccessiveSnoc(began: Store, windows: seq<Window>, win: Window)
    requires Successive(began, windows) && Grew(began, win.start)
    requires forall k :: 0 <= k < |windows| ==> Grew(windows[k].read, win.start)
    ensures Successive(began, windows + [win])
  {
    var windows' := windows + [win];
    forall k, l | 0 <= k < l < |windows'| ensures Grew(windows'[k].read, windows'[l].start) {
      assert windows'[k] == windows[k];
      if l < |windows| {
        assert windows'[l] == windows[l];
      }
    }
  }

  lemma WindowsSnoc(began: Store, st: Store, ag: Agent, windows: seq<Window>, win: Window)
    requires WindowsOk(began, win.start, ag, windows) && WindowsOk(began, st, ag, windows) && WindowOk(st, ag, win)
    requires Grew(began, win.start)
    ensures WindowsOk(began, st, ag, windows + [win])
  {
    var windows' := windows + [win];
    forall k | 0 <= k < |windows'| ensures WindowOk(st, ag, windows'[k]) {
      if k < |windows| {
        assert windows'[k] == windows[k];
      }
    }
    forall k, p | 0 <= k < |windows| && 0 <= p < |ag.consumes|
      ensures windows[k].ends[p] <= Cursor(win.inCur, ag.consumes[p])
    {
      LaterWindow(st, ag, windows[k], win, p);
    }
    InOrderSnoc(ag.consumes, windows, win);
    SuccessiveSnoc(began, windows, win);
  }

  /** Opening a window keeps everything said about the run so far. */
  lemma OpenWindow(began: Store, st: Store, ag: Agent, used: map<string, set<nat>>, log: seq<Sample>,
                   windows: seq<Window>, win: Window)
    requires Sound(win.start, ag, used, log, windows) && Sound(st, ag, used, log, windows)
    requires WindowsOk(began, win.start, ag, windows) && WindowsOk(began, st, ag, windows)
    requires WindowOk(st, ag, win) && Grew(began, win.start)
    ensures Sound(st, ag, used, log, windows + [win])
    ensures WindowsOk(began, st, ag, windows + [win])
    ensures AllFresh(ag.consumes, windows + [win]) ==
            AllFresh(ag.consumes, windows) + Fresh(ag.consumes, win.inCur, win.ends)
  {
    SoundWithWindow(st, ag, used, log, windows, win);
    WindowsSnoc(began, st, ag, windows, win);
    assert (windows + [win])[..|windows|] == windows;
  }

  /** One more window, starting on the store, unless the reseed failed. */
  ghost predicate Opened(st: Store, windows: seq<Window>, windows': seq<Window>, failed: bool) {
    if failed then windows' == windows
    else |windows'| == |windows| + 1 && windows <= windows' && windows'[|windows|].start == st
  }

  function DefaultEvent(): Event { Event("", "", 0, map[], "", Produced) }

  /** The state of a run: the outputs used so far, the samples handed to the
      judge and the windows of the iterations begun. */
  class Run {
    var used: map<string, set<nat>>
    ghost var log: seq<Sample>
    ghost var windows: seq<Window>

    constructor ()
      ensures used == map[] && log == [] && windows == []
    {
      used, log, windows := map[], [], [];
    }

    // ----- waitForOutput -----

    /** One pass over one output stream: the first unused event with the key. */
    method ScanStream(w: World, name: string, key: string, lower: nat)
      returns (found: bool, idx: nat, all: seq<Event>)
      modifies this`used
      ensures all == Read(w.streams, name)
      ensures found ==>
        && lower <= idx < |all| && all[idx].key == key && idx !in UsedIn(old(used), name)
        && used == Mark(old(used), Pos(name, idx))
        && AllUsed(old(used), name, all, lower, idx, key)
      ensures !found ==> used == old(used) && AllUsed(used, name, all, lower, |all|, key)
    {
      var seen := UsedIn(used, name);
      all := w.Query(name);
      idx := lower;
      while idx < |all|
        invariant lower <= idx
        invariant forall k :: lower <= k < idx && k < |all| && all[k].key == key ==> k in seen
      {
        if idx !in seen && all[idx].key == key {
          seen := seen + {idx};
          used := used[name := seen];
          return true, idx, all;
        }
        idx := idx + 1;
      }
      found := false;
    }

    /** One pass over all output streams, in order; others may append between two reads. The
        stream read last is as it is when the pass ends. */
    method Pass(w: World, outs: seq<string>, key: string, lower: map<string, nat>)
      returns (found: bool, e: Event, ghost outcome: Outcome)
      modifies w`streams, w`now, w`cancelled, this`used
      ensures w.now >= old(w.now)
      ensures Grew(old(w.streams), w.streams)
      ensures old(w.cancelled) ==> w.cancelled
      ensures LookedUp(old(w.streams), w.streams, old(used), outcome, lower, outs, key)
      ensures UpToNow(w.streams, outcome.seen, outs)
      ensures found ==> outcome.Hit? && HitAt(w.streams, outcome.pos, e, outs, key, lower) &&
                        outcome.pos.idx !in UsedIn(old(used), outcome.pos.stream) &&
                        used == Mark(old(used), outcome.pos)
      ensures !found ==> outcome.Missing? && used == old(used)
    {
      ghost var seen: seq<seq<Event>> := [];
      for i := 0 to |outs|
        invariant used == old(used) && w.now >= old(w.now)
        invariant Grew(old(w.streams), w.streams)
        invariant old(w.cancelled) ==> w.cancelled
        invariant |seen| == i && LookingUp(old(w.streams), w.streams, used, seen, lower, outs, key)
      {
        ghost var before := w.streams;
        w.Interfere(0);
        var hit, idx, all := ScanStream(w, outs[i], key, Cursor(lower, outs[i]));
        if hit {
          HitLookedUp(old(w.streams), before, w.streams, old(used), seen, lower, outs, key, idx);
          return true, all[idx], Hit(Pos(outs[i], idx), seen + [all]);
        }
        LookedFurther(old(w.streams), before, w.streams, used, seen, lower, outs, key);
        seen := seen + [all];
      }
      return false, DefaultEvent(), Missing(seen);
    }

    /** Polls until a pass hits, the time is over or the context is cancelled. A wait that gives
        up ends with a pass, so the last stream is as it is then, past the deadline. */
    method WaitForOutput(w: World, outs: seq<string>, key: string, timeout: nat, lower: map<string, nat>)
      returns (status: MatchStatus, e: Event, ghost outcome: Outcome)
      modifies w`streams, w`now, w`cancelled, this`used
      ensures Grew(old(w.streams), w.streams)
      ensures old(w.cancelled) ==> w.cancelled && status.MatchCancelled?
      ensures !status.MatchCancelled? ==>
        && LookedUp(old(w.streams), w.streams, old(used), outcome, lower, outs, key)
        && UpToNow(w.streams, outcome.seen, outs)
      ensures status.MatchHit? ==>
        outcome.Hit? && HitAt(w.streams, outcome.pos, e, outs, key, lower) &&
        outcome.pos.idx !in UsedIn(old(used), outcome.pos.stream) && used == Mark(old(used), outcome.pos)
      ensures status.MatchTimeout? ==> outcome.Missing? && used == old(used) && w.now > old(w.now) + timeout
      ensures status.MatchCancelled? ==> w.cancelled && used == old(used)
    {
      var deadline := w.now + timeout;
      while true
        invariant used == old(used) && w.now >= old(w.now)
        invariant Grew(old(w.streams), w.streams)
        invariant old(w.cancelled) ==> w.cancelled
        decreases if w.now > deadline then 0 else deadline - w.now + 1
      {
        if w.cancelled {
          return MatchCancelled, DefaultEvent(), Missing([]);
        }
        ghost var polled := w.streams;
        var found, hit, result := Pass(w, outs, key, lower);
        ReadsFromEarlier(old(w.streams), polled, w.streams, result.seen, outs);
        if found {
          return MatchHit, hit, result;
        }
        if w.now > deadline {
          return MatchTimeout, hit, result;
        }
        w.Interfere(POLL);
        if w.cancelled {
          return MatchCancelled, DefaultEvent(), Missing([]);
        }
      }
    }

    // ----- scorePair -----

    /** The judge's answers, one per eval; those of unjudged evals are not looked at. */
    method AskJudge(evals: seq<Eval>) returns (verdicts: seq<Score>)
      ensures |verdicts| == |evals|
    {
      verdicts := [];
      for i := 0 to |evals|
        invariant |verdicts| == i
      {
        var value: Floats.Float := *;
        var failed: bool := *;
        verdicts := verdicts + [if failed then ScoreError else Score.Score(value)];
      }
    }

    method ScorePair(w: World, e: Event, ghost pos: Pos, ag: Agent, lower: map<string, nat>,
                     ghost iter: nat, timeout: nat)
      returns (cancelled: bool, ghost s: Sample)
      requires Sound(w.streams, ag, used, log, windows)
      requires windows != [] && iter == |windows| - 1
      requires windows[iter].outCur == lower && Grew(windows[iter].read, w.streams)
      requires FreshIn(ag.consumes, windows[iter], pos)
      requires pos.idx < |Read(w.streams, pos.stream)| && Read(w.streams, pos.stream)[pos.idx] == e
      modifies w`streams, w`now, w`cancelled, this`used, this`log
      ensures Sound(w.streams, ag, used, log, windows)
      ensures Grew(old(w.streams), w.streams)
      ensures old(w.cancelled) ==> w.cancelled && cancelled
      ensures cancelled ==> w.cancelled && log == old(log)
      ensures !cancelled ==> log == old(log) + [s] && s.input == pos && s.iter == iter
    {
      ghost var used0 := used;
      var status, output;
      ghost var outcome;
      status, output, outcome := WaitForOutput(w, ag.produces, e.key, timeout, lower);
      if status.MatchCancelled? {
        SoundGrows(old(w.streams), w.streams, ag, used0, log, windows);
        return true, Sample(pos, e.key, iter, outcome, []);
      }
      var verdicts := AskJudge(ag.evals);
      s := Sample(pos, e.key, iter, outcome, verdicts);
      PairKeepsSound(old(w.streams), w.streams, ag, used0, used, log, windows, s, status, output);
      log := log + [s];
      cancelled := false;
    }

    // ----- RunIterations -----

    method SnapshotCursors(w: World, topics: seq<string>) returns (cur: map<string, nat>)
      modifies w`streams, w`now, w`cancelled
      ensures Grew(old(w.streams), w.streams)
      ensures Snapshot(old(w.streams), w.streams, topics, cur)
    {
      cur := map[];
      for i := 0 to |topics|
        invariant Grew(old(w.streams), w.streams)
        invariant Snapshot(old(w.streams), w.streams, topics[..i], cur)
      {
        w.Interfere(0);
        cur := cur[topics[i] := |w.Query(topics[i])|];
        assert topics[..i + 1] == topics[..i] + [topics[i]];
      }
      assert topics[..|topics|] == topics;
    }

    method AppendFrom(out: seq<Event>, all: seq<Event>, start: nat) returns (out': seq<Event>)
      ensures out' == out + Tail(all, start)
    {
      out' := out;
      if start < |all| {
        out' := out + all[start..];
      }
    }

    method FreshInputsAfter(w: World, topics: seq<string>, cur: map<string, nat>)
      returns (out: seq<Event>, ghost ends: seq<nat>)
      modifies w`streams, w`now, w`cancelled, w`readings
      ensures Grew(old(w.streams), w.streams)
      ensures ReadTo(old(w.streams), w.streams, topics, ends)
      ensures EventsAt(w.streams, Fresh(topics, cur, ends), out)
      ensures w.readings == old(w.readings) + [w.streams]
    {
      out, ends := [], [];
      for i := 0 to |topics|
        invariant Grew(old(w.streams), w.streams)
        invariant ReadTo(old(w.streams), w.streams, topics[..i], ends)
        invariant EventsAt(w.streams, Fresh(topics[..i], cur, ends), out) && w.readings == old(w.readings)
      {
        ghost var before := w.streams;
        w.Interfere(0);
        EventsStay(before, w.streams, Fresh(topics[..i], cur, ends), out);
        ReadToStep(old(w.streams), before, w.streams, topics, i, ends);
        var all := w.Query(topics[i]);
        var start := Cursor(cur, topics[i]);
        FreshStep(w.streams, topics, i, cur, ends, out, start);
        out := AppendFrom(out, all, start);
        ends := ends + [|all|];
      }
      assert topics[..|topics|] == topics;
      w.readings := w.readings + [w.streams];
    }

    /** `iterations` rounds of snapshot, reseed, read and score. */
    method RunIterations(w: World, agent: Options.Option<Agent>, hasReseed: bool, iterations: int, timeout: nat)
      returns (status: RunStatus)
      requires used == map[] && log == [] && windows == []
      modifies w, this
      ensures Grew(old(w.streams), w.streams)
      ensures status.NoAgent? <==> agent.None? || agent.value.produces == []
      ensures status.NoReseed? <==> !status.NoAgent? && !hasReseed
      ensures status.NoAgent? || status.NoReseed? ==> log == []
      ensures agent.Some? ==>
        var ag := agent.value;
        && Sound(w.streams, ag, used, log, windows) && WindowsOk(old(w.streams), w.streams, ag, windows)
        && Inputs(log) <= AllFresh(ag.consumes, windows)
        && (status.RunOk? ==> |windows| == (if iterations <= 0 then 1 else iterations) &&
                              Inputs(log) == AllFresh(ag.consumes, windows))
      ensures Noted(old(w.Recorded()), w.reseeds, w.readings, windows, status.ReseedFailed?)
      ensures status.RunCancelled? ==> w.cancelled
    {
      if agent.None? || |agent.value.produces| == 0 {
        return NoAgent;
      }
      if !hasReseed {
        return NoReseed;
      }
      var ag, n := agent.value, if iterations <= 0 then 1 else iterations;
      ghost var b := w.Recorded();
      for iter := 0 to n
        invariant Grew(b.store, w.streams)
        invariant Sound(w.streams, ag, used, log, windows)
        invariant WindowsOk(b.store, w.streams, ag, windows)
        invariant Noted(b, w.reseeds, w.readings, windows, false)
        invariant |windows| == iter && Inputs(log) == AllFresh(ag.consumes, windows)
      {
        status := Iteration(w, ag, timeout, b);
        if !status.RunOk? {
          return;
        }
      }
      return RunOk;
    }

    /** The part of an iteration before scoring: snapshot, reseed, read. */
    method Seed(w: World, ag: Agent)
      returns (failed: bool, inputs: seq<Event>, outCursors: map<string, nat>, ghost win: Window)
      modifies w
      ensures Grew(old(w.streams), w.streams)
      ensures w.reseeds == old(w.reseeds) + [Reseeding(win.reseeding, win.seeded)]
      ensures w.readings == if failed then old(w.readings) else old(w.readings) + [win.read]
      ensures !failed ==>
        && win.start == old(w.streams) && win.outCur == outCursors && win.read == w.streams
        && WindowOk(w.streams, ag, win)
      ensures !failed ==>
        |win.ends| == |ag.consumes| && EventsAt(w.streams, Fresh(ag.consumes, win.inCur, win.ends), inputs)
    {
      ghost var start := w.streams;
      var inCursors := SnapshotCursors(w, ag.consumes);
      ghost var between := w.streams;
      outCursors := SnapshotCursors(w, ag.produces);
      ghost var reseeding := w.streams;
      failed := w.Reseed();
      ghost var seeded := w.streams;
      inputs := [];
      win := Window(start, reseeding, seeded, seeded, inCursors, outCursors, []);
      if failed {
        return;
      }
      ghost var ends;
      inputs, ends := FreshInputsAfter(w, ag.consumes, inCursors);
      win := win.(ends := ends, read := w.streams);
      NewWindowOk(start, between, ag, win);
    }

    /** The same, with the new window noted. */
    method Open(w: World, ag: Agent, ghost b: Record)
      returns (failed: bool, inputs: seq<Event>, outCursors: map<string, nat>)
      requires Sound(w.streams, ag, used, log, windows)
      requires WindowsOk(b.store, w.streams, ag, windows) && Inputs(log) == AllFresh(ag.consumes, windows)
      requires Grew(b.store, w.streams) && Noted(b, w.reseeds, w.readings, windows, false)
      modifies w, this`windows
      ensures Grew(old(w.streams), w.streams)
      ensures Sound(w.streams, ag, used, log, windows) && WindowsOk(b.store, w.streams, ag, windows)
      ensures Noted(b, w.reseeds, w.readings, windows, failed)
      ensures Opened(old(w.streams), old(windows), windows, failed)
      ensures !failed ==>
        var win := windows[|windows| - 1];
        && win.outCur == outCursors
        && EventsAt(w.streams, Fresh(ag.consumes, win.inCur, win.ends), inputs)
        && AllFresh(ag.consumes, windows) == Inputs(log) + Fresh(ag.consumes, win.inCur, win.ends)
    {
      ghost var start, reseeds, readings := w.streams, w.reseeds, w.readings;
      ghost var win;
      failed, inputs, outCursors, win := Seed(w, ag);
      StoreGrows(b.store, start, w.streams, ag, used, log, windows);
      if !failed {
        OpenWindow(b.store, w.streams, ag, used, log, windows, win);
        NotedSnoc(b, reseeds, readings, windows, win);
        windows := windows + [win];
      }
    }

    method Round(w: World, ag: Agent, timeout: nat, ghost b: Record)
      returns (status: RunStatus)
      requires Sound(w.streams, ag, used, log, windows)
      requires WindowsOk(b.store, w.streams, ag, windows) && Inputs(log) == AllFresh(ag.consumes, windows)
      requires Grew(b.store, w.streams) && Noted(b, w.reseeds, w.readings, windows, false)
      modifies w, this
      ensures status.RunOk? || status.RunCancelled? || status.ReseedFailed?
      ensures Grew(old(w.streams), w.streams)
      ensures Sound(w.streams, ag, used, log, windows) && WindowsOk(b.store, w.streams, ag, windows)
      ensures Noted(b, w.reseeds, w.readings, windows, status.ReseedFailed?)
      ensures Opened(old(w.streams), old(windows), windows, status.ReseedFailed?)
      ensures Inputs(log) <= AllFresh(ag.consumes, windows)
      ensures status.RunOk? ==> Inputs(log) == AllFresh(ag.consumes, windows)
      ensures status.RunCancelled? ==> w.cancelled
    {
      var failed, inputs, outCursors := Open(w, ag, b);
      if failed {
        return ReseedFailed;
      }
      ghost var atOpen := w.streams;
      status := ScoreWindow(w, inputs, ag, outCursors, timeout, b.store);
      GrewTransitive(old(w.streams), atOpen, w.streams);
    }

    /** One iteration: it ends at once when cancelled; otherwise its window starts on the store
        it was called with, unless the reseed fails. */
    method Iteration(w: World, ag: Agent, timeout: nat, ghost b: Record)
      returns (status: RunStatus)
      requires Sound(w.streams, ag, used, log, windows)
      requires WindowsOk(b.store, w.streams, ag, windows) && Inputs(log) == AllFresh(ag.consumes, windows)
      requires Grew(b.store, w.streams) && Noted(b, w.reseeds, w.readings, windows, false)
      modifies w, this
      ensures status.RunOk? || status.RunCancelled? || status.ReseedFailed?
      ensures Grew(b.store, w.streams) && Grew(old(w.streams), w.streams)
      ensures Sound(w.streams, ag, used, log, windows) && WindowsOk(b.store, w.streams, ag, windows)
      ensures Noted(b, w.reseeds, w.readings, windows, status.ReseedFailed?)
      ensures old(w.cancelled) ==> status.RunCancelled? && w.Recorded() == old(w.Recorded()) && log == old(log)
      ensures if old(w.cancelled) then windows == old(windows)
              else Opened(old(w.streams), old(windows), windows, status.ReseedFailed?)
      ensures Inputs(log) <= AllFresh(ag.consumes, windows)
      ensures status.RunOk? ==> Inputs(log) == AllFresh(ag.consumes, windows)
      ensures status.RunCancelled? ==> w.cancelled
    {
      if w.cancelled {
        return RunCancelled;
      }
      status := Round(w, ag, timeout, b);
      GrewTransitive(b.store, old(w.streams), w.streams);
    }

    method ScoreWindow(w: World, inputs: seq<Event>, ag: Agent, outCursors: map<string, nat>, timeout: nat,
                       ghost began: Store)
      returns (status: RunStatus)
      requires Sound(w.streams, ag, used, log, windows) && WindowsOk(began, w.streams, ag, windows)
      requires windows != [] && windows[|windows| - 1].outCur == outCursors
      requires var win := windows[|windows| - 1];
               && EventsAt(w.streams, Fresh(ag.consumes, win.inCur, win.ends), inputs)
               && AllFresh(ag.consumes, windows) == Inputs(log) + Fresh(ag.consumes, win.inCur, win.ends)
      modifies w`streams, w`now, w`cancelled, this`used, this`log
      ensures status.RunOk? || status.RunCancelled?
      ensures windows == old(windows) && w.reseeds == old(w.reseeds) && w.readings == old(w.readings)
      ensures Grew(old(w.streams), w.streams)
      ensures Sound(w.streams, ag, used, log, windows) && WindowsOk(began, w.streams, ag, windows)
      ensures Inputs(log) <= AllFresh(ag.consumes, windows)
      ensures status.RunOk? ==> Inputs(log) == AllFresh(ag.consumes, windows)
      ensures status.RunCancelled? ==> w.cancelled
      ensures old(w.cancelled) && inputs != [] ==> status.RunCancelled?
    {
      ghost var win, atOpen := windows[|windows| - 1], w.streams;
      assert WindowOk(w.streams, ag, win);
      assert AllIn(ag.consumes, win, Fresh(ag.consumes, win.inCur, win.ends));
      var cancelled := ScoreAll(w, inputs, Fresh(ag.consumes, win.inCur, win.ends), ag, outCursors, timeout);
      WindowsStay(began, atOpen, w.streams, ag, windows);
      return if cancelled then RunCancelled else RunOk;
    }

    method ScoreAll(w: World, inputs: seq<Event>, ghost pos: seq<Pos>, ag: Agent,
                    outCursors: map<string, nat>, timeout: nat)
      returns (cancelled: bool)
      requires Sound(w.streams, ag, used, log, windows)
      requires windows != [] && windows[|windows| - 1].outCur == outCursors
      requires Grew(windows[|windows| - 1].read, w.streams)
      requires AllIn(ag.consumes, windows[|windows| - 1], pos)
      requires EventsAt(w.streams, pos, inputs)
      modifies w`streams, w`now, w`cancelled, this`used, this`log
      ensures windows == old(windows) && w.reseeds == old(w.reseeds) && w.readings == old(w.readings)
      ensures Grew(old(w.streams), w.streams)
      ensures Sound(w.streams, ag, used, log, windows)
      ensures Inputs(log) <= Inputs(old(log)) + pos
      ensures cancelled ==> w.cancelled
      ensures old(w.cancelled) && inputs != [] ==> cancelled
      ensures !cancelled ==> Inputs(log) == Inputs(old(log)) + pos
    {
      ghost var log0, win := log, windows[|windows| - 1];
      for i := 0 to |inputs|
        invariant Grew(old(w.streams), w.streams)
        invariant Sound(w.streams, ag, used, log, windows)
        invariant JudgedTo(log0, log, pos, i)
        invariant old(w.cancelled) ==> w.cancelled && i == 0
      {
        GrewTransitive(win.read, old(w.streams), w.streams);
        EventAt(old(w.streams), w.streams, pos, inputs, i);
        ghost var before := log;
        ghost var s;
        cancelled, s := ScorePair(w, inputs[i], pos[i], ag, outCursors, |windows| - 1, timeout);
        if cancelled {
          return;
        }
        JudgedOneMore(log0, before, s, pos, i);
      }
      JudgedAll(log0, log, pos);
      return false;
    }
  }

  // ----- What a finished run guarantees -----

  /** The output at p would be found before the sample's own: it is in an earlier stream, or
      earlier in the same one, or the sample has none. */
  ghost predicate FoundSooner(o: Outcome, j: nat, p: Pos) {
    match o
    case Hit(q, seen) => j < |seen| - 1 || (j == |seen| - 1 && p.idx < q.idx)
    case Missing(_) => true
  }

  /** The output at p is one that the wait of sample i could have taken: it is in the jth output
      stream, past the cursor, with the key, and was in the store recorded when the iteration's
      inputs had been read. */
  ghost predicate Candidate(b: Record, r: Record, ag: Agent, log: seq<Sample>, windows: seq<Window>,
                            i: nat, j: nat, p: Pos)
  {
    && i < |log| && log[i].iter < |windows| && |b.readings| + log[i].iter < |r.readings|
    && j < |ag.produces| && ag.produces[j] == p.stream
    && var read := Read(r.readings[|b.readings| + log[i].iter], p.stream);
       Cursor(windows[log[i].iter].outCur, p.stream) <= p.idx < |read| && read[p.idx].key == log[i].key
  }

  lemma PassedIsJudged(st: Store, i: nat, log: seq<Sample>, w: Window, outs: seq<string>, j: nat, p: Pos)
    requires i < |log| && SearchedAt(st, i, log, w, outs) && FoundSooner(log[i].outcome, j, p)
    requires j < |outs| && outs[j] == p.stream && Cursor(w.outCur, p.stream) <= p.idx < |Read(w.read, p.stream)|
    requires Read(w.read, p.stream)[p.idx].key == log[i].key
    ensures JudgedBefore(i, log, p)
  {
    var o := log[i].outcome;
    assert Read(w.read, outs[j]) <= o.seen[j];
    assert p.idx < Passed(o, j);
    assert o.seen[j][p.idx].key == log[i].key;
  }

  /** No matching output that was there when the iteration's inputs had been read, past the
      cursor, is passed over, neither for none nor for one in a later stream or later in its
      stream, unless it was judged with an earlier input. */
  lemma FirstUnusedIsJudged(b: Record, r: Record, ag: Agent, used: map<string, set<nat>>, log: seq<Sample>,
                            windows: seq<Window>, failed: bool, i: nat, j: nat, p: Pos)
    requires Sound(r.store, ag, used, log, windows) && Noted(b, r.reseeds, r.readings, windows, failed)
    requires Candidate(b, r, ag, log, windows, i, j, p) && FoundSooner(log[i].outcome, j, p)
    ensures JudgedBefore(i, log, p)
  {
    NotedReading(b, r.reseeds, r.readings, windows, failed, log[i].iter);
    assert SearchedAt(r.store, i, log, windows[log[i].iter], ag.produces);
    PassedIsJudged(r.store, i, log, windows[log[i].iter], ag.produces, j, p);
  }

  /** So an input reported missing found every such output judged with an earlier one. */
  lemma MissingOnlyWhenUsed(b: Record, r: Record, ag: Agent, used: map<string, set<nat>>, log: seq<Sample>,
                            windows: seq<Window>, failed: bool, i: nat, p: Pos)
    requires Sound(r.store, ag, used, log, windows) && Noted(b, r.reseeds, r.readings, windows, failed)
    requires i < |log| && log[i].outcome.Missing? && p.stream in ag.produces
    requires var read := Read(r.readings[|b.readings| + log[i].iter], p.stream);
             Cursor(windows[log[i].iter].outCur, p.stream) <= p.idx < |read| && read[p.idx].key == log[i].key
    ensures JudgedBefore(i, log, p)
  {
    var j :| 0 <= j < |ag.produces| && ag.produces[j] == p.stream;
    FirstUnusedIsJudged(b, r, ag, used, log, windows, failed, i, j, p);
  }

  ghost predicate Distinct<T>(s: seq<T>) { forall i, j :: 0 <= i < j < |s| ==> s[i] != s[j] }

  lemma DistinctConcat<T>(a: seq<T>, b: seq<T>)
    requires Distinct(a) && Distinct(b) && forall x :: x in a ==> x !in b
    ensures Distinct(a + b)
  {
    var c := a + b;
    forall i, j | 0 <= i < j < |c| ensures c[i] != c[j] {
      if i < |a| && |a| <= j {
        assert a[i] in a && b[j - |a|] in b;
      }
    }
  }

  lemma {:induction false} FreshMembers(topics: seq<string>, cur: map<string, nat>, ends: seq<nat>, x: Pos)
    requires |ends| == |topics|
    ensures x in Fresh(topics, cur, ends) <==>
            exists p :: 0 <= p < |topics| && topics[p] == x.stream && Cursor(cur, x.stream) <= x.idx < ends[p]
  {
    if topics != [] {
      var n := |topics| - 1;
      FreshMembers(topics[..n], cur, ends[..n], x);
      var r := Range(topics[n], Cursor(cur, topics[n]), ends[n]);
      if topics[n] == x.stream && Cursor(cur, x.stream) <= x.idx < ends[n] {
        assert r[x.idx - Cursor(cur, x.stream)] == x;
      }
      if p :| 0 <= p < |topics| && topics[p] == x.stream && Cursor(cur, x.stream) <= x.idx < ends[p] && p < n {
        assert topics[..n][p] == topics[p] && ends[..n][p] == ends[p];
      }
    }
  }

  lemma FreshFrom(topics: seq<string>, cur: map<string, nat>, ends: seq<nat>, x: Pos) returns (p: nat)
    requires |ends| == |topics| && x in Fresh(topics, cur, ends)
    ensures p < |topics| && topics[p] == x.stream && Cursor(cur, x.stream) <= x.idx < ends[p]
  {
    FreshMembers(topics, cur, ends, x);
    p :| 0 <= p < |topics| && topics[p] == x.stream && Cursor(cur, x.stream) <= x.idx < ends[p];
  }

  /** The fresh inputs come topic by topic, in the order of the topics, and in each in the order
      of the stream. */
  lemma {:induction false} FreshOrdered(topics: seq<string>, cur: map<string, nat>, ends: seq<nat>, i: nat, j: nat)
    returns (p: nat, q: nat)
    requires |ends| == |topics| && i < j < |Fresh(topics, cur, ends)|
    ensures var r := Fresh(topics, cur, ends);
            && p <= q < |topics| && topics[p] == r[i].stream && topics[q] == r[j].stream
            && (p == q ==> r[i].idx < r[j].idx)
  {
    var n := |topics| - 1;
    var front := Fresh(topics[..n], cur, ends[..n]);
    if j < |front| {
      p, q := FreshOrdered(topics[..n], cur, ends[..n], i, j);
    } else if i < |front| {
      p := FreshFrom(topics[..n], cur, ends[..n], front[i]);
      q := n;
    } else {
      p, q := n, n;
    }
  }

  lemma FreshBelow(topics: seq<string>, cur: map<string, nat>, ends: seq<nat>, x: Pos)
    requires |ends| == |topics| && x.idx < Cursor(cur, x.stream)
    ensures x !in Fresh(topics, cur, ends)
  {
    FreshMembers(topics, cur, ends, x);
  }

  lemma {:induction false} FreshDistinct(topics: seq<string>, cur: map<string, nat>, ends: seq<nat>)
    requires |ends| == |topics| && Distinct(topics)
    ensures Distinct(Fresh(topics, cur, ends))
  {
    if topics != [] {
      var n := |topics| - 1;
      FreshDistinct(topics[..n], cur, ends[..n]);
      var r := Range(topics[n], Cursor(cur, topics[n]), ends[n]);
      forall x | x in Fresh(topics[..n], cur, ends[..n]) ensures x !in r {
        FreshMembers(topics[..n], cur, ends[..n], x);
      }
      DistinctConcat(Fresh(topics[..n], cur, ends[..n]), r);
    }
  }

  lemma {:induction false} RepeatedTopic(topics: seq<string>, p: nat, q: nat, ends: seq<nat>)
    requires p < q < |topics| && topics[p] == topics[q]
    requires |ends| == |topics| && forall i :: 0 <= i < |ends| ==> ends[i] == 1
    ensures !Distinct(Fresh(topics, map[], ends))
  {
    var n := |topics| - 1;
    var front, r := Fresh(topics[..n], map[], ends[..n]), Range(topics[n], 0, 1);
    var all := Fresh(topics, map[], ends);
    assert all == front + r;
    if q < n {
      RepeatedTopic(topics[..n], p, q, ends[..n]);
      var i, j :| 0 <= i < j < |front| && front[i] == front[j];
      assert all[i] == all[j];
    } else {
      assert topics[..n][p] == topics[p] && ends[..n][p] == 1;
      FreshMembers(topics[..n], map[], ends[..n], Pos(topics[n], 0));
      var i :| 0 <= i < |front| && front[i] == Pos(topics[n], 0);
      assert all[i] == all[|front|];
    }
  }

  /** Reading the fresh inputs never repeats one, whatever the cursors and the
      stream lengths, exactly when the consumed topics are distinct. */
  lemma FreshDistinctExactly(topics: seq<string>)
    ensures (forall cur, ends :: |ends| == |topics| ==> Distinct(Fresh(topics, cur, ends))) <==> Distinct(topics)
  {
    if Distinct(topics) {
      forall cur, ends: seq<nat> | |ends| == |topics| ensures Distinct(Fresh(topics, cur, ends)) {
        FreshDistinct(topics, cur, ends);
      }
    } else {
      var p, q :| 0 <= p < q < |topics| && topics[p] == topics[q];
      var ends := seq(|topics|, i requires 0 <= i => 1);
      RepeatedTopic(topics, p, q, ends);
      assert |ends| == |topics| && !Distinct(Fresh(topics, map[], ends));
    }
  }

  lemma InConcat(a: seq<Pos>, b: seq<Pos>, x: Pos)
    requires x in a || x in b
    ensures x in a + b
  {
    if x in a {
      var i :| 0 <= i < |a| && a[i] == x;
      assert (a + b)[i] == x;
    } else {
      var i :| 0 <= i < |b| && b[i] == x;
      assert (a + b)[|a| + i] == x;
    }
  }

  lemma {:induction false} AllFreshHas(topics: seq<string>, windows: seq<Window>, k: nat, x: Pos)
    requires forall i :: 0 <= i < |windows| ==> |windows[i].ends| == |topics|
    requires k < |windows| && FreshIn(topics, windows[k], x)
    ensures x in AllFresh(topics, windows)
  {
    var n := |windows| - 1;
    var front := windows[..n];
    assert forall i :: 0 <= i < n ==> front[i] == windows[i];
    var earlier, last := AllFresh(topics, front), Fresh(topics, windows[n].inCur, windows[n].ends);
    assert AllFresh(topics, windows) == earlier + last;
    if k < n {
      AllFreshHas(topics, front, k, x);
      assert x in earlier;
    } else {
      assert x in last;
    }
    InConcat(earlier, last, x);
  }

  lemma {:induction false} AllFreshFrom(topics: seq<string>, windows: seq<Window>, x: Pos) returns (k: nat)
    requires forall i :: 0 <= i < |windows| ==> |windows[i].ends| == |topics|
    requires x in AllFresh(topics, windows)
    ensures k < |windows| && FreshIn(topics, windows[k], x)
  {
    var n := |windows| - 1;
    if x in Fresh(topics, windows[n].inCur, windows[n].ends) {
      k := n;
    } else {
      assert forall i :: 0 <= i < n ==> windows[..n][i] == windows[i];
      k := AllFreshFrom(topics, windows[..n], x);
    }
  }

  lemma FreshInOrder(topics: seq<string>, w: Window, win: Window, x: Pos)
    requires FreshIn(topics, w, x) && |win.ends| == |topics|
    requires forall p :: 0 <= p < |topics| ==> w.ends[p] <= Cursor(win.inCur, topics[p])
    ensures x !in Fresh(topics, win.inCur, win.ends)
  {
    var p := FreshFrom(topics, w.inCur, w.ends, x);
    FreshBelow(topics, win.inCur, win.ends, x);
  }

  /** An input of an earlier window is not one of a later one. */
  lemma FreshOnlyOnce(topics: seq<string>, front: seq<Window>, win: Window, x: Pos)
    requires (forall k :: 0 <= k < |front| ==> |front[k].ends| == |topics|) && |win.ends| == |topics|
    requires forall k, p :: 0 <= k < |front| && 0 <= p < |topics| ==> front[k].ends[p] <= Cursor(win.inCur, topics[p])
    requires x in AllFresh(topics, front)
    ensures x !in Fresh(topics, win.inCur, win.ends)
  {
    var k := AllFreshFrom(topics, front, x);
    FreshInOrder(topics, front[k], win, x);
  }

  /** No input is read twice. */
  lemma {:induction false} AllFreshDistinct(topics: seq<string>, windows: seq<Window>)
    requires InOrder(topics, windows) && Distinct(topics)
    ensures Distinct(AllFresh(topics, windows))
  {
    if windows != [] {
      var n := |windows| - 1;
      var front, win := windows[..n], windows[n];
      assert forall k :: 0 <= k < n ==> front[k] == windows[k];
      AllFreshDistinct(topics, front);
      FreshDistinct(topics, win.inCur, win.ends);
      forall x | x in AllFresh(topics, front) ensures x !in Fresh(topics, win.inCur, win.ends) {
        FreshOnlyOnce(topics, front, win, x);
      }
      DistinctConcat(AllFresh(topics, front), Fresh(topics, win.inCur, win.ends));
    }
  }

  /** Exactly one sample of the log is of the input. */
  ghost predicate JudgedOnce(log: seq<Sample>, x: Pos) {
    exists i :: 0 <= i < |log| && log[i].input == x && forall j :: 0 <= j < |log| && log[j].input == x ==> j == i
  }

  /** When every fresh input was judged, in order, with distinct consumed topics, every event
      between an iteration's cursor and the end it read is judged exactly once in the run. */
  lemma FreshJudgedOnce(consumes: seq<string>, log: seq<Sample>, windows: seq<Window>, k: nat, x: Pos)
    requires InOrder(consumes, windows) && Distinct(consumes) && Inputs(log) == AllFresh(consumes, windows)
    requires k < |windows| && FreshIn(consumes, windows[k], x)
    ensures JudgedOnce(log, x)
  {
    AllFreshHas(consumes, windows, k, x);
    AllFreshDistinct(consumes, windows);
    var i :| 0 <= i < |Inputs(log)| && Inputs(log)[i] == x;
    assert log[i].input == x;
    forall j | 0 <= j < |log| && log[j].input == x ensures j == i {
      assert Inputs(log)[j] == x;
    }
  }

  /** What came between the two ends of a reseed is among the inputs that its window read. */
  lemma ReseededIsFresh(st: Store, ag: Agent, w: Window, x: Pos)
    requires WindowOk(st, ag, w) && x.stream in ag.consumes
    requires |Read(w.reseeding, x.stream)| <= x.idx < |Read(w.seeded, x.stream)|
    ensures FreshIn(ag.consumes, w, x)
  {
    var p :| 0 <= p < |ag.consumes| && ag.consumes[p] == x.stream;
    FreshMembers(ag.consumes, w.inCur, w.ends, x);
  }

  /** In a run that ends normally, with distinct consumed topics, every input appended between
      the start and the end of a reseed of the run is judged exactly once. */
  lemma ReseededInputsJudgedOnce(b: Record, r: Record, ag: Agent, log: seq<Sample>, windows: seq<Window>,
                                 n: nat, x: Pos)
    requires WindowsOk(b.store, r.store, ag, windows) && Distinct(ag.consumes)
    requires Noted(b, r.reseeds, r.readings, windows, false) && Inputs(log) == AllFresh(ag.consumes, windows)
    requires |b.reseeds| <= n < |r.reseeds| && x.stream in ag.consumes
    requires |Read(r.reseeds[n].began, x.stream)| <= x.idx < |Read(r.reseeds[n].ended, x.stream)|
    ensures JudgedOnce(log, x)
  {
    var k := n - |b.reseeds|;
    NotedReseed(b, r.reseeds, r.readings, windows, k);
    ReseededIsFresh(r.store, ag, windows[k], x);
    FreshJudgedOnce(ag.consumes, log, windows, k, x);
  }

  /** The inputs of two windows are disjoint. */
  lemma OneWindow(topics: seq<string>, windows: seq<Window>, k: nat, l: nat, x: Pos)
    requires InOrder(topics, windows) && k < |windows| && l < |windows|
    requires FreshIn(topics, windows[k], x) && FreshIn(topics, windows[l], x)
    ensures k == l
  {
    if k < l {
      FreshInOrder(topics, windows[k], windows[l], x);
    } else if l < k {
      FreshInOrder(topics, windows[l], windows[k], x);
    }
  }

  /** A position not yet in the store. */
  ghost predicate NotYet(st: Store, p: Pos) { |Read(st, p.stream)| <= p.idx }

  lemma NotYetEarlier(st: Store, st': Store, p: Pos)
    requires NotYet(st', p) && Grew(st, st')
    ensures NotYet(st, p)
  {
    assert Read(st, p.stream) <= Read(st', p.stream);
  }

  /** What was not there when a window began was not there when the run began, when an earlier
      iteration began or when an earlier one had read its inputs. */
  lemma NotYetBefore(began: Store, windows: seq<Window>, k: nat, p: Pos)
    requires Successive(began, windows) && k < |windows| && NotYet(windows[k].start, p)
    requires forall l :: 0 <= l < |windows| ==> Grew(windows[l].start, windows[l].read)
    ensures NotYet(began, p) && forall l :: 0 <= l <= k ==> NotYet(windows[l].start, p)
  {
    NotYetEarlier(began, windows[k].start, p);
    forall l | 0 <= l < k ensures NotYet(windows[l].start, p) {
      NotYetEarlier(windows[l].read, windows[k].start, p);
      NotYetEarlier(windows[l].start, windows[l].read, p);
    }
  }

  lemma StartBeforeRead(st: Store, ag: Agent, w: Window)
    requires WindowOk(st, ag, w)
    ensures Grew(w.start, w.read)
  {
    GrewTransitive(w.start, w.reseeding, w.seeded);
    GrewTransitive(w.start, w.seeded, w.read);
  }

  /** A sample's own iteration began before its input and its output were appended. */
  lemma AfterStart(st: Store, ag: Agent, s: Sample, windows: seq<Window>)
    requires HonestSample(st, ag, s, windows) && WindowOk(st, ag, windows[s.iter])
    ensures NotYet(windows[s.iter].start, s.input)
    ensures s.outcome.Hit? ==> NotYet(windows[s.iter].start, s.outcome.pos)
  {
    var w := windows[s.iter];
    var p := FreshFrom(ag.consumes, w.inCur, w.ends, s.input);
    assert ag.consumes[p] in ag.consumes;
  }

  /** No stale output is judged: the sample of an input belongs to the one iteration that read
      the input, and neither the input nor the output it is judged against was in the store when
      the run began, when an earlier iteration had ended, or when this one began. */
  lemma NothingStale(began: Store, st: Store, ag: Agent, log: seq<Sample>, windows: seq<Window>, i: nat, k: nat)
    requires Honest(st, ag, log, windows) && WindowsOk(began, st, ag, windows)
    requires i < |log| && k < |windows| && FreshIn(ag.consumes, windows[k], log[i].input)
    ensures log[i].iter == k
    ensures NotYet(began, log[i].input) && forall l :: 0 <= l <= k ==> NotYet(windows[l].start, log[i].input)
    ensures log[i].outcome.Hit? ==>
              var p := log[i].outcome.pos;
              NotYet(began, p) && forall l :: 0 <= l <= k ==> NotYet(windows[l].start, p)
  {
    assert HonestSample(st, ag, log[i], windows);
    OneWindow(ag.consumes, windows, log[i].iter, k, log[i].input);
    forall l | 0 <= l < |windows| ensures Grew(windows[l].start, windows[l].read) {
      StartBeforeRead(st, ag, windows[l]);
    }
    AfterStart(st, ag, log[i], windows);
    NotYetBefore(began, windows, k, log[i].input);
    if log[i].outcome.Hit? {
      NotYetBefore(began, windows, k, log[i].outcome.pos);
    }
  }

  /** An output judged in a later iteration comes after everything that the last pass of an
      earlier iteration's input read of its stream, and so after every output judged there. */
  lemma LaterIterationsReadOn(began: Store, st: Store, ag: Agent, used: map<string, set<nat>>, log: seq<Sample>,
                              windows: seq<Window>, i: nat, j: nat)
    requires Sound(st, ag, used, log, windows) && WindowsOk(began, st, ag, windows)
    requires i < |log| && j < |log| && log[i].iter < log[j].iter && log[j].outcome.Hit?
    ensures var p := log[j].outcome.pos;
            && ReadInOrder(log[i].outcome, ag.produces)
            && (forall n :: 0 <= n < |log[i].outcome.seen| && ag.produces[n] == p.stream ==>
                  |log[i].outcome.seen[n]| <= p.idx)
            && (log[i].outcome.Hit? && log[i].outcome.pos.stream == p.stream ==> log[i].outcome.pos.idx < p.idx)
  {
    assert HonestSample(st, ag, log[j], windows);
    AfterStart(st, ag, log[j], windows);
    assert SearchedAt(st, i, log, windows[log[i].iter], ag.produces);
    assert Within(log[i], ag.produces, windows[log[j].iter].start);
  }

  // ----- The judge calls of a run -----

  /** The verdicts of the samples of a log. */
  ghost function VerdictsOf(log: seq<Sample>): (r: seq<seq<Score>>)
    ensures |r| == |log|
    ensures forall i :: 0 <= i < |log| ==> r[i] == log[i].verdicts
  {
    seq(|log|, i requires 0 <= i < |log| => log[i].verdicts)
  }

  /** The calls that observing every sample of the log makes. */
  ghost function CallsMade(evals: seq<Eval>, log: seq<Sample>): seq<Call>
    requires Answered(evals, VerdictsOf(log))
  {
    Observed(evals, VerdictsOf(log))
  }

  /** scorePair's call of Observe: the executor goes from the calls of the log to those of
      the log with the sample. */
  method ObserveSample(ex: Executor, evals: seq<Eval>, verdicts: seq<Score>,
                       ghost base: seq<Call>, ghost log: seq<Sample>, ghost s: Sample)
    requires ex.Valid() && Answered(evals, VerdictsOf(log)) && ex.calls == base + CallsMade(evals, log)
    requires s.verdicts == verdicts && |verdicts| == |evals|
    modifies ex, ex.Repr()
    ensures ex.Valid() && fresh(ex.Repr() - old(ex.Repr()))
    ensures Answered(evals, VerdictsOf(log + [s])) && ex.calls == base + CallsMade(evals, log + [s])
  {
    assert VerdictsOf(log + [s])[..|log|] == VerdictsOf(log);
    Sequences.Assoc(base, CallsMade(evals, log), Verdicts(evals, verdicts));
    ex.Observe(evals, verdicts);
  }

  /** In a finished run the samples and the errors reported for an eval exceed those there
      before by the number of fresh inputs, once for every judged eval of that name. */
  lemma EveryInputJudged(began: Store, st: Store, ag: Agent, used: map<string, set<nat>>, log: seq<Sample>,
                         windows: seq<Window>, base: seq<Call>, r: Result, ev: Eval,
                         parse: string -> Options.Option<Floats.Float>, minimum: string -> nat)
    requires Sound(st, ag, used, log, windows) && WindowsOk(began, st, ag, windows)
    requires Inputs(log) == AllFresh(ag.consumes, windows)
    requires Answered(ag.evals, VerdictsOf(log)) && Reports(r, ev, base + CallsMade(ag.evals, log), parse, minimum)
    ensures r.over + r.errors ==
            CallsOf(base, ev.name) + |AllFresh(ag.consumes, windows)| * Multiplicity(ag.evals, ev.name)
  {
    ObservedTallies(base, ag.evals, VerdictsOf(log));
    assert |log| == |Inputs(log)|;
  }
}
