/** The consume step (pkg/orchestrator/run.go): the record callback, the client that
    calls it, and what the step makes of the error that comes back. */
module Consume {
  import opened Matching
  import opened Options
  import Sequences

  datatype Record = Record(topic: string, key: string, payload: Payload)

  /** What the callback returns: nil, the match sentinel, a rule error, or the context's error. */
  datatype Signal = Continue | Matched | MatchFailed | Expired

  /** What ends the client's loop. */
  datatype Ending = Clean | Sentinel | Deadline | Canceled | Failed

  /** No matcher means that any record of the topic ends the step. `expires(k)` says whether
      the context ends during the pause after the kth record; `every` is off unless positive. */
  datatype Config = Config(topic: string, matcher: Option<Payload -> Check>, every: int, pauseFor: int,
                           expires: nat -> bool)
  {
    function Checked(p: Payload): Check { if matcher.Some? then matcher.value(p) else Hit }

    predicate PauseExpires(k: nat) { every > 0 && k % every == 0 && pauseFor > 0 && expires(k) }
  }

  datatype State = State(consumed: nat, matched: bool, log: seq<Record>, previous: Option<Record>)

  const START := State(0, false, [], None)

  /** The callback's effect. */
  function OnRecordSpec(cfg: Config, st: State, rec: Record): (Signal, State) {
    if rec.topic != cfg.topic then (Continue, st)
    else
      var st := st.(consumed := st.consumed + 1, log := st.log + [rec]);
      match cfg.Checked(rec.payload)
      case Broken => (MatchFailed, st)
      case Hit => (Matched, st.(matched := true, previous := Some(rec)))
      case Miss => (if cfg.PauseExpires(st.consumed) then Expired else Continue, st)
  }

  /** The client hands over records until the callback returns an error. */
  function Feed(cfg: Config, st: State, recs: seq<Record>): (Signal, State)
    decreases |recs|
  {
    if recs == [] then (Continue, st)
    else
      var (s, st') := OnRecordSpec(cfg, st, recs[0]);
      if s != Continue then (s, st') else Feed(cfg, st', recs[1..])
  }

  predicate PassesWith(st: State, ending: Ending) { ending.Sentinel? || st.matched || ending.Clean? }

  function EndingOf(s: Signal, own: Ending, raced: bool): Ending {
    if s == Continue then own
    else if raced then (if own.Clean? || own.Sentinel? then Deadline else own)
    else
      match s
      case Matched => Sentinel
      case MatchFailed => Failed
      case _ => Deadline
  }

  class Consumer {
    var consumed: nat
    var matched: bool
    var log: seq<Record>
    var previous: Option<Record>

    constructor ()
      ensures Snapshot() == START
    {
      consumed, matched, log, previous := 0, false, [], None;
    }

    function Snapshot(): State
      reads this
    {
      State(consumed, matched, log, previous)
    }

    method OnRecord(cfg: Config, rec: Record) returns (s: Signal)
      modifies this
      ensures rec.topic != cfg.topic ==> s == Continue && Snapshot() == old(Snapshot())
      ensures rec.topic == cfg.topic ==>
        var c := if cfg.matcher.Some? then cfg.matcher.value(rec.payload) else Hit;
        var due := cfg.every > 0 && consumed % cfg.every == 0 && cfg.pauseFor > 0;
        && log == old(log) + [rec] && consumed == old(consumed) + 1
        && (s == Matched <==> c == Hit) && (s == MatchFailed <==> c == Broken)
        && (s == Continue <==> c == Miss && !(due && cfg.expires(consumed)))
        && matched == (old(matched) || c == Hit)
        && previous == (if c == Hit then Some(rec) else old(previous))
      ensures (s, Snapshot()) == OnRecordSpec(cfg, old(Snapshot()), rec)
    {
      if rec.topic != cfg.topic {
        return Continue;
      }
      log := log + [rec];
      consumed := consumed + 1;
      if cfg.matcher.Some? {
        var c := cfg.matcher.value(rec.payload);
        if c == Broken {
          return MatchFailed;
        }
        if c == Hit {
          matched := true;
          previous := Some(rec);
          return Matched;
        }
      } else {
        matched := true;
        previous := Some(rec);
        return Matched;
      }
      if cfg.every > 0 && consumed % cfg.every == 0 && cfg.pauseFor > 0 {
        if cfg.expires(consumed) {
          return Expired;
        }
      }
      return Continue;
    }

    /** The client's loop over what it polled, then the step's verdict. `own` is how the client
        ends by itself; after an error from the callback it returns that error, or, when
        `raced`, whatever ended its context meanwhile. */
    method RunConsume(cfg: Config, recs: seq<Record>, own: Ending, raced: bool) returns (pass: bool)
      modifies this
      ensures var (s, st) := Feed(cfg, old(Snapshot()), recs);
              Snapshot() == st && pass == PassesWith(st, EndingOf(s, own, raced))
    {
      var i, s := 0, Continue;
      while i < |recs| && s == Continue
        invariant i <= |recs|
        invariant Feed(cfg, old(Snapshot()), recs) ==
                  if s == Continue then Feed(cfg, Snapshot(), recs[i..]) else (s, Snapshot())
      {
        assert recs[i..][1..] == recs[i + 1..];
        s := OnRecord(cfg, recs[i]);
        i := i + 1;
      }
      var err := EndingOf(s, own, raced);
      if err == Sentinel {
        return true;
      }
      if matched {
        return true;
      }
      return err == Clean;
    }
  }

  // ----- The records of the topic -----

  function OnTopic(topic: string): Record -> bool { (r: Record) => r.topic == topic }

  /** None of the first n - 1 records ends the step. */
  ghost predicate NoneEnds(cfg: Config, consumed: nat, mine: seq<Record>, n: int)
    requires n <= |mine| + 1
  {
    forall i :: 0 <= i < n - 1 ==> cfg.Checked(mine[i].payload) == Miss && !cfg.PauseExpires(consumed + i + 1)
  }

  lemma NoneEndsForth(cfg: Config, consumed: nat, mine: seq<Record>, n: nat)
    requires mine != [] && 0 < n <= |mine| + 1 && NoneEnds(cfg, consumed, mine, n)
    ensures NoneEnds(cfg, consumed + 1, mine[1..], n - 1)
  {
    var rest, from := mine[1..], consumed + 1;
    forall i | 0 <= i < n - 2 ensures cfg.Checked(rest[i].payload) == Miss && !cfg.PauseExpires(from + i + 1) {
      var j := i + 1;
      assert rest[i] == mine[j] && from + i + 1 == consumed + j + 1;
      assert cfg.Checked(mine[j].payload) == Miss && !cfg.PauseExpires(consumed + j + 1);
    }
  }

  lemma NoneEndsBack(cfg: Config, consumed: nat, mine: seq<Record>, n: nat)
    requires mine != [] && 0 < n <= |mine| + 1 && NoneEnds(cfg, consumed + 1, mine[1..], n - 1)
    requires cfg.Checked(mine[0].payload) == Miss && !cfg.PauseExpires(consumed + 1)
    ensures NoneEnds(cfg, consumed, mine, n)
  {
    forall i | 0 <= i < n - 1
      ensures cfg.Checked(mine[i].payload) == Miss && !cfg.PauseExpires(consumed + i + 1)
    {
      if i > 0 {
        assert mine[i] == mine[1..][i - 1];
        assert !cfg.PauseExpires(consumed + 1 + (i - 1) + 1);
      }
    }
  }

  lemma NoneEndsCons(cfg: Config, consumed: nat, mine: seq<Record>, n: nat)
    requires mine != [] && 0 < n <= |mine| + 1
    requires cfg.Checked(mine[0].payload) == Miss && !cfg.PauseExpires(consumed + 1)
    ensures NoneEnds(cfg, consumed, mine, n) <==> NoneEnds(cfg, consumed + 1, mine[1..], n - 1)
  {
    if NoneEnds(cfg, consumed, mine, n) {
      NoneEndsForth(cfg, consumed, mine, n);
    }
    if NoneEnds(cfg, consumed + 1, mine[1..], n - 1) {
      NoneEndsBack(cfg, consumed, mine, n);
    }
  }

  /** From st the step recorded the first n records of its topic, in order. None before the nth
      ended it; the nth ended it as it says, or none did and all were recorded. */
  ghost predicate TookPrefix(cfg: Config, st: State, mine: seq<Record>, s: Signal, e: State) {
    var n := e.consumed - st.consumed;
    && 0 <= n <= |mine| && e.log == st.log + mine[..n]
    && NoneEnds(cfg, st.consumed, mine, n)
    && (s == Matched <==> n > 0 && cfg.Checked(mine[n - 1].payload) == Hit)
    && (s == MatchFailed <==> n > 0 && cfg.Checked(mine[n - 1].payload) == Broken)
    && (s == Expired <==>
          n > 0 && cfg.Checked(mine[n - 1].payload) == Miss && cfg.PauseExpires(st.consumed + n))
    && (s == Continue <==> n == |mine| && NoneEnds(cfg, st.consumed, mine, n + 1))
    && e.previous == (if s == Matched then Some(mine[n - 1]) else st.previous)
    && e.matched == (st.matched || s == Matched)
  }

  lemma TookOneMore(cfg: Config, st: State, st': State, mine: seq<Record>, s: Signal, e: State)
    requires mine != [] && st' == st.(consumed := st.consumed + 1, log := st.log + [mine[0]])
    requires cfg.Checked(mine[0].payload) == Miss && !cfg.PauseExpires(st.consumed + 1)
    requires TookPrefix(cfg, st', mine[1..], s, e)
    ensures TookPrefix(cfg, st, mine, s, e)
  {
    var n := e.consumed - st.consumed;
    assert mine[..n] == [mine[0]] + mine[1..][..n - 1];
    Sequences.Assoc(st.log, [mine[0]], mine[1..][..n - 1]);
    NoneEndsCons(cfg, st.consumed, mine, n);
    NoneEndsCons(cfg, st.consumed, mine, n + 1);
    assert n > 1 ==> mine[n - 1] == mine[1..][n - 2];
  }

  /** A record that ends the step is the last one recorded. */
  lemma TookLast(cfg: Config, st: State, mine: seq<Record>)
    requires mine != [] && mine[0].topic == cfg.topic && OnRecordSpec(cfg, st, mine[0]).0 != Continue
    ensures var (s, e) := OnRecordSpec(cfg, st, mine[0]); TookPrefix(cfg, st, mine, s, e)
  {
    assert mine[..1] == [mine[0]];
  }

  /** The step records its topic's records up to the first that ends it, and no further;
      records of other topics leave no trace. */
  lemma {:induction false} RecordsPrefix(cfg: Config, st: State, recs: seq<Record>)
    ensures var (s, e) := Feed(cfg, st, recs);
            TookPrefix(cfg, st, Sequences.Filter(recs, OnTopic(cfg.topic)), s, e)
    decreases |recs|
  {
    var mine := Sequences.Filter(recs, OnTopic(cfg.topic));
    if recs != [] {
      var rec := recs[0];
      var (s, st') := OnRecordSpec(cfg, st, rec);
      if rec.topic != cfg.topic {
        RecordsPrefix(cfg, st, recs[1..]);
        assert mine == Sequences.Filter(recs[1..], OnTopic(cfg.topic));
      } else if s == Continue {
        RecordsPrefix(cfg, st', recs[1..]);
        var (s', e) := Feed(cfg, st', recs[1..]);
        assert mine[1..] == Sequences.Filter(recs[1..], OnTopic(cfg.topic));
        TookOneMore(cfg, st, st', mine, s', e);
      } else {
        TookLast(cfg, st, mine);
      }
    }
  }

  /** A fresh step passes exactly when its last recorded record matched, or no record ended it
      and the client's loop ended by itself without an error. */
  lemma PassesExactly(cfg: Config, recs: seq<Record>, own: Ending, raced: bool)
    requires own != Sentinel
    ensures var (s, e) := Feed(cfg, START, recs);
            var mine, n := Sequences.Filter(recs, OnTopic(cfg.topic)), e.consumed;
            n <= |mine| &&
            (PassesWith(e, EndingOf(s, own, raced)) <==>
               || (n > 0 && cfg.Checked(mine[n - 1].payload) == Hit)
               || (NoneEnds(cfg, 0, mine, |mine| + 1) && own.Clean?))
  {
    RecordsPrefix(cfg, START, recs);
  }

  /** Without rules, the first record of the topic ends the step, whatever the pauses. */
  lemma FirstRecordIsEnough(cfg: Config, recs: seq<Record>, own: Ending, raced: bool)
    requires cfg.matcher.None? && Sequences.Filter(recs, OnTopic(cfg.topic)) != []
    ensures var (s, e) := Feed(cfg, START, recs);
            var mine := Sequences.Filter(recs, OnTopic(cfg.topic));
            PassesWith(e, EndingOf(s, own, raced)) && e.log == mine[..1] && e.previous == Some(mine[0])
  {
    RecordsPrefix(cfg, START, recs);
    var mine := Sequences.Filter(recs, OnTopic(cfg.topic));
    var (s, e) := Feed(cfg, START, recs);
    assert NoneEnds(cfg, 0, mine, e.consumed);
    assert cfg.Checked(mine[0].payload) == Hit;
  }
}
