/** The worker loop (pkg/worker/loop.go): one tick thread, one goroutine per
    dispatched scenario, a semaphore and a map guarded by a mutex. Every step below
    is one atomic action: a critical section, a channel operation or an I/O result.

    A goroutine goes Waiting (for a slot) -> Running -> Returned -> Deleted (its map
    entry removed, slot still held) -> Exited; a cancelled one may leave from
    Waiting, deleting its entry on the way out. */
module Worker {
  import opened Options
  import Sequences

  datatype Phase = Waiting | Running | Returned | Deleted | Exited
  datatype Routine = Routine(scenario: string, phase: Phase)

  /** Where the tick thread is: between ticks, walking the assignments, fetching the
      body of one, or gone. */
  datatype Tick =
    | Idle
    | Walking(todo: seq<string>, wanted: set<string>)
    | Fetching(scenario: string, todo: seq<string>, wanted: set<string>)
    | Stopped

  datatype State = State(
    routines: seq<Routine>,
    dispatched: map<string, nat>,  // scenario -> goroutine whose cancel func is stored
    cancelled: set<nat>,           // goroutines whose own context was cancelled
    parent: bool,                  // the worker's context is cancelled
    slots: nat,
    tick: Tick)

  datatype Step =
    | Heartbeat(assignments: seq<string>)
    | Check
    | Dispatch(fetched: bool)
    | CancelUnwanted
    | CancelParent
    | Shutdown
    | Acquire(g: nat)
    | Abandon(g: nat)
    | Return(g: nat)
    | Delete(g: nat)
    | Release(g: nat)

  function Start(): State { State([], map[], {}, false, 0, Idle) }

  predicate Done(s: State, g: nat) { s.parent || g in s.cancelled }

  /** Its deferred delete is still to come. */
  predicate Pending(r: Routine) { r.phase.Waiting? || r.phase.Running? || r.phase.Returned? }

  predicate Holding(r: Routine) { r.phase.Running? || r.phase.Returned? || r.phase.Deleted? }

  predicate IsAt(s: State, g: nat, p: Phase) { g < |s.routines| && s.routines[g].phase == p }

  function SetPhase(s: State, g: nat, p: Phase): State
    requires g < |s.routines|
  {
    s.(routines := s.routines[g := s.routines[g].(phase := p)])
  }

  function Without(m: map<string, nat>, k: string): map<string, nat> { m - {k} }

  function Unwanted(m: map<string, nat>, wanted: set<string>): set<nat> {
    set k | k in m && k !in wanted :: m[k]
  }

  function Restrict(m: map<string, nat>, wanted: set<string>): map<string, nat> {
    map k | k in m && k in wanted :: m[k]
  }

  function Set<T>(s: seq<T>): set<T> { set x | x in s }

  /** One step; a step that is not enabled changes nothing. */
  function Apply(max: nat, s: State, step: Step): State {
    match step
    case Heartbeat(assignments) =>
      if s.tick.Idle? && !s.parent then s.(tick := Walking(assignments, Set(assignments))) else s
    case Check =>
      if s.tick.Walking? && s.tick.todo != [] then
        var name, rest := s.tick.todo[0], s.tick.todo[1..];
        s.(tick := if name in s.dispatched then Walking(rest, s.tick.wanted) else Fetching(name, rest, s.tick.wanted))
      else s
    case Dispatch(fetched) =>
      if s.tick.Fetching? then
        var walking := Walking(s.tick.todo, s.tick.wanted);
        if !fetched then s.(tick := walking)
        else s.(tick := walking, routines := s.routines + [Routine(s.tick.scenario, Waiting)],
                dispatched := s.dispatched[s.tick.scenario := |s.routines|])
      else s
    case CancelUnwanted =>
      if s.tick.Walking? && s.tick.todo == [] then
        s.(tick := Idle, cancelled := s.cancelled + Unwanted(s.dispatched, s.tick.wanted),
           dispatched := Restrict(s.dispatched, s.tick.wanted))
      else s
    case CancelParent => s.(parent := true)
    case Shutdown =>
      if s.tick.Idle? && s.parent then
        s.(tick := Stopped, cancelled := s.cancelled + Unwanted(s.dispatched, {}), dispatched := map[])
      else s
    case Acquire(g) =>
      if IsAt(s, g, Waiting) && s.slots < max then SetPhase(s, g, Running).(slots := s.slots + 1) else s
    case Abandon(g) =>
      if IsAt(s, g, Waiting) && Done(s, g) then
        SetPhase(s, g, Exited).(dispatched := Without(s.dispatched, s.routines[g].scenario))
      else s
    case Return(g) =>
      if IsAt(s, g, Running) then SetPhase(s, g, Returned) else s
    case Delete(g) =>
      if IsAt(s, g, Returned) then
        SetPhase(s, g, Deleted).(dispatched := Without(s.dispatched, s.routines[g].scenario))
      else s
    case Release(g) =>
      if IsAt(s, g, Deleted) then SetPhase(s, g, Exited).(slots := if s.slots > 0 then s.slots - 1 else 0) else s
  }

  function Run(max: nat, steps: seq<Step>): State {
    if steps == [] then Start() else Apply(max, Run(max, steps[..|steps| - 1]), steps[|steps| - 1])
  }

  // ----- The critical sections that walk the map -----

  /** Everything in the map that is not wanted is cancelled and leaves it; the rest stays. */
  ghost predicate CancelledNotIn(dispatched: map<string, nat>, cancelled: set<nat>, wanted: set<string>,
                                 dispatched': map<string, nat>, cancelled': set<nat>)
  {
    && (forall k :: k in dispatched' <==> k in dispatched && k in wanted)
    && (forall k :: k in dispatched' ==> dispatched'[k] == dispatched[k])
    && (forall g :: g in cancelled' <==>
          g in cancelled || exists k :: k in dispatched && k !in wanted && dispatched[k] == g)
  }

  /** The mutex-guarded part of the loop object, and the contexts cancelled so far. */
  class Loop {
    var dispatched: map<string, nat>
    var cancelled: set<nat>

    constructor ()
      ensures dispatched == map[] && cancelled == {}
    {
      dispatched, cancelled := map[], {};
    }

    /** The walk over the map visits names in no particular order. */
    method CancelAssignmentsNotIn(wanted: set<string>)
      modifies this
      ensures CancelledNotIn(old(dispatched), old(cancelled), wanted, dispatched, cancelled)
    {
      var names := dispatched.Keys;
      ghost var all := dispatched;
      while names != {}
        invariant names <= all.Keys
        invariant forall k :: k in dispatched <==> k in all && (k in names || k in wanted)
        invariant forall k :: k in dispatched ==> dispatched[k] == all[k]
        invariant forall g :: g in cancelled <==>
                    g in old(cancelled) || exists k :: k in all && k !in names && k !in wanted && all[k] == g
      {
        var name :| name in names;
        if name !in wanted {
          cancelled := cancelled + {dispatched[name]};
          dispatched := dispatched - {name};
        }
        names := names - {name};
      }
    }

    method CancelAllAssignments()
      modifies this
      ensures dispatched == map[]
      ensures CancelledNotIn(old(dispatched), old(cancelled), {}, dispatched, cancelled)
    {
      CancelAssignmentsNotIn({});
    }
  }

  // ----- The semaphore -----

  function Holders(rs: seq<Routine>): nat {
    if rs == [] then 0 else Holders(rs[..|rs| - 1]) + (if Holding(rs[|rs| - 1]) then 1 else 0)
  }

  lemma {:induction false} HoldersUpdate(rs: seq<Routine>, g: nat, r: Routine)
    requires g < |rs|
    ensures Holders(rs[g := r]) == Holders(rs) - (if Holding(rs[g]) then 1 else 0) + (if Holding(r) then 1 else 0)
    ensures Holding(rs[g]) ==> Holders(rs) > 0
  {
    var n := |rs| - 1;
    if g < n {
      HoldersUpdate(rs[..n], g, r);
      assert rs[g := r][..n] == rs[..n][g := r];
    } else {
      assert rs[g := r][..n] == rs[..n];
    }
  }

  /** Tokens in the semaphore are the goroutines that hold one. */
  ghost predicate SlotsCount(max: nat, s: State) { s.slots == Holders(s.routines) <= max }

  /** A goroutine changes phase, taking or giving back a token as the phase says. */
  lemma PhaseKeepsSlots(max: nat, s: State, g: nat, p: Phase, slots: nat)
    requires SlotsCount(max, s) && g < |s.routines| && slots <= max
    requires slots == s.slots - (if Holding(s.routines[g]) then 1 else 0) + (if Holding(Routine("", p)) then 1 else 0)
    ensures SlotsCount(max, SetPhase(s, g, p).(slots := slots))
    ensures Holding(s.routines[g]) ==> s.slots > 0
  {
    HoldersUpdate(s.routines, g, s.routines[g].(phase := p));
  }

  lemma NewcomerKeepsSlots(max: nat, s: State, r: Routine)
    requires SlotsCount(max, s) && !Holding(r)
    ensures SlotsCount(max, s.(routines := s.routines + [r]))
  {
    assert (s.routines + [r])[..|s.routines|] == s.routines;
  }

  lemma ReleaseKeepsSlots(max: nat, s: State, g: nat)
    requires SlotsCount(max, s) && IsAt(s, g, Deleted)
    ensures SlotsCount(max, Apply(max, s, Release(g)))
  {
    HoldersUpdate(s.routines, g, s.routines[g]);
    PhaseKeepsSlots(max, s, g, Exited, s.slots - 1);
  }

  lemma StepKeepsSlots(max: nat, s: State, step: Step)
    requires SlotsCount(max, s)
    ensures SlotsCount(max, Apply(max, s, step))
  {
    match step
    case Acquire(g) =>
      if IsAt(s, g, Waiting) && s.slots < max { PhaseKeepsSlots(max, s, g, Running, s.slots + 1); }
    case Abandon(g) =>
      if IsAt(s, g, Waiting) { PhaseKeepsSlots(max, s, g, Exited, s.slots); }
    case Return(g) =>
      if IsAt(s, g, Running) { PhaseKeepsSlots(max, s, g, Returned, s.slots); }
    case Delete(g) =>
      if IsAt(s, g, Returned) { PhaseKeepsSlots(max, s, g, Deleted, s.slots); }
    case Release(g) =>
      if IsAt(s, g, Deleted) { ReleaseKeepsSlots(max, s, g); }
    case Dispatch(fetched) =>
      if s.tick.Fetching? { NewcomerKeepsSlots(max, s, Routine(s.tick.scenario, Waiting)); }
    case _ =>
  }

  function RunFrom(max: nat, s: State, steps: seq<Step>): State
    decreases |steps|
  {
    if steps == [] then s else RunFrom(max, Apply(max, s, steps[0]), steps[1..])
  }

  lemma {:induction false} RunKeepsSlots(max: nat, s: State, steps: seq<Step>)
    requires SlotsCount(max, s)
    ensures SlotsCount(max, RunFrom(max, s, steps))
    decreases |steps|
  {
    if steps != [] {
      StepKeepsSlots(max, s, steps[0]);
      RunKeepsSlots(max, Apply(max, s, steps[0]), steps[1..]);
    }
  }

  function RunningCount(rs: seq<Routine>): nat {
    if rs == [] then 0 else RunningCount(rs[..|rs| - 1]) + (if rs[|rs| - 1].phase.Running? then 1 else 0)
  }

  lemma {:induction false} RunningHold(rs: seq<Routine>)
    ensures RunningCount(rs) <= Holders(rs)
  {
    if rs != [] {
      RunningHold(rs[..|rs| - 1]);
    }
  }

  /** In every run, at every moment, no more handlers run than the semaphore allows. */
  lemma {:induction false} BoundedConcurrency(max: nat, steps: seq<Step>)
    ensures SlotsCount(max, Run(max, steps))
    ensures RunningCount(Run(max, steps).routines) <= max
  {
    if steps != [] {
      BoundedConcurrency(max, steps[..|steps| - 1]);
      StepKeepsSlots(max, Run(max, steps[..|steps| - 1]), steps[|steps| - 1]);
    }
    RunningHold(Run(max, steps).routines);
  }

  // ----- The dispatch map -----

  /** Each entry is a goroutine of that scenario with its delete pending, not
      cancelled on its own; a scenario being fetched has no entry. */
  ghost predicate MapOk(s: State) {
    && (forall k :: k in s.dispatched ==>
          && s.dispatched[k] < |s.routines|
          && s.routines[s.dispatched[k]].scenario == k
          && Pending(s.routines[s.dispatched[k]])
          && s.dispatched[k] !in s.cancelled)
    && (s.tick.Fetching? ==> s.tick.scenario !in s.dispatched)
    && (forall g :: g in s.cancelled ==> g < |s.routines|)
  }

  lemma RestrictKeeps(s: State, wanted: set<string>)
    requires MapOk(s)
    ensures forall k :: k in s.dispatched && k in wanted ==>
              s.dispatched[k] !in s.cancelled + Unwanted(s.dispatched, wanted)
    ensures forall g :: g in Unwanted(s.dispatched, wanted) ==> g < |s.routines|
  {
    forall k | k in s.dispatched && k in wanted
      ensures s.dispatched[k] !in Unwanted(s.dispatched, wanted)
    {
    }
  }

  lemma StepKeepsMap(max: nat, s: State, step: Step)
    requires MapOk(s)
    ensures MapOk(Apply(max, s, step))
  {
    match step
    case CancelUnwanted =>
      if s.tick.Walking? && s.tick.todo == [] {
        RestrictKeeps(s, s.tick.wanted);
      }
    case Shutdown => RestrictKeeps(s, {});
    case _ =>
  }

  lemma {:induction false} MapAlwaysOk(max: nat, steps: seq<Step>)
    ensures MapOk(Run(max, steps))
  {
    if steps != [] {
      MapAlwaysOk(max, steps[..|steps| - 1]);
      StepKeepsMap(max, Run(max, steps[..|steps| - 1]), steps[|steps| - 1]);
    }
  }

  /** Every goroutine that may still run uncancelled can be cancelled: the map
      holds its own cancel function. */
  ghost predicate Covered(s: State) {
    forall g :: 0 <= g < |s.routines| && Pending(s.routines[g]) && !Done(s, g) ==>
      s.routines[g].scenario in s.dispatched && s.dispatched[s.routines[g].scenario] == g
  }

  /** The goroutine whose deferred delete a step performs. */
  predicate Deletes(s: State, step: Step, g: nat) {
    (step == Delete(g) && IsAt(s, g, Returned)) || (step == Abandon(g) && IsAt(s, g, Waiting) && Done(s, g))
  }

  predicate CleanDelete(s: State, g: nat)
    requires g < |s.routines|
  {
    s.parent || s.routines[g].scenario !in s.dispatched || s.dispatched[s.routines[g].scenario] == g
  }

  /** A deferred delete finds its own entry, or none, unless everything is being
      cancelled anyway. */
  predicate CleanStep(s: State, step: Step) {
    match step
    case Delete(g) => !Deletes(s, step, g) || CleanDelete(s, g)
    case Abandon(g) => !Deletes(s, step, g) || CleanDelete(s, g)
    case _ => true
  }

  lemma CancelCovers(s: State, s': State, wanted: set<string>)
    requires MapOk(s) && Covered(s)
    requires s'.routines == s.routines && s'.parent == s.parent
    requires s'.dispatched == Restrict(s.dispatched, wanted)
    requires s'.cancelled == s.cancelled + Unwanted(s.dispatched, wanted)
    ensures Covered(s')
  {
    forall g | 0 <= g < |s'.routines| && Pending(s'.routines[g]) && !Done(s', g)
      ensures s'.routines[g].scenario in s'.dispatched && s'.dispatched[s'.routines[g].scenario] == g
    {
      var k := s.routines[g].scenario;
      assert k in s.dispatched && s.dispatched[k] == g;
      assert k !in wanted ==> g in Unwanted(s.dispatched, wanted);
    }
  }

  lemma DeleteCovers(s: State, s': State, g: nat, p: Phase)
    requires MapOk(s) && Covered(s) && g < |s.routines| && Pending(s.routines[g])
    requires p.Deleted? || p.Exited?
    requires s'.routines == s.routines[g := s.routines[g].(phase := p)]
    requires s'.dispatched == Without(s.dispatched, s.routines[g].scenario)
    requires s'.cancelled == s.cancelled && s'.parent == s.parent
    ensures Covered(s') <==> CleanDelete(s, g)
  {
    var k := s.routines[g].scenario;
    if !CleanDelete(s, g) {
      var h := s.dispatched[k];
      assert Pending(s'.routines[h]) && !Done(s', h) && s'.routines[h].scenario == k && k !in s'.dispatched;
    }
  }

  /** One step keeps every goroutine cancellable exactly when it is clean. */
  lemma StepCoversExactly(max: nat, s: State, step: Step)
    requires MapOk(s) && Covered(s)
    ensures Covered(Apply(max, s, step)) <==> CleanStep(s, step)
  {
    var s' := Apply(max, s, step);
    match step
    case Delete(g) =>
      if IsAt(s, g, Returned) {
        DeleteCovers(s, s', g, Deleted);
      }
    case Abandon(g) =>
      if IsAt(s, g, Waiting) && Done(s, g) {
        DeleteCovers(s, s', g, Exited);
      }
    case CancelUnwanted =>
      if s.tick.Walking? && s.tick.todo == [] {
        CancelCovers(s, s', s.tick.wanted);
      }
    case Shutdown =>
    case Heartbeat(a) =>
    case Check =>
    case Dispatch(f) =>
    case CancelParent =>
    case Acquire(g) =>
    case Return(g) =>
    case Release(g) =>
  }

  /** At every moment of the run every goroutine is cancellable. */
  ghost predicate AlwaysCovered(max: nat, steps: seq<Step>) {
    Covered(Run(max, steps)) && (steps != [] ==> AlwaysCovered(max, steps[..|steps| - 1]))
  }

  /** Every deferred delete of the run is clean. */
  ghost predicate AlwaysClean(max: nat, steps: seq<Step>) {
    steps != [] ==>
      CleanStep(Run(max, steps[..|steps| - 1]), steps[|steps| - 1]) && AlwaysClean(max, steps[..|steps| - 1])
  }

  /** Through a whole run every goroutine stays cancellable exactly when every
      deferred delete of the run is clean. */
  lemma {:induction false} RunCoversExactly(max: nat, steps: seq<Step>)
    ensures AlwaysCovered(max, steps) <==> AlwaysClean(max, steps)
  {
    if steps != [] {
      var front, last := steps[..|steps| - 1], steps[|steps| - 1];
      RunCoversExactly(max, front);
      MapAlwaysOk(max, front);
      if AlwaysCovered(max, front) {
        StepCoversExactly(max, Run(max, front), last);
      }
    }
  }

  /** While every goroutine is cancellable, no scenario runs twice uncancelled. */
  lemma OneLivePerScenario(s: State, g: nat, h: nat)
    requires Covered(s) && g < |s.routines| && h < |s.routines|
    requires Pending(s.routines[g]) && !Done(s, g) && Pending(s.routines[h]) && !Done(s, h)
    requires s.routines[g].scenario == s.routines[h].scenario
    ensures g == h
  {
  }

  /** Every goroutine with its delete pending whose scenario is not wanted is cancelled. */
  ghost predicate UnwantedCancelled(s: State, wanted: set<string>) {
    forall g :: 0 <= g < |s.routines| && Pending(s.routines[g]) && s.routines[g].scenario !in wanted ==> Done(s, g)
  }

  /** The end of a successful tick cancels every goroutine of an unwanted scenario
      exactly when the uncancelled ones among them were in the map. */
  lemma TickCancelsExactly(max: nat, s: State)
    requires MapOk(s) && s.tick.Walking? && s.tick.todo == []
    ensures UnwantedCancelled(Apply(max, s, CancelUnwanted), s.tick.wanted) <==>
            forall g :: 0 <= g < |s.routines| && Pending(s.routines[g]) && !Done(s, g) &&
                        s.routines[g].scenario !in s.tick.wanted ==>
                        s.routines[g].scenario in s.dispatched && s.dispatched[s.routines[g].scenario] == g
  {
    var wanted, s' := s.tick.wanted, Apply(max, s, CancelUnwanted);
    forall g | 0 <= g < |s.routines| && Pending(s.routines[g]) && !Done(s, g) && s.routines[g].scenario !in wanted
      ensures Done(s', g) <==>
              s.routines[g].scenario in s.dispatched && s.dispatched[s.routines[g].scenario] == g
    {
      var k := s.routines[g].scenario;
      if k in s.dispatched && s.dispatched[k] == g {
        assert g in Unwanted(s.dispatched, wanted);
      }
    }
  }

  /** So in a run whose deferred deletes are clean, every successful tick leaves no
      goroutine of an unwanted scenario uncancelled. */
  lemma TickCancelsUnwanted(max: nat, steps: seq<Step>)
    requires AlwaysClean(max, steps)
    requires var s := Run(max, steps); s.tick.Walking? && s.tick.todo == []
    ensures UnwantedCancelled(Apply(max, Run(max, steps), CancelUnwanted), Run(max, steps).tick.wanted)
  {
    RunCoversExactly(max, steps);
    MapAlwaysOk(max, steps);
    TickCancelsExactly(max, Run(max, steps));
  }

  /** The end of a tick, and the worker's, do to the state what the loop's methods do to the map
      and to the contexts. */
  lemma CancelsAsTheLoopDoes(max: nat, s: State, wanted: set<string>,
                             dispatched: map<string, nat>, cancelled: set<nat>)
    requires CancelledNotIn(s.dispatched, s.cancelled, wanted, dispatched, cancelled)
    ensures s.tick == Walking([], wanted) ==>
              Apply(max, s, CancelUnwanted) == s.(tick := Idle, dispatched := dispatched, cancelled := cancelled)
    ensures s.tick.Idle? && s.parent && wanted == {} ==>
              Apply(max, s, Shutdown) == s.(tick := Stopped, dispatched := dispatched, cancelled := cancelled)
  {
    assert dispatched == Restrict(s.dispatched, wanted);
    assert cancelled == s.cancelled + Unwanted(s.dispatched, wanted);
    assert wanted == {} ==> dispatched == map[];
  }

  // ----- What a tick does -----

  /** The assignments that a tick has still to deal with. */
  function Remaining(t: Tick): seq<string> {
    match t
    case Walking(todo, _) => todo
    case Fetching(scenario, todo, _) => [scenario] + todo
    case _ => []
  }

  /** The step deals with the next assignment: it is in the map, or its fetch fails and nothing
      changes, or it is dispatched, as one new waiting goroutine that the map can cancel. */
  ghost predicate Serves(s: State, step: Step, s': State) {
    match step
    case Check =>
      && s.tick.Walking? && s.tick.todo != [] && s.tick.todo[0] in s.dispatched
      && s'.routines == s.routines && s'.dispatched == s.dispatched && s'.cancelled == s.cancelled
    case Dispatch(fetched) =>
      && s.tick.Fetching? && s'.cancelled == s.cancelled
      && (if fetched then
            && s'.routines == s.routines + [Routine(s.tick.scenario, Waiting)]
            && s'.dispatched == s.dispatched[s.tick.scenario := |s.routines|]
          else s'.routines == s.routines && s'.dispatched == s.dispatched)
    case _ => false
  }

  /** The assignment that the step deals with, if it does. */
  ghost function ServedBy(s: State, step: Step, s': State): seq<string> {
    if Remaining(s.tick) != [] && Serves(s, step, s') then [Remaining(s.tick)[0]] else []
  }

  /** The assignments dealt with along a run, in order. */
  ghost function Served(max: nat, s: State, steps: seq<Step>): seq<string>
    decreases |steps|
  {
    if steps == [] then []
    else
      var s' := Apply(max, s, steps[0]);
      ServedBy(s, steps[0], s') + Served(max, s', steps[1..])
  }

  predicate NoHeartbeat(steps: seq<Step>) { forall i :: 0 <= i < |steps| ==> !steps[i].Heartbeat? }

  lemma StepServes(max: nat, s: State, step: Step)
    requires !step.Heartbeat?
    ensures var s' := Apply(max, s, step); ServedBy(s, step, s') + Remaining(s'.tick) == Remaining(s.tick)
  {
  }

  /** A tick loses no assignment and deals with none twice, whatever goroutines do meanwhile. */
  lemma {:induction false} ServesInOrder(max: nat, s: State, steps: seq<Step>)
    requires NoHeartbeat(steps)
    ensures Served(max, s, steps) + Remaining(RunFrom(max, s, steps).tick) == Remaining(s.tick)
    decreases |steps|
  {
    if steps != [] {
      var s' := Apply(max, s, steps[0]);
      assert !steps[0].Heartbeat?;
      StepServes(max, s, steps[0]);
      ServesInOrder(max, s', steps[1..]);
      Sequences.Assoc(ServedBy(s, steps[0], s'), Served(max, s', steps[1..]), Remaining(RunFrom(max, s, steps).tick));
    }
  }

  /** A tick that ends has dealt with exactly the assignments of its heartbeat, in order. */
  lemma TickServesAll(max: nat, s: State, assignments: seq<string>, steps: seq<Step>)
    requires s.tick.Idle? && !s.parent && NoHeartbeat(steps)
    requires RunFrom(max, Apply(max, s, Heartbeat(assignments)), steps).tick.Idle?
    ensures Served(max, Apply(max, s, Heartbeat(assignments)), steps) == assignments
  {
    ServesInOrder(max, Apply(max, s, Heartbeat(assignments)), steps);
  }

  /** A tick can always end, whichever fetches succeed. */
  lemma {:induction false} TickCanEnd(max: nat, s: State, fetched: bool) returns (steps: seq<Step>)
    requires s.tick.Walking? || s.tick.Fetching?
    ensures NoHeartbeat(steps) && RunFrom(max, s, steps).tick.Idle?
    decreases |Remaining(s.tick)|, s.tick.Walking?
  {
    if s.tick == Walking([], s.tick.wanted) {
      steps := [CancelUnwanted];
      assert steps[1..] == [];
    } else {
      var step := if s.tick.Walking? then Check else Dispatch(fetched);
      var rest := TickCanEnd(max, Apply(max, s, step), fetched);
      steps := [step] + rest;
      assert steps[1..] == rest;
    }
  }

  /** An entry leaves the map, or changes, only when it is not wanted at the end of a tick, when
      the worker stops, or by the deferred delete of a goroutine of its scenario. */
  lemma EntryLeavesOnly(max: nat, s: State, step: Step, k: string)
    requires MapOk(s) && k in s.dispatched
    ensures var s' := Apply(max, s, step);
            || (k in s'.dispatched && s'.dispatched[k] == s.dispatched[k])
            || (step == CancelUnwanted && s.tick.Walking? && s.tick.todo == [] && k !in s.tick.wanted)
            || (step == Shutdown && s.tick.Idle? && s.parent)
            || exists g :: 0 <= g < |s.routines| && Deletes(s, step, g) && s.routines[g].scenario == k
  {
    match step
    case Delete(g) =>
      if IsAt(s, g, Returned) {
        assert Deletes(s, step, g);
      }
    case Abandon(g) =>
      if IsAt(s, g, Waiting) && Done(s, g) {
        assert Deletes(s, step, g);
      }
    case _ =>
  }

  lemma {:induction false} RunKeepsMap(max: nat, s: State, steps: seq<Step>)
    requires MapOk(s)
    ensures MapOk(RunFrom(max, s, steps))
    decreases |steps|
  {
    if steps != [] {
      StepKeepsMap(max, s, steps[0]);
      RunKeepsMap(max, Apply(max, s, steps[0]), steps[1..]);
    }
  }

  /** Whoever is cancelled on its own between the two states is of a scenario that is not wanted. */
  ghost predicate SparesWanted(s: State, e: State, wanted: set<string>) {
    && |s.routines| <= |e.routines|
    && (forall g :: 0 <= g < |s.routines| ==> e.routines[g].scenario == s.routines[g].scenario)
    && (forall g :: g in e.cancelled && g !in s.cancelled ==> g < |e.routines| && e.routines[g].scenario !in wanted)
  }

  lemma StepSparesWanted(max: nat, s: State, step: Step, wanted: set<string>)
    requires MapOk(s) && !step.Shutdown?
    requires s.tick.Walking? || s.tick.Fetching? ==> s.tick.wanted == wanted
    ensures SparesWanted(s, Apply(max, s, step), wanted)
  {
  }

  lemma SparesTransitive(a: State, b: State, c: State, wanted: set<string>)
    requires SparesWanted(a, b, wanted) && SparesWanted(b, c, wanted)
    ensures SparesWanted(a, c, wanted)
  {
    forall g | g in c.cancelled && g !in a.cancelled ensures g < |c.routines| && c.routines[g].scenario !in wanted {
      if g in b.cancelled {
        assert c.routines[g].scenario == b.routines[g].scenario;
      }
    }
  }

  predicate NoShutdown(steps: seq<Step>) { forall i :: 0 <= i < |steps| ==> !steps[i].Shutdown? }

  /** A tick cancels no goroutine of a scenario that its heartbeat wants. */
  lemma {:induction false} TickSparesWanted(max: nat, s: State, steps: seq<Step>, wanted: set<string>)
    requires MapOk(s) && NoHeartbeat(steps) && NoShutdown(steps)
    requires s.tick.Walking? || s.tick.Fetching? ==> s.tick.wanted == wanted
    ensures SparesWanted(s, RunFrom(max, s, steps), wanted)
    decreases |steps|
  {
    if steps != [] {
      var s' := Apply(max, s, steps[0]);
      assert !steps[0].Heartbeat? && !steps[0].Shutdown?;
      StepSparesWanted(max, s, steps[0], wanted);
      StepKeepsMap(max, s, steps[0]);
      TickSparesWanted(max, s', steps[1..], wanted);
      SparesTransitive(s, s', RunFrom(max, s, steps), wanted);
    }
  }

  /** Through its whole tick a heartbeat wants exactly its assignments. */
  lemma {:induction false} TickWants(max: nat, s: State, steps: seq<Step>, wanted: set<string>)
    requires NoHeartbeat(steps) && (s.tick.Walking? || s.tick.Fetching? ==> s.tick.wanted == wanted)
    ensures var e := RunFrom(max, s, steps); e.tick.Walking? || e.tick.Fetching? ==> e.tick.wanted == wanted
    decreases |steps|
  {
    if steps != [] {
      assert !steps[0].Heartbeat?;
      TickWants(max, Apply(max, s, steps[0]), steps[1..], wanted);
    }
  }

  /** A whole tick, from its heartbeat on: no goroutine of an assigned scenario is cancelled on
      its own, and when the tick ends without the uncancelled goroutines having lost their
      entries, every other goroutine is. */
  lemma TickObeysHeartbeat(max: nat, s: State, assignments: seq<string>, steps: seq<Step>)
    requires MapOk(s) && s.tick.Idle? && !s.parent && NoHeartbeat(steps) && NoShutdown(steps)
    ensures var e := RunFrom(max, Apply(max, s, Heartbeat(assignments)), steps);
            && SparesWanted(s, e, set x | x in assignments)
            && (e.tick.Walking? && e.tick.todo == [] && Covered(e) ==>
                  UnwantedCancelled(Apply(max, e, CancelUnwanted), set x | x in assignments))
  {
    var began, wanted := Apply(max, s, Heartbeat(assignments)), set x | x in assignments;
    var e := RunFrom(max, began, steps);
    StepKeepsMap(max, s, Heartbeat(assignments));
    TickSparesWanted(max, began, steps, wanted);
    TickWants(max, began, steps, wanted);
    RunKeepsMap(max, began, steps);
    if e.tick.Walking? && e.tick.todo == [] && Covered(e) {
      TickCancelsExactly(max, e);
    }
  }

  // ----- What a goroutine does -----

  /** The goroutine whose step it is. */
  function Actor(step: Step): Option<nat> {
    match step
    case Acquire(g) => Some(g)
    case Abandon(g) => Some(g)
    case Return(g) => Some(g)
    case Delete(g) => Some(g)
    case Release(g) => Some(g)
    case _ => None
  }

  predicate ByOthers(g: nat, steps: seq<Step>) { forall i :: 0 <= i < |steps| ==> Actor(steps[i]) != Some(g) }

  lemma {:induction false} OthersLeavePhase(max: nat, s: State, steps: seq<Step>, g: nat)
    requires g < |s.routines| && ByOthers(g, steps)
    ensures var e := RunFrom(max, s, steps); g < |e.routines| && e.routines[g] == s.routines[g]
    decreases |steps|
  {
    if steps != [] {
      assert Actor(steps[0]) != Some(g);
      OthersLeavePhase(max, Apply(max, s, steps[0]), steps[1..], g);
    }
  }

  /** A waiting goroutine gets a slot exactly when one is free, and may give up exactly when it
      is cancelled. */
  lemma WaitEndsExactly(max: nat, s: State, g: nat)
    requires IsAt(s, g, Waiting)
    ensures IsAt(Apply(max, s, Acquire(g)), g, Running) <==> s.slots < max
    ensures IsAt(Apply(max, s, Abandon(g)), g, Exited) <==> s.parent || g in s.cancelled
  {
  }

  /** The states of a goroutine with a slot as it returns, deletes its entry and comes to release
      its slot, others taking any steps in between. */
  function Returning(max: nat, s: State, g: nat, a: seq<Step>): State { RunFrom(max, Apply(max, s, Return(g)), a) }

  function Releasing(max: nat, s: State, g: nat, a: seq<Step>, b: seq<Step>): State {
    RunFrom(max, Apply(max, Returning(max, s, g, a), Delete(g)), b)
  }

  lemma ReleasingKeepsSlots(max: nat, s: State, g: nat, a: seq<Step>, b: seq<Step>)
    requires SlotsCount(max, s)
    ensures SlotsCount(max, Releasing(max, s, g, a, b))
  {
    StepKeepsSlots(max, s, Return(g));
    RunKeepsSlots(max, Apply(max, s, Return(g)), a);
    StepKeepsSlots(max, Returning(max, s, g, a), Delete(g));
    RunKeepsSlots(max, Apply(max, Returning(max, s, g, a), Delete(g)), b);
  }

  lemma ReleaseFrees(max: nat, s: State, g: nat)
    requires SlotsCount(max, s) && IsAt(s, g, Deleted)
    ensures var s' := Apply(max, s, Release(g)); IsAt(s', g, Exited) && s.slots == s'.slots + 1
  {
    HoldersUpdate(s.routines, g, s.routines[g]);
  }

  /** A goroutine that got a slot ends, its entry taken out of the map and its slot given back,
      whatever others do between its steps. */
  lemma RunsToItsEnd(max: nat, s: State, g: nat, a: seq<Step>, b: seq<Step>)
    requires SlotsCount(max, s) && IsAt(s, g, Running) && ByOthers(g, a) && ByOthers(g, b)
    ensures var returning, releasing := Returning(max, s, g, a), Releasing(max, s, g, a, b);
            && s.routines[g].scenario !in Apply(max, returning, Delete(g)).dispatched
            && IsAt(Apply(max, releasing, Release(g)), g, Exited)
            && releasing.slots == Apply(max, releasing, Release(g)).slots + 1
  {
    OthersLeavePhase(max, Apply(max, s, Return(g)), a, g);
    OthersLeavePhase(max, Apply(max, Returning(max, s, g, a), Delete(g)), b, g);
    ReleasingKeepsSlots(max, s, g, a, b);
    ReleaseFrees(max, Releasing(max, s, g, a, b), g);
  }

  // ----- A condition on dispatching -----

  /** No goroutine of the scenario has its delete pending. */
  ghost predicate NonePending(s: State, name: string) {
    forall g :: 0 <= g < |s.routines| && s.routines[g].scenario == name ==> !Pending(s.routines[g])
  }

  /** No dispatch of the run meets an earlier goroutine of the scenario with its
      delete pending. */
  ghost predicate NeverOverlaps(max: nat, steps: seq<Step>) {
    steps != [] ==>
      var s, step := Run(max, steps[..|steps| - 1]), steps[|steps| - 1];
      && NeverOverlaps(max, steps[..|steps| - 1])
      && (step == Dispatch(true) && s.tick.Fetching? ==> NonePending(s, s.tick.scenario))
  }

  /** Each scenario has at most one goroutine with its delete pending. */
  ghost predicate Unique(s: State) {
    forall g, h :: 0 <= g < h < |s.routines| && Pending(s.routines[g]) && Pending(s.routines[h]) ==>
      s.routines[g].scenario != s.routines[h].scenario
  }

  ghost predicate AlwaysUnique(max: nat, steps: seq<Step>) {
    Unique(Run(max, steps)) && (steps != [] ==> AlwaysUnique(max, steps[..|steps| - 1]))
  }

  lemma StepUniqueExactly(max: nat, s: State, step: Step)
    requires Unique(s)
    ensures Unique(Apply(max, s, step)) <==>
            (step == Dispatch(true) && s.tick.Fetching? ==> NonePending(s, s.tick.scenario))
  {
    if step == Dispatch(true) && s.tick.Fetching? {
      var s' := Apply(max, s, step);
      var n := |s.routines|;
      assert forall g :: 0 <= g < n ==> s'.routines[g] == s.routines[g];
      if !NonePending(s, s.tick.scenario) {
        var g :| 0 <= g < n && s.routines[g].scenario == s.tick.scenario && Pending(s.routines[g]);
        assert Pending(s'.routines[g]) && Pending(s'.routines[n]) && s'.routines[n].scenario == s'.routines[g].scenario;
      }
    }
  }

  /** At every moment each scenario has at most one goroutine with its delete
      pending, exactly when no dispatch overlaps an earlier one. */
  lemma {:induction false} RunUniqueExactly(max: nat, steps: seq<Step>)
    ensures AlwaysUnique(max, steps) <==> NeverOverlaps(max, steps)
  {
    if steps != [] {
      var front, last := steps[..|steps| - 1], steps[|steps| - 1];
      RunUniqueExactly(max, front);
      if AlwaysUnique(max, front) {
        StepUniqueExactly(max, Run(max, front), last);
      }
    }
  }

  lemma UniqueIsClean(s: State, g: nat)
    requires MapOk(s) && Unique(s) && g < |s.routines| && Pending(s.routines[g])
    ensures CleanDelete(s, g)
  {
    var k := s.routines[g].scenario;
    if k in s.dispatched {
      var h := s.dispatched[k];
      assert Pending(s.routines[h]) && s.routines[h].scenario == k;
    }
  }

  /** Without overlapping dispatches every deferred delete is clean, so every
      goroutine stays cancellable and every tick cancels the unwanted ones. */
  lemma {:induction false} NoOverlapIsClean(max: nat, steps: seq<Step>)
    requires NeverOverlaps(max, steps)
    ensures AlwaysClean(max, steps)
  {
    if steps != [] {
      var front, last := steps[..|steps| - 1], steps[|steps| - 1];
      var s := Run(max, front);
      NoOverlapIsClean(max, front);
      RunUniqueExactly(max, front);
      MapAlwaysOk(max, front);
      match last
      case Delete(g) =>
        if Deletes(s, last, g) { UniqueIsClean(s, g); }
      case Abandon(g) =>
        if Deletes(s, last, g) { UniqueIsClean(s, g); }
      case _ =>
    }
  }

  // ----- What the code does not guarantee -----

  lemma RunSnoc(max: nat, steps: seq<Step>, step: Step)
    ensures Run(max, steps + [step]) == Apply(max, Run(max, steps), step)
  {
    assert (steps + [step])[..|steps|] == steps;
  }

  lemma {:induction false} RunIsRunFrom(max: nat, front: seq<Step>, back: seq<Step>)
    ensures Run(max, front + back) == RunFrom(max, Run(max, front), back)
    decreases |back|
  {
    if back == [] {
      assert front + back == front;
    } else {
      RunSnoc(max, front, back[0]);
      assert front + back == (front + [back[0]]) + back[1..];
      RunIsRunFrom(max, front + [back[0]], back[1..]);
    }
  }

  const A := "a"

  /** The scenario is dispatched, unassigned and assigned again while its first
      goroutine winds down. */
  function Reassign(): seq<Step> {
    [Heartbeat([A]), Check, Dispatch(true), CancelUnwanted, Acquire(0),
     Heartbeat([]), CancelUnwanted,
     Heartbeat([A]), Check, Dispatch(true), CancelUnwanted]
  }

  /** The late delete of the first goroutine removes the entry of the second, the next tick no
      longer wants the scenario, and then the second gets the first one's slot. */
  function LateDelete(): seq<Step> {
    [Return(0), Delete(0), Release(0), Heartbeat([]), CancelUnwanted, Acquire(1)]
  }

  function TwoRoutines(p: Phase, q: Phase, m: map<string, nat>, slots: nat, tick: Tick): State {
    State([Routine(A, p), Routine(A, q)], m, {0}, false, slots, tick)
  }

  function OneRoutine(p: Phase, m: map<string, nat>, cancelled: set<nat>, slots: nat, tick: Tick): State {
    State([Routine(A, p)], m, cancelled, false, slots, tick)
  }

  lemma Next(max: nat, s: State, s': State, steps: seq<Step>, i: nat)
    requires i < |steps| && Apply(max, s, steps[i]) == s'
    ensures RunFrom(max, s, steps[i..]) == RunFrom(max, s', steps[i + 1..])
  {
    assert steps[i..][1..] == steps[i + 1..];
  }

  /** Dispatched by the first three steps. */
  lemma FirstDispatch(max: nat, steps: seq<Step>)
    requires steps == Reassign()
    ensures RunFrom(max, Start(), steps) ==
            RunFrom(max, OneRoutine(Waiting, map[A := 0], {}, 0, Walking([], {A})), steps[3..])
  {
    var none: map<string, nat> := map[];
    assert Set([A]) == {A} && [A][1..] == [] && steps[0..] == steps && none[A := 0] == map[A := 0];
    assert [] + [Routine(A, Waiting)] == [Routine(A, Waiting)];
    var s1, s2 := Start().(tick := Walking([A], {A})), Start().(tick := Fetching(A, [], {A}));
    Next(max, Start(), s1, steps, 0);
    Next(max, s1, s2, steps, 1);
    Next(max, s2, OneRoutine(Waiting, map[A := 0], {}, 0, Walking([], {A})), steps, 2);
  }

  lemma KeepsWanted(g: nat)
    ensures var m: map<string, nat> := map[A := g];
            Restrict(m, {A}) == m && forall c: set<nat> :: c + Unwanted(m, {A}) == c
  {
    var m: map<string, nat> := map[A := g];
    assert Restrict(m, {A}) == m && Unwanted(m, {A}) == {};
  }

  /** Running. */
  lemma FirstRuns(max: nat, steps: seq<Step>)
    requires max >= 1 && steps == Reassign()
    ensures RunFrom(max, OneRoutine(Waiting, map[A := 0], {}, 0, Walking([], {A})), steps[3..]) ==
            RunFrom(max, OneRoutine(Running, map[A := 0], {}, 1, Idle), steps[5..])
  {
    var m: map<string, nat> := map[A := 0];
    KeepsWanted(0);
    Next(max, OneRoutine(Waiting, m, {}, 0, Walking([], {A})), OneRoutine(Waiting, m, {}, 0, Idle), steps, 3);
    Next(max, OneRoutine(Waiting, m, {}, 0, Idle), OneRoutine(Running, m, {}, 1, Idle), steps, 4);
  }

  lemma DropsUnwanted(g: nat)
    ensures var m: map<string, nat> := map[A := g];
            Restrict(m, {}) == map[] && {} + Unwanted(m, {}) == {g}
  {
    var m: map<string, nat> := map[A := g];
    assert A in m && m[A] == g;
    assert Restrict(m, {}) == map[] && Unwanted(m, {}) == {g};
  }

  /** Unassigned and cancelled. */
  lemma FirstCancelled(max: nat, steps: seq<Step>)
    requires max >= 1 && steps == Reassign()
    ensures RunFrom(max, OneRoutine(Running, map[A := 0], {}, 1, Idle), steps[5..]) ==
            RunFrom(max, OneRoutine(Running, map[], {0}, 1, Idle), steps[7..])
  {
    var m: map<string, nat> := map[A := 0];
    DropsUnwanted(0);
    assert Set<string>([]) == {};
    Next(max, OneRoutine(Running, m, {}, 1, Idle), OneRoutine(Running, m, {}, 1, Walking([], {})), steps, 5);
    Next(max, OneRoutine(Running, m, {}, 1, Walking([], {})), OneRoutine(Running, map[], {0}, 1, Idle), steps, 6);
  }

  /** Assigned and dispatched again. */
  lemma SecondDispatch(max: nat, steps: seq<Step>)
    requires max >= 1 && steps == Reassign()
    ensures RunFrom(max, OneRoutine(Running, map[], {0}, 1, Idle), steps[7..]) ==
            RunFrom(max, TwoRoutines(Running, Waiting, map[A := 1], 1, Walking([], {A})), steps[10..])
  {
    var none: map<string, nat> := map[];
    assert Set([A]) == {A} && [A][1..] == [] && none[A := 1] == map[A := 1];
    var one := OneRoutine(Running, none, {0}, 1, Walking([A], {A}));
    var two := OneRoutine(Running, none, {0}, 1, Fetching(A, [], {A}));
    Next(max, OneRoutine(Running, none, {0}, 1, Idle), one, steps, 7);
    Next(max, one, two, steps, 8);
    Next(max, two, TwoRoutines(Running, Waiting, map[A := 1], 1, Walking([], {A})), steps, 9);
  }

  lemma SecondWaits(max: nat, steps: seq<Step>)
    requires max >= 1 && steps == Reassign()
    ensures RunFrom(max, TwoRoutines(Running, Waiting, map[A := 1], 1, Walking([], {A})), steps[10..]) ==
            TwoRoutines(Running, Waiting, map[A := 1], 1, Idle)
  {
    var m: map<string, nat> := map[A := 1];
    KeepsWanted(1);
    var idle := TwoRoutines(Running, Waiting, m, 1, Idle);
    Next(max, TwoRoutines(Running, Waiting, m, 1, Walking([], {A})), idle, steps, 10);
    assert steps[11..] == [];
  }

  lemma ReassignRuns(max: nat)
    requires max >= 1
    ensures RunFrom(max, Start(), Reassign()) == TwoRoutines(Running, Waiting, map[A := 1], 1, Idle)
  {
    FirstDispatch(max, Reassign());
    FirstRuns(max, Reassign());
    FirstCancelled(max, Reassign());
    SecondDispatch(max, Reassign());
    SecondWaits(max, Reassign());
  }

  lemma FirstReturns(max: nat, steps: seq<Step>)
    requires max >= 1 && steps == LateDelete()
    ensures RunFrom(max, TwoRoutines(Running, Waiting, map[A := 1], 1, Idle), steps) ==
            RunFrom(max, TwoRoutines(Returned, Waiting, map[A := 1], 1, Idle), steps[1..])
  {
    assert steps[0..] == steps;
    Next(max, TwoRoutines(Running, Waiting, map[A := 1], 1, Idle),
         TwoRoutines(Returned, Waiting, map[A := 1], 1, Idle), steps, 0);
  }

  /** Its deferred delete removes the entry of the second. */
  lemma LateDeleted(max: nat, steps: seq<Step>)
    requires max >= 1 && steps == LateDelete()
    ensures RunFrom(max, TwoRoutines(Returned, Waiting, map[A := 1], 1, Idle), steps[1..]) ==
            RunFrom(max, TwoRoutines(Deleted, Waiting, map[], 1, Idle), steps[2..])
  {
    var none: map<string, nat> := map[];
    assert Without(map[A := 1], A) == none;
    Next(max, TwoRoutines(Returned, Waiting, map[A := 1], 1, Idle),
         TwoRoutines(Deleted, Waiting, none, 1, Idle), steps, 1);
  }

  lemma FirstReleases(max: nat, steps: seq<Step>)
    requires max >= 1 && steps == LateDelete()
    ensures RunFrom(max, TwoRoutines(Deleted, Waiting, map[], 1, Idle), steps[2..]) ==
            RunFrom(max, TwoRoutines(Exited, Waiting, map[], 0, Idle), steps[3..])
  {
    Next(max, TwoRoutines(Deleted, Waiting, map[], 1, Idle), TwoRoutines(Exited, Waiting, map[], 0, Idle), steps, 2);
  }

  /** The next tick finds nothing to cancel. */
  lemma NothingToCancel(max: nat, steps: seq<Step>)
    requires max >= 1 && steps == LateDelete()
    ensures RunFrom(max, TwoRoutines(Exited, Waiting, map[], 0, Idle), steps[3..]) ==
            TwoRoutines(Exited, Running, map[], 1, Idle)
  {
    var none: map<string, nat> := map[];
    assert steps[6..] == [] && Set<string>([]) == {} && Restrict(none, {}) == none && {0} + Unwanted(none, {}) == {0};
    var idle, walking :=
      TwoRoutines(Exited, Waiting, none, 0, Idle), TwoRoutines(Exited, Waiting, none, 0, Walking([], {}));
    Next(max, idle, walking, steps, 3);
    Next(max, walking, idle, steps, 4);
    Next(max, idle, TwoRoutines(Exited, Running, none, 1, Idle), steps, 5);
  }

  lemma ReassignThenLateDelete(max: nat)
    requires max >= 1
    ensures Run(max, Reassign() + LateDelete()) == TwoRoutines(Exited, Running, map[], 1, Idle)
  {
    RunIsRunFrom(max, [], Reassign());
    assert [] + Reassign() == Reassign();
    ReassignRuns(max);
    RunIsRunFrom(max, Reassign(), LateDelete());
    FirstReturns(max, LateDelete());
    LateDeleted(max, LateDelete());
    FirstReleases(max, LateDelete());
    NothingToCancel(max, LateDelete());
  }

  /** A run, whatever the bound, whose last successful tick wants nothing and which then has a
      handler of the scenario running, uncancelled and absent from the map. */
  lemma LateDeleteOrphans(max: nat)
    requires max >= 1
    ensures var s := Run(max, Reassign() + LateDelete());
            && |s.routines| == 2 && s.routines[1] == Routine(A, Running) && !Done(s, 1) && s.dispatched == map[]
            && !UnwantedCancelled(s, {}) && !AlwaysClean(max, Reassign() + LateDelete())
  {
    ReassignThenLateDelete(max);
    RunCoversExactly(max, Reassign() + LateDelete());
    var s := Run(max, Reassign() + LateDelete());
    assert Pending(s.routines[1]) && !Covered(s);
  }
}
