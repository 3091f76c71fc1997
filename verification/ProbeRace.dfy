/**
 * Racing the candidates of one drone: every candidate gets a probe task, the first success wins
 * and the rest are cancelled. The network below is the one of `ConnectRace`; other callers may
 * move it between any two steps of the race.
 */
module ProbeRace {
  import opened ConnectRace
  import opened ConnectRuns

  datatype Race = Race(net: State, tasks: seq<nat>, pending: set<nat>, winner: Option<nat>, stopped: bool)

  datatype Move =
    | Net(e: Event)             // any probe, caller or read loop moves
    | Collect(done: seq<nat>)   // the waiter hands over finished tasks, in any order
    | Stop                      // no task left or a winner found: cancel whatever still runs

  predicate Done(s: State, p: nat) {
    p in s.probes && s.probes[p].phase.Finished?
  }

  predicate Running(s: State, p: nat) {
    p in s.probes && Unfinished(s.probes[p].phase)
  }

  predicate Distinct(s: seq<nat>) {
    forall i, j :: 0 <= i < j < |s| ==> s[i] != s[j]
  }

  /** Only the race itself cancels its tasks. */
  ghost predicate Allowed(r: Race, m: Move) {
    match m
    case Net(e) => Enabled(r.net, e) && (e.Cancel? ==> e.p !in r.tasks)
    case Collect(done) =>
      && !r.stopped && r.winner.None? && done != [] && Distinct(done)
      && forall p :: p in done ==> p in r.pending && Done(r.net, p)
    case Stop => !r.stopped && (r.pending == {} || r.winner.Some?)
  }

  function Ok(s: State, p: nat): bool {
    p in s.probes && s.probes[p].phase.Finished? && s.probes[p].phase.ok
  }

  function FirstOk(s: State, done: seq<nat>): Option<nat> {
    if done == [] then None else if Ok(s, done[0]) then Some(done[0]) else FirstOk(s, done[1..])
  }

  ghost function Elements(done: seq<nat>): set<nat> {
    set p | p in done
  }

  /** The cancellations `Stop` performs, in task order. */
  function Cancels(s: State, tasks: seq<nat>): seq<Event>
    decreases |tasks|
  {
    if tasks == [] then []
    else if Running(s, tasks[0]) then [Cancel(tasks[0])] + Cancels(Step(s, Cancel(tasks[0])), tasks[1..])
    else Cancels(s, tasks[1..])
  }

  lemma {:induction false} CancelsArePossible(s: State, tasks: seq<nat>)
    ensures Possible(s, Cancels(s, tasks))
    decreases |tasks|
  {
    hide Step;
    if tasks != [] {
      if Running(s, tasks[0]) {
        var e := Cancel(tasks[0]);
        CancelsArePossible(Step(s, e), tasks[1..]);
        assert ([e] + Cancels(Step(s, e), tasks[1..]))[1..] == Cancels(Step(s, e), tasks[1..]);
      } else {
        CancelsArePossible(s, tasks[1..]);
      }
    }
  }

  ghost function Stopped(s: State, tasks: seq<nat>): State {
    CancelsArePossible(s, tasks);
    After(s, Cancels(s, tasks))
  }

  ghost function Next(r: Race, m: Move): Race
    requires Allowed(r, m)
  {
    match m
    case Net(e) => r.(net := Step(r.net, e))
    case Collect(done) => r.(pending := r.pending - Elements(done), winner := FirstOk(r.net, done))
    case Stop => r.(net := Stopped(r.net, r.tasks), stopped := true)
  }

  /** The candidates' tasks have been created and not yet run. */
  ghost predicate Starts(r: Race) {
    && (forall p :: p in r.tasks ==> p in r.net.probes && r.net.probes[p].phase.Fresh?)
    && r.pending == Elements(r.tasks) && r.winner.None? && !r.stopped && Honest(r.net)
  }

  /** A probe that committed reports success. */
  ghost predicate Honest(s: State) {
    forall p :: p in s.probes && s.probes[p].phase.Finished? && s.probes[p].phase.committed ==> s.probes[p].phase.ok
  }

  ghost predicate Inv(r: Race) {
    && Honest(r.net)
    && (forall p :: p in r.tasks ==> p in r.net.probes)
    && (forall p :: p in r.pending ==> p in r.tasks)
    && (forall p :: p in r.tasks && p !in r.pending ==> Done(r.net, p))
    && (forall p :: p in r.tasks && p !in r.pending && Ok(r.net, p) ==> r.winner.Some?)
    && (r.winner.Some? ==> r.winner.value in r.tasks && Ok(r.net, r.winner.value))
    && (r.stopped ==> r.pending == {} || r.winner.Some?)
    && (r.stopped ==> forall p :: p in r.tasks ==> !Running(r.net, p))
    && (!r.stopped ==> forall p :: p in r.tasks ==> Running(r.net, p) || Done(r.net, p))
  }

  // ----- One step -----

  /** Results are final, finished tasks stay finished, and running tasks end only by themselves or a cancel. */
  lemma StepKeepsResults(s: State, e: Event, p: nat)
    requires Enabled(s, e) && p in s.probes
    ensures p in Step(s, e).probes
    ensures Done(s, p) ==> Step(s, e).probes[p] == s.probes[p]
    ensures !Running(s, p) ==> !Running(Step(s, e), p)
    ensures Running(s, p) && e != Cancel(p) ==> Running(Step(s, e), p) || Done(Step(s, e), p)
  {
  }

  lemma StepHonest(s: State, e: Event)
    requires Enabled(s, e) && Honest(s)
    ensures Honest(Step(s, e))
  {
  }

  lemma NetKeeps(r: Race, e: Event)
    requires Inv(r) && Allowed(r, Net(e))
    ensures Inv(Next(r, Net(e)))
  {
    StepHonest(r.net, e);
    forall p | p in r.net.probes
      ensures p in Step(r.net, e).probes
      ensures Done(r.net, p) ==> Step(r.net, e).probes[p] == r.net.probes[p]
      ensures !Running(r.net, p) ==> !Running(Step(r.net, e), p)
      ensures Running(r.net, p) && e != Cancel(p) ==> Running(Step(r.net, e), p) || Done(Step(r.net, e), p)
    {
      StepKeepsResults(r.net, e, p);
    }
    hide Step, Enabled, Honest, Running;
  }

  lemma {:induction false} FirstOkIs(s: State, done: seq<nat>)
    ensures FirstOk(s, done).Some? ==> FirstOk(s, done).value in done && Ok(s, FirstOk(s, done).value)
    ensures FirstOk(s, done).Some? ==>
              exists i :: 0 <= i < |done| && done[i] == FirstOk(s, done).value && forall j :: 0 <= j < i ==> !Ok(s, done[j])
    ensures FirstOk(s, done).None? <==> forall p :: p in done ==> !Ok(s, p)
  {
    if done != [] {
      FirstOkIs(s, done[1..]);
      assert forall p :: p in done ==> p == done[0] || p in done[1..];
      if Ok(s, done[0]) {
        assert done[0] == FirstOk(s, done).value;
      } else if FirstOk(s, done).Some? {
        var i :| 0 <= i < |done[1..]| && done[1..][i] == FirstOk(s, done).value && forall j :: 0 <= j < i ==> !Ok(s, done[1..][j]);
        assert done[i + 1] == FirstOk(s, done).value;
        assert forall j :: 1 <= j < i + 1 ==> done[j] == done[1..][j - 1];
      }
    }
  }

  lemma CollectKeeps(r: Race, done: seq<nat>)
    requires Inv(r) && Allowed(r, Collect(done))
    ensures Inv(Next(r, Collect(done)))
  {
    hide FirstOk, Honest, Ok, Running;
    FirstOkIs(r.net, done);
  }

  lemma {:induction false} StoppedKeeps(s: State, tasks: seq<nat>)
    requires forall p :: p in tasks ==> p in s.probes
    ensures Honest(s) ==> Honest(Stopped(s, tasks))
    ensures forall p :: p in tasks ==> !Running(Stopped(s, tasks), p)
    ensures forall p :: p in s.probes ==> p in Stopped(s, tasks).probes
    ensures forall p :: p in s.probes && Done(s, p) ==> Stopped(s, tasks).probes[p] == s.probes[p]
    ensures forall p :: p in s.probes && !Running(s, p) ==> !Running(Stopped(s, tasks), p)
    decreases |tasks|
  {
    if tasks != [] {
      var e := Cancel(tasks[0]);
      if Running(s, tasks[0]) {
        var t := Step(s, e);
        forall p | p in s.probes
          ensures p in t.probes && (Done(s, p) ==> t.probes[p] == s.probes[p]) && (!Running(s, p) ==> !Running(t, p))
        {
          StepKeepsResults(s, e, p);
        }
        StoppedKeeps(t, tasks[1..]);
        if Honest(s) { StepHonest(s, e); }
        CancelsArePossible(t, tasks[1..]);
        assert Cancels(s, tasks) == [e] + Cancels(t, tasks[1..]);
        assert Cancels(s, tasks)[1..] == Cancels(t, tasks[1..]);
        assert Stopped(s, tasks) == Stopped(t, tasks[1..]);
        assert !Running(t, tasks[0]) && Done(s, tasks[0]) == false;
      } else {
        StoppedKeeps(s, tasks[1..]);
      }
      assert forall p :: p in tasks ==> p == tasks[0] || p in tasks[1..];
    }
  }

  lemma StopKeeps(r: Race)
    requires Inv(r) && Allowed(r, Stop)
    ensures Inv(Next(r, Stop))
  {
    StoppedKeeps(r.net, r.tasks);
    hide Stopped, Honest, Running;
  }

  // ----- Whole runs -----

  ghost predicate Playable(r: Race, run: seq<Move>)
    decreases |run|
  {
    run == [] || (Allowed(r, run[0]) && Playable(Next(r, run[0]), run[1..]))
  }

  ghost function Played(r: Race, run: seq<Move>): Race
    requires Playable(r, run)
    decreases |run|
  {
    if run == [] then r else Played(Next(r, run[0]), run[1..])
  }

  lemma MoveKeeps(r: Race, m: Move)
    requires Inv(r) && Allowed(r, m)
    ensures Inv(Next(r, m)) && Next(r, m).tasks == r.tasks
  {
    hide Inv;
    match m
    case Net(e) => NetKeeps(r, e);
    case Collect(done) => CollectKeeps(r, done);
    case Stop => StopKeeps(r);
  }

  lemma {:induction false} RunKeeps(r: Race, run: seq<Move>)
    requires Inv(r) && Playable(r, run)
    ensures Inv(Played(r, run)) && Played(r, run).tasks == r.tasks
    decreases |run|
  {
    hide Inv, Next, Allowed;
    if run != [] {
      MoveKeeps(r, run[0]);
      RunKeeps(Next(r, run[0]), run[1..]);
    }
  }

  /**
   * However probes, other callers and read loops interleave, a race that is over left no task
   * running; it reports failure exactly when every candidate failed, and then none committed.
   */
  lemma Verdict(start: Race, run: seq<Move>)
    requires Starts(start) && Playable(start, run) && Played(start, run).stopped
    ensures var r := Played(start, run);
      && (forall p :: p in start.tasks ==> p in r.net.probes && !Running(r.net, p))
      && (r.winner.None? <==> forall p :: p in start.tasks ==> Done(r.net, p) && !Ok(r.net, p))
      && (r.winner.None? ==> forall p :: p in start.tasks ==> r.net.probes[p].phase == Finished(false, false))
      && (r.winner.Some? ==> r.winner.value in start.tasks && Ok(r.net, r.winner.value))
  {
    RunKeeps(start, run);
    hide Played, Playable, Starts, Running;
  }

  // ----- The race as a run of the network -----

  ghost function Events(r: Race, m: Move): seq<Event>
    requires Allowed(r, m)
  {
    match m
    case Net(e) => [e]
    case Collect(_) => []
    case Stop => Cancels(r.net, r.tasks)
  }

  lemma MoveIsARunOfTheNetwork(r: Race, m: Move)
    requires Allowed(r, m)
    ensures Possible(r.net, Events(r, m)) && After(r.net, Events(r, m)) == Next(r, m).net
  {
    hide Step, Enabled;
    if m.Net? {
      assert Enabled(r.net, m.e);
      OneStep(r.net, m.e);
    } else if m.Stop? {
      CancelsArePossible(r.net, r.tasks);
    }
  }

  ghost function RunEvents(r: Race, run: seq<Move>): seq<Event>
    requires Playable(r, run)
    decreases |run|
  {
    if run == [] then [] else Events(r, run[0]) + RunEvents(Next(r, run[0]), run[1..])
  }

  /** A whole race is one of the interleavings of the network, so socket accounting applies to it. */
  lemma {:induction false} RaceIsARunOfTheNetwork(r: Race, run: seq<Move>)
    requires Playable(r, run)
    ensures Possible(r.net, RunEvents(r, run)) && After(r.net, RunEvents(r, run)) == Played(r, run).net
    decreases |run|
  {
    hide Allowed, Next, Events, Step, Enabled;
    if run != [] {
      MoveIsARunOfTheNetwork(r, run[0]);
      RaceIsARunOfTheNetwork(Next(r, run[0]), run[1..]);
      Compose(r.net, Events(r, run[0]), RunEvents(Next(r, run[0]), run[1..]));
    }
  }

  /**
   * A guarded race that is over holds no socket except a registered one or links that opened after
   * their cancellation, and none at all when it reports failure.
   */
  lemma NothingHeldAfter(start: Race, run: seq<Move>)
    requires Starts(start) && Playable(start, run) && Played(start, run).stopped
    requires WellFormed(start.net) && OnlyDropped(start.net) && Prompt(start.net)
    requires Possible(start.net, RunEvents(start, run)) && GuardedRun(start.net, RunEvents(start, run))
    ensures var r := Played(start, run);
      forall p :: p in start.tasks && p in r.net.sockets ==>
        r.winner.Some? && (p in Registered(r.net) || p in Dropped(r.net))
  {
    hide Played, Playable, RunEvents, Possible, After, GuardedRun, Prompt, Starts;
    Verdict(start, run);
    RaceIsARunOfTheNetwork(start, run);
    GuardedKeeps(start.net, RunEvents(start, run));
    var r := Played(start, run);
    forall p | p in start.tasks && p in r.net.sockets
      ensures r.winner.Some? && (p in Registered(r.net) || p in Dropped(r.net))
    {
      assert !Running(r.net, p);
      assert p in Orphans(r.net) ==> p in Dropped(r.net);
      if p in Registered(r.net) {
        RegisteredPhase(r.net, p);
      }
    }
  }

  /** The body of the waiting loop: the first success in hand-over order wins, later ones do not replace it. */
  method CollectDone(net: State, done: seq<nat>, before: Option<nat>) returns (winner: Option<nat>)
    ensures before.Some? ==> winner == before
    ensures before.None? ==> winner == FirstOk(net, done)
  {
    winner := before;
    for i := 0 to |done|
      invariant before.Some? ==> winner == before
      invariant before.None? && winner.None? ==> FirstOk(net, done) == FirstOk(net, done[i..])
      invariant before.None? && winner.Some? ==> FirstOk(net, done) == winner
    {
      if Ok(net, done[i]) && winner.None? {
        winner := Some(done[i]);
      }
    }
  }
}
