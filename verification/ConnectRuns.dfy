/** Socket accounting over whole interleavings, and what callers can check beforehand. */
module ConnectRuns {
  import opened ConnectRace

  ghost predicate Possible(s: State, run: seq<Event>)
    decreases |run|
  {
    run == [] || (Enabled(s, run[0]) && Possible(Step(s, run[0]), run[1..]))
  }

  ghost function After(s: State, run: seq<Event>): State
    requires Possible(s, run)
    decreases |run|
  {
    if run == [] then s else After(Step(s, run[0]), run[1..])
  }

  /** No event of the run leaks when its turn comes. */
  ghost predicate NeverLeaks(s: State, run: seq<Event>)
    requires Possible(s, run)
    decreases |run|
  {
    run == [] || (!Leaks(s, run[0]) && NeverLeaks(Step(s, run[0]), run[1..]))
  }

  /** No link of the run opens late. */
  ghost predicate NeverLate(s: State, run: seq<Event>)
    requires Possible(s, run)
    decreases |run|
  {
    run == [] || (!LateOpening(s, run[0]) && NeverLate(Step(s, run[0]), run[1..]))
  }

  ghost predicate AccountedThroughout(s: State, run: seq<Event>)
    requires Possible(s, run)
    decreases |run|
  {
    Accounted(s) && (run == [] || AccountedThroughout(Step(s, run[0]), run[1..]))
  }

  lemma {:induction false} RunWellFormed(s: State, run: seq<Event>)
    requires WellFormed(s) && Possible(s, run)
    ensures WellFormed(After(s, run))
    decreases |run|
  {
    hide WellFormed, Step, Enabled;
    if run != [] {
      StepWellFormed(s, run[0]);
      RunWellFormed(Step(s, run[0]), run[1..]);
    }
  }

  /** Over every interleaving the accounting holds all the way exactly when no event leaks. */
  lemma {:induction false} AccountedThroughoutIff(s: State, run: seq<Event>)
    requires WellFormed(s) && Accounted(s) && Possible(s, run)
    ensures AccountedThroughout(s, run) <==> NeverLeaks(s, run)
    decreases |run|
  {
    hide WellFormed, Accounted, Step, Enabled, Leaks;
    if run != [] {
      var s' := Step(s, run[0]);
      StepWellFormed(s, run[0]);
      StepAccountedIff(s, run[0]);
      if Accounted(s') {
        AccountedThroughoutIff(s', run[1..]);
      } else {
        assert !AccountedThroughout(s', run[1..]);
      }
    }
  }

  /** Over every run, links dropped earlier stay open, and more are dropped iff a link opens late. */
  lemma {:induction false} DroppedGrowsIff(s: State, run: seq<Event>)
    requires WellFormed(s) && Possible(s, run)
    ensures Dropped(s) <= Dropped(After(s, run))
    ensures Dropped(After(s, run)) == Dropped(s) <==> NeverLate(s, run)
    decreases |run|
  {
    hide WellFormed, Dropped, Step, Enabled, LateOpening;
    if run != [] {
      StepWellFormed(s, run[0]);
      StepDropped(s, run[0]);
      DroppedGrowsIff(Step(s, run[0]), run[1..]);
    }
  }

  // ----- What callers can check beforehand -----

  /** Every read loop still running for the drone of `p` is the one that is registered. */
  ghost predicate NoLeftover(s: State, p: nat)
    requires p in s.probes
  {
    forall q :: q in s.readers && q in s.probes && s.probes[q].drone == s.probes[p].drone ==> q in Registered(s)
  }

  /** Commits find no left-over read loop, and simulated flights come and go on drones without a link. */
  ghost predicate Guarded(s: State, e: Event)
    requires Enabled(s, e)
  {
    match e
    case Commit(p) => NoLeftover(s, p)
    case Attach(d) => !Linked(s, d)
    case Detach(d) => !Linked(s, d)
    case _ => true
  }

  ghost predicate GuardedRun(s: State, run: seq<Event>)
    requires Possible(s, run)
    decreases |run|
  {
    run == [] || (Guarded(s, run[0]) && GuardedRun(Step(s, run[0]), run[1..]))
  }

  lemma StepPrompt(s: State, e: Event)
    requires WellFormed(s) && Prompt(s) && Enabled(s, e) && Guarded(s, e)
    ensures Prompt(Step(s, e)) && !LinkLost(s, e)
  {
    forall p | p in Registered(s)
      ensures p in s.probes && s.probes[p].drone in s.conns
    {
      RegisteredPhase(s, p);
    }
  }

  /** Every ownerless socket is a link that opened late. */
  ghost predicate OnlyDropped(s: State) {
    Orphans(s) <= Dropped(s)
  }

  lemma StepOnlyDropped(s: State, e: Event)
    requires WellFormed(s) && OnlyDropped(s) && Enabled(s, e) && !LinkLost(s, e)
    ensures OnlyDropped(Step(s, e))
  {
    hide WellFormed, Orphans, Dropped, Step, Enabled, LinkLost, Lost, LateOpening;
    StepOrphans(s, e);
    StepDropped(s, e);
  }

  lemma {:induction false} GuardedKeeps(s: State, run: seq<Event>)
    requires WellFormed(s) && OnlyDropped(s) && Prompt(s) && Possible(s, run) && GuardedRun(s, run)
    ensures WellFormed(After(s, run)) && OnlyDropped(After(s, run)) && Prompt(After(s, run))
    decreases |run|
  {
    hide WellFormed, OnlyDropped, Prompt, Step, Enabled, Guarded;
    if run != [] {
      StepWellFormed(s, run[0]);
      StepPrompt(s, run[0]);
      StepOnlyDropped(s, run[0]);
      GuardedKeeps(Step(s, run[0]), run[1..]);
    }
  }

  /**
   * From an accounted state, over every guarded interleaving, the open sockets are those of unfinished
   * probes, the registered ones and the links that opened late; there are none of the last kind iff no
   * link opened for a cancelled probe, and only then are the first two kinds all there is.
   */
  lemma SocketsOfGuardedRun(s: State, run: seq<Event>)
    requires WellFormed(s) && Accounted(s) && Prompt(s) && Possible(s, run) && GuardedRun(s, run)
    ensures var t := After(s, run); t.sockets == Held(t) + Registered(t) + Dropped(t)
    ensures Accounted(After(s, run)) <==> NeverLate(s, run)
  {
    hide Held, Registered, Prompt, Possible, After, GuardedRun, NeverLate, LateOpening, WellFormed;
    var t := After(s, run);
    AccountedMeansNoOrphans(s);
    NoneDropped(s);
    GuardedKeeps(s, run);
    DroppedGrowsIff(s, run);
    OwnedAreOpen(t);
    DroppedAreOrphans(t);
  }

  lemma NoneDropped(s: State)
    requires WellFormed(s) && Accounted(s)
    ensures Dropped(s) == {} && OnlyDropped(s)
  {
    DroppedAreOrphans(s);
    AccountedMeansNoOrphans(s);
  }

  lemma DroppedAreOrphans(s: State)
    requires WellFormed(s)
    ensures Dropped(s) <= Orphans(s)
  {
    forall p | p in Dropped(s)
      ensures p !in Registered(s)
    {
      if p in Registered(s) { RegisteredPhase(s, p); }
    }
  }

  // ----- Composing runs -----

  lemma {:induction false} Compose(s: State, a: seq<Event>, b: seq<Event>)
    requires Possible(s, a) && Possible(After(s, a), b)
    ensures Possible(s, a + b) && After(s, a + b) == After(After(s, a), b)
    decreases |a|
  {
    hide Step, Enabled;
    if a == [] {
      assert a + b == b;
    } else {
      assert (a + b)[1..] == a[1..] + b;
      Compose(Step(s, a[0]), a[1..], b);
    }
  }

  lemma OneStep(s: State, e: Event)
    requires Enabled(s, e)
    ensures Possible(s, [e]) && After(s, [e]) == Step(s, e)
  {
    hide Step, Enabled;
    assert [e][1..] == [];
  }

  lemma Then(s: State, a: seq<Event>, e: Event)
    requires Possible(s, a) && Enabled(After(s, a), e)
    ensures Possible(s, a + [e]) && After(s, a + [e]) == Step(After(s, a), e)
  {
    hide Step, Enabled;
    OneStep(After(s, a), e);
    Compose(s, a, [e]);
  }

  /** A probe of `d` up to its heartbeat. */
  function Approach(p: nat, d: int): seq<Event> {
    [Spawn(p, d)] + [PreCheck(p)] + [Opened(p, true)] + [Heartbeat(p, true)]
  }

  function Approached(s: State, p: nat, d: int): State {
    s.(probes := s.probes[p := Probe(d, Ready)], sockets := s.sockets + {p})
  }

  lemma ApproachReady(s: State, p: nat, d: int)
    requires p !in s.probes && d !in s.conns
    ensures Possible(s, Approach(p, d)) && After(s, Approach(p, d)) == Approached(s, p, d)
  {
    hide Possible, After;
    var s1 := s.(probes := s.probes[p := Probe(d, Fresh)]);
    var s2 := s.(probes := s.probes[p := Probe(d, Opening)]);
    var s3 := s.(probes := s.probes[p := Probe(d, Waiting)], sockets := s.sockets + {p});
    OneStep(s, Spawn(p, d));
    assert Step(s, Spawn(p, d)) == s1;
    Then(s, [Spawn(p, d)], PreCheck(p));
    assert Step(s1, PreCheck(p)) == s2;
    Then(s, [Spawn(p, d)] + [PreCheck(p)], Opened(p, true));
    assert Step(s2, Opened(p, true)) == s3;
    Then(s, [Spawn(p, d)] + [PreCheck(p)] + [Opened(p, true)], Heartbeat(p, true));
    assert Step(s3, Heartbeat(p, true)) == Approached(s, p, d);
  }

  function Connected(s: State, p: nat, d: int): State {
    s.(conns := s.conns[d := Link(p)], sockets := s.sockets + {p}, readers := s.readers + {p},
       probes := s.probes[p := Probe(d, Finished(true, true))])
  }

  /** An undisturbed attempt on a drone that is not registered connects it. */
  lemma AttemptConnects(s: State, p: nat, d: int)
    requires p !in s.probes && d !in s.conns
    ensures Possible(s, Approach(p, d) + [Commit(p)]) && After(s, Approach(p, d) + [Commit(p)]) == Connected(s, p, d)
  {
    hide Possible, After, Approach;
    ApproachReady(s, p, d);
    Then(s, Approach(p, d), Commit(p));
  }
}
