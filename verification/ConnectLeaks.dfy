/** Each way in which an open socket loses its owner, exhibited. */
module ConnectLeaks {
  import opened ConnectRace
  import opened ConnectRuns

  predicate NeedsGuard(e: Event) {
    e.Commit? || e.Attach? || e.Detach?
  }

  lemma {:induction false} GuardedForFree(s: State, run: seq<Event>)
    requires Possible(s, run) && forall e :: e in run ==> !NeedsGuard(e)
    ensures GuardedRun(s, run)
    decreases |run|
  {
    hide Step, Enabled;
    if run != [] {
      assert run[0] in run && forall e :: e in run[1..] ==> e in run;
      GuardedForFree(Step(s, run[0]), run[1..]);
    }
  }

  /** A probe cancelled while its link opens. */
  function CancelledWhileOpening(p: nat, d: int): seq<Event> {
    [Spawn(p, d)] + [PreCheck(p)] + [Cancel(p)] + [Opened(p, true)]
  }

  lemma LateOpeningRuns(s: State, p: nat, d: int)
    requires p !in s.probes && d !in s.conns
    ensures Possible(s, CancelledWhileOpening(p, d))
    ensures After(s, CancelledWhileOpening(p, d))
         == s.(probes := s.probes[p := Probe(d, Cancelled)], sockets := s.sockets + {p})
  {
    hide Possible, After;
    var s1 := s.(probes := s.probes[p := Probe(d, Fresh)]);
    var s2 := s.(probes := s.probes[p := Probe(d, Opening)]);
    var s3 := s.(probes := s.probes[p := Probe(d, Abandoned)]);
    OneStep(s, Spawn(p, d));
    assert Step(s, Spawn(p, d)) == s1;
    Then(s, [Spawn(p, d)], PreCheck(p));
    assert Step(s1, PreCheck(p)) == s2;
    Then(s, [Spawn(p, d)] + [PreCheck(p)], Cancel(p));
    assert Step(s2, Cancel(p)) == s3;
    Then(s, [Spawn(p, d)] + [PreCheck(p)] + [Cancel(p)], Opened(p, true));
  }

  /** On a guarded run the socket is left open, and whatever follows leaves it open and ownerless. */
  lemma LateOpeningLeaks(s: State, p: nat, d: int, rest: seq<Event>)
    requires WellFormed(s) && p !in s.probes && d !in s.conns
    requires Possible(s, CancelledWhileOpening(p, d)) && Possible(After(s, CancelledWhileOpening(p, d)), rest)
    ensures GuardedRun(s, CancelledWhileOpening(p, d))
    ensures p in Orphans(After(After(s, CancelledWhileOpening(p, d)), rest))
  {
    hide Possible, After, GuardedRun, Orphans;
    var run := CancelledWhileOpening(p, d);
    var t := After(s, run);
    LateOpeningRuns(s, p, d);
    GuardedForFree(s, run);
    RunWellFormed(s, run);
    assert p in Dropped(t);
    DroppedGrowsIff(t, rest);
    RunWellFormed(t, rest);
    DroppedAreOrphans(After(t, rest));
  }

  lemma WithoutLink(s: State, p: nat)
    requires WellFormed(s) && p in s.sockets && p in s.probes && !Holds(s.probes[p].phase)
    requires s.probes[p].drone in s.conns ==> s.conns[s.probes[p].drone] != Link(p)
    ensures p in Orphans(s)
  {
    if p in Registered(s) { RegisteredPhase(s, p); }
  }

  /**
   * A rival probe that is ready when a connected drone is disconnected registers before the cancelled
   * read loop ends; that read loop then unregisters it and leaves its socket open.
   */
  lemma LateReaderLeaks(s: State, d: int, q: nat)
    requires WellFormed(s) && Linked(s, d) && q in s.probes && s.probes[q] == Probe(d, Ready)
    ensures var run := [Disconnect(d), Commit(q), ReaderExit(s.conns[d].p)];
      && Possible(s, run) && q in Orphans(After(s, run)) && d !in After(s, run).conns
  {
    var p := s.conns[d].p;
    var s1 := Step(s, Disconnect(d));
    var s2 := Step(s1, Commit(q));
    var s3 := Step(s2, ReaderExit(p));
    StepWellFormed(s, Disconnect(d));
    StepWellFormed(s1, Commit(q));
    StepWellFormed(s2, ReaderExit(p));
    WithoutLink(s3, q);
    hide WellFormed, Orphans;
    OneStep(s, Disconnect(d));
    Then(s, [Disconnect(d)], Commit(q));
    Then(s, [Disconnect(d)] + [Commit(q)], ReaderExit(p));
    assert [Disconnect(d)] + [Commit(q)] + [ReaderExit(p)] == [Disconnect(d), Commit(q), ReaderExit(p)];
  }

  /** Such a state is reached from the start by two candidates of one drone. */
  lemma RivalsMeet(d: int)
    ensures var run := Approach(0, d) + Approach(1, d) + [Commit(0)];
      && Possible(Empty, run)
      && var s := After(Empty, run); WellFormed(s) && Accounted(s) && s.conns == map[d := Link(0)] && 1 in s.probes && s.probes[1] == Probe(d, Ready)
  {
    hide Possible, After, Approach;
    ApproachReady(Empty, 0, d);
    var s1 := Approached(Empty, 0, d);
    ApproachReady(s1, 1, d);
    Compose(Empty, Approach(0, d), Approach(1, d));
    var s2 := Approached(s1, 1, d);
    Then(Empty, Approach(0, d) + Approach(1, d), Commit(0));
    var s := Step(s2, Commit(0));
    assert Linked(s, d);
    RegisteredIs(s, 0);
    assert Held(s) == {1};
    assert Registered(s) == {0};
  }

  /** Deleting a connected drone: the detach hides its link from the disconnect, and no later event closes it but by chance. */
  lemma DetachLeaks(s: State, d: int)
    requires WellFormed(s) && Linked(s, d)
    ensures var run := [Detach(d), Disconnect(d), ReaderExit(s.conns[d].p)];
      && Possible(s, run) && s.conns[d].p in Orphans(After(s, run)) && s.conns[d].p !in After(s, run).readers
  {
    var p := s.conns[d].p;
    var s1 := Step(s, Detach(d));
    var s2 := Step(s1, Disconnect(d));
    var s3 := Step(s2, ReaderExit(p));
    StepWellFormed(s, Detach(d));
    StepWellFormed(s1, Disconnect(d));
    StepWellFormed(s2, ReaderExit(p));
    WithoutLink(s3, p);
    hide WellFormed, Orphans;
    OneStep(s, Detach(d));
    Then(s, [Detach(d)], Disconnect(d));
    Then(s, [Detach(d)] + [Disconnect(d)], ReaderExit(p));
    assert [Detach(d)] + [Disconnect(d)] + [ReaderExit(p)] == [Detach(d), Disconnect(d), ReaderExit(p)];
  }

  /** Simulating a connected drone orphans its link; when that link's read loop ends, the simulation is unregistered. */
  lemma AttachLeaks(s: State, d: int)
    requires WellFormed(s) && Linked(s, d)
    ensures s.conns[d].p in Orphans(Step(s, Attach(d))) && Step(s, Attach(d)).conns[d] == Simulated
    ensures var s' := Step(s, Attach(d)); Enabled(s', ReaderExit(s.conns[d].p)) && d !in Step(s', ReaderExit(s.conns[d].p)).conns
  {
    StepWellFormed(s, Attach(d));
    WithoutLink(Step(s, Attach(d)), s.conns[d].p);
  }
}
