/**
 * Concurrent connection attempts and the registry they share with simulated flights. Every await
 * of `connect` ends a step; a probe and the socket it opens share a number. The two locked
 * sections contain no suspension point, so each is a step.
 */
module ConnectRace {

  datatype Option<+T> = None | Some(value: T)

  datatype Phase =
    | Fresh                                // created, not yet past the pre-check
    | Opening                              // waiting for the executor to open the link
    | Waiting                              // link open, waiting for a heartbeat
    | Ready                                // heartbeat seen, about to commit
    | Finished(ok: bool, committed: bool)  // connect() returned ok
    | Abandoned                            // cancelled while the executor was opening the link
    | Cancelled

  datatype Probe = Probe(drone: int, phase: Phase)

  /** What is registered for a drone: the link of a probe, or a simulated flight without a socket. */
  datatype Entry = Link(p: nat) | Simulated

  /** `conns` is the registry, `readers` the connections whose read loop still runs. */
  datatype State = State(conns: map<int, Entry>, sockets: set<nat>, probes: map<nat, Probe>, readers: set<nat>)

  datatype Event =
    | Spawn(p: nat, drone: int)
    | PreCheck(p: nat)
    | Opened(p: nat, ok: bool)
    | Heartbeat(p: nat, ok: bool)   // not ok: timeout or any exception up to the commit
    | Commit(p: nat)
    | Cancel(p: nat)
    | Disconnect(drone: int)
    | ReaderExit(p: nat)
    | Attach(drone: int)            // a simulated flight starts
    | Detach(drone: int)            // a simulated flight ends, or the drone is being deleted

  const Empty := State(map[], {}, map[], {})

  predicate Unfinished(ph: Phase) {
    ph.Fresh? || ph.Opening? || ph.Waiting? || ph.Ready?
  }

  predicate Enabled(s: State, e: Event) {
    match e
    case Spawn(p, _) => p !in s.probes
    case PreCheck(p) => p in s.probes && s.probes[p].phase.Fresh?
    case Opened(p, _) => p in s.probes && (s.probes[p].phase.Opening? || s.probes[p].phase.Abandoned?)
    case Heartbeat(p, _) => p in s.probes && s.probes[p].phase.Waiting?
    case Commit(p) => p in s.probes && s.probes[p].phase.Ready?
    case Cancel(p) => p in s.probes && Unfinished(s.probes[p].phase)
    case ReaderExit(p) => p in s.readers && p in s.probes
    case _ => true
  }

  function Move(s: State, p: nat, ph: Phase): State
    requires p in s.probes
  {
    s.(probes := s.probes[p := s.probes[p].(phase := ph)])
  }

  predicate Linked(s: State, d: int) {
    d in s.conns && s.conns[d].Link?
  }

  function Step(s: State, e: Event): State
    requires Enabled(s, e)
  {
    match e
    case Spawn(p, d) => s.(probes := s.probes[p := Probe(d, Fresh)])
    case PreCheck(p) =>
      if s.probes[p].drone in s.conns then Move(s, p, Finished(true, false)) else Move(s, p, Opening)
    case Opened(p, ok) =>
      var next := if s.probes[p].phase.Abandoned? then Cancelled else if ok then Waiting else Finished(false, false);
      if ok then Move(s, p, next).(sockets := s.sockets + {p}) else Move(s, p, next)
    case Heartbeat(p, ok) =>
      if ok then Move(s, p, Ready)
      else Move(s, p, Finished(false, false)).(sockets := s.sockets - {p})
    case Commit(p) =>
      var d := s.probes[p].drone;
      if d in s.conns then Move(s, p, Finished(false, false)).(sockets := s.sockets - {p})
      else Move(s, p, Finished(true, true)).(conns := s.conns[d := Link(p)], readers := s.readers + {p})
    case Cancel(p) =>
      if s.probes[p].phase.Opening? then Move(s, p, Abandoned)
      else Move(s, p, Cancelled).(sockets := s.sockets - {p})
    case Disconnect(d) =>
      if Linked(s, d) then s.(conns := s.conns - {d}, sockets := s.sockets - {s.conns[d].p})
      else s.(conns := s.conns - {d})
    case ReaderExit(p) =>
      // the clean-up looks the drone up again and removes whatever is registered for it
      var d := s.probes[p].drone;
      var s' := s.(readers := s.readers - {p});
      if d in s.conns then s'.(conns := s.conns - {d}, sockets := s.sockets - {p}) else s'
    case Attach(d) => s.(conns := s.conns[d := Simulated])
    case Detach(d) => s.(conns := s.conns - {d})
  }

  // ----- Invariants -----

  predicate Holds(ph: Phase) {
    ph.Waiting? || ph.Ready?
  }

  /** Sockets of probes still at work. */
  ghost function Held(s: State): set<nat> {
    set p | p in s.probes && Holds(s.probes[p].phase)
  }

  ghost function Registered(s: State): set<nat> {
    set d | d in s.conns && s.conns[d].Link? :: s.conns[d].p
  }

  /** Open sockets that belong to neither. */
  ghost function Orphans(s: State): set<nat> {
    s.sockets - Held(s) - Registered(s)
  }

  /** Sockets of cancelled probes: their links opened after the cancellation. */
  ghost function Dropped(s: State): set<nat> {
    set p | p in s.sockets && p in s.probes && s.probes[p].phase.Cancelled?
  }

  /** The open sockets are exactly those of unfinished probes plus the registered ones. */
  ghost predicate Accounted(s: State) {
    s.sockets == Held(s) + Registered(s)
  }

  ghost predicate WellFormed(s: State) {
    && (forall d :: Linked(s, d) ==>
          && s.conns[d].p in s.probes && s.conns[d].p in s.readers && s.conns[d].p in s.sockets
          && s.probes[s.conns[d].p] == Probe(d, Finished(true, true)))
    && (forall p :: p in s.readers ==> p in s.probes && s.probes[p].phase == Finished(true, true))
    && (forall p :: p in s.probes && Holds(s.probes[p].phase) ==> p in s.sockets)
    && (forall p :: p in s.sockets ==>
          && p in s.probes
          && (Holds(s.probes[p].phase) || s.probes[p].phase.Cancelled? || s.probes[p].phase == Finished(true, true)))
  }

  lemma ProbeStepWellFormed(s: State, e: Event)
    requires WellFormed(s) && Enabled(s, e)
    requires e.PreCheck? || e.Opened? || e.Heartbeat? || e.Commit? || e.Cancel?
    ensures WellFormed(Step(s, e))
  {
  }

  lemma StepWellFormed(s: State, e: Event)
    requires WellFormed(s) && Enabled(s, e)
    ensures WellFormed(Step(s, e))
  {
    if e.PreCheck? || e.Opened? || e.Heartbeat? || e.Commit? || e.Cancel? {
      ProbeStepWellFormed(s, e);
    }
  }

  /** A registration ends or is replaced exactly by these events; no probe ever takes one over. */
  predicate Ends(s: State, e: Event, d: int)
    requires Enabled(s, e) && d in s.conns
  {
    e == Disconnect(d) || e == Detach(d) || (e == Attach(d) && s.conns[d].Link?)
    || (e.ReaderExit? && s.probes[e.p].drone == d)
  }

  lemma RegistrationEndsIff(s: State, e: Event, d: int)
    requires Enabled(s, e) && d in s.conns
    ensures d in Step(s, e).conns && Step(s, e).conns[d] == s.conns[d] <==> !Ends(s, e, d)
  {
  }

  // ----- What connect() answers -----

  /**
   * A drone that is registered is never probed: the check answers success at once. Any other
   * answer comes from the probe itself: success when it registered its own link, failure when the
   * link did not open, no heartbeat came, or somebody else registered the drone meanwhile.
   */
  lemma AnswerIff(s: State, e: Event, p: nat)
    requires Enabled(s, e) && p in s.probes && !s.probes[p].phase.Finished?
    ensures var d, ph := s.probes[p].drone, Step(s, e).probes[p].phase;
      && (ph.Finished? && ph.ok <==> (e == PreCheck(p) && d in s.conns) || (e == Commit(p) && d !in s.conns))
      && (ph.Finished? && !ph.ok <==>
            || (e == Opened(p, false) && !s.probes[p].phase.Abandoned?)
            || e == Heartbeat(p, false) || (e == Commit(p) && d in s.conns))
      && (ph.Finished? && ph.committed <==> e == Commit(p) && d !in s.conns)
      && (ph.Finished? && ph.committed ==> d in Step(s, e).conns && Step(s, e).conns[d] == Link(p))
      && (ph.Finished? && ph.ok ==> d in Step(s, e).conns)
  {
  }

  // ----- Sockets without an owner -----

  /** A link opens for a probe that was cancelled meanwhile. */
  predicate LateOpening(s: State, e: Event) {
    e.Opened? && e.ok && e.p in s.probes && s.probes[e.p].phase.Abandoned?
  }

  /** The link this event takes out of the registry without closing its socket. */
  function Lost(s: State, e: Event): Option<nat> {
    if e.Attach? || e.Detach? then if Linked(s, e.drone) then Some(s.conns[e.drone].p) else None
    else if e.ReaderExit? && e.p in s.probes && Linked(s, s.probes[e.p].drone) && s.conns[s.probes[e.p].drone] != Link(e.p)
    then Some(s.conns[s.probes[e.p].drone].p)
    else None
  }

  predicate LinkLost(s: State, e: Event) {
    Lost(s, e).Some?
  }

  /** What an event does to the set of ownerless sockets. */
  ghost function OrphansNext(s: State, e: Event): set<nat>
    requires Enabled(s, e)
  {
    var closed := if e.ReaderExit? && s.probes[e.p].drone in s.conns then {e.p} else {};
    var lost := if LinkLost(s, e) then {Lost(s, e).value} else {};
    var late := if LateOpening(s, e) then {e.p} else {};
    Orphans(s) - closed + lost + late
  }

  lemma MovedHeld(s: State, p: nat, ph: Phase)
    requires p in s.probes
    ensures Held(Move(s, p, ph)) == if Holds(ph) then Held(s) + {p} else Held(s) - {p}
  {
  }

  lemma RegisteredIs(s: State, p: nat)
    ensures p in Registered(s) <==> exists d :: Linked(s, d) && s.conns[d].p == p
  {
    if d :| Linked(s, d) && s.conns[d].p == p {
      assert d in s.conns && s.conns[d].Link?;
    }
  }

  lemma RegisteredPhase(s: State, p: nat)
    requires WellFormed(s) && p in Registered(s)
    ensures p in s.probes && s.probes[p].phase == Finished(true, true)
    ensures s.probes[p].drone in s.conns && s.conns[s.probes[p].drone] == Link(p)
  {
    RegisteredIs(s, p);
    var d :| Linked(s, d) && s.conns[d].p == p;
  }

  function LinkAt(s: State, d: int): set<nat> {
    if Linked(s, d) then {s.conns[d].p} else {}
  }

  lemma StillRegistered(s: State, t: State, d: int, x: nat)
    requires WellFormed(s) && t.conns == s.conns - {d}
    ensures x in Registered(t) <==> x in Registered(s) && x !in LinkAt(s, d)
  {
    RegisteredIs(s, x);
    RegisteredIs(t, x);
    if x in Registered(s) {
      RegisteredPhase(s, x);
      assert Linked(t, s.probes[x].drone) <==> s.probes[x].drone != d;
    }
    assert forall k :: Linked(t, k) <==> Linked(s, k) && k != d;
  }

  lemma NowRegistered(s: State, t: State, d: int, x: nat)
    requires d !in s.conns && t.conns.Keys == s.conns.Keys + {d}
    requires forall k :: k in s.conns ==> t.conns[k] == s.conns[k]
    ensures x in Registered(t) <==> x in Registered(s) || x in LinkAt(t, d)
  {
    RegisteredIs(s, x);
    RegisteredIs(t, x);
    if k :| Linked(s, k) && s.conns[k].p == x {
      assert Linked(t, k) && t.conns[k].p == x;
    }
    assert forall k :: Linked(t, k) && k != d ==> Linked(s, k) && t.conns[k] == s.conns[k];
  }

  /** Registered links depend on the registry alone. */
  lemma SameRegistered(s: State, t: State)
    requires s.conns == t.conns
    ensures Registered(s) == Registered(t)
  {
  }

  lemma ProbeOrphans(s: State, e: Event)
    requires WellFormed(s) && Enabled(s, e)
    requires e.PreCheck? || e.Opened? || e.Heartbeat? || e.Commit? || e.Cancel?
    ensures Orphans(Step(s, e)) == OrphansNext(s, e)
  {
    var p := e.p;
    var s' := Step(s, e);
    if p in Registered(s) { RegisteredPhase(s, p); }
    MovedHeld(s, p, s'.probes[p].phase);
    SameHeld(s', Move(s, p, s'.probes[p].phase));
    if e.Commit? && s.probes[p].drone !in s.conns {
      forall x {
        NowRegistered(s, s', s.probes[p].drone, x);
      }
    } else {
      SameRegistered(s', s);
    }
    hide Held, Registered;
  }

  lemma SameHeld(s: State, t: State)
    requires s.probes == t.probes
    ensures Held(s) == Held(t)
  {
  }

  lemma RegistryOrphans(s: State, e: Event)
    requires WellFormed(s) && Enabled(s, e) && (e.Disconnect? || e.ReaderExit? || e.Attach? || e.Detach?)
    ensures Orphans(Step(s, e)) == OrphansNext(s, e)
  {
    var s' := Step(s, e);
    var d := if e.ReaderExit? then s.probes[e.p].drone else e.drone;
    var without := s.(conns := s.conns - {d});
    SameHeld(s', s);
    forall x {
      StillRegistered(s, without, d, x);
    }
    OwnedOpen(s, d);
    if e.Attach? {
      forall x {
        NowRegistered(without, s', d, x);
      }
    } else if e.ReaderExit? && d !in s.conns {
      SameRegistered(s', s);
    } else {
      SameRegistered(s', without);
    }
    if e.ReaderExit? { ReaderOwns(s, e.p); }
    hide Held, Registered;
  }

  lemma OwnedOpen(s: State, d: int)
    requires WellFormed(s)
    ensures Linked(s, d) ==> s.conns[d].p in s.sockets && s.conns[d].p in Registered(s) && s.conns[d].p !in Held(s)
  {
    if Linked(s, d) {
      RegisteredIs(s, s.conns[d].p);
    }
  }

  /** A running reader's link is held by no probe, and registered only for its own drone. */
  lemma ReaderOwns(s: State, p: nat)
    requires WellFormed(s) && p in s.readers
    ensures p in s.probes && p !in Held(s)
    ensures p in Registered(s) ==> Linked(s, s.probes[p].drone) && s.conns[s.probes[p].drone] == Link(p)
  {
    if p in Registered(s) { RegisteredPhase(s, p); }
  }

  /** The ownerless sockets after any event are exactly those the event leaves, loses or opens late. */
  lemma StepOrphans(s: State, e: Event)
    requires WellFormed(s) && Enabled(s, e)
    ensures Orphans(Step(s, e)) == OrphansNext(s, e)
  {
    if e.Spawn? {
      assert Held(Step(s, e)) == Held(s);
      SameRegistered(Step(s, e), s);
    } else if e.Disconnect? || e.ReaderExit? || e.Attach? || e.Detach? {
      RegistryOrphans(s, e);
    } else {
      ProbeOrphans(s, e);
    }
  }

  lemma OwnedAreOpen(s: State)
    requires WellFormed(s)
    ensures Held(s) <= s.sockets && Registered(s) <= s.sockets
  {
    forall p | p in Registered(s)
      ensures p in s.sockets
    {
      RegisteredIs(s, p);
    }
  }

  lemma AccountedMeansNoOrphans(s: State)
    requires WellFormed(s)
    ensures Accounted(s) <==> Orphans(s) == {}
  {
    OwnedAreOpen(s);
    hide Held, Registered;
    assert s.sockets == Held(s) + Registered(s) + Orphans(s);
  }

  predicate Leaks(s: State, e: Event) {
    LateOpening(s, e) || LinkLost(s, e)
  }

  lemma OrphansAppearIff(s: State, e: Event)
    requires Enabled(s, e) && Orphans(s) == {}
    ensures OrphansNext(s, e) == {} <==> !Leaks(s, e)
  {
    assert LateOpening(s, e) ==> e.p in OrphansNext(s, e);
    assert LinkLost(s, e) ==> Lost(s, e).value in OrphansNext(s, e);
  }

  /**
   * Socket accounting survives a step unless a link opens late, a simulated flight is attached to or
   * detached from a drone with a link, or a read loop ends while another link of its drone is
   * registered; each of these breaks it.
   */
  lemma StepAccountedIff(s: State, e: Event)
    requires WellFormed(s) && Accounted(s) && Enabled(s, e)
    ensures Accounted(Step(s, e)) <==> !Leaks(s, e)
  {
    hide Accounted, Orphans, OrphansNext, Step, Enabled, WellFormed, Leaks;
    StepWellFormed(s, e);
    AccountedMeansNoOrphans(s);
    AccountedMeansNoOrphans(Step(s, e));
    StepOrphans(s, e);
    OrphansAppearIff(s, e);
  }

  /** An ownerless socket is closed only by its own read loop, and only while its drone is registered. */
  lemma OrphanClosesIff(s: State, e: Event, p: nat)
    requires WellFormed(s) && Enabled(s, e) && p in Orphans(s)
    ensures p !in Step(s, e).sockets <==> e == ReaderExit(p) && s.probes[p].drone in s.conns
  {
    if Linked(s, s.probes[p].drone) { RegisteredIs(s, p); }
    if e.Disconnect? && Linked(s, e.drone) { RegisteredIs(s, s.conns[e.drone].p); }
  }

  /** Late links pile up: none of them is ever closed, and only a late opening adds one. */
  lemma StepDropped(s: State, e: Event)
    requires WellFormed(s) && Enabled(s, e)
    ensures Dropped(Step(s, e)) == if LateOpening(s, e) then Dropped(s) + {e.p} else Dropped(s)
    ensures LateOpening(s, e) ==> e.p !in Dropped(s)
  {
    forall p | p in Dropped(s)
      ensures p in Step(s, e).sockets
    {
      if p in Registered(s) { RegisteredPhase(s, p); }
      OrphanClosesIff(s, e, p);
    }
  }

  /** No link is registered while a read loop of an earlier link of its drone still runs. */
  ghost predicate Prompt(s: State) {
    forall p :: p in s.readers && p in s.probes && Linked(s, s.probes[p].drone) ==> s.conns[s.probes[p].drone] == Link(p)
  }

  // ----- The manager object -----

  class ConnectionManager {
    var conns: map<int, Entry>
    var sockets: set<nat>
    var probes: map<nat, Probe>
    var readers: set<nat>

    function View(): State
      reads this
    {
      State(conns, sockets, probes, readers)
    }

    constructor ()
      ensures View() == Empty && WellFormed(View()) && Accounted(View()) && Prompt(View())
    {
      conns, sockets, probes, readers := map[], {}, map[], {};
    }

    method Start(p: nat, drone: int)
      requires p !in probes
      modifies this
      ensures View() == Step(old(View()), Spawn(p, drone))
    {
      probes := probes[p := Probe(drone, Fresh)];
    }

    /** First locked section: report success at once when the drone is connected already. */
    method Check(p: nat) returns (already: bool)
      requires Enabled(View(), PreCheck(p))
      modifies this
      ensures View() == Step(old(View()), PreCheck(p))
      ensures already <==> old(probes[p].drone in conns)
      ensures already <==> probes[p].phase == Finished(true, false)
    {
      already := probes[p].drone in conns;
      probes := probes[p := probes[p].(phase := if already then Finished(true, false) else Opening)];
    }

    method LinkOpened(p: nat, ok: bool)
      requires Enabled(View(), Opened(p, ok))
      modifies this
      ensures View() == Step(old(View()), Opened(p, ok))
    {
      if ok { sockets := sockets + {p}; }
      var next := if probes[p].phase.Abandoned? then Cancelled else if ok then Waiting else Finished(false, false);
      probes := probes[p := probes[p].(phase := next)];
    }

    method FirstHeartbeat(p: nat, ok: bool)
      requires Enabled(View(), Heartbeat(p, ok))
      modifies this
      ensures View() == Step(old(View()), Heartbeat(p, ok))
    {
      if !ok { sockets := sockets - {p}; }
      probes := probes[p := probes[p].(phase := if ok then Ready else Finished(false, false))];
    }

    /** Second locked section: register unless the drone got registered meanwhile. */
    method TryCommit(p: nat) returns (won: bool)
      requires Enabled(View(), Commit(p)) && WellFormed(View())
      modifies this
      ensures View() == Step(old(View()), Commit(p)) && WellFormed(View())
      ensures won <==> probes[p].drone in conns && conns[probes[p].drone] == Link(p)
    {
      StepWellFormed(View(), Commit(p));
      var d := probes[p].drone;
      won := d !in conns;
      if won {
        conns := conns[d := Link(p)];
        readers := readers + {p};
      } else {
        sockets := sockets - {p};
      }
      probes := probes[p := probes[p].(phase := Finished(won, won))];
    }

    method CancelProbe(p: nat)
      requires Enabled(View(), Cancel(p))
      modifies this
      ensures View() == Step(old(View()), Cancel(p))
    {
      if probes[p].phase.Opening? {
        probes := probes[p := probes[p].(phase := Abandoned)];
      } else {
        sockets := sockets - {p};
        probes := probes[p := probes[p].(phase := Cancelled)];
      }
    }

    method DisconnectDrone(d: int)
      modifies this
      ensures View() == Step(old(View()), Disconnect(d))
    {
      if d !in conns {
        assert conns - {d} == conns;
        return;
      }
      if conns[d].Link? { sockets := sockets - {conns[d].p}; }
      conns := conns - {d};
    }

    /** Clean-up of a read loop: the connection it removes is the one registered now. */
    method ReaderStopped(p: nat)
      requires Enabled(View(), ReaderExit(p))
      modifies this
      ensures View() == Step(old(View()), ReaderExit(p))
    {
      readers := readers - {p};
      var d := probes[p].drone;
      if d in conns {
        sockets := sockets - {p};
        conns := conns - {d};
      }
    }

    /** Registers a simulated flight over whatever is there. */
    method AttachSimulation(d: int)
      modifies this
      ensures View() == Step(old(View()), Attach(d))
    {
      conns := conns[d := Simulated];
    }

    /** Removes whatever is registered and closes nothing. */
    method DetachSimulation(d: int)
      modifies this
      ensures View() == Step(old(View()), Detach(d))
    {
      conns := conns - {d};
    }
  }
}
