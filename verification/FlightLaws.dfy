/** What a simulated flight gets done: landings land, climbs climb, the way home ends at home. */
module FlightLaws {
  import opened FlightModel

  /** Ticks after the end of any manual override. */
  ghost predicate Undisturbed(f: Flight, run: seq<Event>) {
    forall i :: 0 <= i < |run| ==> run[i].Step? && run[i].now > f.manualUntil
  }

  /** `n` times `rate` metres, at the flight's time compression. */
  function Travelled(rate: real, f: Flight, n: nat): real {
    rate * f.speedMult * n as real
  }

  lemma OneTickMore(rate: real, f: Flight, n: nat)
    ensures Travelled(rate, f, n + 1) == Travelled(rate, f, n) + rate * f.speedMult
    ensures Travelled(rate, f, 0) == 0.0
  {
    assert (n + 1) as real == n as real + 1.0;
  }

  // ----- Landing -----

  lemma LandingTick(g: Geo, f: Flight, now: real, others: Option<seq<Other>>)
    requires Inv(f) && f.phase.Landing? && now > f.manualUntil
    ensures var f' := Tick(g, f, TICK, now, others).f;
      && f'.manualUntil == f.manualUntil && f'.speedMult == f.speedMult
      && if f.alt - 0.15 * f.speedMult > 0.05
         then f'.phase.Landing? && f'.alt == f.alt - 0.15 * f.speedMult
         else f'.phase.Landed? && !f'.isArmed && f'.alt == 0.0
  {
    hide Avoided;
  }

  lemma LandedTick(g: Geo, f: Flight, now: real, others: Option<seq<Other>>)
    requires Inv(f) && f.phase.Landed? && now > f.manualUntil
    ensures Tick(g, f, TICK, now, others).f == f.(vx := 0.0, vy := 0.0, vz := 0.0)
  {
    hide Avoided;
  }

  lemma {:induction false} StaysLanded(g: Geo, f: Flight, run: seq<Event>)
    requires g.Valid() && Inv(f) && f.phase.Landed? && Undisturbed(f, run)
    ensures var f' := After(g, f, run); f'.phase.Landed? && f'.isArmed == f.isArmed && f'.alt == f.alt
    decreases |run|
  {
    if run != [] {
      hide Tick;
      LandedTick(g, f, run[0].now, run[0].others);
      EventKeeps(g, f, run[0]);
      StaysLanded(g, After1(g, f, run[0]), run[1..]);
    }
  }

  /** Landing sinks 15 cm a tick, scaled, until at most 5 cm are left; then the flight is landed for good. */
  lemma {:induction false} LandingLands(g: Geo, f: Flight, run: seq<Event>)
    requires g.Valid() && Inv(f) && f.phase.Landing? && Undisturbed(f, run)
    ensures var f' := After(g, f, run);
      if run == [] || f.alt - Travelled(0.15, f, |run|) > 0.05
      then f'.phase.Landing? && f'.alt == f.alt - Travelled(0.15, f, |run|)
      else f'.phase.Landed? && !f'.isArmed && f'.alt == 0.0
    decreases |run|
  {
    hide Tick, Travelled;
    OneTickMore(0.15, f, 0);
    if run != [] {
      OneTickMore(0.15, f, |run| - 1);
      LandingTick(g, f, run[0].now, run[0].others);
      EventKeeps(g, f, run[0]);
      var f' := After1(g, f, run[0]);
      SameTravel(0.15, f, f', |run| - 1);
      TravelGrows(0.15, f, |run| - 1);
      if f'.phase.Landing? {
        LandingLands(g, f', run[1..]);
        OneTickMore(0.15, f', 0);
      } else {
        StaysLanded(g, f', run[1..]);
      }
    }
  }

  lemma SameTravel(rate: real, f: Flight, f': Flight, n: nat)
    requires f'.speedMult == f.speedMult
    ensures Travelled(rate, f', n) == Travelled(rate, f, n)
  {
  }

  lemma TravelGrows(rate: real, f: Flight, n: nat)
    requires rate >= 0.0 && Inv(f)
    ensures Travelled(rate, f, n) >= 0.0
  {
    assert rate * f.speedMult >= 0.0;
  }

  /** The command `land`, whatever the flight was doing. */
  lemma LandCommandLands(g: Geo, f: Flight, now: real, run: seq<Event>)
    requires g.Valid() && Inv(f) && Undisturbed(f, run)
    ensures Inv(Handled(f, Land, now))
    ensures var f' := After(g, Handled(f, Land, now), run);
      && f'.alt <= Max(f.alt, 0.0)
      && (run != [] && f.alt - Travelled(0.15, f, |run|) <= 0.05 ==> f'.phase.Landed? && !f'.isArmed && f'.alt == 0.0)
  {
    HandledKeeps(f, Land, now);
    var f' := Handled(f, Land, now);
    assert f' == f.(phase := Landing);
    hide Handled, Tick, Travelled, After;
    LandingLands(g, f', run);
    SameTravel(0.15, f, f', |run|);
    TravelGrows(0.15, f, |run|);
  }

  // ----- Taking off -----

  /** Undisturbed ticks without other traffic. */
  ghost predicate Quiet(f: Flight, run: seq<Event>) {
    Undisturbed(f, run) && forall i :: 0 <= i < |run| ==> run[i].others == None || run[i].others == Some([])
  }

  /** Without traffic and borrowed altitude, avoidance changes nothing but its flag. */
  lemma NothingToAvoid(g: Geo, f: Flight, others: Option<seq<Other>>)
    requires f.offset == 0.0 && (others == None || others == Some([]))
    ensures Avoided(g, f, TICK, others) == f.(avoiding := if others.Some? then false else f.avoiding)
  {
    QuietAvoidance(g, f);
  }

  ghost predicate ClimbsFreely(f: Flight) {
    f.phase.Takeoff? && f.offset == 0.0 && (f.waypoints == [] || f.wpIdx < |f.waypoints|)
  }

  lemma ClimbTick(g: Geo, f: Flight, now: real, others: Option<seq<Other>>)
    requires Inv(f) && ClimbsFreely(f) && now > f.manualUntil && (others == None || others == Some([]))
    ensures var f' := Tick(g, f, TICK, now, others).f;
      && f'.manualUntil == f.manualUntil && f'.speedMult == f.speedMult && f'.targetAlt == f.targetAlt
      && f'.wpIdx == f.wpIdx
      && if f.alt + 0.25 * f.speedMult < f.targetAlt
         then ClimbsFreely(f') && f'.alt == f.alt + 0.25 * f.speedMult
         else f'.phase.Flying? && f'.alt == f.targetAlt
  {
    var f0 := f.(vx := 0.0, vy := 0.0, vz := 0.0);
    var r := PhaseStep(g, f0, TICK);
    NothingToAvoid(g, r.f, others);
    hide Avoided;
  }

  /** A climb rises 25 cm a tick, scaled; the tick that reaches the target ends on it exactly. */
  lemma {:induction false} ClimbReaches(g: Geo, f: Flight, run: seq<Event>)
    requires g.Valid() && Inv(f) && ClimbsFreely(f) && Quiet(f, run)
    ensures var f' := After(g, f, run);
      && (f.alt + Travelled(0.25, f, |run|) < f.targetAlt ==>
            f'.phase.Takeoff? && f'.alt == f.alt + Travelled(0.25, f, |run|))
      && (run != [] && f.alt + Travelled(0.25, f, |run| - 1) < f.targetAlt <= f.alt + Travelled(0.25, f, |run|) ==>
            f'.phase.Flying? && f'.alt == f.targetAlt && f'.wpIdx == f.wpIdx)
    decreases |run|
  {
    hide Tick, Travelled;
    OneTickMore(0.25, f, 0);
    if run != [] {
      OneTickMore(0.25, f, |run| - 1);
      ClimbTick(g, f, run[0].now, run[0].others);
      EventKeeps(g, f, run[0]);
      var f' := After1(g, f, run[0]);
      SameTravel(0.25, f, f', |run| - 1);
      TravelGrows(0.25, f, |run| - 1);
      if |run| > 1 {
        OneTickMore(0.25, f, |run| - 2);
        SameTravel(0.25, f, f', |run| - 2);
        TravelGrows(0.25, f, |run| - 2);
      }
      if f.alt + 0.25 * f.speedMult < f.targetAlt {
        ClimbReaches(g, f', run[1..]);
      }
    }
  }

  /** The command `takeoff` on the ground: the climb is for the first waypoint's altitude, or the one asked for, or 30 m. */
  lemma TakeoffCommandClimbs(g: Geo, f: Flight, altitude: Option<real>, now: real, run: seq<Event>)
    requires g.Valid() && Inv(f) && (f.phase.Idle? || f.phase.Armed?) && Ready(f) && f.offset == 0.0 && Quiet(f, run)
    ensures Inv(Handled(f, TakeoffTo(altitude), now))
    ensures var wanted := if altitude.Some? then altitude.value else 30.0;
            var target := if f.waypoints != [] && f.waypoints[0].altitude.Some? then f.waypoints[0].altitude.value else wanted;
            run != [] && f.alt + Travelled(0.25, f, |run| - 1) < target <= f.alt + Travelled(0.25, f, |run|) ==>
              var f' := After(g, Handled(f, TakeoffTo(altitude), now), run);
              f'.phase.Flying? && f'.alt == target
  {
    HandledKeeps(f, TakeoffTo(altitude), now);
    var f0 := Handled(f, TakeoffTo(altitude), now);
    ClimbReaches(g, f0, run);
    if run != [] {
      SameTravel(0.25, f, f0, |run|);
      SameTravel(0.25, f, f0, |run| - 1);
    }
    hide After, Travelled;
  }

  // ----- Flying a leg -----

  /** x moved towards y by at most `step`. */
  function Approached(x: real, y: real, step: real): real {
    if y > x + step then x + step else if y < x - step then x - step else y
  }

  /** The leg's tick changes the altitude by at most 40 cm, scaled, towards the waypoint's and never past it. */
  lemma LegAltitude(g: Geo, f: Flight, now: real, others: Option<seq<Other>>)
    requires Inv(f) && f.phase.Flying? && f.wpIdx < |f.waypoints| && f.offset == 0.0 && now > f.manualUntil
    requires others == None || others == Some([])
    ensures var w := f.waypoints[f.wpIdx];
            Tick(g, f, TICK, now, others).f.alt
            == Approached(f.alt, if w.altitude.Some? then w.altitude.value else 30.0, 0.4 * f.speedMult)
  {
    hide Arrived, Mod360, Drained, Speed, Avoided;
    var f0 := f.(vx := 0.0, vy := 0.0, vz := 0.0);
    NothingToAvoid(g, PhaseStep(g, f0, TICK).f, others);
  }

  /** The waypoint counts as reached when it is near or passed and its altitude is within three metres. */
  lemma ArrivesIff(g: Geo, f: Flight, now: real, others: Option<seq<Other>>)
    requires Inv(f) && f.phase.Flying? && f.wpIdx < |f.waypoints| && now > f.manualUntil
    ensures var r := Tick(g, f, TICK, now, others).f;
            var w := f.waypoints[f.wpIdx];
            var moved := Flown(g, f.(vx := 0.0, vy := 0.0, vz := 0.0), TICK).pos;
            var start := if f.legStart.Some? then f.legStart.value else moved;
            var metres := (if w.speed.Some? && w.speed.value != 0.0 then w.speed.value else 10.0) * f.speedMult * 0.1;
            && (r.wpIdx == f.wpIdx + 1 <==>
                  && (g.Dist(f.pos, w.pos) < 3.0 || g.Dist(f.pos, w.pos) < metres || Passed(g, start, w.pos, moved))
                  && -3.0 < (if w.altitude.Some? then w.altitude.value else 30.0) - f.alt < 3.0)
            && (r.phase.Paused? <==> r.wpIdx == |f.waypoints|)
            && (r.phase.Paused? || r.phase.Flying?)
  {
    hide Flown, Passed, Avoided, Reach;
    var f0 := f.(vx := 0.0, vy := 0.0, vz := 0.0);
    FlownKeeps(g, f0, TICK);
    AvoidedKeepsIndex(g, PhaseStep(g, f0, TICK).f, others);
  }

  lemma FlownKeeps(g: Geo, f: Flight, dt: real)
    requires 0 <= f.wpIdx < |f.waypoints|
    ensures var m := Flown(g, f, dt); m.wpIdx == f.wpIdx && m.phase == f.phase && m.waypoints == f.waypoints
  {
    hide Mod360, Clamp, Drained, Reach, Speed;
  }

  lemma AvoidedKeepsIndex(g: Geo, f: Flight, others: Option<seq<Other>>)
    ensures var a := Avoided(g, f, TICK, others); a.wpIdx == f.wpIdx && a.phase == f.phase && a.waypoints == f.waypoints
  {
    hide PushedAll, OffsetDelta, SideStep;
  }

  /**
   * Passing a waypoint: the leg is longer than a metre and the drone is beyond the line through the
   * waypoint across the leg, measured from the waypoint in metres east and north.
   */
  lemma PassedIff(g: Geo, s: Pos, t: Pos, p: Pos)
    ensures var k := 111320.0 * g.Cos(s.lat);
            var east, north := (t.lon - s.lon) * k, (t.lat - s.lat) * 111320.0;
            Passed(g, s, t, p) <==>
              && east * east + north * north > 1.0
              && (p.lon - t.lon) * k * east + (p.lat - t.lat) * 111320.0 * north >= 0.0
  {
    var k := 111320.0 * g.Cos(s.lat);
    var east, north := (t.lon - s.lon) * k, (t.lat - s.lat) * 111320.0;
    var x, y := (p.lon - s.lon) * k, (p.lat - s.lat) * 111320.0;
    assert (p.lon - t.lon) * k == x - east;
    assert (p.lat - t.lat) * 111320.0 == y - north;
    Difference(x, east);
    Difference(y, north);
    assert (p.lat - t.lat) * 111320.0 * north == y * north - north * north;
    assert (p.lon - t.lon) * k * east == x * east - east * east;
  }

  lemma Difference(x: real, e: real)
    ensures (x - e) * e == x * e - e * e
  {
  }

  // ----- The way home -----

  /** Moving along the bearing to a place shortens the distance to it by as much. */
  ghost predicate Straight(g: Geo) {
    && (forall p, q :: g.Dist(p, q) >= 0.0)
    && (forall p, q, s: real :: 0.0 <= s <= g.Dist(p, q) ==> g.Dist(g.Move(p, g.Bearing(p, q), s), q) == g.Dist(p, q) - s)
  }

  ghost predicate Returning(f: Flight, now: real) {
    f.phase.Rtl? && f.offset == 0.0 && now > f.manualUntil
  }

  ghost predicate Home(g: Geo, f: Flight) {
    f.phase.Landed? && !f.isArmed && f.alt == 0.0 && g.Dist(f.pos, f.home) < 5.0
  }

  /** Metres still to go, a metre of altitude counting for what is flown while sinking it. */
  function ToGo(g: Geo, f: Flight): real {
    g.Dist(f.pos, f.home) + Max(f.alt, 0.0) / 0.15
  }

  lemma HomingTick(g: Geo, f: Flight, now: real)
    requires Straight(g) && Inv(f) && Returning(f, now) && f.rtlRoute == []
    ensures var f' := Tick(g, f, TICK, now, Some([])).f;
      Home(g, f') || (Returning(f', now) && f'.rtlRoute == [] && f'.home == f.home && ToGo(g, f') <= ToGo(g, f) - 0.1)
  {
    hide Drained;
    var f0 := f.(vx := 0.0, vy := 0.0, vz := 0.0);
    var r := PhaseStep(g, f0, TICK);
    assert Reach(f0, DESCENT_MS, TICK) == 0.15 * f.speedMult;
    assert Times(Times(CRUISE_MS, f0.speedMult), TICK) == f.speedMult;
    NothingToAvoid(g, r.f, Some([]));
    hide Avoided;
  }

  /** The direct way: towards home at cruise speed, sinking within 50 m of it, down within 5 m and below 2 m. */
  lemma HomingMoves(g: Geo, f: Flight, now: real)
    requires Inv(f) && Returning(f, now) && f.rtlRoute == []
    ensures var r := Tick(g, f, TICK, now, Some([])).f;
            var d := g.Dist(f.pos, f.home);
            if d < 5.0 && f.alt < 2.0 then
              r.phase.Landed? && !r.isArmed && r.alt == 0.0 && r.pos == f.pos
            else
              && r.phase.Rtl? && r.heading == g.Bearing(f.pos, f.home)
              && r.pos == (if d > 2.0 then g.Move(f.pos, r.heading, Min(f.speedMult, d)) else f.pos)
              && r.alt == (if d < 50.0 then Max(0.0, f.alt - 0.15 * f.speedMult) else f.alt)
  {
    hide Drained;
    var f0 := f.(vx := 0.0, vy := 0.0, vz := 0.0);
    var r := PhaseStep(g, f0, TICK);
    assert Reach(f0, DESCENT_MS, TICK) == 0.15 * f.speedMult;
    assert Times(Times(CRUISE_MS, f0.speedMult), TICK) == f.speedMult;
    NothingToAvoid(g, r.f, Some([]));
    hide Avoided;
  }

  /** A retraced point: towards it at cruise speed, altitude alongside; done with within 3 m of it and of its altitude. */
  lemma RouteMoves(g: Geo, f: Flight, now: real)
    requires Inv(f) && Returning(f, now) && f.rtlRoute != [] && f.rtlRoute[0].altitude.Some?
    ensures var r := Tick(g, f, TICK, now, Some([])).f;
            var w := f.rtlRoute[0];
            var d, level := g.Dist(f.pos, w.pos), w.altitude.value;
      && r.phase.Rtl?
      && r.pos == (if d > 1.0 then g.Move(f.pos, g.Bearing(f.pos, w.pos), Min(f.speedMult, d)) else f.pos)
      && r.alt == Approached(f.alt, level, 0.4 * f.speedMult)
      && r.rtlRoute == (if d < 3.0 && -3.0 < level - f.alt < 3.0 then f.rtlRoute[1..] else f.rtlRoute)
  {
    hide Drained, Avoided;
    var f0 := f.(vx := 0.0, vy := 0.0, vz := 0.0);
    assert Times(Times(CRUISE_MS, f0.speedMult), TICK) == f.speedMult;
    assert Reach(f0, 4.0, TICK) == 0.4 * f.speedMult;
  }

  lemma SomeMetres(x: real) returns (n: nat)
    ensures x <= 0.1 * n as real
  {
    n := if x <= 0.0 then 0 else (x / 0.1).Floor + 1;
  }

  lemma {:induction false} HomingEnds(g: Geo, f: Flight, now: real, n: nat) returns (k: nat)
    requires Straight(g) && Inv(f) && Returning(f, now) && f.rtlRoute == [] && ToGo(g, f) <= 0.1 * n as real
    ensures g.Valid() && k <= n + 1 && Home(g, QuietTicks(g, f, now, k))
    decreases n
  {
    hide Tick;
    HomingTick(g, f, now);
    TickKeeps(g, f, TICK, now, Some([]));
    var f' := Tick(g, f, TICK, now, Some([])).f;
    if Home(g, f') {
      k := 1;
      assert QuietTicks(g, f', now, 0) == f';
    } else {
      assert ToGo(g, f') >= 0.0;
      var k' := HomingEnds(g, f', now, n - 1);
      k := k' + 1;
    }
  }

  /** Metres to go on the first leg of the stored route, and metres of altitude. */
  function LegToGo(g: Geo, f: Flight): real
    requires f.rtlRoute != []
  {
    var w := f.rtlRoute[0];
    g.Dist(f.pos, w.pos) + Abs(Altitude(w, f.alt) - f.alt)
  }

  lemma RouteTick(g: Geo, f: Flight, now: real)
    requires Straight(g) && Inv(f) && Returning(f, now) && f.rtlRoute != []
    requires f.rtlRoute[0].altitude.Some?
    ensures var f' := Tick(g, f, TICK, now, Some([])).f;
      && Returning(f', now) && f'.home == f.home
      && (f'.rtlRoute == f.rtlRoute[1..] || (f'.rtlRoute == f.rtlRoute && LegToGo(g, f') <= LegToGo(g, f) - 0.04))
  {
    hide Drained, Avoided;
    var f0 := f.(vx := 0.0, vy := 0.0, vz := 0.0);
    assert Times(Times(CRUISE_MS, f0.speedMult), TICK) == f.speedMult;
    assert Reach(f0, 4.0, TICK) == 0.4 * f.speedMult;
  }

  /** Every stored point of a route carries an altitude, as the retraced waypoints do. */
  ghost predicate Levelled(route: seq<Waypoint>) {
    forall i :: 0 <= i < |route| ==> route[i].altitude.Some?
  }

  lemma {:induction false} RouteEnds(g: Geo, f: Flight, now: real, n: nat) returns (k: nat)
    requires Straight(g) && Inv(f) && Returning(f, now) && Levelled(f.rtlRoute)
    requires f.rtlRoute != [] ==> LegToGo(g, f) <= 0.04 * n as real
    ensures g.Valid() && Home(g, QuietTicks(g, f, now, k))
    decreases |f.rtlRoute|, n
  {
    hide Tick;
    if f.rtlRoute == [] {
      var metres := SomeMetres(ToGo(g, f));
      k := HomingEnds(g, f, now, metres);
    } else {
      RouteTick(g, f, now);
      TickKeeps(g, f, TICK, now, Some([]));
      var f' := Tick(g, f, TICK, now, Some([])).f;
      assert forall i :: 0 <= i < |f.rtlRoute[1..]| ==> f.rtlRoute[1..][i] == f.rtlRoute[i + 1];
      var k': nat;
      if |f'.rtlRoute| < |f.rtlRoute| {
        var metres := if f'.rtlRoute == [] then 0.0 else LegToGo(g, f');
        var n' := SomeMetres(2.5 * metres);
        k' := RouteEnds(g, f', now, n');
      } else {
        assert LegToGo(g, f') >= 0.0;
        k' := RouteEnds(g, f', now, n - 1);
      }
      k := k' + 1;
    }
  }

  /** The command to return, directly or along the visited waypoints: the flight ends landed at home. */
  lemma ReturnEndsHome(g: Geo, f: Flight, shortest: bool, now: real) returns (k: nat)
    requires Straight(g) && Inv(f) && f.offset == 0.0 && now > f.manualUntil
    ensures g.Valid() && Inv(Handled(f, ReturnHome(shortest), now))
    ensures Home(g, QuietTicks(g, Handled(f, ReturnHome(shortest), now), now, k))
  {
    HandledKeeps(f, ReturnHome(shortest), now);
    var f' := Handled(f, ReturnHome(shortest), now);
    var n := if f'.rtlRoute == [] then 0 else SomeLeg(g, f');
    k := RouteEnds(g, f', now, n);
  }

  function SomeLeg(g: Geo, f: Flight): (n: nat)
    requires f.rtlRoute != []
    ensures LegToGo(g, f) <= 0.04 * n as real
  {
    var x := LegToGo(g, f);
    if x <= 0.0 then 0 else (x / 0.04).Floor + 1
  }

  // ----- A leg flown on course -----

  lemma WholeTurns(x: real, k: int)
    ensures Mod360(x + 360.0 * k as real) == Mod360(x)
  {
    assert (x + 360.0 * k as real) / 360.0 == x / 360.0 + k as real;
    FloorPlus(x / 360.0, k);
  }

  lemma FloorPlus(x: real, k: int)
    ensures (x + k as real).Floor == x.Floor + k
  {
  }

  /** The signed angle from one heading to another, at most half a turn. */
  function Turning(from: real, to: real): real {
    Mod360(to - from + 180.0) - 180.0
  }

  lemma TurningReaches(from: real, to: real)
    ensures -180.0 <= Turning(from, to) < 180.0 && Mod360(from + Turning(from, to)) == Mod360(to)
  {
    var x := to - from + 180.0;
    var k := (x / 360.0).Floor;
    assert Turning(from, to) == to - from - 360.0 * k as real;
    WholeTurns(to, -k);
    assert from + Turning(from, to) == to + 360.0 * (-k) as real;
  }

  /** The heading turns the shorter way, at most 2.5 degrees a tick, scaled; a smaller turn ends on the bearing. */
  lemma LegTurns(g: Geo, f: Flight, now: real, others: Option<seq<Other>>)
    requires Inv(f) && f.phase.Flying? && f.wpIdx < |f.waypoints| && now > f.manualUntil
    ensures var w := f.waypoints[f.wpIdx].pos;
            var course := if g.Dist(f.pos, w) > 0.5 then g.Bearing(f.pos, w) else f.heading;
            var angle := Turning(f.heading, course);
            var heading := Tick(g, f, TICK, now, others).f.heading;
            && heading == Mod360(f.heading + Approached(0.0, angle, 2.5 * f.speedMult))
            && (-2.5 * f.speedMult <= angle <= 2.5 * f.speedMult ==> heading == Mod360(course))
  {
    hide Mod360, Arrived, Drained, Speed, Altitude;
    var f0 := f.(vx := 0.0, vy := 0.0, vz := 0.0);
    assert Reach(f0, 25.0, TICK) == 2.5 * f.speedMult;
    var w := f.waypoints[f.wpIdx].pos;
    var course := if g.Dist(f.pos, w) > 0.5 then g.Bearing(f.pos, w) else f.heading;
    TurningReaches(f.heading, course);
    HeadingKept(g, PhaseStep(g, f0, TICK).f, others);
    hide Avoided;
  }

  lemma HeadingKept(g: Geo, f: Flight, others: Option<seq<Other>>)
    ensures Avoided(g, f, TICK, others).heading == f.heading
  {
    hide PushedAll, OffsetDelta, SideStep;
  }

  /** The drone flies along its new heading, as far as its speed allows and never past the waypoint; within a metre it stays. */
  lemma LegMoves(g: Geo, f: Flight, now: real, others: Option<seq<Other>>)
    requires Inv(f) && f.phase.Flying? && f.wpIdx < |f.waypoints| && f.offset == 0.0 && now > f.manualUntil
    requires others == None || others == Some([])
    ensures var w := f.waypoints[f.wpIdx];
            var d := g.Dist(f.pos, w.pos);
            var speed := if w.speed.Some? && w.speed.value != 0.0 then w.speed.value else 10.0;
            var r := Tick(g, f, TICK, now, others).f;
            r.pos == if d > 1.0 then g.Move(f.pos, r.heading, Min(speed * f.speedMult * 0.1, d)) else f.pos
  {
    hide Mod360, Arrived, Drained, Altitude, Clamp, Reach;
    var f0 := f.(vx := 0.0, vy := 0.0, vz := 0.0);
    NothingToAvoid(g, PhaseStep(g, f0, TICK).f, others);
    hide Avoided;
  }

  /** Flying towards a place does not change the bearing to it. */
  ghost predicate KeepsCourse(g: Geo) {
    && (forall p, q :: 0.0 <= g.Bearing(p, q) < 360.0)
    && (forall p, q, s: real :: 0.0 <= s < g.Dist(p, q) ==> g.Bearing(g.Move(p, g.Bearing(p, q), s), q) == g.Bearing(p, q))
  }

  ghost predicate OnCourse(g: Geo, f: Flight, now: real) {
    && f.phase.Flying? && 0 <= f.wpIdx < |f.waypoints| && f.offset == 0.0 && now > f.manualUntil
    && 0.0 <= f.heading < 360.0
    && Speed(f.waypoints[f.wpIdx]) > 0.0
    && var w := f.waypoints[f.wpIdx].pos;
       g.Dist(f.pos, w) > 0.5 ==> f.heading == g.Bearing(f.pos, w)
  }

  function MissionToGo(g: Geo, f: Flight): real
    requires 0 <= f.wpIdx < |f.waypoints|
  {
    var w := f.waypoints[f.wpIdx];
    g.Dist(f.pos, w.pos) + Abs(Altitude(w, 30.0) - f.alt)
  }

  /** What a tick flies on this leg at most. */
  function Metres(f: Flight): real
    requires 0 <= f.wpIdx < |f.waypoints|
  {
    Speed(f.waypoints[f.wpIdx]) * f.speedMult * 0.1
  }

  function Pace(f: Flight): real
    requires 0 <= f.wpIdx < |f.waypoints|
  {
    Min(0.04, Metres(f))
  }

  lemma StraightOn(h: real)
    requires 0.0 <= h < 360.0
    ensures Turning(h, h) == 0.0 && Mod360(h) == h
  {
  }

  lemma LegPosition(g: Geo, f: Flight, now: real)
    requires Inv(f) && OnCourse(g, f, now)
    ensures var r := Tick(g, f, TICK, now, Some([])).f;
            var w := f.waypoints[f.wpIdx];
            var d := g.Dist(f.pos, w.pos);
            && r.heading == f.heading
            && r.pos == (if d > 1.0 then g.Move(f.pos, g.Bearing(f.pos, w.pos), Min(Speed(w) * f.speedMult * 0.1, d)) else f.pos)
  {
    hide Arrived, Drained, Speed, Altitude, Mod360;
    var f0 := f.(vx := 0.0, vy := 0.0, vz := 0.0);
    StraightOn(f.heading);
    LegTurns(g, f, now, Some([]));
    NothingToAvoid(g, PhaseStep(g, f0, TICK).f, Some([]));
    hide Avoided;
  }

  lemma LegKeeps(g: Geo, f: Flight, now: real)
    requires Inv(f) && f.phase.Flying? && f.wpIdx < |f.waypoints| && f.offset == 0.0 && now > f.manualUntil
    ensures var r := Tick(g, f, TICK, now, Some([])).f;
            && r.waypoints == f.waypoints && r.speedMult == f.speedMult && r.manualUntil == f.manualUntil && r.offset == 0.0
            && (r.wpIdx == f.wpIdx || r.wpIdx == f.wpIdx + 1)
  {
    hide Arrived, Drained, Speed, Altitude, Mod360, Clamp, Reach;
    var f0 := f.(vx := 0.0, vy := 0.0, vz := 0.0);
    NothingToAvoid(g, PhaseStep(g, f0, TICK).f, Some([]));
    hide Avoided;
  }

  lemma ApproachedGap(x: real, y: real, step: real)
    requires step >= 0.0
    ensures Abs(y - Approached(x, y, step)) == Max(0.0, Abs(y - x) - step)
  {
  }

  lemma Gained(d: real, metres: real, gap: real, step: real)
    requires d >= 0.0 && metres > 0.0 && gap >= 0.0 && step >= 0.04 && !((d < 3.0 || d < metres) && gap < 3.0)
    ensures (if d > 1.0 then d - Min(metres, d) else d) + Max(0.0, gap - step) <= d + gap - Min(0.04, metres)
  {
  }

  /** Where an on-course tick leaves the drone: as much nearer as it flew, and still on course. */
  lemma CourseKept(g: Geo, f: Flight, now: real)
    requires Straight(g) && KeepsCourse(g) && Inv(f) && OnCourse(g, f, now)
    ensures var r := Tick(g, f, TICK, now, Some([])).f;
            var w := f.waypoints[f.wpIdx];
            var d := g.Dist(f.pos, w.pos);
            && r.heading == f.heading && d >= 0.0
            && g.Dist(r.pos, w.pos) == (if d > 1.0 then d - Min(Metres(f), d) else d)
            && (g.Dist(r.pos, w.pos) > 0.5 ==> r.heading == g.Bearing(r.pos, w.pos))
  {
    hide Tick, Speed;
    LegPosition(g, f, now);
    Product(Speed(f.waypoints[f.wpIdx]), f.speedMult);
  }

  lemma NotArrived(g: Geo, f: Flight, now: real)
    requires Inv(f) && OnCourse(g, f, now)
    ensures var r := Tick(g, f, TICK, now, Some([])).f;
            var w := f.waypoints[f.wpIdx];
            var d := g.Dist(f.pos, w.pos);
            r.wpIdx == f.wpIdx ==>
              r.phase.Flying? && !((d < 3.0 || d < Metres(f)) && Abs(Altitude(w, 30.0) - f.alt) < 3.0)
  {
    hide Tick, Passed, Flown;
    ArrivesIff(g, f, now, Some([]));
    LegKeeps(g, f, now);
  }

  lemma OnCourseTick(g: Geo, f: Flight, now: real)
    requires Straight(g) && KeepsCourse(g) && Inv(f) && OnCourse(g, f, now)
    ensures var r := Tick(g, f, TICK, now, Some([])).f;
            || r.wpIdx == f.wpIdx + 1
            || (r.wpIdx == f.wpIdx && r.waypoints == f.waypoints && r.speedMult == f.speedMult && OnCourse(g, r, now)
                && MissionToGo(g, r) <= MissionToGo(g, f) - Pace(f))
  {
    PacePositive(g, f, now);
    assert Metres(f) > 0.0;
    CourseKept(g, f, now);
    LegAltitude(g, f, now, Some([]));
    NotArrived(g, f, now);
    LegKeeps(g, f, now);
    hide Tick, Straight, KeepsCourse, Approached, Max, Metres, Speed, Min;
    var w := f.waypoints[f.wpIdx];
    var gap := Abs(Altitude(w, 30.0) - f.alt);
    ApproachedGap(f.alt, Altitude(w, 30.0), 0.4 * f.speedMult);
    if Tick(g, f, TICK, now, Some([])).f.wpIdx == f.wpIdx {
      Gained(g.Dist(f.pos, w.pos), Metres(f), gap, 0.4 * f.speedMult);
    }
  }

  lemma Product(x: real, y: real)
    requires x > 0.0 && y > 0.0
    ensures x * y > 0.0
  {
  }

  lemma {:induction false} LegEnds(g: Geo, f: Flight, now: real, n: nat) returns (k: nat)
    requires Straight(g) && KeepsCourse(g) && Inv(f) && OnCourse(g, f, now) && MissionToGo(g, f) <= Pace(f) * n as real
    ensures g.Valid() && QuietTicks(g, f, now, k).wpIdx == f.wpIdx + 1
    decreases n
  {
    hide Tick, Speed;
    OnCourseTick(g, f, now);
    TickKeeps(g, f, TICK, now, Some([]));
    var f' := Tick(g, f, TICK, now, Some([])).f;
    if f'.wpIdx == f.wpIdx + 1 {
      k := 1;
      assert QuietTicks(g, f', now, 0) == f';
    } else {
      assert Pace(f) > 0.0 by { PacePositive(g, f, now); }
      assert MissionToGo(g, f') >= 0.0;
      assert n > 0 && Pace(f) * n as real == Pace(f) * (n - 1) as real + Pace(f) by { Once(Pace(f), n); }
      var k' := LegEnds(g, f', now, n - 1);
      k := k' + 1;
    }
  }

  lemma Once(x: real, n: nat)
    requires n > 0 || x * n as real > 0.0
    ensures n > 0 && x * n as real == x * (n - 1) as real + x
  {
  }

  lemma PacePositive(g: Geo, f: Flight, now: real)
    requires Inv(f) && OnCourse(g, f, now)
    ensures Pace(f) > 0.0
  {
    Product(Speed(f.waypoints[f.wpIdx]), f.speedMult);
  }

  /** A flight on course for its waypoint arrives. */
  lemma LegArrives(g: Geo, f: Flight, now: real) returns (k: nat)
    requires Straight(g) && KeepsCourse(g) && Inv(f) && OnCourse(g, f, now)
    ensures g.Valid() && QuietTicks(g, f, now, k).wpIdx == f.wpIdx + 1
  {
    PacePositive(g, f, now);
    hide Tick, Speed, OnCourse;
    var n := EnoughSteps(MissionToGo(g, f), Pace(f));
    k := LegEnds(g, f, now, n);
  }

  lemma EnoughSteps(x: real, step: real) returns (n: nat)
    requires step > 0.0
    ensures x <= step * n as real
  {
    if x <= 0.0 {
      n := 0;
    } else {
      n := (x / step).Floor + 1;
      assert x / step <= n as real;
      assert x == step * (x / step);
    }
  }

  // ----- Giving way -----

  /** Polar coordinates, and moving straight away from a place. */
  ghost predicate Planar(g: Geo) {
    && g.Hypot(0.0, 0.0) == 0.0
    && (forall m: real, a: real :: m > 0.0 && 0.0 <= a < 360.0 ==>
          g.Hypot(Times(m, g.Cos(a)), Times(m, g.Sin(a))) == m && g.Angle(Times(m, g.Sin(a)), Times(m, g.Cos(a))) == a)
    && (forall p, q :: 0.0 <= g.Bearing(p, q) < 360.0)
    && (forall p, q, s: real :: s >= 0.0 && g.Dist(p, q) > 0.0 ==>
          g.Dist(g.Move(p, g.Bearing(q, p), s), q) == g.Dist(p, q) + s)
  }

  /** How far one tick steps aside at a distance. */
  function StepAside(dist: real): real {
    Max(0.6 * Max(1.0 - dist / 40.0, 0.25), 1.0)
  }

  lemma OnePush(g: Geo, f: Flight, o: Other)
    requires Planar(g) && Conflicts(g, f, o) && g.Dist(f.pos, o.pos) > 0.5
    ensures PushedAll(g, f, TICK, [o])
            == Push(true, Max(0.0, 15.0 * (1.0 - g.Dist(f.pos, o.pos) / 40.0)),
                    Times(StepAside(g.Dist(f.pos, o.pos)), g.Cos(g.Bearing(o.pos, f.pos))),
                    Times(StepAside(g.Dist(f.pos, o.pos)), g.Sin(g.Bearing(o.pos, f.pos))))
  {
    assert [o][1..] == [];
    assert g.Dist(f.pos, o.pos) < 40.0;
  }

  /** Alone with a drone it has to give way to, a flight steps straight away from it, at least a metre a tick. */
  lemma SideStepSeparates(g: Geo, f: Flight, o: Other)
    requires Planar(g) && Conflicts(g, f, o) && g.Dist(f.pos, o.pos) > 0.5
    ensures var d := g.Dist(f.pos, o.pos);
            g.Dist(Avoided(g, f, TICK, Some([o])).pos, o.pos) == d + StepAside(d) >= d + 1.0
  {
    OnePush(g, f, o);
    var a := g.Bearing(o.pos, f.pos);
    var m := StepAside(g.Dist(f.pos, o.pos));
    assert m >= 1.0;
    assert g.Hypot(Times(m, g.Cos(a)), Times(m, g.Sin(a))) == m;
    hide OffsetDelta, PushedAll, Times, StepAside;
    assert g.Dist(g.Move(f.pos, a, m), o.pos) == g.Dist(f.pos, o.pos) + m;
  }

  /** The altitude asked for is the largest share of 15 m among the drones to give way to, none without any. */
  lemma {:induction false} BiasIs(g: Geo, f: Flight, dt: real, others: seq<Other>, p: Push)
    requires g.Valid()
    ensures var bias := PushedAll(g, f, dt, others, p).bias;
      && bias >= p.bias
      && (forall o :: o in others && Conflicts(g, f, o) ==> bias >= 15.0 * (1.0 - g.Dist(f.pos, o.pos) / 40.0))
      && (bias == p.bias || exists o :: o in others && Conflicts(g, f, o) && bias == 15.0 * (1.0 - g.Dist(f.pos, o.pos) / 40.0))
    decreases |others|
  {
    hide Mod360;
    if others != [] {
      var next := Pushed(g, f, dt, others[0], p);
      BiasIs(g, f, dt, others[1..], next);
      assert forall o :: o in others <==> o == others[0] || o in others[1..];
    }
  }

  /** The borrowed altitude moves 30 cm a tick towards the altitude asked for, and the drone with it. */
  lemma BorrowedMoves(g: Geo, f: Flight, others: seq<Other>)
    ensures var bias := PushedAll(g, f, TICK, others).bias;
            var a := Avoided(g, f, TICK, Some(others));
      && a.offset == (if -0.000000001 <= bias - f.offset <= 0.000000001 then f.offset else Approached(f.offset, bias, 0.3))
      && (f.alt >= 0.0 ==> a.alt == Max(0.0, f.alt + a.offset - f.offset))
  {
    hide PushedAll, SideStep;
  }

  // ----- Manual override -----

  lemma ManualMoves(g: Geo, f: Flight, now: real, others: Option<seq<Other>>)
    requires Inv(f) && now <= f.manualUntil
    ensures var r := Tick(g, f, TICK, now, others).f;
            var metres := g.Hypot(f.vx * 0.1, f.vy * 0.1);
            var course := g.Angle(f.vy * 0.1, f.vx * 0.1);
      && r.pos == (if metres > 0.0 then g.Move(f.pos, course, metres) else f.pos)
      && r.alt == (if f.alt - 0.1 * f.vz >= 0.0 then f.alt - 0.1 * f.vz else 0.0)
      && r.phase == f.phase && r.manualUntil == f.manualUntil && r.vx == f.vx && r.vy == f.vy && r.vz == f.vz
  {
    hide Drained;
  }

  /** A velocity command in flight holds for its duration, takes a returning flight out of its return, and ends by itself. */
  lemma OverrideHolds(g: Geo, f: Flight, vx: real, vy: real, vz: real, duration: real, now: real, later: real,
                      others: Option<seq<Other>>)
    requires Inv(f) && !(f.phase.Idle? || f.phase.Landed? || f.phase.Landing?)
    requires !(vx == 0.0 && vy == 0.0 && vz == 0.0)
    ensures var c := Handled(f, Velocity(vx, vy, vz, duration), now);
      && Inv(c) && c.vx == vx && c.vy == vy && c.vz == vz
      && c.phase == (if f.phase.Rtl? then Guided else f.phase)
      && (later <= now + duration ==> Tick(g, c, TICK, later, others).f.alt == Max(0.0, f.alt - 0.1 * vz))
      && (later > now + duration ==> Tick(g, c, TICK, later, others).f.vz == 0.0)
  {
    HandledKeeps(f, Velocity(vx, vy, vz, duration), now);
    var c := Handled(f, Velocity(vx, vy, vz, duration), now);
    if later <= now + duration {
      ManualMoves(g, c, later, others);
    } else {
      StoppedAfter(g, c, later, others);
    }
    hide Tick;
  }

  lemma StoppedAfter(g: Geo, f: Flight, now: real, others: Option<seq<Other>>)
    requires Inv(f) && now > f.manualUntil
    ensures var r := Tick(g, f, TICK, now, others).f; r.vx == 0.0 && r.vy == 0.0 && r.vz == 0.0
  {
    hide Drained, Clamp, Arrived, Mod360, Altitude, Max, Min, Abs, Reach, Times, Speed, Passed, PushedAll, OffsetDelta, SideStep;
  }

  // ----- Hovering and the battery -----

  /** Paused holds position and altitude; guided flies 40 cm along its heading and holds altitude. */
  lemma HoverHolds(g: Geo, f: Flight, now: real, others: Option<seq<Other>>)
    requires Inv(f) && (f.phase.Paused? || f.phase.Guided?) && f.offset == 0.0 && now > f.manualUntil
    requires others == None || others == Some([])
    ensures var r := Tick(g, f, TICK, now, others).f;
      && r.alt == f.alt && r.phase == f.phase && r.heading == Mod360(f.heading + 0.3 * f.speedMult)
      && r.pos == (if f.phase.Paused? then f.pos else g.Move(f.pos, r.heading, 0.4))
  {
    hide Mod360, Drained;
    var f0 := f.(vx := 0.0, vy := 0.0, vz := 0.0);
    NothingToAvoid(g, PhaseStep(g, f0, TICK).f, others);
    hide Avoided;
  }

  /** Does this tick land the flight at home? */
  predicate TouchesDown(g: Geo, f: Flight) {
    f.rtlRoute == [] && g.Dist(f.pos, f.home) < 5.0 && f.alt < 2.0
  }

  /** What a tick takes from the battery, in percent. */
  lemma BatteryPerTick(g: Geo, f: Flight, now: real, others: Option<seq<Other>>)
    requires Inv(f)
    ensures var used :=
              if now <= f.manualUntil then 0.0015
              else if f.phase.Guided? || f.phase.Paused? then 0.00075
              else if f.phase.Flying? && f.wpIdx < |f.waypoints| then 0.0015
              else if f.phase.Rtl? && !TouchesDown(g, f) then 0.0015
              else 0.0;
            Tick(g, f, TICK, now, others).f.battery == Max(0.0, f.battery - used)
  {
    hide Clamp, Arrived, Mod360, Altitude, Min, Abs, Reach;
    var f0 := f.(vx := 0.0, vy := 0.0, vz := 0.0);
    BatteryKept(g, PhaseStep(g, f0, TICK).f, others);
    hide Avoided;
  }

  lemma BatteryKept(g: Geo, f: Flight, others: Option<seq<Other>>)
    ensures Avoided(g, f, TICK, others).battery == f.battery
  {
    hide PushedAll, OffsetDelta, SideStep;
  }

  // ----- Commands that undo each other -----

  /** Loitering or guiding a mission and going back to automatic resumes it where it was. */
  lemma MissionResumes(f: Flight, mode: Mode, now: real, later: real)
    requires Inv(f) && f.phase.Flying? && (mode.LoiterMode? || mode.GuidedMode?)
    ensures var held := Handled(f, SetMode(mode), now);
      && Inv(held) && held.phase == (if mode.LoiterMode? then Paused else Guided)
      && Handled(held, SetMode(AutoMode), later) == f
  {
  }

  lemma DisarmUndoesArm(f: Flight, now: real, later: real)
    requires Inv(f) && f.phase.Idle? && !f.isArmed
    ensures var armed := Handled(f, Arm, now);
      Inv(armed) && armed.phase.Armed? && armed.isArmed && Handled(armed, Disarm, later) == f
  {
  }

  /** An emergency stop grounds the flight, and nothing but ticks keeps it there. */
  lemma EmergencyStopGrounds(g: Geo, f: Flight, now: real, run: seq<Event>)
    requires g.Valid() && Inv(f) && Undisturbed(f, run)
    ensures Inv(Handled(f, EmergencyStop, now))
    ensures var f' := After(g, Handled(f, EmergencyStop, now), run); f'.phase.Landed? && !f'.isArmed && f'.alt == 0.0
  {
    HandledKeeps(f, EmergencyStop, now);
    StaysLanded(g, Handled(f, EmergencyStop, now), run);
  }

  /** A new target in flight becomes the leg being flown; the legs before and after it stay. */
  lemma GotoRedirects(f: Flight, w: Waypoint, now: real)
    requires Inv(f) && !(f.phase.Idle? || f.phase.Landed? || f.phase.Landing?)
    ensures var r := Handled(f, Goto(Some(w)), now);
      && Inv(r) && r.phase.Flying? && r.wpIdx < |r.waypoints|
      && r.waypoints[r.wpIdx] == Waypoint(w.pos, Some(if w.altitude.Some? then w.altitude.value else f.alt),
                                          Some(if w.speed.Some? then w.speed.value else 10.0))
      && (if f.wpIdx < |f.waypoints|
          then r.waypoints[..r.wpIdx] == f.waypoints[..f.wpIdx] && r.waypoints[r.wpIdx + 1..] == f.waypoints[f.wpIdx + 1..]
          else |r.waypoints| == 1)
  {
  }

  /** A profile changes altitude and speed of the legs still to fly, and of no other. */
  lemma ProfileReaches(f: Flight, altitude: Option<real>, speed: Option<real>, now: real, i: nat)
    requires Inv(f) && i < |f.waypoints|
    ensures var r := Handled(f, SetProfile(altitude, speed), now);
      && |r.waypoints| == |f.waypoints| && r.waypoints[i].pos == f.waypoints[i].pos
      && (i < f.wpIdx || altitude.None? ==> r.waypoints[i].altitude == f.waypoints[i].altitude)
      && (i < f.wpIdx || speed.None? ==> r.waypoints[i].speed == f.waypoints[i].speed)
      && (i >= f.wpIdx && altitude.Some? ==> r.waypoints[i].altitude == altitude)
      && (i >= f.wpIdx && speed.Some? ==> r.waypoints[i].speed == speed)
      && (altitude.Some? ==> r.targetAlt == altitude.value)
  {
  }

  /** Modes set from a ground station are the commands of the same meaning. */
  lemma ModesAreCommands(f: Flight, now: real)
    requires Inv(f)
    ensures Handled(f, SetMode(RtlMode), now) == Handled(f, ReturnHome(true), now)
    ensures Handled(f, SetMode(LandMode), now) == Handled(f, Land, now)
    ensures (f.phase.Idle? || f.phase.Armed?) && f.waypoints != [] ==>
              Handled(f, SetMode(AutoMode), now) == Handled(f, TakeoffTo(None), now)
  {
  }

  /** What a command is refused for: the flight then stays exactly as it was. */
  lemma Refused(f: Flight, c: Command, now: real)
    requires Inv(f)
    requires || (c.Arm? && !f.phase.Idle?)
             || (c.Disarm? && !f.phase.Armed? && !f.phase.Landed?)
             || (c.TakeoffTo? && !f.phase.Idle? && !f.phase.Armed?)
             || (c.Velocity? && (f.phase.Idle? || f.phase.Landed? || f.phase.Landing?))
             || c == Goto(None)
             || (c == SetMode(GuidedMode) && (f.phase.Idle? || f.phase.Landed? || f.phase.Landing?))
             || (c == SetMode(LoiterMode) && !f.phase.Flying?)
             || (c == SetMode(AutoMode) && (f.phase.Idle? || f.phase.Armed?) && f.waypoints == [])
             || (c == SetMode(AutoMode) && !f.phase.Idle? && !f.phase.Armed? && !f.phase.Guided? && !f.phase.Paused?)
             || c == SetMode(OtherMode)
    ensures Handled(f, c, now) == f
  {
  }

  /** Landed flights can be disarmed, which readies them for another takeoff; a target on the ground waits for it. */
  lemma OnTheGround(f: Flight, w: Waypoint, now: real)
    requires Inv(f) && f.phase.Landed?
    ensures Handled(f, Disarm, now) == f.(isArmed := false, phase := Idle)
    ensures Handled(f, Goto(Some(w)), now).phase.Landed?
    ensures var r := Handled(f, Goto(Some(w)), now); r.wpIdx < |r.waypoints| && r.waypoints[r.wpIdx].pos == w.pos
  {
  }

  /** Giving way: within 40 m and less than 8 m of altitude, the home plane lying 50 m above sea level. */
  lemma ConflictsWhen(g: Geo, f: Flight, o: Other)
    ensures Conflicts(g, f, o) <==> g.Dist(f.pos, o.pos) < 40.0 && -8.0 < o.altMsl - 50.0 - f.alt < 8.0 && f.id >= o.id
  {
  }

  // ----- Leaving the fence -----

  lemma RouteKept(g: Geo, f: Flight, dt: real)
    requires Inv(f)
    ensures TakeoffStep(g, f, dt).f.rtlRoute == f.rtlRoute && LandingStep(f, dt).f.rtlRoute == f.rtlRoute
    ensures HoverStep(g, f, dt).f.rtlRoute == f.rtlRoute && Homing(g, f, dt).rtlRoute == f.rtlRoute
    ensures FlyingStep(g, f, dt).f.rtlRoute == f.rtlRoute
  {
    hide Clamp, Arrived, Mod360, Altitude, Min, Max, Abs, Reach, Drained, Speed, Times;
  }

  lemma StepKeepsRoute(g: Geo, f: Flight, dt: real)
    requires Inv(f)
    ensures PhaseStep(g, f, dt).f.rtlRoute == f.rtlRoute || (f.rtlRoute != [] && PhaseStep(g, f, dt).f.rtlRoute == f.rtlRoute[1..])
  {
    hide TakeoffStep, LandingStep, HoverStep, FlyingStep, Homing;
    hide Clamp, Altitude, Min, Max, Abs, Reach, Drained, Times;
    RouteKept(g, f, dt);
  }

  lemma OthersKeepRoute(g: Geo, f: Flight, others: Option<seq<Other>>)
    ensures Avoided(g, f, TICK, others).rtlRoute == f.rtlRoute && ManualStep(g, f, TICK).rtlRoute == f.rtlRoute
  {
    hide PushedAll, OffsetDelta, SideStep, Max, Drained;
  }

  lemma TickLevelled(g: Geo, f: Flight, now: real, others: Option<seq<Other>>)
    requires Inv(f) && Levelled(f.rtlRoute)
    ensures Levelled(Tick(g, f, TICK, now, others).f.rtlRoute)
  {
    hide PhaseStep, Avoided, ManualStep;
    var f0 := f.(vx := 0.0, vy := 0.0, vz := 0.0);
    StepKeepsRoute(g, f0, TICK);
    OthersKeepRoute(g, PhaseStep(g, f0, TICK).f, others);
    OthersKeepRoute(g, f, others);
    if f.rtlRoute != [] {
      assert forall i :: 0 <= i < |f.rtlRoute[1..]| ==> f.rtlRoute[1..][i] == f.rtlRoute[i + 1];
    }
  }

  lemma {:induction false} RunLevelled(g: Geo, f: Flight, run: seq<Event>)
    requires g.Valid() && Inv(f) && Levelled(f.rtlRoute)
    ensures Levelled(After(g, f, run).rtlRoute)
    decreases |run|
  {
    if run != [] {
      EventKeeps(g, f, run[0]);
      if run[0].Step? {
        TickLevelled(g, f, run[0].now, run[0].others);
      }
      hide Tick;
      RunLevelled(g, After1(g, f, run[0]), run[1..]);
    }
  }

  /** Whatever happened before, a flight that leaves an enforced fence ends landed at home. */
  lemma BreachEndsHome(g: Geo, id: int, mission: seq<Waypoint>, home: Pos, speedMult: real, run: seq<Event>, now: real)
    returns (k: nat)
    requires Straight(g) && g.Valid()
    requires var f := FromStart(g, id, mission, home, speedMult, run);
             f.phase.Flying? && f.offset == 0.0 && now > f.manualUntil
    ensures var f := FromStart(g, id, mission, home, speedMult, run);
            Inv(Breached(f)) && Home(g, QuietTicks(g, Breached(f), now, k))
  {
    StartedInv(id, mission, home, speedMult);
    RunLevelled(g, Started(id, mission, home, speedMult), run);
    RunKeeps(g, Started(id, mission, home, speedMult), run);
    var f := Breached(FromStart(g, id, mission, home, speedMult, run));
    var n := if f.rtlRoute == [] then 0 else SomeLeg(g, f);
    k := RouteEnds(g, f, now, n);
  }

  // ----- Starting and returning -----

  /** A flight starts on the ground at home with a full battery; its time compression is held between 0.1 and 20. */
  lemma StartsAtHome(id: int, mission: seq<Waypoint>, home: Pos, speedMult: real)
    ensures var f := Started(id, mission, home, speedMult);
      && f.phase.Idle? && !f.isArmed && f.pos == home && f.home == home && f.alt == 0.0 && f.battery == 100.0
      && f.waypoints == mission && f.wpIdx == 0 && f.offset == 0.0 && f.rtlRoute == []
      && (0.1 <= speedMult <= 20.0 ==> f.speedMult == speedMult)
      && (speedMult < 0.1 ==> f.speedMult == 0.1) && (speedMult > 20.0 ==> f.speedMult == 20.0)
  {
  }

  /** Returning as flown retraces the waypoints already reached, the last one first, at their own altitudes. */
  lemma RetracesVisited(f: Flight, now: real, i: nat)
    requires Inv(f)
    ensures var r := Handled(f, ReturnHome(false), now);
      && r.phase.Rtl? && |r.rtlRoute| == f.wpIdx
      && (i < f.wpIdx ==>
            var w := f.waypoints[f.wpIdx - 1 - i];
            && r.rtlRoute[i].pos == w.pos
            && r.rtlRoute[i].altitude == Some(if w.altitude.Some? then w.altitude.value else f.alt))
  {
  }
}
