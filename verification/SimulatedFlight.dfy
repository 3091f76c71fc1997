/** The flight object: fields updated in place by commands and by the ten-hertz tick. */
module SimulatedFlight {
  import opened FlightModel

  lemma FlownKeepsMission(g: Geo, f: Flight, dt: real)
    requires 0 <= f.wpIdx < |f.waypoints|
    ensures var r := Flown(g, f, dt);
      r.waypoints == f.waypoints && r.wpIdx == f.wpIdx && r.legStart == f.legStart && r.phase == f.phase
  {
  }

  lemma HomingKeepsPhase(g: Geo, f: Flight, dt: real)
    ensures Homing(g, f, dt).phase == f.phase
  {
  }

  lemma AvoidsIffAirborne(g: Geo, f: Flight, dt: real)
    requires 0 <= f.wpIdx <= |f.waypoints|
    ensures var t := TakeoffStep(g, f, dt); if t.raised then !t.avoids else t.avoids == Airborne(t.f.phase)
    ensures var t := FlyingStep(g, f, dt); !t.raised && (t.avoids ==> Airborne(t.f.phase))
    ensures var t := HoverStep(g, f, dt); !t.raised && t.avoids == Airborne(t.f.phase)
    ensures var t := RtlStep(g, f, dt); !t.raised && (t.avoids ==> Airborne(t.f.phase))
    ensures var t := LandingStep(f, dt); !t.raised && t.avoids == Airborne(t.f.phase)
  {
    hide Flown, Arrived, Retracing, Homing, Drained, Mod360;
  }

  class SimFlight {
    const geo: Geo
    const id: int
    const speedMult: real
    var home: Pos
    var phase: Phase
    var isArmed: bool
    var waypoints: seq<Waypoint>
    var wpIdx: int
    var legStart: Option<Pos>
    var pos: Pos
    var alt: real
    var heading: real
    var battery: real
    var targetAlt: real
    var vx: real
    var vy: real
    var vz: real
    var manualUntil: real
    var rtlRoute: seq<Waypoint>
    var offset: real
    var avoiding: bool

    function View(): Flight
      reads this
    {
      Flight(id, phase, isArmed, waypoints, wpIdx, legStart, pos, alt, heading, battery, home, targetAlt,
             vx, vy, vz, manualUntil, rtlRoute, offset, avoiding, speedMult)
    }

    predicate Valid()
      reads this
    {
      0 <= wpIdx <= |waypoints|
    }

    constructor (geo: Geo, id: int, waypoints: seq<Waypoint>, home: Pos, speedMult: real)
      ensures Valid() && Inv(View()) && View() == Started(id, waypoints, home, speedMult) && this.geo == geo
    {
      this.geo, this.id, this.waypoints, this.home := geo, id, waypoints, home;
      this.speedMult := Max(0.1, Min(speedMult, 20.0));
      pos, alt, heading, battery := home, 0.0, 0.0, 100.0;
      phase, isArmed, wpIdx, legStart, targetAlt := Idle, false, 0, None, 30.0;
      vx, vy, vz, manualUntil, rtlRoute := 0.0, 0.0, 0.0, 0.0, [];
      offset, avoiding := 0.0, false;
    }

    // ----- Commands -----

    method EnterRtl(shortest: bool)
      requires Valid()
      modifies this
      ensures Valid() && View() == EnteredRtl(old(View()), shortest)
    {
      rtlRoute := [];
      if !shortest {
        for i := 0 to wpIdx
          invariant wpIdx == old(wpIdx) && waypoints == old(waypoints) && Valid()
          invariant rtlRoute == Retraced(waypoints, i, alt)
          invariant View() == old(View()).(rtlRoute := rtlRoute)
        {
          rtlRoute := [waypoints[i].(altitude := Some(Altitude(waypoints[i], alt)), speed := None)] + rtlRoute;
        }
      }
      phase := Rtl;
    }

    method ApplyProfile(altitude: Option<real>, speed: Option<real>)
      requires Valid()
      modifies this
      ensures Valid() && View() == Reprofiled(old(View()), altitude, speed)
    {
      ghost var before := waypoints;
      for i := wpIdx to |waypoints|
        invariant Valid() && |waypoints| == |before|
        invariant View() == old(View()).(waypoints := waypoints)
        invariant forall k :: 0 <= k < |before| ==>
                    waypoints[k] == if wpIdx <= k < i then Profiled(before[k], altitude, speed) else before[k]
      {
        if altitude.Some? { waypoints := waypoints[i := waypoints[i].(altitude := altitude)]; }
        if speed.Some? { waypoints := waypoints[i := waypoints[i].(speed := speed)]; }
      }
      assert waypoints == ProfiledFrom(before, wpIdx, altitude, speed);
      if altitude.Some? { targetAlt := altitude.value; }
      if phase.Paused? && wpIdx < |waypoints| { phase := Flying; }
    }

    method BeginTakeoff(default: real)
      requires Valid()
      modifies this
      ensures Valid() && View() == TakenOff(old(View()), default)
    {
      isArmed := true;
      targetAlt := if waypoints != [] then Altitude(waypoints[0], default) else default;
      phase := Takeoff;
    }

    method ChangeMode(mode: Mode)
      requires Valid()
      modifies this
      ensures Valid() && View() == ModeChanged(old(View()), mode)
    {
      hide TakenOff, EnteredRtl;
      if mode.AutoMode? && (phase.Idle? || phase.Armed?) {
        if waypoints == [] { return; }
        BeginTakeoff(30.0);
      } else if mode.RtlMode? {
        EnterRtl(true);
      } else if mode.LandMode? {
        phase := Landing;
      } else if mode.GuidedMode? && !Grounded(phase) {
        phase := Guided;
      } else if mode.LoiterMode? && phase.Flying? {
        phase := Paused;
      } else if mode.AutoMode? && (phase.Guided? || phase.Paused?) {
        phase := Flying;
      }
    }

    method OverrideVelocity(x: real, y: real, z: real, until: real)
      requires Valid()
      modifies this
      ensures Valid() && View() == Overridden(old(View()), x, y, z, until)
    {
      if Grounded(phase) { return; }
      vx, vy, vz := x, y, z;
      if x == 0.0 && y == 0.0 && z == 0.0 {
        manualUntil := 0.0;
      } else {
        manualUntil := until;
        if phase.Rtl? { phase := Guided; }
      }
    }

    method Retarget(target: Waypoint)
      requires Valid()
      modifies this
      ensures Valid() && View() == Retargeted(old(View()), target)
    {
      hide Altitude;
      var t := target.(altitude := Some(Altitude(target, alt)),
                       speed := Some(if target.speed.Some? then target.speed.value else CRUISE_MS));
      if waypoints != [] && wpIdx < |waypoints| {
        waypoints := waypoints[wpIdx := t];
      } else {
        waypoints, wpIdx := [t], 0;
      }
      legStart := None;
      if !Grounded(phase) { phase := Flying; }
    }

    method HandleCommand(c: Command, now: real)
      requires Valid()
      modifies this
      ensures Valid() && View() == Handled(old(View()), c, now)
    {
      hide TakenOff, ModeChanged, Overridden, Reprofiled, Retargeted, EnteredRtl;
      match c {
        case Arm =>
          if phase.Idle? { isArmed, phase := true, Armed; }
        case Disarm =>
          if phase.Armed? || phase.Landed? { isArmed, phase := false, Idle; }
        case TakeoffTo(altitude) =>
          if phase.Idle? || phase.Armed? {
            BeginTakeoff(if altitude.Some? then altitude.value else 30.0);
          }
        case SetMode(mode) => ChangeMode(mode);
        case ReturnHome(shortest) => EnterRtl(shortest);
        case Land => phase := Landing;
        case Velocity(x, y, z, duration) => OverrideVelocity(x, y, z, now + duration);
        case SetProfile(altitude, speed) => ApplyProfile(altitude, speed);
        case Goto(target) =>
          if target.Some? { Retarget(target.value); }
        case EmergencyStop =>
          isArmed, alt, phase := false, 0.0, Landed;
      }
    }

    /** The reaction to leaving an enforced geofence. */
    method OnBreach()
      requires Valid()
      modifies this
      ensures Valid() && View() == Breached(old(View()))
    {
      if phase.Flying? { phase := Rtl; }
    }

    method SetHome(p: Pos)
      requires Valid()
      modifies this
      ensures Valid() && View() == old(View()).(home := p)
    {
      home := p;
    }

    // ----- Ticks -----

    method ApplyManualVelocity(dt: real, now: real) returns (manual: bool)
      requires Valid()
      modifies this
      ensures Valid() && manual == (now <= old(manualUntil))
      ensures View() == if manual then ManualStep(geo, old(View()), dt)
                        else old(View()).(vx := 0.0, vy := 0.0, vz := 0.0)
    {
      hide Times, Max, Drained, Geo.Hypot, Geo.Angle, Geo.Move;
      if now > manualUntil {
        vx, vy, vz := 0.0, 0.0, 0.0;
        return false;
      }
      var north, east := Times(vx, dt), Times(vy, dt);
      var horizontal := geo.Hypot(north, east);
      if horizontal > 0.0 {
        var bearing := geo.Angle(east, north);
        pos := geo.Move(pos, bearing, horizontal);
        heading := bearing;
      }
      alt := Max(0.0, alt - Times(vz, dt));
      battery := Drained(battery, BATT_DRAIN * dt);
      manual := true;
    }

    method TickTakeoff(dt: real) returns (raised: bool)
      requires Valid()
      modifies this
      ensures Valid() && View() == TakeoffStep(geo, old(View()), dt).f && raised == TakeoffStep(geo, old(View()), dt).raised
    {
      raised := false;
      alt := alt + Reach(View(), CLIMB_MS, dt);
      if alt >= targetAlt {
        alt, phase := targetAlt, Flying;
        if waypoints != [] {
          if wpIdx >= |waypoints| { return true; }
          heading := geo.Bearing(pos, waypoints[wpIdx].pos);
        }
      }
    }

    method FlyLeg(dt: real)
      requires Valid() && wpIdx < |waypoints|
      modifies this
      ensures View() == Flown(geo, old(View()), dt)
    {
      hide Mod360, Speed, Altitude, Drained, Clamp, Reach, Min, Times, Geo.Dist, Geo.Bearing, Geo.Move;
      var wp := waypoints[wpIdx];
      var spd := Times(Speed(wp), speedMult);
      var dist := geo.Dist(pos, wp.pos);
      var wanted := if dist > 0.5 then geo.Bearing(pos, wp.pos) else heading;
      var turn := Clamp(Mod360(wanted - heading + 180.0) - 180.0, Reach(View(), 25.0, dt));
      var climb := Clamp(Altitude(wp, 30.0) - alt, Reach(View(), 4.0, dt));
      heading := Mod360(heading + turn);
      if dist > 1.0 {
        pos := geo.Move(pos, heading, Min(Times(spd, dt), dist));
      }
      alt := alt + climb;
      battery := Drained(battery, BATT_DRAIN * dt);
    }

    /** False when the mission turned out to be complete: the tick ends there. */
    method TickFlying(dt: real) returns (avoids: bool)
      requires Valid() && phase.Flying?
      modifies this
      ensures Valid() && View() == FlyingStep(geo, old(View()), dt).f && avoids == FlyingStep(geo, old(View()), dt).avoids
    {
      hide Flown, Passed, Speed, Altitude, Abs, Max, Times, Geo.Dist;
      if waypoints == [] || wpIdx >= |waypoints| {
        phase := Paused;
        return false;
      }
      var wp := waypoints[wpIdx];
      var dist := geo.Dist(pos, wp.pos);
      var altErr := Altitude(wp, 30.0) - alt;
      var radius := Max(WP_RADIUS_M, Times(Times(Speed(wp), speedMult), dt));
      FlownKeepsMission(geo, View(), dt);
      FlyLeg(dt);
      if legStart.None? { legStart := Some(pos); }
      if (dist < radius || Passed(geo, legStart.value, wp.pos, pos)) && Abs(altErr) < 3.0 {
        wpIdx, legStart := wpIdx + 1, None;
        if wpIdx >= |waypoints| { phase := Paused; }
      }
      avoids := true;
    }

    method TickHover(dt: real)
      requires Valid() && (phase.Guided? || phase.Paused?)
      modifies this
      ensures Valid() && View() == HoverStep(geo, old(View()), dt).f
    {
      hide Mod360, Times, Drained;
      heading := Mod360(heading + Times(3.0 * dt, speedMult));
      if phase.Guided? {
        pos := geo.Move(pos, heading, 4.0 * dt);
      }
      battery := Drained(battery, BATT_DRAIN * 0.5 * dt);
    }

    method Retrace(dt: real)
      requires Valid() && rtlRoute != []
      modifies this
      ensures Valid() && View() == Retracing(geo, old(View()), dt)
    {
      hide Altitude, Drained, Clamp, Reach, Abs, Min, Times, Geo.Dist, Geo.Bearing, Geo.Move;
      var wp := rtlRoute[0];
      var dist := geo.Dist(pos, wp.pos);
      var altErr := Altitude(wp, alt) - alt;
      var climb := Clamp(altErr, Reach(View(), 4.0, dt));
      heading := if dist > 0.5 then geo.Bearing(pos, wp.pos) else heading;
      if dist > 1.0 { pos := geo.Move(pos, heading, Min(Times(Times(CRUISE_MS, speedMult), dt), dist)); }
      alt := alt + climb;
      battery := Drained(battery, BATT_DRAIN * dt);
      if dist < WP_RADIUS_M && Abs(altErr) < 3.0 { rtlRoute := rtlRoute[1..]; }
    }

    method FlyHome(dt: real)
      requires Valid()
      modifies this
      ensures Valid() && View() == Homing(geo, old(View()), dt)
    {
      hide Drained, Reach, Max, Min, Times;
      var dist := geo.Dist(pos, home);
      var sink := Reach(View(), DESCENT_MS, dt);
      heading := geo.Bearing(pos, home);
      if dist > 2.0 { pos := geo.Move(pos, heading, Min(Times(Times(CRUISE_MS, speedMult), dt), dist)); }
      if dist < 50.0 { alt := Max(0.0, alt - sink); }
      battery := Drained(battery, BATT_DRAIN * dt);
    }

    method TickRtl(dt: real) returns (avoids: bool)
      requires Valid() && phase.Rtl?
      modifies this
      ensures Valid() && View() == RtlStep(geo, old(View()), dt).f && avoids == RtlStep(geo, old(View()), dt).avoids
    {
      hide Retracing, Homing;
      if rtlRoute != [] {
        Retrace(dt);
        return false;
      }
      var dist := geo.Dist(pos, home);
      if dist < 5.0 && alt < 2.0 {
        alt, isArmed, phase := 0.0, false, Landed;
        return false;
      }
      HomingKeepsPhase(geo, View(), dt);
      FlyHome(dt);
      avoids := true;
    }

    method TickLanding(dt: real)
      requires Valid()
      modifies this
      ensures Valid() && View() == LandingStep(old(View()), dt).f
    {
      alt := Max(0.0, alt - Reach(View(), DESCENT_MS, dt));
      if alt <= 0.05 {
        alt, isArmed, phase := 0.0, false, Landed;
      }
    }

    method SumPushes(dt: real, others: seq<Other>) returns (p: Push)
      ensures p == PushedAll(geo, View(), dt, others)
    {
      hide Proximity, Mod360, Times, Max;
      p := Push(false, 0.0, 0.0, 0.0);
      for i := 0 to |others|
        invariant PushedAll(geo, View(), dt, others) == PushedAll(geo, View(), dt, others[i..], p)
      {
        var o := others[i];
        assert others[i..][0] == o && others[i..][1..] == others[i + 1..];
        var dist := geo.Dist(pos, o.pos);
        if dist >= CONFLICT_RADIUS_M { continue; }
        if Abs(alt + HOME_MSL - o.altMsl) >= CONFLICT_ALT_M { continue; }
        if id < o.id { continue; }
        var away := if dist <= 0.5 then Mod360(heading + 90.0) else geo.Bearing(o.pos, pos);
        var mag := Max(Times(AVOID_LATERAL_MS * Max(Proximity(dist), 0.25), dt), if dist <= 0.5 then 6.0 else 1.0);
        p := Push(true, Max(p.bias, AVOID_ALT_STEP_M * Proximity(dist)),
                  p.north + Times(mag, geo.Cos(away)), p.east + Times(mag, geo.Sin(away)));
      }
    }

    method MoveAside(p: Push)
      requires Valid()
      modifies this
      ensures Valid() && View() == old(View()).(pos := SideStep(geo, old(pos), p))
    {
      hide Mod360, Max, Geo.Hypot, Geo.Angle, Geo.Move;
      if p.north != 0.0 || p.east != 0.0 {
        var mag := geo.Hypot(p.north, p.east);
        var bearing := geo.Angle(p.east, p.north);
        var next := geo.Move(pos, bearing, mag);
        if p.conflict && next == pos {
          next := geo.Move(pos, Mod360(bearing + 90.0), Max(mag, 1.0));
        }
        pos := next;
      }
    }

    method ApplyCollisionAvoidance(dt: real, others: Option<seq<Other>>)
      requires Valid()
      modifies this
      ensures Valid() && View() == Avoided(geo, old(View()), dt, others)
    {
      hide PushedAll, Max, Clamp, SideStep;
      if others.None? { return; }
      var p := SumPushes(dt, others.value);
      avoiding := p.conflict;
      var delta := Clamp(p.bias - offset, AVOID_ALT_RATE_MS * dt);
      if Abs(delta) > EPS {
        offset := offset + delta;
        alt := Max(0.0, alt + delta);
      }
      MoveAside(p);
    }

    /** `raised` stands for the IndexError that the run loop logs and skips. */
    method TickOnce(dt: real, now: real, others: Option<seq<Other>>) returns (raised: bool)
      requires Valid()
      modifies this
      ensures Valid()
      ensures View() == Tick(geo, old(View()), dt, now, others).f
      ensures raised == Tick(geo, old(View()), dt, now, others).raised
    {
      hide ManualStep, Avoided, TakeoffStep, FlyingStep, HoverStep, RtlStep, LandingStep;
      raised := false;
      var manual := ApplyManualVelocity(dt, now);
      if manual { return; }
      AvoidsIffAirborne(geo, View(), dt);
      var avoids := true;
      match phase {
        case Takeoff =>
          raised := TickTakeoff(dt);
          if raised { return; }
        case Flying => avoids := TickFlying(dt);
        case Guided => TickHover(dt);
        case Paused => TickHover(dt);
        case Rtl => avoids := TickRtl(dt);
        case Landing => TickLanding(dt);
        case _ =>
      }
      if avoids && Airborne(phase) {
        ApplyCollisionAvoidance(dt, others);
      }
    }
  }
}
