/** The simulated flight as a step function: commands, physics ticks and collision avoidance. */
module FlightModel {

  datatype Option<+T> = None | Some(value: T)

  datatype Pos = Pos(lat: real, lon: real)

  datatype Waypoint = Waypoint(pos: Pos, altitude: Option<real>, speed: Option<real>)

  /** Geography and trigonometry stay abstract; angles are degrees. */
  datatype Geo = Geo(dist: (Pos, Pos) -> real, bearing: (Pos, Pos) -> real, move: (Pos, real, real) -> Pos,
                     cos: real -> real, sin: real -> real, hypot: (real, real) -> real, angle: (real, real) -> real) {

    ghost predicate Valid() {
      forall p, q :: Dist(p, q) >= 0.0
    }

    function Dist(p: Pos, q: Pos): real { dist(p, q) }

    function Bearing(p: Pos, q: Pos): real { bearing(p, q) }

    function Move(p: Pos, course: real, metres: real): Pos { move(p, course, metres) }

    function Cos(a: real): real { cos(a) }

    function Sin(a: real): real { sin(a) }

    function Hypot(x: real, y: real): real { hypot(x, y) }

    function Angle(east: real, north: real): real { angle(east, north) }
  }

  datatype Phase = Idle | Armed | Takeoff | Flying | Guided | Paused | Rtl | Landing | Landed

  datatype Flight = Flight(
    id: int, phase: Phase, isArmed: bool, waypoints: seq<Waypoint>, wpIdx: int, legStart: Option<Pos>,
    pos: Pos, alt: real, heading: real, battery: real, home: Pos, targetAlt: real,
    vx: real, vy: real, vz: real, manualUntil: real, rtlRoute: seq<Waypoint>,
    offset: real, avoiding: bool, speedMult: real)

  datatype Mode = AutoMode | RtlMode | LandMode | GuidedMode | LoiterMode | OtherMode

  datatype Command =
    | Arm | Disarm
    | TakeoffTo(altitude: Option<real>)
    | SetMode(mode: Mode)
    | ReturnHome(shortest: bool)
    | Land
    | Velocity(vx: real, vy: real, vz: real, duration: real)
    | SetProfile(altitude: Option<real>, speed: Option<real>)
    | Goto(target: Option<Waypoint>)
    | EmergencyStop

  /** Another airborne simulated drone. */
  datatype Other = Other(id: int, pos: Pos, altMsl: real)

  const CRUISE_MS := 10.0
  const CLIMB_MS := 2.5
  const DESCENT_MS := 1.5
  const BATT_DRAIN := 0.015
  const WP_RADIUS_M := 3.0
  const HOME_MSL := 50.0
  const CONFLICT_RADIUS_M := 40.0
  const CONFLICT_ALT_M := 8.0
  const AVOID_ALT_STEP_M := 15.0
  const AVOID_ALT_RATE_MS := 3.0
  const AVOID_LATERAL_MS := 6.0
  const EPS := 0.000000001
  const TICK := 0.1

  function Times(a: real, b: real): real {
    a * b
  }

  function Max(a: real, b: real): real {
    if a < b then b else a
  }

  function Min(a: real, b: real): real {
    if a < b then a else b
  }

  function Abs(a: real): real {
    if a < 0.0 then -a else a
  }

  function Clamp(x: real, bound: real): real {
    Max(Min(x, bound), -bound)
  }

  /** Python's remainder by 360. */
  function Mod360(x: real): real {
    x - (x / 360.0).Floor as real * 360.0
  }

  /** How far a rate per second carries in `dt` at the flight's time compression. */
  function Reach(f: Flight, rate: real, dt: real): real {
    rate * f.speedMult * dt
  }

  function Altitude(w: Waypoint, default: real): real {
    if w.altitude.Some? then w.altitude.value else default
  }

  /** A missing or zero speed means cruise speed. */
  function Speed(w: Waypoint): real {
    if w.speed.Some? && w.speed.value != 0.0 then w.speed.value else CRUISE_MS
  }

  function Drained(battery: real, amount: real): real {
    Max(0.0, battery - amount)
  }

  // ----- Commands -----

  /** `at` the start of a flight: the multiplier is clamped, everything else reset. */
  function Started(id: int, waypoints: seq<Waypoint>, home: Pos, speedMult: real): Flight {
    Flight(id, Idle, false, waypoints, 0, None, home, 0.0, 0.0, 100.0, home, 30.0,
           0.0, 0.0, 0.0, 0.0, [], 0.0, false, Max(0.1, Min(speedMult, 20.0)))
  }

  predicate Grounded(p: Phase) {
    p.Idle? || p.Landed? || p.Landing?
  }

  function Retraced(waypoints: seq<Waypoint>, n: int, alt: real): (r: seq<Waypoint>)
    requires 0 <= n <= |waypoints|
    ensures |r| == n && forall i :: 0 <= i < n ==>
              r[i] == waypoints[n - 1 - i].(altitude := Some(Altitude(waypoints[n - 1 - i], alt)), speed := None)
  {
    if n == 0 then []
    else [waypoints[n - 1].(altitude := Some(Altitude(waypoints[n - 1], alt)), speed := None)] + Retraced(waypoints, n - 1, alt)
  }

  function EnteredRtl(f: Flight, shortest: bool): Flight
    requires 0 <= f.wpIdx <= |f.waypoints|
  {
    f.(phase := Rtl, rtlRoute := if shortest then [] else Retraced(f.waypoints, f.wpIdx, f.alt))
  }

  function Profiled(w: Waypoint, altitude: Option<real>, speed: Option<real>): Waypoint {
    w.(altitude := if altitude.Some? then altitude else w.altitude, speed := if speed.Some? then speed else w.speed)
  }

  function ProfiledFrom(waypoints: seq<Waypoint>, from: int, altitude: Option<real>, speed: Option<real>): (r: seq<Waypoint>)
    requires 0 <= from <= |waypoints|
  {
    seq(|waypoints|, i requires 0 <= i < |waypoints| =>
      if i < from then waypoints[i] else Profiled(waypoints[i], altitude, speed))
  }

  function TakenOff(f: Flight, default: real): Flight {
    f.(isArmed := true, phase := Takeoff,
       targetAlt := if f.waypoints != [] then Altitude(f.waypoints[0], default) else default)
  }

  function ModeChanged(f: Flight, mode: Mode): Flight
    requires 0 <= f.wpIdx <= |f.waypoints|
  {
    if mode.AutoMode? && (f.phase.Idle? || f.phase.Armed?) then
      if f.waypoints == [] then f else TakenOff(f, 30.0)
    else if mode.RtlMode? then EnteredRtl(f, true)
    else if mode.LandMode? then f.(phase := Landing)
    else if mode.GuidedMode? && !Grounded(f.phase) then f.(phase := Guided)
    else if mode.LoiterMode? && f.phase.Flying? then f.(phase := Paused)
    else if mode.AutoMode? && (f.phase.Guided? || f.phase.Paused?) then f.(phase := Flying)
    else f
  }

  function Overridden(f: Flight, x: real, y: real, z: real, until: real): Flight {
    if Grounded(f.phase) then f
    else if x == 0.0 && y == 0.0 && z == 0.0 then f.(vx := x, vy := y, vz := z, manualUntil := 0.0)
    else f.(vx := x, vy := y, vz := z, manualUntil := until, phase := if f.phase.Rtl? then Guided else f.phase)
  }

  function Reprofiled(f: Flight, altitude: Option<real>, speed: Option<real>): Flight
    requires 0 <= f.wpIdx <= |f.waypoints|
  {
    f.(waypoints := ProfiledFrom(f.waypoints, f.wpIdx, altitude, speed),
       targetAlt := if altitude.Some? then altitude.value else f.targetAlt,
       phase := if f.phase.Paused? && f.wpIdx < |f.waypoints| then Flying else f.phase)
  }

  /** A target given by `goto` defaults to the current altitude and to cruise speed. */
  function Target(f: Flight, w: Waypoint): Waypoint {
    w.(altitude := Some(Altitude(w, f.alt)), speed := Some(if w.speed.Some? then w.speed.value else CRUISE_MS))
  }

  function Retargeted(f: Flight, w: Waypoint): Flight
    requires 0 <= f.wpIdx <= |f.waypoints|
  {
    var pending := f.wpIdx < |f.waypoints|;
    f.(waypoints := if pending then f.waypoints[f.wpIdx := Target(f, w)] else [Target(f, w)],
       wpIdx := if pending then f.wpIdx else 0, legStart := None,
       phase := if Grounded(f.phase) then f.phase else Flying)
  }

  function Handled(f: Flight, c: Command, now: real): Flight
    requires 0 <= f.wpIdx <= |f.waypoints|
  {
    match c
    case Arm => if f.phase.Idle? then f.(isArmed := true, phase := Armed) else f
    case Disarm => if f.phase.Armed? || f.phase.Landed? then f.(isArmed := false, phase := Idle) else f
    case TakeoffTo(altitude) =>
      if f.phase.Idle? || f.phase.Armed? then TakenOff(f, if altitude.Some? then altitude.value else 30.0) else f
    case SetMode(mode) => ModeChanged(f, mode)
    case ReturnHome(shortest) => EnteredRtl(f, shortest)
    case Land => f.(phase := Landing)
    case Velocity(vx, vy, vz, duration) => Overridden(f, vx, vy, vz, now + duration)
    case SetProfile(altitude, speed) => Reprofiled(f, altitude, speed)
    case Goto(target) => if target.None? then f else Retargeted(f, target.value)
    case EmergencyStop => f.(isArmed := false, alt := 0.0, phase := Landed)
  }

  // ----- Ticks -----

  /** The new state, whether the tick raised, and whether collision avoidance still follows. */
  datatype Ticked = Ticked(f: Flight, raised: bool, avoids: bool)

  predicate Airborne(p: Phase) {
    p.Flying? || p.Guided? || p.Paused? || p.Rtl? || p.Takeoff?
  }

  function Done(f: Flight): Ticked {
    Ticked(f, false, Airborne(f.phase))
  }

  function ManualStep(g: Geo, f: Flight, dt: real): Flight {
    var north, east := Times(f.vx, dt), Times(f.vy, dt);
    var horizontal := g.Hypot(north, east);
    var moved := if horizontal > 0.0
                 then f.(pos := g.Move(f.pos, g.Angle(east, north), horizontal), heading := g.Angle(east, north)) else f;
    moved.(alt := Max(0.0, f.alt - Times(f.vz, dt)), battery := Drained(f.battery, BATT_DRAIN * dt))
  }

  function TakeoffStep(g: Geo, f: Flight, dt: real): Ticked
    requires 0 <= f.wpIdx <= |f.waypoints|
  {
    var alt := f.alt + Reach(f, CLIMB_MS, dt);
    if alt < f.targetAlt then Done(f.(alt := alt))
    else
      var up := f.(alt := f.targetAlt, phase := Flying);
      if f.waypoints == [] then Done(up)
      else if f.wpIdx == |f.waypoints| then Ticked(up, true, false)
      else Done(up.(heading := g.Bearing(f.pos, f.waypoints[f.wpIdx].pos)))
  }

  /** Has the drone crossed the line through the waypoint perpendicular to the leg from `s`? */
  predicate Passed(g: Geo, s: Pos, t: Pos, p: Pos) {
    var mLon := 111320.0 * g.Cos(s.lat);
    var legX, legY := (t.lon - s.lon) * mLon, (t.lat - s.lat) * 111320.0;
    var posX, posY := (p.lon - s.lon) * mLon, (p.lat - s.lat) * 111320.0;
    var len := legX * legX + legY * legY;
    len > 1.0 && posX * legX + posY * legY >= len
  }

  /** Turn towards the active waypoint, advance, climb or sink towards its altitude. */
  function Flown(g: Geo, f: Flight, dt: real): Flight
    requires 0 <= f.wpIdx < |f.waypoints|
  {
    var wp := f.waypoints[f.wpIdx];
    var spd := Times(Speed(wp), f.speedMult);
    var dist := g.Dist(f.pos, wp.pos);
    var wanted := if dist > 0.5 then g.Bearing(f.pos, wp.pos) else f.heading;
    var heading := Mod360(f.heading + Clamp(Mod360(wanted - f.heading + 180.0) - 180.0, Reach(f, 25.0, dt)));
    var altErr := Altitude(wp, 30.0) - f.alt;
    f.(heading := heading,
       pos := if dist > 1.0 then g.Move(f.pos, heading, Min(Times(spd, dt), dist)) else f.pos,
       alt := f.alt + Clamp(altErr, Reach(f, 4.0, dt)),
       battery := Drained(f.battery, BATT_DRAIN * dt))
  }

  /** Near enough at the start of the tick, or past the waypoint at its end, and close in altitude. */
  predicate Arrived(g: Geo, f: Flight, start: Pos, pos: Pos, dt: real)
    requires 0 <= f.wpIdx < |f.waypoints|
  {
    var wp := f.waypoints[f.wpIdx];
    var spd := Times(Speed(wp), f.speedMult);
    (g.Dist(f.pos, wp.pos) < Max(WP_RADIUS_M, Times(spd, dt)) || Passed(g, start, wp.pos, pos))
    && Abs(Altitude(wp, 30.0) - f.alt) < 3.0
  }

  function FlyingStep(g: Geo, f: Flight, dt: real): Ticked
    requires 0 <= f.wpIdx <= |f.waypoints|
  {
    if f.wpIdx == |f.waypoints| then Ticked(f.(phase := Paused), false, false)
    else
      var moved := Flown(g, f, dt);
      var start := if f.legStart.Some? then f.legStart.value else moved.pos;
      if Arrived(g, f, start, moved.pos, dt) then
        Done(moved.(wpIdx := f.wpIdx + 1, legStart := None,
                    phase := if f.wpIdx + 1 == |f.waypoints| then Paused else Flying))
      else Done(moved.(legStart := Some(start)))
  }

  function HoverStep(g: Geo, f: Flight, dt: real): Ticked {
    var heading := Mod360(f.heading + Times(3.0 * dt, f.speedMult));
    Done(f.(heading := heading, battery := Drained(f.battery, BATT_DRAIN * 0.5 * dt),
            pos := if f.phase.Guided? then g.Move(f.pos, heading, 4.0 * dt) else f.pos))
  }

  /** Fly back along the visited waypoints. */
  function Retracing(g: Geo, f: Flight, dt: real): Flight
    requires f.rtlRoute != []
  {
    var wp := f.rtlRoute[0];
    var dist := g.Dist(f.pos, wp.pos);
    var heading := if dist > 0.5 then g.Bearing(f.pos, wp.pos) else f.heading;
    var altErr := Altitude(wp, f.alt) - f.alt;
    f.(heading := heading,
       pos := if dist > 1.0 then g.Move(f.pos, heading, Min(Times(Times(CRUISE_MS, f.speedMult), dt), dist)) else f.pos,
       alt := f.alt + Clamp(altErr, Reach(f, 4.0, dt)),
       battery := Drained(f.battery, BATT_DRAIN * dt),
       rtlRoute := if dist < WP_RADIUS_M && Abs(altErr) < 3.0 then f.rtlRoute[1..] else f.rtlRoute)
  }

  /** Fly straight home and sink once near. */
  function Homing(g: Geo, f: Flight, dt: real): Flight {
    var dist := g.Dist(f.pos, f.home);
    var heading := g.Bearing(f.pos, f.home);
    f.(heading := heading,
       pos := if dist > 2.0 then g.Move(f.pos, heading, Min(Times(Times(CRUISE_MS, f.speedMult), dt), dist)) else f.pos,
       alt := if dist < 50.0 then Max(0.0, f.alt - Reach(f, DESCENT_MS, dt)) else f.alt,
       battery := Drained(f.battery, BATT_DRAIN * dt))
  }

  function RtlStep(g: Geo, f: Flight, dt: real): Ticked {
    if f.rtlRoute != [] then Ticked(Retracing(g, f, dt), false, false)
    else if g.Dist(f.pos, f.home) < 5.0 && f.alt < 2.0 then
      Ticked(f.(alt := 0.0, isArmed := false, phase := Landed), false, false)
    else Done(Homing(g, f, dt))
  }

  function LandingStep(f: Flight, dt: real): Ticked {
    var alt := Max(0.0, f.alt - Reach(f, DESCENT_MS, dt));
    if alt <= 0.05 then Done(f.(alt := 0.0, isArmed := false, phase := Landed)) else Done(f.(alt := alt))
  }

  function PhaseStep(g: Geo, f: Flight, dt: real): Ticked
    requires 0 <= f.wpIdx <= |f.waypoints|
  {
    match f.phase
    case Takeoff => TakeoffStep(g, f, dt)
    case Flying => FlyingStep(g, f, dt)
    case Guided => HoverStep(g, f, dt)
    case Paused => HoverStep(g, f, dt)
    case Rtl => RtlStep(g, f, dt)
    case Landing => LandingStep(f, dt)
    case _ => Done(f)
  }

  // ----- Collision avoidance -----

  /** The other drone is close and in the same layer, and does not have to give way itself. */
  predicate Conflicts(g: Geo, f: Flight, o: Other) {
    g.Dist(f.pos, o.pos) < CONFLICT_RADIUS_M && Abs(f.alt + HOME_MSL - o.altMsl) < CONFLICT_ALT_M && f.id >= o.id
  }

  function Proximity(dist: real): real {
    Max(0.0, 1.0 - dist / CONFLICT_RADIUS_M)
  }

  datatype Push = Push(conflict: bool, bias: real, north: real, east: real)

  function Pushed(g: Geo, f: Flight, dt: real, o: Other, p: Push): Push {
    if !Conflicts(g, f, o) then p
    else
      var dist := g.Dist(f.pos, o.pos);
      var away := if dist <= 0.5 then Mod360(f.heading + 90.0) else g.Bearing(o.pos, f.pos);
      var mag := Max(Times(AVOID_LATERAL_MS * Max(Proximity(dist), 0.25), dt), if dist <= 0.5 then 6.0 else 1.0);
      Push(true, Max(p.bias, AVOID_ALT_STEP_M * Proximity(dist)), p.north + Times(mag, g.Cos(away)), p.east + Times(mag, g.Sin(away)))
  }

  function PushedAll(g: Geo, f: Flight, dt: real, others: seq<Other>, p: Push := Push(false, 0.0, 0.0, 0.0)): Push {
    if others == [] then p else PushedAll(g, f, dt, others[1..], Pushed(g, f, dt, others[0], p))
  }

  /** How far the borrowed altitude moves this tick. */
  function OffsetDelta(offset: real, bias: real, dt: real): real {
    var d := Clamp(bias - offset, AVOID_ALT_RATE_MS * dt);
    if Abs(d) > EPS then d else 0.0
  }

  function SideStep(g: Geo, pos: Pos, p: Push): Pos {
    if p.north == 0.0 && p.east == 0.0 then pos
    else
      var mag := g.Hypot(p.north, p.east);
      var bearing := g.Angle(p.east, p.north);
      var next := g.Move(pos, bearing, mag);
      if p.conflict && next == pos then g.Move(pos, Mod360(bearing + 90.0), Max(mag, 1.0)) else next
  }

  /** `others` is None for a flight that no manager owns. */
  function Avoided(g: Geo, f: Flight, dt: real, others: Option<seq<Other>>): Flight {
    if others.None? then f
    else
      var p := PushedAll(g, f, dt, others.value);
      var d := OffsetDelta(f.offset, p.bias, dt);
      f.(avoiding := p.conflict, offset := f.offset + d,
         alt := if d != 0.0 then Max(0.0, f.alt + d) else f.alt, pos := SideStep(g, f.pos, p))
  }

  /** One tick. `now` is the clock the manual override is checked against. */
  function Tick(g: Geo, f: Flight, dt: real, now: real, others: Option<seq<Other>>): Ticked
    requires 0 <= f.wpIdx <= |f.waypoints|
  {
    if now <= f.manualUntil then Ticked(ManualStep(g, f, dt), false, false)
    else
      var r := PhaseStep(g, f.(vx := 0.0, vy := 0.0, vz := 0.0), dt);
      if r.avoids then r.(f := Avoided(g, r.f, dt, others)) else r
  }

  // ----- What every step keeps -----

  ghost predicate Inv(f: Flight) {
    && 0 <= f.wpIdx <= |f.waypoints|
    && 0.0 <= f.battery <= 100.0
    && 0.0 <= f.offset <= AVOID_ALT_STEP_M
    && 0.1 <= f.speedMult <= 20.0
  }

  lemma StartedInv(id: int, waypoints: seq<Waypoint>, home: Pos, speedMult: real)
    ensures Inv(Started(id, waypoints, home, speedMult))
  {
  }

  /** Commands leave battery and avoidance alone, and keep the waypoint index unless they replace the mission. */
  lemma HandledKeeps(f: Flight, c: Command, now: real)
    requires Inv(f)
    ensures var f' := Handled(f, c, now);
      && Inv(f') && f'.battery == f.battery && f'.offset == f.offset
      && (f'.wpIdx == f.wpIdx || (c.Goto? && f'.wpIdx == 0 && |f'.waypoints| == 1))
  {
    hide Retraced, Altitude, Max, Min;
  }

  lemma DrainedBounds(battery: real, amount: real)
    requires 0.0 <= battery <= 100.0 && amount >= 0.0
    ensures 0.0 <= Drained(battery, amount) <= battery && battery - Drained(battery, amount) <= amount
  {
  }

  /** What a physics step may change. */
  ghost predicate Steady(f: Flight, f': Flight, dt: real) {
    && |f'.waypoints| == |f.waypoints| && f'.speedMult == f.speedMult && f'.offset == f.offset
    && (f'.wpIdx == f.wpIdx || (f.phase.Flying? && f.wpIdx < |f.waypoints| && f'.wpIdx == f.wpIdx + 1))
    && 0.0 <= f'.battery <= f.battery && f.battery - f'.battery <= BATT_DRAIN * dt
  }

  lemma HalfDrain(dt: real)
    requires dt >= 0.0
    ensures 0.0 <= BATT_DRAIN * 0.5 * dt <= BATT_DRAIN * dt
  {
  }

  lemma MovingSteady(g: Geo, f: Flight, dt: real)
    requires Inv(f) && dt >= 0.0
    ensures f.phase.Flying? ==> Steady(f, FlyingStep(g, f, dt).f, dt)
    ensures Steady(f, HoverStep(g, f, dt).f, dt)
  {
    hide Drained, Clamp, Mod360, Arrived, Speed, Altitude, Max, Min, Reach;
    DrainedBounds(f.battery, BATT_DRAIN * dt);
    HalfDrain(dt);
    DrainedBounds(f.battery, BATT_DRAIN * 0.5 * dt);
  }

  lemma VerticalSteady(g: Geo, f: Flight, dt: real)
    requires Inv(f) && dt >= 0.0
    ensures Steady(f, TakeoffStep(g, f, dt).f, dt) && Steady(f, LandingStep(f, dt).f, dt)
    ensures Steady(f, RtlStep(g, f, dt).f, dt)
  {
    hide Drained, Clamp, Altitude, Max, Min, Abs, Reach;
    DrainedBounds(f.battery, BATT_DRAIN * dt);
    HalfDrain(dt);
  }

  lemma PhaseStepSteady(g: Geo, f: Flight, dt: real)
    requires Inv(f) && dt >= 0.0
    ensures Steady(f, PhaseStep(g, f, dt).f, dt)
  {
    hide FlyingStep, HoverStep, TakeoffStep, LandingStep, RtlStep;
    MovingSteady(g, f, dt);
    VerticalSteady(g, f, dt);
    HalfDrain(dt);
  }

  lemma ManualStepSteady(g: Geo, f: Flight, dt: real)
    requires Inv(f) && dt >= 0.0
    ensures Steady(f, ManualStep(g, f, dt), dt)
  {
    hide Drained, Max;
    DrainedBounds(f.battery, BATT_DRAIN * dt);
  }

  lemma ProximityBounds(dist: real)
    requires dist >= 0.0
    ensures 0.0 <= Proximity(dist) <= 1.0
  {
  }

  lemma {:induction false} BiasBounds(g: Geo, f: Flight, dt: real, others: seq<Other>, p: Push)
    requires g.Valid() && 0.0 <= p.bias <= AVOID_ALT_STEP_M && (!p.conflict ==> p.bias == 0.0)
    ensures var r := PushedAll(g, f, dt, others, p);
      0.0 <= r.bias <= AVOID_ALT_STEP_M && (!r.conflict ==> r.bias == 0.0)
    decreases |others|
  {
    hide Proximity, Conflicts, Mod360;
    if others != [] {
      ProximityBounds(g.Dist(f.pos, others[0].pos));
      BiasBounds(g, f, dt, others[1..], Pushed(g, f, dt, others[0], p));
    }
  }

  /** The borrowed altitude moves towards the bias, never past it, and at most at the avoidance rate. */
  lemma DeltaBounds(offset: real, bias: real, dt: real)
    requires dt >= 0.0
    ensures var d := OffsetDelta(offset, bias, dt);
      && Abs(d) <= AVOID_ALT_RATE_MS * dt
      && (bias >= offset ==> offset <= offset + d <= bias)
      && (bias <= offset ==> bias <= offset + d <= offset)
  {
  }

  lemma AvoidedKeeps(g: Geo, f: Flight, dt: real, others: Option<seq<Other>>)
    requires g.Valid() && Inv(f) && dt >= 0.0
    ensures var f' := Avoided(g, f, dt, others);
      && Inv(f') && f'.battery == f.battery && f'.wpIdx == f.wpIdx && f'.waypoints == f.waypoints
      && f'.phase == f.phase && Abs(f'.offset - f.offset) <= AVOID_ALT_RATE_MS * dt
  {
    hide PushedAll, OffsetDelta, SideStep, Max;
    if others.Some? {
      BiasBounds(g, f, dt, others.value, Push(false, 0.0, 0.0, 0.0));
      DeltaBounds(f.offset, PushedAll(g, f, dt, others.value).bias, dt);
    }
  }

  /**
   * Every tick keeps the invariant; the waypoint index stays or advances by one, the battery drops by
   * at most the cruise drain and the borrowed altitude moves by at most the avoidance rate.
   */
  lemma TickKeeps(g: Geo, f: Flight, dt: real, now: real, others: Option<seq<Other>>)
    requires g.Valid() && Inv(f) && dt >= 0.0
    ensures var f' := Tick(g, f, dt, now, others).f;
      && Inv(f')
      && (f'.wpIdx == f.wpIdx || (f.phase.Flying? && f'.wpIdx == f.wpIdx + 1))
      && f.battery - BATT_DRAIN * dt <= f'.battery <= f.battery
      && Abs(f'.offset - f.offset) <= AVOID_ALT_RATE_MS * dt
  {
    hide PhaseStep, ManualStep, Avoided;
    if now <= f.manualUntil {
      ManualStepSteady(g, f, dt);
    } else {
      var f0 := f.(vx := 0.0, vy := 0.0, vz := 0.0);
      PhaseStepSteady(g, f0, dt);
      var r := PhaseStep(g, f0, dt);
      AvoidedKeeps(g, r.f, dt, others);
    }
  }

  // ----- Runs of commands and ticks -----

  datatype Event =
    | Do(c: Command, now: real)
    | Step(now: real, others: Option<seq<Other>>)
    | Breach                 // left an enforced geofence
    | MoveHome(home: Pos)    // set by an external ground station

  /** Crossing an enforced fence sends a flying drone home, along whatever route is still stored. */
  function Breached(f: Flight): Flight {
    if f.phase.Flying? then f.(phase := Rtl) else f
  }

  function After1(g: Geo, f: Flight, e: Event): Flight
    requires 0 <= f.wpIdx <= |f.waypoints|
  {
    match e
    case Do(c, now) => Handled(f, c, now)
    case Step(now, others) => Tick(g, f, TICK, now, others).f
    case Breach => Breached(f)
    case MoveHome(home) => f.(home := home)
  }

  ghost function After(g: Geo, f: Flight, run: seq<Event>): Flight
    requires g.Valid() && Inv(f)
    decreases |run|
  {
    if run == [] then f
    else
      EventKeeps(g, f, run[0]);
      After(g, After1(g, f, run[0]), run[1..])
  }

  lemma EventKeeps(g: Geo, f: Flight, e: Event)
    requires g.Valid() && Inv(f)
    ensures Inv(After1(g, f, e)) && After1(g, f, e).battery <= f.battery
    ensures Abs(After1(g, f, e).offset - f.offset) <= AVOID_ALT_RATE_MS * TICK
  {
    hide Handled, Tick;
    match e
    case Do(c, now) => HandledKeeps(f, c, now);
    case Step(now, others) => TickKeeps(g, f, TICK, now, others);
    case Breach =>
    case MoveHome(_) =>
  }

  /** Over every run of commands and ticks the bounds hold and the battery never rises. */
  lemma {:induction false} RunKeeps(g: Geo, f: Flight, run: seq<Event>)
    requires g.Valid() && Inv(f)
    ensures Inv(After(g, f, run)) && After(g, f, run).battery <= f.battery
    decreases |run|
  {
    hide After1;
    if run != [] {
      EventKeeps(g, f, run[0]);
      RunKeeps(g, After1(g, f, run[0]), run[1..]);
    }
  }

  // ----- The borrowed altitude is given back -----

  /** Does this event run collision avoidance? */
  predicate Avoids(g: Geo, f: Flight, e: Event)
    requires 0 <= f.wpIdx <= |f.waypoints|
  {
    e.Step? && e.now > f.manualUntil && e.others.Some?
    && PhaseStep(g, f.(vx := 0.0, vy := 0.0, vz := 0.0), TICK).avoids
  }

  /** No avoidance of this event finds a conflict. */
  predicate Calm(g: Geo, f: Flight, e: Event)
    requires 0 <= f.wpIdx <= |f.waypoints|
  {
    Avoids(g, f, e) ==> !PushedAll(g, PhaseStep(g, f.(vx := 0.0, vy := 0.0, vz := 0.0), TICK).f, TICK, e.others.value).conflict
  }

  ghost predicate CalmRun(g: Geo, f: Flight, run: seq<Event>)
    requires g.Valid() && Inv(f)
    decreases |run|
  {
    run == [] ||
    (EventKeeps(g, f, run[0]); Calm(g, f, run[0]) && CalmRun(g, After1(g, f, run[0]), run[1..]))
  }

  ghost function Avoidances(g: Geo, f: Flight, run: seq<Event>): nat
    requires g.Valid() && Inv(f)
    decreases |run|
  {
    if run == [] then 0
    else
      EventKeeps(g, f, run[0]);
      (if Avoids(g, f, run[0]) then 1 else 0) + Avoidances(g, After1(g, f, run[0]), run[1..])
  }

  lemma CalmDelta(offset: real)
    requires 0.0 <= offset
    ensures offset + OffsetDelta(offset, 0.0, TICK) <= Max(EPS, offset - 0.3)
    ensures 0.0 <= offset + OffsetDelta(offset, 0.0, TICK) <= offset
  {
  }

  lemma CalmEvent(g: Geo, f: Flight, e: Event)
    requires g.Valid() && Inv(f) && Calm(g, f, e)
    ensures Avoids(g, f, e) ==> After1(g, f, e).offset <= Max(EPS, f.offset - 0.3)
    ensures After1(g, f, e).offset <= f.offset
  {
    hide PhaseStep, PushedAll, Handled, OffsetDelta, SideStep, ManualStep, Max;
    match e
    case Do(c, now) => HandledKeeps(f, c, now);
    case Step(now, others) =>
      if now <= f.manualUntil {
        ManualStepSteady(g, f, TICK);
      } else {
        var f0 := f.(vx := 0.0, vy := 0.0, vz := 0.0);
        PhaseStepSteady(g, f0, TICK);
        var r := PhaseStep(g, f0, TICK).f;
        if others.Some? {
          BiasBounds(g, r, TICK, others.value, Push(false, 0.0, 0.0, 0.0));
        }
        CalmDelta(f.offset);
      }
    case Breach =>
    case MoveHome(_) =>
  }

  lemma {:induction false} CalmRunDecays(g: Geo, f: Flight, run: seq<Event>)
    requires g.Valid() && Inv(f) && CalmRun(g, f, run)
    ensures After(g, f, run).offset <= Max(EPS, f.offset - 0.3 * Avoidances(g, f, run) as real)
    ensures After(g, f, run).offset <= f.offset
    decreases |run|
  {
    hide After1, Calm, Avoids;
    if run != [] {
      EventKeeps(g, f, run[0]);
      CalmEvent(g, f, run[0]);
      CalmRunDecays(g, After1(g, f, run[0]), run[1..]);
    }
  }

  lemma Scaled(n: nat)
    requires n >= 50
    ensures 0.3 * n as real >= AVOID_ALT_STEP_M
  {
  }

  /** Fifty conflict-free avoidance steps, however spread over a run, give back all borrowed altitude. */
  lemma FiftyCalmStepsSuffice(g: Geo, f: Flight, run: seq<Event>)
    requires g.Valid() && Inv(f) && CalmRun(g, f, run) && Avoidances(g, f, run) >= 50
    ensures 0.0 <= After(g, f, run).offset <= EPS
  {
    hide After, Avoidances, CalmRun;
    RunKeeps(g, f, run);
    CalmRunDecays(g, f, run);
    Scaled(Avoidances(g, f, run));
  }

  // ----- The tick that raises -----

  /** A tick raises exactly when a climb reaches its target altitude and the mission is already finished. */
  lemma RaisesIff(g: Geo, f: Flight, dt: real, now: real, others: Option<seq<Other>>)
    requires Inv(f)
    ensures Tick(g, f, dt, now, others).raised <==>
              && now > f.manualUntil && f.phase.Takeoff? && f.alt + Reach(f, CLIMB_MS, dt) >= f.targetAlt
              && f.waypoints != [] && f.wpIdx == |f.waypoints|
  {
    hide FlyingStep, HoverStep, LandingStep, RtlStep, Avoided, ManualStep;
    OnlyTakeoffRaises(g, f.(vx := 0.0, vy := 0.0, vz := 0.0), dt);
  }

  lemma OnlyTakeoffRaises(g: Geo, f: Flight, dt: real)
    requires Inv(f)
    ensures !f.phase.Takeoff? ==> !PhaseStep(g, f, dt).raised
  {
    hide Drained, Flown, Arrived, Retracing, Homing, Mod360, Altitude, Max, Min, Reach, TakeoffStep;
  }

  /** A flight that has yet to climb still has a waypoint to head for. */
  predicate Ready(f: Flight) {
    (f.phase.Idle? || f.phase.Armed? || f.phase.Takeoff?) && f.waypoints != [] ==> f.wpIdx < |f.waypoints|
  }

  lemma HandledReady(f: Flight, c: Command, now: real)
    requires Inv(f) && Ready(f)
    ensures Ready(Handled(f, c, now)) || (c.Disarm? && f.phase.Landed? && f.waypoints != [] && f.wpIdx == |f.waypoints|)
  {
    hide Retraced, Altitude, Max, Min;
  }

  lemma TickReady(g: Geo, f: Flight, dt: real, now: real, others: Option<seq<Other>>)
    requires g.Valid() && Inv(f) && Ready(f) && dt >= 0.0
    ensures Ready(Tick(g, f, dt, now, others).f)
  {
    hide PhaseStep, ManualStep, Avoided, FlyingStep, HoverStep, LandingStep, RtlStep;
    var f0 := f.(vx := 0.0, vy := 0.0, vz := 0.0);
    ManualStepSteady(g, f, dt);
    PhaseStepSteady(g, f0, dt);
    NoStepGrounds(g, f0, dt);
    NoManualGrounds(g, f, dt);
    AvoidedKeeps(g, PhaseStep(g, f0, dt).f, dt, others);
  }

  lemma NoManualGrounds(g: Geo, f: Flight, dt: real)
    ensures ManualStep(g, f, dt).phase == f.phase
  {
  }

  lemma NoStepGrounds(g: Geo, f: Flight, dt: real)
    requires Inv(f)
    ensures var p := PhaseStep(g, f, dt).f.phase; p.Idle? || p.Armed? || p.Takeoff? ==> p == f.phase
  {
    hide Drained, Clamp, Arrived, Mod360, Altitude, Max, Min, Abs, Reach;
  }

  /** Runs in which a landed flight is never disarmed. */
  ghost predicate NoLateDisarm(g: Geo, f: Flight, run: seq<Event>)
    requires g.Valid() && Inv(f)
    decreases |run|
  {
    run == [] ||
    (EventKeeps(g, f, run[0]);
     !(run[0].Do? && run[0].c.Disarm? && f.phase.Landed?) && NoLateDisarm(g, After1(g, f, run[0]), run[1..]))
  }

  /** On such runs no tick ever raises. */
  lemma {:induction false} RunNeverRaises(g: Geo, f: Flight, run: seq<Event>, now: real, others: Option<seq<Other>>)
    requires g.Valid() && Inv(f) && Ready(f) && NoLateDisarm(g, f, run)
    ensures Inv(After(g, f, run)) && !Tick(g, After(g, f, run), TICK, now, others).raised
    decreases |run|
  {
    hide Tick, Handled;
    if run == [] {
      RaisesIff(g, f, TICK, now, others);
    } else {
      EventKeeps(g, f, run[0]);
      EventReady(g, f, run[0]);
      RunNeverRaises(g, After1(g, f, run[0]), run[1..], now, others);
    }
  }

  lemma EventReady(g: Geo, f: Flight, e: Event)
    requires g.Valid() && Inv(f) && Ready(f) && !(e.Do? && e.c.Disarm? && f.phase.Landed?)
    ensures Ready(After1(g, f, e))
  {
    hide Tick, Handled;
    match e
    case Do(c, now) => HandledReady(f, c, now);
    case Step(now, others) => TickReady(g, f, TICK, now, others);
    case Breach =>
    case MoveHome(_) =>
  }

  /** Ticks without manual override and without other traffic. */
  ghost function QuietTicks(g: Geo, f: Flight, now: real, n: nat): Flight
    requires g.Valid() && Inv(f)
    ensures Inv(QuietTicks(g, f, now, n))
    decreases n
  {
    TickKeeps(g, f, TICK, now, Some([]));
    if n == 0 then f else QuietTicks(g, Tick(g, f, TICK, now, Some([])).f, now, n - 1)
  }

  ghost predicate ClimbsFinished(f: Flight, now: real) {
    f.phase.Takeoff? && f.waypoints != [] && f.wpIdx == |f.waypoints| && f.offset == 0.0 && now > f.manualUntil
  }

  lemma QuietAvoidance(g: Geo, f: Flight)
    requires f.offset == 0.0
    ensures Avoided(g, f, TICK, Some([])) == f.(avoiding := false)
  {
    assert PushedAll(g, f, TICK, []) == Push(false, 0.0, 0.0, 0.0);
    assert OffsetDelta(0.0, 0.0, TICK) == 0.0;
  }

  lemma QuietClimb(g: Geo, f: Flight, now: real)
    requires Inv(f) && ClimbsFinished(f, now)
    ensures var r := Tick(g, f, TICK, now, Some([]));
      r.raised || (ClimbsFinished(r.f, now) && r.f.targetAlt == f.targetAlt && r.f.speedMult == f.speedMult
                   && r.f.alt == f.alt + Reach(f, CLIMB_MS, TICK))
  {
    hide Avoided;
    var f0 := f.(vx := 0.0, vy := 0.0, vz := 0.0);
    assert Reach(f0, CLIMB_MS, TICK) == Reach(f, CLIMB_MS, TICK);
    QuietAvoidance(g, f0.(alt := f.alt + Reach(f, CLIMB_MS, TICK)));
  }

  lemma LeastReach(f: Flight)
    requires Inv(f)
    ensures Reach(f, CLIMB_MS, TICK) >= 0.025
  {
  }

  lemma {:induction false} ClimbRaises(g: Geo, f: Flight, now: real, n: nat) returns (k: nat)
    requires g.Valid() && Inv(f) && ClimbsFinished(f, now) && f.alt + 0.025 * (n + 1) as real >= f.targetAlt
    ensures Tick(g, QuietTicks(g, f, now, k), TICK, now, Some([])).raised
    decreases n
  {
    hide Tick, Reach, Inv;
    LeastReach(f);
    QuietClimb(g, f, now);
    if Tick(g, f, TICK, now, Some([])).raised {
      k := 0;
    } else {
      RaisesIff(g, f, TICK, now, Some([]));
      TickKeeps(g, f, TICK, now, Some([]));
      assert n > 0;
      var k' := ClimbRaises(g, Tick(g, f, TICK, now, Some([])).f, now, n - 1);
      k := k' + 1;
    }
  }

  /** A finished mission restarted by three commands drained between two ticks. */
  function Restarted(f: Flight, altitude: Option<real>, now: real): Flight
    requires 0 <= f.wpIdx <= |f.waypoints|
  {
    var f1 := Handled(f, EmergencyStop, now);
    var f2 := Handled(f1, Disarm, now);
    Handled(f2, TakeoffTo(altitude), now)
  }

  lemma RestartedClimbs(f: Flight, altitude: Option<real>, now: real)
    requires Inv(f) && f.waypoints != [] && f.wpIdx == |f.waypoints| && f.offset == 0.0 && now > f.manualUntil
    ensures Inv(Restarted(f, altitude, now)) && ClimbsFinished(Restarted(f, altitude, now), now)
    ensures Restarted(f, altitude, now).alt == 0.0
  {
  }

  /** Whatever altitude the climb aims for, enough undisturbed ticks later a tick raises. */
  lemma RestartAfterMissionRaises(g: Geo, f: Flight, altitude: Option<real>, now: real) returns (k: nat)
    requires g.Valid() && Inv(f) && f.waypoints != [] && f.wpIdx == |f.waypoints| && f.offset == 0.0
    requires now > f.manualUntil
    ensures var r := Restarted(f, altitude, now); Inv(r) && Tick(g, QuietTicks(g, r, now, k), TICK, now, Some([])).raised
  {
    hide Tick, Restarted, Inv, ClimbsFinished;
    RestartedClimbs(f, altitude, now);
    var r := Restarted(f, altitude, now);
    var n := Enough(r.targetAlt);
    k := ClimbRaises(g, r, now, n);
  }

  function Enough(altitude: real): (n: nat)
    ensures 0.025 * (n + 1) as real >= altitude
  {
    if altitude <= 0.0 then 0 else (altitude / 0.025).Floor
  }

  // ----- Who gives way -----

  function SeenAs(f: Flight): Other {
    Other(f.id, f.pos, f.alt + HOME_MSL)
  }

  /** Of two drones in conflict the one with the higher id gives way, and only that one. */
  lemma ExactlyOneGivesWay(g: Geo, a: Flight, b: Flight)
    requires a.id != b.id && g.Dist(a.pos, b.pos) == g.Dist(b.pos, a.pos)
    requires g.Dist(a.pos, b.pos) < CONFLICT_RADIUS_M && Abs(a.alt - b.alt) < CONFLICT_ALT_M
    ensures Conflicts(g, a, SeenAs(b)) <==> !Conflicts(g, b, SeenAs(a))
    ensures Conflicts(g, a, SeenAs(b)) <==> a.id > b.id
  {
    assert a.alt + HOME_MSL - (b.alt + HOME_MSL) == a.alt - b.alt;
    assert b.alt + HOME_MSL - (a.alt + HOME_MSL) == -(a.alt - b.alt);
  }

  /** A conflict is found exactly when some drone in range with a lower id is in the list. */
  lemma {:induction false} ConflictIff(g: Geo, f: Flight, dt: real, others: seq<Other>, p: Push)
    ensures PushedAll(g, f, dt, others, p).conflict <==> p.conflict || exists o :: o in others && Conflicts(g, f, o)
    decreases |others|
  {
    hide Conflicts, Proximity, Mod360;
    if others != [] {
      var next := Pushed(g, f, dt, others[0], p);
      ConflictIff(g, f, dt, others[1..], next);
      assert forall o :: o in others <==> o == others[0] || o in others[1..];
    }
  }

  // ----- Altitude -----

  ghost predicate Overground(f: Flight) {
    && f.alt >= 0.0 && f.targetAlt >= 0.0
    && (forall i :: 0 <= i < |f.waypoints| ==> Altitude(f.waypoints[i], 0.0) >= 0.0)
    && (forall i :: 0 <= i < |f.rtlRoute| ==> Altitude(f.rtlRoute[i], 0.0) >= 0.0)
  }

  /** The altitudes a command asks for are not negative. */
  predicate AsksOverground(c: Command) {
    match c
    case TakeoffTo(altitude) => altitude.Some? ==> altitude.value >= 0.0
    case SetProfile(altitude, _) => altitude.Some? ==> altitude.value >= 0.0
    case Goto(target) => target.Some? ==> Altitude(target.value, 0.0) >= 0.0
    case _ => true
  }

  lemma RetracedOverground(f: Flight)
    requires Inv(f) && Overground(f)
    ensures Overground(EnteredRtl(f, true)) && Overground(EnteredRtl(f, false))
  {
    var route := Retraced(f.waypoints, f.wpIdx, f.alt);
    forall i | 0 <= i < |route|
      ensures Altitude(route[i], 0.0) >= 0.0
    {
      assert Altitude(f.waypoints[f.wpIdx - 1 - i], 0.0) >= 0.0;
    }
  }

  lemma HandledOverground(f: Flight, c: Command, now: real)
    requires Inv(f) && Overground(f) && AsksOverground(c)
    ensures Overground(Handled(f, c, now))
  {
    hide EnteredRtl, Max, Min;
    RetracedOverground(f);
  }

  lemma ReachNotNegative(f: Flight, rate: real, dt: real)
    requires Inv(f) && rate >= 0.0 && dt >= 0.0
    ensures Reach(f, rate, dt) >= 0.0
  {
    assert rate * f.speedMult >= 0.0;
  }

  lemma ClampStaysBetween(alt: real, target: real, bound: real)
    requires alt >= 0.0 && target >= 0.0 && bound >= 0.0
    ensures alt + Clamp(target - alt, bound) >= 0.0
  {
  }

  lemma FlyingOverground(g: Geo, f: Flight, dt: real)
    requires Inv(f) && Overground(f) && dt >= 0.0 && f.phase.Flying?
    ensures Overground(FlyingStep(g, f, dt).f)
  {
    hide Drained, Clamp, Mod360, Arrived, Speed, Min, Max, Abs, Reach;
    var bound := Reach(f, 4.0, dt);
    ReachNotNegative(f, 4.0, dt);
    if f.wpIdx < |f.waypoints| {
      ClampStaysBetween(f.alt, Altitude(f.waypoints[f.wpIdx], 30.0), bound);
    }
  }

  lemma RtlOverground(g: Geo, f: Flight, dt: real)
    requires Inv(f) && Overground(f) && dt >= 0.0
    ensures Overground(RtlStep(g, f, dt).f)
  {
    hide Drained, Clamp, Min, Abs, Reach;
    var bound := Reach(f, 4.0, dt);
    ReachNotNegative(f, 4.0, dt);
    if f.rtlRoute != [] {
      ClampStaysBetween(f.alt, Altitude(f.rtlRoute[0], f.alt), bound);
      assert forall i :: 0 <= i < |f.rtlRoute[1..]| ==> f.rtlRoute[1..][i] == f.rtlRoute[i + 1];
    }
  }

  lemma StepOverground(g: Geo, f: Flight, dt: real)
    requires Inv(f) && Overground(f) && dt >= 0.0
    ensures Overground(PhaseStep(g, f, dt).f)
  {
    hide Drained, FlyingStep, RtlStep, Mod360, Altitude, Reach;
    ReachNotNegative(f, CLIMB_MS, dt);
    if f.phase.Flying? {
      FlyingOverground(g, f, dt);
    }
    RtlOverground(g, f, dt);
  }

  /** A drone that is never sent below ground never goes there. */
  lemma TickOverground(g: Geo, f: Flight, dt: real, now: real, others: Option<seq<Other>>)
    requires Inv(f) && Overground(f) && dt >= 0.0
    ensures Overground(Tick(g, f, dt, now, others).f)
  {
    hide PhaseStep, Drained, PushedAll, SideStep, OffsetDelta;
    StepOverground(g, f.(vx := 0.0, vy := 0.0, vz := 0.0), dt);
  }

  lemma CommandsOverground(g: Geo, f: Flight, e: Event)
    requires g.Valid() && Inv(f) && Overground(f) && (e.Do? ==> AsksOverground(e.c))
    ensures Overground(After1(g, f, e))
  {
    hide Tick, Handled;
    match e
    case Do(c, now) => HandledOverground(f, c, now);
    case Step(now, others) => TickOverground(g, f, TICK, now, others);
    case Breach =>
    case MoveHome(_) =>
  }

  /** Over every run whose commands ask for no negative altitude the drone stays above ground. */
  lemma {:induction false} RunOverground(g: Geo, f: Flight, run: seq<Event>)
    requires g.Valid() && Inv(f) && Overground(f) && forall e :: e in run && e.Do? ==> AsksOverground(e.c)
    ensures Overground(After(g, f, run))
    decreases |run|
  {
    hide After1, Overground, AsksOverground;
    if run != [] {
      assert run[0] in run && forall e :: e in run[1..] ==> e in run;
      EventKeeps(g, f, run[0]);
      CommandsOverground(g, f, run[0]);
      RunOverground(g, After1(g, f, run[0]), run[1..]);
    }
  }

  /** The vertical target of this tick is below ground and within reach. */
  predicate Sinks(f: Flight, dt: real)
    requires 0 <= f.wpIdx <= |f.waypoints|
  {
    || (f.phase.Takeoff? && f.targetAlt < 0.0)
    || (f.phase.Flying? && f.wpIdx < |f.waypoints| && Altitude(f.waypoints[f.wpIdx], 30.0) < 0.0
        && f.alt < Reach(f, 4.0, dt))
    || (f.phase.Rtl? && f.rtlRoute != [] && Altitude(f.rtlRoute[0], f.alt) < 0.0 && f.alt < Reach(f, 4.0, dt))
  }

  lemma ClampBelow(alt: real, target: real, bound: real)
    requires alt >= 0.0 && bound >= 0.0
    ensures alt + Clamp(target - alt, bound) < 0.0 <==> target < 0.0 && alt < bound
  {
  }

  /** A physics step takes a drone below ground exactly when its target lies there and within reach. */
  lemma StepSinksIff(g: Geo, f: Flight, dt: real)
    requires Inv(f) && f.alt >= 0.0 && dt >= 0.0
    ensures PhaseStep(g, f, dt).f.alt < 0.0 <==> Sinks(f, dt)
  {
    hide Drained, Clamp, Mod360, Arrived, Speed, Min, Abs, Reach, Altitude;
    var bound := Reach(f, 4.0, dt);
    ReachNotNegative(f, 4.0, dt);
    ReachNotNegative(f, CLIMB_MS, dt);
    if f.phase.Flying? && f.wpIdx < |f.waypoints| {
      ClampBelow(f.alt, Altitude(f.waypoints[f.wpIdx], 30.0), bound);
    }
    if f.phase.Rtl? && f.rtlRoute != [] {
      ClampBelow(f.alt, Altitude(f.rtlRoute[0], f.alt), bound);
    }
  }

  /** Collision avoidance follows the step and moves the altitude, which it never leaves below ground. */
  predicate Lifted(g: Geo, f: Flight, dt: real, others: Option<seq<Other>>)
    requires 0 <= f.wpIdx <= |f.waypoints|
  {
    var r := PhaseStep(g, f.(vx := 0.0, vy := 0.0, vz := 0.0), dt);
    r.avoids && others.Some? && OffsetDelta(r.f.offset, PushedAll(g, r.f, dt, others.value).bias, dt) != 0.0
  }

  lemma AvoidedAltitude(g: Geo, f: Flight, dt: real, others: Option<seq<Other>>)
    ensures Avoided(g, f, dt, others).alt < 0.0
       <==> f.alt < 0.0 && (others.None? || OffsetDelta(f.offset, PushedAll(g, f, dt, others.value).bias, dt) == 0.0)
  {
    hide PushedAll, OffsetDelta, SideStep;
  }

  /**
   * A tick ends below ground exactly when no manual override holds, the vertical target lies there
   * and within reach, and collision avoidance does not move the altitude in the same tick.
   */
  lemma GoesUndergroundIff(g: Geo, f: Flight, dt: real, now: real, others: Option<seq<Other>>)
    requires Inv(f) && f.alt >= 0.0 && dt >= 0.0
    ensures Tick(g, f, dt, now, others).f.alt < 0.0
       <==> now > f.manualUntil && Sinks(f, dt) && !Lifted(g, f, dt, others)
  {
    hide PhaseStep, Avoided, PushedAll, OffsetDelta, SideStep, Drained, Altitude;
    var f' := f.(vx := 0.0, vy := 0.0, vz := 0.0);
    StepSinksIff(g, f', dt);
    AvoidedAltitude(g, PhaseStep(g, f', dt).f, dt, others);
  }

  /** Nothing rejects a negative target: sent on the ground, it takes the next climb below ground. */
  lemma NegativeGotoGoesUnderground(g: Geo, id: int, mission: seq<Waypoint>, home: Pos, speedMult: real,
                                    target: Waypoint, now: real)
    requires target.altitude.Some? && target.altitude.value < 0.0 && now > 0.0
    ensures var f := Handled(Handled(Started(id, mission, home, speedMult), Goto(Some(target)), now), TakeoffTo(None), now);
            Tick(g, f, TICK, now, None).f.alt == target.altitude.value
  {
    var f := Handled(Handled(Started(id, mission, home, speedMult), Goto(Some(target)), now), TakeoffTo(None), now);
    assert f.targetAlt == target.altitude.value && f.phase.Takeoff? && f.alt == 0.0;
    StartedInv(id, mission, home, speedMult);
    HandledKeeps(Started(id, mission, home, speedMult), Goto(Some(target)), now);
    HandledKeeps(Handled(Started(id, mission, home, speedMult), Goto(Some(target)), now), TakeoffTo(None), now);
    hide Handled, Started;
    ReachNotNegative(f, CLIMB_MS, TICK);
  }

  // ----- From the start of a flight -----

  ghost function FromStart(g: Geo, id: int, mission: seq<Waypoint>, home: Pos, speedMult: real, run: seq<Event>): Flight
    requires g.Valid()
  {
    StartedInv(id, mission, home, speedMult);
    After(g, Started(id, mission, home, speedMult), run)
  }

  /** Every run of every flight stays in bounds, and above ground unless someone asks for less. */
  lemma EveryFlight(g: Geo, id: int, mission: seq<Waypoint>, home: Pos, speedMult: real, run: seq<Event>)
    requires g.Valid()
    ensures Inv(FromStart(g, id, mission, home, speedMult, run))
    ensures (forall i :: 0 <= i < |mission| ==> Altitude(mission[i], 0.0) >= 0.0)
            && (forall e :: e in run && e.Do? ==> AsksOverground(e.c))
            ==> Overground(FromStart(g, id, mission, home, speedMult, run))
  {
    hide After, AsksOverground;
    var f := Started(id, mission, home, speedMult);
    StartedInv(id, mission, home, speedMult);
    RunKeeps(g, f, run);
    if (forall i :: 0 <= i < |mission| ==> Altitude(mission[i], 0.0) >= 0.0)
       && forall e :: e in run && e.Do? ==> AsksOverground(e.c) {
      RunOverground(g, f, run);
    }
  }

  /** From the start on, no landed flight is disarmed. */
  ghost predicate NeverDisarmedLanded(g: Geo, id: int, mission: seq<Waypoint>, home: Pos, speedMult: real, run: seq<Event>)
    requires g.Valid()
  {
    StartedInv(id, mission, home, speedMult);
    NoLateDisarm(g, Started(id, mission, home, speedMult), run)
  }

  /** From the start, only disarming a landed flight can lead to a tick that raises. */
  lemma EveryFlightNeverRaises(g: Geo, id: int, mission: seq<Waypoint>, home: Pos, speedMult: real, run: seq<Event>,
                               now: real, others: Option<seq<Other>>)
    requires g.Valid() && NeverDisarmedLanded(g, id, mission, home, speedMult, run)
    ensures var f := FromStart(g, id, mission, home, speedMult, run);
      Inv(f) && !Tick(g, f, TICK, now, others).raised
  {
    hide Tick;
    StartedInv(id, mission, home, speedMult);
    RunNeverRaises(g, Started(id, mission, home, speedMult), run, now, others);
  }
}
