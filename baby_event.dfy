/** The baby hazard: a timer that spawns a marker in a random room after a
    random delay, is answered by one click inside its circle, and reports a
    timeout five seconds after it appeared. */
module BabyEvents {
  import opened Constants

  /** Seconds an active baby event may stay unanswered. */
  const BABY_TIMEOUT: real := 5.0

  type Position = (int, int)

  /** The random choices one reset makes: the room (an integer in 0..3), the
      index into that room's list of two candidate positions, the position
      the fallback branch would draw for a room without candidates, and the
      spawn delay in seconds (uniform on [2, 5]). */
  datatype SpawnDraw = SpawnDraw(room: int, slot: int, fallback: Position, delay: real)

  predicate ValidDraw(d: SpawnDraw) {
    0 <= d.room <= 3 && 0 <= d.slot <= 1 && 2.0 <= d.delay <= 5.0
  }

  /** A screen coordinate scaled by a factor and truncated to an integer;
      for a non-negative product truncation and floor agree. */
  function Scale(n: int, f: real): int {
    (n as real * f).Floor
  }

  /** The two candidate positions of each room. */
  function AllowedPositions(s: Screen): (m: map<int, seq<Position>>)
    ensures m.Keys == {0, 1, 2, 3}
    ensures forall r | r in m :: |m[r]| == 2
  {
    map[
      0 := [(Scale(s.width, 0.2), Scale(s.height, 0.5)), (Scale(s.width, 0.8), Scale(s.height, 0.6))],
      1 := [(Scale(s.width, 0.25), Scale(s.height, 0.5)), (Scale(s.width, 0.75), Scale(s.height, 0.5))],
      2 := [(Scale(s.width, 0.1), Scale(s.height, 0.5)), (Scale(s.width, 0.3), Scale(s.height, 0.87))],
      3 := [(Scale(s.width, 0.9), Scale(s.height, 0.8)), (Scale(s.width, 0.1), Scale(s.height, 0.5))]
    ]
  }

  /** Where a freshly reset event is placed: one of the room's candidates
      when the room has any, otherwise the fallback draw. */
  function PickPosition(s: Screen, room: int, slot: int, fallback: Position): (p: Position)
    requires 0 <= slot <= 1
    ensures room in AllowedPositions(s) ==> p in AllowedPositions(s)[room]
    ensures room !in AllowedPositions(s) ==> p == fallback
  {
    var table := AllowedPositions(s);
    if room in table then table[room][slot] else fallback
  }

  /** Every room the reset can draw has candidates, so the fallback branch
      is never taken. */
  lemma FallbackUnreachable(s: Screen, d: SpawnDraw)
    requires ValidDraw(d)
    ensures d.room in AllowedPositions(s)
    ensures PickPosition(s, d.room, d.slot, d.fallback) in AllowedPositions(s)[d.room]
  {
  }

  datatype BabyState = BabyState(
    active: bool,
    room: int,
    x: int,
    y: int,
    nextSpawnTime: real,
    activeTime: Option<real>)

  /** What every baby event satisfies between calls. */
  predicate ValidState(s: Screen, b: BabyState) {
    && 0 <= b.room <= 3
    && (b.x, b.y) in AllowedPositions(s)[b.room]
    && (b.active <==> b.activeTime.Some?)
  }

  /** The state `reset` leaves behind. */
  function ResetState(s: Screen, now: real, d: SpawnDraw): (b: BabyState)
    requires ValidDraw(d)
    ensures !b.active && b.activeTime == None
    ensures b.room == d.room && 0 <= b.room <= 3
    ensures (b.x, b.y) in AllowedPositions(s)[b.room]
    ensures now + 2.0 <= b.nextSpawnTime <= now + 5.0
    ensures ValidState(s, b)
  {
    var p := PickPosition(s, d.room, d.slot, d.fallback);
    BabyState(false, d.room, p.0, p.1, now + d.delay, None)
  }

  /** The state `update` leaves behind: a dormant event whose spawn time has
      come becomes active and records when; otherwise nothing changes. */
  function UpdateState(b: BabyState, now: real): (r: BabyState)
    ensures b.active || now < b.nextSpawnTime ==> r == b
    ensures !b.active && now >= b.nextSpawnTime ==> r.active && r.activeTime == Some(now)
    ensures r.room == b.room && r.x == b.x && r.y == b.y && r.nextSpawnTime == b.nextSpawnTime
  {
    if !b.active && now >= b.nextSpawnTime then
      b.(active := true, activeTime := Some(now))
    else
      b
  }

  lemma UpdateKeepsValid(s: Screen, b: BabyState, now: real)
    requires ValidState(s, b)
    ensures ValidState(s, UpdateState(b, now))
  {
  }

  /** Once active, further updates never re-stamp the activation time. */
  lemma UpdateStampsOnce(b: BabyState, t1: real, t2: real)
    requires UpdateState(b, t1).active
    ensures UpdateState(UpdateState(b, t1), t2) == UpdateState(b, t1)
  {
  }

  /** The circular hit test, inclusive at the radius. Both the click and
      the centre are whole pixels, so it is a test on integers. */
  predicate Hit(b: BabyState, p: Point)
    ensures Hit(b, p) <==> (p.x - b.x) * (p.x - b.x) + (p.y - b.y) * (p.y - b.y) <= CIRCLE_RADIUS * CIRCLE_RADIUS
  {
    WithinRadius(p.x as real, p.y as real, b.x as real, b.y as real, CIRCLE_RADIUS as real)
  }

  /** The result and the state of `is_clicked`: a hit needs an active event
      in the room being viewed and a click within the radius, and re-arms
      the event; a miss changes nothing. */
  function ClickState(s: Screen, b: BabyState, p: Point, currentRoom: int, now: real, d: SpawnDraw)
    : (res: (bool, BabyState))
    requires ValidDraw(d)
    ensures res.0 <==> b.active && b.room == currentRoom && Hit(b, p)
    ensures !res.0 ==> res.1 == b
    ensures res.0 ==> !res.1.active && res.1.activeTime == None
    ensures res.0 ==> now + 2.0 <= res.1.nextSpawnTime <= now + 5.0
    ensures res.0 ==> ValidState(s, res.1)
  {
    if !b.active || b.room != currentRoom then
      (false, b)
    else if Hit(b, p) then
      (true, ResetState(s, now, d))
    else
      (false, b)
  }

  /** `check_timeout`: the event is active and more than five seconds have
      passed since it appeared. */
  predicate TimedOut(b: BabyState, now: real)
    requires b.active ==> b.activeTime.Some?
    ensures TimedOut(b, now) ==> b.active
    ensures b.active ==> (TimedOut(b, now) <==> now > b.activeTime.value + BABY_TIMEOUT)
  {
    b.active && now - b.activeTime.value > BABY_TIMEOUT
  }

  /** A click exactly on the rim of an active baby in the room being viewed
      answers it: the hit test is inclusive at every point of the circle. */
  lemma RimIsHit(s: Screen, b: BabyState, p: Point, room: int, now: real, d: SpawnDraw)
    requires ValidDraw(d) && b.active && b.room == room
    requires (p.x - b.x) * (p.x - b.x) + (p.y - b.y) * (p.y - b.y) == CIRCLE_RADIUS * CIRCLE_RADIUS
    ensures ClickState(s, b, p, room, now, d).0
  {
  }

  /** The timeout is strict at five seconds and, for a fixed activation
      time, stays true for every later clock reading. */
  lemma TimedOutMonotone(b: BabyState, now: real, later: real)
    requires b.active ==> b.activeTime.Some?
    requires TimedOut(b, now) && now <= later
    ensures TimedOut(b, later)
    ensures b.active && b.activeTime.value + BABY_TIMEOUT < now
    ensures !TimedOut(b, b.activeTime.value + BABY_TIMEOUT)
  {
  }

  /** The baby event as the game holds it: an object whose fields the
      operations update in place. */
  class BabyEvent {
    const screen: Screen
    var active: bool
    var room: int
    var x: int
    var y: int
    var nextSpawnTime: real
    var activeTime: Option<real>

    function State(): BabyState
      reads this
    {
      BabyState(active, room, x, y, nextSpawnTime, activeTime)
    }

    ghost predicate Valid()
      reads this
    {
      ValidState(screen, State())
    }

    constructor (screen: Screen, now: real, d: SpawnDraw)
      requires ValidDraw(d)
      ensures this.screen == screen
      ensures State() == ResetState(screen, now, d) && Valid()
    {
      this.screen := screen;
      new;
      Reset(now, d);
    }

    method Reset(now: real, d: SpawnDraw)
      requires ValidDraw(d)
      modifies this
      ensures State() == ResetState(screen, now, d) && Valid()
    {
      active := false;
      room := d.room;
      var table: map<int, seq<Position>> := AllowedPositions(screen);
      if room in table {
        var pos := table[room][d.slot];
        x, y := pos.0, pos.1;
      } else {
        x, y := d.fallback.0, d.fallback.1;
      }
      nextSpawnTime := now + d.delay;
      activeTime := None;
    }

    method Update(now: real)
      modifies this
      ensures State() == UpdateState(old(State()), now)
    {
      if !active && now >= nextSpawnTime {
        active := true;
        activeTime := Some(now);
      }
    }

    method IsClicked(p: Point, currentRoom: int, now: real, d: SpawnDraw) returns (hit: bool)
      requires ValidDraw(d)
      modifies this
      ensures (hit, State()) == ClickState(screen, old(State()), p, currentRoom, now, d)
    {
      if !active || room != currentRoom {
        return false;
      }
      if WithinRadius(p.x as real, p.y as real, x as real, y as real, CIRCLE_RADIUS as real) {
        Reset(now, d);
        return true;
      }
      return false;
    }

    predicate CheckTimeout(now: real)
      reads this
      requires active ==> activeTime.Some?
      ensures CheckTimeout(now) <==> active && now - activeTime.value > BABY_TIMEOUT
    {
      TimedOut(State(), now)
    }
  }
}
