/** The chore: a task drawn from a fixed catalogue that appears after a
    random delay, needs ten clicks inside its circle, then rests in a
    five-second grace period before it is replaced; an active chore left
    unfinished for fifteen seconds reports a timeout. */
module PlayerEvents {
  import opened Constants

  /** One entry of the catalogue of chores. */
  datatype Chore = Chore(name: string, room: int, x: real, y: real, radius: int)

  /** The names of the four chores. */
  const CHORE_NAMES: set<string> := {"Wash Dishes", "Wash Toielet", "Make Bed", "Fix Lightbulb"}

  /** The catalogue, with positions relative to the screen size. */
  function Catalogue(s: Screen): (c: seq<Chore>)
    ensures |c| == 4
  {
    var w, h := s.width as real, s.height as real;
    [
      Chore("Wash Dishes", 1, w * 0.3, h * (7.0 / 12.0), CIRCLE_RADIUS * 3),
      Chore("Wash Toielet", 0, w * (5.0 / 12.0), h * (4.0 / 6.0), CIRCLE_RADIUS * 3),
      Chore("Make Bed", 2, w * (1.0 / 2.0), h * (4.0 / 6.0), CIRCLE_RADIUS * 4),
      Chore("Fix Lightbulb", 3, w * 0.43, h * (1.0 / 6.0), CIRCLE_RADIUS * 3)
    ]
  }

  /** One chore per room, with distinct names: the rooms of the four
      entries are exactly 0..3, each entry's room determines it, and every
      radius is three circle radii except the bed's, which is four. */
  lemma CatalogueShape(s: Screen)
    ensures forall i | 0 <= i < 4 :: 0 <= Catalogue(s)[i].room < ROOM_COUNT
    ensures (set i | 0 <= i < 4 :: Catalogue(s)[i].room) == {0, 1, 2, 3}
    ensures forall i, j | 0 <= i < 4 && 0 <= j < 4 && Catalogue(s)[i].room == Catalogue(s)[j].room :: i == j
    ensures forall i, j | 0 <= i < 4 && 0 <= j < 4 && Catalogue(s)[i].name == Catalogue(s)[j].name :: i == j
    ensures forall i | 0 <= i < 4 ::
              Catalogue(s)[i].radius == if Catalogue(s)[i].name == "Make Bed" then 4 * CIRCLE_RADIUS else 3 * CIRCLE_RADIUS
    ensures forall c | c in Catalogue(s) :: c.name in CHORE_NAMES
  {
    var c := Catalogue(s);
    assert c[1].room == 0 && c[0].room == 1 && c[2].room == 2 && c[3].room == 3;
  }

  /** The random choices one reset makes: the catalogue index (0..3) and the
      spawn delay in seconds (uniform on [2, 5]). */
  datatype ChoreDraw = ChoreDraw(index: int, delay: real)

  predicate ValidDraw(d: ChoreDraw) {
    0 <= d.index < 4 && 2.0 <= d.delay <= 5.0
  }

  datatype ChoreState = ChoreState(
    active: bool,
    name: string,
    room: int,
    x: real,
    y: real,
    radius: int,
    nextSpawnTime: real,
    activeTime: Option<real>,
    clicks: int,
    completed: bool,
    gracePeriodEnd: Option<real>)

  /** The chore's name, room, position and radius come from one catalogue entry. */
  predicate FromCatalogue(s: Screen, c: ChoreState) {
    Chore(c.name, c.room, c.x, c.y, c.radius) in Catalogue(s)
  }

  /** The counter and sub-state invariants every chore keeps between calls:
      dormant (no clicks, nothing recorded), active (some clicks, not yet
      all), or completed (all clicks, inactive, grace period running). */
  predicate Consistent(c: ChoreState) {
    && 0 <= c.clicks <= PLAYER_EVENT_CLICKS_REQUIRED
    && (c.completed ==> !c.active)
    && (c.completed <==> c.clicks == PLAYER_EVENT_CLICKS_REQUIRED)
    && (c.completed <==> c.gracePeriodEnd.Some?)
    && (c.active || c.completed <==> c.activeTime.Some?)
    && (!c.active && !c.completed ==> c.clicks == 0)
  }

  predicate ValidState(s: Screen, c: ChoreState) {
    FromCatalogue(s, c) && Consistent(c)
  }

  /** The state `reset` leaves behind: a dormant chore copied from the drawn
      catalogue entry, due between two and five seconds from now. */
  function ResetState(s: Screen, now: real, d: ChoreDraw): (c: ChoreState)
    requires ValidDraw(d)
    ensures !c.active && !c.completed && c.clicks == 0
    ensures c.activeTime == None && c.gracePeriodEnd == None
    ensures Chore(c.name, c.room, c.x, c.y, c.radius) == Catalogue(s)[d.index]
    ensures now + 2.0 <= c.nextSpawnTime <= now + 5.0
    ensures ValidState(s, c)
  {
    var e := Catalogue(s)[d.index];
    ChoreState(false, e.name, e.room, e.x, e.y, e.radius, now + d.delay, None, 0, false, None)
  }

  /** The state `update` leaves behind, in exactly three outcomes: a dormant
      chore whose time has come becomes active; a completed chore whose grace
      period is over is reset; otherwise nothing changes. */
  function UpdateState(s: Screen, c: ChoreState, now: real, d: ChoreDraw): (r: ChoreState)
    requires ValidDraw(d)
    requires c.completed ==> c.gracePeriodEnd.Some?
    ensures !c.active && !c.completed && now >= c.nextSpawnTime ==>
              r == c.(active := true, activeTime := Some(now))
    ensures c.completed && now >= c.gracePeriodEnd.value ==> r == ResetState(s, now, d)
    ensures (!(!c.active && !c.completed && now >= c.nextSpawnTime)
             && !(c.completed && now >= c.gracePeriodEnd.value)) ==> r == c
    ensures ValidState(s, c) ==> ValidState(s, r)
  {
    if !c.active && !c.completed && now >= c.nextSpawnTime then
      c.(active := true, activeTime := Some(now))
    else if c.completed && now >= c.gracePeriodEnd.value then
      ResetState(s, now, d)
    else
      c
  }

  /** The circular hit test against the chore's own radius, inclusive at
      the rim: every click at exactly that distance from the centre hits. */
  predicate Hit(c: ChoreState, p: Point)
    ensures ((p.x as real - c.x) * (p.x as real - c.x) + (p.y as real - c.y) * (p.y as real - c.y)
             == (c.radius * c.radius) as real) ==> Hit(c, p)
  {
    WithinRadius(p.x as real, p.y as real, c.x, c.y, c.radius as real)
  }

  /** The result and the state of `is_clicked`: a hit needs an active chore
      in the room being viewed and a click within its radius; it adds one
      click, and the click that reaches the required count completes the
      chore and starts the grace period. A miss changes nothing. */
  function ClickState(c: ChoreState, p: Point, currentRoom: int, now: real): (res: (bool, ChoreState))
    ensures res.0 <==> c.active && c.room == currentRoom && Hit(c, p)
    ensures !res.0 ==> res.1 == c
    ensures res.0 ==> res.1.clicks == c.clicks + 1
    ensures res.0 && res.1.clicks >= PLAYER_EVENT_CLICKS_REQUIRED ==>
              res.1.completed && !res.1.active && res.1.gracePeriodEnd == Some(now + PLAYER_EVENT_GRACE_PERIOD)
    ensures res.0 && res.1.clicks < PLAYER_EVENT_CLICKS_REQUIRED ==> res.1 == c.(clicks := c.clicks + 1)
    ensures Consistent(c) ==> Consistent(res.1)
    ensures (res.1.name, res.1.room, res.1.x, res.1.y, res.1.radius) == (c.name, c.room, c.x, c.y, c.radius)
  {
    if !c.active || c.room != currentRoom then
      (false, c)
    else if Hit(c, p) then
      var c' := c.(clicks := c.clicks + 1);
      if c'.clicks >= PLAYER_EVENT_CLICKS_REQUIRED then
        (true, c'.(completed := true, active := false,
                    gracePeriodEnd := Some(now + PLAYER_EVENT_GRACE_PERIOD)))
      else
        (true, c')
    else
      (false, c)
  }

  /** `check_timeout`: the chore is active and more than fifteen seconds
      have passed since it appeared. */
  predicate TimedOut(c: ChoreState, now: real)
    requires c.active ==> c.activeTime.Some?
    ensures TimedOut(c, now) ==> c.active
    ensures c.active ==> (TimedOut(c, now) <==> now > c.activeTime.value + PLAYER_EVENT_TIMEOUT)
  {
    c.active && now - c.activeTime.value > PLAYER_EVENT_TIMEOUT
  }

  /** A click exactly on the rim of an active chore in the room being
      viewed counts as one of its clicks. */
  lemma RimIsHit(c: ChoreState, p: Point, room: int, now: real)
    requires c.active && c.room == room
    requires (p.x as real - c.x) * (p.x as real - c.x) + (p.y as real - c.y) * (p.y as real - c.y)
               == (c.radius * c.radius) as real
    ensures ClickState(c, p, room, now).0
    ensures ClickState(c, p, room, now).1.clicks == c.clicks + 1
  {
  }

  /** A completed chore in its grace period never times out, and a timeout,
      once reported, stays reported for later clock readings. */
  lemma TimedOutOnlyWhileActive(c: ChoreState, now: real, later: real)
    requires Consistent(c)
    ensures c.completed ==> !TimedOut(c, now)
    ensures TimedOut(c, now) && now <= later ==> TimedOut(c, later)
  {
  }

  /** The fraction of the progress bar that is filled. */
  function Progress(c: ChoreState): (f: real)
    ensures Consistent(c) ==> 0.0 <= f <= 1.0
    ensures Consistent(c) ==> (f == 1.0 <==> c.completed)
  {
    c.clicks as real / PLAYER_EVENT_CLICKS_REQUIRED as real
  }

  /** Completion followed by the end of the grace period gives a fresh,
      dormant chore with no clicks, which activates once its new spawn time
      has come. */
  lemma GraceRoundTrip(s: Screen, c: ChoreState, now: real, d: ChoreDraw, later: real)
    requires ValidState(s, c) && c.completed && ValidDraw(d)
    requires now >= c.gracePeriodEnd.value
    requires later >= UpdateState(s, c, now, d).nextSpawnTime
    ensures UpdateState(s, c, now, d).clicks == 0
    ensures !UpdateState(s, c, now, d).active && !UpdateState(s, c, now, d).completed
    ensures UpdateState(s, UpdateState(s, c, now, d), later, d).active
  {
  }

  /** The chore as the game holds it: an object whose fields the operations
      update in place. */
  class PlayerEvent {
    const screen: Screen
    var active: bool
    var name: string
    var room: int
    var x: real
    var y: real
    var radius: int
    var nextSpawnTime: real
    var activeTime: Option<real>
    var clicks: int
    var completed: bool
    var gracePeriodEnd: Option<real>

    function State(): ChoreState
      reads this
    {
      ChoreState(active, name, room, x, y, radius, nextSpawnTime, activeTime, clicks, completed, gracePeriodEnd)
    }

    ghost predicate Valid()
      reads this
    {
      ValidState(screen, State())
    }

    constructor (screen: Screen, now: real, d: ChoreDraw)
      requires ValidDraw(d)
      ensures this.screen == screen
      ensures State() == ResetState(screen, now, d) && Valid()
    {
      this.screen := screen;
      new;
      Reset(now, d);
    }

    method Reset(now: real, d: ChoreDraw)
      requires ValidDraw(d)
      modifies this
      ensures State() == ResetState(screen, now, d) && Valid()
    {
      active := false;
      var entry := Catalogue(screen)[d.index];
      room := entry.room;
      x := entry.x;
      y := entry.y;
      radius := entry.radius;
      name := entry.name;
      nextSpawnTime := now + d.delay;
      activeTime := None;
      clicks := 0;
      completed := false;
      gracePeriodEnd := None;
    }

    method Update(now: real, d: ChoreDraw)
      requires ValidDraw(d) && Valid()
      modifies this
      ensures State() == UpdateState(screen, old(State()), now, d) && Valid()
    {
      if !active && !completed && now >= nextSpawnTime {
        active := true;
        activeTime := Some(now);
      } else if completed && now >= gracePeriodEnd.value {
        Reset(now, d);
      }
    }

    method IsClicked(p: Point, currentRoom: int, now: real) returns (hit: bool)
      requires Valid()
      modifies this
      ensures (hit, State()) == ClickState(old(State()), p, currentRoom, now) && Valid()
    {
      if !active || room != currentRoom {
        return false;
      }
      if WithinRadius(p.x as real, p.y as real, x, y, radius as real) {
        clicks := clicks + 1;
        if clicks >= PLAYER_EVENT_CLICKS_REQUIRED {
          completed := true;
          active := false;
          gracePeriodEnd := Some(now + PLAYER_EVENT_GRACE_PERIOD);
        }
        return true;
      }
      return false;
    }

    predicate CheckTimeout(now: real)
      reads this
      requires active ==> activeTime.Some?
      ensures CheckTimeout(now) <==> active && now - activeTime.value > PLAYER_EVENT_TIMEOUT
    {
      TimedOut(State(), now)
    }
  }
}
