/** The session controller on values: the state of one game, what a frame,
    a click and a navigation step do to it, and the invariants and
    priorities these keep. Module Bebelus holds the same state in objects
    updated in place and proves that its methods follow these functions. */
module GameLogic {
  import opened Constants
  import BabyEvents
  import PlayerEvents

  /** Seconds of survival that win the game. */
  const WIN_TIME: real := 100.0

  datatype Cause = Baby | Task

  /** A background image: a loaded file, or the plain white surface that
      stands in for a file that failed to load. */
  datatype Texture = Image(file: string) | Blank

  /** What the game reads from its surroundings: the screen, which image
      files load, and whether the two sounds loaded. */
  datatype Config = Config(screen: Screen, assets: set<string>, hasBackgroundSound: bool, hasVictorySound: bool)

  function Load(cfg: Config, file: string): (t: Texture)
    ensures t == Blank <==> file !in cfg.assets
    ensures t != Blank ==> t == Image(file)
  {
    if file in cfg.assets then Image(file) else Blank
  }

  /** Background file of each room, by room index. */
  const ROOM_IMAGES: seq<string> := ["baie.png", "bucatarie.png", "dormitor.png", "living.PNG"]

  /** Background file of each chore, and the room whose background stands
      in for it when the file fails to load. */
  const CHORE_IMAGES: seq<(string, string, int)> := [
    ("Wash Dishes", "bucatarie_vase.png", 1),
    ("Wash Toielet", "baie_murdara.png", 0),
    ("Make Bed", "pat_dezordonat.png", 2),
    ("Fix Lightbulb", "lampa_sparta.png", 3)
  ]

  /** The loaded room backgrounds, one per room in the order of the file list. */
  function DefaultBackgrounds(cfg: Config): (d: seq<Texture>)
    ensures |d| == ROOM_COUNT
  {
    [Load(cfg, ROOM_IMAGES[0]), Load(cfg, ROOM_IMAGES[1]), Load(cfg, ROOM_IMAGES[2]), Load(cfg, ROOM_IMAGES[3])]
  }

  /** A failed load gives the plain surface in its room's slot, and only then. */
  lemma DefaultBackgroundsBlank(cfg: Config)
    ensures forall i | 0 <= i < ROOM_COUNT :: (DefaultBackgrounds(cfg)[i] == Blank <==> ROOM_IMAGES[i] !in cfg.assets)
  {
  }

  /** The background of one chore: its own file, or its room's background. */
  function ChoreImage(cfg: Config, defaults: seq<Texture>, e: (string, string, int)): Texture
    requires 0 <= e.2 < |defaults|
  {
    if e.1 in cfg.assets then Image(e.1) else defaults[e.2]
  }

  /** The chore names of the first `n` entries of the table. */
  function ChoreKeys(n: nat): set<string>
    requires n <= |CHORE_IMAGES|
  {
    if n == 0 then {} else ChoreKeys(n - 1) + {CHORE_IMAGES[n - 1].0}
  }

  /** The chore backgrounds after loading the first `n` entries of the table. */
  function ChoreBackgrounds(cfg: Config, defaults: seq<Texture>, n: nat): (m: map<string, Texture>)
    requires |defaults| == ROOM_COUNT && n <= |CHORE_IMAGES|
    ensures m.Keys == ChoreKeys(n)
  {
    if n == 0 then map[]
    else ChoreBackgrounds(cfg, defaults, n - 1)[CHORE_IMAGES[n - 1].0 := ChoreImage(cfg, defaults, CHORE_IMAGES[n - 1])]
  }

  /** Each loaded entry keeps its own background: no later entry of the table
      overwrites an earlier one, because the chore names are distinct. */
  lemma {:induction false} ChoreBackgroundsValues(cfg: Config, defaults: seq<Texture>, n: nat)
    requires |defaults| == ROOM_COUNT && n <= |CHORE_IMAGES|
    ensures forall k | 0 <= k < n ::
              CHORE_IMAGES[k].0 in ChoreBackgrounds(cfg, defaults, n)
              && ChoreBackgrounds(cfg, defaults, n)[CHORE_IMAGES[k].0] == ChoreImage(cfg, defaults, CHORE_IMAGES[k])
  {
    if n > 0 {
      ChoreBackgroundsValues(cfg, defaults, n - 1);
    }
  }

  /** Every chore has a background once all four entries are loaded. */
  lemma AllChoresHaveBackgrounds(cfg: Config, defaults: seq<Texture>)
    requires |defaults| == ROOM_COUNT
    ensures ChoreBackgrounds(cfg, defaults, 4).Keys == PlayerEvents.CHORE_NAMES
  {
  }

  /** One step of the haunting schedule: its threshold in seconds, the room
      whose background it replaces and that background's file, the chore
      whose background it replaces and that file, and the ambient volume it
      aims for. */
  datatype Stage = Stage(threshold: int, room: int, roomFile: string, chore: string, choreFile: string, volume: real)

  const STAGES: seq<Stage> := [
    Stage(20, 2, "dormitor_haunted.png", "Make Bed", "pat_dezordonat_haunted.png", 0.1),
    Stage(40, 1, "bucatarie_haunted.png", "Wash Dishes", "bucatarie_vase_haunted.png", 0.2),
    Stage(60, 3, "living_haunted.png", "Fix Lightbulb", "lampa_sparta_haunted.png", 0.4),
    Stage(80, 0, "baie_haunted.png", "Wash Toielet", "baie_murdara_haunted.png", 0.9)
  ]

  const THRESHOLDS: set<int> := {20, 40, 60, 80}

  const UNHAUNTED: map<int, bool> := map[20 := false, 40 := false, 60 := false, 80 := false]

  /** The random choices one click may consume: the baby event's reset
      inside its hit test, the game's second reset of it, and, for a retry,
      the new chore. */
  datatype Draws = Draws(baby: BabyEvents.SpawnDraw, babyAgain: BabyEvents.SpawnDraw, chore: PlayerEvents.ChoreDraw)

  predicate ValidDraws(d: Draws) {
    BabyEvents.ValidDraw(d.baby) && BabyEvents.ValidDraw(d.babyAgain) && PlayerEvents.ValidDraw(d.chore)
  }

  datatype GameState = GameState(
    currentRoom: int,
    startTime: real,
    won: bool,
    gameOver: bool,
    cause: Option<Cause>,
    victorySoundPlayed: bool,
    targetVolume: real,
    haunted: map<int, bool>,
    defaults: seq<Texture>,
    events: map<string, Texture>,
    leftEnabled: bool,
    rightEnabled: bool,
    baby: BabyEvents.BabyState,
    chore: PlayerEvents.ChoreState)

  /** What every state of a game satisfies between calls. */
  predicate Inv(cfg: Config, g: GameState) {
    && 0 <= g.currentRoom < ROOM_COUNT
    && |g.defaults| == ROOM_COUNT
    && g.leftEnabled == (g.currentRoom > 0)
    && g.rightEnabled == (g.currentRoom < |g.defaults| - 1)
    && !(g.won && g.gameOver)
    && (g.gameOver <==> g.cause.Some?)
    && g.haunted.Keys == THRESHOLDS
    && g.events.Keys == PlayerEvents.CHORE_NAMES
    && BabyEvents.ValidState(cfg.screen, g.baby)
    && PlayerEvents.ValidState(cfg.screen, g.chore)
  }

  predicate Terminal(g: GameState) {
    g.won || g.gameOver
  }

  // ----- Buttons -----

  /** A button's rectangle; it contains its left and top edges but not its
      right and bottom ones. */
  datatype Rect = Rect(x: int, y: int, width: int, height: int)

  predicate Collides(r: Rect, p: Point)
    ensures Collides(r, p) ==> r.width > 0 && r.height > 0
  {
    r.x <= p.x < r.x + r.width && r.y <= p.y < r.y + r.height
  }

  /** Half-open edges: a rectangle holds its top-left corner but no point of
      its right or bottom edge. */
  lemma CollidesHalfOpen(r: Rect, p: Point)
    requires r.width > 0 && r.height > 0
    ensures Collides(r, Point(r.x, r.y))
    ensures !Collides(r, Point(r.x + r.width, p.y)) && !Collides(r, Point(p.x, r.y + r.height))
  {
  }

  /** The left button sits one margin from the left and the bottom edges. */
  function LeftRect(s: Screen): (r: Rect)
    ensures r.width == BUTTON_WIDTH && r.height == BUTTON_HEIGHT
    ensures r.x == BUTTON_MARGIN && r.y + r.height + BUTTON_MARGIN == s.height
  {
    Rect(BUTTON_MARGIN, s.height - BUTTON_HEIGHT - BUTTON_MARGIN, BUTTON_WIDTH, BUTTON_HEIGHT)
  }

  /** The right button sits one margin from the right and the bottom edges. */
  function RightRect(s: Screen): (r: Rect)
    ensures r.width == BUTTON_WIDTH && r.height == BUTTON_HEIGHT
    ensures r.x + r.width + BUTTON_MARGIN == s.width && r.y + r.height + BUTTON_MARGIN == s.height
  {
    Rect(s.width - BUTTON_WIDTH - BUTTON_MARGIN, s.height - BUTTON_HEIGHT - BUTTON_MARGIN, BUTTON_WIDTH, BUTTON_HEIGHT)
  }

  /** The retry button, centred; `/` by a positive divisor rounds down, as
      the floor division it models does. */
  function RetryRect(s: Screen): (r: Rect)
    ensures r.width == 150 && r.height == 50 && r.y + r.height + BUTTON_MARGIN == s.height
    ensures s.width - 1 <= 2 * r.x + r.width <= s.width
  {
    Rect((s.width - 150) / 2, s.height - 50 - BUTTON_MARGIN, 150, 50)
  }

  /** On a screen wide enough for both, the two navigation buttons share
      no point, so no click can be meant for both. */
  lemma NavigationButtonsApart(s: Screen, p: Point)
    requires s.width >= 2 * (BUTTON_WIDTH + BUTTON_MARGIN)
    ensures !(Collides(LeftRect(s), p) && Collides(RightRect(s), p))
  {
  }

  predicate LeftHit(cfg: Config, g: GameState, p: Point) {
    g.leftEnabled && Collides(LeftRect(cfg.screen), p)
  }

  predicate RightHit(cfg: Config, g: GameState, p: Point) {
    g.rightEnabled && Collides(RightRect(cfg.screen), p)
  }

  /** `update_button_states`: left is enabled away from the first room,
      right away from the last. */
  function SyncButtons(g: GameState): (r: GameState)
    ensures r.leftEnabled == (g.currentRoom > 0)
    ensures r.rightEnabled == (g.currentRoom < |g.defaults| - 1)
    ensures r == g.(leftEnabled := r.leftEnabled, rightEnabled := r.rightEnabled)
  {
    g.(leftEnabled := g.currentRoom > 0, rightEnabled := g.currentRoom < |g.defaults| - 1)
  }

  // ----- Session start and reset -----

  /** The state a new game, and `reset_game`, produce at time `now`. */
  function Initial(cfg: Config, now: real, bd: BabyEvents.SpawnDraw, cd: PlayerEvents.ChoreDraw): (r: GameState)
    requires BabyEvents.ValidDraw(bd) && PlayerEvents.ValidDraw(cd)
    ensures Inv(cfg, r)
    ensures r.currentRoom == 0 && r.startTime == now
    ensures !r.won && !r.gameOver && r.cause == None && !r.victorySoundPlayed
    ensures r.haunted == UNHAUNTED
    ensures !r.leftEnabled && r.rightEnabled
    ensures r.targetVolume == 0.0
    ensures r.defaults == DefaultBackgrounds(cfg)
    ensures r.events == ChoreBackgrounds(cfg, r.defaults, 4)
    ensures r.baby == BabyEvents.ResetState(cfg.screen, now, bd)
    ensures r.chore == PlayerEvents.ResetState(cfg.screen, now, cd)
  {
    var defaults := DefaultBackgrounds(cfg);
    AllChoresHaveBackgrounds(cfg, defaults);
    SyncButtons(GameState(0, now, false, false, None, false, 0.0, UNHAUNTED, defaults,
                          ChoreBackgrounds(cfg, defaults, 4), true, true,
                          BabyEvents.ResetState(cfg.screen, now, bd),
                          PlayerEvents.ResetState(cfg.screen, now, cd)))
  }

  /** A state with every field a fresh session has is that session's state. */
  lemma InitialFields(cfg: Config, now: real, bd: BabyEvents.SpawnDraw, cd: PlayerEvents.ChoreDraw, g: GameState)
    requires BabyEvents.ValidDraw(bd) && PlayerEvents.ValidDraw(cd)
    requires g.currentRoom == 0 && g.startTime == now
    requires !g.won && !g.gameOver && g.cause == None && !g.victorySoundPlayed && g.targetVolume == 0.0
    requires g.haunted == UNHAUNTED && !g.leftEnabled && g.rightEnabled
    requires g.defaults == DefaultBackgrounds(cfg) && g.events == ChoreBackgrounds(cfg, g.defaults, 4)
    requires g.baby == BabyEvents.ResetState(cfg.screen, now, bd)
    requires g.chore == PlayerEvents.ResetState(cfg.screen, now, cd)
    ensures g == Initial(cfg, now, bd, cd) && Inv(cfg, g)
  {
  }

  // ----- Navigation -----

  function Clamp(v: int, lo: int, hi: int): int {
    if v < lo then lo else if v > hi then hi else v
  }

  /** `move_left`: step to the previous room unless already in the first. */
  function MoveLeft(g: GameState): (r: GameState)
    ensures g.currentRoom > 0 ==> r == SyncButtons(g.(currentRoom := g.currentRoom - 1))
    ensures g.currentRoom <= 0 ==> r == g
  {
    if g.currentRoom > 0 then SyncButtons(g.(currentRoom := g.currentRoom - 1)) else g
  }

  /** `move_right`: step to the next room unless already in the last one. */
  function MoveRight(g: GameState): (r: GameState)
    ensures g.currentRoom < |g.defaults| - 1 ==> r == SyncButtons(g.(currentRoom := g.currentRoom + 1))
    ensures g.currentRoom >= |g.defaults| - 1 ==> r == g
  {
    if g.currentRoom < |g.defaults| - 1 then SyncButtons(g.(currentRoom := g.currentRoom + 1)) else g
  }

  /** Navigation is the clamped step of the room index, keeps the buttons in
      step with the room, and touches nothing else. */
  lemma NavigationClamps(cfg: Config, g: GameState)
    requires Inv(cfg, g)
    ensures Inv(cfg, MoveLeft(g)) && Inv(cfg, MoveRight(g))
    ensures MoveLeft(g).currentRoom == Clamp(g.currentRoom - 1, 0, ROOM_COUNT - 1)
    ensures MoveRight(g).currentRoom == Clamp(g.currentRoom + 1, 0, ROOM_COUNT - 1)
    ensures MoveLeft(g) == g.(currentRoom := MoveLeft(g).currentRoom, leftEnabled := MoveLeft(g).leftEnabled,
                              rightEnabled := MoveLeft(g).rightEnabled)
    ensures MoveRight(g) == g.(currentRoom := MoveRight(g).currentRoom, leftEnabled := MoveRight(g).leftEnabled,
                               rightEnabled := MoveRight(g).rightEnabled)
  {
  }

  // ----- Haunting schedule -----

  /** One block of `update_haunted_textures`. When the stage is due and has
      not fired, its flag is set whatever happens to the loads; the room
      background is replaced if its file loads, and only then the chore
      background and the volume target if the second file loads too. */
  function ApplyStage(cfg: Config, g: GameState, elapsed: real, st: Stage): (r: GameState)
    requires st.threshold in g.haunted && 0 <= st.room < |g.defaults|
    ensures r.haunted == if elapsed >= st.threshold as real then g.haunted[st.threshold := true] else g.haunted
    ensures g.haunted[st.threshold] ==> r == g
    ensures elapsed < st.threshold as real ==> r == g
    ensures elapsed >= st.threshold as real && !g.haunted[st.threshold] ==>
              && r.defaults == (if st.roomFile in cfg.assets then g.defaults[st.room := Image(st.roomFile)] else g.defaults)
              && r.events == (if st.roomFile in cfg.assets && st.choreFile in cfg.assets
                              then g.events[st.chore := Image(st.choreFile)] else g.events)
              && r.targetVolume == (if st.roomFile in cfg.assets && st.choreFile in cfg.assets && cfg.hasBackgroundSound
                                    then st.volume else g.targetVolume)
    ensures |r.defaults| == |g.defaults|
    ensures st.chore in g.events ==> r.events.Keys == g.events.Keys
    ensures r == g.(haunted := r.haunted, defaults := r.defaults, events := r.events, targetVolume := r.targetVolume)
  {
    if elapsed >= st.threshold as real && !g.haunted[st.threshold] then
      var loaded :=
        if st.roomFile !in cfg.assets then g
        else
          var g1 := g.(defaults := g.defaults[st.room := Image(st.roomFile)]);
          if st.choreFile !in cfg.assets then g1
          else g1.(events := g1.events[st.chore := Image(st.choreFile)],
                   targetVolume := if cfg.hasBackgroundSound then st.volume else g1.targetVolume);
      loaded.(haunted := loaded.haunted[st.threshold := true])
    else
      g
  }

  /** All four stages in turn, measured from the start of the session: after
      it, each flag is set exactly when it was set before or its threshold
      has been reached. */
  function HauntSchedule(cfg: Config, g: GameState, now: real): (r: GameState)
    requires |g.defaults| == ROOM_COUNT && g.haunted.Keys == THRESHOLDS
    ensures r.haunted.Keys == THRESHOLDS
    ensures forall t | t in THRESHOLDS :: r.haunted[t] == (g.haunted[t] || now - g.startTime >= t as real)
    ensures |r.defaults| == ROOM_COUNT
    ensures g.events.Keys == PlayerEvents.CHORE_NAMES ==> r.events.Keys == PlayerEvents.CHORE_NAMES
    ensures r == g.(haunted := r.haunted, defaults := r.defaults, events := r.events, targetVolume := r.targetVolume)
    ensures Inv(cfg, g) ==> Inv(cfg, r)
  {
    var elapsed := now - g.startTime;
    var g1 := ApplyStage(cfg, g, elapsed, STAGES[0]);
    var g2 := ApplyStage(cfg, g1, elapsed, STAGES[1]);
    var g3 := ApplyStage(cfg, g2, elapsed, STAGES[2]);
    ApplyStage(cfg, g3, elapsed, STAGES[3])
  }

  /** With every file and the ambient sound present, a session that reaches
      eighty seconds in one frame has all four stages applied at once, every
      room and chore shows its haunted background, and the ambient target is
      the last stage's. */
  lemma AllStagesAtOnce(cfg: Config, g: GameState, now: real)
    requires |g.defaults| == ROOM_COUNT && g.haunted == UNHAUNTED
    requires forall k | 0 <= k < 4 :: STAGES[k].roomFile in cfg.assets && STAGES[k].choreFile in cfg.assets
    requires cfg.hasBackgroundSound && now - g.startTime >= 80.0
    ensures forall t | t in THRESHOLDS :: HauntSchedule(cfg, g, now).haunted[t]
    ensures HauntSchedule(cfg, g, now).defaults ==
              [Image("baie_haunted.png"), Image("bucatarie_haunted.png"),
               Image("dormitor_haunted.png"), Image("living_haunted.png")]
    ensures HauntSchedule(cfg, g, now).targetVolume == 0.9
    ensures var h := HauntSchedule(cfg, g, now);
              && "Make Bed" in h.events && h.events["Make Bed"] == Image("pat_dezordonat_haunted.png")
              && "Wash Dishes" in h.events && h.events["Wash Dishes"] == Image("bucatarie_vase_haunted.png")
              && "Fix Lightbulb" in h.events && h.events["Fix Lightbulb"] == Image("lampa_sparta_haunted.png")
              && "Wash Toielet" in h.events && h.events["Wash Toielet"] == Image("baie_murdara_haunted.png")
  {
  }

  // ----- One frame -----

  /** The win check of `draw`. */
  function WinCheck(cfg: Config, g: GameState, now: real): (r: GameState)
    ensures r.won <==> g.won || (!g.gameOver && now - g.startTime >= WIN_TIME)
    ensures r.victorySoundPlayed == (g.victorySoundPlayed || (r.won && !g.won && cfg.hasVictorySound))
    ensures r == g.(won := r.won, victorySoundPlayed := r.victorySoundPlayed)
    ensures Inv(cfg, g) ==> Inv(cfg, r)
  {
    if !g.gameOver && !g.won && now - g.startTime >= WIN_TIME then
      g.(won := true, victorySoundPlayed := g.victorySoundPlayed || cfg.hasVictorySound)
    else
      g
  }

  /** The playing part of `draw`: both event updates, then the timeout
      checks, the baby's before the chore's, the first that fires ending the
      game and naming its cause. */
  function Play(cfg: Config, g: GameState, now: real, cd: PlayerEvents.ChoreDraw): (r: GameState)
    requires Inv(cfg, g) && PlayerEvents.ValidDraw(cd) && !Terminal(g)
    ensures Inv(cfg, r) && !r.won
    ensures r.baby == BabyEvents.UpdateState(g.baby, now)
    ensures r.chore == PlayerEvents.UpdateState(cfg.screen, g.chore, now, cd)
    ensures r.gameOver <==> BabyEvents.TimedOut(r.baby, now) || PlayerEvents.TimedOut(r.chore, now)
    ensures BabyEvents.TimedOut(r.baby, now) ==> r.cause == Some(Baby)
    ensures !BabyEvents.TimedOut(r.baby, now) && PlayerEvents.TimedOut(r.chore, now) ==> r.cause == Some(Task)
    ensures r == g.(baby := r.baby, chore := r.chore, gameOver := r.gameOver, cause := r.cause)
  {
    BabyEvents.UpdateKeepsValid(cfg.screen, g.baby, now);
    var baby := BabyEvents.UpdateState(g.baby, now);
    var chore := PlayerEvents.UpdateState(cfg.screen, g.chore, now, cd);
    var g1 := g.(baby := baby, chore := chore);
    if BabyEvents.TimedOut(baby, now) then
      g1.(gameOver := true, cause := Some(Baby))
    else if PlayerEvents.TimedOut(chore, now) then
      g1.(gameOver := true, cause := Some(Task))
    else
      g1
  }

  /** The state logic of one `draw`: the haunting schedule; the win check;
      then, only while still playing, both event updates and the timeout
      checks, the baby's before the chore's. */
  function Frame(cfg: Config, g: GameState, now: real, cd: PlayerEvents.ChoreDraw): (r: GameState)
    requires Inv(cfg, g) && PlayerEvents.ValidDraw(cd)
    ensures Inv(cfg, r)
    ensures forall t | t in THRESHOLDS :: r.haunted[t] == (g.haunted[t] || now - g.startTime >= t as real)
    ensures r.startTime == g.startTime && r.currentRoom == g.currentRoom
    ensures r.leftEnabled == g.leftEnabled && r.rightEnabled == g.rightEnabled
    ensures r.won <==> g.won || (!g.gameOver && now - g.startTime >= WIN_TIME)
    ensures r.victorySoundPlayed == (g.victorySoundPlayed || (r.won && !g.won && cfg.hasVictorySound))
    ensures r.defaults == HauntSchedule(cfg, g, now).defaults && r.events == HauntSchedule(cfg, g, now).events
    ensures r.targetVolume == HauntSchedule(cfg, g, now).targetVolume
    ensures Terminal(g) ==>
              r.won == g.won && r.gameOver == g.gameOver && r.cause == g.cause
              && r.baby == g.baby && r.chore == g.chore
    ensures !Terminal(g) && now - g.startTime >= WIN_TIME ==>
              !r.gameOver && r.baby == g.baby && r.chore == g.chore
    ensures !Terminal(g) && now - g.startTime < WIN_TIME ==>
              && r.baby == BabyEvents.UpdateState(g.baby, now)
              && r.chore == PlayerEvents.UpdateState(cfg.screen, g.chore, now, cd)
              && (r.gameOver <==> BabyEvents.TimedOut(r.baby, now) || PlayerEvents.TimedOut(r.chore, now))
              && (BabyEvents.TimedOut(r.baby, now) ==> r.cause == Some(Baby))
              && (!BabyEvents.TimedOut(r.baby, now) && PlayerEvents.TimedOut(r.chore, now) ==> r.cause == Some(Task))
  {
    var g2 := WinCheck(cfg, HauntSchedule(cfg, g, now), now);
    if Terminal(g2) then g2 else Play(cfg, g2, now, cd)
  }

  /** A baby left unanswered for more than five seconds ends a game that is
      still short of the win time, and the baby is named as the cause even
      when the chore timed out too. */
  lemma BabyTimeoutEndsGame(cfg: Config, g: GameState, now: real, cd: PlayerEvents.ChoreDraw)
    requires Inv(cfg, g) && PlayerEvents.ValidDraw(cd) && !Terminal(g)
    requires now - g.startTime < WIN_TIME
    requires g.baby.active && now - g.baby.activeTime.value > BabyEvents.BABY_TIMEOUT
    ensures Frame(cfg, g, now, cd).gameOver && Frame(cfg, g, now, cd).cause == Some(Baby)
    ensures !Frame(cfg, g, now, cd).won
  {
  }

  /** Reaching the win time while playing wins, whatever the events would
      have reported. */
  lemma WinTakesPriority(cfg: Config, g: GameState, now: real, cd: PlayerEvents.ChoreDraw)
    requires Inv(cfg, g) && PlayerEvents.ValidDraw(cd) && !Terminal(g)
    requires now - g.startTime >= WIN_TIME
    ensures Frame(cfg, g, now, cd).won && !Frame(cfg, g, now, cd).gameOver
  {
  }

  // ----- Clicks -----

  /** The tail of `handle_click` once neither navigation button caught the
      click: the baby first, then the chore. */
  function EventClick(cfg: Config, g: GameState, p: Point, now: real, d: Draws): (r: GameState)
    requires ValidDraws(d)
    ensures BabyEvents.ClickState(cfg.screen, g.baby, p, g.currentRoom, now, d.baby).0 ==>
              r.baby == BabyEvents.ResetState(cfg.screen, now, d.babyAgain) && r.chore == g.chore
    ensures !BabyEvents.ClickState(cfg.screen, g.baby, p, g.currentRoom, now, d.baby).0 ==>
              r.baby == g.baby && r.chore == PlayerEvents.ClickState(g.chore, p, g.currentRoom, now).1
    ensures r == g.(baby := r.baby, chore := r.chore)
  {
    var baby := BabyEvents.ClickState(cfg.screen, g.baby, p, g.currentRoom, now, d.baby);
    if baby.0 then
      g.(baby := BabyEvents.ResetState(cfg.screen, now, d.babyAgain))
    else
      g.(chore := PlayerEvents.ClickState(g.chore, p, g.currentRoom, now).1)
  }

  /** `handle_click`. In a finished game only the retry button answers, and
      it restarts the game. While playing, the first of left, right, baby and
      chore that the click hits acts, and nothing after it. */
  function Click(cfg: Config, g: GameState, p: Point, now: real, d: Draws): (r: GameState)
    requires Inv(cfg, g) && ValidDraws(d)
    ensures Inv(cfg, r)
    ensures Terminal(g) ==>
              r == if Collides(RetryRect(cfg.screen), p) then Initial(cfg, now, d.baby, d.chore) else g
    ensures !Terminal(g) ==>
              !Terminal(r) && r.startTime == g.startTime && r.haunted == g.haunted
              && r.defaults == g.defaults && r.events == g.events
              && r.targetVolume == g.targetVolume && r.victorySoundPlayed == g.victorySoundPlayed
    ensures !Terminal(g) && LeftHit(cfg, g, p) ==>
              r.currentRoom == g.currentRoom - 1 && r.baby == g.baby && r.chore == g.chore
    ensures !Terminal(g) && !LeftHit(cfg, g, p) && RightHit(cfg, g, p) ==>
              r.currentRoom == g.currentRoom + 1 && r.baby == g.baby && r.chore == g.chore
    ensures !Terminal(g) && !LeftHit(cfg, g, p) && !RightHit(cfg, g, p) ==>
              r.currentRoom == g.currentRoom && r == EventClick(cfg, g, p, now, d)
  {
    if g.gameOver || g.won then
      if Collides(RetryRect(cfg.screen), p) then Initial(cfg, now, d.baby, d.chore) else g
    else if LeftHit(cfg, g, p) then
      MoveLeft(g)
    else if RightHit(cfg, g, p) then
      MoveRight(g)
    else
      EventClick(cfg, g, p, now, d)
  }

  /** A click on the baby while playing, outside both buttons, leaves a
      freshly re-armed baby (reset twice, the second draw deciding) and the
      chore untouched; a click elsewhere leaves the baby untouched and is
      the chore's. */
  lemma BabyBeforeChore(cfg: Config, g: GameState, p: Point, now: real, d: Draws)
    requires Inv(cfg, g) && ValidDraws(d) && !Terminal(g)
    requires !LeftHit(cfg, g, p) && !RightHit(cfg, g, p)
    ensures g.baby.active && g.baby.room == g.currentRoom && BabyEvents.Hit(g.baby, p) ==>
              Click(cfg, g, p, now, d).baby == BabyEvents.ResetState(cfg.screen, now, d.babyAgain)
              && Click(cfg, g, p, now, d).chore == g.chore
              && !Click(cfg, g, p, now, d).baby.active
    ensures !(g.baby.active && g.baby.room == g.currentRoom && BabyEvents.Hit(g.baby, p)) ==>
              Click(cfg, g, p, now, d).baby == g.baby
              && Click(cfg, g, p, now, d).chore == PlayerEvents.ClickState(g.chore, p, g.currentRoom, now).1
  {
  }

  /** A disabled button never catches a click: in the first room a click on
      the left button's rectangle goes on to the right button and the events. */
  lemma DisabledLeftFallsThrough(cfg: Config, g: GameState, p: Point, now: real, d: Draws)
    requires Inv(cfg, g) && ValidDraws(d) && !Terminal(g)
    requires g.currentRoom == 0 && Collides(LeftRect(cfg.screen), p)
    ensures Click(cfg, g, p, now, d) ==
              if RightHit(cfg, g, p) then MoveRight(g) else EventClick(cfg, g, p, now, d)
  {
  }

  // ----- Background query -----

  /** `get_current_background`: the active chore's background in its own
      room when it has one, otherwise the room's. */
  function CurrentBackground(g: GameState): (t: Texture)
    requires 0 <= g.currentRoom < |g.defaults|
    ensures t == g.defaults[g.currentRoom] || (g.chore.name in g.events && t == g.events[g.chore.name])
    ensures !(g.chore.active && g.chore.room == g.currentRoom) ==> t == g.defaults[g.currentRoom]
  {
    if g.chore.active && g.chore.room == g.currentRoom && g.chore.name in g.events then
      g.events[g.chore.name]
    else
      g.defaults[g.currentRoom]
  }

  /** In every reachable state the chore always has a background, so the
      query shows the chore's background exactly while it is active in the
      room being viewed. */
  lemma CurrentBackgroundShowsChore(cfg: Config, g: GameState)
    requires Inv(cfg, g)
    ensures g.chore.name in g.events
    ensures CurrentBackground(g) ==
              if g.chore.active && g.chore.room == g.currentRoom then g.events[g.chore.name]
              else g.defaults[g.currentRoom]
  {
    PlayerEvents.CatalogueShape(cfg.screen);
  }

  // ----- Sessions -----

  /** What the host loop feeds the game: a frame at a clock reading, a left
      click at a position, or an arrow key. The arrow keys reach the
      navigation steps with no check of the terminal state. */
  datatype Input =
    | Tick(now: real, draw: PlayerEvents.ChoreDraw)
    | Press(p: Point, at: real, draws: Draws)
    | KeyLeft
    | KeyRight

  predicate ValidInput(i: Input) {
    match i
    case Tick(_, d) => PlayerEvents.ValidDraw(d)
    case Press(_, _, d) => ValidDraws(d)
    case KeyLeft => true
    case KeyRight => true
  }

  predicate AllValid(inputs: seq<Input>) {
    forall k | 0 <= k < |inputs| :: ValidInput(inputs[k])
  }

  function Step(cfg: Config, g: GameState, i: Input): (r: GameState)
    requires Inv(cfg, g) && ValidInput(i)
    ensures Inv(cfg, r)
  {
    NavigationClamps(cfg, g);
    match i
    case Tick(now, d) => Frame(cfg, g, now, d)
    case Press(p, at, d) => Click(cfg, g, p, at, d)
    case KeyLeft => MoveLeft(g)
    case KeyRight => MoveRight(g)
  }

  /** The state after feeding the inputs in order. Every state a game
      reaches keeps the invariant: the room stays in 0..3 with the buttons in
      step, and a game is never both won and lost. */
  function Run(cfg: Config, g: GameState, inputs: seq<Input>): (r: GameState)
    requires Inv(cfg, g) && AllValid(inputs)
    ensures Inv(cfg, r)
    ensures 0 <= r.currentRoom < ROOM_COUNT && !(r.won && r.gameOver)
    decreases |inputs|
  {
    if inputs == [] then g
    else
      var before := inputs[..|inputs| - 1];
      assert AllValid(before) by {
        forall k | 0 <= k < |before| ensures ValidInput(before[k]) {
          assert before[k] == inputs[k];
        }
      }
      Step(cfg, Run(cfg, g, before), inputs[|inputs| - 1])
  }

  /** The input restarts the game: a click on the retry button of a
      finished game. */
  predicate Resets(cfg: Config, g: GameState, i: Input) {
    i.Press? && Terminal(g) && Collides(RetryRect(cfg.screen), i.p)
  }

  /** The stage with threshold `t` fires on input `k`: a frame at which the
      threshold has been reached while its flag is still clear. */
  predicate Fires(cfg: Config, g: GameState, inputs: seq<Input>, k: nat, t: int)
    requires Inv(cfg, g) && AllValid(inputs) && k < |inputs| && t in THRESHOLDS
  {
    var before := Run(cfg, g, inputs[..k]);
    inputs[k].Tick? && inputs[k].now - before.startTime >= t as real && !before.haunted[t]
  }

  lemma PrefixValid(inputs: seq<Input>, k: nat)
    requires AllValid(inputs) && k <= |inputs|
    ensures AllValid(inputs[..k])
  {
    forall j | 0 <= j < k ensures ValidInput(inputs[..k][j]) {
      assert inputs[..k][j] == inputs[j];
    }
  }

  /** Running one more input is one more step. */
  lemma RunSnoc(cfg: Config, g: GameState, inputs: seq<Input>, k: nat)
    requires Inv(cfg, g) && AllValid(inputs) && k < |inputs|
    ensures AllValid(inputs[..k]) && AllValid(inputs[..k + 1])
    ensures Run(cfg, g, inputs[..k + 1]) == Step(cfg, Run(cfg, g, inputs[..k]), inputs[k])
  {
    PrefixValid(inputs, k);
    PrefixValid(inputs, k + 1);
    assert inputs[..k + 1][..k] == inputs[..k];
  }

  /** A step that does not restart the game never clears a haunt flag. */
  lemma StepKeepsFlag(cfg: Config, g: GameState, i: Input, t: int)
    requires Inv(cfg, g) && ValidInput(i) && t in THRESHOLDS
    requires g.haunted[t] && !Resets(cfg, g, i)
    ensures Step(cfg, g, i).haunted[t]
  {
  }

  /** Between restarts a haunt flag, once set, stays set. */
  lemma {:induction false} FlagStaysSet(cfg: Config, g: GameState, inputs: seq<Input>, t: int, j: nat, k: nat)
    requires Inv(cfg, g) && AllValid(inputs) && t in THRESHOLDS
    requires j <= k <= |inputs|
    requires AllValid(inputs[..j]) && Run(cfg, g, inputs[..j]).haunted[t]
    requires forall r | j <= r < k :: AllValid(inputs[..r]) && !Resets(cfg, Run(cfg, g, inputs[..r]), inputs[r])
    ensures AllValid(inputs[..k]) && Run(cfg, g, inputs[..k]).haunted[t]
    decreases k - j
  {
    PrefixValid(inputs, k);
    if j < k {
      RunSnoc(cfg, g, inputs, j);
      StepKeepsFlag(cfg, Run(cfg, g, inputs[..j]), inputs[j], t);
      FlagStaysSet(cfg, g, inputs, t, j + 1, k);
    }
  }

  /** Each haunting stage fires at most once per session: if it fires on
      two inputs, the game was restarted between them. */
  lemma HauntFiresOncePerSession(cfg: Config, g: GameState, inputs: seq<Input>, t: int, j: nat, k: nat)
    requires Inv(cfg, g) && AllValid(inputs) && t in THRESHOLDS
    requires j < k < |inputs|
    requires Fires(cfg, g, inputs, j, t) && Fires(cfg, g, inputs, k, t)
    ensures exists r :: j < r < k && AllValid(inputs[..r]) && Resets(cfg, Run(cfg, g, inputs[..r]), inputs[r])
  {
    HauntFiresWhenDue(cfg, g, inputs, t, j);
    if !exists r :: j < r < k && AllValid(inputs[..r]) && Resets(cfg, Run(cfg, g, inputs[..r]), inputs[r]) {
      NoResetFrom(cfg, g, inputs, j, k);
      FlagStaysSet(cfg, g, inputs, t, j + 1, k);
      assert false;
    }
  }

  lemma NoResetFrom(cfg: Config, g: GameState, inputs: seq<Input>, j: nat, k: nat)
    requires Inv(cfg, g) && AllValid(inputs) && j < k <= |inputs|
    requires !exists r :: j < r < k && AllValid(inputs[..r]) && Resets(cfg, Run(cfg, g, inputs[..r]), inputs[r])
    ensures forall r | j + 1 <= r < k :: AllValid(inputs[..r]) && !Resets(cfg, Run(cfg, g, inputs[..r]), inputs[r])
  {
    forall r | j + 1 <= r < k
      ensures AllValid(inputs[..r]) && !Resets(cfg, Run(cfg, g, inputs[..r]), inputs[r])
    {
      PrefixValid(inputs, r);
    }
  }

  /** A stage whose threshold a frame reaches has fired by the end of that
      frame, even when none of its files load. */
  lemma HauntFiresWhenDue(cfg: Config, g: GameState, inputs: seq<Input>, t: int, k: nat)
    requires Inv(cfg, g) && AllValid(inputs) && t in THRESHOLDS && k < |inputs|
    requires inputs[k].Tick? && inputs[k].now - Run(cfg, g, inputs[..k]).startTime >= t as real
    ensures Run(cfg, g, inputs[..k + 1]).haunted[t]
  {
    RunSnoc(cfg, g, inputs, k);
  }
}
