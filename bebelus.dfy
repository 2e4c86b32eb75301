/** The session controller as the game holds it: buttons and a game object
    whose fields the methods update in place, each method proved to follow
    the matching function of module GameLogic. */
module Bebelus {
  import opened Constants
  import BabyEvents
  import PlayerEvents
  import opened GameLogic

  class Button {
    const rect: Rect
    var enabled: bool

    constructor (rect: Rect)
      ensures this.rect == rect && enabled
    {
      this.rect := rect;
      enabled := true;
    }

    /** A click inside the rectangle of an enabled button; a disabled
        button never catches a click. */
    predicate IsClicked(p: Point)
      reads this
      ensures IsClicked(p) ==> enabled
      ensures !Collides(rect, p) ==> !IsClicked(p)
    {
      enabled && Collides(rect, p)
    }

    method SetEnabled(enabled: bool)
      modifies this
      ensures this.enabled == enabled
    {
      this.enabled := enabled;
    }
  }

  class Game {
    const config: Config
    var currentRoom: int
    var startTime: real
    var won: bool
    var gameOver: bool
    var gameOverCause: Option<Cause>
    var victorySoundPlayed: bool
    var targetVolume: real
    var hauntedChangesApplied: map<int, bool>
    var defaultBackgrounds: seq<Texture>
    var eventBackgrounds: map<string, Texture>
    const leftButton: Button
    const rightButton: Button
    const retryButton: Button
    var babyEvent: BabyEvents.BabyEvent
    var playerEvent: PlayerEvents.PlayerEvent

    /** The game's state as a value. */
    function State(): GameState
      reads this, leftButton, rightButton, babyEvent, playerEvent
    {
      GameState(currentRoom, startTime, won, gameOver, gameOverCause, victorySoundPlayed, targetVolume,
                hauntedChangesApplied, defaultBackgrounds, eventBackgrounds,
                leftButton.enabled, rightButton.enabled, babyEvent.State(), playerEvent.State())
    }

    /** The three buttons are distinct, sit where the layout puts them, and
        the retry button is always enabled; both events use the game's screen. */
    ghost predicate Wired()
      reads this, leftButton, rightButton, retryButton, babyEvent, playerEvent
    {
      && leftButton != rightButton && leftButton != retryButton && rightButton != retryButton
      && leftButton.rect == LeftRect(config.screen)
      && rightButton.rect == RightRect(config.screen)
      && retryButton.rect == RetryRect(config.screen)
      && retryButton.enabled
      && babyEvent.screen == config.screen
      && playerEvent.screen == config.screen
    }

    ghost predicate Valid()
      reads this, leftButton, rightButton, retryButton, babyEvent, playerEvent
    {
      Wired() && Inv(config, State())
    }

    constructor (config: Config, now: real, bd: BabyEvents.SpawnDraw, cd: PlayerEvents.ChoreDraw)
      requires config.screen.Valid()
      requires BabyEvents.ValidDraw(bd) && PlayerEvents.ValidDraw(cd)
      ensures this.config == config
      ensures Valid() && State() == Initial(config, now, bd, cd)
    {
      this.config := config;
      leftButton := new Button(LeftRect(config.screen));
      rightButton := new Button(RightRect(config.screen));
      retryButton := new Button(RetryRect(config.screen));
      babyEvent := new BabyEvents.BabyEvent(config.screen, now, bd);
      playerEvent := new PlayerEvents.PlayerEvent(config.screen, now, cd);
      new;
      StartSession(now);
      InitialFields(config, now, bd, cd, State());
    }

    /** Loads the four room backgrounds in order, a failed load appending the
        plain surface, then the chore backgrounds, a failed load reusing the
        chore's room background. */
    method LoadBackgroundTextures()
      modifies this`defaultBackgrounds, this`eventBackgrounds
      ensures defaultBackgrounds == DefaultBackgrounds(config) && |defaultBackgrounds| == ROOM_COUNT
      ensures eventBackgrounds == ChoreBackgrounds(config, defaultBackgrounds, 4)
      ensures eventBackgrounds.Keys == PlayerEvents.CHORE_NAMES
    {
      defaultBackgrounds := [];
      for i := 0 to |ROOM_IMAGES|
        invariant defaultBackgrounds == DefaultBackgrounds(config)[..i]
      {
        var imgName := ROOM_IMAGES[i];
        if imgName in config.assets {
          defaultBackgrounds := defaultBackgrounds + [Image(imgName)];
        } else {
          defaultBackgrounds := defaultBackgrounds + [Blank];
        }
      }
      assert defaultBackgrounds == DefaultBackgrounds(config);
      eventBackgrounds := map[];
      for k := 0 to |CHORE_IMAGES|
        invariant defaultBackgrounds == DefaultBackgrounds(config)
        invariant eventBackgrounds == ChoreBackgrounds(config, defaultBackgrounds, k)
      {
        var entry := CHORE_IMAGES[k];
        if entry.1 in config.assets {
          eventBackgrounds := eventBackgrounds[entry.0 := Image(entry.1)];
        } else {
          eventBackgrounds := eventBackgrounds[entry.0 := defaultBackgrounds[entry.2]];
        }
      }
      AllChoresHaveBackgrounds(config, defaultBackgrounds);
    }

    method UpdateButtonStates()
      requires leftButton != rightButton
      modifies leftButton, rightButton
      ensures leftButton.enabled == (currentRoom > 0)
      ensures rightButton.enabled == (currentRoom < |defaultBackgrounds| - 1)
    {
      leftButton.SetEnabled(currentRoom > 0);
      rightButton.SetEnabled(currentRoom < |defaultBackgrounds| - 1);
    }

    /** Also the arrow-key entry point, which runs in every state, finished
        games included. */
    method MoveLeft()
      requires Valid()
      modifies this`currentRoom, leftButton, rightButton
      ensures Valid() && State() == GameLogic.MoveLeft(old(State()))
    {
      if currentRoom > 0 {
        currentRoom := currentRoom - 1;
        UpdateButtonStates();
      }
    }

    /** Also the arrow-key entry point, which runs in every state, finished
        games included. */
    method MoveRight()
      requires Valid()
      modifies this`currentRoom, leftButton, rightButton
      ensures Valid() && State() == GameLogic.MoveRight(old(State()))
    {
      if currentRoom < |defaultBackgrounds| - 1 {
        currentRoom := currentRoom + 1;
        UpdateButtonStates();
      }
    }

    /** The session fields `reset_game` clears, with the clock restarted at `now`. */
    method ClearSession(now: real)
      modifies this`currentRoom, this`gameOver, this`gameOverCause, this`won, this`victorySoundPlayed,
               this`targetVolume, this`startTime, this`hauntedChangesApplied
      ensures currentRoom == 0 && startTime == now
      ensures !gameOver && gameOverCause == None && !won && !victorySoundPlayed && targetVolume == 0.0
      ensures hauntedChangesApplied == UNHAUNTED
    {
      currentRoom := 0;
      gameOver := false;
      gameOverCause := None;
      won := false;
      victorySoundPlayed := false;
      targetVolume := 0.0;
      startTime := now;
      hauntedChangesApplied := UNHAUNTED;
    }

    /** Everything a new session sets apart from its two events: the cleared
        session fields, the freshly loaded backgrounds and the buttons. */
    method StartSession(now: real)
      requires leftButton != rightButton
      modifies this`currentRoom, this`gameOver, this`gameOverCause, this`won, this`victorySoundPlayed,
               this`targetVolume, this`startTime, this`hauntedChangesApplied,
               this`defaultBackgrounds, this`eventBackgrounds, leftButton, rightButton
      ensures currentRoom == 0 && startTime == now
      ensures !gameOver && gameOverCause == None && !won && !victorySoundPlayed && targetVolume == 0.0
      ensures hauntedChangesApplied == UNHAUNTED
      ensures defaultBackgrounds == DefaultBackgrounds(config)
      ensures eventBackgrounds == ChoreBackgrounds(config, defaultBackgrounds, 4)
      ensures !leftButton.enabled && rightButton.enabled
    {
      ClearSession(now);
      LoadBackgroundTextures();
      UpdateButtonStates();
    }

    method ResetGame(now: real, bd: BabyEvents.SpawnDraw, cd: PlayerEvents.ChoreDraw)
      requires Wired()
      requires BabyEvents.ValidDraw(bd) && PlayerEvents.ValidDraw(cd)
      modifies this, leftButton, rightButton
      ensures Valid() && State() == Initial(config, now, bd, cd)
      ensures fresh(babyEvent) && fresh(playerEvent)
    {
      StartSession(now);
      babyEvent := new BabyEvents.BabyEvent(config.screen, now, bd);
      playerEvent := new PlayerEvents.PlayerEvent(config.screen, now, cd);
      InitialFields(config, now, bd, cd, State());
    }

    method HandleClick(p: Point, now: real, d: Draws)
      requires Valid() && ValidDraws(d)
      modifies this, leftButton, rightButton, babyEvent, playerEvent
      ensures Valid() && State() == Click(config, old(State()), p, now, d)
    {
      if gameOver || won {
        if retryButton.IsClicked(p) {
          ResetGame(now, d.baby, d.chore);
        }
        return;
      }
      if leftButton.IsClicked(p) {
        MoveLeft();
      } else if rightButton.IsClicked(p) {
        MoveRight();
      } else {
        var babyHit := babyEvent.IsClicked(p, currentRoom, now, d.baby);
        if babyHit {
          babyEvent.Reset(now, d.babyAgain);
        } else {
          var _ := playerEvent.IsClicked(p, currentRoom, now);
        }
      }
    }

    /** The background shown: the chore's own while it is active in the
        room being viewed, otherwise the room's. */
    function GetCurrentBackground(): (t: Texture)
      reads this, leftButton, rightButton, retryButton, babyEvent, playerEvent
      requires Valid()
      ensures playerEvent.name in eventBackgrounds
      ensures t == if playerEvent.active && playerEvent.room == currentRoom then eventBackgrounds[playerEvent.name]
                   else defaultBackgrounds[currentRoom]
    {
      CurrentBackgroundShowsChore(config, State());
      CurrentBackground(State())
    }

    /** One block of the haunting schedule, in place. */
    method ApplyHauntStage(elapsed: real, st: Stage)
      requires st.threshold in hauntedChangesApplied && 0 <= st.room < |defaultBackgrounds|
      modifies this`hauntedChangesApplied, this`defaultBackgrounds, this`eventBackgrounds, this`targetVolume
      ensures State() == ApplyStage(config, old(State()), elapsed, st)
    {
      if elapsed >= st.threshold as real && !hauntedChangesApplied[st.threshold] {
        if st.roomFile in config.assets {
          defaultBackgrounds := defaultBackgrounds[st.room := Image(st.roomFile)];
          if st.choreFile in config.assets {
            eventBackgrounds := eventBackgrounds[st.chore := Image(st.choreFile)];
            if config.hasBackgroundSound {
              targetVolume := st.volume;
            }
          }
        }
        hauntedChangesApplied := hauntedChangesApplied[st.threshold := true];
      }
    }

    method UpdateHauntedTextures(now: real)
      requires |defaultBackgrounds| == ROOM_COUNT && hauntedChangesApplied.Keys == THRESHOLDS
      modifies this`hauntedChangesApplied, this`defaultBackgrounds, this`eventBackgrounds, this`targetVolume
      ensures State() == HauntSchedule(config, old(State()), now)
    {
      var elapsed := now - startTime;
      ApplyHauntStage(elapsed, STAGES[0]);
      ApplyHauntStage(elapsed, STAGES[1]);
      ApplyHauntStage(elapsed, STAGES[2]);
      ApplyHauntStage(elapsed, STAGES[3]);
    }

    /** The win check of one frame. */
    method CheckWin(now: real)
      modifies this`won, this`victorySoundPlayed
      ensures State() == WinCheck(config, old(State()), now)
    {
      if !gameOver && !won && now - startTime >= WIN_TIME {
        won := true;
        if !victorySoundPlayed && config.hasVictorySound {
          victorySoundPlayed := true;
        }
      }
    }

    /** The event updates and timeout checks of one frame of a game still
        being played. */
    method PlayFrame(now: real, cd: PlayerEvents.ChoreDraw)
      requires Valid() && PlayerEvents.ValidDraw(cd) && !won && !gameOver
      modifies this`gameOver, this`gameOverCause, babyEvent, playerEvent
      ensures State() == Play(config, old(State()), now, cd)
    {
      babyEvent.Update(now);
      BabyEvents.UpdateKeepsValid(config.screen, old(babyEvent.State()), now);
      playerEvent.Update(now, cd);
      if babyEvent.CheckTimeout(now) {
        gameOver := true;
        gameOverCause := Some(Baby);
      } else if playerEvent.CheckTimeout(now) {
        gameOver := true;
        gameOverCause := Some(Task);
      }
    }

    /** The state logic of one frame; the rendering is not modelled. */
    method Draw(now: real, cd: PlayerEvents.ChoreDraw)
      requires Valid() && PlayerEvents.ValidDraw(cd)
      modifies this, babyEvent, playerEvent
      ensures Valid() && State() == Frame(config, old(State()), now, cd)
    {
      UpdateHauntedTextures(now);
      CheckWin(now);
      if won || gameOver {
        return;
      }
      PlayFrame(now, cd);
    }
  }
}
