# EpicGame session logic in Dafny

EpicGame is a small point-and-click survival game. The player babysits in a
house of four rooms (bathroom, kitchen, bedroom, living room) and moves
between the rooms with two buttons or the arrow keys. Two timed events run
at the same time:

- **The baby event.** After a random delay of two to five seconds, a baby
  marker appears in a random room. One click inside its circle answers it and
  re-arms it. If it is left unanswered for more than five seconds, the game
  is lost.
- **The chore.** A chore drawn from a catalogue of four ("Wash Dishes",
  "Wash Toielet", "Make Bed", "Fix Lightbulb") appears after its own delay. It
  needs ten clicks inside its circle. Completing it starts a five-second grace
  period, after which a new chore is drawn. If it is left active for more than
  fifteen seconds, the game is lost.

Surviving 100 seconds wins. At 20, 40, 60 and 80 seconds a haunting stage
fires: a room background and a chore background are replaced by haunted
versions, and the ambient volume target rises. A retry button on the end
screen starts a new session.

The project has five modules:

| module | file | what it holds |
|---|---|---|
| `Constants` | `constants.dfy` | The shared constants, the screen, and the inclusive circular hit test. |
| `BabyEvents` | `baby_event.dfy` | The baby event as a state value with its specification functions, and the class `BabyEvent` whose methods update its fields in place and are proved to follow those functions. |
| `PlayerEvents` | `player_event.dfy` | The chore catalogue, the chore's state value and its specification functions, and the class `PlayerEvent`. |
| `GameLogic` | `game_logic.dfy` | The whole game as a value: starting a session, navigation, the haunting schedule, one frame, one click, the current background, and runs of inputs. It also holds the lemmas about these. |
| `Bebelus` | `bebelus.dfy` | The classes `Button` and `Game`. The constructor and the entry points `MoveLeft`, `MoveRight`, `ResetGame`, `HandleClick` and `Draw` are proved to keep `Valid()` and to leave `State()` equal to the matching `GameLogic` function of the old state. `ApplyHauntStage`, `UpdateHauntedTextures`, `CheckWin` and `PlayFrame` are proved to follow their `GameLogic` function but do not promise `Valid()` themselves. The other helper methods (`LoadBackgroundTextures`, `UpdateButtonStates`, `ClearSession`, `StartSession`) promise only the values of the fields they set. |

Inputs from the surroundings are parameters:

- **Time** is a clock reading `now: real` passed to each operation.
- **Random choices** are draws supplied by the caller: `SpawnDraw`, `ChoreDraw` and `Draws`. Each has a validity predicate that gives the ranges the random calls produce. The one exception is `SpawnDraw.fallback`, the position the baby's fallback branch would draw. Its range is not part of the predicate, because that branch can never run (`BabyEvents.FallbackUnreachable`).
- **Files that load** are the set `Config.assets`. What a file that fails to load leaves behind depends on the file:
  - a room background becomes the plain `Blank` surface;
  - a chore background becomes its room's background;
  - a haunted file leaves its slot as it was.
- **The screen size** and **whether each of the two sounds loaded** are also fields of `Config`.

One frame (`draw` in `bebelus.py`, modelled by `GameLogic.Frame`) runs the
haunting schedule first, then the win check, and only then, while the game
is still running, the event updates and the timeout checks. So a frame that
reaches 100 seconds wins even if an event would have timed out in that frame
(`GameLogic.WinTakesPriority`).

## Model

| member | source | states |
|---|---|---|
| BabyEvents.AllowedPositions | BabyEvent.py:12-21 | Rooms 0..3 each have exactly two candidate positions, scaled to the screen and truncated. |
| BabyEvents.PickPosition | BabyEvent.py:23-28 | A room with candidates gives one of them. Otherwise the position is the fallback draw. |
| BabyEvents.FallbackUnreachable | BabyEvent.py:11-28 | Every room the reset can draw has candidates, so the fallback branch never runs. |
| BabyEvents.ResetState | BabyEvent.py:9-30 | A reset leaves the event inactive with no activation time, in the drawn room at one of its candidates. It is due two to five seconds later. |
| BabyEvents.UpdateState | BabyEvent.py:33-37 | A dormant event whose spawn time has come becomes active and records the time. Otherwise nothing changes, and the room, position and spawn time never change. |
| BabyEvents.UpdateKeepsValid | BabyEvent.py:33-37 | An update preserves the baby event's invariant. |
| BabyEvents.UpdateStampsOnce | BabyEvent.py:35-37 | Once active, later updates never re-stamp the activation time. |
| BabyEvents.Hit | BabyEvent.py:47-48 | A click hits exactly when its squared distance from the centre, in whole pixels, is at most the circle radius squared. |
| BabyEvents.RimIsHit | BabyEvent.py:47-50 | Any click exactly at the circle radius from an active baby in the viewed room answers it: the test is inclusive at every point of the rim. |
| BabyEvents.ClickState | BabyEvent.py:44-51 | A hit happens exactly when the event is active in the room being viewed and the click is within the radius. A hit re-arms the event for two to five seconds later; a miss changes nothing. |
| BabyEvents.TimedOut | BabyEvent.py:53-56 | Only an active event times out, and it times out exactly when more than five seconds have passed since it appeared. |
| BabyEvents.TimedOutMonotone | BabyEvent.py:53-56 | The timeout needs strictly more than five seconds. Once it fires, it stays true at every later clock reading. |
| BabyEvents.BabyEvent.constructor | BabyEvent.py:6-7 | A new event holds the reset state and is valid. |
| BabyEvents.BabyEvent.Reset | BabyEvent.py:9-30 | The fields equal `ResetState` of the clock and the draw. |
| BabyEvents.BabyEvent.Update | BabyEvent.py:33-37 | The fields equal `UpdateState` of the old fields. |
| BabyEvents.BabyEvent.IsClicked | BabyEvent.py:44-51 | The returned flag and the new fields equal `ClickState` of the old fields. |
| BabyEvents.BabyEvent.CheckTimeout | BabyEvent.py:53-56 | True exactly when the event is active and more than five seconds have passed since its activation time. |
| PlayerEvents.Catalogue | PlayerEvent.py:6-35 | The catalogue has four chores. |
| PlayerEvents.CatalogueShape | PlayerEvent.py:6-35 | There is exactly one chore per room 0..3, the names are distinct, and every radius is three circle radii except the bed's, which is four. |
| PlayerEvents.ResetState | PlayerEvent.py:41-54 | A reset gives a dormant chore copied from the drawn catalogue entry: no clicks, no timestamps, due two to five seconds later. |
| PlayerEvents.UpdateState | PlayerEvent.py:56-62 | There are exactly three outcomes: a due dormant chore activates, a completed chore past its grace period is reset, or nothing changes. Each keeps the chore's invariant. |
| PlayerEvents.Hit | PlayerEvent.py:106-107 | The test is inclusive: every click at exactly the chore's radius from its centre hits. |
| PlayerEvents.RimIsHit | PlayerEvent.py:103-108 | Any click exactly at the radius of an active chore in the viewed room counts as one more click. |
| PlayerEvents.ClickState | PlayerEvent.py:103-114 | A hit happens exactly when the chore is active in the room being viewed and the click is within its radius. A hit adds one click, and the tenth click completes the chore and starts the five-second grace period. A miss changes nothing, and the catalogue fields never change. |
| PlayerEvents.TimedOut | PlayerEvent.py:116-119 | Only an active chore times out, and it times out exactly when more than fifteen seconds have passed since it appeared. |
| PlayerEvents.TimedOutOnlyWhileActive | PlayerEvent.py:116-119 | A completed chore never times out, and a timeout stays true at later clock readings. |
| PlayerEvents.Progress | PlayerEvent.py:92 | The filled fraction of the progress bar is between 0 and 1, and it is 1 exactly when the chore is completed. |
| PlayerEvents.GraceRoundTrip | PlayerEvent.py:56-62 | Completion followed by the end of the grace period gives a dormant chore with no clicks, which activates once its new spawn time comes. |
| PlayerEvents.PlayerEvent.constructor | PlayerEvent.py:38-39 | A new chore holds the reset state and is valid. |
| PlayerEvents.PlayerEvent.Reset | PlayerEvent.py:41-54 | The fields equal `ResetState` of the clock and the draw. |
| PlayerEvents.PlayerEvent.Update | PlayerEvent.py:56-62 | The fields equal `UpdateState` of the old fields, and the chore stays valid. |
| PlayerEvents.PlayerEvent.IsClicked | PlayerEvent.py:103-114 | The returned flag and the new fields equal `ClickState` of the old fields, and the chore stays valid. |
| PlayerEvents.PlayerEvent.CheckTimeout | PlayerEvent.py:116-119 | True exactly when the chore is active and more than fifteen seconds have passed since its activation time. |
| GameLogic.Load | bebelus.py:225-234 | A file gives its image when it loads and the plain surface when it does not. |
| GameLogic.DefaultBackgrounds | bebelus.py:217-234 | There is one room background per room. |
| GameLogic.DefaultBackgroundsBlank | bebelus.py:223-234 | A room's slot is the plain surface exactly when that room's file fails to load. |
| GameLogic.ChoreBackgrounds | bebelus.py:236-251 | Loading the first `n` chore entries gives exactly their names as keys. |
| GameLogic.ChoreBackgroundsValues | bebelus.py:236-251 | Each chore keeps its own file's image, or its room's background when the file fails to load; no later entry overwrites it. |
| GameLogic.AllChoresHaveBackgrounds | bebelus.py:236-251 | After loading, every catalogue chore has a background. |
| GameLogic.Collides | bebelus.py:100-101 | Only a rectangle of positive width and height contains any point. |
| GameLogic.CollidesHalfOpen | bebelus.py:100-101 | A rectangle contains its top-left corner but no point of its right or bottom edge, as `collidepoint` does. |
| GameLogic.LeftRect | bebelus.py:171-175 | The left button is 100 by 50 pixels, one margin from the left edge and one from the bottom. |
| GameLogic.RightRect | bebelus.py:172-176 | The right button is 100 by 50 pixels, one margin from the right edge and one from the bottom. |
| GameLogic.RetryRect | bebelus.py:179-183 | The retry button is 150 by 50 pixels, one margin from the bottom, and centred, rounding down. |
| GameLogic.NavigationButtonsApart | bebelus.py:171-176 | On a screen at least 240 pixels wide, no point lies in both navigation buttons. |
| GameLogic.SyncButtons | bebelus.py:253-257 | Left is enabled exactly away from the first room, right exactly away from the last, and nothing else changes. |
| GameLogic.Initial | bebelus.py:107-190 | A new session is in room 0 and started at `now`. It is neither won nor lost, with no haunt flag set, left disabled, right enabled, volume target 0, freshly loaded backgrounds and freshly reset events. It satisfies the game invariant. |
| GameLogic.InitialFields | bebelus.py:366-392 | Any state with every field a fresh session has is the initial state and satisfies the invariant. |
| GameLogic.MoveLeft | bebelus.py:409-412 | Away from the first room the room index drops by one and the buttons are re-synchronised. In the first room nothing changes. |
| GameLogic.MoveRight | bebelus.py:414-417 | Before the last room the room index rises by one and the buttons are re-synchronised. In the last room nothing changes. |
| GameLogic.NavigationClamps | bebelus.py:409-417 | Navigation is the room index stepped and clamped to 0..3. It keeps the invariant and changes only the room and the button states. |
| GameLogic.ApplyStage | bebelus.py:285-304 | A due stage whose flag is clear sets its flag whatever happens to the loads. It replaces the room background with the haunted image only if that file loads. It replaces the chore background only if the second file loads too, and sets the volume target to the stage's only if both files load and the ambient sound exists. Otherwise, or once fired, nothing changes. |
| GameLogic.HauntSchedule | bebelus.py:281-361 | After the four stages, each flag is set exactly when it was set before or its threshold has been reached. The keys and the invariant are kept, and only the backgrounds, flags and volume target change. |
| GameLogic.AllStagesAtOnce | bebelus.py:281-361 | With every file and the sound present, one frame at 80 seconds or later applies all four stages. Every room and every chore shows its haunted background, and the volume target is 0.9. |
| GameLogic.WinCheck | bebelus.py:431-437 | A game that is not lost is won exactly when 100 seconds have passed. The victory sound is marked played only on the frame that wins, and only if it loaded. |
| GameLogic.Play | bebelus.py:519-532 | Both events are updated. The game is lost exactly when either timeout fires, with the baby named as the cause before the chore, and nothing else changes. |
| GameLogic.Frame | bebelus.py:427-532 | A frame runs the haunting schedule and the win check. Then, only while the game is still running, it updates the events and checks the timeouts, baby first. The backgrounds and the volume target are those of the haunting schedule. The victory sound is marked played only on a frame that wins, and only if it loaded. A finished game's outcome and events are left untouched. |
| GameLogic.BabyTimeoutEndsGame | bebelus.py:526-528 | An unanswered baby older than five seconds loses a game still short of 100 seconds, with the baby as the cause. |
| GameLogic.WinTakesPriority | bebelus.py:431-439 | Reaching 100 seconds while playing wins, and the game is not lost on that frame. |
| GameLogic.Click | bebelus.py:394-407 | In a finished game only the retry button answers, and it restarts the session. While playing, the first of left, right, baby and chore that the click hits acts, and nothing after it. A click while playing never changes the clock, the haunting flags, the backgrounds, the volume target or the victory sound. |
| GameLogic.EventClick | bebelus.py:404-407 | A click that hits the baby leaves it reset by the second draw and the chore untouched. Any other click leaves the baby untouched and is the chore's. Nothing else changes. |
| GameLogic.BabyBeforeChore | bebelus.py:404-407 | A click on the baby re-arms it (the second reset decides) and leaves the chore untouched. Any other click leaves the baby untouched and goes to the chore. |
| GameLogic.DisabledLeftFallsThrough | bebelus.py:399-403 | In the first room a click on the disabled left button goes on to the right button and the events. |
| GameLogic.CurrentBackground | bebelus.py:419-425 | The result is the room's background or a chore background, and it is the room's whenever the chore is not active in the viewed room. |
| GameLogic.CurrentBackgroundShowsChore | bebelus.py:419-425 | In every valid state the chore has a background. The query shows it exactly while the chore is active in the room being viewed, and the room's background otherwise. |
| GameLogic.Step | bebelus.py:548-565 | A frame, a click or an arrow key keeps the game invariant. |
| GameLogic.Run | bebelus.py:534-574 | Every state reached from a valid state keeps the invariant: the room is in 0..3 and a game is never both won and lost. |
| GameLogic.RunSnoc | bebelus.py:541-565 | Running one more input is one more step. |
| GameLogic.StepKeepsFlag | bebelus.py:281-392 | Only a restart clears a haunt flag. |
| GameLogic.FlagStaysSet | bebelus.py:281-392 | Between restarts, a haunt flag that is set stays set. |
| GameLogic.HauntFiresOncePerSession | bebelus.py:281-392 | If a stage fires on two inputs, the game was restarted between them. |
| GameLogic.HauntFiresWhenDue | bebelus.py:281-361 | A stage whose threshold a frame reaches has fired by the end of that frame, even when none of its files load. |
| Bebelus.Button.constructor | bebelus.py:81-87 | A new button has the given rectangle and is enabled. |
| Bebelus.Button.IsClicked | bebelus.py:100-101 | A disabled button never catches a click, and no click outside the rectangle is caught. |
| Bebelus.Button.SetEnabled | bebelus.py:103-104 | The button's enabled state is the one given. |
| Bebelus.Game.constructor | bebelus.py:107-190 | A new game's state is `Initial` and the game is valid. |
| Bebelus.Game.LoadBackgroundTextures | bebelus.py:217-251 | The room backgrounds equal `DefaultBackgrounds` and the chore backgrounds equal `ChoreBackgrounds`, with every chore present. Both are built by loops. |
| Bebelus.Game.UpdateButtonStates | bebelus.py:253-257 | The buttons' enabled states match the room. |
| Bebelus.Game.MoveLeft | bebelus.py:409-412 | The new state is `GameLogic.MoveLeft` of the old one, and the game stays valid. |
| Bebelus.Game.MoveRight | bebelus.py:414-417 | The new state is `GameLogic.MoveRight` of the old one, and the game stays valid. |
| Bebelus.Game.ClearSession | bebelus.py:366-384 | The session fields are back to their starting values, with the clock at `now`. |
| Bebelus.Game.StartSession | bebelus.py:366-392 | The session fields are cleared, the backgrounds reloaded and the buttons re-synchronised. |
| Bebelus.Game.ResetGame | bebelus.py:366-392 | The new state is `Initial` with fresh event objects, and the game stays valid. |
| Bebelus.Game.HandleClick | bebelus.py:394-407 | The new state is `Click` of the old one, and the game stays valid. |
| Bebelus.Game.GetCurrentBackground | bebelus.py:419-425 | The result is the chore's background while the chore is active in the room being viewed, otherwise the room's. |
| Bebelus.Game.ApplyHauntStage | bebelus.py:285-304 | The new state is `ApplyStage` of the old one. |
| Bebelus.Game.UpdateHauntedTextures | bebelus.py:281-361 | The new state is `HauntSchedule` of the old one. |
| Bebelus.Game.CheckWin | bebelus.py:431-437 | The new state is `WinCheck` of the old one. |
| Bebelus.Game.PlayFrame | bebelus.py:519-532 | The new state is `Play` of the old one. |
| Bebelus.Game.Draw | bebelus.py:427-532 | The new state is `Frame` of the old one, and the game stays valid. |

## Left out

- Drawing: every `draw` method, the fonts, the progress bar's pixels, the cursor and the end screens are left out. Only the state that drawing reads or writes is modelled.
- The victory video (`get_video_frame`, OpenCV capture and rewinding) is left out. This drops one behaviour besides the pixels. When the video has loaded and runs out on the win screen, `get_video_frame` quits pygame and exits the program (bebelus.py:199-202). The model instead keeps a won game in its won state for ever, with the retry button live.
- Audio playback is left out: playing, stopping and looping sounds. `update_sound_volume`, which eases the current volume toward the target, is left out too, along with `current_volume`, `fade_start_time` and `fade_duration`, because they are floating-point audio output. The model keeps the volume target each haunting stage sets.
- Bebelus.Game.ResetGame: the five-second blocking wait while the sound fades out is not modelled. `now` is the clock reading after the wait.
- The start screen (`StartScreen`), the event pump and the frame rate in `main` are left out. The two arrow keys are modelled as the inputs `KeyLeft` and `KeyRight`, which call `MoveLeft` and `MoveRight` with no check of the terminal state, as the code does. The Escape key and quitting are left out.
- `heart_cursor_game.py` is not part of this model. It is a separate cursor demo.
- Time comes from `time.time()` and random choices from `random` in the code; both are parameters here. One frame reads the clock once, whereas the code reads it again at each check within the frame.
- Floating-point arithmetic is modelled as exact `real` arithmetic. Integer coordinates are unbounded `int`s, which matches Python.
- Image loading is modelled as membership in `Config.assets`. Decoding and scaling images is left out.
- The warnings printed when a file fails to load (bebelus.py:141, 148, 156, 231, 250, 303, 322, 341, 360) are left out, because they are console output only.
- The hit tests compare squared distances. The code takes a floating-point square root; with exact arithmetic and a non-negative radius the two agree.
- The screen size comes from the display at start-up in the code; here it is `Config.screen`, a parameter.
- Bebelus.Button.IsClicked: its contract states one direction of the hit test. The full equivalence with `enabled && Collides(rect, p)` is its body.
