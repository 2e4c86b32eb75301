/** The game's integer constants, the screen it is laid out on, and the
    circular hit test shared by the baby event and the chore event. */
module Constants {

  const BUTTON_WIDTH: int := 100
  const BUTTON_HEIGHT: int := 50
  const BUTTON_MARGIN: int := 20
  const CIRCLE_RADIUS: int := 30
  const PLAYER_EVENT_CLICKS_REQUIRED: int := 10
  const PLAYER_EVENT_TIMEOUT: real := 15.0
  const PLAYER_EVENT_GRACE_PERIOD: real := 5.0

  /** Number of rooms: bathroom, kitchen, bedroom, living room. */
  const ROOM_COUNT: int := 4

  datatype Option<T> = None | Some(value: T)

  /** The display size, which the game reads from the display at start-up. */
  datatype Screen = Screen(width: int, height: int) {
    predicate Valid() { width > 0 && height > 0 }
  }

  /** A mouse position in pixels. */
  datatype Point = Point(x: int, y: int)

  /** Euclidean distance from (px, py) to (cx, cy) is at most `radius`,
      compared on squares so that no square root is needed; for a
      non-negative radius the two comparisons agree. */
  predicate WithinRadius(px: real, py: real, cx: real, cy: real, radius: real) {
    (px - cx) * (px - cx) + (py - cy) * (py - cy) <= radius * radius
  }
}
