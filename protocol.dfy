/**
 * The JSON messages the server and the pages exchange over their WebSockets,
 * as values.  A field JavaScript may find missing is an `Option`.
 */
module Protocol {
  import opened Wrappers

  /** The length of a countdown in seconds (`TIMER_MAX_VALUE` in the server's configuration). */
  const TIMER_MAX_VALUE := 90

  /** `{type: "timer", value, by}`; `origin` is the `by` field: "reset", "countdown" or anything else. */
  datatype TimerMessage = TimerMessage(value: Option<int>, origin: string)

  /** `{type: "game_state_update", phase, round, try_num, target_name}`. */
  datatype GameState = GameState(phase: string, round: int, tryNum: int, targetName: Option<string>)

  /**
   * One ranked guess of a `top5` message: the class label `name` and its score
   * already rendered as `(score * 100).toFixed(1)`, since the score is floating point.
   */
  datatype Prediction = Prediction(name: string, percent: string)

  /** The `image` object of an image message: a media type and base64 data, either possibly missing. */
  datatype ImagePayload = ImagePayload(mediaType: Option<string>, base64: Option<string>)

  /**
   * A message from the server, by its `type` field.  `results` is `None` when it
   * is not an array; `image` is `None` when it is missing or null.
   */
  datatype ServerMessage =
    | Timer(timer: TimerMessage)
    | GameStateUpdate(state: GameState)
    | Top5(results: Option<seq<Prediction>>)
    | Image(image: Option<ImagePayload>)
    | Other(kind: string)

  /** The `payload` object of a `{type: "command", payload}` message, with string values. */
  type Payload = map<string, string>

  /** `{type: "command", payload}`, the one message the admin page sends. */
  datatype ClientMessage = Command(payload: Payload)

  const RESET_TIMER := "RESET_TIMER"
  const START_TIMER := "START_TIMER"

  /** The payload the admin page's reset and start buttons send. */
  function ActionPayload(action: string): (p: Payload)
    ensures "action" in p && p["action"] == action && |p| == 1
  {
    map["action" := action]
  }

  /** What the server broadcasts when the countdown is reset. */
  const RESET_BROADCAST := TimerMessage(Some(TIMER_MAX_VALUE), "reset")

  /** One tick of the countdown. */
  function CountdownMessage(remaining: int): TimerMessage {
    TimerMessage(Some(remaining), "countdown")
  }
}
