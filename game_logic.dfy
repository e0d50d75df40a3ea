/**
 * The server's countdown control (`game_logic.py`): two flags standing for the
 * `reset_event` and `start_event` events, the `dispatch` of an admin command,
 * and the values one countdown round broadcasts.
 */
module GameLogic {
  import opened Wrappers
  import opened Protocol

  /** Whether `reset_event` and `start_event` are set. */
  datatype Flags = Flags(reset: bool, start: bool)

  /** How a call ends: normally, or with an exception. */
  datatype Outcome = Completed | Raised(error: string)

  /**
   * `dispatch(command)`: the new flags and the broadcasts.  A missing or empty
   * command, or one without "action", changes nothing; RESET_TIMER sets reset,
   * clears start and broadcasts the reset; START_TIMER sets start and clears
   * reset; any other action changes nothing.
   */
  function Dispatched(f: Flags, command: Option<Payload>): (Flags, seq<TimerMessage>) {
    if command.None? || |command.value| == 0 || "action" !in command.value then (f, [])
    else if command.value["action"] == RESET_TIMER then (Flags(true, false), [RESET_BROADCAST])
    else if command.value["action"] == START_TIMER then (Flags(false, true), [])
    else (f, [])
  }

  /** A command is recognised when it names one of the two actions. */
  predicate Recognised(command: Option<Payload>) {
    command.Some? && "action" in command.value
    && (command.value["action"] == RESET_TIMER || command.value["action"] == START_TIMER)
  }

  /**
   * After a recognised command exactly one flag is set (which one is told by
   * the action); any other command leaves the flags alone.  Only a reset is
   * broadcast, and it carries the full countdown.
   */
  lemma DispatchSpec(f: Flags, command: Option<Payload>)
    ensures var (g, sent) := Dispatched(f, command);
      && (Recognised(command) ==> g.reset != g.start && (g.reset <==> command.value["action"] == RESET_TIMER))
      && (!Recognised(command) ==> g == f && sent == [])
      && (sent != [] <==> Recognised(command) && command.value["action"] == RESET_TIMER)
      && (forall m :: m in sent ==> m.value == Some(TIMER_MAX_VALUE) && m.origin == "reset")
  {
  }

  /** A second identical command changes nothing more: dispatching is idempotent on the flags. */
  lemma DispatchIdempotent(f: Flags, command: Option<Payload>)
    ensures Dispatched(Dispatched(f, command).0, command).0 == Dispatched(f, command).0
  {
  }

  /** The first index at which `seen` is true, or its length when there is none. */
  function FirstSet(seen: seq<bool>): (k: nat)
    ensures k <= |seen| && (forall i :: 0 <= i < k ==> !seen[i]) && (k < |seen| ==> seen[k])
  {
    if |seen| == 0 then 0 else if seen[0] then 0 else 1 + FirstSet(seen[1..])
  }

  /** The first `n` ticks of a countdown from `TIMER_MAX_VALUE`. */
  function Countdown(n: nat): seq<TimerMessage> {
    seq(n, i => CountdownMessage(TIMER_MAX_VALUE - i))
  }

  /**
   * A round broadcasts strictly decreasing values between 0 and
   * `TIMER_MAX_VALUE`, starting at `TIMER_MAX_VALUE`, and reaches 0 exactly
   * when it runs all `TIMER_MAX_VALUE + 1` ticks.
   */
  lemma CountdownSpec(n: nat)
    requires n <= TIMER_MAX_VALUE + 1
    ensures forall i :: 0 <= i < n ==> Countdown(n)[i].value.Some? && 0 <= Countdown(n)[i].value.value <= TIMER_MAX_VALUE
    ensures forall i, j :: 0 <= i < j < n ==> Countdown(n)[i].value.value > Countdown(n)[j].value.value
    ensures 0 < n ==> Countdown(n)[0].value == Some(TIMER_MAX_VALUE)
    ensures (exists i :: 0 <= i < n && Countdown(n)[i].value == Some(0)) <==> n == TIMER_MAX_VALUE + 1
  {
    if n == TIMER_MAX_VALUE + 1 {
      assert Countdown(n)[TIMER_MAX_VALUE].value == Some(0);
    }
  }

  // ---------------------------------------------------------------------------
  // As written
  // ---------------------------------------------------------------------------

  /**
   * `dispatch` as written: its first statement imports `on_boardcast` from the
   * WebSocket module, which defines no such name, so every call raises before
   * looking at the command and nothing changes.
   */
  function DispatchAsWritten(f: Flags, command: Option<Payload>): (Flags, seq<TimerMessage>, Outcome) {
    (f, [], Raised("ImportError"))
  }

  /**
   * `game_timer_task` as written: the same import is its first statement, so it
   * raises before broadcasting any tick.
   */
  function TimerRoundAsWritten(seen: seq<bool>): (seq<TimerMessage>, Outcome) {
    ([], Raised("ImportError"))
  }

  /** The admin page's reset button, as written, neither sets the reset flag nor broadcasts; as intended, it does both. */
  lemma ResetLostAsWritten()
    ensures var (g, sent, outcome) := DispatchAsWritten(Flags(false, true), Some(ActionPayload(RESET_TIMER)));
      g.start && !g.reset && sent == [] && outcome.Raised?
    ensures Dispatched(Flags(false, true), Some(ActionPayload(RESET_TIMER))) == (Flags(true, false), [RESET_BROADCAST])
  {
  }

  /** A started round, as written, broadcasts nothing; as intended, its first broadcast is the full countdown. */
  lemma CountdownLostAsWritten(seen: seq<bool>)
    requires |seen| == TIMER_MAX_VALUE + 1 && !seen[0]
    ensures TimerRoundAsWritten(seen).0 == []
    ensures 0 < |Countdown(FirstSet(seen))| && Countdown(FirstSet(seen))[0] == CountdownMessage(TIMER_MAX_VALUE)
  {
  }

  // ---------------------------------------------------------------------------
  // The server's state
  // ---------------------------------------------------------------------------

  /**
   * The module-level events and the messages handed to the broadcast
   * function, oldest first.  The model records each broadcast where the source
   * calls the missing `on_boardcast`.
   */
  class GameTimer {
    var resetEvent: bool
    var startEvent: bool
    var broadcasts: seq<TimerMessage>

    constructor ()
      ensures !resetEvent && !startEvent && broadcasts == []
    {
      resetEvent := false;
      startEvent := false;
      broadcasts := [];
    }

    function State(): Flags
      reads this
    {
      Flags(resetEvent, startEvent)
    }

    /** `dispatch(command)`, with the broadcast the source intends. */
    method Dispatch(command: Option<Payload>)
      modifies this
      ensures State() == Dispatched(old(State()), command).0
      ensures broadcasts == old(broadcasts) + Dispatched(old(State()), command).1
    {
      if command.None? || |command.value| == 0 || "action" !in command.value {
        return;
      }
      var action := command.value["action"];
      if action == RESET_TIMER {
        resetEvent := true;
        startEvent := false;
        broadcasts := broadcasts + [TimerMessage(Some(TIMER_MAX_VALUE), "reset")];
      } else if action == START_TIMER {
        startEvent := true;
        resetEvent := false;
      }
    }

    /**
     * One round of `game_timer_task` once `start_event` is set: for each value
     * from `TIMER_MAX_VALUE` down to 0, stop if `reset_event` is set, else
     * broadcast the value.  `seen[i]` is what `reset_event.is_set()` returns at
     * tick `i`, since a concurrent `dispatch` may set it.  `finished` tells
     * whether the round ran to 0 (and then goes on to wait for a reset).
     */
    method CountdownRound(seen: seq<bool>) returns (finished: bool)
      requires |seen| == TIMER_MAX_VALUE + 1
      modifies this`broadcasts
      ensures broadcasts == old(broadcasts) + Countdown(FirstSet(seen))
      ensures finished <==> FirstSet(seen) == |seen|
    {
      var remaining := TIMER_MAX_VALUE;
      while remaining >= 0
        invariant -1 <= remaining <= TIMER_MAX_VALUE
        invariant TIMER_MAX_VALUE - remaining <= FirstSet(seen)
        invariant broadcasts == old(broadcasts) + Countdown(TIMER_MAX_VALUE - remaining)
      {
        var tick := TIMER_MAX_VALUE - remaining;
        if seen[tick] {
          return false;
        }
        broadcasts := broadcasts + [CountdownMessage(remaining)];
        remaining := remaining - 1;
      }
      return true;
    }
  }
}
