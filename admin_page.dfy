/**
 * The admin page (`admin.js`): a timer display driven by the server's timer
 * messages, and the reset and start buttons, which send a command over the
 * page's WebSocket when it is open.
 */
module AdminPage {
  import opened Wrappers
  import opened Text
  import opened Clock
  import opened Protocol
  import GameLogic

  const RESET_COLOR := "#0066cc"
  const LOW_COLOR := "red"
  const NORMAL_COLOR := "black"

  /**
   * The timer display after a timer message, given its colour before: a reset
   * shows the value with a reset note in blue; a countdown shows the clock, red
   * at 30 seconds or less and black otherwise; any other origin shows the value
   * and keeps the colour.
   */
  function TimerView(t: TimerMessage, color: string): (v: (string, string))
    ensures t.origin == "reset" ==> v.1 == RESET_COLOR
    ensures t.origin == "countdown" ==> (v.1 == LOW_COLOR <==> IsLowTime(t.value)) && v.1 != RESET_COLOR
    ensures t.origin != "reset" && t.origin != "countdown" ==> v.1 == color
  {
    if t.origin == "reset" then (ValueText(t.value) + "s (已重置)", RESET_COLOR)
    else if t.origin == "countdown" then
      (CountdownText(t.value), if IsLowTime(t.value) then LOW_COLOR else NORMAL_COLOR)
    else (ValueText(t.value) + "s", color)
  }

  /** A countdown tick with a non-negative value shows a clock that reads back as that value. */
  lemma CountdownViewReadsBack(v: nat, color: string)
    ensures ClockSeconds(TimerView(CountdownMessage(v), color).0) == Some(v)
    ensures TimerView(CountdownMessage(v), color).1 == if v <= LOW_TIME_SECONDS then LOW_COLOR else NORMAL_COLOR
  {
    ClockRoundTrip(v);
  }

  /**
   * The reset button's command, dispatched by the server, broadcasts the reset
   * message, and the admin page then shows "90s (已重置)" in blue.
   */
  lemma ResetButtonEndToEnd(f: GameLogic.Flags, color: string)
    ensures var (g, sent) := GameLogic.Dispatched(f, Some(ActionPayload(RESET_TIMER)));
      && g.reset && !g.start
      && sent == [RESET_BROADCAST]
      && TimerView(sent[0], color) == ("90s (已重置)", RESET_COLOR)
  {
    assert DigitChar(9) == '9' && DigitChar(0) == '0';
    assert DecimalString(9) == "9";
    assert DecimalString(90) == DecimalString(9) + "0";
    assert ValueText(Some(90)) == "90";
    assert ValueText(Some(90)) + "s (已重置)" == "90s (已重置)";
  }

  /** The start button's command sets the start flag and broadcasts nothing. */
  lemma StartButtonEndToEnd(f: GameLogic.Flags)
    ensures GameLogic.Dispatched(f, Some(ActionPayload(START_TIMER))) == (GameLogic.Flags(false, true), [])
  {
  }

  class Page {
    var timerText: string
    var timerColor: string
    /** Whether the page's WebSocket is open (`readyState === WebSocket.OPEN`). */
    var wsOpen: bool
    /** The messages `sendMessage` put on the socket, oldest first. */
    var sent: seq<ClientMessage>

    constructor (text: string, color: string, open: bool)
      ensures timerText == text && timerColor == color && wsOpen == open && sent == []
    {
      timerText := text;
      timerColor := color;
      wsOpen := open;
      sent := [];
    }

    /** `handleMessage`: only timer messages change the page. */
    method HandleMessage(m: ServerMessage)
      modifies this`timerText, this`timerColor
      ensures m.Timer? ==> (timerText, timerColor) == TimerView(m.timer, old(timerColor))
      ensures !m.Timer? ==> timerText == old(timerText) && timerColor == old(timerColor)
    {
      match m
      case Timer(t) => UpdateTimer(t);
      case _ =>
    }

    /** `updateTimer`: render the message on the timer display. */
    method UpdateTimer(t: TimerMessage)
      modifies this`timerText, this`timerColor
      ensures (timerText, timerColor) == TimerView(t, old(timerColor))
    {
      var value := ValueText(t.value);
      if t.origin == "reset" {
        timerText := value + "s (已重置)";
        timerColor := RESET_COLOR;
      } else if t.origin == "countdown" {
        timerText := CountdownText(t.value);
        if IsLowTime(t.value) {
          timerColor := LOW_COLOR;
        } else {
          timerColor := NORMAL_COLOR;
        }
      } else {
        timerText := value + "s";
      }
    }

    /** `sendMessage`: put the message on the socket when it is open; otherwise it is dropped. */
    method SendMessage(msg: ClientMessage)
      modifies this`sent
      ensures sent == old(sent) + if wsOpen then [msg] else []
    {
      if wsOpen {
        sent := sent + [msg];
      }
    }

    /** The reset button: send the RESET_TIMER command. */
    method ClickReset()
      modifies this`sent
      ensures sent == old(sent) + if wsOpen then [Command(ActionPayload(RESET_TIMER))] else []
    {
      SendMessage(Command(ActionPayload(RESET_TIMER)));
    }

    /** The start button: send the START_TIMER command. */
    method ClickStart()
      modifies this`sent
      ensures sent == old(sent) + if wsOpen then [Command(ActionPayload(START_TIMER))] else []
    {
      SendMessage(Command(ActionPayload(START_TIMER)));
    }
  }
}
