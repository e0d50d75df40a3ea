/**
 * The display page (`show.js`): the countdown, the live picture of the canvas
 * and the five ranked guesses of the recogniser.
 */
module ShowPage {
  import opened Wrappers
  import opened Text
  import opened Clock
  import opened Protocol

  // ---------------------------------------------------------------------------
  // formatName
  // ---------------------------------------------------------------------------

  /** A character of the regular-expression class `\w`. */
  predicate IsWordChar(c: char) {
    'a' <= c <= 'z' || 'A' <= c <= 'Z' || '0' <= c <= '9' || c == '_'
  }

  /** `toUpperCase` on one word character: only the ASCII lower-case letters change. */
  function ToUpper(c: char): (u: char)
    ensures IsWordChar(u) == IsWordChar(c) && !('a' <= u <= 'z')
    ensures !('a' <= c <= 'z') ==> u == c
  {
    if 'a' <= c <= 'z' then (c as int - 32) as char else c
  }

  /** `\b\w` matches at `i`: a word character with no word character just before it. */
  predicate WordStart(t: string, i: int)
    requires 0 <= i < |t|
  {
    IsWordChar(t[i]) && (i == 0 || !IsWordChar(t[i - 1]))
  }

  /** `label.replace(/_/g, ' ')`. */
  function SpaceUnderscores(s: string): (t: string)
    ensures |t| == |s|
  {
    seq(|s|, i requires 0 <= i < |s| => if s[i] == '_' then ' ' else s[i])
  }

  /** `t.replace(/\b\w/g, c => c.toUpperCase())`. */
  function CapitalizeWords(t: string): (r: string)
    ensures |r| == |t|
  {
    seq(|t|, i requires 0 <= i < |t| => if WordStart(t, i) then ToUpper(t[i]) else t[i])
  }

  /** `formatName`: underscores become spaces, then each word begins with a capital. */
  function FormatName(raw: string): string {
    CapitalizeWords(SpaceUnderscores(raw))
  }

  /**
   * `formatName` keeps the length, leaves no underscore, capitalises every
   * word start and leaves every other character as it was (underscores aside).
   */
  lemma FormatNameSpec(raw: string)
    ensures var r := FormatName(raw);
      && |r| == |raw|
      && (forall i :: 0 <= i < |r| ==> r[i] != '_')
      && (forall i :: 0 <= i < |r| && raw[i] == '_' ==> r[i] == ' ')
      && (forall i :: 0 <= i < |r| && WordStart(r, i) ==> !('a' <= r[i] <= 'z'))
      && (forall i :: 0 <= i < |r| && !WordStart(r, i) && raw[i] != '_' ==> r[i] == raw[i])
  {
    var t := SpaceUnderscores(raw);
    var r := FormatName(raw);
    assert forall i :: 0 <= i < |r| ==> (WordStart(r, i) <==> WordStart(t, i));
  }

  /** Formatting a formatted name changes nothing. */
  lemma FormatNameIdempotent(raw: string)
    ensures FormatName(FormatName(raw)) == FormatName(raw)
  {
    var t := SpaceUnderscores(raw);
    var r := FormatName(raw);
    assert SpaceUnderscores(r) == r;
    assert forall i :: 0 <= i < |r| ==> (WordStart(r, i) <==> WordStart(t, i));
    assert CapitalizeWords(r) == r;
  }

  /** The example name of the page's sample message. */
  lemma FormatNameExample()
    ensures FormatName("saigyouji_yuyuko") == "Saigyouji Yuyuko"
  {
    var t := SpaceUnderscores("saigyouji_yuyuko");
    assert t == "saigyouji yuyuko";
    assert WordStart(t, 0) && WordStart(t, 10);
    assert forall i :: 0 <= i < |t| && i != 0 && i != 10 ==> !WordStart(t, i);
  }

  // ---------------------------------------------------------------------------
  // The image
  // ---------------------------------------------------------------------------

  /** `data:${type};base64,${data}`, a base64 data URL in the form of section 3 of RFC 2397. */
  function DataUrl(mediaType: string, data: string): string {
    "data:" + mediaType + ";base64," + data
  }

  /** The first index of `c` in `s`. */
  function IndexOf(s: string, c: char): (r: Option<nat>)
    ensures r.Some? ==> r.value < |s| && s[r.value] == c && c !in s[..r.value]
    ensures r.None? ==> c !in s
  {
    if |s| == 0 then None
    else if s[0] == c then Some(0)
    else match IndexOf(s[1..], c)
      case None => None
      case Some(k) => assert s[..k + 1] == [s[0]] + s[1..][..k]; Some(k + 1)
  }

  /**
   * Reads a base64 data URL back into its media type and data: the media
   * type runs to the first `;`, which must begin `;base64,`.
   */
  function ParseDataUrl(url: string): Option<(string, string)> {
    if |url| < 5 || url[..5] != "data:" then None
    else
      var rest := url[5..];
      match IndexOf(rest, ';')
      case None => None
      case Some(i) =>
        if |rest| - i >= 8 && rest[i..i + 8] == ";base64," then Some((rest[..i], rest[i + 8..])) else None
  }

  /** The media type and the data are read back from the URL whenever the media type has no parameters. */
  lemma DataUrlRoundTrip(mediaType: string, data: string)
    requires ';' !in mediaType
    ensures ParseDataUrl(DataUrl(mediaType, data)) == Some((mediaType, data))
  {
    var url := DataUrl(mediaType, data);
    var rest := url[5..];
    assert rest == mediaType + ";base64," + data;
    var i := |mediaType|;
    assert rest[i] == ';';
    assert rest[..i] == mediaType;
    assert IndexOf(rest, ';') == Some(i);
    assert rest[i..i + 8] == ";base64,";
    assert rest[i + 8..] == data;
  }

  /**
   * `updateImage`: nothing for a missing image or empty base64 data,
   * otherwise the data URL (with the text "undefined" for a missing type).
   */
  function ImageSource(image: Option<ImagePayload>): (src: Option<string>)
    ensures src.Some? <==> image.Some? && image.value.base64.Some? && image.value.base64.value != ""
  {
    if image.None? || image.value.base64.None? || image.value.base64.value == "" then None
    else Some(DataUrl(image.value.mediaType.GetOr("undefined"), image.value.base64.value))
  }

  /** A shown image always carries the sent data and, when the type is a plain one, the sent type. */
  lemma ImageSourceSpec(t: string, data: string)
    requires ';' !in t && data != ""
    ensures ImageSource(Some(ImagePayload(Some(t), Some(data)))).Some?
    ensures ParseDataUrl(ImageSource(Some(ImagePayload(Some(t), Some(data)))).value) == Some((t, data))
  {
    DataUrlRoundTrip(t, data);
  }

  // ---------------------------------------------------------------------------
  // The ranking
  // ---------------------------------------------------------------------------

  /** The number of rank slots on the page (`result-top1` … `result-top5`). */
  const RANKS := 5

  /** One rank slot: Chinese name, English name, similarity text and picture. */
  datatype Slot = Slot(nameCN: string, nameEN: string, similarity: string, picture: string)

  const UNKNOWN_NAME := "？？？"
  const IMAGE_DIR := "../images/chr/"
  const SMALL_SUFFIX := "_small.png"

  /** A slot with nothing known, as a countdown reset leaves it. */
  const UNKNOWN_SLOT := Slot(UNKNOWN_NAME, UNKNOWN_NAME, "??%", IMAGE_DIR + "satsuki_rin_unknown.png")

  /** How a guess is shown: the Chinese name stays unknown, the English name is formatted, and the picture is named after the label. */
  function ResultSlot(p: Prediction): Slot {
    Slot(UNKNOWN_NAME, FormatName(p.name), p.percent + "%", IMAGE_DIR + p.name + SMALL_SUFFIX)
  }

  /** The label a slot's picture path names, when it has the shape `ResultSlot` gives it. */
  function PictureLabel(path: string): Option<string> {
    var n, m := |IMAGE_DIR|, |SMALL_SUFFIX|;
    if |path| >= n + m && path[..n] == IMAGE_DIR && path[|path| - m..] == SMALL_SUFFIX then Some(path[n..|path| - m])
    else None
  }

  /** The picture path of a shown guess names its label, so the label is recovered from it. */
  lemma ResultSlotPicture(p: Prediction)
    ensures PictureLabel(ResultSlot(p).picture) == Some(p.name)
    ensures ResultSlot(p).nameEN == FormatName(p.name) && ResultSlot(p).nameCN == UNKNOWN_NAME
  {
    var path := ResultSlot(p).picture;
    assert path[..|IMAGE_DIR|] == IMAGE_DIR;
    assert path[|path| - |SMALL_SUFFIX|..] == SMALL_SUFFIX;
    assert path[|IMAGE_DIR|..|path| - |SMALL_SUFFIX|] == p.name;
  }

  /** The slots after `updateTop5(items)`: the first five guesses in rank order, the rest as they were. */
  function ShownSlots(before: seq<Slot>, items: seq<Prediction>): (r: seq<Slot>)
    requires |before| == RANKS
    ensures |r| == RANKS
  {
    seq(RANKS, i requires 0 <= i < RANKS => if i < |items| then ResultSlot(items[i]) else before[i])
  }

  class Page {
    var timerText: string
    var timerColor: string
    var imageSrc: string
    /** The five rank slots, rank 1 first. */
    const slots: array<Slot>

    predicate Valid()
      reads this
    {
      slots.Length == RANKS
    }

    constructor ()
      ensures Valid() && fresh(slots)
      ensures slots[..] == seq(RANKS, _ => UNKNOWN_SLOT)
      ensures timerText == "" && timerColor == "" && imageSrc == ""
    {
      timerText := "";
      timerColor := "";
      imageSrc := "";
      slots := new Slot[RANKS](_ => UNKNOWN_SLOT);
    }

    /**
     * `onmessage`: a timer message updates the countdown, a top5 message the
     * ranking and an image message the picture; any other type is ignored.
     * A ranking with more than five entries stops with an error after the
     * fifth slot, which the handler catches.
     */
    method HandleMessage(m: ServerMessage)
      requires Valid()
      modifies this`timerText, this`timerColor, this`imageSrc, slots
      ensures m.Timer? ==> TimerShown(m.timer, old(timerText), old(timerColor), old(slots[..]))
      ensures m.Top5? && m.results.Some? ==> slots[..] == ShownSlots(old(slots[..]), m.results.value)
      ensures m.Image? ==> imageSrc == ImageSource(m.image).GetOr(old(imageSrc))
      ensures !m.Timer? ==> timerText == old(timerText) && timerColor == old(timerColor)
      ensures !m.Image? ==> imageSrc == old(imageSrc)
      ensures !m.Timer? && !(m.Top5? && m.results.Some?) ==> slots[..] == old(slots[..])
    {
      match m
      case Timer(t) => UpdateTimer(t);
      case Top5(results) => var _ := UpdateTop5(results);
      case Image(image) => UpdateImage(image);
      case GameStateUpdate(_) =>
      case Other(_) =>
    }

    /** What `updateTimer(t)` leaves on the page, given the text, colour and slots before it. */
    twostate predicate TimerShown(t: TimerMessage, oldText: string, oldColor: string, oldSlots: seq<Slot>)
      reads this, slots
    {
      if t.origin == "reset" then
        timerText == "⏱ 定时器重置：" + ValueText(t.value) + "s" && timerColor == "#0066cc"
        && slots[..] == seq(RANKS, _ => UNKNOWN_SLOT)
      else if t.origin == "countdown" then
        timerText == "⏳" + CountdownText(t.value) && timerColor == (if IsLowTime(t.value) then "red" else "black")
        && slots[..] == oldSlots
      else
        timerText == "⏳" + ValueText(t.value) + "s" && timerColor == oldColor && slots[..] == oldSlots
    }

    /**
     * `updateTimer`: a reset shows the new value in blue and blanks all five
     * rank slots; a countdown shows `⏳MM:SS` in red at 30 seconds or less and
     * in black above; anything else shows `⏳<value>s`.
     */
    method UpdateTimer(t: TimerMessage)
      requires Valid()
      modifies this`timerText, this`timerColor, slots
      ensures TimerShown(t, old(timerText), old(timerColor), old(slots[..]))
    {
      if t.origin == "reset" {
        timerText := "⏱ 定时器重置：" + ValueText(t.value) + "s";
        timerColor := "#0066cc";
        var rank := 1;
        while rank <= RANKS
          invariant 1 <= rank <= RANKS + 1
          invariant timerText == "⏱ 定时器重置：" + ValueText(t.value) + "s" && timerColor == "#0066cc"
          invariant forall i :: 0 <= i < rank - 1 ==> slots[i] == UNKNOWN_SLOT
        {
          slots[rank - 1] := UNKNOWN_SLOT;
          rank := rank + 1;
        }
      } else if t.origin == "countdown" {
        if IsLowTime(t.value) {
          timerColor := "red";
        } else {
          timerColor := "black";
        }
        timerText := "⏳" + CountdownText(t.value);
      } else {
        timerText := "⏳" + ValueText(t.value) + "s";
      }
    }

    /** `updateImage`: show the image's data URL, unless the image or its data is missing. */
    method UpdateImage(image: Option<ImagePayload>)
      modifies this`imageSrc
      ensures imageSrc == ImageSource(image).GetOr(old(imageSrc))
    {
      if image.None? || image.value.base64.None? || image.value.base64.value == "" {
        return;
      }
      imageSrc := DataUrl(image.value.mediaType.GetOr("undefined"), image.value.base64.value);
    }

    /**
     * `updateTop5`: nothing when `results` is not an array; otherwise guess
     * number `i` fills rank `i + 1`.  There is no sixth slot, so a sixth guess
     * raises an error after the first five are shown: `complete` is false then.
     */
    method UpdateTop5(results: Option<seq<Prediction>>) returns (complete: bool)
      requires Valid()
      modifies slots
      ensures results.None? ==> slots[..] == old(slots[..]) && complete
      ensures results.Some? ==> slots[..] == ShownSlots(old(slots[..]), results.value)
      ensures results.Some? ==> (complete <==> |results.value| <= RANKS)
    {
      if results.None? {
        return true;
      }
      var items := results.value;
      var index := 0;
      while index < |items|
        invariant 0 <= index <= |items| && index <= RANKS
        invariant forall i :: 0 <= i < RANKS ==> slots[i] == if i < index then ResultSlot(items[i]) else old(slots[i])
      {
        var rank := index + 1;
        if rank > RANKS {
          return false;
        }
        slots[rank - 1] := ResultSlot(items[index]);
        index := index + 1;
      }
      return true;
    }
  }
}
