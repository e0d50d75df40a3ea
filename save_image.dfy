/**
 * The server's history snapshot (`save_canvas_to_history` in `save_image.py`):
 * the guard on the latest canvas image, the file extension, the file name and
 * the returned path.  The image, its media type, the formatted timestamp, the
 * game's round record and whether writing the file succeeds are parameters.
 */
module SaveImage {
  import opened Wrappers
  import opened Text

  /** The game's round record the file name is built from. */
  datatype RoundInfo = RoundInfo(roundNum: int, tryNum: int, targetLabel: Option<string>)

  const JPG := ".jpg"
  const PNG := ".png"
  const IDLE_NAME := "_MANUAL_SAVE_IDLE"

  /** ".jpg" when the media type mentions "jpeg" or "jpg", ".png" otherwise. */
  function Extension(imageType: string): string {
    if Contains(imageType, "jpeg") || Contains(imageType, "jpg") then JPG else PNG
  }

  /** A round is under way and names its target: Python's `round_num > 0 and target_label`. */
  predicate Labelled(info: RoundInfo) {
    info.roundNum > 0 && info.targetLabel.Some? && info.targetLabel.value != ""
  }

  /**
   * `{timestamp}_R{round}_T{try}_{label}_{reason}{ext}` for a labelled round,
   * `{timestamp}_MANUAL_SAVE_IDLE{ext}` otherwise.
   */
  function FileName(timestamp: string, info: RoundInfo, reason: string, ext: string): string {
    if Labelled(info) then
      timestamp + "_R" + IntString(info.roundNum) + "_T" + IntString(info.tryNum)
      + "_" + info.targetLabel.value + "_" + reason + ext
    else timestamp + IDLE_NAME + ext
  }

  /**
   * The path returned: nothing when there is no image (no bytes, empty bytes
   * or no media type) or when writing fails, which the function's catch-all
   * turns into `None`; otherwise the history directory joined with the name.
   */
  function SaveCanvasToHistory(historyDir: string, bytes: Option<seq<bv8>>, imageType: Option<string>,
                               timestamp: string, info: RoundInfo, reason: string, writeOk: bool): Option<string>
  {
    if bytes.None? || |bytes.value| == 0 || imageType.None? then None
    else if !writeOk then None
    else Some(historyDir + "/" + FileName(timestamp, info, reason, Extension(imageType.value)))
  }

  /**
   * A path comes back exactly when there are image bytes, a media type and the
   * write succeeds.  It is then a file directly under the history directory
   * whose name starts with the timestamp and ends with ".jpg" or ".png" as the
   * media type says; a labelled round's round and try numbers read back from
   * the name, and any other name is the idle one.
   */
  lemma SaveSpec(historyDir: string, bytes: Option<seq<bv8>>, imageType: Option<string>,
                 timestamp: string, info: RoundInfo, reason: string, writeOk: bool)
    ensures var r := SaveCanvasToHistory(historyDir, bytes, imageType, timestamp, info, reason, writeOk);
      && (r.Some? <==> bytes.Some? && |bytes.value| > 0 && imageType.Some? && writeOk)
      && (r.Some? ==>
           var ext := Extension(imageType.value);
           var name := r.value[|historyDir| + 1..];
           && |r.value| > |historyDir| + 1 && r.value[..|historyDir| + 1] == historyDir + "/"
           && |name| > |timestamp| + 1 && name[..|timestamp|] == timestamp
           && (ext == JPG || ext == PNG) && |name| >= |ext| && name[|name| - |ext|..] == ext
           && (Labelled(info) ==> RoundAndTryReadBack(name, timestamp, info))
           && (!Labelled(info) ==> name == timestamp + IDLE_NAME + ext))
  {
    var r := SaveCanvasToHistory(historyDir, bytes, imageType, timestamp, info, reason, writeOk);
    if r.Some? {
      var ext := Extension(imageType.value);
      var name := FileName(timestamp, info, reason, ext);
      assert r.value == historyDir + "/" + name;
      assert r.value[|historyDir| + 1..] == name;
      FileNameExtension(timestamp, info, reason, imageType.value);
      RoundReadsBack(timestamp, info, reason, ext);
    }
  }

  /** The JPEG media types get ".jpg"; PNG, and a type naming neither, get ".png". */
  lemma ExtensionExamples()
    ensures Extension("image/jpeg") == JPG
    ensures Extension("image/jpg") == JPG
    ensures Extension("image/png") == PNG
    ensures Extension("") == PNG
  {
    assert OccursAt("image/jpeg", "jpeg", 6);
    assert OccursAt("image/jpg", "jpg", 6);
    assert !Contains("image/png", "jpeg") by {
      forall i | 0 <= i <= 5 ensures !OccursAt("image/png", "jpeg", i) {
        assert "image/png"[i + 1] != 'p' || "image/png"[i] != 'j';
      }
    }
    assert !Contains("image/png", "jpg") by {
      forall i | 0 <= i <= 6 ensures !OccursAt("image/png", "jpg", i) {
        assert "image/png"[i] != 'j';
      }
    }
  }

  /** Every name ends with the chosen extension, which is one of the two. */
  lemma FileNameExtension(timestamp: string, info: RoundInfo, reason: string, imageType: string)
    ensures var ext := Extension(imageType);
      var name := FileName(timestamp, info, reason, ext);
      && (ext == JPG || ext == PNG)
      && |name| >= |ext| && name[|name| - |ext|..] == ext
  {
  }

  /**
   * After the timestamp, `name` reads "_R", the round number, "_T" and the try
   * number, each of which `parseInt` reads back.
   */
  predicate RoundAndTryReadBack(name: string, timestamp: string, info: RoundInfo) {
    var p := |timestamp| + 2;
    var q := p + |IntString(info.roundNum)| + 2;
    && q <= |name| && name[p - 2..p] == "_R" && name[q - 2..q] == "_T"
    && ParseInt(name[p..]) == Some(info.roundNum)
    && ParseInt(name[q..]) == Some(info.tryNum)
  }

  /**
   * A labelled round's name starts with the timestamp and "_R", and the round
   * and try numbers read back from the text after it; an idle name never has
   * that form.
   */
  lemma RoundReadsBack(timestamp: string, info: RoundInfo, reason: string, ext: string)
    ensures var name := FileName(timestamp, info, reason, ext);
      && |name| > |timestamp| + 1 && name[..|timestamp|] == timestamp
      && (Labelled(info) <==> name[|timestamp| + 1] == 'R')
      && (Labelled(info) ==> RoundAndTryReadBack(name, timestamp, info))
  {
    var name := FileName(timestamp, info, reason, ext);
    if Labelled(info) {
      RoundPart(timestamp, info, reason, ext);
      TryPart(timestamp, info, reason, ext);
    } else {
      assert name == timestamp + IDLE_NAME + ext;
      assert name[|timestamp| + 1] == 'M';
    }
  }

  /** The round number of a labelled name follows the timestamp and "_R". */
  lemma RoundPart(timestamp: string, info: RoundInfo, reason: string, ext: string)
    requires Labelled(info)
    ensures var name := FileName(timestamp, info, reason, ext);
      var p := |timestamp| + 2;
      && p <= |name| && name[..|timestamp|] == timestamp && name[p - 2..p] == "_R"
      && ParseInt(name[p..]) == Some(info.roundNum)
  {
    var before := timestamp + "_R";
    var rest := "_T" + IntString(info.tryNum) + "_" + info.targetLabel.value + "_" + reason + ext;
    assert FileName(timestamp, info, reason, ext) == before + IntString(info.roundNum) + rest;
    NumberAfter(before, info.roundNum, rest);
  }

  /** The try number of a labelled name follows the round number and "_T". */
  lemma TryPart(timestamp: string, info: RoundInfo, reason: string, ext: string)
    requires Labelled(info)
    ensures var name := FileName(timestamp, info, reason, ext);
      var q := |timestamp| + 2 + |IntString(info.roundNum)| + 2;
      && q <= |name| && name[q - 2..q] == "_T"
      && ParseInt(name[q..]) == Some(info.tryNum)
  {
    var between := timestamp + "_R" + IntString(info.roundNum) + "_T";
    var tail := "_" + info.targetLabel.value + "_" + reason + ext;
    assert FileName(timestamp, info, reason, ext) == between + IntString(info.tryNum) + tail;
    NumberAfter(between, info.tryNum, tail);
  }

  /** A number written after `prefix` and followed by a non-digit reads back from right after the prefix. */
  lemma NumberAfter(prefix: string, n: int, rest: string)
    requires rest == [] || !IsDigit(rest[0])
    ensures (prefix + IntString(n) + rest)[..|prefix|] == prefix
    ensures ParseInt((prefix + IntString(n) + rest)[|prefix|..]) == Some(n)
  {
    assert (prefix + IntString(n) + rest)[|prefix|..] == IntString(n) + rest;
    ParseIntRoundTrip(n, rest);
  }

  // ---------------------------------------------------------------------------
  // As written
  // ---------------------------------------------------------------------------

  /**
   * `save_canvas_to_history` as written: its first statement calls
   * `get_latest_canvas_bytes` on the canvas state, which defines only
   * `set_latest_canvas` and `get_latest_canvas`, so the call raises
   * `AttributeError`, the catch-all logs it, and every call returns `None`.
   */
  function SaveAsWritten(historyDir: string, bytes: Option<seq<bv8>>, imageType: Option<string>,
                         timestamp: string, info: RoundInfo, reason: string, writeOk: bool): Option<string>
  {
    None
  }

  /** A round's canvas that should be saved is not, as written; as intended, it lands in the history directory. */
  lemma SnapshotLostAsWritten(historyDir: string, image: seq<bv8>, timestamp: string, info: RoundInfo)
    requires |image| > 0
    ensures SaveAsWritten(historyDir, Some(image), Some("image/png"), timestamp, info, "auto", true).None?
    ensures SaveCanvasToHistory(historyDir, Some(image), Some("image/png"), timestamp, info, "auto", true).Some?
  {
  }
}
