/**
 * The earlier single-file drawing page (`canvas.js`).  Its history follows
 * the same timeline rules as the modular page, but every load (undo, redo and
 * a jump) uploads once per object of the loaded scene, it has no fill mode,
 * and its eraser paints in the canvas's own background colour.
 */
module LegacyCanvas {
  import opened Wrappers
  import opened Text
  import opened CanvasScene
  import Timeline

  /** The round number the page falls back to. */
  const DEFAULT_ROUND := 1

  /**
   * `getRoundInputValue`: `parseInt` of the round input's text, or 1 when the
   * input element is missing or its text does not begin with a number.
   */
  function RoundInputValue(input: Option<string>): (v: int)
    ensures input.None? ==> v == DEFAULT_ROUND
    ensures input.Some? && ParseInt(input.value).None? ==> v == DEFAULT_ROUND
  {
    match input
    case None => DEFAULT_ROUND
    case Some(text) => ParseInt(text).GetOr(DEFAULT_ROUND)
  }

  /**
   * Whatever round was written into the input, after any blanks and optionally
   * followed by text that does not continue the number, is read back, as long
   * as it is a safe integer (beyond that JavaScript's numbers round).
   */
  lemma RoundInputRoundTrip(blanks: string, n: int, rest: string)
    requires forall i :: 0 <= i < |blanks| ==> IsJsSpace(blanks[i])
    requires -MAX_SAFE_INTEGER <= n <= MAX_SAFE_INTEGER
    requires rest == [] || !IsDigit(rest[0])
    ensures RoundInputValue(Some(blanks + IntString(n) + rest)) == n
  {
    var t := IntString(n) + rest;
    assert t[0] == '-' || IsDigit(t[0]);
    TrimStartBlanks(blanks, t);
    assert blanks + IntString(n) + rest == blanks + t;
    ParseIntRoundTrip(n, rest);
  }

  /** Leading blanks make no difference to what `parseInt` sees. */
  lemma {:induction false} TrimStartBlanks(blanks: string, t: string)
    requires forall i :: 0 <= i < |blanks| ==> IsJsSpace(blanks[i])
    requires t == [] || !IsJsSpace(t[0])
    ensures TrimStart(blanks + t) == TrimStart(t)
  {
    if blanks != [] {
      assert (blanks + t)[1..] == blanks[1..] + t;
      TrimStartBlanks(blanks[1..], t);
    }
  }

  /** A round typed after the ideographic space of a Chinese input method is read as typed. */
  lemma RoundInputIdeographicSpace()
    ensures RoundInputValue(Some("\U{3000}3")) == 3
  {
    RoundInputRoundTrip("\U{3000}", 3, "");
    assert "\U{3000}" + IntString(3) + "" == "\U{3000}3";
  }

  /** An input without any digit right after the optional blanks and sign reads as round 1. */
  lemma RoundInputDefault(text: string)
    requires forall i :: 0 <= i < |text| ==> !IsDigit(text[i])
    ensures RoundInputValue(Some(text)) == DEFAULT_ROUND
  {
    var t := TrimStart(text);
    TrimStartSuffix(text);
    var body := if 0 < |t| && (t[0] == '-' || t[0] == '+') then t[1..] else t;
    assert body == [] || !IsDigit(body[0]);
  }

  /** `TrimStart(s)` is a suffix of `s`. */
  lemma {:induction false} TrimStartSuffix(s: string)
    ensures |TrimStart(s)| <= |s| && TrimStart(s) == s[|s| - |TrimStart(s)|..]
  {
    if 0 < |s| && IsJsSpace(s[0]) {
      TrimStartSuffix(s[1..]);
    }
  }

  /** The eraser's colour: the canvas background colour, or white when it has none. */
  function EraserColor(s: Scene): (c: string)
    ensures c != ""
    ensures s.backgroundColor != "" ==> c == s.backgroundColor
  {
    if s.backgroundColor != "" then s.backgroundColor else WHITE
  }

  class LegacySession {
    var scene: Scene
    var historyStack: seq<Timeline.Entry<Scene>>
    var historyIndex: int
    var currentColor: string
    var isEraserMode: bool
    var brushColor: string
    var brushWidth: nat
    /** The actions passed to `triggerUpload`, oldest first. */
    var uploads: seq<string>

    function History(): Timeline.History<Scene>
      reads this
    {
      Timeline.History(historyStack, historyIndex)
    }

    predicate Valid()
      reads this
    {
      Timeline.Valid(History())
    }

    /**
     * The page's start-up values (an empty history with cursor -1, black) and
     * `initFabricCanvas`, whose `pushInitial` leaves one blank entry at index 0.
     */
    constructor ()
      ensures scene == BLANK && History() == Timeline.Single(Timeline.Entry(BLANK, INITIAL_ENTRY))
      ensures currentColor == BLACK && brushColor == BLACK && brushWidth == BRUSH_WIDTH && !isEraserMode
      ensures uploads == []
      ensures Valid()
    {
      historyStack := [];
      historyIndex := -1;
      currentColor := BLACK;
      isEraserMode := false;
      scene := BLANK;
      brushWidth := BRUSH_WIDTH;
      brushColor := currentColor;
      uploads := [];
      historyStack := [Timeline.Entry(scene, INITIAL_ENTRY)];
      historyIndex := 0;
    }

    // -------------------------------------------------------------------------
    // Colour and eraser
    // -------------------------------------------------------------------------

    /** `setBrushColor`: select a colour for the brush; a pending eraser mode ends. */
    method SetBrushColor(color: string)
      modifies this`currentColor, this`isEraserMode, this`brushColor
      ensures currentColor == color && brushColor == color && !isEraserMode
    {
      currentColor := color;
      isEraserMode := false;
      brushColor := color;
      UpdateColorSwatchUI(color);
    }

    /** The mode-exit part of `updateColorSwatchUI`: a colour choice ends eraser mode. */
    method UpdateColorSwatchUI(color: string)
      modifies this`isEraserMode, this`brushColor
      ensures !isEraserMode
      ensures brushColor == if old(isEraserMode) then currentColor else old(brushColor)
    {
      if isEraserMode {
        RestoreBrushMode();
      }
    }

    /** `setEraserMode`: paint in the background colour (white when there is none); `currentColor` is kept. */
    method SetEraserMode()
      modifies this`isEraserMode, this`brushColor
      ensures isEraserMode && brushColor == EraserColor(scene)
    {
      isEraserMode := true;
      brushColor := if scene.backgroundColor != "" then scene.backgroundColor else WHITE;
    }

    /** `restoreBrushMode`: paint in `currentColor` again. */
    method RestoreBrushMode()
      modifies this`isEraserMode, this`brushColor
      ensures !isEraserMode && brushColor == currentColor
    {
      isEraserMode := false;
      brushColor := currentColor;
    }

    /** The eraser button: enter eraser mode, or leave it when it is on. */
    method ToggleEraser()
      modifies this`isEraserMode, this`brushColor
      ensures isEraserMode == !old(isEraserMode)
      ensures brushColor == if isEraserMode then EraserColor(scene) else currentColor
    {
      if !isEraserMode {
        SetEraserMode();
      } else {
        RestoreBrushMode();
      }
    }

    // -------------------------------------------------------------------------
    // History
    // -------------------------------------------------------------------------

    predicate CanUndo()
      reads this
    {
      Timeline.CanUndo(History())
    }

    predicate CanRedo()
      reads this
    {
      Timeline.CanRedo(History())
    }

    /** `pushStateToHistory(name)`: the same truncate, append, cap and clamp as the modular page. */
    method PushStateToHistory(name: string)
      requires Valid()
      modifies this`historyStack, this`historyIndex
      ensures History() == Timeline.Push(old(History()), Timeline.Entry(scene, name))
      ensures Valid() && !CanRedo()
    {
      ghost var h := History();
      if historyIndex < |historyStack| - 1 {
        historyStack := historyStack[..historyIndex + 1];
      }
      historyStack := historyStack + [Timeline.Entry(scene, name)];
      if |historyStack| > Timeline.HISTORY_LIMIT {
        historyStack := historyStack[1..];
      } else {
        historyIndex := historyIndex + 1;
      }
      historyIndex := if historyIndex >= |historyStack| then |historyStack| - 1 else historyIndex;
      Timeline.PushSpec(h, Timeline.Entry(scene, name));
    }

    /** `undo`: when allowed, step back and load that entry; "undo" is uploaded once per loaded object. */
    method Undo()
      requires Valid()
      modifies this`historyIndex, this`scene, this`uploads
      ensures History() == Timeline.Undo(old(History())) && Valid()
      ensures old(CanUndo()) ==>
        scene == Timeline.Current(History()) && uploads == old(uploads) + PerObjectUploads(scene, "undo")
      ensures !old(CanUndo()) ==> scene == old(scene) && uploads == old(uploads)
    {
      if !CanUndo() {
        return;
      }
      historyIndex := historyIndex - 1;
      scene := historyStack[historyIndex].snapshot;
      uploads := uploads + PerObjectUploads(scene, "undo");
    }

    /** `redo`: when allowed, step forward and load that entry; "redo" is uploaded once per loaded object. */
    method Redo()
      requires Valid()
      modifies this`historyIndex, this`scene, this`uploads
      ensures History() == Timeline.Redo(old(History())) && Valid()
      ensures old(CanRedo()) ==>
        scene == Timeline.Current(History()) && uploads == old(uploads) + PerObjectUploads(scene, "redo")
      ensures !old(CanRedo()) ==> scene == old(scene) && uploads == old(uploads)
    {
      if !CanRedo() {
        return;
      }
      historyIndex := historyIndex + 1;
      scene := historyStack[historyIndex].snapshot;
      uploads := uploads + PerObjectUploads(scene, "redo");
    }

    /** A click on the history panel's entry `idx`: move there without truncating, upload once per loaded object. */
    method Jump(idx: int)
      requires Valid() && 0 <= idx < |historyStack|
      modifies this`historyIndex, this`scene, this`uploads
      ensures History() == Timeline.Jump(old(History()), idx) && Valid()
      ensures scene == historyStack[idx].snapshot
      ensures uploads == old(uploads) + PerObjectUploads(scene, "jump_history")
    {
      historyIndex := idx;
      scene := historyStack[historyIndex].snapshot;
      uploads := uploads + PerObjectUploads(scene, "jump_history");
    }

    // -------------------------------------------------------------------------
    // Canvas events and toolbar
    // -------------------------------------------------------------------------

    /** A finished stroke: fabric adds the path, then `path:created` records and uploads it. */
    method DrawPath(path: ObjectId)
      requires Valid()
      modifies this`scene, this`historyStack, this`historyIndex, this`uploads
      ensures scene == old(scene).(objects := old(scene.objects) + [path])
      ensures History() == Timeline.Push(old(History()), Timeline.Entry(scene, if isEraserMode then ERASE_ENTRY else DRAW_ENTRY))
      ensures uploads == old(uploads) + [if isEraserMode then "erase" else "draw"]
      ensures Valid()
    {
      scene := scene.(objects := scene.objects + [path]);
      if isEraserMode {
        PushStateToHistory(ERASE_ENTRY);
        uploads := uploads + ["erase"];
      } else {
        PushStateToHistory(DRAW_ENTRY);
        uploads := uploads + ["draw"];
      }
    }

    /** `object:modified`: record the scene as fabric left it, and upload. */
    method ObjectModified()
      requires Valid()
      modifies this`historyStack, this`historyIndex, this`uploads
      ensures History() == Timeline.Push(old(History()), Timeline.Entry(scene, MODIFY_ENTRY))
      ensures uploads == old(uploads) + ["modify"]
      ensures Valid()
    {
      PushStateToHistory(MODIFY_ENTRY);
      uploads := uploads + ["modify"];
    }

    /** The reset button: a cleared white canvas, a timeline of that one state, and an upload; the tools are kept. */
    method Reset()
      modifies this`scene, this`historyStack, this`historyIndex, this`uploads
      ensures scene == BLANK && History() == Timeline.Single(Timeline.Entry(BLANK, INITIAL_ENTRY))
      ensures uploads == old(uploads) + ["reset"]
      ensures Valid()
    {
      scene := Scene([], "", None);
      scene := scene.(backgroundColor := WHITE);
      historyStack := [Timeline.Entry(scene, INITIAL_ENTRY)];
      historyIndex := 0;
      uploads := uploads + ["reset"];
    }
  }
}
