/**
 * The modular drawing page (`CanvasApp`): the tool modes, the undo/redo
 * timeline, the paint-bucket click, the toolbar handlers and the timer and
 * game-state panel handlers (`updateTimerUI`, `updateGameUI`), which the page
 * defines but never calls: its `handleServerMessage` only logs what the server
 * sends.  One `CanvasSession` is the page after
 * `initFabricCanvas` has run; the fabric canvas, its brush and the DOM nodes
 * are fields of it.
 */
module CanvasApp {
  import opened Wrappers
  import opened Text
  import opened Clock
  import opened CanvasScene
  import opened Protocol
  import Timeline
  import FillEngine

  /** The tolerance `floodFill` defaults to, which the fill click relies on. */
  const FILL_TOLERANCE := 5

  /** The `expand` argument the fill click passes to `expandFill`. */
  const FILL_EXPAND := 1

  /** The background colour a fill leaves, since the filled raster becomes the background image. */
  const TRANSPARENT := "transparent"

  /** The phases `updateGameUI` names in Chinese. */
  const KNOWN_PHASES := {"IDLE", "WAITING", "DRAWING", "REVEAL_WAITING"}

  /** `phaseMap[phase] || phase`: the Chinese name of a known phase, the raw phase otherwise. */
  function PhaseText(phase: string): string {
    if phase == "IDLE" then "空闲"
    else if phase == "WAITING" then "等待开始"
    else if phase == "DRAWING" then "绘画中"
    else if phase == "REVEAL_WAITING" then "等待揭晓"
    else phase
  }

  /** `target_name || "???"`: a missing or empty target shows as three question marks. */
  function TargetName(name: Option<string>): string {
    if name.None? || name.value == "" then "???" else name.value
  }

  /** The round line and the target line of the game panel. */
  function GameInfo(s: GameState): (string, string) {
    if s.round == 0 then ("状态: 游戏未开始", "目标: ---")
    else ("第" + IntString(s.round) + "轮 (第" + IntString(s.tryNum) + "次尝试) - " + PhaseText(s.phase),
          "目标: " + TargetName(s.targetName))
  }

  /**
   * A phase is shown raw exactly when it is not one of the four known phases,
   * and the four known phases get four different names.
   */
  lemma PhaseTextSpec(p: string, q: string)
    ensures PhaseText(p) == p <==> p !in KNOWN_PHASES
    ensures p in KNOWN_PHASES && q in KNOWN_PHASES && p != q ==> PhaseText(p) != PhaseText(q)
  {
  }

  /**
   * Before the first round the panel ignores every other field, and no later
   * round line looks like it; once a round is set the round line begins with
   * the round number and ends with the phase text, and the target line shows
   * the target whenever there is a non-empty one.
   */
  lemma GameInfoSpec(s: GameState, t: GameState)
    ensures s.round == 0 && t.round == 0 ==> GameInfo(s) == GameInfo(t)
    ensures s.round != 0 && t.round == 0 ==> GameInfo(s).0 != GameInfo(t).0
    ensures s.round != 0 ==>
      var line := GameInfo(s).0;
      var head := "第" + IntString(s.round) + "轮";
      var tail := PhaseText(s.phase);
      |head| + |tail| <= |line| && line[..|head|] == head && line[|line| - |tail|..] == tail
    ensures s.round != 0 && s.targetName.Some? && s.targetName.value != "" ==> GameInfo(s).1 == "目标: " + s.targetName.value
  {
    if s.round != 0 {
      var line := GameInfo(s).0;
      var head := "第" + IntString(s.round) + "轮";
      var mid := " (第" + IntString(s.tryNum) + "次尝试) - ";
      var tail := PhaseText(s.phase);
      assert line == head + mid + tail;
      assert line[..|head|] == head;
      assert line[|line| - |tail|..] == tail;
      var t0 := "状态: 游戏未开始";
      assert line[0] == '第' && t0[0] == '状';
      if t.round == 0 {
        assert GameInfo(t).0 == t0;
      }
    }
  }

  class CanvasSession {
    /** The canvas size in pixels, which is also the size of the raster a fill works on. */
    const width: nat
    const height: nat

    /** What `toJSON()` would serialise. */
    var scene: Scene
    var historyStack: seq<Timeline.Entry<Scene>>
    var historyIndex: int
    var currentColor: string
    var isEraserMode: bool
    var isFillMode: bool
    var isDrawingMode: bool
    var brushColor: string
    var brushWidth: nat
    /** `fabricCanvas.interactive` and whether the toolbar buttons are enabled. */
    var interactive: bool
    var toolbarEnabled: bool
    /** The actions passed to `triggerUpload`, oldest first. */
    var uploads: seq<string>
    /** `#timer-display`: its text and whether it carries the "low-time" class. */
    var timerText: string
    var lowTime: bool
    /** `#game-info-round` and `#game-info-target`. */
    var roundText: string
    var targetText: string

    function History(): Timeline.History<Scene>
      reads this
    {
      Timeline.History(historyStack, historyIndex)
    }

    /** The timeline is valid, and eraser mode and fill mode are never on together. */
    predicate Valid()
      reads this
    {
      Timeline.Valid(History()) && !(isEraserMode && isFillMode)
    }

    /**
     * `initFabricCanvas`: a white canvas with a drawing brush of width 6 in the
     * start-up colour, and a timeline holding only the blank canvas.
     */
    constructor (width: nat, height: nat)
      ensures this.width == width && this.height == height
      ensures scene == BLANK && History() == Timeline.Single(Timeline.Entry(BLANK, INITIAL_ENTRY))
      ensures currentColor == BLACK && brushColor == BLACK && brushWidth == BRUSH_WIDTH
      ensures isDrawingMode && !isEraserMode && !isFillMode && interactive && toolbarEnabled
      ensures uploads == [] && timerText == "" && !lowTime && roundText == "" && targetText == ""
      ensures Valid()
    {
      this.width := width;
      this.height := height;
      scene := BLANK;
      currentColor := BLACK;
      isEraserMode := false;
      isFillMode := false;
      isDrawingMode := true;
      brushColor := BLACK;
      brushWidth := BRUSH_WIDTH;
      interactive := true;
      toolbarEnabled := true;
      uploads := [];
      timerText := "";
      lowTime := false;
      roundText := "";
      targetText := "";
      historyStack := [Timeline.Entry(BLANK, INITIAL_ENTRY)];
      historyIndex := 0;
    }

    // -------------------------------------------------------------------------
    // Tool modes
    // -------------------------------------------------------------------------

    /** `setBrushColor`: select a colour, which leaves eraser and fill mode and resumes drawing. */
    method SetBrushColor(color: string)
      modifies this`currentColor, this`isEraserMode, this`isFillMode, this`isDrawingMode, this`brushColor
      ensures currentColor == color && brushColor == color
      ensures !isEraserMode && !isFillMode && isDrawingMode
    {
      currentColor := color;
      isEraserMode := false;
      isFillMode := false;
      isDrawingMode := true;
      brushColor := color;
      UpdateColorSwatchUI(color);
    }

    /** The mode-exit part of `updateColorSwatchUI`: a colour choice ends eraser mode, then fill mode. */
    method UpdateColorSwatchUI(color: string)
      modifies this`isEraserMode, this`isFillMode, this`isDrawingMode, this`brushColor
      ensures !isEraserMode && !isFillMode
      ensures old(isEraserMode) ==> brushColor == currentColor
      ensures !old(isEraserMode) ==> brushColor == old(brushColor)
      ensures isDrawingMode == (old(isEraserMode) || old(isFillMode) || old(isDrawingMode))
    {
      if isEraserMode {
        RestoreBrushMode();
      }
      if isFillMode {
        RestoreBrushModeFromFill();
      }
    }

    /** `setEraserMode`: draw in white over the canvas; fill mode ends. */
    method SetEraserMode()
      modifies this`isEraserMode, this`isFillMode, this`isDrawingMode, this`brushColor
      ensures isEraserMode && !isFillMode && isDrawingMode && brushColor == WHITE
    {
      isEraserMode := true;
      isFillMode := false;
      isDrawingMode := true;
      brushColor := WHITE;
    }

    /** `restoreBrushMode`: back to drawing in the selected colour. */
    method RestoreBrushMode()
      modifies this`isEraserMode, this`isFillMode, this`isDrawingMode, this`brushColor
      ensures !isEraserMode && !isFillMode && isDrawingMode && brushColor == currentColor
    {
      isEraserMode := false;
      isFillMode := false;
      isDrawingMode := true;
      brushColor := currentColor;
    }

    /** `setFillMode`: clicks fill instead of drawing; eraser mode ends. */
    method SetFillMode()
      modifies this`isEraserMode, this`isFillMode, this`isDrawingMode
      ensures isFillMode && !isEraserMode && !isDrawingMode
    {
      isFillMode := true;
      isEraserMode := false;
      isDrawingMode := false;
    }

    /** `restoreBrushModeFromFill`: fill mode ends and drawing resumes; the brush colour is left as it is. */
    method RestoreBrushModeFromFill()
      modifies this`isFillMode, this`isDrawingMode
      ensures !isFillMode && isDrawingMode
    {
      isFillMode := false;
      isDrawingMode := true;
    }

    /** The eraser button: enter eraser mode, or leave it when it is on. */
    method ToggleEraser()
      modifies this`isEraserMode, this`isFillMode, this`isDrawingMode, this`brushColor
      ensures isEraserMode == !old(isEraserMode) && !isFillMode && isDrawingMode
      ensures brushColor == if isEraserMode then WHITE else currentColor
    {
      if !isEraserMode {
        SetEraserMode();
      } else {
        RestoreBrushMode();
      }
    }

    /** The fill button: enter fill mode, or leave it when it is on. */
    method ToggleFill()
      modifies this`isEraserMode, this`isFillMode, this`isDrawingMode
      ensures isFillMode == !old(isFillMode) && isDrawingMode == !isFillMode
      ensures isEraserMode == (old(isEraserMode) && !isFillMode)
    {
      if !isFillMode {
        SetFillMode();
      } else {
        RestoreBrushModeFromFill();
      }
    }

    // -------------------------------------------------------------------------
    // History
    // -------------------------------------------------------------------------

    predicate CanUndo()
      reads this
    {
      Timeline.CanUndo(History())
    }

    predicate CanRedo()
      reads this
    {
      Timeline.CanRedo(History())
    }

    /** `pushStateToHistory(name)`: record the current scene as the newest entry. */
    method PushStateToHistory(name: string)
      requires Valid()
      modifies this`historyStack, this`historyIndex
      ensures History() == Timeline.Push(old(History()), Timeline.Entry(scene, name))
      ensures Valid() && !CanRedo()
    {
      ghost var h := History();
      if historyIndex < |historyStack| - 1 {
        historyStack := historyStack[..historyIndex + 1];
      }
      historyStack := historyStack + [Timeline.Entry(scene, name)];
      if |historyStack| > Timeline.HISTORY_LIMIT {
        historyStack := historyStack[1..];
      } else {
        historyIndex := historyIndex + 1;
      }
      historyIndex := if historyIndex >= |historyStack| then |historyStack| - 1 else historyIndex;
      Timeline.PushSpec(h, Timeline.Entry(scene, name));
    }

    /** `undo`: when allowed, step back, load that entry and upload once with "undo". */
    method Undo()
      requires Valid()
      modifies this`historyIndex, this`scene, this`uploads
      ensures History() == Timeline.Undo(old(History())) && Valid()
      ensures old(CanUndo()) ==> scene == Timeline.Current(History()) && uploads == old(uploads) + ["undo"]
      ensures !old(CanUndo()) ==> scene == old(scene) && uploads == old(uploads)
    {
      if !CanUndo() {
        return;
      }
      historyIndex := historyIndex - 1;
      scene := historyStack[historyIndex].snapshot;
      uploads := uploads + ["undo"];
    }

    /** `redo`: when allowed, step forward, load that entry and upload once with "redo". */
    method Redo()
      requires Valid()
      modifies this`historyIndex, this`scene, this`uploads
      ensures History() == Timeline.Redo(old(History())) && Valid()
      ensures old(CanRedo()) ==> scene == Timeline.Current(History()) && uploads == old(uploads) + ["redo"]
      ensures !old(CanRedo()) ==> scene == old(scene) && uploads == old(uploads)
    {
      if !CanRedo() {
        return;
      }
      historyIndex := historyIndex + 1;
      scene := historyStack[historyIndex].snapshot;
      uploads := uploads + ["redo"];
    }

    /**
     * A click on the history panel's entry `idx`: move the cursor there and load
     * that entry.  The upload sits in `loadFromJSON`'s per-object callback, so it
     * happens once per object of the loaded scene.
     */
    method Jump(idx: int)
      requires Valid() && 0 <= idx < |historyStack|
      modifies this`historyIndex, this`scene, this`uploads
      ensures History() == Timeline.Jump(old(History()), idx) && Valid()
      ensures scene == historyStack[idx].snapshot
      ensures uploads == old(uploads) + PerObjectUploads(scene, "jump_history")
    {
      historyIndex := idx;
      scene := historyStack[historyIndex].snapshot;
      uploads := uploads + PerObjectUploads(scene, "jump_history");
    }

    // -------------------------------------------------------------------------
    // Canvas events and toolbar
    // -------------------------------------------------------------------------

    /**
     * A finished free-hand stroke: fabric adds the path on top of the scene, then
     * `path:created` records it as an eraser stroke or a drawn path and uploads.
     */
    method DrawPath(path: ObjectId)
      requires Valid()
      modifies this`scene, this`historyStack, this`historyIndex, this`uploads
      ensures scene == old(scene).(objects := old(scene.objects) + [path])
      ensures History() == Timeline.Push(old(History()), Timeline.Entry(scene, if isEraserMode then ERASE_ENTRY else DRAW_ENTRY))
      ensures uploads == old(uploads) + [if isEraserMode then "erase" else "draw"]
      ensures Valid()
    {
      scene := scene.(objects := scene.objects + [path]);
      if isEraserMode {
        PushStateToHistory(ERASE_ENTRY);
        uploads := uploads + ["erase"];
      } else {
        PushStateToHistory(DRAW_ENTRY);
        uploads := uploads + ["draw"];
      }
    }

    /** `object:modified`: record the scene as fabric left it after a move, scale or rotation, and upload. */
    method ObjectModified()
      requires Valid()
      modifies this`historyStack, this`historyIndex, this`uploads
      ensures History() == Timeline.Push(old(History()), Timeline.Entry(scene, MODIFY_ENTRY))
      ensures uploads == old(uploads) + ["modify"]
      ensures Valid()
    {
      PushStateToHistory(MODIFY_ENTRY);
      uploads := uploads + ["modify"];
    }

    /**
     * A click at (`x`, `y`) in fill mode.  `raster` is the canvas rendered to
     * RGBA pixels and `fill` the selected colour as RGBA.  An outside click
     * changes nothing; otherwise the raster is flood-filled from the click
     * with tolerance 5 and expanded by one pixel, becomes the background image
     * in place of every object, and the result is recorded and uploaded.
     */
    method FillClick(x: int, y: int, raster: array<FillEngine.Byte>, fill: FillEngine.Color)
      requires Valid() && raster.Length == width * height * 4
      modifies this`scene, this`historyStack, this`historyIndex, this`uploads, raster
      ensures !old(isFillMode) || !FillEngine.InBounds(width, height, x, y) ==>
        scene == old(scene) && History() == old(History()) && uploads == old(uploads) && raster[..] == old(raster[..])
      ensures old(isFillMode) && FillEngine.InBounds(width, height, x, y) ==>
        && raster[..] == FillEngine.Expanded(
             FillEngine.FloodFilled(old(raster[..]), width, height, x, y, fill, FILL_TOLERANCE), width, height, fill)
        && scene == Scene([], TRANSPARENT, Some(raster[..]))
        && History() == Timeline.Push(old(History()), Timeline.Entry(scene, FILL_ENTRY))
        && uploads == old(uploads) + ["fill"]
      ensures Valid()
    {
      if !isFillMode {
        return;
      }
      if x < 0 || x >= width || y < 0 || y >= height {
        return;
      }
      FillEngine.FloodFill(raster, width, height, x, y, fill, FILL_TOLERANCE);
      FillEngine.ExpandFill(raster, width, height, fill, FILL_EXPAND);
      scene := Scene([], TRANSPARENT, Some(raster[..]));
      PushStateToHistory(FILL_ENTRY);
      uploads := uploads + ["fill"];
    }

    /**
     * The reset button: a cleared white canvas whose timeline holds only that
     * blank state, an upload with "reset", then black brush colour (which
     * leaves eraser and fill mode) and brush width 6.
     */
    method Reset()
      modifies this`scene, this`historyStack, this`historyIndex, this`uploads, this`currentColor,
        this`isEraserMode, this`isFillMode, this`isDrawingMode, this`brushColor, this`brushWidth
      ensures scene == BLANK && History() == Timeline.Single(Timeline.Entry(BLANK, INITIAL_ENTRY))
      ensures uploads == old(uploads) + ["reset"]
      ensures currentColor == BLACK && brushColor == BLACK && brushWidth == BRUSH_WIDTH
      ensures !isEraserMode && !isFillMode && isDrawingMode
      ensures Valid()
    {
      scene := Scene([], "", None);
      scene := scene.(backgroundColor := WHITE);
      historyStack := [Timeline.Entry(scene, INITIAL_ENTRY)];
      historyIndex := 0;
      uploads := uploads + ["reset"];
      SetBrushColor(BLACK);
      brushWidth := BRUSH_WIDTH;
    }

    // -------------------------------------------------------------------------
    // Server messages
    // -------------------------------------------------------------------------

    /**
     * `updateTimerUI`: a reset shows the value with a note and clears the
     * warning; a countdown shows `倒计时: MM:SS` and warns at 30 seconds or
     * less; any other message leaves the display alone.
     */
    method UpdateTimerUI(m: TimerMessage)
      modifies this`timerText, this`lowTime
      ensures m.origin == "reset" ==> timerText == "计时器已重置 (" + ValueText(m.value) + "s)" && !lowTime
      ensures m.origin == "countdown" ==> timerText == "倒计时: " + CountdownText(m.value) && lowTime == IsLowTime(m.value)
      ensures m.origin != "reset" && m.origin != "countdown" ==> timerText == old(timerText) && lowTime == old(lowTime)
    {
      if m.origin == "reset" {
        timerText := "计时器已重置 (" + ValueText(m.value) + "s)";
        lowTime := false;
      } else if m.origin == "countdown" {
        timerText := "倒计时: " + CountdownText(m.value);
        lowTime := IsLowTime(m.value);
      }
    }

    /**
     * `updateGameUI`: the game panel shows `GameInfo(s)`; the drawing phase
     * turns interaction, free drawing and the toolbar on, every other phase
     * turns all three off.  Fill and eraser mode are not consulted.
     */
    method UpdateGameUI(s: GameState)
      modifies this`roundText, this`targetText, this`interactive, this`isDrawingMode, this`toolbarEnabled
      ensures (roundText, targetText) == GameInfo(s)
      ensures interactive == isDrawingMode == toolbarEnabled == (s.phase == "DRAWING")
    {
      var info := GameInfo(s);
      roundText, targetText := info.0, info.1;
      if s.phase == "DRAWING" {
        interactive := true;
        isDrawingMode := true;
        toolbarEnabled := true;
      } else {
        interactive := false;
        isDrawingMode := false;
        toolbarEnabled := false;
      }
    }
  }
}
