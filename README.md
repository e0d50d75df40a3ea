# Drawing-guess game: canvas, pages and server helpers in Dafny

This project models the core of a collaborative drawing game. Players draw on a
fabric.js canvas in the browser. The canvas is uploaded to a server that guesses
the character drawn, and a display page and an admin page show the guesses and a
countdown. The model covers the following parts.

- **Paint bucket** (`FillEngine`). This is the pixel flood fill and the one-pixel
  expansion. Both work in place on an RGBA byte buffer and are proved against
  specification functions: exactly the 4-connected region of the seed is painted,
  and the mask grows by one 4-neighbour step inside the border.
- **Undo/redo timeline** (`Timeline`). This is the history stack with its cursor,
  the 100-entry cap, and undo, redo and jump. Push, undo, redo and jump are pure
  specification functions. The properties the pages rely on are proved about them.
- **Modular drawing page** (`CanvasApp.CanvasSession`). These are the state the
  `window.CanvasApp` modules share and the handlers that change it:
  - the brush, eraser and fill modes
  - history pushes, undo, redo and jumps
  - drawn paths, modified objects and fill clicks
  - the reset button
  - the timer and game-state panel handlers `updateTimerUI` and `updateGameUI`.
    Nothing in the source calls them: the page's `handleServerMessage`
    (frontend/js/canvas.websocket.js:78-89) only logs each server message, so
    they are never reached as the source stands. They are modelled as defined.

  Each method is proved against the timeline functions and the fill engine.
- **Earlier single-file page** (`LegacyCanvas.LegacySession`). It has the same
  timeline, per-object uploads on load, an eraser that uses the background colour,
  and the round input parser.
- **Display page** (`ShowPage`):
  - the timer text and colour
  - the reset of the five result slots
  - the image data URL
  - the top-5 slots, with the `formatName` label formatter
- **Admin page** (`AdminPage`). This is the timer display and the reset and start
  buttons. An end-to-end lemma follows the reset button through the server's
  dispatch and back to the display.
- **Server side**:
  - `Connections.ConnectionManager`: the connection buckets and the broadcast
    recipients
  - `GameLogic`: command dispatch and the values of one countdown round
  - `SaveImage`: the history file name and path

Shared pieces are also modelled:
- `Text`: JavaScript's `parseInt`, `padStart` and number-to-string conversion.
- `Clock`: the `MM:SS` countdown rendering with JavaScript's `%`.
- `Protocol`: the JSON messages.
- `CanvasScene`: the serialised canvas.

## Model

| member | source | states |
|---|---|---|
| FillEngine.FloodFill | frontend/js/canvas.fabric.js:21-93 | the buffer becomes `FloodFilled` of the old buffer: it is unchanged for a seed outside the image or a seed already within tolerance of the fill colour, and otherwise the seed's 4-connected region within tolerance gets all four channels of the fill colour while every other byte keeps its value |
| FillEngine.FloodFilledPixel | frontend/js/canvas.fabric.js:60-90 | pixel by pixel, the filled buffer holds the fill colour exactly where the pixel is recoloured and the old colour elsewhere |
| FillEngine.FloodFillNoOp | frontend/js/canvas.fabric.js:33-56 | a click outside the image, or on a colour within tolerance of the fill colour, leaves the buffer as it was |
| FillEngine.RecoloredJoins | frontend/js/canvas.fabric.js:75-79 | every recoloured pixel has R, G and B within tolerance of the seed's original colour |
| FillEngine.RecolorsClosed | frontend/js/canvas.fabric.js:85-88 | a joining 4-neighbour of a recoloured pixel is recoloured too, so the region is filled up to its edge |
| FillEngine.SeedRecolored | frontend/js/canvas.fabric.js:32-56 | whenever the fill does anything, the clicked pixel itself is recoloured |
| FillEngine.RegionToleranceMonotone | frontend/js/canvas.fabric.js:75-79 | a larger tolerance never shrinks the seed's region |
| FillEngine.ToleranceGuardNotMonotone | frontend/js/canvas.fabric.js:49-56 | the whole fill is not monotone in the tolerance, because the no-op test against the fill colour uses the same tolerance: a one-pixel image is recoloured at tolerance 2 and left alone at 5 |
| FillEngine.Visit | frontend/js/canvas.fabric.js:66-89 | one pass of the loop marks exactly the popped pixel visited; when its R, G and B are within the tolerance of the seed colour it paints that pixel with the fill colour, leaves every other byte unchanged and pushes its in-bounds neighbours (`PushNeighbours`), otherwise it leaves the buffer and the stack unchanged; it keeps the loop invariant and strictly decreases the unvisited count |
| FillEngine.PathPainted | frontend/js/canvas.fabric.js:60-90 | once the stack is empty, the end of every fill path from the seed has been painted |
| FillEngine.InvariantDone | frontend/js/canvas.fabric.js:60-91 | when the stack is empty the painted pixels are exactly the recoloured ones, so the buffer equals `FloodFilled` |
| FillEngine.PushNeighbours | frontend/js/canvas.fabric.js:85-88 | the stack grows only by 4-neighbours of the pixel, and every in-bounds neighbour is pushed |
| FillEngine.Coord | frontend/js/canvas.fabric.js:66-69 | a pixel number maps back to the in-bounds position whose number it is |
| FillEngine.IdxInverse | frontend/js/canvas.fabric.js:66 | `y * w + x` is read back as column `% w` and row `/ w` |
| FillEngine.ExpandFill | frontend/js/canvas.fabric.js:95-139 | the buffer becomes `Expanded` of the old buffer: the pixels exactly equal to the opaque colour form a mask, the mask grows by one interior 4-neighbour step, and the grown mask is painted opaque; `expand` is ignored |
| FillEngine.BuildMask | frontend/js/canvas.fabric.js:101-114 | the fresh mask marks exactly the pixels whose four channels equal the colour with alpha 255 |
| FillEngine.DilateMask | frontend/js/canvas.fabric.js:116-127 | the mask becomes the one-step dilation of its old value, read from a snapshot so that set pixels do not cascade |
| FillEngine.PaintMask | frontend/js/canvas.fabric.js:129-137 | every masked pixel is painted the opaque colour and every other pixel is unchanged |
| FillEngine.MaskOfExpanded | frontend/js/canvas.fabric.js:95-139 | the mask of the expanded buffer is exactly the dilated mask of the input |
| FillEngine.ExpandedBorderUnchanged | frontend/js/canvas.fabric.js:118-119 | the outermost rows and columns are never changed by the expand step |
| FillEngine.DilateExtensive | frontend/js/canvas.fabric.js:121-125 | dilation keeps every set pixel set |
| FillEngine.DilateMonotone | frontend/js/canvas.fabric.js:116-127 | a larger mask dilates to a larger mask |
| FillEngine.FilledRegionInMask | frontend/js/canvas.fabric.js:331-332 | after a flood fill with an opaque colour every recoloured pixel is in the expand step's mask, so the expand step keeps the whole fill |
| Timeline.Single | frontend/js/canvas.fabric.js:390-401 | the initial one-entry history is valid, shows that entry, and has nothing to undo or redo |
| Timeline.PushSpec | frontend/js/canvas.history.js:10-33 | after a push the history is valid, the new entry is current and last, nothing can be redone, and the stack is the last 100 entries of the entries up to the old cursor followed by the new one |
| Timeline.PushLength | frontend/js/canvas.history.js:17-26 | a push grows the stack to cursor + 2 entries, capped at 100 |
| Timeline.PushKeepsPast | frontend/js/canvas.history.js:17-26 | a push keeps the entries before the cursor in order, shifted by one only when the cap evicts the oldest |
| Timeline.UndoAfterPush | frontend/js/canvas.history.js:10-52 | undo right after a push is allowed and shows again what was current before the push, even at the cap |
| Timeline.UndoRedoSpec | frontend/js/canvas.history.js:35-64 | undo and redo keep the stack and move the cursor by exactly one when allowed, and not at all otherwise |
| Timeline.UndoRedoInverse | frontend/js/canvas.history.js:42-64 | redo reverses an allowed undo, and undo reverses an allowed redo |
| Timeline.UndoTimesSpec | frontend/js/canvas.history.js:42-52 | pressing undo n times lands on entry max(index - n, 0) |
| Timeline.JumpSpec | frontend/js/canvas.history.js:88-105 | a jump keeps the stack, shows the chosen entry, and can be redone from exactly when it is not the last |
| Timeline.Recent | frontend/js/canvas.config.js:22 | keeping the newest entries never exceeds the cap or the input length |
| CanvasApp.CanvasSession.constructor | frontend/js/canvas.fabric.js:232-250 | a new page draws in black at width 6 on a blank white canvas whose history is the single initial entry |
| CanvasApp.CanvasSession.SetBrushColor | frontend/js/canvas.fabric.js:143-161 | choosing a colour selects it for the brush and leaves eraser and fill mode, back to drawing |
| CanvasApp.CanvasSession.UpdateColorSwatchUI | frontend/js/canvas.ui.js:13-30 | a colour choice ends eraser mode (restoring the brush colour) and then fill mode |
| CanvasApp.CanvasSession.SetEraserMode | frontend/js/canvas.fabric.js:164-189 | eraser mode draws in white and ends fill mode |
| CanvasApp.CanvasSession.RestoreBrushMode | frontend/js/canvas.fabric.js:192-207 | the brush draws in the selected colour again with both special modes off |
| CanvasApp.CanvasSession.SetFillMode | frontend/js/canvas.fabric.js:210-219 | fill mode stops drawing and ends eraser mode |
| CanvasApp.CanvasSession.RestoreBrushModeFromFill | frontend/js/canvas.fabric.js:222-229 | leaving fill mode resumes drawing and keeps the brush colour |
| CanvasApp.CanvasSession.ToggleEraser | frontend/js/canvas.ui.js:153-163 | the eraser button flips eraser mode, with a white brush when on and the selected colour when off |
| CanvasApp.CanvasSession.ToggleFill | frontend/js/canvas.ui.js:165-173 | the fill button flips fill mode, and drawing is on exactly when fill mode is off |
| CanvasApp.CanvasSession.PushStateToHistory | frontend/js/canvas.history.js:10-33 | the history becomes `Push` of the old history with the current scene; it stays valid with nothing to redo |
| CanvasApp.CanvasSession.Undo | frontend/js/canvas.history.js:42-52 | the history becomes `Undo` of the old one; when allowed, the current entry is loaded and "undo" is uploaded once; otherwise nothing changes |
| CanvasApp.CanvasSession.Redo | frontend/js/canvas.history.js:54-64 | the same for redo |
| CanvasApp.CanvasSession.Jump | frontend/js/canvas.history.js:88-105 | the cursor moves to the clicked entry, its scene is loaded, and "jump_history" is uploaded once per loaded object |
| CanvasApp.CanvasSession.DrawPath | frontend/js/canvas.fabric.js:251-265 | a finished stroke is appended to the scene, pushed as an erase or draw entry, and uploaded as "erase" or "draw" |
| CanvasApp.CanvasSession.ObjectModified | frontend/js/canvas.fabric.js:383-387 | a modified object pushes a modify entry and uploads "modify" |
| CanvasApp.CanvasSession.FillClick | frontend/js/canvas.fabric.js:268-380 | outside fill mode or outside the canvas nothing changes; otherwise the raster is flood-filled with tolerance 5, then expanded, becomes the background image in place of every object with a transparent background colour, and is pushed and uploaded as "fill" |
| CanvasApp.CanvasSession.Reset | frontend/js/canvas.ui.js:108-151 | reset gives a blank white canvas whose history is one initial entry, uploads "reset", and restores a black brush of width 6 with both special modes off |
| CanvasApp.CanvasSession.UpdateTimerUI | frontend/js/canvas.ui.js:317-336 | a reset shows the reset text without the low-time mark; a countdown shows `倒计时: MM:SS`, marked low at 30 seconds or less; anything else changes nothing |
| CanvasApp.CanvasSession.UpdateGameUI | frontend/js/canvas.ui.js:343-403 | the panel shows `GameInfo` of the state, and the canvas, drawing mode and toolbar are enabled exactly in the DRAWING phase |
| CanvasApp.PhaseTextSpec | frontend/js/canvas.ui.js:343-403 | a phase is shown raw exactly when it is not one of the four known phases, and the known phases get four different names |
| CanvasApp.GameInfoSpec | frontend/js/canvas.ui.js:343-403 | before the first round the panel ignores every other field and no later round line looks the same; afterwards the round line begins with the round number and ends with the phase text, and a non-empty target is shown |
| LegacyCanvas.LegacySession.constructor | frontend/js/canvas.js:418-429 | the initial push after the `-1` cursor leaves one blank entry at index 0, and the brush is black |
| LegacyCanvas.LegacySession.SetBrushColor | frontend/js/canvas.js:284-298 | choosing a colour selects it for the brush and ends eraser mode |
| LegacyCanvas.LegacySession.UpdateColorSwatchUI | frontend/js/canvas.js:348-364 | a colour choice ends eraser mode, restoring the brush colour |
| LegacyCanvas.LegacySession.SetEraserMode | frontend/js/canvas.js:301-330 | eraser mode draws in the canvas background colour, or in white when the canvas has none |
| LegacyCanvas.LegacySession.RestoreBrushMode | frontend/js/canvas.js:333-345 | the brush draws in the selected colour again |
| LegacyCanvas.LegacySession.ToggleEraser | frontend/js/canvas.js:486-496 | the eraser button flips eraser mode with the matching brush colour |
| LegacyCanvas.LegacySession.PushStateToHistory | frontend/js/canvas.js:150-165 | the same push as the modular page: it truncates, appends, caps at 100 and clamps, and nothing can then be redone |
| LegacyCanvas.LegacySession.Undo | frontend/js/canvas.js:174-187 | the history becomes `Undo` of the old one; when allowed, the entry is loaded and "undo" is uploaded once per loaded object |
| LegacyCanvas.LegacySession.Redo | frontend/js/canvas.js:189-202 | the same for redo |
| LegacyCanvas.LegacySession.Jump | frontend/js/canvas.js:226-241 | the cursor moves to the clicked entry, which is loaded, with one "jump_history" upload per loaded object |
| LegacyCanvas.LegacySession.DrawPath | frontend/js/canvas.js:390-408 | a finished stroke is appended, pushed as an erase or draw entry, and uploaded |
| LegacyCanvas.LegacySession.ObjectModified | frontend/js/canvas.js:411-415 | a modified object pushes a modify entry and uploads "modify" |
| LegacyCanvas.LegacySession.Reset | frontend/js/canvas.js:471-483 | reset gives a blank white canvas with a one-entry history and uploads "reset"; the brush is kept |
| LegacyCanvas.RoundInputValue | frontend/js/canvas.js:275-280 | a missing input, or text that does not start with a number, reads as round 1 |
| LegacyCanvas.RoundInputRoundTrip | frontend/js/canvas.js:275-280 | any safe-integer round number (magnitude at most 2^53 - 1) written into the input after any JavaScript blanks, optionally followed by non-digit text, is read back |
| LegacyCanvas.RoundInputIdeographicSpace | frontend/js/canvas.js:275-280 | a round typed after the ideographic space U+3000 reads as typed ("\u30003" is round 3) |
| LegacyCanvas.RoundInputDefault | frontend/js/canvas.js:275-280 | text without digits reads as round 1 |
| LegacyCanvas.EraserColor | frontend/js/canvas.js:301-330 | the eraser colour is never empty, and it is the background colour whenever there is one |
| Text.ParseIntRoundTrip | frontend/js/canvas.js:277 | `parseInt` reads back the decimal text of any integer when it is followed by a non-digit or by nothing (exact integers; JavaScript agrees up to magnitude 2^53 - 1, see Left out) |
| Text.DecimalRoundTrip | frontend/js/canvas.js:277 | the digits of a natural number evaluate back to it |
| Text.Pad2Value | frontend/show/show.js:139-140 | `padStart(2, "0")` keeps the value and gives exactly two digits below 100 |
| Clock.JsRemainder | frontend/show/show.js:137 | JavaScript's `%` lies strictly between -60 and 60, is never positive for a negative dividend, and agrees with the mathematical remainder for a non-negative one |
| Clock.ClockRoundTrip | frontend/show/show.js:136-147 | a non-negative countdown renders as minutes, a colon and two second digits that read back as the countdown, five characters below 100 minutes |
| ShowPage.Page.constructor | frontend/show/show.js:107-153 | the five result slots start as unknown slots |
| ShowPage.Page.HandleMessage | frontend/show/show.js:73-97 | image, top-5 and timer messages reach their updaters, and any other message changes nothing |
| ShowPage.Page.UpdateTimer | frontend/show/show.js:107-153 | a reset shows the value in blue and blanks all five slots; a countdown shows the clock, red at 30 seconds or less and black otherwise; anything else shows the value and keeps the colour and the slots |
| ShowPage.Page.UpdateImage | frontend/show/show.js:156-166 | a missing image or empty data changes nothing; otherwise the image shows the data URL |
| ShowPage.Page.UpdateTop5 | frontend/show/show.js:196-232 | a non-array changes nothing; otherwise the slots become `ShownSlots` of the results, and the loop completes exactly when there are at most five results |
| ShowPage.ShownSlots | frontend/show/show.js:208-231 | there are always five slots: each of the first results fills its slot and the rest keep their content |
| ShowPage.ResultSlotPicture | frontend/show/show.js:224-228 | a result's slot shows the formatted label, an unknown Chinese name, and a picture named after the label |
| ShowPage.FormatNameSpec | frontend/show/show.js:201-205 | the formatted name has the label's length, no underscore, spaces exactly where the label had underscores, and no lower-case letter at the start of a word |
| ShowPage.FormatNameIdempotent | frontend/show/show.js:201-205 | formatting a formatted name changes nothing |
| ShowPage.FormatNameExample | frontend/show/show.js:201-205 | "saigyouji_yuyuko" is shown as "Saigyouji Yuyuko" |
| ShowPage.ToUpper | frontend/show/show.js:204 | upper-casing keeps word characters word characters and leaves no lower-case letter |
| ShowPage.IndexOf | frontend/show/show.js:162 | the index found holds the first occurrence of the character, and none means it does not occur |
| ShowPage.DataUrlRoundTrip | frontend/show/show.js:162 | the media type and the data are read back from the data URL when the type has no parameters |
| ShowPage.ImageSource | frontend/show/show.js:156-166 | a source is produced exactly when the image is present with non-empty data |
| ShowPage.ImageSourceSpec | frontend/show/show.js:156-166 | a shown image carries exactly the sent type and data |
| AdminPage.TimerView | frontend/js/admin.js:86-106 | a reset is shown in blue; a countdown is red exactly at a low time and never blue; any other message keeps the colour |
| AdminPage.CountdownViewReadsBack | frontend/js/admin.js:93-102 | a non-negative countdown tick shows a clock that reads back as the tick, red exactly at 30 seconds or less |
| AdminPage.Page.HandleMessage | frontend/js/admin.js:66-83 | only timer messages change the display |
| AdminPage.Page.UpdateTimer | frontend/js/admin.js:86-106 | the display becomes `TimerView` of the message and the old colour |
| AdminPage.Page.SendMessage | frontend/js/admin.js:57-63 | a message goes out exactly when the socket is open |
| AdminPage.Page.ClickReset | frontend/js/admin.js:109-118 | the reset button sends the RESET_TIMER command when the socket is open |
| AdminPage.Page.ClickStart | frontend/js/admin.js:120-135 | the start button sends the START_TIMER command when the socket is open |
| AdminPage.ResetButtonEndToEnd | frontend/js/admin.js:109-118 | the reset button's command, once dispatched, sets only the reset flag and broadcasts the reset, which the admin page shows as "90s (已重置)" in blue |
| AdminPage.StartButtonEndToEnd | frontend/js/admin.js:120-135 | the start button's command sets only the start flag and broadcasts nothing |
| Protocol.ActionPayload | frontend/js/admin.js:112-117 | a button's payload is the single key "action" holding the action |
| Connections.ConnectionManager.constructor | app/core/websocket.py:8-15 | the manager starts with the four buckets, all empty |
| Connections.ConnectionManager.Connect | app/core/websocket.py:17-19 | the connection joins the end of the unknown bucket |
| Connections.ConnectionManager.Disconnect | app/core/websocket.py:21-25 | the buckets are searched in order, and the first one holding the connection loses its first occurrence |
| Connections.ConnectionManager.SetClientType | app/core/websocket.py:27-32 | a waiting connection moves to the named bucket, or to the end of the unknown bucket for an unknown name |
| Connections.ConnectionManager.Broadcast | app/core/websocket.py:35-40 | the connections sent to are the named buckets in order, up to the first missing name, and the call completes exactly when every name is a bucket |
| Connections.ConnectionManager.BroadcastAll | app/core/websocket.py:43-49 | every connection is sent to, bucket by bucket |
| Connections.ConnectSpec | app/core/websocket.py:17-19 | connecting adds exactly one connection and changes no other bucket |
| Connections.DisconnectSpec | app/core/websocket.py:21-25 | disconnecting removes exactly one occurrence, or nothing when the connection is absent |
| Connections.ConnectDisconnect | app/core/websocket.py:17-25 | connecting and then disconnecting a new connection restores the buckets |
| Connections.ClientTypeSpec | app/core/websocket.py:27-32 | setting the type never adds or loses a connection |
| Connections.ClientTypeMoves | app/core/websocket.py:28-32 | a waiting connection given a real kind other than unknown ends up last in that bucket, with one occurrence fewer waiting |
| Connections.AudienceSpec | app/core/websocket.py:35-49 | the default audience is the display connections then the admin ones, and broadcasting to every kind reaches exactly everyone |
| Connections.RecipientsSpec | app/core/websocket.py:35-40 | a completed broadcast reaches a connection exactly when one of the named buckets holds it |
| Connections.RemoveFirst | app/core/websocket.py:24 | `list.remove` of a present element drops exactly one occurrence, and of an absent one changes nothing |
| Connections.FirstHolder | app/core/websocket.py:22-25 | the bucket found holds the connection, and none found means no bucket holds it |
| GameLogic.DispatchSpec | app/core/game_logic.py:41-67 | after a recognised command exactly one flag is set (reset for RESET_TIMER), any other command changes nothing, and only a reset broadcasts, carrying 90 |
| GameLogic.DispatchIdempotent | app/core/game_logic.py:41-67 | repeating a command leaves the flags as the first dispatch set them |
| GameLogic.GameTimer.Dispatch | app/core/game_logic.py:41-67 | the flags and the broadcast log follow `Dispatched` |
| GameLogic.GameTimer.CountdownRound | app/core/game_logic.py:27-38 | a round broadcasts 90, 89, … until the first tick at which a reset is seen, and finishes exactly when no reset comes |
| GameLogic.FirstSet | app/core/game_logic.py:30-33 | the loop stops at the first tick that sees the reset flag |
| GameLogic.CountdownSpec | app/core/game_logic.py:30-36 | a round's broadcasts start at 90, strictly decrease, stay within 0 to 90, and reach 0 exactly when all 91 ticks run |
| GameLogic.ResetLostAsWritten | app/core/game_logic.py:41-59 | as written, the reset command neither sets the flag nor broadcasts; as intended, it does both |
| GameLogic.CountdownLostAsWritten | app/core/game_logic.py:20-36 | as written, a started round broadcasts nothing; as intended, it first broadcasts the full countdown |
| SaveImage.SaveSpec | app/utils/save_image.py:33-72 | a path comes back exactly when there are image bytes, a media type and a successful write; it is then a file directly under the history directory whose name starts with the timestamp and ends in ".jpg" or ".png" as the media type says, from which a labelled round's round and try numbers read back, and which is otherwise the idle name |
| SaveImage.ExtensionExamples | app/utils/save_image.py:41-45 | JPEG types get ".jpg", while PNG and empty types get ".png" |
| SaveImage.FileNameExtension | app/utils/save_image.py:41-59 | every file name ends with the chosen extension, which is ".jpg" or ".png" |
| SaveImage.RoundReadsBack | app/utils/save_image.py:51-59 | every name starts with the timestamp; a labelled round's name is exactly the one with "R" after it, and its round and try numbers read back from the name |
| SaveImage.SnapshotLostAsWritten | app/utils/save_image.py:33-39 | as written, a canvas that should be saved is not; as intended, it gets a path |

## Left out

- Rendering, fabric.js objects and the browser are not modelled. A scene is a
  sequence of object identities plus the background colour and image.
  `toJSON`/`loadFromJSON` keep the scene exactly. Object geometry changed by a
  move or scale is not modelled, so `ObjectModified` records the scene as it is.
- The fill click's rasterising (`toDataURL`, image loading, `fromURL`) is not
  modelled. The raster and the fill colour, parsed from the hex colour by
  fabric, are parameters. A rendering failure, which aborts the click, is not
  modelled.
- The `time` field of a history entry is left out. So are the history panel, the
  logs, the cursors, the brush preview, the download link and the password prompt.
- The `if (!canvas) return` guards are left out: the canvas always exists in the model.
- A `toJSON` failure during a push is not modelled: serialisation always succeeds.
- The network and WebSocket connections are left out, and so are reconnecting,
  heartbeats and JSON parsing. Messages arrive already decoded as `Protocol`
  values. A JSON `null` and a missing field are both `None`, so show.js's
  countdown on a `null` value is not told apart from a missing one.
- `phaseMap` lookups of inherited object keys such as "toString" are not modelled.
- The score percentage comes from floating point and `toFixed(1)`, so it is passed in
  already rendered as text.
- `game_timer_task`'s outer loop, its waits on the events, the one-second tick
  timing and asyncio concurrency are left out. `GameLogic.GameTimer.CountdownRound`
  models one round, with the reset flag seen at each tick given as a parameter.
- The server's broadcasts are recorded in a log instead of being sent.
- The file write in `save_canvas_to_history` is a parameter (`writeOk`), and so
  are the clock (the formatted timestamp), the image bytes and type, and the round
  record. The logging is left out.
- Behaviour of the code that a reader might not expect, which the model follows:
  - A fill whose seed colour already matches the fill colour still expands,
    replaces the objects with the raster, pushes a history entry and uploads.
  - `loadFromJSON` with a reviver uploads once per loaded object, on the jump in
    the modular page and on undo, redo and jump in the single-file page. An empty
    scene uploads nothing.
  - `updateGameUI` turns drawing mode on in the DRAWING phase even when fill mode is on.
  - `expandFill` ignores its `expand` argument and always grows by one pixel.
  - The flood fill's start check compares the byte index with the buffer length,
    not the coordinates with the image size. For a seed outside the image this
    gives the same result.
- Text.ParseInt: reads a digit string as an exact integer. JavaScript's `parseInt`
  returns a double, so above 2^53 it rounds (`parseInt("9007199254740993", 10)` is
  9007199254740992). The page's round input is bounded accordingly in
  `LegacyCanvas.RoundInputRoundTrip`.
- Text.IntString: gives the plain digits of any integer. JavaScript's `String(n)`
  switches to exponent notation from 1e21, and the numbers it is given are doubles.
- Text.ParseIntRoundTrip: holds for every integer in the model's exact arithmetic.
  In JavaScript it holds only for magnitudes up to 2^53 - 1 (`Number.MAX_SAFE_INTEGER`).
- The display page's comparison of the timer element with 30 (frontend/show/show.js:217)
  is always false, so the result slots always take its else branch.
- `app/core/state.py`, `app/core/config.py` (beyond `TIMER_MAX_VALUE`), the
  prediction endpoint, the image utilities and the scripts are not part of this model.

## Findings

| source | as written | input that shows it | evidently intended | confidence | as-written member | corrected member |
|---|---|---|---|---|---|---|
| app/core/game_logic.py:25, app/core/game_logic.py:46 | `dispatch` and `game_timer_task` first import `on_boardcast` from `app/core/websocket.py`, which defines no such name, so both raise `ImportError` before doing anything | the admin page's reset button sends `{"action": "RESET_TIMER"}` | reset sets the reset flag, clears start and broadcasts 90 with origin "reset"; a started round broadcasts 90, 89, … | not executed | GameLogic.ResetLostAsWritten, GameLogic.CountdownLostAsWritten | GameLogic.DispatchSpec, GameLogic.CountdownSpec |
| app/utils/save_image.py:34-35 | `save_canvas_to_history` calls `get_latest_canvas_bytes` and `get_latest_canvas_type`, which the canvas state (app/core/state.py:2-11) does not define, so the call raises `AttributeError`, the catch-all returns `None`, and nothing is ever saved | any call, for example with a non-empty PNG canvas during round 1 | the snapshot is written to the history directory and its path is returned | not executed | SaveImage.SnapshotLostAsWritten | SaveImage.SaveSpec |
