/**
 * What a canvas snapshot holds.  `toJSON()` and `loadFromJSON()` are taken to
 * be exact inverses, so a snapshot is the scene itself: the vector objects in
 * stacking order, the background colour and the raster background image a
 * paint-bucket fill leaves behind.
 */
module CanvasScene {
  import opened Wrappers
  import FillEngine

  /** A drawn object (a free-hand path); its geometry does not matter to the logic modelled. */
  type ObjectId = nat

  datatype Scene = Scene(objects: seq<ObjectId>, backgroundColor: string, backgroundImage: Option<seq<FillEngine.Byte>>)

  /** The background colour the canvas is created with and the reset button restores. */
  const WHITE := "#ffffff"

  /** The brush colour selected at start-up and by the reset button. */
  const BLACK := "#000000"

  /** The free-drawing brush width at start-up and after a reset. */
  const BRUSH_WIDTH := 6

  /** History entry names, as the pages label them. */
  const INITIAL_ENTRY := "初始画布"
  const ERASE_ENTRY := "橡皮擦"
  const DRAW_ENTRY := "绘制路径"
  const MODIFY_ENTRY := "修改对象"
  const FILL_ENTRY := "油漆桶填充"

  /** A fresh canvas, and the canvas right after `clear()` and the white background of a reset. */
  const BLANK := Scene([], WHITE, None)

  /**
   * The uploads a `loadFromJSON` triggers when the upload sits in its per-object
   * callback (the reviver): one per object of the loaded snapshot, none for an empty one.
   */
  function PerObjectUploads(s: Scene, action: string): (r: seq<string>)
    ensures |r| == |s.objects| && forall i :: 0 <= i < |r| ==> r[i] == action
  {
    seq(|s.objects|, _ => action)
  }
}
