/**
 * The zoom of the image preview. The preview steps its zoom by 0.25 and keeps
 * it between 0.25 and 3, so every level it can reach is a whole number of
 * quarters; the model counts zoom in quarters, which keeps the arithmetic exact.
 */
module PreviewZoom {

  /** 0.25, the smallest zoom. */
  const MinZoom: int := 1
  /** 3, the largest zoom. */
  const MaxZoom: int := 12
  /** 1, the zoom when the app starts and whenever a preview is opened. */
  const InitialZoom: int := 4
  /** The step of the zoom-in and zoom-out buttons, 0.25. */
  const ZoomStep: int := 1

  function Min(a: int, b: int): int { if a <= b then a else b }
  function Max(a: int, b: int): int { if a >= b then a else b }

  /** handleZoom: add `delta` to the zoom and clamp the sum into [0.25, 3]. */
  function HandleZoom(zoom: int, delta: int): (r: int)
    ensures MinZoom <= r <= MaxZoom
    ensures MinZoom <= zoom + delta <= MaxZoom ==> r == zoom + delta
    ensures zoom + delta < MinZoom ==> r == MinZoom
    ensures zoom + delta > MaxZoom ==> r == MaxZoom
  {
    Max(MinZoom, Min(MaxZoom, zoom + delta))
  }

  /** The preview's controls that change the zoom. */
  datatype ZoomAction = ZoomOut | ZoomIn | OpenPreview

  /** The zoom after one action: the buttons call handleZoom with -0.25 and
      +0.25, and opening a preview sets the zoom back to 1. */
  function Apply(zoom: int, action: ZoomAction): int
  {
    match action
    case ZoomOut => HandleZoom(zoom, -ZoomStep)
    case ZoomIn => HandleZoom(zoom, ZoomStep)
    case OpenPreview => InitialZoom
  }

  /** The zoom after a run of actions, the first one first. */
  function ApplyAll(zoom: int, actions: seq<ZoomAction>): int
    decreases |actions|
  {
    if |actions| == 0 then zoom
    else ApplyAll(Apply(zoom, actions[0]), actions[1..])
  }

  /** Whatever the user does, from start-up the zoom stays within [0.25, 3]. */
  lemma {:induction false} ZoomStaysInRange(zoom: int, actions: seq<ZoomAction>)
    requires MinZoom <= zoom <= MaxZoom
    ensures MinZoom <= ApplyAll(zoom, actions) <= MaxZoom
    decreases |actions|
  {
    if |actions| > 0 {
      ZoomStaysInRange(Apply(zoom, actions[0]), actions[1..]);
    }
  }

  /** Pressing zoom-in `n` times moves the zoom up by `n` quarters until it
      reaches 3, and then it stays there. */
  lemma {:induction false} RepeatedZoomIn(zoom: int, n: nat)
    requires MinZoom <= zoom <= MaxZoom
    ensures ApplyAll(zoom, seq(n, _ => ZoomIn)) == Min(MaxZoom, zoom + n)
    decreases n
  {
    if n > 0 {
      var presses := seq(n, _ => ZoomIn);
      assert presses[0] == ZoomIn;
      assert presses[1..] == seq(n - 1, _ => ZoomIn);
      RepeatedZoomIn(HandleZoom(zoom, ZoomStep), n - 1);
    }
  }

  /** Below the top, zooming in and then out returns to the same zoom; above
      the bottom, zooming out and then in does too. */
  lemma ZoomInThenOut(zoom: int)
    requires MinZoom <= zoom < MaxZoom
    ensures Apply(Apply(zoom, ZoomIn), ZoomOut) == zoom
  {
    assert Apply(zoom, ZoomIn) == zoom + 1;
  }

  lemma ZoomOutThenIn(zoom: int)
    requires MinZoom < zoom <= MaxZoom
    ensures Apply(Apply(zoom, ZoomOut), ZoomIn) == zoom
  {
    assert Apply(zoom, ZoomOut) == zoom - 1;
  }
}
