/**
 * The viewport fitter (app/page.tsx): the reference outline is shown through a
 * viewBox fitted around its measured bounding box, padded by 16 units on every
 * side and never narrower or lower than 1 unit.
 */
module Viewport {

  /** A bounding box as the rendering surface measures it. */
  datatype Box = Box(x: real, y: real, width: real, height: real)

  /** The four numbers of an SVG viewBox. */
  datatype ViewBox = ViewBox(x: real, y: real, w: real, h: real)

  /** What measuring the reference group yields. */
  datatype Measurement =
    | NoGroup           // the group element is not mounted
    | Threw             // the measurement raised an exception
    | Measured(box: Box)

  const Pad: real := 16.0

  /** The viewBox the page starts with and falls back to: `0 0 400 140`. */
  const Fallback: ViewBox := ViewBox(0.0, 0.0, 400.0, 140.0)

  function Max(a: real, b: real): real
  {
    if a >= b then a else b
  }

  /**
   * The viewBox fitted around `box`. Its origin lies `Pad` above and left of the
   * box; each extent is the padded extent, floored at 1, so the viewBox is never
   * degenerate and (for a box of non-negative size) contains the box with a
   * margin of `Pad` on every side.
   */
  function Fit(box: Box): (v: ViewBox)
    ensures v.x + Pad == box.x && v.y + Pad == box.y
    ensures v.w >= 1.0 && v.h >= 1.0
    ensures v.w >= box.width + 2.0 * Pad && v.h >= box.height + 2.0 * Pad
    ensures v.w == box.width + 2.0 * Pad || v.w == 1.0
    ensures v.h == box.height + 2.0 * Pad || v.h == 1.0
    ensures box.width >= 0.0 ==> box.x + box.width + Pad == v.x + v.w
    ensures box.height >= 0.0 ==> box.y + box.height + Pad == v.y + v.h
  {
    ViewBox(box.x - Pad, box.y - Pad, Max(box.width + Pad * 2.0, 1.0), Max(box.height + Pad * 2.0, 1.0))
  }

  /**
   * A box measured at (10, 20) of size 0 x 50 is shown through `-6 4 32 82`:
   * the zero width is padded to 32, so the floor of 1 does not apply.
   */
  lemma FitZeroWidth()
    ensures Fit(Box(10.0, 20.0, 0.0, 50.0)) == ViewBox(-6.0, 4.0, 32.0, 82.0)
  {
  }
}
