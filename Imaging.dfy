/** The parts of System.Drawing the core uses: ARGB colours, integer
    rectangles, and a bitmap as a two-dimensional array of pixels. */
module Imaging {

  /** One 8-bit colour channel. */
  type Channel = x: int | 0 <= x <= 255

  /** `System.Drawing.Color` as its four ARGB channels; two colours are equal
      exactly when all four channels are. */
  datatype Color = Color(a: Channel, r: Channel, g: Channel, b: Channel)

  /** `Color.White`. */
  const White: Color := Color(255, 255, 255, 255)

  /** `Color.FromArgb(r, g, b)`: an opaque colour. */
  function FromRgb(r: Channel, g: Channel, b: Channel): Color {
    Color(255, r, g, b)
  }

  /** `System.Drawing.Rectangle`. */
  datatype Rect = Rect(x: int, y: int, width: int, height: int)

  function Right(r: Rect): int { r.x + r.width }
  function Bottom(r: Rect): int { r.y + r.height }

  /** The point lies in the closed rectangle. */
  predicate ContainsPoint(r: Rect, px: int, py: int) {
    r.x <= px <= Right(r) && r.y <= py <= Bottom(r)
  }

  /** `inner` lies within `outer`. */
  predicate ContainsRect(outer: Rect, inner: Rect) {
    outer.x <= inner.x && Right(inner) <= Right(outer) &&
    outer.y <= inner.y && Bottom(inner) <= Bottom(outer)
  }

  /** A bitmap: `img[x, y]` is `GetPixel(x, y)`; `Length0` is the width and
      `Length1` the height. */
  type Image = array2<Color>

  /** `Bitmap.Clone(rect, …)` accepts `rect`: it lies inside the bitmap. */
  predicate RegionInImage(img: Image, rect: Rect) {
    0 <= rect.x && 0 <= rect.y && 0 <= rect.width && 0 <= rect.height &&
    Right(rect) <= img.Length0 && Bottom(rect) <= img.Length1
  }

  /** `GetPixel(x, y)` on the clone of `rect`. */
  function Pixel(img: Image, rect: Rect, x: int, y: int): Color
    reads img
    requires RegionInImage(img, rect)
    requires 0 <= x < rect.width && 0 <= y < rect.height
  {
    img[rect.x + x, rect.y + y]
  }
}
