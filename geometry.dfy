/** Rectangles and per-side lengths in viewport coordinates, the values the
    detector reads from the page (`getBoundingClientRect`, computed styles) and
    hands to the canvas (`fillRect(x, y, width, height)`). */
module Geometry {

  /** A rectangle given by its top-left corner and its size. A `DOMRect` has
      `right == left + width` and `bottom == top + height`, so those two are
      derived rather than stored. */
  datatype Rect = Rect(left: real, top: real, width: real, height: real) {

    function Right(): real { left + width }

    function Bottom(): real { top + height }

    /** The points a fill of this rectangle paints: half-open on the right and
        bottom, so that two rectangles sharing an edge do not overlap. */
    predicate Contains(x: real, y: real) {
      left <= x < left + width && top <= y < top + height
    }

    function Area(): real { width * height }
  }

  /** One length per side, as CSS gives margins, borders and paddings. */
  datatype Sides = Sides(top: real, right: real, bottom: real, left: real) {

    predicate NonNegative() {
      0.0 <= top && 0.0 <= right && 0.0 <= bottom && 0.0 <= left
    }
  }

  /** The rectangle grown by `e` on every side (the margin box around a border box). */
  function Outset(r: Rect, e: Sides): (o: Rect)
    ensures o.Right() - r.Right() == e.right && r.left - o.left == e.left
    ensures o.Bottom() - r.Bottom() == e.bottom && r.top - o.top == e.top
  {
    Rect(r.left - e.left, r.top - e.top, r.width + e.left + e.right, r.height + e.top + e.bottom)
  }

  /** The rectangle shrunk by `e` on every side (the padding box inside a border box). */
  function Inset(r: Rect, e: Sides): (i: Rect)
    ensures r.Right() - i.Right() == e.right && i.left - r.left == e.left
    ensures r.Bottom() - i.Bottom() == e.bottom && i.top - r.top == e.top
  {
    Rect(r.left + e.left, r.top + e.top, r.width - e.left - e.right, r.height - e.top - e.bottom)
  }

  /** `parseInt` applied to a computed CSS length such as "12.75px": the integer
      part, truncated toward zero. */
  function ParseIntPx(v: real): (n: int)
    ensures 0.0 <= v ==> n as real <= v < n as real + 1.0
    ensures v < 0.0 ==> n as real - 1.0 < v <= n as real
  {
    if 0.0 <= v then v.Floor else -((-v).Floor)
  }

  /** The four sides after `parseInt`, as `drawBoxModel` reads margins, borders
      and paddings. */
  function WholePixels(s: Sides): (w: Sides)
    ensures s.NonNegative() ==> w.NonNegative()
    ensures s.NonNegative() ==> w.top <= s.top < w.top + 1.0 && w.right <= s.right < w.right + 1.0
    ensures s.NonNegative() ==> w.bottom <= s.bottom < w.bottom + 1.0 && w.left <= s.left < w.left + 1.0
  {
    Sides(ParseIntPx(s.top) as real, ParseIntPx(s.right) as real,
          ParseIntPx(s.bottom) as real, ParseIntPx(s.left) as real)
  }

  /** A value that may be absent: a page query that found nothing, a style
      string `parseInt` could not read. */
  datatype Option<T> = None | Some(value: T)

  function OptionToSeq<T>(o: Option<T>): (s: seq<T>)
    ensures o.None? ==> s == []
    ensures o.Some? ==> s == [o.value]
  {
    if o.Some? then [o.value] else []
  }

  /** The smallest extent, in CSS pixels, a gap must have to be drawn. */
  const MinGap: real := 1.0

  /** Regrouping a concatenation, for loops that append one piece at a time. */
  lemma Associate<T>(a: seq<T>, b: seq<T>, c: seq<T>)
    ensures a + (b + c) == a + b + c
  {
  }

  function Abs(v: real): real { if v < 0.0 then -v else v }

  function Min(a: real, b: real): real { if a <= b then a else b }

  function Max(a: real, b: real): real { if a >= b then a else b }
}
