/** The box-model overlay of the hovered element (`drawBoxModel`): four margin
    strips, four border strips, four padding strips and one content rectangle,
    with the content band's vertical placement adjusted for flex items
    (`getFlexItemDimensions`). */
module BoxModel {
  import opened Geometry
  import opened Canvas

  /** The four strips of one band, in the order they are filled. */
  datatype Strips = Strips(top: Rect, right: Rect, bottom: Rect, left: Rect)

  /** How many of the four strips paint the point (x, y). */
  function CoverCount(s: Strips, x: real, y: real): nat
  {
    (if s.top.Contains(x, y) then 1 else 0) + (if s.right.Contains(x, y) then 1 else 0) +
    (if s.bottom.Contains(x, y) then 1 else 0) + (if s.left.Contains(x, y) then 1 else 0)
  }

  /** Strips laid outside `r`: the top and bottom strips span the grown width,
      the side strips only `r`'s own height. `drawBoxModel` lays both the
      margin and the border band this way. */
  function OutsideStrips(r: Rect, e: Sides): Strips
  {
    Strips(
      Rect(r.left - e.left, r.top - e.top, r.width + e.left + e.right, e.top),
      Rect(r.Right(), r.top, e.right, r.height),
      Rect(r.left - e.left, r.Bottom(), r.width + e.left + e.right, e.bottom),
      Rect(r.left - e.left, r.top, e.left, r.height))
  }

  /** Strips laid inside `r`: the top and bottom strips span `r`'s width, the
      side strips the height left between them (the padding band). */
  function InsideStrips(r: Rect, e: Sides): Strips
  {
    Strips(
      Rect(r.left, r.top, r.width, e.top),
      Rect(r.Right() - e.right, r.top + e.top, e.right, r.height - e.top - e.bottom),
      Rect(r.left, r.Bottom() - e.bottom, r.width, e.bottom),
      Rect(r.left, r.top + e.top, e.left, r.height - e.top - e.bottom))
  }

  /** The outside strips paint every point of the ring between `r` and `r`
      grown by `e` exactly once, and nothing else. */
  lemma OutsideStripsTile(r: Rect, e: Sides)
    requires 0.0 <= r.width && 0.0 <= r.height && e.NonNegative()
    ensures forall x, y :: CoverCount(OutsideStrips(r, e), x, y)
                        == if Outset(r, e).Contains(x, y) && !r.Contains(x, y) then 1 else 0
  {
  }

  /** Their areas add up to the grown rectangle's area less `r`'s. */
  lemma OutsideStripsArea(r: Rect, e: Sides)
    ensures var s := OutsideStrips(r, e);
      s.top.Area() + s.right.Area() + s.bottom.Area() + s.left.Area()
      == Outset(r, e).Area() - r.Area()
  {
    var s := OutsideStrips(r, e);
    var w := r.width + e.left + e.right;
    assert s.top.Area() + s.bottom.Area() == w * (e.top + e.bottom);
    assert s.right.Area() + s.left.Area() == (e.left + e.right) * r.height;
    assert Outset(r, e).Area() == w * (r.height + e.top + e.bottom);
  }

  /** The inside strips paint every point of `r` outside `r` shrunk by `e`
      exactly once, and nothing else, as long as the insets fit in `r`. */
  lemma InsideStripsTile(r: Rect, e: Sides)
    requires e.NonNegative() && e.left + e.right <= r.width && e.top + e.bottom <= r.height
    ensures forall x, y :: CoverCount(InsideStrips(r, e), x, y)
                        == if r.Contains(x, y) && !Inset(r, e).Contains(x, y) then 1 else 0
  {
  }

  lemma InsideStripsArea(r: Rect, e: Sides)
    ensures var s := InsideStrips(r, e);
      s.top.Area() + s.right.Area() + s.bottom.Area() + s.left.Area()
      == r.Area() - Inset(r, e).Area()
  {
    var s := InsideStrips(r, e);
    var h := r.height - e.top - e.bottom;
    assert s.top.Area() + s.bottom.Area() == r.width * (e.top + e.bottom);
    assert s.right.Area() + s.left.Area() == (e.left + e.right) * h;
    assert Inset(r, e).Area() == (r.width - e.left - e.right) * h;
  }

  // ----- Content placement of flex items (getFlexItemDimensions) -----

  /** The computed `flex-basis`: the string "auto", the string "0", or any other
      string, held as the number `parseFloat` reads from it (so "0px" is
      `BasisLength(0.0)`). */
  datatype FlexBasis = BasisAuto | BasisZero | BasisLength(px: real)

  /** What the content band needs to know of the element's own style. */
  datatype ItemStyle = ItemStyle(alignSelf: string, flexBasis: FlexBasis, marginTop: real, marginBottom: real)

  /** What it needs of the parent: its `display`, its `align-items` and its
      border-box rectangle. */
  datatype ParentBox = ParentBox(display: string, alignItems: string, rect: Rect)

  /** The vertical extent the content band is measured from. */
  datatype Placement = Placement(top: real, height: real) {
    function Bottom(): real { top + height }
  }

  /** `align-self` unless it is "auto", else the parent's `align-items`. */
  function EffectiveAlign(alignSelf: string, alignItems: string): string
  {
    if alignSelf != "auto" then alignSelf else alignItems
  }

  predicate IsKeyword(a: string)
  {
    a == "flex-start" || a == "flex-end" || a == "center" || a == "stretch"
  }

  /** The height after `flex-basis`: a basis other than "auto" and "0" replaces it. */
  function BasisHeight(rect: Rect, basis: FlexBasis): real
  {
    if basis.BasisLength? then basis.px else rect.height
  }

  /** `getFlexItemDimensions`: the (top, height) of the element, moved and
      resized as its alignment in a `display: flex` parent dictates. */
  function ContentPlacement(rect: Rect, item: ItemStyle, parent: ParentBox): (p: Placement)
    // Outside a flex container the element's own rectangle is used.
    ensures parent.display != "flex" ==> p == Placement(rect.top, rect.height)
    ensures parent.display == "flex" ==>
      var a := EffectiveAlign(item.alignSelf, parent.alignItems);
      var h := BasisHeight(rect, item.flexBasis);
      var box := parent.rect;
      // flex-start: the top margin separates it from the parent's top edge.
      && (a == "flex-start" ==> p.height == h && p.top - box.top == item.marginTop)
      // flex-end: the bottom margin separates it from the parent's bottom edge.
      && (a == "flex-end" ==> p.height == h && box.Bottom() - p.Bottom() == item.marginBottom)
      // center: equal room above and below, margins ignored.
      && (a == "center" ==> p.height == h && p.top - box.top == box.Bottom() - p.Bottom())
      // stretch, named or inherited: the item and its margins fill the parent exactly.
      && ((a == "stretch" || (!IsKeyword(a) && parent.alignItems == "stretch")) ==>
            p.top - box.top == item.marginTop && box.Bottom() - p.Bottom() == item.marginBottom)
      // anything else leaves the top alone.
      && ((!IsKeyword(a) && parent.alignItems != "stretch") ==> p == Placement(rect.top, h))
  {
    if parent.display != "flex" then Placement(rect.top, rect.height)
    else
      var height := BasisHeight(rect, item.flexBasis);
      var box := parent.rect;
      match EffectiveAlign(item.alignSelf, parent.alignItems)
      case "flex-start" => Placement(box.top + item.marginTop, height)
      case "flex-end" => Placement(box.Bottom() - height - item.marginBottom, height)
      case "center" => Placement(box.top + (box.height - height) / 2.0, height)
      case "stretch" =>
        Placement(box.top + item.marginTop, box.height - item.marginTop - item.marginBottom)
      case _ =>
        if parent.alignItems == "stretch" then
          Placement(box.top + item.marginTop, box.height - item.marginTop - item.marginBottom)
        else Placement(rect.top, height)
  }

  // ----- The bands -----

  /** Computed margin, border and padding lengths, before `parseInt`. */
  datatype BoxStyle = BoxStyle(margin: Sides, border: Sides, padding: Sides)

  datatype Bands = Bands(margin: Strips, border: Strips, padding: Strips, content: Rect)

  /** The content band: inset horizontally by border and padding from the
      element's rectangle, vertically from the placement. */
  function ContentRect(rect: Rect, border: Sides, padding: Sides, place: Placement): Rect
  {
    Rect(rect.left + border.left + padding.left,
         place.top + border.top + padding.top,
         rect.width - border.left - border.right - padding.left - padding.right,
         place.height - border.top - border.bottom - padding.top - padding.bottom)
  }

  /** The bands `drawBoxModel` fills, as the program lays them out: margin and
      border both outside the element's rectangle, padding inside it, and the
      content inset by border and padding. */
  function BoxModelBands(rect: Rect, item: ItemStyle, parent: ParentBox, style: BoxStyle): Bands
  {
    var m, b, p := WholePixels(style.margin), WholePixels(style.border), WholePixels(style.padding);
    Bands(OutsideStrips(rect, m), OutsideStrips(rect, b), InsideStrips(rect, p),
          ContentRect(rect, b, p, ContentPlacement(rect, item, parent)))
  }

  /** The fills in the order they are issued: margin, border, padding strips
      (top, right, bottom, left each), then the content. */
  function BandCommands(b: Bands): seq<Command>
  {
    [Fill(MarginFill, b.margin.top), Fill(MarginFill, b.margin.right),
     Fill(MarginFill, b.margin.bottom), Fill(MarginFill, b.margin.left),
     Fill(BorderFill, b.border.top), Fill(BorderFill, b.border.right),
     Fill(BorderFill, b.border.bottom), Fill(BorderFill, b.border.left),
     Fill(PaddingFill, b.padding.top), Fill(PaddingFill, b.padding.right),
     Fill(PaddingFill, b.padding.bottom), Fill(PaddingFill, b.padding.left),
     Fill(ContentFill, b.content)]
  }

  /** Outside a flex container, the content band is the CSS content box of the
      element's border box: its rectangle shrunk by the border, then by the padding. */
  lemma StaticContentIsContentBox(rect: Rect, item: ItemStyle, parent: ParentBox, style: BoxStyle)
    requires parent.display != "flex"
    ensures BoxModelBands(rect, item, parent, style).content
         == Inset(Inset(rect, WholePixels(style.border)), WholePixels(style.padding))
  {
  }

  /** The margin band paints the ring between the element's rectangle and its
      margin box exactly once per point, and the border band does the same
      with the border widths; the padding band paints the rectangle less its
      padding-inset interior. */
  lemma BandsAsLaidOut(rect: Rect, item: ItemStyle, parent: ParentBox, style: BoxStyle)
    requires 0.0 <= rect.width && 0.0 <= rect.height
    requires style.margin.NonNegative() && style.border.NonNegative() && style.padding.NonNegative()
    requires var p := WholePixels(style.padding);
      p.left + p.right <= rect.width && p.top + p.bottom <= rect.height
    ensures var b := BoxModelBands(rect, item, parent, style);
      var m, bw, p := WholePixels(style.margin), WholePixels(style.border), WholePixels(style.padding);
      && (forall x, y :: CoverCount(b.margin, x, y)
            == if Outset(rect, m).Contains(x, y) && !rect.Contains(x, y) then 1 else 0)
      && (forall x, y :: CoverCount(b.border, x, y)
            == if Outset(rect, bw).Contains(x, y) && !rect.Contains(x, y) then 1 else 0)
      && (forall x, y :: CoverCount(b.padding, x, y)
            == if rect.Contains(x, y) && !Inset(rect, p).Contains(x, y) then 1 else 0)
  {
    OutsideStripsTile(rect, WholePixels(style.margin));
    OutsideStripsTile(rect, WholePixels(style.border));
    InsideStripsTile(rect, WholePixels(style.padding));
  }

  // ----- Finding: border band laid outside the border box -----

  /** With 5px margins, borders and paddings on a 100x100 element, the bands
      as laid out paint a point left of the element twice (margin and border
      strips overlap) and leave a point inside the element, between the
      padding strip and the content, unpainted. */
  lemma AsWrittenBandsOverlapAndGap()
    ensures var five := Sides(5.0, 5.0, 5.0, 5.0);
      var rect := Rect(0.0, 0.0, 100.0, 100.0);
      var b := BoxModelBands(rect, ItemStyle("auto", BasisAuto, 5.0, 5.0),
                             ParentBox("block", "normal", Rect(0.0, 0.0, 200.0, 200.0)),
                             BoxStyle(five, five, five));
      && b.margin.left.Contains(-2.5, 50.0) && b.border.left.Contains(-2.5, 50.0)
      && rect.Contains(7.5, 50.0)
      && CoverCount(b.margin, 7.5, 50.0) + CoverCount(b.border, 7.5, 50.0)
         + CoverCount(b.padding, 7.5, 50.0) == 0
      && !b.content.Contains(7.5, 50.0)
  {
    var five := Sides(5.0, 5.0, 5.0, 5.0);
    assert WholePixels(five) == five by {
      assert ParseIntPx(5.0) == 5;
    }
  }

  /** The bands as the box model defines them: the border band inside the
      element's border box, the padding band inside that, the content inside that. */
  function CorrectedBands(rect: Rect, item: ItemStyle, parent: ParentBox, style: BoxStyle): Bands
  {
    var m, b, p := WholePixels(style.margin), WholePixels(style.border), WholePixels(style.padding);
    Bands(OutsideStrips(rect, m), InsideStrips(rect, b), InsideStrips(Inset(rect, b), p),
          ContentRect(rect, b, p, ContentPlacement(rect, item, parent)))
  }

  function BandCount(b: Bands, x: real, y: real): nat
  {
    CoverCount(b.margin, x, y) + CoverCount(b.border, x, y) + CoverCount(b.padding, x, y)
    + (if b.content.Contains(x, y) then 1 else 0)
  }

  /** Outside a flex container, the corrected bands paint every point of the
      margin box exactly once and nothing outside it. */
  lemma CorrectedBandsTile(rect: Rect, item: ItemStyle, parent: ParentBox, style: BoxStyle)
    requires parent.display != "flex"
    requires style.margin.NonNegative() && style.border.NonNegative() && style.padding.NonNegative()
    requires var b, p := WholePixels(style.border), WholePixels(style.padding);
      b.left + b.right + p.left + p.right <= rect.width && b.top + b.bottom + p.top + p.bottom <= rect.height
    ensures forall x, y :: BandCount(CorrectedBands(rect, item, parent, style), x, y)
                        == if Outset(rect, WholePixels(style.margin)).Contains(x, y) then 1 else 0
  {
    var m, b, p := WholePixels(style.margin), WholePixels(style.border), WholePixels(style.padding);
    OutsideStripsTile(rect, m);
    InsideStripsTile(rect, b);
    InsideStripsTile(Inset(rect, b), p);
    StaticContentIsContentBox(rect, item, parent, style);
  }
}
