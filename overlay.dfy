/** The overlay as a whole: what one redraw paints (guide lines and outlines
    for the selected elements, then the box model of the hovered one), the
    hover target chosen on mouse move, and the selection toggled on click. */
module Overlay {
  import opened Geometry
  import opened Canvas
  import opened BoxModel
  import opened FlexOrder
  import opened FlexGaps
  import opened GridGaps

  /** What the detector reads of one page element. `id` stands for the node's
      identity; `fragments` are its `getClientRects()` boxes and `bounds` its
      `getBoundingClientRect()`. */
  datatype Element = Element(
    id: nat,
    bounds: Rect,
    fragments: seq<Rect>,
    style: BoxStyle,
    display: string,
    item: ItemStyle,
    parent: ParentBox,
    flexDirection: string,
    flexWrap: string,
    grid: GridStyle,
    children: seq<Rect>,
    childOrders: seq<Option<int>>)
  {
    /** One `order` per child, as the children list and their styles come
        together; the flex item's top and bottom margins are the ones its box
        style carries (one computed style read twice, by `parseFloat` and by
        `parseInt`). */
    predicate Valid()
    {
      && |children| == |childOrders|
      && item.marginTop == style.margin.top && item.marginBottom == style.margin.bottom
    }
  }

  // ----- Guide lines (drawGuideLines) -----

  /** `Math.floor(v) + 0.5`: the centre of the pixel row or column the edge falls in. */
  function Snap(v: real): (s: real)
    ensures v - 0.5 < s <= v + 0.5
    ensures (s - 0.5).Floor as real == s - 0.5
  {
    v.Floor as real + 0.5
  }

  /** The four dashed lines through one rectangle's edges: across the whole
      canvas at its top and bottom, down the whole canvas at its left and right. */
  function EdgeGuides(r: Rect, width: real, height: real): seq<Command>
  {
    [DashedLine(0.0, Snap(r.top), width, Snap(r.top)),
     DashedLine(0.0, Snap(r.Bottom()), width, Snap(r.Bottom())),
     DashedLine(Snap(r.left), 0.0, Snap(r.left), height),
     DashedLine(Snap(r.Right()), 0.0, Snap(r.Right()), height)]
  }

  function GuideLines(rects: seq<Rect>, width: real, height: real): seq<Command>
  {
    if rects == [] then [] else EdgeGuides(rects[0], width, height) + GuideLines(rects[1..], width, height)
  }

  /** A dashed line across the canvas within half a pixel of height `y`. */
  predicate HorizontalNear(c: Command, y: real, width: real)
  {
    c.DashedLine? && c.x0 == 0.0 && c.x1 == width && c.y0 == c.y1 && y - 0.5 < c.y0 <= y + 0.5
  }

  /** A dashed line down the canvas within half a pixel of abscissa `x`. */
  predicate VerticalNear(c: Command, x: real, height: real)
  {
    c.DashedLine? && c.y0 == 0.0 && c.y1 == height && c.x0 == c.x1 && x - 0.5 < c.x0 <= x + 0.5
  }

  /** The guides of one rectangle run along its top, bottom, left and right
      edges, each on a pixel centre within half a pixel of the edge. */
  lemma EdgeGuidesNear(r: Rect, width: real, height: real)
    ensures var g := EdgeGuides(r, width, height);
      && |g| == 4
      && HorizontalNear(g[0], r.top, width) && HorizontalNear(g[1], r.Bottom(), width)
      && VerticalNear(g[2], r.left, height) && VerticalNear(g[3], r.Right(), height)
  {
  }

  /** Four lines per rectangle, in order: lines 4i .. 4i+3 are the guides of
      rectangle i. */
  lemma {:induction false} GuideLinesLayout(rects: seq<Rect>, width: real, height: real)
    ensures |GuideLines(rects, width, height)| == 4 * |rects|
    ensures forall i :: 0 <= i < |rects| ==>
      GuideLines(rects, width, height)[4 * i..4 * i + 4] == EdgeGuides(rects[i], width, height)
  {
    if rects != [] {
      GuideLinesLayout(rects[1..], width, height);
      var g := GuideLines(rects, width, height);
      var head := EdgeGuides(rects[0], width, height);
      var rest := GuideLines(rects[1..], width, height);
      assert g == head + rest;
      assert g[0..4] == head;
      forall i | 1 <= i < |rects|
        ensures g[4 * i..4 * i + 4] == EdgeGuides(rects[i], width, height)
      {
        assert g[4 * i..4 * i + 4] == rest[4 * (i - 1)..4 * (i - 1) + 4];
        assert rects[1..][i - 1] == rects[i];
      }
    }
  }

  /** `drawGuideLines`: the `forEach` over the selected elements. */
  method DrawGuideLines(elements: seq<Element>, width: real, height: real) returns (cmds: seq<Command>)
    ensures cmds == GuideLines(Bounds(elements), width, height)
  {
    cmds := [];
    var i := 0;
    while i < |elements|
      invariant 0 <= i <= |elements|
      invariant cmds + GuideLines(Bounds(elements)[i..], width, height) == GuideLines(Bounds(elements), width, height)
    {
      var rect := elements[i].bounds;
      ghost var rest := Bounds(elements)[i + 1..];
      assert Bounds(elements)[i..] == [rect] + rest;
      assert GuideLines([rect] + rest, width, height) == EdgeGuides(rect, width, height) + GuideLines(rest, width, height);
      Associate(cmds, EdgeGuides(rect, width, height), GuideLines(rest, width, height));
      cmds := cmds + EdgeGuides(rect, width, height);
      i := i + 1;
    }
    assert Bounds(elements)[i..] == [];
    assert cmds + [] == cmds;
  }

  function Bounds(elements: seq<Element>): (rs: seq<Rect>)
    ensures |rs| == |elements| && forall i :: 0 <= i < |rs| ==> rs[i] == elements[i].bounds
  {
    seq(|elements|, i requires 0 <= i < |elements| => elements[i].bounds)
  }

  // ----- Outlines (drawFigmaStyleBoxes, drawSingleRect) -----

  /** Half the 3-pixel handle size. */
  const HandleRadius: real := 1.5

  predicate IsCorner(r: Rect, x: real, y: real)
  {
    (x == r.left || x == r.Right()) && (y == r.top || y == r.Bottom())
  }

  /** `drawSingleRect`: the outline, then a handle on each corner. */
  function SingleRect(r: Rect): seq<Command>
  {
    [Outline(r),
     Handle(r.left, r.top, HandleRadius), Handle(r.Right(), r.top, HandleRadius),
     Handle(r.left, r.Bottom(), HandleRadius), Handle(r.Right(), r.Bottom(), HandleRadius)]
  }

  /** One outline of `r` first; every other command is a handle on a corner of
      `r`, and every corner of `r` has one. */
  lemma SingleRectCorners(r: Rect)
    ensures var cs := SingleRect(r);
      && |cs| == 5 && cs[0] == Outline(r)
      && (forall k :: 1 <= k < 5 ==> cs[k].Handle? && cs[k].radius == HandleRadius && IsCorner(r, cs[k].x, cs[k].y))
      && (forall x, y :: IsCorner(r, x, y) ==> Handle(x, y, HandleRadius) in cs)
  {
    var cs := SingleRect(r);
    forall x, y | IsCorner(r, x, y) ensures Handle(x, y, HandleRadius) in cs {
      if x == r.left && y == r.top { assert cs[1] == Handle(x, y, HandleRadius); }
      else if x == r.left { assert cs[3] == Handle(x, y, HandleRadius); }
      else if y == r.top { assert cs[2] == Handle(x, y, HandleRadius); }
      else { assert cs[4] == Handle(x, y, HandleRadius); }
    }
  }

  function Outlines(rects: seq<Rect>): seq<Command>
  {
    if rects == [] then [] else SingleRect(rects[0]) + Outlines(rects[1..])
  }

  /** Every client rectangle of every selected element, in order. */
  function Fragments(elements: seq<Element>): seq<Rect>
  {
    if elements == [] then [] else elements[0].fragments + Fragments(elements[1..])
  }

  function FigmaBoxes(elements: seq<Element>): seq<Command>
  {
    Outlines(Fragments(elements))
  }

  /** Five commands per client rectangle, the outlines being exactly the
      rectangles themselves. */
  lemma {:induction false} OutlinesLayout(rects: seq<Rect>)
    ensures |Outlines(rects)| == 5 * |rects|
    ensures forall i :: 0 <= i < |rects| ==> Outlines(rects)[5 * i] == Outline(rects[i])
    ensures forall c :: c in Outlines(rects) && c.Outline? ==> c.rect in rects
  {
    if rects != [] {
      OutlinesLayout(rects[1..]);
      var o := Outlines(rects);
      var rest := Outlines(rects[1..]);
      assert o == SingleRect(rects[0]) + rest;
      forall i | 1 <= i < |rects| ensures o[5 * i] == Outline(rects[i]) {
        assert o[5 * i] == rest[5 * (i - 1)];
      }
      forall c | c in o && c.Outline? ensures c.rect in rects {
        if c in rest {
          assert c.rect in rects[1..];
        }
      }
    }
  }

  lemma OutlinesConcat(a: seq<Rect>, b: seq<Rect>)
    ensures Outlines(a + b) == Outlines(a) + Outlines(b)
  {
    if a != [] {
      assert (a + b)[1..] == a[1..] + b;
      OutlinesConcat(a[1..], b);
    } else {
      assert a + b == b;
    }
  }

  /** `drawFigmaStyleBoxes`: for each selected element, the `for` loop over its
      client rectangles. */
  method DrawFigmaStyleBoxes(elements: seq<Element>) returns (cmds: seq<Command>)
    ensures cmds == FigmaBoxes(elements)
  {
    cmds := [];
    var e := 0;
    while e < |elements|
      invariant 0 <= e <= |elements|
      invariant cmds + Outlines(Fragments(elements[e..])) == FigmaBoxes(elements)
    {
      var rects := elements[e].fragments;
      assert elements[e..][1..] == elements[e + 1..];
      ghost var later := Outlines(Fragments(elements[e + 1..]));
      OutlinesConcat(rects, Fragments(elements[e + 1..]));
      var i := 0;
      while i < |rects|
        invariant 0 <= i <= |rects|
        invariant cmds + Outlines(rects[i..]) + later == FigmaBoxes(elements)
      {
        assert rects[i..][1..] == rects[i + 1..];
        Associate(cmds, SingleRect(rects[i]), Outlines(rects[i + 1..]));
        cmds := cmds + SingleRect(rects[i]);
        i := i + 1;
      }
      assert rects[i..] == [];
      assert cmds + [] == cmds;
      e := e + 1;
    }
    assert elements[e..] == [];
    assert cmds + [] == cmds;
  }

  // ----- Hovered element's box model (drawBoxModel) -----

  /** The gap bands of a flex or grid container that has children; none otherwise. */
  function GapBands(e: Element): seq<Rect>
    requires e.Valid()
  {
    if |e.children| > 0 && e.display == "flex" then
      FlexGapBands(StableSort(ChildEntries(e.children, e.childOrders)), e.bounds,
                   IsRowDirection(e.flexDirection), e.flexWrap == "wrap")
    else if |e.children| > 0 && e.display == "grid" then GridGapBands(e.bounds, e.grid)
    else []
  }

  /** Everything `drawBoxModel` paints: the thirteen band fills, then each gap
      band with its hatching. The border and padding bands are the corrected
      ones, laid inside the element's border box (`BoxModel.CorrectedBands`);
      `BoxModel.BoxModelBands` keeps them as the program lays them out. */
  function BoxModelCommands(e: Element): seq<Command>
    requires e.Valid()
  {
    BandCommands(CorrectedBands(e.bounds, e.item, e.parent, e.style)) + HatchCommands(GapBands(e))
  }

  /** The box model starts with its thirteen band fills; the remaining gap
      fills are exactly the gap bands, and a container that is neither flex nor
      grid, or has no children, gets nothing more. */
  lemma BoxModelLayout(e: Element)
    requires e.Valid()
    ensures var cs := BoxModelCommands(e);
      && |cs| >= 13
      && cs[..13] == BandCommands(CorrectedBands(e.bounds, e.item, e.parent, e.style))
      && (forall b :: b in GapBands(e) ==> Fill(GapFill, b) in cs[13..])
      && (forall c :: c in cs[13..] && c.Fill? && c.paint == GapFill ==> c.rect in GapBands(e))
      && (|e.children| == 0 || (e.display != "flex" && e.display != "grid") ==> |cs| == 13)
  {
    var cs := BoxModelCommands(e);
    HatchGapFills(GapBands(e));
    assert cs[13..] == HatchCommands(GapBands(e));
  }

  /** `drawBoxModel`: the (corrected) bands, then, for a flex or grid container with
      children, the gap bands of `drawFlexboxGaps` (over the children sorted in
      place by `order`) or `drawGridGaps`. */
  method DrawBoxModel(e: Element) returns (cmds: seq<Command>)
    requires e.Valid()
    ensures cmds == BoxModelCommands(e)
  {
    var bands := CorrectedBands(e.bounds, e.item, e.parent, e.style);
    cmds := BandCommands(bands);
    if |e.children| > 0 && (e.display == "flex" || e.display == "grid") {
      var entries := ChildEntries(e.children, e.childOrders);
      var childRects := new Child[|entries|](i requires 0 <= i < |entries| => entries[i]);
      assert childRects[..] == entries;
      var gaps: seq<Rect>;
      if e.display == "flex" {
        gaps := DrawFlexboxGaps(childRects, e.bounds, e.flexDirection, e.flexWrap);
        SortByOrderMatchesReference(childRects[..], entries);
      } else {
        gaps := DrawGridGaps(e.bounds, e.grid);
      }
      var hatch := DrawGapBands(gaps);
      cmds := cmds + hatch;
    } else {
      assert HatchCommands([]) == [];
      assert cmds + [] == cmds;
    }
  }

  // ----- Selection order (drawMeasurements) -----

  /** The comparator of `drawMeasurements`: `a` may come before `b` when its
      bounding box is higher on the page, or level with it and no further right. */
  predicate Precedes(a: Element, b: Element)
  {
    a.bounds.top < b.bounds.top || (a.bounds.top == b.bounds.top && a.bounds.left <= b.bounds.left)
  }

  predicate SortedByPosition(s: seq<Element>)
  {
    forall i, j :: 0 <= i < j < |s| ==> Precedes(s[i], s[j])
  }

  /** The elements of `s` whose bounding box has its top-left corner at
      (`top`, `left`), in the order they appear in `s`. */
  function At(s: seq<Element>, top: real, left: real): seq<Element>
  {
    if s == [] then []
    else (if s[0].bounds.top == top && s[0].bounds.left == left then [s[0]] else []) + At(s[1..], top, left)
  }

  /** Every same-position subsequence of `t` is the one of `s`. */
  ghost predicate SamePlaces(t: seq<Element>, s: seq<Element>)
  {
    forall top, left :: At(t, top, left) == At(s, top, left)
  }

  /** `t` is `s` sorted top to bottom, then left to right, elements at the same
      position kept in their original order. */
  ghost predicate IsPositionSortOf(t: seq<Element>, s: seq<Element>)
  {
    SortedByPosition(t) && SamePlaces(t, s)
  }

  lemma {:induction false} AtConcat(a: seq<Element>, b: seq<Element>, top: real, left: real)
    ensures At(a + b, top, left) == At(a, top, left) + At(b, top, left)
  {
    if a == [] {
      assert a + b == b;
    } else {
      assert (a + b)[0] == a[0] && (a + b)[1..] == a[1..] + b;
      AtConcat(a[1..], b, top, left);
      var head := if a[0].bounds.top == top && a[0].bounds.left == left then [a[0]] else [];
      assert At(a + b, top, left) == head + At(a[1..] + b, top, left);
      assert At(a, top, left) == head + At(a[1..], top, left);
    }
  }

  lemma {:induction false} AtMembers(s: seq<Element>, top: real, left: real)
    ensures forall x :: x in At(s, top, left) ==> x in s && x.bounds.top == top && x.bounds.left == left
  {
    if s != [] {
      AtMembers(s[1..], top, left);
    }
  }

  lemma AtSingle(c: Element, top: real, left: real)
    ensures At([c], top, left) == if c.bounds.top == top && c.bounds.left == left then [c] else []
  {
    assert [c][1..] == [];
  }

  lemma HeadPlace(s: seq<Element>)
    ensures s != [] ==> At(s, s[0].bounds.top, s[0].bounds.left) != []
  {
  }

  /** Swapping two neighbours at different positions leaves every
      same-position subsequence as it was. */
  lemma SwapKeepsAt(s: seq<Element>, j: int, top: real, left: real)
    requires 0 < j < |s| && !Precedes(s[j - 1], s[j])
    ensures At(s[j - 1 := s[j]][j := s[j - 1]], top, left) == At(s, top, left)
  {
    var t := s[j - 1 := s[j]][j := s[j - 1]];
    var x, y := s[j - 1], s[j];
    assert s == s[..j - 1] + [x, y] + s[j + 1..];
    assert t == s[..j - 1] + [y, x] + s[j + 1..];
    AtConcat(s[..j - 1] + [x, y], s[j + 1..], top, left);
    AtConcat(s[..j - 1], [x, y], top, left);
    AtConcat(s[..j - 1] + [y, x], s[j + 1..], top, left);
    AtConcat(s[..j - 1], [y, x], top, left);
    AtConcat([x], [y], top, left);
    AtConcat([y], [x], top, left);
    assert [x][1..] == [] && [y][1..] == [];
  }

  lemma SwapSamePlaces(s: seq<Element>, j: int)
    requires 0 < j < |s| && !Precedes(s[j - 1], s[j])
    ensures SamePlaces(s[j - 1 := s[j]][j := s[j - 1]], s)
  {
    forall top, left ensures At(s[j - 1 := s[j]][j := s[j - 1]], top, left) == At(s, top, left) {
      SwapKeepsAt(s, j, top, left);
    }
  }

  /** `drawMeasurements`: sorts the selection in place with the position
      comparator, as an insertion sort by adjacent swaps, stable like the
      engine's sort. It draws nothing. */
  method DrawMeasurements(a: array<Element>)
    modifies a
    ensures IsPositionSortOf(a[..], old(a[..]))
  {
    if a.Length == 0 {
      return;
    }
    var i := 1;
    while i < a.Length
      invariant 1 <= i <= a.Length
      invariant SortedByPosition(a[..i])
      invariant SamePlaces(a[..], old(a[..]))
    {
      MoveIntoPlace(a, i);
      i := i + 1;
    }
    assert a[..i] == a[..];
  }

  /** Moves `a[i]` left past every element that comes after it on the page,
      so that the sorted prefix grows by one. */
  method MoveIntoPlace(a: array<Element>, i: int)
    requires 1 <= i < a.Length && SortedByPosition(a[..i])
    modifies a
    ensures SortedByPosition(a[..i + 1])
    ensures a[i + 1..] == old(a[i + 1..])
    ensures SamePlaces(a[..], old(a[..]))
  {
    var j := i;
    while j > 0 && !Precedes(a[j - 1], a[j])
      invariant 0 <= j <= i
      invariant a[i + 1..] == old(a[i + 1..])
      invariant forall m, n :: 0 <= m < n <= i && n != j ==> Precedes(a[m], a[n])
      invariant SamePlaces(a[..], old(a[..]))
    {
      ghost var before := a[..];
      a[j - 1], a[j] := a[j], a[j - 1];
      assert a[..] == before[j - 1 := before[j]][j := before[j - 1]];
      SwapSamePlaces(before, j);
      j := j - 1;
    }
  }

  /** Inserts `x` before the first element it may precede. */
  function InsertByPosition(x: Element, t: seq<Element>): seq<Element>
  {
    if t == [] || Precedes(x, t[0]) then [x] + t else [t[0]] + InsertByPosition(x, t[1..])
  }

  /** A reference definition of the sorted selection: insertion sort from the
      back, each element going before the later ones at its position. */
  function ByPosition(s: seq<Element>): seq<Element>
  {
    if s == [] then [] else InsertByPosition(s[0], ByPosition(s[1..]))
  }

  lemma {:induction false} InsertByPositionMembers(x: Element, t: seq<Element>)
    ensures forall c :: c in InsertByPosition(x, t) ==> c == x || c in t
  {
    if t != [] && !Precedes(x, t[0]) {
      InsertByPositionMembers(x, t[1..]);
    }
  }

  lemma {:induction false} InsertByPositionMultiset(x: Element, t: seq<Element>)
    ensures multiset(InsertByPosition(x, t)) == multiset([x] + t)
  {
    if t != [] && !Precedes(x, t[0]) {
      InsertByPositionMultiset(x, t[1..]);
      assert t == [t[0]] + t[1..];
    }
  }

  lemma {:induction false} InsertByPositionSorted(x: Element, t: seq<Element>)
    requires SortedByPosition(t)
    ensures SortedByPosition(InsertByPosition(x, t))
  {
    if t != [] && !Precedes(x, t[0]) {
      InsertByPositionSorted(x, t[1..]);
      InsertByPositionMembers(x, t[1..]);
      var r := InsertByPosition(x, t[1..]);
      assert Precedes(t[0], x);
      assert forall c :: c in t[1..] ==> Precedes(t[0], c);
      assert forall c :: c in r ==> Precedes(t[0], c);
      assert forall n :: 0 <= n < |r| ==> r[n] in r;
    }
  }

  lemma {:induction false} InsertByPositionAt(x: Element, t: seq<Element>, top: real, left: real)
    ensures At(InsertByPosition(x, t), top, left) == At([x] + t, top, left)
  {
    if t != [] && !Precedes(x, t[0]) {
      var hx := At([x], top, left);
      var h0 := At([t[0]], top, left);
      var rest := At(t[1..], top, left);
      calc {
        At(InsertByPosition(x, t), top, left);
        At([t[0]] + InsertByPosition(x, t[1..]), top, left);
        { AtConcat([t[0]], InsertByPosition(x, t[1..]), top, left); }
        h0 + At(InsertByPosition(x, t[1..]), top, left);
        { InsertByPositionAt(x, t[1..], top, left); }
        h0 + At([x] + t[1..], top, left);
        { AtConcat([x], t[1..], top, left); }
        h0 + (hx + rest);
        { AtSingle(x, top, left); AtSingle(t[0], top, left); }
        hx + (h0 + rest);
        { AtConcat([t[0]], t[1..], top, left); assert t == [t[0]] + t[1..]; }
        hx + At(t, top, left);
        { AtConcat([x], t, top, left); }
        At([x] + t, top, left);
      }
    }
  }

  /** The reference sort orders the selection by position, keeps elements at
      the same position in their order, and is a permutation of it. */
  lemma {:induction false} ByPositionIsStable(s: seq<Element>)
    ensures IsPositionSortOf(ByPosition(s), s)
    ensures multiset(ByPosition(s)) == multiset(s)
  {
    if s != [] {
      ByPositionIsStable(s[1..]);
      InsertByPositionSorted(s[0], ByPosition(s[1..]));
      InsertByPositionMultiset(s[0], ByPosition(s[1..]));
      assert s == [s[0]] + s[1..];
      forall top, left ensures At(ByPosition(s), top, left) == At(s, top, left) {
        InsertByPositionAt(s[0], ByPosition(s[1..]), top, left);
        AtConcat([s[0]], ByPosition(s[1..]), top, left);
        AtConcat([s[0]], s[1..], top, left);
      }
    }
  }

  /** Two selections sorted by position with the same elements at every
      position, in the same order, are equal. */
  lemma {:induction false} SamePlacesSameSorted(t: seq<Element>, u: seq<Element>)
    requires SortedByPosition(t) && SortedByPosition(u)
    requires forall top, left :: At(t, top, left) == At(u, top, left)
    ensures t == u
    decreases |t| + |u|
  {
    if t == [] || u == [] {
      // One empty and one not would differ at the first element's position.
      HeadPlace(t);
      HeadPlace(u);
    } else {
      var a, b := t[0], u[0];
      AtMembers(u, a.bounds.top, a.bounds.left);
      assert a in At(u, a.bounds.top, a.bounds.left);
      AtMembers(t, b.bounds.top, b.bounds.left);
      assert b in At(t, b.bounds.top, b.bounds.left);
      assert Precedes(b, a) && Precedes(a, b);
      var top, left := a.bounds.top, a.bounds.left;
      assert At(t, top, left) == [a] + At(t[1..], top, left);
      assert At(u, top, left) == [b] + At(u[1..], top, left);
      assert a == At(t, top, left)[0] == At(u, top, left)[0] == b;
      forall p, q ensures At(t[1..], p, q) == At(u[1..], p, q) {
        var head := if top == p && left == q then [a] else [];
        var x, y := At(t[1..], p, q), At(u[1..], p, q);
        assert At(t, p, q) == head + x;
        assert At(u, p, q) == head + y;
        assert x == (head + x)[|head|..] && y == (head + y)[|head|..];
      }
      SamePlacesSameSorted(t[1..], u[1..]);
      assert t == [a] + t[1..] && u == [b] + u[1..];
    }
  }

  /** The array after the in-place sort is the reference sort of its old contents. */
  lemma MeasurementsMatchReference(t: seq<Element>, s: seq<Element>)
    requires IsPositionSortOf(t, s)
    ensures t == ByPosition(s)
  {
    ByPositionIsStable(s);
    SamePlacesSameSorted(t, ByPosition(s));
  }

  // ----- One redraw -----

  /** The element under the pointer, with the pointer's position. */
  datatype Hover = Hover(element: Element, x: real, y: real)

  /** What one redraw paints on the cleared canvas: guide lines in selection
      order when something is selected; then, the selection having been sorted
      by `drawMeasurements`, the outlines in page order; then the hovered box
      model. */
  function Frame(selected: seq<Element>, hovered: Option<Hover>, width: real, height: real): seq<Command>
    requires hovered.Some? ==> hovered.value.element.Valid()
  {
    (if |selected| > 0 then GuideLines(Bounds(selected), width, height) else [])
    + FigmaBoxes(ByPosition(selected))
    + (if hovered.Some? then BoxModelCommands(hovered.value.element) else [])
  }

  /** Paint order: guide lines at the bottom, outlines and handles over them,
      box-model fills on top. */
  function Layer(c: Command): nat
  {
    match c
    case DashedLine(_, _, _, _) => 0
    case Outline(_) => 1
    case Handle(_, _, _) => 1
    case Fill(_, _) => 2
  }

  lemma {:induction false} GuideLinesLayer(rects: seq<Rect>, width: real, height: real)
    ensures forall c :: c in GuideLines(rects, width, height) ==> Layer(c) == 0
  {
    if rects != [] {
      GuideLinesLayer(rects[1..], width, height);
    }
  }

  lemma {:induction false} OutlinesLayer(rects: seq<Rect>)
    ensures forall c :: c in Outlines(rects) ==> Layer(c) == 1
  {
    if rects != [] {
      OutlinesLayer(rects[1..]);
    }
  }

  lemma {:induction false} HatchLayer(bands: seq<Rect>)
    ensures forall c :: c in HatchCommands(bands) ==> Layer(c) == 2
  {
    if bands != [] {
      HatchLayer(bands[1..]);
      var dots := DotGrid(bands[0].left, bands[0].Right(), bands[0].top, bands[0].Bottom());
      assert forall c :: c in DotFills(dots) ==> c.Fill?;
    }
  }

  /** Three runs of commands on layers 0, 1 and 2, one after the other, are
      in layer order. */
  lemma LayersInOrder(g: seq<Command>, o: seq<Command>, b: seq<Command>)
    requires forall c :: c in g ==> Layer(c) == 0
    requires forall c :: c in o ==> Layer(c) == 1
    requires forall c :: c in b ==> Layer(c) == 2
    ensures var f := g + o + b;
      forall i, j :: 0 <= i < j < |f| ==> Layer(f[i]) <= Layer(f[j])
  {
    var f := g + o + b;
    forall i | 0 <= i < |f|
      ensures Layer(f[i]) == if i < |g| then 0 else if i < |g| + |o| then 1 else 2
    {
      if i < |g| { assert f[i] == g[i]; }
      else if i < |g| + |o| { assert f[i] == o[i - |g|]; }
      else { assert f[i] == b[i - |g| - |o|]; }
    }
  }

  /** Within a frame, no command is painted under one of a lower layer: the
      hovered box model covers the outlines, which cover the guide lines. */
  lemma FrameLayers(selected: seq<Element>, hovered: Option<Hover>, width: real, height: real)
    requires hovered.Some? ==> hovered.value.element.Valid()
    ensures var f := Frame(selected, hovered, width, height);
      forall i, j :: 0 <= i < j < |f| ==> Layer(f[i]) <= Layer(f[j])
  {
    var g := if |selected| > 0 then GuideLines(Bounds(selected), width, height) else [];
    var b := if hovered.Some? then BoxModelCommands(hovered.value.element) else [];
    GuideLinesLayer(Bounds(selected), width, height);
    OutlinesLayer(Fragments(ByPosition(selected)));
    if hovered.Some? {
      var e := hovered.value.element;
      HatchLayer(GapBands(e));
      assert forall c :: c in BandCommands(CorrectedBands(e.bounds, e.item, e.parent, e.style)) ==> c.Fill?;
    }
    LayersInOrder(g, FigmaBoxes(ByPosition(selected)), b);
  }

  /** The redraw effect on the cleared canvas: guide lines and the in-place
      sort when something is selected, the outlines of the (now sorted)
      selection, then the hovered box model. The sort reorders the selection
      itself. */
  method Redraw(selected: array<Element>, hovered: Option<Hover>, width: real, height: real) returns (cmds: seq<Command>)
    requires hovered.Some? ==> hovered.value.element.Valid()
    modifies selected
    ensures selected[..] == ByPosition(old(selected[..]))
    ensures cmds == Frame(old(selected[..]), hovered, width, height)
  {
    cmds := [];
    if selected.Length > 0 {
      cmds := DrawGuideLines(selected[..], width, height);
      DrawMeasurements(selected);
      MeasurementsMatchReference(selected[..], old(selected[..]));
    } else {
      assert selected[..] == [] == old(selected[..]);
    }
    var boxes := DrawFigmaStyleBoxes(selected[..]);
    cmds := cmds + boxes;
    if hovered.Some? {
      var model := DrawBoxModel(hovered.value.element);
      cmds := cmds + model;
    } else {
      assert cmds + [] == cmds;
    }
  }

  // ----- Mouse move and click -----

  /** `a` and `b` are both present and are the same page node. */
  predicate SameNode(a: Option<Element>, b: Option<Element>)
  {
    a.Some? && b.Some? && a.value.id == b.value.id
  }

  /** `handleMouseMove`: the element under the pointer (found with the
      overlay made transparent to the pointer) becomes the hover target unless
      there is none or it is the canvas or the overlay itself. */
  function HoverTarget(target: Option<Element>, canvas: Option<Element>, overlay: Option<Element>,
                       x: real, y: real): (h: Option<Hover>)
    ensures h.Some? <==> target.Some? && !SameNode(target, canvas) && !SameNode(target, overlay)
    ensures h.Some? ==> h.value.element == target.value && h.value.x == x && h.value.y == y
  {
    if target.Some? && !SameNode(target, canvas) && !SameNode(target, overlay) then Some(Hover(target.value, x, y)) else None
  }

  /** The node identities of a selection, in order. */
  function Ids(s: seq<Element>): (ids: seq<nat>)
    ensures |ids| == |s| && forall i :: 0 <= i < |s| ==> ids[i] == s[i].id
  {
    seq(|s|, i requires 0 <= i < |s| => s[i].id)
  }

  lemma IdsConcat(a: seq<Element>, b: seq<Element>)
    ensures Ids(a + b) == Ids(a) + Ids(b)
  {
  }

  /** `prev.filter(el => el !== element)`: the entries that are other nodes, in order. */
  function Remove(s: seq<Element>, id: nat): seq<Element>
  {
    if s == [] then [] else (if s[0].id == id then [] else [s[0]]) + Remove(s[1..], id)
  }

  /** The selection after a click on `e`: the node is removed if
      `prev.includes(e)`, otherwise appended. Nodes are compared by identity,
      not by what was read of them. */
  function Toggle(prev: seq<Element>, e: Element): seq<Element>
  {
    if e.id in Ids(prev) then Remove(prev, e.id) else prev + [e]
  }

  /** `handleClick`: toggles the hovered element, if any, in the selection. */
  function HandleClick(hovered: Option<Hover>, selected: seq<Element>): seq<Element>
  {
    if hovered.Some? then Toggle(selected, hovered.value.element) else selected
  }

  /** No node is selected twice. */
  predicate NoDuplicates(s: seq<Element>)
  {
    forall i, j :: 0 <= i < j < |s| ==> s[i].id != s[j].id
  }

  lemma {:induction false} RemoveMembers(s: seq<Element>, id: nat)
    ensures forall x :: x in Remove(s, id) <==> x in s && x.id != id
    ensures forall k :: k in Ids(Remove(s, id)) <==> k in Ids(s) && k != id
    ensures id !in Ids(s) ==> Remove(s, id) == s
  {
    if s != [] {
      RemoveMembers(s[1..], id);
      var head := if s[0].id == id then [] else [s[0]];
      assert s == [s[0]] + s[1..];
      IdsConcat([s[0]], s[1..]);
      IdsConcat(head, Remove(s[1..], id));
    }
  }

  lemma {:induction false} RemoveNoDuplicates(s: seq<Element>, id: nat)
    requires NoDuplicates(s)
    ensures NoDuplicates(Remove(s, id))
  {
    if s != [] {
      RemoveNoDuplicates(s[1..], id);
      RemoveMembers(s[1..], id);
      var r := Remove(s[1..], id);
      assert s[0].id !in Ids(r) by {
        forall k | 0 <= k < |s[1..]| ensures Ids(s[1..])[k] != s[0].id { assert s[1..][k] == s[k + 1]; }
      }
      var t := (if s[0].id == id then [] else [s[0]]) + r;
      forall i, j | 0 <= i < j < |t| ensures t[i].id != t[j].id {
        if s[0].id != id && i == 0 {
          assert t[j] == r[j - 1] && Ids(r)[j - 1] == t[j].id;
        }
      }
    }
  }

  /** `prev.filter` after appending a node that was not selected gives back
      the selection before it. */
  lemma {:induction false} RemoveAppend(s: seq<Element>, e: Element)
    requires e.id !in Ids(s)
    ensures Remove(s + [e], e.id) == s
  {
    if s == [] {
      assert [e][1..] == [];
    } else {
      var t := s[1..];
      assert (s + [e])[1..] == t + [e];
      assert s[0].id == Ids(s)[0] != e.id;
      assert e.id !in Ids(t) by {
        forall k | 0 <= k < |t| ensures Ids(t)[k] != e.id {
          assert Ids(t)[k] == Ids(s)[k + 1];
        }
      }
      RemoveAppend(t, e);
      assert Remove(s + [e], e.id) == [s[0]] + Remove(t + [e], e.id);
    }
  }

  /** After a toggle, the clicked node is selected exactly when it was not
      before; every other node, and every entry that is another node, stays
      as it was. */
  lemma ToggleMembers(prev: seq<Element>, e: Element)
    ensures forall k :: k in Ids(Toggle(prev, e)) <==> if k == e.id then e.id !in Ids(prev) else k in Ids(prev)
    ensures forall x: Element :: x.id != e.id ==> (x in Toggle(prev, e) <==> x in prev)
  {
    RemoveMembers(prev, e.id);
    IdsConcat(prev, [e]);
    assert Ids([e]) == [e.id];
  }

  /** A selection without duplicate nodes stays without duplicates. */
  lemma ToggleNoDuplicates(prev: seq<Element>, e: Element)
    requires NoDuplicates(prev)
    ensures NoDuplicates(Toggle(prev, e))
  {
    if e.id in Ids(prev) {
      RemoveNoDuplicates(prev, e.id);
    } else {
      var t := prev + [e];
      forall i, j | 0 <= i < j < |t| ensures t[i].id != t[j].id {
        if j == |prev| { assert Ids(prev)[i] == t[i].id; }
      }
    }
  }

  /** Clicking an unselected node twice restores the selection exactly, even
      when the second click reads the node afresh (after a scroll, say);
      clicking a selected one twice keeps the same nodes selected. */
  lemma ToggleTwice(prev: seq<Element>, e: Element, again: Element)
    requires again.id == e.id
    ensures e.id !in Ids(prev) ==> Toggle(Toggle(prev, e), again) == prev
    ensures forall k :: k in Ids(Toggle(Toggle(prev, e), again)) <==> k in Ids(prev)
  {
    ToggleMembers(prev, e);
    ToggleMembers(Toggle(prev, e), again);
    if e.id !in Ids(prev) {
      IdsConcat(prev, [e]);
      assert Ids(prev + [e])[|prev|] == e.id;
      RemoveAppend(prev, e);
    }
  }

  /** A click toggles the hovered node and no other; with nothing hovered the
      selection is unchanged. */
  lemma HandleClickMembers(hovered: Option<Hover>, selected: seq<Element>)
    ensures hovered.None? ==> HandleClick(hovered, selected) == selected
    ensures forall k :: k in Ids(HandleClick(hovered, selected)) <==>
      if hovered.Some? && k == hovered.value.element.id then k !in Ids(selected) else k in Ids(selected)
  {
    if hovered.Some? {
      ToggleMembers(selected, hovered.value.element);
    }
  }

  /** Clicks never select a node twice. */
  lemma HandleClickNoDuplicates(hovered: Option<Hover>, selected: seq<Element>)
    requires NoDuplicates(selected)
    ensures NoDuplicates(HandleClick(hovered, selected))
  {
    if hovered.Some? {
      ToggleNoDuplicates(selected, hovered.value.element);
    }
  }

  /** Two clicks on the same node, each with its own hover reading, restore
      the selection exactly when the node was not selected, and its set of
      nodes in any case. */
  lemma ClickTwice(selected: seq<Element>, first: Hover, second: Hover)
    requires first.element.id == second.element.id
    ensures first.element.id !in Ids(selected) ==>
      HandleClick(Some(second), HandleClick(Some(first), selected)) == selected
    ensures forall k :: k in Ids(HandleClick(Some(second), HandleClick(Some(first), selected))) <==> k in Ids(selected)
  {
    ToggleTwice(selected, first.element, second.element);
  }
}
