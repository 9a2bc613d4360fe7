/** Gap detection for a `display: flex` container (`drawFlexboxGaps`): bands
    between wrapped lines, between consecutive items, and after the last item. */
module FlexGaps {
  import opened Geometry
  import opened FlexOrder

  // ----- Axes -----

  /** `flexDirection.includes("row")`: "row" and "row-reverse" lay items out
      along x, everything else along y. */
  function IsRowDirection(flexDirection: string): bool
  {
    HasInfix(flexDirection, "row")
  }

  predicate HasInfix(s: string, p: string)
    decreases |s|
  {
    |p| <= |s| && (s[..|p|] == p || HasInfix(s[1..], p))
  }

  /** Both row values of `flex-direction` lay items out horizontally. */
  lemma RowDirections()
    ensures IsRowDirection("row") && IsRowDirection("row-reverse")
  {
    assert "row-reverse"[..3] == "row";
  }

  /** Neither column value of `flex-direction` does. */
  lemma ColumnDirections()
    ensures !IsRowDirection("column") && !IsRowDirection("column-reverse")
  {
    assert !IsRowDirection("column") by { NoInfix("column", "row"); }
    assert !IsRowDirection("column-reverse") by { NoInfix("column-reverse", "row"); }
  }

  /** A pattern whose first two characters never occur together in `s` is
      not in `s`. */
  lemma {:induction false} NoInfix(s: string, p: string)
    requires |p| >= 2
    requires forall i :: 0 <= i < |s| - 1 ==> s[i] != p[0] || s[i + 1] != p[1]
    ensures !HasInfix(s, p)
    decreases |s|
  {
    if |p| <= |s| {
      assert s[..|p|][0] == s[0] && s[..|p|][1] == s[1];
      NoInfix(s[1..], p);
    }
  }

  /** The cross-axis edges (top/bottom for rows, left/right for columns) and
      the main-axis edges (left/right for rows, top/bottom for columns). */
  function CrossStart(r: Rect, isRow: bool): real { if isRow then r.top else r.left }

  function CrossEnd(r: Rect, isRow: bool): real { if isRow then r.Bottom() else r.Right() }

  function MainStart(r: Rect, isRow: bool): real { if isRow then r.left else r.top }

  function MainEnd(r: Rect, isRow: bool): real { if isRow then r.Right() else r.Bottom() }

  /** The cross-axis edge lines are grouped by. */
  function Edge(c: Child, isRow: bool): real { CrossStart(c.rect, isRow) }

  // ----- Wrap lines (groupIntoLines) -----

  /** The first index from `j` on whose edge is more than one unit from `e`,
      or the length of `items` when there is none. */
  function FirstOutside(items: seq<Child>, isRow: bool, e: real, j: nat): (k: nat)
    requires j <= |items|
    ensures j <= k <= |items|
    ensures forall m :: j <= m < k ==> Abs(Edge(items[m], isRow) - e) <= 1.0
    ensures k < |items| ==> Abs(Edge(items[k], isRow) - e) > 1.0
    decreases |items| - j
  {
    if j == |items| || Abs(Edge(items[j], isRow) - e) > 1.0 then j
    else FirstOutside(items, isRow, e, j + 1)
  }

  predicate AllNonEmpty(lines: seq<seq<Child>>)
  {
    forall i :: 0 <= i < |lines| ==> lines[i] != []
  }

  /** The wrap lines: the first line is the longest run of items whose edge is
      within one unit of the first item's; the rest are grouped the same way. */
  function Lines(items: seq<Child>, isRow: bool): seq<seq<Child>>
    decreases |items|
  {
    if items == [] then []
    else
      var k := FirstOutside(items, isRow, Edge(items[0], isRow), 1);
      [items[..k]] + Lines(items[k..], isRow)
  }

  /** No line is empty, there are no more lines than items, and the first
      line starts with the first item. */
  lemma {:induction false} LinesShape(items: seq<Child>, isRow: bool)
    ensures AllNonEmpty(Lines(items, isRow))
    ensures |Lines(items, isRow)| <= |items|
    ensures items != [] ==> Lines(items, isRow) != [] && Lines(items, isRow)[0][0] == items[0]
    decreases |items|
  {
    if items != [] {
      var k := FirstOutside(items, isRow, Edge(items[0], isRow), 1);
      LinesShape(items[k..], isRow);
    }
  }

  function Flatten(lines: seq<seq<Child>>): seq<Child>
  {
    if lines == [] then [] else lines[0] + Flatten(lines[1..])
  }

  /** Every item of `line` is within one unit of the line's first item. */
  predicate WithinTolerance(line: seq<Child>, isRow: bool)
    requires line != []
  {
    forall m :: 0 <= m < |line| ==> Abs(Edge(line[m], isRow) - Edge(line[0], isRow)) <= 1.0
  }

  /** Concatenating the lines gives back the items, in order. */
  lemma {:induction false} LinesFlatten(items: seq<Child>, isRow: bool)
    ensures Flatten(Lines(items, isRow)) == items
    decreases |items|
  {
    if items != [] {
      var k := FirstOutside(items, isRow, Edge(items[0], isRow), 1);
      LinesFlatten(items[k..], isRow);
      var lines := Lines(items, isRow);
      assert lines == [items[..k]] + Lines(items[k..], isRow);
      assert lines[1..] == Lines(items[k..], isRow);
      assert items == items[..k] + items[k..];
    }
  }

  /** Every item is within one unit of its line's first item, and each line
      starts more than one unit away from the previous line's first item. */
  lemma {:induction false} LinesTolerance(items: seq<Child>, isRow: bool)
    ensures AllNonEmpty(Lines(items, isRow))
    ensures forall i :: 0 <= i < |Lines(items, isRow)| ==> WithinTolerance(Lines(items, isRow)[i], isRow)
    ensures forall i :: 0 < i < |Lines(items, isRow)| ==>
      Abs(Edge(Lines(items, isRow)[i][0], isRow) - Edge(Lines(items, isRow)[i - 1][0], isRow)) > 1.0
    decreases |items|
  {
    LinesShape(items, isRow);
    if items != [] {
      var k := FirstOutside(items, isRow, Edge(items[0], isRow), 1);
      var rest := Lines(items[k..], isRow);
      LinesTolerance(items[k..], isRow);
      LinesShape(items[k..], isRow);
      var lines := Lines(items, isRow);
      assert lines == [items[..k]] + rest;
      forall i | 0 < i < |lines|
        ensures WithinTolerance(lines[i], isRow)
        ensures Abs(Edge(lines[i][0], isRow) - Edge(lines[i - 1][0], isRow)) > 1.0
      {
        assert lines[i] == rest[i - 1];
        if i == 1 {
          assert rest[0][0] == items[k];
        } else {
          assert lines[i - 1] == rest[i - 2];
        }
      }
    }
  }

  lemma {:induction false} FirstOutsideIs(items: seq<Child>, isRow: bool, e: real, j: nat, k: nat)
    requires j <= k <= |items|
    requires forall m :: j <= m < k ==> Abs(Edge(items[m], isRow) - e) <= 1.0
    requires k < |items| ==> Abs(Edge(items[k], isRow) - e) > 1.0
    ensures FirstOutside(items, isRow, e, j) == k
    decreases k - j
  {
    if j < k {
      FirstOutsideIs(items, isRow, e, j + 1, k);
    }
  }

  /** A finished line followed by an item far enough away starts a new line. */
  lemma LinesSplit(line: seq<Child>, rest: seq<Child>, isRow: bool)
    requires line != [] && WithinTolerance(line, isRow)
    requires rest != [] ==> Abs(Edge(rest[0], isRow) - Edge(line[0], isRow)) > 1.0
    ensures Lines(line + rest, isRow) == [line] + Lines(rest, isRow)
  {
    var items := line + rest;
    FirstOutsideIs(items, isRow, Edge(items[0], isRow), 1, |line|);
    assert items[..|line|] == line && items[|line|..] == rest;
  }

  /** An item more than one unit from the current line's first item closes
      that line; the lines still to come start with the item. */
  lemma CloseLine(done: seq<seq<Child>>, line: seq<Child>, item: Child, rest: seq<Child>, isRow: bool)
    requires line != [] && WithinTolerance(line, isRow)
    requires Abs(Edge(item, isRow) - Edge(line[0], isRow)) > 1.0
    ensures (done + [line]) + Lines([item] + rest, isRow) == done + Lines(line + ([item] + rest), isRow)
  {
    LinesSplit(line, [item] + rest, isRow);
  }

  /** An item within one unit of the current line's first item joins it. */
  lemma JoinLine(line: seq<Child>, item: Child, rest: seq<Child>, isRow: bool)
    requires line != [] && WithinTolerance(line, isRow)
    requires Abs(Edge(item, isRow) - Edge(line[0], isRow)) <= 1.0
    ensures WithinTolerance(line + [item], isRow)
    ensures (line + [item]) + rest == line + ([item] + rest)
  {
    assert forall m :: 0 <= m < |line| ==> (line + [item])[m] == line[m];
  }

  /** The state of the grouping loop before item `i`: nothing read yet, or the
      closed lines followed by the lines of the current line and the unread
      items make up the lines of all the items. */
  ghost predicate Grouping(items: seq<Child>, isRow: bool, i: int,
                           lines: seq<seq<Child>>, line: seq<Child>, edge: real)
  {
    && 0 <= i <= |items| && items != []
    && (i == 0 ==> line == [] && lines == [] && edge == Edge(items[0], isRow))
    && (i > 0 ==> line != [] && edge == Edge(line[0], isRow) && WithinTolerance(line, isRow)
                  && lines + Lines(line + items[i..], isRow) == Lines(items, isRow))
  }

  /** Reading item `i` when it is more than one unit from the current line's
      reference edge closes that line and starts a new one with the item. */
  lemma GroupClose(items: seq<Child>, isRow: bool, i: int, lines: seq<seq<Child>>, line: seq<Child>, edge: real)
    requires Grouping(items, isRow, i, lines, line, edge) && i < |items|
    requires Abs(Edge(items[i], isRow) - edge) > 1.0
    ensures Grouping(items, isRow, i + 1, lines + [line], [] + [items[i]], Edge(items[i], isRow))
  {
    var rest := items[i + 1..];
    assert items[i..] == [items[i]] + rest;
    CloseLine(lines, line, items[i], rest, isRow);
    assert [] + [items[i]] == [items[i]];
  }

  /** Reading item `i` when it is within one unit of the current line's
      reference edge (always the case for the first item) adds it to the line. */
  lemma GroupJoin(items: seq<Child>, isRow: bool, i: int, lines: seq<seq<Child>>, line: seq<Child>, edge: real)
    requires Grouping(items, isRow, i, lines, line, edge) && i < |items|
    requires Abs(Edge(items[i], isRow) - edge) <= 1.0
    ensures Grouping(items, isRow, i + 1, lines, line + [items[i]], edge)
  {
    var rest := items[i + 1..];
    assert items[i..] == [items[i]] + rest;
    if i > 0 {
      JoinLine(line, items[i], rest, isRow);
    } else {
      assert items[i..] == items && line + [items[i]] == [items[i]];
    }
  }

  /** Once every item is read, the current line is the last line. */
  lemma GroupDone(items: seq<Child>, isRow: bool, lines: seq<seq<Child>>, line: seq<Child>, edge: real)
    requires Grouping(items, isRow, |items|, lines, line, edge)
    ensures lines + [line] == Lines(items, isRow)
  {
    LinesSplit(line, [], isRow);
    assert line + items[|items|..] == line + [] == line;
  }

  /** `groupIntoLines`: one pass that closes the current line whenever an item's
      edge is more than one unit from the line's reference edge. The caller
      only ever passes a non-empty list (it reads `rects[0]`). */
  method GroupIntoLines(items: seq<Child>, isRow: bool) returns (lines: seq<seq<Child>>)
    requires |items| > 0
    ensures lines == Lines(items, isRow)
  {
    lines := [];
    var currentLine: seq<Child> := [];
    var currentEdge := Edge(items[0], isRow);
    var i := 0;
    while i < |items|
      invariant Grouping(items, isRow, i, lines, currentLine, currentEdge)
    {
      var item := items[i];
      var edge := Edge(item, isRow);
      if Abs(edge - currentEdge) > 1.0 {
        GroupClose(items, isRow, i, lines, currentLine, currentEdge);
        lines := lines + [currentLine];
        currentLine := [];
        currentEdge := edge;
      } else {
        GroupJoin(items, isRow, i, lines, currentLine, currentEdge);
      }
      currentLine := currentLine + [item];
      i := i + 1;
    }
    GroupDone(items, isRow, lines, currentLine, currentEdge);
    lines := lines + [currentLine];
  }

  // ----- Bands between wrapped lines -----

  /** `Math.max` of the trailing cross edges of a non-empty line. */
  function MaxCrossEnd(line: seq<Child>, isRow: bool): real
    requires line != []
  {
    if |line| == 1 then CrossEnd(line[0].rect, isRow)
    else Max(CrossEnd(line[0].rect, isRow), MaxCrossEnd(line[1..], isRow))
  }

  /** `Math.min` of the leading cross edges of a non-empty line. */
  function MinCrossStart(line: seq<Child>, isRow: bool): real
    requires line != []
  {
    if |line| == 1 then CrossStart(line[0].rect, isRow)
    else Min(CrossStart(line[0].rect, isRow), MinCrossStart(line[1..], isRow))
  }

  /** The maximum is reached by an item of the line and bounds all of them. */
  lemma {:induction false} MaxCrossEndIsMax(line: seq<Child>, isRow: bool)
    requires line != []
    ensures forall c :: c in line ==> CrossEnd(c.rect, isRow) <= MaxCrossEnd(line, isRow)
    ensures exists c :: c in line && CrossEnd(c.rect, isRow) == MaxCrossEnd(line, isRow)
  {
    if |line| > 1 {
      MaxCrossEndIsMax(line[1..], isRow);
      assert forall c :: c in line ==> c == line[0] || c in line[1..];
      var c :| c in line[1..] && CrossEnd(c.rect, isRow) == MaxCrossEnd(line[1..], isRow);
      assert c in line;
    } else {
      assert line[0] in line;
    }
  }

  /** The minimum is reached by an item of the line and bounds all of them. */
  lemma {:induction false} MinCrossStartIsMin(line: seq<Child>, isRow: bool)
    requires line != []
    ensures forall c :: c in line ==> MinCrossStart(line, isRow) <= CrossStart(c.rect, isRow)
    ensures exists c :: c in line && CrossStart(c.rect, isRow) == MinCrossStart(line, isRow)
  {
    if |line| > 1 {
      MinCrossStartIsMin(line[1..], isRow);
      assert forall c :: c in line ==> c == line[0] || c in line[1..];
      var c :| c in line[1..] && CrossStart(c.rect, isRow) == MinCrossStart(line[1..], isRow);
      assert c in line;
    } else {
      assert line[0] in line;
    }
  }

  /** The band between two consecutive lines: from the furthest trailing edge
      of the first to the nearest leading edge of the second, across the whole
      parent; drawn only when at least `MinGap` thick. */
  function LineGap(line: seq<Child>, next: seq<Child>, parent: Rect, isRow: bool): (band: Option<Rect>)
    requires line != [] && next != []
    ensures band.Some? <==> MinCrossStart(next, isRow) - MaxCrossEnd(line, isRow) >= MinGap
    ensures band.Some? ==>
      && CrossStart(band.value, isRow) == MaxCrossEnd(line, isRow)
      && CrossEnd(band.value, isRow) == MinCrossStart(next, isRow)
      && MainStart(band.value, isRow) == MainStart(parent, isRow)
      && MainEnd(band.value, isRow) == MainEnd(parent, isRow)
  {
    var start := MaxCrossEnd(line, isRow);
    var end := MinCrossStart(next, isRow);
    if end - start >= MinGap then
      Some(if isRow then Rect(parent.left, start, parent.width, end - start)
           else Rect(start, parent.top, end - start, parent.height))
    else None
  }

  /** A line band overlaps no item of either line it separates. */
  lemma LineGapClear(line: seq<Child>, next: seq<Child>, parent: Rect, isRow: bool)
    requires line != [] && next != [] && LineGap(line, next, parent, isRow).Some?
    ensures var band := LineGap(line, next, parent, isRow).value;
      && (forall c :: c in line ==> CrossEnd(c.rect, isRow) <= CrossStart(band, isRow))
      && (forall c :: c in next ==> CrossEnd(band, isRow) <= CrossStart(c.rect, isRow))
      && CrossEnd(band, isRow) - CrossStart(band, isRow) >= MinGap
  {
    MaxCrossEndIsMax(line, isRow);
    MinCrossStartIsMin(next, isRow);
  }

  /** The line bands for every pair of consecutive lines, in order. */
  function LineGaps(lines: seq<seq<Child>>, parent: Rect, isRow: bool): seq<Rect>
    requires AllNonEmpty(lines)
  {
    if |lines| < 2 then []
    else OptionToSeq(LineGap(lines[0], lines[1], parent, isRow)) + LineGaps(lines[1..], parent, isRow)
  }

  /** At most one band per pair of consecutive lines, each separating some such pair. */
  lemma {:induction false} LineGapsFromPairs(lines: seq<seq<Child>>, parent: Rect, isRow: bool)
    requires AllNonEmpty(lines)
    ensures |LineGaps(lines, parent, isRow)| <= if |lines| < 2 then 0 else |lines| - 1
    ensures forall b :: b in LineGaps(lines, parent, isRow) ==>
      exists i :: 0 <= i < |lines| - 1 && LineGap(lines[i], lines[i + 1], parent, isRow) == Some(b)
  {
    if |lines| >= 2 {
      LineGapsFromPairs(lines[1..], parent, isRow);
      forall b | b in LineGaps(lines[1..], parent, isRow)
        ensures exists i :: 0 <= i < |lines| - 1 && LineGap(lines[i], lines[i + 1], parent, isRow) == Some(b)
      {
        var i :| 0 <= i < |lines| - 2 && LineGap(lines[1..][i], lines[1..][i + 1], parent, isRow) == Some(b);
        assert LineGap(lines[i + 1], lines[i + 2], parent, isRow) == Some(b);
      }
    }
  }

  lemma LineGapsUnfold(lines: seq<seq<Child>>, index: int, parent: Rect, isRow: bool)
    requires AllNonEmpty(lines) && 0 <= index < |lines| - 1
    ensures LineGaps(lines[index..], parent, isRow)
         == OptionToSeq(LineGap(lines[index], lines[index + 1], parent, isRow)) + LineGaps(lines[index + 1..], parent, isRow)
  {
    assert lines[index..][1..] == lines[index + 1..];
  }

  /** The `lines.forEach` loop that draws the band between each line and the next. */
  method LineGapBands(lines: seq<seq<Child>>, parent: Rect, isRow: bool) returns (bands: seq<Rect>)
    requires AllNonEmpty(lines)
    ensures bands == LineGaps(lines, parent, isRow)
  {
    bands := [];
    var index := 0;
    while index < |lines|
      invariant 0 <= index <= |lines|
      invariant bands + LineGaps(lines[index..], parent, isRow) == LineGaps(lines, parent, isRow)
    {
      if index < |lines| - 1 {
        var line := lines[index];
        var start := MaxCrossEnd(line, isRow);
        var end := MinCrossStart(lines[index + 1], isRow);
        ghost var band := OptionToSeq(LineGap(line, lines[index + 1], parent, isRow));
        ghost var later := LineGaps(lines[index + 1..], parent, isRow);
        LineGapsUnfold(lines, index, parent, isRow);
        Associate(bands, band, later);
        if end - start >= MinGap {
          bands := bands + [if isRow then Rect(parent.left, start, parent.width, end - start)
                            else Rect(start, parent.top, end - start, parent.height)];
        } else {
          assert bands + band == bands;
        }
      } else {
        assert lines[index..] == [lines[index]];
        assert lines[index + 1..] == [];
      }
      index := index + 1;
    }
    assert bands + [] == bands;
  }

  // ----- Bands between consecutive items -----

  /** The band between an item and the next one in sorted order: from the
      first's trailing main edge to the second's leading one, across the union
      of their cross extents; drawn only when at least `MinGap` wide. */
  function ItemGap(cur: Rect, next: Rect, isRow: bool): (band: Option<Rect>)
    ensures band.Some? <==> MainStart(next, isRow) - MainEnd(cur, isRow) >= MinGap
    ensures band.Some? ==>
      && MainStart(band.value, isRow) == MainEnd(cur, isRow)
      && MainEnd(band.value, isRow) == MainStart(next, isRow)
      && CrossStart(band.value, isRow) == Min(CrossStart(cur, isRow), CrossStart(next, isRow))
      && CrossEnd(band.value, isRow) == Max(CrossEnd(cur, isRow), CrossEnd(next, isRow))
  {
    if isRow then
      var gap := next.left - cur.Right();
      var gapStart := Min(cur.top, next.top);
      var gapEnd := Max(cur.Bottom(), next.Bottom());
      if gap >= MinGap then Some(Rect(cur.Right(), gapStart, gap, gapEnd - gapStart)) else None
    else
      var gap := next.top - cur.Bottom();
      var gapStart := Min(cur.left, next.left);
      var gapEnd := Max(cur.Right(), next.Right());
      if gap >= MinGap then Some(Rect(gapStart, cur.Bottom(), gapEnd - gapStart, gap)) else None
  }

  /** The item bands for every pair of consecutive items, in order. */
  function ItemGaps(items: seq<Child>, isRow: bool): seq<Rect>
  {
    if |items| < 2 then []
    else OptionToSeq(ItemGap(items[0].rect, items[1].rect, isRow)) + ItemGaps(items[1..], isRow)
  }

  lemma ItemGapsUnfold(items: seq<Child>, i: int, isRow: bool)
    requires 0 <= i < |items| - 1
    ensures ItemGaps(items[i..], isRow)
         == OptionToSeq(ItemGap(items[i].rect, items[i + 1].rect, isRow)) + ItemGaps(items[i + 1..], isRow)
  {
    assert items[i..][1..] == items[i + 1..];
  }

  /** The `for` loop over consecutive pairs of the sorted children. */
  method ItemGapBands(items: seq<Child>, isRow: bool) returns (bands: seq<Rect>)
    ensures bands == ItemGaps(items, isRow)
  {
    bands := [];
    var i := 0;
    while i < |items| - 1
      invariant 0 <= i <= |items|
      invariant bands + ItemGaps(items[i..], isRow) == ItemGaps(items, isRow)
    {
      var currentRect := items[i].rect;
      var nextRect := items[i + 1].rect;
      ghost var band := OptionToSeq(ItemGap(currentRect, nextRect, isRow));
      ghost var later := ItemGaps(items[i + 1..], isRow);
      ItemGapsUnfold(items, i, isRow);
      Associate(bands, band, later);
      var gap, gapStart, gapEnd;
      if isRow {
        gap := nextRect.left - currentRect.Right();
        gapStart := Min(currentRect.top, nextRect.top);
        gapEnd := Max(currentRect.Bottom(), nextRect.Bottom());
      } else {
        gap := nextRect.top - currentRect.Bottom();
        gapStart := Min(currentRect.left, nextRect.left);
        gapEnd := Max(currentRect.Right(), nextRect.Right());
      }
      if gap >= MinGap {
        bands := bands + [Rect(if isRow then currentRect.Right() else gapStart,
                               if isRow then gapStart else currentRect.Bottom(),
                               if isRow then gap else gapEnd - gapStart,
                               if isRow then gapEnd - gapStart else gap)];
      } else {
        assert bands + band == bands;
      }
      i := i + 1;
    }
    assert ItemGaps(items[i..], isRow) == [];
    assert bands + [] == bands;
  }

  /** Items evenly spaced `g >= MinGap` apart give exactly one band per
      consecutive pair, each `g` wide and starting where the earlier item ends. */
  lemma {:induction false} UniformGaps(items: seq<Child>, isRow: bool, g: real)
    requires g >= MinGap
    requires forall i :: 0 <= i < |items| - 1 ==>
      MainStart(items[i + 1].rect, isRow) - MainEnd(items[i].rect, isRow) == g
    ensures |ItemGaps(items, isRow)| == if items == [] then 0 else |items| - 1
    ensures forall i :: 0 <= i < |items| - 1 ==>
      && MainStart(ItemGaps(items, isRow)[i], isRow) == MainEnd(items[i].rect, isRow)
      && MainEnd(ItemGaps(items, isRow)[i], isRow) - MainStart(ItemGaps(items, isRow)[i], isRow) == g
  {
    if |items| >= 2 {
      UniformGaps(items[1..], isRow, g);
      var rest := ItemGaps(items[1..], isRow);
      assert ItemGaps(items, isRow) == [ItemGap(items[0].rect, items[1].rect, isRow).value] + rest;
      forall i | 1 <= i < |items| - 1
        ensures MainStart(ItemGaps(items, isRow)[i], isRow) == MainEnd(items[i].rect, isRow)
      {
        assert ItemGaps(items, isRow)[i] == rest[i - 1];
        assert items[1..][i - 1] == items[i];
      }
    }
  }

  /** Consecutive items that touch, overlap or sit less than `MinGap` apart
      produce no band; when no pair is far enough apart there are none at all. */
  lemma {:induction false} CloseItemsNoGaps(items: seq<Child>, isRow: bool)
    requires forall i :: 0 <= i < |items| - 1 ==>
      MainStart(items[i + 1].rect, isRow) - MainEnd(items[i].rect, isRow) < MinGap
    ensures ItemGaps(items, isRow) == []
  {
    if |items| >= 2 {
      CloseItemsNoGaps(items[1..], isRow);
    }
  }

  /** At most one band per consecutive pair. */
  lemma {:induction false} ItemGapsBound(items: seq<Child>, isRow: bool)
    ensures |ItemGaps(items, isRow)| <= if items == [] then 0 else |items| - 1
  {
    if |items| >= 2 {
      ItemGapsBound(items[1..], isRow);
    }
  }

  // ----- Band after the last item -----

  /** The band from the last item's trailing main edge to the parent's,
      across the last item's own cross extent only. */
  function TrailingGap(last: Rect, parent: Rect, isRow: bool): (band: Option<Rect>)
    ensures band.Some? <==> MainEnd(parent, isRow) - MainEnd(last, isRow) >= MinGap
    ensures band.Some? ==>
      && MainStart(band.value, isRow) == MainEnd(last, isRow)
      && MainEnd(band.value, isRow) == MainEnd(parent, isRow)
      && CrossStart(band.value, isRow) == CrossStart(last, isRow)
      && CrossEnd(band.value, isRow) == CrossEnd(last, isRow)
  {
    if isRow then
      var endGap := parent.Right() - last.Right();
      if endGap >= MinGap then Some(Rect(last.Right(), last.top, endGap, last.Bottom() - last.top)) else None
    else
      var endGap := parent.Bottom() - last.Bottom();
      if endGap >= MinGap then Some(Rect(last.left, last.Bottom(), last.Right() - last.left, endGap)) else None
  }

  // ----- The whole routine -----

  /** Every band `drawFlexboxGaps` draws for children already in sorted order:
      line bands when `flex-wrap` is exactly "wrap", then item bands, then the
      trailing band. */
  function FlexGapBands(sorted: seq<Child>, parent: Rect, isRow: bool, isWrap: bool): seq<Rect>
    requires sorted != []
  {
    LinesShape(sorted, isRow);
    (if isWrap then LineGaps(Lines(sorted, isRow), parent, isRow) else [])
    + ItemGaps(sorted, isRow)
    + OptionToSeq(TrailingGap(sorted[|sorted| - 1].rect, parent, isRow))
  }

  /** Without wrapping, n items give at most n bands: at most n - 1 between
      items and at most one after the last. */
  lemma FlexGapBandsBound(sorted: seq<Child>, parent: Rect, isRow: bool)
    requires sorted != []
    ensures |FlexGapBands(sorted, parent, isRow, false)| <= |sorted|
  {
    ItemGapsBound(sorted, isRow);
  }

  /** `drawFlexboxGaps`: sorts the children in place by `order`, then computes
      the bands. The caller only calls it for a container with children. */
  method DrawFlexboxGaps(childRects: array<Child>, parent: Rect, flexDirection: string, flexWrap: string)
    returns (bands: seq<Rect>)
    requires childRects.Length > 0
    modifies childRects
    ensures IsStableSortOf(childRects[..], old(childRects[..]))
    ensures bands == FlexGapBands(childRects[..], parent, IsRowDirection(flexDirection), flexWrap == "wrap")
  {
    var isRow := IsRowDirection(flexDirection);
    var isWrap := flexWrap == "wrap";
    SortByOrder(childRects);
    var sorted := childRects[..];
    bands := [];
    if isWrap {
      var lines := GroupIntoLines(sorted, isRow);
      LinesShape(sorted, isRow);
      bands := LineGapBands(lines, parent, isRow);
    }
    var itemBands := ItemGapBands(sorted, isRow);
    bands := bands + itemBands;
    var lastRect := sorted[|sorted| - 1].rect;
    var trailing := TrailingGap(lastRect, parent, isRow);
    if trailing.Some? {
      bands := bands + [trailing.value];
    }
  }

  /** Three 100-wide items 10 apart from the parent's left edge in a 330-wide
      row: item bands at [100, 110) and [210, 220) from that edge, and, since
      the last item ends at 320, a trailing band over [320, 330). */
  lemma ThreeItemRow(x: real, y: real, h: real)
    ensures var items := [Child(Rect(x, y, 100.0, h), 0), Child(Rect(x + 110.0, y, 100.0, h), 0),
                          Child(Rect(x + 220.0, y, 100.0, h), 0)];
      FlexGapBands(items, Rect(x, y, 330.0, h), true, false)
        == [Rect(x + 100.0, y, 10.0, h), Rect(x + 210.0, y, 10.0, h), Rect(x + 320.0, y, 10.0, h)]
  {
    var items := [Child(Rect(x, y, 100.0, h), 0), Child(Rect(x + 110.0, y, 100.0, h), 0),
                  Child(Rect(x + 220.0, y, 100.0, h), 0)];
    var first := ItemGap(items[0].rect, items[1].rect, true);
    var second := ItemGap(items[1].rect, items[2].rect, true);
    assert first == Some(Rect(x + 100.0, y, 10.0, h));
    assert second == Some(Rect(x + 210.0, y, 10.0, h));
    assert items[1..][1..] == [items[2]];
    assert ItemGaps(items[1..], true) == [second.value] + ItemGaps([items[2]], true);
    assert ItemGaps(items, true) == [first.value] + ItemGaps(items[1..], true);
    assert TrailingGap(items[2].rect, Rect(x, y, 330.0, h), true) == Some(Rect(x + 320.0, y, 10.0, h));
  }
}
