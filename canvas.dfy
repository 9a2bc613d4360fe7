/** The drawing commands the detector issues, and the dotted hatching laid over
    every gap band (`drawDottedPattern`, `drawGapRectangle`, `drawFlexGap`). */
module Canvas {
  import opened Geometry

  /** The fill styles the detector uses; colours and alpha are not modelled. */
  datatype Paint = MarginFill | BorderFill | PaddingFill | ContentFill | GapFill | DotFill

  datatype Command =
    | Fill(paint: Paint, rect: Rect)
      /** `strokeRect` with a solid 0.5-wide black line. */
    | Outline(rect: Rect)
      /** A filled black circle (`arc` then `fill`). */
    | Handle(x: real, y: real, radius: real)
      /** A dashed guide line from (x0, y0) to (x1, y1). */
    | DashedLine(x0: real, y0: real, x1: real, y1: real)

  const DotSpacing: real := 3.0
  const DotSize: real := 1.0

  /** Measure for the hatching loops: positive while `from < to`, and it drops
      by three each time `from` advances by `DotSpacing`. */
  function Remaining(from: real, to: real): int
  {
    if from < to then (to - from).Floor + 1 else 0
  }

  /** The number of passes a `for (v = from; v < to; v += DotSpacing)` loop makes. */
  function Steps(from: real, to: real): nat
    decreases Remaining(from, to)
  {
    if from < to then 1 + Steps(from + DotSpacing, to) else 0
  }

  /** Pass `k` happens exactly when `from + k * DotSpacing` is still below `to`. */
  lemma {:induction false} StepsCount(from: real, to: real, k: nat)
    ensures k < Steps(from, to) <==> from + k as real * DotSpacing < to
    decreases k
  {
    if from < to && k > 0 {
      StepsCount(from + DotSpacing, to, k - 1);
    }
  }

  /** The dots of one column of the hatching, top to bottom. */
  function DotColumn(x: real, y: real, yEnd: real): seq<Rect>
    decreases Remaining(y, yEnd)
  {
    if y < yEnd then [Rect(x, y, DotSize, DotSize)] + DotColumn(x, y + DotSpacing, yEnd) else []
  }

  /** The dots of the hatching over [x, xEnd) x [y, yEnd), column by column. */
  function DotGrid(x: real, xEnd: real, y: real, yEnd: real): seq<Rect>
    decreases Remaining(x, xEnd)
  {
    if x < xEnd then DotColumn(x, y, yEnd) + DotGrid(x + DotSpacing, xEnd, y, yEnd) else []
  }

  /** Dot `j` of a column sits `j` spacings below its first dot. */
  lemma {:induction false} DotColumnAt(x: real, y: real, yEnd: real, j: nat)
    requires j < Steps(y, yEnd)
    ensures |DotColumn(x, y, yEnd)| == Steps(y, yEnd)
    ensures DotColumn(x, y, yEnd)[j] == Rect(x, y + j as real * DotSpacing, DotSize, DotSize)
    decreases j
  {
    if j == 0 {
      DotColumnLength(x, y, yEnd);
    } else {
      DotColumnAt(x, y + DotSpacing, yEnd, j - 1);
    }
  }

  lemma {:induction false} DotColumnLength(x: real, y: real, yEnd: real)
    ensures |DotColumn(x, y, yEnd)| == Steps(y, yEnd)
    decreases Remaining(y, yEnd)
  {
    if y < yEnd {
      DotColumnLength(x, y + DotSpacing, yEnd);
    }
  }

  /** The hatching is the full lattice of `Steps(x, xEnd)` columns by
      `Steps(y, yEnd)` rows, spaced `DotSpacing` apart from the band's corner. */
  lemma {:induction false} DotGridAt(x: real, xEnd: real, y: real, yEnd: real, i: nat, j: nat)
    requires i < Steps(x, xEnd) && j < Steps(y, yEnd)
    ensures |DotGrid(x, xEnd, y, yEnd)| == Steps(x, xEnd) * Steps(y, yEnd)
    ensures i * Steps(y, yEnd) + j < |DotGrid(x, xEnd, y, yEnd)|
    ensures DotGrid(x, xEnd, y, yEnd)[i * Steps(y, yEnd) + j]
         == Rect(x + i as real * DotSpacing, y + j as real * DotSpacing, DotSize, DotSize)
    decreases i
  {
    var ny := Steps(y, yEnd);
    var column := DotColumn(x, y, yEnd);
    var rest := DotGrid(x + DotSpacing, xEnd, y, yEnd);
    assert DotGrid(x, xEnd, y, yEnd) == column + rest;
    DotGridLength(x, xEnd, y, yEnd);
    DotColumnLength(x, y, yEnd);
    if i == 0 {
      DotColumnAt(x, y, yEnd, j);
      FirstColumnIndex(Steps(x, xEnd), ny, j);
      assert (column + rest)[j] == column[j];
    } else {
      DotGridAt(x + DotSpacing, xEnd, y, yEnd, i - 1, j);
      var k := (i - 1) * ny + j;
      LaterColumnIndex(i, ny, j);
      assert (column + rest)[ny + k] == rest[k];
    }
  }

  lemma LaterColumnIndex(i: nat, ny: nat, j: nat)
    requires 0 < i
    ensures i * ny + j == ny + ((i - 1) * ny + j) && 0 <= (i - 1) * ny + j
  {
    Distribute(i, ny);
  }

  lemma FirstColumnIndex(nx: nat, ny: nat, j: nat)
    requires 0 < nx && j < ny
    ensures 0 * ny + j == j < nx * ny
  {
    Distribute(nx, ny);
  }

  lemma Distribute(a: nat, b: nat)
    requires a > 0
    ensures a * b == b + (a - 1) * b && (a - 1) * b >= 0
  {
  }

  lemma {:induction false} DotGridLength(x: real, xEnd: real, y: real, yEnd: real)
    ensures |DotGrid(x, xEnd, y, yEnd)| == Steps(x, xEnd) * Steps(y, yEnd)
    decreases Remaining(x, xEnd)
  {
    DotColumnLength(x, y, yEnd);
    if x < xEnd {
      DotGridLength(x + DotSpacing, xEnd, y, yEnd);
      Distribute(Steps(x, xEnd), Steps(y, yEnd));
    }
  }

  /** Every dot is a 1x1 square whose corner lies inside the band it hatches. */
  lemma {:induction false} DotGridInside(x: real, xEnd: real, y: real, yEnd: real)
    ensures forall d :: d in DotGrid(x, xEnd, y, yEnd) ==>
      d.width == DotSize && d.height == DotSize && x <= d.left < xEnd && y <= d.top < yEnd
    decreases Remaining(x, xEnd)
  {
    if x < xEnd {
      DotColumnInside(x, y, yEnd);
      DotGridInside(x + DotSpacing, xEnd, y, yEnd);
    }
  }

  lemma {:induction false} DotColumnInside(x: real, y: real, yEnd: real)
    ensures forall d :: d in DotColumn(x, y, yEnd) ==>
      d.width == DotSize && d.height == DotSize && d.left == x && y <= d.top < yEnd
    decreases Remaining(y, yEnd)
  {
    if y < yEnd {
      DotColumnInside(x, y + DotSpacing, yEnd);
    }
  }

  /** `drawDottedPattern`: the nested loops fill one dot per lattice point. */
  method DottedPattern(startX: real, endX: real, startY: real, endY: real) returns (dots: seq<Rect>)
    ensures dots == DotGrid(startX, endX, startY, endY)
  {
    dots := [];
    var x := startX;
    while x < endX
      invariant dots + DotGrid(x, endX, startY, endY) == DotGrid(startX, endX, startY, endY)
      decreases Remaining(x, endX)
    {
      ghost var later := DotGrid(x + DotSpacing, endX, startY, endY);
      assert DotGrid(x, endX, startY, endY) == DotColumn(x, startY, endY) + later;
      Associate(dots, DotColumn(x, startY, endY), later);
      var y := startY;
      while y < endY
        invariant dots + DotColumn(x, y, endY) + later == DotGrid(startX, endX, startY, endY)
        decreases Remaining(y, endY)
      {
        var dot := Rect(x, y, DotSize, DotSize);
        ghost var below := DotColumn(x, y + DotSpacing, endY);
        assert DotColumn(x, y, endY) == [dot] + below;
        Associate(dots, [dot], below);
        dots := dots + [dot];
        y := y + DotSpacing;
      }
      assert DotColumn(x, y, endY) == [];
      assert dots + [] == dots;
      x := x + DotSpacing;
    }
    assert DotGrid(x, endX, startY, endY) == [];
    assert dots + [] == dots;
  }

  function DotFills(dots: seq<Rect>): (cs: seq<Command>)
    ensures |cs| == |dots| && forall i :: 0 <= i < |dots| ==> cs[i] == Fill(DotFill, dots[i])
  {
    seq(|dots|, i requires 0 <= i < |dots| => Fill(DotFill, dots[i]))
  }

  /** What drawing one gap band issues (`drawGapRectangle` for grids,
      `drawFlexGap` for flex containers): the translucent fill, then the dots. */
  function GapCommands(band: Rect): seq<Command>
  {
    [Fill(GapFill, band)] + DotFills(DotGrid(band.left, band.Right(), band.top, band.Bottom()))
  }

  function HatchCommands(bands: seq<Rect>): seq<Command>
  {
    if bands == [] then [] else GapCommands(bands[0]) + HatchCommands(bands[1..])
  }

  /** Every band contributes its gap fill, and every gap fill is one of the bands. */
  lemma {:induction false} HatchGapFills(bands: seq<Rect>)
    ensures |HatchCommands(bands)| >= |bands|
    ensures forall c :: c in HatchCommands(bands) && c.Fill? && c.paint == GapFill ==> c.rect in bands
    ensures forall b :: b in bands ==> Fill(GapFill, b) in HatchCommands(bands)
  {
    if bands != [] {
      HatchGapFills(bands[1..]);
      var dots := DotGrid(bands[0].left, bands[0].Right(), bands[0].top, bands[0].Bottom());
      assert forall c :: c in DotFills(dots) ==> c.paint == DotFill;
      assert HatchCommands(bands) == GapCommands(bands[0]) + HatchCommands(bands[1..]);
    }
  }

  /** Draws each band and its hatching in turn. */
  method DrawGapBands(bands: seq<Rect>) returns (cmds: seq<Command>)
    ensures cmds == HatchCommands(bands)
  {
    cmds := [];
    var i := 0;
    while i < |bands|
      invariant 0 <= i <= |bands|
      invariant cmds + HatchCommands(bands[i..]) == HatchCommands(bands)
    {
      var b := bands[i];
      var dots := DottedPattern(b.left, b.left + b.width, b.top, b.top + b.height);
      assert bands[i..][1..] == bands[i + 1..];
      assert HatchCommands(bands[i..]) == GapCommands(b) + HatchCommands(bands[i + 1..]);
      assert GapCommands(b) == [Fill(GapFill, b)] + DotFills(dots);
      ghost var before := cmds;
      cmds := cmds + ([Fill(GapFill, b)] + DotFills(dots));
      assert cmds + HatchCommands(bands[i + 1..]) == before + HatchCommands(bands[i..]);
      i := i + 1;
    }
  }
}
