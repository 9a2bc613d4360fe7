/** Gap detection for a `display: grid` container (`drawGridGaps`): the edges of
    every track and gutter along each axis (`getTrackPositions`), then one band
    per gutter wide enough to draw. */
module GridGaps {
  import opened Geometry

  // ----- Track positions (getTrackPositions) -----

  /** The positions along one axis: the start, then for each track its far
      edge, and between two tracks the far edge of the gutter as well; the
      running position is pushed once more at the end. With no track the start
      appears twice. */
  function TrackPositions(tracks: seq<real>, gap: real, start: real): seq<real>
  {
    if tracks == [] then [start, start]
    else if |tracks| == 1 then [start, start + tracks[0]]
    else [start, start + tracks[0]] + TrackPositions(tracks[1..], gap, start + tracks[0] + gap)
  }

  /** Two positions per track (two in all without tracks); consecutive
      positions alternate between a track's size and the gap, starting at
      `start`. */
  lemma {:induction false} TrackPositionsLayout(tracks: seq<real>, gap: real, start: real)
    ensures var p := TrackPositions(tracks, gap, start);
      && |p| == (if tracks == [] then 2 else 2 * |tracks|)
      && p[0] == start
      && (forall k :: 0 <= k < |tracks| ==> p[2 * k + 1] - p[2 * k] == tracks[k])
      && (forall k :: 0 <= k < |tracks| - 1 ==> p[2 * k + 2] - p[2 * k + 1] == gap)
  {
    if |tracks| > 1 {
      var next := start + tracks[0] + gap;
      TrackPositionsLayout(tracks[1..], gap, next);
      var p := TrackPositions(tracks, gap, start);
      var q := TrackPositions(tracks[1..], gap, next);
      assert p == [start, start + tracks[0]] + q;
      forall k | 1 <= k < |tracks|
        ensures p[2 * k + 1] - p[2 * k] == tracks[k]
      {
        assert p[2 * k + 1] == q[2 * (k - 1) + 1] && p[2 * k] == q[2 * (k - 1)];
        assert tracks[1..][k - 1] == tracks[k];
      }
      forall k | 0 <= k < |tracks| - 1
        ensures p[2 * k + 2] - p[2 * k + 1] == gap
      {
        if k > 0 {
          assert p[2 * k + 2] == q[2 * (k - 1) + 2] && p[2 * k + 1] == q[2 * (k - 1) + 1];
        }
      }
    }
  }

  /** `getTrackPositions`: the `forEach` over the tracks that pushes each
      track's far edge and, before the next track, the gutter's far edge. */
  method GetTrackPositions(tracks: seq<real>, gap: real, start: real) returns (positions: seq<real>)
    ensures positions == TrackPositions(tracks, gap, start)
  {
    positions := [start];
    var currentPosition := start;
    var index := 0;
    while index < |tracks|
      invariant 0 <= index <= |tracks|
      invariant positions + TrackPositions(tracks[index..], gap, currentPosition)[1..]
             == TrackPositions(tracks, gap, start)
    {
      var rest := tracks[index..];
      assert rest[0] == tracks[index];
      currentPosition := currentPosition + tracks[index];
      if index < |tracks| - 1 {
        assert rest[1..] == tracks[index + 1..];
        ghost var next := TrackPositions(tracks[index + 1..], gap, currentPosition + gap);
        TrackPositionsLayout(tracks[index + 1..], gap, currentPosition + gap);
        assert next == [currentPosition + gap] + next[1..];
        positions := positions + [currentPosition];
        currentPosition := currentPosition + gap;
        positions := positions + [currentPosition];
      } else {
        assert tracks[index + 1..] == [];
      }
      index := index + 1;
    }
    assert tracks[index..] == [];
    positions := positions + [currentPosition];
  }

  // ----- Gutter bands -----

  /** The band for the gutter between positions `from` and `to`: across the
      whole parent, columns top to bottom and rows left to right; drawn only
      when at least `MinGap` wide. */
  function Gutter(from: real, to: real, parent: Rect, isColumn: bool): (band: Option<Rect>)
    ensures band.Some? <==> to - from >= MinGap
    ensures band.Some? && isColumn ==>
      band.value.left == from && band.value.Right() == to
      && band.value.top == parent.top && band.value.height == parent.height
    ensures band.Some? && !isColumn ==>
      band.value.top == from && band.value.Bottom() == to
      && band.value.left == parent.left && band.value.width == parent.width
  {
    if to - from < MinGap then None
    else if isColumn then Some(Rect(from, parent.top, to - from, parent.height))
    else Some(Rect(parent.left, from, parent.width, to - from))
  }

  /** The bands for the pairs (p[1], p[2]), (p[3], p[4]), ... of the positions. */
  function Gutters(p: seq<real>, parent: Rect, isColumn: bool): seq<Rect>
  {
    if |p| < 3 then []
    else OptionToSeq(Gutter(p[1], p[2], parent, isColumn)) + Gutters(p[2..], parent, isColumn)
  }

  lemma GuttersUnfold(p: seq<real>, i: int, parent: Rect, isColumn: bool)
    requires 1 <= i < |p| - 1
    ensures Gutters(p[i - 1..], parent, isColumn)
         == OptionToSeq(Gutter(p[i], p[i + 1], parent, isColumn)) + Gutters(p[i + 1..], parent, isColumn)
  {
    assert p[i - 1..][2..] == p[i + 1..];
  }

  /** The `for (i = 1; i < positions.length - 1; i += 2)` loop. */
  method GutterBands(positions: seq<real>, parent: Rect, isColumn: bool) returns (bands: seq<Rect>)
    ensures bands == Gutters(positions, parent, isColumn)
  {
    bands := [];
    var i := 1;
    while i < |positions| - 1
      invariant 1 <= i <= |positions| + 1
      invariant bands + Gutters(positions[i - 1..], parent, isColumn) == Gutters(positions, parent, isColumn)
    {
      var from := positions[i];
      var to := positions[i + 1];
      ghost var band := OptionToSeq(Gutter(from, to, parent, isColumn));
      ghost var later := Gutters(positions[i + 1..], parent, isColumn);
      GuttersUnfold(positions, i, parent, isColumn);
      Associate(bands, band, later);
      if to - from >= MinGap {
        bands := bands + [if isColumn then Rect(from, parent.top, to - from, parent.height)
                          else Rect(parent.left, from, parent.width, to - from)];
      } else {
        assert bands + band == bands;
      }
      i := i + 2;
    }
    assert Gutters(positions[i - 1..], parent, isColumn) == [];
    assert bands + [] == bands;
  }

  /** Over the positions of `n` tracks, the gutters are exactly the `n - 1`
      gaps between consecutive tracks when the gap is at least `MinGap`, and
      there are none otherwise. */
  lemma {:induction false} GuttersOfTracks(tracks: seq<real>, gap: real, start: real, parent: Rect, isColumn: bool)
    ensures var g := Gutters(TrackPositions(tracks, gap, start), parent, isColumn);
      && |g| == (if gap >= MinGap && |tracks| >= 2 then |tracks| - 1 else 0)
      && (forall b :: b in g ==> (if isColumn then b.width else b.height) == gap)
  {
    if |tracks| >= 2 {
      var next := start + tracks[0] + gap;
      var p := TrackPositions(tracks, gap, start);
      var q := TrackPositions(tracks[1..], gap, next);
      TrackPositionsLayout(tracks[1..], gap, next);
      assert q == [next] + q[1..];
      assert p == [start, start + tracks[0]] + q;
      assert p[1] == start + tracks[0] && p[2] == next;
      assert p[2..] == q;
      GuttersOfTracks(tracks[1..], gap, next, parent, isColumn);
      assert Gutters(p, parent, isColumn)
          == OptionToSeq(Gutter(start + tracks[0], next, parent, isColumn)) + Gutters(q, parent, isColumn);
    }
  }

  /** `band` covers the gutter from `from` to `to` across the whole parent:
      top to bottom for a column gutter, left to right for a row gutter. */
  predicate Spans(band: Rect, from: real, to: real, parent: Rect, isColumn: bool)
  {
    if isColumn then
      band.left == from && band.Right() == to && band.top == parent.top && band.height == parent.height
    else
      band.top == from && band.Bottom() == to && band.left == parent.left && band.width == parent.width
  }

  /** When every gutter of the positions is wide enough, band k is the gutter
      from p[2k+1] to p[2k+2], across the whole parent. */
  lemma {:induction false} GuttersPlaced(p: seq<real>, parent: Rect, isColumn: bool)
    requires forall k :: 0 <= k && 2 * k + 2 < |p| ==> p[2 * k + 2] - p[2 * k + 1] >= MinGap
    ensures |Gutters(p, parent, isColumn)| == if |p| < 3 then 0 else (|p| - 1) / 2
    ensures forall k :: 0 <= k < |Gutters(p, parent, isColumn)| ==>
      2 * k + 2 < |p| && Spans(Gutters(p, parent, isColumn)[k], p[2 * k + 1], p[2 * k + 2], parent, isColumn)
    decreases |p|
  {
    if |p| >= 3 {
      var q := p[2..];
      forall k | 0 <= k && 2 * k + 2 < |q| ensures q[2 * k + 2] - q[2 * k + 1] >= MinGap {
        assert q[2 * k + 2] == p[2 * (k + 1) + 2] && q[2 * k + 1] == p[2 * (k + 1) + 1];
      }
      GuttersPlaced(q, parent, isColumn);
      assert p[2 * 0 + 2] - p[2 * 0 + 1] >= MinGap;
      var head := Gutter(p[1], p[2], parent, isColumn);
      var g := Gutters(p, parent, isColumn);
      var rest := Gutters(q, parent, isColumn);
      assert g == [head.value] + rest;
      forall k | 1 <= k < |g|
        ensures 2 * k + 2 < |p| && Spans(g[k], p[2 * k + 1], p[2 * k + 2], parent, isColumn)
      {
        assert g[k] == rest[k - 1];
        assert q[2 * (k - 1) + 1] == p[2 * k + 1] && q[2 * (k - 1) + 2] == p[2 * k + 2];
      }
    }
  }

  /** Band k of `g` runs from the far edge p[2k+1] of track k (which starts at
      p[2k]) to p[2k+2], where track k + 1 starts, and spans the whole parent. */
  predicate BetweenTracks(tracks: seq<real>, p: seq<real>, g: seq<Rect>, parent: Rect, isColumn: bool)
  {
    forall k :: 0 <= k < |g| ==>
      k + 1 < |tracks| && 2 * k + 2 < |p|
      && p[2 * k + 1] - p[2 * k] == tracks[k]
      && Spans(g[k], p[2 * k + 1], p[2 * k + 2], parent, isColumn)
  }

  /** Over the positions of the tracks, with a gap of at least `MinGap`, there
      is one gutter band between each two consecutive tracks, lying between
      them and spanning the whole parent. */
  lemma GuttersBetweenTracks(tracks: seq<real>, gap: real, start: real, parent: Rect, isColumn: bool)
    requires gap >= MinGap
    ensures |Gutters(TrackPositions(tracks, gap, start), parent, isColumn)|
         == if |tracks| >= 2 then |tracks| - 1 else 0
    ensures BetweenTracks(tracks, TrackPositions(tracks, gap, start),
                          Gutters(TrackPositions(tracks, gap, start), parent, isColumn), parent, isColumn)
  {
    var p := TrackPositions(tracks, gap, start);
    TrackPositionsLayout(tracks, gap, start);
    GuttersPlaced(p, parent, isColumn);
    GuttersOfTracks(tracks, gap, start, parent, isColumn);
  }

  // ----- The whole routine -----

  /** `parseFloat(gap) || 0`: a gap that does not parse (such as "normal") is 0. */
  function GapOrZero(parsed: Option<real>): (g: real)
    ensures parsed.None? ==> g == 0.0
    ensures parsed.Some? ==> g == parsed.value
  {
    if parsed.Some? then parsed.value else 0.0
  }

  /** What `drawGridGaps` reads of the container: its border-box rectangle, its
      column and row track sizes, and its parsed column and row gaps. */
  datatype GridStyle = GridStyle(columnTracks: seq<real>, rowTracks: seq<real>,
                                 columnGap: Option<real>, rowGap: Option<real>)

  /** Every band `drawGridGaps` draws: the column gutters left to right, then
      the row gutters top to bottom. Positions start at the border-box edges. */
  function GridGapBands(parent: Rect, style: GridStyle): seq<Rect>
  {
    Gutters(TrackPositions(style.columnTracks, GapOrZero(style.columnGap), parent.left), parent, true)
    + Gutters(TrackPositions(style.rowTracks, GapOrZero(style.rowGap), parent.top), parent, false)
  }

  /** A grid of `c` columns and `r` rows draws `c - 1` column and `r - 1` row
      bands when both gaps are at least `MinGap` wide, each as wide as its gap. */
  lemma GridGapBandsCount(parent: Rect, style: GridStyle)
    requires |style.columnTracks| >= 1 && |style.rowTracks| >= 1
    requires GapOrZero(style.columnGap) >= MinGap && GapOrZero(style.rowGap) >= MinGap
    ensures |GridGapBands(parent, style)| == |style.columnTracks| - 1 + |style.rowTracks| - 1
  {
    GuttersOfTracks(style.columnTracks, GapOrZero(style.columnGap), parent.left, parent, true);
    GuttersOfTracks(style.rowTracks, GapOrZero(style.rowGap), parent.top, parent, false);
  }

  /** Gaps that do not parse or are under `MinGap` give no band at all. */
  lemma NoGapNoBands(parent: Rect, style: GridStyle)
    requires GapOrZero(style.columnGap) < MinGap && GapOrZero(style.rowGap) < MinGap
    ensures GridGapBands(parent, style) == []
  {
    GuttersOfTracks(style.columnTracks, GapOrZero(style.columnGap), parent.left, parent, true);
    GuttersOfTracks(style.rowTracks, GapOrZero(style.rowGap), parent.top, parent, false);
  }

  /** `drawGridGaps`: the track positions along both axes, then the column and
      the row gutter loops. */
  method DrawGridGaps(parent: Rect, style: GridStyle) returns (bands: seq<Rect>)
    ensures bands == GridGapBands(parent, style)
  {
    var columnGap := GapOrZero(style.columnGap);
    var rowGap := GapOrZero(style.rowGap);
    var columnPositions := GetTrackPositions(style.columnTracks, columnGap, parent.left);
    var rowPositions := GetTrackPositions(style.rowTracks, rowGap, parent.top);
    var columnBands := GutterBands(columnPositions, parent, true);
    var rowBands := GutterBands(rowPositions, parent, false);
    bands := columnBands + rowBands;
  }

  /** Two 100-wide columns and two 100-high rows 10 apart: one column band at
      [100, 110) from the left edge, full height, and one row band at
      [100, 110) from the top edge, full width. */
  lemma TwoByTwo(x: real, y: real)
    ensures GridGapBands(Rect(x, y, 210.0, 210.0),
                         GridStyle([100.0, 100.0], [100.0, 100.0], Some(10.0), Some(10.0)))
         == [Rect(x + 100.0, y, 10.0, 210.0), Rect(x, y + 100.0, 210.0, 10.0)]
  {
    var parent := Rect(x, y, 210.0, 210.0);
    var tracks := [100.0, 100.0];
    assert tracks[1..] == [100.0];
    var cols := TrackPositions(tracks, 10.0, x);
    assert TrackPositions(tracks[1..], 10.0, x + 110.0) == [x + 110.0, x + 210.0];
    assert cols == [x, x + 100.0, x + 110.0, x + 210.0];
    assert cols[2..] == [x + 110.0, x + 210.0];
    assert Gutters(cols, parent, true) == [Rect(x + 100.0, y, 10.0, 210.0)];
    var rows := TrackPositions(tracks, 10.0, y);
    assert TrackPositions(tracks[1..], 10.0, y + 110.0) == [y + 110.0, y + 210.0];
    assert rows == [y, y + 100.0, y + 110.0, y + 210.0];
    assert rows[2..] == [y + 110.0, y + 210.0];
    assert Gutters(rows, parent, false) == [Rect(x, y + 100.0, 210.0, 10.0)];
  }
}
