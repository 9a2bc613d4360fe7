# Canvas element detector: geometry model

A Dafny model of the geometry engine of `src/CanvasElementDetector.js`, a React
component that overlays a box-model and layout-gap inspector on a page. Given
the rectangles and computed styles the page reports, the engine decides what
to paint on its canvas:

- the margin, border, padding and content bands of the hovered element
  (`drawBoxModel`), with the content band moved and resized for flex items
  (`getFlexItemDimensions`);
- for a hovered flex container, bands between wrapped lines, between
  consecutive items in `order`, and after the last item (`drawFlexboxGaps`,
  with `groupIntoLines` and the stable sort by `order`);
- for a hovered grid container, one band per column or row gutter
  (`drawGridGaps`, `getTrackPositions`);
- dotted hatching over every gap band (`drawDottedPattern`);
- outlines with corner handles for every client rectangle of the selected
  elements (`drawFigmaStyleBoxes`, `drawSingleRect`), and dashed guide lines
  along their edges (`drawGuideLines`);
- the hover target on mouse move and the selection toggled on click;
- one redraw: guide lines, then outlines, then the hovered box model.

Drawing is modelled as the sequence of canvas commands issued (`Canvas.Command`):
fills, outlines, corner handles and dashed lines. Coordinates are `real`.
`parseInt` on box-model lengths is modelled explicitly as truncation toward zero
(`Geometry.ParseIntPx`). The `parseFloat` values (flex margins, `flex-basis`,
grid tracks and gaps) come in already parsed.

Modules, one per file:

- `geometry.dfy` (`Geometry`): rectangles, per-side lengths, `parseInt`, `Option`.
- `canvas.dfy` (`Canvas`): drawing commands, the dotted hatching, gap bands.
- `box_model.dfy` (`BoxModel`): the band strips, flex content placement, the finding below.
- `flex_sort.dfy` (`FlexOrder`): children with `order`, and the in-place stable sort.
- `flex_gaps.dfy` (`FlexGaps`): wrap lines, line, item and trailing bands.
- `grid_gaps.dfy` (`GridGaps`): track positions and gutter bands.
- `overlay.dfy` (`Overlay`): guide lines, outlines, `drawBoxModel`, the redraw, hover and click.

Behaviour worth knowing before reading the contracts:

- Three 100-wide items 10 apart in a 330-wide row get a trailing band over
  [320, 330), because the last item ends at 320 (`FlexGaps.ThreeItemRow`).
- Grid track positions start at the container's border-box edges
  (`getBoundingClientRect`), not at its content-box origin.
- The trailing flex band runs to the parent's border-box edge.
- The outlines of a redraw follow the selection sorted top to bottom, then
  left to right, by `drawMeasurements`, which reorders the selection itself;
  the guide lines, drawn before the sort, follow the selection as it was.
- The selection holds page nodes and compares them by identity
  (`Overlay.Element.id`), so a node read afresh after a scroll is still the
  same node.

## Model

| member | source | states |
|---|---|---|
| Geometry.ParseIntPx | src/CanvasElementDetector.js:199-218 | `parseInt` of a length keeps its integer part, truncating toward zero on both signs |
| Geometry.WholePixels | src/CanvasElementDetector.js:199-218 | for non-negative lengths, each parsed side is non-negative, at most the computed length and less than one pixel below it |
| Canvas.StepsCount | src/CanvasElementDetector.js:493-494 | a `v = from; v < to; v += 3` loop makes pass k exactly when from + 3k < to |
| Canvas.DotColumnLength | src/CanvasElementDetector.js:494-496 | one column of hatching has one dot per pass of the inner loop |
| Canvas.DotColumnAt | src/CanvasElementDetector.js:494-496 | dot j of a column is the 1x1 square j spacings below the first |
| Canvas.DotGridLength | src/CanvasElementDetector.js:493-497 | the hatching has (column passes) x (row passes) dots |
| Canvas.DotGridAt | src/CanvasElementDetector.js:488-498 | the hatching is the full lattice: dot (i, j) sits at (startX + 3i, startY + 3j) and has size 1 |
| Canvas.DotGridInside | src/CanvasElementDetector.js:488-498 | every dot is a 1x1 square whose corner lies inside the band it hatches |
| Canvas.DotColumnInside | src/CanvasElementDetector.js:494-496 | every dot of a column sits on the column's abscissa, inside the band's height |
| Canvas.DottedPattern | src/CanvasElementDetector.js:488-498 | the nested loops emit exactly the lattice of dots, column by column |
| Canvas.DotFills | src/CanvasElementDetector.js:489-495 | each dot becomes one black fill, in order |
| Canvas.GapCommands | src/CanvasElementDetector.js:481-486 | one gap band's translucent fill followed by its dots; Canvas.DotGridAt and Canvas.DotGridInside state the dots, Canvas.HatchGapFills the fills |
| Canvas.HatchGapFills | src/CanvasElementDetector.js:481-486 | every gap band gets a translucent fill, and every translucent fill is one of the bands |
| Canvas.DrawGapBands | src/CanvasElementDetector.js:315-319 | drawing the bands in turn issues, per band, its fill followed by its dots |
| BoxModel.OutsideStripsTile | src/CanvasElementDetector.js:221-235 | the four margin strips paint every point between the border box and the margin box exactly once, and nothing else |
| BoxModel.OutsideStripsArea | src/CanvasElementDetector.js:221-235 | the strips' areas add up to the margin box's area less the border box's |
| BoxModel.InsideStripsTile | src/CanvasElementDetector.js:254-274 | the four padding strips paint every point of the rectangle outside its inset exactly once, when the insets fit |
| BoxModel.InsideStripsArea | src/CanvasElementDetector.js:254-274 | the strips' areas add up to the rectangle's area less the inset's |
| BoxModel.ContentPlacement | src/CanvasElementDetector.js:151-193 | per effective alignment: flex-start keeps the top margin from the parent's top, flex-end the bottom margin from its bottom, center equal room above and below, stretch (named or inherited) fills the parent less the margins, other values keep the top; `flex-basis` other than auto and 0 sets the height; outside a flex parent the element's own box |
| BoxModel.StaticContentIsContentBox | src/CanvasElementDetector.js:276-285 | outside a flex parent the content band is the border box shrunk by the border and then by the padding |
| BoxModel.EffectiveAlign | src/CanvasElementDetector.js:169 | `align-self` unless it is "auto", else the parent's `align-items`; its cases are stated by BoxModel.ContentPlacement |
| BoxModel.BoxModelBands | src/CanvasElementDetector.js:199-286 | the margin, border, padding and content bands as written; BoxModel.BandsAsLaidOut states where each lies and BoxModel.AsWrittenBandsOverlapAndGap what goes wrong |
| BoxModel.BandsAsLaidOut | src/CanvasElementDetector.js:221-274 | as written, margin and border strips both ring the outside of the element's box, and padding strips ring the inside of the box itself |
| BoxModel.AsWrittenBandsOverlapAndGap | src/CanvasElementDetector.js:237-285 | a 100x100 box with 5px sides: a point left of the box is painted by both margin and border, a point inside it by no band |
| BoxModel.CorrectedBandsTile | src/CanvasElementDetector.js:221-285 | with the border band inside the border box and the padding band inside that, the bands paint every point of the margin box exactly once |
| FlexOrder.OrderValue | src/CanvasElementDetector.js:294 | an `order` that does not parse counts as 0 |
| FlexOrder.ChildEntries | src/CanvasElementDetector.js:292-295 | one entry per child, holding its rectangle and its parsed `order` |
| FlexOrder.SortByOrder | src/CanvasElementDetector.js:313 | the in-place sort leaves the children sorted by `order`, each `order` class in its original sequence |
| FlexOrder.InsertAt | src/CanvasElementDetector.js:313 | one insertion pass grows the sorted prefix by one child, leaves the children after it in place, and keeps every same-`order` subsequence |
| FlexOrder.StableSortIsStable | src/CanvasElementDetector.js:313 | the reference insertion sort is a stable sort by `order` |
| FlexOrder.StableSortUnique | src/CanvasElementDetector.js:313 | any two stable sorts of the same children are equal |
| FlexOrder.SameKeysSameSorted | src/CanvasElementDetector.js:313 | two sequences sorted by `order` with the same children per `order` are equal |
| FlexOrder.SortByOrderMatchesReference | src/CanvasElementDetector.js:313 | the array after the in-place sort is the reference stable sort of its old contents |
| FlexGaps.IsRowDirection | src/CanvasElementDetector.js:309 | the main axis is horizontal exactly when `flex-direction` contains "row" |
| FlexGaps.RowDirections | src/CanvasElementDetector.js:309 | "row" and "row-reverse" lay items out horizontally |
| FlexGaps.ColumnDirections | src/CanvasElementDetector.js:309 | "column" and "column-reverse" do not |
| FlexGaps.Lines | src/CanvasElementDetector.js:321-339 | the wrap lines of the items; FlexGaps.LinesShape, FlexGaps.LinesFlatten and FlexGaps.LinesTolerance pin them down |
| FlexGaps.FirstOutside | src/CanvasElementDetector.js:326-333 | the first later item whose edge is more than 1 from the line's edge; all items before it are within 1 |
| FlexGaps.LinesShape | src/CanvasElementDetector.js:321-339 | no line is empty, there are at most as many lines as items, the first line starts with the first item |
| FlexGaps.LinesFlatten | src/CanvasElementDetector.js:321-339 | the lines concatenated give back the items in order |
| FlexGaps.LinesTolerance | src/CanvasElementDetector.js:326-333 | every item is within 1 of its line's first item, and each line starts more than 1 from the previous line's first item |
| FlexGaps.LinesSplit | src/CanvasElementDetector.js:328-332 | a finished line followed by a far item starts a new line |
| FlexGaps.CloseLine | src/CanvasElementDetector.js:328-332 | pushing the current line and restarting at a far item preserves the grouping |
| FlexGaps.JoinLine | src/CanvasElementDetector.js:334 | an item within 1 of the line's first item keeps the line within tolerance |
| FlexGaps.GroupClose | src/CanvasElementDetector.js:327-334 | reading a far item closes the line and starts the next one with it, keeping the loop state |
| FlexGaps.GroupJoin | src/CanvasElementDetector.js:327-334 | reading a near item (always the first) adds it to the current line, keeping the loop state |
| FlexGaps.GroupDone | src/CanvasElementDetector.js:335-338 | after the last item, pushing the current line completes the lines |
| FlexGaps.GroupIntoLines | src/CanvasElementDetector.js:321-339 | the one-pass loop returns exactly the wrap lines of the items |
| FlexGaps.MaxCrossEndIsMax | src/CanvasElementDetector.js:346-348 | the line's trailing edge is reached by one of its items and bounds all of them |
| FlexGaps.MinCrossStartIsMin | src/CanvasElementDetector.js:349-351 | the next line's leading edge is reached by one of its items and bounds all of them |
| FlexGaps.LineGap | src/CanvasElementDetector.js:345-361 | a band exists exactly when the gap is at least 1; it spans from the line's trailing edge to the next line's leading edge, across the whole parent |
| FlexGaps.LineGapClear | src/CanvasElementDetector.js:345-361 | a line band overlaps no item of either line and is at least 1 thick |
| FlexGaps.LineGapsFromPairs | src/CanvasElementDetector.js:344-362 | at most one band per pair of consecutive lines, and each band separates such a pair |
| FlexGaps.LineGapBands | src/CanvasElementDetector.js:341-362 | the `forEach` over the lines emits exactly the line bands, in order |
| FlexGaps.ItemGap | src/CanvasElementDetector.js:365-390 | a band exists exactly when the gap is at least 1; it spans between the two items along the main axis and over the union of their cross extents |
| FlexGaps.ItemGapBands | src/CanvasElementDetector.js:365-390 | the pair loop emits exactly the item bands, in order |
| FlexGaps.UniformGaps | src/CanvasElementDetector.js:365-390 | n items evenly spaced g >= 1 apart give n - 1 bands, each g wide, starting where the earlier item ends |
| FlexGaps.CloseItemsNoGaps | src/CanvasElementDetector.js:365-390 | items that touch, overlap or sit under 1 apart give no item band |
| FlexGaps.ItemGapsBound | src/CanvasElementDetector.js:365-390 | at most one item band per consecutive pair |
| FlexGaps.TrailingGap | src/CanvasElementDetector.js:392-414 | a band exists exactly when the last item ends at least 1 before the parent's edge; it fills that space over the last item's own cross extent |
| FlexGaps.FlexGapBands | src/CanvasElementDetector.js:308-414 | line bands when wrapping, item bands and the trailing band, over the sorted children; FlexGaps.FlexGapBandsBound bounds them and FlexGaps.DrawFlexboxGaps computes them |
| FlexGaps.FlexGapBandsBound | src/CanvasElementDetector.js:365-414 | without wrapping, n items give at most n bands |
| FlexGaps.DrawFlexboxGaps | src/CanvasElementDetector.js:308-414 | sorts the children stably by `order`, then emits line bands (only for `flex-wrap: wrap`), item bands and the trailing band |
| FlexGaps.ThreeItemRow | src/CanvasElementDetector.js:365-414 | three 100-wide items 10 apart in a 330-wide row give bands at [100, 110), [210, 220) and [320, 330) |
| GridGaps.TrackPositions | src/CanvasElementDetector.js:428-441 | the near and far edge of every track; GridGaps.TrackPositionsLayout states their layout |
| GridGaps.TrackPositionsLayout | src/CanvasElementDetector.js:428-441 | two positions per track; they alternate track size and gap from the start |
| GridGaps.GetTrackPositions | src/CanvasElementDetector.js:428-441 | the `forEach` builds exactly the track positions |
| GridGaps.Gutter | src/CanvasElementDetector.js:451-477 | a band exists exactly when the gutter is at least 1 wide; column bands span the parent's height, row bands its width |
| GridGaps.GuttersUnfold | src/CanvasElementDetector.js:451-453 | the loop at odd index i handles the pair (p[i], p[i+1]) and moves on two positions |
| GridGaps.GutterBands | src/CanvasElementDetector.js:450-478 | the `i += 2` loops emit exactly one band per wide enough gutter, in order |
| GridGaps.GuttersOfTracks | src/CanvasElementDetector.js:428-478 | n tracks give n - 1 bands, each as wide as the gap, when the gap is at least 1, and none otherwise |
| GridGaps.GuttersPlaced | src/CanvasElementDetector.js:450-478 | when every gutter is at least 1 wide, band k runs from position 2k+1 to position 2k+2 across the whole parent, one band per gutter |
| GridGaps.GuttersBetweenTracks | src/CanvasElementDetector.js:428-478 | with a gap of at least 1, n tracks give n - 1 bands; band k starts at the far edge of track k, ends where track k + 1 starts, and spans the parent's full height (columns) or width (rows) |
| GridGaps.GapOrZero | src/CanvasElementDetector.js:424-425 | a gap that does not parse counts as 0 |
| GridGaps.GridGapBands | src/CanvasElementDetector.js:416-479 | the column gutters, then the row gutters, from the container's border-box origin; GridGaps.GridGapBandsCount and GridGaps.NoGapNoBands state how many |
| GridGaps.GridGapBandsCount | src/CanvasElementDetector.js:416-479 | c columns and r rows with both gaps at least 1 give c - 1 + r - 1 bands |
| GridGaps.NoGapNoBands | src/CanvasElementDetector.js:416-479 | gaps under 1 or unparsed give no band at all |
| GridGaps.DrawGridGaps | src/CanvasElementDetector.js:416-479 | emits the column gutter bands, then the row gutter bands |
| GridGaps.TwoByTwo | src/CanvasElementDetector.js:416-479 | a 2x2 grid of 100-unit tracks with 10-unit gaps gives one full-height column band and one full-width row band at [100, 110) |
| Overlay.Snap | src/CanvasElementDetector.js:78-98 | a guide line sits on a pixel centre within half a pixel of its edge |
| Overlay.EdgeGuides | src/CanvasElementDetector.js:77-98 | the four dashed lines of one element; Overlay.EdgeGuidesNear states where they run |
| Overlay.EdgeGuidesNear | src/CanvasElementDetector.js:77-99 | a rectangle's four guides run across the canvas at its top and bottom and down it at its left and right |
| Overlay.GuideLinesLayout | src/CanvasElementDetector.js:69-101 | four guides per selected element, in selection order |
| Overlay.DrawGuideLines | src/CanvasElementDetector.js:69-101 | the `forEach` emits exactly the guides of every selected element |
| Overlay.Bounds | src/CanvasElementDetector.js:75 | one bounding rectangle per element, in order |
| Overlay.SingleRect | src/CanvasElementDetector.js:127-149 | one rectangle's outline and handles; Overlay.SingleRectCorners states them |
| Overlay.SingleRectCorners | src/CanvasElementDetector.js:127-149 | one outline of the rectangle, then a handle of radius 1.5 on each of its corners and nowhere else |
| Overlay.OutlinesLayout | src/CanvasElementDetector.js:113-125 | five commands per client rectangle, the outlines being exactly those rectangles |
| Overlay.OutlinesConcat | src/CanvasElementDetector.js:114-119 | the outlines of two runs of rectangles are the outlines of each in turn |
| Overlay.DrawFigmaStyleBoxes | src/CanvasElementDetector.js:113-125 | the element loop and the client-rectangle loop emit exactly the outlines of every fragment, in order |
| Overlay.GapBands | src/CanvasElementDetector.js:288-305 | the flex bands over the children stably sorted by `order`, or the grid bands, for a container with children; none otherwise; Overlay.BoxModelLayout states how they are painted |
| Overlay.BoxModelCommands | src/CanvasElementDetector.js:195-306 | what the box model paints, with the corrected border and padding bands; Overlay.BoxModelLayout states it |
| Overlay.BoxModelLayout | src/CanvasElementDetector.js:195-306 | thirteen band fills first, those of the corrected bands (see Findings); the remaining gap fills are exactly the gap bands; nothing more unless the element is a flex or grid container with children |
| Overlay.DrawBoxModel | src/CanvasElementDetector.js:195-306 | paints the corrected bands (see Findings), then the gap bands of the flex routine over the stably sorted children, or of the grid routine |
| Overlay.Precedes | src/CanvasElementDetector.js:105-110 | the comparator: higher bounding box first, then further left |
| Overlay.DrawMeasurements | src/CanvasElementDetector.js:103-111 | the in-place sort leaves the selection sorted by position, elements at the same position in their original order |
| Overlay.MoveIntoPlace | src/CanvasElementDetector.js:105 | one insertion pass grows the sorted prefix by one element, leaves the elements after it in place, and keeps every same-position subsequence |
| Overlay.ByPosition | src/CanvasElementDetector.js:103-111 | a reference stable sort by position; Overlay.ByPositionIsStable states it |
| Overlay.ByPositionIsStable | src/CanvasElementDetector.js:103-111 | the reference sort is sorted by position, keeps elements at one position in order, and is a permutation of the selection |
| Overlay.SamePlacesSameSorted | src/CanvasElementDetector.js:103-111 | two position-sorted selections with the same elements at every position, in the same order, are equal |
| Overlay.MeasurementsMatchReference | src/CanvasElementDetector.js:103-111 | the selection after the in-place sort is the reference sort of its old contents |
| Overlay.Frame | src/CanvasElementDetector.js:41-52 | one frame: guide lines in selection order, outlines of the selection sorted by position, the hovered box model with the corrected bands (see Findings); Overlay.FrameLayers states its layering and Overlay.Redraw computes it |
| Overlay.LayersInOrder | src/CanvasElementDetector.js:41-52 | guide lines, outlines and fills issued one run after the other are in layer order |
| Overlay.GuideLinesLayer | src/CanvasElementDetector.js:69-101 | guide lines are only dashed lines |
| Overlay.OutlinesLayer | src/CanvasElementDetector.js:113-149 | outline boxes are only outlines and handles |
| Overlay.HatchLayer | src/CanvasElementDetector.js:481-498 | gap bands and hatching are only fills |
| Overlay.FrameLayers | src/CanvasElementDetector.js:41-52 | in a redraw, no command is painted under one of a lower layer: box model over outlines over guide lines |
| Overlay.Redraw | src/CanvasElementDetector.js:41-52 | guide lines when something is selected, then the in-place sort of the selection by position, the outlines of the sorted selection, then the hovered box model with corrected bands (see Findings); the selection is left sorted |
| Overlay.HoverTarget | src/CanvasElementDetector.js:508-522 | something is hovered exactly when the element under the pointer exists and is neither the canvas node nor the overlay node; it records the pointer position |
| Overlay.Remove | src/CanvasElementDetector.js:531 | the filter by node identity; Overlay.RemoveMembers states what it keeps |
| Overlay.Toggle | src/CanvasElementDetector.js:528-534 | the state updater: removes the node if selected, else appends it; Overlay.ToggleMembers, Overlay.ToggleNoDuplicates and Overlay.ToggleTwice state it |
| Overlay.HandleClick | src/CanvasElementDetector.js:525-537 | toggles the hovered node, if any; Overlay.HandleClickMembers, Overlay.HandleClickNoDuplicates and Overlay.ClickTwice state it |
| Overlay.RemoveMembers | src/CanvasElementDetector.js:531 | the filter keeps exactly the entries that are other nodes, and every such node |
| Overlay.RemoveNoDuplicates | src/CanvasElementDetector.js:531 | filtering keeps a selection free of repeated nodes |
| Overlay.RemoveAppend | src/CanvasElementDetector.js:531-533 | filtering out a node just appended gives back the selection before it |
| Overlay.ToggleMembers | src/CanvasElementDetector.js:528-534 | after a click the node is selected exactly when it was not; every other node keeps its state |
| Overlay.ToggleNoDuplicates | src/CanvasElementDetector.js:528-534 | a selection without repeated nodes stays without them |
| Overlay.ToggleTwice | src/CanvasElementDetector.js:528-534 | two clicks on an unselected node, even read afresh in between, restore the selection exactly; on a selected one, the same nodes end up selected |
| Overlay.HandleClickMembers | src/CanvasElementDetector.js:525-537 | a click flips the hovered node's selection and no other node's; with nothing hovered the selection is unchanged |
| Overlay.HandleClickNoDuplicates | src/CanvasElementDetector.js:525-537 | clicks never select a node twice |
| Overlay.ClickTwice | src/CanvasElementDetector.js:525-537 | two clicks on the same node restore an unselected node's selection exactly, and the set of selected nodes in any case |

## Left out

- React state, effects and refs: the model takes the selection (an array, which the redraw sorts in place) and the hovered element as inputs, and `Overlay.Redraw` returns the frame those produce.
- Canvas set-up: resizing, `devicePixelRatio` scaling and `clearRect`. A frame is the whole command sequence, so the clear is implicit. Canvas width and height are parameters.
- Fill and stroke styles (colours, alpha, line width, dash pattern) and the `drawFlexGap` "darker" flag, which has no effect. Each fill records only its kind (`Canvas.Paint`).
- Page queries become inputs: `elementFromPoint`, `getBoundingClientRect`, `getClientRects`, `getComputedStyle` and `element.children`.
- Parsing of CSS strings is not modelled. Tracks, gaps, margins and `flex-basis` arrive as the numbers `parseFloat` returns, with "does not parse" as `None`. A `NaN` reaching the geometry is not modelled.
- `parseInt` is modelled (`Geometry.ParseIntPx`) on the numeric value of the length.
- Floating point: coordinates are exact reals. Rounding in `x += 3` and in sums is not modelled.
- The `querySelectorAll` loop at the end of the redraw effect is not modelled: its body is commented out.
- `isFlexItem` is not modelled: nothing calls it.
- The JSX demo page and the hover tooltip are not modelled: the tooltip shows the tag name, class list and position.
- The tag name and class list recorded on hover are not modelled: they are string formatting for the tooltip only.
- The `getBoundingClientRect` fallback in `drawFigmaStyleBoxes` is not modelled: every element has `getClientRects`.
- `getFlexItemDimensions` on an element without a parent is not modelled: the source would throw.
- Node identity is the `id` of `Overlay.Element`; what the model reads of a node (rectangles, styles) is a snapshot taken with it.
- Overlay.DrawBoxModel, Overlay.BoxModelLayout, Overlay.BoxModelCommands, Overlay.Frame, Overlay.Redraw: paint the corrected border and padding bands (`BoxModel.CorrectedBands`, see Findings), not the program's, whose border strips lie outside the element's box and whose padding strips start at its edge; the program's bands are `BoxModel.BoxModelBands`.
- Column flex containers have no alignment-aware content placement: `getFlexItemDimensions` treats every flex parent as a row, and the model follows it.

## Findings

| source | as written | input that shows it | evidently intended | confidence | as-written member | corrected member |
|---|---|---|---|---|---|---|
| src/CanvasElementDetector.js:237-285 | the border strips are drawn outside the element's border box, over the margin; the padding strips start at the border box's edge; the content is inset by border and padding | a 100x100 element with 5px margin, border and padding: the point (-2.5, 50) is painted by both a margin and a border strip; the point (7.5, 50), inside the element, by no band | border strips inside the border box, padding strips inside the border, so the four bands tile the margin box | medium; not executed | BoxModel.AsWrittenBandsOverlapAndGap | BoxModel.CorrectedBandsTile |
