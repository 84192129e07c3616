# Verified models of XPilot NG algorithms

This project models the algorithmic kernels of XPilot NG that stand on their own once drawing, sockets and files are
set aside, and proves what they are for. `dafny verify dfyconfig.toml` checks everything.

**Block maps to polygons** (`xpilot/mapconvert.py`). The map is a torus of blocks. The model follows the converter
from the characters of the map to the merged polygon of each part:

* `Torus`, `Blocks`: wrapped coordinates, the eight directions, which sectors around a corner are solid.
* `Partition`: the flood fill that labels connected parts with unwrapped positions.
* `Outline`, `Trace`, `EdgeCover`: the leftmost-turn walk along a border as a bijection on border edges, and the tracer.
* `Starts`, `FindEdges`, `WrapScans`, `RowScan`: where tracing starts, and why the three scans with their `done` marks
  trace every border edge exactly once.
* `Winding`, `ClosestPair`: full turns of an outline; the closest pair of two outlines with its skip-ahead.
* `Spanning`, `Linking`, `TreeLinks`, `Tour`, `Polynode`, `PolyLink`: Prim's algorithm over outlines, the destructive
  recursive traversal of linked objects, and the choice of the offset function.
* `Conversion`, `GridSums`, `PartBorder`, `Closing`, `Borderless`, `VisibleRecs`, `MakePolys`: the theorems that join
  all steps. From the characters of any map, each part gets one outline that shows exactly its border and closes.
* `Bends`, `Straight`, `StraightPairs`, `MergedBends`: why a merged outline always bends somewhere, so that turning it
  to a bend before it is written comes to an end.
* `TotalWrap`: the Euclid loop for parts without outer outline. `EdgeRuns`, `RecordWalks`, `Strokes`, `PrintMap`:
  writing a polygon with runs of parallel edges joined, where the pen is after each, and the way from a map to its
  printed polygons.

**Random numbers** (`MersenneTwister`), **rasterisers** (`Circle`, `Line`, `Fill`), the **map editor** (`MapLog`,
`MapAreas`, `Rounding`, `RoundingSides`, `MapEditor`), **recording and playback** (`Wire`, `Tapes`, `Recording`), and
smaller kernels: point in polygon and polygon files (`ClosedPaths`, `PointInPolygon`, `PolygonFile`), raw bitmaps
(`Pbm`), IRC line assembly (`IrcLines`), the client's score table (`RankTable`), and distributing terrain over random
sites (`Sampling`).

Code that changes things step by step is modelled by classes and methods with loops, each proved against a
specification function or predicate; the properties are lemmas about those. The wrapped grids of the converter are
values (`Grid`) held in variables that the methods reassign. Randomness, clocks, network results and the select loop
are parameters. Integers are unbounded unless a line below says otherwise.

Places where the code does not do what it seems meant to do, each with its exact condition:

* The error-number conversion of recordings falls through every case, so a recording plays back exactly when no call
  failed or asked for an error number (`Tapes.PlaybackAsWritten`); a single read that finds nothing spoils it
  (`Tapes.EmptyReadSpoils`). With error numbers kept, every recording of the server would play back, since its reads are
  bounded by its buffer (`Tapes.BufferedPlayback`).
* Undo after a press that changed nothing reaches back to the press before it (`MapLog.PressExactly`, on a map of one
  cell `MapLog.IdleGroupSpoils`), and two such presses in a row make the next Undo do nothing (`MapLog.DeadPress`).
* The fifth smoothing stage of Round repeats the third and can never act (`Rounding.FifthStageIdle`).
* A polygon with zero area is reversed by every save and load, unless it is its own reversal
  (`PolygonFile.ReloadSettles`; three corners on a line, `PolygonFile.FlatTurns`).
* After its first miss the rank cache only ever replaces its first entry (`RankTable.ClientRank.FindPlayer`), and a
  complete score file leaves it with ten copies of the first slot (`RankTable.NewestOfFile`).
* Random distribution never uses the last row (`Sampling.PlacedAll`).
* The opaque line has the same pixels from either end exactly when minor + 1 divides major + 1
  (`Line.OpaqueEitherEnd`; between (0, 0) and (2, 1) it has not, `Line.OpaqueOneWay`). The blended one always has.
* A map covered by full blocks has a part without outline, from which nothing can be taken
  (`Borderless.NoBorderExactly`, `MakePolys.MakePolys`).

## Model

| member | source | states |
|---|---|---|
| Blocks.SolidHome | xpilot/mapconvert.py:185-203 | Whether a sector at a corner is solid depends only on the corner's place on the torus. |
| Blocks.WaysFilled | xpilot/mapconvert.py:230-237 | The sides through which a block can touch another are exactly the sides it fills. |
| Partition.PolyPartition | xpilot/mapconvert.py:230-261 | Exactly the wall cells are labelled; each label's position is congruent to its cell, reached by a walk over mutually open sides from its part's seed, and, unless it is the seed, one such step from another stored position of its part; parts are closed under joining; seeds are numbered in scanning order and the count is the number of seeds. |
| Partition.JoinedSides | xpilot/mapconvert.py:246-256 | Two neighbouring blocks are joined if and only if there is solid wall on both sides of the edge between them; blocks that meet in a corner never are. |
| Partition.Expand | xpilot/mapconvert.py:246-259 | One popped cell: its joined neighbours all carry the current part afterwards, those that were unlabelled at the position next to it; no other label changes; and the invariant of the flood holds with the cell gone from the stack. |
| Partition.FloodPart | xpilot/mapconvert.py:243-259 | Flooding from an unlabelled wall ends with a closed part and leaves the labels of earlier parts alone. |
| Partition.PartsAreComponents | xpilot/mapconvert.py:230-261 | Two wall cells carry the same part number exactly when a chain of mutually open sides joins them on the torus. |
| Partition.SpreadBound | xpilot/mapconvert.py:246-259 | No position is further outside the map than the map has cells. |
| Partition.NeighbourIsMine | xpilot/mapconvert.py:248-259 | A joined neighbour that is labelled already never belongs to an earlier part, so skipping it is sound. |
| Outline.EdgeSides | xpilot/mapconvert.py:185-203 | The solid sector left of an edge and the open one right of it are the same blocks seen from either end. |
| Outline.TurnOpens | xpilot/mapconvert.py:285-287 | The turn loop stops at a direction with open space on the right and solid on the left. |
| Outline.TurnBack | xpilot/mapconvert.py:285-287 | From the direction of departure the direction of arrival can be recovered. |
| Outline.TurnForth | xpilot/mapconvert.py:285-287 | Every border direction at a corner is the departure of exactly the arrival recovered for it. |
| Outline.StepForth | xpilot/mapconvert.py:274-287 | A step from a border edge leads to a border edge, and walking back undoes it. |
| Outline.StepBack | xpilot/mapconvert.py:274-287 | Every border edge is the step of the border edge found by walking back. |
| Outline.StepInjective | xpilot/mapconvert.py:274-287 | No two border edges lead to the same next edge. |
| Outline.TrailBounded | xpilot/mapconvert.py:272-289 | A trail without repetition has room for another edge while it has not closed, so tracing ends. |
| Trace.TurnLeftmost | xpilot/mapconvert.py:285-287 | The loop finds the leftmost open direction and ends. |
| Trace.TracePoly | xpilot/mapconvert.py:267-295 | The tracer follows the walk until it is back at its start, records every edge with unwrapped position, marks exactly the cells its branches name, and gives up exactly when a direction outside the allowed set comes up. |
| EdgeCover.TurnKeepsPart | xpilot/mapconvert.py:285-287 | The solid sectors passed over at a corner belong to one part. |
| EdgeCover.StepKeepsPart | xpilot/mapconvert.py:267-295 | The next edge of an outline borders the same part, so filing an outline under the part of its start is right. |
| EdgeCover.LoopOf | xpilot/mapconvert.py:267-295 | Through every border edge there is a closed loop of border edges. |
| Starts.PassesMark | xpilot/mapconvert.py:297-352 | A loop that only goes up, left and right, or only left, or only right, passes the row or column at which its scan looks. |
| Starts.HalfBlockTurns | xpilot/mapconvert.py:302-317 | A straight edge along a half block has a slanted edge just before or after it, so its outline is found by the main scan. |
| Starts.StepNoReversal | xpilot/mapconvert.py:285-287 | An outline never turns straight back. |
| FindEdges.ScanBlocks | xpilot/mapconvert.py:297-325 | After the main scan the traced outlines are disjoint closed loops filed under their parts, and every border edge that goes down or slantwise is on one of them, whatever blocks the marks made it skip. |
| WrapScans.ScanRises | xpilot/mapconvert.py:327-337 | Afterwards every edge that rises at the top row is on a traced outline too, none is traced twice, and the marks shared with the main scan do no harm. |
| RowScan.ScanRow | xpilot/mapconvert.py:339-353 | One row and direction: afterwards the straight edge looked at is on a traced outline, and no line is traced twice. |
| RowScan.PolyFindEdges | xpilot/mapconvert.py:263-354 | The outlines filed under the parts are pairwise disjoint closed loops, each along one part, and together pass every border edge. |
| RowScan.EdgeTracedOnce | xpilot/mapconvert.py:263-354 | Each border edge of the map is followed at exactly one place of exactly one outline. |
| RowScan.OutlineCloses | xpilot/mapconvert.py:267-295 | The displacement of an outline is a whole number of map widths and heights. |
| Winding.PolyDir | xpilot/mapconvert.py:356-368 | The count of half-plane changes, halved, is the number of full left turns of the outline. |
| Winding.TracedHeads | xpilot/mapconvert.py:356-368 | Outlines traced on a map meet the assumptions of that count. |
| ClosestPair.SkipSound | xpilot/mapconvert.py:385-395 | No point passed over by a skip can be closer than the best pair so far. |
| ClosestPair.ScanPairs | xpilot/mapconvert.py:379-395 | The double loop with skips returns the first pair, in scanning order, of least distance below the bound, or nothing when there is none. |
| ClosestPair.FindMin | xpilot/mapconvert.py:370-398 | The same whichever outline is the longer one: least squared distance over all pairs, with the offset from the first outline to the second. |
| ClosestPair.PlainNearest | xpilot/mapconvert.py:509-510 | Plain offsets meet the assumption of the skip. |
| ClosestPair.BoxWrapNearest | xpilot/mapconvert.py:513-516 | Offsets wrapped in both directions are the shortest representatives, so the skip stays sound. |
| ClosestPair.LineWrapNearest | xpilot/mapconvert.py:528-530 | Offsets reduced along one displacement are the shortest representatives of their line, so the skip stays sound. |
| ClosestPair.RoundHalf | xpilot/mapconvert.py:528-530 | A quotient halfway between two numbers is rounded away from zero. |
| Spanning.Exchange | xpilot/mapconvert.py:535-554 | From any connecting set of links a link across the border of a core can be dropped for one no longer than the shortest, and the rest still connects the grown core. |
| Linking.Refresh | xpilot/mapconvert.py:536-540 | Comparing only the newest attached outline keeps the record of the best link to any attached outline. |
| Linking.RefreshAll | xpilot/mapconvert.py:536-540 | The same for all remaining outlines. |
| Linking.ChooseNearest | xpilot/mapconvert.py:541-546 | The first remaining outline with the shortest recorded link. |
| Linking.Attach | xpilot/mapconvert.py:548-553 | The attached objects hold exactly the links of the grown tree. |
| Linking.PrimStep | xpilot/mapconvert.py:535-554 | One pass keeps all of this and the bound of the tree's cost by every connecting set of links. |
| Linking.CheapGrows | xpilot/mapconvert.py:535-554 | If the links inside the core cost no more than needed, so they do after the shortest link across its border. |
| Linking.LinkAll | xpilot/mapconvert.py:532-554 | The loop ends with a tree over all outlines, rooted at the last, whose every link is as short as the distance of the two outlines it joins, and which no connecting set of links undercuts. |
| TreeLinks.TreeCosts | xpilot/mapconvert.py:532-554 | The links of such a tree, as a set, join every outline to the root and together cost what the tree costs, so the bound is reached. |
| Tour.TourConserves | xpilot/mapconvert.py:406-424 | For every way of weighing records, the tour of a tree weighs as much as all outline edges once and all links once in each direction. |
| Tour.VisitLeads | xpilot/mapconvert.py:406-424 | The records of a tour follow each other on the torus and end where they began, whatever outlines wrap; and in the plane when every outline closes there. |
| Tour.VisitSum | xpilot/mapconvert.py:406-424 | The offsets of the tour add up to the displacements of all its outlines, so the merged outline closes exactly when those cancel. |
| Polynodes.Polynode.Traverse | xpilot/mapconvert.py:406-424 | The recursive traversal of the linked objects appends exactly that tour and leaves every link list below empty. |
| Polynodes.Polynode.Branch | xpilot/mapconvert.py:409-417 | At one corner all its links are followed, in list order, and deleted. |
| Polynodes.Polynode.Follow | xpilot/mapconvert.py:410-417 | One link is followed there and back and deleted; links elsewhere stay. |
| PolyLink.SortOutlines | xpilot/mapconvert.py:496-506 | The three lists are the outlines by the sign of their turns, in order. |
| PolyLink.OfSignCounts | xpilot/mapconvert.py:496-506 | As many outlines are listed under a sign as turn around to the left, to the right, or not at all. |
| PolyLink.ChosenGood | xpilot/mapconvert.py:507-531 | The offset function chosen for a mix of outlines that passes the assertions meets all assumptions of the search. |
| PolyLink.ChosenShortest | xpilot/mapconvert.py:507-531 | Of all the offsets that lead to the same corner of the part, the chosen function takes a shortest one: the offset itself if an outline turns left, one moved by whole displacements of a wrapping outline if two wrap, one moved by whole map sizes if neither. |
| PolyLink.DisplacementFits | xpilot/mapconvert.py:521-527 | The displacement of a wrapping outline is a whole number of map widths and heights, so the assertions about it never fail. |
| PolyLink.LastIsRoot | xpilot/mapconvert.py:532-533 | The tour starts at an outline that wraps if there are any, else at the one that turns left if there is one. |
| PolyLink.LinkOutlines | xpilot/mapconvert.py:495-559 | No outline at all is the failed pop, the assertions about the mix fail exactly for the listed mixes; otherwise the result is the tour of a tree of links over all outlines that costs as little as any connecting set of links. Each link ends at its target corner, moved by nothing if an outline turns left, by a whole multiple of the first wrapping outline's displacement if two wrap, by whole map sizes otherwise; and no two corners of the two outlines, moved in such a way, are closer. |
| Conversion.TracedIsOutline | xpilot/mapconvert.py:566-570 | What the tracer delivers is all that the linking step needs, coordinates within its reach included. |
| Conversion.PartShowsItsBorder | xpilot/mapconvert.py:561-572 | The merged polygon of a part, before parts without outer outline are cut open, shows each border edge of that part exactly once, as a visible edge, and no border edge of another part. |
| PartBorder.BorderCancels | xpilot/mapconvert.py:185-203 | The border edges of one part, all together, lead nowhere: each block fills as many corners of one kind as of the other. |
| Closing.BorderTourCloses | xpilot/mapconvert.py:406-424 | A tour that shows exactly the border of a part has offsets that add up to nothing, also where its outlines wrap around the map. |
| Borderless.NoBorderExactly | xpilot/mapconvert.py:561-572 | A part has no border, and so no outline, exactly when full blocks cover the whole map. |
| MakePolys.MakePolys | xpilot/mapconvert.py:561-572 | For every map and each of its parts, with the outlines traced on the map and filed under it: the failed pop exactly when the map is all full blocks, the failed assertion exactly when those outlines are a bad mix, and otherwise one outline, the tour of such a tree, that leads back to its start on the torus, has offsets adding up to nothing, bends somewhere, and shows each border edge of the part once and nothing else: every visible record is such an edge. |
| VisibleRecs.VisibleOnBorder | xpilot/mapconvert.py:406-424 | Records in unit steps that count each border edge of a part once and no other edge are border edges of that part wherever they are visible. |
| TotalWrap.CrossWrap | xpilot/mapconvert.py:456-464 | The loop returns a displacement that crosses the wrapping outline once; the assertion on the greatest common divisor fails exactly when the two wrap counts have a common divisor. |
| EdgeRuns.PrintEdges | xpilot/mapconvert.py:796-811 | The printed elements, read with styles carried over, are consecutive runs of the edges: each the sum of its edges, every edge parallel to the sum before it, all hidden or all visible, and ended only by another direction or kind. |
| EdgeRuns.BendsEnd | xpilot/mapconvert.py:802-811 | Where the edges change direction an element ends, unless its own edges so far lead nowhere. |
| EdgeRuns.SameCorners | xpilot/mapconvert.py:796-811 | After every printed element the pen is at the corner the edges had reached. |
| EdgeRuns.StartAtBend | xpilot/mapconvert.py:769-770 | If the outline bends anywhere, the loop turns the list until it starts at a bend, and ends. |
| EdgeRuns.NoBend | xpilot/mapconvert.py:769-770 | Were there no bend, the condition of that loop would hold however often the list is turned. |
| Bends.BareBends | xpilot/mapconvert.py:406-424 | A bend of an outline at a corner where no link starts and the tour does not enter is a bend of the merged outline. |
| Bends.ChangesCovered | xpilot/mapconvert.py:406-424 | If the merged outline does not bend, no outline bends more often than links start or arrive at it. |
| Bends.TreeDegrees | xpilot/mapconvert.py:547-553 | Links start and arrive at the n outlines of a tree 2(n - 1) times in all. |
| Straight.TurningBends | xpilot/mapconvert.py:356-368 | An outline whose full turns are not zero bends at three corners or more. |
| StraightPairs.LinkLeaves | xpilot/mapconvert.py:528-531 | The link between two straight outlines that cancel is not parallel to them: on the map they share no corner. |
| MergedBends.MixBends | xpilot/mapconvert.py:495-556 | For every mix that passes the assertions, any tour over outlines of the map that cancel bends. |
| EdgeRuns.PrintPolygon | xpilot/mapconvert.py:768-812 | Turned to a bend, rid of edges that lead nowhere and scaled to pixels, the outline is printed as such runs, and all printed elements together lead where the outline leads. |
| RecordWalks.TurnedLeads | xpilot/mapconvert.py:769-770 | Turned, the records are still a closed walk on the torus. |
| RecordWalks.MovingShown | xpilot/mapconvert.py:771-772 | Dropping records that lead nowhere hides no border edge. |
| Strokes.NoReturn | xpilot/mapconvert.py:185-203 | No border edge goes straight back along the one before it. |
| Strokes.RunStraight | xpilot/mapconvert.py:802-811 | The edges of a visible element are border edges in one direction, and the element is as long as all of them. |
| Strokes.PenFollows | xpilot/mapconvert.py:773-811 | After every printed element the pen is at pixel (2240 x, -2240 y), up to whole map sizes, where (x, y) is the corner of the map that the records have reached. |
| PrintMap.PrintPolygons | xpilot/mapconvert.py:561-812 | From a map to its polygons: every part that need not be cut open first is printed, from the first edge after a bend, as consecutive maximal runs of its merged outline. The polygon starts on the map and closes; each visible element is a straight stretch of the part's border with its wall on the left, drawn from the pixel of its first corner to that of its last; and each border edge of the part lies in exactly one element. |
| MersenneTwister.OddSeed | xpilot/src/common/randommt.c:126-129 | A seed and the odd number next to it give the same sequence. |
| MersenneTwister.SeedWordsOdd | xpilot/src/common/randommt.c:126-129 | Every seed word is odd. |
| MersenneTwister.Generator.SeedMT | xpilot/src/common/randommt.c:126-129 | Fills the state with the congruential sequence of the odd seed. |
| MersenneTwister.Generator.ReloadWord | xpilot/src/common/randommt.c:143-149 | One word replaced in place: the word 397 places on, old or wrapped around and already new, is the one the recurrence needs, and no word is replaced while it is still needed as an old one. |
| MersenneTwister.Generator.ReloadBlock | xpilot/src/common/randommt.c:143-149 | The three phases in place turn 624 words of the recurrence into the next 624; the extra word never counts. |
| MersenneTwister.Generator.ReloadMT | xpilot/src/common/randommt.c:133-154 | Delivers the first number of the new block, seeding with 4357 when never seeded. |
| MersenneTwister.Generator.RandomMT | xpilot/src/common/randommt.c:157-169 | The n-th call delivers the tempered n-th word after the seeds of the recurrence. |
| MersenneTwister.TemperBack | xpilot/src/common/randommt.c:164-168 | Tempering is undone by its four steps undone in the opposite order, so it loses nothing. |
| MersenneTwister.TwistBack | xpilot/src/common/randommt.c:143-149 | A twist tells the top bit of the one word and the other 31 bits of the next. |
| MersenneTwister.CongruentialBack | xpilot/src/common/randommt.c:126-129 | A seeding step is undone by multiplying with 2783094533. |
| MersenneTwister.DrawsDetermine | xpilot/src/common/randommt.c:133-169 | Any 624 numbers drawn in a row, from any seed and at any place, determine all later ones. |
| MersenneTwister.DrawsTellSeed | xpilot/src/common/randommt.c:126-169 | At a known place they determine the seed, up to its lowest bit, and so all earlier numbers too. |
| MersenneTwister.FirstDraw | xpilot/src/common/randommt.c:126-154 | The first number drawn after seeding with 4357 is 3510405877. |
| Circle.NearestUnique | xpilot/src/client/sdl/SDL_gfxPrimitives.c:1891-2028 | At most one row is nearest to the circle in a column. |
| Circle.StaysShort | xpilot/src/client/sdl/SDL_gfxPrimitives.c:1896-1902 | The decision variables stay within 16 bits for radii up to 16386, the largest for which -2r + 5 does. |
| Circle.StepEast | xpilot/src/client/sdl/SDL_gfxPrimitives.c:2012-2016 | A step east keeps the row nearest and the decision variables exact. |
| Circle.StepSouthEast | xpilot/src/client/sdl/SDL_gfxPrimitives.c:2016-2022 | So does a step south-east. |
| Circle.EndColumns | xpilot/src/client/sdl/SDL_gfxPrimitives.c:2023-2024 | When the loop ends no octant pixel is missing. |
| Circle.CirclePixels | xpilot/src/client/sdl/SDL_gfxPrimitives.c:1891-2024 | Exactly the nearest pixels of all octants are plotted, one point for radius 0, none for negative radii. |
| Line.OpaqueLine | xpilot/src/client/sdl/SDL_gfxPrimitives.c:1529-1601 | The loop over pixel addresses writes max(dx, dy) + 1 pixels, the k-th at the column k and row k * (minor + 1) / (major + 1), rounded down. |
| Line.OpaqueShape | xpilot/src/client/sdl/SDL_gfxPrimitives.c:1529-1601 | It starts and ends at the given points, moves to touching pixels, stays in their box and within a pixel of the ideal line. |
| Line.BlendLine | xpilot/src/client/sdl/SDL_gfxPrimitives.c:1608-1639 | The two blending loops plot k * minor / major rounded to the nearest row, halves by direction. |
| Line.BlendShape | xpilot/src/client/sdl/SDL_gfxPrimitives.c:1608-1639 | The same shape, within half a pixel of the ideal line. |
| Line.BlendEitherEnd | xpilot/src/client/sdl/SDL_gfxPrimitives.c:1608-1639 | Drawn from either end it has the same pixels. |
| Line.OpaqueEitherEnd | xpilot/src/client/sdl/SDL_gfxPrimitives.c:1529-1601 | Drawn from either end the opaque line has the same pixels if and only if minor + 1 divides major + 1. |
| Line.OpaqueOneWay | xpilot/src/client/sdl/SDL_gfxPrimitives.c:1529-1601 | The opaque line from (0, 0) to (2, 1) has another middle pixel than the one back. |
| Fill.EvenHits | xpilot/src/client/sdl/SDL_gfxPrimitives.c:3335-3362 | Every row has an even number of intersections, the bottom row too. |
| Fill.HitSide | xpilot/src/client/sdl/SDL_gfxPrimitives.c:3357-3359 | The truncated intersection lies on the same side of any other sub-pixel position as the exact one. |
| Fill.SortedKeeps | xpilot/src/client/sdl/SDL_gfxPrimitives.c:3364 | Sorting only rearranges. |
| Fill.PolygonFiller.FilledPolygon | xpilot/src/client/sdl/SDL_gfxPrimitives.c:3287-3376 | The spans of all rows in order, through a scratch array that only grows and is never read or written out of bounds; fewer than three points are refused. |
| Fill.PolygonFiller.ScanRow | xpilot/src/client/sdl/SDL_gfxPrimitives.c:3336-3362 | Collects exactly the intersections of one row. |
| Fill.PolygonFiller.PairUp | xpilot/src/client/sdl/SDL_gfxPrimitives.c:3366-3372 | Joins the sorted intersections in pairs, reading written entries only. |
| Fill.FillsInside | xpilot/src/client/sdl/SDL_gfxPrimitives.c:3335-3373 | Every pixel whose centre is inside by the even-odd rule, with exact edges, is painted. |
| Fill.FillsNear | xpilot/src/client/sdl/SDL_gfxPrimitives.c:3335-3373 | Every painted pixel has a point inside or on the polygon within half a pixel and 1/65536 along its row. |
| Fill.FillsInBox | xpilot/src/client/sdl/SDL_gfxPrimitives.c:3335-3373 | No span leaves the bounding box. |
| MapLog.PressOnce | xpilot/src/mapedit/tools.c:613-637 | A press of Undo takes back an effective group of changes; after a group without effect it unwinds what came before. |
| MapLog.UndoRestores | xpilot/src/mapedit/tools.c:593-649 | After any session whose last k groups each changed a cell, k presses give back exactly the map from before them. |
| MapLog.PressExactly | xpilot/src/mapedit/tools.c:613-637 | A press gives back the map from before the last group if and only if that group changed a cell, or the group before it changed none, or left the map as it was. |
| MapLog.DeadPress | xpilot/src/mapedit/tools.c:617-631 | After two groups without effect a press changes nothing but the log. |
| MapLog.IdleGroupSpoils | xpilot/src/mapedit/tools.c:613-637 | A press after writing what is there already takes back the change before. |
| MapLog.FoldWraps | xpilot/src/mapedit/tools.c:946-961 | Within one map size of the map, the corrected coordinate is the wrapped one. |
| MapAreas.EachIsEdits | xpilot/src/mapedit/tools.c:1027-1054 | An operation on an area is one group of changes, whatever cells the wrapped area covers twice. |
| MapAreas.UndoEach | xpilot/src/mapedit/tools.c:1027-1225 | One press of Undo takes back a Fill, Cut, Paste or Negative that changed something. |
| MapAreas.FilledCell | xpilot/src/mapedit/tools.c:1049-1051 | Fill leaves the icon exactly on the cells the area covers. |
| MapAreas.NegativeTwice | xpilot/src/mapedit/tools.c:1171-1225 | Negative twice gives the map back. |
| MapAreas.NegatedFills | xpilot/src/mapedit/tools.c:1193-1221 | The negative of a space, a full block or a half block fills exactly what that one leaves open; other icons stay. |
| MapAreas.CutThenPaste | xpilot/src/mapedit/tools.c:1097-1164 | Cut and then Paste at the same place gives the map back. |
| MapEditor.Editor.ChangeMapData | xpilot/src/mapedit/tools.c:264-286 | Wraps once, changes one cell, and records the old icon exactly when the cell changes and saving is asked for. |
| MapEditor.Editor.MapData | xpilot/src/mapedit/tools.c:946-961 | The cell after wrapping once. |
| MapEditor.Editor.ClearUndo | xpilot/src/mapedit/tools.c:645-649 | Adds a breakpoint. |
| MapEditor.Editor.Undo | xpilot/src/mapedit/tools.c:613-637 | The new map and log are those of one press. |
| MapEditor.Editor.SelectedCorners | xpilot/src/mapedit/tools.c:1034-1047 | A selection covers the cells between its two corners, both included, in whatever order they were chosen. |
| MapEditor.Editor.FillMapArea | xpilot/src/mapedit/tools.c:1027-1054 | A breakpoint and the fill of the selection in column order; without selection only the breakpoint. |
| MapEditor.Editor.CopyMapArea | xpilot/src/mapedit/tools.c:1061-1090 | The clipboard holds the selection and blanks; map and log stay. |
| MapEditor.Editor.CutMapArea | xpilot/src/mapedit/tools.c:1097-1129 | The selection is blanked as one group, and the clipboard holds each cell as the loops met it. |
| MapEditor.Editor.PasteMapArea | xpilot/src/mapedit/tools.c:1136-1164 | The clipboard's marked cells are written over the selection as one group. |
| MapEditor.Editor.NegativeMapArea | xpilot/src/mapedit/tools.c:1171-1225 | Every visit swaps a cell for its negative, as one group. |
| MapEditor.Editor.RoundStage | xpilot/src/mapedit/round.c:145-182 | One smoothing scan, passing over the cell after each change, and whether it changed anything. |
| MapEditor.Editor.RoundMapArea | xpilot/src/mapedit/round.c:37-499 | A breakpoint and the first of the eight scans that changes something. |
| Rounding.SmoothSymmetric | xpilot/src/mapedit/round.c:81-121 | Every stage's table treats mirrored surroundings in the mirrored way. |
| RoundingSides.FilledIsBeside | xpilot/src/mapedit/round.c:81-121 | The eight tables tell which neighbours fill the side or corner they share with the cell, by the same geometry as the map converter's. |
| RoundingSides.ClosedFits | xpilot/src/mapedit/round.c:140-231 | The first two scans fill a space, or a half block, between two walls and make it a half block that fits into a corner of walls, filling exactly the sides that meet walls; nothing else changes. |
| RoundingSides.FilledUp | xpilot/src/mapedit/round.c:233-272 | The third and fifth scans fill a half block up exactly when a wall stands on a side it leaves open. |
| RoundingSides.BackFilled | xpilot/src/mapedit/round.c:274-313 | The fourth fills a half block up exactly when a side it fills meets no wall. |
| RoundingSides.CutDown | xpilot/src/mapedit/round.c:356-461 | The sixth and seventh cut a full block down to a half block that fits, exactly when walls stand on two adjacent sides only, none touches the far corner, and none, or some, touches the corners beside it. |
| RoundingSides.Removed | xpilot/src/mapedit/round.c:463-493 | The eighth removes a full block exactly when a wall stands on at most one side. |
| Rounding.UndoRounded | xpilot/src/mapedit/round.c:47-182 | One press of Undo takes back a Round that changed something. |
| Rounding.ScanIsEdits | xpilot/src/mapedit/round.c:145-182 | A scan is a list of changes, row by row and from left to right, never of two cells next to each other. |
| Rounding.FirstStage | xpilot/src/mapedit/round.c:28-35 | Only the first scan that finds something to change does anything, so blocks are removed only when none can be added. |
| Rounding.RoundIdle | xpilot/src/mapedit/round.c:37-499 | A press changes nothing if and only if all eight tables leave every cell of the area as it is. |
| Rounding.FifthStageIdle | xpilot/src/mapedit/round.c:315-353 | The fifth scan never changes anything. |
| Rounding.RoundDirection | xpilot/src/mapedit/round.c:28-35 | One press of Round makes no cell less solid, or no cell more solid. |
| Wire.ChunkBack | xpilot/src/server/srecord.c:162-214 | A chunk within the section limits is read back exactly when the error-number codec keeps its entries. |
| Wire.ReadInOrder | xpilot/src/server/srecord.c:109-132 | Numbers are read in network byte order, the most significant byte first. |
| Wire.ErrnosSpoilChunks | xpilot/src/server/srecord.c:88-101 | With the conversions as written, exactly the chunks without error numbers are read back. |
| Tapes.RecordedIsLater | xpilot/src/server/srecord.c:162-186 | Recording step by step writes the chunks of the whole run one after another. |
| Tapes.PlayedDo | xpilot/src/server/recwrap.c:55-121 | The next recorded call is read back exactly when its count fits a short. |
| Tapes.PlaybackExactly | xpilot/src/server/recwrap.c:55-162 | For every deterministic server, every run, and every conversion of error numbers, even one that reads some back as others: playback reproduces all results and reads every stream to its end if and only if all counts fit a short and the conversion keeps the recorded error numbers; where chunks end does not matter and the out-of-sync check never fires. |
| Tapes.PlaybackAsWritten | xpilot/src/server/srecord.c:64-157 | With the conversions as written: if and only if all counts fit and no error number was recorded. |
| Tapes.PlaybackWithErrnos | xpilot/src/server/recwrap.c:55-162 | With error numbers kept: if and only if all counts fit. |
| Tapes.EmptyReadSpoils | xpilot/src/server/srecord.c:88-101 | As written, a session with one read that returns 0 does not play back. |
| Tapes.BufferedPlayback | xpilot/src/server/recwrap.c:68-121 | The server reads into a buffer of 1024 bytes only (xpilot/src/common/net.h, lines 34 to 37), so counts always fit a short: with error numbers kept every recording plays back, and as written exactly those without any. |
| Recording.ChecksKeepWithin | xpilot/src/server/srecord.c:291-319 | If fewer than size - threshold - 4 bytes are added to each stream between checks, no chunk breaks its limits. |
| Recording.SessionPlayback | xpilot/src/server/srecord.c:162-319 | A whole session recorded with the scheduler's buffer checks, little added between them, plays back if and only if all counts fit and no error number was recorded. |
| Recording.Recorder.ReadRec | xpilot/src/server/recwrap.c:68-121 | Stores a count, and the bytes or the error number; in playback takes them back. |
| Recording.Recorder.GetLastPortRec | xpilot/src/server/recwrap.c:55-65 | Stores or takes back the port. |
| Recording.Recorder.GetErrorRec | xpilot/src/server/recwrap.c:148-162 | Stores or takes back the error number and the result. |
| Recording.Recorder.DumpData | xpilot/src/server/srecord.c:162-186 | Marks the end of the chunk, writes its sections and empties the buffers. |
| Recording.Recorder.GetRecordingData | xpilot/src/server/srecord.c:188-214 | Loads the next chunk if and only if the last one was read to its end and the sections are in order. |
| Recording.Recorder.HandleRecordingBuffers | xpilot/src/server/srecord.c:291-319 | Dumps when a flush is due or a buffer is over its threshold; afterwards none is. |
| Recording.Recorder.NextEvent | xpilot/src/server/srecord.c:162-214 | The next handler or frame of the schedule stream (read by xpilot/src/server/sched.c, lines 269 to 286), loading the next chunk at each mark that a dump left. |
| Recording.Recorder.ForPlayback | xpilot/src/server/srecord.c:253-266 | Playback starts with the first chunk of the file. |
| Recording.Recorder.Run | xpilot/src/server/recwrap.c:55-162 | The wrappers and the schedule, called by a deterministic server, give the observations of the replay, whatever chunks they load on the way. |
| Recording.PlayBack | xpilot/src/server/srecord.c:188-266 | A recorder started on a file and run to the end reports the recorded observations, with every stream read out, exactly when playback reproduces the run. |
| PointInPolygon.BothRight | xpilot/contrib/jxpmap/python/javastuff.py:108-109 | The shortcut for edges at the right agrees with the cross product unless the edge meets the point. |
| PointInPolygon.Contains | xpilot/contrib/jxpmap/python/javastuff.py:101-130 | For a point off the outline, 1 exactly when an odd number of edges crosses the ray to its right. |
| PointInPolygon.BothSidesEven | xpilot/contrib/jxpmap/python/javastuff.py:101-130 | A ray to the left gives the same answer. |
| PointInPolygon.SameWhenRotated | xpilot/contrib/jxpmap/python/javastuff.py:101-130 | Neither the number of crossings nor being on the outline depends on the first corner of the list. |
| PointInPolygon.SameWhenReversed | xpilot/contrib/jxpmap/python/javastuff.py:101-130 | Nor on the sense of the list. |
| PointInPolygon.TriangleInside | xpilot/contrib/jxpmap/python/javastuff.py:101-130 | For a triangle the crossings are odd in number exactly when the point lies to the same side of all three edges. |
| PolygonFile.IsCounterClockwise | xpilot/contrib/jxpmap/python/MapPolygon.py:176-185 | True exactly for positive area. |
| PolygonFile.AreaGrows | xpilot/contrib/jxpmap/python/MapPolygon.py:176-185 | Each corner adds the triangle it makes with the first corner and the last, counted positive when it lies to the left. |
| PolygonFile.PrintXml | xpilot/contrib/jxpmap/python/MapPolygon.py:198-234 | Start and offsets in the order that makes the saved polygon counter-clockwise; fewer than three points are refused. |
| PolygonFile.OffsetsCancel | xpilot/contrib/jxpmap/python/MapPolygon.py:219-234 | The written offsets sum to zero. |
| PolygonFile.LoadPolygon | xpilot/contrib/jxpmap/python/MapModel.py:257-265 | The corners reached by all offsets but the last. |
| PolygonFile.ReloadedIs | xpilot/contrib/jxpmap/python/MapModel.py:257-265 | Save and load give back a counter-clockwise polygon as it was and any other reversed from the same corner. |
| PolygonFile.TurnedArea | xpilot/contrib/jxpmap/python/MapPolygon.py:213-217 | That reversal negates the area. |
| PolygonFile.ReloadSettles | xpilot/contrib/jxpmap/python/MapPolygon.py:198-234 | A second save and load changes nothing if and only if the area is not zero or the polygon is its own reversal. |
| PolygonFile.FlatTurns | xpilot/contrib/jxpmap/python/MapPolygon.py:198-234 | Three corners on a line come back reversed from every save and load. |
| Pbm.WriteBody | xpilot/contrib/maps2image/maps2image.c:255-277 | The bit loop writes each row in whole bytes, most significant bit first, the last padded with zeros. |
| Pbm.MaskIs | xpilot/contrib/maps2image/maps2image.c:255-277 | The pixel in column k of its byte has the k-th bit from the top. |
| Pbm.BodySize | xpilot/contrib/maps2image/maps2image.c:255-277 | Height times ceil(width / 8) bytes. |
| Pbm.ProcessBitPacked | xpilot/contrib/pbmtomap.c:34-57 | The reader's loops draw rows and pass over the padding. |
| Pbm.PictureBack | xpilot/contrib/pbmtomap.c:34-57 | Reading what was written gives the picture back for every width. |
| IrcLines.SplitResumes | xpilot/contrib/xpngcc/irclib.py:495-499 | Splitting may stop anywhere, even between CR and LF: going on from the unfinished line gives the lines of the whole stream. |
| IrcLines.ServerConnection.ProcessData | xpilot/contrib/xpngcc/irclib.py:481-510 | The messages handled and the buffer kept depend only on the data received so far, not on how it was cut. |
| IrcLines.FramedBack | xpilot/contrib/xpngcc/irclib.py:373 | Messages framed by section 2.3 of RFC 1459 are received as sent. |
| IrcLines.LinesBack | xpilot/contrib/xpngcc/irclib.py:371-373 | Lines are received as sent with CR LF or a bare LF at the end of each, unless a line with a bare LF itself ends with CR. |
| RankTable.CacheAgrees | xpilot/src/client/clientrank.c:278-282 | A cache hit is the slot a search of the table finds. |
| RankTable.ClientRank.GetSavedScore | xpilot/src/client/clientrank.c:257-272 | The slot of the nick, or the first of the oldest slots cleared for it. |
| RankTable.ClientRank.FindPlayer | xpilot/src/client/clientrank.c:275-288 | The cache never changes which slot a nick gets. A hit leaves it alone; a miss replaces one entry, and every later miss the first. |
| RankTable.ClientRank.constructor | xpilot/src/client/clientrank.c:227-255 | The table holds the scores read, then empty slots; with a score file the cache holds the newest of the slots entered for sorting, else the first slot ten times. |
| RankTable.ClientRank.TimeSort | xpilot/src/client/clientrank.c:57-74 | The exchanges order the entered slots by time, the newest first, and the first ten go to the cache. |
| RankTable.NewestOfFile | xpilot/src/client/clientrank.c:227-255 | After a complete score file only the first slot has been entered, so the cache holds nothing else. |
| RankTable.ClientRank.AddRankKill | xpilot/src/client/clientrank.c:291-297 | The table changes as it would without cache. |
| RankTable.ClientRank.AddRankDeath | xpilot/src/client/clientrank.c:299-305 | Likewise for a death. |
| RankTable.ClientRank.GetKills | xpilot/src/client/clientrank.c:307-312 | The kills counted for the nick before, none for a nick not in the table, which gets a slot. |
| RankTable.KillCounts | xpilot/src/client/clientrank.c:291-297 | A kill counts one more for its nick, forgets the nick evicted for it, and no other count changes. |
| RankTable.DeathCounts | xpilot/src/client/clientrank.c:299-305 | Likewise a death. |
| RankTable.LeastRecentLeaves | xpilot/src/client/clientrank.c:257-305 | After any run of kills and deaths, the nick evicted for a new one is the one used longest ago. |
| Sampling.RandomDistribute | xpilot/contrib/mkmap.c:234-275 | Selection sampling over all sites but those of the last row. |
| Sampling.PlacedAll | xpilot/contrib/mkmap.c:260-274 | The number wanted is placed whatever is drawn if and only if the last row has no site. |
| Sampling.PicksCount | xpilot/contrib/mkmap.c:260-274 | The count is that of the sites picked. |
| Sampling.EqualChance | xpilot/contrib/mkmap.c:260-274 | How many ways of drawing lead to given picks depends only on how many sites they pick: every choice of as many sites is equally likely. |

## Left out

- PolyLink.LinkOutlines: requires coordinates below 10^48, because the code's bound 1e98 on squared distances is not infinite; the outlines of maps of up to 10^46 blocks meet it.
- MakePolys.MakePolys: does not show that the assertions about the mix never fail, and stops before parts without outer outline are cut open.
- ClosestPair.FindMin: models square roots exactly, by comparing squares, and not as floating point numbers.
- ClosestPair.LineWrapNearest: rounds the exact quotient, a half away from zero as Python 2 does, and not a floating point one.
- TotalWrap.CrossWrap: covers the choice of the crossing displacement; cutting the polygon open and splicing its halves are not modelled.
- PrintMap.PrintPolygons: leaves out the parts that have to be cut open first, and the shrinking of walls, which line 5 of the converter switches off.
- Circle.CirclePixels: does not model radii above 16386, where -2r + 5 wraps, nor clipping and the early exit for circles off the surface.
- Line.OpaqueLine: starts after clipping; horizontal and vertical lines take other routines, which are not modelled.
- Fill.PolygonFiller.FilledPolygon: intersections are unbounded integers, a row is painted between its two ends inclusively, and the library sort is an insertion sort; the 8-bit surface, where one pixel less is set, is not modelled.
- MapEditor.Editor.ChangeMapData: drawing of the changed cell and its neighbours is not modelled, and coordinates beyond one map size are excluded as they would leave the array.
- MapEditor.Editor.RoundMapArea: the eight scans are one method with the stage as argument; the size of the window is a parameter.
- Rounding.SmoothSymmetric: repeated presses are not shown to come to an end, and nothing in the code makes them.
- Recording.Recorder.ReadRec: models read and receive in one method; the separate connect, write and flush wrappers and the recording of option changes are not modelled.
- Recording.Recorder.Run: a stream that runs out ends playback, where the code would read on.
- Recording.Recorder.GetRecordingData: a file cut short inside a section ends playback, where the code would go on with old bytes; the end marks it stores behind integer sections are not modelled.
- PointInPolygon.Contains: says nothing about points on the outline, some of which are counted and not returned at once.
- PolygonFile.PrintXml: geometry only; edge styles are not modelled.
- Sampling.RandomDistribute: counts the cells written and does not model the map they are written to.
- RankTable.ClientRank.constructor: assumes distinct nicks in the file, as every table written by the program has; file access is not modelled.
- Option parsing, map features other than walls, team assignment and all XML text of the converter.
- Resizing or loading a map between an edit and its undo; the undo list is not emptied there.
- The undo window of the editor in Python and its wrapped drawing offsets.
- Windows, surfaces, pixel formats, sockets, files, IRC commands, option tables, icons and fonts.
- Statistical quality of the random numbers.
