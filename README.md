# Grid2D editor: sector and wall model

Grid2D is a small 2D level editor for a sector-based 3D engine. A level is a set of
*sectors*. Each sector is a polygon given by a contiguous range `[ws, we)` of *walls*
in a wall arena `W[256]`, together with a bottom and top height and a surface texture
and scale. Each wall is a segment `(x1, y1) -> (x2, y2)` with a texture, a u/v tiling
and a shade. The sectors live in a sector arena `S[128]`, and the counters `numSect`
and `numWall` mark the live prefixes of the two arenas.

The editor also keeps an edit context `G`, which holds:

- the rounded pointer;
- the construction phase `addSect` (0 idle, 1 armed, 3 placing points);
- the wall and surface parameters being edited;
- the two grab references `move[0..3]`;
- the sector and wall selection.

The player record `P` is saved with the level.

This project models the editor's integer geometry and the click-driven logic that
changes it. It proves properties of that model.

- `geometry.dfy` (module `Geometry`) covers the following:
  - the wall, sector and player records;
  - the arena invariant `StoreOk`: every sector slot has a wall range inside the wall arena, every live sector claims at least one wall, and the live sectors together claim no more walls than `numWall`;
  - the sector shift used by delete;
  - wall chains and closed boundaries;
  - pointer rounding and drag snapping;
  - the shade fold;
  - the endpoint hit test.
- `edit_rules.dfy` (module `EditRules`) covers the side-panel rules: texture ids wrapping in `[0, 20]`, tiling clamps to `[1, 9]`, height steps with push-apart, the "add sector" toggle, the player heading, the defaults of `initGlobals` and one function `Press` that handles every button.
- `persistence.dfy` (module `Persistence`) covers the level file as a sequence of integer tokens: the encoder `Encode`, the decoder `Decode` and both round trips.
- `editor.dfy` (module `Grid2D`) is the editing session as a class `Editor`. It has arrays for `W` and `S`, the counters, `G` and `P`. Its methods change them in place: sector construction (start, place a point, close, extend, roll back on a clockwise first edge), selection, write-back, delete, the hit test, dragging, save and load.

Where the source leaves a case undefined (an arena index out of bounds), the model takes
an explicit branch. Apart from those branches it follows the code; every other place
where it does not (a refusal the source does not make, a slot the source fills and the
model leaves alone) is listed under "## Left out" or "## Findings".

These places follow the code and differ from what the editor's documentation suggests:

- **Write-back with all walls selected.** With `selW == 0` ("all walls"), the write-back changes no wall. Only the highlight changes (`main.cpp:258-259`).
- **Heights are not clamped.** The "limit" lines call `std::clamp` and discard its result (`main.cpp:433-434`). `EditRules.HeightsAreUnbounded` shows the bottom height falling without bound.
- **Grabbing at a vertex where more than two endpoints meet.** The hit test keeps only the last near first endpoint and the last near second endpoint in visiting order (`main.cpp:574-581`). At a corner shared by two sectors, a drag moves those two endpoints and leaves the others where they were, so the sectors come apart. `Geometry.MoveEndsKeepsJoint` covers only a joint of two walls.
- **A lone second endpoint cannot be dragged.** The drag runs only when a first endpoint is grabbed (`move[0] > -1`, `main.cpp:592`). When the hit test finds only a second endpoint near the pointer (`move == [-1, -1, w, 2]`), nothing moves.
- **Toggling abandons the open sector.** Pressing "add sector" while placing points sets the phase to idle. The open sector stays in the arena as it is.

## Model

| member | source | states |
|---|---|---|
| Geometry.ShiftDown | main.cpp:471-473 | the arena after removing live sector d of n: slots before d are kept, each later live sector moves down one slot with its wall range unchanged, and the slots from n-1 on keep their records |
| Geometry.StoreOkAppend | main.cpp:490-507 | appending a one-wall sector at the wall counter, with one more wall, keeps the arena invariant |
| Geometry.StoreOkDropLast | main.cpp:511-517 | dropping the last sector and one wall (the winding rollback) keeps the arena invariant |
| Geometry.StoreOkGrowLast | main.cpp:545-556 | growing the last sector's range by one wall, with one more wall, keeps the arena invariant |
| Geometry.StoreOkSameRange | main.cpp:251-267 | overwriting a sector's heights and surface but not its range keeps the arena invariant |
| Geometry.StoreOkRemove | main.cpp:466-478 | the deleted sector claims between 1 and numWall walls, and removing it and its wall count keeps the arena invariant |
| Geometry.SumLengthsRemove | main.cpp:468 | removing a sector takes exactly its wall count off the total claimed by the live sectors |
| Geometry.SourceShiftReadsPastLive | main.cpp:471-472 | the delete loop as written reads slot numSect, and with a full arena (128 sectors) it reads past the end of `S` |
| Geometry.SourceDeleteCounters | main.cpp:468-474 | the counters after delete as the source writes it: the slot's wall count is subtracted and the live count always drops, live slot or not |
| Geometry.SourceStaleDeleteDropsLive | main.cpp:466-478 | with one live triangle and a stale selection of slot 1 (an undone sector), the source's delete takes the live count to 0 and one wall off `numWall`, dropping the unselected triangle |
| Geometry.ChainedExtend | main.cpp:545-556 | fixing the last wall's end at a point and starting a new wall there extends a chain of end-to-start walls by one wall |
| Geometry.ChainedClose | main.cpp:520-543 | fixing the last wall's end at the chain's first vertex turns the chain into a closed boundary |
| Geometry.Quantize | main.cpp:375-376 | `((p + 4) >> 3) << 3` is the multiple of 8 nearest to p (ties upward): a multiple of 8 within [p-3, p+4] |
| Geometry.QuantizeFixesGrid | main.cpp:375-376 | points already on the 8-grid (and the 32-grid, for snapping) are left where they are |
| Geometry.GridPoint | main.cpp:375-376 | the pointer is rounded to multiples of 8 in grid units, after scaling by 4 and flipping y against the screen height 120 |
| Geometry.Snap | main.cpp:596-609 | `((v + 16) >> 5) << 5` is the multiple of 32 nearest to v: a multiple of 32 within [v-15, v+16] |
| Geometry.SnapIdempotent | main.cpp:596-609 | snapping an already snapped coordinate changes nothing |
| Geometry.DragPoint | main.cpp:596-609 | the drag target is the window pixel snapped to multiples of 32, with y flipped against the window height 480 |
| Geometry.ShadeFold | main.cpp:528-535 | every angle in [0, 360] folds into a shade in [0, 90] |
| Geometry.ShadeFoldIsDistanceToHorizontal | main.cpp:528-535 | the shade is the angle's distance in degrees to the nearest horizontal direction |
| Geometry.ShadeFoldMirror | main.cpp:529-531 | for angles above 180 the shade equals that of 360 minus the angle |
| Geometry.ShadeFoldAxes | main.cpp:528-535 | 0 -> 0, 90 -> 90, 180 -> 0, 270 -> 90 |
| Geometry.LastHit | main.cpp:569-583 | the hit test's result for one endpoint is -1 or a wall index inside the arena |
| Geometry.LastHitSpec | main.cpp:569-583 | the result is -1 exactly when no visited endpoint lies strictly within 3 of the pointer in both coordinates; otherwise it is a visited wall whose endpoint is near, and no later-visited endpoint is near (the last match wins) |
| Geometry.Grabs | main.cpp:562-583 | the grab references: slot 1 is 1 exactly when slot 0 names a wall, slot 3 is 2 exactly when slot 2 names a wall, and -1 otherwise |
| Geometry.GrabsStep | main.cpp:574-581 | visiting one more wall updates slots 0-1 when its first endpoint is near and slots 2-3 when its second endpoint is near, and nothing else |
| Geometry.VisitsStep | main.cpp:569-570 | the walls are visited sector by sector, each sector's range in order |
| Geometry.MoveEnds | main.cpp:595-610 | moving grabbed endpoints changes exactly the chosen endpoints, and no texture, tiling or shade |
| Geometry.MoveEndsKeepsJoint | main.cpp:591-612 | a vertex shared by two walls stays shared when both of its endpoints are dragged |
| EditRules.WrapPrev | main.cpp:393 | stepping a texture id or selection left stays in [0, hi] and wraps from 0 to hi |
| EditRules.WrapNext | main.cpp:394 | stepping right stays in [0, hi] and wraps from hi to 0 |
| EditRules.WrapInverse | main.cpp:393-394 | the two directions undo each other |
| EditRules.WrapNextReaches | main.cpp:405-406 | cycling forward reaches every value of [0, hi] |
| EditRules.WrapNextCycle | main.cpp:405-406 | hi + 1 forward steps return to the start |
| EditRules.ClampDec | main.cpp:398 | decrementing a tiling factor or surface scale gives v - 1 but never less than 1, and stays at most 9 from [1, 9] |
| EditRules.ClampInc | main.cpp:399 | incrementing gives v + 1 but never more than 9, and stays at least 1 from [1, 9] |
| EditRules.ClampStaysInRange | main.cpp:398-411 | on [1, 9] both steps stay in [1, 9], and away from the bounds they undo each other |
| EditRules.LowerTop | main.cpp:415 | the top drops by 5 and pushes the bottom down when they meet; the gap stays a positive multiple of 5 |
| EditRules.RaiseTop | main.cpp:416 | the top rises by 5, keeping the gap a positive multiple of 5 |
| EditRules.LowerBottom | main.cpp:420 | the bottom drops by 5, keeping the gap a positive multiple of 5 |
| EditRules.RaiseBottom | main.cpp:421 | the bottom rises by 5 and pushes the top up when they meet; the gap stays a positive multiple of 5 |
| EditRules.HeightsAreUnbounded | main.cpp:433-434 | n presses of "bottom down" from the defaults take the bottom to -5n, because the clamp results are discarded |
| EditRules.TogglePhase | main.cpp:424-431 | idle arms, armed and placing return to idle, and the phase stays idle or armed |
| EditRules.TurnLeft | main.cpp:627 | turning left by 4 degrees keeps the heading in [0, 360) and congruent to a - 4 |
| EditRules.TurnRight | main.cpp:628 | turning right by 4 degrees keeps the heading in [0, 360) and congruent to a + 4 |
| EditRules.TurnsCancel | main.cpp:627-628 | a left turn and a right turn cancel |
| EditRules.InitGlobals | main.cpp:177-189 | resets to the documented defaults (scale 4, nothing selected, heights 0/40, surface 1 at scale 4, wall texture 0 tiled 1x1), keeps the pointer, phase and grabs, and leaves every parameter in range |
| EditRules.Press | main.cpp:392-431 | a side-panel button keeps every parameter in range and the height gap valid; it changes only the fields of its own button; "add sector" toggles the phase and clears the selection |
| Persistence.Encode | main.cpp:133-157 | nothing is written for a level without sectors; otherwise the file is `FileSize` tokens long, opens with the sector count, has the wall count right after the six-token sector records, and ends with the five player tokens |
| Persistence.Decode | main.cpp:159-175 | a file that loads gives a well-formed level whose counts and records are the tokens at their fixed positions |
| Persistence.StoreOkAfterLoad | main.cpp:164-171 | loading a well-formed level leaves an arena that satisfies the arena invariant |
| Persistence.EncodedSectorsAt | main.cpp:140-143 | sector i of a saved file occupies tokens 1+6i to 6+6i |
| Persistence.EncodedWallsAt | main.cpp:145-148 | wall j occupies the 8 tokens after the sectors and the wall count |
| Persistence.EncodeDecode | main.cpp:133-175 | saving a level with at least one sector and loading the file gives back the same sectors, walls and player |
| Persistence.DecodeEncode | main.cpp:133-175 | loading a file with at least one sector and saving again writes exactly the tokens that were read |
| Persistence.EncodeReadBack | main.cpp:133-175 | a level whose records were read off a token sequence at their save positions is saved as exactly that stretch of tokens |
| Persistence.DecodeReadBack | main.cpp:159-175 | a well-formed level whose records sit at their save positions is what those tokens load as |
| Persistence.EmptyStoreSavesNothing | main.cpp:138 | a level without sectors writes an empty file, and an empty file does not load |
| Grid2D.FixedWall | main.cpp:519-552 | the wall whose second point is placed keeps its first point, ends at the pointer in world units, takes G's texture and tiling, and gets a shade in [0, 90] for an edge angle in [0, 360] |
| Grid2D.SelectionReadsBeforeArena | main.cpp:437-454 | stepping the sector selection to "none", or computing the wall count with nothing selected, makes the code as written index `S[-1]` |
| Grid2D.Editor.constructor | main.cpp:650-660 | a fresh session has no sectors or walls, the player at (288, 48, 30) facing 0, the edit context at its defaults, the phase idle and zeroed grabs |
| Grid2D.Editor.SetPointer | main.cpp:375-376 | the pointer becomes the rounded grid point and nothing else changes |
| Grid2D.Editor.PressButton | main.cpp:392-431 | the edit context becomes `Press` of the old one and the store is unchanged |
| Grid2D.Editor.SelectSector | main.cpp:437-451 | the selection steps with wrap over [0, numSect] and the wall selection resets to 0; a selected sector's heights and surface and its first wall's texture and tiling are loaded, or the defaults when none is selected |
| Grid2D.Editor.SelectedWallCount | main.cpp:454 | the wall count `snw` of the selected sector: 0 when nothing is selected, at least 1 for a selected live sector, and never more than the wall arena |
| Grid2D.Editor.SelectWall | main.cpp:453-464 | the wall selection steps with wrap over [0, walls of the selected sector]; a selected wall's texture and tiling are loaded |
| Grid2D.Editor.WriteBack | main.cpp:251-267 | the selected live sector takes G's heights and surface; its selected wall, if any, takes G's texture and tiling; nothing else changes |
| Grid2D.Editor.ShiftOut | main.cpp:471-473 | the copy loop turns the arena into `ShiftDown` of the old arena |
| Grid2D.Editor.RemoveLive | main.cpp:469-474 | removing live sector d lowers numWall by its wall count and numSect by one, moves the later live sectors down one slot (`ShiftDown`) and keeps the session invariant |
| Grid2D.Editor.DeleteSector | main.cpp:466-478 | deleting the selected sector removes it from the live range, lowers numWall by its wall count and clears the selection; walls are untouched, and with nothing selected nothing changes |
| Grid2D.Editor.FindGrabs | main.cpp:569-583 | the nested scan over every live sector's walls computes `Grabs` of the visiting order |
| Grid2D.Editor.ScanWalls | main.cpp:570-581 | scanning one sector's walls in order extends the grab references to `Grabs` of the walls visited so far followed by that range |
| Grid2D.Editor.HitTest | main.cpp:562-584 | the grabs are cleared and then, when idle with the button held, set to the scan's result |
| Grid2D.Editor.Drag | main.cpp:591-612 | when idle with a first endpoint grabbed (`move[0] > -1`), every grabbed endpoint moves to the snapped pointer and every other wall field is kept; otherwise, including a lone grabbed second endpoint, nothing moves |
| Grid2D.Editor.StartSector | main.cpp:490-507 | (`StartedFrom`) when there is room, one sector claiming one new wall is appended, the wall collapsed to the pointer with G's texture and tiling, and the phase becomes placing with an open sector; without room nothing changes; the player is untouched |
| Grid2D.Editor.PlacePoint | main.cpp:510-557 | (`PlacedFrom`) a clockwise first edge is rolled back; otherwise the open wall ends at the pointer, and either the sector closes (a closed boundary of at least 2 walls) or grows by a wall starting at the point, staying an open chain |
| Grid2D.Editor.Rollback | main.cpp:511-517 | the last sector and the last wall are dropped and the phase becomes idle |
| Grid2D.Editor.CloseSector | main.cpp:520-543 | the last wall ends at the pointer with its shade, texture and tiling set, and the phase becomes idle; when the pointer is the open sector's first vertex, its walls form a closed boundary |
| Grid2D.Editor.ExtendSector | main.cpp:520-556 | the last wall ends at the pointer, the last sector's range grows by one, and a new unshaded wall collapsed to the pointer is added; an open sector stays an open chain |
| Grid2D.Editor.ClickGrid | main.cpp:486-558 | a grid click is ignored when idle and changes nothing; when armed it has exactly the effect `StartedFrom` states and when placing exactly the effect `PlacedFrom` states (new counters, arenas, phase and, on closing, a closed boundary); the player is never touched |
| Grid2D.Editor.StartThenReject | main.cpp:490-517 | a start followed by a click at or left of the first vertex restores the counters and the live sectors and walls, and the phase is idle |
| Grid2D.Editor.Save | main.cpp:133-157 | the written tokens are `Encode` of the live sectors, walls and player |
| Grid2D.Editor.SectorRecords | main.cpp:140-143 | the sector lines written are the tokens of the first n sector slots, in slot order |
| Grid2D.Editor.WallRecords | main.cpp:145-148 | the wall lines written are the tokens of the first m wall slots, in slot order |
| Grid2D.Editor.Load | main.cpp:159-175 | a file that decodes replaces the live part of the session with the decoded level, keeping the slots past it; a file that does not decode changes nothing |
| Grid2D.Editor.ReadSectors | main.cpp:165-167 | the first n sector slots take the records read from the file, and the rest are kept |
| Grid2D.Editor.ReadWalls | main.cpp:169-171 | the first m wall slots take the records read from the file, and the rest are kept |
| Grid2D.Editor.SaveThenLoad | main.cpp:133-175 | saving and loading back leaves the live part of any session and its edit context unchanged; a session without sectors writes an empty file, which loads as nothing |
| Grid2D.DrawTriangle | main.cpp:490-557 | on a fresh session, four counter-clockwise clicks give one sector of three walls forming a closed boundary |
| Grid2D.BeginAtCorner | main.cpp:490-507 | arming and clicking grid point (8, 8) on a fresh session opens a sector with one collapsed wall at (32, 32) |
| Grid2D.AddCorner | main.cpp:520-556 | a click right of the first vertex of an open sector below capacity extends it by one wall and keeps the first vertex |
| Grid2D.CloseAtCorner | main.cpp:520-543 | a click back on the first vertex of an open sector with at least two walls closes it into a closed boundary |
| Grid2D.DrawClockwise | main.cpp:490-517 | on a fresh session, a first edge to the left undoes the sector and leaves the session empty |

## Left out

- Rendering is not modelled: pixels, lines, numbers, the texture tables and the `darken` effect (`main.cpp:191-370`). Only the write-back inside `draw2D` is kept. The sector fields `d` and `surf` exist only for drawing and are not modelled.
- The shade angle is a parameter of `PlacePoint`, `ClickGrid`, `CloseSector` and `ExtendSector`. The `atan2f` computation and its conversion to degrees are floating point. Only the integer fold is modelled.
- Player movement (`movePlayer`, sin/cos tables), frame timing and keyboard input are not modelled. They are floating point and timing. Only the integer heading wrap is kept, as `TurnLeft` and `TurnRight`.
- File streams, console messages and pixel-range button dispatch are not modelled. Save and load produce and consume a sequence of integer tokens, and each button is a `Button` value or a method.
- Persistence.Decode: stricter than the source, which reads whatever the file holds. `Decode` rejects counts outside the arena, truncated files and sector ranges that break the arena invariant, and `Load` then changes nothing.
- Grid2D.Editor.StartSector: the source has no capacity check. A start with 128 sectors or 256 walls returns `CapacityExceeded` and changes nothing.
- Grid2D.Editor.PlacePoint: a point that would extend the open sector when `numWall` is 256, or when the open sector's `we` is already 256 or more, returns `CapacityExceeded` and changes nothing. In the second case `numWall` can still be below 256, because delete does not renumber later ranges; there the source writes `W[numWall]` inside the array and raises `we` past 256. A placing click with no sector or no wall left, which happens after deleting the open sector, returns `NoOpenSector` and changes nothing; the source reads `S[-1]` or `W[-1]` there.
- Grid2D.Editor.DeleteSector: a stale selection past the live sectors only clears the selection. The source subtracts that dead slot's wall count from `numWall` and also lowers `numSect` by one, so the last live sector, which was not selected, leaves the live range. A user reaches this by selecting the open sector while placing, having its first edge rejected, and pressing delete (see "## Findings").
- Grid2D.Editor.SelectWall: a selected wall index past the wall arena loads nothing. This can only come from a stale selection.
- The store invariant bounds the walls claimed by live sectors by `numWall` rather than equating them. Delete does not renumber the ranges of later sectors, so after deleting an earlier sector while placing, the open sector's range can point past `numWall` and grow until its first wall is slot `numWall - 1`. A rejected first edge then drops the whole claimed range of that sector but only one wall from `numWall`, so the claimed total falls below `numWall`. The model proves that the total never exceeds `numWall`.

## Findings

| source | as written | input that shows it | evidently intended | confidence | as-written member | corrected member |
|---|---|---|---|---|---|---|
| main.cpp:471-472 | the delete loop copies `S[x + 1]` into `S[x]` for x up to numSect - 1, so it reads `S[numSect]` | deleting any sector when `numSect == 128` reads `S[128]`, past the end of the arena | shift only the live sectors after the deleted one (x up to numSect - 2) | high, not executed | Geometry.SourceShiftReadsPastLive | Grid2D.Editor.ShiftOut |
| main.cpp:466-478 | delete acts on `S[selS - 1]` without checking that the slot is live, and lowers `numSect` regardless | select the open sector while placing, click left of its first vertex so the first edge is rejected (`selS` is now past `numSect`), press delete: the unselected last live sector leaves the live range and `numWall` loses the dead slot's wall count | a selection past the live sectors deletes nothing | medium, not executed | Geometry.SourceStaleDeleteDropsLive | Grid2D.Editor.DeleteSector |
| main.cpp:441-454 | sector selection loads `S[selS - 1]` before checking `selS == 0`, and the wall count `snw` is taken from `S[selS - 1]` on every panel click | stepping right from the last sector (or left from the first) to "none", or any panel click with nothing selected, reads `S[-1]` | load from the sector only when one is selected; the wall count is 0 when none is (`Grid2D.Editor.SelectedWallCount`) | high, not executed | Grid2D.SelectionReadsBeforeArena | Grid2D.Editor.SelectSector |
