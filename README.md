# Tile areas and rail depot tiles, modelled in Dafny

This project models two parts of OpenTTD.

The first is the tile-area geometry of `map/tilearea.h`. A `TileArea` is a rectangle of map tiles. It is given by a base (north) tile and a width and height. `Clear` makes an area the canonical empty area. `GetCenterTile` returns the tile at the centre, or half a tile towards larger x and y (to the south) of it when an extent is even. `get_closest_tile` clamps a reference tile into the rectangle, one axis at a time. `OrthogonalTileIterator` walks the rectangle in row-major order. It uses only two counters and additive index steps, and it ends by moving to the sentinel `INVALID_TILE`. `TILE_AREA_LOOP` drives it to that sentinel.

The second is the integer rules of the rail depot tile in `misctile_cmd.cpp`:
- the sub-tile points where trains enter and leave a depot;
- the countdown `TicksToLeaveDepot`;
- the rail speed and the track status a depot reports;
- the ground a depot shows in each climate;
- the refusal to clear a depot automatically.

Files:
- `coord.dfy` (module `Coord`): tile addressing on a map of `sizeX` by `sizeY` tiles. `TileX`, `TileY`, `TileXY`, `TileDiffXY`, `TILE_ADDXY`, `INVALID_TILE` and `ClampU` are defined here. `TileIndex` is an unsigned 32-bit value, and index arithmetic wraps modulo 2^32 (`Wrap32`). The map size is a `Grid` parameter, because the game reads it from globals.
- `tilearea.dfy` (module `MapTileArea`):
  - `TileArea` is a class with the fields `tile`, `w` and `h`.
  - `OrthogonalTileIterator` is a class with the source's fields `tile`, `w`, `rowdiff`, `x` and `y`. Two ghost fields give its abstract state. `Cells` is the whole walk. `Yielded` is the list of tiles stepped past so far.
  - `RowMajor` is a reference definition of the rectangle's tiles in row-major order, independent of the iterator.
- `misctile.dfy` (module `MiscTile`): each depot rule is a function of what the source reads from the vehicle, the tile and the settings. These inputs are parameters: direction, sub-tile position, the next wagon's offset `length`, climate, height, snow line, owner and command flags. `GetTileDesc_Misc` fills an out-struct and `TileLoop_Misc` writes tile state, so both are methods that update an instance of a small class (`TileDesc`, `RailDepotTile`).

Some properties of the code that the model keeps:
- The three-argument `TileArea` constructor takes `uint8` width and height. The model's constructor takes 8-bit values and stores them in the 16-bit fields.
- `get_closest_tile` tests only `tile == INVALID_TILE`. Take an area with a real base tile, zero width and a base column above 0. For it, `ClampU`'s assertion `min <= max` fails. `GetClosestTile` therefore requires that assertion, stated as `ClosestTileDefined`.
- `GetCenterTile` of an area less than 2 wide and less than 2 high is its own base tile. In particular the cleared area's centre is `INVALID_TILE`.
- The orthogonal iterator does not clamp the area to the map. A row that runs past the east edge continues on the next map row, because the walk only adds to the index. The iterator and `TILE_AREA_LOOP` are modelled for every area whose walk stays on real tiles. The geometric lemmas (`TileAreaLoopVisitsArea` and the `RowMajor` lemmas) are stated for areas inside the map.

## Model

| member | source | states |
|---|---|---|
| `Coord.ClampU` | src/map/tilearea.h:76 | the result lies in [lo, hi], is the input when the input is in range, and is the nearer bound otherwise; callers must give lo <= hi |
| `Coord.TileXYInverse` | src/map/tilearea.h:75-83 | for a column inside the map's width, TileX and TileY of TileXY(x, y) give back x and y |
| `Coord.AddWrapped` | src/map/tilearea.h:156 | adding a difference stored as a wrapped uint32 is plain addition while the sum stays a valid index |
| `MapTileArea.TileArea.constructor` | src/map/tilearea.h:30 | the base tile, width and height are stored as given; width and height arrive as 8-bit values |
| `MapTileArea.TileArea.Clear` | src/map/tilearea.h:43-48 | afterwards tile is INVALID_TILE and w and h are 0; the area has no other state |
| `MapTileArea.TileArea.GetCenterTile` | src/map/tilearea.h:60-63 | an area less than 2 wide and less than 2 high answers its own base tile, so the cleared area answers INVALID_TILE |
| `MapTileArea.CenterTileIsCentral` | src/map/tilearea.h:56-63 | for a non-empty area inside the map the centre is (x0 + w/2, y0 + h/2) with floor division; it lies in the area, at the exact centre for odd extents and half a tile towards larger x and y (to the south) for even ones |
| `MapTileArea.TileArea.GetClosestTile` | src/map/tilearea.h:70-84 | an area whose base tile is INVALID_TILE answers INVALID_TILE; callers must meet ClampU's assertion on both axes |
| `MapTileArea.ClearedAreaIsEmpty` | src/map/tilearea.h:40-72 | after Clear, the centre and closest-tile queries answer INVALID_TILE, the area has no tiles and covers none |
| `MapTileArea.NonEmptyAreaBase` | src/map/tilearea.h:70-80 | a non-empty area inside the map has a real base tile, and the closest-tile query is defined for it |
| `MapTileArea.ClosestTileInArea` | src/map/tilearea.h:74-83 | for a non-empty area inside the map the closest tile has x in [x0, x0+w-1] and y in [y0, y0+h-1] |
| `MapTileArea.ClosestTileFixesCovered` | src/map/tilearea.h:74-83 | a tile already in the area is its own closest tile |
| `MapTileArea.ClosestTileIdempotent` | src/map/tilearea.h:75-80 | applying the closest-tile query to its own result changes nothing |
| `MapTileArea.ClosestTileNearest` | src/map/tilearea.h:65-84 | on each axis no tile of the area is nearer to the reference tile than the closest tile |
| `MapTileArea.RowMajorLength` | src/map/tilearea.h:136-160 | the walk over a w-by-h rectangle has w*h tiles |
| `MapTileArea.RowMajorAt` | src/map/tilearea.h:136-160 | the (j*w + i)-th tile of the walk is origin + i + j*MapSizeX |
| `MapTileArea.RowMajorIncreasing` | src/map/tilearea.h:136-160 | when rows are no wider than the map, the walk's indices strictly increase and stay below origin + h*MapSizeX |
| `MapTileArea.RowMajorCovered` | src/map/tilearea.h:136-160 | every tile of the walk over an area inside the map is a real tile (below INVALID_TILE) and lies in the area |
| `MapTileArea.RowMajorOrder` | src/map/tilearea.h:136-160 | row-major order in map coordinates: the (j*w + i)-th tile is the tile at (x0 + i, y0 + j) |
| `MapTileArea.RectTileVisited` | src/map/tilearea.h:136-160 | every tile of the area appears in the walk |
| `MapTileArea.RowMajorComplete` | src/map/tilearea.h:136-160 | a tile is in the walk if and only if it lies in the area |
| `MapTileArea.RowMajorUnique` | src/map/tilearea.h:136-160 | no tile appears twice in the walk |
| `MapTileArea.WalkStepInRow` | src/map/tilearea.h:152-153 | inside a row, decrementing x and adding 1 to the tile moves to the next tile of the walk |
| `MapTileArea.WalkStepToNextRow` | src/map/tilearea.h:154-156 | at the end of a row that is not the last, resetting x to w, decrementing y and adding MapSizeX + 1 - w moves to the first tile of the next row |
| `MapTileArea.WalkStepPastEnd` | src/map/tilearea.h:157-158 | after the last tile of the last row the walk is exhausted and the tile is INVALID_TILE |
| `MapTileArea.OrthogonalTileIterator.constructor` | src/map/tilearea.h:167-171 | starts at the base tile, or at INVALID_TILE when w or h is 0 (so nothing is visited); x = w, y = h, rowdiff = TileDiffXY(1,1) - w as uint; nothing is yielded yet and the walk ahead is the area's row-major tiles; accepted for any area of a valid map whose walk stays on real tiles, including areas that run past the east edge |
| `MapTileArea.OrthogonalTileIterator.Copy` | src/map/tilearea.h:175 | a new iterator with the same tile, counters and walk position |
| `MapTileArea.OrthogonalTileIterator.Next` | src/map/tilearea.h:148-160 | requires a current tile; the three branches of the counter update (within a row x-1 and tile+1; at a row end x = w, y-1 and tile + rowdiff; after the last row x = y = 0 and INVALID_TILE), and the new tile is the next tile of the walk, or INVALID_TILE exactly when every tile has been yielded; the invariant ties tile to (w - x, h - y) |
| `MapTileArea.OrthogonalTileIterator.Increment` | src/map/tilearea.h:123-128 | advancing an exhausted iterator is a precondition violation; otherwise the current tile is appended to the yielded tiles and the next one becomes current; stepping past the last tile leaves x = y = 0 |
| `MapTileArea.OrthogonalTileIterator.Clone` | src/map/tilearea.h:173-176 | a fresh, independent iterator at the same position with the same counters |
| `MapTileArea.TileAreaLoop` | src/map/tilearea.h:204-210 | for any area of a valid map whose walk stays on real tiles, the loop body sees exactly the walk's tiles in row-major order, then the loop stops at INVALID_TILE |
| `MapTileArea.TileAreaLoopVisitsArea` | src/map/tilearea.h:204-210 | the loop visits w*h tiles, each once, and a tile is visited if and only if it lies in the area |
| `MiscTile.Fract` | src/misctile_cmd.cpp:349-350 | `pos & 0x0F` is the position within the tile, in [0, 16), with pos minus it a multiple of 16 |
| `MiscTile.Byte` | src/misctile_cmd.cpp:371-374 | truncation to a byte lies in [0, 256), keeps values already in range, and differs from its input by a multiple of 256, so a negative leave point wraps to 256 plus it |
| `MiscTile.LeaveStep` | src/misctile_cmd.cpp:312-313 | the leave offsets are -1 for NE and NW and +1 for SE and SW, along the depot's axis, and 0 across it |
| `MiscTile.CrossEnter` | src/misctile_cmd.cpp:310-311 | across the depot's axis the entry point is on the centre line, 8 |
| `MiscTile.TicksToLeaveDepot` | src/misctile_cmd.cpp:321-335 | the ticks are the signed distance, in the leaving direction, from the sub-tile position along the depot's axis to the leave point; zero exactly there |
| `MiscTile.TicksCountDown` | src/misctile_cmd.cpp:321-335 | one sub-tile step in the leaving direction lowers the count by one |
| `MiscTile.VehicleEnterMisc` | src/misctile_cmd.cpp:337-386 | a vehicle enters the depot exactly when it is a train moving opposite to the depot's direction at the entry table's sub-tile position; the next wagon is released only for a train moving in the depot's direction on the centre line |
| `MiscTile.ReleaseExactlyAtZeroTicks` | src/misctile_cmd.cpp:367-382 | for a train leaving along the centre line, the next wagon is released exactly where TicksToLeaveDepot is zero |
| `MiscTile.DepotRailSpeed` | src/misctile_cmd.cpp:222-230 | original acceleration: the rail type's max_speed; otherwise a speed in [1, 61], at most max_speed when max_speed is set, and either max_speed or 61 |
| `MiscTile.DepotRailSpeedUnique` | src/misctile_cmd.cpp:224-230 | the capped speed is the only value meeting that description |
| `MiscTile.GetTileDescMisc` | src/misctile_cmd.cpp:212-231 | fills in owner, description string, build date and the rail speed above |
| `MiscTile.GetTileTrackStatusMisc` | src/misctile_cmd.cpp:234-245 | empty status for non-rail modes; for rail, the depot's diagonal track in both directions exactly when side is INVALID_DIAGDIR or the depot's direction, else nothing; never red signals |
| `MiscTile.DepotGround` | src/misctile_cmd.cpp:263-282 | ice when arctic and the height, one more on a slope, is above the snow line; desert when tropic in a desert zone; grass otherwise |
| `MiscTile.DepotSnowMonotone` | src/misctile_cmd.cpp:264-272 | in the arctic a higher depot keeps its snow |
| `MiscTile.TileLoopMisc` | src/misctile_cmd.cpp:257-288 | the tile ends with the chosen ground; it is written and marked for redraw only when the ground changes, otherwise left untouched |
| `MiscTile.ClearTileMisc` | src/misctile_cmd.cpp:195-209 | with DC_AUTO clearing always fails, with "owned by another" when the current company is not the owner and "must be demolished" when it is; without DC_AUTO the depot removal goes ahead |

## Left out

- map/coord.h is not part of this model. `TileX` and `TileY` are written as remainder and quotient by the map width. These equal the source's mask and shift for the power-of-two map sides the game uses.
- The `TileArea` default constructor leaves its fields uninitialised, so it is not modelled.
- `TileArea`'s two-corner constructor, `Set`, both `Add` overloads, `Intersects`, `Contains` and `ClampToMap`: these are only declared in the header. Their definitions (map/tilearea.cpp) are not part of this model. `Covers` gives the rectangle's meaning that `Contains` would implement.
- `DiagonalTileIterator`: its constructor and `Next` are only declared, so the diagonal walk is not modelled. Its `Clone` would only copy fields that nothing here reads.
- The abstract `TileIterator` base class and its virtual dispatch are folded into `OrthogonalTileIterator`. `Clone` returns a fresh object rather than a heap pointer the caller must delete.
- MapTileArea.OrthogonalTileIterator.constructor: requires every index of the walk to be a real tile. For other areas an index can wrap past 2^32 or equal INVALID_TILE at some point of the walk, including its base tile (an area with base INVALID_TILE and non-zero w and h, for which the source's loop runs zero times). That would end `TILE_AREA_LOOP` early. The model does not follow such walks. Areas that only run past the east or south edge without reaching those values are modelled.
- MapTileArea.TileAreaLoop: requires every index of the walk to be a real tile, for the same reason.
- MapTileArea.CenterTileIsCentral: stated only for non-empty areas inside the map. Outside the map the centre index may wrap and has no coordinate meaning.
- MapTileArea.ClosestTileInArea: stated only for non-empty areas inside the map. The same holds for `ClosestTileFixesCovered`, `ClosestTileIdempotent` and `ClosestTileNearest`.
- MiscTile.VehicleEnterMisc: the assertion at misctile_cmd.cpp:353 is not modelled, because `DistanceFromTileEdge` is not part of this model.
- The vehicle-state changes in `VehicleEnter_Misc` are not modelled: hiding and reversing the train, `VehicleEnterDepot`, window invalidation, and un-hiding the next wagon. `ReleaseNextWagon` says only that the release point is reached, whether or not a next wagon exists.
- MiscTile.ReleaseExactlyAtZeroTicks: stated for wagon offsets below 240. Larger offsets let the byte truncation of the leave point wrap back into the tile. Real offsets are a few sub-tile units.
- `GetTileDesc_Misc` is simplified. The depot's build date and the rail type's `max_speed` are parameters, and the rail type's name parameter (`SetDParamX`) is not modelled.
- `GetTileTrackStatus_Misc`: `sub_mode` is unused by the source and is not a parameter. The numeric bit layout of `TrackStatus` (`CombineTrackStatus`, `TrackBitsToTrackdirBits`, track_func.h) is modelled as sets of track directions.
- `TileLoop_Misc`: `MarkTileDirtyByTile` is modelled as a `dirty` flag. The slope, height, snow line and tropic zone are parameters.
- `ClearTile_Misc` without `DC_AUTO` goes to `RemoveTrainDepot`. Its effects are not modelled: ownership check, vehicle check, reservations, infrastructure counts, depot deletion, signal buffer and pathfinder cache. The model only returns `RemoveDepot`.
- `DrawTile_Misc` and `DrawTrainDepotSprite` are not modelled, because they are drawing code.
- `ClickTile_Misc` is not modelled, because it is GUI.
- `GetSlopePixelZ_Misc` and `GetFoundation_Misc` are not modelled. They delegate to height and foundation helpers that are not part of this model.
- `ChangeTileOwner_Misc` and `TerraformTile_Misc` are not modelled. They work through company pools and command plumbing.
- The `_tile_type_misc_procs` table is not modelled.
