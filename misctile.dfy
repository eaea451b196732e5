/**
 * Rail depot tiles (misctile_cmd.cpp): the integer rules by which trains
 * enter and leave a depot, the speed and track status a depot reports, the
 * ground it shows, and its refusal to be cleared automatically.  Everything
 * the source reads from the vehicle, the tile or the game settings is a
 * parameter here.
 */
module MiscTile {
  import opened Coord

  // ---------------------------------------------------------------------
  // Directions (direction_type.h and direction_func.h are not part of this
  // model; these are their values and helpers as the depot code uses them)
  // ---------------------------------------------------------------------

  /** A diagonal direction: the side of a tile a depot's entrance faces. */
  type DiagDirection = d: int | 0 <= d < 4
  const DIAGDIR_NE: DiagDirection := 0
  const DIAGDIR_SE: DiagDirection := 1
  const DIAGDIR_SW: DiagDirection := 2
  const DIAGDIR_NW: DiagDirection := 3
  const INVALID_DIAGDIR: int := 0xFF

  /** One of the eight directions a vehicle can face. */
  type Direction = d: int | 0 <= d < 8

  datatype Axis = AxisX | AxisY

  function DiagDirToDir(d: DiagDirection): Direction
  {
    2 * d + 1
  }

  function ReverseDiagDir(d: DiagDirection): DiagDirection
  {
    (d + 2) % 4
  }

  function DiagDirToAxis(d: DiagDirection): Axis
  {
    if d % 2 == 0 then AxisX else AxisY
  }

  // ---------------------------------------------------------------------
  // Entering and leaving a depot
  // ---------------------------------------------------------------------

  /** Sub-tile position where a train entering the depot disappears, per depot direction. */
  const FRACTCOORDS_ENTER_X: seq<int> := [0xA, 0x8, 0x4, 0x8]
  const FRACTCOORDS_ENTER_Y: seq<int> := [0x8, 0x4, 0x8, 0xA]
  /** Per depot direction, the sub-tile step a leaving train makes. */
  const DELTACOORD_LEAVEOFFSET_X: seq<int> := [-1, 0, 1, 0]
  const DELTACOORD_LEAVEOFFSET_Y: seq<int> := [0, 1, 0, -1]

  /** The position within its tile of a coordinate: `pos & 0x0F` on a two's
      complement integer, which is the non-negative remainder by 16. */
  function Fract(pos: int): (f: int)
    ensures 0 <= f < 16
    ensures pos - f == 16 * (pos / 16)
  {
    pos % 16
  }

  /** Truncation to a byte, as the assignment to a `byte` variable does. */
  function Byte(v: int): (b: int)
    ensures 0 <= b < 0x100
    ensures 0 <= v < 0x100 ==> b == v
    ensures (v - b) % 0x100 == 0
  {
    v % 0x100
  }

  /**
   * The step a leaving train makes along the depot's axis: -1 towards the
   * NE and NW, +1 towards the SE and SW, and no step across the axis.
   */
  function LeaveStep(d: DiagDirection): (s: int)
    ensures s == -1 <==> d == DIAGDIR_NE || d == DIAGDIR_NW
    ensures s == 1 <==> d == DIAGDIR_SE || d == DIAGDIR_SW
    ensures DELTACOORD_LEAVEOFFSET_X[d] == (if DiagDirToAxis(d) == AxisX then s else 0)
    ensures DELTACOORD_LEAVEOFFSET_Y[d] == (if DiagDirToAxis(d) == AxisY then s else 0)
  {
    DELTACOORD_LEAVEOFFSET_X[d] + DELTACOORD_LEAVEOFFSET_Y[d]
  }

  /** The sub-tile coordinate along the depot's axis. */
  function AxisFract(d: DiagDirection, x: int, y: int): int
  {
    if DiagDirToAxis(d) == AxisX then Fract(x) else Fract(y)
  }

  /** The sub-tile coordinate across the depot's axis. */
  function CrossFract(d: DiagDirection, x: int, y: int): int
  {
    if DiagDirToAxis(d) == AxisX then Fract(y) else Fract(x)
  }

  /** The entry point's coordinate across the depot's axis: the track's centre line. */
  function CrossEnter(d: DiagDirection): (c: int)
    ensures c == 8
  {
    if DiagDirToAxis(d) == AxisX then FRACTCOORDS_ENTER_Y[d] else FRACTCOORDS_ENTER_X[d]
  }

  /**
   * Where, along the depot's axis, the next wagon of a leaving train is
   * released: length + 1 steps beyond the entry point in the leaving
   * direction (before truncation to a byte).
   */
  function LeavePoint(d: DiagDirection, length: int): int
  {
    (if DiagDirToAxis(d) == AxisX then FRACTCOORDS_ENTER_X[d] else FRACTCOORDS_ENTER_Y[d])
      + (length + 1) * LeaveStep(d)
  }

  /**
   * TicksToLeaveDepot: the number of sub-tile steps the train at (xPos, yPos)
   * still has to make before its next wagon leaves a depot facing dir, where
   * length is the offset of the next wagon; negative once that point is
   * passed.  It is the signed distance to the leave point in the leaving
   * direction, and zero exactly there.
   */
  function TicksToLeaveDepot(dir: DiagDirection, xPos: int, yPos: int, length: int): (r: int)
    ensures r == (LeavePoint(dir, length) - AxisFract(dir, xPos, yPos)) * LeaveStep(dir)
    ensures r == 0 <==> AxisFract(dir, xPos, yPos) == LeavePoint(dir, length)
  {
    match dir
    case 0 => Fract(xPos) - (FRACTCOORDS_ENTER_X[dir] - (length + 1))
    case 1 => -(Fract(yPos) - (FRACTCOORDS_ENTER_Y[dir] + (length + 1)))
    case 2 => -(Fract(xPos) - (FRACTCOORDS_ENTER_X[dir] + (length + 1)))
    case 3 => Fract(yPos) - (FRACTCOORDS_ENTER_Y[dir] - (length + 1))
  }

  /** One sub-tile step in the leaving direction brings the departure one tick nearer. */
  lemma TicksCountDown(dir: DiagDirection, xPos: int, yPos: int, length: int)
    requires 0 <= AxisFract(dir, xPos, yPos) + LeaveStep(dir) < 16
    ensures TicksToLeaveDepot(dir, xPos + DELTACOORD_LEAVEOFFSET_X[dir], yPos + DELTACOORD_LEAVEOFFSET_Y[dir], length)
      == TicksToLeaveDepot(dir, xPos, yPos, length) - 1
  {
    var s := LeaveStep(dir);
    if DiagDirToAxis(dir) == AxisX {
      FractShift(xPos, s);
    } else {
      FractShift(yPos, s);
    }
  }

  lemma FractShift(pos: int, s: int)
    requires 0 <= Fract(pos) + s < 16
    ensures Fract(pos + s) == Fract(pos) + s
  {
    var q := pos / 16;
    assert pos + s == 16 * q + (Fract(pos) + s);
    DivModUnique(pos + s, 16, q, Fract(pos) + s);
  }

  /** What a train's arrival on a sub-tile position of a depot tile triggers. */
  datatype DepotEvent =
    | Continue            // nothing happens (VETSB_CONTINUE)
    | EnterDepot          // the train disappears into the depot (VETSB_ENTERED_WORMHOLE)
    | ReleaseNextWagon    // the wagon behind it, if any, becomes visible on the track

  /**
   * The coordinate rules of VehicleEnter_Misc for a vehicle arriving at
   * (x, y) on a depot tile facing dir, moving in direction vdir; length is
   * the offset of its next wagon.
   */
  function VehicleEnterMisc(isTrain: bool, vdir: Direction, dir: DiagDirection, x: int, y: int, length: int): (r: DepotEvent)
    ensures r == EnterDepot <==>
      isTrain && vdir == DiagDirToDir(ReverseDiagDir(dir)) &&
      Fract(x) == FRACTCOORDS_ENTER_X[dir] && Fract(y) == FRACTCOORDS_ENTER_Y[dir]
    ensures r == ReleaseNextWagon ==> isTrain && vdir == DiagDirToDir(dir) && CrossFract(dir, x, y) == CrossEnter(dir)
  {
    if !isTrain then Continue
    else
      var fx, fy := Fract(x), Fract(y);
      if vdir == DiagDirToDir(ReverseDiagDir(dir)) then
        if fx == FRACTCOORDS_ENTER_X[dir] && fy == FRACTCOORDS_ENTER_Y[dir] then EnterDepot else Continue
      else if vdir == DiagDirToDir(dir) then
        var leaveX := Byte(FRACTCOORDS_ENTER_X[dir] + (length + 1) * DELTACOORD_LEAVEOFFSET_X[dir]);
        var leaveY := Byte(FRACTCOORDS_ENTER_Y[dir] + (length + 1) * DELTACOORD_LEAVEOFFSET_Y[dir]);
        if fx == leaveX && fy == leaveY then ReleaseNextWagon else Continue
      else Continue
  }

  /**
   * For a train leaving along the depot's centre line, the next wagon is
   * released exactly where TicksToLeaveDepot reaches zero (for any wagon
   * offset that keeps the leave point within a byte).
   */
  lemma ReleaseExactlyAtZeroTicks(dir: DiagDirection, x: int, y: int, length: int)
    requires 0 <= length < 0xF0
    requires CrossFract(dir, x, y) == CrossEnter(dir)
    ensures VehicleEnterMisc(true, DiagDirToDir(dir), dir, x, y, length) == ReleaseNextWagon
      <==> TicksToLeaveDepot(dir, x, y, length) == 0
  {
    var L := LeavePoint(dir, length);
    if L < 0 {
      assert Byte(L) == L + 0x100 >= 16;
    }
  }

  // ---------------------------------------------------------------------
  // Tile description: the reported rail speed
  // ---------------------------------------------------------------------

  datatype AccelerationModel = Original | Realistic

  /** The speed limit reported for a depot under a non-original acceleration model. */
  const DEPOT_SPEED_CAP: int := 61

  /**
   * The rail_speed GetTileDesc_Misc reports for a depot whose rail type has
   * the given max_speed (0 meaning no limit).  Under the original model it is
   * max_speed itself; otherwise it is capped at 61, and an unlimited rail
   * type reports 61.
   */
  function DepotRailSpeed(maxSpeed: u16, model: AccelerationModel): (r: u16)
    ensures model == Original ==> r == maxSpeed
    ensures model != Original ==>
      0 < r <= DEPOT_SPEED_CAP && (maxSpeed == 0 || r <= maxSpeed) &&
      (r == maxSpeed || r == DEPOT_SPEED_CAP)
  {
    if model == Original then maxSpeed
    else if maxSpeed > 0 then (if maxSpeed < DEPOT_SPEED_CAP then maxSpeed else DEPOT_SPEED_CAP)
    else DEPOT_SPEED_CAP
  }

  /** The rail speed rule determines the value: nothing else meets its contract. */
  lemma DepotRailSpeedUnique(maxSpeed: u16, r: int)
    requires 0 < r <= DEPOT_SPEED_CAP && (maxSpeed == 0 || r <= maxSpeed)
    requires r == maxSpeed || r == DEPOT_SPEED_CAP
    ensures r == DepotRailSpeed(maxSpeed, Realistic)
  {
  }

  type Owner = o: int | 0 <= o < 0x100

  /** The strings the depot code refers to. */
  datatype StringID =
    | STR_LAI_RAIL_DESCRIPTION_TRAIN_DEPOT
    | STR_ERROR_AREA_IS_OWNED_BY_ANOTHER
    | STR_ERROR_BUILDING_MUST_BE_DEMOLISHED

  /** The part of a tile description the depot fills in. */
  class TileDesc {
    var owner0: Owner
    var str: StringID
    var buildDate: int
    var railSpeed: u16

    constructor ()
      ensures railSpeed == 0
    {
      owner0, str, buildDate, railSpeed := 0, STR_LAI_RAIL_DESCRIPTION_TRAIN_DEPOT, 0, 0;
    }
  }

  /** GetTileDesc_Misc: describe a depot tile owned by owner, built on buildDate. */
  method GetTileDescMisc(td: TileDesc, owner: Owner, buildDate: int, maxSpeed: u16, model: AccelerationModel)
    modifies td
    ensures td.owner0 == owner && td.str == STR_LAI_RAIL_DESCRIPTION_TRAIN_DEPOT && td.buildDate == buildDate
    ensures td.railSpeed == DepotRailSpeed(maxSpeed, model)
  {
    td.owner0 := owner;
    td.str := STR_LAI_RAIL_DESCRIPTION_TRAIN_DEPOT;
    td.buildDate := buildDate;
    td.railSpeed := maxSpeed;
    if model != Original {
      if td.railSpeed > 0 {
        td.railSpeed := if td.railSpeed < DEPOT_SPEED_CAP then td.railSpeed else DEPOT_SPEED_CAP;
      } else {
        td.railSpeed := DEPOT_SPEED_CAP;
      }
    }
  }

  // ---------------------------------------------------------------------
  // Track status
  // ---------------------------------------------------------------------

  datatype TransportType = TransportRail | TransportRoad | TransportWater | TransportAir

  /** The two diagonal tracks; a depot only ever has one of them. */
  datatype Track = TrackX | TrackY

  /** A track travelled in one of its two directions. */
  datatype Trackdir = Trackdir(track: Track, reversed: bool)

  /** The track status of a tile: the trackdirs present and those with a red signal. */
  datatype TrackStatus = TrackStatus(trackdirs: set<Trackdir>, redSignals: set<Trackdir>)

  function DiagDirToDiagTrack(d: DiagDirection): Track
  {
    if DiagDirToAxis(d) == AxisX then TrackX else TrackY
  }

  /** Both directions of every given track. */
  function TrackBitsToTrackdirBits(tracks: set<Track>): set<Trackdir>
  {
    (set t | t in tracks :: Trackdir(t, false)) + (set t | t in tracks :: Trackdir(t, true))
  }

  /**
   * GetTileTrackStatus_Misc: nothing for other transport types; for rail,
   * the depot's track in both directions when asked about no side in
   * particular (INVALID_DIAGDIR) or about the side the depot faces, and
   * nothing for any other side.  A depot never reports red signals.
   */
  function GetTileTrackStatusMisc(dir: DiagDirection, mode: TransportType, side: int): (r: TrackStatus)
    ensures r.redSignals == {}
    ensures r.trackdirs != {} <==> mode == TransportRail && (side == INVALID_DIAGDIR || side == dir)
    ensures forall td :: td in r.trackdirs ==> td.track == DiagDirToDiagTrack(dir)
    ensures r.trackdirs != {} ==>
      Trackdir(DiagDirToDiagTrack(dir), false) in r.trackdirs &&
      Trackdir(DiagDirToDiagTrack(dir), true) in r.trackdirs
  {
    if mode != TransportRail then TrackStatus({}, {})
    else
      var trackbits := if side == INVALID_DIAGDIR || side == dir then {DiagDirToDiagTrack(dir)} else {};
      var trackdirs := TrackBitsToTrackdirBits(trackbits);
      assert trackbits != {} ==> Trackdir(DiagDirToDiagTrack(dir), false) in trackdirs;
      TrackStatus(trackdirs, {})
  }

  // ---------------------------------------------------------------------
  // Periodic tile loop: the ground under the depot
  // ---------------------------------------------------------------------

  datatype Landscape = Temperate | Arctic | Tropic | Toyland

  /** The rail ground types the depot code tells apart; Other holds the rest. */
  datatype RailGroundType = Grass | IceDesert | Other(value: nat)

  /** The height compared with the snow line: a depot on a slope counts one level higher. */
  function DepotHeight(flat: bool, z: int): int
  {
    if flat then z else z + 1
  }

  /**
   * The ground TileLoop_Misc chooses: snow above the snow line in the arctic
   * climate, desert in a desert zone of the tropic climate, grass otherwise.
   */
  function DepotGround(landscape: Landscape, flat: bool, z: int, snowLine: int, desertZone: bool): (r: RailGroundType)
    ensures r == Grass || r == IceDesert
    ensures r == IceDesert <==>
      (landscape == Arctic && DepotHeight(flat, z) > snowLine) || (landscape == Tropic && desertZone)
  {
    match landscape
    case Arctic => if DepotHeight(flat, z) > snowLine then IceDesert else Grass
    case Tropic => if desertZone then IceDesert else Grass
    case _ => Grass
  }

  /** Raising an arctic depot never turns its snow back into grass. */
  lemma DepotSnowMonotone(flat: bool, z: int, z': int, snowLine: int, desertZone: bool)
    requires z <= z' && DepotGround(Arctic, flat, z, snowLine, desertZone) == IceDesert
    ensures DepotGround(Arctic, flat, z', snowLine, desertZone) == IceDesert
  {
  }

  /** The ground state of one depot tile, and whether it was marked for redrawing. */
  class RailDepotTile {
    var ground: RailGroundType
    var dirty: bool

    constructor (ground: RailGroundType)
      ensures this.ground == ground && !dirty
    {
      this.ground := ground;
      dirty := false;
    }
  }

  /** TileLoop_Misc: write the chosen ground, and mark the tile, only when it changes. */
  method TileLoopMisc(t: RailDepotTile, landscape: Landscape, flat: bool, z: int, snowLine: int, desertZone: bool)
    modifies t
    ensures t.ground == DepotGround(landscape, flat, z, snowLine, desertZone)
    ensures old(t.ground) == t.ground ==> unchanged(t)
    ensures old(t.ground) != t.ground ==> t.dirty
  {
    var ground: RailGroundType;
    match landscape {
      case Arctic =>
        var height := z;
        if !flat {
          height := height + 1;
        }
        ground := if height > snowLine then IceDesert else Grass;
      case Tropic =>
        ground := if desertZone then IceDesert else Grass;
      case _ =>
        ground := Grass;
    }
    if ground != t.ground {
      t.ground := ground;
      t.dirty := true;
    }
  }

  // ---------------------------------------------------------------------
  // Clearing
  // ---------------------------------------------------------------------

  /** DC_AUTO: the command flag of an automatic clearing (bit 1 of DoCommandFlag). */
  const DC_AUTO: bv32 := 0x02

  datatype ClearResult =
    | CmdError(message: StringID)
    | RemoveDepot     // the depot is removed as RemoveTrainDepot decides

  /**
   * ClearTile_Misc: an automatic clearing always fails, telling a company
   * that does not own the depot that the area is someone else's and the owner
   * that the depot must be demolished; any other clearing removes the depot.
   */
  function ClearTileMisc(flags: bv32, owner: Owner, currentCompany: Owner): (r: ClearResult)
    ensures r.CmdError? <==> flags & DC_AUTO != 0
    ensures r == CmdError(STR_ERROR_AREA_IS_OWNED_BY_ANOTHER) <==> flags & DC_AUTO != 0 && owner != currentCompany
    ensures r == CmdError(STR_ERROR_BUILDING_MUST_BE_DEMOLISHED) <==> flags & DC_AUTO != 0 && owner == currentCompany
  {
    if flags & DC_AUTO != 0 then
      if owner != currentCompany then CmdError(STR_ERROR_AREA_IS_OWNED_BY_ANOTHER)
      else CmdError(STR_ERROR_BUILDING_MUST_BE_DEMOLISHED)
    else RemoveDepot
  }
}
