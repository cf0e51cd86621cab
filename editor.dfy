/** The editor session: the sector and wall arenas with their live counters, the
    player record and the edit context, and the operations the mouse and the side
    panel perform on them. */
module Grid2D {
  import opened Geometry
  import opened EditRules
  import opened Persistence

  /** What a click on the grid did. */
  datatype ClickResult =
    | Ignored           // no sector is being added
    | Started           // a sector was opened with one wall collapsed to the point
    | WindingRejected   // the first edge did not run to the right: the sector is undone
    | Closed            // the point met the sector's first vertex: the sector is finished
    | Extended          // the open wall was fixed and a new wall begins at the point
    | CapacityExceeded  // the sector or wall the click would add does not fit
    | NoOpenSector      // placing, but there is no sector or wall to place into

  /** The open wall of a sector under construction once its second endpoint is set to
      the pointer in world units: shaded by the edge direction `angle` and given the
      edited wall texture and tiling. */
  function FixedWall(w: Wall, g: Grid, angle: int): (r: Wall)
    ensures r.x1 == w.x1 && r.y1 == w.y1
    ensures r.x2 == g.mx * g.scale && r.y2 == g.my * g.scale
    ensures r.wt == g.wt && r.u == g.wu && r.v == g.wv
    ensures 0 <= angle <= 360 ==> 0 <= r.shade <= 90
  {
    w.(x2 := g.mx * g.scale, y2 := g.my * g.scale, shade := ShadeFold(angle),
       wt := g.wt, u := g.wu, v := g.wv)
  }

  /** The sector slot the source's sector selection reads from: it indexes the
      sector arena with selS - 1 before it checks for selS == 0. */
  function SelectionReadIndex(selS: int): (i: int)
    ensures i < 0 <==> selS <= 0
  {
    selS - 1
  }

  /** Stepping the sector selection left from the first sector to "none" or right
      from the last sector to "none" makes the source read slot -1 of the sector
      arena, and so does the wall count it takes on every panel click while nothing
      is selected. */
  lemma SelectionReadsBeforeArena(numSect: int)
    requires 0 <= numSect
    ensures SelectionReadIndex(WrapNext(numSect, numSect)) == -1
    ensures 0 < numSect ==> SelectionReadIndex(WrapPrev(1, numSect)) == -1
    ensures SelectionReadIndex(0) == -1
  {
  }

  class Editor {
    /** The wall arena `W` and the sector arena `S`. */
    const walls: array<Wall>
    const sectors: array<Sector>
    /** Live counters: sectors [0, numSect) and walls [0, numWall) are in use. */
    var numSect: int
    var numWall: int
    var player: Player
    var g: Grid

    /** The arrays have the arena sizes, the live sectors fit the sector arena and
        every sector slot's wall range lies inside the wall arena. */
    ghost predicate Arenas()
      reads this, sectors
    {
      && walls.Length == WallCap
      && sectors.Length == SectCap
      && 0 <= numSect <= SectCap
      && (forall i :: 0 <= i < SectCap ==> SlotInArena(sectors[i]))
    }

    /** The session invariant: the arena invariant of the store, four grab slots that
        name walls inside the arena when tagged, a phase of 0, 1 or 3 and a selection
        in range, with no wall selected while no sector is. */
    ghost predicate Valid()
      reads this, sectors
    {
      && Arenas()
      && StoreOk(sectors[..], numSect, numWall)
      && |g.move| == 4
      && (g.addSect == Idle || g.addSect == Armed || g.addSect == Placing)
      && 0 <= g.selS <= SectCap && 0 <= g.selW
      && (g.selS == 0 ==> g.selW == 0)
      && ((g.move[1] == 1 || g.move[1] == 2) ==> 0 <= g.move[0] < WallCap)
      && ((g.move[3] == 1 || g.move[3] == 2) ==> 0 <= g.move[2] < WallCap)
    }

    /** The pointer in world units. */
    function Point(): (int, int)
      reads this
    {
      (g.mx * g.scale, g.my * g.scale)
    }

    /** The live part of the session, as the level file stores it. */
    function Snapshot(): Level
      reads this, walls, sectors
      requires Valid()
    {
      Level(sectors[..numSect], walls[..numWall], player)
    }

    /** The live part of a valid session is a well-formed level. */
    lemma SnapshotWellFormed()
      requires Valid()
      ensures WellFormedLevel(Snapshot())
    {
      assert sectors[..numSect] == sectors[..][..numSect];
    }

    /** The last sector is being drawn: its walls end at the wall counter and chain
      into one another. */
    ghost predicate OpenSector()
      reads this, walls, sectors
      requires Valid()
    {
      && g.addSect == Placing
      && 0 < numSect
      && sectors[numSect - 1].we == numWall
      && sectors[numSect - 1].ws < numWall
      && Chained(walls[..], sectors[numSect - 1].ws, numWall)
    }

    /** Whether the grab references hold endpoint `e` of wall `i`. */
    predicate Grabbed(i: int, e: int)
      reads this
      requires |g.move| == 4
    {
      (g.move[0] == i && g.move[1] == e) || (g.move[2] == i && g.move[3] == e)
    }

    /** Number of walls of the selected sector; 0 when none is selected. */
    function SelectedWallCount(): (n: int)
      reads this, sectors
      requires Valid()
      ensures 0 <= n <= WallCap
      ensures g.selS == 0 ==> n == 0
      ensures 0 < g.selS <= numSect ==> 0 < n
    {
      if g.selS == 0 then 0 else Length(sectors[g.selS - 1])
    }

    /** The arena slot of wall `k` (counted from 1) of the selected sector. */
    function SelectedWall(k: int): int
      reads this, sectors
      requires Valid() && 0 < g.selS
    {
      sectors[g.selS - 1].ws + k - 1
    }

    /** The order in which the hit test visits walls: each live sector's range in turn. */
    ghost function VisitOrder(): (r: seq<int>)
      reads this, sectors
      requires Arenas()
      ensures forall k :: 0 <= k < |r| ==> 0 <= r[k] < WallCap
    {
      assert forall i :: 0 <= i < numSect ==> sectors[..numSect][i] == sectors[i];
      Visits(sectors[..numSect])
    }

    /** What a click on the grid while placing points does, decided from the state
        before the click. */
    ghost function PlaceOutcome(): ClickResult
      reads this, walls, sectors
      requires Valid()
    {
      if numSect == 0 || numWall == 0 then NoOpenSector
      else
        var open := sectors[numSect - 1];
        var first := walls[open.ws];
        if open.ws == numWall - 1 && Point().0 <= first.x1 then WindingRejected
        else if Point().0 == first.x1 && Point().1 == first.y1 then Closed
        else if numWall >= WallCap || open.we >= WallCap then CapacityExceeded
        else Extended
    }

    /** A fresh session: empty arenas, the player at its starting spot, the edit
        context at its defaults and no sector being added. */
    constructor ()
      ensures Valid() && fresh(walls) && fresh(sectors)
      ensures numSect == 0 && numWall == 0
      ensures player == Player(288, 48, 30, 0, 0)
      ensures IsDefault(g) && ParamsOk(g) && g.addSect == Idle
      ensures g.mx == 0 && g.my == 0 && g.move == [0, 0, 0, 0]
      ensures forall i :: 0 <= i < WallCap ==> walls[i] == Wall(0, 0, 0, 0, 0, 0, 0, 0)
      ensures forall i :: 0 <= i < SectCap ==> sectors[i] == Sector(0, 0, 0, 0, 0, 0)
    {
      walls := new Wall[WallCap](_ => Wall(0, 0, 0, 0, 0, 0, 0, 0));
      sectors := new Sector[SectCap](_ => Sector(0, 0, 0, 0, 0, 0));
      numSect, numWall := 0, 0;
      player := Player(288, 48, 30, 0, 0);
      g := InitGlobals(Grid(0, 0, Idle, 0, 0, 0, 0, 0, 0, 0, 0, [0, 0, 0, 0], 0, 0));
      new;
      assert sectors[..][..0] == [];
    }

    /** Records the pointer at window pixel (x, y), rounded to the grid. */
    method SetPointer(x: int, y: int)
      requires Valid() && 0 <= x && 0 <= y
      modifies this
      ensures Valid()
      ensures g == old(g).(mx := GridPoint(x, y).0, my := GridPoint(x, y).1)
      ensures numSect == old(numSect) && numWall == old(numWall) && player == old(player)
    {
      var p := GridPoint(x, y);
      g := g.(mx := p.0, my := p.1);
    }

    /** A side-panel button that changes the edit context only. */
    method PressButton(b: Button)
      requires Valid()
      modifies this
      ensures Valid()
      ensures g == Press(old(g), b)
      ensures numSect == old(numSect) && numWall == old(numWall) && player == old(player)
    {
      g := Press(g, b);
    }

    /** Steps the sector selection (0 = none) cyclically over [0, numSect] and loads
        the selected sector's heights and surface and its first wall's texture and
        tiling, or the defaults when nothing is selected. */
    method SelectSector(next: bool)
      requires Valid()
      modifies this
      ensures Valid()
      ensures numSect == old(numSect) && numWall == old(numWall) && player == old(player)
      ensures g.selS == if next then WrapNext(old(g.selS), numSect) else WrapPrev(old(g.selS), numSect)
      ensures g.selW == 0
      ensures g.selS == 0 ==> g == InitGlobals(old(g))
      ensures 0 < g.selS ==>
                var s := sectors[g.selS - 1];
                var w := walls[s.ws];
                g == old(g).(selS := g.selS, selW := 0, z1 := s.z1, z2 := s.z2, st := s.st,
                             ss := s.ss, wt := w.wt, wu := w.u, wv := w.v)
    {
      var s := if next then WrapNext(g.selS, numSect) else WrapPrev(g.selS, numSect);
      if s == 0 {
        g := InitGlobals(g);
      } else {
        var sec := sectors[s - 1];
        var w := walls[sec.ws];
        g := g.(selS := s, selW := 0, z1 := sec.z1, z2 := sec.z2, st := sec.st, ss := sec.ss,
                wt := w.wt, wu := w.u, wv := w.v);
      }
    }

    /** Steps the wall selection (0 = all) cyclically over [0, walls of the selected
        sector] and loads the selected wall's texture and tiling. */
    method SelectWall(next: bool)
      requires Valid()
      modifies this
      ensures Valid()
      ensures numSect == old(numSect) && numWall == old(numWall) && player == old(player)
      ensures g.selW == if next then WrapNext(old(g.selW), old(SelectedWallCount()))
                        else WrapPrev(old(g.selW), old(SelectedWallCount()))
      ensures 0 < g.selW && SelectedWall(g.selW) < WallCap ==>
                var w := walls[SelectedWall(g.selW)];
                g == old(g).(selW := g.selW, wt := w.wt, wu := w.u, wv := w.v)
      ensures !(0 < g.selW && SelectedWall(g.selW) < WallCap) ==> g == old(g).(selW := g.selW)
    {
      var snw := SelectedWallCount();
      var k := if next then WrapNext(g.selW, snw) else WrapPrev(g.selW, snw);
      if 0 < k && SelectedWall(k) < WallCap {
        var w := walls[SelectedWall(k)];
        g := g.(selW := k, wt := w.wt, wu := w.u, wv := w.v);
      } else {
        g := g.(selW := k);
      }
    }

    /** Writes the edit context back into the selected sector (heights and surface)
        and, when a single wall is selected, into that wall (texture and tiling). */
    method WriteBack()
      requires Valid()
      modifies sectors, walls
      ensures Valid()
      ensures 0 < g.selS <= numSect ==>
                var s := g.selS - 1;
                var sec := old(sectors[s]);
                var k := sec.ws + g.selW - 1;
                && sectors[..] == old(sectors[..])[s := sec.(z1 := g.z1, z2 := g.z2, st := g.st, ss := g.ss)]
                && walls[..] == if 0 < g.selW <= Length(sec)
                                then old(walls[..])[k := old(walls[k]).(wt := g.wt, u := g.wu, v := g.wv)]
                                else old(walls[..])
      ensures !(0 < g.selS <= numSect) ==> sectors[..] == old(sectors[..]) && walls[..] == old(walls[..])
    {
      if 0 < g.selS <= numSect {
        var s := g.selS - 1;
        var sec := sectors[s];
        StoreOkSameRange(sectors[..], numSect, numWall, s, sec.(z1 := g.z1, z2 := g.z2, st := g.st, ss := g.ss));
        sectors[s] := sec.(z1 := g.z1, z2 := g.z2, st := g.st, ss := g.ss);
        if 0 < g.selW <= Length(sec) {
          var k := sec.ws + g.selW - 1;
          walls[k] := walls[k].(wt := g.wt, u := g.wu, v := g.wv);
        }
      }
    }

    /** Removes live sector `d` of `n` from the sector arena by copying each later
        live sector one slot down. */
    method ShiftOut(d: int, n: int)
      requires sectors.Length == SectCap && 0 <= d < n <= SectCap
      modifies sectors
      ensures sectors[..] == ShiftDown(old(sectors[..]), d, n)
    {
      var x := d;
      while x < n - 1
        invariant d <= x <= n - 1
        invariant forall i :: d <= i < x ==> sectors[i] == old(sectors[i + 1])
        invariant forall i :: 0 <= i < d || x <= i < SectCap ==> sectors[i] == old(sectors[i])
      {
        sectors[x] := sectors[x + 1];
        x := x + 1;
      }
      assert sectors[..] == ShiftDown(old(sectors[..]), d, n);
    }

    /** Deletes the selected sector: the later live sectors move down one slot, the
        wall counter drops by the deleted sector's wall count and the selection is
        cleared. With nothing selected nothing happens; a selection past the live
        sectors is only cleared. */
    method DeleteSector()
      requires Valid()
      modifies this, sectors
      ensures Valid()
      ensures player == old(player)
      ensures old(g.selS) == 0 ==>
                numSect == old(numSect) && numWall == old(numWall) && g == old(g)
                && sectors[..] == old(sectors[..])
      ensures 0 < old(g.selS) <= old(numSect) ==>
                var d := old(g.selS) - 1;
                && numSect == old(numSect) - 1
                && numWall == old(numWall) - Length(old(sectors[d]))
                && sectors[..] == ShiftDown(old(sectors[..]), d, old(numSect))
                && g == old(g).(selS := 0, selW := 0)
      ensures old(numSect) < old(g.selS) ==>
                numSect == old(numSect) && numWall == old(numWall)
                && sectors[..] == old(sectors[..]) && g == old(g).(selS := 0, selW := 0)
    {
      if g.selS == 0 {
        return;
      }
      if g.selS <= numSect {
        RemoveLive(g.selS - 1);
      }
      g := g.(selS := 0, selW := 0);
    }

    /** Removes live sector `d` and its walls from the counters, shifting the later
        live sectors down one slot. */
    method RemoveLive(d: int)
      requires Valid() && 0 <= d < numSect
      modifies this, sectors
      ensures Valid()
      ensures g == old(g) && player == old(player)
      ensures numSect == old(numSect) - 1 && numWall == old(numWall) - Length(old(sectors[d]))
      ensures sectors[..] == ShiftDown(old(sectors[..]), d, old(numSect))
    {
      var n := numSect;
      StoreOkRemove(sectors[..], n, numWall, d);
      numWall := numWall - Length(sectors[d]);
      ShiftOut(d, n);
      numSect := n - 1;
      assert forall i :: 0 <= i < SectCap ==> SlotInArena(sectors[..][i]);
    }

    /** The hit test's scan: walks every live sector's walls in order and keeps the
        last wall whose first endpoint and the last wall whose second endpoint lie
        within the +-3 window of the pointer. */
    method FindGrabs() returns (move: seq<int>)
      requires Arenas()
      ensures move == Grabs(walls[..], VisitOrder(), Point().0, Point().1)
    {
      move := [-1, -1, -1, -1];
      var px, py := g.mx * g.scale, g.my * g.scale;
      ghost var ss := sectors[..numSect];
      assert forall i :: 0 <= i < |ss| ==> SlotInArena(ss[i]) by {
        assert forall i :: 0 <= i < |ss| ==> ss[i] == sectors[i];
      }
      assert ss[..0] == [];
      var s := 0;
      while s < numSect
        invariant 0 <= s <= |ss|
        invariant move == Grabs(walls[..], Visits(ss[..s]), px, py)
      {
        var sec := sectors[s];
        assert sec == ss[s];
        move := ScanWalls(sec.ws, sec.we, px, py, Visits(ss[..s]), move);
        VisitsStep(ss, s);
        s := s + 1;
      }
      assert ss[..s] == ss;
    }

    /** One sector's part of the scan: visits walls lo, ..., hi - 1 after the walls of
        `order`, updating the grab references of that earlier scan. */
    method ScanWalls(lo: int, hi: int, px: int, py: int, ghost order: seq<int>, move0: seq<int>)
      returns (move: seq<int>)
      requires walls.Length == WallCap && 0 <= lo <= hi <= WallCap
      requires forall k :: 0 <= k < |order| ==> 0 <= order[k] < WallCap
      requires move0 == Grabs(walls[..], order, px, py)
      ensures move == Grabs(walls[..], order + Range(lo, hi), px, py)
    {
      move := move0;
      var w := lo;
      assert order + Range(lo, w) == order;
      while w < hi
        invariant lo <= w <= hi
        invariant move == Grabs(walls[..], order + Range(lo, w), px, py)
      {
        assert order + Range(lo, w + 1) == (order + Range(lo, w)) + [w];
        GrabsStep(walls[..], order + Range(lo, w), w, px, py);
        var wall := walls[w];
        if NearPoint(wall.x1, wall.y1, px, py) {
          move := move[0 := w][1 := 1];
        }
        if NearPoint(wall.x2, wall.y2, px, py) {
          move := move[2 := w][3 := 2];
        }
        w := w + 1;
      }
    }

    /** Clears the grab references and, when no sector is being added and the
        pointer button is held, records the last visited wall whose first endpoint
        and the last visited wall whose second endpoint lie near the pointer. */
    method HitTest(held: bool)
      requires Valid()
      modifies this
      ensures Valid()
      ensures numSect == old(numSect) && numWall == old(numWall) && player == old(player)
      ensures g == old(g).(move := if g.addSect == Idle && held
                                   then Grabs(walls[..], VisitOrder(), Point().0, Point().1)
                                   else [-1, -1, -1, -1])
    {
      var move := [-1, -1, -1, -1];
      if g.addSect == Idle && held {
        move := FindGrabs();
      }
      g := g.(move := move);
    }

    /** Dragging with the pointer at window pixel (x, y) over the grid: when no sector
        is being added and an endpoint is grabbed, every grabbed endpoint moves to the
        pointer snapped to the drag grid; nothing else changes. */
    method Drag(x: int, y: int)
      requires Valid()
      modifies walls
      ensures Valid()
      ensures var active := x < 580 && g.addSect == Idle && g.move[0] > -1;
              var p := DragPoint(x, y);
              forall i :: 0 <= i < WallCap ==>
                walls[i] == MoveEnds(old(walls[i]), active && Grabbed(i, 1), active && Grabbed(i, 2), p.0, p.1)
    {
      if x < 580 && g.addSect == Idle && g.move[0] > -1 {
        var p := DragPoint(x, y);
        var aw, ax, bw, bx := g.move[0], g.move[1], g.move[2], g.move[3];
        if ax == 1 {
          walls[aw] := walls[aw].(x1 := p.0, y1 := p.1);
        }
        if ax == 2 {
          walls[aw] := walls[aw].(x2 := p.0, y2 := p.1);
        }
        if bx == 1 {
          walls[bw] := walls[bw].(x1 := p.0, y1 := p.1);
        }
        if bx == 2 {
          walls[bw] := walls[bw].(x2 := p.0, y2 := p.1);
        }
      }
    }

    /** What a first click while armed leaves behind, for result `r`: with room, one
        sector claiming one new wall is appended, the wall collapsed to the pointer with
        the edited texture and tiling, and the phase moves on to placing points with the
        sector open; without room nothing changes. The player is never touched. */
    twostate predicate StartedFrom(r: ClickResult)
      reads this, walls, sectors
      requires old(Valid()) && Valid()
    {
      && player == old(player)
      && (r == Started || r == CapacityExceeded)
      && (r == CapacityExceeded <==> old(numSect) >= SectCap || old(numWall) >= WallCap)
      && (r == CapacityExceeded ==>
            numSect == old(numSect) && numWall == old(numWall) && g == old(g)
            && sectors[..] == old(sectors[..]) && walls[..] == old(walls[..]))
      && (r == Started ==>
            var p := old(Point());
            && numSect == old(numSect) + 1 && numWall == old(numWall) + 1
            && g == old(g).(addSect := Placing)
            && sectors[..] == old(sectors[..])[old(numSect) := Sector(old(numWall), old(numWall) + 1, g.z1, g.z2, g.st, g.ss)]
            && walls[..] == old(walls[..])[old(numWall) := old(walls[numWall]).(x1 := p.0, y1 := p.1, x2 := p.0, y2 := p.1, wt := g.wt, u := g.wu, v := g.wv)]
            && OpenSector())
    }

    /** The first click of a new sector: a sector with the edited heights and surface
        claiming one wall, collapsed to the pointer and carrying the edited wall
        texture and tiling; the phase moves on to placing points. */
    method StartSector() returns (r: ClickResult)
      requires Valid() && g.addSect == Armed
      modifies this, walls, sectors
      ensures Valid()
      ensures StartedFrom(r)
    {
      if numSect >= SectCap || numWall >= WallCap {
        return CapacityExceeded;
      }
      var sec := Sector(numWall, numWall + 1, g.z1, g.z2, g.st, g.ss);
      StoreOkAppend(sectors[..], numSect, numWall, sec);
      sectors[numSect] := sec;
      var px, py := g.mx * g.scale, g.my * g.scale;
      walls[numWall] := walls[numWall].(x1 := px, y1 := py, x2 := px, y2 := py, wt := g.wt, u := g.wu, v := g.wv);
      numWall := numWall + 1;
      numSect := numSect + 1;
      g := g.(addSect := Placing);
      r := Started;
    }

    /** What a click while placing points leaves behind, for result `r`: the result
        is the one `PlaceOutcome` decides; a refused click changes nothing; a rejected
        first edge drops the sector and its wall; otherwise the open wall is fixed at
        the pointer, and the sector either closes into a closed boundary or grows by a
        wall starting at the point and stays open. The player is never touched. */
    twostate predicate PlacedFrom(angle: int, r: ClickResult)
      reads this, walls, sectors
      requires old(Valid()) && Valid()
    {
      && player == old(player)
      && r == old(PlaceOutcome())
      && (r == NoOpenSector <==> old(numSect) == 0 || old(numWall) == 0)
      && (r == NoOpenSector || r == CapacityExceeded ==>
            numSect == old(numSect) && numWall == old(numWall) && g == old(g)
            && sectors[..] == old(sectors[..]) && walls[..] == old(walls[..]))
      && (r == WindingRejected ==>
            numSect == old(numSect) - 1 && numWall == old(numWall) - 1
            && g == old(g).(addSect := Idle)
            && sectors[..] == old(sectors[..]) && walls[..] == old(walls[..]))
      && (r == Closed ==>
            numSect == old(numSect) && numWall == old(numWall)
            && g == old(g).(addSect := Idle)
            && sectors[..] == old(sectors[..])
            && walls[..] == old(walls[..])[numWall - 1 := FixedWall(old(walls[numWall - 1]), g, angle)])
      && (r == Extended ==>
            var p := old(Point());
            var open := old(sectors[numSect - 1]);
            && numSect == old(numSect) && numWall == old(numWall) + 1 && g == old(g)
            && sectors[..] == old(sectors[..])[numSect - 1 := open.(we := open.we + 1)]
            && walls[..] == old(walls[..])[numWall - 2 := FixedWall(old(walls[numWall - 1]), g, angle)]
                                          [numWall - 1 := old(walls[numWall]).(x1 := p.0, y1 := p.1, x2 := p.0, y2 := p.1, shade := 0)])
      && (old(OpenSector()) && r == Extended ==> OpenSector())
      && (old(OpenSector()) && r == Closed ==>
            var ws := sectors[numSect - 1].ws;
            sectors[numSect - 1].we == numWall && ClosedBoundary(walls[..], ws, numWall)
            && numWall - ws >= 2)
    }

    /** A click while placing points. A first edge that does not run to the right
        undoes the sector; otherwise the open wall ends at the pointer, shaded by
        `angle` (the edge's direction in degrees), and either the sector closes (the
        point is its first vertex) or a new wall begins at the point. */
    method PlacePoint(angle: int) returns (r: ClickResult)
      requires Valid() && g.addSect == Placing
      modifies this, walls, sectors
      ensures Valid()
      ensures PlacedFrom(angle, r)
    {
      if numSect == 0 || numWall == 0 {
        return NoOpenSector;
      }
      var open := sectors[numSect - 1];
      var px, py := g.mx * g.scale, g.my * g.scale;
      var first := walls[open.ws];
      if open.ws == numWall - 1 && px <= first.x1 {
        Rollback();
        return WindingRejected;
      }
      var closes := px == first.x1 && py == first.y1;
      if !closes && (numWall >= WallCap || open.we >= WallCap) {
        return CapacityExceeded;
      }
      if closes {
        CloseSector(angle);
        r := Closed;
      } else {
        ExtendSector(angle);
        r := Extended;
      }
    }

    /** Undoes the sector being added: the sector and its only wall are dropped and
        no sector is being added any more. */
    method Rollback()
      requires Valid() && 0 < numSect && 0 < numWall
      modifies this
      ensures Valid()
      ensures numSect == old(numSect) - 1 && numWall == old(numWall) - 1
      ensures g == old(g).(addSect := Idle) && player == old(player)
    {
      StoreOkDropLast(sectors[..], numSect, numWall);
      numWall := numWall - 1;
      numSect := numSect - 1;
      g := g.(addSect := Idle);
    }

    /** Ends the last wall at the pointer and finishes the sector being added. */
    method CloseSector(angle: int)
      requires Valid() && 0 < numWall
      modifies this, walls
      ensures Valid()
      ensures numSect == old(numSect) && numWall == old(numWall) && player == old(player)
      ensures g == old(g).(addSect := Idle)
      ensures walls[..] == old(walls[..])[numWall - 1 := FixedWall(old(walls[numWall - 1]), old(g), angle)]
      ensures old(OpenSector()) && old(Point()) == old((walls[sectors[numSect - 1].ws].x1, walls[sectors[numSect - 1].ws].y1)) ==>
                ClosedBoundary(walls[..], sectors[numSect - 1].ws, numWall)
    {
      ghost var before := walls[..];
      ghost var wasOpen := OpenSector() && Point() == (walls[sectors[numSect - 1].ws].x1, walls[sectors[numSect - 1].ws].y1);
      walls[numWall - 1] := FixedWall(walls[numWall - 1], g, angle);
      if wasOpen {
        ChainedClose(before, sectors[numSect - 1].ws, numWall, walls[numWall - 1]);
      }
      g := g.(addSect := Idle);
    }

    /** Ends the last wall at the pointer and begins a new wall of the last sector
        there, collapsed to the point and unshaded. */
    method ExtendSector(angle: int)
      requires Valid() && 0 < numSect && 0 < numWall < WallCap
      requires sectors[numSect - 1].we < WallCap
      modifies this, walls, sectors
      ensures Valid()
      ensures numSect == old(numSect) && numWall == old(numWall) + 1
      ensures g == old(g) && player == old(player)
      ensures var open := old(sectors[numSect - 1]);
              sectors[..] == old(sectors[..])[numSect - 1 := open.(we := open.we + 1)]
      ensures var p := Point();
              walls[..] == old(walls[..])[numWall - 2 := FixedWall(old(walls[numWall - 1]), g, angle)]
                                         [numWall - 1 := old(walls[numWall]).(x1 := p.0, y1 := p.1, x2 := p.0, y2 := p.1, shade := 0)]
      ensures old(OpenSector()) ==> OpenSector()
    {
      ghost var before := walls[..];
      ghost var wasOpen := OpenSector();
      var px, py := g.mx * g.scale, g.my * g.scale;
      var open := sectors[numSect - 1];
      StoreOkGrowLast(sectors[..], numSect, numWall);
      sectors[numSect - 1] := open.(we := open.we + 1);
      walls[numWall - 1] := FixedWall(walls[numWall - 1], g, angle);
      walls[numWall] := walls[numWall].(x1 := px, y1 := py, x2 := px, y2 := py, shade := 0);
      if wasOpen {
        ChainedExtend(before, open.ws, numWall, walls[numWall - 1], walls[numWall]);
      }
      numWall := numWall + 1;
    }

    /** A click on the grid: ignored when no sector is being added, otherwise the
        first click of a new sector or the next point of the open one. */
    method ClickGrid(angle: int) returns (r: ClickResult)
      requires Valid()
      modifies this, walls, sectors
      ensures Valid()
      ensures r == Ignored <==> old(g.addSect) == Idle
      ensures r == Ignored ==>
                numSect == old(numSect) && numWall == old(numWall) && g == old(g)
                && sectors[..] == old(sectors[..]) && walls[..] == old(walls[..])
      ensures player == old(player)
      ensures old(g.addSect) == Armed ==> StartedFrom(r)
      ensures old(g.addSect) == Placing ==> PlacedFrom(angle, r)
      ensures r == Started || (old(OpenSector()) && r == Extended) ==> OpenSector()
    {
      if g.addSect == Armed {
        r := StartSector();
      } else if g.addSect == Placing {
        r := PlacePoint(angle);
      } else {
        r := Ignored;
      }
    }

    /** Starting a sector and then clicking at or to the left of its first vertex
        undoes the start: the counters and the live sectors and walls are as before,
        and no sector is being added. */
    method StartThenReject(x: int, y: int, angle: int)
      requires Valid() && g.addSect == Armed && numSect < SectCap && numWall < WallCap
      requires 0 <= x && 0 <= y && GridPoint(x, y).0 * g.scale <= Point().0
      modifies this, walls, sectors
      ensures Valid()
      ensures numSect == old(numSect) && numWall == old(numWall) && g.addSect == Idle
      ensures Snapshot() == old(Snapshot())
    {
      ghost var live := Snapshot();
      var r := StartSector();
      SetPointer(x, y);
      r := PlacePoint(angle);
      assert sectors[..numSect] == live.sectors;
      assert walls[..numWall] == live.walls;
    }

    /** Writes the level file: the live sectors, the live walls and the player. */
    method Save() returns (tokens: seq<int>)
      requires Valid()
      ensures tokens == Encode(Snapshot())
    {
      if numSect == 0 {
        return [];
      }
      var st := SectorRecords(numSect);
      var wt := WallRecords(numWall);
      tokens := [numSect] + st + [numWall] + wt + PlayerFields(player);
    }

    /** The tokens of the first `n` sector slots, in slot order. */
    method SectorRecords(n: int) returns (st: seq<int>)
      requires 0 <= n <= sectors.Length
      ensures st == SectorTokens(sectors[..n])
    {
      st := [];
      var s := 0;
      while s < n
        invariant 0 <= s <= n
        invariant st == SectorTokens(sectors[..s])
      {
        assert sectors[..s + 1][..s] == sectors[..s];
        st := st + SectorFields(sectors[s]);
        s := s + 1;
      }
    }

    /** The tokens of the first `m` wall slots, in slot order. */
    method WallRecords(m: int) returns (wt: seq<int>)
      requires 0 <= m <= walls.Length
      ensures wt == WallTokens(walls[..m])
    {
      wt := [];
      var w := 0;
      while w < m
        invariant 0 <= w <= m
        invariant wt == WallTokens(walls[..w])
      {
        assert walls[..w + 1][..w] == walls[..w];
        wt := wt + WallFields(walls[w]);
        w := w + 1;
      }
    }

    /** Reads a level file into the arenas. A file that does not decode changes
        nothing; otherwise the live part of the session becomes the decoded level and
        the arena slots past it keep their records. */
    method Load(tokens: seq<int>) returns (loaded: bool)
      requires Valid()
      modifies this, walls, sectors
      ensures Valid()
      ensures g == old(g)
      ensures loaded <==> Decode(tokens).Ok?
      ensures loaded ==>
                var l := Decode(tokens).value;
                && Snapshot() == l
                && sectors[..] == l.sectors + old(sectors[..])[|l.sectors|..]
                && walls[..] == l.walls + old(walls[..])[|l.walls|..]
      ensures !loaded ==>
                numSect == old(numSect) && numWall == old(numWall) && player == old(player)
                && sectors[..] == old(sectors[..]) && walls[..] == old(walls[..])
    {
      var d := Decode(tokens);
      if d.Err? {
        return false;
      }
      ghost var l := d.value;
      ghost var oldSectors := sectors[..];
      ghost var oldWalls := walls[..];
      var n := tokens[0];
      ReadSectors(tokens, n);
      var m := tokens[1 + 6 * n];
      ReadWalls(tokens, 2 + 6 * n, m);
      numSect, numWall := n, m;
      player := PlayerAt(tokens, 2 + 6 * n + 8 * m);
      assert sectors[..] == l.sectors + oldSectors[n..];
      assert walls[..] == l.walls + oldWalls[m..];
      assert sectors[..n] == l.sectors;
      assert walls[..m] == l.walls;
      StoreOkAfterLoad(l, oldSectors);
      loaded := true;
    }

    /** Reads `n` sector records from the file into the first `n` arena slots. */
    method ReadSectors(tokens: seq<int>, n: int)
      requires sectors.Length == SectCap && 0 <= n <= SectCap && 1 + 6 * n <= |tokens|
      modifies sectors
      ensures forall i :: 0 <= i < n ==> sectors[i] == SectorAt(tokens, 1 + 6 * i)
      ensures forall i :: n <= i < SectCap ==> sectors[i] == old(sectors[i])
    {
      var s := 0;
      while s < n
        invariant 0 <= s <= n
        invariant forall i :: 0 <= i < s ==> sectors[i] == SectorAt(tokens, 1 + 6 * i)
        invariant forall i :: s <= i < SectCap ==> sectors[i] == old(sectors[i])
      {
        sectors[s] := SectorAt(tokens, 1 + 6 * s);
        s := s + 1;
      }
    }

    /** Reads `m` wall records, starting at token `b`, into the first `m` arena slots. */
    method ReadWalls(tokens: seq<int>, b: int, m: int)
      requires walls.Length == WallCap && 0 <= b && 0 <= m <= WallCap && b + 8 * m <= |tokens|
      modifies walls
      ensures forall j :: 0 <= j < m ==> walls[j] == WallAt(tokens, b + 8 * j)
      ensures forall j :: m <= j < WallCap ==> walls[j] == old(walls[j])
    {
      var w := 0;
      while w < m
        invariant 0 <= w <= m
        invariant forall j :: 0 <= j < w ==> walls[j] == WallAt(tokens, b + 8 * j)
        invariant forall j :: w <= j < WallCap ==> walls[j] == old(walls[j])
      {
        walls[w] := WallAt(tokens, b + 8 * w);
        w := w + 1;
      }
    }

    /** Saving a session and loading the file back restores the live sectors, walls
        and player and leaves the edit context alone. Without sectors the file is
        empty and loads as nothing, so nothing changes either. */
    method SaveThenLoad()
      requires Valid()
      modifies this, walls, sectors
      ensures Valid()
      ensures Snapshot() == old(Snapshot()) && g == old(g)
    {
      var tokens := Save();
      if numSect > 0 {
        SnapshotWellFormed();
        EncodeDecode(Snapshot());
      } else {
        EmptyStoreSavesNothing(Snapshot());
      }
      var loaded := Load(tokens);
    }
  }

  /** A triangle drawn counter-clockwise on a fresh session: arm "add sector", click
      grid points (8, 8), (24, 8), (16, 24) and (8, 8) again (the pixel positions
      below round to them). The first edge runs to the right, so the sector is kept,
      and the last click closes it with three walls. */
  method DrawTriangle() returns (e: Editor, results: seq<ClickResult>)
    ensures e.Valid() && e.numSect == 1 && e.numWall == 3 && e.g.addSect == Idle
    ensures results == [Started, Extended, Extended, Closed]
    ensures e.sectors[0].ws == 0 && e.sectors[0].we == 3
    ensures ClosedBoundary(e.walls[..], 0, 3)
  {
    var r0, r1, r2;
    e, r0 := BeginAtCorner();
    r1 := AddCorner(e, 96, 448, 0);
    r2 := AddCorner(e, 64, 384, 116);
    var r3 := CloseAtCorner(e, 243);
    results := [r0, r1, r2, r3];
  }

  /** Arms "add sector" on a fresh session and clicks at pixel (32, 448), grid point
      (8, 8): a sector with one collapsed wall at (32, 32) in world units is open. */
  method BeginAtCorner() returns (e: Editor, r: ClickResult)
    ensures fresh(e) && fresh(e.walls) && fresh(e.sectors)
    ensures e.Valid() && e.OpenSector() && e.numSect == 1 && e.numWall == 1
    ensures e.sectors[0].ws == 0 && e.walls[0].x1 == 32 && e.walls[0].y1 == 32 && e.g.scale == 4
    ensures r == Started
  {
    e := new Editor();
    e.PressButton(AddSector);
    e.SetPointer(32, 448);
    r := e.ClickGrid(0);
  }

  /** A click right of the sector's first vertex (8, 8) while it is open and below
      capacity extends it by one wall; the first vertex stays where it is. */
  method AddCorner(e: Editor, x: int, y: int, angle: int) returns (r: ClickResult)
    requires e.Valid() && e.OpenSector() && e.numSect == 1 && 0 < e.numWall < WallCap
    requires e.sectors[0].ws == 0 && e.walls[0].x1 == 32 && e.walls[0].y1 == 32 && e.g.scale == 4
    requires 0 <= x && 0 <= y && GridPoint(x, y).0 > 8
    modifies e, e.walls, e.sectors
    ensures e.Valid() && e.OpenSector() && e.numSect == 1 && e.numWall == old(e.numWall) + 1
    ensures e.sectors[0].ws == 0 && e.walls[0].x1 == 32 && e.walls[0].y1 == 32 && e.g.scale == 4
    ensures r == Extended
  {
    e.SetPointer(x, y);
    r := e.ClickGrid(angle);
  }

  /** A click back on the first vertex (8, 8) of an open sector with at least two
      walls closes it: the sector ends at the wall counter and its boundary is a
      closed loop. */
  method CloseAtCorner(e: Editor, angle: int) returns (r: ClickResult)
    requires e.Valid() && e.OpenSector() && e.numSect == 1 && 2 <= e.numWall
    requires e.sectors[0].ws == 0 && e.walls[0].x1 == 32 && e.walls[0].y1 == 32 && e.g.scale == 4
    modifies e, e.walls, e.sectors
    ensures e.Valid() && e.numSect == 1 && e.numWall == old(e.numWall) && e.g.addSect == Idle
    ensures e.sectors[0].ws == 0 && e.sectors[0].we == e.numWall
    ensures ClosedBoundary(e.walls[..], 0, e.numWall)
    ensures r == Closed
  {
    e.SetPointer(32, 448);
    r := e.ClickGrid(angle);
  }

  /** A first edge drawn to the left on a fresh session breaks the counter-clockwise
      rule: the sector is undone and the session is empty again. */
  method DrawClockwise() returns (e: Editor, results: seq<ClickResult>)
    ensures e.Valid() && e.numSect == 0 && e.numWall == 0 && e.g.addSect == Idle
    ensures results == [Started, WindingRejected]
  {
    var r0;
    e, r0 := BeginAtCorner();
    e.SetPointer(0, 448);
    var r1 := e.ClickGrid(0);
    results := [r0, r1];
  }
}
