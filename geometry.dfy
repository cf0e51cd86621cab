/** The editor's integer geometry: wall and sector records, the arena
    invariant the editor keeps, and the pure arithmetic of pointer
    quantisation, drag snapping, wall shading and endpoint hit-testing. */
module Geometry {

  /** Capacity of the wall arena `W[256]`. */
  const WallCap := 256
  /** Capacity of the sector arena `S[128]`. */
  const SectCap := 128

  /** One wall: a directed segment (x1,y1)-(x2,y2), its texture id, u/v tiling and shade. */
  datatype Wall = Wall(x1: int, y1: int, x2: int, y2: int, wt: int, u: int, v: int, shade: int)

  /** One sector: the wall range [ws, we), bottom/top heights, surface texture and scale.
      (The per-frame drawing fields `d` and `surf` are renderer state and are left out.) */
  datatype Sector = Sector(ws: int, we: int, z1: int, z2: int, st: int, ss: int)

  /** Navigation state: position, heading in degrees and look offset. */
  datatype Player = Player(x: int, y: int, z: int, a: int, l: int)

  // ---------------------------------------------------------------------------
  // Arena invariant

  /** A sector slot whose wall range can be walked without leaving the wall arena. */
  predicate SlotInArena(s: Sector) {
    0 <= s.ws < WallCap && s.ws <= s.we <= WallCap
  }

  /** Number of walls a sector claims. */
  function Length(s: Sector): int {
    s.we - s.ws
  }

  /** Total number of walls claimed by a sequence of sectors. */
  function SumLengths(ss: seq<Sector>): int {
    if ss == [] then 0 else SumLengths(ss[..|ss| - 1]) + Length(ss[|ss| - 1])
  }

  /** Every sector of `ss` claims at least one wall. */
  predicate NonEmptyRanges(ss: seq<Sector>) {
    forall i :: 0 <= i < |ss| ==> ss[i].ws < ss[i].we
  }

  /** The invariant of the sector arena `ss` with `n` live sectors and `nw` live walls:
      the counters are within capacity, every slot (live or not) has an in-arena wall
      range, every live sector is non-empty and together the live sectors claim no
      more walls than the wall counter holds. */
  predicate StoreOk(ss: seq<Sector>, n: int, nw: int) {
    && |ss| == SectCap
    && 0 <= n <= SectCap
    && 0 <= nw <= WallCap
    && (forall i :: 0 <= i < |ss| ==> SlotInArena(ss[i]))
    && NonEmptyRanges(ss[..n])
    && SumLengths(ss[..n]) <= nw
  }

  /** The arena after removing live sector `d` of `n`: the later live sectors move down
      one slot, untouched; the slot that falls out of the live range keeps its record. */
  function ShiftDown(ss: seq<Sector>, d: int, n: int): (r: seq<Sector>)
    requires 0 <= d < n <= |ss|
    ensures |r| == |ss|
    ensures r[..n - 1] == ss[..d] + ss[d + 1..n]
    ensures forall i :: 0 <= i < |ss| ==> r[i] == if d <= i < n - 1 then ss[i + 1] else ss[i]
  {
    ss[..d] + ss[d + 1..n] + ss[n - 1..]
  }

  lemma SumLengthsAppend(ss: seq<Sector>, s: Sector)
    ensures SumLengths(ss + [s]) == SumLengths(ss) + Length(s)
  {
    assert (ss + [s])[..|ss|] == ss;
  }

  /** Removing sector `d` takes exactly its wall count off the total. */
  lemma {:induction false} SumLengthsRemove(ss: seq<Sector>, d: int)
    requires 0 <= d < |ss|
    ensures SumLengths(ss[..d] + ss[d + 1..]) == SumLengths(ss) - Length(ss[d])
  {
    var last := |ss| - 1;
    if d == last {
      assert ss[..d] + ss[d + 1..] == ss[..last];
    } else {
      var init := ss[..last];
      SumLengthsRemove(init, d);
      assert ss[..d] + ss[d + 1..] == (init[..d] + init[d + 1..]) + [ss[last]];
      SumLengthsAppend(init[..d] + init[d + 1..], ss[last]);
    }
  }

  /** With no sector claiming a negative count, the total bounds each sector's count. */
  lemma {:induction false} SumLengthsCovers(ss: seq<Sector>, d: int)
    requires NonEmptyRanges(ss)
    requires 0 <= d < |ss|
    ensures 0 < Length(ss[d]) <= SumLengths(ss)
  {
    SumLengthsRemove(ss, d);
    SumLengthsNonNegative(ss[..d] + ss[d + 1..]);
  }

  lemma {:induction false} SumLengthsNonNegative(ss: seq<Sector>)
    requires NonEmptyRanges(ss)
    ensures SumLengths(ss) >= 0
  {
    if ss != [] {
      SumLengthsNonNegative(ss[..|ss| - 1]);
    }
  }

  /** Replacing one sector by another of the same wall range keeps the total. */
  lemma {:induction false} SumLengthsReplace(ss: seq<Sector>, i: int, s: Sector)
    requires 0 <= i < |ss|
    ensures SumLengths(ss[i := s]) == SumLengths(ss) - Length(ss[i]) + Length(s)
  {
    var r := ss[i := s];
    SumLengthsRemove(ss, i);
    SumLengthsRemove(r, i);
    assert r[..i] + r[i + 1..] == ss[..i] + ss[i + 1..];
  }

  /** Appending a one-wall sector at slot `n` and one wall keeps the arena invariant. */
  lemma StoreOkAppend(ss: seq<Sector>, n: int, nw: int, s: Sector)
    requires StoreOk(ss, n, nw)
    requires n < SectCap && nw < WallCap
    requires s.ws == nw && s.we == nw + 1
    ensures StoreOk(ss[n := s], n + 1, nw + 1)
  {
    var r := ss[n := s];
    assert r[..n + 1] == ss[..n] + [s];
    SumLengthsAppend(ss[..n], s);
  }

  /** Dropping the last live sector (a one-wall-or-longer range) together with one wall
      keeps the arena invariant. */
  lemma StoreOkDropLast(ss: seq<Sector>, n: int, nw: int)
    requires StoreOk(ss, n, nw)
    requires 0 < n && 0 < nw
    ensures StoreOk(ss, n - 1, nw - 1)
  {
    assert ss[..n][..n - 1] == ss[..n - 1];
  }

  /** Growing the last live sector by one wall, with one more wall in the arena,
      keeps the arena invariant. */
  lemma StoreOkGrowLast(ss: seq<Sector>, n: int, nw: int)
    requires StoreOk(ss, n, nw)
    requires 0 < n && nw < WallCap && ss[n - 1].we < WallCap
    ensures StoreOk(ss[n - 1 := ss[n - 1].(we := ss[n - 1].we + 1)], n, nw + 1)
  {
    var s := ss[n - 1].(we := ss[n - 1].we + 1);
    var r := ss[n - 1 := s];
    assert r[..n] == ss[..n][n - 1 := s];
    SumLengthsReplace(ss[..n], n - 1, s);
  }

  /** Overwriting a slot with a record of the same wall range keeps the arena invariant. */
  lemma StoreOkSameRange(ss: seq<Sector>, n: int, nw: int, i: int, s: Sector)
    requires StoreOk(ss, n, nw)
    requires 0 <= i < |ss| && s.ws == ss[i].ws && s.we == ss[i].we
    ensures StoreOk(ss[i := s], n, nw)
  {
    var r := ss[i := s];
    if i < n {
      assert r[..n] == ss[..n][i := s];
      SumLengthsReplace(ss[..n], i, s);
    } else {
      assert r[..n] == ss[..n];
    }
  }

  /** Deleting live sector `d` and its wall count keeps the arena invariant. */
  lemma StoreOkRemove(ss: seq<Sector>, n: int, nw: int, d: int)
    requires StoreOk(ss, n, nw)
    requires 0 <= d < n
    ensures 0 < Length(ss[d]) <= nw
    ensures StoreOk(ShiftDown(ss, d, n), n - 1, nw - Length(ss[d]))
  {
    var live := ss[..n];
    assert live[..d] + live[d + 1..] == ss[..d] + ss[d + 1..n];
    SumLengthsCovers(live, d);
    SumLengthsRemove(live, d);
    var r := ShiftDown(ss, d, n);
    forall i | 0 <= i < |r| ensures SlotInArena(r[i]) {
      if i < d {
        assert r[i] == ss[i];
      } else if i < n - 1 {
        assert r[i] == ss[i + 1];
      } else {
        assert r[i] == ss[i];
      }
    }
  }

  /** Slots read by the delete loop as the source writes it (it copies slot x + 1 into
      slot x for every x from d while x < numSect): d + 1 up to and including numSect. */
  function SourceShiftReads(d: int, n: int): (r: seq<int>)
    requires 0 <= d <= n
    ensures |r| == n - d
    ensures forall k :: 0 <= k < |r| ==> r[k] == d + 1 + k
  {
    seq(n - d, k requires 0 <= k < n - d => d + 1 + k)
  }

  /** The source's delete loop always reads slot `numSect`, one past the live sectors,
      and with a full arena that slot lies outside `S[128]`. */
  lemma SourceShiftReadsPastLive(d: int, n: int)
    requires 0 <= d < n
    ensures n in SourceShiftReads(d, n)
    ensures n == SectCap ==> exists k :: 0 <= k < |SourceShiftReads(d, n)| && SourceShiftReads(d, n)[k] >= SectCap
  {
    var r := SourceShiftReads(d, n);
    assert r[n - d - 1] == n;
  }

  /** The counters after the source's delete of selection `sel` (counted from 1) with
      `n` live sectors and `nw` walls. The wall count of slot `sel - 1` is subtracted
      and the live count drops whether or not that slot is live. */
  function SourceDeleteCounters(ss: seq<Sector>, n: int, nw: int, sel: int): (r: (int, int))
    requires 0 < sel <= |ss|
    ensures r.0 < n
  {
    (n - 1, nw - Length(ss[sel - 1]))
  }

  /** A selection left on a slot past the live sectors, as when the open sector is
      selected and its first edge is then rejected: a triangle in slot 0 is the only
      live sector and slot 1 keeps the undone sector's record. The source's delete
      still takes the live count to 0, so the triangle, which was not selected, leaves
      the live range, and one wall is taken off the count. */
  lemma SourceStaleDeleteDropsLive()
    ensures var ss := [Sector(0, 3, 0, 40, 1, 4), Sector(3, 4, 0, 40, 1, 4)]
                      + seq(SectCap - 2, _ => Sector(0, 0, 0, 0, 0, 0));
            && StoreOk(ss, 1, 3)
            && SourceDeleteCounters(ss, 1, 3, 2) == (0, 2)
  {
    var ss := [Sector(0, 3, 0, 40, 1, 4), Sector(3, 4, 0, 40, 1, 4)]
              + seq(SectCap - 2, _ => Sector(0, 0, 0, 0, 0, 0));
    assert ss[..1] == [Sector(0, 3, 0, 40, 1, 4)];
  }

  // ---------------------------------------------------------------------------
  // Wall boundaries

  /** Walls [lo, hi) form a chain: each ends where the next one begins. */
  ghost predicate Chained(w: seq<Wall>, lo: int, hi: int)
    requires 0 <= lo <= hi <= |w|
  {
    forall i :: lo <= i < hi - 1 ==> w[i].x2 == w[i + 1].x1 && w[i].y2 == w[i + 1].y1
  }

  /** Walls [lo, hi) form a closed chain: the last wall ends at the first wall's start. */
  ghost predicate ClosedBoundary(w: seq<Wall>, lo: int, hi: int)
    requires 0 <= lo <= hi <= |w|
  {
    lo < hi && Chained(w, lo, hi) && w[hi - 1].x2 == w[lo].x1 && w[hi - 1].y2 == w[lo].y1
  }

  /** Replacing the last wall of a chain by `a`, which keeps its first endpoint, and
      adding `b`, which starts where `a` ends, extends the chain by one wall. */
  lemma {:induction false} ChainedExtend(w: seq<Wall>, lo: int, hi: int, a: Wall, b: Wall)
    requires 0 <= lo < hi < |w| && Chained(w, lo, hi)
    requires a.x1 == w[hi - 1].x1 && a.y1 == w[hi - 1].y1
    requires b.x1 == a.x2 && b.y1 == a.y2
    ensures Chained(w[hi - 1 := a][hi := b], lo, hi + 1)
  {
    var w' := w[hi - 1 := a][hi := b];
    forall i | lo <= i < hi ensures w'[i].x2 == w'[i + 1].x1 && w'[i].y2 == w'[i + 1].y1 {
      if i < hi - 2 {
        assert w'[i] == w[i] && w'[i + 1] == w[i + 1];
      } else if i == hi - 2 {
        assert w'[i] == w[i];
      }
    }
  }

  /** Fixing the second endpoint of the last wall of a chain at the chain's start
      closes the chain. */
  lemma {:induction false} ChainedClose(w: seq<Wall>, lo: int, hi: int, a: Wall)
    requires 0 <= lo < hi <= |w| && Chained(w, lo, hi)
    requires a.x1 == w[hi - 1].x1 && a.y1 == w[hi - 1].y1
    requires a.x2 == w[lo].x1 && a.y2 == w[lo].y1
    ensures ClosedBoundary(w[hi - 1 := a], lo, hi)
  {
    var w' := w[hi - 1 := a];
    forall i | lo <= i < hi - 1 ensures w'[i].x2 == w'[i + 1].x1 && w'[i].y2 == w'[i + 1].y1 {
      assert w'[i] == w[i];
    }
  }

  // ---------------------------------------------------------------------------
  // Pointer arithmetic

  /** Rounds a pointer coordinate to the nearest multiple of 8, ties upward:
      `((p + 4) >> 3) << 3` (an arithmetic shift, that is floor division). */
  function Quantize(p: int): (q: int)
    ensures q % 8 == 0
    ensures q - 4 <= p < q + 4
  {
    ((p + 4) / 8) * 8
  }

  /** Rounds a coordinate to the nearest multiple of 32, ties upward:
      `((v + 16) >> 5) << 5`, the drag editor's coarse grid. */
  function Snap(v: int): (q: int)
    ensures q % 32 == 0
    ensures q - 16 <= v < q + 16
  {
    ((v + 16) / 32) * 32
  }

  /** Both quantisers leave grid points where they are. */
  lemma QuantizeFixesGrid(k: int)
    ensures Quantize(8 * k) == 8 * k
    ensures Snap(32 * k) == 32 * k
  {
  }

  /** Snapping is idempotent: a snapped coordinate snaps to itself. */
  lemma SnapIdempotent(v: int)
    ensures Snap(Snap(v)) == Snap(v)
  {
    var q := Snap(v);
    QuantizeFixesGrid(q / 32);
  }

  /** Height of the editor's screen in pixels (`SH`) and of the window in GL units (`GLSH`). */
  const ScreenH := 120
  const WindowH := 480

  /** The rounded pointer position of the grid: pixel coordinates scaled down by the
      pixel scale 4, y flipped to point up, then rounded to multiples of 8. */
  function GridPoint(x: int, y: int): (p: (int, int))
    requires 0 <= x && 0 <= y
    ensures p.0 % 8 == 0 && p.1 % 8 == 0
    ensures p.0 - 4 <= x / 4 < p.0 + 4
    ensures p.1 - 4 <= ScreenH - y / 4 < p.1 + 4
  {
    (Quantize(x / 4), Quantize(ScreenH - y / 4))
  }

  /** The point a drag moves grabbed endpoints to: the pointer, y flipped, snapped to
      the 32-unit grid. */
  function DragPoint(x: int, y: int): (p: (int, int))
    ensures p.0 % 32 == 0 && p.1 % 32 == 0
    ensures p.0 - 16 <= x < p.0 + 16
    ensures p.1 - 16 <= WindowH - y < p.1 + 16
  {
    (Snap(x), Snap(WindowH - y))
  }

  /** Wall shade: the direction angle in degrees folded at 180 and then at 90. */
  function ShadeFold(angle: int): (shade: int)
    ensures 0 <= angle <= 360 ==> 0 <= shade <= 90
  {
    var s := if angle > 180 then 180 - (angle - 180) else angle;
    if s > 90 then 90 - (s - 90) else s
  }

  /** The fold measures how far the direction is from the horizontal axis:
      the distance of the angle to the nearest multiple of 180 degrees. */
  lemma ShadeFoldIsDistanceToHorizontal(angle: int)
    requires 0 <= angle <= 360
    ensures var m := angle % 180;
            ShadeFold(angle) == if m <= 90 then m else 180 - m
  {
    if angle < 180 {
      assert angle % 180 == angle;
    } else if angle < 360 {
      assert angle % 180 == angle - 180;
    } else {
      assert angle % 180 == 0;
    }
  }

  /** Angles that mirror each other about 180 degrees get the same shade. */
  lemma ShadeFoldMirror(angle: int)
    requires 180 < angle <= 360
    ensures ShadeFold(angle) == ShadeFold(360 - angle)
  {
  }

  /** Horizontal walls get shade 0 and vertical walls shade 90. */
  lemma ShadeFoldAxes()
    ensures ShadeFold(0) == 0 && ShadeFold(90) == 90 && ShadeFold(180) == 0 && ShadeFold(270) == 90
  {
  }

  // ---------------------------------------------------------------------------
  // Endpoint hit-testing

  /** The strict +-3 window: both pointer coordinates lie strictly within 3 of (px, py). */
  predicate NearPoint(px: int, py: int, mx: int, my: int) {
    mx < px + 3 && mx > px - 3 && my < py + 3 && my > py - 3
  }

  /** Whether the pointer is near the wall's first (`first`) or second endpoint. */
  predicate NearEnd(w: Wall, first: bool, mx: int, my: int) {
    if first then NearPoint(w.x1, w.y1, mx, my) else NearPoint(w.x2, w.y2, mx, my)
  }

  /** The wall indices lo, lo+1, ..., hi-1. */
  function Range(lo: int, hi: int): (r: seq<int>)
    requires lo <= hi
    ensures |r| == hi - lo
    ensures forall i :: 0 <= i < |r| ==> r[i] == lo + i
  {
    seq(hi - lo, i requires 0 <= i < hi - lo => lo + i)
  }

  /** The order in which the hit test visits walls: each sector's range in turn. */
  function Visits(ss: seq<Sector>): (r: seq<int>)
    requires forall i :: 0 <= i < |ss| ==> ss[i].ws <= ss[i].we
    ensures (forall i :: 0 <= i < |ss| ==> SlotInArena(ss[i])) ==>
              forall k :: 0 <= k < |r| ==> 0 <= r[k] < WallCap
  {
    if ss == [] then []
    else Visits(ss[..|ss| - 1]) + Range(ss[|ss| - 1].ws, ss[|ss| - 1].we)
  }

  /** The last wall in `order` whose chosen endpoint is near the pointer, or -1. */
  function LastHit(w: seq<Wall>, order: seq<int>, first: bool, mx: int, my: int): (r: int)
    requires forall k :: 0 <= k < |order| ==> 0 <= order[k] < |w|
    ensures r == -1 || 0 <= r < |w|
  {
    if order == [] then -1
    else if NearEnd(w[order[|order| - 1]], first, mx, my) then order[|order| - 1]
    else LastHit(w, order[..|order| - 1], first, mx, my)
  }

  /** The hit test's outcome: -1 exactly when no visited endpoint is near the pointer;
      otherwise a visited wall whose endpoint is near and after which no visited
      endpoint is near (the last match wins). */
  lemma {:induction false} LastHitSpec(w: seq<Wall>, order: seq<int>, first: bool, mx: int, my: int)
    requires forall k :: 0 <= k < |order| ==> 0 <= order[k] < |w|
    ensures var r := LastHit(w, order, first, mx, my);
            (r == -1 <==> forall k :: 0 <= k < |order| ==> !NearEnd(w[order[k]], first, mx, my))
            && (r != -1 ==> exists k :: 0 <= k < |order| && order[k] == r
                              && NearEnd(w[r], first, mx, my)
                              && forall j :: k < j < |order| ==> !NearEnd(w[order[j]], first, mx, my))
  {
    if order != [] {
      var last := |order| - 1;
      var init := order[..last];
      LastHitSpec(w, init, first, mx, my);
      if !NearEnd(w[order[last]], first, mx, my) {
        var r := LastHit(w, init, first, mx, my);
        if r != -1 {
          var k :| 0 <= k < |init| && init[k] == r && NearEnd(w[r], first, mx, my)
                   && forall j :: k < j < |init| ==> !NearEnd(w[init[j]], first, mx, my);
          assert order[k] == r;
        } else {
          forall k | 0 <= k < |order| ensures !NearEnd(w[order[k]], first, mx, my) {
            if k < last {
              assert order[k] == init[k];
            }
          }
        }
      } else {
        assert order[last] != -1;
      }
    }
  }

  /** The grab references `move[0..3]` after hit-testing the walls in `order`:
      the last wall whose first endpoint is near, tagged 1, and the last wall whose
      second endpoint is near, tagged 2; -1 in both slots when there is none. */
  function Grabs(w: seq<Wall>, order: seq<int>, mx: int, my: int): (r: seq<int>)
    requires forall k :: 0 <= k < |order| ==> 0 <= order[k] < |w|
    ensures |r| == 4
    ensures r[1] == 1 || r[1] == -1
    ensures r[3] == 2 || r[3] == -1
    ensures r[1] == 1 <==> 0 <= r[0] < |w|
    ensures r[3] == 2 <==> 0 <= r[2] < |w|
  {
    var a := LastHit(w, order, true, mx, my);
    var b := LastHit(w, order, false, mx, my);
    [a, if a == -1 then -1 else 1, b, if b == -1 then -1 else 2]
  }

  /** Visiting one more sector appends its wall range to the visiting order. */
  lemma VisitsStep(ss: seq<Sector>, s: int)
    requires forall i :: 0 <= i < |ss| ==> ss[i].ws <= ss[i].we
    requires 0 <= s < |ss|
    ensures Visits(ss[..s + 1]) == Visits(ss[..s]) + Range(ss[s].ws, ss[s].we)
  {
    assert ss[..s + 1][..s] == ss[..s];
  }

  /** Hit-testing one more wall `i` updates the grab references as the loop body does:
      a near first endpoint overwrites slots 0 and 1, a near second endpoint slots 2
      and 3, and otherwise nothing changes. */
  lemma GrabsStep(w: seq<Wall>, order: seq<int>, i: int, mx: int, my: int)
    requires forall k :: 0 <= k < |order| ==> 0 <= order[k] < |w|
    requires 0 <= i < |w|
    ensures var a := Grabs(w, order, mx, my);
            var a1 := if NearPoint(w[i].x1, w[i].y1, mx, my) then a[0 := i][1 := 1] else a;
            Grabs(w, order + [i], mx, my)
              == if NearPoint(w[i].x2, w[i].y2, mx, my) then a1[2 := i][3 := 2] else a1
  {
    assert (order + [i])[..|order|] == order;
  }

  /** Moves the chosen endpoints of a wall to (px, py); nothing else of the wall changes. */
  function MoveEnds(w: Wall, first: bool, second: bool, px: int, py: int): (r: Wall)
    ensures r.wt == w.wt && r.u == w.u && r.v == w.v && r.shade == w.shade
    ensures (r.x1, r.y1) == if first then (px, py) else (w.x1, w.y1)
    ensures (r.x2, r.y2) == if second then (px, py) else (w.x2, w.y2)
  {
    var a := if first then w.(x1 := px, y1 := py) else w;
    if second then a.(x2 := px, y2 := py) else a
  }

  /** A joint between two walls (one's end is the other's start) survives moving both
      of its endpoints to the same point. */
  lemma MoveEndsKeepsJoint(a: Wall, b: Wall, aFirst: bool, bSecond: bool, px: int, py: int)
    requires a.x2 == b.x1 && a.y2 == b.y1
    ensures var a' := MoveEnds(a, aFirst, true, px, py);
            var b' := MoveEnds(b, true, bSecond, px, py);
            a'.x2 == b'.x1 && a'.y2 == b'.y1
  {
  }
}
