/** The editor's parameter rules: the cyclic counters behind the texture and
    selection buttons, the [1,9] tiling clamps, the five-unit height steps, the
    construction phase toggle and the player's heading wrap. */
module EditRules {

  /** Highest texture id: `numText` (21 textures, ids 0..20). */
  const NumText := 20

  /** Construction phases of `G.addSect`. */
  const Idle := 0
  const Armed := 1
  const Placing := 3

  // ---------------------------------------------------------------------------
  // Cyclic counters over [0, hi]

  /** One step back through [0, hi], wrapping from 0 to `hi`. */
  function WrapPrev(v: int, hi: int): (r: int)
    ensures 0 <= v <= hi ==> 0 <= r <= hi
    ensures v <= 0 ==> r == hi
    ensures 0 < v ==> r == v - 1
  {
    if v - 1 < 0 then hi else v - 1
  }

  /** One step forward through [0, hi], wrapping from `hi` (or anything past it) to 0. */
  function WrapNext(v: int, hi: int): (r: int)
    ensures 0 <= v <= hi ==> 0 <= r <= hi
    ensures hi <= v ==> r == 0
    ensures v < hi ==> r == v + 1
  {
    if v + 1 > hi then 0 else v + 1
  }

  /** The two directions undo each other on [0, hi]. */
  lemma WrapInverse(v: int, hi: int)
    requires 0 <= v <= hi
    ensures WrapPrev(WrapNext(v, hi), hi) == v
    ensures WrapNext(WrapPrev(v, hi), hi) == v
  {
  }

  /** `k` forward steps. */
  function WrapNextN(v: int, hi: int, k: nat): int {
    if k == 0 then v else WrapNext(WrapNextN(v, hi, k - 1), hi)
  }

  /** Below the top of the range, `k` forward steps simply add `k`. */
  lemma {:induction false} WrapNextNClimbs(v: int, hi: int, k: nat)
    requires 0 <= v && v + k <= hi
    ensures WrapNextN(v, hi, k) == v + k
  {
    if k > 0 {
      WrapNextNClimbs(v, hi, k - 1);
    }
  }

  /** Steps compose: `a + b` steps are `a` steps followed by `b` steps. */
  lemma {:induction false} WrapNextNAdd(v: int, hi: int, a: nat, b: nat)
    ensures WrapNextN(v, hi, a + b) == WrapNextN(WrapNextN(v, hi, a), hi, b)
  {
    if b > 0 {
      WrapNextNAdd(v, hi, a, b - 1);
    }
  }

  /** Cycling forward from `v` reaches every `w` of [0, hi], wrapping through 0 when
      `w` lies behind `v`. */
  lemma WrapNextReaches(v: int, hi: int, w: int)
    requires 0 <= v <= hi && 0 <= w <= hi
    ensures WrapNextN(v, hi, if w >= v then w - v else hi + 1 - v + w) == w
  {
    if w >= v {
      WrapNextNClimbs(v, hi, w - v);
    } else {
      WrapNextNClimbs(v, hi, hi - v);
      WrapNextNAdd(v, hi, hi - v, 1);
      WrapNextNAdd(v, hi, hi - v + 1, w);
      WrapNextNClimbs(0, hi, w);
    }
  }

  /** After hi + 1 forward steps the counter is back where it started. */
  lemma WrapNextCycle(v: int, hi: int)
    requires 0 <= v <= hi
    ensures WrapNextN(v, hi, hi + 1) == v
  {
    WrapNextNClimbs(v, hi, hi - v);
    WrapNextNAdd(v, hi, hi - v, 1);
    WrapNextNAdd(v, hi, hi - v + 1, v);
    WrapNextNClimbs(0, hi, v);
  }

  // ---------------------------------------------------------------------------
  // Tiling clamps [1, 9]

  /** Decrement that stops at 1. */
  function ClampDec(v: int): (r: int)
    ensures 1 <= r
    ensures v <= 9 ==> r <= 9
    ensures 1 < v ==> r == v - 1
    ensures v <= 1 ==> r == 1
  {
    if v - 1 < 1 then 1 else v - 1
  }

  /** Increment that stops at 9. */
  function ClampInc(v: int): (r: int)
    ensures r <= 9
    ensures 1 <= v ==> 1 <= r
    ensures v < 9 ==> r == v + 1
    ensures 9 <= v ==> r == 9
  {
    if v + 1 > 9 then 9 else v + 1
  }

  /** On [1, 9] both steps stay in [1, 9]; away from the bounds they undo each other. */
  lemma ClampStaysInRange(v: int)
    requires 1 <= v <= 9
    ensures 1 <= ClampDec(v) <= 9 && 1 <= ClampInc(v) <= 9
    ensures v < 9 ==> ClampDec(ClampInc(v)) == v
    ensures 1 < v ==> ClampInc(ClampDec(v)) == v
  {
  }

  // ---------------------------------------------------------------------------
  // Heights

  /** The height pair keeps the top above the bottom by a multiple of five. */
  predicate HeightGapOk(z1: int, z2: int) {
    z1 < z2 && (z2 - z1) % 5 == 0
  }

  /** "Top down": the top drops by 5; if it meets the bottom, the bottom drops by 5. */
  function LowerTop(z1: int, z2: int): (r: (int, int))
    ensures r.1 == z2 - 5
    ensures r.0 == (if z2 - 5 == z1 then z1 - 5 else z1)
    ensures HeightGapOk(z1, z2) ==> HeightGapOk(r.0, r.1)
  {
    var top := z2 - 5;
    if top == z1 then (z1 - 5, top) else (z1, top)
  }

  /** "Top up": the top rises by 5. */
  function RaiseTop(z1: int, z2: int): (r: (int, int))
    ensures r == (z1, z2 + 5)
    ensures HeightGapOk(z1, z2) ==> HeightGapOk(r.0, r.1)
  {
    (z1, z2 + 5)
  }

  /** "Bottom down": the bottom drops by 5. */
  function LowerBottom(z1: int, z2: int): (r: (int, int))
    ensures r == (z1 - 5, z2)
    ensures HeightGapOk(z1, z2) ==> HeightGapOk(r.0, r.1)
  {
    (z1 - 5, z2)
  }

  /** "Bottom up": the bottom rises by 5; if it meets the top, the top rises by 5. */
  function RaiseBottom(z1: int, z2: int): (r: (int, int))
    ensures r.0 == z1 + 5
    ensures r.1 == (if z1 + 5 == z2 then z2 + 5 else z2)
    ensures HeightGapOk(z1, z2) ==> HeightGapOk(r.0, r.1)
  {
    var bottom := z1 + 5;
    if bottom == z2 then (bottom, z2 + 5) else (bottom, z2)
  }

  /** The height buttons never clamp: from the defaults 0/40, `n` presses of "bottom
      down" take the bottom to -5n, below any lower limit, while the gap stays a
      positive multiple of 5. */
  lemma {:induction false} HeightsAreUnbounded(n: nat)
    ensures var r := LowerBottomN(0, 40, n); r == (-5 * n, 40) && HeightGapOk(r.0, r.1)
  {
    if n > 0 {
      HeightsAreUnbounded(n - 1);
    }
  }

  /** `n` presses of "bottom down". */
  function LowerBottomN(z1: int, z2: int, n: nat): (int, int) {
    if n == 0 then (z1, z2) else var p := LowerBottomN(z1, z2, n - 1); LowerBottom(p.0, p.1)
  }

  // ---------------------------------------------------------------------------
  // Construction phase toggle

  /** The "add sector" button: `addSect += 1`, then back to 0 past 1.
      Idle arms, armed disarms, placing abandons the open sector. */
  function TogglePhase(phase: int): (r: int)
    ensures phase == Idle ==> r == Armed
    ensures phase == Armed || phase == Placing ==> r == Idle
    ensures phase == Idle || phase == Armed || phase == Placing ==> r == Idle || r == Armed
  {
    if phase + 1 > 1 then 0 else phase + 1
  }

  // ---------------------------------------------------------------------------
  // Player heading

  /** Turn left by 4 degrees, wrapping below 0. */
  function TurnLeft(a: int): (r: int)
    ensures 0 <= a < 360 ==> 0 <= r < 360 && (r - (a - 4)) % 360 == 0
  {
    var b := a - 4;
    if b < 0 then b + 360 else b
  }

  /** Turn right by 4 degrees, wrapping above 359. */
  function TurnRight(a: int): (r: int)
    ensures 0 <= a < 360 ==> 0 <= r < 360 && (r - (a + 4)) % 360 == 0
  {
    var b := a + 4;
    if b > 359 then b - 360 else b
  }

  /** Turning left then right (or right then left) restores the heading. */
  lemma TurnsCancel(a: int)
    requires 0 <= a < 360
    ensures TurnRight(TurnLeft(a)) == a && TurnLeft(TurnRight(a)) == a
  {
  }

  // ---------------------------------------------------------------------------
  // The edit context `G`

  /** The edit context: rounded pointer, construction phase, the wall and surface
      parameters being edited, heights, grid scale, the two grab references
      `move[0..3]` (wall id, endpoint 1; wall id, endpoint 2; -1 when free) and the
      sector/wall selection (0 = none / all walls). */
  datatype Grid = Grid(
    mx: int, my: int,
    addSect: int,
    wt: int, wu: int, wv: int,
    st: int, ss: int,
    z1: int, z2: int,
    scale: int,
    move: seq<int>,
    selS: int, selW: int)

  /** Every edited parameter within the range its buttons keep it in. */
  predicate ParamsOk(g: Grid) {
    && 0 <= g.wt <= NumText && 0 <= g.st <= NumText
    && 1 <= g.wu <= 9 && 1 <= g.wv <= 9 && 1 <= g.ss <= 9
    && HeightGapOk(g.z1, g.z2)
    && (g.addSect == Idle || g.addSect == Armed || g.addSect == Placing)
  }

  /** The documented defaults: scale 4, nothing selected, heights 0/40, surface
      texture 1 at scale 4, wall texture 0 tiled 1 by 1. */
  predicate IsDefault(g: Grid) {
    && g.scale == 4 && g.selS == 0 && g.selW == 0
    && g.z1 == 0 && g.z2 == 40 && g.st == 1 && g.ss == 4
    && g.wt == 0 && g.wu == 1 && g.wv == 1
  }

  /** `initGlobals`: resets the edit parameters and the selection to the defaults;
      the pointer, the phase and the grab references are kept. */
  function InitGlobals(g: Grid): (r: Grid)
    ensures IsDefault(r)
    ensures r.mx == g.mx && r.my == g.my && r.addSect == g.addSect && r.move == g.move
    ensures (g.addSect == Idle || g.addSect == Armed || g.addSect == Placing) ==> ParamsOk(r)
  {
    g.(scale := 4, selS := 0, selW := 0, z1 := 0, z2 := 40, st := 1, ss := 4,
       wt := 0, wu := 1, wv := 1)
  }

  /** The side-panel buttons that act on the edit context alone. */
  datatype Button =
    | WallTexturePrev | WallTextureNext
    | WallUDec | WallUInc | WallVDec | WallVInc
    | SurfaceTexturePrev | SurfaceTextureNext
    | SurfaceScaleDec | SurfaceScaleInc
    | TopDown | TopUp | BottomDown | BottomUp
    | AddSector

  /** Effect of one button press on the edit context. Texture ids wrap within
      [0, NumText], tiling factors and the surface scale stop at 1 and 9, heights move
      by 5 with push-apart, and "add sector" toggles the phase and clears the selection.
      A press changes only the fields of its own button. */
  function Press(g: Grid, b: Button): (r: Grid)
    ensures ParamsOk(g) ==> ParamsOk(r)
    ensures r.mx == g.mx && r.my == g.my && r.scale == g.scale && r.move == g.move
    ensures b == AddSector ==> r.addSect == TogglePhase(g.addSect) && r.selS == 0 && r.selW == 0
    ensures b != AddSector ==> r.addSect == g.addSect && r.selS == g.selS && r.selW == g.selW
    ensures b != WallTexturePrev && b != WallTextureNext ==> r.wt == g.wt
    ensures b != WallUDec && b != WallUInc ==> r.wu == g.wu
    ensures b != WallVDec && b != WallVInc ==> r.wv == g.wv
    ensures b != SurfaceTexturePrev && b != SurfaceTextureNext ==> r.st == g.st
    ensures b != SurfaceScaleDec && b != SurfaceScaleInc ==> r.ss == g.ss
    ensures !(b.TopDown? || b.TopUp? || b.BottomDown? || b.BottomUp?) ==> r.z1 == g.z1 && r.z2 == g.z2
    ensures b.TopDown? || b.TopUp? || b.BottomDown? || b.BottomUp? ==>
              HeightGapOk(g.z1, g.z2) ==> HeightGapOk(r.z1, r.z2)
  {
    match b
    case WallTexturePrev => g.(wt := WrapPrev(g.wt, NumText))
    case WallTextureNext => g.(wt := WrapNext(g.wt, NumText))
    case WallUDec => g.(wu := ClampDec(g.wu))
    case WallUInc => g.(wu := ClampInc(g.wu))
    case WallVDec => g.(wv := ClampDec(g.wv))
    case WallVInc => g.(wv := ClampInc(g.wv))
    case SurfaceTexturePrev => g.(st := WrapPrev(g.st, NumText))
    case SurfaceTextureNext => g.(st := WrapNext(g.st, NumText))
    case SurfaceScaleDec => g.(ss := ClampDec(g.ss))
    case SurfaceScaleInc => g.(ss := ClampInc(g.ss))
    case TopDown => var h := LowerTop(g.z1, g.z2); g.(z1 := h.0, z2 := h.1)
    case TopUp => var h := RaiseTop(g.z1, g.z2); g.(z1 := h.0, z2 := h.1)
    case BottomDown => var h := LowerBottom(g.z1, g.z2); g.(z1 := h.0, z2 := h.1)
    case BottomUp => var h := RaiseBottom(g.z1, g.z2); g.(z1 := h.0, z2 := h.1)
    case AddSector => g.(addSect := TogglePhase(g.addSect), selS := 0, selW := 0)
  }
}
