/** The level file as a sequence of integer tokens: the sector count, six tokens per
    sector, the wall count, eight tokens per wall and five player tokens. Nothing is
    written for a store without sectors. */
module Persistence {
  import opened Geometry

  /** What a level file holds. */
  datatype Level = Level(sectors: seq<Sector>, walls: seq<Wall>, player: Player)

  /** Why a token sequence is not loaded. */
  datatype LoadError = Truncated | CountOutOfRange | BadSectorRange

  datatype Result<T> = Ok(value: T) | Err(error: LoadError)

  /** A level the editor's arenas can hold: counts within capacity, every sector a
      non-empty in-arena wall range, and no more walls claimed than stored. */
  predicate WellFormedLevel(l: Level) {
    && |l.sectors| <= SectCap
    && |l.walls| <= WallCap
    && (forall i :: 0 <= i < |l.sectors| ==> SlotInArena(l.sectors[i]))
    && NonEmptyRanges(l.sectors)
    && SumLengths(l.sectors) <= |l.walls|
  }

  /** `ws we z1 z2 st ss` */
  function SectorFields(s: Sector): (t: seq<int>)
    ensures |t| == 6
  {
    [s.ws, s.we, s.z1, s.z2, s.st, s.ss]
  }

  /** `x1 y1 x2 y2 wt u v shade` */
  function WallFields(w: Wall): (t: seq<int>)
    ensures |t| == 8
  {
    [w.x1, w.y1, w.x2, w.y2, w.wt, w.u, w.v, w.shade]
  }

  /** `x y z a l` */
  function PlayerFields(p: Player): (t: seq<int>)
    ensures |t| == 5
  {
    [p.x, p.y, p.z, p.a, p.l]
  }

  /** The sector records, six tokens each, in order. */
  function SectorTokens(ss: seq<Sector>): (t: seq<int>)
    ensures |t| == 6 * |ss|
  {
    if ss == [] then [] else SectorTokens(ss[..|ss| - 1]) + SectorFields(ss[|ss| - 1])
  }

  /** The wall records, eight tokens each, in order. */
  function WallTokens(ws: seq<Wall>): (t: seq<int>)
    ensures |t| == 8 * |ws|
  {
    if ws == [] then [] else WallTokens(ws[..|ws| - 1]) + WallFields(ws[|ws| - 1])
  }

  /** The save format. */
  function Encode(l: Level): (t: seq<int>)
    ensures t == [] <==> |l.sectors| == 0
    ensures |l.sectors| > 0 ==>
              var n, m := |l.sectors|, |l.walls|;
              && |t| == FileSize(n, m)
              && t[0] == n && t[1 + 6 * n] == m
              && t[2 + 6 * n + 8 * m..] == PlayerFields(l.player)
  {
    if |l.sectors| == 0 then []
    else [|l.sectors|] + SectorTokens(l.sectors) + [|l.walls|] + WallTokens(l.walls)
         + PlayerFields(l.player)
  }

  function SectorAt(t: seq<int>, i: int): Sector
    requires 0 <= i && i + 6 <= |t|
  {
    Sector(t[i], t[i + 1], t[i + 2], t[i + 3], t[i + 4], t[i + 5])
  }

  function WallAt(t: seq<int>, i: int): Wall
    requires 0 <= i && i + 8 <= |t|
  {
    Wall(t[i], t[i + 1], t[i + 2], t[i + 3], t[i + 4], t[i + 5], t[i + 6], t[i + 7])
  }

  function PlayerAt(t: seq<int>, i: int): Player
    requires 0 <= i && i + 5 <= |t|
  {
    Player(t[i], t[i + 1], t[i + 2], t[i + 3], t[i + 4])
  }

  /** Number of tokens a file with `n` sectors and `m` walls occupies. */
  function FileSize(n: int, m: int): int {
    2 + 6 * n + 8 * m + 5
  }

  /** Reads the tokens in save order. Unlike the source, which trusts the file, the
      counts are checked against the arena capacities and the sector ranges against
      the wall arena before anything is accepted; tokens after the player are ignored. */
  function Decode(t: seq<int>): (r: Result<Level>)
    ensures r.Ok? ==> WellFormedLevel(r.value)
    ensures r.Ok? ==> |t| >= FileSize(|r.value.sectors|, |r.value.walls|)
                      && t[0] == |r.value.sectors|
                      && t[1 + 6 * |r.value.sectors|] == |r.value.walls|
    ensures r.Ok? ==> forall i :: 0 <= i < |r.value.sectors| ==> r.value.sectors[i] == SectorAt(t, 1 + 6 * i)
    ensures r.Ok? ==> forall j :: 0 <= j < |r.value.walls| ==>
                        r.value.walls[j] == WallAt(t, 2 + 6 * |r.value.sectors| + 8 * j)
    ensures r.Ok? ==> r.value.player == PlayerAt(t, 2 + 6 * |r.value.sectors| + 8 * |r.value.walls|)
  {
    if |t| < 1 then Err(Truncated)
    else
      var n := t[0];
      if n < 0 || n > SectCap then Err(CountOutOfRange)
      else if |t| < 2 + 6 * n then Err(Truncated)
      else
        var m := t[1 + 6 * n];
        if m < 0 || m > WallCap then Err(CountOutOfRange)
        else if |t| < FileSize(n, m) then Err(Truncated)
        else
          var ss := seq(n, i requires 0 <= i < n => SectorAt(t, 1 + 6 * i));
          var ws := seq(m, j requires 0 <= j < m => WallAt(t, 2 + 6 * n + 8 * j));
          var l := Level(ss, ws, PlayerAt(t, 2 + 6 * n + 8 * m));
          if WellFormedLevel(l) then Ok(l) else Err(BadSectorRange)
  }

  /** Loading a well-formed level into an arena whose slots are all in range leaves an
      arena that satisfies the store invariant; slots past the loaded sectors keep
      their old records. */
  lemma StoreOkAfterLoad(l: Level, ss: seq<Sector>)
    requires WellFormedLevel(l)
    requires |ss| == SectCap && forall i :: 0 <= i < |ss| ==> SlotInArena(ss[i])
    ensures StoreOk(l.sectors + ss[|l.sectors|..], |l.sectors|, |l.walls|)
  {
    var r := l.sectors + ss[|l.sectors|..];
    assert r[..|l.sectors|] == l.sectors;
  }

  // ---------------------------------------------------------------------------
  // Token positions

  lemma {:induction false} SectorTokensAt(ss: seq<Sector>, i: int, k: int)
    requires 0 <= i < |ss| && 0 <= k < 6
    ensures |SectorTokens(ss)| == 6 * |ss|
    ensures SectorTokens(ss)[6 * i + k] == SectorFields(ss[i])[k]
  {
    var last := |ss| - 1;
    if i < last {
      SectorTokensAt(ss[..last], i, k);
    }
  }

  lemma {:induction false} WallTokensAt(ws: seq<Wall>, j: int, k: int)
    requires 0 <= j < |ws| && 0 <= k < 8
    ensures |WallTokens(ws)| == 8 * |ws|
    ensures WallTokens(ws)[8 * j + k] == WallFields(ws[j])[k]
  {
    var last := |ws| - 1;
    if j < last {
      WallTokensAt(ws[..last], j, k);
    }
  }

  /** Sector records read off a stretch of a token sequence are saved as that stretch. */
  lemma {:induction false} SectorTokensOfSlice(t: seq<int>, base: int, ss: seq<Sector>)
    requires 0 <= base && base + 6 * |ss| <= |t|
    requires forall i :: 0 <= i < |ss| ==> ss[i] == SectorAt(t, base + 6 * i)
    ensures SectorTokens(ss) == t[base..base + 6 * |ss|]
  {
    var n := |ss|;
    if n > 0 {
      SectorTokensOfSlice(t, base, ss[..n - 1]);
      assert t[base..base + 6 * n] == t[base..base + 6 * (n - 1)] + t[base + 6 * (n - 1)..base + 6 * n];
    }
  }

  /** Wall records read off a stretch of a token sequence are saved as that stretch. */
  lemma {:induction false} WallTokensOfSlice(t: seq<int>, base: int, ws: seq<Wall>)
    requires 0 <= base && base + 8 * |ws| <= |t|
    requires forall j :: 0 <= j < |ws| ==> ws[j] == WallAt(t, base + 8 * j)
    ensures WallTokens(ws) == t[base..base + 8 * |ws|]
  {
    var m := |ws|;
    if m > 0 {
      WallTokensOfSlice(t, base, ws[..m - 1]);
      assert t[base..base + 8 * m] == t[base..base + 8 * (m - 1)] + t[base + 8 * (m - 1)..base + 8 * m];
    }
  }

  lemma SectorAtFields(t: seq<int>, b: int, s: Sector)
    requires 0 <= b && b + 6 <= |t|
    requires forall k :: 0 <= k < 6 ==> t[b + k] == SectorFields(s)[k]
    ensures SectorAt(t, b) == s
  {
    assert t[b] == s.ws && t[b + 1] == s.we && t[b + 2] == s.z1 by {
      assert t[b + 0] == SectorFields(s)[0];
      assert t[b + 1] == SectorFields(s)[1];
      assert t[b + 2] == SectorFields(s)[2];
    }
    assert t[b + 3] == s.z2 && t[b + 4] == s.st && t[b + 5] == s.ss by {
      assert t[b + 3] == SectorFields(s)[3];
      assert t[b + 4] == SectorFields(s)[4];
      assert t[b + 5] == SectorFields(s)[5];
    }
  }

  lemma WallAtFields(t: seq<int>, b: int, w: Wall)
    requires 0 <= b && b + 8 <= |t|
    requires forall k :: 0 <= k < 8 ==> t[b + k] == WallFields(w)[k]
    ensures WallAt(t, b) == w
  {
    assert t[b] == w.x1 && t[b + 1] == w.y1 && t[b + 2] == w.x2 && t[b + 3] == w.y2 by {
      assert t[b + 0] == WallFields(w)[0];
      assert t[b + 1] == WallFields(w)[1];
      assert t[b + 2] == WallFields(w)[2];
      assert t[b + 3] == WallFields(w)[3];
    }
    assert t[b + 4] == w.wt && t[b + 5] == w.u && t[b + 6] == w.v && t[b + 7] == w.shade by {
      assert t[b + 4] == WallFields(w)[4];
      assert t[b + 5] == WallFields(w)[5];
      assert t[b + 6] == WallFields(w)[6];
      assert t[b + 7] == WallFields(w)[7];
    }
  }

  // ---------------------------------------------------------------------------
  // Round trips

  /** The sector records of a saved file sit at their fixed positions. */
  lemma {:induction false} EncodedSectorsAt(l: Level, i: int)
    requires |l.sectors| > 0 && 0 <= i < |l.sectors|
    ensures |Encode(l)| == FileSize(|l.sectors|, |l.walls|)
    ensures SectorAt(Encode(l), 1 + 6 * i) == l.sectors[i]
  {
    var t := Encode(l);
    var st := SectorTokens(l.sectors);
    forall k | 0 <= k < 6 ensures t[1 + 6 * i + k] == SectorFields(l.sectors[i])[k] {
      SectorTokensAt(l.sectors, i, k);
      assert t[1 + 6 * i + k] == st[6 * i + k];
    }
    SectorAtFields(t, 1 + 6 * i, l.sectors[i]);
  }

  /** The wall records of a saved file sit at their fixed positions. */
  lemma {:induction false} EncodedWallsAt(l: Level, j: int)
    requires |l.sectors| > 0 && 0 <= j < |l.walls|
    ensures |Encode(l)| == FileSize(|l.sectors|, |l.walls|)
    ensures WallAt(Encode(l), 2 + 6 * |l.sectors| + 8 * j) == l.walls[j]
  {
    var t := Encode(l);
    var n := |l.sectors|;
    var wt := WallTokens(l.walls);
    forall k | 0 <= k < 8 ensures t[2 + 6 * n + 8 * j + k] == WallFields(l.walls[j])[k] {
      WallTokensAt(l.walls, j, k);
      assert t[2 + 6 * n + 8 * j + k] == wt[8 * j + k];
    }
    WallAtFields(t, 2 + 6 * n + 8 * j, l.walls[j]);
  }

  /** Saving a store with at least one sector and loading the file back gives the
      same sectors, walls and player. */
  lemma EncodeDecode(l: Level)
    requires WellFormedLevel(l) && |l.sectors| > 0
    ensures Decode(Encode(l)) == Ok(l)
  {
    var t := Encode(l);
    var n, m := |l.sectors|, |l.walls|;
    forall i | 0 <= i < n ensures l.sectors[i] == SectorAt(t, 1 + 6 * i) {
      EncodedSectorsAt(l, i);
    }
    forall j | 0 <= j < m ensures l.walls[j] == WallAt(t, 2 + 6 * n + 8 * j) {
      EncodedWallsAt(l, j);
    }
    assert t[1 + 6 * n] == m;
    assert PlayerAt(t, 2 + 6 * n + 8 * m) == l.player;
    DecodeReadBack(t, l);
  }

  /** A well-formed level whose records sit in a token sequence at the positions the
      save format gives them is what that sequence loads as. */
  lemma DecodeReadBack(t: seq<int>, l: Level)
    requires WellFormedLevel(l) && FileSize(|l.sectors|, |l.walls|) <= |t|
    requires t[0] == |l.sectors| && t[1 + 6 * |l.sectors|] == |l.walls|
    requires forall i :: 0 <= i < |l.sectors| ==> l.sectors[i] == SectorAt(t, 1 + 6 * i)
    requires forall j :: 0 <= j < |l.walls| ==> l.walls[j] == WallAt(t, 2 + 6 * |l.sectors| + 8 * j)
    requires l.player == PlayerAt(t, 2 + 6 * |l.sectors| + 8 * |l.walls|)
    ensures Decode(t) == Ok(l)
  {
    var n, m := |l.sectors|, |l.walls|;
    var ss := seq(n, i requires 0 <= i < n => SectorAt(t, 1 + 6 * i));
    var ws := seq(m, j requires 0 <= j < m => WallAt(t, 2 + 6 * n + 8 * j));
    assert ss == l.sectors;
    assert ws == l.walls;
  }

  /** Loading a file with at least one sector and saving the result writes back
      exactly the tokens that were read. */
  lemma DecodeEncode(t: seq<int>)
    requires Decode(t).Ok? && |Decode(t).value.sectors| > 0
    ensures var l := Decode(t).value;
            Encode(l) == t[..FileSize(|l.sectors|, |l.walls|)]
  {
    EncodeReadBack(t, Decode(t).value);
  }

  /** A level whose records were read off a token sequence at the positions the
      save format gives them is saved as that stretch of tokens. */
  lemma EncodeReadBack(t: seq<int>, l: Level)
    requires 0 < |l.sectors| && FileSize(|l.sectors|, |l.walls|) <= |t|
    requires t[0] == |l.sectors| && t[1 + 6 * |l.sectors|] == |l.walls|
    requires forall i :: 0 <= i < |l.sectors| ==> l.sectors[i] == SectorAt(t, 1 + 6 * i)
    requires forall j :: 0 <= j < |l.walls| ==> l.walls[j] == WallAt(t, 2 + 6 * |l.sectors| + 8 * j)
    requires l.player == PlayerAt(t, 2 + 6 * |l.sectors| + 8 * |l.walls|)
    ensures Encode(l) == t[..FileSize(|l.sectors|, |l.walls|)]
  {
    var n, m := |l.sectors|, |l.walls|;
    var f := FileSize(n, m);
    SectorTokensOfSlice(t, 1, l.sectors);
    WallTokensOfSlice(t, 2 + 6 * n, l.walls);
    assert PlayerFields(l.player) == t[2 + 6 * n + 8 * m..f];
    calc {
      Encode(l);
      [n] + SectorTokens(l.sectors) + [m] + WallTokens(l.walls) + PlayerFields(l.player);
      [t[0]] + t[1..1 + 6 * n] + [t[1 + 6 * n]] + t[2 + 6 * n..2 + 6 * n + 8 * m] + t[2 + 6 * n + 8 * m..f];
      { SplitFile(t, n, m); }
      t[..f];
    }
  }

  /** The first file-sized stretch of a token sequence is its five parts laid end to end. */
  lemma SplitFile(t: seq<int>, n: nat, m: nat)
    requires FileSize(n, m) <= |t|
    ensures t[..FileSize(n, m)]
            == [t[0]] + t[1..1 + 6 * n] + [t[1 + 6 * n]] + t[2 + 6 * n..2 + 6 * n + 8 * m]
               + t[2 + 6 * n + 8 * m..FileSize(n, m)]
  {
    var f := FileSize(n, m);
    assert t[..f] == t[..1] + t[1..1 + 6 * n] + t[1 + 6 * n..2 + 6 * n]
                     + t[2 + 6 * n..2 + 6 * n + 8 * m] + t[2 + 6 * n + 8 * m..f];
  }

  /** Nothing is saved for a store without sectors, and such a file does not load. */
  lemma EmptyStoreSavesNothing(l: Level)
    requires |l.sectors| == 0
    ensures Encode(l) == [] && Decode(Encode(l)) == Err(Truncated)
  {
  }
}
