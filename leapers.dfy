/**
 * The precomputed attack tables of the pieces whose moves do not depend on
 * occupancy (pawn captures by colour, knight, king) and the full-length
 * rook and bishop ray tables. Each table entry is computed by shifting the
 * single bit of the square and clipping with file and rank masks, as in the
 * engine; the lemmas state the geometry each entry amounts to.
 */
module Leapers {
  import opened Bitboards

  function Abs(x: int): nat { if x < 0 then -x else x }

  // ---------------------------------------------------------------------
  // Pawn captures

  /** WHITE_PAWN_ATTACKS[s]: north-west unless on file a, north-east unless on file h. */
  function WhitePawnAttacks(s: Square): Bitboard
  {
    var bit := {s};
    var northwest := Shl(bit - FileA, 7);
    var northeast := Shl(bit - FileH, 9);
    northwest + northeast
  }

  /** BLACK_PAWN_ATTACKS[s]: south-west unless on file a, south-east unless on file h. */
  function BlackPawnAttacks(s: Square): Bitboard
  {
    var bit := {s};
    var southwest := Shr(bit - FileA, 9);
    var southeast := Shr(bit - FileH, 7);
    southwest + southeast
  }

  /** The white pawn table holds exactly s+7 (off file a) and s+9 (off file h), cut at 64 bits. */
  lemma WhitePawnAttacksExact(s: Square, t: Square)
    ensures t in WhitePawnAttacks(s) <==>
      (t == s + 7 && FileOf(s) != 0) || (t == s + 9 && FileOf(s) != 7)
  {
    BitMeets(s, FileA);
    BitMeets(s, FileH);
    ShiftEmpty(7);
    ShiftEmpty(9);
    ShlBit(s, 7, t);
    ShlBit(s, 9, t);
  }

  /** No wrap-around: a white pawn attacks one rank up and one file aside; nothing from rank 8. */
  lemma WhitePawnAttacksGeometry(s: Square, t: Square)
    ensures t in WhitePawnAttacks(s) <==> RankOf(t) == RankOf(s) + 1 && Abs(FileOf(t) - FileOf(s)) == 1
    ensures RankOf(s) == 7 ==> WhitePawnAttacks(s) == {}
  {
    WhitePawnAttacksExact(s, t);
    Displace(s, t, 1, -1);
    Displace(s, t, 1, 1);
    if RankOf(s) == 7 {
      forall u: Square | u in WhitePawnAttacks(s) ensures false {
        WhitePawnAttacksExact(s, u);
      }
    }
  }

  /** The black pawn table holds exactly s-9 (off file a) and s-7 (off file h), cut at 0. */
  lemma BlackPawnAttacksExact(s: Square, t: Square)
    ensures t in BlackPawnAttacks(s) <==>
      (t == s - 9 && FileOf(s) != 0) || (t == s - 7 && FileOf(s) != 7)
  {
    BitMeets(s, FileA);
    BitMeets(s, FileH);
    ShiftEmpty(7);
    ShiftEmpty(9);
    ShrBit(s, 7, t);
    ShrBit(s, 9, t);
  }

  /** No wrap-around: a black pawn attacks one rank down and one file aside; nothing from rank 1. */
  lemma BlackPawnAttacksGeometry(s: Square, t: Square)
    ensures t in BlackPawnAttacks(s) <==> RankOf(t) == RankOf(s) - 1 && Abs(FileOf(t) - FileOf(s)) == 1
    ensures RankOf(s) == 0 ==> BlackPawnAttacks(s) == {}
  {
    BlackPawnAttacksExact(s, t);
    Displace(s, t, -1, -1);
    Displace(s, t, -1, 1);
    if RankOf(s) == 0 {
      forall u: Square | u in BlackPawnAttacks(s) ensures false {
        BlackPawnAttacksExact(s, u);
      }
    }
  }

  /**
   * The reverse lookup the attack test relies on: a white pawn on `s`
   * attacks `t` exactly when a black pawn on `t` would attack `s`.
   */
  lemma PawnAttacksReverse(s: Square, t: Square)
    ensures t in WhitePawnAttacks(s) <==> s in BlackPawnAttacks(t)
  {
    WhitePawnAttacksGeometry(s, t);
    BlackPawnAttacksGeometry(t, s);
  }

  // ---------------------------------------------------------------------
  // Knight

  /** KNIGHT_ATTACKS[s]: the eight L-shaped jumps, each clipped by its own file and rank test. */
  function KnightAttacks(s: Square): Bitboard
  {
    var bit := {s};
    (if bit * (FileA + FileB) == {} && bit * Rank8 == {} then Shl(bit, 6) else {})
    + (if bit * (FileG + FileH) == {} && bit * Rank8 == {} then Shl(bit, 10) else {})
    + (if bit * FileA == {} && bit * (Rank7 + Rank8) == {} then Shl(bit, 15) else {})
    + (if bit * FileH == {} && bit * (Rank7 + Rank8) == {} then Shl(bit, 17) else {})
    + (if bit * (FileG + FileH) == {} && bit * Rank1 == {} then Shr(bit, 6) else {})
    + (if bit * (FileA + FileB) == {} && bit * Rank1 == {} then Shr(bit, 10) else {})
    + (if bit * FileH == {} && bit * (Rank1 + Rank2) == {} then Shr(bit, 15) else {})
    + (if bit * FileA == {} && bit * (Rank1 + Rank2) == {} then Shr(bit, 17) else {})
  }

  /** A knight's jump: one rank and two files, or two ranks and one file. */
  predicate KnightJump(s: Square, t: Square)
  {
    var dr, df := Abs(RankOf(t) - RankOf(s)), Abs(FileOf(t) - FileOf(s));
    (dr == 1 && df == 2) || (dr == 2 && df == 1)
  }

  /** Which of the eight shifted bits each clipping test lets through. */
  lemma KnightAttacksIndex(s: Square, t: Square)
    ensures t in KnightAttacks(s) <==>
      var r, f := RankOf(s), FileOf(s);
      (t == s + 6 && f >= 2 && r <= 6) || (t == s + 10 && f <= 5 && r <= 6)
      || (t == s + 15 && f >= 1 && r <= 5) || (t == s + 17 && f <= 6 && r <= 5)
      || (t == s - 6 && f <= 5 && r >= 1) || (t == s - 10 && f >= 2 && r >= 1)
      || (t == s - 15 && f <= 6 && r >= 2) || (t == s - 17 && f >= 1 && r >= 2)
  {
    DerivedMasks(s);
    ClippedShl(s, t, FileA + FileB, Rank8, 6);
    ClippedShl(s, t, FileG + FileH, Rank8, 10);
    ClippedShl(s, t, FileA, Rank7 + Rank8, 15);
    ClippedShl(s, t, FileH, Rank7 + Rank8, 17);
    ClippedShr(s, t, FileG + FileH, Rank1, 6);
    ClippedShr(s, t, FileA + FileB, Rank1, 10);
    ClippedShr(s, t, FileH, Rank1 + Rank2, 15);
    ClippedShr(s, t, FileA, Rank1 + Rank2, 17);
  }

  /** One clipped jump of the knight table: shifted up by `n` unless the square is on a clipped file or rank. */
  lemma ClippedShl(s: Square, t: Square, files: Bitboard, ranks: Bitboard, n: nat)
    ensures t in (if {s} * files == {} && {s} * ranks == {} then Shl({s}, n) else {}) <==>
      t == s + n && s !in files && s !in ranks
  {
    BitMeets(s, files);
    BitMeets(s, ranks);
    ShlBit(s, n, t);
  }

  /** One clipped jump of the knight table: shifted down by `n` unless the square is on a clipped file or rank. */
  lemma ClippedShr(s: Square, t: Square, files: Bitboard, ranks: Bitboard, n: nat)
    ensures t in (if {s} * files == {} && {s} * ranks == {} then Shr({s}, n) else {}) <==>
      t == s - n && s !in files && s !in ranks
  {
    BitMeets(s, files);
    BitMeets(s, ranks);
    ShrBit(s, n, t);
  }

  /** Every entry is a jump (no wrap-around) and every on-board jump is in the entry. */
  lemma KnightAttacksExact(s: Square, t: Square)
    ensures t in KnightAttacks(s) <==> KnightJump(s, t)
  {
    KnightAttacksIndex(s, t);
    Displace(s, t, 1, -2);
    Displace(s, t, 1, 2);
    Displace(s, t, 2, -1);
    Displace(s, t, 2, 1);
    Displace(s, t, -1, 2);
    Displace(s, t, -1, -2);
    Displace(s, t, -2, 1);
    Displace(s, t, -2, -1);
  }

  /** The knight table is symmetric. */
  lemma KnightAttacksSymmetric(s: Square, t: Square)
    ensures t in KnightAttacks(s) <==> s in KnightAttacks(t)
  {
    KnightAttacksExact(s, t);
    KnightAttacksExact(t, s);
  }

  /** Square a1 jumps to exactly b3 and c2. */
  lemma KnightAttacksA1()
    ensures KnightAttacks(0) == {10, 17}
  {
    forall t: Square ensures t in KnightAttacks(0) <==> t == 10 || t == 17 {
      KnightAttacksExact(0, t);
    }
  }

  // ---------------------------------------------------------------------
  // King (kingAttacksFrom in board.cpp; kingMoves inlines the same shifts)

  /** The eight neighbours of `s`, with the sideways shifts clipped at files a and h. */
  function KingAttacks(s: Square): Bitboard
  {
    var bb := {s};
    var notA := AllSquares - FileA;
    var notH := AllSquares - FileH;
    Shl(bb, 8) + Shr(bb, 8)
    + Shl(bb * notH, 1) + Shr(bb * notA, 1)
    + Shl(bb * notH, 9) + Shr(bb * notH, 7)
    + Shl(bb * notA, 7) + Shr(bb * notA, 9)
  }

  predicate Adjacent(s: Square, t: Square)
  {
    s != t && Abs(RankOf(t) - RankOf(s)) <= 1 && Abs(FileOf(t) - FileOf(s)) <= 1
  }

  /** Which of the eight shifted bits the file clipping lets through. */
  lemma KingAttacksIndex(s: Square, t: Square)
    ensures t in KingAttacks(s) <==>
      var f := FileOf(s);
      t == s + 8 || t == s - 8 || (t == s + 1 && f <= 6) || (t == s - 1 && f >= 1)
      || (t == s + 9 && f <= 6) || (t == s - 7 && f <= 6) || (t == s + 7 && f >= 1) || (t == s - 9 && f >= 1)
  {
    BitMeets(s, AllSquares - FileA);
    BitMeets(s, AllSquares - FileH);
    ShiftEmpty(1);
    ShiftEmpty(7);
    ShiftEmpty(9);
    ShlBit(s, 8, t);
    ShrBit(s, 8, t);
    ShlBit(s, 1, t);
    ShrBit(s, 1, t);
    ShlBit(s, 9, t);
    ShrBit(s, 7, t);
    ShlBit(s, 7, t);
    ShrBit(s, 9, t);
  }

  /** The king table is exactly the in-board neighbours: no wrap-around, never the square itself. */
  lemma KingAttacksExact(s: Square, t: Square)
    ensures t in KingAttacks(s) <==> Adjacent(s, t)
  {
    KingAttacksIndex(s, t);
    Displace(s, t, 1, 0);
    Displace(s, t, -1, 0);
    Displace(s, t, 0, 1);
    Displace(s, t, 0, -1);
    Displace(s, t, 1, 1);
    Displace(s, t, -1, 1);
    Displace(s, t, 1, -1);
    Displace(s, t, -1, -1);
  }

  /** A king on `s` attacks `t` exactly when a king on `t` attacks `s`. */
  lemma KingAttacksSymmetric(s: Square, t: Square)
    ensures t in KingAttacks(s) <==> s in KingAttacks(t)
  {
    KingAttacksExact(s, t);
    KingAttacksExact(t, s);
  }


  // ---------------------------------------------------------------------
  // Table construction

  /** The loop shared by the consteval table builders: one computed entry per square. */
  method FillTable(entry: Square -> Bitboard) returns (table: seq<Bitboard>)
    ensures |table| == 64 && forall s: Square :: table[s] == entry(s)
  {
    var a := new Bitboard[64];
    for square := 0 to 64
      invariant forall s: Square :: s < square ==> a[s] == entry(s)
    {
      a[square] := entry(square);
    }
    table := a[..];
  }

  /** makeWhitePawnAttacks. */
  method MakeWhitePawnAttacks() returns (table: seq<Bitboard>)
    ensures |table| == 64 && forall s: Square :: table[s] == WhitePawnAttacks(s)
  {
    table := FillTable(WhitePawnAttacks);
  }

  /** makeBlackPawnAttacks. */
  method MakeBlackPawnAttacks() returns (table: seq<Bitboard>)
    ensures |table| == 64 && forall s: Square :: table[s] == BlackPawnAttacks(s)
  {
    table := FillTable(BlackPawnAttacks);
  }

  /** makeKnightAttacks. */
  method MakeKnightAttacks() returns (table: seq<Bitboard>)
    ensures |table| == 64 && forall s: Square :: table[s] == KnightAttacks(s)
  {
    table := FillTable(KnightAttacks);
  }

  // ---------------------------------------------------------------------
  // Full-length ray tables (makeRayTable)

  /** One step of the walk is taken when it stays on the board and moves at most one rank and one file. */
  predicate StepOk(current: int, delta: int)
  {
    var next := current + delta;
    0 <= current < 64 && 0 <= next < 64
    && Abs(next / 8 - current / 8) <= 1 && Abs(next % 8 - current % 8) <= 1
  }

  /** The squares the walk from `current` by `delta` reaches, not counting `current`. */
  function RayWalk(current: Square, delta: int): Bitboard
    requires delta != 0
    decreases if delta > 0 then 64 - current else current
  {
    if StepOk(current, delta) then {(current + delta) as Square} + RayWalk((current + delta) as Square, delta)
    else {}
  }

  /** The union of the walks for the deltas in order. */
  function RaysOf(deltas: seq<int>, s: Square): Bitboard
    requires forall i :: 0 <= i < |deltas| ==> deltas[i] != 0
  {
    if deltas == [] then {} else RaysOf(deltas[..|deltas| - 1], s) + RayWalk(s, deltas[|deltas| - 1])
  }

  function Sign(x: int): int { if x > 0 then 1 else if x < 0 then -1 else 0 }

  /** `t` lies beyond `s` along the direction (dr, df): a positive multiple of it away. */
  predicate Beyond(s: Square, t: Square, dr: int, df: int)
  {
    var a, b := RankOf(t) - RankOf(s), FileOf(t) - FileOf(s);
    Sign(a) == dr && Sign(b) == df && (dr != 0 && df != 0 ==> Abs(a) == Abs(b))
  }

  /** A walk step by `8*dr + df` is taken exactly when moving (dr, df) stays on the board. */
  lemma StepOkExact(current: Square, dr: int, df: int)
    requires -1 <= dr <= 1 && -1 <= df <= 1
    ensures StepOk(current, 8 * dr + df) <==> OnBoard(RankOf(current) + dr, FileOf(current) + df)
    ensures StepOk(current, 8 * dr + df) ==>
      RankOf((current + 8 * dr + df) as Square) == RankOf(current) + dr &&
      FileOf((current + 8 * dr + df) as Square) == FileOf(current) + df
  {
    var r, f := current / 8, current % 8;
    var next := current + 8 * dr + df;
    if 0 <= f + df < 8 {
      assert next == 8 * (r + dr) + (f + df);
      if 0 <= next < 64 {
        assert next / 8 == r + dr && next % 8 == f + df;
      }
    } else if f + df == 8 {
      assert next == 8 * (r + dr + 1);
      if 0 <= next < 64 {
        assert next / 8 == r + dr + 1 && next % 8 == 0;
      }
    } else {
      assert next == 8 * (r + dr - 1) + 7;
      if 0 <= next < 64 {
        assert next / 8 == r + dr - 1 && next % 8 == 7;
      }
    }
  }

  /** Being beyond a square splits into the next square and what is beyond that one. */
  lemma BeyondStep(current: Square, dr: int, df: int, t: Square)
    requires -1 <= dr <= 1 && -1 <= df <= 1 && (dr, df) != (0, 0)
    ensures !OnBoard(RankOf(current) + dr, FileOf(current) + df) ==> !Beyond(current, t, dr, df)
    ensures OnBoard(RankOf(current) + dr, FileOf(current) + df) ==>
      var next := Sq(RankOf(current) + dr, FileOf(current) + df);
      (Beyond(current, t, dr, df) <==> t == next || Beyond(next, t, dr, df))
  {
  }

  /** The walk by `8*dr + df` reaches exactly the squares beyond the start in direction (dr, df). */
  lemma {:induction false} RayWalkExact(current: Square, dr: int, df: int, t: Square)
    requires -1 <= dr <= 1 && -1 <= df <= 1 && (dr, df) != (0, 0)
    ensures t in RayWalk(current, 8 * dr + df) <==> Beyond(current, t, dr, df)
    decreases if 8 * dr + df > 0 then 64 - current else current
  {
    StepOkExact(current, dr, df);
    BeyondStep(current, dr, df, t);
    if StepOk(current, 8 * dr + df) {
      var next := (current + 8 * dr + df) as Square;
      assert next == Sq(RankOf(current) + dr, FileOf(current) + df);
      RayWalkExact(next, dr, df, t);
    }
  }

  /** RayWalkExact for the walk by `delta`, the step (dr, df) written out as one offset. */
  lemma WalkBeyond(s: Square, t: Square, dr: int, df: int, delta: int)
    requires -1 <= dr <= 1 && -1 <= df <= 1 && (dr, df) != (0, 0) && delta == 8 * dr + df
    ensures t in RayWalk(s, delta) <==> Beyond(s, t, dr, df)
  {
    RayWalkExact(s, dr, df, t);
  }

  /** ROOK_RAYS. */
  function RookRays(s: Square): Bitboard
  {
    RaysOf([8, -8, 1, -1], s)
  }

  /** BISHOP_RAYS. */
  function BishopRays(s: Square): Bitboard
  {
    RaysOf([9, 7, -7, -9], s)
  }

  /** ROOK_RAYS[s] is the union of the four orthogonal walks. */
  lemma RookRaysWalks(s: Square)
    ensures RookRays(s) == RayWalk(s, 8) + RayWalk(s, -8) + RayWalk(s, 1) + RayWalk(s, -1)
  {
    var ds := [8, -8, 1, -1];
    assert ds[..3] == [8, -8, 1] && [8, -8, 1][..2] == [8, -8] && [8, -8][..1] == [8] && [8][..0] == [];
    assert RaysOf([8], s) == RayWalk(s, 8);
    assert RaysOf([8, -8], s) == RayWalk(s, 8) + RayWalk(s, -8);
    assert RaysOf([8, -8, 1], s) == RayWalk(s, 8) + RayWalk(s, -8) + RayWalk(s, 1);
  }

  /** BISHOP_RAYS[s] is the union of the four diagonal walks. */
  lemma BishopRaysWalks(s: Square)
    ensures BishopRays(s) == RayWalk(s, 9) + RayWalk(s, 7) + RayWalk(s, -7) + RayWalk(s, -9)
  {
    var ds := [9, 7, -7, -9];
    assert ds[..3] == [9, 7, -7] && [9, 7, -7][..2] == [9, 7] && [9, 7][..1] == [9] && [9][..0] == [];
    assert RaysOf([9], s) == RayWalk(s, 9);
    assert RaysOf([9, 7], s) == RayWalk(s, 9) + RayWalk(s, 7);
    assert RaysOf([9, 7, -7], s) == RayWalk(s, 9) + RayWalk(s, 7) + RayWalk(s, -7);
  }

  /** ROOK_RAYS[s] is every other square on the rank or file of `s`. */
  lemma RookRaysExact(s: Square, t: Square)
    ensures t in RookRays(s) <==> t != s && (RankOf(t) == RankOf(s) || FileOf(t) == FileOf(s))
  {
    RookRaysWalks(s);
    WalkBeyond(s, t, 1, 0, 8);
    WalkBeyond(s, t, -1, 0, -8);
    WalkBeyond(s, t, 0, 1, 1);
    WalkBeyond(s, t, 0, -1, -1);
    OrthogonalBeyond(s, t);
  }

  /** Another square on the rank or file lies beyond `s` in one of the four orthogonal directions. */
  lemma OrthogonalBeyond(s: Square, t: Square)
    ensures t != s && (RankOf(t) == RankOf(s) || FileOf(t) == FileOf(s)) <==>
      Beyond(s, t, 1, 0) || Beyond(s, t, -1, 0) || Beyond(s, t, 0, 1) || Beyond(s, t, 0, -1)
  {
    SqOfCoords(s);
    SqOfCoords(t);
  }

  /** BISHOP_RAYS[s] is every other square on a diagonal through `s`. */
  lemma BishopRaysExact(s: Square, t: Square)
    ensures t in BishopRays(s) <==> t != s && Abs(RankOf(t) - RankOf(s)) == Abs(FileOf(t) - FileOf(s))
  {
    BishopRaysWalks(s);
    WalkBeyond(s, t, 1, 1, 9);
    WalkBeyond(s, t, 1, -1, 7);
    WalkBeyond(s, t, -1, 1, -7);
    WalkBeyond(s, t, -1, -1, -9);
  }

  /** The walk stops: nothing more is added. */
  lemma WalkEnds(current: Square, delta: int, walked: Bitboard)
    requires delta != 0 && !StepOk(current, delta)
    ensures walked + RayWalk(current, delta) == walked
  {
    assert RayWalk(current, delta) == {};
  }

  /** The walk takes one more step. */
  lemma WalkOn(current: Square, delta: int, walked: Bitboard, whole: Bitboard)
    requires delta != 0 && StepOk(current, delta) && walked + RayWalk(current, delta) == whole
    ensures (walked + {(current + delta) as Square}) + RayWalk((current + delta) as Square, delta) == whole
  {
    assert RayWalk(current, delta) == {(current + delta) as Square} + RayWalk((current + delta) as Square, delta);
  }

  /** One more delta adds its walk to the union. */
  lemma RaysOfPrefix(deltas: seq<int>, i: nat, s: Square)
    requires i < |deltas| && forall j :: 0 <= j < |deltas| ==> deltas[j] != 0
    ensures RaysOf(deltas[..i + 1], s) == RaysOf(deltas[..i], s) + RayWalk(s, deltas[i])
  {
    assert deltas[..i + 1][..i] == deltas[..i];
  }

  /** The body of makeRayTable for one square: the walks along every delta, in order. */
  method SquareRays(deltas: seq<int>, sq: Square) returns (mask: Bitboard)
    requires forall i :: 0 <= i < |deltas| ==> deltas[i] != 0
    ensures mask == RaysOf(deltas, sq)
  {
    mask := {};
    for i := 0 to |deltas|
      invariant mask == RaysOf(deltas[..i], sq)
    {
      mask := WalkRay(sq, deltas[i], mask);
      RaysOfPrefix(deltas, i, sq);
    }
    assert deltas[..|deltas|] == deltas;
  }

  /**
   * The innermost loop of makeRayTable: step by `delta` from `sq` until the
   * next step leaves the board or jumps more than one rank or file, adding
   * each square reached to `mask0`.
   */
  method WalkRay(sq: Square, delta: int, mask0: Bitboard) returns (mask: Bitboard)
    requires delta != 0
    ensures mask == mask0 + RayWalk(sq, delta)
  {
    mask := mask0;
    var current: Square := sq;
    ghost var walked: Bitboard := {};
    while true
      invariant mask == mask0 + walked
      invariant walked + RayWalk(current, delta) == RayWalk(sq, delta)
      decreases if delta > 0 then 64 - current else current
    {
      var next := current + delta;
      if next < 0 || next >= 64 {
        WalkEnds(current, delta, walked);
        break;
      }
      var curRank, curFile := current / 8, current % 8;
      var nextRank, nextFile := next / 8, next % 8;
      if Abs(nextRank - curRank) > 1 || Abs(nextFile - curFile) > 1 {
        WalkEnds(current, delta, walked);
        break;
      }
      WalkOn(current, delta, walked, RayWalk(sq, delta));
      mask := mask + {next as Square};
      walked := walked + {next as Square};
      current := next as Square;
    }
  }

  /**
   * makeRayTable: for every square, walk each delta until the next step
   * leaves the board or jumps more than one rank or file, collecting the
   * squares passed.
   */
  method MakeRayTable(deltas: seq<int>) returns (table: seq<Bitboard>)
    requires forall i :: 0 <= i < |deltas| ==> deltas[i] != 0
    ensures |table| == 64 && forall s: Square :: table[s] == RaysOf(deltas, s)
  {
    var a := new Bitboard[64];
    for sq := 0 to 64
      invariant forall s: Square :: s < sq ==> a[s] == RaysOf(deltas, s)
    {
      var mask := SquareRays(deltas, sq);
      a[sq] := mask;
    }
    table := a[..];
  }
}
