/**
 * analyzeChecks (board.cpp): for the side to move, the enemy pieces that
 * give check, the squares a non-king move must land on to answer a single
 * check, the friendly pieces pinned to the king together with the line
 * each may still move along, and the squares the enemy attacks.
 */
module Checks {
  import opened Bitboards
  import opened Leapers
  import opened Magic
  import opened Sliders
  import opened Boards
  import opened MoveGen
  import opened Lines
  import opened Attacks

  /** CheckInfo; `pinDirs` has one entry per square. */
  datatype CheckInfo = CheckInfo(
    checkers: Bitboard, blockMask: Bitboard, pinned: Bitboard, kingUnsafe: Bitboard, pinDirs: seq<Bitboard>)

  predicate BothKings(p: Position)
  {
    HasKing(p, true) && HasKing(p, false)
  }

  /** The enemy pieces that slide along diagonals: bishops and queens. */
  function BishopsLike(p: Position): Bitboard
  {
    p.bishop * Enemy(p) + p.queen * Enemy(p)
  }

  /** The enemy pieces that slide along ranks and files: rooks and queens. */
  function RooksLike(p: Position): Bitboard
  {
    p.rook * Enemy(p) + p.queen * Enemy(p)
  }

  // ---------------------------------------------------------------------
  // Checkers

  /**
   * The checkers as analyzeChecks computes them, with its pawn lookup: the
   * table of the side NOT to move (BLACK_PAWN_ATTACKS when white is to move).
   */
  function CheckersAsWritten(t: SliderTables, p: Position): Bitboard
    requires WellFormed(t) && HasKing(p, p.whiteTurn)
  {
    var ksq, next, occ := KingSquare(p, p.whiteTurn), Enemy(p), Occupied(p);
    KnightAttacks(ksq) * (p.knight * next) +
    PawnAttacks(!p.whiteTurn, ksq) * (p.pawn * next) +
    BishopAttacks(t, ksq, occ) * BishopsLike(p) +
    RookAttacks(t, ksq, occ) * RooksLike(p)
  }

  /**
   * The checkers with the pawn lookup corrected: the enemy pawns that can
   * capture on the king square stand where a pawn of the king's own colour
   * on that square would capture, so the reverse lookup uses the table of
   * the side to move.
   */
  function Checkers(t: SliderTables, p: Position): Bitboard
    requires WellFormed(t) && HasKing(p, p.whiteTurn)
  {
    var ksq, next, occ := KingSquare(p, p.whiteTurn), Enemy(p), Occupied(p);
    KnightAttacks(ksq) * (p.knight * next) +
    PawnAttacks(p.whiteTurn, ksq) * (p.pawn * next) +
    BishopAttacks(t, ksq, occ) * BishopsLike(p) +
    RookAttacks(t, ksq, occ) * RooksLike(p)
  }

  /** Membership of a union of four masked lookups, as Checkers is built. */
  lemma MaskedUnion(a: Bitboard, b: Bitboard, c: Bitboard, d: Bitboard, x: Bitboard, y: Bitboard, z: Bitboard, w: Bitboard, s: Square)
    ensures s in a * x + b * y + c * z + d * w <==> (s in a && s in x) || (s in b && s in y) || (s in c && s in z) || (s in d && s in w)
  {
  }

  /** A checker is an enemy pawn, knight or slider found by one of the four lookups from the king square. */
  lemma CheckersUnfold(t: SliderTables, p: Position, s: Square)
    requires WellFormed(t) && HasKing(p, p.whiteTurn)
    ensures s in Checkers(t, p) <==>
      var ksq, occ := KingSquare(p, p.whiteTurn), Occupied(p);
      s in Enemy(p) &&
      ((s in KnightAttacks(ksq) && s in p.knight) || (s in PawnAttacks(p.whiteTurn, ksq) && s in p.pawn) ||
       (s in BishopAttacks(t, ksq, occ) && (s in p.bishop || s in p.queen)) ||
       (s in RookAttacks(t, ksq, occ) && (s in p.rook || s in p.queen)))
  {
    var ksq, next, occ := KingSquare(p, p.whiteTurn), Enemy(p), Occupied(p);
    MaskedUnion(KnightAttacks(ksq), PawnAttacks(p.whiteTurn, ksq), BishopAttacks(t, ksq, occ), RookAttacks(t, ksq, occ),
      p.knight * next, p.pawn * next, BishopsLike(p), RooksLike(p), s);
  }

  /**
   * On exact tables, the checkers are exactly the enemy pieces, kings
   * aside, whose own attack set holds the king square of the side to move.
   */
  lemma CheckersMeaning(t: SliderTables, p: Position, s: Square)
    requires Exact(t) && HasKing(p, p.whiteTurn)
    ensures s in Checkers(t, p) <==>
      s in Enemy(p) && KingSquare(p, p.whiteTurn) in PieceAttacks(p, s, !p.whiteTurn, Occupied(p))
  {
    var ksq, occ := KingSquare(p, p.whiteTurn), Occupied(p);
    CheckersUnfold(t, p, s);
    AttackedBy(ksq, s, !p.whiteTurn, p, occ);
    assert !!p.whiteTurn == p.whiteTurn;
  }

  /** In a consistent position a square holds at most one kind of piece. */
  lemma KindsDisjoint(p: Position, k: PieceKind, k': PieceKind, s: Square)
    requires Consistent(p) && k != k' && s in Pieces(p, k)
    ensures s !in Pieces(p, k')
  {
    assert Pieces(p, k) * Pieces(p, k') == {};
    assert s !in Pieces(p, k) * Pieces(p, k');
  }

  /** In a consistent position a king square holds no other piece. */
  lemma KingSquareHoldsOnlyKing(p: Position, s: Square)
    requires Consistent(p) && s in p.king
    ensures s !in p.pawn && s !in p.knight && s !in p.bishop && s !in p.rook && s !in p.queen
  {
    KindsDisjoint(p, King, Pawn, s);
    KindsDisjoint(p, King, Knight, s);
    KindsDisjoint(p, King, Bishop, s);
    KindsDisjoint(p, King, Rook, s);
    KindsDisjoint(p, King, Queen, s);
  }

  /** The checkers are enemy pieces, and in a consistent position never the enemy king. */
  lemma CheckersExcludeKing(t: SliderTables, p: Position, s: Square)
    requires WellFormed(t) && HasKing(p, p.whiteTurn)
    requires s in Checkers(t, p)
    ensures s in Enemy(p)
    ensures Consistent(p) ==> s !in p.king
  {
    CheckersUnfold(t, p, s);
    if Consistent(p) && s in p.king {
      KingSquareHoldsOnlyKing(p, s);
    }
  }

  /** White king on e4, black pawn on d5 (which attacks e4), black king on h8, white to move. */
  const PawnCheck: Position := Position(
    {28}, {35, 63}, {35}, {}, {}, {}, {28, 63}, {}, 0, true, true, true, true, true)

  /**
   * The pawn lookup of analyzeChecks misses a pawn check: the black pawn on
   * d5 attacks the white king on e4, yet it is not among the checkers as
   * written, while the corrected lookup finds it.
   */
  lemma CheckersAsWrittenMissesPawnCheck(t: SliderTables)
    requires WellFormed(t)
    ensures HasKing(PawnCheck, true) && KingSquare(PawnCheck, true) == 28
    ensures 35 in Enemy(PawnCheck) && 28 in PieceAttacks(PawnCheck, 35, false, Occupied(PawnCheck))
    ensures 35 !in CheckersAsWritten(t, PawnCheck)
    ensures 35 in Checkers(t, PawnCheck)
  {
    var p := PawnCheck;
    assert p.king * Side(p, true) == {28};
    var ksq, next, occ := KingSquare(p, true), Enemy(p), Occupied(p);
    assert ksq == 28;
    BlackPawnAttacksExact(35, 28);
    BlackPawnAttacksExact(28, 35);
    WhitePawnAttacksExact(28, 35);
    assert 28 in PieceAttacks(p, 35, false, occ);
    assert 35 !in p.knight * next && 35 !in BishopsLike(p) && 35 !in RooksLike(p);
    MaskedUnion(KnightAttacks(ksq), PawnAttacks(false, ksq), BishopAttacks(t, ksq, occ), RookAttacks(t, ksq, occ),
      p.knight * next, p.pawn * next, BishopsLike(p), RooksLike(p), 35);
    MaskedUnion(KnightAttacks(ksq), PawnAttacks(true, ksq), BishopAttacks(t, ksq, occ), RookAttacks(t, ksq, occ),
      p.knight * next, p.pawn * next, BishopsLike(p), RooksLike(p), 35);
  }

  // ---------------------------------------------------------------------
  // Block mask

  /**
   * The squares that answer a single check by a non-king move: the
   * checker's square, and for a sliding checker on a common line also the
   * squares between it and the king. Empty unless there is exactly one
   * checker.
   */
  function BlockMask(p: Position, ksq: Square, checkers: Bitboard): (mask: Bitboard)
    ensures |checkers| != 1 ==> mask == {}
  {
    if |checkers| == 1 then
      var c := Lsb(checkers);
      if c in BishopsLike(p) + RooksLike(p) && SameLineOrDiag(ksq, c) then Between(ksq, c) + {c} else {c}
    else {}
  }

  /** A single checker is always in the block mask, which holds nothing beyond the checker and the squares between it and the king. */
  lemma BlockMaskHoldsChecker(p: Position, ksq: Square, c: Square)
    ensures c in BlockMask(p, ksq, {c})
    ensures BlockMask(p, ksq, {c}) <= Between(ksq, c) + {c}
  {
    assert Lsb({c}) == c;
  }

  /** On exact tables, a square the rook or bishop lookup finds lies on one of the king's rays. */
  lemma LookupDirection(t: SliderTables, ksq: Square, occ: Bitboard, c: Square)
    requires Exact(t) && (c in RookAttacks(t, ksq, occ) || c in BishopAttacks(t, ksq, occ))
    ensures exists d :: c in Ray(ksq, d, occ)
  {
    assert c in RookRayCast(ksq, occ) || c in BishopRayCast(ksq, occ);
    if c in Ray(ksq, North, occ) {
    } else if c in Ray(ksq, South, occ) {
    } else if c in Ray(ksq, East, occ) {
    } else if c in Ray(ksq, West, occ) {
    } else if c in Ray(ksq, NorthEast, occ) {
    } else if c in Ray(ksq, NorthWest, occ) {
    } else if c in Ray(ksq, SouthEast, occ) {
    } else {
      assert c in Ray(ksq, SouthWest, occ);
    }
  }

  /** In a consistent position the enemy sliders are neither knights nor pawns. */
  lemma SliderNotLeaper(p: Position, c: Square)
    requires Consistent(p) && c in BishopsLike(p) + RooksLike(p)
    ensures c !in p.knight && c !in p.pawn
  {
    if c in p.bishop {
      KindsDisjoint(p, Bishop, Knight, c);
      KindsDisjoint(p, Bishop, Pawn, c);
    } else if c in p.rook {
      KindsDisjoint(p, Rook, Knight, c);
      KindsDisjoint(p, Rook, Pawn, c);
    } else {
      KindsDisjoint(p, Queen, Knight, c);
      KindsDisjoint(p, Queen, Pawn, c);
    }
  }

  /** On exact tables, a checker that is neither knight nor pawn is seen by the king along some direction. */
  lemma CheckerSeen(t: SliderTables, p: Position, c: Square)
    requires Exact(t) && HasKing(p, p.whiteTurn)
    requires c in Checkers(t, p) && c !in p.knight && c !in p.pawn
    ensures exists d :: c in Ray(KingSquare(p, p.whiteTurn), d, Occupied(p))
  {
    CheckersUnfold(t, p, c);
    LookupDirection(t, KingSquare(p, p.whiteTurn), Occupied(p), c);
  }

  /** The block mask of a single sliding checker met on a ray from the king is that ray. */
  lemma SliderMaskOnRay(p: Position, ksq: Square, d: Direction, occ: Bitboard, c: Square)
    requires c in Ray(ksq, d, occ) && c in occ && c in BishopsLike(p) + RooksLike(p)
    ensures BlockMask(p, ksq, {c}) == Ray(ksq, d, occ)
    ensures Between(ksq, c) * occ == {}
  {
    RayMembership(ksq, d, occ, c);
    var i :| 1 <= i < 8 && HasTarget(ksq, d, i) && Target(ksq, d, i) == c && ClearBefore(ksq, d, occ, i);
    TargetOnLine(ksq, d, i);
    RayToBlocker(ksq, d, occ, c);
    assert Lsb({c}) == c;
  }

  /**
   * On exact tables in a consistent position, the block mask of a single
   * sliding checker is the king's line of sight towards it: the ray cast
   * from the king square in that direction, which ends on the checker and
   * crosses only empty squares.
   */
  lemma SliderBlockMask(t: SliderTables, p: Position, c: Square)
    requires Exact(t) && HasKing(p, p.whiteTurn) && Consistent(p)
    requires Checkers(t, p) == {c} && c in BishopsLike(p) + RooksLike(p)
    ensures exists d :: (
      c in Ray(KingSquare(p, p.whiteTurn), d, Occupied(p)) &&
      BlockMask(p, KingSquare(p, p.whiteTurn), Checkers(t, p)) == Ray(KingSquare(p, p.whiteTurn), d, Occupied(p)))
    ensures Between(KingSquare(p, p.whiteTurn), c) * Occupied(p) == {}
  {
    var ksq, occ := KingSquare(p, p.whiteTurn), Occupied(p);
    assert c in Checkers(t, p);
    SliderNotLeaper(p, c);
    CheckerSeen(t, p, c);
    var d :| c in Ray(ksq, d, occ);
    CheckersExcludeKing(t, p, c);
    assert c in occ;
    SliderMaskOnRay(p, ksq, d, occ, c);
  }

  // ---------------------------------------------------------------------
  // Pins

  /** The sliders that pin along `d`: rook-like on ranks and files, bishop-like on diagonals. */
  function Pinners(p: Position, d: Direction): Bitboard
  {
    if Orthogonal(d) then RooksLike(p) else BishopsLike(p)
  }

  /**
   * The piece on `s` is pinned to the king on `ksq` along `d`: it is the
   * first piece the king sees that way, it is not an enemy piece, and with
   * it lifted the king would see a slider of the matching kind.
   */
  predicate PinnedAlong(p: Position, ksq: Square, d: Direction, s: Square)
  {
    var occ := Occupied(p);
    s in Ray(ksq, d, occ) && s in occ && s !in Enemy(p) && Ray(ksq, d, occ - {s}) * Pinners(p, d) != {}
  }

  /** The squares a piece pinned on `s` may still move to: the line from the king through it up to the pinner, and the king square. */
  function PinRay(p: Position, ksq: Square, d: Direction, s: Square): Bitboard
  {
    Ray(ksq, d, Occupied(p) - {s}) + {ksq}
  }

  /** The eight markPin calls in order: the four rook directions, then the four diagonals. */
  const PinScans: seq<Direction> := [North, South, East, West, NorthEast, NorthWest, SouthEast, SouthWest]

  /** The pieces pinned along `d`: at most one, the first piece the king sees that way. */
  function PinnedBy(p: Position, ksq: Square, d: Direction): Bitboard
  {
    set s: Square | PinnedAlong(p, ksq, d, s)
  }

  /** The pieces pinned along the first `n` scans. */
  function PinnedUpTo(p: Position, ksq: Square, n: nat): Bitboard
    requires n <= |PinScans|
  {
    if n == 0 then {} else PinnedUpTo(p, ksq, n - 1) + PinnedBy(p, ksq, PinScans[n - 1])
  }

  /** pin_dirs[s] after the first `n` scans: the pin ray of the last scan that pinned `s`, or empty. */
  function PinDirUpTo(p: Position, ksq: Square, s: Square, n: nat): Bitboard
    requires n <= |PinScans|
  {
    if n == 0 then {}
    else if PinnedAlong(p, ksq, PinScans[n - 1], s) then PinRay(p, ksq, PinScans[n - 1], s)
    else PinDirUpTo(p, ksq, s, n - 1)
  }

  function Pinned(p: Position, ksq: Square): Bitboard
  {
    PinnedUpTo(p, ksq, 8)
  }

  function PinDirs(p: Position, ksq: Square): (dirs: seq<Bitboard>)
    ensures |dirs| == 64
  {
    seq(64, s requires 0 <= s < 64 => PinDirUpTo(p, ksq, s, 8))
  }

  /** A square is first on at most one ray from the king, so at most one scan pins it. */
  lemma PinDirectionUnique(p: Position, ksq: Square, d: Direction, d': Direction, s: Square)
    requires PinnedAlong(p, ksq, d, s) && PinnedAlong(p, ksq, d', s)
    ensures d == d'
  {
    var occ := Occupied(p);
    RayMembership(ksq, d, occ, s);
    RayMembership(ksq, d', occ, s);
    var i :| 1 <= i < 8 && HasTarget(ksq, d, i) && Target(ksq, d, i) == s && ClearBefore(ksq, d, occ, i);
    var j :| 1 <= j < 8 && HasTarget(ksq, d', j) && Target(ksq, d', j) == s && ClearBefore(ksq, d', occ, j);
    RayDirectionUnique(ksq, d, d', i, j);
  }

  lemma {:induction false} PinnedUpToMembership(p: Position, ksq: Square, n: nat, s: Square)
    requires n <= |PinScans|
    ensures s in PinnedUpTo(p, ksq, n) <==> exists i :: 0 <= i < n && PinnedAlong(p, ksq, PinScans[i], s)
  {
    if n > 0 {
      PinnedUpToMembership(p, ksq, n - 1, s);
      var d := PinScans[n - 1];
      if PinnedAlong(p, ksq, d, s) {
        assert s in PinnedBy(p, ksq, d);
      } else {
        assert s !in PinnedBy(p, ksq, d);
        forall i | 0 <= i < n && PinnedAlong(p, ksq, PinScans[i], s) ensures i < n - 1 {
        }
      }
    }
  }

  lemma {:induction false} PinDirUpToValue(p: Position, ksq: Square, n: nat, s: Square)
    requires n <= |PinScans|
    ensures (forall i :: 0 <= i < n ==> !PinnedAlong(p, ksq, PinScans[i], s)) ==> PinDirUpTo(p, ksq, s, n) == {}
    ensures forall i :: 0 <= i < n && PinnedAlong(p, ksq, PinScans[i], s) ==>
      PinDirUpTo(p, ksq, s, n) == PinRay(p, ksq, PinScans[i], s)
  {
    if n > 0 {
      PinDirUpToValue(p, ksq, n - 1, s);
      var d := PinScans[n - 1];
      if PinnedAlong(p, ksq, d, s) {
        assert PinDirUpTo(p, ksq, s, n) == PinRay(p, ksq, d, s);
        forall i | 0 <= i < n && PinnedAlong(p, ksq, PinScans[i], s)
          ensures PinDirUpTo(p, ksq, s, n) == PinRay(p, ksq, PinScans[i], s)
        {
          PinDirectionUnique(p, ksq, PinScans[i], d, s);
        }
      } else {
        assert PinDirUpTo(p, ksq, s, n) == PinDirUpTo(p, ksq, s, n - 1);
        forall i | 0 <= i < n && PinnedAlong(p, ksq, PinScans[i], s) ensures i < n - 1 {
        }
      }
    }
  }

  lemma AllDirectionsScanned(d: Direction)
    ensures exists i :: 0 <= i < |PinScans| && PinScans[i] == d
  {
    match d
    case North => assert PinScans[0] == d;
    case South => assert PinScans[1] == d;
    case East => assert PinScans[2] == d;
    case West => assert PinScans[3] == d;
    case NorthEast => assert PinScans[4] == d;
    case NorthWest => assert PinScans[5] == d;
    case SouthEast => assert PinScans[6] == d;
    case SouthWest => assert PinScans[7] == d;
  }

  /**
   * The pins: a square is pinned exactly when it is pinned along some
   * direction; its pin_dirs entry is then the pin ray of that direction,
   * which runs from the king up to and including the pinner; every other
   * entry is empty. Pinned pieces belong to the side to move.
   */
  lemma PinsMeaning(p: Position, ksq: Square, s: Square)
    ensures s in Pinned(p, ksq) <==> exists d :: PinnedAlong(p, ksq, d, s)
    ensures s !in Pinned(p, ksq) ==> PinDirs(p, ksq)[s] == {}
    ensures forall d :: PinnedAlong(p, ksq, d, s) ==> PinDirs(p, ksq)[s] == PinRay(p, ksq, d, s)
    ensures s in Pinned(p, ksq) ==> s in Own(p)
  {
    PinnedUpToMembership(p, ksq, 8, s);
    PinDirUpToValue(p, ksq, 8, s);
    forall d | PinnedAlong(p, ksq, d, s) ensures s in Pinned(p, ksq) {
      AllDirectionsScanned(d);
    }
    forall d | PinnedAlong(p, ksq, d, s) ensures PinDirs(p, ksq)[s] == PinRay(p, ksq, d, s) {
      AllDirectionsScanned(d);
    }
  }

  /** The pin ray ends on the pinner: it is the squares between the king and the pinner, the pinner and the king square. */
  lemma PinRayToPinner(p: Position, ksq: Square, d: Direction, s: Square, x: Square)
    requires PinnedAlong(p, ksq, d, s) && x in Ray(ksq, d, Occupied(p) - {s}) * Pinners(p, d)
    ensures PinRay(p, ksq, d, s) == Between(ksq, x) + {x} + {ksq}
    ensures s in Between(ksq, x)
  {
    var occ := Occupied(p);
    RayToBlocker(ksq, d, occ - {s}, x);
    FirstStaysOnRay(ksq, d, occ, s);
  }

  /** A square the ray reaches stays on the ray once its own piece is lifted. */
  lemma FirstStaysOnRay(ksq: Square, d: Direction, occ: Bitboard, s: Square)
    requires s in Ray(ksq, d, occ)
    ensures s in Ray(ksq, d, occ - {s})
  {
    RayMembership(ksq, d, occ, s);
    var i :| 1 <= i < 8 && HasTarget(ksq, d, i) && Target(ksq, d, i) == s && ClearBefore(ksq, d, occ, i);
    ClearFewer(ksq, d, occ, occ - {s}, i);
    RayMembership(ksq, d, occ - {s}, s);
  }

  // The outcomes of one markPin scan, by what the walk from the king meets.

  /** The first piece met decides: only it can be pinned along this direction. */
  lemma FirstPieceDecides(p: Position, ksq: Square, d: Direction, i: int, x: Square)
    requires 1 <= i < 8 && HasTarget(ksq, d, i) && Target(ksq, d, i) == x
    requires x in Occupied(p) && ClearBefore(ksq, d, Occupied(p), i)
    ensures forall s :: PinnedAlong(p, ksq, d, s) <==>
      (s == x && x !in Enemy(p) && Ray(ksq, d, Occupied(p) - {x}) * Pinners(p, d) != {})
  {
    OnlyBlocker(ksq, d, Occupied(p), i, x);
  }

  /** No piece met before the edge: nothing is pinned along this direction. */
  lemma NoPieceMet(p: Position, ksq: Square, d: Direction, k: int)
    requires k >= 1 && !HasTarget(ksq, d, k) && ClearBefore(ksq, d, Occupied(p), k)
    ensures forall s :: !PinnedAlong(p, ksq, d, s)
  {
    NoBlocker(ksq, d, Occupied(p), k);
  }

  /** The sliders that pin are enemy pieces, so they are on the board once a friendly piece is lifted. */
  lemma PinnersOnBoard(p: Position, d: Direction, x: Square)
    requires x !in Enemy(p)
    ensures Pinners(p, d) <= Occupied(p) - {x}
  {
  }

  /** With the first piece `x` lifted, the second piece met is the only one that can pin it. */
  lemma SecondPieceDecides(p: Position, ksq: Square, d: Direction, x: Square, k: int, y: Square)
    requires x !in Enemy(p)
    requires 1 <= k < 8 && HasTarget(ksq, d, k) && Target(ksq, d, k) == y && y in Occupied(p) - {x}
    requires ClearBefore(ksq, d, Occupied(p) - {x}, k)
    ensures Ray(ksq, d, Occupied(p) - {x}) * Pinners(p, d) != {} <==> y in Pinners(p, d)
    ensures Ray(ksq, d, Occupied(p) - {x}) == RaySteps(ksq, d, k)
  {
    OnlyBlocker(ksq, d, Occupied(p) - {x}, k, y);
    PinnersOnBoard(p, d, x);
  }

  /** With the first piece `x` lifted, nothing else met before the edge: `x` is not pinned. */
  lemma NoSecondPiece(p: Position, ksq: Square, d: Direction, x: Square, k: int)
    requires x !in Enemy(p)
    requires k >= 1 && !HasTarget(ksq, d, k) && ClearBefore(ksq, d, Occupied(p) - {x}, k)
    ensures Ray(ksq, d, Occupied(p) - {x}) * Pinners(p, d) == {}
  {
    NoBlocker(ksq, d, Occupied(p) - {x}, k);
    PinnersOnBoard(p, d, x);
  }

  /** The ray loop inside markPin: from the king, step by step up to and including `sq`. */
  method RayTo(ksq: Square, d: Direction, sq: Square, ghost k: int) returns (ray: Bitboard)
    requires 1 <= k < 8 && HasTarget(ksq, d, k) && Target(ksq, d, k) == sq
    ensures ray == RaySteps(ksq, d, k)
  {
    ray := {};
    var j := 1;
    while HasTarget(ksq, d, j)
      invariant 1 <= j <= k
      invariant ray == RaySteps(ksq, d, j - 1)
      decreases k - j
    {
      var s := Target(ksq, d, j);
      StepsExtend(ksq, d, j);
      ray := ray + {s};
      if s == sq {
        TargetInjective(ksq, d, j, k);
        return;
      }
      TargetsDiffer(ksq, d, j, k);
      j := j + 1;
    }
    TargetsBefore(ksq, d, k, j);
    assert false;
  }

  /** What the first two pieces met decide, put together. */
  lemma SecondPieceOutcome(p: Position, ksq: Square, d: Direction, firstSq: Square, i1: int, sq: Square, k: int)
    requires 1 <= i1 < k < 8 && HasTarget(ksq, d, i1) && Target(ksq, d, i1) == firstSq
    requires firstSq in Occupied(p) && firstSq !in Enemy(p) && ClearBefore(ksq, d, Occupied(p), i1)
    requires HasTarget(ksq, d, k) && Target(ksq, d, k) == sq && sq in Occupied(p)
    requires ClearBefore(ksq, d, Occupied(p) - {firstSq}, k)
    ensures forall s :: PinnedAlong(p, ksq, d, s) <==> s == firstSq && sq in Pinners(p, d)
    ensures PinRay(p, ksq, d, firstSq) == RaySteps(ksq, d, k) + {ksq}
  {
    TargetsDiffer(ksq, d, i1, k);
    FirstPieceDecides(p, ksq, d, i1, firstSq);
    SecondPieceDecides(p, ksq, d, firstSq, k, sq);
  }

  /**
   * The scan of markPin at the second piece `sq`, met at step `k` after the
   * friendly first piece `firstSq` at step `i1`: `firstSq` is pinned when
   * `sq` is a slider of the matching kind.
   */
  method SecondPiece(p: Position, ksq: Square, d: Direction, rookDir: bool, firstSq: Square, ghost i1: int,
                     sq: Square, ghost k: int) returns (pinnedSq: int, ray: Bitboard)
    requires rookDir == Orthogonal(d)
    requires 1 <= i1 < k < 8 && HasTarget(ksq, d, i1) && Target(ksq, d, i1) == firstSq
    requires firstSq in Occupied(p) && firstSq !in Enemy(p) && ClearBefore(ksq, d, Occupied(p), i1)
    requires HasTarget(ksq, d, k) && Target(ksq, d, k) == sq && sq in Occupied(p)
    requires ClearBefore(ksq, d, Occupied(p) - {firstSq}, k)
    ensures pinnedSq == -1 ==> forall s :: !PinnedAlong(p, ksq, d, s)
    ensures pinnedSq != -1 ==>
      0 <= pinnedSq < 64 && (forall s :: PinnedAlong(p, ksq, d, s) <==> s == pinnedSq) &&
      ray == PinRay(p, ksq, d, pinnedSq)
  {
    SecondPieceOutcome(p, ksq, d, firstSq, i1, sq, k);
    var ok := if rookDir then sq in RooksLike(p) else sq in BishopsLike(p);
    pinnedSq, ray := -1, {};
    if ok {
      var line := RayTo(ksq, d, sq, k);
      pinnedSq, ray := firstSq, line + {ksq};
    }
  }

  /**
   * The walk of markPin: from the king towards `d`. The first piece met
   * stops the scan if it is an enemy piece; otherwise the second piece met
   * pins it when it is a slider of the matching kind (rook-like for a rook
   * direction). On a pin the result is the pinned square and the line from
   * the king up to the pinner plus the king square; otherwise it is -1.
   */
  method ScanPin(p: Position, ksq: Square, d: Direction, rookDir: bool) returns (pinnedSq: int, ray: Bitboard)
    requires rookDir == Orthogonal(d)
    ensures pinnedSq == -1 ==> forall s :: !PinnedAlong(p, ksq, d, s)
    ensures pinnedSq != -1 ==>
      0 <= pinnedSq < 64 && (forall s :: PinnedAlong(p, ksq, d, s) <==> s == pinnedSq) &&
      ray == PinRay(p, ksq, d, pinnedSq)
  {
    var occ, next := Occupied(p), Enemy(p);
    pinnedSq, ray := -1, {};
    var firstSq := -1;
    var k := 1;
    ghost var i1 := 0;
    while HasTarget(ksq, d, k)
      invariant 1 <= k <= 8 && pinnedSq == -1
      invariant firstSq == -1 ==> ClearBefore(ksq, d, occ, k)
      invariant firstSq != -1 ==>
        0 <= firstSq < 64 && 1 <= i1 < k && HasTarget(ksq, d, i1) && Target(ksq, d, i1) == firstSq &&
        firstSq in occ && firstSq !in next && ClearBefore(ksq, d, occ, i1) &&
        ClearBefore(ksq, d, occ - {firstSq}, k)
      decreases 8 - k
    {
      TargetAway(ksq, d, k);
      var sq := Target(ksq, d, k);
      if sq in occ {
        if firstSq == -1 {
          firstSq := sq;
          FirstPieceDecides(p, ksq, d, k, sq);
          if sq in next {
            return;
          }
          i1 := k;
          ClearFewer(ksq, d, occ, occ - {sq}, k);
          ClearExtend(ksq, d, occ - {sq}, k);
        } else {
          pinnedSq, ray := SecondPiece(p, ksq, d, rookDir, firstSq, i1, sq, k);
          return;
        }
      } else if firstSq == -1 {
        ClearExtend(ksq, d, occ, k);
      } else {
        ClearExtend(ksq, d, occ - {firstSq}, k);
      }
      k := k + 1;
    }
    if firstSq == -1 {
      NoPieceMet(p, ksq, d, k);
    } else {
      FirstPieceDecides(p, ksq, d, i1, firstSq);
      NoSecondPiece(p, ksq, d, firstSq, k);
    }
  }

  /**
   * markPin: the scan of one direction, recorded in `pinned` and in the
   * pin_dirs table.
   */
  method MarkPin(p: Position, ksq: Square, d: Direction, rookDir: bool, pinned: Bitboard, pinDirs: array<Bitboard>)
    returns (pinned': Bitboard)
    requires pinDirs.Length == 64 && rookDir == Orthogonal(d)
    modifies pinDirs
    ensures pinned' == pinned + PinnedBy(p, ksq, d)
    ensures forall s :: 0 <= s < 64 ==>
      pinDirs[s] == (if PinnedAlong(p, ksq, d, s) then PinRay(p, ksq, d, s) else old(pinDirs[s]))
  {
    var pinnedSq, ray := ScanPin(p, ksq, d, rookDir);
    if pinnedSq == -1 {
      assert PinnedBy(p, ksq, d) == {};
      pinned' := pinned;
    } else {
      assert PinnedBy(p, ksq, d) == {pinnedSq};
      pinned' := pinned + {pinnedSq};
      pinDirs[pinnedSq] := ray;
    }
  }

  // ---------------------------------------------------------------------
  // The eight scans

  /** `pinned` and the pin_dirs table `dirs` as the first `n` scans leave them. */
  ghost predicate PinsAfter(p: Position, ksq: Square, n: nat, pinned: Bitboard, dirs: seq<Bitboard>)
    requires n <= |PinScans|
  {
    pinned == PinnedUpTo(p, ksq, n) && |dirs| == 64 &&
    forall s :: 0 <= s < 64 ==> dirs[s] == PinDirUpTo(p, ksq, s, n)
  }

  /** One more markPin call, for the next direction of the scan order, extends the scans by one. */
  lemma NextScan(p: Position, ksq: Square, n: nat, pinned: Bitboard, dirs: seq<Bitboard>,
                 pinned': Bitboard, dirs': seq<Bitboard>)
    requires n < |PinScans| && PinsAfter(p, ksq, n, pinned, dirs) && |dirs'| == 64
    requires pinned' == pinned + PinnedBy(p, ksq, PinScans[n])
    requires forall s :: 0 <= s < 64 ==>
      dirs'[s] == (if PinnedAlong(p, ksq, PinScans[n], s) then PinRay(p, ksq, PinScans[n], s) else dirs[s])
    ensures PinsAfter(p, ksq, n + 1, pinned', dirs')
  {
  }

  /** After all eight scans, `pinned` and pin_dirs are Pinned and PinDirs. */
  lemma AllScans(p: Position, ksq: Square, pinned: Bitboard, dirs: seq<Bitboard>)
    requires PinsAfter(p, ksq, |PinScans|, pinned, dirs)
    ensures pinned == Pinned(p, ksq) && dirs == PinDirs(p, ksq)
  {
  }

  /** markPin as the `n`-th of the eight scans: it extends the first `n` scans by one. */
  method MarkPinInOrder(p: Position, ksq: Square, ghost n: nat, d: Direction, rookDir: bool, pinned: Bitboard,
                        pinDirs: array<Bitboard>) returns (pinned': Bitboard)
    requires n < |PinScans| && d == PinScans[n] && rookDir == Orthogonal(d)
    requires pinDirs.Length == 64 && PinsAfter(p, ksq, n, pinned, pinDirs[..])
    modifies pinDirs
    ensures PinsAfter(p, ksq, n + 1, pinned', pinDirs[..])
  {
    ghost var before := pinDirs[..];
    pinned' := MarkPin(p, ksq, d, rookDir, pinned, pinDirs);
    NextScan(p, ksq, n, pinned, before, pinned', pinDirs[..]);
  }

  /** The four orthogonal markPin calls. */
  method ScanLines(p: Position, ksq: Square, pinDirs: array<Bitboard>) returns (pinned: Bitboard)
    requires pinDirs.Length == 64 && PinsAfter(p, ksq, 0, {}, pinDirs[..])
    modifies pinDirs
    ensures PinsAfter(p, ksq, 4, pinned, pinDirs[..])
  {
    pinned := MarkPinInOrder(p, ksq, 0, North, true, {}, pinDirs);
    pinned := MarkPinInOrder(p, ksq, 1, South, true, pinned, pinDirs);
    pinned := MarkPinInOrder(p, ksq, 2, East, true, pinned, pinDirs);
    pinned := MarkPinInOrder(p, ksq, 3, West, true, pinned, pinDirs);
  }

  /** The four diagonal markPin calls. */
  method ScanDiagonals(p: Position, ksq: Square, pinned: Bitboard, pinDirs: array<Bitboard>) returns (pinned': Bitboard)
    requires pinDirs.Length == 64 && PinsAfter(p, ksq, 4, pinned, pinDirs[..])
    modifies pinDirs
    ensures PinsAfter(p, ksq, 8, pinned', pinDirs[..])
  {
    pinned' := MarkPinInOrder(p, ksq, 4, NorthEast, false, pinned, pinDirs);
    pinned' := MarkPinInOrder(p, ksq, 5, NorthWest, false, pinned', pinDirs);
    pinned' := MarkPinInOrder(p, ksq, 6, SouthEast, false, pinned', pinDirs);
    pinned' := MarkPinInOrder(p, ksq, 7, SouthWest, false, pinned', pinDirs);
  }

  /** Step 3 of analyzeChecks: zero pin_dirs, then the eight markPin calls in order. */
  method FindPins(p: Position, ksq: Square) returns (pinned: Bitboard, pinDirs: seq<Bitboard>)
    ensures pinned == Pinned(p, ksq) && pinDirs == PinDirs(p, ksq)
  {
    var dirs := new Bitboard[64](_ => {});
    assert PinsAfter(p, ksq, 0, {}, dirs[..]);
    pinned := ScanLines(p, ksq, dirs);
    pinned := ScanDiagonals(p, ksq, pinned, dirs);
    pinDirs := dirs[..];
    AllScans(p, ksq, pinned, pinDirs);
  }

  // ---------------------------------------------------------------------
  // The enemy attack map and analyzeChecks

  /**
   * The squares king_unsafe holds: those an enemy pawn captures on, an
   * enemy knight jumps to, an enemy bishop-like or rook-like slider reaches
   * through the tables over the board's occupancy, or next to the enemy
   * king (the lowest one, as kingSquare finds it).
   */
  predicate EnemyAttacked(t: SliderTables, p: Position, s: Square)
    requires WellFormed(t) && BothKings(p)
  {
    var next, occ := Enemy(p), Occupied(p);
    (exists x :: x in p.pawn * next && s in PawnAttacks(!p.whiteTurn, x)) ||
    (exists x :: x in p.knight * next && KnightJump(x, s)) ||
    (exists x :: x in BishopsLike(p) && s in BishopAttacks(t, x, occ)) ||
    (exists x :: x in RooksLike(p) && s in RookAttacks(t, x, occ)) ||
    s in KingAttacks(KingSquare(p, !p.whiteTurn))
  }

  /** Step 4 of analyzeChecks: the union of the enemy attack maps. */
  method EnemyAttackMap(t: SliderTables, p: Position) returns (attacks: Bitboard)
    requires WellFormed(t) && BothKings(p)
    ensures forall s :: s in attacks <==> EnemyAttacked(t, p, s)
  {
    var next, occ := Enemy(p), Occupied(p);
    var enemyKingSq := KingSquare(p, !p.whiteTurn);
    var pawnMap := PawnAttacksFrom(p.pawn * next, !p.whiteTurn);
    var knightMap := KnightAttacksFrom(p.knight * next);
    var bishopMap := BishopAttacksFrom(t, BishopsLike(p), occ);
    var rookMap := RookAttacksFrom(t, RooksLike(p), occ);
    attacks := pawnMap + knightMap + bishopMap + rookMap + KingAttacks(enemyKingSq);
    forall s ensures s in attacks <==> EnemyAttacked(t, p, s) {
      UnionOfFive(pawnMap, knightMap, bishopMap, rookMap, KingAttacks(enemyKingSq), s);
    }
  }

  lemma UnionOfFive(a: Bitboard, b: Bitboard, c: Bitboard, d: Bitboard, e: Bitboard, s: Square)
    ensures s in a + b + c + d + e <==> s in a || s in b || s in c || s in d || s in e
  {
  }

  /** One enemy piece found by one of the maps of king_unsafe attacks the square. */
  lemma FoundAttacker(t: SliderTables, p: Position, x: Square, s: Square)
    requires Exact(t)
    requires var next, occ := Enemy(p), Occupied(p);
      (x in p.pawn * next && s in PawnAttacks(!p.whiteTurn, x)) ||
      (x in p.knight * next && KnightJump(x, s)) ||
      (x in BishopsLike(p) && s in BishopAttacks(t, x, occ)) ||
      (x in RooksLike(p) && s in RookAttacks(t, x, occ)) ||
      (x in p.king * next && s in KingAttacks(x))
    ensures x in Enemy(p) && s in AttacksOf(p, x, !p.whiteTurn, Occupied(p))
  {
    var occ := Occupied(p);
    AttacksOfUnfold(p, x, !p.whiteTurn, occ, s);
    if x in BishopsLike(p) && s in BishopAttacks(t, x, occ) {
      assert s in BishopRayCast(x, occ);
    } else if x in RooksLike(p) && s in RookAttacks(t, x, occ) {
      assert s in RookRayCast(x, occ);
    } else if x in p.knight * Enemy(p) && KnightJump(x, s) {
      KnightAttacksExact(x, s);
    }
  }

  /** Each square of king_unsafe is attacked by some enemy piece. */
  lemma EnemyAttackedSound(t: SliderTables, p: Position, s: Square)
    requires Exact(t) && BothKings(p) && EnemyAttacked(t, p, s)
    ensures exists x :: x in Enemy(p) && s in AttacksOf(p, x, !p.whiteTurn, Occupied(p))
  {
    var wt, next, occ := p.whiteTurn, Enemy(p), Occupied(p);
    var x: Square;
    if exists x :: x in p.pawn * next && s in PawnAttacks(!wt, x) {
      x :| x in p.pawn * next && s in PawnAttacks(!wt, x);
    } else if exists x :: x in p.knight * next && KnightJump(x, s) {
      x :| x in p.knight * next && KnightJump(x, s);
    } else if exists x :: x in BishopsLike(p) && s in BishopAttacks(t, x, occ) {
      x :| x in BishopsLike(p) && s in BishopAttacks(t, x, occ);
    } else if exists x :: x in RooksLike(p) && s in RookAttacks(t, x, occ) {
      x :| x in RooksLike(p) && s in RookAttacks(t, x, occ);
    } else {
      x := KingSquare(p, !wt);
      assert x in p.king * next;
    }
    FoundAttacker(t, p, x, s);
  }

  /** With a single enemy king, every square an enemy piece attacks is in king_unsafe. */
  lemma EnemyAttackedComplete(t: SliderTables, p: Position, s: Square, x: Square)
    requires Exact(t) && BothKings(p) && p.king * Enemy(p) == {KingSquare(p, !p.whiteTurn)}
    requires x in Enemy(p) && s in AttacksOf(p, x, !p.whiteTurn, Occupied(p))
    ensures EnemyAttacked(t, p, s)
  {
    var wt, next, occ := p.whiteTurn, Enemy(p), Occupied(p);
    AttacksOfUnfold(p, x, !wt, occ, s);
    if s in PawnAttacks(!wt, x) && x in p.pawn {
      assert x in p.pawn * next;
    } else if s in KnightAttacks(x) && x in p.knight {
      KnightAttacksExact(x, s);
      assert x in p.knight * next;
    } else if s in BishopRayCast(x, occ) && (x in p.bishop || x in p.queen) {
      assert x in BishopsLike(p) && s in BishopAttacks(t, x, occ);
    } else if s in RookRayCast(x, occ) && (x in p.rook || x in p.queen) {
      assert x in RooksLike(p) && s in RookAttacks(t, x, occ);
    } else {
      assert x in p.king * next;
    }
  }

  /**
   * On exact tables, with a single enemy king, king_unsafe holds exactly
   * the squares some enemy piece attacks over the board's occupancy.
   */
  lemma EnemyAttackedMeaning(t: SliderTables, p: Position, s: Square)
    requires Exact(t) && BothKings(p) && p.king * Enemy(p) == {KingSquare(p, !p.whiteTurn)}
    ensures EnemyAttacked(t, p, s) <==> exists x :: x in Enemy(p) && s in AttacksOf(p, x, !p.whiteTurn, Occupied(p))
  {
    if EnemyAttacked(t, p, s) {
      EnemyAttackedSound(t, p, s);
    }
    if exists x :: x in Enemy(p) && s in AttacksOf(p, x, !p.whiteTurn, Occupied(p)) {
      var x :| x in Enemy(p) && s in AttacksOf(p, x, !p.whiteTurn, Occupied(p));
      EnemyAttackedComplete(t, p, s, x);
    }
  }

  /** On exact tables, with a single enemy king, king_unsafe agrees with squareAttacked for the enemy. */
  lemma EnemyAttackedIsSquareAttacked(t: SliderTables, p: Position, s: Square)
    requires Exact(t) && BothKings(p) && p.king * Enemy(p) == {KingSquare(p, !p.whiteTurn)}
    ensures EnemyAttacked(t, p, s) <==> SquareAttacked(t, s, !p.whiteTurn, p, Occupied(p))
  {
    EnemyAttackedMeaning(t, p, s);
    SquareAttackedMeaning(t, s, !p.whiteTurn, p, Occupied(p));
    assert Side(p, !p.whiteTurn) == Enemy(p);
  }

  /** Step 1 of analyzeChecks, with the pawns found through the side to move's table. */
  method FindCheckers(t: SliderTables, p: Position, ksq: Square) returns (checkers: Bitboard)
    requires WellFormed(t) && HasKing(p, p.whiteTurn) && ksq == KingSquare(p, p.whiteTurn)
    ensures checkers == Checkers(t, p)
  {
    var next, occ := Enemy(p), Occupied(p);
    var bishopsLike, rooksLike := p.bishop * next + p.queen * next, p.rook * next + p.queen * next;
    checkers := KnightAttacks(ksq) * (p.knight * next);
    checkers := checkers + PawnAttacks(p.whiteTurn, ksq) * (p.pawn * next);
    checkers := checkers + BishopAttacks(t, ksq, occ) * bishopsLike;
    checkers := checkers + RookAttacks(t, ksq, occ) * rooksLike;
  }

  /** Step 2 of analyzeChecks: the block mask for the checkers found. */
  method FindBlockMask(p: Position, ksq: Square, checkers: Bitboard) returns (blockMask: Bitboard)
    ensures blockMask == BlockMask(p, ksq, checkers)
  {
    var next := Enemy(p);
    var bishopsLike, rooksLike := p.bishop * next + p.queen * next, p.rook * next + p.queen * next;
    blockMask := {};
    if |checkers| == 1 {
      var checkerSq := Lsb(checkers);
      var slidingChecker := checkerSq in bishopsLike + rooksLike && SameLineOrDiag(ksq, checkerSq);
      if slidingChecker {
        var between := BetweenMask(ksq, checkerSq);
        blockMask := between + {checkerSq};
      } else {
        blockMask := {checkerSq};
      }
    }
  }

  /** The enemy attack map as a set. */
  function KingUnsafe(t: SliderTables, p: Position): (unsafe: Bitboard)
    requires WellFormed(t) && BothKings(p)
    ensures forall s :: s in unsafe <==> EnemyAttacked(t, p, s)
  {
    set s: Square | EnemyAttacked(t, p, s)
  }

  /** The CheckInfo analyzeChecks returns, as a function of the position. */
  function CheckInfoOf(t: SliderTables, p: Position): (info: CheckInfo)
    requires WellFormed(t) && BothKings(p)
    ensures |info.pinDirs| == 64
  {
    var ksq := KingSquare(p, p.whiteTurn);
    CheckInfo(Checkers(t, p), BlockMask(p, ksq, Checkers(t, p)), Pinned(p, ksq), KingUnsafe(t, p), PinDirs(p, ksq))
  }

  /** The CheckInfo analyzeChecks returns as written: the same, over the checkers of CheckersAsWritten. */
  function CheckInfoAsWritten(t: SliderTables, p: Position): (info: CheckInfo)
    requires WellFormed(t) && BothKings(p)
    ensures |info.pinDirs| == 64
  {
    var ksq := KingSquare(p, p.whiteTurn);
    var checkers := CheckersAsWritten(t, p);
    CheckInfo(checkers, BlockMask(p, ksq, checkers), Pinned(p, ksq), KingUnsafe(t, p), PinDirs(p, ksq))
  }

  /**
   * analyzeChecks, with the pawn lookup of the checkers corrected (see
   * CheckersAsWritten): the checkers, the block mask of the side to move's
   * king, the pins and the enemy attack map. Both kings must be on the
   * board, as kingSquare needs.
   */
  method AnalyzeChecks(t: SliderTables, p: Position) returns (info: CheckInfo)
    requires WellFormed(t) && BothKings(p)
    ensures info.checkers == Checkers(t, p)
    ensures info.blockMask == BlockMask(p, KingSquare(p, p.whiteTurn), Checkers(t, p))
    ensures info.pinned == Pinned(p, KingSquare(p, p.whiteTurn))
    ensures info.pinDirs == PinDirs(p, KingSquare(p, p.whiteTurn))
    ensures info.kingUnsafe == KingUnsafe(t, p)
  {
    var ksq := KingSquare(p, p.whiteTurn);
    var checkers := FindCheckers(t, p, ksq);
    var blockMask := FindBlockMask(p, ksq, checkers);
    var pinned, pinDirs := FindPins(p, ksq);
    var kingUnsafe := EnemyAttackMap(t, p);
    info := CheckInfo(checkers, blockMask, pinned, kingUnsafe, pinDirs);
  }
}
