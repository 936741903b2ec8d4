// The static evaluation: material, the bishop pair and a tempo bonus, in
// centipawns from white's point of view.

module Evaluate {
  import opened Bitboards
  import opened Boards

  const TempoScore: int := 10
  const BishopPairBonus: int := 30

  /** VALUES, indexed by piece kind: the king is worth nothing. */
  function PieceValue(k: PieceKind): int
  {
    match k
    case Pawn => 100
    case Knight => 320
    case Bishop => 330
    case Rook => 500
    case Queen => 900
    case King => 0
  }

  /** addPieceScores: the number of pieces on `b` times the kind's value. */
  function AddPieceScores(b: Bitboard, k: PieceKind): int
  {
    |b| * PieceValue(k)
  }

  function SideBoard(p: Position, whiteSide: bool): Bitboard
  {
    if whiteSide then p.white else p.black
  }

  /** The material of one side: every piece board masked with the side's colour board. */
  function Material(p: Position, whiteSide: bool): int
  {
    var side := SideBoard(p, whiteSide);
    AddPieceScores(Pieces(p, Pawn) * side, Pawn) +
    AddPieceScores(Pieces(p, Knight) * side, Knight) +
    AddPieceScores(Pieces(p, Bishop) * side, Bishop) +
    AddPieceScores(Pieces(p, Rook) * side, Rook) +
    AddPieceScores(Pieces(p, Queen) * side, Queen) +
    AddPieceScores(Pieces(p, King) * side, King)
  }

  /** The bishop pair bonus of one side. */
  function PairBonus(p: Position, whiteSide: bool): int
  {
    if |p.bishop * SideBoard(p, whiteSide)| >= 2 then BishopPairBonus else 0
  }

  /** evaluateSide. */
  function EvaluateSide(p: Position, whiteSide: bool): int
  {
    Material(p, whiteSide) + PairBonus(p, whiteSide)
  }

  /** Board::evaluate: white's score minus black's, plus the tempo bonus for the side to move. */
  function Evaluate(p: Position): int
  {
    EvaluateSide(p, true) - EvaluateSide(p, false) + (if p.whiteTurn then TempoScore else -TempoScore)
  }

  // ---------------------------------------------------------------------
  // Bounds: the scores fit in a 32-bit int

  /** A set of squares all below `n` has at most `n` members. */
  lemma {:induction false} CardBelow(b: Bitboard, n: nat)
    requires forall s :: s in b ==> s < n
    ensures |b| <= n
  {
    if n > 0 {
      var rest := b - {n - 1};
      CardBelow(rest, n - 1);
      assert b <= rest + {n - 1};
      assert |b| <= |rest + {n - 1}| <= |rest| + 1;
    } else {
      assert b == {};
    }
  }

  /** A bitboard holds at most 64 squares. */
  lemma CardAtMost64(b: Bitboard)
    ensures |b| <= 64
  {
    CardBelow(b, 64);
  }

  /**
   * Each side scores between 0 and 64 * (100 + 320 + 330 + 500 + 900) + 30,
   * even on a board whose piece boards overlap, so the evaluation never
   * leaves the range of a 32-bit int.
   */
  lemma EvaluateBounds(p: Position)
    ensures 0 <= EvaluateSide(p, true) <= 137630 && 0 <= EvaluateSide(p, false) <= 137630
    ensures -137640 <= Evaluate(p) <= 137640
    ensures -0x8000_0000 <= Evaluate(p) < 0x8000_0000
  {
    forall whiteSide: bool, k: PieceKind ensures |Pieces(p, k) * SideBoard(p, whiteSide)| <= 64 {
      CardAtMost64(Pieces(p, k) * SideBoard(p, whiteSide));
    }
  }

  // ---------------------------------------------------------------------
  // Symmetry and the parts that do not count

  /** The same position with the colours and the side to move exchanged. */
  function Swapped(p: Position): (q: Position)
    ensures SideBoard(q, true) == SideBoard(p, false) && SideBoard(q, false) == SideBoard(p, true)
    ensures q.whiteTurn == !p.whiteTurn
    ensures forall k :: Pieces(q, k) == Pieces(p, k)
  {
    p.(white := p.black, black := p.white, whiteTurn := !p.whiteTurn)
  }

  /** The evaluation is antisymmetric: exchanging the colours and the side to move negates it. */
  lemma SwapNegates(p: Position)
    ensures Evaluate(Swapped(p)) == -Evaluate(p)
    ensures EvaluateSide(Swapped(p), true) == EvaluateSide(p, false)
    ensures EvaluateSide(Swapped(p), false) == EvaluateSide(p, true)
  {
  }

  /** Whose turn it is is worth exactly twice the tempo bonus. */
  lemma TempoSwing(p: Position)
    ensures Evaluate(p.(whiteTurn := true)) - Evaluate(p.(whiteTurn := false)) == 2 * TempoScore
  {
  }

  /** The king board takes no part in the evaluation. */
  lemma KingsCountNothing(p: Position, kings: Bitboard)
    ensures Evaluate(p.(king := kings)) == Evaluate(p)
    ensures EvaluateSide(p.(king := kings), true) == EvaluateSide(p, true)
    ensures EvaluateSide(p.(king := kings), false) == EvaluateSide(p, false)
  {
  }

  /** With no pieces on the board only the tempo bonus is left. */
  lemma EmptyBoardScore(p: Position)
    requires p.white == {} && p.black == {}
    ensures Evaluate(p) == (if p.whiteTurn then TempoScore else -TempoScore)
  {
    EmptySideScore(p, true);
    EmptySideScore(p, false);
  }

  /** A side with no pieces scores nothing. */
  lemma EmptySideScore(p: Position, whiteSide: bool)
    requires SideBoard(p, whiteSide) == {}
    ensures EvaluateSide(p, whiteSide) == 0
  {
    var side := SideBoard(p, whiteSide);
    assert p.pawn * side == {} && p.knight * side == {} && p.bishop * side == {};
    assert p.rook * side == {} && p.queen * side == {} && p.king * side == {};
  }

  // ---------------------------------------------------------------------
  // Adding one piece

  /** The position with a piece of kind `k` and colour `whiteSide` put on the square `sq`. */
  function Added(p: Position, whiteSide: bool, k: PieceKind, sq: Square): Position
  {
    p.(white := if whiteSide then p.white + {sq} else p.white,
       black := if whiteSide then p.black else p.black + {sq},
       pawn := if k == Pawn then p.pawn + {sq} else p.pawn,
       knight := if k == Knight then p.knight + {sq} else p.knight,
       bishop := if k == Bishop then p.bishop + {sq} else p.bishop,
       rook := if k == Rook then p.rook + {sq} else p.rook,
       queen := if k == Queen then p.queen + {sq} else p.queen,
       king := if k == King then p.king + {sq} else p.king)
  }

  /** One piece board masked with either colour board, before and after the new piece. */
  lemma CountAdded(a: Bitboard, side: Bitboard, other: Bitboard, sq: Square, k: PieceKind, added: bool)
    requires sq !in a && sq !in side && sq !in other
    ensures AddPieceScores((if added then a + {sq} else a) * (side + {sq}), k) ==
      AddPieceScores(a * side, k) + (if added then PieceValue(k) else 0)
    ensures (if added then a + {sq} else a) * other == a * other
  {
    if added {
      assert (a + {sq}) * (side + {sq}) == a * side + {sq};
      assert |a * side + {sq}| == |a * side| + 1;
    } else {
      assert a * (side + {sq}) == a * side;
    }
  }

  /**
   * Putting a piece of kind `k` on an empty square raises its side's score
   * by the piece's value, plus the bishop pair bonus when it is that side's
   * second bishop.
   */
  lemma AddPieceOwnScore(p: Position, whiteSide: bool, k: PieceKind, sq: Square)
    requires sq !in AllPieces(p) && sq !in p.white + p.black
    ensures EvaluateSide(Added(p, whiteSide, k, sq), whiteSide) == EvaluateSide(p, whiteSide) + PieceValue(k) +
      (if k == Bishop && |p.bishop * SideBoard(p, whiteSide)| == 1 then BishopPairBonus else 0)
  {
    var side, other := SideBoard(p, whiteSide), SideBoard(p, !whiteSide);
    assert SideBoard(Added(p, whiteSide, k, sq), whiteSide) == side + {sq};
    CountAdded(p.pawn, side, other, sq, Pawn, k == Pawn);
    CountAdded(p.knight, side, other, sq, Knight, k == Knight);
    CountAdded(p.bishop, side, other, sq, Bishop, k == Bishop);
    CountAdded(p.rook, side, other, sq, Rook, k == Rook);
    CountAdded(p.queen, side, other, sq, Queen, k == Queen);
    CountAdded(p.king, side, other, sq, King, k == King);
    match k
    case Pawn => case Knight => case Bishop => case Rook => case Queen => case King =>
  }

  /** The new piece leaves the other side's score alone. */
  lemma AddPieceOtherScore(p: Position, whiteSide: bool, k: PieceKind, sq: Square)
    requires sq !in AllPieces(p) && sq !in p.white + p.black
    ensures EvaluateSide(Added(p, whiteSide, k, sq), !whiteSide) == EvaluateSide(p, !whiteSide)
  {
    var side, other := SideBoard(p, whiteSide), SideBoard(p, !whiteSide);
    assert SideBoard(Added(p, whiteSide, k, sq), !whiteSide) == other;
    CountAdded(p.pawn, side, other, sq, Pawn, k == Pawn);
    CountAdded(p.knight, side, other, sq, Knight, k == Knight);
    CountAdded(p.bishop, side, other, sq, Bishop, k == Bishop);
    CountAdded(p.rook, side, other, sq, Rook, k == Rook);
    CountAdded(p.queen, side, other, sq, Queen, k == Queen);
    CountAdded(p.king, side, other, sq, King, k == King);
  }

  /** The same step seen in the evaluation from white's point of view. */
  lemma AddPieceScore(p: Position, whiteSide: bool, k: PieceKind, sq: Square)
    requires sq !in AllPieces(p) && sq !in p.white + p.black
    ensures Evaluate(Added(p, whiteSide, k, sq)) == Evaluate(p) +
      (if whiteSide then 1 else -1) *
      (PieceValue(k) + (if k == Bishop && |p.bishop * SideBoard(p, whiteSide)| == 1 then BishopPairBonus else 0))
  {
    AddPieceOwnScore(p, whiteSide, k, sq);
    AddPieceOtherScore(p, whiteSide, k, sq);
  }
}
