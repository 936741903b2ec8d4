/**
 * generateLegalMoves (board.cpp): the pseudo-legal moves filtered by the
 * results of analyzeChecks. A king move is kept when its target is not
 * attacked once the king has left its square (and a captured piece has
 * left the target); any other move is dropped in double check, must stay
 * on its pin ray when the piece is pinned, and must land in the block mask
 * in single check.
 */
module Legal {
  import opened Bitboards
  import opened Leapers
  import opened Magic
  import opened Sliders
  import opened Boards
  import opened MoveGen
  import opened Lines
  import opened Attacks
  import opened Checks

  /** The occupancy squareAttacked is asked about for a king move: the king lifted, a captured piece removed. */
  function KingMoveOccupancy(p: Position, m: Move): (occFor: Bitboard)
    ensures forall s :: s in occFor <==> s in Occupied(p) && s != m.from && !(s == m.to && m.to in Enemy(p))
  {
    var occFor := Occupied(p) - {m.from};
    if m.to in Enemy(p) then occFor - {m.to} else occFor
  }

  /** A move of a king of the side to move. */
  predicate MovesKing(p: Position, m: Move)
  {
    m.from in p.king * Own(p)
  }

  /** The test generateLegalMoves applies to one pseudo-legal move, given the result of analyzeChecks. */
  predicate Keep(t: SliderTables, p: Position, info: CheckInfo, m: Move)
    requires WellFormed(t) && |info.pinDirs| == 64
  {
    if MovesKing(p, m) then
      !SquareAttacked(t, m.to, !p.whiteTurn, p, KingMoveOccupancy(p, m))
    else
      |info.checkers| < 2 &&
      (m.from in info.pinned ==> m.to in info.pinDirs[m.from]) &&
      (|info.checkers| == 1 ==> m.to in info.blockMask)
  }

  /** `a` is `b` with some elements left out, the rest in their order. */
  predicate Subsequence<T(==)>(a: seq<T>, b: seq<T>)
    decreases |b|
  {
    if a == [] then true
    else if b == [] then false
    else if a[|a| - 1] == b[|b| - 1] then Subsequence(a[..|a| - 1], b[..|b| - 1])
    else Subsequence(a, b[..|b| - 1])
  }

  /** The moves of `moves` that pass Keep, in their order. */
  function Kept(t: SliderTables, p: Position, info: CheckInfo, moves: seq<Move>): (r: seq<Move>)
    requires WellFormed(t) && |info.pinDirs| == 64
    ensures forall m :: m in r <==> m in moves && Keep(t, p, info, m)
    ensures |r| <= |moves|
  {
    if moves == [] then []
    else
      var last := moves[|moves| - 1];
      assert forall m :: m in moves <==> m in moves[..|moves| - 1] || m == last by {
        assert moves == moves[..|moves| - 1] + [last];
      }
      Kept(t, p, info, moves[..|moves| - 1]) + (if Keep(t, p, info, last) then [last] else [])
  }

  /** The filter only drops moves: what it keeps is a subsequence of its input, in the same order. */
  lemma {:induction false} KeptSubsequence(t: SliderTables, p: Position, info: CheckInfo, moves: seq<Move>)
    requires WellFormed(t) && |info.pinDirs| == 64
    ensures Subsequence(Kept(t, p, info, moves), moves)
  {
    if moves != [] {
      var rest, last := moves[..|moves| - 1], moves[|moves| - 1];
      KeptSubsequence(t, p, info, rest);
      var r := Kept(t, p, info, moves);
      if Keep(t, p, info, last) {
        assert r == Kept(t, p, info, rest) + [last];
        assert r[..|r| - 1] == Kept(t, p, info, rest);
      } else {
        assert r == Kept(t, p, info, rest);
        SubsequenceOfPrefix(r, rest, last);
        assert rest + [last] == moves;
      }
    }
  }

  /** A subsequence of a list stays one when the list grows at the end. */
  lemma {:induction false} SubsequenceOfPrefix<T>(a: seq<T>, b: seq<T>, x: T)
    requires Subsequence(a, b)
    ensures Subsequence(a, b + [x])
    decreases |b|, 1
  {
    if a != [] {
      assert (b + [x])[..|b|] == b;
      if a[|a| - 1] == x {
        SubsequenceDropLast(a, b);
      }
    }
  }

  /** Leaving out the last element of a subsequence keeps it a subsequence. */
  lemma {:induction false} SubsequenceDropLast<T>(a: seq<T>, b: seq<T>)
    requires a != [] && Subsequence(a, b)
    ensures Subsequence(a[..|a| - 1], b)
    decreases |b|, 0
  {
    var c := a[..|a| - 1];
    if c != [] {
      assert b[..|b| - 1] + [b[|b| - 1]] == b;
      if a[|a| - 1] == b[|b| - 1] {
        SubsequenceOfPrefix(c, b[..|b| - 1], b[|b| - 1]);
      } else {
        SubsequenceDropLast(a, b[..|b| - 1]);
        SubsequenceOfPrefix(c, b[..|b| - 1], b[|b| - 1]);
      }
    }
  }

  /** The list generateLegalMoves leaves in `out`. */
  function LegalMoveList(t: SliderTables, p: Position): seq<Move>
    requires WellFormed(t) && BothKings(p)
  {
    Kept(t, p, CheckInfoOf(t, p), PseudoMoveList(t, p))
  }

  /** The list generateLegalMoves leaves as written, filtering against the as-written checkers. */
  function LegalMoveListAsWritten(t: SliderTables, p: Position): seq<Move>
    requires WellFormed(t) && BothKings(p)
  {
    Kept(t, p, CheckInfoAsWritten(t, p), PseudoMoveList(t, p))
  }

  /** The position of the pawn-check finding with a white knight on a1 added. */
  const KnightPawnCheck: Position := Position(
    {0, 28}, {35, 63}, {35}, {}, {0}, {}, {28, 63}, {}, 0, true, true, true, true, true)

  /** The kings of KnightPawnCheck, and the knight move a1-b3 among its pseudo-legal moves. */
  lemma KnightPawnCheckMove(t: SliderTables)
    requires WellFormed(t)
    ensures BothKings(KnightPawnCheck) && KingSquare(KnightPawnCheck, true) == 28
    ensures Move(0, 17, Quiet) in PseudoMoveList(t, KnightPawnCheck)
    ensures !MovesKing(KnightPawnCheck, Move(0, 17, Quiet))
  {
    var p, m := KnightPawnCheck, Move(0, 17, Quiet);
    assert p.king * Side(p, true) == {28} && p.king * Side(p, false) == {63};
    KnightAttacksExact(0, 17);
    KnightMoveListMembership(p, m);
    assert m in KnightMoveList(p);
  }

  /** As written, analyzeChecks finds no checker of the king on e4. */
  lemma NoCheckerAsWritten(t: SliderTables)
    requires WellFormed(t)
    ensures BothKings(KnightPawnCheck)
    ensures CheckersAsWritten(t, KnightPawnCheck) == {}
  {
    var p := KnightPawnCheck;
    KnightPawnCheckMove(t);
    var ksq, next, occ := KingSquare(p, true), Enemy(p), Occupied(p);
    forall s: Square ensures s !in CheckersAsWritten(t, p) {
      BlackPawnAttacksExact(28, s);
      MaskedUnion(KnightAttacks(ksq), PawnAttacks(false, ksq), BishopAttacks(t, ksq, occ), RookAttacks(t, ksq, occ),
        p.knight * next, p.pawn * next, BishopsLike(p), RooksLike(p), s);
    }
  }

  /** The corrected checkers of the king on e4 are the pawn on d5 alone. */
  lemma PawnIsOnlyChecker(t: SliderTables)
    requires WellFormed(t)
    ensures BothKings(KnightPawnCheck)
    ensures Checkers(t, KnightPawnCheck) == {35}
  {
    var p := KnightPawnCheck;
    KnightPawnCheckMove(t);
    var ksq, next, occ := KingSquare(p, true), Enemy(p), Occupied(p);
    forall s: Square ensures s in Checkers(t, p) <==> s == 35 {
      WhitePawnAttacksExact(28, s);
      MaskedUnion(KnightAttacks(ksq), PawnAttacks(true, ksq), BishopAttacks(t, ksq, occ), RookAttacks(t, ksq, occ),
        p.knight * next, p.pawn * next, BishopsLike(p), RooksLike(p), s);
    }
  }

  /** Black has no slider, so nothing of white's is pinned. */
  lemma KnightNotPinned()
    ensures 0 !in Pinned(KnightPawnCheck, 28)
  {
    var p := KnightPawnCheck;
    PinsMeaning(p, 28, 0);
    forall d ensures !PinnedAlong(p, 28, d, 0) {
      assert Pinners(p, d) == {};
    }
  }

  /** Over the as-written checkers the king on e4 is not in check and the knight on a1 is not pinned. */
  lemma AsWrittenKeepsKnightMove(t: SliderTables)
    requires WellFormed(t)
    ensures BothKings(KnightPawnCheck)
    ensures Keep(t, KnightPawnCheck, CheckInfoAsWritten(t, KnightPawnCheck), Move(0, 17, Quiet))
  {
    KnightPawnCheckMove(t);
    NoCheckerAsWritten(t);
    KnightNotPinned();
    var info := CheckInfoAsWritten(t, KnightPawnCheck);
    assert info.checkers == {} && info.pinned == Pinned(KnightPawnCheck, 28);
  }

  /** The corrected filter drops a1-b3: it neither takes the pawn on d5 nor blocks it. */
  lemma CorrectedDropsKnightMove(t: SliderTables)
    requires WellFormed(t)
    ensures BothKings(KnightPawnCheck)
    ensures !Keep(t, KnightPawnCheck, CheckInfoOf(t, KnightPawnCheck), Move(0, 17, Quiet))
  {
    var p := KnightPawnCheck;
    KnightPawnCheckMove(t);
    PawnIsOnlyChecker(t);
    assert Lsb({35}) == 35;
    assert BishopsLike(p) + RooksLike(p) == {};
    assert BlockMask(p, 28, {35}) == {35};
    var info := CheckInfoOf(t, p);
    assert info.checkers == {35} && info.blockMask == {35};
  }

  /**
   * With the white king on e4 in check from the black pawn on d5, the knight
   * move a1-b3 neither captures the pawn nor blocks it. The corrected filter
   * drops it; the filter over the as-written checkers finds no check and
   * keeps it.
   */
  lemma LegalListsDifferOnPawnCheck(t: SliderTables)
    requires WellFormed(t)
    ensures BothKings(KnightPawnCheck)
    ensures Move(0, 17, Quiet) in LegalMoveListAsWritten(t, KnightPawnCheck)
    ensures Move(0, 17, Quiet) !in LegalMoveList(t, KnightPawnCheck)
  {
    KnightPawnCheckMove(t);
    AsWrittenKeepsKnightMove(t);
    CorrectedDropsKnightMove(t);
  }

  /** The body of the filtering loop: whether generateLegalMoves keeps `mv`. */
  method KeepMove(t: SliderTables, p: Position, info: CheckInfo, mv: Move) returns (keep: bool)
    requires WellFormed(t) && |info.pinDirs| == 64
    ensures keep == Keep(t, p, info, mv)
  {
    var checks := |info.checkers|;
    var occ, current, next := Occupied(p), Own(p), Enemy(p);
    var movingKing := mv.from in p.king * current;
    if movingKing {
      var occFor := occ - {mv.from};
      if mv.to in next {
        occFor := occFor - {mv.to};
      }
      assert occFor == KingMoveOccupancy(p, mv);
      return !SquareAttacked(t, mv.to, !p.whiteTurn, p, occFor);
    }
    if checks >= 2 {
      return false;
    }
    if mv.from in info.pinned && mv.to !in info.pinDirs[mv.from] {
      return false;
    }
    if checks == 1 && mv.to !in info.blockMask {
      return false;
    }
    return true;
  }

  /** The filtering loop of generateLegalMoves over the pseudo-legal list. */
  method FilterMoves(t: SliderTables, p: Position, info: CheckInfo, pseudo: seq<Move>) returns (out: seq<Move>)
    requires WellFormed(t) && |info.pinDirs| == 64
    ensures out == Kept(t, p, info, pseudo)
  {
    out := [];
    var i := 0;
    while i < |pseudo|
      invariant 0 <= i <= |pseudo|
      invariant out == Kept(t, p, info, pseudo[..i])
    {
      var mv := pseudo[i];
      var keep := KeepMove(t, p, info, mv);
      if keep {
        out := out + [mv];
      }
      assert pseudo[..i + 1][..i] == pseudo[..i];
      i := i + 1;
    }
    assert pseudo[..|pseudo|] == pseudo;
  }

  /** generateLegalMoves: generate the pseudo-legal moves, analyse the checks, keep what passes. */
  method GenerateLegalMoves(t: SliderTables, p: Position) returns (out: seq<Move>)
    requires WellFormed(t) && BothKings(p)
    ensures out == LegalMoveList(t, p)
  {
    var pseudo := GeneratePseudoMoves(t, p, []);
    assert pseudo == PseudoMoveList(t, p);
    var info := AnalyzeChecks(t, p);
    assert info == CheckInfoOf(t, p);
    out := FilterMoves(t, p, info, pseudo);
  }

  // ---------------------------------------------------------------------
  // What the legal moves satisfy

  /** In a consistent position every legal move can be played. */
  lemma LegalMovesPlayable(t: SliderTables, p: Position, m: Move)
    requires WellFormed(t) && BothKings(p) && Consistent(p)
    requires m in LegalMoveList(t, p)
    ensures Playable(p, m)
  {
    PseudoMovesPlayable(t, p, m);
  }

  /** In double check only king moves are legal. */
  lemma DoubleCheckOnlyKingMoves(t: SliderTables, p: Position, m: Move)
    requires WellFormed(t) && BothKings(p) && |Checkers(t, p)| >= 2
    requires m in LegalMoveList(t, p)
    ensures MovesKing(p, m)
  {
  }

  /** A legal move is a pseudo-legal move that passes the test against analyzeChecks' result. */
  lemma LegalIsKept(t: SliderTables, p: Position, m: Move)
    requires WellFormed(t) && BothKings(p) && m in LegalMoveList(t, p)
    ensures m in PseudoMoveList(t, p) && Keep(t, p, CheckInfoOf(t, p), m)
  {
  }

  /**
   * A pinned piece moves only along its pin: onto the line from the king
   * through it up to and including the pinner.
   */
  lemma PinnedMovesStayOnPin(t: SliderTables, p: Position, m: Move)
    requires WellFormed(t) && BothKings(p)
    requires m in LegalMoveList(t, p) && !MovesKing(p, m) && m.from in Pinned(p, KingSquare(p, p.whiteTurn))
    ensures exists d, x :: (
      PinnedAlong(p, KingSquare(p, p.whiteTurn), d, m.from) &&
      x in Ray(KingSquare(p, p.whiteTurn), d, Occupied(p) - {m.from}) * Pinners(p, d) &&
      m.to in Between(KingSquare(p, p.whiteTurn), x) + {x, KingSquare(p, p.whiteTurn)})
  {
    var ksq := KingSquare(p, p.whiteTurn);
    LegalIsKept(t, p, m);
    assert m.to in PinDirs(p, ksq)[m.from];
    OnPinRay(p, ksq, m.from, m.to);
  }

  /** A square in the pin_dirs entry of a pinned piece lies on its pin line. */
  lemma OnPinRay(p: Position, ksq: Square, s: Square, to: Square)
    requires s in Pinned(p, ksq) && to in PinDirs(p, ksq)[s]
    ensures exists d, x :: (
      PinnedAlong(p, ksq, d, s) && x in Ray(ksq, d, Occupied(p) - {s}) * Pinners(p, d) &&
      to in Between(ksq, x) + {x, ksq})
  {
    PinsMeaning(p, ksq, s);
    var d :| PinnedAlong(p, ksq, d, s);
    var x :| x in Ray(ksq, d, Occupied(p) - {s}) * Pinners(p, d);
    PinRayToPinner(p, ksq, d, s, x);
    assert to in PinRay(p, ksq, d, s);
    assert to in Between(ksq, x) + {x, ksq};
  }

  /** In single check a move other than the king's captures the checker or lands between it and the king. */
  lemma SingleCheckAnswered(t: SliderTables, p: Position, m: Move, c: Square)
    requires WellFormed(t) && BothKings(p) && Checkers(t, p) == {c}
    requires m in LegalMoveList(t, p) && !MovesKing(p, m)
    ensures m.to == c || m.to in Between(KingSquare(p, p.whiteTurn), c)
  {
    var ksq, info := KingSquare(p, p.whiteTurn), CheckInfoOf(t, p);
    LegalIsKept(t, p, m);
    assert info.checkers == {c} && info.blockMask == BlockMask(p, ksq, {c});
    BlockMaskHoldsChecker(p, ksq, c);
    BlockMaskAnswers(p, ksq, c, m.to, info.blockMask);
  }

  /** A square of the block mask of a single checker is the checker's or one between it and the king. */
  lemma BlockMaskAnswers(p: Position, ksq: Square, c: Square, to: Square, mask: Bitboard)
    requires mask == BlockMask(p, ksq, {c}) && to in mask
    ensures to == c || to in Between(ksq, c)
  {
    BlockMaskHoldsChecker(p, ksq, c);
  }

  /** The piece on `x` is an enemy piece attacking `sq` over the occupancy `occ`. */
  predicate EnemyAttacks(p: Position, x: Square, occ: Bitboard, sq: Square)
  {
    x in Enemy(p) && sq in AttacksOf(p, x, !p.whiteTurn, occ)
  }

  /**
   * On exact tables, a legal king move goes to a square no enemy piece
   * attacks once the king has left its square and a captured piece has
   * left the target.
   */
  lemma KingMovesSafe(t: SliderTables, p: Position, m: Move)
    requires Exact(t) && BothKings(p)
    requires m in LegalMoveList(t, p) && MovesKing(p, m)
    ensures forall x :: !EnemyAttacks(p, x, KingMoveOccupancy(p, m), m.to)
  {
    LegalIsKept(t, p, m);
    SquareAttackedMeaning(t, m.to, !p.whiteTurn, p, KingMoveOccupancy(p, m));
    assert Side(p, !p.whiteTurn) == Enemy(p);
  }
}
