/**
 * Pseudo-legal move generation (pawnMoves, knightMoves, bishopMoves,
 * rookMoves, queenMoves, kingMoves, generatePseudoMoves). Each generator
 * walks its pieces and their targets with popLSB, lowest square first, and
 * appends to the caller's list; the *MoveList functions give the list each
 * one appends, and the lemmas say which moves are in it.
 */
module MoveGen {
  import opened Bitboards
  import opened Leapers
  import opened Magic
  import opened Sliders
  import opened Boards

  // ---------------------------------------------------------------------
  // The lists the generators append

  /** The move from `from` to `to`, flagged Capture exactly when `to` holds an enemy piece. */
  function Tagged(from: Square, to: Square, enemy: Bitboard): (m: Move)
    ensures m.from == from && m.to == to
    ensures IsCapture(m) <==> to in enemy
    ensures m.flags == Quiet || m.flags == Capture
  {
    Move(from, to, if to in enemy then Capture else Quiet)
  }

  /** One move per target, in the order given. */
  function TargetMoves(from: Square, targets: seq<Square>, enemy: Bitboard): seq<Move>
  {
    if targets == [] then [] else [Tagged(from, targets[0], enemy)] + TargetMoves(from, targets[1..], enemy)
  }

  /** For each piece in turn, its moves to the attacked squares not held by its own side. */
  function PieceMoves(froms: seq<Square>, attacks: Square -> Bitboard, own: Bitboard, enemy: Bitboard): seq<Move>
  {
    if froms == [] then []
    else TargetMoves(froms[0], Squares(attacks(froms[0]) - own), enemy) + PieceMoves(froms[1..], attacks, own, enemy)
  }

  lemma {:induction false} TargetMovesMembership(from: Square, targets: seq<Square>, enemy: Bitboard, m: Move)
    ensures m in TargetMoves(from, targets, enemy) <==> m.from == from && m.to in targets && m == Tagged(from, m.to, enemy)
  {
    if targets != [] {
      TargetMovesMembership(from, targets[1..], enemy, m);
      assert m.to in targets <==> m.to == targets[0] || m.to in targets[1..] by {
        assert targets == [targets[0]] + targets[1..];
      }
    }
  }

  /** A move is in the list exactly when it leaves one of the pieces for a reachable square its side does not hold. */
  lemma {:induction false} PieceMovesMembership(froms: seq<Square>, attacks: Square -> Bitboard, own: Bitboard, enemy: Bitboard, m: Move)
    ensures m in PieceMoves(froms, attacks, own, enemy) <==>
      m.from in froms && m.to in attacks(m.from) && m.to !in own && m == Tagged(m.from, m.to, enemy)
  {
    if froms != [] {
      var from := froms[0];
      PieceMovesMembership(froms[1..], attacks, own, enemy, m);
      TargetMovesMembership(from, Squares(attacks(from) - own), enemy, m);
      SquaresOrdered(attacks(from) - own);
      assert m.from in froms <==> m.from == from || m.from in froms[1..] by {
        assert froms == [from] + froms[1..];
      }
    }
  }

  // ---------------------------------------------------------------------
  // Pawns

  /** WHITE_PAWN_ATTACKS or BLACK_PAWN_ATTACKS, by the side the pawn belongs to. */
  function PawnAttacks(white: bool, s: Square): Bitboard
  {
    if white then WhitePawnAttacks(s) else BlackPawnAttacks(s)
  }

  /** The captures of the pawn on `from`: every enemy piece it attacks, flagged Capture. */
  function PawnCaptures(from: Square, targets: seq<Square>): seq<Move>
  {
    if targets == [] then [] else [Move(from, targets[0], Capture)] + PawnCaptures(from, targets[1..])
  }

  /**
   * The pushes of the pawn on `from`: one square forward unless it stands on
   * its last rank or the square is occupied; then two squares forward from its
   * start rank unless that square is occupied.
   */
  function PawnPushes(p: Position, from: Square): seq<Move>
  {
    var occ := Occupied(p);
    if p.whiteTurn then
      if from >= 56 || from + 8 in occ then []
      else [Move(from, from + 8, Quiet)] + (if 7 < from <= 15 && from + 16 !in occ then [Move(from, from + 16, DoublePush)] else [])
    else
      if from <= 7 || from - 8 in occ then []
      else [Move(from, from - 8, Quiet)] + (if 47 < from <= 55 && from - 16 !in occ then [Move(from, from - 16, DoublePush)] else [])
  }

  function PawnMovesAt(p: Position, from: Square): seq<Move>
  {
    PawnCaptures(from, Squares(Enemy(p) * PawnAttacks(p.whiteTurn, from))) + PawnPushes(p, from)
  }

  function PawnMovesFrom(p: Position, froms: seq<Square>): seq<Move>
  {
    if froms == [] then [] else PawnMovesAt(p, froms[0]) + PawnMovesFrom(p, froms[1..])
  }

  /** The list pawnMoves appends. */
  function PawnMoveList(p: Position): seq<Move>
  {
    PawnMovesFrom(p, Squares(p.pawn * Own(p)))
  }

  lemma {:induction false} PawnCapturesMembership(from: Square, targets: seq<Square>, m: Move)
    ensures m in PawnCaptures(from, targets) <==> m.from == from && m.to in targets && m.flags == Capture
  {
    if targets != [] {
      PawnCapturesMembership(from, targets[1..], m);
      assert m.to in targets <==> m.to == targets[0] || m.to in targets[1..] by {
        assert targets == [targets[0]] + targets[1..];
      }
    }
  }

  /** The white pawn push and double push rules, as squares and ranks. */
  predicate WhitePush(p: Position, m: Move)
  {
    var occ := Occupied(p);
    (m.to == m.from + 8 && m.flags == Quiet && RankOf(m.from) < 7 && m.to !in occ) ||
    (m.to == m.from + 16 && m.flags == DoublePush && RankOf(m.from) == 1 && m.from + 8 !in occ && m.to !in occ)
  }

  /** The black pawn push and double push rules, as squares and ranks. */
  predicate BlackPush(p: Position, m: Move)
  {
    var occ := Occupied(p);
    (m.to == m.from - 8 && m.flags == Quiet && RankOf(m.from) > 0 && m.to !in occ) ||
    (m.to == m.from - 16 && m.flags == DoublePush && RankOf(m.from) == 6 && m.from - 8 !in occ && m.to !in occ)
  }

  /**
   * A pawn move of the side to move is a capture of an enemy piece its pawn
   * attacks, or a push onto an empty square: one rank forward from any rank
   * but the last, or two from the start rank over an empty square.
   */
  lemma PawnMovesAtMembership(p: Position, from: Square, m: Move)
    ensures m in PawnMovesAt(p, from) <==>
      (m.from == from &&
       ((m.to in Enemy(p) && m.to in PawnAttacks(p.whiteTurn, from) && m.flags == Capture) || PawnPush(p, m)))
  {
    var targets := Enemy(p) * PawnAttacks(p.whiteTurn, from);
    PawnCapturesMembership(from, Squares(targets), m);
    SquaresOrdered(targets);
    PawnPushesMembership(p, from, m);
  }

  /** The pushes of the side to move. */
  predicate PawnPush(p: Position, m: Move)
  {
    if p.whiteTurn then WhitePush(p, m) else BlackPush(p, m)
  }

  lemma PawnPushesMembership(p: Position, from: Square, m: Move)
    ensures m in PawnPushes(p, from) <==> m.from == from && PawnPush(p, m)
  {
  }

  lemma {:induction false} PawnMovesFromMembership(p: Position, froms: seq<Square>, m: Move)
    ensures m in PawnMovesFrom(p, froms) <==> m.from in froms && m in PawnMovesAt(p, m.from)
  {
    if froms != [] {
      PawnMovesFromMembership(p, froms[1..], m);
      PawnMovesAtMembership(p, froms[0], m);
      assert m.from in froms <==> m.from == froms[0] || m.from in froms[1..] by {
        assert froms == [froms[0]] + froms[1..];
      }
    }
  }

  /** pawnMoves: exactly the pawn captures and pushes above, of the pawns of the side to move. */
  lemma PawnMoveListMembership(p: Position, m: Move)
    ensures m in PawnMoveList(p) <==>
      (m.from in p.pawn && m.from in Own(p) &&
       ((m.to in Enemy(p) && m.to in PawnAttacks(p.whiteTurn, m.from) && m.flags == Capture) || PawnPush(p, m)))
  {
    SquaresOrdered(p.pawn * Own(p));
    PawnMovesFromMembership(p, Squares(p.pawn * Own(p)), m);
    PawnMovesAtMembership(p, m.from, m);
  }

  // ---------------------------------------------------------------------
  // Knights, sliders and kings

  /** The squares a slider on `from` reaches: the lookup with the slider itself taken out of the occupancy. */
  function BishopReach(t: SliderTables, p: Position): Square -> Bitboard
    requires WellFormed(t)
  {
    sq => BishopAttacks(t, sq, Occupied(p) - {sq})
  }

  function RookReach(t: SliderTables, p: Position): Square -> Bitboard
    requires WellFormed(t)
  {
    sq => RookAttacks(t, sq, Occupied(p) - {sq})
  }

  function QueenReach(t: SliderTables, p: Position): Square -> Bitboard
    requires WellFormed(t)
  {
    sq => QueenAttacks(t, sq, Occupied(p) - {sq})
  }

  /** The list knightMoves appends. */
  function KnightMoveList(p: Position): seq<Move>
  {
    PieceMoves(Squares(p.knight * Own(p)), KnightAttacks, Own(p), Enemy(p))
  }

  function BishopMoveList(t: SliderTables, p: Position): seq<Move>
    requires WellFormed(t)
  {
    PieceMoves(Squares(p.bishop * Own(p)), BishopReach(t, p), Own(p), Enemy(p))
  }

  function RookMoveList(t: SliderTables, p: Position): seq<Move>
    requires WellFormed(t)
  {
    PieceMoves(Squares(p.rook * Own(p)), RookReach(t, p), Own(p), Enemy(p))
  }

  function QueenMoveList(t: SliderTables, p: Position): seq<Move>
    requires WellFormed(t)
  {
    PieceMoves(Squares(p.queen * Own(p)), QueenReach(t, p), Own(p), Enemy(p))
  }

  function KingMoveList(p: Position): seq<Move>
  {
    PieceMoves(Squares(p.king * Own(p)), KingAttacks, Own(p), Enemy(p))
  }

  /** The list generatePseudoMoves appends: pawns, knights, bishops, rooks, queens, kings. */
  function PseudoMoveList(t: SliderTables, p: Position): seq<Move>
    requires WellFormed(t)
  {
    PawnMoveList(p) + KnightMoveList(p) + BishopMoveList(t, p) + RookMoveList(t, p) + QueenMoveList(t, p) + KingMoveList(p)
  }

  /** Knight moves: a knight jump of a knight of the side to move onto a square its side does not hold. */
  lemma KnightMoveListMembership(p: Position, m: Move)
    ensures m in KnightMoveList(p) <==>
      (m.from in p.knight && m.from in Own(p) &&
       KnightJump(m.from, m.to) && m.to !in Own(p) && m == Tagged(m.from, m.to, Enemy(p)))
  {
    SquaresOrdered(p.knight * Own(p));
    PieceMovesMembership(Squares(p.knight * Own(p)), KnightAttacks, Own(p), Enemy(p), m);
    KnightAttacksExact(m.from, m.to);
  }

  /** King moves: a step to a neighbouring square its side does not hold. */
  lemma KingMoveListMembership(p: Position, m: Move)
    ensures m in KingMoveList(p) <==>
      (m.from in p.king && m.from in Own(p) &&
       Adjacent(m.from, m.to) && m.to !in Own(p) && m == Tagged(m.from, m.to, Enemy(p)))
  {
    SquaresOrdered(p.king * Own(p));
    PieceMovesMembership(Squares(p.king * Own(p)), KingAttacks, Own(p), Enemy(p), m);
    KingAttacksExact(m.from, m.to);
  }

  /**
   * Slider moves on exact tables: a square the ray cast from the slider
   * reaches (up to and including the first occupied square in each
   * direction) that its side does not hold. Taking the slider out of the
   * occupancy changes nothing.
   */
  lemma BishopMoveListMembership(t: SliderTables, p: Position, m: Move)
    requires Exact(t)
    ensures m in BishopMoveList(t, p) <==>
      (m.from in p.bishop && m.from in Own(p) &&
       m.to in BishopRayCast(m.from, Occupied(p)) && m.to !in Own(p) && m == Tagged(m.from, m.to, Enemy(p)))
  {
    SquaresOrdered(p.bishop * Own(p));
    PieceMovesMembership(Squares(p.bishop * Own(p)), BishopReach(t, p), Own(p), Enemy(p), m);
    RayCastIgnoresOrigin(m.from, Occupied(p));
  }

  lemma RookMoveListMembership(t: SliderTables, p: Position, m: Move)
    requires Exact(t)
    ensures m in RookMoveList(t, p) <==>
      (m.from in p.rook && m.from in Own(p) &&
       m.to in RookRayCast(m.from, Occupied(p)) && m.to !in Own(p) && m == Tagged(m.from, m.to, Enemy(p)))
  {
    SquaresOrdered(p.rook * Own(p));
    PieceMovesMembership(Squares(p.rook * Own(p)), RookReach(t, p), Own(p), Enemy(p), m);
    RayCastIgnoresOrigin(m.from, Occupied(p));
  }

  lemma QueenMoveListMembership(t: SliderTables, p: Position, m: Move)
    requires Exact(t)
    ensures m in QueenMoveList(t, p) <==>
      (m.from in p.queen && m.from in Own(p) &&
       m.to in RookRayCast(m.from, Occupied(p)) + BishopRayCast(m.from, Occupied(p)) &&
       m.to !in Own(p) && m == Tagged(m.from, m.to, Enemy(p)))
  {
    SquaresOrdered(p.queen * Own(p));
    PieceMovesMembership(Squares(p.queen * Own(p)), QueenReach(t, p), Own(p), Enemy(p), m);
    RayCastIgnoresOrigin(m.from, Occupied(p));
  }

  /** The moves of one kind of piece can be played when they leave a piece of the side to move for a square it does not hold. */
  lemma PieceMovesPlayable(p: Position, pieces: Bitboard, attacks: Square -> Bitboard, m: Move)
    requires Consistent(p) && pieces <= Own(p)
    requires m in PieceMoves(Squares(pieces), attacks, Own(p), Enemy(p))
    ensures Playable(p, m)
  {
    SquaresOrdered(pieces);
    PieceMovesMembership(Squares(pieces), attacks, Own(p), Enemy(p), m);
  }

  lemma PawnMovesPlayable(p: Position, m: Move)
    requires Consistent(p) && m in PawnMoveList(p)
    ensures Playable(p, m)
  {
    PawnMoveListMembership(p, m);
    assert Own(p) * Enemy(p) == {};
    assert m.from in Own(p);
    if m.flags != Capture {
      assert PawnPush(p, m);
      assert m.to !in Occupied(p);
      assert m.to !in Own(p) && m.to !in Enemy(p);
    } else {
      assert !PawnPush(p, m);
      assert m.to in Enemy(p);
      assert m.to !in Own(p) * Enemy(p);
    }
  }

  /**
   * Every pseudo-legal move of a consistent position can be played: it
   * starts on a piece of the side to move, does not land on its own side,
   * and is flagged Capture whenever it lands on an enemy piece.
   */
  lemma PseudoMovesPlayable(t: SliderTables, p: Position, m: Move)
    requires WellFormed(t) && Consistent(p)
    requires m in PseudoMoveList(t, p)
    ensures Playable(p, m)
  {
    if m in PawnMoveList(p) {
      PawnMovesPlayable(p, m);
    } else if m in KnightMoveList(p) {
      PieceMovesPlayable(p, p.knight * Own(p), KnightAttacks, m);
    } else if m in BishopMoveList(t, p) {
      PieceMovesPlayable(p, p.bishop * Own(p), BishopReach(t, p), m);
    } else if m in RookMoveList(t, p) {
      PieceMovesPlayable(p, p.rook * Own(p), RookReach(t, p), m);
    } else if m in QueenMoveList(t, p) {
      PieceMovesPlayable(p, p.queen * Own(p), QueenReach(t, p), m);
    } else {
      PieceMovesPlayable(p, p.king * Own(p), KingAttacks, m);
    }
  }

  // ---------------------------------------------------------------------
  // The generators

  /** The inner popLSB loop: one move per target, flagged by whether the target holds an enemy piece. */
  method AppendTargets(out: seq<Move>, from: Square, targets: Bitboard, enemy: Bitboard) returns (r: seq<Move>)
    ensures r == out + TargetMoves(from, Squares(targets), enemy)
  {
    r := out;
    var moves := targets;
    while moves != {}
      invariant r + TargetMoves(from, Squares(moves), enemy) == out + TargetMoves(from, Squares(targets), enemy)
      decreases |moves|
    {
      var to;
      ghost var before := moves;
      ghost var r0 := r;
      to, moves := PopLsb(moves);
      SquaresUnfold(before, to);
      var capture := to in enemy;
      r := r + [Move(from, to, if capture then Capture else Quiet)];
      AppendAssoc(r0, [Tagged(from, to, enemy)], TargetMoves(from, Squares(moves), enemy));
    }
  }

  /**
   * The outer popLSB loop of knightMoves, bishopMoves, rookMoves, queenMoves
   * and kingMoves: for each piece, its attacks minus its own side.
   */
  method AppendPieceMoves(out: seq<Move>, pieces: Bitboard, attacks: Square -> Bitboard, own: Bitboard, enemy: Bitboard)
    returns (r: seq<Move>)
    ensures r == out + PieceMoves(Squares(pieces), attacks, own, enemy)
  {
    r := out;
    var rest := pieces;
    while rest != {}
      invariant r + PieceMoves(Squares(rest), attacks, own, enemy) == out + PieceMoves(Squares(pieces), attacks, own, enemy)
      decreases |rest|
    {
      var from;
      ghost var before := rest;
      ghost var r0 := r;
      from, rest := PopLsb(rest);
      PieceMovesUnfold(before, from, attacks, own, enemy);
      var moves := attacks(from) - own;
      r := AppendTargets(r, from, moves, enemy);
      AppendAssoc(r0, TargetMoves(from, Squares(moves), enemy), PieceMoves(Squares(rest), attacks, own, enemy));
    }
  }

  lemma AppendAssoc<T>(a: seq<T>, b: seq<T>, c: seq<T>)
    ensures (a + b) + c == a + (b + c)
  {
  }

  lemma PieceMovesUnfold(b: Bitboard, s: Square, attacks: Square -> Bitboard, own: Bitboard, enemy: Bitboard)
    requires b != {} && s == Lsb(b)
    ensures PieceMoves(Squares(b), attacks, own, enemy) ==
      TargetMoves(s, Squares(attacks(s) - own), enemy) + PieceMoves(Squares(b - {s}), attacks, own, enemy)
  {
    SquaresUnfold(b, s);
    var froms := Squares(b);
    assert froms[0] == s && froms[1..] == Squares(b - {s});
  }

  lemma PawnMovesUnfold(p: Position, b: Bitboard, s: Square)
    requires b != {} && s == Lsb(b)
    ensures PawnMovesFrom(p, Squares(b)) == PawnMovesAt(p, s) + PawnMovesFrom(p, Squares(b - {s}))
  {
    SquaresUnfold(b, s);
    var froms := Squares(b);
    assert froms[0] == s && froms[1..] == Squares(b - {s});
  }

  /** The capture loop of pawnMoves. */
  method AppendPawnCaptures(out: seq<Move>, from: Square, targets: Bitboard) returns (r: seq<Move>)
    ensures r == out + PawnCaptures(from, Squares(targets))
  {
    r := out;
    var attacks := targets;
    while attacks != {}
      invariant r + PawnCaptures(from, Squares(attacks)) == out + PawnCaptures(from, Squares(targets))
      decreases |attacks|
    {
      var to;
      ghost var before := attacks;
      ghost var r0 := r;
      to, attacks := PopLsb(attacks);
      SquaresUnfold(before, to);
      r := r + [Move(from, to, Capture)];
      AppendAssoc(r0, [Move(from, to, Capture)], PawnCaptures(from, Squares(attacks)));
    }
  }

  /** The push part of pawnMoves for one pawn; each `continue` of the source ends it early. */
  method AppendPawnPushes(out: seq<Move>, p: Position, from: Square) returns (r: seq<Move>)
    ensures r == out + PawnPushes(p, from)
  {
    r := out;
    var occ := p.white + p.black;
    if p.whiteTurn {
      var isLastRank := from >= 56;
      if !isLastRank {
        var to := from + 8;
        if to in occ {
          return;
        }
        r := r + [Move(from, to, 0)];
        if from <= 15 && from > 7 {
          var doubleTo := from + 16;
          if doubleTo in occ {
            return;
          }
          r := r + [Move(from, doubleTo, DoublePush)];
        }
      }
    } else {
      var isLastRank := from <= 7;
      if !isLastRank {
        var to := from - 8;
        if to in occ {
          return;
        }
        r := r + [Move(from, to, 0)];
        if from <= 55 && from > 47 {
          var doubleTo := from - 16;
          if doubleTo in occ {
            return;
          }
          r := r + [Move(from, doubleTo, DoublePush)];
        }
      }
    }
  }

  /** pawnMoves. */
  method PawnMoves(p: Position, out: seq<Move>) returns (r: seq<Move>)
    ensures r == out + PawnMoveList(p)
  {
    var current := Own(p);
    var next := Enemy(p);
    r := out;
    var currentPawns := current * p.pawn;
    assert currentPawns == p.pawn * Own(p);
    while currentPawns != {}
      invariant r + PawnMovesFrom(p, Squares(currentPawns)) == out + PawnMoveList(p)
      decreases |currentPawns|
    {
      var from;
      ghost var before := currentPawns;
      ghost var r0 := r;
      from, currentPawns := PopLsb(currentPawns);
      PawnMovesUnfold(p, before, from);
      var attacks := next * (if p.whiteTurn then WhitePawnAttacks(from) else BlackPawnAttacks(from));
      r := AppendPawnCaptures(r, from, attacks);
      r := AppendPawnPushes(r, p, from);
      AppendAssoc(r0, PawnCaptures(from, Squares(attacks)), PawnPushes(p, from));
      AppendAssoc(r0, PawnMovesAt(p, from), PawnMovesFrom(p, Squares(currentPawns)));
    }
  }

  /** knightMoves. */
  method KnightMoves(p: Position, out: seq<Move>) returns (r: seq<Move>)
    ensures r == out + KnightMoveList(p)
  {
    r := AppendPieceMoves(out, p.knight * Own(p), KnightAttacks, Own(p), Enemy(p));
  }

  /** bishopMoves. */
  method BishopMoves(t: SliderTables, p: Position, out: seq<Move>) returns (r: seq<Move>)
    requires WellFormed(t)
    ensures r == out + BishopMoveList(t, p)
  {
    r := AppendPieceMoves(out, p.bishop * Own(p), BishopReach(t, p), Own(p), Enemy(p));
  }

  /** rookMoves. */
  method RookMoves(t: SliderTables, p: Position, out: seq<Move>) returns (r: seq<Move>)
    requires WellFormed(t)
    ensures r == out + RookMoveList(t, p)
  {
    r := AppendPieceMoves(out, p.rook * Own(p), RookReach(t, p), Own(p), Enemy(p));
  }

  /** queenMoves. */
  method QueenMoves(t: SliderTables, p: Position, out: seq<Move>) returns (r: seq<Move>)
    requires WellFormed(t)
    ensures r == out + QueenMoveList(t, p)
  {
    r := AppendPieceMoves(out, p.queen * Own(p), QueenReach(t, p), Own(p), Enemy(p));
  }

  /** kingMoves. */
  method KingMoves(p: Position, out: seq<Move>) returns (r: seq<Move>)
    ensures r == out + KingMoveList(p)
  {
    r := AppendPieceMoves(out, p.king * Own(p), KingAttacks, Own(p), Enemy(p));
  }

  /** generatePseudoMoves. */
  method GeneratePseudoMoves(t: SliderTables, p: Position, out: seq<Move>) returns (r: seq<Move>)
    requires WellFormed(t)
    ensures r == out + PseudoMoveList(t, p)
  {
    var pawns, knights, bishops, rooks, queens, kings :=
      PawnMoveList(p), KnightMoveList(p), BishopMoveList(t, p), RookMoveList(t, p), QueenMoveList(t, p), KingMoveList(p);
    r := PawnMoves(p, out);
    r := KnightMoves(p, r);
    AppendAssoc(out, pawns, knights);
    r := BishopMoves(t, p, r);
    AppendAssoc(out, pawns + knights, bishops);
    r := RookMoves(t, p, r);
    AppendAssoc(out, pawns + knights + bishops, rooks);
    r := QueenMoves(t, p, r);
    AppendAssoc(out, pawns + knights + bishops + rooks, queens);
    r := KingMoves(p, r);
    AppendAssoc(out, pawns + knights + bishops + rooks + queens, kings);
  }
}
