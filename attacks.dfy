/**
 * Attack queries of board.cpp: kingSquare, the attack maps of a set of
 * pieces (pawnAttacksFrom, knightAttacksFrom, bishopAttacksFrom,
 * rookAttacksFrom; kingAttacksFrom is Leapers.KingAttacks) and
 * squareAttacked, which answers by looking up the attack tables from the
 * target square back towards the attackers.
 */
module Attacks {
  import opened Bitboards
  import opened Leapers
  import opened Magic
  import opened Sliders
  import opened Boards
  import opened MoveGen

  /** The colour board of one side. */
  function Side(p: Position, white: bool): Bitboard
  {
    if white then p.white else p.black
  }

  predicate HasKing(p: Position, white: bool)
  {
    p.king * Side(p, white) != {}
  }

  /** kingSquare: the lowest square holding a king of the side (countr_zero needs it to exist). */
  function KingSquare(p: Position, white: bool): (k: Square)
    requires HasKing(p, white)
    ensures k in p.king && k in Side(p, white)
    ensures forall s :: s in p.king * Side(p, white) ==> k <= s
  {
    Lsb(p.king * Side(p, white))
  }

  // ---------------------------------------------------------------------
  // Attack maps of a set of pieces

  /** The loop shared by the *AttacksFrom helpers: pop each piece and add its attack set. */
  method AttacksFrom(pieces: Bitboard, attack: Square -> Bitboard) returns (attacks: Bitboard)
    ensures forall t :: t in attacks <==> exists s :: s in pieces && t in attack(s)
  {
    attacks := {};
    var rest := pieces;
    while rest != {}
      invariant rest <= pieces
      invariant forall t :: t in attacks <==> exists s :: s in pieces - rest && t in attack(s)
      decreases |rest|
    {
      var sq;
      ghost var before := rest;
      sq, rest := PopLsb(rest);
      attacks := attacks + attack(sq);
      forall t | t in attacks
        ensures exists s :: s in pieces - rest && t in attack(s)
      {
        if t !in attack(sq) {
          var s :| s in pieces - before && t in attack(s);
          assert s in pieces - rest;
        }
      }
    }
  }

  /** pawnAttacksFrom: the squares the pawns of the given colour attack. */
  method PawnAttacksFrom(pawns: Bitboard, whitePawns: bool) returns (attacks: Bitboard)
    ensures forall t :: t in attacks <==> exists s :: s in pawns && t in PawnAttacks(whitePawns, s)
  {
    attacks := AttacksFrom(pawns, s => PawnAttacks(whitePawns, s));
  }

  /** knightAttacksFrom: the squares a knight jump away from some knight. */
  method KnightAttacksFrom(knights: Bitboard) returns (attacks: Bitboard)
    ensures forall t :: t in attacks <==> exists s :: s in knights && KnightJump(s, t)
  {
    attacks := AttacksFrom(knights, KnightAttacks);
    forall t ensures t in attacks <==> exists s :: s in knights && KnightJump(s, t) {
      forall s ensures t in KnightAttacks(s) <==> KnightJump(s, t) {
        KnightAttacksExact(s, t);
      }
    }
  }

  /** bishopAttacksFrom: on exact tables, the squares some bishop slides to over `occ`. */
  method BishopAttacksFrom(t: SliderTables, bishops: Bitboard, occ: Bitboard) returns (attacks: Bitboard)
    requires WellFormed(t)
    ensures forall x :: x in attacks <==> exists s :: s in bishops && x in BishopAttacks(t, s, occ)
    ensures Exact(t) ==> forall x :: x in attacks <==> exists s :: s in bishops && x in BishopRayCast(s, occ)
  {
    attacks := AttacksFrom(bishops, s => BishopAttacks(t, s, occ));
  }

  /** rookAttacksFrom: on exact tables, the squares some rook slides to over `occ`. */
  method RookAttacksFrom(t: SliderTables, rooks: Bitboard, occ: Bitboard) returns (attacks: Bitboard)
    requires WellFormed(t)
    ensures forall x :: x in attacks <==> exists s :: s in rooks && x in RookAttacks(t, s, occ)
    ensures Exact(t) ==> forall x :: x in attacks <==> exists s :: s in rooks && x in RookRayCast(s, occ)
  {
    attacks := AttacksFrom(rooks, s => RookAttacks(t, s, occ));
  }

  // ---------------------------------------------------------------------
  // squareAttacked

  /**
   * The squares the piece on `s` attacks if it belongs to `white`'s side,
   * from every piece board that holds `s`, kings excepted: pawn captures,
   * knight jumps, diagonal slides for bishops and queens, line slides for
   * rooks and queens, over the occupancy `occ`.
   */
  function PieceAttacks(p: Position, s: Square, white: bool, occ: Bitboard): Bitboard
  {
    (if s in p.pawn then PawnAttacks(white, s) else {}) +
    (if s in p.knight then KnightAttacks(s) else {}) +
    (if s in p.bishop || s in p.queen then BishopRayCast(s, occ) else {}) +
    (if s in p.rook || s in p.queen then RookRayCast(s, occ) else {})
  }

  /** PieceAttacks together with the king's neighbourhood when `s` holds a king. */
  function AttacksOf(p: Position, s: Square, white: bool, occ: Bitboard): Bitboard
  {
    PieceAttacks(p, s, white, occ) + (if s in p.king then KingAttacks(s) else {})
  }

  /**
   * squareAttacked: whether a piece of the side `byWhite` attacks `sq`,
   * found by looking from `sq` outwards: the opposite colour's pawn table,
   * the knight table, the slider tables against bishops/queens and
   * rooks/queens, and the king table.
   */
  function SquareAttacked(t: SliderTables, sq: Square, byWhite: bool, p: Position, occ: Bitboard): bool
    requires WellFormed(t)
  {
    var side := Side(p, byWhite);
    var pawns, knights, bishops := p.pawn * side, p.knight * side, p.bishop * side;
    var rooks, queens, kings := p.rook * side, p.queen * side, p.king * side;
    PawnAttacks(!byWhite, sq) * pawns != {} ||
    KnightAttacks(sq) * knights != {} ||
    BishopAttacks(t, sq, occ) * (bishops + queens) != {} ||
    RookAttacks(t, sq, occ) * (rooks + queens) != {} ||
    (kings != {} && KingAttacks(sq) * kings != {})
  }

  /** The pawn tables read backwards: the opposite colour's entry for `sq` lists the pawns attacking `sq`. */
  lemma PawnLookupReverse(sq: Square, s: Square, white: bool)
    ensures s in PawnAttacks(!white, sq) <==> sq in PawnAttacks(white, s)
  {
    PawnAttacksReverse(s, sq);
    PawnAttacksReverse(sq, s);
  }

  lemma AttacksOfUnfold(p: Position, s: Square, white: bool, occ: Bitboard, sq: Square)
    ensures sq in PieceAttacks(p, s, white, occ) <==>
      ((sq in PawnAttacks(white, s) && s in p.pawn) || (sq in KnightAttacks(s) && s in p.knight) ||
       (sq in BishopRayCast(s, occ) && (s in p.bishop || s in p.queen)) || (sq in RookRayCast(s, occ) && (s in p.rook || s in p.queen)))
    ensures sq in AttacksOf(p, s, white, occ) <==>
      ((sq in PawnAttacks(white, s) && s in p.pawn) || (sq in KnightAttacks(s) && s in p.knight) ||
       (sq in BishopRayCast(s, occ) && (s in p.bishop || s in p.queen)) || (sq in RookRayCast(s, occ) && (s in p.rook || s in p.queen)) ||
       (sq in KingAttacks(s) && s in p.king))
  {
  }

  /** One of the lookups from `sq` other than the king's finds the piece on `s`. */
  predicate PieceFoundFrom(p: Position, sq: Square, s: Square, white: bool, occ: Bitboard)
  {
    (s in PawnAttacks(!white, sq) && s in p.pawn) ||
    (s in KnightAttacks(sq) && s in p.knight) ||
    (s in BishopRayCast(sq, occ) && (s in p.bishop || s in p.queen)) ||
    (s in RookRayCast(sq, occ) && (s in p.rook || s in p.queen))
  }

  /** One of the lookups squareAttacked makes from `sq` finds the piece on `s`. */
  predicate FoundFrom(p: Position, sq: Square, s: Square, white: bool, occ: Bitboard)
  {
    PieceFoundFrom(p, sq, s, white, occ) || (s in KingAttacks(sq) && s in p.king)
  }

  /** The piece on `s` attacks `sq` exactly when one of the lookups from `sq` finds it. */
  lemma AttackedBy(sq: Square, s: Square, white: bool, p: Position, occ: Bitboard)
    ensures sq in PieceAttacks(p, s, white, occ) <==> PieceFoundFrom(p, sq, s, white, occ)
    ensures sq in AttacksOf(p, s, white, occ) <==> FoundFrom(p, sq, s, white, occ)
  {
    var pawnHit := sq in PawnAttacks(white, s);
    var knightHit := sq in KnightAttacks(s);
    var bishopHit := sq in BishopRayCast(s, occ);
    var rookHit := sq in RookRayCast(s, occ);
    var kingHit := sq in KingAttacks(s);
    assert pawnHit <==> s in PawnAttacks(!white, sq) by {
      PawnLookupReverse(sq, s, white);
    }
    assert knightHit <==> s in KnightAttacks(sq) by {
      KnightAttacksSymmetric(s, sq);
    }
    assert (bishopHit <==> s in BishopRayCast(sq, occ)) && (rookHit <==> s in RookRayCast(sq, occ)) by {
      RayCastSymmetric(s, sq, occ);
    }
    assert kingHit <==> s in KingAttacks(sq) by {
      KingAttacksSymmetric(s, sq);
    }
    AttacksOfUnfold(p, s, white, occ, sq);
  }

  /** On exact tables, squareAttacked holds exactly when one of its lookups finds a piece of the side. */
  lemma SquareAttackedFinds(t: SliderTables, sq: Square, byWhite: bool, p: Position, occ: Bitboard)
    requires Exact(t)
    ensures SquareAttacked(t, sq, byWhite, p, occ) <==>
      exists s :: s in Side(p, byWhite) && FoundFrom(p, sq, s, byWhite, occ)
  {
    if SquareAttacked(t, sq, byWhite, p, occ) {
      AttackedHasFinder(t, sq, byWhite, p, occ);
    }
    if exists s :: s in Side(p, byWhite) && FoundFrom(p, sq, s, byWhite, occ) {
      var s :| s in Side(p, byWhite) && FoundFrom(p, sq, s, byWhite, occ);
      FinderAttacks(t, sq, byWhite, p, occ, s);
    }
  }

  /** A lookup that answers names a piece it found. */
  lemma AttackedHasFinder(t: SliderTables, sq: Square, byWhite: bool, p: Position, occ: Bitboard)
    requires Exact(t) && SquareAttacked(t, sq, byWhite, p, occ)
    ensures exists s :: s in Side(p, byWhite) && FoundFrom(p, sq, s, byWhite, occ)
  {
    var side := Side(p, byWhite);
    if BishopAttacks(t, sq, occ) * (p.bishop * side + p.queen * side) != {} ||
       RookAttacks(t, sq, occ) * (p.rook * side + p.queen * side) != {} {
      SliderFinder(sq, byWhite, p, occ);
    } else {
      LeaperFinder(sq, byWhite, p, occ);
    }
  }

  /** A slider lookup that answers (on exact tables, a ray cast) names a bishop, rook or queen it found. */
  lemma SliderFinder(sq: Square, byWhite: bool, p: Position, occ: Bitboard)
    requires var side := Side(p, byWhite);
      BishopRayCast(sq, occ) * (p.bishop * side + p.queen * side) != {} ||
      RookRayCast(sq, occ) * (p.rook * side + p.queen * side) != {}
    ensures exists s :: s in Side(p, byWhite) && FoundFrom(p, sq, s, byWhite, occ)
  {
    var side := Side(p, byWhite);
    if BishopRayCast(sq, occ) * (p.bishop * side + p.queen * side) != {} {
      var s :| s in BishopRayCast(sq, occ) * (p.bishop * side + p.queen * side);
      assert s in side && FoundFrom(p, sq, s, byWhite, occ);
    } else {
      var s :| s in RookRayCast(sq, occ) * (p.rook * side + p.queen * side);
      assert s in side && FoundFrom(p, sq, s, byWhite, occ);
    }
  }

  /** A pawn, knight or king lookup that answers names the piece it found. */
  lemma LeaperFinder(sq: Square, byWhite: bool, p: Position, occ: Bitboard)
    requires var side := Side(p, byWhite);
      PawnAttacks(!byWhite, sq) * (p.pawn * side) != {} ||
      KnightAttacks(sq) * (p.knight * side) != {} ||
      KingAttacks(sq) * (p.king * side) != {}
    ensures exists s :: s in Side(p, byWhite) && FoundFrom(p, sq, s, byWhite, occ)
  {
    var side := Side(p, byWhite);
    if PawnAttacks(!byWhite, sq) * (p.pawn * side) != {} {
      var s :| s in PawnAttacks(!byWhite, sq) * (p.pawn * side);
      assert s in side && FoundFrom(p, sq, s, byWhite, occ);
    } else if KnightAttacks(sq) * (p.knight * side) != {} {
      var s :| s in KnightAttacks(sq) * (p.knight * side);
      assert s in side && FoundFrom(p, sq, s, byWhite, occ);
    } else {
      var s :| s in KingAttacks(sq) * (p.king * side);
      assert s in side && FoundFrom(p, sq, s, byWhite, occ);
    }
  }

  /** A piece one of the lookups finds makes squareAttacked answer. */
  lemma FinderAttacks(t: SliderTables, sq: Square, byWhite: bool, p: Position, occ: Bitboard, s: Square)
    requires Exact(t) && s in Side(p, byWhite) && FoundFrom(p, sq, s, byWhite, occ)
    ensures SquareAttacked(t, sq, byWhite, p, occ)
  {
    var side := Side(p, byWhite);
    var bishopsLike, rooksLike := p.bishop * side + p.queen * side, p.rook * side + p.queen * side;
    if s in PawnAttacks(!byWhite, sq) && s in p.pawn {
      assert s in PawnAttacks(!byWhite, sq) * (p.pawn * side);
    } else if s in KnightAttacks(sq) && s in p.knight {
      assert s in KnightAttacks(sq) * (p.knight * side);
    } else if s in BishopRayCast(sq, occ) && (s in p.bishop || s in p.queen) {
      assert s in BishopAttacks(t, sq, occ) * bishopsLike;
    } else if s in RookRayCast(sq, occ) && (s in p.rook || s in p.queen) {
      assert s in RookAttacks(t, sq, occ) * rooksLike;
    } else {
      assert s in KingAttacks(sq) * (p.king * side);
    }
  }

  /**
   * On exact tables, squareAttacked holds exactly when some piece of the
   * side `byWhite` has `sq` in its own attack set over `occ`.
   */
  lemma SquareAttackedMeaning(t: SliderTables, sq: Square, byWhite: bool, p: Position, occ: Bitboard)
    requires Exact(t)
    ensures SquareAttacked(t, sq, byWhite, p, occ) <==>
      exists s :: s in Side(p, byWhite) && sq in AttacksOf(p, s, byWhite, occ)
  {
    SquareAttackedFinds(t, sq, byWhite, p, occ);
    forall s {
      AttackedBy(sq, s, byWhite, p, occ);
    }
  }
}
