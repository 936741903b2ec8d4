/**
 * The board state of board.hpp and the move application of board.cpp:
 * moves and their flags, the Board fields as a Position value, the Board
 * object that makeMove and unmakeMove change in place, and the undo stack.
 */
module Boards {
  import opened Bitboards

  // ---------------------------------------------------------------------
  // Moves (MoveFlag, Move)

  const Quiet: bv8 := 0
  const Capture: bv8 := 1
  const DoublePush: bv8 := 2
  const EnPassant: bv8 := 4
  const Castle: bv8 := 8
  const Promotion: bv8 := 16

  /** The non-quiet flags in declaration order. */
  const Flags: seq<bv8> := [Capture, DoublePush, EnPassant, Castle, Promotion]

  /**
   * Every flag is one bit and no two share it, so an OR of two flags keeps
   * both and tests positive for no third one.
   */
  lemma FlagsAreSingleBits(i: int, j: int, k: int)
    requires 0 <= i < |Flags| && 0 <= j < |Flags| && 0 <= k < |Flags|
    ensures Flags[i] != 0 && Flags[i] & (Flags[i] - 1) == 0
    ensures i != j ==> Flags[i] & Flags[j] == 0
    ensures (Flags[i] | Flags[j]) & Flags[k] != 0 <==> k == i || k == j
  {
  }

  datatype Move = Move(from: Square, to: Square, flags: bv8)

  predicate IsCapture(m: Move)
  {
    m.flags & Capture != 0
  }

  // ---------------------------------------------------------------------
  // Positions (the fields of Board)

  datatype PieceKind = Pawn | Knight | Bishop | Rook | Queen | King

  datatype Position = Position(
    white: Bitboard, black: Bitboard,
    pawn: Bitboard, bishop: Bitboard, knight: Bitboard, rook: Bitboard, king: Bitboard, queen: Bitboard,
    halfMoves: int, whiteTurn: bool,
    whiteCastleKingside: bool, whiteCastleQueenside: bool,
    blackCastleKingside: bool, blackCastleQueenside: bool)

  function Pieces(p: Position, k: PieceKind): Bitboard
  {
    match k
    case Pawn => p.pawn
    case Knight => p.knight
    case Bishop => p.bishop
    case Rook => p.rook
    case Queen => p.queen
    case King => p.king
  }

  /** currentOccupied: the pieces of the side to move. */
  function Own(p: Position): Bitboard
  {
    if p.whiteTurn then p.white else p.black
  }

  /** nextOccupied: the pieces of the side not to move. */
  function Enemy(p: Position): Bitboard
  {
    if p.whiteTurn then p.black else p.white
  }

  function Occupied(p: Position): Bitboard
  {
    p.white + p.black
  }

  function AllPieces(p: Position): Bitboard
  {
    p.pawn + p.knight + p.bishop + p.rook + p.queen + p.king
  }

  /**
   * The board invariants: the six piece boards are pairwise disjoint, the
   * colour boards are disjoint, and both cover the same squares.
   */
  predicate Consistent(p: Position)
  {
    (forall k: PieceKind, k': PieceKind :: k != k' ==> Pieces(p, k) * Pieces(p, k') == {}) &&
    p.white * p.black == {} &&
    AllPieces(p) == p.white + p.black
  }

  /** The piece board makeMove moves: the first of pawn, knight, bishop, rook, queen, king holding `from`. */
  function MoverOf(p: Position, from: Square): (k: Option<PieceKind>)
    ensures k.Some? <==> from in AllPieces(p)
    ensures k.Some? ==> from in Pieces(p, k.value)
  {
    if from in p.pawn then Some(Pawn)
    else if from in p.knight then Some(Knight)
    else if from in p.bishop then Some(Bishop)
    else if from in p.rook then Some(Rook)
    else if from in p.queen then Some(Queen)
    else if from in p.king then Some(King)
    else None
  }

  // ---------------------------------------------------------------------
  // Move application (makeMove), as a function of the position before it

  /** The mover's boards: `from` cleared, `to` set. */
  function Lift(b: Bitboard, m: Move): Bitboard
  {
    b - {m.from} + {m.to}
  }

  /** Every other board: `to` cleared when the move captures. */
  function Drop(b: Bitboard, m: Move): Bitboard
  {
    if IsCapture(m) then b - {m.to} else b
  }

  function Moved(p: Position, m: Move, k: PieceKind, b: Bitboard): Bitboard
    requires MoverOf(p, m.from).Some?
  {
    if MoverOf(p, m.from).value == k then Lift(b, m) else Drop(b, m)
  }

  /** The position makeMove leaves behind. */
  function Apply(p: Position, m: Move): (q: Position)
    requires MoverOf(p, m.from).Some?
    ensures q.whiteTurn == !p.whiteTurn
  {
    Position(
      white := if p.whiteTurn then Lift(p.white, m) else Drop(p.white, m),
      black := if p.whiteTurn then Drop(p.black, m) else Lift(p.black, m),
      pawn := Moved(p, m, Pawn, p.pawn),
      bishop := Moved(p, m, Bishop, p.bishop),
      knight := Moved(p, m, Knight, p.knight),
      rook := Moved(p, m, Rook, p.rook),
      king := Moved(p, m, King, p.king),
      queen := Moved(p, m, Queen, p.queen),
      halfMoves := p.halfMoves, whiteTurn := !p.whiteTurn,
      whiteCastleKingside := p.whiteCastleKingside, whiteCastleQueenside := p.whiteCastleQueenside,
      blackCastleKingside := p.blackCastleKingside, blackCastleQueenside := p.blackCastleQueenside)
  }

  /**
   * What makeMove does: the mover's piece board and colour board gain `to`
   * and lose `from`; on a capture `to` leaves the enemy colour board and
   * every other piece board; the turn passes; nothing else changes.
   */
  lemma ApplyEffects(p: Position, m: Move, k: PieceKind)
    requires MoverOf(p, m.from).Some? && m.from != m.to
    ensures var q := Apply(p, m);
      var mover := MoverOf(p, m.from).value;
      m.to in Pieces(q, mover) && m.from !in Pieces(q, mover) &&
      m.to in Enemy(q) && m.from !in Enemy(q) &&
      (IsCapture(m) ==> m.to !in Own(q) && (k != mover ==> m.to !in Pieces(q, k))) &&
      (forall s :: s != m.from && s != m.to ==>
        (s in Pieces(q, k) <==> s in Pieces(p, k)) && (s in Own(q) <==> s in Enemy(p)) && (s in Enemy(q) <==> s in Own(p))) &&
      (!IsCapture(m) && k != mover ==> Pieces(q, k) == Pieces(p, k)) &&
      q.whiteTurn == !p.whiteTurn && q.halfMoves == p.halfMoves &&
      q.whiteCastleKingside == p.whiteCastleKingside && q.whiteCastleQueenside == p.whiteCastleQueenside &&
      q.blackCastleKingside == p.blackCastleKingside && q.blackCastleQueenside == p.blackCastleQueenside
  {
  }

  /**
   * The conditions every generated move meets: a piece of the side to move
   * stands on `from`, `to` is not one of its own pieces, and a move onto an
   * enemy piece carries the Capture flag.
   */
  predicate Playable(p: Position, m: Move)
  {
    m.from in Own(p) && m.to !in Own(p) && (m.to in Enemy(p) ==> IsCapture(m))
  }

  /** makeMove keeps the board invariants for every playable move. */
  lemma ApplyKeepsConsistent(p: Position, m: Move)
    requires Consistent(p) && Playable(p, m)
    ensures MoverOf(p, m.from).Some?
    ensures Consistent(Apply(p, m))
  {
    var q := Apply(p, m);
    forall k: PieceKind, k': PieceKind | k != k' ensures Pieces(q, k) * Pieces(q, k') == {} {
      ApplyKindsDisjoint(p, m, k, k');
    }
    assert q.white * q.black == {};
    forall s ensures s in AllPieces(q) <==> s in q.white + q.black {
      ApplyCoversSquare(p, m, s);
    }
  }

  /** After makeMove two different piece boards still share no square. */
  lemma ApplyKindsDisjoint(p: Position, m: Move, k: PieceKind, k': PieceKind)
    requires Consistent(p) && Playable(p, m) && k != k'
    ensures MoverOf(p, m.from).Some?
    ensures Pieces(Apply(p, m), k) * Pieces(Apply(p, m), k') == {}
  {
    var mover := MoverOf(p, m.from).value;
    ApplyPieces(p, m, k);
    ApplyPieces(p, m, k');
    assert Pieces(p, k) * Pieces(p, k') == {};
    if k == mover || k' == mover {
      var other := if k == mover then k' else k;
      assert m.to !in Drop(Pieces(p, other), m) by {
        if !IsCapture(m) {
          assert m.to !in Enemy(p);
          assert m.to !in AllPieces(p);
          assert m.to !in Pieces(p, other);
        }
      }
      assert m.from !in Pieces(p, other) by {
        assert Pieces(p, mover) * Pieces(p, other) == {};
      }
    }
  }

  /** Each piece board after makeMove, by kind. */
  lemma ApplyPieces(p: Position, m: Move, k: PieceKind)
    requires MoverOf(p, m.from).Some?
    ensures Pieces(Apply(p, m), k) == Moved(p, m, k, Pieces(p, k))
  {
    match k
    case Pawn => case Knight => case Bishop => case Rook => case Queen => case King =>
  }

  /** After makeMove a square holds a piece exactly when it holds a colour. */
  lemma ApplyCoversSquare(p: Position, m: Move, s: Square)
    requires Consistent(p) && Playable(p, m)
    ensures MoverOf(p, m.from).Some?
    ensures s in AllPieces(Apply(p, m)) <==> s in Apply(p, m).white + Apply(p, m).black
  {
    var q := Apply(p, m);
    var mover := MoverOf(p, m.from).value;
    if s != m.from && s != m.to {
      assert s in q.white + q.black <==> s in p.white + p.black;
      assert s in AllPieces(q) <==> s in AllPieces(p);
    } else if s == m.to {
      assert m.to in Pieces(q, mover);
      assert s in AllPieces(q);
      assert s in q.white + q.black;
    } else {
      assert s !in q.white + q.black;
      forall k: PieceKind ensures s !in Pieces(q, k) {
        if k != mover {
          assert Pieces(p, mover) * Pieces(p, k) == {};
        }
      }
      assert s !in Pieces(q, Pawn) && s !in Pieces(q, Knight) && s !in Pieces(q, Bishop);
      assert s !in Pieces(q, Rook) && s !in Pieces(q, Queen) && s !in Pieces(q, King);
    }
  }

  // ---------------------------------------------------------------------
  // The Board object and the undo stack (makeMove, unmakeMove)

  /** std::stack<Board>: copies of earlier boards, newest last. */
  class UndoStack {
    var items: seq<Position>

    constructor()
      ensures items == []
    {
      items := [];
    }

    method Push(p: Position)
      modifies this
      ensures items == old(items) + [p]
    {
      items := items + [p];
    }

    function Top(): Position
      reads this
      requires items != []
    {
      items[|items| - 1]
    }

    method Pop()
      requires items != []
      modifies this
      ensures items == old(items)[..|old(items)| - 1]
    {
      items := items[..|items| - 1];
    }
  }

  class Board {
    var white: Bitboard
    var black: Bitboard
    var pawn: Bitboard
    var bishop: Bitboard
    var knight: Bitboard
    var rook: Bitboard
    var king: Bitboard
    var queen: Bitboard
    var halfMoves: int
    var whiteTurn: bool
    var whiteCastleKingside: bool
    var whiteCastleQueenside: bool
    var blackCastleKingside: bool
    var blackCastleQueenside: bool

    function Snapshot(): Position
      reads this
    {
      Position(white, black, pawn, bishop, knight, rook, king, queen, halfMoves, whiteTurn,
        whiteCastleKingside, whiteCastleQueenside, blackCastleKingside, blackCastleQueenside)
    }

    constructor(p: Position)
      ensures Snapshot() == p
    {
      white, black := p.white, p.black;
      pawn, bishop, knight, rook, king, queen := p.pawn, p.bishop, p.knight, p.rook, p.king, p.queen;
      halfMoves, whiteTurn := p.halfMoves, p.whiteTurn;
      whiteCastleKingside, whiteCastleQueenside := p.whiteCastleKingside, p.whiteCastleQueenside;
      blackCastleKingside, blackCastleQueenside := p.blackCastleKingside, p.blackCastleQueenside;
    }

    /** `*this = other`, the eight boards first and then the rest. */
    method Assign(p: Position)
      modifies this
      ensures Snapshot() == p
    {
      AssignBoards(p);
      halfMoves := p.halfMoves;
      whiteTurn := p.whiteTurn;
      whiteCastleKingside := p.whiteCastleKingside;
      whiteCastleQueenside := p.whiteCastleQueenside;
      blackCastleKingside := p.blackCastleKingside;
      blackCastleQueenside := p.blackCastleQueenside;
    }

    method AssignBoards(p: Position)
      modifies this`white, this`black, this`pawn, this`bishop, this`knight, this`rook, this`king, this`queen
      ensures white == p.white && black == p.black
      ensures pawn == p.pawn && bishop == p.bishop && knight == p.knight
      ensures rook == p.rook && king == p.king && queen == p.queen
    {
      white := p.white;
      black := p.black;
      pawn := p.pawn;
      bishop := p.bishop;
      knight := p.knight;
      rook := p.rook;
      king := p.king;
      queen := p.queen;
    }

    /** The piece board `mover` points at. */
    function Board(k: PieceKind): (b: Bitboard)
      reads this`pawn, this`knight, this`bishop, this`rook, this`queen, this`king
      ensures b == Pieces(Snapshot(), k)
    {
      match k
      case Pawn => pawn
      case Knight => knight
      case Bishop => bishop
      case Rook => rook
      case Queen => queen
      case King => king
    }

    /** `*mover = b`. */
    method SetBoard(k: PieceKind, b: Bitboard)
      modifies this`pawn, this`knight, this`bishop, this`rook, this`queen, this`king
      ensures Snapshot() == WithPieces(old(Snapshot()), k, b)
    {
      match k
      case Pawn => pawn := b;
      case Knight => knight := b;
      case Bishop => bishop := b;
      case Rook => rook := b;
      case Queen => queen := b;
      case King => king := b;
    }

    /** `(white_turn ? white : black) = b`. */
    method SetOwn(b: Bitboard)
      modifies this`white, this`black
      ensures Snapshot() == WithOwn(old(Snapshot()), b)
    {
      if whiteTurn {
        white := b;
      } else {
        black := b;
      }
    }

    /** `*mover ^= move_board` and the same on the mover's colour board. */
    method ToggleMover(k: PieceKind, moveBoard: Bitboard)
      modifies this`white, this`black, this`pawn, this`knight, this`bishop, this`rook, this`queen, this`king
      ensures Snapshot() == Toggled(old(Snapshot()), k, moveBoard)
    {
      SetBoard(k, Toggle(Board(k), moveBoard));
      SetOwn(Toggle(if whiteTurn then white else black, moveBoard));
    }

    /** The capture branch of makeMove: `to` leaves the enemy colour and every piece board. */
    method ClearCaptured(toBoard: Bitboard)
      modifies this`white, this`black, this`pawn, this`knight, this`bishop, this`rook, this`queen, this`king
      ensures Snapshot() == Cleared(old(Snapshot()), toBoard)
    {
      if whiteTurn {
        black := black - toBoard;
      } else {
        white := white - toBoard;
      }
      ClearPieces(toBoard);
    }

    method ClearPieces(toBoard: Bitboard)
      modifies this`pawn, this`knight, this`bishop, this`rook, this`queen, this`king
      ensures pawn == old(pawn) - toBoard && knight == old(knight) - toBoard && bishop == old(bishop) - toBoard
      ensures rook == old(rook) - toBoard && queen == old(queen) - toBoard && king == old(king) - toBoard
    {
      pawn := pawn - toBoard;
      knight := knight - toBoard;
      bishop := bishop - toBoard;
      rook := rook - toBoard;
      queen := queen - toBoard;
      king := king - toBoard;
    }

    /** `*mover &= ~from_board; *mover |= to_board` and the same on the mover's colour board. */
    method PlaceMover(k: PieceKind, fromBoard: Bitboard, toBoard: Bitboard)
      modifies this`white, this`black, this`pawn, this`knight, this`bishop, this`rook, this`queen, this`king
      ensures Snapshot() == Placed(old(Snapshot()), k, fromBoard, toBoard)
    {
      SetBoard(k, Board(k) - fromBoard);
      SetBoard(k, Board(k) + toBoard);
      if whiteTurn {
        SetOwn(white - fromBoard);
        SetOwn(white + toBoard);
      } else {
        SetOwn(black - fromBoard);
        SetOwn(black + toBoard);
      }
    }

    /** The `mover` search of makeMove: the first piece board holding `from`. */
    method FindMover(from: Square) returns (mover: PieceKind)
      requires MoverOf(Snapshot(), from).Some?
      ensures MoverOf(Snapshot(), from) == Some(mover)
    {
      if from in pawn {
        mover := Pawn;
      } else if from in knight {
        mover := Knight;
      } else if from in bishop {
        mover := Bishop;
      } else if from in rook {
        mover := Rook;
      } else if from in queen {
        mover := Queen;
      } else {
        mover := King;
      }
    }

    /** The board updates of makeMove once the mover is known. */
    method Play(move: Move, mover: PieceKind)
      modifies this`white, this`black, this`pawn, this`knight, this`bishop, this`rook, this`queen, this`king, this`whiteTurn
      ensures Snapshot() == Staged(old(Snapshot()), move, mover)
    {
      var fromBoard: Bitboard := {move.from};
      var toBoard: Bitboard := {move.to};
      var moveBoard := fromBoard + toBoard;
      ToggleMover(mover, moveBoard);
      if move.flags & Capture != 0 {
        ClearCaptured(toBoard);
      }
      PlaceMover(mover, fromBoard, toBoard);
      whiteTurn := !whiteTurn;
    }

    /**
     * makeMove: save the board, toggle `from` and `to` on the mover's piece
     * and colour boards, clear `to` everywhere else on a capture, make sure
     * `from` is clear and `to` set on the mover's boards, and pass the turn.
     * The source asserts that some piece board holds `from`.
     */
    method MakeMove(move: Move, undo: UndoStack)
      requires MoverOf(Snapshot(), move.from).Some?
      modifies this, undo
      ensures undo.items == old(undo.items) + [old(Snapshot())]
      ensures Snapshot() == Apply(old(Snapshot()), move)
    {
      undo.Push(Snapshot());
      var mover := FindMover(move.from);
      MakeMoveStages(Snapshot(), move, mover);
      Play(move, mover);
    }

    /** unmakeMove: restore the board saved on top of the stack and pop it. */
    method UnmakeMove(undo: UndoStack)
      requires undo.items != []
      modifies this, undo
      ensures Snapshot() == old(undo.Top())
      ensures undo.items == old(undo.items)[..|old(undo.items)| - 1]
    {
      Assign(undo.Top());
      undo.Pop();
    }

    /** Making a move and unmaking it restores the board and the undo stack. */
    method MakeUnmakeRestores(move: Move, undo: UndoStack)
      requires MoverOf(Snapshot(), move.from).Some?
      modifies this, undo
      ensures Snapshot() == old(Snapshot())
      ensures undo.items == old(undo.items)
    {
      MakeMove(move, undo);
      UnmakeMove(undo);
      assert (old(undo.items) + [old(Snapshot())])[..|old(undo.items)|] == old(undo.items);
    }
  }

  /** `a ^ b` on masks. */
  function Toggle(a: Bitboard, b: Bitboard): Bitboard
  {
    (a - b) + (b - a)
  }

  /** Everything but the boards is the same in `p` and `q`. */
  predicate SameFlags(p: Position, q: Position)
  {
    q.halfMoves == p.halfMoves && q.whiteTurn == p.whiteTurn &&
    q.whiteCastleKingside == p.whiteCastleKingside && q.whiteCastleQueenside == p.whiteCastleQueenside &&
    q.blackCastleKingside == p.blackCastleKingside && q.blackCastleQueenside == p.blackCastleQueenside
  }

  /** The position with piece board `k` replaced by `b`. */
  function WithPieces(p: Position, k: PieceKind, b: Bitboard): (q: Position)
    ensures Pieces(q, k) == b
    ensures forall k' :: k' != k ==> Pieces(q, k') == Pieces(p, k')
    ensures q.white == p.white && q.black == p.black && SameFlags(p, q)
  {
    match k
    case Pawn => p.(pawn := b)
    case Knight => p.(knight := b)
    case Bishop => p.(bishop := b)
    case Rook => p.(rook := b)
    case Queen => p.(queen := b)
    case King => p.(king := b)
  }

  /** The position with the mover's colour board replaced by `b`. */
  function WithOwn(p: Position, b: Bitboard): (q: Position)
    ensures Own(q) == b && Enemy(q) == Enemy(p)
    ensures forall k :: Pieces(q, k) == Pieces(p, k)
    ensures SameFlags(p, q)
  {
    if p.whiteTurn then p.(white := b) else p.(black := b)
  }

  /** The position with `to` cleared from the enemy colour board and from every piece board. */
  function Cleared(p: Position, toBoard: Bitboard): (q: Position)
    ensures Own(q) == Own(p) && Enemy(q) == Enemy(p) - toBoard
    ensures forall k :: Pieces(q, k) == Pieces(p, k) - toBoard
    ensures SameFlags(p, q)
  {
    var q := p.(pawn := p.pawn - toBoard, knight := p.knight - toBoard, bishop := p.bishop - toBoard,
      rook := p.rook - toBoard, queen := p.queen - toBoard, king := p.king - toBoard);
    if p.whiteTurn then q.(black := p.black - toBoard) else q.(white := p.white - toBoard)
  }

  /** After the toggle stage: `*mover ^= move_board` and the colour toggle. */
  function Toggled(p: Position, k: PieceKind, moveBoard: Bitboard): Position
  {
    WithOwn(WithPieces(p, k, Toggle(Pieces(p, k), moveBoard)), Toggle(Own(p), moveBoard))
  }

  /** After the final stage: `from` cleared and `to` set on the mover's piece and colour boards. */
  function Placed(p: Position, k: PieceKind, fromBoard: Bitboard, toBoard: Bitboard): Position
  {
    var c1 := WithPieces(p, k, Pieces(p, k) - fromBoard);
    var c2 := WithPieces(c1, k, Pieces(c1, k) + toBoard);
    var c3 := WithOwn(c2, Own(c2) - fromBoard);
    WithOwn(c3, Own(c3) + toBoard)
  }

  /** The stages of makeMove in order. */
  function Staged(p: Position, m: Move, k: PieceKind): Position
  {
    var toggled := Toggled(p, k, {m.from} + {m.to});
    var captured := if IsCapture(m) then Cleared(toggled, {m.to}) else toggled;
    var placed := Placed(captured, k, {m.from}, {m.to});
    placed.(whiteTurn := !placed.whiteTurn)
  }

  /**
   * The three stages of makeMove (toggle, capture clearing, final clear and
   * set on the mover's boards), followed by the turn change, add up to Apply.
   */
  lemma MakeMoveStages(p: Position, m: Move, mover: PieceKind)
    requires MoverOf(p, m.from) == Some(mover)
    ensures Staged(p, m, mover) == Apply(p, m)
  {
    var q := Staged(p, m, mover);
    var r := Apply(p, m);
    StagedPieces(p, m, mover, Pawn);
    StagedPieces(p, m, mover, Knight);
    StagedPieces(p, m, mover, Bishop);
    StagedPieces(p, m, mover, Rook);
    StagedPieces(p, m, mover, Queen);
    StagedPieces(p, m, mover, King);
    StagedColours(p, m, mover);
    assert SameFlags(p, q.(whiteTurn := p.whiteTurn));
  }

  lemma StagedPieces(p: Position, m: Move, mover: PieceKind, k: PieceKind)
    requires MoverOf(p, m.from) == Some(mover)
    ensures Pieces(Staged(p, m, mover), k) == Pieces(Apply(p, m), k)
  {
    assert Pieces(Staged(p, m, mover), k) == Steps(Pieces(p, k), k == mover, m);
    StepsClosedForm(Pieces(p, k), k == mover, m);
  }

  lemma StagedColours(p: Position, m: Move, mover: PieceKind)
    requires MoverOf(p, m.from) == Some(mover)
    ensures Staged(p, m, mover).white == if p.whiteTurn then Lift(p.white, m) else Drop(p.white, m)
    ensures Staged(p, m, mover).black == if p.whiteTurn then Drop(p.black, m) else Lift(p.black, m)
  {
    var mb := {m.from} + {m.to};
    var t := Toggled(p, mover, mb);
    ToggledColours(p, mover, mb);
    var c := if IsCapture(m) then Cleared(t, {m.to}) else t;
    assert Own(c) == Toggle(Own(p), mb) && Enemy(c) == Drop(Enemy(p), m) && c.whiteTurn == p.whiteTurn;
    var pl := Placed(c, mover, {m.from}, {m.to});
    PlacedColours(c, mover, {m.from}, {m.to});
    StepsClosedForm(Own(p), true, m);
    assert Own(pl) == Lift(Own(p), m);
    assert Staged(p, m, mover) == pl.(whiteTurn := !p.whiteTurn);
  }

  /** The toggle stage toggles the mover's colour board and leaves the enemy's. */
  lemma ToggledColours(p: Position, k: PieceKind, moveBoard: Bitboard)
    ensures Own(Toggled(p, k, moveBoard)) == Toggle(Own(p), moveBoard)
    ensures Enemy(Toggled(p, k, moveBoard)) == Enemy(p)
    ensures Toggled(p, k, moveBoard).whiteTurn == p.whiteTurn
  {
  }

  /** The final stage moves the mover's colour board and leaves the enemy's. */
  lemma PlacedColours(p: Position, k: PieceKind, fromBoard: Bitboard, toBoard: Bitboard)
    ensures Own(Placed(p, k, fromBoard, toBoard)) == Own(p) - fromBoard + toBoard
    ensures Enemy(Placed(p, k, fromBoard, toBoard)) == Enemy(p)
    ensures Placed(p, k, fromBoard, toBoard).whiteTurn == p.whiteTurn
  {
  }

  /** makeMove's steps on one piece board, which is the mover's (`moving`) or not. */
  function Steps(b: Bitboard, moving: bool, m: Move): Bitboard
  {
    SetStep(CaptureStep(ToggleStep(b, moving, m), m), moving, m)
  }

  /** makeMove's steps on one colour board, which is the mover's (`moving`) or not. */
  function ColourSteps(b: Bitboard, moving: bool, m: Move): Bitboard
  {
    if moving then SetStep(ToggleStep(b, true, m), true, m) else CaptureStep(b, m)
  }

  /** `*mover ^= moveBoard` and the colour toggle. */
  function ToggleStep(b: Bitboard, moving: bool, m: Move): Bitboard
  {
    if moving then Toggle(b, {m.from} + {m.to}) else b
  }

  /** `&= ~toBoard` on a capture. */
  function CaptureStep(b: Bitboard, m: Move): Bitboard
  {
    if IsCapture(m) then b - {m.to} else b
  }

  /** `&= ~fromBoard` and `|= toBoard` on the mover's boards. */
  function SetStep(b: Bitboard, moving: bool, m: Move): Bitboard
  {
    if moving then b - {m.from} + {m.to} else b
  }

  lemma StepsClosedForm(b: Bitboard, moving: bool, m: Move)
    ensures Steps(b, moving, m) == if moving then Lift(b, m) else Drop(b, m)
    ensures ColourSteps(b, moving, m) == if moving then Lift(b, m) else Drop(b, m)
  {
  }
}
