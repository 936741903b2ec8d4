/**
 * The board's text forms (board.cpp): the piece-placement part of initFEN,
 * which reads the eight '/'-separated rank strings from rank 8 down to
 * rank 1, and toString, which prints one character per square from rank 8
 * down to rank 1 and file a to file h.
 */
module Fen {
  import opened Bitboards
  import opened Boards

  predicate IsDigit(c: char)
  {
    '0' <= c <= '9'
  }

  predicate IsUpper(c: char)
  {
    'A' <= c <= 'Z'
  }

  function ToLower(c: char): char
  {
    if IsUpper(c) then (c as int + 32) as char else c
  }

  function ToUpper(c: char): char
  {
    if 'a' <= c <= 'z' then (c as int - 32) as char else c
  }

  /** The letters of the six piece kinds, in both cases. */
  predicate IsPieceLetter(c: char)
  {
    c == 'p' || c == 'n' || c == 'b' || c == 'r' || c == 'q' || c == 'k' ||
    c == 'P' || c == 'N' || c == 'B' || c == 'R' || c == 'Q' || c == 'K'
  }

  /** The board initFEN starts from: no pieces, no half-moves, white to move, every castling right. */
  const EmptyBoard: Position := Position({}, {}, {}, {}, {}, {}, {}, {}, 0, true, true, true, true, true)

  /**
   * One character of a rank placed on `sq`: the white board for an upper
   * case letter and the black board otherwise, then the piece board its
   * lower case form names (none for any other character; only 'A' to 'Z'
   * have a different lower case form).
   */
  function Place(b: Position, sq: Square, c: char): Position
  {
    b.(white := if IsUpper(c) then b.white + {sq} else b.white,
       black := if IsUpper(c) then b.black else b.black + {sq},
       pawn := if c == 'p' || c == 'P' then b.pawn + {sq} else b.pawn,
       knight := if c == 'n' || c == 'N' then b.knight + {sq} else b.knight,
       bishop := if c == 'b' || c == 'B' then b.bishop + {sq} else b.bishop,
       rook := if c == 'r' || c == 'R' then b.rook + {sq} else b.rook,
       queen := if c == 'q' || c == 'Q' then b.queen + {sq} else b.queen,
       king := if c == 'k' || c == 'K' then b.king + {sq} else b.king)
  }

  /**
   * One pass of the inner loop at file `file` of rank string `r`: a digit
   * advances the file by its value, any other character is placed and
   * advances the file by one, except off the board, where it is skipped.
   */
  function Step(b: Position, r: int, file: int, c: char): (Position, int)
    requires 0 <= r < 8
  {
    if IsDigit(c) then (b, file + (c as int - '0' as int))
    else if file < 0 || file >= 8 then (b, file)
    else (Place(b, (7 - r) * 8 + file, c), file + 1)
  }

  /** The inner loop over rank string `r` from index `i` on, at file `file`. */
  function PlaceRank(b: Position, rank: string, r: int, i: nat, file: int): Position
    requires 0 <= r < 8 && i <= |rank|
    decreases |rank| - i
  {
    if i == |rank| then b
    else
      var next := Step(b, r, file, rank[i]);
      PlaceRank(next.0, rank, r, i + 1, next.1)
  }

  /** The outer loop: rank strings `n` to 7, the n-th one describing rank 8 - n. */
  function PlaceRanks(b: Position, ranks: seq<string>, n: nat): Position
    requires n <= 8 <= |ranks|
    decreases 8 - n
  {
    if n == 8 then b else PlaceRanks(PlaceRank(b, ranks[n], n, 0, 0), ranks, n + 1)
  }

  /** The position initFEN builds from the rank strings, the side-to-move field and the half-move count. */
  function FenPosition(ranks: seq<string>, side: string, halfMoves: int): Position
    requires |ranks| >= 8
  {
    PlaceRanks(EmptyBoard, ranks, 0).(whiteTurn := side == "w", halfMoves := halfMoves)
  }

  /**
   * initFEN from the split fields: `ranks` is the placement field split at
   * '/', `side` the second field, `halfMoves` the value of the fifth.
   */
  method InitFen(ranks: seq<string>, side: string, halfMoves: int) returns (board: Position)
    requires |ranks| >= 8
    ensures board == FenPosition(ranks, side, halfMoves)
  {
    board := EmptyBoard;
    for rankIndex := 0 to 8
      invariant PlaceRanks(board, ranks, rankIndex) == PlaceRanks(EmptyBoard, ranks, 0)
    {
      var rank := ranks[rankIndex];
      ghost var start := board;
      var file := 0;
      for i := 0 to |rank|
        invariant PlaceRank(board, rank, rankIndex, i, file) == PlaceRank(start, rank, rankIndex, 0, 0)
      {
        var c := rank[i];
        if IsDigit(c) {
          file := file + (c as int - '0' as int);
        } else if 0 <= file < 8 {
          board := Place(board, (7 - rankIndex) * 8 + file, c);
          file := file + 1;
        }
      }
    }
    board := board.(whiteTurn := side == "w", halfMoves := halfMoves);
  }

  // ---------------------------------------------------------------------
  // toString

  /** The character toString prints for `sq`: the first piece board holding it, upper case for white, '-' if none. */
  function SquareChar(p: Position, sq: Square): char
  {
    var ch := LowerChar(p, sq);
    if sq in p.white && ch != '-' then ToUpper(ch) else ch
  }

  /** The letter of the first piece board holding `sq`, in the order toString tests them, or '-'. */
  function LowerChar(p: Position, sq: Square): char
  {
    if sq in p.pawn then 'p' else if sq in p.knight then 'n' else if sq in p.bishop then 'b'
    else if sq in p.rook then 'r' else if sq in p.queen then 'q' else if sq in p.king then 'k' else '-'
  }

  /** The square printed at position `i` of the string: rank 8 first, files a to h within a rank. */
  function PrintedSquare(i: int): (sq: Square)
    requires 0 <= i < 64
    ensures RankOf(sq) == 7 - i / 8 && FileOf(sq) == i % 8
  {
    (7 - i / 8) * 8 + i % 8
  }

  /** The string toString returns. */
  function BoardString(p: Position): (s: string)
    ensures |s| == 64
  {
    seq(64, i requires 0 <= i < 64 => SquareChar(p, PrintedSquare(i)))
  }

  /** toString: rank 8 down to rank 1, file a to file h. */
  method ToString(p: Position) returns (output: string)
    ensures output == BoardString(p)
  {
    output := [];
    var rank := 7;
    while rank >= 0
      invariant -1 <= rank <= 7 && |output| == (7 - rank) * 8
      invariant forall i :: 0 <= i < |output| ==> output[i] == SquareChar(p, PrintedSquare(i))
    {
      for file := 0 to 8
        invariant |output| == (7 - rank) * 8 + file
        invariant forall i :: 0 <= i < |output| ==> output[i] == SquareChar(p, PrintedSquare(i))
      {
        var square := rank * 8 + file;
        var ch := '-';
        if square in p.pawn { ch := 'p'; }
        else if square in p.knight { ch := 'n'; }
        else if square in p.bishop { ch := 'b'; }
        else if square in p.rook { ch := 'r'; }
        else if square in p.queen { ch := 'q'; }
        else if square in p.king { ch := 'k'; }
        if square in p.white && ch != '-' {
          ch := ToUpper(ch);
        }
        assert PrintedSquare(|output|) == square;
        output := output + [ch];
      }
      rank := rank - 1;
    }
  }

  /**
   * What toString prints for a square: '-' exactly when no piece board
   * holds it, otherwise a piece letter, upper case exactly when the square
   * is white's; in a consistent position the letter names the one piece
   * board that holds the square.
   */
  lemma SquareCharMeaning(p: Position, sq: Square)
    ensures SquareChar(p, sq) == '-' <==> sq !in AllPieces(p)
    ensures sq in AllPieces(p) ==> IsPieceLetter(SquareChar(p, sq)) && (IsUpper(SquareChar(p, sq)) <==> sq in p.white)
    ensures Consistent(p) ==> forall k :: sq in Pieces(p, k) <==> ToLower(SquareChar(p, sq)) == Letter(k)
  {
    if Consistent(p) {
      forall k, k' | k != k' && sq in Pieces(p, k) ensures sq !in Pieces(p, k') {
        var both := Pieces(p, k) * Pieces(p, k');
        assert both == {};
        assert sq in Pieces(p, k') ==> sq in both;
      }
      assert ToLower(SquareChar(p, sq)) == LowerChar(p, sq);
      forall k ensures sq in Pieces(p, k) <==> LowerChar(p, sq) == Letter(k) {
        assert Pieces(p, Pawn) == p.pawn && Pieces(p, Knight) == p.knight && Pieces(p, Bishop) == p.bishop;
        assert Pieces(p, Rook) == p.rook && Pieces(p, Queen) == p.queen && Pieces(p, King) == p.king;
      }
    }
  }

  /** The lower case letter of a piece kind. */
  function Letter(k: PieceKind): char
  {
    match k
    case Pawn => 'p'
    case Knight => 'n'
    case Bishop => 'b'
    case Rook => 'r'
    case Queen => 'q'
    case King => 'k'
  }

  // ---------------------------------------------------------------------
  // What the placement means

  /** The squares a rank string stands for: a digit for that many empty squares ('-'), any other character for itself. */
  function Expand(rank: string): string
  {
    if rank == [] then [] else ExpandChar(rank[0]) + Expand(rank[1..])
  }

  function ExpandChar(c: char): string
  {
    if IsDigit(c) then Dashes(c as int - '0' as int) else [c]
  }

  function Dashes(n: nat): (d: string)
    ensures |d| == n && forall i :: 0 <= i < n ==> d[i] == '-'
  {
    seq(n, _ => '-')
  }

  /** A rank string made of piece letters and digits that stands for exactly eight squares. */
  predicate WellFormedRank(rank: string)
  {
    (forall i :: 0 <= i < |rank| ==> IsPieceLetter(rank[i]) || IsDigit(rank[i])) && |Expand(rank)| == 8
  }

  /** No board, colour or piece, holds `sq`. */
  predicate EmptyAt(b: Position, sq: Square)
  {
    sq !in b.white && sq !in b.black && sq !in AllPieces(b)
  }

  /**
   * Placing a piece letter on an empty square keeps the board invariants,
   * makes toString print that letter there and changes no other square.
   */
  lemma PlaceOnEmpty(b: Position, sq: Square, c: char)
    requires IsPieceLetter(c) && EmptyAt(b, sq) && Consistent(b)
    ensures Consistent(Place(b, sq, c)) && SquareChar(Place(b, sq, c), sq) == c
    ensures forall s: Square :: s != sq ==> SquareChar(Place(b, sq, c), s) == SquareChar(b, s)
    ensures forall s: Square :: s != sq ==> (EmptyAt(Place(b, sq, c), s) <==> EmptyAt(b, s))
  {
    PlaceConsistent(b, sq, c);
    PlaceCells(b, sq, c);
    PlaceEmpty(b, sq, c);
  }

  lemma PlaceConsistent(b: Position, sq: Square, c: char)
    requires IsPieceLetter(c) && EmptyAt(b, sq) && Consistent(b)
    ensures Consistent(Place(b, sq, c))
  {
    var q := Place(b, sq, c);
    PlaceAdds(b, sq, c);
    KindsStayDisjoint(b, q, sq, KindOfLetter(c));
    CoverStays(b, q, sq, KindOfLetter(c));
  }

  /** Adding an empty square to one colour board and one piece board keeps both covering the same squares. */
  lemma CoverStays(b: Position, q: Position, sq: Square, k: PieceKind)
    requires AllPieces(b) == b.white + b.black
    requires forall s :: s in q.white + q.black <==> s in b.white + b.black || s == sq
    requires forall k', s :: s in Pieces(q, k') <==> s in Pieces(b, k') || (k' == k && s == sq)
    ensures AllPieces(q) == q.white + q.black
  {
    forall s ensures s in AllPieces(q) <==> s in q.white + q.black {
      AllPiecesMembership(q, s);
      AllPiecesMembership(b, s);
      if s == sq {
        assert s in Pieces(q, k);
      }
    }
  }

  /** Adding an empty square to one piece board keeps the piece boards pairwise disjoint. */
  lemma KindsStayDisjoint(b: Position, q: Position, sq: Square, k: PieceKind)
    requires forall k1, k2 :: k1 != k2 ==> Pieces(b, k1) * Pieces(b, k2) == {}
    requires sq !in AllPieces(b)
    requires forall k', s :: s in Pieces(q, k') <==> s in Pieces(b, k') || (k' == k && s == sq)
    ensures forall k1, k2 :: k1 != k2 ==> Pieces(q, k1) * Pieces(q, k2) == {}
  {
    forall k1, k2 | k1 != k2 ensures Pieces(q, k1) * Pieces(q, k2) == {} {
      assert Pieces(b, k1) * Pieces(b, k2) == {};
      PiecesInAll(b, k1);
      PiecesInAll(b, k2);
      forall s | s in Pieces(q, k1) ensures s !in Pieces(q, k2) {
        assert s !in Pieces(b, k1) * Pieces(b, k2);
      }
    }
  }

  lemma PlaceCells(b: Position, sq: Square, c: char)
    requires IsPieceLetter(c) && EmptyAt(b, sq)
    ensures SquareChar(Place(b, sq, c), sq) == c
    ensures forall s: Square :: s != sq ==> SquareChar(Place(b, sq, c), s) == SquareChar(b, s)
  {
    var q := Place(b, sq, c);
    var k := KindOfLetter(c);
    PlaceAdds(b, sq, c);
    forall k' | k' != k ensures sq !in Pieces(q, k') {
      PiecesInAll(b, k');
    }
    LowerCharOnly(q, sq, k);
    if IsUpper(c) {
      UpperOfLower(c);
    }
    forall s: Square | s != sq ensures SquareChar(q, s) == SquareChar(b, s) {
      LowerCharSame(q, b, s);
    }
  }

  /** Placing any character on `sq` changes no other square. */
  lemma PlaceEmpty(b: Position, sq: Square, c: char)
    ensures forall s: Square :: s != sq ==> (EmptyAt(Place(b, sq, c), s) <==> EmptyAt(b, s))
  {
    forall s: Square | s != sq ensures EmptyAt(Place(b, sq, c), s) <==> EmptyAt(b, s) {
      AllPiecesMembership(Place(b, sq, c), s);
      AllPiecesMembership(b, s);
      PlaceElsewhere(b, sq, c, s);
    }
  }

  lemma PlaceElsewhere(b: Position, sq: Square, c: char, s: Square)
    requires s != sq
    ensures s in Place(b, sq, c).white <==> s in b.white
    ensures s in Place(b, sq, c).black <==> s in b.black
    ensures forall k :: s in Pieces(Place(b, sq, c), k) <==> s in Pieces(b, k)
  {
    forall k ensures s in Pieces(Place(b, sq, c), k) <==> s in Pieces(b, k) {
      match k {
        case Pawn =>
        case Knight =>
        case Bishop =>
        case Rook =>
        case Queen =>
        case King =>
      }
    }
  }

  lemma AllPiecesMembership(p: Position, s: Square)
    ensures s in AllPieces(p) <==> (s in Pieces(p, Pawn) || s in Pieces(p, Knight) || s in Pieces(p, Bishop) ||
                                   s in Pieces(p, Rook) || s in Pieces(p, Queen) || s in Pieces(p, King))
  {
  }

  /** A square on the board of kind `k` and on no other prints as that kind's letter (before case). */
  lemma LowerCharOnly(p: Position, sq: Square, k: PieceKind)
    requires sq in Pieces(p, k) && forall k' :: k' != k ==> sq !in Pieces(p, k')
    ensures LowerChar(p, sq) == Letter(k)
  {
    assert sq in Pieces(p, Pawn) <==> k == Pawn;
    assert sq in Pieces(p, Knight) <==> k == Knight;
    assert sq in Pieces(p, Bishop) <==> k == Bishop;
    assert sq in Pieces(p, Rook) <==> k == Rook;
    assert sq in Pieces(p, Queen) <==> k == Queen;
  }

  lemma LowerCharSame(p: Position, q: Position, s: Square)
    requires forall k :: s in Pieces(p, k) <==> s in Pieces(q, k)
    requires s in p.white <==> s in q.white
    ensures SquareChar(p, s) == SquareChar(q, s)
  {
    assert s in Pieces(p, Pawn) <==> s in Pieces(q, Pawn);
    assert s in Pieces(p, Knight) <==> s in Pieces(q, Knight);
    assert s in Pieces(p, Bishop) <==> s in Pieces(q, Bishop);
    assert s in Pieces(p, Rook) <==> s in Pieces(q, Rook);
    assert s in Pieces(p, Queen) <==> s in Pieces(q, Queen);
    assert s in Pieces(p, King) <==> s in Pieces(q, King);
  }

  lemma UpperOfLower(c: char)
    requires IsUpper(c)
    ensures ToUpper(ToLower(c)) == c
  {
  }

  /** The piece kind a piece letter names, in either case. */
  function KindOfLetter(c: char): PieceKind
    requires IsPieceLetter(c)
  {
    if c == 'p' || c == 'P' then Pawn
    else if c == 'n' || c == 'N' then Knight
    else if c == 'b' || c == 'B' then Bishop
    else if c == 'r' || c == 'R' then Rook
    else if c == 'q' || c == 'Q' then Queen
    else King
  }

  /** Placing a piece letter adds its square to its colour board and to the one piece board it names. */
  lemma PlaceAdds(b: Position, sq: Square, c: char)
    requires IsPieceLetter(c)
    ensures forall s :: s in Place(b, sq, c).white <==> s in b.white || (IsUpper(c) && s == sq)
    ensures forall s :: s in Place(b, sq, c).black <==> s in b.black || (!IsUpper(c) && s == sq)
    ensures forall k, s :: s in Pieces(Place(b, sq, c), k) <==> s in Pieces(b, k) || (k == KindOfLetter(c) && s == sq)
  {
    forall k ensures Pieces(Place(b, sq, c), k) == if k == KindOfLetter(c) then Pieces(b, k) + {sq} else Pieces(b, k) {
      PlaceAddsTo(b, sq, c, k);
    }
  }

  lemma PlaceAddsTo(b: Position, sq: Square, c: char, k: PieceKind)
    requires IsPieceLetter(c)
    ensures Pieces(Place(b, sq, c), k) == if k == KindOfLetter(c) then Pieces(b, k) + {sq} else Pieces(b, k)
  {
    match k {
      case Pawn =>
      case Knight =>
      case Bishop =>
      case Rook =>
      case Queen =>
      case King =>
    }
  }

  lemma PiecesInAll(b: Position, k: PieceKind)
    ensures Pieces(b, k) <= AllPieces(b)
  {
  }

  /**
   * A letter that names no piece still sets the colour bit of its square,
   * so the position no longer satisfies the board invariants.
   */
  lemma UnknownLetterBreaksConsistency(b: Position, sq: Square, c: char)
    requires !IsPieceLetter(c) && EmptyAt(b, sq)
    ensures !Consistent(Place(b, sq, c))
  {
    var q := Place(b, sq, c);
    assert sq in q.white + q.black && sq !in AllPieces(q);
  }

  /** The row of rank string `r` is empty from file `file` on. */
  predicate RowEmptyFrom(b: Position, r: int, file: int)
  {
    forall s: Square :: RankOf(s) == 7 - r && file <= FileOf(s) ==> EmptyAt(b, s)
  }

  /**
   * One pass on an empty part of the row, for a piece letter or a digit that
   * fits before file h: the file advances by the squares the character
   * stands for, the row is still empty from there, its expansion is
   * printed, the board invariants are kept and other rows stay as they were.
   */
  lemma StepPrints(b: Position, r: int, file: int, c: char)
    requires 0 <= r < 8 && 0 <= file && file + |ExpandChar(c)| <= 8
    requires IsPieceLetter(c) || IsDigit(c)
    requires RowEmptyFrom(b, r, file)
    ensures Step(b, r, file, c).1 == file + |ExpandChar(c)|
    ensures RowEmptyFrom(Step(b, r, file, c).0, r, file + |ExpandChar(c)|)
    ensures RowPrinted(Step(b, r, file, c).0, b, 7 - r, file, ExpandChar(c))
    ensures Consistent(b) ==> Consistent(Step(b, r, file, c).0)
  {
    if IsDigit(c) {
      StepPrintsDigit(b, r, file, c);
    } else {
      StepPrintsLetter(b, r, file, c);
    }
  }

  lemma StepPrintsDigit(b: Position, r: int, file: int, c: char)
    requires 0 <= r < 8 && IsDigit(c)
    requires RowEmptyFrom(b, r, file)
    ensures Step(b, r, file, c) == (b, file + |ExpandChar(c)|)
    ensures RowPrinted(b, b, 7 - r, file, ExpandChar(c))
  {
    EmptyRowPrintsDashes(b, 7 - r, file, c as int - '0' as int);
  }

  lemma StepPrintsLetter(b: Position, r: int, file: int, c: char)
    requires 0 <= r < 8 && 0 <= file < 8 && IsPieceLetter(c)
    requires RowEmptyFrom(b, r, file)
    ensures Step(b, r, file, c) == (Place(b, Sq(7 - r, file), c), file + |ExpandChar(c)|)
    ensures RowEmptyFrom(Place(b, Sq(7 - r, file), c), r, file + 1)
    ensures RowPrinted(Place(b, Sq(7 - r, file), c), b, 7 - r, file, ExpandChar(c))
    ensures Consistent(b) ==> Consistent(Place(b, Sq(7 - r, file), c))
  {
    PlacePrintsInRow(b, r, file, c);
  }

  lemma PlacePrintsInRow(b: Position, r: int, file: int, c: char)
    requires 0 <= r < 8 && 0 <= file < 8 && IsPieceLetter(c)
    requires RowEmptyFrom(b, r, file)
    ensures RowEmptyFrom(Place(b, Sq(7 - r, file), c), r, file + 1)
    ensures RowPrinted(Place(b, Sq(7 - r, file), c), b, 7 - r, file, [c])
    ensures Consistent(b) ==> Consistent(Place(b, Sq(7 - r, file), c))
  {
    var sq := Sq(7 - r, file);
    PlacePrintsLetter(b, sq, c);
    PlaceEmpty(b, sq, c);
    if Consistent(b) {
      PlaceConsistent(b, sq, c);
    }
  }

  /** One pass leaves the empty squares of other rows empty. */
  lemma StepOtherRows(b: Position, r: int, file: int, c: char)
    requires 0 <= r < 8
    ensures forall s: Square :: RankOf(s) != 7 - r && EmptyAt(b, s) ==> EmptyAt(Step(b, r, file, c).0, s)
  {
    var next := Step(b, r, file, c).0;
    if IsDigit(c) || file < 0 || file >= 8 {
      assert next == b;
    } else {
      assert next == Place(b, Sq(7 - r, file), c);
      PlaceOtherRows(b, r, file, c);
    }
  }

  lemma PlaceOtherRows(b: Position, r: int, file: int, c: char)
    requires 0 <= r < 8 && 0 <= file < 8
    ensures forall s: Square :: RankOf(s) != 7 - r && EmptyAt(b, s) ==> EmptyAt(Place(b, Sq(7 - r, file), c), s)
  {
    PlaceEmpty(b, Sq(7 - r, file), c);
  }

  /**
   * The inner loop on a rank whose rest stands for squares that fit before
   * file h, over a row that is empty from `file` on: it prints the expanded
   * characters from `file` on in its row, leaves every other square as it
   * was and keeps the board invariants.
   */
  lemma {:induction false} PlaceRankCells(b: Position, rank: string, r: int, i: nat, file: int)
    requires 0 <= r < 8 && i <= |rank|
    requires forall j :: i <= j < |rank| ==> IsPieceLetter(rank[j]) || IsDigit(rank[j])
    requires 0 <= file && file + |Expand(rank[i..])| <= 8
    requires RowEmptyFrom(b, r, file)
    ensures RowPrinted(PlaceRank(b, rank, r, i, file), b, 7 - r, file, Expand(rank[i..]))
    ensures Consistent(b) ==> Consistent(PlaceRank(b, rank, r, i, file))
    decreases |rank| - i
  {
    if i == |rank| {
      assert rank[i..] == [];
    } else {
      var next := Step(b, r, file, rank[i]);
      ExpandStep(rank, i);
      StepPrints(b, r, file, rank[i]);
      PlaceRankCells(next.0, rank, r, i + 1, next.1);
      RowPrintedThen(PlaceRank(b, rank, r, i, file), next.0, b, 7 - r, file, next.1, ExpandChar(rank[i]), Expand(rank[i + 1..]));
    }
  }

  lemma PlacePrintsLetter(b: Position, sq: Square, c: char)
    requires IsPieceLetter(c) && EmptyAt(b, sq)
    ensures RowPrinted(Place(b, sq, c), b, RankOf(sq), FileOf(sq), [c])
  {
    PlaceCells(b, sq, c);
    forall s: Square ensures (SquareChar(Place(b, sq, c), s) ==
      if RankOf(s) == RankOf(sq) && FileOf(sq) <= FileOf(s) < FileOf(sq) + 1 then [c][FileOf(s) - FileOf(sq)] else SquareChar(b, s))
    {
      SqOfCoords(s);
      SqOfCoords(sq);
    }
  }

  lemma EmptyRowPrintsDashes(b: Position, row: int, file: int, d: nat)
    requires forall s: Square :: RankOf(s) == row && file <= FileOf(s) ==> EmptyAt(b, s)
    ensures RowPrinted(b, b, row, file, Dashes(d))
  {
    forall s: Square | RankOf(s) == row && file <= FileOf(s) < file + d ensures SquareChar(b, s) == '-' {
      EmptyChar(b, s);
    }
  }

  /** `q` prints as `b` except that row `row` shows `e` from file `file` on. */
  ghost predicate RowPrinted(q: Position, b: Position, row: int, file: int, e: string)
  {
    forall s: Square :: (SquareChar(q, s) ==
      if RankOf(s) == row && file <= FileOf(s) < file + |e| then e[FileOf(s) - file] else SquareChar(b, s))
  }

  /** Printing `e1` and then `e2` right after it prints `e1 + e2`. */
  lemma RowPrintedThen(q: Position, m: Position, b: Position, row: int, file: int, mid: int, e1: string, e2: string)
    requires mid == file + |e1| && RowPrinted(q, m, row, mid, e2)
    requires RowPrinted(m, b, row, file, e1)
    ensures RowPrinted(q, b, row, file, e1 + e2)
  {
  }

  /** The inner loop leaves the empty squares of other rows empty. */
  lemma {:induction false} PlaceRankOtherRows(b: Position, rank: string, r: int, i: nat, file: int)
    requires 0 <= r < 8 && i <= |rank|
    ensures forall s: Square :: RankOf(s) != 7 - r && EmptyAt(b, s) ==> EmptyAt(PlaceRank(b, rank, r, i, file), s)
    decreases |rank| - i
  {
    if i < |rank| {
      var next := Step(b, r, file, rank[i]);
      StepOtherRows(b, r, file, rank[i]);
      PlaceRankOtherRows(next.0, rank, r, i + 1, next.1);
    }
  }

  lemma EmptyChar(b: Position, s: Square)
    requires EmptyAt(b, s)
    ensures SquareChar(b, s) == '-'
  {
    AllPiecesMembership(b, s);
  }

  lemma ExpandStep(rank: string, i: nat)
    requires i < |rank|
    ensures Expand(rank[i..]) == ExpandChar(rank[i]) + Expand(rank[i + 1..])
  {
    assert rank[i..][1..] == rank[i + 1..];
  }

  /**
   * The outer loop from rank string `n` on, on a board whose rows still to
   * be filled are empty: rank string r is printed in row 7 - r, rows done
   * before are unchanged, and the board invariants hold.
   */
  lemma {:induction false} PlaceRanksCells(b: Position, ranks: seq<string>, n: nat)
    requires n <= 8 <= |ranks|
    requires forall r :: n <= r < 8 ==> WellFormedRank(ranks[r])
    requires Consistent(b)
    requires forall s: Square :: RankOf(s) <= 7 - n ==> EmptyAt(b, s)
    ensures Consistent(PlaceRanks(b, ranks, n))
    ensures forall r :: n <= r < 8 ==> |Expand(ranks[r])| == 8
    ensures forall s: Square :: (SquareChar(PlaceRanks(b, ranks, n), s) ==
      if RankOf(s) <= 7 - n then Expand(ranks[7 - RankOf(s)])[FileOf(s)] else SquareChar(b, s))
    decreases 8 - n
  {
    if n < 8 {
      assert ranks[n][0..] == ranks[n];
      PlaceRankCells(b, ranks[n], n, 0, 0);
      PlaceRankOtherRows(b, ranks[n], n, 0, 0);
      PlaceRanksCells(PlaceRank(b, ranks[n], n, 0, 0), ranks, n + 1);
    }
  }

  /** The expanded rank strings 0 to n - 1, one after the other. */
  function Joined(ranks: seq<string>, n: nat): string
    requires n <= |ranks|
  {
    if n == 0 then [] else Joined(ranks, n - 1) + Expand(ranks[n - 1])
  }

  lemma {:induction false} JoinedIndex(ranks: seq<string>, n: nat)
    requires n <= |ranks| && forall r :: 0 <= r < n ==> |Expand(ranks[r])| == 8
    ensures |Joined(ranks, n)| == 8 * n
    ensures forall r, f :: 0 <= r < n && 0 <= f < 8 ==> Joined(ranks, n)[8 * r + f] == Expand(ranks[r])[f]
  {
    if n > 0 {
      JoinedIndex(ranks, n - 1);
      var front := Joined(ranks, n - 1);
      var last := Expand(ranks[n - 1]);
      assert Joined(ranks, n) == front + last;
      forall r, f | 0 <= r < n && 0 <= f < 8 ensures (front + last)[8 * r + f] == Expand(ranks[r])[f] {
        if r < n - 1 {
          assert (front + last)[8 * r + f] == front[8 * r + f];
        } else {
          assert (front + last)[8 * r + f] == last[f];
        }
      }
    }
  }

  /**
   * initFEN on eight well-formed rank strings: the position satisfies the
   * board invariants, toString prints exactly the placement with digits
   * expanded to '-' and the '/' separators dropped, the side to move is
   * white exactly when the side field is "w", the half-move count is the
   * one given and every castling right is kept.
   */
  lemma FenPlacement(ranks: seq<string>, side: string, halfMoves: int)
    requires |ranks| >= 8 && forall r :: 0 <= r < 8 ==> WellFormedRank(ranks[r])
    ensures Consistent(FenPosition(ranks, side, halfMoves))
    ensures BoardString(FenPosition(ranks, side, halfMoves)) == Joined(ranks, 8)
    ensures FenPosition(ranks, side, halfMoves).whiteTurn <==> side == "w"
    ensures FenPosition(ranks, side, halfMoves).halfMoves == halfMoves
    ensures var p := FenPosition(ranks, side, halfMoves);
      p.whiteCastleKingside && p.whiteCastleQueenside && p.blackCastleKingside && p.blackCastleQueenside
  {
    var q := PlaceRanks(EmptyBoard, ranks, 0);
    EmptyBoardEmpty();
    PlaceRanksCells(EmptyBoard, ranks, 0);
    PlaceRanksKeepState(EmptyBoard, ranks, 0);
    var p := FenPosition(ranks, side, halfMoves);
    ConsistentIgnoresState(q, p);
    PlacedString(ranks, q, p);
  }

  lemma EmptyBoardEmpty()
    ensures Consistent(EmptyBoard) && forall s: Square :: EmptyAt(EmptyBoard, s)
  {
    forall k ensures Pieces(EmptyBoard, k) == {} {
      match k {
        case Pawn =>
        case Knight =>
        case Bishop =>
        case Rook =>
        case Queen =>
        case King =>
      }
    }
  }

  /** The fields other than the boards: the half-move count, the side to move and the castling rights. */
  predicate SameState(p: Position, q: Position)
  {
    p.halfMoves == q.halfMoves && p.whiteTurn == q.whiteTurn &&
    p.whiteCastleKingside == q.whiteCastleKingside && p.whiteCastleQueenside == q.whiteCastleQueenside &&
    p.blackCastleKingside == q.blackCastleKingside && p.blackCastleQueenside == q.blackCastleQueenside
  }

  /** The placement loops change only the boards. */
  lemma {:induction false} PlaceRankKeepsState(b: Position, rank: string, r: int, i: nat, file: int)
    requires 0 <= r < 8 && i <= |rank|
    ensures SameState(PlaceRank(b, rank, r, i, file), b)
    decreases |rank| - i
  {
    if i < |rank| {
      var next := Step(b, r, file, rank[i]);
      PlaceRankKeepsState(next.0, rank, r, i + 1, next.1);
    }
  }

  lemma {:induction false} PlaceRanksKeepState(b: Position, ranks: seq<string>, n: nat)
    requires n <= 8 <= |ranks|
    ensures SameState(PlaceRanks(b, ranks, n), b)
    decreases 8 - n
  {
    if n < 8 {
      PlaceRankKeepsState(b, ranks[n], n, 0, 0);
      PlaceRanksKeepState(PlaceRank(b, ranks[n], n, 0, 0), ranks, n + 1);
    }
  }

  /** The eight boards are the same. */
  predicate SameBoards(p: Position, q: Position)
  {
    p.white == q.white && p.black == q.black && p.pawn == q.pawn && p.knight == q.knight &&
    p.bishop == q.bishop && p.rook == q.rook && p.queen == q.queen && p.king == q.king
  }

  lemma ConsistentIgnoresState(q: Position, p: Position)
    requires Consistent(q) && SameBoards(p, q)
    ensures Consistent(p)
  {
    assert forall k :: Pieces(p, k) == Pieces(q, k) by {
      forall k ensures Pieces(p, k) == Pieces(q, k) {
        match k {
          case Pawn =>
          case Knight =>
          case Bishop =>
          case Rook =>
          case Queen =>
          case King =>
        }
      }
    }
  }

  /** A board that prints every rank string in its row prints as the rank strings joined. */
  lemma PlacedString(ranks: seq<string>, q: Position, p: Position)
    requires |ranks| >= 8 && forall r :: 0 <= r < 8 ==> |Expand(ranks[r])| == 8
    requires forall s: Square :: SquareChar(q, s) == Expand(ranks[7 - RankOf(s)])[FileOf(s)]
    requires SameBoards(p, q)
    ensures BoardString(p) == Joined(ranks, 8)
  {
    JoinedIndex(ranks, 8);
    forall i | 0 <= i < 64 ensures BoardString(p)[i] == Joined(ranks, 8)[i] {
      var sq := PrintedSquare(i);
      assert SquareChar(p, sq) == SquareChar(q, sq);
      assert i == 8 * (i / 8) + i % 8;
    }
  }
}
