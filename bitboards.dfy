/**
 * Squares, bitboards and board geometry.
 *
 * A square is `rank * 8 + file`, so a1 = 0 and h8 = 63. A 64-bit mask is
 * modelled as the set of the bit positions it holds; the mask operations of
 * the engine map onto set operations exactly:
 *   `a & b` is `a * b`, `a | b` is `a + b`, `a & ~b` is `a - b`,
 *   `1ULL << s` is `{s}`, `x << n` is `Shl(x, n)` and `x >> n` is `Shr(x, n)`
 *   (bits pushed past either end are lost, as in unsigned 64-bit shifts),
 *   `popcount(x)` is `|x|` and `countr_zero(x)` is `Lsb(x)`.
 */
module Bitboards {

  type Square = s: int | 0 <= s < 64

  type Bitboard = set<Square>

  datatype Option<T> = None | Some(value: T)

  function RankOf(s: Square): int
  {
    s / 8
  }

  function FileOf(s: Square): int
  {
    s % 8
  }

  predicate OnBoard(r: int, f: int) { 0 <= r < 8 && 0 <= f < 8 }

  /** The square on rank `r` and file `f`. */
  function Sq(r: int, f: int): (s: Square)
    requires OnBoard(r, f)
    ensures RankOf(s) == r && FileOf(s) == f
  {
    r * 8 + f
  }

  lemma SqOfCoords(s: Square)
    ensures OnBoard(RankOf(s), FileOf(s)) && Sq(RankOf(s), FileOf(s)) == s
  {
  }

  const AllSquares: Bitboard := set s: Square | 0 <= s < 64

  /** FILE_A = 0x0101010101010101, FILE_H = 0x8080808080808080. */
  const FileA: Bitboard := set s: Square | FileOf(s) == 0
  const FileH: Bitboard := set s: Square | FileOf(s) == 7
  /** RANK_1 = 0xFF, RANK_8 = 0xFF00000000000000. */
  const Rank1: Bitboard := set s: Square | RankOf(s) == 0
  const Rank8: Bitboard := set s: Square | RankOf(s) == 7

  /** `x << n` on a 64-bit mask: bits moved past square 63 are lost. */
  function Shl(b: Bitboard, n: nat): Bitboard
  {
    set x | x in b && x + n < 64 :: (x + n) as Square
  }

  /** `x >> n` on a 64-bit mask: bits moved below square 0 are lost. */
  function Shr(b: Bitboard, n: nat): Bitboard
  {
    set x | x in b && x - n >= 0 :: (x - n) as Square
  }

  lemma ShlBit(s: Square, n: nat, t: Square)
    ensures t in Shl({s}, n) <==> t == s + n
  {
    if t == s + n { assert s in {s} && s + n < 64; }
  }

  lemma ShrBit(s: Square, n: nat, t: Square)
    ensures t in Shr({s}, n) <==> t == s - n
  {
    if t == s - n { assert s in {s} && s - n >= 0; }
  }

  lemma ShiftEmpty(n: nat)
    ensures Shl({}, n) == {} && Shr({}, n) == {}
  {
  }

  /** A single bit meets a mask exactly when the mask holds it. */
  lemma BitMeets(s: Square, m: Bitboard)
    ensures {s} * m == {} <==> s !in m
    ensures {s} - m == (if s in m then {} else {s})
    ensures {s} * m == (if s in m then {s} else {})
  {
    if s in m { assert s in {s} * m; }
  }

  /** Moving a square by `a` ranks and `b` files, when that stays on the board, adds `8a + b`. */
  lemma Displace(s: Square, t: Square, a: int, b: int)
    ensures OnBoard(RankOf(s) + a, FileOf(s) + b) ==>
      (t == s + 8 * a + b <==> RankOf(t) == RankOf(s) + a && FileOf(t) == FileOf(s) + b)
  {
    if OnBoard(RankOf(s) + a, FileOf(s) + b) {
      assert Sq(RankOf(s) + a, FileOf(s) + b) == s + 8 * a + b;
    }
  }

  /** FILE_B = FILE_A << 1, FILE_G = FILE_H >> 1, RANK_2 = RANK_1 << 8, RANK_7 = RANK_1 << 48. */
  const FileB: Bitboard := Shl(FileA, 1)
  const FileG: Bitboard := Shr(FileH, 1)
  const Rank2: Bitboard := Shl(Rank1, 8)
  const Rank7: Bitboard := Shl(Rank1, 48)

  /** The derived masks are the files and ranks their names say. */
  lemma DerivedMasks(s: Square)
    ensures s in FileB <==> FileOf(s) == 1
    ensures s in FileG <==> FileOf(s) == 6
    ensures s in Rank2 <==> RankOf(s) == 1
    ensures s in Rank7 <==> RankOf(s) == 6
  {
    if FileOf(s) == 1 { assert (s - 1) as Square in FileA; }
    if FileOf(s) == 6 { assert (s + 1) as Square in FileH; }
    if RankOf(s) == 1 { assert (s - 8) as Square in Rank1; }
    if RankOf(s) == 6 { assert (s - 48) as Square in Rank1; }
  }

  function Pow2(n: nat): (r: nat)
    ensures r >= 1
  {
    if n == 0 then 1 else 2 * Pow2(n - 1)
  }

  lemma {:induction false} Pow2Add(a: nat, b: nat)
    ensures Pow2(a + b) == Pow2(a) * Pow2(b)
  {
    if a > 0 {
      Pow2Add(a - 1, b);
      assert Pow2(a + b) == 2 * Pow2(a - 1 + b);
    }
  }

  const TwoTo64: nat := 0x1_0000_0000_0000_0000

  lemma Pow2Is64()
    ensures Pow2(64) == TwoTo64
  {
    assert Pow2(2) == 4;
    Pow2Add(2, 2);
    assert Pow2(4) == 16;
    Pow2Add(4, 4);
    assert Pow2(8) == 256;
    Pow2Add(8, 8);
    assert Pow2(16) == 0x1_0000;
    Pow2Add(16, 16);
    assert Pow2(32) == 0x1_0000_0000;
    Pow2Add(32, 32);
  }

  /** The unsigned integer whose set bits at positions >= k are those of `b`. */
  function ValueFrom(b: Bitboard, k: nat): nat
    decreases 64 - k
  {
    if k >= 64 then 0 else (if k in b then Pow2(k) else 0) + ValueFrom(b, k + 1)
  }

  /** The 64-bit unsigned integer a bitboard stands for. */
  function Value(b: Bitboard): nat
  {
    ValueFrom(b, 0)
  }

  function LsbFrom(b: Bitboard, k: Square): (s: Square)
    requires exists t :: t in b && t >= k
    ensures s in b && s >= k && forall t :: t in b && t >= k ==> s <= t
    decreases 64 - k
  {
    if k in b then k else LsbFrom(b, k + 1)
  }

  /** `countr_zero(b)` for a non-empty mask: its lowest set square. */
  function Lsb(b: Bitboard): (s: Square)
    requires b != {}
    ensures s in b && forall t :: t in b ==> s <= t
  {
    LsbFrom(b, 0)
  }

  /**
   * popLSB: returns the lowest set square of `b` and clears it. The source
   * updates its argument in place (`b &= b - 1`); here the cleared mask is
   * the second result. Every caller calls it only on a non-empty mask.
   */
  method PopLsb(b: Bitboard) returns (s: Square, rest: Bitboard)
    requires b != {}
    ensures s in b && (forall t :: t in b ==> s <= t)
    ensures rest == b - {s} && |rest| == |b| - 1
  {
    s := Lsb(b);
    rest := b - {s};
  }

  /** The squares of `b` in increasing order: the order repeated popLSB visits them. */
  function Squares(b: Bitboard): seq<Square>
    decreases |b|
  {
    if b == {} then [] else [Lsb(b)] + Squares(b - {Lsb(b)})
  }

  predicate Increasing(bits: seq<Square>)
  {
    forall i, j :: 0 <= i < j < |bits| ==> bits[i] < bits[j]
  }

  lemma {:induction false} SquaresOrdered(b: Bitboard)
    ensures |Squares(b)| == |b|
    ensures forall t :: t in b <==> t in Squares(b)
    ensures Increasing(Squares(b))
    decreases |b|
  {
    if b != {} {
      var l := Lsb(b);
      SquaresOrdered(b - {l});
      SquaresConsSize(b, l, Squares(b - {l}));
      SquaresConsMembers(b, l, Squares(b - {l}));
      SquaresConsIncreasing(b, l, Squares(b - {l}));
    }
  }

  lemma SquaresConsSize(b: Bitboard, l: Square, rest: seq<Square>)
    requires b != {} && l == Lsb(b) && rest == Squares(b - {l})
    requires |rest| == |b - {l}|
    ensures |Squares(b)| == |b|
  {
    assert Squares(b) == [l] + rest;
  }
  lemma SquaresConsMembers(b: Bitboard, l: Square, rest: seq<Square>)
    requires b != {} && l == Lsb(b) && rest == Squares(b - {l})
    requires forall t :: t in b - {l} <==> t in rest
    ensures forall t :: t in b <==> t in Squares(b)
  {
    assert Squares(b) == [l] + rest;
  }
  lemma SquaresConsIncreasing(b: Bitboard, l: Square, rest: seq<Square>)
    requires b != {} && l == Lsb(b) && rest == Squares(b - {l})
    requires forall t :: t in b - {l} <==> t in rest
    requires Increasing(rest)
    ensures Increasing(Squares(b))
  {
    var all := Squares(b);
    assert all == [l] + rest;
    forall i, j | 0 <= i < j < |all| ensures all[i] < all[j] {
      assert all[j] == rest[j - 1];
      assert rest[j - 1] in b - {l};
      if i > 0 {
        assert all[i] == rest[i - 1];
      }
    }
  }

  /** The lowest square of a mask is the only member below all others. */
  lemma LsbUnique(b: Bitboard, s: Square)
    requires s in b && forall t :: t in b ==> s <= t
    ensures s == Lsb(b)
  {
  }

  lemma SquaresUnfold(b: Bitboard, s: Square)
    requires b != {} && s == Lsb(b)
    ensures Squares(b) == [s] + Squares(b - {s})
  {
  }

  /** A mask with exactly one bit set is that bit. */
  lemma {:induction false} SingletonIsLsb(b: Bitboard)
    requires |b| == 1
    ensures b == {Lsb(b)}
  {
    var s := Lsb(b);
    assert |b - {s}| == 0;
    assert b - {s} == {};
  }

  // ---------------------------------------------------------------------
  // Rays: the eight directions a slider moves along.

  datatype Direction = North | South | East | West | NorthEast | NorthWest | SouthEast | SouthWest

  predicate Orthogonal(d: Direction)
  {
    d.North? || d.South? || d.East? || d.West?
  }

  function RankStep(d: Direction): int
  {
    match d
    case North => 1
    case NorthEast => 1
    case NorthWest => 1
    case South => -1
    case SouthEast => -1
    case SouthWest => -1
    case _ => 0
  }

  function FileStep(d: Direction): int
  {
    match d
    case East => 1
    case NorthEast => 1
    case SouthEast => 1
    case West => -1
    case NorthWest => -1
    case SouthWest => -1
    case _ => 0
  }

  function Opposite(d: Direction): Direction
  {
    match d
    case North => South
    case South => North
    case East => West
    case West => East
    case NorthEast => SouthWest
    case SouthWest => NorthEast
    case NorthWest => SouthEast
    case SouthEast => NorthWest
  }

  /** `x` moved `k` steps by `step`, one of -1, 0, 1. */
  function Offset(x: int, step: int, k: int): int
  {
    if step > 0 then x + k else if step < 0 then x - k else x
  }

  /** The square `k` steps from `s` towards `d` is on the board. */
  predicate HasTarget(s: Square, d: Direction, k: int)
  {
    OnBoard(Offset(RankOf(s), RankStep(d), k), Offset(FileOf(s), FileStep(d), k))
  }

  /** The square `k` steps from `s` towards `d`. */
  function Target(s: Square, d: Direction, k: int): Square
    requires HasTarget(s, d, k)
  {
    Sq(Offset(RankOf(s), RankStep(d), k), Offset(FileOf(s), FileStep(d), k))
  }

  /** A ray has no holes: if step k is on the board, so is every step before it. */
  lemma TargetsBefore(s: Square, d: Direction, k: int, j: int)
    requires HasTarget(s, d, k) && 0 <= j <= k
    ensures HasTarget(s, d, j)
  {
  }

  /** No diagonal or orthogonal step of length >= 1 comes back to its origin, or leaves the board after 7. */
  lemma TargetAway(s: Square, d: Direction, k: int)
    requires HasTarget(s, d, k) && k >= 1
    ensures Target(s, d, k) != s && k <= 7
  {
  }

  /**
   * The squares a slider on `s` reaches towards `d`, from step `k` on: every
   * square up to and including the first occupied one, or up to the edge.
   */
  function RayFrom(s: Square, d: Direction, occ: Bitboard, k: nat): Bitboard
    decreases 8 - k
  {
    if k >= 8 || !HasTarget(s, d, k) then {}
    else {Target(s, d, k)} + (if Target(s, d, k) in occ then {} else RayFrom(s, d, occ, k + 1))
  }

  /** One step of the ray walk. */
  lemma RayFromStep(s: Square, d: Direction, occ: Bitboard, k: nat)
    requires k < 8 && HasTarget(s, d, k)
    ensures RayFrom(s, d, occ, k) == {Target(s, d, k)} + (if Target(s, d, k) in occ then {} else RayFrom(s, d, occ, k + 1))
  {
  }

  function Ray(s: Square, d: Direction, occ: Bitboard): Bitboard
  {
    RayFrom(s, d, occ, 1)
  }

  /** Every step strictly before step `k` is on the board and empty. */
  predicate ClearBefore(s: Square, d: Direction, occ: Bitboard, k: int)
  {
    forall j :: 1 <= j < k ==> HasTarget(s, d, j) && Target(s, d, j) !in occ
  }

  lemma {:induction false} RayFromMembership(s: Square, d: Direction, occ: Bitboard, k: nat, t: Square)
    requires k >= 1 && ClearBefore(s, d, occ, k)
    ensures t in RayFrom(s, d, occ, k) <==>
      exists i :: k <= i < 8 && HasTarget(s, d, i) && Target(s, d, i) == t && ClearBefore(s, d, occ, i)
    decreases 8 - k
  {
    if k >= 8 || !HasTarget(s, d, k) {
      RayFromOffBoard(s, d, occ, k, t);
    } else if Target(s, d, k) in occ {
      RayFromBlocked(s, d, occ, k, t);
    } else {
      assert ClearBefore(s, d, occ, k + 1);
      RayFromMembership(s, d, occ, k + 1, t);
      RayFromStep(s, d, occ, k);
      RayFromClear(s, d, occ, k, t);
    }
  }

  /** Past the edge no step of the ray is on the board. */
  lemma RayFromOffBoard(s: Square, d: Direction, occ: Bitboard, k: nat, t: Square)
    requires k >= 8 || !HasTarget(s, d, k)
    ensures RayFrom(s, d, occ, k) == {}
    ensures !exists i :: k <= i < 8 && HasTarget(s, d, i) && Target(s, d, i) == t && ClearBefore(s, d, occ, i)
  {
    forall i | k <= i < 8 && HasTarget(s, d, i) ensures false {
      TargetsBefore(s, d, i, k);
    }
  }

  /** At an occupied step the ray stops: later steps are not clear. */
  lemma RayFromBlocked(s: Square, d: Direction, occ: Bitboard, k: nat, t: Square)
    requires k >= 1 && k < 8 && HasTarget(s, d, k) && Target(s, d, k) in occ && ClearBefore(s, d, occ, k)
    ensures RayFrom(s, d, occ, k) == {Target(s, d, k)}
    ensures (t == Target(s, d, k)) <==>
      exists i :: k <= i < 8 && HasTarget(s, d, i) && Target(s, d, i) == t && ClearBefore(s, d, occ, i)
  {
    forall i | k < i < 8 && HasTarget(s, d, i) && Target(s, d, i) == t ensures !ClearBefore(s, d, occ, i) {
      assert !(HasTarget(s, d, k) && Target(s, d, k) !in occ);
    }
    if t == Target(s, d, k) {
      assert k <= k < 8 && HasTarget(s, d, k) && Target(s, d, k) == t && ClearBefore(s, d, occ, k);
    }
  }

  /** At an empty step the ray goes on: step `k` joins the steps from `k + 1`. */
  lemma RayFromClear(s: Square, d: Direction, occ: Bitboard, k: nat, t: Square)
    requires k >= 1 && k < 8 && HasTarget(s, d, k) && Target(s, d, k) !in occ && ClearBefore(s, d, occ, k)
    ensures (t == Target(s, d, k) ||
      exists i :: k + 1 <= i < 8 && HasTarget(s, d, i) && Target(s, d, i) == t && ClearBefore(s, d, occ, i)) <==>
      exists i :: k <= i < 8 && HasTarget(s, d, i) && Target(s, d, i) == t && ClearBefore(s, d, occ, i)
  {
    if t == Target(s, d, k) {
      assert k <= k < 8 && HasTarget(s, d, k) && Target(s, d, k) == t && ClearBefore(s, d, occ, k);
    }
  }

  /**
   * The ray cast: `t` is reached exactly when it is some step `i` of the ray
   * and every step before it is empty. So the first occupied square is
   * included and nothing beyond it.
   */
  lemma RayMembership(s: Square, d: Direction, occ: Bitboard, t: Square)
    ensures t in Ray(s, d, occ) <==>
      exists i :: 1 <= i < 8 && HasTarget(s, d, i) && Target(s, d, i) == t && ClearBefore(s, d, occ, i)
  {
    RayFromMembership(s, d, occ, 1, t);
  }

  /** The origin is never on its own ray. */
  lemma {:induction false} RayFromExcludesOrigin(s: Square, d: Direction, occ: Bitboard, k: nat)
    requires k >= 1
    ensures s !in RayFrom(s, d, occ, k)
    decreases 8 - k
  {
    if k < 8 && HasTarget(s, d, k) {
      TargetAway(s, d, k);
      RayFromExcludesOrigin(s, d, occ, k + 1);
    }
  }

  /** Only the squares strictly before the last on-board step decide where a ray stops. */
  lemma {:induction false} RayFromDependsOnInterior(s: Square, d: Direction, occ: Bitboard, occ': Bitboard, k: nat)
    requires k >= 1
    requires forall j :: k <= j < 8 && HasTarget(s, d, j + 1) ==> (Target(s, d, j) in occ <==> Target(s, d, j) in occ')
    ensures RayFrom(s, d, occ, k) == RayFrom(s, d, occ', k)
    decreases 8 - k
  {
    if k < 8 && HasTarget(s, d, k) {
      RayFromDependsOnInterior(s, d, occ, occ', k + 1);
      if !HasTarget(s, d, k + 1) {
        assert k + 1 >= 8 || !HasTarget(s, d, k + 1);
        assert RayFrom(s, d, occ, k + 1) == {} == RayFrom(s, d, occ', k + 1);
      }
    }
  }

  /** Walking `j` steps back from step `i` lands on step `i - j`. */
  lemma TargetBack(s: Square, d: Direction, i: int, j: int)
    requires HasTarget(s, d, i) && 0 <= j <= i
    ensures HasTarget(Target(s, d, i), Opposite(d), j)
    ensures Target(Target(s, d, i), Opposite(d), j) == Target(s, d, i - j)
  {
    TargetsBefore(s, d, i, i - j);
  }

  lemma RayReachesBack(s: Square, d: Direction, occ: Bitboard, t: Square)
    requires t in Ray(s, d, occ)
    ensures s in Ray(t, Opposite(d), occ)
  {
    RayMembership(s, d, occ, t);
    var i :| 1 <= i < 8 && HasTarget(s, d, i) && Target(s, d, i) == t && ClearBefore(s, d, occ, i);
    TargetBack(s, d, i, i);
    SqOfCoords(s);
    assert Target(t, Opposite(d), i) == s;
    forall j | 1 <= j < i
      ensures HasTarget(t, Opposite(d), j) && Target(t, Opposite(d), j) !in occ
    {
      TargetBack(s, d, i, j);
    }
    RayMembership(t, Opposite(d), occ, s);
  }

  /**
   * Rays are symmetric: a slider on `s` looking towards `d` sees `t` exactly
   * when a slider on `t` looking back sees `s`, over the same occupancy.
   */
  lemma RaySymmetric(s: Square, d: Direction, occ: Bitboard, t: Square)
    ensures t in Ray(s, d, occ) <==> s in Ray(t, Opposite(d), occ)
  {
    if s in Ray(t, Opposite(d), occ) {
      RayReachesBack(t, Opposite(d), occ, s);
      assert Opposite(Opposite(d)) == d;
    }
    if t in Ray(s, d, occ) {
      RayReachesBack(s, d, occ, t);
    }
  }
}
