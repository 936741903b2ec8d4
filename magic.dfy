/**
 * Magic bitboards for the sliding pieces: the relevant-occupancy masks, the
 * reference ray casts, the enumeration of blocker subsets, the acceptance
 * test for a candidate multiplier, the layout of the shared attack table
 * and the O(1) lookup.
 *
 * The engine draws candidate multipliers from a seeded random generator and
 * retries until one is accepted; here the candidates for each square are an
 * input list, tried in order.
 */
module Magic {
  import opened Bitboards

  // ---------------------------------------------------------------------
  // Reference ray casts (rookAttacksSlow, bishopAttacksSlow)

  /** The squares a rook on `s` attacks: up, down, right and left, each up to the first blocker. */
  function RookRayCast(s: Square, occ: Bitboard): Bitboard
  {
    Ray(s, North, occ) + Ray(s, South, occ) + Ray(s, East, occ) + Ray(s, West, occ)
  }

  /** The squares a bishop on `s` attacks along the four diagonals. */
  function BishopRayCast(s: Square, occ: Bitboard): Bitboard
  {
    Ray(s, NorthEast, occ) + Ray(s, NorthWest, occ) + Ray(s, SouthEast, occ) + Ray(s, SouthWest, occ)
  }

  /** The loop variables of a ray walk at step `k` name the square `Target(sq, d, k)`, and one more step gives step `k + 1`. */
  lemma StepAt(sq: Square, d: Direction, k: int)
    requires k >= 1
    requires OnBoard(Offset(RankOf(sq), RankStep(d), k), Offset(FileOf(sq), FileStep(d), k))
    ensures HasTarget(sq, d, k) && k < 8
    ensures Offset(RankOf(sq), RankStep(d), k) * 8 + Offset(FileOf(sq), FileStep(d), k) == Target(sq, d, k)
    ensures Offset(RankOf(sq), RankStep(d), k) + RankStep(d) == Offset(RankOf(sq), RankStep(d), k + 1)
    ensures Offset(FileOf(sq), FileStep(d), k) + FileStep(d) == Offset(FileOf(sq), FileStep(d), k + 1)
  {
    TargetAway(sq, d, k);
  }

  /**
   * One of the four for-loops of the slow attack functions: step from the
   * square towards `d` while on the board, adding each square and stopping
   * after the first occupied one. The walk is counted in steps `k`; the
   * square of step `k` is the one the source computes as `rr * 8 + ff`.
   */
  method CastRay(sq: Square, d: Direction, occ: Bitboard, a0: Bitboard) returns (a: Bitboard)
    ensures a == a0 + Ray(sq, d, occ)
  {
    var k := 1;
    ghost var whole := Ray(sq, d, occ);
    var ray: Bitboard := {};
    while k < 8 && HasTarget(sq, d, k)
      invariant 1 <= k <= 8
      invariant ray + RayFrom(sq, d, occ, k) == whole
      decreases 8 - k
    {
      var s := Target(sq, d, k);
      if s in occ {
        CastHit(sq, d, occ, k, ray, whole);
        ray := ray + {s};
        break;
      }
      CastMove(sq, d, occ, k, ray, whole);
      ray := ray + {s};
      k := k + 1;
    }
    if k >= 8 || !HasTarget(sq, d, k) {
      CastEnd(sq, d, occ, k, ray);
    }
    a := a0 + ray;
  }

  /** The square of step `k` is occupied: adding it completes the ray. */
  lemma CastHit(sq: Square, d: Direction, occ: Bitboard, k: nat, a: Bitboard, whole: Bitboard)
    requires k < 8 && HasTarget(sq, d, k) && Target(sq, d, k) in occ
    requires a + RayFrom(sq, d, occ, k) == whole
    ensures a + {Target(sq, d, k)} == whole
  {
    RayFromStep(sq, d, occ, k);
  }

  /** The square of step `k` is empty: the walk goes on to step `k + 1`. */
  lemma CastMove(sq: Square, d: Direction, occ: Bitboard, k: nat, a: Bitboard, whole: Bitboard)
    requires k < 8 && HasTarget(sq, d, k) && Target(sq, d, k) !in occ
    requires a + RayFrom(sq, d, occ, k) == whole
    ensures (a + {Target(sq, d, k)}) + RayFrom(sq, d, occ, k + 1) == whole
  {
    RayFromStep(sq, d, occ, k);
  }

  /** The walk left the board: past the edge the ray adds nothing. */
  lemma CastEnd(sq: Square, d: Direction, occ: Bitboard, k: nat, a: Bitboard)
    requires !HasTarget(sq, d, k)
    ensures a + RayFrom(sq, d, occ, k) == a
  {
    assert RayFrom(sq, d, occ, k) == {};
  }

  /** rookAttacksSlow. */
  method RookAttacksSlow(sq: Square, occ: Bitboard) returns (a: Bitboard)
    ensures a == RookRayCast(sq, occ)
  {
    a := {};
    a := CastRay(sq, North, occ, a);
    a := CastRay(sq, South, occ, a);
    a := CastRay(sq, East, occ, a);
    a := CastRay(sq, West, occ, a);
  }

  /** bishopAttacksSlow. */
  method BishopAttacksSlow(sq: Square, occ: Bitboard) returns (a: Bitboard)
    ensures a == BishopRayCast(sq, occ)
  {
    a := {};
    a := CastRay(sq, NorthEast, occ, a);
    a := CastRay(sq, NorthWest, occ, a);
    a := CastRay(sq, SouthEast, occ, a);
    a := CastRay(sq, SouthWest, occ, a);
  }

  /** A square is never in its own slider attack set. */
  lemma RayCastExcludesOrigin(s: Square, occ: Bitboard)
    ensures s !in RookRayCast(s, occ) && s !in BishopRayCast(s, occ)
  {
    RayFromExcludesOrigin(s, North, occ, 1);
    RayFromExcludesOrigin(s, South, occ, 1);
    RayFromExcludesOrigin(s, East, occ, 1);
    RayFromExcludesOrigin(s, West, occ, 1);
    RayFromExcludesOrigin(s, NorthEast, occ, 1);
    RayFromExcludesOrigin(s, NorthWest, occ, 1);
    RayFromExcludesOrigin(s, SouthEast, occ, 1);
    RayFromExcludesOrigin(s, SouthWest, occ, 1);
  }

  /** Whether the origin itself is marked occupied does not change an attack set. */
  lemma RayCastIgnoresOrigin(s: Square, occ: Bitboard)
    ensures RookRayCast(s, occ - {s}) == RookRayCast(s, occ)
    ensures BishopRayCast(s, occ - {s}) == BishopRayCast(s, occ)
  {
    forall d: Direction
      ensures RayFrom(s, d, occ - {s}, 1) == RayFrom(s, d, occ, 1)
    {
      forall j | 1 <= j < 8 && HasTarget(s, d, j + 1)
        ensures Target(s, d, j) in occ - {s} <==> Target(s, d, j) in occ
      {
        TargetsBefore(s, d, j + 1, j);
        TargetAway(s, d, j);
      }
      RayFromDependsOnInterior(s, d, occ - {s}, occ, 1);
    }
  }

  /**
   * Slider attacks are symmetric: a rook (bishop) on `s` attacks `t` exactly
   * when one on `t` attacks `s`, so a reverse lookup from a target square
   * finds the sliders that attack it.
   */
  lemma RayCastSymmetric(s: Square, t: Square, occ: Bitboard)
    ensures t in RookRayCast(s, occ) <==> s in RookRayCast(t, occ)
    ensures t in BishopRayCast(s, occ) <==> s in BishopRayCast(t, occ)
  {
    RaySymmetric(s, North, occ, t);
    RaySymmetric(s, South, occ, t);
    RaySymmetric(s, East, occ, t);
    RaySymmetric(s, West, occ, t);
    RaySymmetric(s, NorthEast, occ, t);
    RaySymmetric(s, NorthWest, occ, t);
    RaySymmetric(s, SouthEast, occ, t);
    RaySymmetric(s, SouthWest, occ, t);
  }

  // ---------------------------------------------------------------------
  // Relevant-occupancy masks (rookMask, bishopMask)

  /** The squares of the ray from `s` towards `d`, except the last one before the edge. */
  function RelevantRay(s: Square, d: Direction): Bitboard
  {
    set k: int | 1 <= k < 8 && HasTarget(s, d, k) && HasTarget(s, d, k + 1) :: Target(s, d, k)
  }

  function RookRelevant(s: Square): Bitboard
  {
    RelevantRay(s, North) + RelevantRay(s, South) + RelevantRay(s, East) + RelevantRay(s, West)
  }

  function BishopRelevant(s: Square): Bitboard
  {
    RelevantRay(s, NorthEast) + RelevantRay(s, NorthWest) + RelevantRay(s, SouthEast) + RelevantRay(s, SouthWest)
  }

  /** The loop bound of a mask loop: every coordinate that moves stays within ranks/files 2..7. */
  predicate Interior(rr: int, ff: int, d: Direction)
  {
    (RankStep(d) == 0 || 1 <= rr <= 6) && (FileStep(d) == 0 || 1 <= ff <= 6)
  }

  lemma InteriorIsNotLast(sq: Square, d: Direction, k: int)
    requires k >= 1 && HasTarget(sq, d, k)
    ensures Interior(Offset(RankOf(sq), RankStep(d), k), Offset(FileOf(sq), FileStep(d), k), d) <==> HasTarget(sq, d, k + 1)
  {
  }

  /** The coordinates of step `k` from `sq` towards `d` are on the board and inside the ring. */
  predicate Inside(sq: Square, d: Direction, k: int)
  {
    var rr, ff := Offset(RankOf(sq), RankStep(d), k), Offset(FileOf(sq), FileStep(d), k);
    OnBoard(rr, ff) && Interior(rr, ff, d)
  }

  /**
   * One of the four for-loops of rookMask / bishopMask: walk towards `d`
   * while inside the ring. The walk is counted in steps `k`; step `k` is the
   * square the source computes from its loop coordinates.
   */
  method MaskRay(sq: Square, d: Direction, m0: Bitboard) returns (m: Bitboard)
    ensures m == m0 + RelevantRay(sq, d)
  {
    var k := 1;
    m := m0;
    while k < 8 && Inside(sq, d, k)
      invariant 1 <= k <= 8
      invariant m == m0 + RelevantBefore(sq, d, k)
      decreases 8 - k
    {
      InsideIsNotLast(sq, d, k);
      RelevantBeforeStep(sq, d, k);
      m := m + {Target(sq, d, k)};
      k := k + 1;
    }
    RelevantBeforeAll(sq, d, k);
  }

  lemma InsideIsNotLast(sq: Square, d: Direction, k: int)
    requires k >= 1 && Inside(sq, d, k)
    ensures HasTarget(sq, d, k) && HasTarget(sq, d, k + 1)
  {
    InteriorIsNotLast(sq, d, k);
  }

  /** The relevant squares of the ray strictly before step `k`. */
  function RelevantBefore(s: Square, d: Direction, k: int): Bitboard
  {
    set j: int | 1 <= j < k && j < 8 && HasTarget(s, d, j) && HasTarget(s, d, j + 1) :: Target(s, d, j)
  }

  lemma RelevantBeforeStep(s: Square, d: Direction, k: int)
    requires 1 <= k < 8 && HasTarget(s, d, k) && HasTarget(s, d, k + 1)
    ensures RelevantBefore(s, d, k + 1) == RelevantBefore(s, d, k) + {Target(s, d, k)}
  {
  }

  /** When the walk leaves the ring at step `k`, it has collected the whole relevant ray. */
  lemma RelevantBeforeAll(s: Square, d: Direction, k: int)
    requires 1 <= k <= 8
    requires k < 8 ==> !Inside(s, d, k)
    ensures RelevantBefore(s, d, k) == RelevantRay(s, d)
  {
    if k < 8 && HasTarget(s, d, k) {
      InteriorIsNotLast(s, d, k);
    }
    forall j | k <= j < 8 && HasTarget(s, d, j) && HasTarget(s, d, j + 1) ensures false {
      TargetsBefore(s, d, j + 1, k + 1);
      if HasTarget(s, d, k) { InteriorIsNotLast(s, d, k); }
    }
  }

  /** rookMask. */
  method RookMask(sq: Square) returns (m: Bitboard)
    ensures m == RookRelevant(sq)
  {
    m := {};
    m := MaskRay(sq, North, m);
    m := MaskRay(sq, South, m);
    m := MaskRay(sq, East, m);
    m := MaskRay(sq, West, m);
  }

  /** bishopMask. */
  method BishopMask(sq: Square) returns (m: Bitboard)
    ensures m == BishopRelevant(sq)
  {
    m := {};
    m := MaskRay(sq, NorthEast, m);
    m := MaskRay(sq, NorthWest, m);
    m := MaskRay(sq, SouthEast, m);
    m := MaskRay(sq, SouthWest, m);
  }

  /** Two steps of length >= 1 from the same square land on the same square only along the same direction and distance. */
  lemma TargetsDistinct(s: Square, d: Direction, k: int, d': Direction, j: int)
    requires k >= 1 && j >= 1 && HasTarget(s, d, k) && HasTarget(s, d', j)
    requires Target(s, d, k) == Target(s, d', j)
    ensures d == d' && k == j
  {
    var t := Target(s, d, k);
    assert RankOf(t) == Offset(RankOf(s), RankStep(d), k) == Offset(RankOf(s), RankStep(d'), j);
    assert FileOf(t) == Offset(FileOf(s), FileStep(d), k) == Offset(FileOf(s), FileStep(d'), j);
  }

  /** On an empty board a ray reaches every on-board step. */
  lemma EmptyRayReaches(s: Square, d: Direction, k: int)
    requires 1 <= k < 8 && HasTarget(s, d, k)
    ensures Target(s, d, k) in Ray(s, d, {})
  {
    forall j | 1 <= j < k ensures HasTarget(s, d, j) {
      TargetsBefore(s, d, k, j);
    }
    assert ClearBefore(s, d, {}, k);
    RayMembership(s, d, {}, Target(s, d, k));
  }

  lemma RelevantRayInRay(s: Square, d: Direction)
    ensures RelevantRay(s, d) <= Ray(s, d, {})
    ensures s !in RelevantRay(s, d)
  {
    forall k | 1 <= k < 8 && HasTarget(s, d, k) && HasTarget(s, d, k + 1)
      ensures Target(s, d, k) in Ray(s, d, {}) && Target(s, d, k) != s
    {
      EmptyRayReaches(s, d, k);
      TargetAway(s, d, k);
    }
  }

  /** The step just before the edge is never relevant: its occupancy cannot change the attack set. */
  lemma LastStepIrrelevant(s: Square, d: Direction, k: int, d': Direction)
    requires 1 <= k && HasTarget(s, d, k) && !HasTarget(s, d, k + 1)
    ensures Target(s, d, k) !in RelevantRay(s, d')
  {
    if Target(s, d, k) in RelevantRay(s, d') {
      var j :| 1 <= j < 8 && HasTarget(s, d', j) && HasTarget(s, d', j + 1) && Target(s, d', j) == Target(s, d, k);
      TargetsDistinct(s, d, k, d', j);
    }
  }

  /**
   * rookMask: every square a rook on `s` sees on an empty board except the
   * last one of each ray; never `s` itself; never empty, and at most 64
   * squares, so its popcount is a valid index width.
   */
  lemma RookRelevantShape(s: Square)
    ensures s !in RookRelevant(s)
    ensures RookRelevant(s) <= RookRayCast(s, {})
    ensures forall d, k :: Orthogonal(d) && 1 <= k && HasTarget(s, d, k) && !HasTarget(s, d, k + 1) ==>
      Target(s, d, k) !in RookRelevant(s)
    ensures forall d, k :: Orthogonal(d) && 1 <= k && HasTarget(s, d, k + 1) ==>
      HasTarget(s, d, k) && Target(s, d, k) in RookRelevant(s)
    ensures 1 <= |RookRelevant(s)| <= 64
  {
    RelevantRayInRay(s, North);
    RelevantRayInRay(s, South);
    RelevantRayInRay(s, East);
    RelevantRayInRay(s, West);
    forall d, k | Orthogonal(d) && 1 <= k && HasTarget(s, d, k) && !HasTarget(s, d, k + 1)
      ensures Target(s, d, k) !in RookRelevant(s)
    {
      LastStepIrrelevant(s, d, k, North);
      LastStepIrrelevant(s, d, k, South);
      LastStepIrrelevant(s, d, k, East);
      LastStepIrrelevant(s, d, k, West);
    }
    forall d, k | Orthogonal(d) && 1 <= k && HasTarget(s, d, k + 1)
      ensures HasTarget(s, d, k) && Target(s, d, k) in RookRelevant(s)
    {
      TargetsBefore(s, d, k + 1, k);
      TargetAway(s, d, k + 1);
      assert Target(s, d, k) in RelevantRay(s, d);
    }
    if RankOf(s) <= 5 {
      assert HasTarget(s, North, 2);
    } else {
      assert HasTarget(s, South, 2);
    }
    CardBelow(RookRelevant(s), 64);
  }

  /**
   * bishopMask: every square a bishop on `s` sees on an empty board except
   * the last one of each diagonal, i.e. exactly its diagonal squares off the
   * board's rim; never `s`; never empty, and at most 64 squares.
   */
  lemma BishopRelevantShape(s: Square)
    ensures s !in BishopRelevant(s)
    ensures BishopRelevant(s) <= BishopRayCast(s, {})
    ensures forall t :: t in BishopRelevant(s) <==>
      t in BishopRayCast(s, {}) && 1 <= RankOf(t) <= 6 && 1 <= FileOf(t) <= 6
    ensures 1 <= |BishopRelevant(s)| <= 64
  {
    RelevantRayInRay(s, NorthEast);
    RelevantRayInRay(s, NorthWest);
    RelevantRayInRay(s, SouthEast);
    RelevantRayInRay(s, SouthWest);
    forall t ensures t in BishopRelevant(s) <==> t in BishopRayCast(s, {}) && 1 <= RankOf(t) <= 6 && 1 <= FileOf(t) <= 6 {
      BishopRelevantAt(s, t);
    }
    BishopRelevantNonEmpty(s);
    CardBelow(BishopRelevant(s), 64);
  }

  lemma BishopRelevantNonEmpty(s: Square)
    ensures BishopRelevant(s) != {}
  {
    var d := if RankOf(s) <= 5 && FileOf(s) <= 5 then NorthEast
      else if RankOf(s) <= 5 then NorthWest
      else if FileOf(s) <= 5 then SouthEast
      else SouthWest;
    assert HasTarget(s, d, 2);
    assert Target(s, d, 1) in RelevantRay(s, d);
  }

  lemma BishopRelevantAt(s: Square, t: Square)
    ensures t in BishopRelevant(s) <==> t in BishopRayCast(s, {}) && 1 <= RankOf(t) <= 6 && 1 <= FileOf(t) <= 6
  {
    DiagonalRelevant(s, NorthEast, t);
    DiagonalRelevant(s, NorthWest, t);
    DiagonalRelevant(s, SouthEast, t);
    DiagonalRelevant(s, SouthWest, t);
  }

  /** On a diagonal, the relevant squares are the ray's squares off the rim. */
  lemma DiagonalRelevant(s: Square, d: Direction, t: Square)
    requires !Orthogonal(d)
    ensures t in RelevantRay(s, d) <==> t in Ray(s, d, {}) && 1 <= RankOf(t) <= 6 && 1 <= FileOf(t) <= 6
  {
    if t in RelevantRay(s, d) {
      var k :| 1 <= k < 8 && HasTarget(s, d, k) && HasTarget(s, d, k + 1) && Target(s, d, k) == t;
      EmptyRayReaches(s, d, k);
      InteriorIsNotLast(s, d, k);
    }
    if t in Ray(s, d, {}) && 1 <= RankOf(t) <= 6 && 1 <= FileOf(t) <= 6 {
      RayMembership(s, d, {}, t);
      var i :| 1 <= i < 8 && HasTarget(s, d, i) && Target(s, d, i) == t && ClearBefore(s, d, {}, i);
      InteriorIsNotLast(s, d, i);
      assert t in RelevantRay(s, d);
    }
  }

  lemma {:induction false} CardBelow(b: set<int>, n: nat)
    requires forall x :: x in b ==> 0 <= x < n
    ensures |b| <= n
  {
    if n == 0 {
      assert forall x :: x !in b;
      assert b == {};
    } else {
      CardBelow(b - {n - 1}, n - 1);
    }
  }

  /** A ray depends only on the occupancy of its relevant squares. */
  lemma RayMasked(s: Square, d: Direction, occ: Bitboard, mask: Bitboard)
    requires RelevantRay(s, d) <= mask
    ensures Ray(s, d, occ * mask) == Ray(s, d, occ)
  {
    forall j | 1 <= j < 8 && HasTarget(s, d, j + 1)
      ensures Target(s, d, j) in occ * mask <==> Target(s, d, j) in occ
    {
      TargetsBefore(s, d, j + 1, j);
      assert Target(s, d, j) in RelevantRay(s, d);
    }
    RayFromDependsOnInterior(s, d, occ * mask, occ, 1);
  }

  /** The slow attack sets depend only on the occupancy inside the relevant mask: the premise of magic hashing. */
  lemma RayCastMasked(s: Square, occ: Bitboard)
    ensures RookRayCast(s, occ * RookRelevant(s)) == RookRayCast(s, occ)
    ensures BishopRayCast(s, occ * BishopRelevant(s)) == BishopRayCast(s, occ)
  {
    RayMasked(s, North, occ, RookRelevant(s));
    RayMasked(s, South, occ, RookRelevant(s));
    RayMasked(s, East, occ, RookRelevant(s));
    RayMasked(s, West, occ, RookRelevant(s));
    RayMasked(s, NorthEast, occ, BishopRelevant(s));
    RayMasked(s, NorthWest, occ, BishopRelevant(s));
    RayMasked(s, SouthEast, occ, BishopRelevant(s));
    RayMasked(s, SouthWest, occ, BishopRelevant(s));
  }

  // ---------------------------------------------------------------------
  // Blocker-subset enumeration (enumerateSubsets)

  /** Bit `j` of `i`, i.e. `(i >> j) & 1 == 1`. */
  function Bit(i: nat, j: nat): bool
  {
    if j == 0 then i % 2 == 1 else Bit(i / 2, j - 1)
  }

  /** The subset of `bits` picked by the set bits of `i`. */
  function Select(bits: seq<Square>, i: nat): Bitboard
  {
    set j | 0 <= j < |bits| && Bit(i, j) :: bits[j]
  }

  /** The index whose set bits pick exactly the members of `x` out of `bits`. */
  function Encode(bits: seq<Square>, x: Bitboard): nat
  {
    if bits == [] then 0 else (if bits[0] in x then 1 else 0) + 2 * Encode(bits[1..], x)
  }

  /** The list enumerateSubsets returns: subset `i` holds the `j`-th lowest square of `mask` iff bit `j` of `i` is set. */
  function Subsets(mask: Bitboard): seq<Bitboard>
  {
    var bits := Squares(mask);
    seq(Pow2(|bits|), i requires 0 <= i => Select(bits, i))
  }

  lemma SelectStep(bits: seq<Square>, i: nat)
    requires |bits| > 0
    ensures Select(bits, i) == (if i % 2 == 1 then {bits[0]} else {}) + Select(bits[1..], i / 2)
  {
    var lhs := Select(bits, i);
    var rhs := (if i % 2 == 1 then {bits[0]} else {}) + Select(bits[1..], i / 2);
    forall t ensures t in lhs <==> t in rhs {
      if t in lhs {
        var j :| 0 <= j < |bits| && Bit(i, j) && bits[j] == t;
        if j > 0 {
          assert bits[1..][j - 1] == t;
        }
      }
      if t in Select(bits[1..], i / 2) {
        var j :| 0 <= j < |bits| - 1 && Bit(i / 2, j) && bits[1..][j] == t;
        assert Bit(i, j + 1) && bits[j + 1] == t;
      }
    }
  }

  lemma {:induction false} EncodeBound(bits: seq<Square>, x: Bitboard)
    ensures Encode(bits, x) < Pow2(|bits|)
  {
    if bits != [] {
      EncodeBound(bits[1..], x);
    }
  }

  lemma {:induction false} EncodeLocal(bits: seq<Square>, x: Bitboard, y: Bitboard)
    requires forall j :: 0 <= j < |bits| ==> (bits[j] in x <==> bits[j] in y)
    ensures Encode(bits, x) == Encode(bits, y)
  {
    if bits != [] {
      assert bits[0] in x <==> bits[0] in y;
      forall j | 0 <= j < |bits| - 1 ensures bits[1..][j] in x <==> bits[1..][j] in y {
        assert bits[1..][j] == bits[j + 1];
      }
      EncodeLocal(bits[1..], x, y);
    }
  }

  /** Decoding after encoding: every index below 2^n names a different subset. */
  lemma {:induction false} EncodeSelect(bits: seq<Square>, i: nat)
    requires Increasing(bits) && i < Pow2(|bits|)
    ensures Encode(bits, Select(bits, i)) == i
  {
    if bits == [] {
    } else {
      var tail := bits[1..];
      var sub := Select(tail, i / 2);
      SelectStep(bits, i);
      EncodeSelect(tail, i / 2);
      forall j | 0 <= j < |tail| ensures tail[j] in Select(bits, i) <==> tail[j] in sub {
        assert tail[j] == bits[j + 1];
      }
      EncodeLocal(tail, Select(bits, i), sub);
    }
  }

  /** Encoding after decoding: every subset of the listed squares has an index. */
  lemma {:induction false} SelectEncode(bits: seq<Square>, x: Bitboard)
    requires Increasing(bits) && forall t :: t in x ==> t in bits
    ensures Select(bits, Encode(bits, x)) == x
  {
    if bits == [] {
      assert forall t :: t !in x;
      assert Select(bits, Encode(bits, x)) == {};
    } else {
      var tail := bits[1..];
      var x' := x - {bits[0]};
      forall t | t in x' ensures t in tail {
        var j :| 0 <= j < |bits| && bits[j] == t;
        assert tail[j - 1] == t;
      }
      forall j | 0 <= j < |tail| ensures tail[j] in x <==> tail[j] in x' {
        assert tail[j] == bits[j + 1];
      }
      EncodeLocal(tail, x, x');
      SelectEncode(tail, x');
      SelectStep(bits, Encode(bits, x));
    }
  }

  lemma {:induction false} EncodeAll(bits: seq<Square>, x: Bitboard)
    requires forall j :: 0 <= j < |bits| ==> bits[j] in x
    ensures Encode(bits, x) == Pow2(|bits|) - 1
  {
    if bits != [] {
      forall j | 0 <= j < |bits| - 1 ensures bits[1..][j] in x {
        assert bits[1..][j] == bits[j + 1];
      }
      EncodeAll(bits[1..], x);
    }
  }

  lemma SelectNone(bits: seq<Square>)
    ensures Select(bits, 0) == {}
  {
    forall j: nat ensures !Bit(0, j) {
      BitOfZero(j);
    }
  }

  lemma {:induction false} BitOfZero(j: nat)
    ensures !Bit(0, j)
  {
    if j > 0 {
      BitOfZero(j - 1);
    }
  }

  /**
   * enumerateSubsets returns 2^popcount(mask) pairwise-distinct subsets of
   * `mask`, every subset of `mask` among them, the empty set first and
   * `mask` itself last.
   */
  lemma SubsetsExact(mask: Bitboard)
    ensures |Subsets(mask)| == Pow2(|mask|)
    ensures forall i :: 0 <= i < |Subsets(mask)| ==> Subsets(mask)[i] <= mask
    ensures forall i, j :: 0 <= i < j < |Subsets(mask)| ==> Subsets(mask)[i] != Subsets(mask)[j]
    ensures forall x :: x <= mask ==> x in Subsets(mask)
    ensures Subsets(mask)[0] == {} && Subsets(mask)[|Subsets(mask)| - 1] == mask
  {
    SquaresOrdered(mask);
    SubsetsDistinct(mask);
    SubsetsComplete(mask);
    SubsetsEnds(mask);
  }

  lemma SubsetsDistinct(mask: Bitboard)
    requires Increasing(Squares(mask))
    ensures forall i, j :: 0 <= i < j < |Subsets(mask)| ==> Subsets(mask)[i] != Subsets(mask)[j]
  {
    var bits := Squares(mask);
    forall i, j | 0 <= i < j < |Subsets(mask)| ensures Subsets(mask)[i] != Subsets(mask)[j] {
      EncodeSelect(bits, i);
      EncodeSelect(bits, j);
    }
  }

  lemma SubsetsComplete(mask: Bitboard)
    requires Increasing(Squares(mask)) && forall t :: t in mask <==> t in Squares(mask)
    ensures forall x :: x <= mask ==> x in Subsets(mask)
  {
    var bits := Squares(mask);
    forall x | x <= mask ensures x in Subsets(mask) {
      EncodeBound(bits, x);
      SelectEncode(bits, x);
      assert Subsets(mask)[Encode(bits, x)] == x;
    }
  }

  lemma SubsetsEnds(mask: Bitboard)
    requires Increasing(Squares(mask)) && forall t :: t in mask <==> t in Squares(mask)
    ensures Subsets(mask)[0] == {} && Subsets(mask)[|Subsets(mask)| - 1] == mask
  {
    SubsetsFirst(mask);
    SubsetsLast(mask);
  }

  lemma SubsetsFirst(mask: Bitboard)
    ensures Subsets(mask)[0] == {}
  {
    var bits := Squares(mask);
    SelectNone(bits);
    assert Subsets(mask)[0] == Select(bits, 0);
  }

  lemma SubsetsLast(mask: Bitboard)
    requires Increasing(Squares(mask)) && forall t :: t in mask <==> t in Squares(mask)
    ensures Subsets(mask)[|Subsets(mask)| - 1] == mask
  {
    var bits := Squares(mask);
    forall j | 0 <= j < |bits| ensures bits[j] in mask {}
    EncodeAll(bits, mask);
    SelectEncode(bits, mask);
    var e := Encode(bits, mask);
    assert e == |Subsets(mask)| - 1;
    assert Subsets(mask)[e] == Select(bits, e);
  }

  /** The part of `Select(bits, i)` drawn from the first `j` squares. */
  function SelectPrefix(bits: seq<Square>, i: nat, j: int): Bitboard
  {
    set t | 0 <= t < j && t < |bits| && Bit(i, t) :: bits[t]
  }

  lemma SelectPrefixStep(bits: seq<Square>, i: nat, j: int)
    requires 0 <= j < |bits|
    ensures SelectPrefix(bits, i, j + 1) == SelectPrefix(bits, i, j) + (if Bit(i, j) then {bits[j]} else {})
  {
  }

  lemma SelectPrefixAll(bits: seq<Square>, i: nat)
    ensures SelectPrefix(bits, i, |bits|) == Select(bits, i)
  {
  }

  /** enumerateSubsets: list the mask's squares, then one blocker set per index below 2^n. */
  method EnumerateSubsets(mask: Bitboard) returns (out: seq<Bitboard>)
    ensures out == Subsets(mask)
  {
    var bits := BitPositions(mask);
    var n := |bits|;
    out := [];
    var i := 0;
    while i < Pow2(n)
      invariant 0 <= i <= Pow2(n)
      invariant |out| == i && forall k :: 0 <= k < i ==> out[k] == Select(bits, k)
    {
      var occ := SubsetAt(bits, i);
      out := out + [occ];
      i := i + 1;
    }
  }

  /** The first loop of enumerateSubsets: pop the least significant square until none is left. */
  method BitPositions(mask: Bitboard) returns (bits: seq<Square>)
    ensures bits == Squares(mask)
  {
    bits := [];
    var m := mask;
    while m != {}
      invariant bits + Squares(m) == Squares(mask)
      decreases |m|
    {
      var b, rest := PopLsb(m);
      LsbUnique(m, b);
      SquaresUnfold(m, b);
      bits, m := bits + [b], rest;
    }
    assert bits == Squares(mask);
  }

  /** The inner loop of enumerateSubsets: the squares `bits[j]` whose bit `j` is set in `i`. */
  method SubsetAt(bits: seq<Square>, i: nat) returns (occ: Bitboard)
    ensures occ == Select(bits, i)
  {
    occ := {};
    var j := 0;
    while j < |bits|
      invariant 0 <= j <= |bits|
      invariant occ == SelectPrefix(bits, i, j)
    {
      SelectPrefixStep(bits, i, j);
      if Bit(i, j) {
        occ := occ + {bits[j]};
      }
      j := j + 1;
    }
    SelectPrefixAll(bits, i);
  }

  // ---------------------------------------------------------------------
  // Hashing (MagicData, magicIndex)

  /** A 64-bit unsigned value. */
  type U64 = x: nat | x < TwoTo64

  /** Per-square magic data: relevant mask, multiplier, start of the square's slice of the table, index width. */
  datatype MagicData = MagicData(mask: Bitboard, magic: U64, offset: nat, indexBits: nat)

  /** `h >> n` on an unsigned value: `n` halvings, each dropping the low bit. */
  function ShiftRight(h: nat, n: nat): nat
    decreases n
  {
    if n == 0 then h else ShiftRight(h / 2, n - 1)
  }

  /** Shifting an `n + m`-bit value right by `n` leaves an `m`-bit value. */
  lemma {:induction false} ShiftRightBelow(h: nat, n: nat, m: nat)
    requires h < Pow2(n + m)
    ensures ShiftRight(h, n) < Pow2(m)
    decreases n
  {
    if n > 0 {
      assert Pow2(n + m) == 2 * Pow2(n - 1 + m);
      ShiftRightBelow(h / 2, n - 1, m);
    }
  }

  /** Unsigned 64-bit multiplication: the product wraps modulo 2^64. */
  function MulWrap(a: nat, b: nat): (r: nat)
    ensures r < TwoTo64
  {
    (a * b) % TwoTo64
  }

  /** `(blockers * magic) >> (64 - bits)`, the product wrapping modulo 2^64: always a `bits`-bit index. */
  function HashIndex(blockers: Bitboard, magic: U64, bits: nat): (i: nat)
    requires 1 <= bits <= 64
    ensures i < Pow2(bits)
  {
    var h := MulWrap(Value(blockers), magic);
    Pow2Is64();
    ShiftRightBelow(h, 64 - bits, bits);
    ShiftRight(h, 64 - bits)
  }

  /** magicIndex: the slot of `occ` lies inside the square's slice [offset, offset + 2^bits). */
  function MagicIndex(m: MagicData, occ: Bitboard): (i: nat)
    requires 1 <= m.indexBits <= 64
    ensures m.offset <= i < m.offset + Pow2(m.indexBits)
  {
    m.offset + HashIndex(occ * m.mask, m.magic, m.indexBits)
  }

  /**
   * The slot the build stores a blocker set under,
   * `(hash >> (64 - bits)) & (table_size - 1)`: the mask never changes the
   * shifted hash, so the build and magicIndex agree.
   */
  function BuildSlot(blockers: Bitboard, magic: U64, bits: nat): (slot: nat)
    requires 1 <= bits <= 64
    ensures slot == HashIndex(blockers, magic, bits)
  {
    var h := HashIndex(blockers, magic, bits);
    ModBelow(h, Pow2(bits));
    h % Pow2(bits)
  }

  lemma ModBelow(x: nat, p: nat)
    requires x < p
    ensures x % p == x
  {
  }

  /** Shifting a square's offset by `base` shifts every lookup of that square by `base`. */
  lemma ShiftedIndex(m: MagicData, base: nat, occ: Bitboard)
    requires 1 <= m.indexBits <= 64
    ensures MagicIndex(m.(offset := m.offset + base), occ) == base + MagicIndex(m, occ)
  {
  }

  // ---------------------------------------------------------------------
  // Acceptance test (buildSliderMagics, inner loop)

  /** The value 0xFFFFFFFFFFFFFFFF the build marks unused slots with. */
  const Unused: Bitboard := AllSquares

  /** The slot of each blocker set under a candidate. */
  function SlotsOf(occs: seq<Bitboard>, magic: U64, bits: nat): (slots: seq<nat>)
    requires 1 <= bits <= 64
    ensures |slots| == |occs|
    ensures forall i :: 0 <= i < |occs| ==> slots[i] == BuildSlot(occs[i], magic, bits) && slots[i] < Pow2(bits)
  {
    seq(|occs|, i requires 0 <= i < |occs| => BuildSlot(occs[i], magic, bits))
  }

  /** Entries sharing a slot carry the same attack set. */
  ghost predicate NoClash(slots: seq<nat>, attacks: seq<Bitboard>)
    requires |slots| == |attacks|
  {
    forall i, j :: 0 <= i < |slots| && 0 <= j < |slots| && slots[i] == slots[j] ==> attacks[i] == attacks[j]
  }

  /**
   * A constructive perfect hash: blocker sets that share a slot have the same
   * attack set, so one table entry serves them all.
   */
  ghost predicate Collisionless(occs: seq<Bitboard>, attacks: seq<Bitboard>, magic: U64, bits: nat)
    requires |occs| == |attacks| && 1 <= bits <= 64
  {
    NoClash(SlotsOf(occs, magic, bits), attacks)
  }

  /**
   * One trial of a candidate: fill `tmp` with the unused marker, then store
   * each attack set in its slot, rejecting on a slot already holding a
   * different set. Accepts exactly the collision-free candidates, and then
   * `tmp` holds each blocker set's attack set in its slot and the marker in
   * every slot nobody hashes to.
   */
  method TryMagic(occs: seq<Bitboard>, attacks: seq<Bitboard>, magic: U64, bits: nat, tmp: array<Bitboard>) returns (ok: bool)
    requires |occs| == |attacks| && 1 <= bits <= 64 && tmp.Length == Pow2(bits)
    requires forall i :: 0 <= i < |attacks| ==> attacks[i] != Unused
    modifies tmp
    ensures ok <==> Collisionless(occs, attacks, magic, bits)
    ensures ok ==> forall i :: 0 <= i < |occs| ==> tmp[BuildSlot(occs[i], magic, bits)] == attacks[i]
    ensures ok ==> forall x :: 0 <= x < tmp.Length ==>
      (tmp[x] == Unused <==> forall i :: 0 <= i < |occs| ==> BuildSlot(occs[i], magic, bits) != x)
  {
    ClearTable(tmp);
    ghost var slots := SlotsOf(occs, magic, bits);
    ok := true;
    var i := 0;
    while i < |occs|
      invariant 0 <= i <= |occs|
      invariant Filled(tmp[..], slots, attacks, i)
    {
      var clash := StoreNext(occs, attacks, magic, bits, tmp, slots, i);
      if clash {
        ok := false;
        break;
      }
      i := i + 1;
    }
    if ok {
      FilledAll(tmp[..], slots, attacks);
      FilledSlots(tmp[..], occs, attacks, magic, bits);
    }
  }

  /** One pass of the trial loop: store the `i`-th attack set, or report a clash. */
  method StoreNext(occs: seq<Bitboard>, attacks: seq<Bitboard>, magic: U64, bits: nat, tmp: array<Bitboard>,
                   ghost slots: seq<nat>, i: nat) returns (clash: bool)
    requires |occs| == |attacks| && 1 <= bits <= 64 && tmp.Length == Pow2(bits) && i < |occs|
    requires attacks[i] != Unused
    requires slots == SlotsOf(occs, magic, bits) && Filled(tmp[..], slots, attacks, i)
    modifies tmp
    ensures clash ==> !NoClash(slots, attacks)
    ensures !clash ==> Filled(tmp[..], slots, attacks, i + 1)
  {
    var index := BuildSlot(occs[i], magic, bits);
    var atk := attacks[i];
    clash := false;
    if tmp[index] == Unused {
      FilledStore(tmp[..], slots, attacks, i);
      tmp[index] := atk;
    } else if tmp[index] != atk {
      FilledClash(tmp[..], slots, attacks, i);
      clash := true;
    }
  }

  /** The filled table read through BuildSlot. */
  lemma FilledSlots(t: seq<Bitboard>, occs: seq<Bitboard>, attacks: seq<Bitboard>, magic: U64, bits: nat)
    requires |occs| == |attacks| && 1 <= bits <= 64 && |t| == Pow2(bits)
    requires Filled(t, SlotsOf(occs, magic, bits), attacks, |occs|)
    ensures forall i :: 0 <= i < |occs| ==> t[BuildSlot(occs[i], magic, bits)] == attacks[i]
    ensures forall x :: 0 <= x < |t| ==> (t[x] == Unused <==> forall i :: 0 <= i < |occs| ==> BuildSlot(occs[i], magic, bits) != x)
  {
    var slots := SlotsOf(occs, magic, bits);
    forall i | 0 <= i < |occs| ensures t[BuildSlot(occs[i], magic, bits)] == attacks[i] {
      assert slots[i] == BuildSlot(occs[i], magic, bits);
    }
    forall x | 0 <= x < |t| ensures (t[x] == Unused <==> forall i :: 0 <= i < |occs| ==> BuildSlot(occs[i], magic, bits) != x) {
      if t[x] == Unused {
        forall i | 0 <= i < |occs| ensures BuildSlot(occs[i], magic, bits) != x {
          assert slots[i] != x;
        }
      } else {
        var j :| 0 <= j < |slots| && slots[j] == x;
        assert BuildSlot(occs[j], magic, bits) == x;
      }
    }
  }

  /** `std::fill(tmp.begin(), tmp.end(), 0xFFFFFFFFFFFFFFFF)`. */
  method ClearTable(tmp: array<Bitboard>)
    modifies tmp
    ensures forall x :: 0 <= x < tmp.Length ==> tmp[x] == Unused
  {
    forall k | 0 <= k < tmp.Length {
      tmp[k] := Unused;
    }
  }

  /**
   * The state of the table `t` after the first `i` entries: each attack set
   * is stored in its slot, and exactly the slots none of them hashes to hold
   * the marker.
   */
  ghost predicate Filled(t: seq<Bitboard>, slots: seq<nat>, attacks: seq<Bitboard>, i: nat)
    requires |slots| == |attacks| && i <= |slots|
  {
    (forall j :: 0 <= j < i ==> slots[j] < |t| && t[slots[j]] == attacks[j]) &&
    (forall x :: 0 <= x < |t| ==> (t[x] == Unused <==> forall j :: 0 <= j < i ==> slots[j] != x))
  }

  /** Storing the next attack set in a free slot. */
  lemma FilledStore(t: seq<Bitboard>, slots: seq<nat>, attacks: seq<Bitboard>, i: nat)
    requires |slots| == |attacks| && i < |slots| && slots[i] < |t|
    requires attacks[i] != Unused
    requires Filled(t, slots, attacks, i) && t[slots[i]] == Unused
    ensures Filled(t[slots[i] := attacks[i]], slots, attacks, i + 1)
  {
    var t' := t[slots[i] := attacks[i]];
    forall j | 0 <= j < i + 1 ensures slots[j] < |t'| && t'[slots[j]] == attacks[j] {
      if j < i {
        assert slots[j] != slots[i];
      }
    }
    forall x | 0 <= x < |t| ensures t'[x] == Unused <==> forall j :: 0 <= j < i + 1 ==> slots[j] != x {
      if x == slots[i] {
        assert t'[x] != Unused;
      } else {
        assert t'[x] == t[x];
      }
    }
  }

  /** The next entry's slot holds a different attack set: the entries clash. */
  lemma FilledClash(t: seq<Bitboard>, slots: seq<nat>, attacks: seq<Bitboard>, i: nat)
    requires |slots| == |attacks| && i < |slots| && slots[i] < |t|
    requires Filled(t, slots, attacks, i)
    requires t[slots[i]] != Unused && t[slots[i]] != attacks[i]
    ensures !NoClash(slots, attacks)
  {
    var j :| 0 <= j < i && slots[j] == slots[i];
    assert attacks[j] != attacks[i];
  }

  /** Every entry stored without a clash: the entries are clash-free. */
  lemma FilledAll(t: seq<Bitboard>, slots: seq<nat>, attacks: seq<Bitboard>)
    requires |slots| == |attacks|
    requires Filled(t, slots, attacks, |slots|)
    ensures NoClash(slots, attacks)
  {
  }

  // ---------------------------------------------------------------------
  // Building one slider's tables (buildSliderMagics)

  /** The reference attack function the build is instantiated with (rookAttacksSlow or bishopAttacksSlow). */
  type AttackFn = (Square, Bitboard) -> Bitboard

  function Relevant(rookLike: bool, sq: Square): Bitboard
  {
    if rookLike then RookRelevant(sq) else BishopRelevant(sq)
  }

  /**
   * What the build relies on about its attack function: it never returns the
   * unused marker, and it depends only on the occupancy inside the mask.
   */
  ghost predicate Coherent(rookLike: bool, slow: AttackFn)
  {
    (forall sq: Square, occ :: slow(sq, occ) != Unused) &&
    (forall sq: Square, occ, occ' :: occ * Relevant(rookLike, sq) == occ' * Relevant(rookLike, sq) ==> slow(sq, occ) == slow(sq, occ'))
  }

  /** Both reference ray casts satisfy what the build relies on. */
  lemma RayCastsCoherent()
    ensures Coherent(true, RookRayCast) && Coherent(false, BishopRayCast)
  {
    forall sq: Square, occ
      ensures RookRayCast(sq, occ) != Unused && BishopRayCast(sq, occ) != Unused
    {
      RayCastExcludesOrigin(sq, occ);
      assert sq in Unused;
    }
    forall sq: Square, occ, occ' | occ * RookRelevant(sq) == occ' * RookRelevant(sq)
      ensures RookRayCast(sq, occ) == RookRayCast(sq, occ')
    {
      RayCastMasked(sq, occ);
      RayCastMasked(sq, occ');
    }
    forall sq: Square, occ, occ' | occ * BishopRelevant(sq) == occ' * BishopRelevant(sq)
      ensures BishopRayCast(sq, occ) == BishopRayCast(sq, occ')
    {
      RayCastMasked(sq, occ);
      RayCastMasked(sq, occ');
    }
  }

  /** What the search for one square needs of its mask and attack function. */
  ghost predicate MaskCoherent(mask: Bitboard, slow: AttackFn, sq: Square)
  {
    1 <= |mask| <= 64 && (forall occ :: slow(sq, occ) != Unused) &&
    (forall occ, occ' :: occ * mask == occ' * mask ==> slow(sq, occ) == slow(sq, occ'))
  }

  lemma CoherentAt(rookLike: bool, slow: AttackFn, sq: Square)
    requires Coherent(rookLike, slow)
    ensures MaskCoherent(Relevant(rookLike, sq), slow, sq)
  {
    RookRelevantShape(sq);
    BishopRelevantShape(sq);
  }

  /** The attack set of every enumerated blocker set, in enumeration order. */
  function AttackList(slow: AttackFn, sq: Square, occs: seq<Bitboard>): (t: seq<Bitboard>)
    ensures |t| == |occs| && forall i :: 0 <= i < |occs| ==> t[i] == slow(sq, occs[i])
  {
    seq(|occs|, i requires 0 <= i < |occs| => slow(sq, occs[i]))
  }

  /** The search accepts `magic` for `sq`: it hashes the blocker subsets of `mask` without a harmful collision. */
  ghost predicate Accepts(mask: Bitboard, slow: AttackFn, sq: Square, magic: U64)
  {
    1 <= |mask| <= 64 &&
    var occs := Subsets(mask);
    Collisionless(occs, AttackList(slow, sq, occs), magic, |mask|)
  }

  /** `magic` is the first candidate the search accepts. */
  ghost predicate FirstAccepted(mask: Bitboard, slow: AttackFn, sq: Square, candidates: seq<U64>, magic: U64)
  {
    exists k :: 0 <= k < |candidates| && candidates[k] == magic && Accepts(mask, slow, sq, magic) &&
      forall c :: 0 <= c < k ==> !Accepts(mask, slow, sq, candidates[c])
  }

  ghost predicate Solvable(mask: Bitboard, slow: AttackFn, sq: Square, candidates: seq<U64>)
  {
    exists k :: 0 <= k < |candidates| && Accepts(mask, slow, sq, candidates[k])
  }

  /**
   * The body of the square loop of buildSliderMagics once the mask is known:
   * enumerate the blocker subsets, compute their attacks, and try the
   * candidates in order. On success `entries` is the square's slice of the
   * table, answering every occupancy with its attack set.
   */
  method BuildSquare(mask: Bitboard, slow: AttackFn, sq: Square, candidates: seq<U64>)
    returns (found: bool, magic: U64, entries: seq<Bitboard>)
    requires MaskCoherent(mask, slow, sq)
    ensures found ==> FirstAccepted(mask, slow, sq, candidates, magic)
    ensures !found ==> !Solvable(mask, slow, sq, candidates)
    ensures found ==> |entries| == Pow2(|mask|)
    ensures found ==> forall occ :: entries[HashIndex(occ * mask, magic, |mask|)] == slow(sq, occ)
  {
    var bits := |mask|;
    var occs := EnumerateSubsets(mask);
    var attacks := ComputeAttacks(slow, sq, occs);
    var tmp := new Bitboard[Pow2(bits)];
    var k;
    found, k := SearchMagic(occs, attacks, bits, candidates, tmp);
    AcceptsAsTried(mask, slow, sq, occs, attacks, candidates, k);
    if found {
      magic, entries := candidates[k], tmp[..];
      SliceAnswers(slow, sq, mask, occs, attacks, magic, entries);
    } else {
      magic, entries := 0, [];
    }
  }

  /** The `attacks` vector of buildSliderMagics: the attack set of each enumerated blocker set. */
  method ComputeAttacks(slow: AttackFn, sq: Square, occs: seq<Bitboard>) returns (attacks: seq<Bitboard>)
    ensures attacks == AttackList(slow, sq, occs)
  {
    attacks := [];
    var i := 0;
    while i < |occs|
      invariant 0 <= i <= |occs| && |attacks| == i
      invariant forall j :: 0 <= j < i ==> attacks[j] == slow(sq, occs[j])
    {
      attacks := attacks + [slow(sq, occs[i])];
      i := i + 1;
    }
  }

  /**
   * The `while (!found)` search with the candidates in order: tries each with
   * TryMagic on the same `tmp` buffer until one is accepted.
   */
  method SearchMagic(occs: seq<Bitboard>, attacks: seq<Bitboard>, bits: nat, candidates: seq<U64>, tmp: array<Bitboard>)
    returns (found: bool, k: nat)
    requires |occs| == |attacks| && 1 <= bits <= 64 && tmp.Length == Pow2(bits)
    requires forall i :: 0 <= i < |attacks| ==> attacks[i] != Unused
    modifies tmp
    ensures k <= |candidates| && forall c :: 0 <= c < k ==> !Collisionless(occs, attacks, candidates[c], bits)
    ensures found ==> k < |candidates| && Collisionless(occs, attacks, candidates[k], bits)
    ensures found ==> forall i :: 0 <= i < |occs| ==> tmp[BuildSlot(occs[i], candidates[k], bits)] == attacks[i]
    ensures !found ==> k == |candidates|
  {
    found, k := false, 0;
    while k < |candidates|
      invariant 0 <= k <= |candidates|
      invariant forall c :: 0 <= c < k ==> !Collisionless(occs, attacks, candidates[c], bits)
    {
      var ok := TryMagic(occs, attacks, candidates[k], bits, tmp);
      if ok {
        found := true;
        return;
      }
      k := k + 1;
    }
  }

  /** Accepting is exactly passing TryMagic on the enumerated subsets, so the search finds the first accepted candidate. */
  lemma AcceptsAsTried(mask: Bitboard, slow: AttackFn, sq: Square, occs: seq<Bitboard>, attacks: seq<Bitboard>,
                       candidates: seq<U64>, k: nat)
    requires occs == Subsets(mask) && attacks == AttackList(slow, sq, occs)
    requires 1 <= |mask| <= 64 && k <= |candidates|
    requires forall c :: 0 <= c < k ==> !Collisionless(occs, attacks, candidates[c], |mask|)
    ensures k < |candidates| && Collisionless(occs, attacks, candidates[k], |mask|) ==>
      FirstAccepted(mask, slow, sq, candidates, candidates[k])
    ensures k == |candidates| ==> !Solvable(mask, slow, sq, candidates)
  {
  }

  /** An accepted candidate's slice answers every occupancy, not only the enumerated ones. */
  lemma SliceAnswers(slow: AttackFn, sq: Square, mask: Bitboard, occs: seq<Bitboard>, attacks: seq<Bitboard>,
                     magic: U64, entries: seq<Bitboard>)
    requires 1 <= |mask| <= 64 && occs == Subsets(mask) && |entries| == Pow2(|mask|)
    requires |attacks| == |occs| && forall i :: 0 <= i < |occs| ==> attacks[i] == slow(sq, occs[i])
    requires forall occ, occ' :: occ * mask == occ' * mask ==> slow(sq, occ) == slow(sq, occ')
    requires forall i :: 0 <= i < |occs| ==> entries[BuildSlot(occs[i], magic, |mask|)] == attacks[i]
    ensures forall occ :: entries[HashIndex(occ * mask, magic, |mask|)] == slow(sq, occ)
  {
    SquaresOrdered(mask);
    SubsetsComplete(mask);
    forall occ ensures entries[HashIndex(occ * mask, magic, |mask|)] == slow(sq, occ) {
      assert occ * mask <= mask;
      var j :| 0 <= j < |occs| && occs[j] == occ * mask;
      assert occs[j] * mask == occ * mask;
    }
  }

  /** The number of table entries the squares of `data` use: the running sum of their 2^bits slice sizes. */
  function TableSize(data: seq<MagicData>): nat
  {
    if data == [] then 0 else TableSize(data[..|data| - 1]) + Pow2(data[|data| - 1].indexBits)
  }

  datatype BuiltMagic = BuiltMagic(data: seq<MagicData>, table: seq<Bitboard>)

  /** The table entry `m` selects for `occ` exists and is the attack set. */
  ghost predicate Answers(m: MagicData, table: seq<Bitboard>, slow: AttackFn, sq: Square, occ: Bitboard)
  {
    1 <= m.indexBits <= 64 && MagicIndex(m, occ) < |table| && table[MagicIndex(m, occ)] == slow(sq, occ)
  }

  /**
   * Square `|before|` (whose predecessors are `before`) has its relevant mask,
   * its first accepted candidate and a slice starting after the earlier
   * slices and ending inside a table of `size` entries.
   */
  ghost predicate SquareLaidOut(rookLike: bool, slow: AttackFn, candidates: seq<U64>, before: seq<MagicData>, m: MagicData, size: nat)
    requires |before| < 64
  {
    m.mask == Relevant(rookLike, |before|) && m.indexBits == |m.mask| &&
    m.offset == TableSize(before) && m.offset + Pow2(m.indexBits) <= size &&
    FirstAccepted(m.mask, slow, |before|, candidates, m.magic)
  }

  /**
   * The first `n` squares of a slider's tables are laid out square after
   * square, each with its relevant mask, its first accepted candidate and a
   * slice of 2^popcount(mask) entries, and every lookup of those squares
   * returns the attack set.
   */
  ghost predicate BuiltUpTo(rookLike: bool, slow: AttackFn, candidates: seq<seq<U64>>, data: seq<MagicData>, table: seq<Bitboard>, n: int)
  {
    0 <= n <= 64 && |candidates| == 64 && |data| == n && |table| == TableSize(data) &&
    (forall s {:trigger SquareLaidOut(rookLike, slow, candidates[s], data[..s], data[s], |table|)} ::
      0 <= s < n ==> SquareLaidOut(rookLike, slow, candidates[s], data[..s], data[s], |table|)) &&
    (forall s: Square, occ {:trigger Answers(data[s], table, slow, s, occ)} :: s < n ==> Answers(data[s], table, slow, s, occ))
  }

  /** A complete build: all 64 squares laid out and answering. */
  ghost predicate Serves(rookLike: bool, slow: AttackFn, candidates: seq<seq<U64>>, bm: BuiltMagic)
  {
    BuiltUpTo(rookLike, slow, candidates, bm.data, bm.table, 64)
  }

  /** buildSliderMagics, with the search for square `sq` drawing from `candidates[sq]`. */
  method BuildSliderMagics(rookLike: bool, slow: AttackFn, candidates: seq<seq<U64>>) returns (r: Option<BuiltMagic>)
    requires |candidates| == 64 && Coherent(rookLike, slow)
    ensures r.None? ==> exists sq: Square :: !Solvable(Relevant(rookLike, sq), slow, sq, candidates[sq])
    ensures r.Some? ==> Serves(rookLike, slow, candidates, r.value)
  {
    var data: seq<MagicData> := [];
    var table: seq<Bitboard> := [];
    for sq := 0 to 64
      invariant BuiltUpTo(rookLike, slow, candidates, data, table, sq)
    {
      var mask;
      if rookLike {
        mask := RookMask(sq);
      } else {
        mask := BishopMask(sq);
      }
      CoherentAt(rookLike, slow, sq);
      var found, magic, entries := BuildSquare(mask, slow, sq, candidates[sq]);
      if !found {
        return None;
      }
      var md := MagicData(mask, magic, |table|, |mask|);
      AppendSquare(rookLike, slow, candidates, data, table, sq, md, entries);
      data, table := data + [md], table + entries;
    }
    r := Some(BuiltMagic(data, table));
  }

  /** Appending a square's slice extends the build by one square. */
  lemma AppendSquare(rookLike: bool, slow: AttackFn, candidates: seq<seq<U64>>, data: seq<MagicData>, table: seq<Bitboard>,
                     sq: Square, md: MagicData, entries: seq<Bitboard>)
    requires BuiltUpTo(rookLike, slow, candidates, data, table, sq)
    requires md.mask == Relevant(rookLike, sq) && md.indexBits == |md.mask| && 1 <= md.indexBits <= 64
    requires md.offset == |table| && |entries| == Pow2(md.indexBits)
    requires FirstAccepted(md.mask, slow, sq, candidates[sq], md.magic)
    requires forall occ :: entries[HashIndex(occ * md.mask, md.magic, md.indexBits)] == slow(sq, occ)
    ensures BuiltUpTo(rookLike, slow, candidates, data + [md], table + entries, sq + 1)
  {
    AppendSlice(slow, sq, data, table, md, entries);
    AppendLaidOut(rookLike, slow, candidates, data, table, sq, md, entries);
    assert (data + [md])[..sq] == data;
    assert TableSize(data + [md]) == |table + entries|;
  }

  /** Appending a square's slice keeps every square laid out, the new one included. */
  lemma AppendLaidOut(rookLike: bool, slow: AttackFn, candidates: seq<seq<U64>>, data: seq<MagicData>, table: seq<Bitboard>,
                      sq: Square, md: MagicData, entries: seq<Bitboard>)
    requires BuiltUpTo(rookLike, slow, candidates, data, table, sq)
    requires md.mask == Relevant(rookLike, sq) && md.indexBits == |md.mask| && 1 <= md.indexBits <= 64
    requires md.offset == |table| && |entries| == Pow2(md.indexBits)
    requires FirstAccepted(md.mask, slow, sq, candidates[sq], md.magic)
    ensures forall s :: 0 <= s < sq + 1 ==>
      SquareLaidOut(rookLike, slow, candidates[s], (data + [md])[..s], (data + [md])[s], |table + entries|)
  {
    var data', table' := data + [md], table + entries;
    forall s | 0 <= s < sq + 1
      ensures SquareLaidOut(rookLike, slow, candidates[s], data'[..s], data'[s], |table'|)
    {
      if s < sq {
        PrefixOfAppend(data, md, s);
        LaidOutGrows(rookLike, slow, candidates[s], data[..s], data[s], |table|, |table'|);
      } else {
        assert data'[..sq] == data && data'[sq] == md;
        assert SquareLaidOut(rookLike, slow, candidates[sq], data, md, |table'|);
      }
    }
  }

  /** Appending leaves the elements and prefixes that were already there. */
  lemma PrefixOfAppend<T>(xs: seq<T>, x: T, s: nat)
    requires s < |xs|
    ensures (xs + [x])[s] == xs[s] && (xs + [x])[..s] == xs[..s]
  {
  }

  /** A square laid out inside a table stays laid out when the table grows. */
  lemma LaidOutGrows(rookLike: bool, slow: AttackFn, candidates: seq<U64>, before: seq<MagicData>, m: MagicData,
                     size: nat, size': nat)
    requires |before| < 64 && SquareLaidOut(rookLike, slow, candidates, before, m, size) && size <= size'
    ensures SquareLaidOut(rookLike, slow, candidates, before, m, size')
  {
  }

  /** Appending a square's slice keeps every earlier lookup and answers the new square's. */
  lemma AppendSlice(slow: AttackFn, sq: Square, data: seq<MagicData>, table: seq<Bitboard>, md: MagicData, entries: seq<Bitboard>)
    requires |data| == sq && 1 <= md.indexBits <= 64 && md.offset == |table| && |entries| == Pow2(md.indexBits)
    requires forall s: Square, occ :: s < sq ==> Answers(data[s], table, slow, s, occ)
    requires forall occ :: entries[HashIndex(occ * md.mask, md.magic, md.indexBits)] == slow(sq, occ)
    ensures forall s: Square, occ :: s <= sq ==> Answers((data + [md])[s], table + entries, slow, s, occ)
  {
    forall s: Square, occ | s <= sq
      ensures Answers((data + [md])[s], table + entries, slow, s, occ)
    {
      if s < sq {
        assert (data + [md])[s] == data[s];
        assert Answers(data[s], table, slow, s, occ);
        assert (table + entries)[MagicIndex(data[s], occ)] == table[MagicIndex(data[s], occ)];
      } else {
        assert (data + [md])[s] == md;
        var h := HashIndex(occ * md.mask, md.magic, md.indexBits);
        assert MagicIndex(md, occ) == |table| + h;
        assert (table + entries)[|table| + h] == entries[h];
      }
    }
  }

  /** The slice sizes depend only on the index widths, not on the offsets. */
  lemma {:induction false} TableSizeOfWidths(a: seq<MagicData>, b: seq<MagicData>)
    requires |a| == |b| && forall i :: 0 <= i < |a| ==> a[i].indexBits == b[i].indexBits
    ensures TableSize(a) == TableSize(b)
    decreases |a|
  {
    if a != [] {
      TableSizeOfWidths(a[..|a| - 1], b[..|b| - 1]);
    }
  }

  /** What a complete build records about square `s`. */
  lemma ServesSquare(rookLike: bool, slow: AttackFn, candidates: seq<seq<U64>>, bm: BuiltMagic, s: Square)
    requires Serves(rookLike, slow, candidates, bm)
    ensures |bm.data| == 64 && |candidates| == 64
    ensures SquareLaidOut(rookLike, slow, candidates[s], bm.data[..s], bm.data[s], |bm.table|)
    ensures 1 <= bm.data[s].indexBits <= 64
  {
    assert Answers(bm.data[s], bm.table, slow, s, {});
  }

  /** A complete build with every offset shifted by `base` keeps its layout. */
  lemma EmbedLayout(rookLike: bool, slow: AttackFn, candidates: seq<seq<U64>>, bm: BuiltMagic, base: nat, data: seq<MagicData>)
    requires Serves(rookLike, slow, candidates, bm)
    requires |data| == 64
    requires forall s :: 0 <= s < 64 ==> data[s] == bm.data[s].(offset := bm.data[s].offset + base)
    ensures TableSize(data) == |bm.table|
    ensures forall s :: 0 <= s < 64 ==>
      data[s].mask == Relevant(rookLike, s) && data[s].indexBits == |data[s].mask| &&
      data[s].offset == base + TableSize(data[..s]) &&
      FirstAccepted(data[s].mask, slow, s, candidates[s], data[s].magic)
    ensures forall s :: 0 <= s < 64 ==>
      1 <= data[s].indexBits <= 64 && data[s].offset + Pow2(data[s].indexBits) <= base + |bm.table|
  {
    TableSizeOfWidths(data, bm.data);
    forall s | 0 <= s < 64
      ensures data[s].mask == Relevant(rookLike, s) && data[s].indexBits == |data[s].mask|
      ensures data[s].offset == base + TableSize(data[..s])
      ensures FirstAccepted(data[s].mask, slow, s, candidates[s], data[s].magic)
      ensures 1 <= data[s].indexBits <= 64 && data[s].offset + Pow2(data[s].indexBits) <= base + |bm.table|
    {
      EmbedAt(rookLike, slow, candidates, bm, base, data, s);
    }
  }

  /** One square of the shifted layout. */
  lemma EmbedAt(rookLike: bool, slow: AttackFn, candidates: seq<seq<U64>>, bm: BuiltMagic, base: nat, data: seq<MagicData>, s: Square)
    requires Serves(rookLike, slow, candidates, bm)
    requires |data| == 64
    requires forall s :: 0 <= s < 64 ==> data[s] == bm.data[s].(offset := bm.data[s].offset + base)
    ensures data[s].mask == Relevant(rookLike, s) && data[s].indexBits == |data[s].mask|
    ensures data[s].offset == base + TableSize(data[..s])
    ensures FirstAccepted(data[s].mask, slow, s, candidates[s], data[s].magic)
    ensures 1 <= data[s].indexBits <= 64 && data[s].offset + Pow2(data[s].indexBits) <= base + |bm.table|
  {
    ServesSquare(rookLike, slow, candidates, bm, s);
    var before, before' := bm.data[..s], data[..s];
    assert forall i :: 0 <= i < |before| ==> before'[i] == before[i].(offset := before[i].offset + base);
    EmbedSquare(rookLike, slow, candidates[s], before, bm.data[s], |bm.table|, base, before', data[s]);
  }

  /** Square `|before|` laid out in `size` entries, shifted by `base` together with its predecessors. */
  lemma EmbedSquare(rookLike: bool, slow: AttackFn, candidates: seq<U64>, before: seq<MagicData>, m: MagicData, size: nat,
                    base: nat, before': seq<MagicData>, m': MagicData)
    requires |before| < 64 && SquareLaidOut(rookLike, slow, candidates, before, m, size)
    requires |before'| == |before| && forall i :: 0 <= i < |before| ==> before'[i] == before[i].(offset := before[i].offset + base)
    requires m' == m.(offset := m.offset + base)
    ensures m'.mask == Relevant(rookLike, |before|) && m'.indexBits == |m'.mask|
    ensures m'.offset == base + TableSize(before')
    ensures FirstAccepted(m'.mask, slow, |before|, candidates, m'.magic)
    ensures m'.offset + Pow2(m'.indexBits) <= base + size
  {
    EmbedOffset(before, m, size, base, before', m');
  }

  /** The offset arithmetic of a shifted square. */
  lemma EmbedOffset(before: seq<MagicData>, m: MagicData, size: nat, base: nat, before': seq<MagicData>, m': MagicData)
    requires m.offset == TableSize(before) && m.offset + Pow2(m.indexBits) <= size
    requires |before'| == |before| && forall i :: 0 <= i < |before| ==> before'[i] == before[i].(offset := before[i].offset + base)
    requires m' == m.(offset := m.offset + base)
    ensures m'.offset == base + TableSize(before')
    ensures m'.offset + Pow2(m'.indexBits) <= base + size
  {
    TableSizeOfWidths(before', before);
  }

  lemma ConcatIndex<T>(a: seq<T>, b: seq<T>, c: seq<T>, i: nat)
    requires i < |b|
    ensures (a + b + c)[|a| + i] == b[i]
  {
    assert (a + b)[|a| + i] == b[i];
  }

  /** A complete build placed after `prefix` in a larger table, with offsets shifted by |prefix|, answers every lookup. */
  lemma EmbedLookups(rookLike: bool, slow: AttackFn, candidates: seq<seq<U64>>, bm: BuiltMagic,
                     prefix: seq<Bitboard>, suffix: seq<Bitboard>, data: seq<MagicData>)
    requires Serves(rookLike, slow, candidates, bm)
    requires |data| == 64
    requires forall s :: 0 <= s < 64 ==> data[s] == bm.data[s].(offset := bm.data[s].offset + |prefix|)
    ensures forall s: Square :: 1 <= data[s].indexBits <= 64
    ensures forall s: Square, occ :: MagicIndex(data[s], occ) < |prefix| + |bm.table|
    ensures forall s: Square, occ :: (prefix + bm.table + suffix)[MagicIndex(data[s], occ)] == slow(s, occ)
  {
    forall s: Square ensures 1 <= data[s].indexBits <= 64 {
      assert Answers(bm.data[s], bm.table, slow, s, {});
    }
    forall s: Square, occ
      ensures MagicIndex(data[s], occ) < |prefix| + |bm.table|
      ensures (prefix + bm.table + suffix)[MagicIndex(data[s], occ)] == slow(s, occ)
    {
      assert Answers(bm.data[s], bm.table, slow, s, occ);
      EmbedLookup(slow, s, occ, bm.data[s], bm.table, prefix, suffix, data[s]);
    }
  }

  lemma EmbedLookup(slow: AttackFn, s: Square, occ: Bitboard, m: MagicData, table: seq<Bitboard>,
                    prefix: seq<Bitboard>, suffix: seq<Bitboard>, m': MagicData)
    requires Answers(m, table, slow, s, occ)
    requires m' == m.(offset := m.offset + |prefix|)
    ensures 1 <= m'.indexBits <= 64
    ensures MagicIndex(m', occ) < |prefix| + |table|
    ensures (prefix + table + suffix)[MagicIndex(m', occ)] == slow(s, occ)
  {
    ShiftedIndex(m, |prefix|, occ);
    ConcatIndex(prefix, table, suffix, MagicIndex(m, occ));
  }

  /**
   * `data` describes a complete slider build whose slices start `base`
   * entries into the shared table `attacks` and use `size` entries of it,
   * and every lookup through `data` returns the attack set.
   */
  ghost predicate Embedded(rookLike: bool, slow: AttackFn, candidates: seq<seq<U64>>, data: seq<MagicData>,
                           base: nat, size: nat, attacks: seq<Bitboard>)
  {
    |candidates| == 64 && |data| == 64 && TableSize(data) == size && base + size <= |attacks| &&
    (forall s :: 0 <= s < 64 ==>
      data[s].mask == Relevant(rookLike, s) && data[s].indexBits == |data[s].mask| &&
      data[s].offset == base + TableSize(data[..s]) &&
      FirstAccepted(data[s].mask, slow, s, candidates[s], data[s].magic)) &&
    (forall s :: 0 <= s < 64 ==>
      1 <= data[s].indexBits <= 64 && data[s].offset + Pow2(data[s].indexBits) <= base + size) &&
    (forall s: Square, occ :: attacks[MagicIndex(data[s], occ)] == slow(s, occ))
  }

  /** A complete build placed after `prefix` in a larger table, with its offsets shifted by |prefix|. */
  lemma EmbedBuild(rookLike: bool, slow: AttackFn, candidates: seq<seq<U64>>, bm: BuiltMagic,
                   prefix: seq<Bitboard>, suffix: seq<Bitboard>, data: seq<MagicData>)
    requires Serves(rookLike, slow, candidates, bm)
    requires |data| == 64
    requires forall s :: 0 <= s < 64 ==> data[s] == bm.data[s].(offset := bm.data[s].offset + |prefix|)
    ensures Embedded(rookLike, slow, candidates, data, |prefix|, |bm.table|, prefix + bm.table + suffix)
  {
    EmbedLayout(rookLike, slow, candidates, bm, |prefix|, data);
    EmbedLookups(rookLike, slow, candidates, bm, prefix, suffix, data);
  }
}
