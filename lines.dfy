/**
 * Line geometry used by check analysis (sameLineOrDiag and betweenMask in
 * board.cpp): which squares share a rank, file or diagonal, and the squares
 * strictly between two of them.
 */
module Lines {
  import opened Bitboards
  import opened Leapers

  /** sameLineOrDiag: the two squares share a rank, a file or a diagonal. */
  predicate SameLineOrDiag(a: Square, b: Square)
  {
    RankOf(a) == RankOf(b) || FileOf(a) == FileOf(b) ||
    Abs(RankOf(a) - RankOf(b)) == Abs(FileOf(a) - FileOf(b))
  }

  /** The number of king steps from `a` to `b`. */
  function Distance(a: Square, b: Square): nat
  {
    var dr := Abs(RankOf(b) - RankOf(a));
    var df := Abs(FileOf(b) - FileOf(a));
    if dr < df then df else dr
  }

  /** The direction whose rank and file steps are `dr` and `df`. */
  function DirectionOf(dr: int, df: int): (d: Direction)
    requires -1 <= dr <= 1 && -1 <= df <= 1 && (dr != 0 || df != 0)
    ensures RankStep(d) == dr && FileStep(d) == df
  {
    if dr == 1 then (if df == 1 then NorthEast else if df == -1 then NorthWest else North)
    else if dr == -1 then (if df == 1 then SouthEast else if df == -1 then SouthWest else South)
    else if df == 1 then East
    else West
  }

  /** The step direction betweenMask walks from `a` towards `b`: the signs of the rank and file differences. */
  function DirectionTo(a: Square, b: Square): Direction
    requires a != b
  {
    SqOfCoords(a);
    SqOfCoords(b);
    DirectionOf(Sign(RankOf(b) - RankOf(a)), Sign(FileOf(b) - FileOf(a)))
  }

  lemma StepsDetermineDirection(d: Direction, d': Direction)
    requires RankStep(d) == RankStep(d') && FileStep(d) == FileStep(d')
    ensures d == d'
  {
  }

  /**
   * Step `i` of a ray from `a` names a square on a common line with `a`;
   * walking from `a` towards it takes exactly `i` steps in that direction.
   */
  lemma TargetOnLine(a: Square, d: Direction, i: int)
    requires i >= 1 && HasTarget(a, d, i)
    ensures Target(a, d, i) != a && SameLineOrDiag(a, Target(a, d, i))
    ensures DirectionTo(a, Target(a, d, i)) == d && Distance(a, Target(a, d, i)) == i
  {
    TargetAway(a, d, i);
    var b := Target(a, d, i);
    StepsDetermineDirection(DirectionTo(a, b), d);
  }

  /** Conversely, a square on a common line with `a` is reached from it along DirectionTo after Distance steps. */
  lemma LineReaches(a: Square, b: Square)
    requires a != b && SameLineOrDiag(a, b)
    ensures HasTarget(a, DirectionTo(a, b), Distance(a, b))
    ensures Target(a, DirectionTo(a, b), Distance(a, b)) == b
    ensures Distance(a, b) >= 1
  {
    SqOfCoords(a);
    SqOfCoords(b);
  }

  /** A ray visits each square once: two steps that give the same square are the same step. */
  lemma TargetInjective(a: Square, d: Direction, i: int, j: int)
    requires HasTarget(a, d, i) && HasTarget(a, d, j) && Target(a, d, i) == Target(a, d, j)
    ensures i == j
  {
    var x := Target(a, d, i);
    assert RankOf(x) == Offset(RankOf(a), RankStep(d), i) == Offset(RankOf(a), RankStep(d), j);
    assert FileOf(x) == Offset(FileOf(a), FileStep(d), i) == Offset(FileOf(a), FileStep(d), j);
  }

  lemma TargetsDiffer(a: Square, d: Direction, i: int, j: int)
    requires HasTarget(a, d, i) && HasTarget(a, d, j) && i != j
    ensures Target(a, d, i) != Target(a, d, j)
  {
    if Target(a, d, i) == Target(a, d, j) {
      TargetInjective(a, d, i, j);
    }
  }

  /** Steps 1 to `n` of the ray from `a` towards `d`, as far as they are on the board. */
  function RaySteps(a: Square, d: Direction, n: int): Bitboard
  {
    set j | 1 <= j <= n && HasTarget(a, d, j) :: Target(a, d, j)
  }

  /**
   * The squares strictly between `a` and `b`: none when they coincide or
   * share no line, otherwise the steps from `a` towards `b` short of `b`.
   */
  function Between(a: Square, b: Square): Bitboard
  {
    if a == b || !SameLineOrDiag(a, b) then {} else RaySteps(a, DirectionTo(a, b), Distance(a, b) - 1)
  }

  /** The loop of betweenMask collects step `k` at coordinates (`r`, `f`) and moves on. */
  lemma BetweenStep(a: Square, d: Direction, n: int, k: int, mask: Bitboard)
    requires 1 <= k < n && HasTarget(a, d, n) && mask == RaySteps(a, d, k - 1)
    ensures HasTarget(a, d, k)
    ensures mask + {Target(a, d, k)} == RaySteps(a, d, k)
    ensures Offset(RankOf(a), RankStep(d), k) * 8 + Offset(FileOf(a), FileStep(d), k) == Target(a, d, k)
    ensures Offset(RankOf(a), RankStep(d), k) + RankStep(d) == Offset(RankOf(a), RankStep(d), k + 1)
    ensures Offset(FileOf(a), FileStep(d), k) + FileStep(d) == Offset(FileOf(a), FileStep(d), k + 1)
  {
    TargetsBefore(a, d, n, k);
  }

  /** One pass of the betweenMask loop, at step `k` short of `b`. */
  lemma WalkStep(a: Square, b: Square, k: int, r: int, f: int, mask: Bitboard)
    requires a != b && SameLineOrDiag(a, b) && 1 <= k <= Distance(a, b)
    requires r == Offset(RankOf(a), RankStep(DirectionTo(a, b)), k) && f == Offset(FileOf(a), FileStep(DirectionTo(a, b)), k)
    requires r != RankOf(b) || f != FileOf(b)
    requires mask == RaySteps(a, DirectionTo(a, b), k - 1)
    ensures k < Distance(a, b) && 0 <= r * 8 + f < 64
    ensures mask + {r * 8 + f} == RaySteps(a, DirectionTo(a, b), k)
    ensures r + RankStep(DirectionTo(a, b)) == Offset(RankOf(a), RankStep(DirectionTo(a, b)), k + 1)
    ensures f + FileStep(DirectionTo(a, b)) == Offset(FileOf(a), FileStep(DirectionTo(a, b)), k + 1)
  {
    LineReaches(a, b);
    var d, n := DirectionTo(a, b), Distance(a, b);
    if k == n {
      SqOfCoords(b);
      assert false;
    }
    BetweenStep(a, d, n, k, mask);
  }

  /** The walk from `a` towards `b` meets the coordinates of `b` only at the last step. */
  lemma LoopEndsAtTarget(a: Square, b: Square, k: int)
    requires a != b && SameLineOrDiag(a, b) && 1 <= k <= Distance(a, b)
    requires Offset(RankOf(a), RankStep(DirectionTo(a, b)), k) == RankOf(b)
    requires Offset(FileOf(a), FileStep(DirectionTo(a, b)), k) == FileOf(b)
    ensures k == Distance(a, b)
  {
    LineReaches(a, b);
    var d, n := DirectionTo(a, b), Distance(a, b);
    TargetsBefore(a, d, n, k);
    SqOfCoords(b);
    TargetInjective(a, d, k, n);
  }

  /** betweenMask: walk from `a` towards `b` one step at a time, collecting every square before `b`. */
  method BetweenMask(a: Square, b: Square) returns (mask: Bitboard)
    ensures mask == Between(a, b)
  {
    if a == b {
      return {};
    }
    if !SameLineOrDiag(a, b) {
      return {};
    }
    var ar, af := RankOf(a), FileOf(a);
    var br, bf := RankOf(b), FileOf(b);
    var dr := if br > ar then 1 else if br < ar then -1 else 0;
    var df := if bf > af then 1 else if bf < af then -1 else 0;
    ghost var d := DirectionTo(a, b);
    ghost var n := Distance(a, b);
    assert RankStep(d) == dr && FileStep(d) == df;
    LineReaches(a, b);
    mask := {};
    var r, f := ar + dr, af + df;
    ghost var k := 1;
    while r != br || f != bf
      invariant 1 <= k <= n
      invariant r == Offset(RankOf(a), RankStep(d), k) && f == Offset(FileOf(a), FileStep(d), k)
      invariant mask == RaySteps(a, d, k - 1)
      decreases n - k
    {
      WalkStep(a, b, k, r, f, mask);
      mask := mask + {r * 8 + f};
      r, f := r + dr, f + df;
      k := k + 1;
    }
    LoopEndsAtTarget(a, b, k);
    DropEnds(a, b, mask);
    mask := mask - {a};
    mask := mask - {b};
  }

  /** Clearing both endpoints from the walked steps leaves the squares between. */
  lemma DropEnds(a: Square, b: Square, mask: Bitboard)
    requires a != b && SameLineOrDiag(a, b) && mask == RaySteps(a, DirectionTo(a, b), Distance(a, b) - 1)
    ensures mask - {a} - {b} == Between(a, b)
  {
    BetweenExcludesEnds(a, b);
  }

  /** Neither endpoint is between the two. */
  lemma BetweenExcludesEnds(a: Square, b: Square)
    ensures a !in Between(a, b) && b !in Between(a, b)
  {
    if a != b && SameLineOrDiag(a, b) {
      LineReaches(a, b);
      var d, n := DirectionTo(a, b), Distance(a, b);
      forall j | 1 <= j <= n - 1 && HasTarget(a, d, j)
        ensures Target(a, d, j) != a && Target(a, d, j) != b
      {
        TargetAway(a, d, j);
        if Target(a, d, j) == b {
          TargetInjective(a, d, j, n);
        }
      }
    }
  }

  /** The squares between `a` and step `i` of a ray from `a` are the steps before `i`. */
  lemma BetweenOnRay(a: Square, d: Direction, i: int)
    requires i >= 1 && HasTarget(a, d, i)
    ensures Between(a, Target(a, d, i)) == RaySteps(a, d, i - 1)
  {
    TargetOnLine(a, d, i);
  }

  /** betweenMask does not depend on the order of its arguments. */
  lemma BetweenSymmetric(a: Square, b: Square)
    ensures Between(a, b) == Between(b, a)
  {
    if a != b && SameLineOrDiag(a, b) {
      LineReaches(a, b);
      var d, n := DirectionTo(a, b), Distance(a, b);
      TargetBack(a, d, n, n);
      SqOfCoords(a);
      assert Target(b, Opposite(d), n) == a;
      BetweenOnRay(b, Opposite(d), n);
      forall s ensures s in Between(a, b) <==> s in RaySteps(b, Opposite(d), n - 1) {
        if s in Between(a, b) {
          var j :| 1 <= j <= n - 1 && HasTarget(a, d, j) && Target(a, d, j) == s;
          TargetBack(a, d, n, n - j);
        }
        if s in RaySteps(b, Opposite(d), n - 1) {
          var j :| 1 <= j <= n - 1 && HasTarget(b, Opposite(d), j) && Target(b, Opposite(d), j) == s;
          TargetBack(a, d, n, j);
          TargetsBefore(a, d, n, n - j);
        }
      }
    }
  }

  /** A ray cast that stops at step `i` holds exactly the steps up to `i`. */
  lemma RayUpToStop(a: Square, d: Direction, occ: Bitboard, i: int, s: Square)
    requires 1 <= i < 8 && HasTarget(a, d, i) && Target(a, d, i) in occ && ClearBefore(a, d, occ, i)
    ensures s in Ray(a, d, occ) <==> s in RaySteps(a, d, i)
  {
    RayMembership(a, d, occ, s);
    if s in RaySteps(a, d, i) {
      var j :| 1 <= j <= i && HasTarget(a, d, j) && Target(a, d, j) == s;
      assert ClearBefore(a, d, occ, j);
    }
  }

  /**
   * Where a ray cast from `a` stops on an occupied square `b`, the ray is
   * exactly the squares between the two and `b` itself, and the squares
   * between are all empty.
   */
  lemma RayToBlocker(a: Square, d: Direction, occ: Bitboard, b: Square)
    requires b in Ray(a, d, occ) && b in occ
    ensures Ray(a, d, occ) == Between(a, b) + {b}
    ensures Between(a, b) * occ == {}
  {
    RayMembership(a, d, occ, b);
    var i :| 1 <= i < 8 && HasTarget(a, d, i) && Target(a, d, i) == b && ClearBefore(a, d, occ, i);
    OnlyBlocker(a, d, occ, i, b);
    BetweenOnRay(a, d, i);
    StepsExtend(a, d, i);
    forall s | s in RaySteps(a, d, i - 1) ensures s !in occ {
      var j :| 1 <= j <= i - 1 && HasTarget(a, d, j) && Target(a, d, j) == s;
    }
  }

  /** Two squares on a common line lie on the same ray: one direction from `a` reaches a given square. */
  lemma RayDirectionUnique(a: Square, d: Direction, d': Direction, i: int, j: int)
    requires i >= 1 && j >= 1 && HasTarget(a, d, i) && HasTarget(a, d', j)
    requires Target(a, d, i) == Target(a, d', j)
    ensures d == d' && i == j
  {
    TargetOnLine(a, d, i);
    TargetOnLine(a, d', j);
  }

  /** A clear ray stays clear one more step when the next square is empty. */
  lemma ClearExtend(a: Square, d: Direction, occ: Bitboard, k: int)
    requires k >= 1 && ClearBefore(a, d, occ, k) && HasTarget(a, d, k) && Target(a, d, k) !in occ
    ensures ClearBefore(a, d, occ, k + 1)
  {
  }

  /** Removing pieces keeps a clear ray clear. */
  lemma ClearFewer(a: Square, d: Direction, occ: Bitboard, fewer: Bitboard, k: int)
    requires fewer <= occ && ClearBefore(a, d, occ, k)
    ensures ClearBefore(a, d, fewer, k)
  {
  }

  /** One more step of a ray adds its square. */
  lemma StepsExtend(a: Square, d: Direction, j: int)
    requires j >= 1 && HasTarget(a, d, j)
    ensures RaySteps(a, d, j) == RaySteps(a, d, j - 1) + {Target(a, d, j)}
  {
  }

  /**
   * A ray cast that stops at step `i` on the occupied square `x`: `x` is the
   * only occupied square the ray holds.
   */
  lemma OnlyBlocker(a: Square, d: Direction, occ: Bitboard, i: int, x: Square)
    requires 1 <= i < 8 && HasTarget(a, d, i) && Target(a, d, i) == x && x in occ && ClearBefore(a, d, occ, i)
    ensures x in Ray(a, d, occ) && Ray(a, d, occ) == RaySteps(a, d, i)
    ensures forall s :: s in Ray(a, d, occ) && s in occ ==> s == x
  {
    forall s ensures s in Ray(a, d, occ) <==> s in RaySteps(a, d, i) {
      RayUpToStop(a, d, occ, i, s);
    }
  }

  /** A ray cast that runs off the board at step `k` over empty squares holds no occupied square. */
  lemma NoBlocker(a: Square, d: Direction, occ: Bitboard, k: int)
    requires k >= 1 && !HasTarget(a, d, k) && ClearBefore(a, d, occ, k)
    ensures Ray(a, d, occ) * occ == {}
  {
    forall s | s in Ray(a, d, occ) ensures s !in occ {
      RayMembership(a, d, occ, s);
      var j :| 1 <= j < 8 && HasTarget(a, d, j) && Target(a, d, j) == s && ClearBefore(a, d, occ, j);
      if j >= k {
        TargetsBefore(a, d, j, k);
      }
    }
  }
}
