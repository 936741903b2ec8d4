/**
 * The combined slider attack table of magic.hpp: initMagic concatenates the
 * rook and bishop builds, and rookAttacks, bishopAttacks and queenAttacks
 * look attack sets up in it.
 */
module Sliders {
  import opened Bitboards
  import opened Magic

  /** ROOK_MAGIC_DATA, BISHOP_MAGIC_DATA and SLIDER_ATTACKS, built once by InitMagic and passed to every lookup. */
  datatype SliderTables = SliderTables(rook: seq<MagicData>, bishop: seq<MagicData>, attacks: seq<Bitboard>)

  /** Every square's slice lies inside the shared table, so every lookup is in bounds. */
  ghost predicate WellFormed(t: SliderTables)
  {
    |t.rook| == 64 && |t.bishop| == 64 &&
    forall sq :: 0 <= sq < 64 ==>
      1 <= t.rook[sq].indexBits <= 64 && t.rook[sq].offset + Pow2(t.rook[sq].indexBits) <= |t.attacks| &&
      1 <= t.bishop[sq].indexBits <= 64 && t.bishop[sq].offset + Pow2(t.bishop[sq].indexBits) <= |t.attacks|
  }

  /** Every lookup returns the slow ray cast. */
  ghost predicate Exact(t: SliderTables)
  {
    WellFormed(t) &&
    forall sq: Square, occ ::
      t.attacks[MagicIndex(t.rook[sq], occ)] == RookRayCast(sq, occ) &&
      t.attacks[MagicIndex(t.bishop[sq], occ)] == BishopRayCast(sq, occ)
  }

  /** rookAttacks: on exact tables, the squares a rook on `square` attacks. */
  function RookAttacks(t: SliderTables, square: Square, occ: Bitboard): (a: Bitboard)
    requires WellFormed(t)
    ensures Exact(t) ==> a == RookRayCast(square, occ)
  {
    t.attacks[MagicIndex(t.rook[square], occ)]
  }

  /** bishopAttacks: on exact tables, the squares a bishop on `square` attacks. */
  function BishopAttacks(t: SliderTables, square: Square, occ: Bitboard): (a: Bitboard)
    requires WellFormed(t)
    ensures Exact(t) ==> a == BishopRayCast(square, occ)
  {
    t.attacks[MagicIndex(t.bishop[square], occ)]
  }

  /** queenAttacks: the union of the rook and bishop lookups. */
  function QueenAttacks(t: SliderTables, square: Square, occ: Bitboard): (a: Bitboard)
    requires WellFormed(t)
    ensures a == RookAttacks(t, square, occ) + BishopAttacks(t, square, occ)
    ensures Exact(t) ==> a == RookRayCast(square, occ) + BishopRayCast(square, occ)
  {
    RookAttacks(t, square, occ) + BishopAttacks(t, square, occ)
  }

  /**
   * The layout initMagic produces: the rook slices first, square after
   * square, then the bishop slices shifted past the whole rook table.
   */
  ghost predicate Layout(t: SliderTables)
  {
    |t.rook| == 64 && |t.bishop| == 64 &&
    |t.attacks| == TableSize(t.rook) + TableSize(t.bishop) &&
    forall sq :: 0 <= sq < 64 ==>
      t.rook[sq].mask == RookRelevant(sq) && t.rook[sq].indexBits == |RookRelevant(sq)| &&
      t.rook[sq].offset == TableSize(t.rook[..sq]) &&
      t.bishop[sq].mask == BishopRelevant(sq) && t.bishop[sq].indexBits == |BishopRelevant(sq)| &&
      t.bishop[sq].offset == TableSize(t.rook) + TableSize(t.bishop[..sq])
  }

  /**
   * initMagic: build the rook tables, then the bishop tables, and concatenate
   * them, shifting every bishop offset by the rook table's length. When
   * every square has an accepted candidate, each lookup equals the slow ray
   * cast for every occupancy.
   */
  method InitMagic(rookCandidates: seq<seq<U64>>, bishopCandidates: seq<seq<U64>>) returns (r: Option<SliderTables>)
    requires |rookCandidates| == 64 && |bishopCandidates| == 64
    ensures r.Some? ==> Exact(r.value) && Layout(r.value)
    ensures r.Some? ==> forall sq: Square ::
      FirstAccepted(RookRelevant(sq), RookRayCast, sq, rookCandidates[sq], r.value.rook[sq].magic) &&
      FirstAccepted(BishopRelevant(sq), BishopRayCast, sq, bishopCandidates[sq], r.value.bishop[sq].magic)
    ensures r.None? ==> exists sq: Square ::
      !Solvable(RookRelevant(sq), RookRayCast, sq, rookCandidates[sq]) ||
      !Solvable(BishopRelevant(sq), BishopRayCast, sq, bishopCandidates[sq])
  {
    RayCastsCoherent();
    var rook := BuildSliderMagics(true, RookRayCast, rookCandidates);
    if rook.None? {
      return None;
    }
    var bishop := BuildSliderMagics(false, BishopRayCast, bishopCandidates);
    if bishop.None? {
      return None;
    }
    var bishopData := ShiftOffsets(bishop.value.data, |rook.value.table|);
    r := Some(SliderTables(rook.value.data, bishopData, rook.value.table + bishop.value.table));
    Assemble(rookCandidates, bishopCandidates, rook.value, bishop.value, r.value);
  }

  /** The bishop half of initMagic's merge: every offset moved `base` entries further into the shared table. */
  method ShiftOffsets(data: seq<MagicData>, base: nat) returns (shifted: seq<MagicData>)
    requires |data| == 64
    ensures |shifted| == 64
    ensures forall s :: 0 <= s < 64 ==> shifted[s] == data[s].(offset := data[s].offset + base)
  {
    var a := new MagicData[64](i requires 0 <= i < 64 => data[i]);
    for sq := 0 to 64
      invariant forall s :: 0 <= s < sq ==> a[s] == data[s].(offset := data[s].offset + base)
      invariant forall s :: sq <= s < 64 ==> a[s] == data[s]
    {
      a[sq] := a[sq].(offset := a[sq].offset + base);
    }
    shifted := a[..];
  }

  /** The rook build followed by the shifted bishop build forms exact tables with initMagic's layout. */
  lemma Assemble(rookCandidates: seq<seq<U64>>, bishopCandidates: seq<seq<U64>>, rook: BuiltMagic, bishop: BuiltMagic, t: SliderTables)
    requires Serves(true, RookRayCast, rookCandidates, rook)
    requires Serves(false, BishopRayCast, bishopCandidates, bishop)
    requires t.rook == rook.data && t.attacks == rook.table + bishop.table && |t.bishop| == 64
    requires forall s :: 0 <= s < 64 ==> t.bishop[s] == bishop.data[s].(offset := bishop.data[s].offset + |rook.table|)
    ensures Exact(t) && Layout(t)
    ensures forall sq: Square ::
      FirstAccepted(RookRelevant(sq), RookRayCast, sq, rookCandidates[sq], t.rook[sq].magic) &&
      FirstAccepted(BishopRelevant(sq), BishopRayCast, sq, bishopCandidates[sq], t.bishop[sq].magic)
  {
    var none: seq<Bitboard> := [];
    assert none + rook.table + bishop.table == t.attacks;
    assert rook.table + bishop.table + none == t.attacks;
    EmbedBuild(true, RookRayCast, rookCandidates, rook, none, bishop.table, rook.data);
    EmbedBuild(false, BishopRayCast, bishopCandidates, bishop, rook.table, none, t.bishop);
    MergeExact(t, rookCandidates, bishopCandidates, |rook.table|);
  }

  /** Two embedded builds, rook slices first and bishop slices after them, make exact tables. */
  lemma MergeExact(t: SliderTables, rookCandidates: seq<seq<U64>>, bishopCandidates: seq<seq<U64>>, rookSize: nat)
    requires rookSize <= |t.attacks|
    requires Embedded(true, RookRayCast, rookCandidates, t.rook, 0, rookSize, t.attacks)
    requires Embedded(false, BishopRayCast, bishopCandidates, t.bishop, rookSize, |t.attacks| - rookSize, t.attacks)
    ensures Exact(t) && Layout(t)
    ensures forall sq: Square ::
      FirstAccepted(RookRelevant(sq), RookRayCast, sq, rookCandidates[sq], t.rook[sq].magic) &&
      FirstAccepted(BishopRelevant(sq), BishopRayCast, sq, bishopCandidates[sq], t.bishop[sq].magic)
  {
  }
}
