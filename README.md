# Bitboard move generation of a small C++ chess engine

This project models, in Dafny, the core of a bitboard chess engine. A
position is six piece boards and two colour boards, each a 64-bit mask
with a1 as bit 0 and h8 as bit 63. The core covers the following:

- **Leaper tables.** The pawn and knight attack tables built at compile
  time, the king's shift expression, and the rook and bishop ray tables.
- **Magic slider tables.** The relevant-occupancy masks, the slow ray
  casts, the subset enumeration, the search for a collision-free magic
  multiplier per square, the concatenated attack table, and the
  rook/bishop/queen lookups through `magicIndex`.
- **Pseudo-legal move generation** for pawns, knights, bishops, rooks,
  queens and kings (no castling, en passant or promotion, as in the
  source).
- **Check analysis** (`analyzeChecks`): the checkers, the block mask for a
  single check, the pinned pieces with their pin rays, and the enemy attack
  map. Also the legal-move filter `generateLegalMoves`.
- **Moves on the board object.** `makeMove` / `unmakeMove` change the board
  in place and use an undo stack.
- **Board text.** FEN piece placement (`initFEN`) and the 64-character
  board string (`toString`).
- **Static evaluation**: material, the bishop pair and a tempo bonus.

Modules, one per file:

- `Bitboards` (bitboards.dfy): squares, masks as `set<Square>`, shifts,
  popLSB, directions and rays.
- `Leapers` (leapers.dfy): the pawn, knight and king attack sets and the
  ray tables of board.hpp.
- `Lines` (lines.dfy): `sameLineOrDiag` and `betweenMask`.
- `Magic` (magic.dfy): everything in magic.hpp up to `buildSliderMagics`.
- `Sliders` (sliders.dfy): `initMagic` and the three lookups.
- `Attacks` (attacks.dfy): `kingSquare`, the attack maps of a set of
  pieces, and `squareAttacked`.
- `Boards` (boards.dfy): `Move`, the board fields as a `Position` value,
  the `Board` class with `makeMove` / `unmakeMove`, and the undo stack.
- `MoveGen` (movegen.dfy): the six move generators.
- `Checks` (checks.dfy): `analyzeChecks`.
- `Legal` (legal.dfy): `generateLegalMoves`.
- `Fen` (fen.dfy): `initFEN` and `toString`.
- `Evaluate` (evaluate.dfy): `evaluate`.

How the source's types are modelled:

- **Masks and bit operations.** A mask is the set of its squares:
  - `&` is `*`, `|` is `+`, `& ~x` is `-`, and `^` is symmetric difference.
  - `<<` / `>>` drop the bits pushed off the board.
  - popcount is `|b|`, `countr_zero` is the least member, and popLSB
    removes it.
- **Magic hashing.** The hash works on a mask's numeric value. The product
  wraps modulo 2^64, as unsigned 64-bit multiplication does.
- **The global tables** (`ROOK_MAGIC_DATA`, `BISHOP_MAGIC_DATA`,
  `SLIDER_ATTACKS`) are one `SliderTables` value. `InitMagic` builds it and
  every lookup receives it. `WellFormed` says every lookup is in bounds.
  `Exact` says every lookup returns the slow ray cast. `InitMagic` proves
  `Exact` of what it builds.
- **`const` methods of `Board`** are functions of a `Position` value. The
  loops the source runs (popLSB loops, table fills, ray walks,
  `betweenMask`, `markPin`, the magic search, the FEN placement loop,
  `toString`) are methods. Each is proved equal to such a function, or to
  the property the source relies on.

## Model

| member | source | states |
|---|---|---|
| Bitboards.Sq | src/magic.hpp:32-33 | the square `r * 8 + f` has rank `r` and file `f`, so it inverts rankOf/fileOf |
| Bitboards.SqOfCoords | src/magic.hpp:32-33 | every square is rebuilt from its own rank and file |
| Bitboards.ShlBit | src/board.hpp:92-94 | shifting a single bit left by `n` gives the square `s + n`, and nothing when that is past h8 |
| Bitboards.ShrBit | src/board.hpp:103-105 | shifting a single bit right by `n` gives the square `s - n`, and nothing when that is below a1 |
| Bitboards.Displace | src/board.hpp:111-132 | adding `8a + b` to a square moves it `a` ranks and `b` files exactly when the destination is on the board |
| Bitboards.DerivedMasks | src/board.hpp:80-87 | FILE_B = FILE_A << 1, FILE_G = FILE_H >> 1, RANK_2 = RANK_1 << 8 and RANK_7 = RANK_1 << 48 are exactly the b and g files and the second and seventh ranks |
| Bitboards.Lsb | src/board.cpp:13-17 | countr_zero: a member of the board no greater than any other member |
| Bitboards.PopLsb | src/board.cpp:13-17 | popLSB returns the lowest square and leaves the board without it, one square smaller |
| Bitboards.SquaresOrdered | src/board.cpp:13-17 | popping until empty visits every square of the board exactly once, in increasing order |
| Bitboards.SingletonIsLsb | src/board.cpp:442-444 | a board holding one square is the singleton of its lowest square, so countr_zero names the only checker |
| Bitboards.RayMembership | src/magic.hpp:65-77 | a square is on a cast ray iff it is the k-th step in that direction for some k and no earlier step is occupied |
| Bitboards.RayFromExcludesOrigin | src/magic.hpp:65-91 | a cast ray never holds its own origin |
| Bitboards.RayFromDependsOnInterior | src/magic.hpp:37-63 | a ray depends only on squares followed by a further step, so the last square before the edge never matters (why the masks leave the edge out) |
| Bitboards.RaySymmetric | src/magic.hpp:65-91 | `t` is on the ray from `s` in direction `d` iff `s` is on the ray from `t` in the opposite direction, for the same occupancy |
| Leapers.WhitePawnAttacks | src/board.hpp:89-98 | WHITE_PAWN_ATTACKS[s]: the bit of `s` off the a-file shifted by 7 and off the h-file shifted by 9; its meaning is stated by WhitePawnAttacksExact and WhitePawnAttacksGeometry |
| Leapers.WhitePawnAttacksExact | src/board.hpp:89-98 | the white pawn table holds `s + 7` unless `s` is on the a-file and `s + 9` unless it is on the h-file, and nothing else |
| Leapers.WhitePawnAttacksGeometry | src/board.hpp:89-98 | a white pawn attacks exactly the squares one rank up and one file aside; nothing from the eighth rank |
| Leapers.BlackPawnAttacks | src/board.hpp:100-109 | BLACK_PAWN_ATTACKS[s]: the bit of `s` off the a-file shifted down by 9 and off the h-file shifted down by 7; its meaning is stated by BlackPawnAttacksExact and BlackPawnAttacksGeometry |
| Leapers.BlackPawnAttacksExact | src/board.hpp:100-109 | the black pawn table holds `s - 9` unless `s` is on the a-file and `s - 7` unless it is on the h-file, and nothing else |
| Leapers.BlackPawnAttacksGeometry | src/board.hpp:100-109 | a black pawn attacks exactly the squares one rank down and one file aside; nothing from the first rank |
| Leapers.PawnAttacksReverse | src/board.hpp:89-109 | `t` is in WHITE_PAWN_ATTACKS[s] iff `s` is in BLACK_PAWN_ATTACKS[t]: the reverse lookup squareAttacked depends on |
| Leapers.KnightAttacks | src/board.hpp:111-132 | KNIGHT_ATTACKS[s]: the eight shifts of the bit of `s`, each under its own file and rank guards; KnightAttacksExact proves it is exactly the knight jumps |
| Leapers.KnightAttacksIndex | src/board.hpp:111-132 | the knight table holds `s` ±6, ±10, ±15, ±17 under exactly the file and rank guards of its eight tests |
| Leapers.ClippedShl | src/board.hpp:118-121 | one guarded left shift adds `s + n` exactly when `s` is on none of the excluded files and ranks |
| Leapers.ClippedShr | src/board.hpp:124-127 | one guarded right shift adds `s - n` exactly when `s` is on none of the excluded files and ranks |
| Leapers.KnightAttacksExact | src/board.hpp:111-132 | the knight table holds exactly the on-board squares two ranks and one file, or one rank and two files, away |
| Leapers.KnightAttacksSymmetric | src/board.hpp:111-132 | `t` is in KNIGHT_ATTACKS[s] iff `s` is in KNIGHT_ATTACKS[t] |
| Leapers.KnightAttacksA1 | src/board.hpp:111-132 | from a1 a knight reaches exactly b3 and c2 |
| Leapers.KingAttacks | src/board.cpp:90-103 | kingAttacksFrom: the eight shifts of the king bit, the sideways ones masked off the a- or h-file; KingAttacksExact proves it is exactly the adjacent squares |
| Leapers.KingAttacksIndex | src/board.cpp:90-103 | the king's shift expression holds `s ± 8` always, `s + 1`, `s + 9`, `s - 7` off the h-file and `s - 1`, `s + 7`, `s - 9` off the a-file |
| Leapers.KingAttacksExact | src/board.cpp:90-103 | the king's attack set is exactly the adjacent squares |
| Leapers.KingAttacksSymmetric | src/board.cpp:90-103 | `t` is next to `s` iff `s` is next to `t` |
| Leapers.FillTable | src/board.hpp:91-96 | the 64-entry table loop stores the entry of square `s` at index `s`, for every square |
| Leapers.MakeWhitePawnAttacks | src/board.hpp:89-98 | entry `s` of the table is the white pawn attack set of `s` |
| Leapers.MakeBlackPawnAttacks | src/board.hpp:100-109 | entry `s` of the table is the black pawn attack set of `s` |
| Leapers.MakeKnightAttacks | src/board.hpp:111-132 | entry `s` of the table is the knight attack set of `s` |
| Leapers.StepOkExact | src/board.hpp:150-158 | a step by `8dr + df` passes the walk's tests (on the board, at most one rank and file apart) iff the square `dr` ranks and `df` files away exists, and then it lands there |
| Leapers.RayWalkExact | src/board.hpp:148-161 | walking from `s` by `8dr + df` collects exactly the squares beyond `s` in that direction |
| Leapers.WalkRay | src/board.hpp:148-161 | the `while (true)` walk adds exactly the walk's squares to the mask |
| Leapers.SquareRays | src/board.hpp:146-165 | the mask of one square is the union of its walks over every delta |
| Leapers.MakeRayTable | src/board.hpp:143-167 | entry `s` is the union of the walks from `s` over the given deltas |
| Leapers.RookRays | src/board.hpp:169 | ROOK_RAYS: makeRayTable over the deltas 8, -8, 1, -1; RookRaysExact proves it is the rank and file of `s` without `s` |
| Leapers.BishopRays | src/board.hpp:170 | BISHOP_RAYS: makeRayTable over the deltas 9, 7, -7, -9; BishopRaysExact proves it is the two diagonals of `s` without `s` |
| Leapers.RookRaysWalks | src/board.hpp:169 | ROOK_RAYS[s] is the union of the walks by 8, -8, 1 and -1 |
| Leapers.BishopRaysWalks | src/board.hpp:170 | BISHOP_RAYS[s] is the union of the walks by 9, 7, -7 and -9 |
| Leapers.RookRaysExact | src/board.hpp:143-169 | ROOK_RAYS[s] holds exactly the other squares of s's rank and file |
| Leapers.BishopRaysExact | src/board.hpp:143-170 | BISHOP_RAYS[s] holds exactly the other squares of s's two diagonals |
| Lines.DirectionOf | src/board.cpp:36-37 | the direction whose rank and file steps are the given signs |
| Lines.TargetOnLine | src/board.cpp:25-29 | the k-th step from `a` is on a common line with `a`, in direction `d`, at distance `k` |
| Lines.LineReaches | src/board.cpp:25-40 | when `a != b` share a line, walking from `a` toward `b` reaches `b` after their distance in steps |
| Lines.BetweenMask | src/board.cpp:31-48 | betweenMask returns the squares strictly between `a` and `b` on their common line, and nothing when there is none |
| Lines.BetweenExcludesEnds | src/board.cpp:45-46 | neither end is in the between mask |
| Lines.BetweenOnRay | src/board.cpp:31-48 | between `a` and its k-th step lie exactly the first `k - 1` steps |
| Lines.BetweenSymmetric | src/board.cpp:31-48 | the between mask of `a, b` is that of `b, a` |
| Lines.RayToBlocker | src/magic.hpp:65-91 | a ray that ends on a piece `b` is the between mask of origin and `b` plus `b`, and that mask holds no piece |
| Lines.RayDirectionUnique | src/board.cpp:459-497 | a square is reached from `a` in one direction and at one distance only |
| Lines.OnlyBlocker | src/magic.hpp:65-91 | the first piece met is the only piece on the ray, and the ray is the steps up to it |
| Lines.NoBlocker | src/magic.hpp:65-91 | a ray that runs off the board holds no piece |
| Magic.RookRayCast | src/magic.hpp:65-77 | the squares a rook attacks: the four orthogonal rays, each up to and including the first piece; RookAttacksSlow computes it and RayCastSymmetric, RayCastMasked state its properties |
| Magic.BishopRayCast | src/magic.hpp:79-91 | the squares a bishop attacks: the four diagonal rays, each up to and including the first piece; BishopAttacksSlow computes it |
| Magic.CastRay | src/magic.hpp:70-76 | one loop of the slow cast adds exactly the ray in its direction, stopping on and including the first piece |
| Magic.RookAttacksSlow | src/magic.hpp:65-77 | rookAttacksSlow returns the union of the four orthogonal rays |
| Magic.BishopAttacksSlow | src/magic.hpp:79-91 | bishopAttacksSlow returns the union of the four diagonal rays |
| Magic.RayCastExcludesOrigin | src/magic.hpp:65-91 | a slider never attacks its own square, so no attack set is all ones (the empty-slot marker) |
| Magic.RayCastIgnoresOrigin | src/board.cpp:310 | removing the slider's own square from the occupancy changes no cast |
| Magic.RayCastSymmetric | src/magic.hpp:65-91 | a rook (bishop) on `s` attacks `t` iff one on `t` attacks `s` |
| Magic.MaskRay | src/magic.hpp:40-47 | one mask loop adds exactly the ray squares short of the board edge |
| Magic.RookMask | src/magic.hpp:37-49 | rookMask returns the relevant rook squares |
| Magic.BishopMask | src/magic.hpp:51-63 | bishopMask returns the relevant bishop squares |
| Magic.RookRelevantShape | src/magic.hpp:37-49 | the rook mask lies on the empty-board rook attack set, leaves out the origin and each ray's last square, keeps every other ray square, and has 1 to 64 squares |
| Magic.BishopRelevantShape | src/magic.hpp:51-63 | the bishop mask is exactly the empty-board bishop attacks off the board's rim, is not empty and leaves out the origin |
| Magic.RayCastMasked | src/magic.hpp:17-22 | the slow casts depend only on the occupancy inside the relevant mask, so `occupancy & mask` loses nothing |
| Magic.EncodeSelect | src/magic.hpp:108-114 | the index that selects a subset is recovered from that subset |
| Magic.SelectEncode | src/magic.hpp:108-114 | every subset of the mask's squares is the selection of its own index |
| Magic.EncodeBound | src/magic.hpp:108 | a subset's index is below 2^n for `n` mask squares |
| Magic.Subsets | src/magic.hpp:96-116 | the blocker sets enumerateSubsets lists: entry `i` holds the `j`-th lowest mask square iff bit `j` of `i` is set; SubsetsExact proves it lists every subset once |
| Magic.SubsetsExact | src/magic.hpp:96-116 | enumerateSubsets lists 2^n subsets of the mask, all distinct, every subset of the mask among them, the empty set first and the mask last |
| Magic.EnumerateSubsets | src/magic.hpp:96-116 | the method returns exactly the subset list |
| Magic.BitPositions | src/magic.hpp:99-104 | the bit loop lists the mask's squares in increasing order |
| Magic.SubsetAt | src/magic.hpp:109-113 | the inner loop builds the subset picked by the set bits of `i` |
| Magic.MulWrap | src/magic.hpp:19 | unsigned 64-bit multiplication: the wrapped product is below 2^64 |
| Magic.HashIndex | src/magic.hpp:17-22 | `(blockers * magic) >> (64 - bits)` is always a `bits`-bit index |
| Magic.MagicIndex | src/magic.hpp:17-22 | magicIndex of any occupancy lies in the square's slice `[offset, offset + 2^bits)` |
| Magic.BuildSlot | src/magic.hpp:170 | the build's extra `& (table_size - 1)` never changes the slot, so build and lookup agree |
| Magic.ShiftedIndex | src/magic.hpp:224-227 | moving a slice's offset by `base` moves every lookup by `base` |
| Magic.SlotsOf | src/magic.hpp:166-170 | one bounded slot per blocker set, in order |
| Magic.Collisionless | src/magic.hpp:164-180 | the acceptance condition of a candidate: two blocker sets hashing to one slot have the same attacks; TryMagic decides it and SliceAnswers proves the slice it leaves answers every occupancy |
| Magic.TryMagic | src/magic.hpp:164-180 | a candidate is accepted iff no two blocker sets with different attacks share a slot; then each set's slot holds its attacks and exactly the unhit slots stay empty |
| Magic.StoreNext | src/magic.hpp:173-178 | storing one more attack set either finds a real clash or extends the filled prefix |
| Magic.FilledSlots | src/magic.hpp:164-180 | a fully filled scratch table holds every set's attacks at its slot and the empty marker exactly at unhit slots |
| Magic.FilledClash | src/magic.hpp:175-177 | a slot already holding different attacks is a clash between two blocker sets |
| Magic.ClearTable | src/magic.hpp:164 | `std::fill` marks every scratch slot empty |
| Magic.RayCastsCoherent | src/magic.hpp:37-91 | the rook and bishop casts depend only on their own relevant mask and never reach the empty marker |
| Magic.AttackList | src/magic.hpp:147-151 | the attack list has the slow cast of each enumerated blocker set, in order |
| Magic.ComputeAttacks | src/magic.hpp:147-151 | the loop fills exactly that list |
| Magic.SearchMagic | src/magic.hpp:158-182 | candidates are tried in order; the one returned is the first collision-free one; none found means none of them works |
| Magic.AcceptsAsTried | src/magic.hpp:158-182 | the first candidate accepted over the enumerated subsets is the first that answers every occupancy; no acceptance means the candidates cannot serve the square |
| Magic.SliceAnswers | src/magic.hpp:164-180 | a collision-free slice returns the slow cast for every occupancy, not only the enumerated ones |
| Magic.BuildSquare | src/magic.hpp:139-182 | one square's build returns the first accepted candidate and a slice of 2^bits entries that answers every occupancy, or reports that no candidate works |
| Magic.BuildSliderMagics | src/magic.hpp:133-196 | the build lays the 64 slices out back to back, each square with its mask, width, first accepted magic and a slice answering every occupancy; None when some square has no working candidate |
| Magic.AppendSquare | src/magic.hpp:184-192 | appending a square's data and slice keeps all earlier squares' lookups right and adds the new one |
| Magic.EmbedLayout | src/magic.hpp:224-228 | shifting every offset of a build by `base` gives slices that start `base` later and still fit |
| Magic.EmbedLookups | src/magic.hpp:221-228 | a build copied into a larger table behind a prefix, offsets shifted by the prefix length, still answers every lookup |
| Magic.EmbedBuild | src/magic.hpp:206-229 | a build embedded behind a prefix is laid out and answers as the concatenated table needs |
| Magic.TableSizeOfWidths | src/magic.hpp:192 | the total table size depends only on the index widths |
| Sliders.Exact | src/magic.hpp:206-240 | what initMagic must give the lookups: every rook and bishop lookup, for every square and occupancy, equals the slow ray cast; InitMagic establishes it |
| Sliders.Layout | src/magic.hpp:206-229 | the table layout initMagic builds: masks and widths per square, rook slices first at running offsets, bishop slices behind the whole rook table |
| Sliders.InitMagic | src/magic.hpp:206-229 | when every square has a working candidate, the tables look up exactly the slow rook and bishop casts for every occupancy, laid out rook first, each square using its first accepted magic; None names a square with no working candidate |
| Sliders.ShiftOffsets | src/magic.hpp:224-227 | every bishop offset is moved by the rook table's size and nothing else changes |
| Sliders.Assemble | src/magic.hpp:206-229 | the rook build with the shifted bishop build behind it gives exact, laid-out tables |
| Sliders.MergeExact | src/magic.hpp:206-229 | two embedded builds sharing one table make it exact and laid out |
| Sliders.RookAttacks | src/magic.hpp:232-235 | on exact tables rookAttacks is the slow rook cast |
| Sliders.BishopAttacks | src/magic.hpp:237-240 | on exact tables bishopAttacks is the slow bishop cast |
| Sliders.QueenAttacks | src/magic.hpp:242-244 | queenAttacks is the union of the two lookups, on exact tables the two casts |
| Attacks.KingSquare | src/board.cpp:20-23 | kingSquare is the lowest square holding a king of the side |
| Attacks.AttacksFrom | src/board.cpp:50-88 | the popLSB loop collects exactly the squares some piece of the set attacks |
| Attacks.PawnAttacksFrom | src/board.cpp:60-68 | pawnAttacksFrom is the union of the pawns' capture squares |
| Attacks.KnightAttacksFrom | src/board.cpp:50-58 | knightAttacksFrom is the set of squares a knight of the set jumps to |
| Attacks.BishopAttacksFrom | src/board.cpp:70-78 | bishopAttacksFrom is the union of the bishops' lookups, on exact tables their casts |
| Attacks.RookAttacksFrom | src/board.cpp:80-88 | rookAttacksFrom is the union of the rooks' lookups, on exact tables their casts |
| Attacks.AttacksOf | src/board.cpp:50-103 | the squares the piece on `s` attacks over `occ`, by its kind and colour, with the king's neighbourhood: the reference that SquareAttackedMeaning compares squareAttacked against |
| Attacks.SquareAttacked | src/board.cpp:106-129 | squareAttacked, looking outwards from `sq`: the opposite colour's pawn table, the knight table, the bishop and rook lookups against bishops/queens and rooks/queens, and the king table; SquareAttackedMeaning proves it holds iff a piece of the side attacks `sq` |
| Attacks.PawnLookupReverse | src/board.cpp:114-119 | a pawn of one colour on `s` attacks `sq` iff a pawn of the other colour on `sq` attacks `s` |
| Attacks.AttackedBy | src/board.cpp:106-129 | each test of squareAttacked matches one piece kind attacking from `s` |
| Attacks.SquareAttackedFinds | src/board.cpp:106-129 | on exact tables squareAttacked holds iff some piece of the side passes one of its tests |
| Attacks.SquareAttackedMeaning | src/board.cpp:106-129 | on exact tables squareAttacked holds iff some piece of the given side attacks the square over the given occupancy |
| Boards.FlagsAreSingleBits | src/board.hpp:13-20 | every MoveFlag is a single distinct bit, so or-ed flags test positive for exactly their members |
| Boards.MoverOf | src/board.cpp:571-585 | makeMove finds a mover iff some piece board holds `from`, and it does hold it |
| Boards.Apply | src/board.cpp:564-613 | the position makeMove leaves: the turn passes to the other side (its contract); ApplyEffects, ApplyPieces and ApplyKeepsConsistent state what happens to every board |
| Boards.ApplyEffects | src/board.cpp:564-613 | after makeMove the mover stands on `to` and not on `from`; a capture clears `to` from every other board; every other square keeps its piece; the colours swap roles; the counters and castling flags stay |
| Boards.ApplyPieces | src/board.cpp:587-602 | each piece board after makeMove is the mover's lifted board or the other boards with the capture removed |
| Boards.ApplyKeepsConsistent | src/board.cpp:564-613 | a move from an own piece to a square not holding one, flagged Capture onto an enemy piece, keeps the boards disjoint and the colours covering the pieces |
| Boards.ApplyKindsDisjoint | src/board.cpp:587-602 | after such a move no square holds two piece kinds |
| Boards.ApplyCoversSquare | src/board.cpp:587-610 | after such a move a square holds a piece iff it holds a colour |
| Boards.UndoStack.constructor | src/board.cpp:564-565 | the stack starts empty |
| Boards.UndoStack.Push | src/board.cpp:565 | push appends the saved board |
| Boards.UndoStack.Pop | src/board.cpp:617 | pop removes the newest board |
| Boards.Board.constructor | src/board.hpp:43-53 | a board object holding the given fields |
| Boards.Board.Assign | src/board.cpp:616 | `*this = ...`: every field takes the saved value |
| Boards.Board.Board | src/board.cpp:571-583 | the piece board of a kind, as the object holds it |
| Boards.Board.SetBoard | src/board.cpp:587 | writing through `mover` changes that kind's board only |
| Boards.Board.ToggleMover | src/board.cpp:587-588 | the mover's piece and colour boards are xor-ed with `from` and `to` |
| Boards.Board.ClearCaptured | src/board.cpp:590-599 | a capture clears `to` from the enemy colour and every piece board |
| Boards.Board.PlaceMover | src/board.cpp:601-610 | the mover's piece and colour boards lose `from` and gain `to` |
| Boards.Board.FindMover | src/board.cpp:571-585 | the mover is the first piece board holding `from` |
| Boards.Board.Play | src/board.cpp:567-612 | the board changes of makeMove in their stages |
| Boards.Board.MakeMove | src/board.cpp:564-613 | makeMove pushes the old board and leaves the position `Apply` describes |
| Boards.Board.UnmakeMove | src/board.cpp:615-618 | unmakeMove restores the newest saved board and pops it |
| Boards.Board.MakeUnmakeRestores | src/board.cpp:564-618 | makeMove followed by unmakeMove restores the board and the stack |
| Boards.MakeMoveStages | src/board.cpp:587-612 | the staged updates (toggle, clear on capture, place, pass the turn) give the position `Apply` describes |
| Boards.StagedColours | src/board.cpp:588-610 | after the stages the mover's colour board is lifted, the other cleared on a capture |
| Boards.StepsClosedForm | src/board.cpp:587-602 | toggle, clear and place on one board amount to lifting it for the mover, dropping the capture otherwise |
| Boards.WithPieces | src/board.cpp:587 | setting one kind's board leaves every other board and flag as it was |
| Boards.WithOwn | src/board.cpp:588 | setting the own colour board leaves the enemy board, the pieces and the flags |
| Boards.Cleared | src/board.cpp:590-599 | a capture clears `to` from the enemy colour and every piece board and nothing else |
| MoveGen.Tagged | src/board.cpp:293-299 | a generated move is flagged Capture exactly when its target holds an enemy piece, quiet otherwise |
| MoveGen.TargetMovesMembership | src/board.cpp:292-300 | the inner popLSB loop emits one move per target square, each tagged |
| MoveGen.PieceMoves | src/board.cpp:285-302 | the list the generators for knights, bishops, rooks, queens and the king append: per piece in popLSB order, one tagged move per attacked square not held by its own side; PieceMovesMembership states its members |
| MoveGen.PieceMovesMembership | src/board.cpp:285-302 | the outer loop emits a move from every piece to every attacked square not holding an own piece |
| MoveGen.PawnCapturesMembership | src/board.cpp:228-235 | a pawn's captures are its attacked enemy squares, flagged Capture |
| MoveGen.PawnPushes | src/board.cpp:237-281 | the pushes of one pawn: none from the last rank or onto a piece; else the single push, and from the start rank the DoublePush when that square is empty too; PawnPushesMembership states its members |
| MoveGen.PawnPushesMembership | src/board.cpp:237-281 | a pawn's pushes are the single push onto an empty square off the last rank, and from the start rank the double push when both squares are empty |
| MoveGen.PawnMovesAtMembership | src/board.cpp:226-282 | the moves of one pawn are its captures and its pushes |
| MoveGen.PawnMovesFromMembership | src/board.cpp:225-283 | pawnMoves emits exactly the moves of each own pawn |
| MoveGen.PawnMoveList | src/board.cpp:220-283 | the list pawnMoves appends: the captures, then the pushes, of each pawn of the side to move in popLSB order; PawnMoveListMembership states its members |
| MoveGen.PawnMoveListMembership | src/board.cpp:220-283 | a pawn move of the side to move is a capture of an attacked enemy piece or a push onto empty squares |
| MoveGen.KnightMoveListMembership | src/board.cpp:285-302 | knightMoves emits exactly the knight jumps off own pieces, tagged |
| MoveGen.BishopMoveListMembership | src/board.cpp:304-321 | on exact tables bishopMoves emits exactly the diagonal moves up to and including the first piece, off own pieces, tagged |
| MoveGen.RookMoveListMembership | src/board.cpp:323-340 | on exact tables rookMoves emits exactly the orthogonal moves up to the first piece, off own pieces, tagged |
| MoveGen.QueenMoveListMembership | src/board.cpp:342-360 | on exact tables queenMoves emits exactly the moves of a rook or a bishop on the square, tagged |
| MoveGen.KingMoveListMembership | src/board.cpp:362-394 | kingMoves emits exactly the moves to adjacent squares not holding own pieces, tagged |
| MoveGen.PieceMovesPlayable | src/board.cpp:285-394 | every piece move starts on an own piece, avoids own pieces and flags every capture |
| MoveGen.PawnMovesPlayable | src/board.cpp:220-283 | the same for pawn moves |
| MoveGen.PseudoMoveList | src/board.cpp:396-403 | the list generatePseudoMoves appends: pawn, knight, bishop, rook, queen and king moves in that order; the membership lemmas and PseudoMovesPlayable state what it holds |
| MoveGen.PseudoMovesPlayable | src/board.cpp:396-403 | every pseudo-legal move is one makeMove can play |
| MoveGen.AppendTargets | src/board.cpp:292-300 | the inner loop appends the tagged move list of the targets |
| MoveGen.AppendPieceMoves | src/board.cpp:285-302 | the outer loop appends the moves of every piece in popLSB order |
| MoveGen.AppendPawnCaptures | src/board.cpp:228-235 | appends the captures in popLSB order |
| MoveGen.AppendPawnPushes | src/board.cpp:237-281 | appends the pushes of one pawn, stopping at the first blocked square |
| MoveGen.PawnMoves | src/board.cpp:220-283 | pawnMoves appends the pawn move list |
| MoveGen.KnightMoves | src/board.cpp:285-302 | knightMoves appends the knight move list |
| MoveGen.BishopMoves | src/board.cpp:304-321 | bishopMoves appends the bishop move list |
| MoveGen.RookMoves | src/board.cpp:323-340 | rookMoves appends the rook move list |
| MoveGen.QueenMoves | src/board.cpp:342-360 | queenMoves appends the queen move list |
| MoveGen.KingMoves | src/board.cpp:362-394 | kingMoves appends the king move list |
| MoveGen.GeneratePseudoMoves | src/board.cpp:396-403 | the six generators append their lists in order |
| Checks.Checkers | src/board.cpp:424-436 | the corrected checkers (see Findings): enemy knights, pawns by the side to move's table, and matching sliders found from the king square; CheckersMeaning proves these are exactly the enemy pieces attacking the king |
| Checks.CheckersAsWritten | src/board.cpp:424-436 | the checkers with the source's pawn lookup (see Findings) |
| Checks.CheckersAsWrittenMissesPawnCheck | src/board.cpp:426-431 | with the white king on e4, a black pawn on d5 and white to move, the pawn attacks the king but the source misses it; the corrected checkers include it |
| Checks.CheckersUnfold | src/board.cpp:424-436 | a checker is an enemy knight, pawn or matching slider found from the king square |
| Checks.CheckersMeaning | src/board.cpp:424-436 | on exact tables a square is a checker iff it holds an enemy piece attacking the king |
| Checks.CheckersExcludeKing | src/board.cpp:435 | checkers are enemy pieces, and never the enemy king |
| Checks.BlockMask | src/board.cpp:440-455 | the block mask: empty unless there is exactly one checker (its contract); for one checker the checker, plus the squares between it and the king for a slider on a common line |
| Checks.BlockMaskHoldsChecker | src/board.cpp:440-455 | a single checker is in its block mask, which lies between it and the king |
| Checks.SliderBlockMask | src/board.cpp:445-448 | for a single sliding checker the block mask is the ray from the king up to and including the checker, with nothing between them |
| Checks.LookupDirection | src/board.cpp:433-434 | on exact tables a slider checker lies on a ray from the king |
| Checks.SliderNotLeaper | src/board.cpp:432-433 | on consistent boards a slider is neither a knight nor a pawn |
| Checks.FindCheckers | src/board.cpp:424-436 | the checker step returns the corrected checkers |
| Checks.FindBlockMask | src/board.cpp:440-455 | the block-mask step returns the block mask of the checkers |
| Checks.PinnedAlong | src/board.cpp:459-497 | the piece on `s` is pinned along `d`: the first piece the king sees that way, not an enemy, with a slider of the direction's kind behind it |
| Checks.PinRay | src/board.cpp:481-490 | the pin_dirs entry of a piece pinned along `d`: the ray from the king with the piece lifted, up to the pinner, plus the king square; PinRayToPinner proves its shape |
| Checks.Pinned | src/board.cpp:459-508 | the pinned set after the eight markPin calls; PinsMeaning proves a piece is in it iff some direction pins it |
| Checks.PinDirs | src/board.cpp:459-508 | pin_dirs after the eight markPin calls: 64 entries (its contract); PinsMeaning proves each is its piece's pin ray or empty |
| Checks.PinDirectionUnique | src/board.cpp:459-497 | a piece is pinned along one direction at most |
| Checks.PinnedUpToMembership | src/board.cpp:459-508 | after `n` scans a square is pinned iff one of them pins it |
| Checks.PinDirUpToValue | src/board.cpp:481-490 | after `n` scans a square's pin ray is the ray of its pinning scan, or empty |
| Checks.PinsMeaning | src/board.cpp:459-508 | a piece is pinned iff some direction pins it; its pin ray is that direction's ray, else empty; pinned pieces are own pieces |
| Checks.PinRayToPinner | src/board.cpp:481-490 | the pin ray is the squares from the king up to and including the pinner, plus the king square, with the pinned piece between them |
| Checks.FirstPieceDecides | src/board.cpp:466-471 | only the first piece the king sees can be pinned, and an enemy piece there ends the scan |
| Checks.SecondPieceDecides | src/board.cpp:472-477 | the pin exists iff the second piece is a slider of the direction's kind |
| Checks.NoPieceMet | src/board.cpp:463-495 | a scan that meets no piece pins nothing |
| Checks.RayTo | src/board.cpp:481-489 | the inner ray loop collects the steps up to and including the pinner |
| Checks.SecondPiece | src/board.cpp:472-492 | the second-piece branch pins the first piece exactly when the second is a matching slider, with the pin ray |
| Checks.ScanPin | src/board.cpp:459-497 | one markPin call finds the only piece pinned along its direction (if any) and its pin ray |
| Checks.MarkPin | src/board.cpp:459-497 | markPin adds that direction's pinned piece and writes exactly its pin_dirs entry |
| Checks.NextScan | src/board.cpp:500-508 | each call extends the pins of the earlier calls by its own |
| Checks.AllScans | src/board.cpp:500-508 | after the eight calls the pinned set and pin_dirs are the pins over all directions |
| Checks.ScanLines | src/board.cpp:500-503 | the four orthogonal calls |
| Checks.ScanDiagonals | src/board.cpp:505-508 | the four diagonal calls |
| Checks.FindPins | src/board.cpp:459-508 | the pin step returns the pinned set and the 64 pin rays |
| Checks.EnemyAttacked | src/board.cpp:511-517 | a square is in king_unsafe: attacked by an enemy pawn, knight, bishop/queen or rook/queen through the tables, or next to the enemy king |
| Checks.EnemyAttackMap | src/board.cpp:511-517 | the union of the enemy attack maps |
| Checks.FoundAttacker | src/board.cpp:511-516 | each part of the map comes from an enemy piece attacking the square |
| Checks.EnemyAttackedSound | src/board.cpp:511-517 | on exact tables every square in the map is attacked by an enemy piece |
| Checks.EnemyAttackedComplete | src/board.cpp:511-517 | on exact tables with one enemy king, every square an enemy piece attacks is in the map |
| Checks.EnemyAttackedMeaning | src/board.cpp:511-517 | with one enemy king: in the map iff some enemy piece attacks the square |
| Checks.EnemyAttackedIsSquareAttacked | src/board.cpp:511-517 | with one enemy king the map agrees with squareAttacked for the enemy |
| Checks.KingUnsafe | src/board.cpp:511-518 | king_unsafe holds exactly the squares the map holds |
| Checks.CheckInfoAsWritten | src/board.cpp:405-520 | analyzeChecks as written, with the as-written checkers and their block mask; one pin ray per square |
| Checks.CheckInfoOf | src/board.cpp:405-520 | the CheckInfo has one pin ray per square |
| Checks.AnalyzeChecks | src/board.cpp:405-520 | analyzeChecks returns the corrected checkers, their block mask, the pins with their rays and king_unsafe |
| Legal.KingMoveOccupancy | src/board.cpp:539-541 | the occupancy a king move is tested against: without the king's square and without a captured piece |
| Legal.Keep | src/board.cpp:533-561 | the loop's test of one pseudo-legal move: a king move only onto a square the enemy does not attack once the king has left and the captured piece is gone; any other move only outside double check, along its pin ray when pinned, and into the block mask in single check |
| Legal.Kept | src/board.cpp:533-561 | the kept moves are exactly the pseudo-legal moves that pass the filter |
| Legal.KeptSubsequence | src/board.cpp:533-561 | the output keeps the pseudo-legal order |
| Legal.KeepMove | src/board.cpp:534-560 | one loop iteration keeps a move iff it passes the filter |
| Legal.FilterMoves | src/board.cpp:533-561 | the loop leaves the kept moves |
| Legal.LegalMoveList | src/board.cpp:522-562 | the pseudo-legal moves the filter keeps, in order, filtered against the CheckInfo with the corrected checkers (see Findings); LegalIsKept and the lemmas below state what it holds |
| Legal.LegalMoveListAsWritten | src/board.cpp:522-562 | the same filter against the CheckInfo as written |
| Legal.LegalListsDifferOnPawnCheck | src/board.cpp:426-431 | white king e4, white knight a1, black pawn d5, black king h8, white to move: the knight move a1-b3 is kept by the filter as written but dropped by the corrected one, which sees the pawn check |
| Legal.GenerateLegalMoves | src/board.cpp:522-562 | generateLegalMoves returns the pseudo-legal moves that pass the filter, in order, where the filter uses the corrected checkers of AnalyzeChecks (see Findings) |
| Legal.LegalIsKept | src/board.cpp:522-562 | every legal move is a pseudo-legal move passing the filter |
| Legal.LegalMovesPlayable | src/board.cpp:522-562 | every legal move is one makeMove can play |
| Legal.DoubleCheckOnlyKingMoves | src/board.cpp:547-548 | in double check only king moves are legal |
| Legal.PinnedMovesStayOnPin | src/board.cpp:550-553 | a pinned piece moves only along its pin line between the king and the pinner, capturing the pinner included |
| Legal.OnPinRay | src/board.cpp:551-552 | a square on a pin ray lies between the king and the pinner, is the pinner, or is the king square |
| Legal.SingleCheckAnswered | src/board.cpp:555-558 | in single check a non-king move captures the checker or lands between it and the king |
| Legal.BlockMaskAnswers | src/board.cpp:555-558 | a square of a single checker's block mask is the checker or between it and the king |
| Legal.KingMovesSafe | src/board.cpp:538-545 | on exact tables no enemy piece attacks the target of a legal king move once the king has left and the captured piece is gone |
| Fen.PrintedSquare | src/board.cpp:192-194 | the `i`-th printed square is on rank `7 - i / 8` and file `i % 8` |
| Fen.BoardString | src/board.cpp:189-210 | the board string has 64 characters |
| Fen.ToString | src/board.cpp:189-210 | toString returns the board string, eighth rank first |
| Fen.SquareChar | src/board.cpp:196-204 | the character toString prints for a square: the first piece board holding it, in upper case for white, '-' when empty; SquareCharMeaning states its meaning |
| Fen.SquareCharMeaning | src/board.cpp:196-204 | a square prints `-` iff it is empty; otherwise a piece letter, capital iff the piece is white, naming the square's kind on consistent boards |
| Fen.FenPosition | src/board.cpp:131-187 | the position initFEN builds: the ranks placed on an empty board, white to move iff the side field is "w", the halfmove count as given; FenPlacement states its meaning |
| Fen.InitFen | src/board.cpp:131-187 | the placement loop and field reads leave the FEN position |
| Fen.FenPlacement | src/board.cpp:148-184 | from eight well-formed ranks initFEN gives a consistent position whose board string is the ranks expanded in order; white to move iff the side field is "w"; the halfmove count as given; all castling rights set |
| Fen.PlaceOnEmpty | src/board.cpp:158-177 | placing a piece letter on an empty square keeps the boards consistent and changes only that square's character |
| Fen.UnknownLetterBreaksConsistency | src/board.cpp:174-175 | a letter that names no piece sets a colour bit without a piece bit, leaving the boards inconsistent |
| Fen.Place | src/board.cpp:163-177 | one placement: the colour board by the letter's case, and the piece board its lower case form names |
| Fen.Step | src/board.cpp:150-180 | one character of a rank: a digit skips that many files; another character off the board is skipped; otherwise it is placed and the file advances |
| Fen.PlaceAdds | src/board.cpp:163-177 | a placement adds the square to one colour board and the letter's piece board |
| Fen.StepPrints | src/board.cpp:150-180 | a digit skips that many empty files; a letter prints itself on the next file |
| Fen.PlaceRankCells | src/board.cpp:149-180 | placing one rank prints its expansion on that row |
| Fen.PlaceRankOtherRows | src/board.cpp:149-180 | placing one rank leaves every other row's empty squares empty |
| Fen.PlaceRanksCells | src/board.cpp:148-181 | after the placement loop every square prints its character of the expanded FEN rank |
| Fen.PlaceRanksKeepState | src/board.cpp:148-181 | the placement loop changes no turn, counter or castling field |
| Fen.JoinedIndex | src/board.cpp:192-207 | the joined expansion has 8 characters per rank at `8r + f` |
| Fen.EmptyBoardEmpty | src/board.hpp:43-53 | a default board is consistent and empty |
| Evaluate.PieceValue | src/evaluate.cpp:16 | VALUES: pawn 100, knight 320, bishop 330, rook 500, queen 900, king 0 |
| Evaluate.AddPieceScores | src/evaluate.cpp:19-22 | addPieceScores: the popcount of the board times the kind's value |
| Evaluate.EvaluateSide | src/evaluate.cpp:24-40 | evaluateSide: every piece board masked with the side's colour board and scored, plus BISHOP_PAIR for two or more bishops; the lemmas below state its bounds and how one piece changes it |
| Evaluate.Evaluate | src/evaluate.cpp:42-47 | evaluate: white's side score minus black's, plus TEMPO_SCORE for the side to move (minus it for black); the lemmas below state its bounds and antisymmetry |
| Evaluate.EvaluateBounds | src/evaluate.cpp:19-47 | each side scores between 0 and 137630 and the evaluation stays within ±137640, well inside a 32-bit int |
| Evaluate.SwapNegates | src/evaluate.cpp:24-47 | exchanging the colours and the side to move negates the evaluation |
| Evaluate.TempoSwing | src/evaluate.cpp:42-47 | the side to move is worth exactly twice the tempo score |
| Evaluate.KingsCountNothing | src/evaluate.cpp:16-33 | the king board has no influence on the score |
| Evaluate.EmptySideScore | src/evaluate.cpp:24-40 | a side with no pieces scores nothing |
| Evaluate.EmptyBoardScore | src/evaluate.cpp:42-47 | an empty board scores only the tempo bonus |
| Evaluate.AddPieceOwnScore | src/evaluate.cpp:19-40 | putting a piece on an empty square raises its side's score by its value, plus the bishop pair bonus for the second bishop |
| Evaluate.AddPieceOtherScore | src/evaluate.cpp:24-40 | the new piece leaves the other side's score alone |
| Evaluate.AddPieceScore | src/evaluate.cpp:19-47 | the evaluation moves by the piece's value (and pair bonus) in its side's favour |
| Evaluate.Swapped | src/evaluate.cpp:26 | the colour-swapped position exchanges the colour boards and the turn and keeps the piece boards |

## Left out

- The user interface in main.cpp is not part of this model.
- **Magic candidate search.** The random magic candidates are not
  modelled: the `std::seed_seq` and `mt19937_64` generator and
  `randomMagic`. Each square takes a finite list of candidate multipliers
  as input, and candidates are tried in order. The source loops until one
  works, so it may not terminate; here running out of candidates returns
  `None`, and `InitMagic` states which square had no working candidate.
- The "bad upper bits" prefilter at magic.hpp:162 is left out. It only
  skips candidates early, and any candidate it lets through is treated the
  same as here; with it, the accepted candidate could be a later one in a
  list.
- The scratch table and the concatenated attack table are `seq`s. The
  global arrays and vectors are the `SliderTables` value. The reserved
  capacities are left out.
- `MagicData.offset` is a `uint32_t` and `index_bits` a `uint8_t`; both
  are `nat` here. The rook table has 102400 entries, so no offset
  overflows.
- The `Magic` struct of board.hpp and the `attacks` vector next to it are
  unused and not modelled.
- **Loop shapes.**
  - The `rr`/`ff` coordinate walks are counted by step number: the slow
    casts, the masks, markPin and its ray loop. The squares are the same.
  - The pin scan and the enemy attack map are split into helper methods.
- **InitFen input and fields.**
  - InitFen takes the FEN pre-split: the eight rank strings, the side
    field, and the halfmove number. The `std::views::split` calls and
    `std::stoi` are left out.
  - The castling and en-passant fields are not read, as in the source.
  - Fewer than eight ranks is undefined behaviour in the source; here it
    is a precondition.
- Fen.ToLower, Fen.IsUpper: ASCII letters only
  (`std::tolower`/`std::isupper` in the "C" locale).
- Legal.GenerateLegalMoves filters against the corrected checkers, so it does not
  compute the source's list in a position with a pawn check. The source misses
  a pawn that does give check, and it counts as a checker a pawn that stands
  where an own-coloured pawn on the king square would capture (with the white
  king on e4, a black pawn on d3 or f3). LegalMoveListAsWritten is the filter
  as written, and LegalListsDifferOnPawnCheck shows the two lists differ.
- AnalyzeChecks requires both kings on the board. `kingSquare` of a
  missing king is `countr_zero(0) = 64`, an out-of-range index into the
  attack tables.
- Checks.KingUnsafe is computed as in the source but generateLegalMoves
  never reads it.
- Evaluate: `int` arithmetic is unbounded here. EvaluateBounds proves every
  score fits in a 32-bit int, so no overflow can occur.
- Castling, en passant and promotion moves are not generated by the
  source and are not generated here. The `EnPassant`, `Castle` and
  `Promotion` flags are only declared.

## Findings

| source | as written | input that shows it | evidently intended | confidence | as-written member | corrected member |
|---|---|---|---|---|---|---|
| src/board.cpp:426-431 | pawn checkers are `BLACK_PAWN_ATTACKS[ksq] & enemyPawns` when white is to move (and the white table for black): the squares a pawn of the enemy's colour on the king square would attack | white king e4, black pawn d5, black king h8, white to move: the pawn attacks e4 but is not reported as a checker; with a white knight on a1 added, generateLegalMoves keeps the knight move a1-b3, which leaves the king in check | the table of the side to move, as squareAttacked's reverse lookup at board.cpp:115-119 does | not executed | Checks.CheckersAsWritten, Checks.CheckersAsWrittenMissesPawnCheck, Legal.LegalMoveListAsWritten, Legal.LegalListsDifferOnPawnCheck | Checks.Checkers, Checks.CheckersMeaning, Legal.LegalMoveList |
