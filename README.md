# BattleZips-Plonky2 in Dafny

This project models the Battleship game of BattleZips-Plonky2. The game
runs as a zero-knowledge state channel:

- Each player commits to a board of five ships with a board proof.
- An open proof binds the two commitments and the host's first shot.
- Each state increment consumes a shot proof on the board being shot at.
  It charges a hit to one damage counter, passes the turn and fixes the
  next shot.
- A close proof accepts a final state in which the counter of the board
  just shot at is 17. It then names the winner and the loser.

The model has five layers.

- **Reference types.** `Ships` and `Boards` model `Ship`, `Board::bits`,
  `Board::canonical` (two little-endian `u64` limbs),
  the decode of `print_canonical` and `Board::hash`. `LittleEndian` and
  `Repetition` are supporting libraries for bits and sequences.
- **Gadgets.** `Range` (`less_than_10`), `ShotGadget` (`serialize_shot`,
  `check_hit`) and `BoardGadget` (decomposition, coordinates, the
  membership polynomial, `place_ship` over 128 cells).
- **Circuits.** `CircuitsShot`, `Place`, `GameBoard`, `GameShot`,
  `Recursion` (`prove_outer`), `OpenChannel`, `IncrementChannel` and
  `CloseChannel`.
- **The channel as a state machine.** `StateChannel.Channel` is a class
  whose fields are those of `GameTargets`. Its methods open, increment
  and close a channel with the behaviour the comments describe.
- **The repository's close test.** `Scenario` plays it on that state
  machine.

A circuit is a function or method that returns `Option`:

- `None` means that the witness the code's own witness functions
  (`partial_witness`, `witness_*`) write does not satisfy the constraints,
  or that the Rust code panics.
- Where the circuit's targets are free virtual targets that the prover
  fills in, as in the increment and close circuits, the constraint system
  is also modelled on an arbitrary witness (`IncrementCircuit`,
  `CloseCircuit`); there `None` means that this witness does not satisfy
  the constraints.
- `Some(v)` gives the values of the output targets or public inputs.

Targets are natural numbers. Poseidon is an arbitrary function `Hasher`
from field elements to a four-limb `Digest`. Whether a proof verifies is a
boolean argument.

Where the code and its comments disagree, the circuit layers follow the
code, and a corrected definition stands beside each as-written one (see
"Findings"). The state machine and the scenario use the corrected
definitions.

## Model

| member | source | states |
|---|---|---|
| Ships.Canonical | src/utils/ship.rs:38-40 | the triple is the ship's own fields: the ship is recovered from it |
| Ships.NewCanonical | src/utils/ship.rs:17-19 | `Ship::new` followed by `canonical` returns exactly the (x, y, z) it was given |
| Ships.Coordinates | src/utils/ship.rs:28-36 | `coordinates` fails exactly where a `u8` step overflows; otherwise it returns the L cell indices 10·y + x, head first |
| Ships.OnGridDocumentedChecks | src/gadgets/board.rs:101-127 | a ship is on the grid iff it passes the documented "< 10" checks: head x and y, and the moving coordinate plus every offset |
| Ships.CellsStep | src/utils/ship.rs:30-34 | consecutive cells of a ship are 1 apart when horizontal and 10 apart when vertical |
| Ships.CellsIncrease | src/utils/ship.rs:30-34 | a ship's cells strictly increase, so no ship names a cell twice |
| Ships.OnGridIff | src/utils/ship.rs:28-36 | every cell lies on the 10 × 10 grid, in the ship's own row or column, iff the head is on the grid and the ship fits |
| Ships.OnGridFitsU8 | src/utils/ship.rs:31-33 | a head on the grid with a length of at most 5 never overflows `u8`: its largest index is 139 |
| Range.RangeAccumulator | src/gadgets/range.rs:13-24 | the loop's accumulator is ∏(i − value) over i in 0..9, and it vanishes iff value ≤ 8 |
| Range.RangeProductZero | src/gadgets/range.rs:14-27 | the product over the constants 0 … n − 1 is zero exactly when the value is one of them |
| Range.LessThan10 | src/gadgets/range.rs:12-29 | the constraint the gadget adds: the accumulated product is connected to zero (its range is stated by LessThan10Iff) |
| Range.LessThan10Iff | src/gadgets/range.rs:12-29 | as written, the gadget is satisfiable exactly for the values 0 ‥ 8 |
| Range.NineRejected | src/gadgets/range.rs:6-10 | the value 9, which is less than 10 as documented, is rejected |
| Range.LessThanTen | src/gadgets/range.rs:6-10 | the documented check, the product over 0..10 connected to zero (its range is stated by LessThanTenIff) |
| Range.LessThanTenIff | src/gadgets/range.rs:6-10 | the documented check (loop over 0..10) accepts exactly the values below 10 |
| ShotGadget.SerializeShot | src/gadgets/shot.rs:14-23 | satisfiable iff both coordinates pass the range check as written (≤ 8); the output is 10·y + x, whose remainder and quotient by 10 are x and y |
| ShotGadget.SerializeShotFixed | src/gadgets/shot.rs:14-23 | with the documented range check, exactly the coordinates of the 10 × 10 grid serialise, to indices below 100 |
| ShotGadget.SerializeDeserialize | src/gadgets/shot.rs:19-22 | a serialised shot reads back as its own (x, y) |
| ShotGadget.DeserializeSerialize | src/gadgets/shot.rs:19-22 | every index in the accepted 9 × 9 area is the serialisation of its own column and row |
| ShotGadget.CheckHit | src/gadgets/shot.rs:32-42 | satisfiable iff both limbs fit in 64 bits and the index is below 128; it yields a 0/1 value that is 1 iff bit shot % 64 of limb shot / 64 is set |
| ShotGadget.CheckHitReadsBoard | src/gadgets/shot.rs:38-40 | on the limbs of `Board::canonical`, a grid index reports exactly whether a ship covers that cell |
| ShotGadget.SerializedShotReadsBoard | src/gadgets/shot.rs:14-42 | a shot that passes `serialize_shot` is looked up at its own cell 10·y + x |
| BoardGadget.DecomposeBoard | src/gadgets/board.rs:21-33 | satisfiable iff both limbs fit in 64 bits; it gives 128 values, all 0/1 |
| BoardGadget.DecomposeBits | src/gadgets/board.rs:26-30 | entry i of the decomposition is bit i % 64 of limb i / 64 |
| BoardGadget.RecomposeBoard | src/gadgets/board.rs:42-60 | two limbs; on 0/1 inputs each limb fits in 64 bits |
| BoardGadget.RecomposeDecompose | src/gadgets/board.rs:21-60 | recomposing the decomposition gives the limbs back |
| BoardGadget.DecomposeRecompose | src/gadgets/board.rs:21-60 | decomposing the recomposition of 128 bits gives the bits back |
| BoardGadget.GenerateCoordinate | src/gadgets/board.rs:89-111 | only the moving axis, plus the offset, is range-checked: vertical checks y + offset, horizontal checks x + offset |
| BoardGadget.GenerateCoordinateAgrees | src/gadgets/board.rs:106-110 | when satisfiable, the multiplexed value is cell `offset` of `Ship::coordinates` |
| BoardGadget.ShipInRangeIff | src/gadgets/board.rs:119-136 | as written, every range check passes iff the head and the last cell are within 0 ‥ 8 |
| BoardGadget.ShipCoordinates | src/gadgets/board.rs:119-136 | the coordinates exist iff every range check passes, and there are L of them |
| BoardGadget.ShipToCoordinates | src/gadgets/board.rs:119-136 | the loop connects coordinate i to `generate_coordiante(x, y, z, i)` for i in 0..L, with the head checks first |
| BoardGadget.ShipCoordinatesAgree | src/gadgets/board.rs:130-134 | `ship_to_coordinates` computes `Ship::coordinates()` whenever its range checks pass |
| BoardGadget.InterpolantZero | src/gadgets/board.rs:154-162 | the product of (cᵢ − value) is zero exactly when value is one of the coordinates |
| BoardGadget.InterpolateBitflipBool | src/gadgets/board.rs:146-166 | the flip bit is true iff the value is one of the ship's coordinates |
| BoardGadget.PlaceShipSpec | src/gadgets/board.rs:177-218 | an output board has as many cells as the input board |
| BoardGadget.PlaceShip | src/gadgets/board.rs:177-218 | the coordinates, one emptiness check per coordinate, then the output built cell by cell: 0..100 through the membership polynomial, 100..128 copied |
| BoardGadget.PlaceShipNoOverlap | src/gadgets/board.rs:188-193 | a satisfiable placement passed the range checks, and every ship cell is below 100 and reads 0 on the input board |
| BoardGadget.PlaceShipOutput | src/gadgets/board.rs:198-215 | output cell k is the input plus one at the ship's cells below 100, and the input everywhere else |
| BoardGadget.InRangeCellsBelow100 | src/gadgets/board.rs:119-136 | a ship that passes the range checks has all its cells below 100 |
| BoardGadget.PlaceShipSetsCells | src/gadgets/board.rs:177-218 | on a 0/1 board, satisfiable iff the range checks pass and no ship cell is set; the output is the input with exactly the ship's cells set to 1 |
| Boards.AddShip | src/utils/board.rs:41-45 | sets exactly the ship's cells in the array, or panics when a cell index reaches 100 |
| Boards.OnGridPaintable | src/utils/board.rs:41-45 | a fleet whose ships all lie on the grid only paints cells below 100 |
| Boards.PaintIdempotent | src/utils/board.rs:41-45 | adding the same ship twice changes nothing more than adding it once |
| Boards.PaintExact | src/utils/board.rs:41-45 | painting sets the listed cells and leaves every other cell unchanged |
| Boards.Bits | src/utils/board.rs:52-63 | paints the five ships in order onto an empty board; it panics exactly when some ship cell is not below 100 |
| Boards.BitsOfIff | src/utils/board.rs:52-63 | cell k is set iff some cell of one of the five ships is k |
| Boards.NoOverlapIffDistinct | src/utils/board.rs:52-63 | no ship covers an earlier ship's cell iff the seventeen ship cells are pairwise different |
| Boards.CountBits | src/utils/board.rs:52-63 | at most 17 cells are set, and exactly 17 iff no two ships share a cell |
| Boards.NoOverlapOfApart | src/utils/board.rs:52-63 | ships that are pairwise apart do not overlap |
| Boards.Canonical | src/utils/board.rs:71-85 | ORs set bit i into bit i % 64 of limb i / 64, and fails where `bits` fails |
| Boards.CanonicalBit | src/utils/board.rs:76-82 | bit i % 64 of limb i / 64 is set iff cell i is set |
| Boards.CanonicalBounds | src/utils/board.rs:67-71 | the limbs are `u64` values, and the last 28 bits of limb 1 are unused (limb 1 is below 2³⁶) |
| Boards.UnpackCanonical | src/utils/board.rs:136-139 | the decode of `print_canonical` recovers the 100 cells exactly from the packed limbs |
| Boards.CanonicalUnpacked | src/utils/board.rs:136-139 | packing the decoded cells gives back any limbs that `canonical` can produce |
| Boards.DecodeCanonical | src/utils/board.rs:136-139 | the decode loop fills 100 cells with `(board[i / 64] >> (i % 64)) & 1 == 1`; on limbs in range, `canonical` inverts it |
| Boards.Hash | src/utils/board.rs:91-108 | the commitment exists iff the board can be painted |
| Boards.TestBoardCells | src/utils/board.rs:167-173 | the seventeen cells of the test board, in painting order |
| Place.Decompose100 | src/circuits/place.rs:122-134 | satisfiable iff limb 0 fits in 64 bits and limb 1 in 36; it gives 100 values, all 0/1 |
| Place.Decompose100Bits | src/circuits/place.rs:127-131 | entry i is bit i % 64 of limb i / 64 |
| Place.Recompose100 | src/circuits/place.rs:143-154 | two limbs; on 0/1 inputs they fit in 64 and 36 bits |
| Place.Recompose100Decompose100 | src/circuits/place.rs:122-154 | recomposing the decomposition gives the limbs back |
| Place.Decompose100Recompose100 | src/circuits/place.rs:122-154 | decomposing the recomposition of 100 bits gives the bits back |
| Place.Decompose100Canonical | src/circuits/place.rs:127-131 | the circuit's 100-bit layout is the one `Board::canonical` packs |
| Place.ShipToCoordinates | src/circuits/place.rs:95-113 | the same coordinates as the gadget, appended to the public inputs in offset order |
| Place.PlaceShip | src/circuits/place.rs:195-238 | the placement over 100 cells: satisfiable and with the same output as the gadget's rule; the ship's coordinates are published |
| Place.TestPlaceShip | src/circuits/place.rs:329-368 | the test's vertical carrier at (3, 3) covers 33, 43, …, 73 and can be placed on the empty board |
| CircuitsShot.ShotCircuit | src/circuits/shot.rs:79-124 | satisfiable iff the shot passes the range checks and the limbs fit; the public bit is 1 iff the shot cell's bit is set |
| CircuitsShot.ShotCircuitReadsBoard | src/circuits/shot.rs:30-62 | on the limbs of a real board, the circuit reports whether the shot cell is occupied |
| CircuitsShot.TestShotHits | src/circuits/shot.rs:103-112 | the test, which witnesses limb 0 in both limb targets and shoots (0, 0), exports a hit |
| GameBoard.PartialWitnessInner | src/circuits/game/board.rs:71-94 | the canonical triples of the five ships go into target triples 0 … 4 in fleet order and describe the board |
| GameBoard.PlaceFrom | src/circuits/game/board.rs:150-154 | every intermediate board has 128 cells |
| GameBoard.Build | src/circuits/game/board.rs:124-170 | decompose the blank board, place the five ships in order, recompose, hash |
| GameBoard.PlaceFromLayer | src/circuits/game/board.rs:150-154 | after j placements, satisfiable iff each of those ships is in range and overlaps no earlier one; the board then holds exactly their cells |
| GameBoard.BuildIff | src/circuits/game/board.rs:124-170 | satisfiable exactly for boards whose ships pass the range checks as written and do not overlap; it then commits to the hash of `Board::canonical` |
| GameBoard.BuildFinalBoard | src/circuits/game/board.rs:150-157 | the final board is `Board::bits()` padded to 128 cells, with 17 cells set |
| GameBoard.InRangeOnGrid | src/circuits/game/board.rs:150-154 | ships that pass the range checks lie on the grid |
| GameBoard.InRangePaintable | src/circuits/game/board.rs:150-154 | ships that pass the range checks cover only cells below 100 |
| GameBoard.RecomposeFinal | src/circuits/game/board.rs:157-160 | the recomposed final board is exactly `Board::canonical` |
| GameBoard.DecodePublic | src/circuits/game/board.rs:254-264 | decoding succeeds iff there are exactly four public inputs, and they are the commitment |
| GameBoard.DecodeOuterCommitment | src/circuits/game/board.rs:273-295 | decoding the shielded proof of a satisfiable witness gives `Board::hash` of that board |
| GameBoard.WitnessedBoardOf | src/circuits/game/board.rs:76-82 | the witnessed triples describe the board |
| GameBoard.TestBoardOnGrid | src/circuits/game/board.rs:273-295 | every ship of the test board lies on the grid |
| GameBoard.TestBoardNoOverlap | src/circuits/game/board.rs:273-295 | no ship of the test board covers a cell of an earlier one |
| GameBoard.TestBoardRejected | src/circuits/game/board.rs:273-295 | the circuit as written rejects the test board, whose battleship head has x = 9 |
| Recursion.ProveOuter | src/circuits/game/board.rs:211-246 | the outer proof is satisfiable iff the inner proof verifies, and republishes the inner public inputs |
| GameShot.PartialWitnessInner | src/circuits/game/shot.rs:75-97 | the limbs of `Board::canonical` go into the board targets and (x, y) into the shot targets; `canonical` panics on an unpaintable board |
| GameShot.ShotBuild | src/circuits/game/shot.rs:127-161 | satisfiable iff the shot passes the range checks and the limbs fit; publishes the serialised shot, a 0/1 hit that reads the shot's bit, and the board hash |
| GameShot.DecodePublic | src/circuits/game/shot.rs:245-260 | needs at least six values; the shot is truncated to `u8`, the hit is "non-zero" and the commitment is entries 2 … 5 |
| GameShot.DecodeBuild | src/circuits/game/shot.rs:139-152 | decoding the layout `build` publishes gives back the shot, the hit and the commitment |
| GameShot.DecodeOuter | src/circuits/game/shot.rs:202-237 | decoding the shielded proof decodes the inner one |
| GameShot.ShotOfBoard | src/circuits/game/shot.rs:127-161 | on a real board, a shot that passes the range checks decodes to its cell, whether a ship covers it, and `Board::hash` |
| GameShot.TestShotHit | src/circuits/game/shot.rs:289-316 | shot (0, 0) on the test board decodes to shot 0, a hit |
| GameShot.TestShotMiss | src/circuits/game/shot.rs:319-346 | shot (0, 1) on the test board decodes to shot 10, a miss |
| GameShot.TestBoardBits | src/circuits/game/shot.rs:269-286 | the set cells of the test board are exactly its seventeen ship cells |
| GameShot.TestBoardDiagram | src/circuits/game/shot.rs:275-284 | `Board::bits()` of the test board is the test's picture, row by row |
| GameShot.DiagramOf | src/circuits/game/shot.rs:275-284 | any 100 cells set exactly at the test board's cells form that picture |
| GameShot.RowCells | src/circuits/game/shot.rs:275-284 | column x of picture row y is cell 10·y + x |
| OpenChannel.PartialWitness | src/circuits/channel/open_channel.rs:54-55 | the opening shot's coordinates go into the shot targets, x first |
| OpenChannel.ProveChannelOpen | src/circuits/channel/open_channel.rs:89-140 | satisfiable iff both board proofs verify and the shot passes the range checks as written |
| OpenChannel.OpenLayout | src/circuits/channel/open_channel.rs:127-134 | nine public inputs: host commitment [0..4), guest commitment [4..8), and the shot at [8], which reads back as (x, y) |
| OpenChannel.DecodePublic | src/circuits/channel/open_channel.rs:61-79 | needs four values; the host commitment is [0..4) |
| OpenChannel.DecodedGuestIsHost | src/circuits/channel/open_channel.rs:71-76 | the decoded guest commitment of an open proof is always the host's |
| OpenChannel.DecodePublicFixed | src/circuits/channel/open_channel.rs:61-79 | the corrected decoder needs eight values |
| OpenChannel.DecodeFixedOpen | src/circuits/channel/open_channel.rs:127-131 | the corrected decoder recovers both commitments of an open proof |
| OpenChannel.IncrementRejectsOpen | src/circuits/channel/open_channel.rs:132-134 | the increment decoder rejects every open proof, which has nine values where it reads twelve |
| OpenChannel.ProveChannelOpenFixed | src/circuits/channel/open_channel.rs:89-140 | the corrected open proof is satisfiable iff both board proofs verify and the shot is on the 10 × 10 grid |
| OpenChannel.OpenFixedDecodes | src/circuits/channel/open_channel.rs:127-134 | the corrected open proof decodes, with the increment decoder, to the initial state: no damage, host's turn, the opening shot pending |
| IncrementChannel.EncodeState | src/circuits/channel/increment_channel.rs:427-438 | twelve values: host commitment [0..4), then guest [4..8) |
| IncrementChannel.DecodePublic | src/circuits/channel/increment_channel.rs:325-363 | needs at least twelve values; the counters and the shot are truncated to `u8` |
| IncrementChannel.DecodeEncode | src/circuits/channel/increment_channel.rs:325-363 | decoding a published state gives it back, up to the `u8` truncation of the counters and the shot |
| IncrementChannel.EncodeDecode | src/circuits/channel/increment_channel.rs:325-363 | twelve values in range are exactly the encoding of the state they decode to |
| IncrementChannel.TargetCommitment | src/circuits/channel/increment_channel.rs:241-247 | one of the two commitments; for distinct commitments, the guest's exactly on the host's turn |
| IncrementChannel.ConstrainCommitment | src/circuits/channel/increment_channel.rs:235-250 | the loop selects, limb by limb, the commitment of the board being shot at |
| IncrementChannel.ConstrainCommitmentFixed | src/circuits/channel/increment_channel.rs:235-250 | the connected selection is satisfiable exactly when the shot proof's commitment is that of the board being shot at |
| IncrementChannel.WitnessShot | src/circuits/channel/increment_channel.rs:58-99 | an error unless the shot proof decodes; otherwise the decoded commitment goes into the targets and the hit and shot are set |
| IncrementChannel.WitnessPrevState | src/circuits/channel/increment_channel.rs:110-154 | an error unless the previous proof decodes; otherwise the targets take exactly the decoded state |
| IncrementChannel.WitnessNextShot | src/circuits/channel/increment_channel.rs:165-176 | the next shot's coordinates go into the two targets, x first |
| IncrementChannel.NextAsWritten | src/circuits/channel/increment_channel.rs:408-423 | host damage grows by the hit on the guest's turn; on the host's turn the "guest" counter is host damage + hit; the old turn is kept |
| IncrementChannel.NextState | src/circuits/channel/increment_channel.rs:406-423 | the commented transition: the hit counts against the board being shot at, the other counter is unchanged, the turn passes and the next shot is pending |
| IncrementChannel.NextStateRound | src/circuits/channel/increment_channel.rs:406-423 | two transitions give the turn back and charge each board its own hit |
| IncrementChannel.ConstrainShot | src/circuits/channel/increment_channel.rs:261-270 | the copy constraint between the pending shot and the shot proof's shot (a predicate; the circuits below state its effect) |
| IncrementChannel.Truncated | src/circuits/channel/increment_channel.rs:325-363 | a state as the decoder sees it: counters and shot below 256, unchanged when already in range |
| IncrementChannel.HonestWitness | src/circuits/channel/increment_channel.rs:441-449 | the witness functions succeed iff both proofs decode; the targets then hold the decoded state and shot outputs and the given next shot |
| IncrementChannel.IncrementCircuit | src/circuits/channel/increment_channel.rs:185-223 | on any witness: satisfiable iff both proofs verify, the witnessed shot is the witnessed pending shot and the next shot serialises; the output decodes to the as-written transition of the witnessed state, whatever the proofs publish |
| IncrementChannel.IncrementAsWritten | src/circuits/channel/increment_channel.rs:280-315 | on the honest witness: satisfiable iff both proofs verify and decode, the `u8`-cast pending shot is the shot proof's shot and the next shot serialises; the commitments pass through and the output decodes to the as-written transition of the decoded state |
| IncrementChannel.ForgedStateAccepted | src/circuits/channel/increment_channel.rs:194-199 | with any two verifying proofs, a witness with guest damage 17 is accepted and published, while the honest witness of a fresh channel publishes no damage |
| IncrementChannel.PublishedWitness | src/circuits/channel/increment_channel.rs:185-223 | the witness the proofs fix once the targets are connected to their public inputs: it encodes back to exactly those inputs, and exists only for a boolean turn and hit |
| IncrementChannel.HonestWitnessPublished | src/circuits/channel/increment_channel.rs:441-449 | for public inputs in range, the honest witness is the published one |
| IncrementChannel.IncrementFixed | src/circuits/channel/increment_channel.rs:369-451 | the corrected circuit accepts only the published witness, and passes the previous proof's commitments through |
| IncrementChannel.IncrementFixedIff | src/circuits/channel/increment_channel.rs:369-451 | accepted exactly when both proofs verify, the witness is the published one, the shot proof is on the board being shot at and at the pending shot, and the next shot is on the grid; it then publishes `NextState` of the state the previous proof published |
| IncrementChannel.UnpublishedStateRejected | src/circuits/channel/increment_channel.rs:194-199 | with the corrected connections, a witnessed state other than the published one is rejected |
| IncrementChannel.GuestCounterReadsHostDamage | src/circuits/channel/increment_channel.rs:413-415 | from host damage 3, guest damage 0 and a hit on the host's turn, the published guest counter is 4 where 1 is meant |
| IncrementChannel.TurnNeverFlips | src/circuits/channel/increment_channel.rs:435 | on any witness, the published turn always equals the witnessed previous turn |
| IncrementChannel.AnyShotCommitmentAccepted | src/circuits/channel/increment_channel.rs:241-247 | the verdict and the output do not depend on the commitment in the shot proof |
| IncrementChannel.OtherCommitmentRejected | src/circuits/channel/increment_channel.rs:241-247 | with the corrected constraints, a shot proof on another board is rejected whatever the witness |
| IncrementChannel.IncrementByShotProof | src/circuits/channel/increment_channel.rs:369-451 | an honest shot proof on the board being shot at, at the pending shot, gives the honest witness, on which the corrected circuit moves to `NextState` with that board's bit as the hit |
| CloseChannel.ReadState | src/circuits/channel/close_channel.rs:38-86 | the final state can be read iff there are at least eleven values |
| CloseChannel.PartialWitness | src/circuits/channel/close_channel.rs:38-86 | the commitments go limb by limb into their targets, and the damages and the turn (≠ 0) are set from [8], [9] and [10] |
| CloseChannel.EndCondition | src/circuits/channel/close_channel.rs:115-119 | the end condition: the counter the turn selects equals 17 (its exactness is stated by EndConditionExact) |
| CloseChannel.EndConditionExact | src/circuits/channel/close_channel.rs:115-119 | the close condition is exact equality with 17 on the counter that the turn selects: 16 and 18 do not close |
| CloseChannel.SelectWinnerLoser | src/circuits/channel/close_channel.rs:122-130 | on turn true the winner is the guest and the loser the host, otherwise the reverse; together they are exactly {host, guest} |
| CloseChannel.CloseCircuit | src/circuits/channel/close_channel.rs:101-136 | on any witness: satisfiable iff the state proof verifies and the witnessed end condition holds; publishes the witnessed winner at [0..4) and loser at [4..8), whatever the proof publishes |
| CloseChannel.ProveCloseChannel | src/circuits/channel/close_channel.rs:91-162 | on the honest witness: satisfiable iff the state proof verifies, the state can be read and the end condition holds on it; the output is eight values |
| CloseChannel.ForgedCloseAccepted | src/circuits/channel/close_channel.rs:101-105 | a fresh channel's state proof cannot be closed honestly, yet a witness with host damage 17 closes it with the guest as winner |
| CloseChannel.PublishedFinal | src/circuits/channel/close_channel.rs:101-105 | the final state the proof fixes once the targets are connected to its public inputs: exactly the values at [0..11), and only for a boolean turn |
| CloseChannel.CloseFixed | src/circuits/channel/close_channel.rs:91-162 | the corrected circuit accepts only the published final state |
| CloseChannel.CloseFixedIff | src/circuits/channel/close_channel.rs:91-162 | accepted exactly when the proof verifies, the witness is the published state and its selected counter is 17; it then publishes what the honest prover's proof publishes |
| CloseChannel.UnpublishedFinalRejected | src/circuits/channel/close_channel.rs:101-105 | with the corrected connections, any witness other than the published state is rejected |
| CloseChannel.CloseOutputs | src/circuits/channel/close_channel.rs:122-136 | the player whose counter reached 17 is published as the loser at [4..8) and the other as the winner at [0..4); neither is duplicated |
| CloseChannel.CloseOfState | src/circuits/channel/close_channel.rs:91-119 | a published state closes iff the counter of the board just shot at is 17; its honest witness is the published one, on which the corrected circuit agrees |
| CloseChannel.HitCellsValue | src/circuits/channel/close_channel.rs:176-195 | the seventeen coordinates serialise to 0, 1, 2, 16, 26, 43, …, 99 |
| CloseChannel.IncreasingDistinct | src/circuits/channel/close_channel.rs:176-195 | a strictly increasing sequence of cells repeats no cell |
| CloseChannel.HitCellsDistinct | src/circuits/channel/close_channel.rs:176-195 | the seventeen coordinates name seventeen different cells |
| CloseChannel.HitCellsAreTestCells | src/circuits/channel/close_channel.rs:176-195 | they are exactly the cells of the host test board |
| CloseChannel.HitCellsHit | src/circuits/channel/close_channel.rs:176-195 | each of them is a hit on the host test board |
| CloseChannel.LastCoordMisses | src/circuits/channel/close_channel.rs:194 | the dummy last coordinate (8, 8) is a miss |
| CloseChannel.HostHitCoords | src/circuits/channel/close_channel.rs:176-195 | all four facts above together |
| StateChannel.Legal | src/gadgets/board.rs:101-127 | a board the documented board circuit accepts: every ship on the grid and no overlap; such a board can be painted |
| StateChannel.WrappingShipIllegal | src/gadgets/board.rs:101-104 | a carrier at (8, 0) lying across paints cells 8 … 12 without overlap, yet wraps into the next row, so the board is not legal |
| StateChannel.Hits | src/circuits/channel/mod.rs:11-12 | a damage counter never exceeds the number of shots |
| StateChannel.HitsSnoc | src/circuits/channel/increment_channel.rs:408-415 | one more shot adds one hit exactly when it lands on a set cell |
| StateChannel.HitsDistinct | src/circuits/channel/mod.rs:11-12 | without repeated shots, the counter is the number of distinct cells hit |
| StateChannel.HitsAll | src/circuits/channel/mod.rs:11-12 | shots that all land on set cells count one hit each |
| StateChannel.FleetSunk | src/circuits/channel/close_channel.rs:115-119 | against a legal board, without repeated shots, damage is at most 17, and 17 exactly when every ship cell has been shot at |
| StateChannel.CountedSnoc | src/circuits/channel/increment_channel.rs:408-415 | recording one more shot at a board adds that cell's bit to its counter |
| StateChannel.Channel.TargetBits | src/circuits/channel/increment_channel.rs:241-247 | the board checked is the guest's on the host's turn and the host's otherwise |
| StateChannel.Channel.Opened | src/circuits/channel/open_channel.rs:89-140 | a fresh channel: both boards' commitments, no damage, the host to shoot at the opening shot |
| StateChannel.Channel.Open | src/circuits/channel/open_channel.rs:89-140 | opening succeeds iff both boards are legal (every ship on the grid, none wrapping, no overlap) and the shot is on the grid; the state is what the corrected open proof publishes |
| StateChannel.Channel.Increment | src/circuits/channel/increment_channel.rs:369-451 | accepted iff the shot proof is on the board being shot at, at the pending shot, and the next shot is on the grid; the state moves by `NextState` and the counters stay true counts |
| StateChannel.Channel.Record | src/circuits/channel/increment_channel.rs:406-423 | charges the shot to the board being shot at, records it there, passes the turn and keeps the counters exact |
| StateChannel.Channel.RecordOnGuest | src/circuits/channel/increment_channel.rs:412-415 | the host's shot lands on the guest's board and its hit counts against the guest |
| StateChannel.Channel.RecordOnHost | src/circuits/channel/increment_channel.rs:408-410 | the guest's shot lands on the host's board and its hit counts against the host |
| StateChannel.Channel.CanClose | src/circuits/channel/close_channel.rs:115-119 | the end condition on the channel's current state (a predicate; Close states its effect) |
| StateChannel.Channel.Close | src/circuits/channel/close_channel.rs:91-162 | closes iff the close circuit accepts the state, on the honest witness and, corrected, on the published one; gives (winner, loser) by the turn, and without repeated shots the loser's whole fleet was hit |
| Scenario.GuestBoardCells | src/circuits/channel/close_channel.rs:244-250 | the seventeen cells of the guest test board |
| Scenario.GuestBoardNoOverlap | src/circuits/channel/close_channel.rs:244-250 | no ship of the guest test board covers a cell of an earlier one |
| Scenario.GuestBoardLegal | src/circuits/channel/close_channel.rs:244-250 | the guest test board is legal |
| Scenario.HostBoardLegal | src/circuits/channel/close_channel.rs:236-242 | the host test board is legal |
| Scenario.HostShoots | src/circuits/channel/close_channel.rs:260-268 | the host's shot of round i is accepted and lands on the guest's board |
| Scenario.GuestShoots | src/circuits/channel/close_channel.rs:270-278 | the guest's shot of round i is accepted and is recorded against the host's board |
| Scenario.HitCellsPrefix | src/circuits/channel/close_channel.rs:258-279 | round i extends the host's shot sequence by coordinate i |
| Scenario.PlayRounds | src/circuits/channel/close_channel.rs:258-279 | after the seventeen rounds, the host's board has been shot at every coordinate of the sequence, in order |
| Scenario.Play | src/circuits/channel/close_channel.rs:254-300 | on legal boards whose host cells are the seventeen coordinates, the game closes with the guest as winner and the host as loser |
| Scenario.StateChannelGame | src/circuits/channel/close_channel.rs:297-300 | the close test: the winner is the guest board's hash and the loser the host board's |

## Left out

- Proof generation and verification are left out: `prove`, `verify_proof`, circuit building and verification, and the proof and verifier-data witness targets. They are plonky2 machinery. Whether a proof verifies is a boolean argument of each circuit.
- Poseidon (`hash_board`, `Board::hash`, `hash_no_pad`) is an arbitrary `Hasher`. No property relies on its collision resistance, so a commitment identifies a board only as far as the hash does.
- ECDSA (`src/gadgets/ecdsa.rs`, `src/utils/ecdsa.rs`) is foreign elliptic-curve code, and is incomplete.
- `src/circuits/recursion_ex.rs` and `src/circuits/board.rs` are a library demo and a test harness with no game logic.
- Module, type and allocator declarations (`mod.rs`, `lib.rs`) are left out; `GameTargets` gives the fields of `StateChannel.Channel`.
- Console output of `Board::print` and `print_canonical` is left out; only the bit decode of `print_canonical` is modelled.
- Circuit configuration, zero-knowledge blinding, timing and logging carry no game semantics.
- Goldilocks field arithmetic is left out:
  - Targets are natural numbers, with no reduction modulo the field prime.
  - A decomposition is satisfiable only for its canonical bits.
  - `less_than_10` and the membership polynomial multiply integers. These vanish under the same condition as a product in the prime field.
- The `u8` casts of the decoders are modelled as truncation. In `Ship::coordinates` an overflowing `u8` step is modelled as a panic, the behaviour of a debug build; a release build would wrap instead. The counters in a state are unbounded naturals.
- GameBoard.Build: the blank board is passed to `decompose_board` as four constant targets, where `decompose_board` takes two, which does not type-check. It is modelled as the two zero limbs that `decompose_board` takes.
- StateChannel.Channel.Increment: assumes the shot proof is sound. A proof on the committed board at the pending shot is taken to report that board's bit. This is the guarantee the shot circuit is meant to give; the model does not derive it from proof verification.
- StateChannel.Channel: the boards and the cells shot at are ghost fields. The proofs commit to them but never publish them.
- GameShot.ShotBuild: the four `u32` board targets of `game/shot.rs` are modelled as the two 64-bit limbs the shot gadget and `Board::canonical` use. As written, `from_canonical_u32` is given `u64` limbs, which does not type-check.
- GameShot.PartialWitnessInner: writes the two 64-bit limbs of `canonical`, for the same reason.
- IncrementChannel.IncrementAsWritten: the constraints are those of `StateIncrementCircuit::prove` and the outputs those of `prove_channel_increment`. The module is commented out of the build, `prove` has no output section, and `prove_channel_increment` refers to an undefined `targets`.
- IncrementChannel.IncrementAsWritten: it states what the honest prover's witness gives, not what the constraint system accepts. The constraint system on an arbitrary witness is IncrementChannel.IncrementCircuit, which accepts states the proofs never published (IncrementChannel.ForgedStateAccepted).
- CloseChannel.ProveCloseChannel: it states what the honest prover's witness gives, not what the constraint system accepts. The constraint system on an arbitrary witness is CloseChannel.CloseCircuit, which closes states the proof never published (CloseChannel.ForgedCloseAccepted).
- The copy of the open circuit at the end of `increment_channel.rs` (`parstial_witness`, `decode_public`, `prove_channel_open`) duplicates `open_channel.rs`, which is modelled instead.
- `partial_witness_outer` and `prove_inner` of the game circuits only write proofs into witnesses and call the prover.

## Findings

| source | as written | input that shows it | evidently intended | confidence | as-written member | corrected member |
|---|---|---|---|---|---|---|
| src/gadgets/range.rs:14 | the loop runs over 0..9, so the check accepts only 0 ‥ 8 | value 9; the board test's battleship at x = 9 is rejected (GameBoard.TestBoardRejected) | accept every value below 10, by looping over 0..10 | high, not executed | Range.NineRejected | Range.LessThanTenIff |
| src/circuits/channel/increment_channel.rs:413 | on the host's turn the guest counter is computed from `host_damage` | host damage 3, guest damage 0, a hit: the guest counter becomes 4 | guest damage + hit | high, not executed | IncrementChannel.GuestCounterReadsHostDamage | IncrementChannel.IncrementFixedIff |
| src/circuits/channel/increment_channel.rs:435 | the old turn is published instead of the computed next turn | any accepted increment: the decoded turn equals the witnessed previous one | publish the negated turn | high, not executed | IncrementChannel.TurnNeverFlips | IncrementChannel.IncrementFixedIff |
| src/circuits/channel/increment_channel.rs:241-247 | the selected limbs are connected to fresh targets, never to the shot proof's commitment | a shot proof on any other board is accepted with the same output | connect the selection to the shot-output commitment targets, and connect those targets to the shot proof's public inputs (next row) | high, not executed | IncrementChannel.AnyShotCommitmentAccepted | IncrementChannel.OtherCommitmentRejected |
| src/circuits/channel/increment_channel.rs:194-199 | the previous state and the shot outputs (also 219-221 and 390-392) are fresh virtual targets, never connected to the verified proofs' public inputs | any two verifying proofs and a witness with guest damage 17 and turn 0: the published state closes the channel | connect every state and shot-output target to the matching public input of its proof | high, not executed | IncrementChannel.ForgedStateAccepted | IncrementChannel.IncrementFixedIff |
| src/circuits/channel/close_channel.rs:101-105 | the final state is witnessed in fresh virtual targets, never connected to the verified proof's public inputs | a fresh channel's state proof and a witness with host damage 17 and turn 1: the guest is published as winner | connect the commitment, damage and turn targets to the state proof's public inputs | high, not executed | CloseChannel.ForgedCloseAccepted | CloseChannel.CloseFixedIff |
| src/circuits/channel/open_channel.rs:71 | the guest commitment is read from [0..4), the host's slice | any open proof: the decoded guest commitment equals the host's | read the guest from [4..8) | high, not executed | OpenChannel.DecodedGuestIsHost | OpenChannel.DecodeFixedOpen |
| src/circuits/channel/open_channel.rs:132-134 | the open proof publishes nine values, but the increment decoder reads twelve | every open proof: the first increment's decode panics | publish the initial state: both commitments, damages 0, 0, turn 1 and the shot | high, not executed | OpenChannel.IncrementRejectsOpen | OpenChannel.OpenFixedDecodes |
