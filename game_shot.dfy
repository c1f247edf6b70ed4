/**
 * The shot circuit: a committed board and a shot (x, y); the public
 * inputs are the serialised shot, the hit bit and the board's Poseidon
 * hash, in that order.
 */
module GameShot {
  import opened Wrappers
  import opened LittleEndian
  import opened Commitments
  import opened ShotGadget
  import Boards
  import Recursion
  import Ships

  /** What `decode_public` reads out of a shot proof. */
  datatype ShotOutputs = ShotOutputs(shot: nat, hit: bool, commitment: Digest)

  /**
   * `partial_witness_inner`: the limbs of `Board::canonical` go into the
   * board targets and the shot's coordinates into the shot targets, x
   * first. `canonical` panics on a board that cannot be painted.
   */
  method PartialWitnessInner(shot: (Ships.U8, Ships.U8), b: Boards.Board, shotT: array<nat>, boardT: array<nat>)
    returns (ok: bool)
    requires shotT.Length == 2 && boardT.Length == 2 && shotT != boardT
    modifies shotT, boardT
    ensures ok <==> Boards.Paintable(b)
    ensures ok ==> boardT[..] == Boards.CanonicalOf(Boards.BitsOf(b)) && shotT[..] == [shot.0, shot.1]
  {
    var canonical := Boards.Canonical(b);
    if canonical.None? {
      return false;
    }
    boardT[0] := canonical.value[0];
    boardT[1] := canonical.value[1];
    shotT[0] := shot.0;
    shotT[1] := shot.1;
    assert boardT[..] == canonical.value;
    return true;
  }

  /**
   * `build` on board limbs and a shot: `[serialize_shot(x, y), check_hit]`
   * followed by `hash_board(board)`; `None` when a constraint fails.
   */
  function ShotBuild(hash: Hasher, board: seq<nat>, x: nat, y: nat): (r: Option<seq<nat>>)
    requires |board| == 2
    ensures r.Some? <==> x <= 8 && y <= 8 && board[0] < TWO_64 && board[1] < TWO_64
    ensures r.Some? ==> |r.value| == 6 && r.value[0] == x + 10 * y && DeserializeShot(r.value[0]) == (x, y)
    ensures r.Some? ==> (r.value[1] == 0 || r.value[1] == 1)
    ensures r.Some? ==> (r.value[1] == 1 <==> Bit(board[(x + 10 * y) / 64], (x + 10 * y) % 64))
    ensures r.Some? ==> r.value[2..] == hash(board)
  {
    match SerializeShot(x, y)
    case None => None
    case Some(serialized) =>
      match CheckHit(board, serialized)
      case None => None
      case Some(hit) => Some([serialized, hit] + hash(board))
  }

  /**
   * `decode_public`: the shot truncated to `u8`, the hit as "non-zero",
   * and the commitment from entries 2 … 5; indexing panics on fewer than
   * six public inputs.
   */
  function DecodePublic(pis: seq<nat>): (r: Option<ShotOutputs>)
    ensures r.Some? <==> |pis| >= 6
    ensures r.Some? ==> r.value.shot < 256 && r.value.shot == pis[0] % 256
    ensures r.Some? ==> (r.value.hit <==> pis[1] != 0) && r.value.commitment == pis[2..6]
  {
    if |pis| < 6 then None
    else Some(ShotOutputs(pis[0] % 256, pis[1] != 0, pis[2..6]))
  }

  /** Decoding the layout `build` publishes returns the shot, the hit and the commitment. */
  lemma DecodeBuild(hash: Hasher, board: seq<nat>, x: nat, y: nat)
    requires |board| == 2 && ShotBuild(hash, board, x, y).Some?
    ensures DecodePublic(ShotBuild(hash, board, x, y).value).Some?
    ensures DecodePublic(ShotBuild(hash, board, x, y).value).value.shot == x + 10 * y
    ensures DecodePublic(ShotBuild(hash, board, x, y).value).value.hit <==> Bit(board[(x + 10 * y) / 64], (x + 10 * y) % 64)
    ensures DecodePublic(ShotBuild(hash, board, x, y).value).value.commitment == hash(board)
  {
    var pis := ShotBuild(hash, board, x, y).value;
    assert pis[2..6] == pis[2..];
  }

  /**
   * `prove_outer` publishes the inner public inputs unchanged, so decoding
   * the shielded proof decodes the inner one.
   */
  lemma DecodeOuter(pis: seq<nat>)
    ensures Recursion.ProveOuter(pis, true).Some?
    ensures DecodePublic(Recursion.ProveOuter(pis, true).value) == DecodePublic(pis)
  {
  }

  /**
   * On the limbs of a real board a shot passing the range checks decodes to
   * its cell index, whether a ship covers that cell, and `Board::hash`.
   */
  lemma ShotOfBoard(hash: Hasher, b: Boards.Board, x: nat, y: nat)
    requires Boards.Paintable(b) && x <= 8 && y <= 8
    ensures var limbs := Boards.CanonicalOf(Boards.BitsOf(b));
      ShotBuild(hash, limbs, x, y).Some? &&
      Boards.Hash(hash, b).Some? &&
      DecodePublic(Recursion.ProveOuter(ShotBuild(hash, limbs, x, y).value, true).value) ==
        Some(ShotOutputs(x + 10 * y, Boards.BitsOf(b)[x + 10 * y], Boards.Hash(hash, b).value))
  {
    var bits := Boards.BitsOf(b);
    var limbs := Boards.CanonicalOf(bits);
    Boards.CanonicalBounds(bits);
    Boards.CanonicalBit(bits, x + 10 * y);
    DecodeBuild(hash, limbs, x, y);
    var d := DecodePublic(Recursion.ProveOuter(ShotBuild(hash, limbs, x, y).value, true).value);
    assert d.value.hit == bits[x + 10 * y];
    assert d == Some(ShotOutputs(x + 10 * y, bits[x + 10 * y], Boards.Hash(hash, b).value));
  }

  /** The hit test: shot (0, 0) on the test board decodes to shot 0, a hit. */
  lemma TestShotHit(hash: Hasher)
    ensures var limbs := Boards.CanonicalOf(Boards.BitsOf(Boards.TestBoard()));
      ShotBuild(hash, limbs, 0, 0).Some? &&
      DecodePublic(ShotBuild(hash, limbs, 0, 0).value) == Some(ShotOutputs(0, true, hash(limbs)))
  {
    Boards.TestBoardCells();
    TestBoardPaintable();
    ShotOfBoard(hash, Boards.TestBoard(), 0, 0);
  }

  /** The miss test: shot (0, 1) on the test board decodes to shot 10, a miss. */
  lemma TestShotMiss(hash: Hasher)
    ensures var limbs := Boards.CanonicalOf(Boards.BitsOf(Boards.TestBoard()));
      ShotBuild(hash, limbs, 0, 1).Some? &&
      DecodePublic(ShotBuild(hash, limbs, 0, 1).value) == Some(ShotOutputs(10, false, hash(limbs)))
  {
    Boards.TestBoardCells();
    TestBoardPaintable();
    assert !Boards.BitsOf(Boards.TestBoard())[10];
    ShotOfBoard(hash, Boards.TestBoard(), 0, 1);
  }

  lemma TestBoardPaintable()
    ensures Boards.Paintable(Boards.TestBoard())
  {
    Boards.TestBoardCells();
  }

  /** Row y of a 100-cell board, columns x = 0 … 9, as 0/1. */
  function Row(bits: seq<bool>, y: nat): (r: seq<nat>)
    requires |bits| == 100 && y < 10
    ensures |r| == 10
  {
    [FromBool(bits[10 * y]), FromBool(bits[10 * y + 1]), FromBool(bits[10 * y + 2]), FromBool(bits[10 * y + 3]),
     FromBool(bits[10 * y + 4]), FromBool(bits[10 * y + 5]), FromBool(bits[10 * y + 6]), FromBool(bits[10 * y + 7]),
     FromBool(bits[10 * y + 8]), FromBool(bits[10 * y + 9])]
  }

  /** Column x of row y is cell 10·y + x. */
  lemma RowCells(bits: seq<bool>, y: nat)
    requires |bits| == 100 && y < 10
    ensures forall x :: 0 <= x < 10 ==> Row(bits, y)[x] == FromBool(bits[10 * y + x])
  {
  }

  /** The occupied cells of the test board. */
  predicate TestBoardCell(k: nat) {
    k == 43 || k == 44 || k == 45 || k == 46 || k == 47 || k == 69 || k == 79 || k == 89 || k == 99 || k == 0 || k == 1 || k == 2 || k == 60 || k == 61 || k == 62 || k == 16 || k == 26
  }

  /** Cell k of the test board is set iff it is one of the ships' cells. */
  lemma TestBoardBits()
    ensures forall k :: 0 <= k < 100 ==> (Boards.BitsOf(Boards.TestBoard())[k] <==> TestBoardCell(k))
  {
    Boards.TestBoardCells();
  }

  /**
   * The test's picture of its board, row for row, top row (y = 9) first,
   * columns x = 0 … 9.
   */
  predicate Pictured(bits: seq<bool>)
    requires |bits| == 100
  {
    Row(bits, 9) == [0, 0, 0, 0, 0, 0, 0, 0, 0, 1] &&
    Row(bits, 8) == [0, 0, 0, 0, 0, 0, 0, 0, 0, 1] &&
    Row(bits, 7) == [0, 0, 0, 0, 0, 0, 0, 0, 0, 1] &&
    Row(bits, 6) == [1, 1, 1, 0, 0, 0, 0, 0, 0, 1] &&
    Row(bits, 5) == [0, 0, 0, 0, 0, 0, 0, 0, 0, 0] &&
    Row(bits, 4) == [0, 0, 0, 1, 1, 1, 1, 1, 0, 0] &&
    Row(bits, 3) == [0, 0, 0, 0, 0, 0, 0, 0, 0, 0] &&
    Row(bits, 2) == [0, 0, 0, 0, 0, 0, 1, 0, 0, 0] &&
    Row(bits, 1) == [0, 0, 0, 0, 0, 0, 1, 0, 0, 0] &&
    Row(bits, 0) == [1, 1, 1, 0, 0, 0, 0, 0, 0, 0]
  }

  /** `Board::bits()` of the test board is the test's picture. */
  lemma TestBoardDiagram()
    ensures Pictured(Boards.BitsOf(Boards.TestBoard()))
  {
    var bits := Boards.BitsOf(Boards.TestBoard());
    TestBoardBits();
    DiagramOf(bits);
  }

  /** Any 100 cells set exactly at the test board's cells form the picture. */
  lemma DiagramOf(bits: seq<bool>)
    requires |bits| == 100 && forall k :: 0 <= k < 100 ==> (bits[k] <==> TestBoardCell(k))
    ensures Pictured(bits)
  {
    TestRow(bits, 9, false, false, false, false, false, false, false, false, false, true);
    TestRow(bits, 8, false, false, false, false, false, false, false, false, false, true);
    TestRow(bits, 7, false, false, false, false, false, false, false, false, false, true);
    TestRow(bits, 6, true, true, true, false, false, false, false, false, false, true);
    TestRow(bits, 5, false, false, false, false, false, false, false, false, false, false);
    TestRow(bits, 4, false, false, false, true, true, true, true, true, false, false);
    TestRow(bits, 3, false, false, false, false, false, false, false, false, false, false);
    TestRow(bits, 2, false, false, false, false, false, false, true, false, false, false);
    TestRow(bits, 1, false, false, false, false, false, false, true, false, false, false);
    TestRow(bits, 0, true, true, true, false, false, false, false, false, false, false);
  }

  /** A row of the board, given cell by cell. */
  lemma TestRow(bits: seq<bool>, y: nat, c0: bool, c1: bool, c2: bool, c3: bool, c4: bool,
                c5: bool, c6: bool, c7: bool, c8: bool, c9: bool)
    requires |bits| == 100 && y < 10
    requires (bits[10 * y] <==> c0) && (bits[10 * y + 1] <==> c1) && (bits[10 * y + 2] <==> c2)
    requires (bits[10 * y + 3] <==> c3) && (bits[10 * y + 4] <==> c4) && (bits[10 * y + 5] <==> c5)
    requires (bits[10 * y + 6] <==> c6) && (bits[10 * y + 7] <==> c7) && (bits[10 * y + 8] <==> c8)
    requires bits[10 * y + 9] <==> c9
    ensures Row(bits, y) == [FromBool(c0), FromBool(c1), FromBool(c2), FromBool(c3), FromBool(c4),
                             FromBool(c5), FromBool(c6), FromBool(c7), FromBool(c8), FromBool(c9)]
  {
  }
}
