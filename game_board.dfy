/**
 * The board circuit: five ships witnessed as (x, y, z) triples are placed
 * in order, with lengths 5, 4, 3, 3, 2, onto an empty 128-cell board; the
 * final board is recomposed into two limbs and its Poseidon hash is the
 * only public output.
 */
module GameBoard {
  import opened Wrappers
  import opened LittleEndian
  import opened Commitments
  import opened BoardGadget
  import Ships
  import Boards
  import Recursion

  /** The values set into one ship's (x, y, z) targets. */
  type ShipWitness = (Ships.U8, Ships.U8, bool)

  /** The board whose ships the five witnessed triples describe, in fleet order. */
  function WitnessedBoard(pw: seq<ShipWitness>): (b: Boards.Board)
    requires |pw| == 5
  {
    Boards.Board(
      Ships.Ship(pw[0].0, pw[0].1, pw[0].2), Ships.Ship(pw[1].0, pw[1].1, pw[1].2),
      Ships.Ship(pw[2].0, pw[2].1, pw[2].2), Ships.Ship(pw[3].0, pw[3].1, pw[3].2),
      Ships.Ship(pw[4].0, pw[4].1, pw[4].2))
  }

  /**
   * `partial_witness_inner`: the canonical triples of carrier, battleship,
   * cruiser, submarine and destroyer go into target triples 0 … 4.
   */
  method PartialWitnessInner(b: Boards.Board) returns (pw: seq<ShipWitness>)
    ensures |pw| == 5
    ensures forall i :: 0 <= i < 5 ==> pw[i] == Ships.Canonical(Boards.Fleet(b)[i])
    ensures WitnessedBoard(pw) == b
  {
    var ships := [
      Ships.Canonical(b.carrier), Ships.Canonical(b.battleship), Ships.Canonical(b.cruiser),
      Ships.Canonical(b.submarine), Ships.Canonical(b.destroyer)];
    var targets := new ShipWitness[5](_ => (0, 0, false));
    for i := 0 to |ships|
      invariant forall k :: 0 <= k < i ==> targets[k] == ships[k]
    {
      targets[i] := (ships[i].0, ships[i].1, ships[i].2);
    }
    pw := targets[..];
  }

  /** The board after the first j placements, or `None` once one is unsatisfiable. */
  function PlaceFrom(b: Boards.Board, j: nat): (r: Option<seq<nat>>)
    requires j <= 5
    ensures r.Some? ==> |r.value| == 128
  {
    if j == 0 then DecomposeBoard([0, 0])
    else
      match PlaceFrom(b, j - 1)
      case None => None
      case Some(board) =>
        var s := Boards.Fleet(b)[j - 1];
        PlaceShipSpec(s.x, s.y, s.z, Boards.LENGTHS[j - 1], board)
  }

  /** The commitment the circuit publishes for witness b, or `None` if it is unsatisfiable. */
  function BuildSpec(hash: Hasher, b: Boards.Board): Option<Digest> {
    match PlaceFrom(b, 5)
    case None => None
    case Some(board) => Some(hash(RecomposeBoard(board)))
  }

  /**
   * `build` on witness b: decompose the blank board, place the five ships
   * in order, recompose and hash.
   */
  method Build(hash: Hasher, b: Boards.Board) returns (r: Option<Digest>)
    ensures r == BuildSpec(hash, b)
  {
    var initial := DecomposeBoard([0, 0]);
    var board0 := PlaceShip(b.carrier.x, b.carrier.y, b.carrier.z, 5, initial.value);
    PlaceFromStep(b, 1, initial.value);
    if board0.None? {
      PlaceFromNone(b, 1, 5);
      return None;
    }
    var board1 := PlaceShip(b.battleship.x, b.battleship.y, b.battleship.z, 4, board0.value);
    PlaceFromStep(b, 2, board0.value);
    if board1.None? {
      PlaceFromNone(b, 2, 5);
      return None;
    }
    var board2 := PlaceShip(b.cruiser.x, b.cruiser.y, b.cruiser.z, 3, board1.value);
    PlaceFromStep(b, 3, board1.value);
    if board2.None? {
      PlaceFromNone(b, 3, 5);
      return None;
    }
    var board3 := PlaceShip(b.submarine.x, b.submarine.y, b.submarine.z, 3, board2.value);
    PlaceFromStep(b, 4, board2.value);
    if board3.None? {
      PlaceFromNone(b, 4, 5);
      return None;
    }
    var board5 := PlaceShip(b.destroyer.x, b.destroyer.y, b.destroyer.z, 2, board3.value);
    PlaceFromStep(b, 5, board3.value);
    if board5.None? {
      return None;
    }
    var boardFinal := RecomposeBoard(board5.value);
    return Some(hash(boardFinal));
  }

  /** An unsatisfiable placement leaves every later stage unsatisfiable. */
  lemma {:induction false} PlaceFromNone(b: Boards.Board, j: nat, k: nat)
    requires j <= k <= 5 && PlaceFrom(b, j).None?
    ensures PlaceFrom(b, k).None?
  {
    if j < k {
      PlaceFromNone(b, j, k - 1);
    }
  }

  /** One more placement: the circuit places ship j − 1 on the board built so far. */
  lemma PlaceFromStep(b: Boards.Board, j: nat, board: seq<nat>)
    requires 0 < j <= 5 && PlaceFrom(b, j - 1) == Some(board)
    ensures PlaceFrom(b, j) ==
      PlaceShipSpec(Boards.Fleet(b)[j - 1].x, Boards.Fleet(b)[j - 1].y, Boards.Fleet(b)[j - 1].z, Boards.LENGTHS[j - 1], board)
  {
  }

  /** Every ship among the first j passes the range checks as written. */
  predicate InRangeUpTo(b: Boards.Board, j: nat)
    requires j <= 5
  {
    forall i :: 0 <= i < j ==>
      ShipInRange(Boards.Fleet(b)[i].x, Boards.Fleet(b)[i].y, Boards.Fleet(b)[i].z, Boards.LENGTHS[i])
  }

  /** None of the first j ships covers a cell of an earlier one. */
  predicate NoOverlapUpTo(b: Boards.Board, j: nat)
    requires j <= 5
  {
    forall i, c :: 0 <= i < j && c in Ships.Cells(Boards.Fleet(b)[i], Boards.LENGTHS[i]) ==> c !in Boards.PlacedUpTo(b, i)
  }

  /** The 0/1 board with exactly the cells of the first j ships set. */
  function Layer(b: Boards.Board, j: nat): (r: seq<nat>)
    requires j <= 5
    ensures |r| == 128 && IsBits(r)
  {
    seq(128, k => if k in Boards.PlacedUpTo(b, j) then 1 else 0)
  }

  /**
   * After j placements the circuit is satisfiable iff each of those ships
   * is in range and overlaps no earlier one, and the board then holds
   * exactly their cells.
   */
  lemma {:induction false} PlaceFromLayer(b: Boards.Board, j: nat)
    requires j <= 5
    ensures PlaceFrom(b, j) == if InRangeUpTo(b, j) && NoOverlapUpTo(b, j) then Some(Layer(b, j)) else None
  {
    if j == 0 {
      ZeroBits(64);
      assert Zeros(64) + Zeros(64) == Layer(b, 0);
    } else {
      PlaceFromLayer(b, j - 1);
      var s := Boards.Fleet(b)[j - 1];
      var L := Boards.LENGTHS[j - 1];
      if InRangeUpTo(b, j - 1) && NoOverlapUpTo(b, j - 1) {
        var prev := Layer(b, j - 1);
        PlaceShipSetsCells(s, L, prev);
        if ShipInRange(s.x, s.y, s.z, L) {
          InRangeCellsBelow100(s, L);
          assert (forall c :: c in Ships.Cells(s, L) ==> c < |prev| && prev[c] == 0) <==>
            (forall c :: c in Ships.Cells(s, L) ==> c !in Boards.PlacedUpTo(b, j - 1));
          if NoOverlapUpTo(b, j) {
            assert Boards.PlacedUpTo(b, j) == Boards.PlacedUpTo(b, j - 1) + Ships.Cells(s, L);
            assert PlaceFrom(b, j).value == Layer(b, j);
          }
        }
      }
    }
  }

  /** All five ships pass the range checks as written. */
  predicate AllInRange(b: Boards.Board) {
    InRangeUpTo(b, 5)
  }

  /** Ships in range as written lie on the grid, so every covered cell is below 100. */
  lemma InRangePaintable(b: Boards.Board)
    requires AllInRange(b)
    ensures Boards.Paintable(b)
  {
    forall c | c in Boards.BoardCells(b) ensures c < 100 {
      Boards.BoardCellsOf(b, 5, c);
      var j, i :| 0 <= j < 5 && 0 <= i < Boards.LENGTHS[j] && Ships.CellAt(Boards.Fleet(b)[j], i) == c;
      var s := Boards.Fleet(b)[j];
      assert ShipInRange(s.x, s.y, s.z, Boards.LENGTHS[j]);
      InRangeCellsBelow100(s, Boards.LENGTHS[j]);
      assert Ships.Cells(s, Boards.LENGTHS[j])[i] == c;
      assert c in Ships.Cells(s, Boards.LENGTHS[j]);
    }
  }

  /** The final 128-cell board is the host's 100 bits followed by 28 zeros. */
  lemma FinalLayer(b: Boards.Board)
    requires Boards.Paintable(b)
    ensures Layer(b, 5) == FromBools(Boards.BitsOf(b)) + Zeros(28)
  {
  }

  /** The recomposed final board is exactly `Board::canonical`. */
  lemma RecomposeFinal(b: Boards.Board)
    requires Boards.Paintable(b)
    ensures RecomposeBoard(Layer(b, 5)) == Boards.CanonicalOf(Boards.BitsOf(b))
  {
    var bits := Boards.BitsOf(b);
    var layer := Layer(b, 5);
    FinalLayer(b);
    assert layer[0..64] == FromBools(bits[..64]);
    assert layer[64..128] == FromBools(bits[64..]) + Zeros(28);
    LeSumAppendZeros(FromBools(bits[64..]), 28);
  }

  /**
   * The board circuit is satisfiable exactly for the boards whose ships
   * pass the range checks as written and do not overlap, and then commits
   * to the hash of `Board::canonical`.
   */
  lemma BuildIff(hash: Hasher, b: Boards.Board)
    ensures BuildSpec(hash, b) ==
      if AllInRange(b) && Boards.NoOverlap(b) then Some(hash(Boards.CanonicalOf(Boards.BitsOf(b)))) else None
  {
    PlaceFromLayer(b, 5);
    if AllInRange(b) && Boards.NoOverlap(b) {
      InRangePaintable(b);
      RecomposeFinal(b);
    }
  }

  /** On a satisfiable witness the final board is `Board::bits()` padded to 128 cells, with 17 cells set. */
  lemma BuildFinalBoard(b: Boards.Board)
    requires PlaceFrom(b, 5).Some?
    ensures PlaceFrom(b, 5).value == FromBools(Boards.BitsOf(b)) + Zeros(28)
    ensures Boards.Count(Boards.BitsOf(b)) == 17
  {
    PlaceFromLayer(b, 5);
    InRangePaintable(b);
    FinalLayer(b);
    Boards.CountBits(b);
  }

  /** A ship that passes the range checks as written lies on the grid. */
  lemma InRangeOnGrid(b: Boards.Board)
    requires AllInRange(b)
    ensures forall j :: 0 <= j < 5 ==> Ships.OnGrid(Boards.Fleet(b)[j], Boards.LENGTHS[j])
  {
    forall j | 0 <= j < 5 ensures Ships.OnGrid(Boards.Fleet(b)[j], Boards.LENGTHS[j]) {
      var s := Boards.Fleet(b)[j];
      ShipInRangeIff(s.x, s.y, s.z, Boards.LENGTHS[j]);
    }
  }

  /**
   * `decode_public`: the public inputs as the four commitment limbs; the
   * conversion into `[u64; 4]` panics unless there are exactly four.
   */
  function DecodePublic(pis: seq<nat>): (r: Option<Digest>)
    ensures r.Some? <==> |pis| == 4
    ensures r.Some? ==> r.value == pis
  {
    if |pis| == 4 then Some(pis) else None
  }

  /**
   * Decoding the shielded proof of a satisfiable witness gives `Board::hash`
   * of that board, as the test asserts.
   */
  lemma DecodeOuterCommitment(hash: Hasher, b: Boards.Board)
    requires BuildSpec(hash, b).Some?
    ensures Recursion.ProveOuter(BuildSpec(hash, b).value, true).Some?
    ensures DecodePublic(Recursion.ProveOuter(BuildSpec(hash, b).value, true).value) == Boards.Hash(hash, b)
  {
    BuildIff(hash, b);
    InRangePaintable(b);
  }

  /** The triples `partial_witness_inner` writes describe the board, so the circuit commits to it. */
  lemma WitnessedBoardOf(b: Boards.Board)
    ensures WitnessedBoard(seq(5, i requires 0 <= i < 5 => Ships.Canonical(Boards.Fleet(b)[i]))) == b
  {
  }

  /** The test board is a legal Battleship board: every ship lies on the grid. */
  lemma TestBoardOnGrid()
    ensures forall j :: 0 <= j < 5 ==> Ships.OnGrid(Boards.Fleet(Boards.TestBoard())[j], Boards.LENGTHS[j])
  {
  }

  /** No ship of the test board covers a cell of an earlier one. */
  lemma TestBoardNoOverlap()
    ensures Boards.NoOverlap(Boards.TestBoard())
  {
    var b := Boards.TestBoard();
    assert Boards.FleetApart(b);
    Boards.NoOverlapOfApart(b);
  }

  /** The circuit as written rejects the test board: the battleship's head has x = 9. */
  lemma TestBoardRejected(hash: Hasher)
    ensures BuildSpec(hash, Boards.TestBoard()) == None
  {
    var b := Boards.TestBoard();
    BuildIff(hash, b);
    ShipInRangeIff(9, 6, true, 4);
    assert Boards.Fleet(b)[1] == Ships.Ship(9, 6, true);
    assert !InRangeUpTo(b, 5);
  }
}
