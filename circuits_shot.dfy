/**
 * The stand-alone shot circuit: two board limbs and a shot (x, y) as
 * private inputs, the serialised shot looked up in the decomposed board,
 * and the hit bit exported as the only public input.
 */
module CircuitsShot {
  import opened Wrappers
  import opened LittleEndian
  import opened ShotGadget
  import Boards
  import Ships

  /** The public input of the circuit: `check_hit(board, serialize_shot(x, y))`. */
  function ShotCircuit(board: seq<nat>, x: nat, y: nat): (r: Option<nat>)
    requires |board| == 2
    ensures r.Some? <==> x <= 8 && y <= 8 && board[0] < TWO_64 && board[1] < TWO_64
    ensures r.Some? ==> (r.value == 1 <==> Bit(board[(x + 10 * y) / 64], (x + 10 * y) % 64))
  {
    match SerializeShot(x, y)
    case None => None
    case Some(serialized) => CheckHit(board, serialized)
  }

  /** On the limbs of a real board the circuit reports whether the shot cell is occupied. */
  lemma ShotCircuitReadsBoard(b: Boards.Board, x: nat, y: nat)
    requires x <= 8 && y <= 8
    ensures ShotCircuit(Boards.CanonicalOf(Boards.BitsOf(b)), x, y) == Some(FromBool(Boards.BitsOf(b)[x + 10 * y]))
  {
    SerializedShotReadsBoard(b, x, y);
  }

  /**
   * The test witnesses limb 0 of the test board in both limb targets and
   * shoots (0, 0); cell 0 belongs to the cruiser, so the exported bit is 1.
   */
  lemma TestShotHits()
    ensures var c := Boards.CanonicalOf(Boards.BitsOf(Boards.TestBoard()));
      ShotCircuit([c[0], c[0]], 0, 0) == Some(1)
  {
    var bits := Boards.BitsOf(Boards.TestBoard());
    assert Ships.CellAt(Boards.Fleet(Boards.TestBoard())[2], 0) == 0;
    Boards.BitsOfIff(Boards.TestBoard(), 0);
    Boards.CanonicalBounds(bits);
    Boards.CanonicalBit(bits, 0);
  }
}
