/**
 * The shot gadgets: the serialisation of a shot coordinate into the cell
 * index 10·y + x, and the lookup of that index in the decomposed board.
 */
module ShotGadget {
  import opened Wrappers
  import opened LittleEndian
  import opened Range
  import opened BoardGadget
  import Boards

  /**
   * `serialize_shot`: both coordinates pass `less_than_10` (as written,
   * 0 ‥ 8) and the output is 10·y + x.
   */
  function SerializeShot(x: nat, y: nat): (r: Option<nat>)
    ensures r.Some? <==> x <= 8 && y <= 8
    ensures r.Some? ==> r.value == x + 10 * y && r.value < 89
    ensures r.Some? ==> r.value % 10 == x && r.value / 10 == y
  {
    LessThan10Iff(x);
    LessThan10Iff(y);
    if LessThan10(x) && LessThan10(y) then Some(x + y * 10) else None
  }

  /**
   * `serialize_shot` over the documented range check (`less_than_10`
   * accepting 0 ‥ 9): every cell of the 10 × 10 grid serialises.
   */
  function SerializeShotFixed(x: nat, y: nat): (r: Option<nat>)
    ensures r.Some? <==> x < 10 && y < 10
    ensures r.Some? ==> r.value == x + 10 * y && r.value < 100
    ensures r.Some? ==> r.value % 10 == x && r.value / 10 == y
  {
    LessThanTenIff(x);
    LessThanTenIff(y);
    if LessThanTen(x) && LessThanTen(y) then Some(x + y * 10) else None
  }

  /** Reading a serialised shot back: column and row. */
  function DeserializeShot(shot: nat): (nat, nat) {
    (shot % 10, shot / 10)
  }

  /** Serialisation is injective: the serialised index determines the shot. */
  lemma SerializeDeserialize(x: nat, y: nat)
    requires SerializeShot(x, y).Some?
    ensures DeserializeShot(SerializeShot(x, y).value) == (x, y)
  {
  }

  /** Every index of the 9 × 9 area the gadget accepts is the serialisation of its own coordinates. */
  lemma DeserializeSerialize(shot: nat)
    requires shot % 10 <= 8 && shot / 10 <= 8
    ensures SerializeShot(DeserializeShot(shot).0, DeserializeShot(shot).1) == Some(shot)
  {
  }

  /**
   * `builder.random_access(index, v)`: the gate decomposes the index into
   * log₂|v| bits, so it is satisfiable only for an index inside the vector.
   */
  function RandomAccess(index: nat, v: seq<nat>): Option<nat> {
    if index < |v| then Some(v[index]) else None
  }

  /**
   * `check_hit`: decomposes both limbs into 128 bits and reads the one at
   * the shot index, which is bit shot % 64 of limb shot / 64.
   */
  function CheckHit(board: seq<nat>, shot: nat): (r: Option<nat>)
    requires |board| == 2
    ensures r.Some? <==> board[0] < TWO_64 && board[1] < TWO_64 && shot < 128
    ensures r.Some? ==> (r.value == 0 || r.value == 1)
    ensures r.Some? ==> (r.value == 1 <==> Bit(board[shot / 64], shot % 64))
  {
    match DecomposeBoard(board)
    case None => None
    case Some(bits) =>
      DecomposeBits(board);
      RandomAccess(shot, bits)
  }

  /**
   * On the limbs of a board's `canonical`, `check_hit` at a cell of the
   * grid reports exactly whether a ship covers that cell.
   */
  lemma CheckHitReadsBoard(b: Boards.Board, shot: nat)
    requires shot < 100
    ensures CheckHit(Boards.CanonicalOf(Boards.BitsOf(b)), shot) == Some(FromBool(Boards.BitsOf(b)[shot]))
  {
    var bits := Boards.BitsOf(b);
    Boards.CanonicalBounds(bits);
    Boards.CanonicalBit(bits, shot);
  }

  /** A shot that passes `serialize_shot` reads the cell it names. */
  lemma SerializedShotReadsBoard(b: Boards.Board, x: nat, y: nat)
    requires SerializeShot(x, y).Some?
    ensures CheckHit(Boards.CanonicalOf(Boards.BitsOf(b)), SerializeShot(x, y).value) ==
      Some(FromBool(Boards.BitsOf(b)[x + 10 * y]))
  {
    CheckHitReadsBoard(b, x + 10 * y);
  }
}
