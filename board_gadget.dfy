/**
 * The board gadgets over a 128-cell board vector: decomposition of the two
 * limbs into bits and back, the coordinates a ship occupies, the
 * membership polynomial, and the placement of one ship.
 *
 * A gadget is a function or method whose result is `None` when its
 * constraints cannot be satisfied and `Some(v)` with the values of its
 * output targets otherwise.
 */
module BoardGadget {
  import opened Wrappers
  import opened LittleEndian
  import opened Repetition
  import opened Range
  import Ships

  /** `builder.select(b, x, y)`. */
  function Select(b: bool, x: nat, y: nat): nat {
    if b then x else y
  }

  /**
   * `decompose_board`: 64 bits of limb 0 followed by 64 bits of limb 1;
   * satisfiable only when each limb fits in 64 bits.
   */
  function DecomposeBoard(board: seq<nat>): (r: Option<seq<nat>>)
    requires |board| == 2
    ensures r.Some? <==> board[0] < TWO_64 && board[1] < TWO_64
    ensures r.Some? ==> |r.value| == 128 && IsBits(r.value)
  {
    if board[0] < TWO_64 && board[1] < TWO_64 then
      IsBitsAppend(LeBits(board[0], 64), LeBits(board[1], 64));
      Some(LeBits(board[0], 64) + LeBits(board[1], 64))
    else
      None
  }

  /** Entry i of the decomposition is bit i % 64 of limb i / 64. */
  lemma DecomposeBits(board: seq<nat>)
    requires |board| == 2 && board[0] < TWO_64 && board[1] < TWO_64
    ensures forall i :: 0 <= i < 128 ==> (DecomposeBoard(board).value[i] == 1 <==> Bit(board[i / 64], i % 64))
  {
    forall i | 0 <= i < 128 ensures DecomposeBoard(board).value[i] == 1 <==> Bit(board[i / 64], i % 64) {
      DecomposeBit(board, i);
    }
  }

  lemma DecomposeBit(board: seq<nat>, i: nat)
    requires |board| == 2 && board[0] < TWO_64 && board[1] < TWO_64 && i < 128
    ensures DecomposeBoard(board).value[i] == FromBool(Bit(board[i / 64], i % 64))
  {
    var lo, hi := LeBits(board[0], 64), LeBits(board[1], 64);
    assert DecomposeBoard(board).value == lo + hi;
    if i < 64 {
      LeBitsAt(board[0], 64, i);
    } else {
      LeBitsAt(board[1], 64, i - 64);
    }
  }

  /** `recompose_board`: `le_sum` of bits [0..64) and of bits [64..128). */
  function RecomposeBoard(bits: seq<nat>): (r: seq<nat>)
    requires |bits| >= 128
    ensures |r| == 2
    ensures IsBits(bits) ==> r[0] < TWO_64 && r[1] < TWO_64
  {
    RecomposeBound(bits);
    [LeSum(bits[0..64]), LeSum(bits[64..128])]
  }

  lemma RecomposeBound(bits: seq<nat>)
    requires |bits| >= 128
    ensures IsBits(bits) ==> LeSum(bits[0..64]) < TWO_64 && LeSum(bits[64..128]) < TWO_64
  {
    if IsBits(bits) {
      assert IsBits(bits[0..64]) && IsBits(bits[64..128]);
      LeSumBoundWidth(bits[0..64]);
      LeSumBoundWidth(bits[64..128]);
    }
  }

  /** Recomposing the decomposition gives the limbs back. */
  lemma RecomposeDecompose(board: seq<nat>)
    requires |board| == 2 && board[0] < TWO_64 && board[1] < TWO_64
    ensures DecomposeBoard(board).Some? && RecomposeBoard(DecomposeBoard(board).value) == board
  {
    var lo, hi := LeBits(board[0], 64), LeBits(board[1], 64);
    assert DecomposeBoard(board) == Some(lo + hi);
    LeSumOfLeBitsWidth(board[0], 64);
    LeSumOfLeBitsWidth(board[1], 64);
    RecomposeOfDigits(board, lo, hi);
  }

  /** Two 64-digit sequences summing to the limbs recompose to the limbs. */
  lemma RecomposeOfDigits(board: seq<nat>, lo: seq<nat>, hi: seq<nat>)
    requires |board| == 2 && |lo| == 64 && |hi| == 64
    requires LeSum(lo) == board[0] && LeSum(hi) == board[1]
    ensures RecomposeBoard(lo + hi) == board
  {
    AppendSlices(lo, hi);
  }

  /** Limbs whose 64-bit digits are lo and hi decompose to lo followed by hi. */
  lemma DecomposeOfDigits(limbs: seq<nat>, lo: seq<nat>, hi: seq<nat>)
    requires |limbs| == 2 && limbs[0] < TWO_64 && limbs[1] < TWO_64
    requires LeBits(limbs[0], 64) == lo && LeBits(limbs[1], 64) == hi
    ensures DecomposeBoard(limbs) == Some(lo + hi)
  {
  }

  /** Decomposing the recomposition of 128 bits gives the bits back. */
  lemma DecomposeRecompose(bits: seq<nat>)
    requires |bits| == 128 && IsBits(bits)
    ensures DecomposeBoard(RecomposeBoard(bits)) == Some(bits)
  {
    var lo, hi := bits[0..64], bits[64..128];
    var limbs := RecomposeBoard(bits);
    assert limbs[0] == LeSum(lo) && limbs[1] == LeSum(hi);
    assert LeBits(limbs[0], 64) == lo by {
      assert IsBits(lo);
      LeBitsOfLeSum(lo);
    }
    assert LeBits(limbs[1], 64) == hi by {
      assert IsBits(hi);
      LeBitsOfLeSum(hi);
    }
    DecomposeOfDigits(limbs, lo, hi);
    SplitAt(bits, 64);
  }

  /** The value `generate_coordiante` multiplexes: x_t + 10·y_t. */
  function CoordinateValue(x: nat, y: nat, z: bool, offset: nat): nat {
    Select(z, x, x + offset) + Select(z, y + offset, y) * 10
  }

  /**
   * `generate_coordiante`: only the moving axis (y + offset when vertical,
   * x + offset when horizontal) is range-checked.
   */
  function GenerateCoordinate(x: nat, y: nat, z: bool, offset: nat): (r: Option<nat>)
    ensures r.Some? <==> (if z then y + offset else x + offset) <= 8
  {
    var rangeCheck := Select(z, y + offset, x + offset);
    LessThan10Iff(rangeCheck);
    if LessThan10(rangeCheck) then Some(CoordinateValue(x, y, z, offset)) else None
  }

  /** `generate_coordiante` computes `Ship::coordinates()[offset]`. */
  lemma GenerateCoordinateAgrees(s: Ships.Ship, offset: nat)
    ensures GenerateCoordinate(s.x, s.y, s.z, offset) ==
      if (if s.z then s.y else s.x) + offset <= 8 then Some(Ships.CellAt(s, offset)) else None
  {
  }

  /** Every range check of `ship_to_coordinates` is satisfiable. */
  predicate ShipInRange(x: nat, y: nat, z: bool, L: nat) {
    LessThan10(x) && LessThan10(y) && forall i :: 0 <= i < L ==> GenerateCoordinate(x, y, z, i).Some?
  }

  /** As written, a ship is in range iff its head and its last cell are within 0 ‥ 8. */
  lemma ShipInRangeIff(x: nat, y: nat, z: bool, L: nat)
    ensures ShipInRange(x, y, z, L) <==>
      x <= 8 && y <= 8 && (L == 0 || (if z then y else x) + L - 1 <= 8)
  {
    LessThan10Iff(x);
    LessThan10Iff(y);
    if L > 0 && !ShipInRange(x, y, z, L) && x <= 8 && y <= 8 {
      var i :| 0 <= i < L && GenerateCoordinate(x, y, z, i).None?;
    }
    if L > 0 && ShipInRange(x, y, z, L) {
      assert GenerateCoordinate(x, y, z, L - 1).Some?;
    }
  }

  /** The coordinates `ship_to_coordinates` connects, in offset order. */
  function ShipCoordinates(x: nat, y: nat, z: bool, L: nat): (r: Option<seq<nat>>)
    ensures r.Some? <==> ShipInRange(x, y, z, L)
    ensures r.Some? ==> |r.value| == L
  {
    if ShipInRange(x, y, z, L) then Some(seq(L, (i: nat) => CoordinateValue(x, y, z, i))) else None
  }

  /**
   * `ship_to_coordinates`: range-checks the head, then connects
   * coordinate i to `generate_coordiante(x, y, z, i)` for i in 0..L.
   */
  method ShipToCoordinates(x: nat, y: nat, z: bool, L: nat) returns (r: Option<seq<nat>>)
    ensures r == ShipCoordinates(x, y, z, L)
  {
    if !LessThan10(x) || !LessThan10(y) {
      return None;
    }
    var coordinates := new nat[L];
    for i := 0 to L
      invariant forall k :: 0 <= k < i ==> GenerateCoordinate(x, y, z, k).Some?
      invariant forall k :: 0 <= k < i ==> coordinates[k] == CoordinateValue(x, y, z, k)
    {
      var coordinate := GenerateCoordinate(x, y, z, i);
      if coordinate.None? {
        return None;
      }
      coordinates[i] := coordinate.value;
    }
    assert ShipInRange(x, y, z, L);
    assert coordinates[..] == seq(L, (i: nat) => CoordinateValue(x, y, z, i));
    return Some(coordinates[..]);
  }

  /** `ship_to_coordinates` computes `Ship::coordinates()` whenever its range checks pass. */
  lemma ShipCoordinatesAgree(s: Ships.Ship, L: nat)
    ensures ShipCoordinates(s.x, s.y, s.z, L) ==
      if ShipInRange(s.x, s.y, s.z, L) then Some(Ships.Cells(s, L)) else None
  {
    assert forall i: nat :: CoordinateValue(s.x, s.y, s.z, i) == Ships.CellAt(s, i);
    assert Ships.Cells(s, L) == seq(L, (i: nat) => CoordinateValue(s.x, s.y, s.z, i));
  }

  /** ∏ (c − value) over the coordinates c, in order. */
  function Interpolant(coordinates: seq<nat>, value: nat): int {
    if |coordinates| == 0 then 1
    else Interpolant(coordinates[..|coordinates| - 1], value) * (coordinates[|coordinates| - 1] - value)
  }

  lemma {:induction false} InterpolantZero(coordinates: seq<nat>, value: nat)
    ensures Interpolant(coordinates, value) == 0 <==> value in coordinates
  {
    if |coordinates| > 0 {
      var p := coordinates[..|coordinates| - 1];
      InterpolantZero(p, value);
      MulZero(Interpolant(p, value), coordinates[|coordinates| - 1] - value);
      assert coordinates == p + [coordinates[|coordinates| - 1]];
    }
  }

  /**
   * `interpolate_bitflip_bool`: multiplies (cᵢ − value) over the
   * coordinates and tests the product against zero.
   */
  method InterpolateBitflipBool(value: nat, coordinates: seq<nat>) returns (flip: bool)
    ensures flip <==> value in coordinates
  {
    var exp: int := 1;
    for i := 0 to |coordinates|
      invariant exp == Interpolant(coordinates[..i], value)
    {
      assert coordinates[..i + 1][..i] == coordinates[..i];
      var checked := coordinates[i] - value;
      exp := exp * checked;
    }
    assert coordinates[..|coordinates|] == coordinates;
    InterpolantZero(coordinates, value);
    flip := exp == 0;
  }

  /** The board `place_ship` connects when every ship cell was empty. */
  function Placed(board: seq<nat>, c: seq<nat>): (r: seq<nat>)
    ensures |r| == |board|
  {
    seq(|board|, k requires 0 <= k < |board| => if k < 100 && k in c then board[k] + 1 else board[k])
  }

  /**
   * `place_ship`: satisfiable iff the range checks pass and every ship
   * cell reads 0 from the input board; the output adds one at the ship's
   * cells below 100 and copies every other cell.
   */
  function PlaceShipSpec(x: nat, y: nat, z: bool, L: nat, board: seq<nat>): (r: Option<seq<nat>>)
    ensures r.Some? ==> |r.value| == |board|
  {
    match ShipCoordinates(x, y, z, L)
    case None => None
    case Some(c) =>
      if forall i :: 0 <= i < |c| ==> c[i] < |board| && board[c[i]] == 0 then Some(Placed(board, c)) else None
  }

  /**
   * The 128-cell `place_ship`: coordinates, the emptiness check on each of
   * them, then the output board built cell by cell, 0..100 through the
   * membership polynomial and 100..128 copied.
   */
  method PlaceShip(x: nat, y: nat, z: bool, L: nat, board: seq<nat>) returns (r: Option<seq<nat>>)
    requires |board| == 128
    ensures r == PlaceShipSpec(x, y, z, L, board)
  {
    var shipCoordinates := ShipToCoordinates(x, y, z, L);
    if shipCoordinates.None? {
      return None;
    }
    var c := shipCoordinates.value;
    for i := 0 to L
      invariant forall k :: 0 <= k < i ==> c[k] < |board| && board[c[k]] == 0
    {
      if c[i] >= |board| || board[c[i]] != 0 {
        return None;
      }
    }
    var boardOut := new nat[128];
    for i := 0 to 100
      invariant forall k :: 0 <= k < i ==> boardOut[k] == Placed(board, c)[k]
    {
      var coordinate := board[i];
      var flipped := coordinate + 1;
      var shouldFlip := InterpolateBitflipBool(i, c);
      boardOut[i] := Select(shouldFlip, flipped, coordinate);
    }
    for i := 100 to 128
      invariant forall k :: 0 <= k < i ==> boardOut[k] == Placed(board, c)[k]
    {
      boardOut[i] := board[i];
    }
    assert boardOut[..] == Placed(board, c);
    return Some(boardOut[..]);
  }

  /** A placement reads 0 at every ship cell: no ship overlaps one already placed. */
  lemma PlaceShipNoOverlap(s: Ships.Ship, L: nat, board: seq<nat>)
    requires PlaceShipSpec(s.x, s.y, s.z, L, board).Some?
    ensures ShipInRange(s.x, s.y, s.z, L)
    ensures forall i :: 0 <= i < L ==> Ships.CellAt(s, i) < 100
    ensures forall i :: 0 <= i < L ==> Ships.CellAt(s, i) < |board| && board[Ships.CellAt(s, i)] == 0
  {
    ShipInRangeIff(s.x, s.y, s.z, L);
    ShipCoordinatesAgree(s, L);
    var c := Ships.Cells(s, L);
    assert forall i :: 0 <= i < L ==> c[i] == Ships.CellAt(s, i);
  }

  /**
   * The output adds one at the ship's cells, copies every other cell below
   * 100 and every cell from 100 on.
   */
  lemma PlaceShipOutput(s: Ships.Ship, L: nat, board: seq<nat>, k: nat)
    requires PlaceShipSpec(s.x, s.y, s.z, L, board).Some? && k < |board|
    ensures PlaceShipSpec(s.x, s.y, s.z, L, board).value[k] ==
      if k < 100 && k in Ships.Cells(s, L) then board[k] + 1 else board[k]
  {
    ShipCoordinatesAgree(s, L);
  }

  /** A cell of a ship in range lies below 100. */
  lemma InRangeCellsBelow100(s: Ships.Ship, L: nat)
    requires ShipInRange(s.x, s.y, s.z, L)
    ensures forall c :: c in Ships.Cells(s, L) ==> c < 100
  {
    ShipInRangeIff(s.x, s.y, s.z, L);
  }

  /**
   * On a 0/1 board the placement is satisfiable iff the range checks pass
   * and no ship cell is set; its output is 0/1 again and is the input with
   * the ship's cells set to 1.
   */
  lemma PlaceShipSetsCells(s: Ships.Ship, L: nat, board: seq<nat>)
    requires IsBits(board) && |board| >= 100
    ensures PlaceShipSpec(s.x, s.y, s.z, L, board).Some? <==>
      ShipInRange(s.x, s.y, s.z, L) && forall c :: c in Ships.Cells(s, L) ==> c < |board| && board[c] == 0
    ensures PlaceShipSpec(s.x, s.y, s.z, L, board).Some? ==>
      IsBits(PlaceShipSpec(s.x, s.y, s.z, L, board).value) &&
      PlaceShipSpec(s.x, s.y, s.z, L, board).value ==
        seq(|board|, k requires 0 <= k < |board| => if k in Ships.Cells(s, L) then 1 else board[k])
  {
    ShipCoordinatesAgree(s, L);
    if ShipInRange(s.x, s.y, s.z, L) {
      InRangeCellsBelow100(s, L);
      var c := Ships.Cells(s, L);
      if forall i :: 0 <= i < |c| ==> c[i] < |board| && board[c[i]] == 0 {
        forall c0 | c0 in c ensures c0 < |board| && board[c0] == 0 {
          var i :| 0 <= i < |c| && c[i] == c0;
        }
      }
    }
  }
}
