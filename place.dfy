/**
 * The older placement circuit over a 100-cell board: the board limbs are
 * split into 64 + 36 bits, the layout `Board::canonical` produces, and the
 * ship coordinates are also registered as public inputs.
 */
module Place {
  import opened Wrappers
  import opened LittleEndian
  import opened Repetition
  import opened BoardGadget
  import Boards

  /**
   * `decompose_board`: the 64 low bits of limb 0 followed by the 36 low
   * bits of limb 1; satisfiable only when each limb fits its width.
   */
  function Decompose100(board: seq<nat>): (r: Option<seq<nat>>)
    requires |board| == 2
    ensures r.Some? <==> board[0] < TWO_64 && board[1] < TWO_36
    ensures r.Some? ==> |r.value| == 100 && IsBits(r.value)
  {
    if board[0] < TWO_64 && board[1] < TWO_36 then
      IsBitsAppend(LeBits(board[0], 64), LeBits(board[1], 36));
      Some(LeBits(board[0], 64) + LeBits(board[1], 36))
    else
      None
  }

  /** Entry i of the decomposition is bit i % 64 of limb i / 64. */
  lemma Decompose100Bits(board: seq<nat>)
    requires |board| == 2 && board[0] < TWO_64 && board[1] < TWO_36
    ensures forall i :: 0 <= i < 100 ==> (Decompose100(board).value[i] == 1 <==> Bit(board[i / 64], i % 64))
  {
    forall i | 0 <= i < 100 ensures Decompose100(board).value[i] == 1 <==> Bit(board[i / 64], i % 64) {
      Decompose100Bit(board, i);
    }
  }

  lemma Decompose100Bit(board: seq<nat>, i: nat)
    requires |board| == 2 && board[0] < TWO_64 && board[1] < TWO_36 && i < 100
    ensures Decompose100(board).value[i] == FromBool(Bit(board[i / 64], i % 64))
  {
    var lo, hi := LeBits(board[0], 64), LeBits(board[1], 36);
    assert Decompose100(board).value == lo + hi;
    if i < 64 {
      LeBitsAt(board[0], 64, i);
    } else {
      LeBitsAt(board[1], 36, i - 64);
    }
  }

  /** `recompose_board`: `le_sum` of bits [0..64) and of bits [64..100). */
  function Recompose100(bits: seq<nat>): (r: seq<nat>)
    requires |bits| >= 100
    ensures |r| == 2
    ensures IsBits(bits) ==> r[0] < TWO_64 && r[1] < TWO_36
  {
    Recompose100Bound(bits);
    [LeSum(bits[0..64]), LeSum(bits[64..100])]
  }

  lemma Recompose100Bound(bits: seq<nat>)
    requires |bits| >= 100
    ensures IsBits(bits) ==> LeSum(bits[0..64]) < TWO_64 && LeSum(bits[64..100]) < TWO_36
  {
    if IsBits(bits) {
      assert IsBits(bits[0..64]) && IsBits(bits[64..100]);
      LeSumBoundWidth(bits[0..64]);
      LeSumBoundWidth(bits[64..100]);
    }
  }

  /** Recomposing the decomposition gives back every pair of limbs that decomposes. */
  lemma Recompose100Decompose100(board: seq<nat>)
    requires |board| == 2 && board[0] < TWO_64 && board[1] < TWO_36
    ensures Decompose100(board).Some? && Recompose100(Decompose100(board).value) == board
  {
    var lo, hi := LeBits(board[0], 64), LeBits(board[1], 36);
    assert Decompose100(board) == Some(lo + hi);
    LeSumOfLeBitsWidth(board[0], 64);
    LeSumOfLeBitsWidth(board[1], 36);
    Recompose100OfDigits(board, lo, hi);
  }

  /** Digit sequences of 64 and 36 bits summing to the limbs recompose to the limbs. */
  lemma Recompose100OfDigits(board: seq<nat>, lo: seq<nat>, hi: seq<nat>)
    requires |board| == 2 && |lo| == 64 && |hi| == 36
    requires LeSum(lo) == board[0] && LeSum(hi) == board[1]
    ensures Recompose100(lo + hi) == board
  {
    AppendSlices(lo, hi);
  }

  /** Limbs whose digits are lo (64 of them) and hi (36) decompose to lo followed by hi. */
  lemma Decompose100OfDigits(limbs: seq<nat>, lo: seq<nat>, hi: seq<nat>)
    requires |limbs| == 2 && limbs[0] < TWO_64 && limbs[1] < TWO_36
    requires LeBits(limbs[0], 64) == lo && LeBits(limbs[1], 36) == hi
    ensures Decompose100(limbs) == Some(lo + hi)
  {
  }

  /** Decomposing the recomposition of 100 bits gives the bits back. */
  lemma Decompose100Recompose100(bits: seq<nat>)
    requires |bits| == 100 && IsBits(bits)
    ensures Decompose100(Recompose100(bits)) == Some(bits)
  {
    var lo, hi := bits[0..64], bits[64..100];
    var limbs := Recompose100(bits);
    assert limbs[0] == LeSum(lo) && limbs[1] == LeSum(hi);
    assert LeBits(limbs[0], 64) == lo by {
      assert IsBits(lo);
      LeBitsOfLeSum(lo);
    }
    assert LeBits(limbs[1], 36) == hi by {
      assert IsBits(hi);
      LeBitsOfLeSum(hi);
    }
    Decompose100OfDigits(limbs, lo, hi);
    SplitAt(bits, 64);
  }

  /** The circuit's 100-bit layout is the host's packing: it unpacks `canonical` into `bits`. */
  lemma Decompose100Canonical(bits: seq<bool>)
    requires |bits| == 100
    ensures Decompose100(Boards.CanonicalOf(bits)) == Some(FromBools(bits))
    ensures Recompose100(FromBools(bits)) == Boards.CanonicalOf(bits)
  {
    var f := FromBools(bits);
    assert f[0..64] == FromBools(bits[..64]);
    assert f[64..100] == FromBools(bits[64..]);
    Decompose100Recompose100(f);
  }

  /**
   * `ship_to_coordinates`: as in the gadget, and the L coordinates are
   * appended to the circuit's public inputs in offset order.
   */
  method ShipToCoordinates(x: nat, y: nat, z: bool, L: nat, pis: seq<nat>)
    returns (r: Option<seq<nat>>, pisOut: seq<nat>)
    ensures r == ShipCoordinates(x, y, z, L)
    ensures r.Some? ==> pisOut == pis + r.value && |pisOut| == |pis| + L
  {
    r := BoardGadget.ShipToCoordinates(x, y, z, L);
    pisOut := pis;
    if r.Some? {
      pisOut := pis + r.value;
    }
  }

  /**
   * `place_ship` over 100 cells: coordinates, the emptiness check on each
   * of them, then the 100 output cells through the membership polynomial.
   */
  method PlaceShip(x: nat, y: nat, z: bool, L: nat, board: seq<nat>, pis: seq<nat>)
    returns (r: Option<seq<nat>>, pisOut: seq<nat>)
    requires |board| == 100
    ensures r == PlaceShipSpec(x, y, z, L, board)
    ensures r.Some? ==> |r.value| == 100 && pisOut == pis + ShipCoordinates(x, y, z, L).value
  {
    var shipCoordinates;
    shipCoordinates, pisOut := ShipToCoordinates(x, y, z, L, pis);
    if shipCoordinates.None? {
      return None, pisOut;
    }
    var c := shipCoordinates.value;
    for i := 0 to L
      invariant forall k :: 0 <= k < i ==> c[k] < |board| && board[c[k]] == 0
    {
      if c[i] >= |board| || board[c[i]] != 0 {
        return None, pisOut;
      }
    }
    var boardOut := new nat[100];
    for i := 0 to 100
      invariant forall k :: 0 <= k < i ==> boardOut[k] == Placed(board, c)[k]
    {
      var coordinate := board[i];
      var flipped := coordinate + 1;
      var shouldFlip := InterpolateBitflipBool(i, c);
      boardOut[i] := Select(shouldFlip, flipped, coordinate);
    }
    assert boardOut[..] == Placed(board, c);
    return Some(boardOut[..]), pisOut;
  }

  /** The test places a vertical carrier at (3, 3) on the empty board: cells 33, 43, …, 73. */
  lemma TestPlaceShip()
    ensures Decompose100([0, 0]) == Some(Zeros(100))
    ensures ShipCoordinates(3, 3, true, 5) == Some([33, 43, 53, 63, 73])
    ensures PlaceShipSpec(3, 3, true, 5, Zeros(100)).Some?
  {
    assert LeBits(0, 64) + LeBits(0, 36) == Zeros(100) by {
      ZeroBits(64);
      ZeroBits(36);
    }
    ShipInRangeIff(3, 3, true, 5);
    assert seq(5, (i: nat) => CoordinateValue(3, 3, true, i)) == [33, 43, 53, 63, 73];
  }
}
