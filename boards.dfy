/**
 * The reference board: five ships of lengths 5, 4, 3, 3, 2 painted onto a
 * 100-cell bool array, and that array packed little-endian into two u64
 * words (`canonical`), the value every circuit commits to.
 */
module Boards {
  import opened Wrappers
  import opened Ships
  import opened LittleEndian
  import opened Repetition
  import opened Commitments

  datatype Board = Board(carrier: Ship, battleship: Ship, cruiser: Ship, submarine: Ship, destroyer: Ship)

  /** Ship lengths in declaration (and painting) order. */
  const LENGTHS: seq<Length> := [5, 4, 3, 3, 2]

  function Fleet(b: Board): (r: seq<Ship>)
    ensures |r| == 5
  {
    [b.carrier, b.battleship, b.cruiser, b.submarine, b.destroyer]
  }

  /** The cells of the first j ships in painting order, repetitions kept. */
  function PlacedUpTo(b: Board, j: nat): seq<nat>
    requires j <= 5
  {
    if j == 0 then [] else PlacedUpTo(b, j - 1) + Cells(Fleet(b)[j - 1], LENGTHS[j - 1])
  }

  /** All seventeen ship cells. */
  function BoardCells(b: Board): seq<nat> {
    PlacedUpTo(b, 5)
  }

  /** Every coordinate indexes the 100-cell array. */
  predicate Paintable(b: Board) {
    forall c :: c in BoardCells(b) ==> c < 100
  }

  /** Every ship lies on the 10 × 10 grid, in its own row or column. */
  predicate OnGridFleet(b: Board) {
    forall j :: 0 <= j < 5 ==> OnGrid(Fleet(b)[j], LENGTHS[j])
  }

  /** A fleet on the grid covers only cells below 100. */
  lemma OnGridPaintable(b: Board)
    requires OnGridFleet(b)
    ensures Paintable(b)
  {
    forall c | c in BoardCells(b) ensures c < 100 {
      BoardCellsOf(b, 5, c);
      var j, i :| 0 <= j < 5 && 0 <= i < LENGTHS[j] && CellAt(Fleet(b)[j], i) == c;
      OnGridIff(Fleet(b)[j], LENGTHS[j]);
    }
  }

  /** No ship covers a cell of an earlier one (so no two ships share a cell). */
  predicate NoOverlap(b: Board) {
    forall j, c :: 0 <= j < 5 && c in Cells(Fleet(b)[j], LENGTHS[j]) ==> c !in PlacedUpTo(b, j)
  }

  /** No cell of the first L of ship s is one of the first M of ship t. */
  predicate ShipsApart(s: Ship, L: nat, t: Ship, M: nat) {
    forall i, k :: 0 <= i < L && 0 <= k < M ==> CellAt(s, i) != CellAt(t, k)
  }

  /** Every ship is apart from every earlier one. */
  predicate FleetApart(b: Board) {
    ShipsApart(b.battleship, 4, b.carrier, 5) &&
    ShipsApart(b.cruiser, 3, b.carrier, 5) && ShipsApart(b.cruiser, 3, b.battleship, 4) &&
    ShipsApart(b.submarine, 3, b.carrier, 5) && ShipsApart(b.submarine, 3, b.battleship, 4) &&
    ShipsApart(b.submarine, 3, b.cruiser, 3) &&
    ShipsApart(b.destroyer, 2, b.carrier, 5) && ShipsApart(b.destroyer, 2, b.battleship, 4) &&
    ShipsApart(b.destroyer, 2, b.cruiser, 3) && ShipsApart(b.destroyer, 2, b.submarine, 3)
  }

  /** Ship j is apart from ship k < j. */
  lemma FleetApartAt(b: Board, j: nat, k: nat)
    requires FleetApart(b) && k < j < 5
    ensures ShipsApart(Fleet(b)[j], LENGTHS[j], Fleet(b)[k], LENGTHS[k])
  {
  }

  /** Ships pairwise apart do not overlap. */
  lemma NoOverlapOfApart(b: Board)
    requires FleetApart(b)
    ensures NoOverlap(b)
  {
    forall j, c | 0 <= j < 5 && c in Cells(Fleet(b)[j], LENGTHS[j]) ensures c !in PlacedUpTo(b, j) {
      var cs := Cells(Fleet(b)[j], LENGTHS[j]);
      var i :| 0 <= i < |cs| && cs[i] == c;
      assert CellAt(Fleet(b)[j], i) == c;
      if c in PlacedUpTo(b, j) {
        BoardCellsOf(b, j, c);
        var k, m :| 0 <= k < j && 0 <= m < LENGTHS[k] && CellAt(Fleet(b)[k], m) == c;
        FleetApartAt(b, j, k);
        assert false;
      }
    }
  }

  /** The reference bit array: cell k is set iff some ship covers k. */
  function BitsOf(b: Board): (r: seq<bool>)
    ensures |r| == 100
  {
    seq(100, k => k in BoardCells(b))
  }

  /** `board` with every listed cell set. */
  function Paint(board: seq<bool>, cells: seq<nat>): (r: seq<bool>)
    ensures |r| == |board|
  {
    seq(|board|, k requires 0 <= k < |board| => board[k] || k in cells)
  }

  /** The number of set cells. */
  function Count(bits: seq<bool>): nat {
    |set k | 0 <= k < |bits| && bits[k]|
  }

  /**
   * `Board::add_ship`: sets the ship's cells, or fails (an index out of
   * bounds, or a `u8` overflow in `coordinates`, both panics) when a cell
   * is 100 or more.
   */
  method AddShip(s: Ship, L: Length, board: array<bool>) returns (ok: bool)
    requires board.Length == 100
    modifies board
    ensures ok <==> forall i :: 0 <= i < L ==> CellAt(s, i) < 100
    ensures ok ==> board[..] == Paint(old(board[..]), Cells(s, L))
  {
    var coordinates := Coordinates(s, L);
    if coordinates.None? {
      return false;
    }
    var cs := coordinates.value;
    for i := 0 to L
      invariant board[..] == Paint(old(board[..]), cs[..i])
      invariant forall k :: 0 <= k < i ==> cs[k] < 100
    {
      if cs[i] >= 100 {
        return false;
      }
      assert cs[..i + 1] == cs[..i] + [cs[i]];
      board[cs[i]] := true;
    }
    assert cs[..L] == cs;
    assert forall i :: 0 <= i < L ==> CellAt(s, i) == cs[i];
    return true;
  }

  /** Painting is idempotent: adding the same ship twice changes nothing. */
  lemma PaintIdempotent(board: seq<bool>, cells: seq<nat>)
    ensures Paint(Paint(board, cells), cells) == Paint(board, cells)
  {
  }

  /** Painting exactly sets the listed cells and leaves every other cell unchanged. */
  lemma PaintExact(board: seq<bool>, cells: seq<nat>, k: nat)
    requires k < |board|
    ensures k in cells ==> Paint(board, cells)[k]
    ensures k !in cells ==> Paint(board, cells)[k] == board[k]
  {
  }

  lemma PaintTwice(board: seq<bool>, a: seq<nat>, c: seq<nat>)
    ensures Paint(Paint(board, a), c) == Paint(board, a + c)
  {
  }

  /** A prefix of the painting order only lists cells of the whole board. */
  lemma {:induction false} PlacedPrefix(b: Board, j: nat, k: nat)
    requires j <= k <= 5
    ensures forall c :: c in PlacedUpTo(b, j) ==> c in PlacedUpTo(b, k)
  {
    if j < k {
      PlacedPrefix(b, j, k - 1);
    }
  }

  /** A ship with a cell of 100 or more makes the board unpaintable. */
  lemma UnpaintableShip(b: Board, j: nat, i: nat)
    requires j < 5 && i < LENGTHS[j] && CellAt(Fleet(b)[j], i) >= 100
    ensures !Paintable(b)
  {
    var c := CellAt(Fleet(b)[j], i);
    assert Cells(Fleet(b)[j], LENGTHS[j])[i] == c;
    assert c in PlacedUpTo(b, j + 1);
    PlacedPrefix(b, j + 1, 5);
    assert c in BoardCells(b);
  }

  /**
   * `Board::bits`: paints the five ships in order onto an empty board;
   * fails exactly when some ship coordinate is not below 100.
   */
  method Bits(b: Board) returns (r: Option<seq<bool>>)
    ensures r.Some? <==> Paintable(b)
    ensures r.Some? ==> r.value == BitsOf(b)
  {
    var board := new bool[100](_ => false);
    ghost var empty := board[..];
    var j := 0;
    while j < 5
      invariant 0 <= j <= 5
      invariant board.Length == 100
      invariant board[..] == Paint(empty, PlacedUpTo(b, j))
      invariant forall c :: c in PlacedUpTo(b, j) ==> c < 100
    {
      var ok := AddShip(Fleet(b)[j], LENGTHS[j], board);
      if !ok {
        var i :| 0 <= i < LENGTHS[j] && CellAt(Fleet(b)[j], i) >= 100;
        UnpaintableShip(b, j, i);
        return None;
      }
      PaintTwice(empty, PlacedUpTo(b, j), Cells(Fleet(b)[j], LENGTHS[j]));
      j := j + 1;
    }
    assert board[..] == BitsOf(b);
    return Some(board[..]);
  }

  /** `bits()[k]` is set iff k is a cell of at least one of the five ships. */
  lemma BitsOfIff(b: Board, k: nat)
    requires k < 100
    ensures BitsOf(b)[k] <==> exists j, i :: 0 <= j < 5 && 0 <= i < LENGTHS[j] && CellAt(Fleet(b)[j], i) == k
  {
    BoardCellsOf(b, 5, k);
  }

  lemma {:induction false} BoardCellsOf(b: Board, n: nat, k: nat)
    requires n <= 5
    ensures k in PlacedUpTo(b, n) <==> exists j, i :: 0 <= j < n && 0 <= i < LENGTHS[j] && CellAt(Fleet(b)[j], i) == k
  {
    if n > 0 {
      BoardCellsOf(b, n - 1, k);
      var cs := Cells(Fleet(b)[n - 1], LENGTHS[n - 1]);
      if k in cs {
        var i :| 0 <= i < |cs| && cs[i] == k;
        assert CellAt(Fleet(b)[n - 1], i) == k;
      }
      if exists j, i :: 0 <= j < n && 0 <= i < LENGTHS[j] && CellAt(Fleet(b)[j], i) == k {
        var j, i :| 0 <= j < n && 0 <= i < LENGTHS[j] && CellAt(Fleet(b)[j], i) == k;
        if j == n - 1 {
          assert cs[i] == k;
        }
      }
    }
  }

  /** A ship never repeats a cell. */
  lemma ShipCellsDistinct(s: Ship, L: nat)
    ensures Distinct(Cells(s, L))
  {
    CellsIncrease(s, L);
  }

  lemma {:induction false} PlacedDistinct(b: Board, n: nat)
    requires n <= 5
    ensures Distinct(PlacedUpTo(b, n)) <==>
      forall j, c :: 0 <= j < n && c in Cells(Fleet(b)[j], LENGTHS[j]) ==> c !in PlacedUpTo(b, j)
  {
    if n > 0 {
      PlacedDistinct(b, n - 1);
      var cs := Cells(Fleet(b)[n - 1], LENGTHS[n - 1]);
      ShipCellsDistinct(Fleet(b)[n - 1], LENGTHS[n - 1]);
      DistinctAppend(PlacedUpTo(b, n - 1), cs);
    }
  }

  /** No overlap is the same as seventeen pairwise different cells. */
  lemma NoOverlapIffDistinct(b: Board)
    ensures NoOverlap(b) <==> Distinct(BoardCells(b))
  {
    PlacedDistinct(b, 5);
  }

  lemma {:induction false} PlacedLength(b: Board, n: nat)
    requires n <= 5
    ensures |PlacedUpTo(b, n)| == if n == 0 then 0 else LENGTHS[n - 1] + |PlacedUpTo(b, n - 1)|
  {
  }

  /**
   * At most 5 + 4 + 3 + 3 + 2 = 17 cells are set, and exactly 17 iff no
   * two ships share a cell.
   */
  lemma CountBits(b: Board)
    requires Paintable(b)
    ensures Count(BitsOf(b)) <= 17
    ensures Count(BitsOf(b)) == 17 <==> NoOverlap(b)
  {
    var bits := BitsOf(b);
    assert (set k | 0 <= k < |bits| && bits[k]) == Elems(BoardCells(b));
    assert |PlacedUpTo(b, 5)| == 17 by {
      PlacedLength(b, 1);
      PlacedLength(b, 2);
      PlacedLength(b, 3);
      PlacedLength(b, 4);
      PlacedLength(b, 5);
    }
    ElemsCard(BoardCells(b));
    NoOverlapIffDistinct(b);
  }

  /** The two limbs of `canonical`: bits [0..64) and bits [64..100), least significant first. */
  function CanonicalOf(bits: seq<bool>): (r: seq<nat>)
    requires |bits| == 100
    ensures |r| == 2
  {
    [LeSum(FromBools(bits[..64])), LeSum(FromBools(bits[64..]))]
  }

  /** One round of the packing loop: OR-ing in bit `hi` extends the packed prefix by that bit. */
  lemma PackStep(bits: seq<bool>, lo: nat, hi: nat)
    requires lo <= hi < |bits|
    ensures LeSum(FromBools(bits[lo..hi + 1])) ==
      if bits[hi] then SetBit(LeSum(FromBools(bits[lo..hi])), hi - lo) else LeSum(FromBools(bits[lo..hi]))
  {
    var p := FromBools(bits[lo..hi]);
    assert FromBools(bits[lo..hi + 1]) == p + [FromBool(bits[hi])];
    LeSumSnoc(p, FromBool(bits[hi]));
    LeSumBound(p);
    NoBitAtOrAbove(LeSum(p), hi - lo);
  }

  /** The packing loop's state after `index` cells: the limbs hold the packed prefix. */
  ghost predicate Packed(bs: seq<bool>, index: nat, r0: nat, r1: nat)
    requires |bs| == 100 && index <= 100
  {
    (index <= 64 ==> r0 == LeSum(FromBools(bs[0..index])) && r1 == 0) &&
    (index > 64 ==> r0 == LeSum(FromBools(bs[0..64])) && r1 == LeSum(FromBools(bs[64..index])))
  }

  /** One round of the packing loop keeps `Packed`. */
  lemma PackedStep(bs: seq<bool>, index: nat, r0: nat, r1: nat)
    requires |bs| == 100 && index < 100 && Packed(bs, index, r0, r1)
    ensures Packed(bs, index + 1,
      if bs[index] && index / 64 == 0 then SetBit(r0, index % 64) else r0,
      if bs[index] && index / 64 == 1 then SetBit(r1, index % 64) else r1)
  {
    if index < 64 {
      PackStep(bs, 0, index);
    } else {
      PackStep(bs, 64, index);
      if index == 64 {
        assert bs[64..64] == [];
      }
    }
  }

  /**
   * `Board::canonical`: ORs every set bit i into bit i % 64 of limb i / 64.
   * Fails where `bits` fails.
   */
  method Canonical(b: Board) returns (r: Option<seq<nat>>)
    ensures r.Some? <==> Paintable(b)
    ensures r.Some? ==> r.value == CanonicalOf(BitsOf(b))
  {
    var bits := Bits(b);
    if bits.None? {
      return None;
    }
    var bs := bits.value;
    var result := new nat[2](_ => 0);
    for index := 0 to 100
      invariant Packed(bs, index, result[0], result[1])
    {
      PackedStep(bs, index, result[0], result[1]);
      if bs[index] {
        var arrayIndex := index / 64;
        var bitIndex := index % 64;
        result[arrayIndex] := SetBit(result[arrayIndex], bitIndex);
      }
    }
    assert bs[0..64] == bs[..64] && bs[64..100] == bs[64..];
    return Some(result[..]);
  }

  /** Bit i % 64 of limb i / 64 is set iff cell i is. */
  lemma CanonicalBit(bits: seq<bool>, i: nat)
    requires |bits| == 100 && i < 100
    ensures Bit(CanonicalOf(bits)[i / 64], i % 64) <==> bits[i]
  {
    if i < 64 {
      BitOfLeSum(FromBools(bits[..64]), i);
    } else {
      BitOfLeSum(FromBools(bits[64..]), i - 64);
    }
  }

  /** The limbs are u64 values and the top 28 bits of limb 1 are always clear. */
  lemma CanonicalBounds(bits: seq<bool>)
    requires |bits| == 100
    ensures CanonicalOf(bits)[0] < TWO_64
    ensures CanonicalOf(bits)[1] < TWO_36
  {
    LeSumBoundWidth(FromBools(bits[..64]));
    LeSumBoundWidth(FromBools(bits[64..]));
  }

  /** The decode in `print_canonical`: cell i is `(board[i / 64] >> (i % 64)) & 1 == 1`. */
  function Unpacked(board: seq<nat>): (r: seq<bool>)
    requires |board| == 2
    ensures |r| == 100
  {
    seq(100, i requires 0 <= i < 100 => Bit(board[i / 64], i % 64))
  }

  /** Decoding the packed limbs recovers the 100 cells exactly. */
  lemma UnpackCanonical(bits: seq<bool>)
    requires |bits| == 100
    ensures Unpacked(CanonicalOf(bits)) == bits
  {
    forall i | 0 <= i < 100 ensures Unpacked(CanonicalOf(bits))[i] == bits[i] {
      CanonicalBit(bits, i);
    }
  }

  /** The first n cells decoded from limb v are the n low bits of v. */
  lemma BitsOfLimb(v: nat, n: nat, s: seq<bool>)
    requires |s| == n
    requires forall j :: 0 <= j < n ==> (s[j] <==> Bit(v, j))
    ensures FromBools(s) == LeBits(v, n)
  {
    forall j | 0 <= j < n ensures FromBools(s)[j] == LeBits(v, n)[j] {
      LeBitsAt(v, n, j);
    }
  }

  /** Packing the decoded cells gives back any pair of limbs whose second limb fits in 36 bits. */
  lemma CanonicalUnpacked(board: seq<nat>)
    requires |board| == 2 && board[0] < TWO_64 && board[1] < TWO_36
    ensures CanonicalOf(Unpacked(board)) == board
  {
    var u := Unpacked(board);
    BitsOfLimb(board[0], 64, u[..64]);
    LeSumOfLeBitsWidth(board[0], 64);
    forall j | 0 <= j < 36 ensures u[64..][j] <==> Bit(board[1], j) {
      assert u[64 + j] == Bit(board[(64 + j) / 64], (64 + j) % 64);
    }
    BitsOfLimb(board[1], 36, u[64..]);
    LeSumOfLeBitsWidth(board[1], 36);
  }

  /**
   * The decode loop of `print_canonical`: fills a fresh `[bool; 100]`
   * cell by cell. On limbs that `canonical` can produce it inverts
   * `canonical`.
   */
  method DecodeCanonical(board: seq<nat>) returns (bits: seq<bool>)
    requires |board| == 2
    ensures bits == Unpacked(board)
    ensures board[0] < TWO_64 && board[1] < TWO_36 ==> CanonicalOf(bits) == board
  {
    var a := new bool[100](_ => false);
    for i := 0 to 100
      invariant forall k :: 0 <= k < i ==> a[k] == Bit(board[k / 64], k % 64)
    {
      a[i] := Bit(board[i / 64], i % 64);
    }
    bits := a[..];
    if board[0] < TWO_64 && board[1] < TWO_36 {
      CanonicalUnpacked(board);
    }
  }

  /** `Board::hash`: the commitment to the packed limbs; fails where `canonical` fails. */
  function Hash(hash: Hasher, b: Board): (r: Option<Digest>)
    ensures r.Some? <==> Paintable(b)
  {
    if Paintable(b) then Some(hash(CanonicalOf(BitsOf(b)))) else None
  }

  /** The board of the repository's tests. */
  function TestBoard(): Board {
    Board(Ship(3, 4, false), Ship(9, 6, true), Ship(0, 0, false), Ship(0, 6, false), Ship(6, 1, true))
  }

  /** The cells of the test board, in painting order. */
  lemma TestBoardCells()
    ensures BoardCells(TestBoard()) == [43, 44, 45, 46, 47, 69, 79, 89, 99, 0, 1, 2, 60, 61, 62, 16, 26]
  {
    var b := TestBoard();
    assert Cells(b.carrier, 5) == [43, 44, 45, 46, 47];
    assert Cells(b.battleship, 4) == [69, 79, 89, 99];
    assert Cells(b.cruiser, 3) == [0, 1, 2];
    assert Cells(b.submarine, 3) == [60, 61, 62];
    assert Cells(b.destroyer, 2) == [16, 26];
  }
}
