/**
 * A ship of length L: its head cell (x, y) and its orientation z
 * (false: horizontal, growing in x; true: vertical, growing in y).
 * Cells are serialised as the index y * 10 + x of the 10 × 10 grid.
 */
module Ships {
  import opened Wrappers

  /** Rust's `u8`. */
  type U8 = x: int | 0 <= x < 256

  /** A ship length: the const generic L, which the loop bound casts to `u8`. */
  type Length = l: int | 0 <= l < 256

  datatype Ship = Ship(x: U8, y: U8, z: bool)

  /** The triple the ship is witnessed as. */
  function Canonical(s: Ship): (r: (U8, U8, bool))
    ensures Ship(r.0, r.1, r.2) == s
  {
    (s.x, s.y, s.z)
  }

  /** `Ship::new` keeps exactly what it is given: its canonical triple is its arguments. */
  lemma NewCanonical(x: U8, y: U8, z: bool)
    ensures Canonical(Ship(x, y, z)) == (x, y, z)
    ensures Ship(x, y, z).x == x && Ship(x, y, z).y == y && Ship(x, y, z).z == z
  {
  }

  /** The serialised index of the ship's i-th cell, in unbounded arithmetic. */
  function CellAt(s: Ship, i: nat): nat {
    if s.z then (s.y + i) * 10 + s.x else s.y * 10 + (s.x + i)
  }

  /** The ship's cells, head first. */
  function Cells(s: Ship, L: nat): (r: seq<nat>)
    ensures |r| == L
  {
    seq(L, (i: nat) => CellAt(s, i))
  }

  /** No cell index leaves `u8`; otherwise `coordinates` overflows, which panics. */
  predicate FitsU8(s: Ship, L: nat) {
    forall i :: 0 <= i < L ==> CellAt(s, i) < 256
  }

  /** The head is on the grid and the whole ship fits inside it. */
  predicate OnGrid(s: Ship, L: nat) {
    s.x <= 9 && s.y <= 9 && (if s.z then s.y + L <= 10 else s.x + L <= 10)
  }

  /** The coordinate the ship moves along, i steps from the head: y when vertical, x when horizontal. */
  function Moving(s: Ship, i: nat): nat {
    (if s.z then s.y else s.x) + i
  }

  /**
   * A ship on the grid is one that passes the documented range checks of
   * `ship_to_coordinates`: head x and y below 10, and the moving
   * coordinate plus each offset below 10.
   */
  lemma OnGridDocumentedChecks(s: Ship, L: nat)
    requires L >= 1
    ensures OnGrid(s, L) <==> s.x < 10 && s.y < 10 && forall i :: 0 <= i < L ==> Moving(s, i) < 10
  {
    if forall i :: 0 <= i < L ==> Moving(s, i) < 10 {
      assert Moving(s, L - 1) < 10;
    }
  }

  /** Every cell is on the grid, i steps from the head along the ship's row or column. */
  predicate InLine(s: Ship, L: nat) {
    forall i :: 0 <= i < L ==>
      CellAt(s, i) < 100 &&
      CellAt(s, i) / 10 == (if s.z then s.y + i else s.y) &&
      CellAt(s, i) % 10 == (if s.z then s.x else s.x + i)
  }

  /**
   * `Ship::coordinates`: fills a fresh `[u8; L]` with the cell indexes,
   * failing exactly where a `u8` operation overflows.
   */
  method Coordinates(s: Ship, L: Length) returns (r: Option<seq<U8>>)
    ensures r.Some? <==> FitsU8(s, L)
    ensures r.Some? ==> r.value == Cells(s, L)
  {
    var coordinates := new U8[L];
    for i := 0 to L
      invariant forall k :: 0 <= k < i ==> coordinates[k] == CellAt(s, k)
    {
      var x: int := if s.z then s.x else s.x + i;
      var y: int := if s.z then s.y + i else s.y;
      if x >= 256 || y >= 256 || y * 10 >= 256 || y * 10 + x >= 256 {
        assert CellAt(s, i) >= 256;
        return None;
      }
      coordinates[i] := y * 10 + x;
    }
    return Some(coordinates[..]);
  }

  /** Consecutive cells are one column (horizontal) or one row (vertical) apart. */
  lemma CellsStep(s: Ship, L: nat, i: nat)
    requires i + 1 < L
    ensures Cells(s, L)[i + 1] == Cells(s, L)[i] + (if s.z then 10 else 1)
  {
  }

  /** A ship's cells strictly increase, so no ship covers a cell twice. */
  lemma CellsIncrease(s: Ship, L: nat)
    ensures forall i, j :: 0 <= i < j < L ==> Cells(s, L)[i] < Cells(s, L)[j]
  {
  }

  lemma DivMod10(r: nat, c: nat)
    requires c < 10
    ensures (r * 10 + c) / 10 == r && (r * 10 + c) % 10 == c
  {
  }

  /**
   * The cells lie on the grid, in the ship's own row or column, exactly
   * when the head is on the grid and the ship fits.
   */
  lemma {:induction false} OnGridIff(s: Ship, L: nat)
    requires L >= 1
    ensures OnGrid(s, L) <==> InLine(s, L)
  {
    if OnGrid(s, L) {
      forall i | 0 <= i < L
        ensures CellAt(s, i) < 100
        ensures CellAt(s, i) / 10 == (if s.z then s.y + i else s.y)
        ensures CellAt(s, i) % 10 == (if s.z then s.x else s.x + i)
      {
        if s.z {
          DivMod10(s.y + i, s.x);
        } else {
          DivMod10(s.y, s.x + i);
        }
      }
    }
    if InLine(s, L) {
      assert CellAt(s, 0) % 10 == s.x && CellAt(s, 0) / 10 == s.y;
      var last := CellAt(s, L - 1);
      assert last < 100;
      if !s.z {
        assert last % 10 == s.x + L - 1;
      } else {
        assert last == (s.y + L - 1) * 10 + s.x;
      }
    }
  }

  /** On a 10 × 10 grid no ship of length at most 5 overflows `u8`: its largest index is 139. */
  lemma OnGridFitsU8(s: Ship, L: nat)
    requires s.x <= 9 && s.y <= 9 && L <= 5
    ensures FitsU8(s, L)
    ensures forall i :: 0 <= i < L ==> CellAt(s, i) <= 139
  {
  }
}
