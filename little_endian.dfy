/**
 * Little-endian bit vectors over naturals: the arithmetic behind the
 * board's two 64-bit limbs (`canonical`), `split_le_base::<2>` and
 * `le_sum`. Field elements are naturals; the Goldilocks modulus is not
 * modelled.
 */
module LittleEndian {

  function Pow2(n: nat): (r: nat)
    ensures r >= 1
  {
    if n == 0 then 1 else 2 * Pow2(n - 1)
  }

  /** 2^64, the bound of a u64 limb, and 2^36, the bound of the board's second limb. */
  const TWO_64: nat := 0x1_0000_0000_0000_0000
  const TWO_36: nat := 0x10_0000_0000

  /** Eight doublings at once. */
  lemma Pow2Times256(n: nat)
    requires n >= 8
    ensures Pow2(n) == 256 * Pow2(n - 8)
  {
    assert Pow2(n) == 2 * Pow2(n - 1);
    assert Pow2(n - 1) == 2 * Pow2(n - 2);
    assert Pow2(n - 2) == 2 * Pow2(n - 3);
    assert Pow2(n - 3) == 2 * Pow2(n - 4);
    assert Pow2(n - 4) == 2 * Pow2(n - 5);
    assert Pow2(n - 5) == 2 * Pow2(n - 6);
    assert Pow2(n - 6) == 2 * Pow2(n - 7);
    assert Pow2(n - 7) == 2 * Pow2(n - 8);
  }

  /** 256^k. */
  function Pow256(k: nat): nat {
    if k == 0 then 1 else 256 * Pow256(k - 1)
  }

  lemma {:induction false} Pow2Bytes(k: nat)
    ensures Pow2(8 * k) == Pow256(k)
  {
    if k > 0 {
      Pow2Bytes(k - 1);
      Pow2Times256(8 * k);
    }
  }

  lemma Pow2Widths()
    ensures Pow2(64) == TWO_64 && Pow2(36) == TWO_36
  {
    Pow2Bytes(8);
    Pow2Bytes(4);
    assert Pow2(36) == 16 * Pow2(32);
  }

  lemma {:induction false} Pow2Monotone(a: nat, b: nat)
    requires a <= b
    ensures Pow2(a) <= Pow2(b)
  {
    if a < b {
      Pow2Monotone(a, b - 1);
    }
  }

  /** Every entry is 0 or 1. */
  predicate IsBits(s: seq<nat>) {
    forall i :: 0 <= i < |s| ==> s[i] <= 1
  }

  /** Joining two bit vectors gives a bit vector. */
  lemma IsBitsAppend(a: seq<nat>, b: seq<nat>)
    requires IsBits(a) && IsBits(b)
    ensures IsBits(a + b)
  {
    forall i | 0 <= i < |a + b| ensures (a + b)[i] <= 1 {
      if i >= |a| {
        assert (a + b)[i] == b[i - |a|];
      }
    }
  }

  /** The value s[0]·2^0 + s[1]·2^1 + … that `le_sum` constrains. */
  function LeSum(s: seq<nat>): nat {
    if |s| == 0 then 0 else s[0] + 2 * LeSum(s[1..])
  }

  /** The n low bits of v, least significant first (the canonical digits of `split_le_base::<2>(v, n)`). */
  function LeBits(v: nat, n: nat): (r: seq<nat>)
    ensures |r| == n && IsBits(r)
  {
    if n == 0 then [] else [v % 2] + LeBits(v / 2, n - 1)
  }

  /** `(v >> j) & 1 == 1`. */
  function Bit(v: nat, j: nat): bool {
    if j == 0 then v % 2 == 1 else Bit(v / 2, j - 1)
  }

  /** `v | (1 << k)` for a natural v. */
  function SetBit(v: nat, k: nat): nat {
    if Bit(v, k) then v else v + Pow2(k)
  }

  function Zeros(n: nat): (r: seq<nat>)
    ensures |r| == n && IsBits(r)
    ensures forall i :: 0 <= i < n ==> r[i] == 0
  {
    seq(n, _ => 0)
  }

  /** The digits of zero are all zero. */
  lemma {:induction false} ZeroBits(n: nat)
    ensures LeBits(0, n) == Zeros(n)
  {
    if n > 0 {
      ZeroBits(n - 1);
      assert Zeros(n) == [0] + Zeros(n - 1);
    }
  }

  /** A Rust `bool` as a field element: 1 for true, 0 for false. */
  function FromBool(b: bool): nat {
    if b then 1 else 0
  }

  function FromBools(b: seq<bool>): (r: seq<nat>)
    ensures |r| == |b| && IsBits(r)
    ensures forall i :: 0 <= i < |b| ==> (r[i] == 1 <==> b[i])
  {
    seq(|b|, i requires 0 <= i < |b| => FromBool(b[i]))
  }

  lemma {:induction false} LeSumBound(s: seq<nat>)
    requires IsBits(s)
    ensures LeSum(s) < Pow2(|s|)
  {
    if |s| > 0 {
      LeSumBound(s[1..]);
    }
  }

  /** Recomposing the canonical digits gives the value back. */
  lemma {:induction false} LeSumOfLeBits(v: nat, n: nat)
    requires v < Pow2(n)
    ensures LeSum(LeBits(v, n)) == v
  {
    if n > 0 {
      LeSumOfLeBits(v / 2, n - 1);
      assert LeBits(v, n)[1..] == LeBits(v / 2, n - 1);
    }
  }

  /** `LeSumOfLeBits` at the two limb widths. */
  lemma LeSumOfLeBitsWidth(v: nat, n: nat)
    requires (n == 64 && v < TWO_64) || (n == 36 && v < TWO_36)
    ensures LeSum(LeBits(v, n)) == v
  {
    Pow2Widths();
    LeSumOfLeBits(v, n);
  }

  /** `LeSumBound` at the two limb widths. */
  lemma LeSumBoundWidth(s: seq<nat>)
    requires IsBits(s) && (|s| == 64 || |s| == 36)
    ensures |s| == 64 ==> LeSum(s) < TWO_64
    ensures |s| == 36 ==> LeSum(s) < TWO_36
  {
    Pow2Widths();
    LeSumBound(s);
  }

  /** Decomposing a sum of bits gives the bits back. */
  lemma {:induction false} LeBitsOfLeSum(s: seq<nat>)
    requires IsBits(s)
    ensures LeBits(LeSum(s), |s|) == s
  {
    if |s| > 0 {
      LeBitsOfLeSum(s[1..]);
      assert LeSum(s) % 2 == s[0] && LeSum(s) / 2 == LeSum(s[1..]);
    }
  }

  lemma {:induction false} LeSumSnoc(s: seq<nat>, b: nat)
    ensures LeSum(s + [b]) == LeSum(s) + b * Pow2(|s|)
  {
    if |s| > 0 {
      assert (s + [b])[1..] == s[1..] + [b];
      LeSumSnoc(s[1..], b);
    }
  }

  lemma {:induction false} LeSumAppendZeros(s: seq<nat>, n: nat)
    ensures LeSum(s + Zeros(n)) == LeSum(s)
  {
    if |s| > 0 {
      assert (s + Zeros(n))[1..] == s[1..] + Zeros(n);
      LeSumAppendZeros(s[1..], n);
    } else if n > 0 {
      assert (s + Zeros(n))[1..] == Zeros(n - 1);
      LeSumAppendZeros(s, n - 1);
      assert s + Zeros(n - 1) == Zeros(n - 1);
    }
  }

  lemma {:induction false} NoBitAtOrAbove(v: nat, k: nat)
    requires v < Pow2(k)
    ensures !Bit(v, k)
  {
    if k > 0 {
      NoBitAtOrAbove(v / 2, k - 1);
    }
  }

  /** Bit j of a sum of bits is the j-th bit. */
  lemma {:induction false} BitOfLeSum(s: seq<nat>, j: nat)
    requires IsBits(s) && j < |s|
    ensures Bit(LeSum(s), j) <==> s[j] == 1
  {
    assert LeSum(s) % 2 == s[0] && LeSum(s) / 2 == LeSum(s[1..]);
    if j > 0 {
      BitOfLeSum(s[1..], j - 1);
    }
  }

  /** The j-th canonical digit of v is bit j of v. */
  lemma {:induction false} LeBitsAt(v: nat, n: nat, j: nat)
    requires j < n
    ensures LeBits(v, n)[j] == FromBool(Bit(v, j))
  {
    if j > 0 {
      LeBitsAt(v / 2, n - 1, j - 1);
    }
  }
}
