/** Small shared vocabulary: optional values, bytes and sums of readings. */
module Common {

  /** A value that may be missing (a failed read, a thrown conversion). */
  datatype Option<T> = None | Some(value: T)

  /** An unsigned 8-bit quantity (`uint8_t`). */
  newtype Byte = x: int | 0 <= x < 256

  function Pow2(k: nat): (r: nat)
    ensures r >= 1
  {
    if k == 0 then 1 else 2 * Pow2(k - 1)
  }

  /**
   * Bitwise exclusive or of two naturals, bit by bit from the least
   * significant one; a number with no bits left contributes the other's.
   */
  function XorBits(a: nat, b: nat): nat
    decreases a + b
  {
    if a == 0 then b
    else if b == 0 then a
    else (if a % 2 == b % 2 then 0 else 1) + 2 * XorBits(a / 2, b / 2)
  }

  /** Exclusive or of two numbers of `k` bits has `k` bits. */
  lemma {:induction false} XorBitsBound(a: nat, b: nat, k: nat)
    requires a < Pow2(k) && b < Pow2(k)
    ensures XorBits(a, b) < Pow2(k)
    decreases a + b
  {
    if a != 0 && b != 0 {
      XorBitsBound(a / 2, b / 2, k - 1);
    }
  }

  lemma {:induction false} XorBitsSelf(a: nat)
    ensures XorBits(a, a) == 0
    decreases a
  {
    if a != 0 {
      XorBitsSelf(a / 2);
    }
  }

  lemma {:induction false} XorBitsComm(a: nat, b: nat)
    ensures XorBits(a, b) == XorBits(b, a)
    decreases a + b
  {
    if a != 0 && b != 0 {
      XorBitsComm(a / 2, b / 2);
    }
  }

  /** Exclusive or with the same number twice gives back the original. */
  lemma {:induction false} XorBitsCancel(a: nat, c: nat)
    ensures XorBits(XorBits(a, c), c) == a
    decreases a + c
  {
    if a == 0 {
      XorBitsSelf(c);
    } else if c != 0 {
      XorBitsCancel(a / 2, c / 2);
      var h := XorBits(a / 2, c / 2);
      var x := XorBits(a, c);
      assert x / 2 == h && x % 2 == (if a % 2 == c % 2 then 0 else 1);
      if x == 0 {
        assert a == c;
      } else {
        assert XorBits(x, c) == (if x % 2 == c % 2 then 0 else 1) + 2 * XorBits(h, c / 2);
      }
    }
  }

  /** `a ^ b` on bytes. */
  function BitXor(a: Byte, b: Byte): (r: Byte)
    ensures r as nat == XorBits(a as nat, b as nat)
  {
    XorBitsBound(a as nat, b as nat, 8);
    XorBits(a as nat, b as nat) as Byte
  }

  /** Zero is the identity, every byte is its own inverse, and the operands commute. */
  lemma BitXorLaws(a: Byte, b: Byte)
    ensures BitXor(0, a) == a && BitXor(a, 0) == a
    ensures BitXor(a, a) == 0
    ensures BitXor(a, b) == BitXor(b, a)
    ensures BitXor(BitXor(a, b), b) == a
  {
    XorBitsSelf(a as nat);
    XorBitsComm(a as nat, b as nat);
    XorBitsCancel(a as nat, b as nat);
  }

  /** Exclusive or with a fixed byte is injective, from either side. */
  lemma BitXorInjective(a: Byte, b: Byte, c: Byte)
    ensures BitXor(a, c) == BitXor(b, c) ==> a == b
    ensures BitXor(c, a) == BitXor(c, b) ==> a == b
  {
    BitXorLaws(a, c);
    BitXorLaws(b, c);
    BitXorLaws(c, a);
    BitXorLaws(c, b);
  }

  /** The sum of a sequence of readings, accumulated from the front. */
  function Sum(s: seq<real>): real
  {
    if s == [] then 0.0 else Sum(s[..|s| - 1]) + s[|s| - 1]
  }

  /** Every reading is at most `bound`, so the sum is at most `|s| * bound`. */
  lemma {:induction false} SumAtMost(s: seq<real>, bound: real)
    requires forall i :: 0 <= i < |s| ==> s[i] <= bound
    ensures Sum(s) <= |s| as real * bound
  {
    if s != [] {
      SumAtMost(s[..|s| - 1], bound);
    }
  }

  /** Every reading is at least `bound`, so the sum is at least `|s| * bound`. */
  lemma {:induction false} SumAtLeast(s: seq<real>, bound: real)
    requires forall i :: 0 <= i < |s| ==> bound <= s[i]
    ensures |s| as real * bound <= Sum(s)
  {
    if s != [] {
      SumAtLeast(s[..|s| - 1], bound);
    }
  }

  /** Every reading exceeds `bound`, so a non-empty sum exceeds `|s| * bound`. */
  lemma {:induction false} SumAbove(s: seq<real>, bound: real)
    requires s != []
    requires forall i :: 0 <= i < |s| ==> s[i] > bound
    ensures Sum(s) > |s| as real * bound
  {
    if |s| > 1 {
      SumAbove(s[..|s| - 1], bound);
    }
  }

  function Mean(s: seq<real>): real
    requires s != []
  {
    Sum(s) / |s| as real
  }

  /** The mean of readings that all lie in `[lo, hi]` lies there too. */
  lemma MeanWithin(s: seq<real>, lo: real, hi: real)
    requires s != []
    requires forall i :: 0 <= i < |s| ==> lo <= s[i] <= hi
    ensures lo <= Mean(s) <= hi
  {
    SumAtMost(s, hi);
    SumAtLeast(s, lo);
    var n := |s| as real;
    assert Mean(s) * n == Sum(s);
  }
}
