/** Octets as bit vectors and as numbers. */
module Octets {
  import opened Types

  function Power2(k: nat): (p: nat)
    ensures p >= 1
  {
    if k == 0 then 1 else 2 * Power2(k - 1)
  }

  // The octet with the `k` low bits of `n`.
  function BitsOf(n: nat, k: nat): bv8
    requires k <= 8 && n < Power2(k)
  {
    if k == 0 then 0
    else if n >= Power2(k - 1) then BitsOf(n - Power2(k - 1), k - 1) | NumBit8(k - 1)
    else BitsOf(n, k - 1)
  }

  // The number formed by the `k` low bits of `b`.
  function ValueOf(b: bv8, k: nat): (n: nat)
    requires k <= 8
    ensures n < Power2(k)
  {
    if k == 0 then 0 else (if Bit(b, k - 1) then Power2(k - 1) else 0) + ValueOf(b, k - 1)
  }

  /** The octet a driver writes for the number `n`. */
  function ToOctet(n: nat): bv8
    requires n < 256
  {
    assert Power2(8) == 256;
    BitsOf(n, 8)
  }

  /** The number a receiver reads in the octet `b`. */
  function Value(b: bv8): (n: nat)
    ensures n < 256
  {
    assert Power2(8) == 256;
    ValueOf(b, 8)
  }

  lemma NoBits(k: nat)
    requires k < 8
    ensures !Bit(0, k)
  {
  }

  lemma {:induction false} BitsBelow(n: nat, k: nat, j: nat)
    requires k <= j < 8 && n < Power2(k)
    ensures !Bit(BitsOf(n, k), j)
  {
    if k == 0 {
      NoBits(j);
    } else if n >= Power2(k - 1) {
      BitsBelow(n - Power2(k - 1), k - 1, j);
      BitOps(BitsOf(n - Power2(k - 1), k - 1), k - 1, j);
    } else {
      BitsBelow(n, k - 1, j);
    }
  }

  lemma {:induction false} ValueSame(b: bv8, c: bv8, k: nat)
    requires k <= 8 && forall j :: 0 <= j < k ==> Bit(b, j) == Bit(c, j)
    ensures ValueOf(b, k) == ValueOf(c, k)
  {
    if k > 0 {
      ValueSame(b, c, k - 1);
    }
  }

  lemma TopBit(b: bv8, k: nat)
    requires k < 8
    ensures Bit(b | NumBit8(k), k) && ValueOf(b | NumBit8(k), k) == ValueOf(b, k)
  {
    hide Bit, NumBit8, ValueOf;
    BitOps(b, k, k);
    forall j | 0 <= j < k
      ensures Bit(b | NumBit8(k), j) == Bit(b, j)
    {
      BitOps(b, k, j);
    }
    ValueSame(b | NumBit8(k), b, k);
  }

  lemma {:induction false} ValueOfBits(n: nat, k: nat)
    requires k <= 8 && n < Power2(k)
    ensures ValueOf(BitsOf(n, k), k) == n
  {
    hide Bit, NumBit8;
    if k > 0 {
      if n >= Power2(k - 1) {
        ValueOfBits(n - Power2(k - 1), k - 1);
        TopBit(BitsOf(n - Power2(k - 1), k - 1), k - 1);
      } else {
        ValueOfBits(n, k - 1);
        BitsBelow(n, k - 1, k - 1);
      }
    }
  }

  lemma ValueToOctet(n: nat)
    requires n < 256
    ensures Value(ToOctet(n)) == n
  {
    assert Power2(8) == 256;
    ValueOfBits(n, 8);
  }

  lemma {:induction false} LowBit(b: bv8, k: nat)
    requires 1 <= k <= 8
    ensures ValueOf(b, k) % 2 == if Bit(b, 0) then 1 else 0
  {
    hide Bit;
    if k > 1 {
      LowBit(b, k - 1);
      assert Power2(k - 1) == 2 * Power2(k - 2);
    } else {
      assert ValueOf(b, 0) == 0;
    }
  }

  lemma EvenOctet(n: nat)
    requires n < 256
    ensures n % 2 == 0 <==> ToOctet(n) & 1 == 0
  {
    hide BitsOf, ValueOf;
    ValueToOctet(n);
    LowBit(ToOctet(n), 8);
  }
}
