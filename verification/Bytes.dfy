/** Octets of frames whose bits do not matter, and numbers of two octets. */
module Bytes {
  newtype Byte = x: int | 0 <= x < 256

  type Bytes = seq<Byte>

  // The high octet first.
  function Split16(n: nat): (b: Bytes)
    ensures |b| == 2
  {
    [(n / 256 % 256) as Byte, (n % 256) as Byte]
  }

  function Join16(hi: Byte, lo: Byte): nat {
    hi as nat * 256 + lo as nat
  }

  lemma JoinSplit(n: nat)
    ensures Join16(Split16(n)[0], Split16(n)[1]) == n % 65536
  {
    hide Split16, Join16;
    SplitParts(n);
    var q := n / 256;
    assert n == 65536 * (q / 256) + (256 * (q % 256) + n % 256);
  }

  lemma SplitParts(n: nat)
    ensures Join16(Split16(n)[0], Split16(n)[1]) == 256 * (n / 256 % 256) + n % 256
  {
  }
}
