/** Big-endian bytes: the plain arithmetic meaning of the shift chains in tai.c. */
module Bytes {
  import opened Machine

  function Pow256(n: nat): (r: nat)
    ensures r > 0
  {
    if n == 0 then 1 else 256 * Pow256(n - 1)
  }

  /** The number whose base-256 digits, most significant first, are bs. */
  function Value(bs: seq<byte>): nat
  {
    if bs == [] then 0 else 256 * Value(bs[..|bs| - 1]) + bs[|bs| - 1]
  }

  /** The n low base-256 digits of v, most significant first. */
  function BytesOf(v: nat, n: nat): (bs: seq<byte>)
    ensures |bs| == n
  {
    if n == 0 then [] else BytesOf(v / 256, n - 1) + [v % 256]
  }

  lemma WordSizes()
    ensures Pow256(4) == TWO32 && Pow256(8) == TWO64
  {
    assert Pow256(4) == 256 * Pow256(3) == 65536 * Pow256(2);
    assert Pow256(6) == 65536 * Pow256(4);
    assert Pow256(8) == 65536 * Pow256(6);
  }

  lemma {:induction false} PowMonotone(m: nat, n: nat)
    requires m <= n
    ensures Pow256(m) <= Pow256(n)
  {
    if m < n { PowMonotone(m, n - 1); }
  }

  lemma {:induction false} ValueInRange(bs: seq<byte>)
    ensures Value(bs) < Pow256(|bs|)
  {
    if bs != [] { ValueInRange(bs[..|bs| - 1]); }
  }

  lemma {:induction false} ValueOfBytes(v: nat, n: nat)
    requires v < Pow256(n)
    ensures Value(BytesOf(v, n)) == v
  {
    if n > 0 {
      ValueOfBytes(v / 256, n - 1);
      assert BytesOf(v, n)[..n - 1] == BytesOf(v / 256, n - 1);
    }
  }

  lemma LastDigit(v: nat, b: byte)
    ensures (256 * v + b) / 256 == v && (256 * v + b) % 256 == b
  {
  }

  lemma {:induction false} BytesOfValue(bs: seq<byte>)
    ensures BytesOf(Value(bs), |bs|) == bs
  {
    if bs != [] {
      var front, b := bs[..|bs| - 1], bs[|bs| - 1];
      BytesOfValue(front);
      LastDigit(Value(front), b);
      assert bs == front + [b];
    }
  }
}
