/** Fixed-width little-endian integers, as `to_le_bytes` and `from_le_bytes` produce and read them. */
module LittleEndian {
  import opened Common

  function Pow256(n: nat): (r: nat)
    ensures r > 0
  {
    if n == 0 then 1 else 256 * Pow256(n - 1)
  }

  lemma Widths()
    ensures Pow256(2) == U16_LIMIT && Pow256(4) == U32_LIMIT && Pow256(8) == U64_LIMIT
  {
    assert Pow256(2) == 256 * Pow256(1);
    assert Pow256(4) == 256 * (256 * Pow256(2));
    assert Pow256(8) == 256 * (256 * (256 * (256 * Pow256(4))));
  }

  function ToLe(v: nat, n: nat): (r: bytes)
    ensures |r| == n
  {
    if n == 0 then [] else [v % 256] + ToLe(v / 256, n - 1)
  }

  function FromLe(b: bytes): nat {
    if b == [] then 0 else b[0] + 256 * FromLe(b[1..])
  }

  lemma {:induction false} FromToLe(v: nat, n: nat)
    requires v < Pow256(n)
    ensures FromLe(ToLe(v, n)) == v
  {
    if n > 0 {
      FromToLe(v / 256, n - 1);
      assert ToLe(v, n)[1..] == ToLe(v / 256, n - 1);
    }
  }

  lemma {:induction false} ToFromLe(b: bytes)
    ensures FromLe(b) < Pow256(|b|) && ToLe(FromLe(b), |b|) == b
  {
    if b != [] {
      ToFromLe(b[1..]);
      assert FromLe(b) % 256 == b[0] && FromLe(b) / 256 == FromLe(b[1..]);
      assert b == [b[0]] + b[1..];
    }
  }

  /** The first byte counts least. */
  lemma LittleEndianValues(b: bytes)
    ensures |b| == 2 ==> FromLe(b) == b[0] as nat + 0x100 * b[1] as nat
    ensures |b| == 4 ==>
              FromLe(b) == b[0] as nat + 0x100 * b[1] as nat + 0x1_0000 * b[2] as nat + 0x100_0000 * b[3] as nat
    ensures |b| == 8 ==> FromLe(b) == FromLe(b[..4]) + U32_LIMIT * FromLe(b[4..])
  {
    if |b| == 2 { UnfoldLe(b); UnfoldLe(b[1..]); }
    if |b| == 4 { FourBytes(b); }
    if |b| == 8 {
      FourBytes(b[..4]);
      UnfoldLe(b);
      UnfoldLe(b[1..]);
      UnfoldLe(b[2..]);
      UnfoldLe(b[3..]);
    }
  }

  lemma UnfoldLe(b: bytes)
    requires b != []
    ensures FromLe(b) == b[0] as nat + 256 * FromLe(b[1..])
    ensures |b| > 1 ==> b[1..][1..] == b[2..]
    ensures |b| > 2 ==> b[2..][1..] == b[3..]
    ensures |b| > 3 ==> b[3..][1..] == b[4..]
  {
  }

  lemma FourBytes(b: bytes)
    requires |b| == 4
    ensures FromLe(b) == b[0] as nat + 0x100 * b[1] as nat + 0x1_0000 * b[2] as nat + 0x100_0000 * b[3] as nat
  {
    UnfoldLe(b);
    UnfoldLe(b[1..]);
    UnfoldLe(b[2..]);
    UnfoldLe(b[3..]);
  }
}
