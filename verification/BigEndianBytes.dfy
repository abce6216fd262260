/** Fixed-width unsigned lengths, most significant byte first. */
module BigEndianBytes {
  import opened Bytes

  /** Big-endian value of a byte string. */
  function BigEndian(s: seq<Byte>): nat {
    if s == [] then 0 else 256 * BigEndian(s[..|s| - 1]) + s[|s| - 1]
  }

  /** The `k` low bytes of `n`, most significant first. */
  function ToBytes(n: nat, k: nat): (s: seq<Byte>)
    ensures |s| == k
    decreases k
  {
    if k == 0 then [] else ToBytes(n / 256, k - 1) + [n % 256]
  }

  function Pow256(k: nat): (p: nat)
    ensures p > 0
  {
    if k == 0 then 1 else 256 * Pow256(k - 1)
  }

  /** Printing a length and reading it back. */
  lemma {:induction false} BytesRoundTrip(n: nat, k: nat)
    requires n < Pow256(k)
    ensures BigEndian(ToBytes(n, k)) == n
    decreases k
  {
    if k > 0 {
      BytesRoundTrip(n / 256, k - 1);
      assert ToBytes(n, k)[..k - 1] == ToBytes(n / 256, k - 1);
    }
  }

  /** Reading any bytes and printing their value in as many gives them back. */
  lemma {:induction false} ValueRoundTrip(s: seq<Byte>)
    ensures BigEndian(s) < Pow256(|s|) && ToBytes(BigEndian(s), |s|) == s
    decreases |s|
  {
    if s != [] {
      var last := |s| - 1;
      ValueRoundTrip(s[..last]);
      assert BigEndian(s) / 256 == BigEndian(s[..last]) && BigEndian(s) % 256 == s[last];
      assert s == s[..last] + [s[last]];
    }
  }

  /** One, two and four bytes, byte by byte: the most significant comes first. */
  lemma {:induction false} NetworkOrder(n: nat)
    ensures n < 0x100 ==> ToBytes(n, 1) == [n]
    ensures n < 0x1_0000 ==> ToBytes(n, 2) == [n / 0x100, n % 0x100]
    ensures n < 0x1_0000_0000 ==>
              ToBytes(n, 4) == [n / 0x100_0000, n / 0x1_0000 % 0x100, n / 0x100 % 0x100, n % 0x100]
  {
    var a, b := n / 256, n / 256 / 256;
    var c := b / 256;
    assert ToBytes(n, 1) == [] + [n % 256];
    assert ToBytes(a, 1) == [] + [a % 256];
    assert ToBytes(n, 2) == ToBytes(a, 1) + [n % 256];
    assert ToBytes(c, 1) == [] + [c % 256];
    assert ToBytes(b, 2) == ToBytes(c, 1) + [b % 256];
    assert ToBytes(a, 3) == ToBytes(b, 2) + [a % 256];
    assert ToBytes(n, 4) == ToBytes(a, 3) + [n % 256];
    assert b == n / 0x1_0000 && c == n / 0x100_0000;
  }
}
