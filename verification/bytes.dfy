/** Bytes, big-endian integers and the constant-time digest comparison of the workload log. */
module Bytes {

  type byte = x: int | 0 <= x < 256
  type u64 = x: int | 0 <= x < 0x1_0000_0000_0000_0000

  const MAX_U64: int := 0xFFFF_FFFF_FFFF_FFFF
  const MAX_I64: int := 0x7FFF_FFFF_FFFF_FFFF
  const DIGEST_SIZE: nat := 32

  /** A SHA-256 value: which bytes it holds is never looked into. */
  type Digest = d: seq<byte> | |d| == DIGEST_SIZE witness seq(DIGEST_SIZE, _ => 0)

  function Pow256(n: nat): (p: nat)
    ensures p >= 1
  {
    if n == 0 then 1 else 256 * Pow256(n - 1)
  }

  /** The low n bytes of v, most significant first; higher bits are dropped as a narrowing conversion drops them. */
  function BigEndian(v: nat, n: nat): (s: seq<byte>)
    ensures |s| == n
  {
    if n == 0 then [] else BigEndian(v / 256, n - 1) + [v % 256]
  }

  function FromBigEndian(s: seq<byte>): (v: nat)
    ensures v < Pow256(|s|)
  {
    if s == [] then 0 else 256 * FromBigEndian(s[..|s| - 1]) + s[|s| - 1]
  }

  lemma {:induction false} FromBigEndianInverts(v: nat, n: nat)
    requires v < Pow256(n)
    ensures FromBigEndian(BigEndian(v, n)) == v
  {
    if n > 0 {
      FromBigEndianInverts(v / 256, n - 1);
      assert BigEndian(v, n)[..n - 1] == BigEndian(v / 256, n - 1);
    }
  }

  lemma {:induction false} BigEndianInverts(s: seq<byte>)
    ensures BigEndian(FromBigEndian(s), |s|) == s
  {
    if s != [] {
      BigEndianInverts(s[..|s| - 1]);
    }
  }

  lemma PowersOf256()
    ensures Pow256(1) == 0x100 && Pow256(2) == 0x1_0000
    ensures Pow256(4) == 0x1_0000_0000
    ensures Pow256(8) == 0x1_0000_0000_0000_0000
  {
    assert Pow256(3) == 0x100_0000;
    assert Pow256(5) == 0x100_0000_0000;
    assert Pow256(6) == 0x1_0000_0000_0000;
    assert Pow256(7) == 0x100_0000_0000_0000;
  }

  /** Exclusive or and inclusive or of two words, bit by bit. */
  function Xor(a: nat, b: nat): (r: nat) {
    if a == 0 && b == 0 then 0
    else 2 * Xor(a / 2, b / 2) + if a % 2 == b % 2 then 0 else 1
  }

  function Or(a: nat, b: nat): (r: nat) {
    if a == 0 && b == 0 then 0
    else 2 * Or(a / 2, b / 2) + if a % 2 == 0 && b % 2 == 0 then 0 else 1
  }

  lemma XorZero(a: nat, b: nat)
    ensures Xor(a, b) == 0 <==> a == b
  {
  }

  lemma OrZero(a: nat, b: nat)
    ensures Or(a, b) == 0 <==> a == 0 && b == 0
  {
  }

  /** Accumulates every byte difference and looks at the sum once, refusing evidence of any other length. */
  method EqualDigest(left: seq<byte>, right: seq<byte>) returns (equal: bool)
    ensures equal <==> |left| == |right| == DIGEST_SIZE && left == right
  {
    if |left| != DIGEST_SIZE || |right| != DIGEST_SIZE {
      return false;
    }
    var difference: nat := 0;
    for i := 0 to |left|
      invariant difference == 0 <==> left[..i] == right[..i]
    {
      XorZero(left[i], right[i]);
      OrZero(difference, Xor(left[i], right[i]));
      difference := Or(difference, Xor(left[i], right[i]));
      assert left[..i + 1] == left[..i] + [left[i]] && right[..i + 1] == right[..i] + [right[i]];
      assert left[..i + 1] == right[..i + 1] ==> left[i] == left[..i + 1][i] == right[..i + 1][i] == right[i];
      assert left[..i + 1] == right[..i + 1] ==> left[..i] == left[..i + 1][..i] == right[..i + 1][..i] == right[..i];
    }
    assert left[..|left|] == left && right[..|right|] == right;
    equal := difference == 0;
  }
}
