/** Bytes and the fixed-width integer encodings the record layer puts in
    nonces and headers. */
module Bytes {
  import opened Division

  type byte = x: int | 0 <= x < 256

  function Pow256(k: nat): (r: nat)
    ensures r >= 1
  {
    if k == 0 then 1 else 256 * Pow256(k - 1)
  }

  /** The k low-order bytes of n, least significant first. */
  function LittleEndian(n: nat, k: nat): (s: seq<byte>)
    ensures |s| == k
  {
    if k == 0 then [] else [n % 256] + LittleEndian(n / 256, k - 1)
  }

  /** The k low-order bytes of n, most significant first. */
  function BigEndian(n: nat, k: nat): (s: seq<byte>)
    ensures |s| == k
  {
    if k == 0 then [] else BigEndian(n / 256, k - 1) + [n % 256]
  }

  /** Byte i, least significant first, is digit i to the base 256. */
  lemma {:induction false} LittleEndianAt(n: nat, k: nat, i: nat)
    requires i < k
    ensures LittleEndian(n, k)[i] == n / Pow256(i) % 256
  {
    if i > 0 {
      LittleEndianAt(n / 256, k - 1, i - 1);
      DivTwice(n, 256, Pow256(i - 1));
    }
  }

  /** Most significant first, it is the digit as far from the end. */
  lemma {:induction false} BigEndianAt(n: nat, k: nat, i: nat)
    requires i < k
    ensures BigEndian(n, k)[i] == n / Pow256(k - 1 - i) % 256
  {
    if i < k - 1 {
      BigEndianAt(n / 256, k - 1, i);
      DivTwice(n, 256, Pow256(k - 2 - i));
    }
  }

  lemma {:induction false} LittleEndianInjective(a: nat, b: nat, k: nat)
    requires a < Pow256(k) && b < Pow256(k)
    requires LittleEndian(a, k) == LittleEndian(b, k)
    ensures a == b
  {
    if k > 0 {
      assert LittleEndian(a, k)[0] == LittleEndian(b, k)[0];
      assert LittleEndian(a, k)[1..] == LittleEndian(a / 256, k - 1);
      assert LittleEndian(b, k)[1..] == LittleEndian(b / 256, k - 1);
      LittleEndianInjective(a / 256, b / 256, k - 1);
    }
  }

  lemma {:induction false} BigEndianInjective(a: nat, b: nat, k: nat)
    requires a < Pow256(k) && b < Pow256(k)
    requires BigEndian(a, k) == BigEndian(b, k)
    ensures a == b
  {
    if k > 0 {
      assert BigEndian(a, k)[k - 1] == BigEndian(b, k)[k - 1];
      assert BigEndian(a, k)[..k - 1] == BigEndian(a / 256, k - 1);
      assert BigEndian(b, k)[..k - 1] == BigEndian(b / 256, k - 1);
      BigEndianInjective(a / 256, b / 256, k - 1);
    }
  }
}
