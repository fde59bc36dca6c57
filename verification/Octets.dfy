/** Byte strings and the numbers they spell. */
module Octets {
  type byte = x: int | 0 <= x < 256

  type Bytes = seq<byte>

  /** The number whose digits to base 256 are `b`, least significant first. */
  function LittleEndian(b: Bytes): nat {
    if b == [] then 0 else b[0] + 256 * LittleEndian(b[1..])
  }

  /** The `k` lowest digits of `n`, least significant first. */
  function LittleBytes(n: nat, k: nat): (b: Bytes)
    ensures |b| == k
    decreases k
  {
    if k == 0 then [] else [n % 256] + LittleBytes(n / 256, k - 1)
  }

  lemma {:induction false} LittleRoundTrip(b: Bytes)
    ensures LittleBytes(LittleEndian(b), |b|) == b
  {
    if b != [] {
      LittleRoundTrip(b[1..]);
      assert LittleEndian(b) / 256 == LittleEndian(b[1..]);
    }
  }

  lemma {:induction false} LittleValue(n: nat, k: nat)
    requires n < Power256(k)
    ensures LittleEndian(LittleBytes(n, k)) == n
    decreases k
  {
    if k > 0 {
      LittleValue(n / 256, k - 1);
      assert LittleBytes(n, k)[1..] == LittleBytes(n / 256, k - 1);
    }
  }

  lemma {:induction false} LittleEndianBound(b: Bytes)
    ensures LittleEndian(b) < Power256(|b|)
  {
    if b != [] { LittleEndianBound(b[1..]); }
  }

  /** The number whose digits to base 256 are `b`, most significant first. */
  function BigEndian(b: Bytes): nat {
    if b == [] then 0 else 256 * BigEndian(b[..|b| - 1]) + b[|b| - 1]
  }

  function Power256(k: nat): (p: nat)
    ensures p > 0
  {
    if k == 0 then 1 else 256 * Power256(k - 1)
  }

  lemma {:induction false} BigEndianBound(b: Bytes)
    ensures BigEndian(b) < Power256(|b|)
  {
    if b != [] {
      BigEndianBound(b[..|b| - 1]);
    }
  }

  /** The `k` lowest digits of `n`, most significant first. */
  function BigBytes(n: nat, k: nat): (b: Bytes)
    ensures |b| == k
    decreases k
  {
    if k == 0 then [] else BigBytes(n / 256, k - 1) + [n % 256]
  }

  lemma {:induction false} BigRoundTrip(b: Bytes)
    ensures BigBytes(BigEndian(b), |b|) == b
  {
    if b != [] {
      var front := b[..|b| - 1];
      BigRoundTrip(front);
      assert BigEndian(b) / 256 == BigEndian(front) && BigEndian(b) % 256 == b[|b| - 1];
      assert b == front + [b[|b| - 1]];
    }
  }

  lemma {:induction false} BigValue(n: nat, k: nat)
    requires n < Power256(k)
    ensures BigEndian(BigBytes(n, k)) == n
    decreases k
  {
    if k > 0 {
      BigValue(n / 256, k - 1);
      var b := BigBytes(n, k);
      assert b[..k - 1] == BigBytes(n / 256, k - 1);
    }
  }

  lemma Power256Of8()
    ensures Power256(8) == 0x1_0000_0000_0000_0000
  {
    assert Power256(4) == 0x1_0000_0000;
    assert Power256(8) == 256 * (256 * (256 * (256 * Power256(4))));
  }

  // ----- parts put together -----

  function Concat(parts: seq<Bytes>): Bytes {
    if parts == [] then [] else Concat(parts[..|parts| - 1]) + parts[|parts| - 1]
  }

  lemma ConcatSnoc(parts: seq<Bytes>, b: Bytes)
    ensures Concat(parts + [b]) == Concat(parts) + b
  {
    assert (parts + [b])[..|parts|] == parts;
  }
}
