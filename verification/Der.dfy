/** The hand-written DER encoders: `tagged` of RutokenCMS.cpp and RutokenCSR.cpp, `derInteger` and
    `isOid` of RutokenCSR.cpp, and the OCTET STRING around an EC point in softhsm2-util-ossl.cpp. */
module Der {
  import opened Octets
  import opened Wrappers

  const SIZE_MAX_PLUS_ONE: nat := 0x1_0000_0000_0000_0000

  // ----- lengths -----

  /** The digits of `n` to base 256, most significant first and without leading zeros. */
  function Digits(n: nat): (d: Bytes)
    ensures n > 0 ==> d != [] && d[0] != 0
  {
    if n == 0 then [] else Digits(n / 256) + [n % 256]
  }

  lemma {:induction false} DigitsValue(n: nat)
    ensures BigEndian(Digits(n)) == n
  {
    if n > 0 {
      DigitsValue(n / 256);
      var d := Digits(n);
      assert d[..|d| - 1] == Digits(n / 256);
    }
  }

  lemma {:induction false} DigitsCount(n: nat, k: nat)
    requires n < Power256(k)
    ensures |Digits(n)| <= k
  {
    if n > 0 { DigitsCount(n / 256, k - 1); }
  }

  lemma DigitsSnoc(v: nat, x: byte)
    requires v > 0 || x > 0
    ensures Digits(256 * v + x) == Digits(v) + [x]
  {
    var n := 256 * v + x;
    assert n / 256 == v && n % 256 == x;
  }

  lemma UniqueSnoc(front: Bytes, x: byte)
    requires Digits(BigEndian(front)) == front
    requires if front == [] then x > 0 else BigEndian(front) > 0
    ensures Digits(BigEndian(front + [x])) == front + [x]
  {
    hide Digits;
    assert (front + [x])[..|front|] == front;
    assert BigEndian(front + [x]) == 256 * BigEndian(front) + x;
    DigitsSnoc(BigEndian(front), x);
  }

  /** Digits without a leading zero are determined by their value, and no longer than any other digits of it. */
  lemma {:induction false} DigitsUnique(b: Bytes)
    requires b == [] || b[0] != 0
    ensures Digits(BigEndian(b)) == b
  {
    if b != [] {
      var front := b[..|b| - 1];
      assert front == [] || front[0] == b[0];
      assert b == front + [b[|b| - 1]];
      hide Digits, BigEndian;
      DigitsUnique(front);
      if front != [] { LeadingDigit(front); }
      UniqueSnoc(front, b[|b| - 1]);
    }
  }

  lemma {:induction false} LeadingDigit(b: Bytes)
    requires b != [] && b[0] != 0
    ensures BigEndian(b) > 0
  {
    if |b| > 1 { LeadingDigit(b[..|b| - 1]); }
  }

  function Length(n: nat): Bytes
    requires n < SIZE_MAX_PLUS_ONE
  {
    if n < 128 then [n]
    else
      EightDigits(n);
      [0x80 + |Digits(n)|] + Digits(n)
  }

  lemma EightDigits(n: nat)
    requires n < SIZE_MAX_PLUS_ONE
    ensures |Digits(n)| <= 8
  {
    Power256Of8();
    DigitsCount(n, 8);
  }

  function Tagged(tag: byte, body: Bytes): Bytes
    requires |body| < SIZE_MAX_PLUS_ONE
  {
    [tag] + Length(|body|) + body
  }

  // ----- reading -----

  /** A definite length, in either form and not necessarily the shortest, and what follows it. */
  function ReadLength(s: Bytes): Option<(nat, Bytes)> {
    if s == [] || s[0] == 0x80 || s[0] == 0xFF then None
    else if s[0] < 128 then Some((s[0], s[1..]))
    else if |s| - 1 < s[0] - 128 then None
    else Some((BigEndian(s[1..1 + s[0] - 128]), s[1 + s[0] - 128..]))
  }

  /** One element with a one-octet tag: the tag, the contents and what follows. */
  function ReadElement(s: Bytes): Option<(byte, Bytes, Bytes)> {
    if s == [] then None
    else
      match ReadLength(s[1..])
      case None => None
      case Some((n, rest)) => if |rest| < n then None else Some((s[0], rest[..n], rest[n..]))
  }

  lemma LengthReads(n: nat, suffix: Bytes)
    requires n < SIZE_MAX_PLUS_ONE
    ensures ReadLength(Length(n) + suffix) == Some((n, suffix))
  {
    EightDigits(n);
    DigitsValue(n);
    var s := Length(n) + suffix;
    if n < 128 {
      assert s[1..] == suffix;
    } else {
      assert s[1..1 + |Digits(n)|] == Digits(n);
      assert s[1 + |Digits(n)|..] == suffix;
    }
  }

  /** An element is read back exactly, whatever follows it. */
  lemma TaggedReads(tag: byte, body: Bytes, suffix: Bytes)
    requires |body| < SIZE_MAX_PLUS_ONE
    ensures ReadElement(Tagged(tag, body) + suffix) == Some((tag, body, suffix))
  {
    var s := Tagged(tag, body) + suffix;
    assert s[1..] == Length(|body|) + (body + suffix);
    LengthReads(|body|, body + suffix);
    hide Length, ReadLength;
    assert (body + suffix)[..|body|] == body && (body + suffix)[|body|..] == suffix;
  }

  /** No definite length for `n` is shorter, and none that is as short is different (section 10.1 of X.690). */
  lemma LengthShortest(n: nat, e: Bytes)
    requires n < SIZE_MAX_PLUS_ONE && ReadLength(e) == Some((n, []))
    ensures |Length(n)| <= |e|
    ensures |Length(n)| == |e| ==> Length(n) == e
  {
    if e[0] >= 128 {
      var d := e[1..1 + e[0] - 128];
      assert e == [e[0]] + d;
      BigEndianBound(d);
      DigitsCount(n, |d|);
      if n >= 128 && |Digits(n)| == |d| {
        SameDigits(n, d);
      }
    } else {
      assert e == [e[0]];
    }
  }

  lemma {:induction false} LeadingZero(b: Bytes)
    ensures BigEndian([0] + b) == BigEndian(b)
  {
    if b == [] {
      assert ([0] + b)[..0] == [];
    } else {
      assert ([0] + b)[..|b|] == [0] + b[..|b| - 1];
      LeadingZero(b[..|b| - 1]);
    }
  }

  // ----- the encoders -----

  function Reversed(b: Bytes): (r: Bytes)
    ensures |r| == |b|
  {
    if b == [] then [] else Reversed(b[1..]) + [b[0]]
  }

  lemma {:induction false} ReversedSnoc(b: Bytes, x: byte)
    ensures Reversed(b + [x]) == [x] + Reversed(b)
  {
    if b == [] {
      assert b + [x] == [x] && [x][1..] == [];
      assert Reversed([x]) == Reversed([]) + [x];
    } else {
      assert (b + [x])[1..] == b[1..] + [x];
      ReversedSnoc(b[1..], x);
      assert [x] + Reversed(b[1..]) + [b[0]] == [x] + Reversed(b);
    }
  }

  lemma DigitsStep(n: nat)
    requires n > 0
    ensures n / 256 < n && Digits(n) == Digits(n / 256) + [n % 256]
  {
  }

  lemma EmptyDigits()
    ensures Digits(0) == [] && Reversed([]) == []
  {
  }

  /** The bytes of a size, lowest first. */
  method CollectLength(n: nat) returns (length: Bytes)
    ensures Reversed(length) == Digits(n)
  {
    hide Digits, Reversed;
    length := [];
    var size: nat := n;
    EmptyDigits();
    while size != 0
      invariant Digits(n) == Digits(size) + Reversed(length)
    {
      DigitsStep(size);
      ReversedSnoc(length, size % 256);
      assert Digits(size / 256) + [size % 256] + Reversed(length) == Digits(size / 256) + ([size % 256] + Reversed(length));
      length := length + [size % 256];
      size := size / 256;
    }
  }

  method AppendReversed(target: Bytes, part: Bytes) returns (result: Bytes)
    ensures result == target + Reversed(part)
  {
    result := target;
    assert part[..|part|] == part;
    var i := |part|;
    while i > 0
      invariant 0 <= i <= |part|
      invariant result + Reversed(part[..i]) == target + Reversed(part)
    {
      assert part[..i] == part[..i - 1] + [part[i - 1]];
      ReversedSnoc(part[..i - 1], part[i - 1]);
      result := result + [part[i - 1]];
      i := i - 1;
    }
    assert result + Reversed(part[..0]) == result;
  }

  /** `tagged`: the length bytes are collected lowest first and appended in reverse. */
  method EncodeTagged(tag: byte, body: Bytes) returns (result: Bytes)
    requires |body| < SIZE_MAX_PLUS_ONE
    ensures result == Tagged(tag, body)
  {
    result := [tag];
    if |body| < 128 {
      result := result + [|body|];
    } else {
      EightDigits(|body|);
      var length := CollectLength(|body|);
      result := result + [0x80 + |length|];
      result := AppendReversed(result, length);
      assert result == [tag] + Length(|body|);
    }
    result := result + body;
  }

  /** `n >> (k * 8)`. */
  function Shifted(n: nat, k: nat): nat
    decreases k
  {
    if k == 0 then n else Shifted(n / 256, k - 1)
  }

  /** The top digit is what remains after shifting, and when it is zero the number has fewer digits. */
  lemma {:induction false} TopDigit(n: nat, k: nat)
    requires n < Power256(k + 1)
    ensures Shifted(n, k) < 256
    ensures Shifted(n, k) == 0 <==> n < Power256(k)
    decreases k
  {
    if k > 0 { TopDigit(n / 256, k - 1); }
  }

  lemma {:induction false} DigitsAtLeast(n: nat, k: nat)
    requires n >= Power256(k)
    ensures |Digits(n)| > k
  {
    if k > 0 { DigitsAtLeast(n / 256, k - 1); }
  }

  method SignificantBytes(n: nat) returns (bytes: nat)
    requires 0 < n < SIZE_MAX_PLUS_ONE
    ensures bytes == |Digits(n)|
  {
    Power256Of8();
    bytes := 8;
    while bytes > 0
      invariant n < Power256(bytes)
    {
      TopDigit(n, bytes - 1);
      if Shifted(n, bytes - 1) % 256 != 0 { break; }
      bytes := bytes - 1;
    }
    DigitsCount(n, bytes);
    DigitsAtLeast(n, bytes - 1);
  }

  /** The length is written from its lowest byte backwards. */
  method FillLength(derQ: array<byte>, n: nat, bytes: nat)
    requires bytes == |Digits(n)| && 2 + bytes <= derQ.Length
    modifies derQ
    ensures derQ[..2] == old(derQ[..2]) && derQ[2 + bytes..] == old(derQ[2 + bytes..])
    ensures derQ[2..2 + bytes] == Digits(n)
  {
    hide Digits;
    EmptyDigits();
    var len := n;
    for i := 1 to bytes + 1
      invariant len >= 0 && derQ[..2] == old(derQ[..2]) && derQ[2 + bytes..] == old(derQ[2 + bytes..])
      invariant Digits(n) == Digits(len) + derQ[2 + bytes - (i - 1)..2 + bytes]
    {
      ghost var tail := derQ[2 + bytes - (i - 1)..2 + bytes];
      DigitsStep(len);
      derQ[2 + bytes - i] := len % 256;
      assert derQ[2 + bytes - i..2 + bytes] == [len % 256] + tail;
      len := len / 256;
    }
    assert |Digits(len)| == 0;
  }

  /** The encoder of `crypto_malloc_ecdsa`: it counts the significant bytes of the length from the top and fills the
      buffer from the back. */
  method EncodePoint(point: Bytes) returns (derQ: array<byte>)
    requires |point| < SIZE_MAX_PLUS_ONE
    ensures fresh(derQ) && derQ[..] == Tagged(0x04, point)
  {
    hide Digits;
    var n := |point|;
    if n <= 0x7f {
      derQ := NewBuffer(0x04, n, 0, point);
      assert derQ[..] == derQ[..2] + derQ[2..];
    } else {
      var bytes := SignificantBytes(n);
      EightDigits(n);
      derQ := NewBuffer(0x04, 0x80 + bytes, bytes, point);
      FillLength(derQ, n, bytes);
      assert derQ[..] == derQ[..2] + derQ[2..2 + bytes] + derQ[2 + bytes..];
    }
  }

  /** The allocated octet string with everything in place but the `gap` bytes of a long length. */
  method NewBuffer(first: byte, second: byte, gap: nat, point: Bytes) returns (derQ: array<byte>)
    ensures fresh(derQ) && derQ.Length == 2 + gap + |point|
    ensures derQ[..2] == [first, second] && derQ[2 + gap..] == point
  {
    derQ := new byte[2 + gap + |point|];
    derQ[0] := first;
    derQ[1] := second;
    for i := 0 to |point|
      invariant derQ[..2] == [first, second] && derQ[2 + gap..2 + gap + i] == point[..i]
    {
      derQ[2 + gap + i] := point[i];
      assert derQ[2 + gap..2 + gap + i + 1] == derQ[2 + gap..2 + gap + i] + [point[i]];
      assert point[..i + 1] == point[..i] + [point[i]];
    }
    assert point[..|point|] == point && derQ[2 + gap..] == derQ[2 + gap..2 + gap + |point|];
  }

  // ----- integers and object identifiers -----

  /** The integer that content octets stand for (section 8.3.3 of X.690). */
  function TwosComplement(b: Bytes): int
    requires b != []
  {
    if b[0] >= 128 then BigEndian(b) - Power256(|b|) else BigEndian(b)
  }

  /** The content octets of a non-negative integer. */
  function Content(v: nat): Bytes {
    var d := Digits(v);
    if v == 0 then [0] else if d[0] >= 128 then [0] + d else d
  }

  lemma ContentValue(v: nat)
    ensures Content(v) != [] && TwosComplement(Content(v)) == v
  {
    DigitsValue(v);
    LeadingZero(Digits(v));
    if v == 0 { assert [0][..0] == []; }
  }

  /** No content octets for `v` are shorter, and none that are as short are different (section 8.3.2 of X.690). */
  lemma ContentShortest(v: nat, b: Bytes)
    requires b != [] && TwosComplement(b) == v
    ensures |Content(v)| <= |b|
    ensures |Content(v)| == |b| ==> Content(v) == b
  {
    BigEndianBound(b);
    if b[0] == 0 {
      assert b == [0] + b[1..];
      LeadingZero(b[1..]);
      BigEndianBound(b[1..]);
      DigitsCount(v, |b| - 1);
      if v > 0 && Digits(v)[0] >= 128 && |Digits(v)| == |b| - 1 { SameDigits(v, b[1..]); }
      if v > 0 && Digits(v)[0] < 128 && |Digits(v)| == |b| - 1 { SameDigits(v, b[1..]); }
    } else {
      DigitsUnique(b);
    }
  }

  lemma PaddedDigits(d: Bytes)
    requires d != [] && d[0] == 0
    ensures |Digits(BigEndian(d))| < |d|
  {
    assert d == [0] + d[1..];
    LeadingZero(d[1..]);
    BigEndianBound(d[1..]);
    DigitsCount(BigEndian(d), |d| - 1);
  }

  lemma SameDigits(v: nat, d: Bytes)
    requires v > 0 && BigEndian(d) == v && |Digits(v)| == |d|
    ensures Digits(v) == d
  {
    if d[0] == 0 { PaddedDigits(d); } else { DigitsUnique(d); }
  }

  lemma ContentOf(rest: Bytes)
    requires rest != [] && (|rest| == 1 || rest[0] != 0)
    ensures Content(BigEndian(rest)) == (if rest[0] >= 128 then [0] else []) + rest
  {
    assert [] + rest == rest;
    if rest[0] != 0 {
      DigitsUnique(rest);
      LeadingDigit(rest);
    } else {
      assert rest == [0] && [0][..0] == [];
      assert BigEndian([0]) == 0;
    }
  }

  /** `derInteger`: the result depends on the value of the magnitude alone, not on its leading zeros. */
  method DerInteger(magnitude: Bytes) returns (der: Bytes)
    requires magnitude != [] && |magnitude| < SIZE_MAX_PLUS_ONE - 1
    ensures |Content(BigEndian(magnitude))| < SIZE_MAX_PLUS_ONE
    ensures der == Tagged(0x02, Content(BigEndian(magnitude)))
  {
    hide Tagged, Content, Digits;
    var start := 0;
    while start + 1 < |magnitude| && magnitude[start] == 0
      invariant 0 <= start < |magnitude|
      invariant BigEndian(magnitude[start..]) == BigEndian(magnitude)
    {
      assert magnitude[start..] == [0] + magnitude[start + 1..];
      LeadingZero(magnitude[start + 1..]);
      start := start + 1;
    }
    ContentOf(magnitude[start..]);
    var body: Bytes := [];
    if magnitude[start] >= 128 { body := body + [0]; }
    body := body + magnitude[start..];
    assert body == Content(BigEndian(magnitude));
    der := EncodeTagged(0x02, body);
  }

  predicate IsOid(der: Bytes) {
    |der| >= 3 && der[0] == 0x06 && der[1] < 0x80 && der[1] + 2 == |der|
  }

  /** `isOid` accepts exactly the OBJECT IDENTIFIER elements with 1 to 127 octets of contents and nothing after. */
  lemma IsOidExactly(der: Bytes)
    ensures IsOid(der) <==> exists body: Bytes :: 1 <= |body| < 128 && der == Tagged(0x06, body)
  {
    if IsOid(der) {
      assert der == Tagged(0x06, der[2..]);
    }
  }
}
