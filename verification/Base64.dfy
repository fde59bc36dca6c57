/** Base64 both ways: `b64_ntop` and `b64_pton` of keyconv/base64.c, `base64Encode` and the line
    wrapping of softhsm2-export.cpp. */
module Base64 {
  import opened Octets
  import opened Wrappers

  const PAD: byte := 61
  const NEWLINE: byte := 10

  // ----- the alphabet -----

  type digit = x: int | 0 <= x < 64

  function Letter(v: digit): byte {
    if v < 26 then 65 + v else if v < 52 then 97 + v - 26 else if v < 62 then 48 + v - 52 else if v == 62 then 43 else 47
  }

  /** The position of a character in the alphabet. */
  function Value(c: byte): Option<digit> {
    if 65 <= c <= 90 then Some(c - 65)
    else if 97 <= c <= 122 then Some(c - 97 + 26)
    else if 48 <= c <= 57 then Some(c - 48 + 52)
    else if c == 43 then Some(62)
    else if c == 47 then Some(63)
    else None
  }

  predicate IsSpace(c: byte) { 9 <= c <= 13 || c == 32 }

  lemma Alphabet(v: digit, c: byte)
    ensures Value(Letter(v)) == Some(v)
    ensures Value(c).Some? ==> Letter(Value(c).value) == c && !IsSpace(c) && c != PAD
  {
  }

  // ----- what the text of some bytes is -----

  function Quad(a: byte, b: byte, c: byte): Bytes {
    [Letter(a / 4), Letter(a % 4 * 16 + b / 16), Letter(b % 16 * 4 + c / 64), Letter(c % 64)]
  }

  /** Section 4 of RFC 4648. */
  function Encode(b: Bytes): Bytes {
    if b == [] then []
    else if |b| == 1 then Quad(b[0], 0, 0)[..2] + [PAD, PAD]
    else if |b| == 2 then Quad(b[0], b[1], 0)[..3] + [PAD]
    else Quad(b[0], b[1], b[2]) + Encode(b[3..])
  }

  // ----- decoding by digits -----

  type Digits = seq<digit>

  /** Joining the bits of two numbers that have none in common: `high` is a multiple of `unit` and `low` is below it. */
  function Or(high: byte, low: byte, unit: nat): byte
    requires (unit == 4 || unit == 16 || unit == 64) && high % unit == 0 && low < unit
  {
    Below256(high, unit);
    high + low
  }

  lemma Below256(high: byte, unit: nat)
    requires (unit == 4 || unit == 16 || unit == 64) && high % unit == 0
    ensures high + unit <= 256
  {
    if unit == 4 {
      assert high == high / 4 * 4;
    } else if unit == 16 {
      assert high == high / 16 * 16;
    } else {
      assert high == high / 64 * 64;
    }
  }

  lemma Shifted(v: digit)
    ensures v * 4 % 4 == 0 && v % 16 * 16 % 16 == 0 && v % 4 * 64 % 64 == 0
    ensures v * 4 < 256 && v % 16 * 16 < 256 && v % 4 * 64 < 256
  {
  }

  /** The bits left over in a state leave this much room below them. */
  function Unit(state: nat): (u: nat)
    ensures u > 0
  {
    if state == 0 then 256 else if state == 1 then 4 else if state == 2 then 16 else 64
  }

  /** The bytes completed by some digits, the bits left over, moved to the top of a byte, and how far into a group of
      four the digits are. */
  datatype Partial = Partial(whole: Bytes, part: byte, state: nat) {
    predicate Valid() { state < 4 && part % Unit(state) == 0 }
  }

  type Bits = x: Partial | x.Valid() witness Partial([], 0, 0)

  function Push(x: Bits, v: digit): Bits {
    Shifted(v);
    match x.state
    case 0 => Partial(x.whole, v * 4, 1)
    case 1 => Partial(x.whole + [Or(x.part, v / 16, 4)], v % 16 * 16, 2)
    case 2 => Partial(x.whole + [Or(x.part, v / 4, 16)], v % 4 * 64, 3)
    case _ => Partial(x.whole + [Or(x.part, v, 64)], 0, 0)
  }

  function BitsOf(ds: Digits): Bits {
    if ds == [] then Partial([], 0, 0) else Push(BitsOf(ds[..|ds| - 1]), ds[|ds| - 1])
  }

  function Letters(ds: Digits): (t: Bytes)
    ensures |t| == |ds| && forall i :: 0 <= i < |ds| ==> t[i] == Letter(ds[i])
  {
    seq(|ds|, i requires 0 <= i < |ds| => Letter(ds[i]))
  }

  /** The padding that follows when the digits end in a given state. */
  predicate Padded(state: nat, tail: Bytes) {
    || (state == 0 && tail == [])
    || (state == 2 && tail == [PAD, PAD])
    || (state == 3 && tail == [PAD])
  }

  /** A text of digits and padding that is canonical: no bits are lost. */
  predicate Canonical(ds: Digits, tail: Bytes) { Padded(BitsOf(ds).state, tail) && BitsOf(ds).part == 0 }

  lemma BitsSnoc(ds: Digits, v: digit)
    ensures BitsOf(ds + [v]) == Push(BitsOf(ds), v)
  {
    assert (ds + [v])[..|ds|] == ds;
  }

  lemma PushAppend(w: Bytes, x: Bits, v: digit)
    ensures Push(x.(whole := w + x.whole), v) == Push(x, v).(whole := w + Push(x, v).whole)
  {
  }

  /** Digits before a group boundary do not matter to those after it. */
  lemma {:induction false} BitsAppend(ds: Digits, es: Digits)
    requires BitsOf(ds).state == 0 && BitsOf(ds).part == 0
    ensures BitsOf(ds + es) == BitsOf(es).(whole := BitsOf(ds).whole + BitsOf(es).whole)
  {
    if es == [] {
      assert ds + es == ds;
    } else {
      var front, last := es[..|es| - 1], es[|es| - 1];
      BitsAppend(ds, front);
      hide BitsOf, Push;
      BitsSnoc(ds + front, last);
      BitsSnoc(front, last);
      PushAppend(BitsOf(ds).whole, BitsOf(front), last);
      assert ds + es == (ds + front) + [last] && es == front + [last];
    }
  }

  // ----- groups -----

  lemma BitsOfUpToFour(p: digit, q: digit, r: digit, t: digit)
    ensures BitsOf([p]) == Partial([], p * 4, 1)
    ensures BitsOf([p, q]) == Partial([p * 4 + q / 16], q % 16 * 16, 2)
    ensures BitsOf([p, q, r]) == Partial([p * 4 + q / 16, q % 16 * 16 + r / 4], r % 4 * 64, 3)
    ensures BitsOf([p, q, r, t]) == Partial([p * 4 + q / 16, q % 16 * 16 + r / 4, r % 4 * 64 + t], 0, 0)
  {
    assert [p][..0] == [] && [p, q][..1] == [p] && [p, q, r][..2] == [p, q] && [p, q, r, t][..3] == [p, q, r];
    assert BitsOf([]) == Partial([], 0, 0);
    assert BitsOf([p]) == Partial([], p * 4, 1);
    assert BitsOf([p, q]) == Partial([p * 4 + q / 16], q % 16 * 16, 2);
    assert BitsOf([p, q, r]) == Partial([p * 4 + q / 16, q % 16 * 16 + r / 4], r % 4 * 64, 3);
  }

  lemma SplitByte(x: byte)
    ensures x / 4 < 64 && x % 4 * 16 < 64 && x / 16 < 16 && x % 16 * 4 < 64 && x / 64 < 4
    ensures x / 4 * 4 + x % 4 == x && x / 16 * 16 + x % 16 == x && x / 64 * 64 + x % 64 == x
  {
  }

  /** The digits of a group of three bytes, and what they give back. */
  lemma QuadDigits(a: byte, b: byte, c: byte) returns (ds: Digits)
    ensures ds == [a / 4, a % 4 * 16 + b / 16, b % 16 * 4 + c / 64, c % 64]
    ensures Letters(ds) == Quad(a, b, c) && BitsOf(ds) == Partial([a, b, c], 0, 0)
    ensures b == 0 ==> BitsOf(ds[..2]) == Partial([a], 0, 2)
    ensures c == 0 ==> BitsOf(ds[..3]) == Partial([a, b], 0, 3)
  {
    hide BitsOf, Letters;
    SplitByte(a);
    SplitByte(b);
    SplitByte(c);
    ds := [a / 4, a % 4 * 16 + b / 16, b % 16 * 4 + c / 64, c % 64];
    BitsOfUpToFour(ds[0], ds[1], ds[2], ds[3]);
    assert ds[..2] == [ds[0], ds[1]] && ds[..3] == [ds[0], ds[1], ds[2]];
    assert ds[1] / 16 == a % 4 && ds[1] % 16 == b / 16 && ds[2] / 4 == b % 16 && ds[2] % 4 == c / 64;
  }

  lemma LettersAppend(ds: Digits, es: Digits)
    ensures Letters(ds + es) == Letters(ds) + Letters(es)
  {
  }

  /** Every encoding is canonical text for its bytes. */
  lemma {:induction false} EncodeCanonical(b: Bytes) returns (ds: Digits, tail: Bytes)
    ensures Encode(b) == Letters(ds) + tail && Canonical(ds, tail) && BitsOf(ds).whole == b
    decreases |b|
  {
    hide BitsOf, Quad;
    if b == [] {
      ds, tail := [], [];
      NoBits();
    } else if |b| == 1 {
      var q := QuadDigits(b[0], 0, 0);
      ds, tail := q[..2], [PAD, PAD];
      assert b == [b[0]];
    } else if |b| == 2 {
      var q := QuadDigits(b[0], b[1], 0);
      ds, tail := q[..3], [PAD];
      assert b == [b[0], b[1]];
    } else {
      var q := QuadDigits(b[0], b[1], b[2]);
      var rest;
      rest, tail := EncodeCanonical(b[3..]);
      ds := q + rest;
      BitsAppend(q, rest);
      LettersAppend(q, rest);
      assert b == [b[0], b[1], b[2]] + b[3..];
    }
  }

  lemma NoBits()
    ensures BitsOf([]) == Partial([], 0, 0)
  {
  }

  lemma DigitBytes(p: digit, q: digit, r: digit, t: digit)
    ensures Quad(p * 4 + q / 16, q % 16 * 16 + r / 4, r % 4 * 64 + t) == [Letter(p), Letter(q), Letter(r), Letter(t)]
  {
    var a, b, c := p * 4 + q / 16, q % 16 * 16 + r / 4, r % 4 * 64 + t;
    assert a / 4 == p && a % 4 == q / 16 && b / 16 == q % 16 && b % 16 == r / 4 && c / 64 == r % 4 && c % 64 == t;
  }

  lemma EncodeGroup(a: byte, b: byte, c: byte, rest: Bytes)
    ensures Encode([a, b, c] + rest) == Quad(a, b, c) + Encode(rest)
  {
    assert ([a, b, c] + rest)[3..] == rest;
  }

  lemma GroupStep(p: digit, q: digit, r: digit, t: digit, rest: Digits, tail: Bytes)
    requires Encode(BitsOf(rest).whole) == Letters(rest) + tail
    ensures Encode(BitsOf([p, q, r, t] + rest).whole) == Letters([p, q, r, t] + rest) + tail
  {
    hide BitsOf, Quad, Encode;
    BitsOfUpToFour(p, q, r, t);
    BitsAppend([p, q, r, t], rest);
    DigitBytes(p, q, r, t);
    LettersAppend([p, q, r, t], rest);
    EncodeGroup(p * 4 + q / 16, q % 16 * 16 + r / 4, r % 4 * 64 + t, BitsOf(rest).whole);
    assert Letters([p, q, r, t]) == [Letter(p), Letter(q), Letter(r), Letter(t)];
  }

  lemma LastTwo(p: digit, q: digit)
    requires q % 16 == 0
    ensures Encode([p * 4 + q / 16]) == [Letter(p), Letter(q), PAD, PAD]
  {
    DigitBytes(p, q, 0, 0);
  }

  lemma LastThree(p: digit, q: digit, r: digit)
    requires r % 4 == 0
    ensures Encode([p * 4 + q / 16, q % 16 * 16 + r / 4]) == [Letter(p), Letter(q), Letter(r), PAD]
  {
    DigitBytes(p, q, r, 0);
  }

  lemma LastPair(p: digit, q: digit, tail: Bytes)
    requires Canonical([p, q], tail)
    ensures Encode(BitsOf([p, q]).whole) == Letters([p, q]) + tail
  {
    BitsOfUpToFour(p, q, 0, 0);
    hide BitsOf, Quad, Encode;
    LastTwo(p, q);
    assert Letters([p, q]) == [Letter(p), Letter(q)];
  }

  lemma LastTriple(p: digit, q: digit, r: digit, tail: Bytes)
    requires Canonical([p, q, r], tail)
    ensures Encode(BitsOf([p, q, r]).whole) == Letters([p, q, r]) + tail
  {
    BitsOfUpToFour(p, q, r, 0);
    hide BitsOf, Quad, Encode;
    LastThree(p, q, r);
    assert Letters([p, q, r]) == [Letter(p), Letter(q), Letter(r)];
  }

  lemma NoLastSingle(p: digit, tail: Bytes)
    ensures !Canonical([p], tail)
  {
    BitsOfUpToFour(p, 0, 0, 0);
  }

  lemma LastGroup(ds: Digits, tail: Bytes)
    requires Canonical(ds, tail) && |ds| < 4
    ensures Encode(BitsOf(ds).whole) == Letters(ds) + tail
  {
    hide BitsOf, Quad, Encode;
    if ds == [] {
      NoBits();
      EncodeNothing();
    } else if |ds| == 1 {
      assert ds == [ds[0]];
      NoLastSingle(ds[0], tail);
    } else if |ds| == 2 {
      assert ds == [ds[0], ds[1]];
      LastPair(ds[0], ds[1], tail);
    } else {
      assert ds == [ds[0], ds[1], ds[2]];
      LastTriple(ds[0], ds[1], ds[2], tail);
    }
  }

  lemma EncodeNothing()
    ensures Encode([]) == []
  {
  }

  /** And there is no other canonical text for them. */
  lemma {:induction false} CanonicalEncodes(ds: Digits, tail: Bytes)
    requires Canonical(ds, tail)
    ensures Encode(BitsOf(ds).whole) == Letters(ds) + tail
    decreases |ds|
  {
    hide BitsOf, Encode;
    if |ds| >= 4 {
      var q, rest := [ds[0], ds[1], ds[2], ds[3]], ds[4..];
      assert ds == q + rest;
      BitsOfUpToFour(ds[0], ds[1], ds[2], ds[3]);
      BitsAppend(q, rest);
      CanonicalEncodes(rest, tail);
      GroupStep(ds[0], ds[1], ds[2], ds[3], rest, tail);
    } else {
      LastGroup(ds, tail);
    }
  }

  // ----- texts with white space -----

  function Strip(t: Bytes): Bytes {
    if t == [] then [] else Strip(t[..|t| - 1]) + Kept(t[|t| - 1])
  }

  lemma {:induction false} StripAppend(t: Bytes, u: Bytes)
    ensures Strip(t + u) == Strip(t) + Strip(u)
  {
    if u == [] {
      assert t + u == t;
    } else {
      var n := |u| - 1;
      assert (t + u)[..|t| + n] == t + u[..n];
      StripAppend(t, u[..n]);
    }
  }

  function Kept(c: byte): Bytes { if IsSpace(c) then [] else [c] }

  lemma StripSnoc(t: Bytes, c: byte)
    ensures Strip(t + [c]) == Strip(t) + Kept(c)
  {
    assert (t + [c])[..|t|] == t;
  }

  lemma StripParts(a: Bytes, c: byte, u: Bytes)
    ensures Strip(a + [c]) == Strip(a) + Kept(c)
    ensures Strip([c] + u) == Kept(c) + Strip(u)
    ensures Strip(a + [c] + u) == Strip(a) + Kept(c) + Strip(u)
  {
    StripSnoc(a, c);
    StripSnoc([], c);
    StripNothing();
    hide Strip, Kept;
    assert [] + [c] == [c] && [] + Kept(c) == Kept(c);
    StripAppend([c], u);
    StripAppend(a + [c], u);
  }

  lemma SlicesAt(t: Bytes, i: nat)
    requires i < |t|
    ensures t[..i + 1] == t[..i] + [t[i]] && t[i..] == [t[i]] + t[i + 1..] && t == t[..i] + [t[i]] + t[i + 1..]
  {
  }

  lemma StripAt(t: Bytes, i: nat)
    requires i < |t|
    ensures Strip(t[..i + 1]) == Strip(t[..i]) + Kept(t[i])
    ensures Strip(t[i..]) == Kept(t[i]) + Strip(t[i + 1..])
    ensures Strip(t) == Strip(t[..i]) + Kept(t[i]) + Strip(t[i + 1..])
  {
    hide *;
    SlicesAt(t, i);
    StripParts(t[..i], t[i], t[i + 1..]);
  }

  lemma StripNothing()
    ensures Strip([]) == []
  {
  }

  /** Padding can only come after the digits. */
  predicate IsTail(tail: Bytes) { tail == [] || tail[0] == PAD }

  /** How many characters of the alphabet a text begins with. */
  function Leading(t: Bytes): (n: nat)
    ensures n <= |t|
  {
    if t == [] || Value(t[0]).None? then 0 else 1 + Leading(t[1..])
  }

  lemma {:induction false} LeadingLetters(ds: Digits, rest: Bytes)
    ensures Leading(Letters(ds) + rest) == |ds| + Leading(rest)
  {
    if ds == [] {
      assert Letters(ds) + rest == rest;
    } else {
      var t := Letters(ds) + rest;
      Alphabet(ds[0], t[0]);
      assert t[1..] == Letters(ds[1..]) + rest;
      LeadingLetters(ds[1..], rest);
      hide Value;
    }
  }

  lemma LeadingTail(tail: Bytes)
    requires IsTail(tail)
    ensures Leading(tail) == 0
  {
  }

  lemma LettersInjective(ds: Digits, es: Digits)
    requires Letters(ds) == Letters(es)
    ensures ds == es
  {
    assert |ds| == |Letters(ds)| == |es|;
    forall i | 0 <= i < |ds| ensures ds[i] == es[i] {
      assert Letters(ds)[i] == Letters(es)[i];
      Alphabet(ds[i], PAD);
      Alphabet(es[i], PAD);
    }
  }

  lemma SplitUnique(ds: Digits, tail: Bytes, es: Digits, tail': Bytes)
    requires Letters(ds) + tail == Letters(es) + tail' && IsTail(tail) && IsTail(tail')
    ensures ds == es && tail == tail'
  {
    hide Leading, IsTail;
    LeadingLetters(ds, tail);
    LeadingLetters(es, tail');
    LeadingTail(tail);
    LeadingTail(tail');
    var t := Letters(ds) + tail;
    assert t[..|ds|] == Letters(ds) && t[..|es|] == Letters(es) && t[|ds|..] == tail && t[|es|..] == tail';
    LettersInjective(ds, es);
  }

  /** A split text encodes exactly the bytes of its digits, and only if it is canonical. */
  lemma EncodesExactly(ds: Digits, tail: Bytes, b: Bytes)
    requires IsTail(tail)
    ensures Letters(ds) + tail == Encode(b) <==> Canonical(ds, tail) && b == BitsOf(ds).whole
  {
    var es, tail' := EncodeCanonical(b);
    hide Encode, BitsOf, Letters;
    if Letters(ds) + tail == Encode(b) { SplitUnique(ds, tail, es, tail'); }
    if Canonical(ds, tail) { CanonicalEncodes(ds, tail); }
  }

  // ----- room in the target -----

  /** The room that decoding needs: a partial byte is put behind the last whole one. */
  function Room(n: nat): nat { if n % 3 == 0 then n else n + 1 }

  function Need(x: Bits): nat { |x.whole| + if x.state == 0 then 0 else 1 }

  lemma {:induction false} NeedIsRoom(ds: Digits)
    ensures |BitsOf(ds).whole| % 3 == if BitsOf(ds).state == 0 then 0 else BitsOf(ds).state - 1
  {
    if ds != [] { NeedIsRoom(ds[..|ds| - 1]); }
  }

  lemma {:induction false} NeedGrows(ds: Digits, es: Digits)
    ensures Need(BitsOf(ds)) <= Need(BitsOf(ds + es))
  {
    if es == [] {
      assert ds + es == ds;
    } else {
      var n := |es| - 1;
      NeedGrows(ds, es[..n]);
      BitsSnoc(ds + es[..n], es[n]);
      assert ds + es == (ds + es[..n]) + [es[n]];
    }
  }

  /** Canonical text, with white space anywhere, for some bytes that fit in `room`. */
  ghost predicate Fits(src: Bytes, room: nat) { exists b :: Strip(src) == Encode(b) && Room(|b|) <= room }

  /** Text whose digits and padding are right, whatever the bits that are lost. */
  ghost predicate WellPadded(src: Bytes, n: nat) {
    exists ds, tail :: Strip(src) == Letters(ds) + tail && Padded(BitsOf(ds).state, tail) && |BitsOf(ds).whole| == n
  }

  lemma PaddedIsTail(state: nat, tail: Bytes)
    requires Padded(state, tail)
    ensures IsTail(tail)
  {
  }

  lemma LongerDigits(ds: Digits, rest: Bytes, es: Digits, tail: Bytes)
    requires Letters(ds) + rest == Letters(es) + tail && IsTail(tail)
    ensures |ds| <= |es| && es[..|ds|] == ds
  {
    LeadingLetters(ds, rest);
    LeadingLetters(es, tail);
    LeadingTail(tail);
    hide Leading, IsTail;
    var t := Letters(ds) + rest;
    assert t[..|ds|] == Letters(ds) && t[..|ds|] == Letters(es)[..|ds|] == Letters(es[..|ds|]);
    LettersInjective(ds, es[..|ds|]);
  }

  /** Digits that do not fit cannot be completed to text that does. */
  lemma NoRoom(src: Bytes, ds: Digits, rest: Bytes, room: nat)
    requires Strip(src) == Letters(ds) + rest && Need(BitsOf(ds)) > room
    ensures !Fits(src, room)
  {
    forall b | Strip(src) == Encode(b) ensures Room(|b|) > room {
      var es, tail := EncodeCanonical(b);
      PaddedIsTail(BitsOf(es).state, tail);
      LongerDigits(ds, rest, es, tail);
      assert es == ds + es[|ds|..];
      NeedGrows(ds, es[|ds|..]);
      NeedIsRoom(es);
      hide BitsOf, Encode, Letters, Strip;
    }
  }

  lemma SplitAfterLeading(es: Digits, tail: Bytes)
    requires IsTail(tail)
    ensures var t := Letters(es) + tail; Leading(t) == |t| || t[Leading(t)] == PAD
  {
    LeadingLetters(es, tail);
    LeadingTail(tail);
  }

  /** A character outside the alphabet spoils the text. */
  lemma BadCharacter(src: Bytes, ds: Digits, c: byte, rest: Bytes)
    requires Strip(src) == Letters(ds) + [c] + rest && Value(c).None? && c != PAD
    ensures forall room :: !Fits(src, room)
    ensures forall n :: !WellPadded(src, n)
  {
    var t := Strip(src);
    assert t == Letters(ds) + ([c] + rest);
    LeadingLetters(ds, [c] + rest);
    assert Leading([c] + rest) == 0;
    assert t[Leading(t)] == c;
    hide Strip, BitsOf, Encode, Letters, Leading;
    forall b ensures t != Encode(b) {
      var es, tail := EncodeCanonical(b);
      PaddedIsTail(BitsOf(es).state, tail);
      SplitAfterLeading(es, tail);
    }
    forall es, tail | Padded(BitsOf(es).state, tail) ensures t != Letters(es) + tail {
      PaddedIsTail(BitsOf(es).state, tail);
      SplitAfterLeading(es, tail);
    }
  }

  // ----- b64_pton -----

  /** `target` holds the whole bytes so far, and behind them the partial one. */
  ghost predicate Holds(target: array?<byte>, room: nat, x: Bits)
    reads if target == null then {} else {target}
  {
    target != null ==>
      && Need(x) <= room <= target.Length
      && target[..|x.whole|] == x.whole
      && (x.state != 0 ==> target[|x.whole|] == x.part)
  }

  method PushInto(target: array?<byte>, room: nat, tarindex: nat, state: nat, v: digit, ghost x: Bits)
    returns (ok: bool, tarindex': nat, state': nat)
    requires Holds(target, room, x) && (target != null ==> room <= target.Length)
    requires tarindex == |x.whole| && state == x.state
    modifies if target == null then {} else {target}
    ensures ok <==> target == null || Need(Push(x, v)) <= room
    ensures ok ==> Holds(target, room, Push(x, v)) && tarindex' == |Push(x, v).whole| && state' == Push(x, v).state
  {
    tarindex', state' := tarindex, (state + 1) % 4;
    if state == 0 {
      if target != null {
        if tarindex >= room { return false, tarindex', state'; }
        target[tarindex] := v * 4;
      }
    } else if state == 1 {
      if target != null {
        if tarindex + 1 >= room { return false, tarindex', state'; }
        target[tarindex] := Or(target[tarindex], v / 16, 4);
        target[tarindex + 1] := v % 16 * 16;
      }
      tarindex' := tarindex + 1;
    } else if state == 2 {
      if target != null {
        if tarindex + 1 >= room { return false, tarindex', state'; }
        target[tarindex] := Or(target[tarindex], v / 4, 16);
        target[tarindex + 1] := v % 4 * 64;
      }
      tarindex' := tarindex + 1;
    } else {
      if target != null {
        if tarindex >= room { return false, tarindex', state'; }
        target[tarindex] := Or(target[tarindex], v, 64);
      }
      tarindex' := tarindex + 1;
    }
    ok := true;
    assert target != null ==> target[..tarindex] == x.whole;
  }

  /** The first loop: digits and white space, up to padding or the end. */
  method ReadDigits(src: Bytes, target: array?<byte>, room: nat)
    returns (ok: bool, i: nat, tarindex: nat, state: nat, ghost ds: Digits)
    requires target != null ==> room <= target.Length
    modifies if target == null then {} else {target}
    ensures !ok ==> if target != null then !Fits(src, room) else forall n :: !WellPadded(src, n)
    ensures ok ==>
      && i <= |src| && (i < |src| ==> src[i] == PAD)
      && Strip(src[..i]) == Letters(ds) && Strip(src) == Letters(ds) + Strip(src[i..])
      && tarindex == |BitsOf(ds).whole| && state == BitsOf(ds).state && Holds(target, room, BitsOf(ds))
  {
    hide Strip, BitsOf, Push, Letters, Fits, WellPadded, Value;
    i, tarindex, state, ds := 0, 0, 0, [];
    StripNothing();
    NoBits();
    LettersNothing();
    assert src[..0] == [] && src[0..] == src;
    while i < |src| && src[i] != PAD
      invariant i <= |src| && Strip(src[..i]) == Letters(ds) && Strip(src) == Letters(ds) + Strip(src[i..])
      invariant tarindex == |BitsOf(ds).whole| && state == BitsOf(ds).state && Holds(target, room, BitsOf(ds))
    {
      StripAt(src, i);
      if !IsSpace(src[i]) {
        var v := Value(src[i]);
        if v.None? {
          BadCharacter(src, ds, src[i], Strip(src[i + 1..]));
          return false, i, tarindex, state, ds;
        }
        Alphabet(v.value, src[i]);
        LettersSnoc(ds, v.value);
        BitsSnoc(ds, v.value);
        var pushed;
        pushed, tarindex, state := PushInto(target, room, tarindex, state, v.value, BitsOf(ds));
        ds := ds + [v.value];
        if !pushed {
          NoRoom(src, ds, Strip(src[i + 1..]), room);
          return false, i, tarindex, state, ds;
        }
      }
      i := i + 1;
    }
    ok := true;
  }

  lemma LettersNothing()
    ensures Letters([]) == []
  {
  }

  lemma LettersSnoc(ds: Digits, v: digit)
    ensures Letters(ds + [v]) == Letters(ds) + [Letter(v)]
  {
  }

  /** Skipping white space. */
  method SkipSpaces(src: Bytes, i: nat) returns (j: nat)
    requires i <= |src|
    ensures i <= j <= |src| && (j < |src| ==> !IsSpace(src[j]))
    ensures Strip(src[i..]) == Strip(src[j..])
  {
    hide Strip;
    j := i;
    while j < |src| && IsSpace(src[j])
      invariant i <= j <= |src| && Strip(src[i..]) == Strip(src[j..])
    {
      StripAt(src, j);
      j := j + 1;
    }
  }

  lemma StripFirst(src: Bytes, j: nat)
    requires j <= |src| && (j < |src| ==> !IsSpace(src[j]))
    ensures Strip(src[j..]) == if j == |src| then [] else [src[j]] + Strip(src[j + 1..])
  {
    if j == |src| { assert src[j..] == []; } else { StripAt(src, j); }
  }

  lemma PaddingCases(c: byte, y: Bytes)
    ensures Padded(3, [PAD] + y) <==> y == []
    ensures Padded(2, [PAD] + ([c] + y)) <==> c == PAD && y == []
    ensures !Padded(2, [PAD]) && !Padded(0, [PAD] + y) && !Padded(1, [PAD] + y)
  {
    assert [PAD] + [] == [PAD] && [PAD, PAD] + [] == [PAD, PAD];
    assert y != [] ==> |[PAD] + y| > 1;
    assert [PAD] + ([c] + y) == [PAD, c] + y;
    assert ([PAD, c] + y)[1] == c && (y != [] ==> |[PAD, c] + y| > 2);
    assert y == [] ==> [PAD, c] + y == [PAD, c];
  }

  /** The padding, from its first character on: whether it is what the state calls for, and nothing more. */
  method ReadPadding(src: Bytes, i: nat, state: nat) returns (ok: bool)
    requires i < |src| && src[i] == PAD && state < 4
    ensures ok <==> Padded(state, Strip(src[i..]))
  {
    hide Strip, Padded;
    StripFirst(src, i);
    PaddingCases(0, Strip(src[i + 1..]));
    if state == 0 || state == 1 { return false; }
    var j := SkipSpaces(src, i + 1);
    StripFirst(src, j);
    if state == 2 {
      assert [PAD] + [] == [PAD];
      if j == |src| { return false; }
      PaddingCases(src[j], Strip(src[j + 1..]));
      if src[j] != PAD { return false; }
      j := SkipSpaces(src, j + 1);
      StripFirst(src, j);
    }
    return j == |src|;
  }

  /** `b64_pton` on a C string, `src` being its characters up to the terminator.  With a target, text is accepted exactly when, white space aside, it is the encoding of some bytes
      that fit, and those bytes are what is written; without one, lost bits are not looked at. */
  method Decode(src: Bytes, target: array?<byte>, room: nat) returns (r: int)
    requires target != null ==> room <= target.Length
    modifies if target == null then {} else {target}
    ensures -1 <= r
    ensures target != null ==> (r >= 0 <==> Fits(src, room))
    ensures target != null && r >= 0 ==> r <= target.Length && Strip(src) == Encode(target[..r])
    ensures target == null ==> (r >= 0 <==> exists n :: WellPadded(src, n)) && (r >= 0 ==> WellPadded(src, r))
  {
    hide Strip, BitsOf, Encode, Letters, Padded, Fits, WellPadded;
    var ok, i, tarindex, state;
    ghost var ds;
    ok, i, tarindex, state, ds := ReadDigits(src, target, room);
    if !ok { return -1; }
    ghost var tail := Strip(src[i..]);
    TailShape(src, i);
    Verdict(src, ds, tail, room);
    var padded := state == 0;
    if i < |src| {
      padded := ReadPadding(src, i, state);
    } else {
      NoPadding(state);
    }
    if !padded { return -1; }
    if i < |src| && target != null && target[tarindex] != 0 { return -1; }
    assert target != null ==> target[..tarindex] == BitsOf(ds).whole;
    assert target == null ==> WellPadded(src, tarindex);
    r := tarindex;
  }

  lemma TailShape(src: Bytes, i: nat)
    requires i <= |src| && (i < |src| ==> src[i] == PAD)
    ensures IsTail(Strip(src[i..])) && (i == |src| ==> Strip(src[i..]) == [])
    ensures i < |src| ==> !Padded(0, Strip(src[i..])) && !Padded(1, Strip(src[i..]))
  {
    StripFirst(src, i);
    if i < |src| {
      var rest := Strip(src[i + 1..]);
      hide Strip;
      assert ([PAD] + rest)[0] == PAD;
    }
  }

  lemma NoPadding(state: nat)
    ensures Padded(state, []) <==> state == 0
  {
  }

  lemma FitsExactly(src: Bytes, ds: Digits, tail: Bytes, room: nat)
    requires Strip(src) == Letters(ds) + tail && IsTail(tail)
    ensures Fits(src, room) <==> Canonical(ds, tail) && Room(|BitsOf(ds).whole|) <= room
    ensures Canonical(ds, tail) ==> Strip(src) == Encode(BitsOf(ds).whole)
  {
    hide Strip, Encode, Letters, BitsOf, Canonical;
    EncodesExactly(ds, tail, BitsOf(ds).whole);
    forall b ensures Strip(src) == Encode(b) <==> Canonical(ds, tail) && b == BitsOf(ds).whole {
      EncodesExactly(ds, tail, b);
    }
  }

  lemma WellPaddedExactly(src: Bytes, ds: Digits, tail: Bytes)
    requires Strip(src) == Letters(ds) + tail && IsTail(tail)
    ensures forall n :: WellPadded(src, n) <==> Padded(BitsOf(ds).state, tail) && n == |BitsOf(ds).whole|
  {
    hide Strip, Letters, BitsOf, Padded;
    forall es, tail' | Strip(src) == Letters(es) + tail' && Padded(BitsOf(es).state, tail') ensures es == ds && tail' == tail {
      PaddedIsTail(BitsOf(es).state, tail');
      SplitUnique(ds, tail, es, tail');
    }
  }

  lemma PartOfState(x: Bits)
    ensures x.state == 0 ==> x.part == 0
  {
  }

  /** What the digits and the padding decide. */
  lemma Verdict(src: Bytes, ds: Digits, tail: Bytes, room: nat)
    requires Strip(src) == Letters(ds) + tail && IsTail(tail)
    ensures Fits(src, room) <==> Canonical(ds, tail) && Room(|BitsOf(ds).whole|) <= room
    ensures Canonical(ds, tail) ==> Strip(src) == Encode(BitsOf(ds).whole)
    ensures Room(|BitsOf(ds).whole|) == Need(BitsOf(ds)) || BitsOf(ds).state == 1
    ensures forall n :: WellPadded(src, n) <==> Padded(BitsOf(ds).state, tail) && n == |BitsOf(ds).whole|
    ensures BitsOf(ds).state == 0 ==> BitsOf(ds).part == 0
  {
    hide Strip, Encode, Letters, BitsOf, Canonical, Fits, WellPadded, Padded;
    FitsExactly(src, ds, tail, room);
    WellPaddedExactly(src, ds, tail);
    NeedIsRoom(ds);
    PartOfState(BitsOf(ds));
  }

  // ----- the encoders -----

  /** `b64_ntop`: the text and a terminator, or -1 when there is no room for both. */
  method EncodeInto(src: Bytes, target: array<byte>, room: nat) returns (r: int)
    requires room <= target.Length
    modifies target
    ensures -1 <= r && (r >= 0 <==> |Encode(src)| < room)
    ensures r >= 0 ==> r == |Encode(src)| && target[..r] == Encode(src) && target[r] == 0
  {
    hide Encode, Quad;
    var datalength, i := 0, 0;
    EncodeNothing();
    assert src[0..] == src && target[..0] == [];
    while i + 2 < |src|
      invariant i <= |src| && datalength <= room
      invariant Encode(src) == target[..datalength] + Encode(src[i..])
    {
      ghost var before := target[..datalength];
      var group := Quad(src[i], src[i + 1], src[i + 2]);
      EncodeAt(src, i);
      QuadLength(src[i], src[i + 1], src[i + 2]);
      assert Encode(src) == before + group + Encode(src[i + 3..]);
      if datalength + 4 > room { return -1; }
      PutFour(target, datalength, group);
      i, datalength := i + 3, datalength + 4;
    }
    if i < |src| {
      var second := if i + 1 < |src| then src[i + 1] else 0;
      var group := Quad(src[i], second, 0);
      QuadLength(src[i], second, 0);
      EncodeEnd(src[i..]);
      if datalength + 4 > room { return -1; }
      PutFour(target, datalength, [group[0], group[1], if i + 1 == |src| then PAD else group[2], PAD]);
      datalength := datalength + 4;
      assert target[..datalength] == Encode(src);
    } else {
      assert src[i..] == [];
      assert target[..datalength] == Encode(src);
    }
    if datalength >= room { return -1; }
    target[datalength] := 0;
    return datalength;
  }

  method PutFour(target: array<byte>, at: nat, group: Bytes)
    requires |group| == 4 && at + 4 <= target.Length
    modifies target
    ensures target[..at + 4] == old(target[..at]) + group
  {
    target[at], target[at + 1], target[at + 2], target[at + 3] := group[0], group[1], group[2], group[3];
  }

  lemma QuadLength(a: byte, b: byte, c: byte)
    ensures |Quad(a, b, c)| == 4
  {
  }

  lemma EncodeAt(src: Bytes, i: nat)
    requires i + 2 < |src|
    ensures Encode(src[i..]) == Quad(src[i], src[i + 1], src[i + 2]) + Encode(src[i + 3..])
  {
    assert src[i..][3..] == src[i + 3..];
  }

  lemma EncodeEnd(rest: Bytes)
    requires 1 <= |rest| <= 2
    ensures var group := Quad(rest[0], if |rest| == 2 then rest[1] else 0, 0);
      Encode(rest) == [group[0], group[1], if |rest| == 1 then PAD else group[2], PAD]
  {
  }

  lemma By64(q: nat, r: nat)
    requires r < 64
    ensures (64 * q + r) / 64 == q && (64 * q + r) % 64 == r
  {
  }

  lemma By4096(q: nat, r: nat)
    requires r < 0x1000
    ensures (0x1000 * q + r) / 0x1000 == q
  {
  }

  lemma By262144(q: nat, r: nat)
    requires r < 0x40000
    ensures (0x40000 * q + r) / 0x40000 == q
  {
  }

  function Word(a: byte, b: byte, c: byte): nat { 0x10000 * a + 0x100 * b + c }

  /** The four digits of a 24-bit word. */
  lemma WordDigits(a: byte, b: byte, c: byte)
    ensures Word(a, b, c) / 0x40000 % 64 == a / 4
    ensures Word(a, b, c) / 0x1000 % 64 == a % 4 * 16 + b / 16
    ensures Word(a, b, c) / 0x40 % 64 == b % 16 * 4 + c / 64
    ensures Word(a, b, c) % 64 == c % 64
  {
    SplitByte(a);
    SplitByte(b);
    SplitByte(c);
    By262144(a / 4, 0x10000 * (a % 4) + 0x100 * b + c);
    By64(0, a / 4);
    By4096(16 * a + b / 16, 0x100 * (b % 16) + c);
    By64(a / 4, a % 4 * 16 + b / 16);
    By64(1024 * a + 4 * b + c / 64, c % 64);
    By64(16 * a + b / 16, b % 16 * 4 + c / 64);
  }

  /** The four characters of the group at `i`, cut out of a 24-bit word. */
  function WordGroup(input: Bytes, i: nat): Bytes
    requires i < |input|
  {
    var b := if i + 1 < |input| then input[i + 1] else 0;
    var c := if i + 2 < |input| then input[i + 2] else 0;
    var value := Word(input[i], b, c);
    [Letter(value / 0x40000 % 64),
     Letter(value / 0x1000 % 64),
     if i + 1 < |input| then Letter(value / 0x40 % 64) else PAD,
     if i + 2 < |input| then Letter(value % 64) else PAD]
  }

  lemma WordGroupEncodes(input: Bytes, i: nat)
    requires i < |input|
    ensures Encode(input[i..]) == WordGroup(input, i) + if i + 3 < |input| then Encode(input[i + 3..]) else []
  {
    var b := if i + 1 < |input| then input[i + 1] else 0;
    var c := if i + 2 < |input| then input[i + 2] else 0;
    WordDigits(input[i], b, c);
    EncodeNothing();
    hide Encode, Word;
    if i + 2 < |input| {
      EncodeAt(input, i);
      if i + 3 == |input| { assert input[i + 3..] == []; }
    } else {
      EncodeEnd(input[i..]);
    }
  }

  /** `base64Encode` of softhsm2-export.cpp, which shifts the digits out of a 24-bit word. */
  method EncodeString(input: Bytes) returns (output: Bytes)
    ensures output == Encode(input)
  {
    hide Encode, WordGroup;
    EncodeNothing();
    assert input[0..] == input;
    output := [];
    var i := 0;
    while i < |input|
      invariant 0 <= i && Encode(input) == output + if i < |input| then Encode(input[i..]) else []
    {
      WordGroupEncodes(input, i);
      output := output + WordGroup(input, i);
      i := i + 3;
    }
  }

  // ----- lines -----

  const LINE: nat := 64

  /** Lines of at most 64 characters, each ended. */
  function Wrapped(text: Bytes): Bytes
    decreases |text|
  {
    if text == [] then []
    else if |text| <= LINE then text + [NEWLINE]
    else text[..LINE] + [NEWLINE] + Wrapped(text[LINE..])
  }

  lemma WrapNothing()
    ensures Wrapped([]) == []
  {
  }

  lemma WrapStep(rest: Bytes)
    requires rest != []
    ensures |rest| <= LINE ==> Wrapped(rest) == rest + [NEWLINE]
    ensures |rest| > LINE ==> Wrapped(rest) == rest[..LINE] + [NEWLINE] + Wrapped(rest[LINE..])
  {
  }

  /** The lines that `writeKey` puts between its markers. */
  method WriteLines(text: Bytes) returns (output: Bytes)
    ensures output == Wrapped(text)
  {
    hide Wrapped;
    output := [];
    var i := 0;
    WrapNothing();
    assert text[0..] == text;
    while i < |text|
      invariant 0 <= i && Wrapped(text) == output + if i < |text| then Wrapped(text[i..]) else []
    {
      var n := if LINE < |text| - i then LINE else |text| - i;
      var rest := text[i..];
      assert text[i..i + n] == rest[..n];
      WrapStep(rest);
      if n < |rest| { assert rest[LINE..] == text[i + LINE..]; } else { assert rest[..n] == rest; }
      output := output + text[i..i + n] + [NEWLINE];
      i := i + LINE;
    }
  }

  predicate SpaceFree(t: Bytes) { forall c :: c in t ==> !IsSpace(c) }

  lemma {:induction false} StripSpaceFree(t: Bytes)
    requires SpaceFree(t)
    ensures Strip(t) == t
  {
    StripNothing();
    hide Strip;
    if t != [] {
      var front, last := t[..|t| - 1], t[|t| - 1];
      assert last in t && forall c :: c in front ==> c in t;
      StripSpaceFree(front);
      StripSnoc(front, last);
      assert t == front + [last];
    }
  }

  lemma StripLine(line: Bytes, rest: Bytes)
    requires SpaceFree(line)
    ensures Strip(line + [NEWLINE] + rest) == line + Strip(rest)
  {
    hide Strip, SpaceFree;
    StripSpaceFree(line);
    StripSnoc(line, NEWLINE);
    assert Kept(NEWLINE) == [] && line + [] == line;
    StripAppend(line + [NEWLINE], rest);
  }

  lemma {:induction false} StripWrapped(text: Bytes)
    requires SpaceFree(text)
    ensures Strip(Wrapped(text)) == text
    decreases |text|
  {
    hide Strip, Wrapped;
    StripNothing();
    WrapNothing();
    if text != [] {
      WrapStep(text);
      if |text| <= LINE {
        StripLine(text, []);
        assert text + [NEWLINE] + [] == text + [NEWLINE] && text + [] == text;
      } else {
        StripLine(text[..LINE], Wrapped(text[LINE..]));
        StripWrapped(text[LINE..]);
        assert text == text[..LINE] + text[LINE..];
      }
    }
  }

  lemma EncodeSpaceFree(b: Bytes)
    ensures SpaceFree(Encode(b))
  {
    var ds, tail := EncodeCanonical(b);
    forall c | c in Letters(ds) ensures !IsSpace(c) {
      var i :| 0 <= i < |ds| && Letters(ds)[i] == c;
      Alphabet(ds[i], c);
    }
    hide Encode, Letters, BitsOf;
  }

  /** The text of some bytes decodes to them in a target with a byte to spare, and so does the text in lines. */
  lemma RoundTrip(b: Bytes, room: nat)
    requires room >= |b| + 1
    ensures Fits(Encode(b), room) && Strip(Encode(b)) == Encode(b)
    ensures Fits(Wrapped(Encode(b)), room) && Strip(Wrapped(Encode(b))) == Encode(b)
    ensures forall c :: Encode(c) == Encode(b) ==> c == b
  {
    hide Encode, Strip, Wrapped;
    EncodeSpaceFree(b);
    StripSpaceFree(Encode(b));
    StripWrapped(Encode(b));
    var ds, tail := EncodeCanonical(b);
    PaddedIsTail(BitsOf(ds).state, tail);
    forall c | Encode(c) == Encode(b) ensures c == b { EncodesExactly(ds, tail, c); }
  }

  // ----- the text, character by character -----

  /** The alphabet of section 4 of RFC 4648. */
  lemma AlphabetIs(v: digit)
    ensures Letter(v) ==
      if v < 26 then 'A' as int + v
      else if v < 52 then 'a' as int + (v - 26)
      else if v < 62 then '0' as int + (v - 52)
      else if v == 62 then '+' as int else '/' as int
  {
  }

  /** Three bytes as one number. */
  function Group(a: int, b: int, c: int): int { 65536 * a + 256 * b + c }

  /** Four characters of the alphabet that spell a 24-bit number, most significant first. */
  predicate Spells(t: Bytes, n: int)
    requires |t| == 4
  {
    && Value(t[0]).Some? && Value(t[1]).Some? && Value(t[2]).Some? && Value(t[3]).Some?
    && n == 262144 * Value(t[0]).value + 4096 * Value(t[1]).value + 64 * Value(t[2]).value + Value(t[3]).value
  }

  lemma QuadSpells(a: byte, b: byte, c: byte)
    ensures Spells(Quad(a, b, c), Group(a, b, c))
  {
    Alphabet(a / 4, 0);
    Alphabet(a % 4 * 16 + b / 16, 0);
    Alphabet(b % 16 * 4 + c / 64, 0);
    Alphabet(c % 64, 0);
    hide Value, Letter;
  }

  /** Four characters for every three bytes begun. */
  lemma {:induction false} EncodedLength(b: Bytes)
    ensures |Encode(b)| == 4 * ((|b| + 2) / 3)
  {
    if |b| >= 3 { EncodedLength(b[3..]); }
  }

  /** Every three bytes are spelled by their four characters; what is left over is spelled with zeros for the missing
      bytes, of which whole characters are replaced by `=`. */
  lemma {:induction false} EncodeSpells(b: Bytes, k: nat)
    requires 3 * k < |b|
    ensures 4 * k + 4 <= |Encode(b)|
    ensures var t, left := Encode(b)[4 * k..4 * k + 4], |b| - 3 * k;
      && (left >= 3 ==> Spells(t, Group(b[3 * k], b[3 * k + 1], b[3 * k + 2])))
      && (left == 2 ==> t[3] == '=' as int && Spells(t[..3] + ['A' as int], Group(b[3 * k], b[3 * k + 1], 0)))
      && (left == 1 ==> t[2] == t[3] == '=' as int && Spells(t[..2] + ['A' as int, 'A' as int], Group(b[3 * k], 0, 0)))
  {
    hide Spells;
    EncodedLength(b);
    if k > 0 {
      EncodeSpells(b[3..], k - 1);
      hide Quad;
      assert Encode(b)[4 * k..4 * k + 4] == Encode(b[3..])[4 * (k - 1)..4 * (k - 1) + 4];
    } else if |b| >= 3 {
      QuadSpells(b[0], b[1], b[2]);
      assert Encode(b)[0..4] == Quad(b[0], b[1], b[2]);
    } else if |b| == 2 {
      QuadSpells(b[0], b[1], 0);
      assert Encode(b)[0..4] == Encode(b) && Encode(b)[..3] + ['A' as int] == Quad(b[0], b[1], 0);
    } else {
      QuadSpells(b[0], 0, 0);
      assert Encode(b)[0..4] == Encode(b) && Encode(b)[..2] + ['A' as int, 'A' as int] == Quad(b[0], 0, 0);
    }
  }

  /** Every 65th character ends a line, and so does the last; the others are the text, in order. */
  lemma {:induction false} WrappedAt(text: Bytes, p: nat)
    requires p < |Wrapped(text)|
    ensures |Wrapped(text)| == |text| + (|text| + 63) / 64
    ensures p - p / 65 <= |text|
    ensures Wrapped(text)[p] == if p % 65 == 64 || p + 1 == |Wrapped(text)| then '\n' as int
                                else if p - p / 65 < |text| then text[p - p / 65] else 0
    decreases |text|
  {
    WrappedLength(text);
    hide Wrapped;
    WrapStep(text);
    if |text| > 64 && p >= 65 { WrappedAt(text[64..], p - 65); }
  }

  lemma {:induction false} WrappedLength(text: Bytes)
    ensures |Wrapped(text)| == |text| + (|text| + 63) / 64
    decreases |text|
  {
    if |text| > 64 { WrappedLength(text[64..]); }
  }
}
