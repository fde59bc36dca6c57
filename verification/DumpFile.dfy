/** The parser of stored attribute maps: `readBool`, `readULong`, `readBytes` and `readMap` of
    softhsm2-dump-file.cpp. */
module DumpFile {
  import opened Octets
  import opened Wrappers

  const BOOLEAN_ATTR: nat := 1
  const ULONG_ATTR: nat := 2
  const BYTES_ATTR: nat := 3
  const MECHSET_ATTR: nat := 5

  const UINT64: nat := 0x1_0000_0000_0000_0000

  type word = x: int | 0 <= x < 0x1_0000_0000_0000_0000

  // ----- the format -----

  /** An attribute as it lies in a file, with the mechanisms of a set in their stored order. */
  datatype Raw =
    | Boolean(typ: word, on: byte)
    | Number(typ: word, n: word)
    | Text(typ: word, bytes: Bytes)
    | MechList(typ: word, mechs: seq<word>)
  {
    predicate Fits() {
      && (Text? ==> |bytes| < UINT64)
      && (MechList? ==> |mechs| < UINT64)
    }

    function Kind(): word {
      if Boolean? then BOOLEAN_ATTR else if Number? then ULONG_ATTR else if Text? then BYTES_ATTR else MECHSET_ATTR
    }
  }

  function U64(n: word): (b: Bytes)
    ensures |b| == 8
  {
    BigBytes(n, 8)
  }

  function U64s(ns: seq<word>): (b: Bytes)
    ensures |b| == 8 * |ns|
  {
    if ns == [] then [] else U64(ns[0]) + U64s(ns[1..])
  }

  function Payload(r: Raw): Bytes
    requires r.Fits()
  {
    match r
    case Boolean(_, on) => [on]
    case Number(_, n) => U64(n)
    case Text(_, bytes) => U64(|bytes|) + bytes
    case MechList(_, mechs) => U64(|mechs|) + U64s(mechs)
  }

  function SerialOne(r: Raw): (b: Bytes)
    requires r.Fits()
    ensures |b| >= 16
  {
    U64(r.typ) + U64(r.Kind()) + Payload(r)
  }

  predicate AllFit(rs: seq<Raw>) { forall r :: r in rs ==> r.Fits() }

  /** A map on disk: its attributes one after the other. */
  function Serial(rs: seq<Raw>): Bytes
    requires AllFit(rs)
  {
    if rs == [] then [] else SerialOne(rs[0]) + Serial(rs[1..])
  }

  // ----- reading the format -----

  function Word(b: Bytes): word
    requires |b| == 8
  {
    BigEndianBound(b);
    Power256Of8();
    BigEndian(b)
  }

  function Words(b: Bytes): seq<word>
    requires |b| % 8 == 0
  {
    if b == [] then [] else [Word(b[..8])] + Words(b[8..])
  }

  /** The value of an attribute of a given kind, and the bytes after it. */
  function ParseBody(typ: word, kind: word, body: Bytes): Option<(Raw, Bytes)> {
    if kind == BOOLEAN_ATTR then
      if |body| < 1 then None else Some((Boolean(typ, body[0]), body[1..]))
    else if |body| < 8 then None
    else
      var size, rest := Word(body[..8]), body[8..];
      if kind == ULONG_ATTR then Some((Number(typ, size), rest))
      else if kind == BYTES_ATTR then
        if |rest| < size then None else Some((Text(typ, rest[..size]), rest[size..]))
      else if kind == MECHSET_ATTR then
        if |rest| < 8 * size then None
        else
          Eights(size);
          Some((MechList(typ, Words(rest[..8 * size])), rest[8 * size..]))
      else None
  }

  lemma Eights(n: nat)
    ensures 8 * n % 8 == 0
  {
  }

  /** The first attribute of some bytes, and the bytes after it. */
  function ParseOne(w: Bytes): Option<(Raw, Bytes)> {
    if |w| < 16 then None else ParseBody(Word(w[..8]), Word(w[8..16]), w[16..])
  }

  function Parse(w: Bytes): Option<seq<Raw>>
    decreases |w|
  {
    if w == [] then Some([])
    else
      match ParseOne(w)
      case None => None
      case Some((r, rest)) =>
        ParseOneShrinks(w);
        match Parse(rest)
        case None => None
        case Some(rs) => Some([r] + rs)
  }

  lemma ParseOneShrinks(w: Bytes)
    requires ParseOne(w).Some?
    ensures |ParseOne(w).value.1| < |w|
  {
  }

  lemma U64Word(n: word)
    ensures Word(U64(n)) == n
  {
    Power256Of8();
    BigValue(n, 8);
  }

  lemma WordU64(b: Bytes)
    requires |b| == 8
    ensures U64(Word(b)) == b
  {
    BigRoundTrip(b);
  }

  lemma {:induction false} WordsU64s(ns: seq<word>)
    ensures Words(U64s(ns)) == ns
  {
    if ns != [] {
      U64Word(ns[0]);
      WordsU64s(ns[1..]);
      hide U64, Word;
      assert U64s(ns)[..8] == U64(ns[0]) && U64s(ns)[8..] == U64s(ns[1..]);
    }
  }

  lemma {:induction false} U64sWords(b: Bytes)
    requires |b| % 8 == 0
    ensures U64s(Words(b)) == b
  {
    if b != [] {
      WordU64(b[..8]);
      U64sWords(b[8..]);
      hide U64, Word;
      assert Words(b)[1..] == Words(b[8..]) && b == b[..8] + b[8..];
    }
  }

  lemma {:induction false} WordsCount(b: Bytes)
    requires |b| % 8 == 0
    ensures 8 * |Words(b)| == |b|
  {
    if b != [] {
      WordsCount(b[8..]);
      hide Word;
    }
  }

  /** The header of an attribute, cut off the front. */
  lemma Header(typ: word, kind: word, body: Bytes)
    ensures var w := U64(typ) + U64(kind) + body;
      |w| >= 16 && Word(w[..8]) == typ && Word(w[8..16]) == kind && w[16..] == body
  {
    U64Word(typ);
    U64Word(kind);
    hide U64, Word;
    var w := U64(typ) + U64(kind) + body;
    assert w[..8] == U64(typ) && w[8..16] == U64(kind);
  }

  lemma Sized(size: word, tail: Bytes)
    ensures var body := U64(size) + tail; |body| >= 8 && Word(body[..8]) == size && body[8..] == tail
  {
    U64Word(size);
    hide U64, Word;
    assert (U64(size) + tail)[..8] == U64(size);
  }

  lemma BodySerial(r: Raw, rest: Bytes)
    requires r.Fits()
    ensures ParseBody(r.typ, r.Kind(), Payload(r) + rest) == Some((r, rest))
  {
    match r
    case Boolean(_, on) =>
      assert ([on] + rest)[1..] == rest;
    case Number(_, n) =>
      Sized(n, rest);
      hide U64, Word, Words, U64s;
    case Text(_, bytes) =>
      TextSerial(r.typ, bytes, rest);
    case MechList(_, mechs) =>
      MechsSerial(r.typ, mechs, rest);
  }

  lemma TextSerial(typ: word, bytes: Bytes, rest: Bytes)
    requires |bytes| < UINT64
    ensures ParseBody(typ, BYTES_ATTR, U64(|bytes|) + bytes + rest) == Some((Text(typ, bytes), rest))
  {
    hide U64, Word, Words, U64s;
    Sized(|bytes|, bytes + rest);
    assert U64(|bytes|) + bytes + rest == U64(|bytes|) + (bytes + rest);
    assert (bytes + rest)[..|bytes|] == bytes && (bytes + rest)[|bytes|..] == rest;
  }

  lemma Cut(b: Bytes, rest: Bytes)
    ensures (b + rest)[..|b|] == b && (b + rest)[|b|..] == rest
  {
  }

  lemma Regroup(a: Bytes, b: Bytes, c: Bytes)
    ensures a + b + c == a + (b + c)
  {
  }

  lemma MechsBody(typ: word, body: Bytes, b: Bytes, rest: Bytes)
    requires |body| >= 8 && body[8..] == b + rest && |b| == 8 * Word(body[..8])
    ensures |b| % 8 == 0 && ParseBody(typ, MECHSET_ATTR, body) == Some((MechList(typ, Words(b)), rest))
  {
    Cut(b, rest);
    hide Word, Words;
  }

  lemma MechsSerial(typ: word, mechs: seq<word>, rest: Bytes)
    requires |mechs| < UINT64
    ensures ParseBody(typ, MECHSET_ATTR, U64(|mechs|) + U64s(mechs) + rest) == Some((MechList(typ, mechs), rest))
  {
    hide U64, Word, Words, U64s, ParseBody;
    var b := U64s(mechs);
    Sized(|mechs|, b + rest);
    WordsU64s(mechs);
    Regroup(U64(|mechs|), b, rest);
    MechsBody(typ, U64(|mechs|) + (b + rest), b, rest);
  }

  /** A serialised attribute parses to itself, whatever follows. */
  lemma ParseOneSerial(r: Raw, rest: Bytes)
    requires r.Fits()
    ensures ParseOne(SerialOne(r) + rest) == Some((r, rest))
  {
    hide U64, Word, ParseBody, Payload;
    BodySerial(r, rest);
    Header(r.typ, r.Kind(), Payload(r) + rest);
    assert SerialOne(r) + rest == U64(r.typ) + U64(r.Kind()) + (Payload(r) + rest);
  }

  lemma SerialText(typ: word, body: Bytes)
    requires |body| >= 8 && |body| - 8 >= Word(body[..8])
    ensures var size, tail := Word(body[..8]), body[8..]; body == Payload(Text(typ, tail[..size])) + tail[size..]
  {
    hide U64, Word;
    WordU64(body[..8]);
    var size: nat, tail := Word(body[..8]), body[8..];
    Halves(body, 8);
    Halves(tail, size);
    Regroup(body[..8], tail[..size], tail[size..]);
  }

  lemma Halves(b: Bytes, n: nat)
    requires n <= |b|
    ensures b == b[..n] + b[n..]
  {
  }

  lemma SerialMechs(typ: word, body: Bytes)
    requires |body| >= 8 && |body| - 8 >= 8 * Word(body[..8])
    ensures var size, tail := Word(body[..8]), body[8..];
      (Eights(size);
       |Words(tail[..8 * size])| == size && body == Payload(MechList(typ, Words(tail[..8 * size]))) + tail[8 * size..])
  {
    hide U64, Word, Words, U64s, Payload;
    var size: nat, tail := Word(body[..8]), body[8..];
    var list, rest := tail[..8 * size], tail[8 * size..];
    Halves(body, 8);
    Halves(tail, 8 * size);
    MechsPayload(typ, body[..8], list);
    Regroup(body[..8], list, rest);
  }

  lemma SerialNumber(typ: word, body: Bytes)
    requires |body| >= 8
    ensures body == Payload(Number(typ, Word(body[..8]))) + body[8..]
  {
    WordU64(body[..8]);
    hide U64, Word;
    assert body == body[..8] + body[8..];
  }

  lemma SerialBody(typ: word, kind: word, body: Bytes)
    requires ParseBody(typ, kind, body).Some?
    ensures var (r, rest) := ParseBody(typ, kind, body).value;
      r.Fits() && r.typ == typ && r.Kind() == kind && body == Payload(r) + rest
  {
    if kind == BOOLEAN_ATTR {
      assert body == [body[0]] + body[1..];
    } else {
      hide U64, Word, Words, U64s, Payload;
      if kind == ULONG_ATTR {
        SerialNumber(typ, body);
      } else if kind == BYTES_ATTR {
        SerialText(typ, body);
      } else {
        SerialMechs(typ, body);
      }
    }
  }

  /** What parses as an attribute is that attribute's serialisation. */
  lemma SerialParseOne(w: Bytes)
    requires ParseOne(w).Some?
    ensures var (r, rest) := ParseOne(w).value; r.Fits() && w == SerialOne(r) + rest
  {
    hide U64, Word, ParseBody, Payload;
    WordU64(w[..8]);
    WordU64(w[8..16]);
    SerialBody(Word(w[..8]), Word(w[8..16]), w[16..]);
    assert w == w[..8] + w[8..16] + w[16..];
  }

  /** Parsing undoes serialising ... */
  lemma {:induction false} ParseSerial(rs: seq<Raw>)
    requires AllFit(rs)
    ensures Parse(Serial(rs)) == Some(rs)
  {
    hide SerialOne, ParseOne, Raw.Fits;
    if rs != [] {
      ParseOneSerial(rs[0], Serial(rs[1..]));
      ParseSerial(rs[1..]);
      assert rs == [rs[0]] + rs[1..];
    }
  }

  /** ... and serialising undoes parsing, byte for byte. */
  lemma {:induction false} SerialParse(w: Bytes)
    requires Parse(w).Some?
    ensures AllFit(Parse(w).value) && Serial(Parse(w).value) == w
    decreases |w|
  {
    if w != [] {
      var (r, rest) := ParseOne(w).value;
      ParseOneShrinks(w);
      SerialParseOne(w);
      SerialParse(rest);
      hide SerialOne, ParseOne;
      var rs := Parse(rest).value;
      assert Parse(w).value == [r] + rs && ([r] + rs)[1..] == rs;
    }
  }

  /** Some bytes parse exactly when they are the serialisation of a map, and then of only one. */
  lemma ParsesExactly(w: Bytes)
    ensures Parse(w).Some? <==> exists rs :: AllFit(rs) && Serial(rs) == w
    ensures forall rs :: AllFit(rs) && Serial(rs) == w ==> Parse(w) == Some(rs)
  {
    hide Parse, Serial, AllFit;
    if Parse(w).Some? { SerialParse(w); }
    forall rs | AllFit(rs) && Serial(rs) == w ensures Parse(w) == Some(rs) { ParseSerial(rs); }
  }

  // ----- the stream -----

  /** What the tool keeps of an attribute: a mechanism list becomes a set. */
  datatype Attribute =
    | BoolValue(typ: word, on: byte)
    | ULongValue(typ: word, n: word)
    | BytesValue(typ: word, bytes: Bytes)
    | MechSet(typ: word, mechs: set<word>)

  function SetOf(ns: seq<word>): set<word> { set n | n in ns }

  function Kept(r: Raw): Attribute {
    match r
    case Boolean(t, on) => BoolValue(t, on)
    case Number(t, n) => ULongValue(t, n)
    case Text(t, bytes) => BytesValue(t, bytes)
    case MechList(t, mechs) => MechSet(t, SetOf(mechs))
  }

  function KeptAll(rs: seq<Raw>): (r: seq<Attribute>)
    ensures |r| == |rs|
  {
    seq(|rs|, i requires 0 <= i < |rs| => Kept(rs[i]))
  }

  class Stream {
    const bytes: Bytes
    var pos: nat

    constructor (bytes: Bytes)
      ensures this.bytes == bytes && pos == 0
    {
      this.bytes := bytes;
      pos := 0;
    }

    ghost predicate Valid()
      reads this
    {
      pos <= |bytes| < UINT64
    }

    /** `fread`, with the position put back when it falls short. */
    method ReadBytes(n: nat) returns (ok: bool, value: Bytes)
      requires Valid()
      modifies this
      ensures Valid() && (ok <==> old(pos) + n <= |bytes|)
      ensures pos == if ok then old(pos) + n else old(pos)
      ensures ok ==> value == bytes[old(pos)..pos]
    {
      var saved := pos;
      if |bytes| - pos < n {
        pos := |bytes|;
        pos := saved;
        return false, [];
      }
      value := bytes[pos..pos + n];
      pos := pos + n;
      return true, value;
    }

    method ReadBool() returns (ok: bool, value: byte)
      requires Valid()
      modifies this
      ensures Valid() && (ok <==> old(pos) + 1 <= |bytes|)
      ensures pos == if ok then old(pos) + 1 else old(pos)
      ensures ok ==> value == bytes[old(pos)]
    {
      var v;
      ok, v := ReadBytes(1);
      value := if ok then v[0] else 0;
    }

    method ReadULong() returns (ok: bool, value: word)
      requires Valid()
      modifies this
      ensures Valid() && (ok <==> old(pos) + 8 <= |bytes|)
      ensures pos == if ok then old(pos) + 8 else old(pos)
      ensures ok ==> value == Word(bytes[old(pos)..pos])
    {
      var v;
      ok, v := ReadBytes(8);
      value := 0;
      if !ok { return; }
      Power256Of8();
      for i := 0 to 8
        invariant value == BigEndian(v[..i])
        modifies {}
      {
        assert v[..i + 1][..i] == v[..i];
        BigEndianBound(v[..i + 1]);
        Monotone(i + 1, 8);
        value := value * 256 % UINT64 + v[i];
      }
      assert v[..8] == v;
    }

    /** The mechanisms of a set, one by one: with an absurd count this runs into the end of the stream. */
    method ReadMechs(size: word) returns (ok: bool, mechs: set<word>, ghost list: seq<word>)
      requires Valid()
      modifies this
      ensures Valid() && old(pos) <= pos
      ensures ok <==> old(pos) + 8 * size <= |bytes|
      ensures ok ==> pos == old(pos) + 8 * size && list == Words(bytes[old(pos)..pos]) && mechs == SetOf(list)
    {
      mechs, list := {}, [];
      ghost var start := pos;
      for i := 0 to size
        invariant Valid() && pos == start + 8 * i
        invariant |bytes[start..pos]| % 8 == 0 && list == Words(bytes[start..pos]) && mechs == SetOf(list)
      {
        var read, mech;
        ghost var before := pos;
        read, mech := ReadULong();
        if !read { return false, mechs, list; }
        WordsSnoc(bytes[start..before], bytes[before..pos]);
        Joint(bytes, start, before, pos);
        list := list + [mech];
        mechs := mechs + {mech};
      }
      ok := true;
    }

    ghost predicate Fails(typ: word, kind: word, start: nat, len: nat)
      reads this
    {
      start + len > |bytes| || ParseBody(typ, kind, bytes[start..start + len]).None?
    }

    ghost predicate Reads(raw: Raw, attr: Attribute, start: nat, len: nat, left: nat)
      reads this
    {
      && start <= pos <= |bytes| && raw.Fits() && attr == Kept(raw)
      && bytes[start..pos] == Payload(raw) && left == len - (pos - start)
    }

    method ReadBoolValue(typ: word, len: nat) returns (ok: bool, attr: Attribute, left: nat, ghost raw: Raw)
      requires Valid()
      modifies this
      ensures Valid() && old(pos) <= pos
      ensures ok ==> raw.typ == typ && raw.Kind() == BOOLEAN_ATTR && Reads(raw, attr, old(pos), len, left)
      ensures !ok ==> Fails(typ, BOOLEAN_ATTR, old(pos), len)
    {
      attr, left, raw := BoolValue(typ, 0), len, Boolean(typ, 0);
      if len < 1 { return false, attr, left, raw; }
      left := len - 1;
      var on;
      ok, on := ReadBool();
      attr, raw := BoolValue(typ, on), Boolean(typ, on);
    }

    method ReadULongValue(typ: word, len: nat) returns (ok: bool, attr: Attribute, left: nat, ghost raw: Raw)
      requires Valid()
      modifies this
      ensures Valid() && old(pos) <= pos
      ensures ok ==> raw.typ == typ && raw.Kind() == ULONG_ATTR && Reads(raw, attr, old(pos), len, left)
      ensures !ok ==> Fails(typ, ULONG_ATTR, old(pos), len)
    {
      attr, left, raw := ULongValue(typ, 0), len, Number(typ, 0);
      if len < 8 { return false, attr, left, raw; }
      var n;
      ok, n := ReadULong();
      if !ok { return; }
      WordU64(bytes[old(pos)..pos]);
      attr, left, raw := ULongValue(typ, n), len - 8, Number(typ, n);
    }

    method ReadBytesValue(typ: word, len: nat) returns (ok: bool, attr: Attribute, left: nat, ghost raw: Raw)
      requires Valid()
      modifies this
      ensures Valid() && old(pos) <= pos
      ensures ok ==> raw.typ == typ && raw.Kind() == BYTES_ATTR && Reads(raw, attr, old(pos), len, left)
      ensures !ok ==> Fails(typ, BYTES_ATTR, old(pos), len)
    {
      hide Word, U64;
      attr, left, raw := BytesValue(typ, []), len, Text(typ, []);
      ghost var start := pos;
      if len < 8 { return false, attr, left, raw; }
      var size;
      ok, size := ReadULong();
      if !ok { return; }
      left := len - 8;
      SizeAt(start, len);
      if left < size { return false, attr, left, raw; }
      var value;
      ok, value := ReadBytes(size);
      if !ok { return; }
      WordU64(bytes[start..start + 8]);
      Joint(bytes, start, start + 8, pos);
      attr, left, raw := BytesValue(typ, value), left - size, Text(typ, value);
    }

    lemma SizeAt(start: nat, len: nat)
      requires start + 8 <= |bytes| && len >= 8
      ensures start + len <= |bytes| ==>
        var body := bytes[start..start + len]; body[..8] == bytes[start..start + 8] && |body[8..]| == len - 8
    {
    }

    /** The check of the count is made modulo 2^64; a count that only passes it by wrapping round runs into the end of
        the stream, which is shorter than that. */
    method ReadMechSetValue(typ: word, len: nat) returns (ok: bool, attr: Attribute, left: nat, ghost raw: Raw)
      requires Valid() && len < UINT64
      modifies this
      ensures Valid() && old(pos) <= pos
      ensures ok ==> raw.typ == typ && raw.Kind() == MECHSET_ATTR && Reads(raw, attr, old(pos), len, left)
      ensures !ok ==> Fails(typ, MECHSET_ATTR, old(pos), len)
    {
      hide Word, Words, U64s;
      attr, left, raw := MechSet(typ, {}), len, MechList(typ, []);
      ghost var start := pos;
      if len < 8 { return false, attr, left, raw; }
      var size;
      ok, size := ReadULong();
      if !ok { return; }
      left := len - 8;
      SizeAt(start, len);
      if left < size * 8 % UINT64 {
        WrapsDown(size);
        return false, attr, left, raw;
      }
      var mechs;
      ghost var list;
      ok, mechs, list := ReadMechs(size);
      if !ok { return; }
      assert size * 8 % UINT64 == size * 8;
      MechsPayload(typ, bytes[start..start + 8], bytes[start + 8..pos]);
      Joint(bytes, start, start + 8, pos);
      attr, left, raw := MechSet(typ, mechs), left - size * 8, MechList(typ, list);
    }

    /** One attribute.  On failure the position is the caller's to restore. */
    method ReadAttribute(len: nat) returns (ok: bool, attr: Attribute, left: nat, ghost raw: Raw)
      requires Valid() && len < UINT64
      modifies this
      ensures Valid() && old(pos) <= pos
      ensures ok ==>
        raw.Fits() && attr == Kept(raw) && bytes[old(pos)..pos] == SerialOne(raw) && left == len - (pos - old(pos))
      ensures !ok ==> old(pos) + len > |bytes| || ParseOne(bytes[old(pos)..old(pos) + len]).None?
    {
      hide Word, U64, ParseBody, Payload, Kept, Raw.Fits;
      attr, left, raw := BoolValue(0, 0), len, Boolean(0, 0);
      ghost var start := pos;
      if len < 8 { return false, attr, left, raw; }
      var typ, kind;
      ok, typ := ReadULong();
      if !ok { return; }
      if len - 8 < 8 { return false, attr, left, raw; }
      ok, kind := ReadULong();
      if !ok { return; }
      left := len - 16;
      HeaderAt(start, len);
      if kind == BOOLEAN_ATTR {
        ok, attr, left, raw := ReadBoolValue(typ, left);
      } else if kind == ULONG_ATTR {
        ok, attr, left, raw := ReadULongValue(typ, left);
      } else if kind == BYTES_ATTR {
        ok, attr, left, raw := ReadBytesValue(typ, left);
      } else if kind == MECHSET_ATTR {
        ok, attr, left, raw := ReadMechSetValue(typ, left);
      } else {
        UnknownKind(typ, kind, if start + len <= |bytes| then bytes[start + 16..start + len] else []);
        return false, attr, left, raw;
      }
      if ok {
        Joint(bytes, start, start + 16, pos);
        Joint(bytes, start, start + 8, start + 16);
      }
    }

    /** `readMap`: it succeeds exactly when the next `len` bytes are a serialised map, consumes exactly those and adds
        its attributes; otherwise the position is where it was. */
    method ReadMap(len: nat, before: seq<Attribute>) returns (ok: bool, value: seq<Attribute>)
      requires Valid() && len < UINT64
      modifies this
      ensures Valid()
      ensures ok <==> old(pos) + len <= |bytes| && Parse(bytes[old(pos)..old(pos) + len]).Some?
      ensures pos == if ok then old(pos) + len else old(pos)
      ensures ok ==> value == before + KeptAll(Parse(bytes[old(pos)..pos]).value)
    {
      hide Serial, SerialOne, ParseOne, Parse, KeptAll, AllFit, Raw.Fits;
      var saved := pos;
      var left: nat := len;
      value := before;
      ghost var raws: seq<Raw> := [];
      NothingSerial();
      assert bytes[saved..pos] == [];
      while left != 0
        invariant Valid() && saved <= pos && left <= len && pos - saved == len - left
        invariant AllFit(raws) && Serial(raws) == bytes[saved..pos] && value == before + KeptAll(raws)
        decreases left
      {
        ghost var at := pos;
        var read, attr, rest;
        ghost var raw;
        read, attr, rest, raw := ReadAttribute(left);
        if !read {
          pos := saved;
          if saved + len <= |bytes| {
            ParseStops(raws, bytes[at..saved + len]);
            Joint(bytes, saved, at, saved + len);
          }
          return false, value;
        }
        SerialSnoc(raws, raw);
        Joint(bytes, saved, at, pos);
        SerialOneLength(raw);
        raws := raws + [raw];
        value := value + [attr];
        left := rest;
      }
      ParseSerial(raws);
      ok := true;
    }

    lemma HeaderAt(start: nat, len: nat)
      requires start + 16 <= |bytes| && len >= 16
      ensures U64(Word(bytes[start..start + 8])) == bytes[start..start + 8]
      ensures U64(Word(bytes[start + 8..start + 16])) == bytes[start + 8..start + 16]
      ensures start + len <= |bytes| ==>
        var w := bytes[start..start + len];
        w[..8] == bytes[start..start + 8] && w[8..16] == bytes[start + 8..start + 16] && w[16..] == bytes[start + 16..start + len]
    {
      WordU64(bytes[start..start + 8]);
      WordU64(bytes[start + 8..start + 16]);
      hide Word, U64;
      if start + len <= |bytes| {
        Window(bytes, start, len, 0, 8);
        Window(bytes, start, len, 8, 16);
        Window(bytes, start, len, 16, len);
      }
    }
  }

  lemma Joint(b: Bytes, i: nat, j: nat, k: nat)
    requires i <= j <= k <= |b|
    ensures b[i..k] == b[i..j] + b[j..k]
  {
  }

  lemma Window(b: Bytes, start: nat, len: nat, i: nat, j: nat)
    requires start + len <= |b| && i <= j <= len
    ensures b[start..start + len][i..j] == b[start + i..start + j]
  {
    var w := b[start..start + len];
    forall k | 0 <= k < j - i ensures w[i..j][k] == b[start + i..start + j][k] {
      assert w[i..j][k] == w[i + k];
    }
  }

  lemma UnknownKind(typ: word, kind: word, body: Bytes)
    requires kind != BOOLEAN_ATTR && kind != ULONG_ATTR && kind != BYTES_ATTR && kind != MECHSET_ATTR
    ensures ParseBody(typ, kind, body).None?
  {
  }

  lemma NothingSerial()
    ensures AllFit([]) && Serial([]) == [] && KeptAll([]) == []
  {
  }

  lemma SerialOneLength(r: Raw)
    requires r.Fits()
    ensures |SerialOne(r)| > 0
  {
  }

  lemma {:induction false} SerialSnoc(rs: seq<Raw>, r: Raw)
    requires AllFit(rs) && r.Fits()
    ensures AllFit(rs + [r]) && Serial(rs + [r]) == Serial(rs) + SerialOne(r)
    ensures KeptAll(rs + [r]) == KeptAll(rs) + [Kept(r)]
  {
    hide SerialOne, Raw.Fits, Kept;
    if rs == [] {
      assert rs + [r] == [r] && [r][1..] == [];
      assert Serial([r]) == SerialOne(r) + Serial([]);
    } else {
      SerialSnoc(rs[1..], r);
      assert (rs + [r])[1..] == rs[1..] + [r];
    }
  }

  /** Attributes followed by something that is none do not make a map. */
  lemma {:induction false} ParseStops(rs: seq<Raw>, rest: Bytes)
    requires AllFit(rs) && rest != [] && ParseOne(rest).None?
    ensures Parse(Serial(rs) + rest).None?
  {
    hide SerialOne, ParseOne, Raw.Fits;
    if rs == [] {
      assert Serial(rs) + rest == rest;
    } else {
      ParseStops(rs[1..], rest);
      ParseOneSerial(rs[0], Serial(rs[1..]) + rest);
      SerialOneLength(rs[0]);
      Regroup(SerialOne(rs[0]), Serial(rs[1..]), rest);
    }
  }

  lemma MechsPayload(typ: word, head: Bytes, tail: Bytes)
    requires |head| == 8 && |tail| == 8 * Word(head)
    ensures |tail| % 8 == 0 && |Words(tail)| == Word(head) && Payload(MechList(typ, Words(tail))) == head + tail
  {
    hide Word, U64, Words, U64s;
    Eights(Word(head));
    WordU64(head);
    U64sWords(tail);
    WordsCount(tail);
  }

  lemma WrapsDown(size: word)
    ensures size * 8 % UINT64 <= size * 8
  {
  }

  lemma {:induction false} WordsSnoc(b: Bytes, last: Bytes)
    requires |b| % 8 == 0 && |last| == 8
    ensures |b + last| % 8 == 0 && Words(b + last) == Words(b) + [Word(last)]
  {
    if b == [] {
      assert b + last == last && last[..8] == last && last[8..] == [];
    } else {
      WordsSnoc(b[8..], last);
      hide Word;
      assert (b + last)[..8] == b[..8] && (b + last)[8..] == b[8..] + last;
    }
  }

  lemma {:induction false} Monotone(i: nat, k: nat)
    requires i <= k
    ensures Power256(i) <= Power256(k)
  {
    if i < k { Monotone(i, k - 1); }
  }

  // ----- the format, byte by byte -----

  /** Eight bytes for the type and eight for the kind, most significant first: 1 for a truth value of one byte, 2 for a
      number of eight, 3 for a byte string after its length, and 5 for mechanisms of eight bytes each after their count. */
  lemma SerialLayout(r: Raw)
    requires r.Fits()
    ensures var b := SerialOne(r);
      && BigEndian(b[..8]) == r.typ
      && (r.Boolean? ==> BigEndian(b[8..16]) == 1 && b[16..] == [r.on])
      && (r.Number? ==> BigEndian(b[8..16]) == 2 && |b| == 24 && BigEndian(b[16..]) == r.n)
      && (r.Text? ==> BigEndian(b[8..16]) == 3 && |b| >= 24 && BigEndian(b[16..24]) == |r.bytes| && b[24..] == r.bytes)
      && (r.MechList? ==> BigEndian(b[8..16]) == 5 && |b| == 24 + 8 * |r.mechs| && BigEndian(b[16..24]) == |r.mechs|)
      && (r.MechList? ==> forall i {:trigger r.mechs[i]} :: 0 <= i < |r.mechs| ==> BigEndian(b[24 + 8 * i..32 + 8 * i]) == r.mechs[i])
  {
    var b := SerialOne(r);
    hide SerialOne, Payload, U64, U64s, BigEndian;
    HeaderLayout(r);
    match r
    case Boolean(_, on) => assert Payload(r) == [on] by { BooleanPayload(r); }
    case Number(_, n) => NumberPayload(r);
    case Text(_, bytes) =>
      TextPayload(r);
      CountBytes(b, Payload(r));
    case MechList(_, mechs) =>
      MechListPayload(r);
      CountBytes(b, Payload(r));
      forall i {:trigger r.mechs[i]} | 0 <= i < |mechs| ensures BigEndian(b[24 + 8 * i..32 + 8 * i]) == mechs[i] {
        MechAt(b, mechs, i);
      }
  }

  lemma MechAt(b: Bytes, mechs: seq<word>, i: nat)
    requires i < |mechs| && |b| == 24 + 8 * |mechs| && b[24..] == U64s(mechs)
    ensures BigEndian(b[24 + 8 * i..32 + 8 * i]) == mechs[i]
  {
    hide U64, U64s, BigEndian;
    U64sAt(mechs, i);
    assert b[24 + 8 * i..32 + 8 * i] == b[24..][8 * i..8 * i + 8];
    U64Value(mechs[i]);
  }

  /** The eight bytes before the payload's own contents. */
  lemma CountBytes(b: Bytes, payload: Bytes)
    requires |b| >= 16 && b[16..] == payload && |payload| >= 8
    ensures b[16..24] == payload[..8] && b[24..] == payload[8..]
  {
  }

  lemma HeaderLayout(r: Raw)
    requires r.Fits()
    ensures var b := SerialOne(r);
      && |b| == 16 + |Payload(r)| && b[16..] == Payload(r)
      && BigEndian(b[..8]) == r.typ && BigEndian(b[8..16]) == if r.Boolean? then 1 else if r.Number? then 2 else if r.Text? then 3 else 5
  {
    hide U64, Payload, BigEndian;
    var b := SerialOne(r);
    assert b[..8] == U64(r.typ) && b[8..16] == U64(r.Kind()) && b[16..] == Payload(r);
    U64Value(r.typ);
    U64Value(r.Kind());
  }

  lemma BooleanPayload(r: Raw)
    requires r.Boolean?
    ensures Payload(r) == [r.on]
  {
  }

  lemma NumberPayload(r: Raw)
    requires r.Number?
    ensures |Payload(r)| == 8 && BigEndian(Payload(r)) == r.n
  {
    hide U64, BigEndian;
    U64Value(r.n);
  }

  lemma TextPayload(r: Raw)
    requires r.Text? && r.Fits()
    ensures |Payload(r)| == 8 + |r.bytes| && BigEndian(Payload(r)[..8]) == |r.bytes| && Payload(r)[8..] == r.bytes
  {
    hide U64, BigEndian;
    U64Value(|r.bytes|);
    assert Payload(r)[..8] == U64(|r.bytes|);
  }

  lemma MechListPayload(r: Raw)
    requires r.MechList? && r.Fits()
    ensures |Payload(r)| == 8 + 8 * |r.mechs| && BigEndian(Payload(r)[..8]) == |r.mechs| && Payload(r)[8..] == U64s(r.mechs)
  {
    hide U64, U64s, BigEndian;
    U64Value(|r.mechs|);
    assert Payload(r)[..8] == U64(|r.mechs|);
  }

  lemma U64Value(n: word)
    ensures BigEndian(U64(n)) == n
  {
    Power256Of8();
    BigValue(n, 8);
  }

  lemma {:induction false} U64sAt(ns: seq<word>, i: nat)
    requires i < |ns|
    ensures U64s(ns)[8 * i..8 * i + 8] == U64(ns[i])
  {
    hide U64;
    if i == 0 {
      assert U64s(ns)[0..8] == U64(ns[0]);
    } else {
      U64sAt(ns[1..], i - 1);
      assert U64s(ns)[8 * i..8 * i + 8] == U64s(ns[1..])[8 * (i - 1)..8 * (i - 1) + 8];
    }
  }
}
