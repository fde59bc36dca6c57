/** What is stored can be read back, and what is protected cannot: laws between `saveTemplate`,
    `C_CopyObject` and `loadTemplate`. */
module Readback {
  import opened Octets
  import opened Cryptoki
  import opened Attributes
  import opened Objects
  import opened Policy
  import opened Retrieval
  import opened Wrappers

  predicate Withheld(checks: set<Check>, s: Store) { Ck7 in checks && (IsSensitive(s) || !IsExtractable(s)) }

  /** Reading an attribute that is not withheld and has a size. */
  lemma RetrieveStored(tok: Token, isPrivate: bool, checks: set<Check>, s: Store, a: Attribute, size: nat)
    requires !Withheld(checks, s) && a.typ in s && Extent(tok, isPrivate, a.typ, s[a.typ]) == Some(size)
    ensures a.value.Null? ==> Retrieve(tok, isPrivate, checks, s, a) == Reply(OK, Null, size)
    ensures !a.value.Null? && size <= a.len && !s[a.typ].Text? ==>
      var copied := Copied(tok, isPrivate, a.typ, s[a.typ], a.value);
      Retrieve(tok, isPrivate, checks, s, a) == Reply(copied.0, copied.1, size)
  {
    hide Extent, Copied, IsSensitive, IsExtractable;
  }

  // ----- byte strings -----

  /** Memory is at least as large as the caller says. */
  predicate Backed(a: Attribute) { if a.value.Null? then a.len == 0 else a.value.Octets? && a.len <= |a.value.bytes| }

  predicate Textual(t: nat) { KindOf(t).Raw? || KindOf(t).Date? }

  /** Asking for the size and then for the value gives exactly `plain`, in any buffer of at least that size. */
  ghost predicate ReadsAs(tok: Token, isPrivate: bool, checks: set<Check>, s: Store, t: nat, plain: Bytes) {
    && (forall len :: Retrieve(tok, isPrivate, checks, s, Attribute(t, Null, len)) == Reply(OK, Null, |plain|))
    && (forall b: Bytes :: |plain| <= |b| ==>
          Retrieve(tok, isPrivate, checks, s, Attribute(t, Octets(b), |plain|))
          == Reply(OK, Octets(plain + b[|plain|..]), |plain|))
  }

  lemma PlainReads(tok: Token, isPrivate: bool, checks: set<Check>, s: Store, t: nat, plain: Bytes)
    requires Textual(t) && t in s && s[t].Text? && !Withheld(checks, s)
    requires Plain(tok, isPrivate, t, s[t].bytes) == Some(plain)
    ensures ReadsAs(tok, isPrivate, checks, s, t, plain)
  {
    assert SizeOf(t).None?;
    hide Plain, KindOf, SizeOf;
  }

  /** No ciphertext is taken for a date in the clear. */
  lemma CiphertextIsNoDate(tok: Token, t: nat, iv: nat, plain: Bytes)
    requires Sound(tok) && tok.encrypt(iv, plain).Some?
    ensures |tok.encrypt(iv, plain).value| > SIZEOF_CK_DATE
    ensures Plain(tok, true, t, tok.encrypt(iv, plain).value) == Some(plain)
  {
    hide KindOf;
  }

  lemma PublicIsPlain(tok: Token, t: nat, b: Bytes)
    ensures Plain(tok, false, t, b) == Some(b)
  {
  }

  /** A date that an earlier build left in the clear on a private object still reads back. */
  lemma LegacyDateReads(tok: Token, checks: set<Check>, s: Store, t: nat)
    requires KindOf(t).Date? && t in s && s[t].Text? && |s[t].bytes| == SIZEOF_CK_DATE && !Withheld(checks, s)
    ensures ReadsAs(tok, true, checks, s, t, s[t].bytes)
  {
    PlainReads(tok, true, checks, s, t, s[t].bytes);
  }

  lemma OthersLeaveText(r: Request, checks: set<Check>, a: Attribute, s: Store, t: nat)
    requires Textual(t) && a.typ != t && t in s
    ensures var s' := Update(r, checks, a, s).store; t in s' && s'[t] == s[t]
  {
    UpdateFrame(r, checks, a, s);
    assert t !in Touched(a.typ);
    hide Update;
  }

  /** After an accepted template, an attribute reads as the last entry that named it. */
  lemma LastEntryReads(r: Request, table: Table, template: Template, i: nat, s: Store, reading: set<Check>)
    requires Sound(r.tok) && i < |template| && Textual(template[i].typ) && Backed(template[i])
    requires forall j :: i < j < |template| ==> template[j].typ != template[i].typ
    requires Apply(r, table, template, s).rv.OK? && !Withheld(reading, Apply(r, table, template, s).store)
    ensures ReadsAs(r.tok, r.isPrivate, reading, Apply(r, table, template, s).store, template[i].typ,
                    Read(template[i].value, template[i].len))
  {
    var t := template[i].typ;
    var plain := Read(template[i].value, template[i].len);
    var final := Apply(r, table, template, s).store;
    LastEntryPlain(r, table, template, i, s);
    hide Apply, Plain, KindOf, ReadsAs;
    PlainReads(r.tok, r.isPrivate, reading, final, t, plain);
  }

  lemma {:induction false} LastEntryPlain(r: Request, table: Table, template: Template, i: nat, s: Store)
    requires Sound(r.tok) && i < |template| && Textual(template[i].typ) && Backed(template[i])
    requires forall j :: i < j < |template| ==> template[j].typ != template[i].typ
    requires Apply(r, table, template, s).rv.OK?
    ensures var t := template[i].typ;
      var s' := Apply(r, table, template, s).store;
      && t in s' && s'[t].Text?
      && Plain(r.tok, r.isPrivate, t, s'[t].bytes) == Some(Read(template[i].value, template[i].len))
  {
    hide Plain, KindOf, Update, Sound, Textual, Backed;
    var n := |template| - 1;
    var before := Apply(r, table, template[..n], s);
    var a := template[n];
    var r' := r.(iv := r.iv + 2 * n);
    if i == n {
      EntryPlain(r', table[a.typ], a, before.store);
    } else {
      assert template[..n][i] == template[i];
      LastEntryPlain(r, table, template[..n], i, s);
      OthersLeaveText(r', table[a.typ], a, before.store, template[i].typ);
    }
  }

  lemma EntryPlain(r: Request, checks: set<Check>, a: Attribute, s: Store)
    requires Sound(r.tok) && Textual(a.typ) && Backed(a) && Update(r, checks, a, s).rv.OK?
    ensures var s' := Update(r, checks, a, s).store;
      && a.typ in s' && s'[a.typ].Text?
      && Plain(r.tok, r.isPrivate, a.typ, s'[a.typ].bytes) == Some(Read(a.value, a.len))
  {
    var plain := Read(a.value, a.len);
    hide Plain, Sound, Refusal, Permits;
    if r.isPrivate && r.tok.encrypt(r.iv, plain).Some? { CiphertextIsNoDate(r.tok, a.typ, r.iv, plain); }
    PublicIsPlain(r.tok, a.typ, plain);
  }

  // ----- flags, numbers and mechanism lists -----

  /** What a flag or a number reads as: a truth value is normalised, a number comes back byte for byte. */
  function Normalised(a: Attribute): Bytes {
    if KindOf(a.typ).Boolean? then [if ReadFlag(a.value, a.len) then 1 else 0] else Read(a.value, a.len)
  }

  lemma ScalarReads(r: Request, checks: set<Check>, a: Attribute, s: Store, reading: set<Check>, b: Bytes)
    requires KindOf(a.typ).Boolean? || KindOf(a.typ).Integer?
    requires Backed(a) && Update(r, checks, a, s).rv.OK? && !Withheld(reading, Update(r, checks, a, s).store)
    requires a.len <= |b|
    ensures Retrieve(r.tok, r.isPrivate, reading, Update(r, checks, a, s).store, Attribute(a.typ, Octets(b), a.len))
      == Reply(OK, Fill(Octets(b), Normalised(a)), a.len)
  {
    assert IsFlag(a.typ) <==> KindOf(a.typ).Boolean?;
    assert IsNumber(a.typ) <==> KindOf(a.typ).Integer?;
    hide KindOf, IsFlag, IsNumber, Refusal, Permits;
    if a.len == SIZEOF_CK_ULONG { LittleRoundTrip(Read(a.value, a.len)); }
  }

  predicate Multiple8(n: nat) { n % SIZEOF_CK_ULONG == 0 }

  lemma {:induction false} WordsSnoc(b: Bytes, last: Bytes)
    requires Multiple8(|b|) && |last| == SIZEOF_CK_ULONG
    ensures Multiple8(|b + last|) && Words(b + last) == Words(b) + {LittleEndian(last)}
  {
    if b == [] {
      assert b + last == last && last[..SIZEOF_CK_ULONG] == last && last[SIZEOF_CK_ULONG..] == [];
    } else {
      WordsSnoc(b[SIZEOF_CK_ULONG..], last);
      hide LittleEndian;
      assert (b + last)[..SIZEOF_CK_ULONG] == b[..SIZEOF_CK_ULONG];
      assert (b + last)[SIZEOF_CK_ULONG..] == b[SIZEOF_CK_ULONG..] + last;
    }
  }

  predicate AllWords(xs: seq<nat>) { forall x :: x in xs ==> x < 0x1_0000_0000_0000_0000 }

  lemma ListSnoc(front: seq<nat>, last: nat)
    requires AllWords(front + [last])
    ensures AllWords(front) && last < 0x1_0000_0000_0000_0000
    ensures (set x | x in front + [last]) == (set x | x in front) + {last}
    ensures WordList(front + [last]) == WordList(front) + LittleBytes(last, SIZEOF_CK_ULONG)
  {
    var xs := front + [last];
    assert last in xs && forall x :: x in front ==> x in xs;
    assert xs[..|front|] == front;
  }

  lemma {:induction false} WordListWords(xs: seq<nat>)
    requires AllWords(xs)
    ensures Multiple8(|WordList(xs)|) && |WordList(xs)| == |xs| * SIZEOF_CK_ULONG
    ensures Words(WordList(xs)) == set x | x in xs
  {
    if xs != [] {
      var front, last := xs[..|xs| - 1], xs[|xs| - 1];
      assert xs == front + [last];
      hide LittleEndian, LittleBytes, Words, WordList, AllWords;
      ListSnoc(front, last);
      WordListWords(front);
      WordsSnoc(WordList(front), LittleBytes(last, SIZEOF_CK_ULONG));
      Power256Of8();
      LittleValue(last, SIZEOF_CK_ULONG);
    }
  }

  /** Word `k` of the bytes is `x`, least significant byte first. */
  predicate Spelt(b: Bytes, k: nat, x: nat) {
    8 * k + 8 <= |b| && b[8 * k..8 * k + 8] == LittleBytes(x, 8) && x < 0x1_0000_0000_0000_0000
  }

  lemma FirstSpelt(b: Bytes, x: nat)
    requires |b| >= 8
    ensures Spelt(b, 0, x) <==> x == LittleEndian(b[..8])
  {
    LittleEndianBound(b[..8]);
    LittleRoundTrip(b[..8]);
    Power256Of8();
    if x < 0x1_0000_0000_0000_0000 { LittleValue(x, 8); }
    hide LittleEndian, LittleBytes;
  }

  lemma LaterSlice(b: Bytes, m: nat)
    requires m + 16 <= |b|
    ensures b[m + 8..m + 16] == b[8..][m..m + 8]
  {
    var x, y := b[m + 8..m + 16], b[8..][m..m + 8];
    assert |x| == |y|;
    forall i | 0 <= i < 8 ensures x[i] == y[i] { assert x[i] == b[m + 8 + i] && y[i] == b[8..][m + i]; }
  }

  lemma NextSpelt(b: Bytes, k: nat, x: nat)
    requires |b| >= 8
    ensures Spelt(b, k + 1, x) <==> Spelt(b[8..], k, x)
  {
    var m := 8 * k;
    assert 8 * (k + 1) == m + 8;
    if m + 16 <= |b| { LaterSlice(b, m); }
    hide LittleBytes;
  }

  /** The mechanisms in an array of words are its words, every one of them. */
  lemma {:induction false} WordsExactly(b: Bytes, x: nat)
    ensures x in Words(b) <==> exists k: nat :: Spelt(b, k, x)
  {
    hide LittleEndian, LittleBytes, Spelt;
    if |b| >= 8 {
      FirstSpelt(b, x);
      WordsExactly(b[8..], x);
      if x in Words(b) && x != LittleEndian(b[..8]) {
        var k: nat :| Spelt(b[8..], k, x);
        NextSpelt(b, k, x);
        assert Spelt(b, k + 1, x);
      } else if k: nat :| Spelt(b, k, x) {
        if k > 0 { NextSpelt(b, k - 1, x); }
      }
    } else {
      forall k: nat ensures !Spelt(b, k, x) { NoneSpelt(b, k, x); }
    }
  }

  lemma NoneSpelt(b: Bytes, k: nat, x: nat)
    requires |b| < 8
    ensures !Spelt(b, k, x)
  {
  }

  lemma WordsAreWords(b: Bytes)
    ensures forall x :: x in Words(b) ==> x < 0x1_0000_0000_0000_0000
  {
    forall x | x in Words(b) ensures x < 0x1_0000_0000_0000_0000 { WordsExactly(b, x); }
    hide Words;
  }

  lemma RetrieveMechanisms(tok: Token, isPrivate: bool, s: Store, b: Bytes)
    requires CKA_ALLOWED_MECHANISMS in s && s[CKA_ALLOWED_MECHANISMS].Mechs?
    requires |s[CKA_ALLOWED_MECHANISMS].mechs| * SIZEOF_CK_ULONG <= |b|
    ensures var ms := s[CKA_ALLOWED_MECHANISMS].mechs;
      var size := |ms| * SIZEOF_CK_ULONG;
      Retrieve(tok, isPrivate, {}, s, Attribute(CKA_ALLOWED_MECHANISMS, Octets(b), size))
      == Reply(OK, Fill(Octets(b), WordList(Sorted(ms))), size)
  {
    hide Retrieve, Extent, WordList, Sorted, Fill;
    var ms := s[CKA_ALLOWED_MECHANISMS].mechs;
    var size := |ms| * SIZEOF_CK_ULONG;
    MechanismsExtent(tok, isPrivate, ms);
    RetrieveStored(tok, isPrivate, {}, s, Attribute(CKA_ALLOWED_MECHANISMS, Octets(b), size), size);
  }

  lemma MechanismsExtent(tok: Token, isPrivate: bool, ms: set<nat>)
    ensures Extent(tok, isPrivate, CKA_ALLOWED_MECHANISMS, Mechs(ms)) == Some(|ms| * SIZEOF_CK_ULONG)
  {
  }

  /** The allowed mechanisms are the words that were given, and read back as the same set, each once, in ascending order. */
  lemma MechanismsRead(tok: Token, isPrivate: bool, m: Memory, len: nat, s: Store, b: Bytes)
    requires StoreMechanisms(m, len, s).rv.OK?
    requires |Words(Read(m, len))| * SIZEOF_CK_ULONG <= |b|
    ensures var s' := StoreMechanisms(m, len, s).store;
      var stored := Words(Read(m, len));
      var size := |stored| * SIZEOF_CK_ULONG;
      var data := WordList(Sorted(stored));
      && (forall x :: x in stored <==> exists k: nat :: Spelt(Read(m, len), k, x))
      && |data| == size && Words(data) == stored
      && Retrieve(tok, isPrivate, {}, s', Attribute(CKA_ALLOWED_MECHANISMS, Octets(b), size))
         == Reply(OK, Fill(Octets(b), data), size)
  {
    hide KindOf, SizeOf, Words, WordList, Retrieve, Sorted, Spelt;
    var stored := Words(Read(m, len));
    WordsAreWords(Read(m, len));
    forall x ensures x in stored <==> exists k: nat :: Spelt(Read(m, len), k, x) { WordsExactly(Read(m, len), x); }
    WordListWords(Sorted(stored));
    assert (set x | x in Sorted(stored)) == stored;
    RetrieveMechanisms(tok, isPrivate, StoreMechanisms(m, len, s).store, b);
  }

  // ----- through later calls -----

  predicate NotNamed(template: Template, t: nat) { forall a :: a in template ==> a.typ != t }

  /** The call gives the attribute no new value. */
  predicate Spares(step: Step, t: nat) { step.GetStep? || NotNamed(step.template, t) }

  /** The plaintext of a stored byte string, under the privacy of its object. */
  function PlainOf(tok: Token, s: Store, t: nat): Option<Bytes> {
    if t in s && s[t].Text? then Plain(tok, Privacy(s), t, s[t].bytes) else None
  }

  lemma {:induction false} ApplyLeavesText(r: Request, table: Table, template: Template, s: Store, t: nat)
    requires Textual(t) && t in s && NotNamed(template, t)
    ensures var s' := Apply(r, table, template, s).store; t in s' && s'[t] == s[t]
  {
    hide Update, Textual;
    if template != [] {
      var n := |template| - 1;
      var before := Apply(r, table, template[..n], s);
      assert template[n] in template;
      ApplyLeavesText(r, table, template[..n], s, t);
      if before.rv.OK? && template[n].typ in table {
        OthersLeaveText(r.(iv := r.iv + 2 * n), table[template[n].typ], template[n], before.store, t);
      }
    }
  }

  /** Copying a public object as a private one seals its byte strings and changes none of them. */
  lemma DuplicatePlain(tok: Token, upgrade: bool, ivs: nat -> nat, s: Store, t: nat)
    requires Sound(tok) && Textual(t) && t in s && s[t].Text?
    requires Duplicate(tok, upgrade, ivs, s).Some? && (upgrade ==> !Privacy(s))
    ensures var copied := Duplicate(tok, upgrade, ivs, s).value;
      && t in copied && copied[t].Text? && Privacy(copied) == Privacy(s)
      && Plain(tok, upgrade || Privacy(s), t, copied[t].bytes) == Plain(tok, Privacy(s), t, s[t].bytes)
  {
    if upgrade {
      assert Upgraded(tok, ivs(t), s[t]).Some?;
      if s[t].bytes != [] { CiphertextIsNoDate(tok, t, ivs(t), s[t].bytes); }
      hide KindOf, Sound;
    }
  }

  /** The object says whether it is private, or its class answers as a caller would. */
  predicate StatesPrivacy(c: ObjectClass, s: Store) { c.X509Certificate? ==> CKA_PRIVATE in s }

  lemma InitPrivacy(c: ObjectClass, s: Store)
    ensures Privacy(c.Init(s)) == Privacy(s) <==> StatesPrivacy(c, s)
    ensures !StatesPrivacy(c, s) ==> Privacy(s) && !Privacy(c.Init(s))
    ensures StatesPrivacy(c, c.Init(s))
  {
    assert DefaultOf(CKA_PRIVATE) == Flag(true);
    hide ObjectClass.Table, DefaultOf;
  }

  lemma InitLeavesText(c: ObjectClass, s: Store, t: nat)
    requires Textual(t) && t in s
    ensures t in c.Init(s) && c.Init(s)[t] == s[t]
  {
    hide ObjectClass.Table, DefaultOf;
  }

  /** Privacy makes no difference to a byte string that was never sealed, or that opens to itself. */
  predicate SafeText(tok: Token, c: ObjectClass, s: Store, t: nat)
    requires t in s && s[t].Text?
  {
    StatesPrivacy(c, s) || PlainOf(tok, s, t) == Some(s[t].bytes)
  }

  /** Wrapping makes a certificate that does not say whether it is private public, and so changes what its sealed bytes
      stand for; it changes that of no others. */
  lemma InitPlain(tok: Token, c: ObjectClass, s: Store, t: nat)
    requires Textual(t) && t in s && s[t].Text?
    ensures PlainOf(tok, c.Init(s), t) == PlainOf(tok, s, t) <==> SafeText(tok, c, s, t)
  {
    InitPrivacy(c, s);
    InitLeavesText(c, s, t);
    PublicIsPlain(tok, t, s[t].bytes);
    hide ObjectClass.Init, Privacy, Plain, Textual;
  }

  /** Saving a template that does not name the byte string. */
  lemma SaveLeavesText(r: Request, c: ObjectClass, template: Template, s: Store, t: nat)
    requires Textual(t) && t in s && NotNamed(template, t)
    ensures var s' := Save(r, c.Table(), template, s).store;
      t in s' && s'[t] == s[t] && (StatesPrivacy(c, s) ==> StatesPrivacy(c, s'))
  {
    hide Apply, Complete, Textual, ObjectClass.Table;
    ApplyLeavesText(r, c.Table(), template, s, t);
    ApplySameKind(r, c.Table(), template, s);
  }

  lemma SetPlain(tok: Token, c: ObjectClass, so: bool, iv: nat, template: Template, s: Store, t: nat)
    requires Textual(t) && NotNamed(template, t) && t in s && s[t].Text? && SafeText(tok, c, s, t)
    ensures var s' := After(tok, c, SetStep(so, iv, template), s);
      t in s' && s'[t] == s[t] && SafeText(tok, c, s', t) && PlainOf(tok, s', t) == PlainOf(tok, s, t)
  {
    var r := Request(tok.(so := so), Privacy(s), Set, iv);
    hide Save, Textual, Privacy, Plain, ObjectClass.Init, ObjectClass.Table;
    InitPlain(tok, c, s, t);
    InitPrivacy(c, s);
    InitLeavesText(c, s, t);
    SaveLeavesText(r, c, template, c.Init(s), t);
    SavePrivacy(r, c, template, c.Init(s));
  }

  /** The text of a copy, whose privacy is the one asked for, or of a certificate that the wrapping made public. */
  lemma CopyPlain(tok: Token, c: ObjectClass, so: bool, iv: nat, template: Template, ivs: nat -> nat, s: Store, t: nat)
    requires Sound(tok) && Textual(t) && NotNamed(template, t) && t in s && s[t].Text? && SafeText(tok, c, s, t)
    ensures var s' := After(tok, c, CopyStep(so, iv, template, ivs), s);
      t in s' && s'[t].Text? && SafeText(tok, c, s', t) && PlainOf(tok, s', t) == PlainOf(tok, s, t)
  {
    var was := Privacy(s);
    var isPrivate := AskedPrivacy(template, was);
    var copied := Duplicate(tok, isPrivate && !was, ivs, s);
    hide Save, AskedPrivacy, Duplicate, Sound, Textual, Privacy, Plain, ObjectClass.Init, ObjectClass.Table;
    if copied.Some? && !(was && !isPrivate) {
      var r := Request(tok.(so := so), isPrivate, Copy, iv);
      var w := c.Init(copied.value);
      DuplicateKeys(tok, isPrivate && !was, ivs, s);
      DuplicatePlain(tok, isPrivate && !was, ivs, s, t);
      InitPrivacy(c, copied.value);
      InitPrivacy(c, s);
      InitLeavesText(c, copied.value, t);
      SaveLeavesText(r, c, template, w, t);
      SavePrivacy(r, c, template, w);
      PublicIsPlain(tok, t, copied.value[t].bytes);
      SameDuplicate(tok, ivs, s);
    }
  }

  lemma SameDuplicate(tok: Token, ivs: nat -> nat, s: Store)
    ensures Duplicate(tok, false, ivs, s) == Some(s)
  {
  }

  lemma AfterPlain(tok: Token, c: ObjectClass, step: Step, s: Store, t: nat)
    requires Sound(tok) && Textual(t) && Spares(step, t) && t in s && s[t].Text? && SafeText(tok, c, s, t)
    ensures var s' := After(tok, c, step, s);
      t in s' && s'[t].Text? && SafeText(tok, c, s', t) && PlainOf(tok, s', t) == PlainOf(tok, s, t)
  {
    hide SetCall, CopyCall, Sound, Textual, NotNamed, SafeText, PlainOf, ObjectClass.Init;
    match step
    case GetStep =>
      InitPlain(tok, c, s, t);
      InitPrivacy(c, s);
      InitLeavesText(c, s, t);
      StatedIsSafe(tok, c, c.Init(s), t);
    case SetStep(so, iv, template) =>
      SetPlain(tok, c, so, iv, template, s, t);
    case CopyStep(so, iv, template, ivs) =>
      CopyPlain(tok, c, so, iv, template, ivs, s, t);
  }

  lemma StatedIsSafe(tok: Token, c: ObjectClass, s: Store, t: nat)
    requires t in s && s[t].Text? && StatesPrivacy(c, s)
    ensures SafeText(tok, c, s, t)
  {
  }

  predicate SparedBy(steps: seq<Step>, t: nat) { forall i :: 0 <= i < |steps| ==> Spares(steps[i], t) }

  lemma {:induction false} StepsPlain(tok: Token, c: ObjectClass, steps: seq<Step>, s: Store, t: nat)
    requires Sound(tok) && Textual(t) && SparedBy(steps, t) && t in s && s[t].Text? && SafeText(tok, c, s, t)
    ensures var s' := Life(tok, c, steps, s);
      t in s' && s'[t].Text? && SafeText(tok, c, s', t) && PlainOf(tok, s', t) == PlainOf(tok, s, t)
  {
    hide After, PlainOf, Textual, Sound, Spares, SafeText;
    if steps != [] {
      var n := |steps| - 1;
      StepsPlain(tok, c, steps[..n], s, t);
      AfterPlain(tok, c, steps[n], Life(tok, c, steps[..n], s), t);
    }
  }

  ghost predicate KeepsPlain(tok: Token, c: ObjectClass, s: Store, t: nat) {
    forall steps {:trigger Life(tok, c, steps, s)} :: SparedBy(steps, t) ==>
      PlainOf(tok, Life(tok, c, steps, s), t) == PlainOf(tok, s, t)
  }

  /** Through every sequence of calls that does not name it, copies to private objects and refused calls included, a byte
      string keeps its plaintext exactly if it is safe from the first wrapping. */
  lemma LifePlain(tok: Token, c: ObjectClass, s: Store, t: nat)
    requires Sound(tok) && Textual(t) && t in s && s[t].Text?
    ensures KeepsPlain(tok, c, s, t) <==> SafeText(tok, c, s, t)
  {
    hide Life, PlainOf, Textual, Sound, SafeText, ObjectClass.Init;
    if SafeText(tok, c, s, t) {
      forall steps | SparedBy(steps, t) ensures PlainOf(tok, Life(tok, c, steps, s), t) == PlainOf(tok, s, t) {
        StepsPlain(tok, c, steps, s, t);
      }
    }
    if KeepsPlain(tok, c, s, t) {
      OneReading(tok, c, s);
      InitPlain(tok, c, s, t);
      assert SparedBy([GetStep], t);
    }
  }

  // ----- writing and then reading -----

  /** The object says whether it is private with a truth value, or its class gives it the answer that callers suppose. */
  predicate TellsPrivacy(c: ObjectClass, s: Store) {
    if CKA_PRIVATE in s then s[CKA_PRIVATE].Flag? else !c.X509Certificate?
  }

  /** On exactly these objects, what `loadTemplate` goes by after the wrapping is what the caller went by before it. */
  lemma ReaderAgrees(c: ObjectClass, s: Store)
    ensures IsPrivate(c.Init(s)) == Privacy(s) <==> TellsPrivacy(c, s)
    ensures CKA_PRIVATE in c.Init(s) && (TellsPrivacy(c, s) ==> c.Init(s)[CKA_PRIVATE].Flag?)
    ensures !TellsPrivacy(c, s) ==> Privacy(s) && !IsPrivate(c.Init(s))
  {
    assert DefaultOf(CKA_PRIVATE) == Flag(true);
    PrivateEverywhere(c);
    hide ObjectClass.Table, DefaultOf;
  }

  lemma UpdatePrivateFlag(r: Request, checks: set<Check>, a: Attribute, s: Store)
    requires CKA_PRIVATE in s
    ensures var s' := Update(r, checks, a, s).store;
      CKA_PRIVATE in s' && (s[CKA_PRIVATE].Flag? ==> s'[CKA_PRIVATE].Flag?)
  {
    if a.typ != CKA_PRIVATE {
      UpdateFrame(r, checks, a, s);
      hide Update;
    }
  }

  lemma {:induction false} ApplyPrivateFlag(r: Request, table: Table, template: Template, s: Store)
    requires CKA_PRIVATE in s
    ensures var s' := Apply(r, table, template, s).store;
      CKA_PRIVATE in s' && (s[CKA_PRIVATE].Flag? ==> s'[CKA_PRIVATE].Flag?)
  {
    hide Update;
    if template != [] {
      var n := |template| - 1;
      var before := Apply(r, table, template[..n], s);
      ApplyPrivateFlag(r, table, template[..n], s);
      if before.rv.OK? && template[n].typ in table {
        UpdatePrivateFlag(r.(iv := r.iv + 2 * n), table[template[n].typ], template[n], before.store);
      }
    }
  }

  /** The privacy after saving on a wrapped object, as the next reader sees it. */
  lemma SaveReader(r: Request, c: ObjectClass, template: Template, s: Store)
    requires TellsPrivacy(c, s)
    ensures var o := Save(r, c.Table(), template, c.Init(s));
      && TellsPrivacy(c, o.store)
      && (r.op.Set? ==> IsPrivate(o.store) == Privacy(s))
      && ((r.op.Copy? || r.op.Create?) && o.rv.OK? ==> IsPrivate(o.store) == AskedPrivacy(template, Privacy(s)))
  {
    hide Apply, Complete, AskedPrivacy, ObjectClass.Init, ObjectClass.Table;
    ReaderAgrees(c, s);
    ApplyPrivateFlag(r, c.Table(), template, c.Init(s));
    SavePrivacy(r, c, template, c.Init(s));
  }

  /** C_GetAttributeValue, which wraps the object and goes by its stored privacy, gives back `plain`, or may not give out
      the attribute at all. */
  ghost predicate GetsBack(tok: Token, c: ObjectClass, s: Store, t: nat, plain: Bytes) {
    var w := c.Init(s);
    t in c.Table() && (Withheld(c.Table()[t], w) || ReadsAs(tok, IsPrivate(w), c.Table()[t], w, t, plain))
  }

  predicate LastNamed(template: Template, i: nat) {
    i < |template| && forall j :: i < j < |template| ==> template[j].typ != template[i].typ
  }

  /** Every byte string that a template names reads back as its last entry for it. */
  ghost predicate AllRead(tok: Token, c: ObjectClass, template: Template, s: Store) {
    forall i: nat :: LastNamed(template, i) && Textual(template[i].typ) && Backed(template[i]) ==>
      GetsBack(tok, c, s, template[i].typ, Read(template[i].value, template[i].len))
  }

  lemma {:induction false} AcceptedInTable(r: Request, table: Table, template: Template, i: nat, s: Store)
    requires i < |template| && Apply(r, table, template, s).rv.OK?
    ensures template[i].typ in table
  {
    hide Update;
    var n := |template| - 1;
    if i < n { AcceptedInTable(r, table, template[..n], i, s); }
  }

  lemma PlainGetsBack(tok: Token, c: ObjectClass, s: Store, t: nat, plain: Bytes)
    requires Settled(c, s) && t in c.Table() && Textual(t) && t in s && s[t].Text?
    requires Plain(tok, IsPrivate(s), t, s[t].bytes) == Some(plain)
    ensures GetsBack(tok, c, s, t, plain)
  {
    SettledInit(c, s);
    hide Plain, Textual, Settled, ReadsAs, ObjectClass.Init, ObjectClass.Table;
    if !Withheld(c.Table()[t], s) { PlainReads(tok, IsPrivate(s), c.Table()[t], s, t, plain); }
  }

  lemma LoginPlain(tok: Token, so: bool, isPrivate: bool, t: nat, stored: Bytes)
    ensures Plain(tok.(so := so), isPrivate, t, stored) == Plain(tok, isPrivate, t, stored)
    ensures Sound(tok) ==> Sound(tok.(so := so))
  {
    hide KindOf;
  }

  /** An accepted template saved for the privacy that the reader finds reads back, whoever is logged in by then. */
  lemma SaveReads(tok: Token, so: bool, isPrivate: bool, op: Op, iv: nat, c: ObjectClass, template: Template, s: Store)
    requires var o := Save(Request(tok.(so := so), isPrivate, op, iv), c.Table(), template, c.Init(s));
      Sound(tok) && o.rv.OK? && isPrivate == IsPrivate(o.store)
    ensures AllRead(tok, c, template, Save(Request(tok.(so := so), isPrivate, op, iv), c.Table(), template, c.Init(s)).store)
  {
    var r := Request(tok.(so := so), isPrivate, op, iv);
    var s' := Save(r, c.Table(), template, c.Init(s)).store;
    hide Apply, Complete, Settled, Sound, Textual, Backed, Plain, GetsBack, ObjectClass.Init, ObjectClass.Table;
    InitSettles(c, s);
    SaveSettled(r, c, template, c.Init(s));
    forall i: nat | LastNamed(template, i) && Textual(template[i].typ) && Backed(template[i])
      ensures GetsBack(tok, c, s', template[i].typ, Read(template[i].value, template[i].len))
    {
      var t := template[i].typ;
      LoginPlain(tok, so, isPrivate, t, []);
      AcceptedInTable(r, c.Table(), template, i, c.Init(s));
      LastEntryPlain(r, c.Table(), template, i, c.Init(s));
      LoginPlain(tok, so, isPrivate, t, s'[t].bytes);
      PlainGetsBack(tok, c, s', t, Read(template[i].value, template[i].len));
    }
  }

  /** What C_CreateObject stores, C_GetAttributeValue gives back. */
  lemma CreateReads(tok: Token, c: ObjectClass, so: bool, iv: nat, template: Template)
    requires Sound(tok) && CreateCall(tok, c, so, iv, template).rv.OK?
    ensures AllRead(tok, c, template, CreateCall(tok, c, so, iv, template).store)
  {
    hide Save, AskedPrivacy, Sound, AllRead, Privacy, ObjectClass.Init, ObjectClass.Table;
    var isPrivate := AskedPrivacy(template, !c.X509Certificate?);
    FreshPrivacy(c);
    FreshTells(c);
    InitSettles(c, map[]);
    SettledInit(c, c.Init(map[]));
    SaveReader(Request(tok.(so := so), isPrivate, Create, iv), c, template, c.Init(map[]));
    SaveReads(tok, so, isPrivate, Create, iv, c, template, map[]);
  }

  lemma FreshTells(c: ObjectClass)
    ensures TellsPrivacy(c, c.Init(map[]))
  {
    assert DefaultOf(CKA_PRIVATE) == Flag(true);
    ReaderAgrees(c, map[]);
    hide ObjectClass.Table, DefaultOf;
  }

  /** Every accepted C_SetAttributeValue reads back. */
  ghost predicate SetsRead(tok: Token, c: ObjectClass, onDisk: bool, s: Store) {
    forall so: bool, iv: nat, template
      {:trigger SetCall(Request(tok.(so := so), Privacy(s), Set, iv), c, onDisk, template, s)} ::
      var o := SetCall(Request(tok.(so := so), Privacy(s), Set, iv), c, onDisk, template, s);
      o.rv.OK? ==> AllRead(tok, c, template, o.store)
  }

  /** Every accepted C_CopyObject yields an object on which its template reads back. */
  ghost predicate CopiesRead(tok: Token, c: ObjectClass, s: Store) {
    forall so: bool, iv: nat, template, ivs: nat -> nat {:trigger CopyCall(tok, c, so, iv, template, ivs, s)} ::
      var copy := CopyCall(tok, c, so, iv, template, ivs, s);
      copy.Some? ==> AllRead(tok, c, template, copy.value)
  }

  /** Objects that take no new values, wrapped or not. */
  predicate Shut(c: ObjectClass, s: Store) { !IsModifiable(s) || (c.X509Certificate? && IsTrusted(s)) }

  lemma ShutExactly(c: ObjectClass, s: Store)
    ensures TakesNothing(c.Init(s)) <==> Shut(c, s)
  {
    InitShelters(c, s);
    InitNumbers(c, s);
    ShelterDefaults();
    FlagSurvives(c, s, CKA_TRUSTED, false);
    hide ObjectClass.Init, IsModifiable, DefaultOf, Sheltered;
  }

  lemma NothingToRead(tok: Token, c: ObjectClass, s: Store)
    ensures AllRead(tok, c, [], s)
  {
  }

  /** A template with one label of one byte. */
  function LabelTemplate(b: byte): Template { [Attribute(CKA_LABEL, Octets([b]), 1)] }

  lemma LabelFacts(b: byte)
    ensures var template := LabelTemplate(b);
      && Textual(CKA_LABEL) && LastNamed(template, 0) && Backed(template[0]) && template[0].typ == CKA_LABEL
      && Read(template[0].value, template[0].len) == [b]
  {
  }

  lemma LabelAccepted(r: Request, c: ObjectClass, b: byte, s: Store)
    requires Alters(r.op) && Allowed(r.op, s) && !TakesNothing(s)
    requires r.isPrivate && r.tok.encrypt(r.iv, [b]).Some? && |r.tok.encrypt(r.iv, [b]).value| >= 1
    ensures Save(r, c.Table(), LabelTemplate(b), s) == Outcome(OK, s[CKA_LABEL := Text(r.tok.encrypt(r.iv, [b]).value)])
  {
    hide Update, Save, ObjectClass.Table;
    LabelEverywhere(c);
    LabelUpdate(r, b, s);
    OneEntry(r, c.Table(), LabelTemplate(b)[0], s);
  }

  lemma ReadsOnce(tok: Token, isPrivate: bool, checks: set<Check>, s: Store, t: nat, plain: Bytes, plain': Bytes)
    requires ReadsAs(tok, isPrivate, checks, s, t, plain) && ReadsAs(tok, isPrivate, checks, s, t, plain')
    ensures |plain| == |plain'|
  {
    hide Retrieve;
    assert Retrieve(tok, isPrivate, checks, s, Attribute(t, Null, 0)) == Reply(OK, Null, |plain|);
  }

  /** A sealed label on an object that is read as if its byte strings were in the clear. */
  lemma LabelUnread(tok: Token, c: ObjectClass, s: Store, plain: Bytes, stored: Bytes)
    requires Settled(c, s) && CKA_LABEL in s && s[CKA_LABEL] == Text(stored) && !IsPrivate(s) && |stored| != |plain|
    ensures !GetsBack(tok, c, s, CKA_LABEL, plain)
  {
    hide Plain, Settled, ReadsAs, Textual, IsSensitive, IsExtractable, IsPrivate, ObjectClass.Init, ObjectClass.Table;
    LabelFacts(0);
    LabelEverywhere(c);
    SettledInit(c, s);
    PublicIsPlain(tok, CKA_LABEL, stored);
    PlainReads(tok, false, {Ck8}, s, CKA_LABEL, stored);
    if ReadsAs(tok, false, {Ck8}, s, CKA_LABEL, plain) { ReadsOnce(tok, false, {Ck8}, s, CKA_LABEL, plain, stored); }
  }

  /** A label that is accepted and sealed, but then read in the clear. */
  lemma SealedLabelLost(tok: Token, r: Request, c: ObjectClass, b: byte, s: Store)
    requires Alters(r.op) && Allowed(r.op, s) && !TakesNothing(s) && Settled(c, s)
    requires Sound(r.tok) && r.isPrivate && !IsPrivate(s) && r.tok.encrypt(r.iv, [b]).Some?
    ensures var o := Save(r, c.Table(), LabelTemplate(b), s);
      o.rv.OK? && !AllRead(tok, c, LabelTemplate(b), o.store)
  {
    hide Settled, Textual, Backed, Save, GetsBack, LastNamed, LabelTemplate, ObjectClass.Init, ObjectClass.Table;
    var ct := r.tok.encrypt(r.iv, [b]).value;
    assert |ct| >= 32;
    LabelFacts(b);
    LabelAccepted(r, c, b, s);
    SaveSettled(r, c, LabelTemplate(b), s);
    LabelUnread(tok, c, s[CKA_LABEL := Text(ct)], [b], ct);
    assert LastNamed(LabelTemplate(b), 0);
  }

  lemma OneEntry(r: Request, table: Table, a: Attribute, s: Store)
    requires Alters(r.op) && Allowed(r.op, s) && a.typ in table
    ensures Update(r, table[a.typ], a, s).rv.OK? ==> Save(r, table, [a], s) == Update(r, table[a.typ], a, s)
  {
    hide Update;
    assert [a][..0] == [] && r.(iv := r.iv + 2 * 0) == r;
    assert Apply(r, table, [], s) == Outcome(OK, s);
  }

  lemma SetReads(tok: Token, c: ObjectClass, so: bool, iv: nat, onDisk: bool, template: Template, s: Store)
    requires Sound(tok) && (TellsPrivacy(c, s) || Shut(c, s))
    ensures var o := SetCall(Request(tok.(so := so), Privacy(s), Set, iv), c, onDisk, template, s);
      o.rv.OK? ==> AllRead(tok, c, template, o.store)
  {
    hide Save, Sound, AllRead, Privacy, TakesNothing, ObjectClass.Init, ObjectClass.Table;
    var r := Request(tok.(so := so), Privacy(s), Set, iv);
    if IsModifiable(s) && Save(r, c.Table(), template, c.Init(s)).rv.OK? {
      if TellsPrivacy(c, s) {
        SaveReader(r, c, template, s);
        SaveReads(tok, so, Privacy(s), Set, iv, c, template, s);
      } else {
        ShutExactly(c, s);
        FrozenSave(r, c.Table(), template, c.Init(s));
        NothingToRead(tok, c, c.Init(s));
      }
    }
  }

  /** What C_SetAttributeValue stores, C_GetAttributeValue gives back, on exactly the objects that tell their privacy or
      take nothing.  On a certificate that does not, the label is sealed for a private object and read on a public one. */
  lemma SetReadsExactly(tok: Token, c: ObjectClass, onDisk: bool, s: Store)
    requires Sound(tok) && forall iv, plain :: tok.encrypt(iv, plain).Some?
    ensures SetsRead(tok, c, onDisk, s) <==> TellsPrivacy(c, s) || Shut(c, s)
  {
    hide SetCall, Sound, AllRead, Privacy, TellsPrivacy, Shut;
    if TellsPrivacy(c, s) || Shut(c, s) {
      forall so: bool, iv: nat, template
        ensures var o := SetCall(Request(tok.(so := so), Privacy(s), Set, iv), c, onDisk, template, s);
          o.rv.OK? ==> AllRead(tok, c, template, o.store)
      {
        SetReads(tok, c, so, iv, onDisk, template, s);
      }
    } else {
      SetLoses(tok, c, onDisk, s);
    }
  }

  lemma SetLoses(tok: Token, c: ObjectClass, onDisk: bool, s: Store)
    requires Sound(tok) && tok.encrypt(0, [0]).Some? && !TellsPrivacy(c, s) && !Shut(c, s)
    ensures var o := SetCall(Request(tok.(so := false), Privacy(s), Set, 0), c, onDisk, LabelTemplate(0), s);
      o.rv.OK? && !AllRead(tok, c, LabelTemplate(0), o.store)
    ensures !SetsRead(tok, c, onDisk, s)
  {
    hide Save, Sound, AllRead, Privacy, IsPrivate, TakesNothing, TellsPrivacy, LabelTemplate, ObjectClass.Init,
      ObjectClass.Table;
    ReaderAgrees(c, s);
    ShutExactly(c, s);
    InitShelters(c, s);
    InitSettles(c, s);
    LoginPlain(tok, false, true, 0, []);
    SealedLabelLost(tok, Request(tok.(so := false), Privacy(s), Set, 0), c, 0, c.Init(s));
  }

  lemma DuplicateTells(tok: Token, c: ObjectClass, upgrade: bool, ivs: nat -> nat, s: Store)
    requires TellsPrivacy(c, s) && Duplicate(tok, upgrade, ivs, s).Some?
    ensures TellsPrivacy(c, Duplicate(tok, upgrade, ivs, s).value)
    ensures Privacy(Duplicate(tok, upgrade, ivs, s).value) == Privacy(s)
  {
  }

  /** The objects of which no copy with a template is ever made. */
  predicate Uncopied(c: ObjectClass, s: Store) { Shut(c, s) || !IsCopyable(s) || CKA_CLASS !in s }

  lemma CopyReads(tok: Token, c: ObjectClass, so: bool, iv: nat, template: Template, ivs: nat -> nat, s: Store)
    requires Sound(tok) && (TellsPrivacy(c, s) || Uncopied(c, s))
    ensures var copy := CopyCall(tok, c, so, iv, template, ivs, s);
      copy.Some? ==> AllRead(tok, c, template, copy.value)
  {
    hide Save, Sound, AllRead, AskedPrivacy, Duplicate, Privacy, IsPrivate, TakesNothing, TellsPrivacy, Shut,
      ObjectClass.Init, ObjectClass.Table;
    var was := Privacy(s);
    var isPrivate := AskedPrivacy(template, was);
    var copied := Duplicate(tok, isPrivate && !was, ivs, s);
    if CopyCall(tok, c, so, iv, template, ivs, s).Some? {
      var r := Request(tok.(so := so), isPrivate, Copy, iv);
      if TellsPrivacy(c, s) {
        DuplicateTells(tok, c, isPrivate && !was, ivs, s);
        SaveReader(r, c, template, copied.value);
        SaveReads(tok, so, isPrivate, Copy, iv, c, template, copied.value);
      } else {
        DuplicateShut(tok, c, isPrivate && !was, ivs, s);
        ShutExactly(c, copied.value);
        FrozenSave(r, c.Table(), template, c.Init(copied.value));
        NothingToRead(tok, c, c.Init(copied.value));
      }
    }
  }

  lemma DuplicateShut(tok: Token, c: ObjectClass, upgrade: bool, ivs: nat -> nat, s: Store)
    requires Duplicate(tok, upgrade, ivs, s).Some?
    ensures Shut(c, s) ==> Shut(c, Duplicate(tok, upgrade, ivs, s).value)
  {
    DuplicateTightens(tok, upgrade, ivs, s);
    hide Duplicate;
  }

  /** What C_CopyObject stores, C_GetAttributeValue gives back on the copy, for exactly the objects that tell their
      privacy or are not copied with anything to store. */
  lemma CopyReadsExactly(tok: Token, c: ObjectClass, s: Store)
    requires Sound(tok) && forall iv, plain :: tok.encrypt(iv, plain).Some?
    ensures CopiesRead(tok, c, s) <==> TellsPrivacy(c, s) || Uncopied(c, s)
  {
    hide CopyCall, Sound, AllRead, Privacy, TellsPrivacy, Uncopied;
    if TellsPrivacy(c, s) || Uncopied(c, s) {
      forall so: bool, iv: nat, template, ivs: nat -> nat
        ensures var copy := CopyCall(tok, c, so, iv, template, ivs, s);
          copy.Some? ==> AllRead(tok, c, template, copy.value)
      {
        CopyReads(tok, c, so, iv, template, ivs, s);
      }
    } else {
      CopyLoses(tok, c, x => 0, s);
    }
  }

  lemma CopyLoses(tok: Token, c: ObjectClass, ivs: nat -> nat, s: Store)
    requires Sound(tok) && tok.encrypt(0, [0]).Some? && !TellsPrivacy(c, s) && !Uncopied(c, s)
    ensures var copy := CopyCall(tok, c, false, 0, LabelTemplate(0), ivs, s);
      copy.Some? && !AllRead(tok, c, LabelTemplate(0), copy.value)
    ensures !CopiesRead(tok, c, s)
  {
    hide Save, Sound, AllRead, Privacy, IsPrivate, TakesNothing, TellsPrivacy, Duplicate, AskedPrivacy, LabelTemplate,
      ObjectClass.Init, ObjectClass.Table;
    ReaderAgrees(c, s);
    ShutExactly(c, s);
    InitShelters(c, s);
    InitSettles(c, s);
    LoginPlain(tok, false, true, 0, []);
    LabelAsksNothing(0, true);
    SameDuplicate(tok, ivs, s);
    SealedLabelLost(tok, Request(tok.(so := false), true, Copy, 0), c, 0, c.Init(s));
  }

  lemma LabelAsksNothing(b: byte, was: bool)
    ensures AskedPrivacy(LabelTemplate(b), was) == was
  {
    assert LabelTemplate(b)[..0] == [];
  }

  // ----- and after a life in between -----

  lemma AfterTells(tok: Token, c: ObjectClass, step: Step, s: Store)
    requires TellsPrivacy(c, s)
    ensures TellsPrivacy(c, After(tok, c, step, s))
  {
    hide Save, AskedPrivacy, Duplicate, Privacy, ObjectClass.Init, ObjectClass.Table;
    ReaderAgrees(c, s);
    match step
    case GetStep =>
    case SetStep(so, iv, template) =>
      SaveReader(Request(tok.(so := so), Privacy(s), Set, iv), c, template, s);
    case CopyStep(so, iv, template, ivs) =>
      var isPrivate := AskedPrivacy(template, Privacy(s));
      var copied := Duplicate(tok, isPrivate && !Privacy(s), ivs, s);
      if copied.Some? {
        DuplicateTells(tok, c, isPrivate && !Privacy(s), ivs, s);
        SaveReader(Request(tok.(so := so), isPrivate, Copy, iv), c, template, copied.value);
      }
  }

  lemma {:induction false} LifeTells(tok: Token, c: ObjectClass, steps: seq<Step>, s: Store)
    requires TellsPrivacy(c, s)
    ensures TellsPrivacy(c, Life(tok, c, steps, s))
  {
    hide After, TellsPrivacy;
    if steps != [] {
      LifeTells(tok, c, steps[..|steps| - 1], s);
      AfterTells(tok, c, steps[|steps| - 1], Life(tok, c, steps[..|steps| - 1], s));
    }
  }

  /** What a byte string stands for is what C_GetAttributeValue gives back, after any calls that do not name it. */
  lemma LifeReads(tok: Token, c: ObjectClass, steps: seq<Step>, s: Store, t: nat, plain: Bytes)
    requires Sound(tok) && TellsPrivacy(c, s) && Textual(t) && t in c.Table() && SparedBy(steps, t)
    requires PlainOf(tok, s, t) == Some(plain)
    ensures GetsBack(tok, c, Life(tok, c, steps, s), t, plain)
  {
    var s' := Life(tok, c, steps, s);
    hide Life, Sound, Textual, Plain, Settled, GetsBack, Privacy, IsPrivate, ObjectClass.Init, ObjectClass.Table;
    LifeTells(tok, c, steps, s);
    StepsPlain(tok, c, steps, s, t);
    ReaderAgrees(c, s');
    InitLeavesText(c, s', t);
    InitSettles(c, s');
    SettledInit(c, c.Init(s'));
    PlainGetsBack(tok, c, c.Init(s'), t, plain);
    SameGet(tok, c, s', t, plain);
  }

  lemma SameGet(tok: Token, c: ObjectClass, s: Store, t: nat, plain: Bytes)
    ensures GetsBack(tok, c, c.Init(s), t, plain) == GetsBack(tok, c, s, t, plain)
  {
    InitSettles(c, s);
    SettledInit(c, c.Init(s));
    hide ReadsAs, Withheld, ObjectClass.Init, ObjectClass.Table;
  }

  // ----- protected values -----

  /** Once a key is sensitive or unextractable, every later read of an attribute under footnote 7 is refused with
      the caller's memory untouched, whatever is called in between and whoever asks. */
  lemma ProtectedForever(tok: Token, c: ObjectClass, steps: seq<Step>, s: Store, reader: Token, isPrivate: bool,
                         checks: set<Check>, a: Attribute)
    requires Ck7 in checks && (IsSensitive(s) || !IsExtractable(s))
    ensures Retrieve(reader, isPrivate, checks, Life(tok, c, steps, s), a)
      == Reply(Sensitive, a.value, CK_UNAVAILABLE_INFORMATION)
  {
    LifeShelters(tok, c, steps, 0, s);
    assert Life(tok, c, steps[..0], s) == s;
    hide Life, After;
  }

  /** The value of every key is such an attribute; a certificate's is not. */
  lemma ValuesUnderFootnoteSeven(c: ObjectClass)
    ensures CKA_VALUE in c.Table() && (Ck7 in c.Table()[CKA_VALUE] <==> !c.X509Certificate?)
  {
    assert CKA_VALUE !in ObjectTable() && CKA_VALUE !in KeyTable() && CKA_VALUE !in SecretTable() && CKA_VALUE !in PrivateTable();
    assert GuardedTable()[CKA_VALUE] == {Ck1, Ck4, Ck6, Ck7} && CertificateTable()[CKA_VALUE] == {Ck1, Ck14};
    hide ObjectTable, KeyTable, GuardedTable, PrivateTable, SecretTable, CertificateTable;
  }
}
