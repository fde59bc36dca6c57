/** A secret key's check value and length stay in step with its value (`updateAttr` of CKA_VALUE,
    CKA_VALUE_LEN and CKA_CHECK_VALUE in P11Attributes.cpp). */
module KeyValues {
  import opened Octets
  import opened Cryptoki
  import opened Attributes
  import opened Objects
  import opened Policy
  import opened Wrappers

  /** What a stored byte string stands for. */
  function Opened(tok: Token, isPrivate: bool, stored: Bytes): Option<Bytes> {
    if isPrivate && stored != [] then tok.decrypt(stored) else Some(stored)
  }

  /** The check value is empty or belongs to the value, and the length, where there is one, is the value's. */
  predicate InStep(tok: Token, isPrivate: bool, s: Store) {
    var value := Opened(tok, isPrivate, GetText(s, CKA_VALUE));
    var check := Opened(tok, isPrivate, GetText(s, CKA_CHECK_VALUE));
    && value.Some?
    && check.Some?
    && (check.value != [] ==>
          ExposesCheckValue(KeyTypeOf(s)) && check.value == tok.keyCheck(KeyTypeOf(s), value.value))
    && (CKA_VALUE_LEN in s ==> s[CKA_VALUE_LEN] == Number(|value.value|))
  }

  predicate SecretKey(s: Store) { IsClass(s, CKO_SECRET_KEY) && KeyTypeOf(s) != CKK_GOST28147 }

  /** The footnote fact needed: a value cannot be set or copied over. */
  predicate GuardsValue(table: Table) { CKA_VALUE in table ==> table[CKA_VALUE] !! {Ck8, Ck11, Ck17} }

  /** Sealing anything and opening it again gives it back. */
  lemma SealedOpens(tok: Token, isPrivate: bool, iv: nat, plain: Bytes)
    requires Sound(tok) && Sealed(tok, isPrivate, iv, plain).Some?
    ensures Opened(tok, isPrivate, Sealed(tok, isPrivate, iv, plain).value) == Some(plain)
  {
  }

  /** What an accepted value of a secret key leaves behind. */
  lemma StoredKeyValue(r: Request, m: Memory, len: nat, s: Store)
    requires r.op.Create? && IsClass(s, CKO_SECRET_KEY) && StoreValue(r, m, len, s).rv.OK?
    ensures var plain := Read(m, len);
      var s' := StoreValue(r, m, len, s).store;
      var kcv := if ExposesCheckValue(KeyTypeOf(s)) then r.tok.keyCheck(KeyTypeOf(s), plain) else [];
      && Sealed(r.tok, r.isPrivate, r.iv, plain) == Some(GetText(s', CKA_VALUE))
      && Sealed(r.tok, r.isPrivate, r.iv + 1, kcv) == Some(GetText(s', CKA_CHECK_VALUE))
      && KeyTypeOf(s') == KeyTypeOf(s)
      && (CKA_VALUE_LEN in s' ==> s'[CKA_VALUE_LEN] == Number(|plain|))
  {
    hide Sealed, ExposesCheckValue, HidesCheckValue, Read;
  }

  lemma StoreValueInStep(r: Request, m: Memory, len: nat, s: Store)
    requires Sound(r.tok) && r.op.Create? && SecretKey(s)
    requires StoreValue(r, m, len, s).rv.OK?
    ensures InStep(r.tok, r.isPrivate, StoreValue(r, m, len, s).store)
  {
    var plain := Read(m, len);
    var kcv := if ExposesCheckValue(KeyTypeOf(s)) then r.tok.keyCheck(KeyTypeOf(s), plain) else [];
    StoredKeyValue(r, m, len, s);
    hide Sound, Opened, Sealed, ExposesCheckValue, StoreValue, Read;
    SealedOpens(r.tok, r.isPrivate, r.iv, plain);
    SealedOpens(r.tok, r.isPrivate, r.iv + 1, kcv);
  }

  lemma StoreCheckValueInStep(r: Request, m: Memory, len: nat, s: Store)
    requires Sound(r.tok) && SecretKey(s) && InStep(r.tok, r.isPrivate, s)
    ensures InStep(r.tok, r.isPrivate, StoreCheckValue(r, m, len, s).store)
  {
    var plain := Read(m, len);
    if Sealed(r.tok, r.isPrivate, r.iv, plain).Some? { SealedOpens(r.tok, r.isPrivate, r.iv, plain); }
    assert r.tok.decrypt([]) == Some([]);
    hide Sound, Sealed, ExposesCheckValue, HidesCheckValue;
  }

  lemma FrameInStep(tok: Token, isPrivate: bool, s: Store, s': Store, ts: set<nat>)
    requires SameExcept(s, s', ts) && CKA_CLASS !in ts && CKA_KEY_TYPE !in ts
    requires SecretKey(s)
    ensures SecretKey(s')
    ensures ts !! {CKA_VALUE, CKA_CHECK_VALUE, CKA_VALUE_LEN} && InStep(tok, isPrivate, s) ==> InStep(tok, isPrivate, s')
  {
    hide Opened, ExposesCheckValue;
  }

  lemma UpdateAttrInStep(r: Request, a: Attribute, s: Store)
    requires Sound(r.tok) && SecretKey(s) && InStep(r.tok, r.isPrivate, s)
    requires a.typ == CKA_CHECK_VALUE || a.typ == CKA_VALUE_LEN || a.typ == CKA_VALUE
    requires r.op.Create? || (Alters(r.op) && a.typ != CKA_VALUE)
    ensures var o := UpdateAttr(r, a, s); o.rv.OK? || Alters(r.op) ==> InStep(r.tok, r.isPrivate, o.store)
  {
    OwnKinds(a.typ);
    if a.typ == CKA_VALUE && StoreValue(r, a.value, a.len, s).rv.OK? { StoreValueInStep(r, a.value, a.len, s); }
    if a.typ == CKA_CHECK_VALUE { StoreCheckValueInStep(r, a.value, a.len, s); }
    hide KindOf, StoreValue, StoreCheckValue, InStep, SecretKey, Sound;
  }

  lemma UpdateInStep(r: Request, table: Table, a: Attribute, s: Store)
    requires Sound(r.tok) && GuardsValue(table) && a.typ in table
    requires r.op.Create? || Alters(r.op)
    requires SecretKey(s) && InStep(r.tok, r.isPrivate, s)
    ensures var o := Update(r, table[a.typ], a, s);
      SecretKey(o.store) && (o.rv.OK? || Alters(r.op) ==> InStep(r.tok, r.isPrivate, o.store))
  {
    var o := Update(r, table[a.typ], a, s);
    UpdateFrame(r, table[a.typ], a, s);
    FrameInStep(r.tok, r.isPrivate, s, o.store, Touched(a.typ));
    if a.typ == CKA_CHECK_VALUE || a.typ == CKA_VALUE_LEN || (a.typ == CKA_VALUE && r.op.Create?) {
      UpdateAttrInStep(r, a, s);
    }
    assert SecretKey(s) ==> !IsClass(s, CKO_CERTIFICATE);
    hide UpdateAttr, InStep, SecretKey, Sound, KindOf, Refusal, SameExcept;
  }

  // ----- whole templates and whole lives -----

  lemma {:induction false} ApplyInStep(r: Request, table: Table, template: Template, s: Store)
    requires Sound(r.tok) && GuardsValue(table)
    requires r.op.Create? || Alters(r.op)
    requires SecretKey(s) && InStep(r.tok, r.isPrivate, s)
    ensures var o := Apply(r, table, template, s);
      && SecretKey(o.store)
      && (o.rv.OK? || Alters(r.op) ==> InStep(r.tok, r.isPrivate, o.store))
  {
    hide Update, InStep, SecretKey, Sound, GuardsValue;
    if template != [] {
      var n := |template| - 1;
      var a := template[n];
      var before := Apply(r, table, template[..n], s);
      ApplyInStep(r, table, template[..n], s);
      if before.rv.OK? && a.typ in table {
        UpdateInStep(r.(iv := r.iv + 2 * n), table, a, before.store);
      }
    }
  }

  lemma ClassGuardsValue(c: ObjectClass)
    requires c.Secret()
    ensures GuardsValue(c.Table())
  {
    assert CKA_VALUE !in ObjectTable() && CKA_VALUE !in KeyTable() && CKA_VALUE !in SecretTable();
    assert GuardedTable()[CKA_VALUE] == {Ck1, Ck4, Ck6, Ck7};
    hide ObjectTable, KeyTable, GuardedTable, PrivateTable, SecretTable, CertificateTable;
  }

  lemma DuplicateInStep(tok: Token, upgrade: bool, ivs: nat -> nat, s: Store)
    requires Sound(tok) && SecretKey(s) && InStep(tok, Privacy(s), s)
    requires Duplicate(tok, upgrade, ivs, s).Some? && (upgrade ==> !Privacy(s))
    ensures var copied := Duplicate(tok, upgrade, ivs, s).value;
      && SecretKey(copied) && InStep(tok, upgrade || Privacy(s), copied) && Privacy(copied) == Privacy(s)
      && Opened(tok, upgrade || Privacy(s), GetText(copied, CKA_VALUE)) == Opened(tok, Privacy(s), GetText(s, CKA_VALUE))
  {
    if upgrade {
      var copied := Duplicate(tok, upgrade, ivs, s).value;
      forall t | t in {CKA_VALUE, CKA_CHECK_VALUE}
        ensures Opened(tok, true, GetText(copied, t)) == Opened(tok, false, GetText(s, t))
      {
        if t in s && s[t].Text? && s[t].bytes != [] {
          assert Upgraded(tok, ivs(t), s[t]).Some?;
          SealedOpens(tok, true, ivs(t), s[t].bytes);
        }
      }
      hide Sound, Opened;
    }
  }

  lemma SaveInStep(r: Request, c: ObjectClass, template: Template, s: Store)
    requires Sound(r.tok) && c.Secret() && (r.op.Create? || Alters(r.op))
    requires SecretKey(s) && InStep(r.tok, r.isPrivate, s)
    ensures var o := Save(r, c.Table(), template, s);
      && SecretKey(o.store)
      && (o.rv.OK? || Alters(r.op) ==> InStep(r.tok, r.isPrivate, o.store))
  {
    ClassGuardsValue(c);
    hide Apply, Complete, InStep, SecretKey, Sound, GuardsValue;
    ApplyInStep(r, c.Table(), template, s);
  }

  /** Who is logged in makes no difference to what the ciphers do. */
  lemma LoginIsImmaterial(tok: Token, so: bool)
    requires Sound(tok)
    ensures Sound(tok.(so := so))
    ensures forall p, s {:trigger InStep(tok, p, s)} {:trigger InStep(tok.(so := so), p, s)} ::
      InStep(tok.(so := so), p, s) <==> InStep(tok, p, s)
  {
  }

  /** The object is a key of the class it is wrapped in. */
  predicate KeyOf(c: ObjectClass, s: Store) { SecretKey(s) && KeyTypeOf(s) == c.KeyType() }

  predicate HasLength(c: ObjectClass, s: Store) { CKA_VALUE_LEN in c.Table() ==> CKA_VALUE_LEN in s }

  predicate EmptyValue(tok: Token, isPrivate: bool, s: Store) { Opened(tok, isPrivate, GetText(s, CKA_VALUE)) == Some([]) }

  lemma KeyDefaults()
    ensures DefaultOf(CKA_VALUE) == DefaultOf(CKA_CHECK_VALUE) == Text([]) && DefaultOf(CKA_VALUE_LEN) == Number(0)
    ensures DefaultOf(CKA_PRIVATE) == Flag(true)
  {
  }

  lemma InitKey(c: ObjectClass, s: Store)
    requires c.Secret() && KeyOf(c, s)
    ensures KeyOf(c, c.Init(s)) && HasLength(c, c.Init(s)) && Privacy(c.Init(s)) == Privacy(s)
    ensures GetText(c.Init(s), CKA_VALUE) == GetText(s, CKA_VALUE)
    ensures GetText(c.Init(s), CKA_CHECK_VALUE) == GetText(s, CKA_CHECK_VALUE)
    ensures CKA_VALUE_LEN in s ==> CKA_VALUE_LEN in c.Init(s) && c.Init(s)[CKA_VALUE_LEN] == s[CKA_VALUE_LEN]
    ensures CKA_VALUE_LEN !in s && CKA_VALUE_LEN in c.Init(s) ==>
      CKA_VALUE_LEN in c.Table() && c.Init(s)[CKA_VALUE_LEN] == Number(0)
  {
    KeyDefaults();
    hide ObjectClass.Table, DefaultOf;
  }

  lemma InitAddsLength(c: ObjectClass, s: Store)
    ensures CKA_VALUE_LEN in c.Table() ==> CKA_VALUE_LEN in c.Init(s)
  {
    if CKA_VALUE_LEN in c.Table() { InitAdds(c, s, CKA_VALUE_LEN); }
    hide ObjectClass.Table, ObjectClass.Init;
  }

  /** Wrapping gives a key without CKA_VALUE_LEN the length 0: right for an empty value, and for no other. */
  lemma InitInStep(tok: Token, c: ObjectClass, isPrivate: bool, s: Store)
    requires c.Secret() && KeyOf(c, s) && InStep(tok, isPrivate, s)
    ensures InStep(tok, isPrivate, c.Init(s)) <==> HasLength(c, s) || EmptyValue(tok, isPrivate, s)
  {
    InitKey(c, s);
    InitAddsLength(c, s);
    hide ObjectClass.Table, ObjectClass.Init, Opened, ExposesCheckValue, Privacy;
  }

  function BareKey(b: byte): Store {
    map[CKA_CLASS := Number(CKO_SECRET_KEY), CKA_KEY_TYPE := Number(CKK_AES), CKA_PRIVATE := Flag(false),
        CKA_VALUE := Text([b])]
  }

  lemma BareKeyFacts(b: byte)
    ensures SecretKey(BareKey(b)) && KeyTypeOf(BareKey(b)) == CKK_AES && !Privacy(BareKey(b))
    ensures GetText(BareKey(b), CKA_VALUE) == [b] && GetText(BareKey(b), CKA_CHECK_VALUE) == []
    ensures CKA_VALUE_LEN !in BareKey(b)
  {
  }

  /** A key with a value and no length, which wrapping puts out of step. */
  lemma LengthInvented(tok: Token, b: byte)
    ensures KeyOf(AesKey, BareKey(b)) && InStep(tok, false, BareKey(b)) && !InStep(tok, false, AesKey.Init(BareKey(b)))
  {
    hide ObjectClass.Init, ObjectClass.Table, BareKey, SecretKey, KeyTypeOf, GetText;
    BareKeyFacts(b);
    AesHasLength();
    InitInStep(tok, AesKey, false, BareKey(b));
  }

  lemma AesHasLength()
    ensures CKA_VALUE_LEN in AesKey.Table()
  {
    hide ObjectTable, KeyTable, GuardedTable, SecretTable;
  }

  /** Wrapping and then saving, in either of the calls that write. */
  lemma WrapAndSaveInStep(r: Request, c: ObjectClass, template: Template, s: Store)
    requires Sound(r.tok) && c.Secret() && Alters(r.op)
    requires KeyOf(c, s) && InStep(r.tok, r.isPrivate, c.Init(s))
    ensures var s' := Save(r, c.Table(), template, c.Init(s)).store;
      KeyOf(c, s') && HasLength(c, s') && InStep(r.tok, r.isPrivate, s')
  {
    hide Save, InStep, Sound, ObjectClass.Init, ObjectClass.Table, SecretKey;
    InitKey(c, s);
    SaveInStep(r, c, template, c.Init(s));
    SaveTightens(r, c, template, c.Init(s));
    SaveKeys(r, c.Table(), template, c.Init(s));
    hide GetNumber, Sheltered;
  }

  lemma AfterInStep(tok: Token, c: ObjectClass, step: Step, s: Store)
    requires Sound(tok) && c.Secret() && KeyOf(c, s) && InStep(tok, Privacy(s), s)
    requires HasLength(c, s) || EmptyValue(tok, Privacy(s), s)
    ensures var s' := After(tok, c, step, s);
      KeyOf(c, s') && InStep(tok, Privacy(s'), s') && (HasLength(c, s') || EmptyValue(tok, Privacy(s'), s'))
  {
    hide Save, AskedPrivacy, Duplicate, InStep, KeyOf, HasLength, EmptyValue, Sound, ObjectClass.Init,
      ObjectClass.Table, Privacy;
    var was := Privacy(s);
    InitKey(c, s);
    InitInStep(tok, c, was, s);
    match step
    case GetStep =>
    case SetStep(so, iv, template) =>
      LoginIsImmaterial(tok, so);
      WrapAndSaveInStep(Request(tok.(so := so), was, Set, iv), c, template, s);
      SavePrivacy(Request(tok.(so := so), was, Set, iv), c, template, c.Init(s));
    case CopyStep(so, iv, template, ivs) =>
      LoginIsImmaterial(tok, so);
      var isPrivate := AskedPrivacy(template, was);
      var copied := Duplicate(tok, isPrivate && !was, ivs, s);
      if copied.Some? && !(was && !isPrivate) {
        CopyInStep(tok, c, isPrivate && !was, ivs, s);
        WrapAndSaveInStep(Request(tok.(so := so), isPrivate, Copy, iv), c, template, copied.value);
        SavePrivacy(Request(tok.(so := so), isPrivate, Copy, iv), c, template, c.Init(copied.value));
      }
  }

  /** The duplicate, wrapped, is in step under the privacy it is to have. */
  lemma CopyInStep(tok: Token, c: ObjectClass, upgrade: bool, ivs: nat -> nat, s: Store)
    requires Sound(tok) && c.Secret() && KeyOf(c, s) && InStep(tok, Privacy(s), s)
    requires HasLength(c, s) || EmptyValue(tok, Privacy(s), s)
    requires Duplicate(tok, upgrade, ivs, s).Some? && (upgrade ==> !Privacy(s))
    ensures var copied := Duplicate(tok, upgrade, ivs, s).value;
      KeyOf(c, copied) && InStep(tok, upgrade || Privacy(s), c.Init(copied)) && Privacy(c.Init(copied)) == Privacy(s)
  {
    hide ObjectClass.Init, ObjectClass.Table, Sound;
    var copied := Duplicate(tok, upgrade, ivs, s).value;
    DuplicateInStep(tok, upgrade, ivs, s);
    DuplicateTightens(tok, upgrade, ivs, s);
    InitKey(c, copied);
    InitInStep(tok, c, upgrade || Privacy(s), copied);
  }

  lemma DefaultsInStep(tok: Token, isPrivate: bool, keyType: nat, s: Store)
    requires CKA_CLASS in s && s[CKA_CLASS] == Number(CKO_SECRET_KEY)
    requires CKA_KEY_TYPE in s && s[CKA_KEY_TYPE] == Number(keyType) && keyType != CKK_GOST28147
    requires forall t | t in {CKA_VALUE, CKA_CHECK_VALUE, CKA_VALUE_LEN} && t in s :: s[t] == DefaultOf(t)
    ensures SecretKey(s) && InStep(tok, isPrivate, s)
  {
    assert DefaultOf(CKA_VALUE) == DefaultOf(CKA_CHECK_VALUE) == Text([]) && DefaultOf(CKA_VALUE_LEN) == Number(0);
    hide DefaultOf;
  }

  lemma FreshInStep(tok: Token, c: ObjectClass, isPrivate: bool)
    requires c.Secret() && c.KeyType() != CKK_GOST28147
    ensures SecretKey(c.Init(map[])) && InStep(tok, isPrivate, c.Init(map[]))
  {
    hide ObjectClass.Table, DefaultOf, InStep, SecretKey;
    DefaultsInStep(tok, isPrivate, c.KeyType(), c.Init(map[]));
  }

  lemma {:induction false} LifeStep(tok: Token, c: ObjectClass, steps: seq<Step>, s: Store)
    requires Sound(tok) && c.Secret() && KeyOf(c, s) && InStep(tok, Privacy(s), s)
    requires HasLength(c, s) || EmptyValue(tok, Privacy(s), s)
    ensures var s' := Life(tok, c, steps, s);
      KeyOf(c, s') && InStep(tok, Privacy(s'), s') && (HasLength(c, s') || EmptyValue(tok, Privacy(s'), s'))
  {
    hide After, InStep, KeyOf, Privacy, Sound, HasLength, EmptyValue;
    if steps != [] {
      var n := |steps| - 1;
      LifeStep(tok, c, steps[..n], s);
      AfterInStep(tok, c, steps[n], Life(tok, c, steps[..n], s));
    }
  }

  ghost predicate AlwaysInStep(tok: Token, c: ObjectClass, s: Store) {
    forall steps :: InStep(tok, Privacy(Life(tok, c, steps, s)), Life(tok, c, steps, s))
  }

  /** A key that is in step stays so through every life exactly if it has a length where its class has one, or an empty
      value. */
  lemma LifeInStep(tok: Token, c: ObjectClass, s: Store)
    requires Sound(tok) && c.Secret() && KeyOf(c, s) && InStep(tok, Privacy(s), s)
    ensures AlwaysInStep(tok, c, s) <==> HasLength(c, s) || EmptyValue(tok, Privacy(s), s)
  {
    hide Life, InStep, KeyOf, Privacy, Sound, HasLength, EmptyValue, ObjectClass.Init;
    if HasLength(c, s) || EmptyValue(tok, Privacy(s), s) {
      forall steps ensures InStep(tok, Privacy(Life(tok, c, steps, s)), Life(tok, c, steps, s)) { LifeStep(tok, c, steps, s); }
    }
    if AlwaysInStep(tok, c, s) {
      OneReading(tok, c, s);
      InitKey(c, s);
      InitInStep(tok, c, Privacy(s), s);
      assert InStep(tok, Privacy(Life(tok, c, [GetStep], s)), Life(tok, c, [GetStep], s));
    }
  }

  lemma CreatedInStep(tok: Token, c: ObjectClass, so: bool, iv: nat, template: Template)
    requires Sound(tok) && c.Secret() && c.KeyType() != CKK_GOST28147 && CreateCall(tok, c, so, iv, template).rv.OK?
    ensures var s := CreateCall(tok, c, so, iv, template).store;
      KeyOf(c, s) && HasLength(c, s) && InStep(tok, Privacy(s), s)
  {
    hide Save, AskedPrivacy, InStep, Sound, Settled, Privacy, ObjectClass.Init, ObjectClass.Table, SecretKey, KeyTypeOf;
    var r := Request(tok.(so := so), AskedPrivacy(template, true), Create, iv);
    LoginIsImmaterial(tok, so);
    FreshInStep(r.tok, c, r.isPrivate);
    SaveInStep(r, c, template, c.Init(map[]));
    CreatePrivacy(tok, c, so, iv, template);
    InitSettles(c, map[]);
    SaveSettled(r, c, template, c.Init(map[]));
    SettledKey(c, Save(r, c.Table(), template, c.Init(map[])).store);
  }

  lemma SettledKey(c: ObjectClass, s: Store)
    requires c.Secret() && Settled(c, s)
    ensures KeyTypeOf(s) == c.KeyType() && HasLength(c, s)
  {
    SettledExactly(c, s);
    hide ObjectClass.Table, Settled;
  }

  /** Whatever the creation template and its order and repetitions, and whatever is read, set or copied later, the
      check value of a secret key decodes to nothing or to that of its value, and the length is its value's. */
  lemma KeyStaysInStep(tok: Token, c: ObjectClass, so: bool, iv: nat, template: Template, steps: seq<Step>)
    requires Sound(tok) && c.Secret() && c.KeyType() != CKK_GOST28147 && CreateCall(tok, c, so, iv, template).rv.OK?
    ensures var s := Life(tok, c, steps, CreateCall(tok, c, so, iv, template).store);
      InStep(tok, Privacy(s), s)
  {
    hide InStep, Sound, Life, CreateCall, KeyOf, HasLength, Privacy;
    CreatedInStep(tok, c, so, iv, template);
    LifeStep(tok, c, steps, CreateCall(tok, c, so, iv, template).store);
  }

  /** An offered check value is stored exactly when it is empty, or is the key's own, or the key type is
      CKK_GOST28147, for which anything is taken: that is why `KeyStaysInStep` leaves it out. */
  lemma CheckValueAccepted(r: Request, plain: Bytes, s: Store)
    requires Sound(r.tok) && Sealed(r.tok, r.isPrivate, r.iv, plain).Some?
    requires Opened(r.tok, r.isPrivate, GetText(s, CKA_VALUE)).Some?
    ensures var key := Opened(r.tok, r.isPrivate, GetText(s, CKA_VALUE)).value;
      var o := StoreCheckValue(r, Octets(plain), |plain|, s);
      && (o.rv.OK? <==>
            || plain == []
            || KeyTypeOf(s) == CKK_GOST28147
            || (ExposesCheckValue(KeyTypeOf(s)) && plain == r.tok.keyCheck(KeyTypeOf(s), key)))
      && (o.rv.OK? ==> Opened(r.tok, r.isPrivate, GetText(o.store, CKA_CHECK_VALUE)) == Some(plain))
      && (!o.rv.OK? ==> o.store == s)
  {
    SealedOpens(r.tok, r.isPrivate, r.iv, plain);
    assert plain[..|plain|] == plain;
    assert r.tok.decrypt([]) == Some([]);
  }
}
