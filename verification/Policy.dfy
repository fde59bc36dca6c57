/** What holds over whole lives of an object: flags that move one way only, and a key's check value
    and length that stay in step with its value (P11Attributes.cpp, C_SetAttributeValue and
    C_CopyObject of SoftHSM.cpp). */
module Policy {
  import opened Octets
  import opened Cryptoki
  import opened Attributes
  import opened Objects
  import opened Wrappers

  // ----- the ratchet -----

  predicate AlwaysSensitive(s: Store) { GetFlag(s, CKA_ALWAYS_SENSITIVE, false) }

  predicate NeverExtractable(s: Store) { GetFlag(s, CKA_NEVER_EXTRACTABLE, false) }

  predicate WrapsWithTrusted(s: Store) { GetFlag(s, CKA_WRAP_WITH_TRUSTED, false) }

  /** `s'` is at least as protected as `s`. */
  predicate Sheltered(s: Store, s': Store) {
    && (IsSensitive(s) ==> IsSensitive(s'))
    && (WrapsWithTrusted(s) ==> WrapsWithTrusted(s'))
    && (IsTrusted(s) ==> IsTrusted(s'))
    && (IsExtractable(s') ==> IsExtractable(s))
    && (IsCopyable(s') ==> IsCopyable(s))
    && (IsModifiable(s') ==> IsModifiable(s))
  }

  /** Moreover it claims no more about its past, and is the same kind of object. */
  predicate Tightened(s: Store, s': Store) {
    && Sheltered(s, s')
    && (AlwaysSensitive(s') ==> AlwaysSensitive(s))
    && (NeverExtractable(s') ==> NeverExtractable(s))
    && GetNumber(s', CKA_CLASS, VENDOR_DEFINED) == GetNumber(s, CKA_CLASS, VENDOR_DEFINED)
    && KeyTypeOf(s') == KeyTypeOf(s)
  }

  /** Only a sensitive key can have been sensitive always. */
  predicate Coherent(s: Store) { AlwaysSensitive(s) ==> IsSensitive(s) }

  const RATCHET: set<nat> := {CKA_SENSITIVE, CKA_WRAP_WITH_TRUSTED, CKA_TRUSTED, CKA_EXTRACTABLE, CKA_COPYABLE,
    CKA_MODIFIABLE, CKA_ALWAYS_SENSITIVE, CKA_NEVER_EXTRACTABLE, CKA_CLASS, CKA_KEY_TYPE}

  /** The one footnote fact the ratchet needs: CKA_TRUSTED is open to nobody but the SO. */
  predicate GuardsTrusted(table: Table) { CKA_TRUSTED in table ==> table[CKA_TRUSTED] == {Ck10} }

  lemma RisingFlagTightens(r: Request, checks: set<Check>, a: Attribute, s: Store)
    requires Alters(r.op)
    requires a.typ == CKA_SENSITIVE || a.typ == CKA_WRAP_WITH_TRUSTED || (a.typ == CKA_TRUSTED && checks == {Ck10})
    ensures Tightened(s, Update(r, checks, a, s).store)
  {
  }

  lemma FlagTightens(r: Request, checks: set<Check>, a: Attribute, s: Store)
    requires Alters(r.op)
    requires a.typ in RATCHET && (a.typ == CKA_TRUSTED ==> checks == {Ck10})
    ensures Tightened(s, Update(r, checks, a, s).store)
  {
    if a.typ == CKA_SENSITIVE || a.typ == CKA_WRAP_WITH_TRUSTED || a.typ == CKA_TRUSTED {
      RisingFlagTightens(r, checks, a, s);
      hide Update, Tightened;
    }
  }

  lemma UpdateTightens(r: Request, checks: set<Check>, a: Attribute, s: Store)
    requires Alters(r.op)
    requires a.typ == CKA_TRUSTED ==> checks == {Ck10}
    ensures Tightened(s, Update(r, checks, a, s).store)
  {
    if a.typ in RATCHET {
      FlagTightens(r, checks, a, s);
    } else {
      UpdateFrame(r, checks, a, s);
      hide Update;
    }
  }

  /** Every operation, creation included, keeps an always-sensitive key sensitive. */
  lemma UpdateCoherent(r: Request, checks: set<Check>, a: Attribute, s: Store)
    requires Coherent(s)
    ensures Coherent(Update(r, checks, a, s).store)
  {
    if a.typ == CKA_SENSITIVE || a.typ == CKA_ALWAYS_SENSITIVE {
    } else {
      UpdateFrame(r, checks, a, s);
      hide Update;
    }
  }

  /** CKA_TRUSTED never becomes true unless the SO is logged in. */
  lemma OnlyTheSOTrusts(r: Request, checks: set<Check>, a: Attribute, s: Store)
    requires !IsTrusted(s) && IsTrusted(Update(r, checks, a, s).store)
    ensures r.tok.so
  {
    if a.typ != CKA_TRUSTED {
      UpdateFrame(r, checks, a, s);
      hide Update;
    }
  }

  /** CKA_ALWAYS_AUTHENTICATE never becomes true on a public object. */
  lemma OnlyPrivateAuthenticates(r: Request, checks: set<Check>, a: Attribute, s: Store)
    requires !GetFlag(s, CKA_ALWAYS_AUTHENTICATE, false)
    requires GetFlag(Update(r, checks, a, s).store, CKA_ALWAYS_AUTHENTICATE, false)
    ensures r.isPrivate
  {
    if a.typ != CKA_ALWAYS_AUTHENTICATE {
      UpdateFrame(r, checks, a, s);
      hide Update;
    }
  }

  lemma TightenedIsPreorder(s: Store)
    ensures Tightened(s, s)
    ensures forall t, u :: Tightened(s, t) && Tightened(t, u) ==> Tightened(s, u)
  {
  }

  lemma ShelteredIsPreorder(s: Store)
    ensures Sheltered(s, s)
    ensures forall t, u :: Sheltered(s, t) && Sheltered(t, u) ==> Sheltered(s, u)
  {
  }

  lemma {:induction false} ApplyTightens(r: Request, table: Table, template: Template, s: Store)
    requires Alters(r.op) && GuardsTrusted(table)
    ensures Tightened(s, Apply(r, table, template, s).store)
  {
    TightenedIsPreorder(s);
    hide Update, Tightened;
    if template != [] {
      var n := |template| - 1;
      var before := Apply(r, table, template[..n], s);
      var a := template[n];
      ApplyTightens(r, table, template[..n], s);
      if before.rv.OK? && a.typ in table {
        UpdateTightens(r.(iv := r.iv + 2 * n), table[a.typ], a, before.store);
      }
    }
  }

  lemma {:induction false} ApplyCoherent(r: Request, table: Table, template: Template, s: Store)
    requires Coherent(s)
    ensures Coherent(Apply(r, table, template, s).store)
  {
    hide Update, Coherent;
    if template != [] {
      var n := |template| - 1;
      var before := Apply(r, table, template[..n], s);
      var a := template[n];
      ApplyCoherent(r, table, template[..n], s);
      if before.rv.OK? && a.typ in table {
        UpdateCoherent(r.(iv := r.iv + 2 * n), table[a.typ], a, before.store);
      }
    }
  }

  // ----- lives of an object -----

  /** One call on an object; reading attributes wraps it too.  `so` says who is logged in; `ivs` are the vectors drawn
      while copying. */
  datatype Step =
    | GetStep
    | SetStep(so: bool, iv: nat, template: Template)
    | CopyStep(so: bool, iv: nat, template: Template, ivs: nat -> nat)

  /** Whether the object's byte strings are sealed. */
  predicate Privacy(s: Store) { GetFlag(s, CKA_PRIVATE, true) }

  /** Where the object lives, and so whether its transactions can be rolled back. */
  predicate IsOnToken(s: Store) { GetFlag(s, CKA_TOKEN, false) }

  /** The privacy that a template asks for: its last well-formed CKA_PRIVATE, else `was`. */
  function AskedPrivacy(template: Template, was: bool): bool {
    if template == [] then was
    else
      var a := template[|template| - 1];
      if a.typ == CKA_PRIVATE && a.len == SIZEOF_CK_BBOOL && !a.value.Null? then ReadFlag(a.value, a.len)
      else AskedPrivacy(template[..|template| - 1], was)
  }

  /** The value of one attribute on a private copy of a public object. */
  function Upgraded(tok: Token, iv: nat, v: Stored): Option<Stored> {
    if !v.Text? || v.bytes == [] then Some(v)
    else
      match tok.encrypt(iv, v.bytes)
      case None => None
      case Some(c) => Some(Text(c))
  }

  function Duplicate(tok: Token, upgrade: bool, ivs: nat -> nat, s: Store): Option<Store> {
    if !upgrade then Some(s)
    else if exists t :: t in s && Upgraded(tok, ivs(t), s[t]).None? then None
    else Some(map t | t in s :: Upgraded(tok, ivs(t), s[t]).value)
  }

  /** C_CreateObject once the session may write.  A certificate is public unless the template says otherwise. */
  function CreateCall(tok: Token, c: ObjectClass, so: bool, iv: nat, template: Template): Outcome {
    var isPrivate := AskedPrivacy(template, !c.X509Certificate?);
    Save(Request(tok.(so := so), isPrivate, Create, iv), c.Table(), template, c.Init(map[]))
  }

  /** C_CopyObject once the session may write: the new object, if there is one. */
  function CopyCall(tok: Token, c: ObjectClass, so: bool, iv: nat, template: Template, ivs: nat -> nat, s: Store)
    : Option<Store>
  {
    var was := Privacy(s);
    var isPrivate := AskedPrivacy(template, was);
    if !IsCopyable(s) || (was && !isPrivate) || CKA_CLASS !in s then None
    else
      match Duplicate(tok, isPrivate && !was, ivs, s)
      case None => None
      case Some(copied) =>
        var o := Save(Request(tok.(so := so), isPrivate, Copy, iv), c.Table(), template, c.Init(copied));
        if o.rv.OK? then Some(o.store) else None
  }

  /** What the caller goes on with: after GET and SET the object itself, after COPY the new object if there is one.
      `tok` supplies the ciphers, which stay the same whoever is logged in. */
  function After(tok: Token, c: ObjectClass, step: Step, s: Store): Store {
    match step
    case GetStep => c.Init(s)
    case SetStep(so, iv, template) =>
      SetCall(Request(tok.(so := so), Privacy(s), Set, iv), c, IsOnToken(s), template, s).store
    case CopyStep(so, iv, template, ivs) =>
      match CopyCall(tok, c, so, iv, template, ivs, s)
      case None => s
      case Some(copy) => copy
  }

  function Life(tok: Token, c: ObjectClass, steps: seq<Step>, s: Store): Store {
    if steps == [] then s
    else After(tok, c, steps[|steps| - 1], Life(tok, c, steps[..|steps| - 1], s))
  }

  // ----- settled objects -----

  /** Wrapping the object changes nothing: it has every attribute of its class. */
  predicate Settled(c: ObjectClass, s: Store) { c.Init(s) == s }

  /** The number that identifies the class beside CKA_CLASS, and its attribute. */
  function KindType(c: ObjectClass): nat { if c.X509Certificate? then CKA_CERTIFICATE_TYPE else CKA_KEY_TYPE }

  function KindCode(c: ObjectClass): nat { if c.X509Certificate? then CKC_X_509 else c.KeyType() }

  predicate Whole(c: ObjectClass, s: Store) {
    && c.Table().Keys <= s.Keys
    && CKA_CLASS in s && s[CKA_CLASS] == Number(c.ClassCode())
    && KindType(c) in s && s[KindType(c)] == Number(KindCode(c))
  }

  lemma PrivateEverywhere(c: ObjectClass)
    ensures CKA_PRIVATE in c.Table()
  {
    assert CKA_PRIVATE in ObjectTable();
    hide ObjectTable, KeyTable, GuardedTable, PrivateTable, SecretTable, CertificateTable;
  }

  lemma SettledExactly(c: ObjectClass, s: Store)
    ensures Settled(c, s) <==> Whole(c, s)
  {
    PrivateEverywhere(c);
    hide ObjectClass.Table, DefaultOf;
    if Settled(c, s) {
      assert forall t :: t in c.Table() ==> t in c.Init(s);
    }
  }

  /** Wrapping settles an object for good. */
  lemma InitSettles(c: ObjectClass, s: Store)
    ensures Settled(c, c.Init(s))
  {
    SettledExactly(c, c.Init(s));
    hide ObjectClass.Table, DefaultOf, Settled;
  }

  lemma InitAt(c: ObjectClass, s: Store, t: nat)
    requires t != CKA_CLASS && t != CKA_PRIVATE && t != CKA_KEY_TYPE && t != CKA_CERTIFICATE_TYPE
    ensures t in s ==> t in c.Init(s) && c.Init(s)[t] == s[t]
    ensures t !in s && t in c.Init(s) ==> c.Init(s)[t] == DefaultOf(t)
  {
    hide ObjectClass.Table, DefaultOf;
  }

  /** Wrapping makes no difference to a flag whose default is the one its reader supposes. */
  lemma FlagSurvives(c: ObjectClass, s: Store, t: nat, default: bool)
    requires t != CKA_CLASS && t != CKA_PRIVATE && t != CKA_KEY_TYPE && t != CKA_CERTIFICATE_TYPE
    requires DefaultOf(t) == Flag(default)
    ensures GetFlag(c.Init(s), t, default) == GetFlag(s, t, default)
  {
    InitAt(c, s, t);
    hide ObjectClass.Init, DefaultOf;
  }

  lemma ShelterDefaults()
    ensures DefaultOf(CKA_SENSITIVE) == DefaultOf(CKA_ALWAYS_SENSITIVE) == DefaultOf(CKA_WRAP_WITH_TRUSTED) == Flag(false)
    ensures DefaultOf(CKA_TRUSTED) == Flag(false)
    ensures DefaultOf(CKA_EXTRACTABLE) == DefaultOf(CKA_COPYABLE) == DefaultOf(CKA_MODIFIABLE) == Flag(true)
  {
  }

  /** Wrapping an object, settled or not, protects it no less and keeps it coherent. */
  lemma InitShelters(c: ObjectClass, s: Store)
    ensures Sheltered(s, c.Init(s)) && IsModifiable(c.Init(s)) == IsModifiable(s) && IsCopyable(c.Init(s)) == IsCopyable(s)
    ensures Coherent(s) ==> Coherent(c.Init(s))
  {
    hide ObjectClass.Init, DefaultOf, GetFlag;
    ShelterDefaults();
    FlagSurvives(c, s, CKA_SENSITIVE, false);
    FlagSurvives(c, s, CKA_ALWAYS_SENSITIVE, false);
    FlagSurvives(c, s, CKA_WRAP_WITH_TRUSTED, false);
    FlagSurvives(c, s, CKA_TRUSTED, false);
    FlagSurvives(c, s, CKA_EXTRACTABLE, true);
    FlagSurvives(c, s, CKA_COPYABLE, true);
    FlagSurvives(c, s, CKA_MODIFIABLE, true);
  }

  lemma NeverExtractableOfKeys(c: ObjectClass)
    requires !c.X509Certificate?
    ensures CKA_NEVER_EXTRACTABLE in c.Table()
  {
    assert CKA_NEVER_EXTRACTABLE in GuardedTable();
    hide ObjectTable, KeyTable, GuardedTable, PrivateTable, SecretTable, CertificateTable;
  }

  lemma InitAdds(c: ObjectClass, s: Store, t: nat)
    requires t in c.Table()
    ensures t in c.Init(s)
  {
    hide ObjectClass.Table, DefaultOf;
  }

  lemma PastDefault()
    ensures DefaultOf(CKA_NEVER_EXTRACTABLE) == Flag(true)
  {
  }

  /** But a key that lacks CKA_NEVER_EXTRACTABLE comes to claim it. */
  lemma InitClaimsThePast(c: ObjectClass, s: Store)
    requires !c.X509Certificate? && CKA_NEVER_EXTRACTABLE !in s
    ensures !NeverExtractable(s) && NeverExtractable(c.Init(s))
  {
    hide ObjectClass.Table, ObjectClass.Init, DefaultOf;
    PastDefault();
    NeverExtractableOfKeys(c);
    InitAdds(c, s, CKA_NEVER_EXTRACTABLE);
    InitAt(c, s, CKA_NEVER_EXTRACTABLE);
  }

  /** Attributes are not lost and the numbers that name the class do not change. */
  predicate SameKind(s: Store, s': Store) {
    && s.Keys <= s'.Keys
    && forall t | t in {CKA_CLASS, CKA_KEY_TYPE, CKA_CERTIFICATE_TYPE} && t in s :: s[t].Number? ==> s'[t] == s[t]
  }

  lemma UpdateSameKind(r: Request, checks: set<Check>, a: Attribute, s: Store)
    ensures SameKind(s, Update(r, checks, a, s).store)
  {
    UpdateFrame(r, checks, a, s);
    hide Update;
  }

  lemma SameKindIsPreorder(s: Store)
    ensures SameKind(s, s)
    ensures forall t, u :: SameKind(s, t) && SameKind(t, u) ==> SameKind(s, u)
  {
  }

  lemma {:induction false} ApplySameKind(r: Request, table: Table, template: Template, s: Store)
    ensures SameKind(s, Apply(r, table, template, s).store)
  {
    SameKindIsPreorder(s);
    hide Update, SameKind;
    if template != [] {
      var n := |template| - 1;
      var before := Apply(r, table, template[..n], s);
      var a := template[n];
      ApplySameKind(r, table, template[..n], s);
      if before.rv.OK? && a.typ in table {
        UpdateSameKind(r.(iv := r.iv + 2 * n), table[a.typ], a, before.store);
      }
    }
  }

  lemma SameKindSettled(c: ObjectClass, s: Store, s': Store)
    requires Settled(c, s) && SameKind(s, s')
    ensures Settled(c, s')
  {
    SettledExactly(c, s);
    SettledExactly(c, s');
    hide Settled, ObjectClass.Table;
  }

  lemma SaveSettled(r: Request, c: ObjectClass, template: Template, s: Store)
    requires Settled(c, s)
    ensures Settled(c, Save(r, c.Table(), template, s).store)
  {
    hide Apply, Complete, Settled, SameKind, ObjectClass.Table;
    ApplySameKind(r, c.Table(), template, s);
    SameKindSettled(c, s, Apply(r, c.Table(), template, s).store);
  }

  lemma DuplicateSettled(tok: Token, c: ObjectClass, upgrade: bool, ivs: nat -> nat, s: Store)
    requires Settled(c, s) && Duplicate(tok, upgrade, ivs, s).Some?
    ensures Settled(c, Duplicate(tok, upgrade, ivs, s).value)
  {
    hide Settled;
    SameKindSettled(c, s, Duplicate(tok, upgrade, ivs, s).value);
  }

  /** Settled objects stay settled, and what a call does to them is done by the template alone. */
  lemma AfterSettled(tok: Token, c: ObjectClass, step: Step, s: Store)
    requires Settled(c, s)
    ensures Settled(c, After(tok, c, step, s))
  {
    hide Save, Duplicate, AskedPrivacy, Settled, ObjectClass.Table, ObjectClass.Init;
    SettledInit(c, s);
    match step
    case GetStep =>
    case SetStep(so, iv, template) =>
      SaveSettled(Request(tok.(so := so), Privacy(s), Set, iv), c, template, s);
    case CopyStep(so, iv, template, ivs) =>
      var isPrivate := AskedPrivacy(template, Privacy(s));
      var copied := Duplicate(tok, isPrivate && !Privacy(s), ivs, s);
      if copied.Some? {
        DuplicateSettled(tok, c, isPrivate && !Privacy(s), ivs, s);
        SettledInit(c, copied.value);
        SaveSettled(Request(tok.(so := so), isPrivate, Copy, iv), c, template, copied.value);
      }
  }

  lemma SettledInit(c: ObjectClass, s: Store)
    requires Settled(c, s)
    ensures c.Init(s) == s
  {
  }

  lemma {:induction false} LifeSettled(tok: Token, c: ObjectClass, steps: seq<Step>, s: Store)
    requires Settled(c, s)
    ensures Settled(c, Life(tok, c, steps, s))
  {
    hide After, Settled;
    if steps != [] {
      LifeSettled(tok, c, steps[..|steps| - 1], s);
      AfterSettled(tok, c, steps[|steps| - 1], Life(tok, c, steps[..|steps| - 1], s));
    }
  }

  // ----- the ratchet over whole lives -----

  lemma ClassGuardsTrusted(c: ObjectClass)
    ensures GuardsTrusted(c.Table())
  {
    assert CKA_TRUSTED !in ObjectTable() && CKA_TRUSTED !in KeyTable() && CKA_TRUSTED !in GuardedTable();
    assert CKA_TRUSTED !in PrivateTable() && SecretTable()[CKA_TRUSTED] == CertificateTable()[CKA_TRUSTED] == {Ck10};
    hide ObjectTable, KeyTable, GuardedTable, PrivateTable, SecretTable, CertificateTable;
  }

  lemma SaveTightens(r: Request, c: ObjectClass, template: Template, s: Store)
    requires Alters(r.op)
    ensures Tightened(s, Save(r, c.Table(), template, s).store)
    ensures Coherent(s) ==> Coherent(Save(r, c.Table(), template, s).store)
  {
    ClassGuardsTrusted(c);
    TightenedIsPreorder(s);
    hide Apply, Complete, Tightened, GuardsTrusted, Coherent;
    ApplyTightens(r, c.Table(), template, s);
    if Coherent(s) { ApplyCoherent(r, c.Table(), template, s); }
  }

  lemma TightenedShelters(s: Store, s': Store)
    requires Tightened(s, s')
    ensures Sheltered(s, s')
  {
  }

  /** Any call on any object, settled or not, protects it no less and keeps it coherent. */
  lemma AfterShelters(tok: Token, c: ObjectClass, step: Step, s: Store)
    ensures Sheltered(s, After(tok, c, step, s))
    ensures Coherent(s) ==> Coherent(After(tok, c, step, s))
  {
    ShelteredIsPreorder(s);
    hide Save, Duplicate, AskedPrivacy, Sheltered, Tightened, Coherent, ObjectClass.Init, ObjectClass.Table;
    match step
    case GetStep =>
      InitShelters(c, s);
    case SetStep(so, iv, template) =>
      var r := Request(tok.(so := so), Privacy(s), Set, iv);
      InitShelters(c, s);
      SaveTightens(r, c, template, c.Init(s));
      TightenedShelters(c.Init(s), Save(r, c.Table(), template, c.Init(s)).store);
    case CopyStep(so, iv, template, ivs) =>
      var isPrivate := AskedPrivacy(template, Privacy(s));
      var copied := Duplicate(tok, isPrivate && !Privacy(s), ivs, s);
      if copied.Some? {
        DuplicateTightens(tok, isPrivate && !Privacy(s), ivs, s);
        TightenedShelters(s, copied.value);
        ShelteredIsPreorder(copied.value);
        var r := Request(tok.(so := so), isPrivate, Copy, iv);
        InitShelters(c, copied.value);
        SaveTightens(r, c, template, c.Init(copied.value));
        TightenedShelters(c.Init(copied.value), Save(r, c.Table(), template, c.Init(copied.value)).store);
      }
  }

  lemma DuplicateTightens(tok: Token, upgrade: bool, ivs: nat -> nat, s: Store)
    requires Duplicate(tok, upgrade, ivs, s).Some?
    ensures var copied := Duplicate(tok, upgrade, ivs, s).value;
      && Tightened(s, copied) && Tightened(copied, s)
      && (Coherent(s) ==> Coherent(copied))
  {
  }

  /** Over every sequence of calls on any object, whatever their outcomes, later states are at least as protected. */
  lemma {:induction false} LifeShelters(tok: Token, c: ObjectClass, steps: seq<Step>, k: nat, s: Store)
    requires k <= |steps|
    ensures Sheltered(Life(tok, c, steps[..k], s), Life(tok, c, steps, s))
    ensures Coherent(s) ==> Coherent(Life(tok, c, steps, s))
    decreases |steps|
  {
    ShelteredIsPreorder(Life(tok, c, steps[..k], s));
    hide After, Sheltered, Coherent;
    if steps == [] {
      assert steps[..k] == steps;
    } else {
      var n := |steps| - 1;
      var j := if k <= n then k else n;
      assert steps[..n][..j] == steps[..j];
      LifeShelters(tok, c, steps[..n], j, s);
      AfterShelters(tok, c, steps[n], Life(tok, c, steps[..n], s));
      if k > n { assert steps[..k] == steps; }
    }
  }

  lemma TightenedTransitive(s: Store, t: Store, u: Store)
    requires Tightened(s, t) && Tightened(t, u)
    ensures Tightened(s, u)
  {
  }

  lemma TightenedReflexive(s: Store)
    ensures Tightened(s, s)
  {
  }

  // ----- the past -----

  /** The object is of the class it is wrapped in and, if it is a key, says whether it has ever been extractable.
      Other attributes of the class may be missing. */
  predicate KeepsPast(c: ObjectClass, s: Store) {
    && IsClass(s, c.ClassCode())
    && (!c.X509Certificate? ==> CKA_NEVER_EXTRACTABLE in s && KeyTypeOf(s) == c.KeyType())
  }

  lemma KeyTypeOfCertificate(s: Store)
    ensures KeyTypeOf(X509Certificate.Init(s)) == KeyTypeOf(s)
  {
    assert CKA_KEY_TYPE !in ObjectTable() && CKA_KEY_TYPE !in CertificateTable();
    hide ObjectTable, CertificateTable, DefaultOf;
  }

  lemma NeverExtractableOfCertificate(s: Store)
    ensures CKA_NEVER_EXTRACTABLE !in s ==> CKA_NEVER_EXTRACTABLE !in X509Certificate.Init(s)
  {
    assert CKA_NEVER_EXTRACTABLE !in ObjectTable() && CKA_NEVER_EXTRACTABLE !in CertificateTable();
    hide ObjectTable, CertificateTable, DefaultOf;
  }

  lemma InitNumbers(c: ObjectClass, s: Store)
    ensures IsClass(c.Init(s), c.ClassCode())
    ensures !c.X509Certificate? ==> KeyTypeOf(c.Init(s)) == c.KeyType()
  {
    hide ObjectClass.Table, DefaultOf;
  }

  /** Wrapping leaves such objects in a state that keeps the past as well. */
  lemma InitKeepsPast(c: ObjectClass, s: Store)
    ensures KeepsPast(c, c.Init(s))
  {
    InitNumbers(c, s);
    if !c.X509Certificate? {
      NeverExtractableOfKeys(c);
      InitAdds(c, s, CKA_NEVER_EXTRACTABLE);
    }
    hide ObjectClass.Table, ObjectClass.Init;
  }

  /** Wrapping claims nothing new about the past, and leaves the kind of the object alone, on exactly these objects. */
  lemma InitTightens(c: ObjectClass, s: Store)
    ensures Tightened(s, c.Init(s)) <==> KeepsPast(c, s)
  {
    hide ObjectClass.Table, ObjectClass.Init, DefaultOf, Sheltered;
    InitShelters(c, s);
    InitNumbers(c, s);
    InitAt(c, s, CKA_NEVER_EXTRACTABLE);
    ShelterDefaults();
    FlagSurvives(c, s, CKA_ALWAYS_SENSITIVE, false);
    if c.X509Certificate? {
      KeyTypeOfCertificate(s);
      NeverExtractableOfCertificate(s);
    } else if CKA_NEVER_EXTRACTABLE !in s {
      InitClaimsThePast(c, s);
    }
  }

  lemma TightenedKeepsPast(c: ObjectClass, s: Store, s': Store)
    requires KeepsPast(c, s) && Tightened(s, s') && s.Keys <= s'.Keys
    ensures KeepsPast(c, s')
  {
    hide Sheltered, ObjectClass.ClassCode, ObjectClass.KeyType;
  }

  lemma SaveKeys(r: Request, table: Table, template: Template, s: Store)
    ensures s.Keys <= Save(r, table, template, s).store.Keys
  {
    hide Apply, Complete;
    ApplySameKind(r, table, template, s);
  }

  lemma DuplicateKeys(tok: Token, upgrade: bool, ivs: nat -> nat, s: Store)
    requires Duplicate(tok, upgrade, ivs, s).Some?
    ensures Duplicate(tok, upgrade, ivs, s).value.Keys == s.Keys
  {
  }

  /** Wrapping and then saving, in either of the calls that write. */
  lemma WrapAndSaveTightens(r: Request, c: ObjectClass, template: Template, s: Store)
    requires Alters(r.op) && KeepsPast(c, s)
    ensures Tightened(s, Save(r, c.Table(), template, c.Init(s)).store)
    ensures KeepsPast(c, Save(r, c.Table(), template, c.Init(s)).store)
  {
    hide Save, KeepsPast, Tightened, ObjectClass.Init, ObjectClass.Table;
    InitTightens(c, s);
    InitKeepsPast(c, s);
    SaveTightens(r, c, template, c.Init(s));
    SaveKeys(r, c.Table(), template, c.Init(s));
    TightenedKeepsPast(c, c.Init(s), Save(r, c.Table(), template, c.Init(s)).store);
    TightenedTransitive(s, c.Init(s), Save(r, c.Table(), template, c.Init(s)).store);
  }

  lemma AfterTightens(tok: Token, c: ObjectClass, step: Step, s: Store)
    requires KeepsPast(c, s)
    ensures Tightened(s, After(tok, c, step, s)) && KeepsPast(c, After(tok, c, step, s))
  {
    hide Save, Duplicate, AskedPrivacy, Tightened, KeepsPast, ObjectClass.Init, ObjectClass.Table;
    TightenedReflexive(s);
    InitTightens(c, s);
    InitKeepsPast(c, s);
    match step
    case GetStep =>
    case SetStep(so, iv, template) =>
      WrapAndSaveTightens(Request(tok.(so := so), Privacy(s), Set, iv), c, template, s);
    case CopyStep(so, iv, template, ivs) =>
      var isPrivate := AskedPrivacy(template, Privacy(s));
      var copied := Duplicate(tok, isPrivate && !Privacy(s), ivs, s);
      if copied.Some? {
        var r := Request(tok.(so := so), isPrivate, Copy, iv);
        DuplicateTightens(tok, isPrivate && !Privacy(s), ivs, s);
        DuplicateKeys(tok, isPrivate && !Privacy(s), ivs, s);
        TightenedKeepsPast(c, s, copied.value);
        WrapAndSaveTightens(r, c, template, copied.value);
        TightenedTransitive(s, copied.value, Save(r, c.Table(), template, c.Init(copied.value)).store);
      }
  }

  lemma {:induction false} LifeKeepsPast(tok: Token, c: ObjectClass, steps: seq<Step>, k: nat, s: Store)
    requires k <= |steps| && KeepsPast(c, s)
    ensures Tightened(Life(tok, c, steps[..k], s), Life(tok, c, steps, s)) && KeepsPast(c, Life(tok, c, steps, s))
    decreases |steps|
  {
    hide After, Tightened, KeepsPast;
    var early := Life(tok, c, steps[..k], s);
    if steps == [] {
      assert steps[..k] == steps;
      TightenedReflexive(early);
    } else {
      var n := |steps| - 1;
      var j := if k <= n then k else n;
      var before := Life(tok, c, steps[..n], s);
      assert steps[..n][..j] == steps[..j];
      LifeKeepsPast(tok, c, steps[..n], j, s);
      AfterTightens(tok, c, steps[n], before);
      if k <= n {
        TightenedTransitive(early, before, Life(tok, c, steps, s));
      } else {
        assert steps[..k] == steps;
        TightenedReflexive(early);
      }
    }
  }

  /** In every life of the object no later state is less protected, claims more about its past or is of another kind. */
  ghost predicate OnlyTightens(tok: Token, c: ObjectClass, s: Store) {
    forall steps: seq<Step>, k: nat {:trigger steps[..k]} :: k <= |steps| ==>
      Tightened(Life(tok, c, steps[..k], s), Life(tok, c, steps, s))
  }

  /** That is so exactly of the objects whose first wrapping claims nothing new. */
  lemma LifeTightens(tok: Token, c: ObjectClass, s: Store)
    ensures OnlyTightens(tok, c, s) <==> KeepsPast(c, s)
  {
    hide Life, After, Tightened, KeepsPast;
    if KeepsPast(c, s) {
      forall steps: seq<Step>, k: nat | k <= |steps|
        ensures Tightened(Life(tok, c, steps[..k], s), Life(tok, c, steps, s))
      {
        LifeKeepsPast(tok, c, steps, k, s);
      }
    }
    if OnlyTightens(tok, c, s) {
      OneReading(tok, c, s);
      InitTightens(c, s);
      hide ObjectClass.Init;
      var steps := [GetStep];
      assert Tightened(Life(tok, c, steps[..0], s), Life(tok, c, steps, s));
    }
  }

  lemma OneReading(tok: Token, c: ObjectClass, s: Store)
    ensures Life(tok, c, [GetStep][..0], s) == s && Life(tok, c, [GetStep], s) == c.Init(s)
  {
    hide ObjectClass.Init;
    assert [GetStep][..0] == [];
  }

  // ----- privacy -----

  lemma UpdatePrivacy(r: Request, checks: set<Check>, a: Attribute, s: Store)
    requires (r.op.Copy? || r.op.Create?) && Update(r, checks, a, s).rv.OK?
    ensures Privacy(Update(r, checks, a, s).store) ==
      if a.typ == CKA_PRIVATE && a.len == SIZEOF_CK_BBOOL && !a.value.Null? then ReadFlag(a.value, a.len) else Privacy(s)
  {
    if a.typ != CKA_PRIVATE {
      UpdateFrame(r, checks, a, s);
      hide Update;
    }
  }

  /** The privacy stored by an accepted CREATE or COPY template is the one its ciphertexts were made for. */
  lemma {:induction false} PrivacyAgrees(r: Request, table: Table, template: Template, s: Store)
    requires (r.op.Copy? || r.op.Create?) && Apply(r, table, template, s).rv.OK?
    ensures Privacy(Apply(r, table, template, s).store) == AskedPrivacy(template, Privacy(s))
  {
    hide Update, Privacy;
    if template != [] {
      var n := |template| - 1;
      PrivacyAgrees(r, table, template[..n], s);
      UpdatePrivacy(r.(iv := r.iv + 2 * n), table[template[n].typ], template[n], Apply(r, table, template[..n], s).store);
    }
  }

  /** The footnote fact needed: privacy changes only in a copy. */
  predicate GuardsPrivate(table: Table) { CKA_PRIVATE in table ==> table[CKA_PRIVATE] !! {Ck8, Ck10, Ck11} }

  lemma SetKeepsPrivacy(r: Request, table: Table, a: Attribute, s: Store)
    requires r.op.Set? && GuardsPrivate(table) && a.typ in table
    ensures Privacy(Update(r, table[a.typ], a, s).store) == Privacy(s)
  {
    if a.typ != CKA_PRIVATE {
      UpdateFrame(r, table[a.typ], a, s);
      hide Update;
    }
  }

  lemma {:induction false} SettingKeepsPrivacy(r: Request, table: Table, template: Template, s: Store)
    requires r.op.Set? && GuardsPrivate(table)
    ensures Privacy(Apply(r, table, template, s).store) == Privacy(s)
  {
    hide Update, Privacy, GuardsPrivate;
    if template != [] {
      var n := |template| - 1;
      var before := Apply(r, table, template[..n], s);
      SettingKeepsPrivacy(r, table, template[..n], s);
      if before.rv.OK? && template[n].typ in table {
        SetKeepsPrivacy(r.(iv := r.iv + 2 * n), table, template[n], before.store);
      }
    }
  }

  lemma ClassGuardsPrivate(c: ObjectClass)
    ensures GuardsPrivate(c.Table())
  {
    assert CKA_PRIVATE !in KeyTable() && CKA_PRIVATE !in GuardedTable() && CKA_PRIVATE !in PrivateTable()
      && CKA_PRIVATE !in SecretTable() && CKA_PRIVATE !in CertificateTable();
    assert ObjectTable()[CKA_PRIVATE] == {Ck17};
    hide ObjectTable, KeyTable, GuardedTable, PrivateTable, SecretTable, CertificateTable;
  }

  lemma SavePrivacy(r: Request, c: ObjectClass, template: Template, s: Store)
    ensures var o := Save(r, c.Table(), template, s);
      && (r.op.Set? ==> Privacy(o.store) == Privacy(s))
      && ((r.op.Copy? || r.op.Create?) && o.rv.OK? ==> Privacy(o.store) == AskedPrivacy(template, Privacy(s)))
  {
    ClassGuardsPrivate(c);
    hide Apply, Complete, AskedPrivacy, Privacy, GuardsPrivate;
    if r.op.Set? { SettingKeepsPrivacy(r, c.Table(), template, s); }
    if (r.op.Copy? || r.op.Create?) && Apply(r, c.Table(), template, s).rv.OK? { PrivacyAgrees(r, c.Table(), template, s); }
  }

  lemma FreshPrivacy(c: ObjectClass)
    ensures Privacy(c.Init(map[])) == !c.X509Certificate?
  {
    assert DefaultOf(CKA_PRIVATE) == Flag(true);
    hide ObjectClass.Table, DefaultOf;
  }

  /** C_CreateObject guesses the privacy before there is an object, and guesses right. */
  lemma CreatePrivacy(tok: Token, c: ObjectClass, so: bool, iv: nat, template: Template)
    requires CreateCall(tok, c, so, iv, template).rv.OK?
    ensures Privacy(CreateCall(tok, c, so, iv, template).store) == AskedPrivacy(template, !c.X509Certificate?)
  {
    hide Save, AskedPrivacy, Privacy, ObjectClass.Init, ObjectClass.Table;
    FreshPrivacy(c);
    SavePrivacy(Request(tok.(so := so), AskedPrivacy(template, !c.X509Certificate?), Create, iv), c, template, c.Init(map[]));
  }

  // ----- failing without trace -----

  /** Every refused C_SetAttributeValue leaves the object as it was. */
  ghost predicate FailsCleanly(r: Request, c: ObjectClass, onDisk: bool, s: Store) {
    forall template {:trigger SetCall(r, c, onDisk, template, s)} ::
      !SetCall(r, c, onDisk, template, s).rv.OK? ==> SetCall(r, c, onDisk, template, s).store == s
  }

  const UNKNOWN_TYPE := 0xFFFF_FFFF

  lemma LabelEverywhere(c: ObjectClass)
    ensures CKA_LABEL in c.Table() && c.Table()[CKA_LABEL] == {Ck8}
  {
    assert CKA_LABEL !in KeyTable() && CKA_LABEL !in GuardedTable() && CKA_LABEL !in PrivateTable()
      && CKA_LABEL !in SecretTable() && CKA_LABEL !in CertificateTable() && ObjectTable()[CKA_LABEL] == {Ck8};
    hide ObjectTable, KeyTable, GuardedTable, PrivateTable, SecretTable, CertificateTable;
  }

  lemma UnknownNowhere(c: ObjectClass)
    ensures UNKNOWN_TYPE !in c.Table()
  {
    assert UNKNOWN_TYPE !in ObjectTable() && UNKNOWN_TYPE !in KeyTable() && UNKNOWN_TYPE !in GuardedTable()
      && UNKNOWN_TYPE !in PrivateTable() && UNKNOWN_TYPE !in SecretTable() && UNKNOWN_TYPE !in CertificateTable();
    hide ObjectTable, KeyTable, GuardedTable, PrivateTable, SecretTable, CertificateTable;
  }

  lemma LabelUpdate(r: Request, b: byte, s: Store)
    requires Alters(r.op) && IsModifiable(s) && !(IsTrusted(s) && IsClass(s, CKO_CERTIFICATE))
    requires Sealed(r.tok, r.isPrivate, r.iv, [b]).Some? && |Sealed(r.tok, r.isPrivate, r.iv, [b]).value| >= 1
    ensures Update(r, {Ck8}, Attribute(CKA_LABEL, Octets([b]), 1), s)
      == Outcome(OK, s[CKA_LABEL := Text(Sealed(r.tok, r.isPrivate, r.iv, [b]).value)])
  {
    assert [b][..1] == [b];
    hide Sealed;
  }

  lemma StoppedAtSecond(r: Request, table: Table, first: Attribute, second: Attribute, s: Store, s': Store)
    requires Allowed(r.op, s) && first.typ in table && second.typ !in table
    requires Update(r, table[first.typ], first, s) == Outcome(OK, s')
    ensures Save(r, table, [first, second], s) == Outcome(TypeInvalid, s')
  {
    hide Update, Complete;
    assert [first, second][..1] == [first] && [first][..0] == [];
    assert r.(iv := r.iv + 2 * 0) == r;
    assert Apply(r, table, [first], s) == Outcome(OK, s');
  }

  /** A label is set and then an unknown attribute is named: the call fails and the label stays. */
  lemma LabelStays(r: Request, c: ObjectClass, b: byte, s: Store)
    requires r.op.Set? && IsModifiable(s) && !(IsTrusted(s) && IsClass(s, CKO_CERTIFICATE))
    requires Sealed(r.tok, r.isPrivate, r.iv, [b]).Some? && |Sealed(r.tok, r.isPrivate, r.iv, [b]).value| >= 1
    ensures var template := [Attribute(CKA_LABEL, Octets([b]), 1), Attribute(UNKNOWN_TYPE, Octets([b]), 1)];
      Save(r, c.Table(), template, s)
        == Outcome(TypeInvalid, s[CKA_LABEL := Text(Sealed(r.tok, r.isPrivate, r.iv, [b]).value)])
  {
    hide Update, Save, Sealed, ObjectClass.Table;
    LabelEverywhere(c);
    UnknownNowhere(c);
    LabelUpdate(r, b, s);
    StoppedAtSecond(r, c.Table(), Attribute(CKA_LABEL, Octets([b]), 1), Attribute(UNKNOWN_TYPE, Octets([b]), 1), s,
                    s[CKA_LABEL := Text(Sealed(r.tok, r.isPrivate, r.iv, [b]).value)]);
  }

  lemma DirtyFailure(r: Request, c: ObjectClass, b: byte, s: Store)
    requires r.op.Set? && IsModifiable(s) && !(IsTrusted(s) && IsClass(s, CKO_CERTIFICATE)) && Settled(c, s)
    requires Sealed(r.tok, r.isPrivate, r.iv, [b]).Some? && |Sealed(r.tok, r.isPrivate, r.iv, [b]).value| >= 1
    requires !(CKA_LABEL in s && s[CKA_LABEL] == Text(Sealed(r.tok, r.isPrivate, r.iv, [b]).value))
    ensures !FailsCleanly(r, c, false, s)
  {
    SettledInit(c, s);
    hide Save, Sealed, ObjectClass.Table, ObjectClass.Init, Settled, IsModifiable, IsTrusted, IsClass;
    LabelStays(r, c, b, s);
    var template := [Attribute(CKA_LABEL, Octets([b]), 1), Attribute(UNKNOWN_TYPE, Octets([b]), 1)];
    var v := Text(Sealed(r.tok, r.isPrivate, r.iv, [b]).value);
    assert s[CKA_LABEL := v][CKA_LABEL] == v;
    assert SetCall(r, c, false, template, s).store == s[CKA_LABEL := v];
  }

  /** One of two labels is new to the object, and outlives the failure. */
  lemma SomeLabelStays(r: Request, c: ObjectClass, s: Store)
    requires r.op.Set? && IsModifiable(s) && !(IsTrusted(s) && IsClass(s, CKO_CERTIFICATE)) && Settled(c, s)
    requires Sound(r.tok) && forall plain :: Sealed(r.tok, r.isPrivate, r.iv, plain).Some?
    ensures !FailsCleanly(r, c, false, s)
  {
    var v0 := Sealed(r.tok, r.isPrivate, r.iv, [0]).value;
    var v1 := Sealed(r.tok, r.isPrivate, r.iv, [1]).value;
    assert v0 != v1 && |v0| >= 1 && |v1| >= 1;
    hide FailsCleanly, Sealed, Sound, ObjectClass.Table, Settled;
    if CKA_LABEL in s && s[CKA_LABEL] == Text(v0) { DirtyFailure(r, c, 1, s); } else { DirtyFailure(r, c, 0, s); }
  }

  lemma RefusedAtFirst(r: Request, table: Table, first: Attribute, s: Store)
    requires Allowed(r.op, s) && first.typ !in table
    ensures Save(r, table, [first], s) == Outcome(TypeInvalid, s)
  {
    hide Update, Complete;
    assert [first][..0] == [];
    assert Apply(r, table, [], s) == Outcome(OK, s);
  }

  /** Wherever it lives, an object that lacks attributes of its class is given them even when the call is refused. */
  lemma DefaultsStay(r: Request, c: ObjectClass, onDisk: bool, s: Store)
    requires r.op.Set? && IsModifiable(s) && !Settled(c, s)
    ensures !FailsCleanly(r, c, onDisk, s)
  {
    UnknownNowhere(c);
    InitShelters(c, s);
    hide Save, ObjectClass.Table, ObjectClass.Init;
    var template := [Attribute(UNKNOWN_TYPE, Null, 0)];
    RefusedAtFirst(r, c.Table(), template[0], c.Init(s));
    assert SetCall(r, c, onDisk, template, s) == Outcome(TypeInvalid, c.Init(s));
  }

  /** Setting attributes is all or nothing exactly on objects that take no new values, and on objects that have every
      attribute of their class and live on the token or are trusted certificates.  On a private object this supposes
      that the token can encrypt, which a caller who may write to it ensures. */
  lemma CleanFailure(r: Request, c: ObjectClass, onDisk: bool, s: Store)
    requires r.op.Set? && Sound(r.tok) && forall plain :: Sealed(r.tok, r.isPrivate, r.iv, plain).Some?
    ensures FailsCleanly(r, c, onDisk, s) <==>
      !IsModifiable(s) || (Settled(c, s) && (onDisk || (IsTrusted(s) && IsClass(s, CKO_CERTIFICATE))))
  {
    hide Save, ObjectClass.Table, ObjectClass.Init, Sound, Sealed;
    if IsModifiable(s) {
      if !Settled(c, s) {
        DefaultsStay(r, c, onDisk, s);
      } else if IsTrusted(s) && IsClass(s, CKO_CERTIFICATE) {
        forall template ensures Save(r, c.Table(), template, s).store == s { FrozenSave(r, c.Table(), template, s); }
      } else if !onDisk {
        SomeLabelStays(r, c, s);
      }
    }
  }

  /** Objects that take no new values. */
  predicate TakesNothing(s: Store) { !IsModifiable(s) || (IsTrusted(s) && IsClass(s, CKO_CERTIFICATE)) }

  lemma FrozenSave(r: Request, table: Table, template: Template, s: Store)
    requires Alters(r.op) && TakesNothing(s)
    ensures Save(r, table, template, s).store == s
    ensures template != [] ==> !Save(r, table, template, s).rv.OK?
  {
    FrozenApply(r, table, template, s);
    hide Apply, Complete;
  }

  lemma {:induction false} FrozenApply(r: Request, table: Table, template: Template, s: Store)
    requires Alters(r.op) && TakesNothing(s)
    ensures Apply(r, table, template, s).store == s
    ensures template != [] ==> !Apply(r, table, template, s).rv.OK?
  {
    if template != [] {
      FrozenApply(r, table, template[..|template| - 1], s);
      hide UpdateAttr;
    }
  }
}
