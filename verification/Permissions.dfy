/** What each operation must name, may name and may change, class by class: the footnotes of the attribute tables and
    `update` read from the side of a caller (P11Attributes.cpp, `saveTemplate` of P11Objects.cpp). */
module Permissions {
  import opened Octets
  import opened Cryptoki
  import opened Attributes
  import opened Objects
  import opened Policy
  import opened Wrappers

  // ----- what the caller reads in the tables -----

  /** The types that must be named for an object to be created. */
  function NamedToCreate(c: ObjectClass): set<nat> {
    if c.X509Certificate? then {CKA_CLASS, CKA_CERTIFICATE_TYPE, CKA_SUBJECT, CKA_VALUE}
    else if c.EcPrivateKey? then {CKA_CLASS, CKA_KEY_TYPE, CKA_EC_PARAMS, CKA_VALUE}
    else if c == GostKey(CKK_GOST28147) then {CKA_CLASS, CKA_KEY_TYPE, CKA_VALUE, CKA_GOST28147_PARAMS}
    else {CKA_CLASS, CKA_KEY_TYPE, CKA_VALUE}
  }

  /** For a key to be generated: a length where keys of the class have different ones. */
  function NamedToGenerate(c: ObjectClass): set<nat> {
    if c.AesKey? || c.GenericKey? then {CKA_VALUE_LEN} else {}
  }

  function NamedToUnwrap(c: ObjectClass): set<nat> {
    if c.X509Certificate? then {}
    else if c == GostKey(CKK_GOST28147) then {CKA_KEY_TYPE, CKA_GOST28147_PARAMS}
    else {CKA_KEY_TYPE}
  }

  /** The types without which an operation fails. */
  function Needed(c: ObjectClass, op: Op): set<nat> {
    match op
    case Create => NamedToCreate(c)
    case Generate => NamedToGenerate(c)
    case Unwrap => NamedToUnwrap(c)
    case Decapsulate => NamedToUnwrap(c)
    case _ => {}
  }

  const KEY_HISTORY: set<nat> := {CKA_LOCAL, CKA_KEY_GEN_MECHANISM, CKA_ALWAYS_SENSITIVE, CKA_NEVER_EXTRACTABLE}

  /** The types that a template for the operation must not name. */
  function Forbidden(c: ObjectClass, op: Op): set<nat> {
    if c.X509Certificate? then {}
    else
      match op
      case Create => if c.AesKey? || c.GenericKey? then KEY_HISTORY + {CKA_VALUE_LEN} else KEY_HISTORY
      case Generate => if c.EcPrivateKey? then KEY_HISTORY + {CKA_VALUE, CKA_EC_PARAMS} else KEY_HISTORY + {CKA_VALUE}
      case Unwrap =>
        if c.EcPrivateKey? then KEY_HISTORY + {CKA_VALUE, CKA_EC_PARAMS}
        else if c.AesKey? then KEY_HISTORY + {CKA_VALUE, CKA_VALUE_LEN}
        else KEY_HISTORY + {CKA_VALUE}
      case _ => {}
  }

  const KEY_SETTABLE: set<nat> := {CKA_LABEL, CKA_ID, CKA_START_DATE, CKA_END_DATE, CKA_DERIVE, CKA_VENDOR_KEY_PIN_ENTER,
    CKA_VENDOR_KEY_CONFIRM_OP, CKA_VENDOR_KEY_JOURNAL, CKA_VENDOR_CONFIRM_BY_TOUCH, CKA_SENSITIVE, CKA_DECRYPT, CKA_SIGN,
    CKA_UNWRAP, CKA_EXTRACTABLE, CKA_WRAP_WITH_TRUSTED}

  /** The types that can be changed by C_SetAttributeValue. */
  function Settable(c: ObjectClass): set<nat> {
    if c.X509Certificate? then {CKA_LABEL, CKA_ID, CKA_ISSUER, CKA_SERIAL_NUMBER, CKA_TRUSTED}
    else if c.EcPrivateKey? then KEY_SETTABLE + {CKA_SUBJECT, CKA_SIGN_RECOVER, CKA_PUBLIC_KEY_INFO}
    else KEY_SETTABLE + {CKA_ENCRYPT, CKA_VERIFY, CKA_WRAP, CKA_CHECK_VALUE}
  }

  /** And while copying: the same but for the trust in a certificate, and where the copy lives and who may change it. */
  function Recopyable(c: ObjectClass): set<nat> {
    Settable(c) - {CKA_TRUSTED} + {CKA_TOKEN, CKA_PRIVATE, CKA_MODIFIABLE, CKA_DESTROYABLE}
  }

  // ----- the footnotes behind it -----

  /** The footnotes `n` of a type say what the lists above say. */
  predicate Says(c: ObjectClass, t: nat, n: set<Check>) {
    && (Ck1 in n <==> t in NamedToCreate(c)) && (Ck3 in n <==> t in NamedToGenerate(c)) && (Ck5 in n <==> t in NamedToUnwrap(c))
    && (Ck2 in n <==> t in Forbidden(c, Create)) && (Ck4 in n <==> t in Forbidden(c, Generate))
    && (Ck6 in n <==> t in Forbidden(c, Unwrap))
    && (Ck8 in n || Ck11 in n <==> t in Settable(c) && t != CKA_TRUSTED)
    && (Ck10 in n <==> t == CKA_TRUSTED)
    && (Ck17 in n <==> t in {CKA_TOKEN, CKA_PRIVATE, CKA_MODIFIABLE, CKA_DESTROYABLE})
  }

  const OBJECT_TYPES: set<nat> := {CKA_CLASS, CKA_TOKEN, CKA_PRIVATE, CKA_MODIFIABLE, CKA_LABEL, CKA_COPYABLE, CKA_DESTROYABLE}

  const KEY_TYPES: set<nat> := {CKA_KEY_TYPE, CKA_ID, CKA_START_DATE, CKA_END_DATE, CKA_DERIVE, CKA_LOCAL, CKA_KEY_GEN_MECHANISM,
    CKA_ALLOWED_MECHANISMS, CKA_VENDOR_KEY_PIN_ENTER, CKA_VENDOR_KEY_CONFIRM_OP, CKA_VENDOR_KEY_JOURNAL,
    CKA_VENDOR_CONFIRM_BY_TOUCH}

  const GUARDED_TYPES: set<nat> := {CKA_SENSITIVE, CKA_DECRYPT, CKA_SIGN, CKA_UNWRAP, CKA_EXTRACTABLE, CKA_ALWAYS_SENSITIVE,
    CKA_NEVER_EXTRACTABLE, CKA_WRAP_WITH_TRUSTED, CKA_UNWRAP_TEMPLATE, CKA_VALUE}

  const SECRET_TYPES: set<nat> := {CKA_ENCRYPT, CKA_VERIFY, CKA_WRAP, CKA_CHECK_VALUE, CKA_TRUSTED, CKA_WRAP_TEMPLATE}

  const PRIVATE_TYPES: set<nat> := {CKA_SUBJECT, CKA_SIGN_RECOVER, CKA_ALWAYS_AUTHENTICATE, CKA_PUBLIC_KEY_INFO}

  const CERTIFICATE_TYPES: set<nat> := {CKA_CERTIFICATE_TYPE, CKA_TRUSTED, CKA_CERTIFICATE_CATEGORY, CKA_CHECK_VALUE,
    CKA_START_DATE, CKA_END_DATE, CKA_PUBLIC_KEY_INFO, CKA_SUBJECT, CKA_ID, CKA_ISSUER, CKA_SERIAL_NUMBER, CKA_VALUE, CKA_URL,
    CKA_HASH_OF_SUBJECT_PUBLIC_KEY, CKA_HASH_OF_ISSUER_PUBLIC_KEY, CKA_JAVA_MIDP_SECURITY_DOMAIN, CKA_NAME_HASH_ALGORITHM}

  lemma ObjectNotes(t: nat)
    ensures t in ObjectTable() <==> t in OBJECT_TYPES
    ensures t in OBJECT_TYPES ==> var n := ObjectTable()[t];
      && (Ck1 in n <==> t == CKA_CLASS) && n !! {Ck2, Ck3, Ck4, Ck5, Ck6, Ck10} && (Ck8 in n || Ck11 in n <==> t == CKA_LABEL)
      && (Ck17 in n <==> t in {CKA_TOKEN, CKA_PRIVATE, CKA_MODIFIABLE, CKA_DESTROYABLE})
  {
  }

  lemma ObjectLists(c: ObjectClass, t: nat)
    requires t in OBJECT_TYPES
    ensures (t in NamedToCreate(c) <==> t == CKA_CLASS) && t !in NamedToGenerate(c) && t !in NamedToUnwrap(c)
  {
    hide Settable, Forbidden;
  }

  lemma ObjectFree(c: ObjectClass, t: nat)
    requires t in OBJECT_TYPES
    ensures t !in Forbidden(c, Create) && t !in Forbidden(c, Generate) && t !in Forbidden(c, Unwrap)
  {
    hide Settable;
  }

  lemma ObjectSettable(c: ObjectClass, t: nat)
    requires t in OBJECT_TYPES
    ensures t != CKA_TRUSTED && (t in Settable(c) <==> t == CKA_LABEL)
  {
    hide Forbidden;
  }

  lemma ObjectSays(c: ObjectClass, t: nat)
    ensures t in ObjectTable() <==> t in OBJECT_TYPES
    ensures t in OBJECT_TYPES ==> Says(c, t, ObjectTable()[t])
  {
    hide ObjectTable, NamedToCreate, NamedToGenerate, NamedToUnwrap, Forbidden, Settable;
    ObjectNotes(t);
    if t in OBJECT_TYPES {
      ObjectLists(c, t);
      ObjectFree(c, t);
      ObjectSettable(c, t);
    }
  }

  lemma KeyNotes(t: nat)
    ensures t in KeyTable() <==> t in KEY_TYPES
    ensures t in KEY_TYPES ==> var n := KeyTable()[t];
      && (Ck1 in n <==> t == CKA_KEY_TYPE) && (Ck5 in n <==> t == CKA_KEY_TYPE) && n !! {Ck3, Ck10, Ck17}
      && (Ck2 in n <==> t == CKA_LOCAL || t == CKA_KEY_GEN_MECHANISM)
      && (Ck4 in n <==> t == CKA_LOCAL || t == CKA_KEY_GEN_MECHANISM)
      && (Ck6 in n <==> t == CKA_LOCAL || t == CKA_KEY_GEN_MECHANISM)
      && (Ck8 in n || Ck11 in n <==> t !in {CKA_KEY_TYPE, CKA_LOCAL, CKA_KEY_GEN_MECHANISM, CKA_ALLOWED_MECHANISMS})
  {
  }

  lemma KeyLists(c: ObjectClass, t: nat)
    requires t in KEY_TYPES && !c.X509Certificate?
    ensures (t in NamedToCreate(c) <==> t == CKA_KEY_TYPE) && t !in NamedToGenerate(c) && (t in NamedToUnwrap(c) <==> t == CKA_KEY_TYPE)
    ensures t in Forbidden(c, Create) <==> t == CKA_LOCAL || t == CKA_KEY_GEN_MECHANISM
    ensures t in Forbidden(c, Generate) <==> t == CKA_LOCAL || t == CKA_KEY_GEN_MECHANISM
    ensures t in Forbidden(c, Unwrap) <==> t == CKA_LOCAL || t == CKA_KEY_GEN_MECHANISM
    ensures t != CKA_TRUSTED && t !in {CKA_TOKEN, CKA_PRIVATE, CKA_MODIFIABLE, CKA_DESTROYABLE}
    ensures t in Settable(c) <==> t !in {CKA_KEY_TYPE, CKA_LOCAL, CKA_KEY_GEN_MECHANISM, CKA_ALLOWED_MECHANISMS}
  {
  }

  lemma KeySays(c: ObjectClass, t: nat)
    ensures t in KeyTable() <==> t in KEY_TYPES
    ensures t in KEY_TYPES && !c.X509Certificate? ==> Says(c, t, KeyTable()[t])
  {
    hide KeyTable, NamedToCreate, NamedToGenerate, NamedToUnwrap, Forbidden, Settable;
    KeyNotes(t);
    if t in KEY_TYPES && !c.X509Certificate? { KeyLists(c, t); }
  }

  lemma GuardedNotes(t: nat)
    ensures t in GuardedTable() <==> t in GUARDED_TYPES
    ensures t in GUARDED_TYPES ==> var n := GuardedTable()[t];
      && (Ck1 in n <==> t == CKA_VALUE) && n !! {Ck3, Ck5, Ck10, Ck17}
      && (Ck2 in n <==> t == CKA_ALWAYS_SENSITIVE || t == CKA_NEVER_EXTRACTABLE)
      && (Ck4 in n <==> t in {CKA_ALWAYS_SENSITIVE, CKA_NEVER_EXTRACTABLE, CKA_VALUE})
      && (Ck6 in n <==> t in {CKA_ALWAYS_SENSITIVE, CKA_NEVER_EXTRACTABLE, CKA_VALUE})
      && (Ck8 in n || Ck11 in n <==> t !in {CKA_ALWAYS_SENSITIVE, CKA_NEVER_EXTRACTABLE, CKA_UNWRAP_TEMPLATE, CKA_VALUE})
  {
  }

  lemma GuardedLists(c: ObjectClass, t: nat)
    requires t in GUARDED_TYPES && !c.X509Certificate?
    ensures (t in NamedToCreate(c) <==> t == CKA_VALUE) && t !in NamedToGenerate(c) && t !in NamedToUnwrap(c)
    ensures t in Forbidden(c, Create) <==> t == CKA_ALWAYS_SENSITIVE || t == CKA_NEVER_EXTRACTABLE
    ensures t in Forbidden(c, Generate) <==> t in {CKA_ALWAYS_SENSITIVE, CKA_NEVER_EXTRACTABLE, CKA_VALUE}
    ensures t in Forbidden(c, Unwrap) <==> t in {CKA_ALWAYS_SENSITIVE, CKA_NEVER_EXTRACTABLE, CKA_VALUE}
    ensures t != CKA_TRUSTED && t !in {CKA_TOKEN, CKA_PRIVATE, CKA_MODIFIABLE, CKA_DESTROYABLE}
    ensures t in Settable(c) <==> t !in {CKA_ALWAYS_SENSITIVE, CKA_NEVER_EXTRACTABLE, CKA_UNWRAP_TEMPLATE, CKA_VALUE}
  {
  }

  lemma GuardedSays(c: ObjectClass, t: nat)
    ensures t in GuardedTable() <==> t in GUARDED_TYPES
    ensures t in GUARDED_TYPES && !c.X509Certificate? ==> Says(c, t, GuardedTable()[t])
  {
    hide GuardedTable, NamedToCreate, NamedToGenerate, NamedToUnwrap, Forbidden, Settable;
    GuardedNotes(t);
    if t in GUARDED_TYPES && !c.X509Certificate? { GuardedLists(c, t); }
  }

  lemma SecretSays(c: ObjectClass, t: nat)
    ensures t in SecretTable() <==> t in SECRET_TYPES
    ensures t in SECRET_TYPES && c.Secret() ==> Says(c, t, SecretTable()[t])
  {
  }

  lemma PrivateSays(t: nat)
    ensures t in PrivateTable() <==> t in PRIVATE_TYPES
    ensures t in PRIVATE_TYPES ==> Says(EcPrivateKey, t, PrivateTable()[t])
  {
  }

  lemma CertificateSays(t: nat)
    ensures t in CertificateTable() <==> t in CERTIFICATE_TYPES
    ensures t in CERTIFICATE_TYPES ==> Says(X509Certificate, t, CertificateTable()[t])
  {
  }

  lemma AesSays()
    ensures Says(AesKey, CKA_VALUE_LEN, {Ck2, Ck3, Ck6})
  {
  }

  lemma GenericSays(k: nat)
    ensures Says(GenericKey(k), CKA_VALUE_LEN, {Ck2, Ck3})
  {
  }

  lemma GostSays()
    ensures Says(GostKey(CKK_GOST28147), CKA_GOST28147_PARAMS, {Ck1, Ck5})
  {
  }

  lemma EcSays()
    ensures Says(EcPrivateKey, CKA_EC_PARAMS, {Ck1, Ck4, Ck6})
  {
  }

  /** The footnotes of every type that a class knows. */
  lemma ClassSays(c: ObjectClass, t: nat)
    requires t in c.Table()
    ensures Says(c, t, c.Table()[t])
  {
    hide ObjectTable, KeyTable, GuardedTable, SecretTable, PrivateTable, CertificateTable, Says;
    ObjectSays(c, t);
    KeySays(c, t);
    GuardedSays(c, t);
    SecretSays(c, t);
    PrivateSays(t);
    CertificateSays(t);
    match c {
      case AesKey => AesSays();
      case GenericKey(k) => GenericSays(k);
      case GostKey(k) => GostSays();
      case EcPrivateKey => EcSays();
      case _ =>
    }
  }

  /** The class knows what it needs. */
  lemma NeededKnown(c: ObjectClass, op: Op)
    ensures Needed(c, op) <= c.Table().Keys
  {
    hide ObjectTable, KeyTable, GuardedTable, SecretTable, PrivateTable, CertificateTable, Says;
    ObjectSays(c, CKA_CLASS);
    KeySays(c, CKA_KEY_TYPE);
    GuardedSays(c, CKA_VALUE);
    CertificateSays(CKA_CERTIFICATE_TYPE);
    CertificateSays(CKA_SUBJECT);
    CertificateSays(CKA_VALUE);
  }

  // ----- what an operation needs -----

  predicate Naming(template: Template, ts: set<nat>) { forall t :: t in ts ==> exists a :: a in template && a.typ == t }

  lemma CompleteExactly(c: ObjectClass, template: Template, op: Op)
    ensures Complete(c.Table(), template, op) <==> Naming(template, Needed(c, op))
  {
    hide ObjectClass.Table, NamedToCreate, NamedToGenerate, NamedToUnwrap, Forbidden, Settable;
    NeededKnown(c, op);
    forall t | t in c.Table() ensures Mandatory(c.Table()[t], op) <==> t in Needed(c, op) { ClassSays(c, t); }
  }

  /** `saveTemplate` accepts exactly what is permitted, entry by entry, and names what the operation needs; and it is the
      permission, or one of those names, that is missing when it says so. */
  lemma SaveNeeds(r: Request, c: ObjectClass, template: Template, s: Store)
    ensures var o := Save(r, c.Table(), template, s);
      && (o.rv.OK? <==>
            && (r.op.Set? ==> GetFlag(s, CKA_MODIFIABLE, true)) && (r.op.Copy? ==> GetFlag(s, CKA_COPYABLE, true))
            && (exists states :: Chain(r, c.Table(), template, states) && states[0] == s)
            && Naming(template, Needed(c, r.op)))
      && ((r.op.Set? && !GetFlag(s, CKA_MODIFIABLE, true)) || (r.op.Copy? && !GetFlag(s, CKA_COPYABLE, true)) ==>
            o == Outcome(ActionProhibited, s))
      && (o.rv == TemplateIncomplete ==> !Naming(template, Needed(c, r.op)))
  {
    hide ObjectClass.Table, Chain, Naming, Needed, Complete;
    SaveAccepts(r, c.Table(), template, s);
    CompleteExactly(c, template, r.op);
    ApplyCodes(r, c.Table(), template, s);
  }

  lemma ValueCodes(r: Request, m: Memory, len: nat, s: Store)
    ensures StoreValue(r, m, len, s).rv != TemplateIncomplete && StoreCheckValue(r, m, len, s).rv != TemplateIncomplete
  {
    hide Sealed, ExposesCheckValue, HidesCheckValue, ExpectedCheckValue, GetNumber, Read;
  }

  lemma AttrCodes(r: Request, a: Attribute, s: Store)
    ensures UpdateAttr(r, a, s).rv != TemplateIncomplete
  {
    ValueCodes(r, a.value, a.len, s);
    hide StoreValue, StoreCheckValue, KindOf, Sealed, Words, NestedMap, GetFlag, GetNumber;
  }

  lemma UpdateCodes(r: Request, checks: set<Check>, a: Attribute, s: Store)
    ensures Update(r, checks, a, s).rv != TemplateIncomplete
  {
    AttrCodes(r, a, s);
    hide UpdateAttr, SizeOf, GetFlag, GetNumber, Permits;
  }

  lemma {:induction false} ApplyCodes(r: Request, table: Table, template: Template, s: Store)
    ensures Apply(r, table, template, s).rv != TemplateIncomplete
  {
    hide Update;
    if template != [] {
      var n := |template| - 1;
      ApplyCodes(r, table, template[..n], s);
      if template[n].typ in table {
        UpdateCodes(r.(iv := r.iv + 2 * n), table[template[n].typ], template[n], Apply(r, table, template[..n], s).store);
      }
    }
  }

  /** An object that was created was named in full. */
  lemma CreatedInFull(tok: Token, c: ObjectClass, so: bool, iv: nat, template: Template)
    ensures CreateCall(tok, c, so, iv, template).rv.OK? ==> Naming(template, NamedToCreate(c))
  {
    hide ObjectClass.Table, ObjectClass.Init, Chain, Naming, NamedToCreate, Save, AskedPrivacy;
    SaveNeeds(Request(tok.(so := so), AskedPrivacy(template, !c.X509Certificate?), Create, iv), c, template, c.Init(map[]));
  }

  // ----- what an operation may name and change -----

  /** A type that must not be named is refused, whatever its value. */
  lemma ForbiddenRefused(r: Request, c: ObjectClass, a: Attribute, s: Store)
    requires a.typ in c.Table() && a.typ in Forbidden(c, r.op)
    ensures var o := Update(r, c.Table()[a.typ], a, s); o.store == s && (o.rv == ReadOnly || o.rv == ValueInvalid)
  {
    ClassSays(c, a.typ);
    hide ObjectClass.Table, Forbidden, UpdateAttr, NamedToCreate, NamedToGenerate, NamedToUnwrap, Settable, SizeOf;
    ForbiddenOps(c, r.op, a.typ);
  }

  lemma ForbiddenOps(c: ObjectClass, op: Op, t: nat)
    requires t in Forbidden(c, op)
    ensures op.Create? || op.Generate? || op.Unwrap?
  {
  }

  /** A value of the right size for an object that takes new values. */
  predicate Presentable(c: ObjectClass, op: Op, a: Attribute, s: Store) {
    && !(a.value.Null? && a.len != 0) && (SizeOf(a.typ).Some? ==> a.len == SizeOf(a.typ).value)
    && (Alters(op) || op.Derive? ==> GetFlag(s, CKA_MODIFIABLE, true) && !(GetFlag(s, CKA_TRUSTED, false) && c.X509Certificate?))
  }

  /** A type that the operation may give a value: while setting and copying those that may be changed, otherwise those that
      are not forbidden. */
  predicate Open(c: ObjectClass, op: Op, t: nat) {
    if op.Set? then t in Settable(c) && (t == CKA_TRUSTED ==> c.X509Certificate?)
    else if op.Copy? then t in Recopyable(c)
    else t !in Forbidden(c, op)
  }

  lemma PresentableExactly(c: ObjectClass, n: set<Check>, op: Op, a: Attribute, s: Store)
    requires Says(c, a.typ, n) && IsClass(s, c.ClassCode()) && !op.NoOp?
    ensures Refusal(n, op, a, s).OK? <==> Presentable(c, op, a, s) && a.typ !in Forbidden(c, op)
    ensures Refusal(n, op, a, s) in {OK, ValueInvalid, ReadOnly}
  {
    hide Forbidden, NamedToCreate, NamedToGenerate, NamedToUnwrap, Settable, SizeOf, GetFlag, GetNumber;
    OnlyCertificates(c);
    NotForbidden(c, op, a.typ);
  }

  lemma OpenExactly(c: ObjectClass, n: set<Check>, op: Op, t: nat, s: Store)
    requires Says(c, t, n) && IsClass(s, c.ClassCode()) && !op.NoOp?
    ensures Permits(n, op, s) && t !in Forbidden(c, op) <==> Open(c, op, t)
  {
    hide Forbidden, NamedToCreate, NamedToGenerate, NamedToUnwrap, Settable, GetNumber;
    OnlyCertificates(c);
    NotForbidden(c, op, t);
    TrustSettable(c);
  }

  /** Exactly these entries get as far as their own rules; any other is refused and changes nothing. */
  lemma AlterableExactly(r: Request, c: ObjectClass, a: Attribute, s: Store)
    requires a.typ in c.Table() && IsClass(s, c.ClassCode()) && !r.op.NoOp?
    ensures var o := Update(r, c.Table()[a.typ], a, s);
      if Presentable(c, r.op, a, s) && Open(c, r.op, a.typ) then o == UpdateAttr(r, a, s)
      else o.store == s && (o.rv == ReadOnly || o.rv == ValueInvalid)
  {
    hide ObjectClass.Table, UpdateAttr, Says, Refusal, Permits, Presentable, Open, IsClass;
    ClassSays(c, a.typ);
    PresentableExactly(c, c.Table()[a.typ], r.op, a, s);
    OpenExactly(c, c.Table()[a.typ], r.op, a.typ, s);
    OpenIsFree(c, r.op, a.typ);
  }

  lemma OpenIsFree(c: ObjectClass, op: Op, t: nat)
    ensures Open(c, op, t) ==> t !in Forbidden(c, op)
  {
    hide Settable;
    NotForbidden(c, op, t);
  }

  lemma OnlyCertificates(c: ObjectClass)
    ensures c.ClassCode() == CKO_CERTIFICATE <==> c.X509Certificate?
  {
  }

  lemma NotForbidden(c: ObjectClass, op: Op, t: nat)
    ensures !op.Create? && !op.Generate? && !op.Unwrap? ==> t !in Forbidden(c, op)
  {
  }

  lemma TrustSettable(c: ObjectClass)
    ensures CKA_TRUSTED in Settable(c) <==> c.X509Certificate?
  {
  }

  // ----- the rules of the flags -----

  /** What the two flags about a key's past say. */
  datatype Past = Past(alwaysSensitive: bool, neverExtractable: bool)

  function PastOf(s: Store): Past {
    Past(GetFlag(s, CKA_ALWAYS_SENSITIVE, false), GetFlag(s, CKA_NEVER_EXTRACTABLE, false))
  }

  /** Whether a flag may be given the value `v`, and the past afterwards. */
  function FlagRule(r: Request, t: nat, v: bool, s: Store): (bool, Past) {
    var past := PastOf(s);
    if t == CKA_SENSITIVE then
      (Alters(r.op) ==> !GetFlag(s, CKA_SENSITIVE, false),
       past.(alwaysSensitive := v && (r.op.Generate? || r.op.Derive? || past.alwaysSensitive)))
    else if t == CKA_EXTRACTABLE then
      (Alters(r.op) ==> GetFlag(s, CKA_EXTRACTABLE, false), past.(neverExtractable := !v && past.neverExtractable))
    else if t == CKA_WRAP_WITH_TRUSTED then (Alters(r.op) ==> !GetFlag(s, CKA_WRAP_WITH_TRUSTED, false), past)
    else if t == CKA_TRUSTED then (r.tok.so || (!v && !r.op.Set?), past)
    else if t == CKA_COPYABLE then (v ==> GetFlag(s, CKA_COPYABLE, true), past)
    else if t == CKA_ALWAYS_AUTHENTICATE then (v ==> r.isPrivate, past)
    else (true, past)
  }

  /** The flags that a caller sets. */
  predicate CallersFlag(t: nat) {
    t in {CKA_SENSITIVE, CKA_EXTRACTABLE, CKA_WRAP_WITH_TRUSTED, CKA_TRUSTED, CKA_COPYABLE, CKA_ALWAYS_AUTHENTICATE, CKA_TOKEN,
          CKA_PRIVATE, CKA_MODIFIABLE, CKA_DESTROYABLE, CKA_DERIVE, CKA_ENCRYPT, CKA_DECRYPT, CKA_SIGN, CKA_SIGN_RECOVER,
          CKA_VERIFY, CKA_VERIFY_RECOVER, CKA_WRAP, CKA_UNWRAP, CKA_VENDOR_KEY_PIN_ENTER, CKA_VENDOR_KEY_CONFIRM_OP,
          CKA_VENDOR_KEY_JOURNAL, CKA_VENDOR_CONFIRM_BY_TOUCH}
  }

  predicate PlainCallersFlag(t: nat) {
    CallersFlag(t)
    && t !in {CKA_SENSITIVE, CKA_EXTRACTABLE, CKA_WRAP_WITH_TRUSTED, CKA_TRUSTED, CKA_COPYABLE, CKA_ALWAYS_AUTHENTICATE}
  }

  lemma PlainFlagKind(t: nat)
    requires PlainCallersFlag(t)
    ensures KindOf(t).Boolean?
    ensures t != CKA_ALWAYS_SENSITIVE && t != CKA_NEVER_EXTRACTABLE
  {
  }

  /** What an entry for a flag does: the rule decides, the flag gets the value, and the past is kept up to date. */
  ghost predicate FlagDone(r: Request, a: Attribute, s: Store, o: Outcome) {
    var v := a.value.Octets? && |a.value.bytes| >= 1 && a.value.bytes[0] != 0;
    var (allowed, past) := FlagRule(r, a.typ, v, s);
    && (o.rv.OK? <==> allowed)
    && (allowed ==> GetFlag(o.store, a.typ, !v || a.typ == CKA_COPYABLE) == v && PastOf(o.store) == past)
    && (!allowed ==> o.store == s)
  }

  lemma FlagByte(m: Memory)
    ensures ReadFlag(m, 1) <==> m.Octets? && |m.bytes| >= 1 && m.bytes[0] != 0
  {
  }

  lemma PlainFlagEntry(r: Request, a: Attribute, s: Store)
    requires PlainCallersFlag(a.typ) && a.len == 1
    ensures FlagDone(r, a, s, UpdateAttr(r, a, s))
  {
    PlainFlagKind(a.typ);
    FlagByte(a.value);
    hide KindOf, ReadFlag;
  }

  lemma FlagEntry(r: Request, a: Attribute, s: Store)
    requires CallersFlag(a.typ) && a.len == 1
    ensures FlagDone(r, a, s, UpdateAttr(r, a, s))
  {
    if PlainCallersFlag(a.typ) {
      PlainFlagEntry(r, a, s);
    } else {
      OwnKinds(a.typ);
      FlagByte(a.value);
      hide ReadFlag, KindOf;
    }
  }

  /** What an entry for a number does: what an object is can be repeated and not changed, what has become of a key cannot be
      said, a length can be asked of a new key, and the rest is stored. */
  lemma NumberRule(r: Request, a: Attribute, s: Store)
    requires a.len == 8
    requires a.typ in KEY_HISTORY + {CKA_CLASS, CKA_KEY_TYPE, CKA_CERTIFICATE_TYPE, CKA_VALUE_LEN, CKA_CERTIFICATE_CATEGORY,
                      CKA_JAVA_MIDP_SECURITY_DOMAIN, CKA_NAME_HASH_ALGORITHM}
    ensures var o, n := UpdateAttr(r, a, s), ReadNumber(a.value, 8);
      if a.typ in {CKA_CLASS, CKA_KEY_TYPE, CKA_CERTIFICATE_TYPE} then
        o == Outcome(if GetNumber(s, a.typ, VENDOR_DEFINED) == n then OK else TemplateInconsistent, s)
      else if a.typ in KEY_HISTORY || (a.typ == CKA_VALUE_LEN && !(r.op.Generate? || r.op.Derive? || r.op.Decapsulate?)) then
        o == Outcome(ReadOnly, s)
      else
        o == Outcome(OK, s[a.typ := Number(n)])
  {
    NumberKinds(a.typ);
    hide KindOf, ReadNumber;
  }

  /** Values of the wrong length: a date has eight bytes or none, an array of templates whole elements, and an array of
      mechanisms whole words and at least one. */
  lemma ShapeRefused(r: Request, a: Attribute, s: Store)
    requires || (a.typ in {CKA_START_DATE, CKA_END_DATE} && a.len != 8 && a.len != 0)
             || (a.typ in {CKA_WRAP_TEMPLATE, CKA_UNWRAP_TEMPLATE} && a.len % 24 != 0)
             || (a.typ == CKA_ALLOWED_MECHANISMS && (a.len == 0 || a.len % 8 != 0))
    ensures UpdateAttr(r, a, s) == Outcome(ValueInvalid, s)
  {
  }

  /** The value of a key brought in from outside sets its length, where it has one, and the value of a certificate its
      check value: the beginning of its digest. */
  lemma ValueSets(r: Request, b: Bytes, s: Store)
    requires Sound(r.tok) && UpdateAttr(r, TextEntry(CKA_VALUE, b), s).rv.OK?
    ensures var s' := UpdateAttr(r, TextEntry(CKA_VALUE, b), s).store;
      && Sealed(r.tok, r.isPrivate, r.iv, b) == Some(GetText(s', CKA_VALUE))
      && (CKA_VALUE_LEN in s && (r.op.Create? || r.op.Unwrap? || r.op.Decapsulate?) ==>
            CKA_VALUE_LEN in s' && s'[CKA_VALUE_LEN] == Number(|b|))
      && (IsClass(s, CKO_CERTIFICATE) ==>
            Sealed(r.tok, r.isPrivate, r.iv + 1, r.tok.digest(b)) == Some(GetText(s', CKA_CHECK_VALUE)))
  {
    assert KindOf(CKA_VALUE).KeyValue? && b[..|b|] == b;
    hide KindOf, Sealed, ExposesCheckValue, HidesCheckValue;
  }

  lemma NumberKinds(t: nat)
    requires t in KEY_HISTORY + {CKA_CLASS, CKA_KEY_TYPE, CKA_CERTIFICATE_TYPE, CKA_VALUE_LEN, CKA_CERTIFICATE_CATEGORY,
                      CKA_JAVA_MIDP_SECURITY_DOMAIN, CKA_NAME_HASH_ALGORITHM}
    ensures KindOf(t).Pinned? <==> t in {CKA_CLASS, CKA_KEY_TYPE, CKA_CERTIFICATE_TYPE}
    ensures KindOf(t).Frozen? <==> t in KEY_HISTORY
    ensures KindOf(t).ValueLength? <==> t == CKA_VALUE_LEN
    ensures KindOf(t).Pinned? || KindOf(t).Frozen? || KindOf(t).ValueLength? || KindOf(t).Integer?
  {
  }

  /** The flags that are true unless something is said. */
  lemma TrueByDefault(t: nat)
    ensures DefaultOf(t) == Flag(true) <==>
      t in {CKA_PRIVATE, CKA_MODIFIABLE, CKA_COPYABLE, CKA_DESTROYABLE, CKA_EXTRACTABLE, CKA_NEVER_EXTRACTABLE, CKA_ENCRYPT,
            CKA_DECRYPT, CKA_SIGN, CKA_SIGN_RECOVER, CKA_VERIFY, CKA_VERIFY_RECOVER, CKA_WRAP, CKA_UNWRAP}
  {
  }

  // ----- the least that creates an object -----

  /** A number as the caller passes it. */
  function NumberEntry(t: nat, n: nat): Attribute { Attribute(t, Octets(LittleBytes(n, 8)), 8) }

  function TextEntry(t: nat, b: Bytes): Attribute { Attribute(t, Octets(b), |b|) }

  function Identity(c: ObjectClass): Attribute {
    if c.X509Certificate? then NumberEntry(CKA_CERTIFICATE_TYPE, CKC_X_509) else NumberEntry(CKA_KEY_TYPE, c.KeyType())
  }

  /** Just the types that must be named: what kind of object it is, then what else its class asks for, then its value. */
  function LeastTemplate(c: ObjectClass, extra: Bytes, value: Bytes): Template {
    var kind := [NumberEntry(CKA_CLASS, c.ClassCode()), Identity(c)];
    if c.X509Certificate? then kind + [TextEntry(CKA_SUBJECT, extra), TextEntry(CKA_VALUE, value)]
    else if c.EcPrivateKey? then kind + [TextEntry(CKA_EC_PARAMS, extra), TextEntry(CKA_VALUE, value)]
    else if c == GostKey(CKK_GOST28147) then kind + [TextEntry(CKA_GOST28147_PARAMS, extra), TextEntry(CKA_VALUE, value)]
    else kind + [TextEntry(CKA_VALUE, value)]
  }

  predicate Reads64(n: nat) { n < 0x1_0000_0000_0000_0000 }

  lemma NumberReads(t: nat, n: nat)
    requires Reads64(n)
    ensures ReadNumber(NumberEntry(t, n).value, 8) == n
  {
    Power256Of8();
    LittleValue(n, 8);
    assert LittleBytes(n, 8)[..8] == LittleBytes(n, 8);
    hide LittleBytes, LittleEndian;
  }

  /** An entry that repeats what the object is. */
  lemma PinnedAccepted(r: Request, checks: set<Check>, t: nat, n: nat, s: Store)
    requires r.op.Create? && Ck2 !in checks && KindOf(t).Pinned? && Reads64(n) && GetNumber(s, t, VENDOR_DEFINED) == n
    ensures Update(r, checks, NumberEntry(t, n), s) == Outcome(OK, s)
  {
    NumberReads(t, n);
    assert SizeOf(t) == Some(8);
    hide KindOf, SizeOf, ReadNumber, LittleBytes;
  }

  /** The token can store any byte string. */
  ghost predicate Stores(tok: Token, isPrivate: bool) {
    forall iv, plain :: Sealed(tok, isPrivate, iv, plain).Some? && |Sealed(tok, isPrivate, iv, plain).value| >= |plain|
  }

  lemma TextAccepted(r: Request, checks: set<Check>, t: nat, b: Bytes, s: Store)
    requires r.op.Create? && Ck2 !in checks && KindOf(t).Raw? && Stores(r.tok, r.isPrivate)
    ensures Sealed(r.tok, r.isPrivate, r.iv, b).Some?
    ensures Update(r, checks, TextEntry(t, b), s) == Outcome(OK, s[t := Text(Sealed(r.tok, r.isPrivate, r.iv, b).value)])
  {
    assert SizeOf(t).None? && b[..|b|] == b;
    hide KindOf, SizeOf, Sealed, Stores;
    StoresAny(r.tok, r.isPrivate, r.iv, b);
  }

  lemma ValueAccepted(r: Request, checks: set<Check>, b: Bytes, s: Store)
    requires r.op.Create? && Ck2 !in checks && Stores(r.tok, r.isPrivate)
    requires IsClass(s, CKO_SECRET_KEY) ==> ExposesCheckValue(KeyTypeOf(s)) || HidesCheckValue(KeyTypeOf(s))
    ensures Update(r, checks, TextEntry(CKA_VALUE, b), s).rv.OK?
  {
    assert SizeOf(CKA_VALUE).None? && b[..|b|] == b && KindOf(CKA_VALUE).KeyValue?;
    ValueStored(r, Octets(b), |b|, s);
    hide KindOf, SizeOf, Sealed, StoreValue;
  }

  lemma ValueStored(r: Request, m: Memory, len: nat, s: Store)
    requires r.op.Create? && Stores(r.tok, r.isPrivate) && |Read(m, len)| >= len
    requires IsClass(s, CKO_SECRET_KEY) ==> ExposesCheckValue(KeyTypeOf(s)) || HidesCheckValue(KeyTypeOf(s))
    ensures StoreValue(r, m, len, s).rv.OK?
  {
    hide Sealed, ExposesCheckValue, HidesCheckValue, Read;
    hide Stores;
    var plain := Read(m, len);
    StoresAny(r.tok, r.isPrivate, r.iv, plain);
    StoresAny(r.tok, r.isPrivate, r.iv + 1, r.tok.digest(plain));
    StoresAny(r.tok, r.isPrivate, r.iv + 1, if ExposesCheckValue(KeyTypeOf(s)) then r.tok.keyCheck(KeyTypeOf(s), plain) else []);
  }

  lemma StoresAny(tok: Token, isPrivate: bool, iv: nat, plain: Bytes)
    requires Stores(tok, isPrivate)
    ensures Sealed(tok, isPrivate, iv, plain).Some? && |Sealed(tok, isPrivate, iv, plain).value| >= |plain|
  {
    hide Sealed;
  }

  lemma ApplySnoc(r: Request, table: Table, front: Template, a: Attribute, s: Store)
    requires Apply(r, table, front, s).rv.OK? && a.typ in table
    ensures Apply(r, table, front + [a], s) == Update(r.(iv := r.iv + 2 * |front|), table[a.typ], a, Apply(r, table, front, s).store)
  {
    hide Update, Apply;
    var template := front + [a];
    assert template[..|front|] == front && template[|front|] == a;
    ApplyLast(r, table, template, s);
  }

  lemma ApplyLast(r: Request, table: Table, template: Template, s: Store)
    requires template != [] && Apply(r, table, template[..|template| - 1], s).rv.OK?
    ensures Apply(r, table, template, s)
      == Entry(r, table, |template| - 1, template[|template| - 1], Apply(r, table, template[..|template| - 1], s).store)
  {
    hide Entry;
  }

  lemma KindsOfLeast()
    ensures KindOf(CKA_CLASS).Pinned? && KindOf(CKA_KEY_TYPE).Pinned? && KindOf(CKA_CERTIFICATE_TYPE).Pinned?
    ensures KindOf(CKA_SUBJECT).Raw? && KindOf(CKA_EC_PARAMS).Raw? && KindOf(CKA_GOST28147_PARAMS).Raw?
  {
  }

  lemma LeastAllowed(c: ObjectClass, t: nat)
    requires t in NamedToCreate(c)
    ensures t in c.Table() && Ck2 !in c.Table()[t]
  {
    hide ObjectClass.Table;
    NeededKnown(c, Create);
    ClassSays(c, t);
  }

  /** The entries that say what the object is change nothing. */
  lemma KindAccepted(r: Request, c: ObjectClass, s: Store)
    requires r.op.Create? && Reads64(c.KeyType()) && IsClass(s, c.ClassCode())
    requires if c.X509Certificate? then GetNumber(s, CKA_CERTIFICATE_TYPE, VENDOR_DEFINED) == CKC_X_509
             else KeyTypeOf(s) == c.KeyType()
    ensures Apply(r, c.Table(), [NumberEntry(CKA_CLASS, c.ClassCode()), Identity(c)], s) == Outcome(OK, s)
  {
    hide ObjectClass.Table, Update, KindOf, LittleBytes, Apply;
    var first, second := NumberEntry(CKA_CLASS, c.ClassCode()), Identity(c);
    KindsOfLeast();
    LeastAllowed(c, CKA_CLASS);
    LeastAllowed(c, second.typ);
    PinnedAccepted(r, c.Table()[CKA_CLASS], CKA_CLASS, c.ClassCode(), s);
    PinnedAccepted(r.(iv := r.iv + 2), c.Table()[second.typ], second.typ,
                   if c.X509Certificate? then CKC_X_509 else c.KeyType(), s);
    ApplyNothing(r, c.Table(), s);
    assert [] + [first] == [first] && [first] + [second] == [first, second] && r.(iv := r.iv + 0) == r;
    ApplySnoc(r, c.Table(), [], first, s);
    ApplySnoc(r, c.Table(), [first], second, s);
  }

  lemma ApplyNothing(r: Request, table: Table, s: Store)
    ensures Apply(r, table, [], s) == Outcome(OK, s)
  {
  }

  /** The class has a check value for its keys, or none at all. */
  predicate Checkable(c: ObjectClass) { c.Secret() ==> ExposesCheckValue(c.KeyType()) || HidesCheckValue(c.KeyType()) }

  lemma InitIdentity(c: ObjectClass, s: Store)
    ensures c.X509Certificate? ==> GetNumber(c.Init(s), CKA_CERTIFICATE_TYPE, VENDOR_DEFINED) == CKC_X_509
  {
    hide ObjectClass.Table, DefaultOf;
  }

  lemma LeastApplies(r: Request, c: ObjectClass, extra: Bytes, value: Bytes, s: Store)
    requires r.op.Create? && Reads64(c.KeyType()) && Checkable(c) && Stores(r.tok, r.isPrivate) && s == c.Init(map[])
    ensures Apply(r, c.Table(), LeastTemplate(c, extra, value), s).rv.OK?
  {
    hide ObjectClass.Table, ObjectClass.Init, Update, Apply, KindOf, LittleBytes, ExposesCheckValue, HidesCheckValue, Sealed,
      Stores;
    InitNumbers(c, map[]);
    InitIdentity(c, map[]);
    KindAccepted(r, c, s);
    KindsOfLeast();
    var kind := [NumberEntry(CKA_CLASS, c.ClassCode()), Identity(c)];
    LeastAllowed(c, CKA_VALUE);
    if c.X509Certificate? || c.EcPrivateKey? || c == GostKey(CKK_GOST28147) {
      var t := if c.X509Certificate? then CKA_SUBJECT else if c.EcPrivateKey? then CKA_EC_PARAMS else CKA_GOST28147_PARAMS;
      LeastAllowed(c, t);
      var r' := r.(iv := r.iv + 4);
      TextAccepted(r', c.Table()[t], t, extra, s);
      var s' := Update(r', c.Table()[t], TextEntry(t, extra), s).store;
      ApplySnoc(r, c.Table(), kind, TextEntry(t, extra), s);
      assert GetNumber(s', CKA_CLASS, VENDOR_DEFINED) == GetNumber(s, CKA_CLASS, VENDOR_DEFINED);
      assert KeyTypeOf(s') == KeyTypeOf(s);
      ValueAccepted(r.(iv := r.iv + 6), c.Table()[CKA_VALUE], value, s');
      ApplySnoc(r, c.Table(), kind + [TextEntry(t, extra)], TextEntry(CKA_VALUE, value), s);
      assert kind + [TextEntry(t, extra)] + [TextEntry(CKA_VALUE, value)] == LeastTemplate(c, extra, value);
    } else {
      ValueAccepted(r.(iv := r.iv + 4), c.Table()[CKA_VALUE], value, s);
      ApplySnoc(r, c.Table(), kind, TextEntry(CKA_VALUE, value), s);
    }
  }

  lemma LeastNames(c: ObjectClass, extra: Bytes, value: Bytes)
    ensures Naming(LeastTemplate(c, extra, value), NamedToCreate(c))
    ensures forall a :: a in LeastTemplate(c, extra, value) ==> a.typ in NamedToCreate(c) && a.typ != CKA_PRIVATE
  {
    var template := LeastTemplate(c, extra, value);
    hide LittleBytes;
    assert template[0].typ == CKA_CLASS && template[1].typ == Identity(c).typ && template[|template| - 1].typ == CKA_VALUE;
    forall t | t in NamedToCreate(c) ensures exists a :: a in template && a.typ == t {
      assert template[0] in template && template[1] in template && template[2] in template && template[|template| - 1] in template;
    }
  }

  lemma {:induction false} AsksNothing(template: Template, was: bool)
    requires forall a :: a in template ==> a.typ != CKA_PRIVATE
    ensures AskedPrivacy(template, was) == was
  {
    if template != [] {
      assert template[|template| - 1] in template;
      AsksNothing(template[..|template| - 1], was);
    }
  }

  /** C_CreateObject accepts a template that names just what must be named, whatever the value, for every class; so
      `CreatedInFull` asks for no more than is needed, and there is a life to speak of. */
  lemma LeastCreates(tok: Token, c: ObjectClass, so: bool, iv: nat, extra: Bytes, value: Bytes)
    requires Sound(tok) && (forall iv, plain :: tok.encrypt(iv, plain).Some?) && Reads64(c.KeyType()) && Checkable(c)
    ensures CreateCall(tok, c, so, iv, LeastTemplate(c, extra, value)).rv.OK?
  {
    hide ObjectClass.Table, ObjectClass.Init, LeastTemplate, Apply, Complete, NamedToCreate, Naming, AskedPrivacy;
    var template := LeastTemplate(c, extra, value);
    LeastNames(c, extra, value);
    AsksNothing(template, !c.X509Certificate?);
    var r := Request(tok.(so := so), !c.X509Certificate?, Create, iv);
    assert Stores(r.tok, r.isPrivate);
    LeastApplies(r, c, extra, value, c.Init(map[]));
    CompleteExactly(c, template, Create);
  }
}
