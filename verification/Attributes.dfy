/** What one template entry does to an object: `P11Attribute::update` and the `updateAttr`
    overrides of P11Attributes.cpp, as functions on the stored attributes. */
module Attributes {
  import opened Octets
  import opened Cryptoki
  import opened Wrappers

  // ----- the attribute classes, by attribute type -----

  /** Which `updateAttr` an attribute type has. */
  datatype Kind =
    | Raw | Date | Pinned | Boolean | Latch | SensitiveFlag | ExtractableFlag | WrapTrustedFlag | TrustedFlag
    | AuthenticateFlag | Frozen | Integer | CheckValue | KeyValue | ValueLength | AttributeTemplate | Mechanisms

  function KindOf(t: nat): Kind {
    if t == CKA_CLASS || t == CKA_KEY_TYPE || t == CKA_CERTIFICATE_TYPE then Pinned
    else if t == CKA_COPYABLE then Latch
    else if t == CKA_SENSITIVE then SensitiveFlag
    else if t == CKA_EXTRACTABLE then ExtractableFlag
    else if t == CKA_WRAP_WITH_TRUSTED then WrapTrustedFlag
    else if t == CKA_TRUSTED then TrustedFlag
    else if t == CKA_ALWAYS_AUTHENTICATE then AuthenticateFlag
    else if t == CKA_LOCAL || t == CKA_KEY_GEN_MECHANISM || t == CKA_ALWAYS_SENSITIVE || t == CKA_NEVER_EXTRACTABLE then Frozen
    else if t == CKA_CERTIFICATE_CATEGORY || t == CKA_JAVA_MIDP_SECURITY_DOMAIN || t == CKA_NAME_HASH_ALGORITHM then Integer
    else if t == CKA_START_DATE || t == CKA_END_DATE then Date
    else if t == CKA_CHECK_VALUE then CheckValue
    else if t == CKA_VALUE then KeyValue
    else if t == CKA_VALUE_LEN then ValueLength
    else if t == CKA_WRAP_TEMPLATE || t == CKA_UNWRAP_TEMPLATE then AttributeTemplate
    else if t == CKA_ALLOWED_MECHANISMS then Mechanisms
    else if IsPlainFlag(t) then Boolean
    else Raw
  }

  predicate IsUsageFlag(t: nat) {
    || t == CKA_ENCRYPT || t == CKA_DECRYPT || t == CKA_SIGN || t == CKA_SIGN_RECOVER || t == CKA_VERIFY
    || t == CKA_VERIFY_RECOVER || t == CKA_WRAP || t == CKA_UNWRAP
  }

  predicate IsPlainFlag(t: nat) {
    || t == CKA_TOKEN || t == CKA_PRIVATE || t == CKA_MODIFIABLE || t == CKA_DESTROYABLE || t == CKA_DERIVE
    || IsUsageFlag(t) || t == CKA_VENDOR_KEY_PIN_ENTER || t == CKA_VENDOR_KEY_CONFIRM_OP
    || t == CKA_VENDOR_KEY_JOURNAL || t == CKA_VENDOR_CONFIRM_BY_TOUCH
  }

  predicate IsFlag(t: nat) {
    var k := KindOf(t);
    || k.Boolean? || k.Latch? || k.SensitiveFlag? || k.ExtractableFlag? || k.WrapTrustedFlag? || k.TrustedFlag?
    || k.AuthenticateFlag? || (k.Frozen? && t != CKA_KEY_GEN_MECHANISM)
  }

  predicate IsNumber(t: nat) {
    var k := KindOf(t);
    k.Pinned? || k.Integer? || k.ValueLength? || t == CKA_KEY_GEN_MECHANISM
  }

  /** The fixed size, when the attribute class declares one. */
  function SizeOf(t: nat): Option<nat> {
    if IsFlag(t) then Some(SIZEOF_CK_BBOOL) else if IsNumber(t) then Some(SIZEOF_CK_ULONG) else None
  }

  function DefaultOf(t: nat): Stored {
    if IsFlag(t) then
      Flag(|| t == CKA_PRIVATE || t == CKA_MODIFIABLE || t == CKA_COPYABLE || t == CKA_DESTROYABLE
           || t == CKA_EXTRACTABLE || t == CKA_NEVER_EXTRACTABLE || IsUsageFlag(t))
    else if IsNumber(t) then
      Number(if KindOf(t).Pinned? then VENDOR_DEFINED
             else if t == CKA_KEY_GEN_MECHANISM then 0xFFFF_FFFF_FFFF_FFFF
             else if t == CKA_NAME_HASH_ALGORITHM then CKM_SHA_1
             else 0)
    else if KindOf(t).AttributeTemplate? then Nested(map[])
    else if KindOf(t).Mechanisms? then Mechs({})
    else Text([])
  }

  /** A stored value has the type that its attribute class reads and writes. */
  predicate Fits(t: nat, v: Stored) {
    match DefaultOf(t)
    case Flag(_) => v.Flag?
    case Number(_) => v.Number?
    case Text(_) => v.Text?
    case Mechs(_) => v.Mechs?
    case Nested(_) => v.Nested?
  }

  // ----- one entry -----

  /** The result code, and the attributes as they are left, which after an error may be half way. */
  datatype Outcome = Outcome(rv: RV, store: Store)

  datatype Request = Request(tok: Token, isPrivate: bool, op: Op, iv: nat)

  predicate IsModifiable(s: Store) { GetFlag(s, CKA_MODIFIABLE, true) }

  predicate IsCopyable(s: Store) { GetFlag(s, CKA_COPYABLE, true) }

  predicate IsTrusted(s: Store) { GetFlag(s, CKA_TRUSTED, false) }

  predicate IsSensitive(s: Store) { GetFlag(s, CKA_SENSITIVE, false) }

  predicate IsExtractable(s: Store) { GetFlag(s, CKA_EXTRACTABLE, true) }

  predicate IsPrivate(s: Store) { GetFlag(s, CKA_PRIVATE, false) }

  predicate IsClass(s: Store, c: nat) { GetNumber(s, CKA_CLASS, VENDOR_DEFINED) == c }

  function KeyTypeOf(s: Store): nat { GetNumber(s, CKA_KEY_TYPE, VENDOR_DEFINED) }

  predicate Alters(op: Op) { op.Set? || op.Copy? }

  /** The base `updateAttr`: a byte string, sealed on a private object. */
  function StoreText(r: Request, t: nat, m: Memory, len: nat, s: Store): Outcome {
    match Sealed(r.tok, r.isPrivate, r.iv, Read(m, len))
    case None => Outcome(GeneralError, s)
    case Some(v) => if |v| < len then Outcome(GeneralError, s) else Outcome(OK, s[t := Text(v)])
  }

  function StoreFlag(t: nat, m: Memory, len: nat, s: Store): Outcome {
    if len != SIZEOF_CK_BBOOL then Outcome(ValueInvalid, s) else Outcome(OK, s[t := Flag(ReadFlag(m, len))])
  }

  function StoreNumber(t: nat, m: Memory, len: nat, s: Store): Outcome {
    if len != SIZEOF_CK_ULONG then Outcome(ValueInvalid, s) else Outcome(OK, s[t := Number(ReadNumber(m, len))])
  }

  function MatchPinned(t: nat, m: Memory, len: nat, s: Store): Outcome {
    if len != SIZEOF_CK_ULONG then Outcome(ValueInvalid, s)
    else if GetNumber(s, t, VENDOR_DEFINED) != ReadNumber(m, len) then Outcome(TemplateInconsistent, s)
    else Outcome(OK, s)
  }

  /** CKA_COPYABLE can be cleared but not set again; setting it to what it is stores nothing. */
  function StoreCopyable(m: Memory, len: nat, s: Store): Outcome {
    if len != SIZEOF_CK_BBOOL then Outcome(ValueInvalid, s)
    else if !ReadFlag(m, len) then Outcome(OK, s[CKA_COPYABLE := Flag(false)])
    else if !IsCopyable(s) then Outcome(ReadOnly, s)
    else Outcome(OK, s)
  }

  function StoreSensitive(op: Op, m: Memory, len: nat, s: Store): Outcome {
    if Alters(op) && IsSensitive(s) then Outcome(ReadOnly, s)
    else if len != SIZEOF_CK_BBOOL then Outcome(ValueInvalid, s)
    else if !ReadFlag(m, len) then Outcome(OK, s[CKA_SENSITIVE := Flag(false)][CKA_ALWAYS_SENSITIVE := Flag(false)])
    else if op.Generate? || op.Derive? then
      Outcome(OK, s[CKA_SENSITIVE := Flag(true)][CKA_ALWAYS_SENSITIVE := Flag(true)])
    else Outcome(OK, s[CKA_SENSITIVE := Flag(true)])
  }

  function StoreExtractable(op: Op, m: Memory, len: nat, s: Store): Outcome {
    if Alters(op) && !GetFlag(s, CKA_EXTRACTABLE, false) then Outcome(ReadOnly, s)
    else if len != SIZEOF_CK_BBOOL then Outcome(ValueInvalid, s)
    else if !ReadFlag(m, len) then Outcome(OK, s[CKA_EXTRACTABLE := Flag(false)])
    else Outcome(OK, s[CKA_EXTRACTABLE := Flag(true)][CKA_NEVER_EXTRACTABLE := Flag(false)])
  }

  function StoreWrapWithTrusted(op: Op, m: Memory, len: nat, s: Store): Outcome {
    if Alters(op) && GetFlag(s, CKA_WRAP_WITH_TRUSTED, false) then Outcome(ReadOnly, s)
    else StoreFlag(CKA_WRAP_WITH_TRUSTED, m, len, s)
  }

  function StoreTrusted(r: Request, m: Memory, len: nat, s: Store): Outcome {
    if len != SIZEOF_CK_BBOOL then Outcome(ValueInvalid, s)
    else if !r.tok.so && (r.op.Set? || ReadFlag(m, len)) then Outcome(ReadOnly, s)
    else StoreFlag(CKA_TRUSTED, m, len, s)
  }

  function StoreAlwaysAuthenticate(r: Request, m: Memory, len: nat, s: Store): Outcome {
    if len == SIZEOF_CK_BBOOL && ReadFlag(m, len) && !r.isPrivate then Outcome(TemplateInconsistent, s)
    else StoreFlag(CKA_ALWAYS_AUTHENTICATE, m, len, s)
  }

  /** The check value an entry for CKA_CHECK_VALUE is compared with. */
  function ExpectedCheckValue(tok: Token, keyType: nat, key: Bytes, offered: Bytes): Option<Bytes> {
    if ExposesCheckValue(keyType) then Some(tok.keyCheck(keyType, key))
    else if keyType == CKK_GOST28147 then Some(offered)
    else None
  }

  function StoreCheckValue(r: Request, m: Memory, len: nat, s: Store): Outcome {
    var plain := Read(m, len);
    match Sealed(r.tok, r.isPrivate, r.iv, plain)
    case None => Outcome(GeneralError, s)
    case Some(v) =>
      if |v| < len then Outcome(GeneralError, s)
      else if len == 0 then Outcome(OK, s[CKA_CHECK_VALUE := Text(v)])
      else
        var stored := GetText(s, CKA_VALUE);
        match if r.isPrivate then r.tok.decrypt(stored) else Some(stored)
        case None => Outcome(GeneralError, s)
        case Some(key) =>
          match ExpectedCheckValue(r.tok, KeyTypeOf(s), key, plain)
          case None => Outcome(GeneralError, s)
          case Some(expected) =>
            if plain != expected then Outcome(ValueInvalid, s) else Outcome(OK, s[CKA_CHECK_VALUE := Text(v)])
  }

  /** `updateAttr` of CKA_VALUE also keeps CKA_VALUE_LEN and CKA_CHECK_VALUE in step. */
  function StoreValue(r: Request, m: Memory, len: nat, s: Store): Outcome {
    var plain := Read(m, len);
    match Sealed(r.tok, r.isPrivate, r.iv, plain)
    case None => Outcome(GeneralError, s)
    case Some(v) =>
      if |v| < len then Outcome(GeneralError, s)
      else
        var s1 := s[CKA_VALUE := Text(v)];
        var s2 := if (r.op.Create? || r.op.Unwrap? || r.op.Decapsulate?) && CKA_VALUE_LEN in s1
                  then s1[CKA_VALUE_LEN := Number(|plain|)] else s1;
        var certificate := if IsClass(s2, CKO_CERTIFICATE) then StoreDigest(r, plain, s2) else Outcome(OK, s2);
        if certificate.rv.OK? && r.op.Create? && IsClass(certificate.store, CKO_SECRET_KEY)
        then StoreKeyCheckValue(r, plain, certificate.store)
        else certificate
  }

  function StoreDigest(r: Request, plain: Bytes, s: Store): Outcome {
    match Sealed(r.tok, r.isPrivate, r.iv + 1, r.tok.digest(plain))
    case None => Outcome(GeneralError, s)
    case Some(c) => Outcome(OK, s[CKA_CHECK_VALUE := Text(c)])
  }

  function StoreKeyCheckValue(r: Request, plain: Bytes, s: Store): Outcome {
    var keyType := KeyTypeOf(s);
    if !ExposesCheckValue(keyType) && !HidesCheckValue(keyType) then Outcome(GeneralError, s)
    else
      var kcv := if ExposesCheckValue(keyType) then r.tok.keyCheck(keyType, plain) else [];
      match Sealed(r.tok, r.isPrivate, r.iv + 1, kcv)
      case None => Outcome(GeneralError, s)
      case Some(c) => Outcome(OK, s[CKA_CHECK_VALUE := Text(c)])
  }

  function StoreValueLength(op: Op, m: Memory, len: nat, s: Store): Outcome {
    if !op.Generate? && !op.Derive? && !op.Decapsulate? then Outcome(ReadOnly, s)
    else StoreNumber(CKA_VALUE_LEN, m, len, s)
  }

  // ----- nested templates and mechanism lists -----

  predicate IsTemplateFlag(t: nat) {
    || t == CKA_TOKEN || t == CKA_PRIVATE || t == CKA_MODIFIABLE || t == CKA_COPYABLE || t == CKA_TRUSTED
    || IsUsageFlag(t) || t == CKA_DERIVE || t == CKA_LOCAL || t == CKA_ALWAYS_SENSITIVE || t == CKA_SENSITIVE
    || t == CKA_NEVER_EXTRACTABLE || t == CKA_EXTRACTABLE || t == CKA_WRAP_WITH_TRUSTED
    || t == CKA_SECONDARY_AUTH || t == CKA_ALWAYS_AUTHENTICATE
  }

  predicate IsTemplateNumber(t: nat) {
    || t == CKA_CLASS || t == CKA_KEY_TYPE || t == CKA_CERTIFICATE_TYPE || t == CKA_CERTIFICATE_CATEGORY
    || t == CKA_JAVA_MIDP_SECURITY_DOMAIN || t == CKA_NAME_HASH_ALGORITHM || t == CKA_KEY_GEN_MECHANISM
    || t == CKA_MODULUS_BITS || t == CKA_PRIME_BITS || t == CKA_SUB_PRIME_BITS || t == CKA_VALUE_BITS
    || t == CKA_VALUE_LEN || t == CKA_AUTH_PIN_FLAGS
  }

  /** One element of a wrap template as it will be stored, or nothing when it is refused. */
  function NestedValue(a: Attribute): Option<Stored> {
    if IsTemplateFlag(a.typ) then
      if a.len != SIZEOF_CK_BBOOL then None else Some(Flag(ReadFlag(a.value, a.len)))
    else if IsTemplateNumber(a.typ) then
      if a.len != SIZEOF_CK_ULONG then None else Some(Number(ReadNumber(a.value, a.len)))
    else if a.typ == CKA_WRAP_TEMPLATE || a.typ == CKA_UNWRAP_TEMPLATE then None
    else Some(Text(Read(a.value, a.len)))
  }

  /** `std::map::insert` keeps the element that is there already. */
  function Insert(entries: map<nat, Stored>, t: nat, v: Stored): map<nat, Stored> {
    if t in entries then entries else entries[t := v]
  }

  function NestedMap(items: Template): Option<map<nat, Stored>> {
    if items == [] then Some(map[])
    else
      var last := items[|items| - 1];
      match NestedMap(items[..|items| - 1])
      case None => None
      case Some(entries) =>
        match NestedValue(last)
        case None => None
        case Some(v) => Some(Insert(entries, last.typ, v))
  }

  function StoreTemplate(t: nat, m: Memory, len: nat, s: Store): Outcome {
    if len % SIZEOF_CK_ATTRIBUTE != 0 then Outcome(ValueInvalid, s)
    else
      match NestedMap(ReadItems(m, len / SIZEOF_CK_ATTRIBUTE))
      case None => Outcome(ValueInvalid, s)
      case Some(entries) => Outcome(OK, s[t := Nested(entries)])
  }

  /** The mechanism types in an array of words. */
  function Words(b: Bytes): set<nat> {
    if |b| < SIZEOF_CK_ULONG then {} else {LittleEndian(b[..SIZEOF_CK_ULONG])} + Words(b[SIZEOF_CK_ULONG..])
  }

  function StoreMechanisms(m: Memory, len: nat, s: Store): Outcome {
    if len == 0 || len % SIZEOF_CK_ULONG != 0 then Outcome(ValueInvalid, s)
    else Outcome(OK, s[CKA_ALLOWED_MECHANISMS := Mechs(Words(Read(m, len)))])
  }

  // ----- the policy -----

  function UpdateAttr(r: Request, a: Attribute, s: Store): Outcome {
    match KindOf(a.typ)
    case Raw => StoreText(r, a.typ, a.value, a.len, s)
    case Date =>
      if a.len != SIZEOF_CK_DATE && a.len != 0 then Outcome(ValueInvalid, s)
      else StoreText(r, a.typ, a.value, a.len, s)
    case Pinned => MatchPinned(a.typ, a.value, a.len, s)
    case Boolean => StoreFlag(a.typ, a.value, a.len, s)
    case Latch => StoreCopyable(a.value, a.len, s)
    case SensitiveFlag => StoreSensitive(r.op, a.value, a.len, s)
    case ExtractableFlag => StoreExtractable(r.op, a.value, a.len, s)
    case WrapTrustedFlag => StoreWrapWithTrusted(r.op, a.value, a.len, s)
    case TrustedFlag => StoreTrusted(r, a.value, a.len, s)
    case AuthenticateFlag => StoreAlwaysAuthenticate(r, a.value, a.len, s)
    case Frozen => Outcome(ReadOnly, s)
    case Integer => StoreNumber(a.typ, a.value, a.len, s)
    case CheckValue => StoreCheckValue(r, a.value, a.len, s)
    case KeyValue => StoreValue(r, a.value, a.len, s)
    case ValueLength => StoreValueLength(r.op, a.value, a.len, s)
    case AttributeTemplate => StoreTemplate(a.typ, a.value, a.len, s)
    case Mechanisms => StoreMechanisms(a.value, a.len, s)
  }

  /** The refusals that come before the footnote permissions are looked at. */
  function Refusal(checks: set<Check>, op: Op, a: Attribute, s: Store): RV {
    if a.value.Null? && a.len != 0 then ValueInvalid
    else if SizeOf(a.typ).Some? && SizeOf(a.typ).value != a.len then ValueInvalid
    else if !IsModifiable(s) && !Originates(op) then ReadOnly
    else if IsTrusted(s) && !Originates(op) && IsClass(s, CKO_CERTIFICATE) then ReadOnly
    else if (Ck2 in checks && op.Create?) || (Ck4 in checks && op.Generate?) || (Ck6 in checks && op.Unwrap?) then ReadOnly
    else OK
  }

  /** Whether some footnote, or the kind of operation, lets the value through to `updateAttr`. */
  predicate Permits(checks: set<Check>, op: Op, s: Store) {
    || (Alters(op) && (Ck8 in checks || Ck11 in checks))
    || (op.Set? && Ck10 in checks && IsClass(s, CKO_CERTIFICATE))
    || (op.Copy? && Ck17 in checks)
    || op.Create? || op.Derive? || op.Generate? || op.Unwrap? || op.Decapsulate?
  }

  function Update(r: Request, checks: set<Check>, a: Attribute, s: Store): Outcome {
    var refusal := Refusal(checks, r.op, a, s);
    if !refusal.OK? then Outcome(refusal, s)
    else if Permits(checks, r.op, s) then UpdateAttr(r, a, s)
    else Outcome(ReadOnly, s)
  }

  // ----- what an entry can touch -----

  /** The attributes that an entry of type `t` may write. */
  function Touched(t: nat): set<nat> {
    if t == CKA_SENSITIVE then {CKA_SENSITIVE, CKA_ALWAYS_SENSITIVE}
    else if t == CKA_EXTRACTABLE then {CKA_EXTRACTABLE, CKA_NEVER_EXTRACTABLE}
    else if t == CKA_VALUE then {CKA_VALUE, CKA_VALUE_LEN, CKA_CHECK_VALUE}
    else if KindOf(t).Pinned? || KindOf(t).Frozen? then {}
    else {t}
  }

  predicate SameExcept(s: Store, s': Store, ts: set<nat>) {
    && s.Keys <= s'.Keys <= s.Keys + ts
    && forall t :: t in s && t !in ts ==> s'[t] == s[t]
  }

  /** Which types have a kind of their own. */
  lemma OwnKinds(t: nat)
    ensures KindOf(t).Latch? <==> t == CKA_COPYABLE
    ensures KindOf(t).SensitiveFlag? <==> t == CKA_SENSITIVE
    ensures KindOf(t).ExtractableFlag? <==> t == CKA_EXTRACTABLE
    ensures KindOf(t).WrapTrustedFlag? <==> t == CKA_WRAP_WITH_TRUSTED
    ensures KindOf(t).TrustedFlag? <==> t == CKA_TRUSTED
    ensures KindOf(t).AuthenticateFlag? <==> t == CKA_ALWAYS_AUTHENTICATE
    ensures KindOf(t).CheckValue? <==> t == CKA_CHECK_VALUE
    ensures KindOf(t).KeyValue? <==> t == CKA_VALUE
    ensures KindOf(t).ValueLength? <==> t == CKA_VALUE_LEN
    ensures KindOf(t).Mechanisms? <==> t == CKA_ALLOWED_MECHANISMS
  {
  }

  lemma ValueFrame(r: Request, m: Memory, len: nat, s: Store)
    ensures SameExcept(s, StoreValue(r, m, len, s).store, {CKA_VALUE, CKA_VALUE_LEN, CKA_CHECK_VALUE})
  {
  }

  lemma UpdateAttrFrame(r: Request, a: Attribute, s: Store)
    ensures SameExcept(s, UpdateAttr(r, a, s).store, Touched(a.typ))
  {
    hide KindOf, StoreValue, Words, NestedMap;
    OwnKinds(a.typ);
    ValueFrame(r, a.value, a.len, s);
  }

  /** Whatever the outcome, an entry leaves every attribute alone outside its own and those that depend on it. */
  lemma UpdateFrame(r: Request, checks: set<Check>, a: Attribute, s: Store)
    ensures SameExcept(s, Update(r, checks, a, s).store, Touched(a.typ))
  {
    hide KindOf, UpdateAttr;
    UpdateAttrFrame(r, a, s);
  }

  predicate WellTyped(s: Store) { forall t :: t in s ==> Fits(t, s[t]) }

  lemma Shapes(t: nat, v: Stored)
    ensures IsFlag(t) ==> (Fits(t, v) <==> v.Flag?)
    ensures IsNumber(t) ==> (Fits(t, v) <==> v.Number?)
    ensures KindOf(t).AttributeTemplate? ==> (Fits(t, v) <==> v.Nested?)
    ensures KindOf(t).Mechanisms? ==> (Fits(t, v) <==> v.Mechs?)
    ensures KindOf(t).Raw? || KindOf(t).Date? || KindOf(t).CheckValue? || KindOf(t).KeyValue? ==> (Fits(t, v) <==> v.Text?)
  {
  }

  lemma PutFits()
    ensures forall s: Store, t: nat, v: Stored {:trigger s[t := v]} ::
      WellTyped(s) && Fits(t, v) ==> WellTyped(s[t := v])
  {
  }

  lemma CoupledShapes(v: Stored)
    ensures Fits(CKA_VALUE, v) <==> v.Text?
    ensures Fits(CKA_CHECK_VALUE, v) <==> v.Text?
    ensures Fits(CKA_VALUE_LEN, v) <==> v.Number?
    ensures Fits(CKA_SENSITIVE, v) <==> v.Flag?
    ensures Fits(CKA_ALWAYS_SENSITIVE, v) <==> v.Flag?
    ensures Fits(CKA_EXTRACTABLE, v) <==> v.Flag?
    ensures Fits(CKA_NEVER_EXTRACTABLE, v) <==> v.Flag?
  {
  }

  lemma CoupledFits(r: Request, m: Memory, len: nat, s: Store)
    requires WellTyped(s)
    ensures WellTyped(StoreValue(r, m, len, s).store)
    ensures WellTyped(StoreSensitive(r.op, m, len, s).store)
    ensures WellTyped(StoreExtractable(r.op, m, len, s).store)
  {
    PutFits();
    forall v: Stored { CoupledShapes(v); }
    hide Fits, WellTyped;
  }

  lemma TextFits(r: Request, a: Attribute, s: Store)
    requires WellTyped(s) && (KindOf(a.typ).Raw? || KindOf(a.typ).Date? || KindOf(a.typ).CheckValue?)
    ensures WellTyped(UpdateAttr(r, a, s).store)
  {
    PutFits();
    OwnKinds(a.typ);
    forall v: Stored { Shapes(a.typ, v); }
    hide KindOf, Fits, WellTyped, Sealed, ExpectedCheckValue;
  }

  lemma FlagFits(r: Request, a: Attribute, s: Store)
    requires WellTyped(s) && IsFlag(a.typ)
    ensures WellTyped(UpdateAttr(r, a, s).store)
  {
    PutFits();
    CoupledFits(r, a.value, a.len, s);
    OwnKinds(a.typ);
    forall v: Stored { Shapes(a.typ, v); }
    hide StoreSensitive, StoreExtractable, KindOf, Fits, WellTyped;
  }

  lemma UpdateAttrFits(r: Request, a: Attribute, s: Store)
    requires WellTyped(s)
    ensures WellTyped(UpdateAttr(r, a, s).store)
  {
    PutFits();
    OwnKinds(a.typ);
    forall v: Stored { Shapes(a.typ, v); }
    if IsFlag(a.typ) {
      FlagFits(r, a, s);
    } else if KindOf(a.typ).Raw? || KindOf(a.typ).Date? || KindOf(a.typ).CheckValue? {
      TextFits(r, a, s);
    } else {
      CoupledFits(r, a.value, a.len, s);
      assert KindOf(a.typ).Integer? || KindOf(a.typ).ValueLength? ==> IsNumber(a.typ);
      hide StoreValue, KindOf, Fits, WellTyped, Words, NestedMap;
    }
  }

  /** Stored values keep the types their attribute classes expect. */
  lemma UpdateFits(r: Request, checks: set<Check>, a: Attribute, s: Store)
    requires WellTyped(s)
    ensures WellTyped(Update(r, checks, a, s).store)
  {
    hide WellTyped, UpdateAttr;
    UpdateAttrFits(r, a, s);
  }
}
