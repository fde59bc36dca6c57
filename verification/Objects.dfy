/** Objects and the templates saved to them: `P11Object::init` and `saveTemplate` of
    P11Objects.cpp, over an object whose attributes change in place inside a transaction. */
module Objects {
  import opened Octets
  import opened Cryptoki
  import opened Attributes
  import opened Wrappers

  // ----- the attribute tables of the object classes -----

  type Table = map<nat, set<Check>>

  function ObjectTable(): Table {
    map[
    CKA_CLASS := {Ck1}, CKA_TOKEN := {Ck17}, CKA_PRIVATE := {Ck17}, CKA_MODIFIABLE := {Ck17}, CKA_LABEL := {Ck8},
    CKA_COPYABLE := {Ck12}, CKA_DESTROYABLE := {Ck17}]
  }

  function KeyTable(): Table {
    map[
    CKA_KEY_TYPE := {Ck1, Ck5}, CKA_ID := {Ck8}, CKA_START_DATE := {Ck8}, CKA_END_DATE := {Ck8},
    CKA_DERIVE := {Ck8}, CKA_LOCAL := {Ck2, Ck4, Ck6}, CKA_KEY_GEN_MECHANISM := {Ck2, Ck4, Ck6},
    CKA_ALLOWED_MECHANISMS := {}, CKA_VENDOR_KEY_PIN_ENTER := {Ck8}, CKA_VENDOR_KEY_CONFIRM_OP := {Ck8},
    CKA_VENDOR_KEY_JOURNAL := {Ck8}, CKA_VENDOR_CONFIRM_BY_TOUCH := {Ck8}]
  }

  function GuardedTable(): Table {
    map[
    CKA_SENSITIVE := {Ck8, Ck9, Ck11}, CKA_DECRYPT := {Ck8, Ck9}, CKA_SIGN := {Ck8, Ck9}, CKA_UNWRAP := {Ck8, Ck9},
    CKA_EXTRACTABLE := {Ck8, Ck9, Ck12}, CKA_ALWAYS_SENSITIVE := {Ck2, Ck4, Ck6},
    CKA_NEVER_EXTRACTABLE := {Ck2, Ck4, Ck6}, CKA_WRAP_WITH_TRUSTED := {Ck11}, CKA_UNWRAP_TEMPLATE := {},
    CKA_VALUE := {Ck1, Ck4, Ck6, Ck7}]
  }

  function SecretTable(): Table {
    map[
    CKA_ENCRYPT := {Ck8, Ck9}, CKA_VERIFY := {Ck8, Ck9}, CKA_WRAP := {Ck8, Ck9}, CKA_CHECK_VALUE := {Ck8},
    CKA_TRUSTED := {Ck10}, CKA_WRAP_TEMPLATE := {}]
  }

  function PrivateTable(): Table {
    map[
    CKA_SUBJECT := {Ck8}, CKA_SIGN_RECOVER := {Ck8, Ck9}, CKA_ALWAYS_AUTHENTICATE := {}, CKA_PUBLIC_KEY_INFO := {Ck8}]
  }

  function CertificateTable(): Table {
    map[
    CKA_CERTIFICATE_TYPE := {Ck1}, CKA_TRUSTED := {Ck10}, CKA_CERTIFICATE_CATEGORY := {}, CKA_CHECK_VALUE := {},
    CKA_START_DATE := {}, CKA_END_DATE := {}, CKA_PUBLIC_KEY_INFO := {}, CKA_SUBJECT := {Ck1}, CKA_ID := {Ck8},
    CKA_ISSUER := {Ck8}, CKA_SERIAL_NUMBER := {Ck8}, CKA_VALUE := {Ck1, Ck14}, CKA_URL := {Ck15},
    CKA_HASH_OF_SUBJECT_PUBLIC_KEY := {Ck16}, CKA_HASH_OF_ISSUER_PUBLIC_KEY := {Ck16},
    CKA_JAVA_MIDP_SECURITY_DOMAIN := {}, CKA_NAME_HASH_ALGORITHM := {}]
  }

  datatype ObjectClass =
    | AesKey | GenericKey(keyType: nat) | DesKey(keyType: nat) | GostKey(keyType: nat) | EcPrivateKey | X509Certificate
  {
    predicate Secret() { !EcPrivateKey? && !X509Certificate? }

    function ClassCode(): nat {
      if X509Certificate? then CKO_CERTIFICATE else if EcPrivateKey? then CKO_PRIVATE_KEY else CKO_SECRET_KEY
    }

    /** The key type that `init` gives the object. */
    function KeyType(): nat {
      match this
      case AesKey => CKK_AES
      case EcPrivateKey => CKK_EC
      case X509Certificate => VENDOR_DEFINED
      case _ => keyType
    }

    /** Every attribute type the class knows, with the footnotes that govern it. */
    function Table(): Table {
      if X509Certificate? then ObjectTable() + CertificateTable()
      else
        ObjectTable() + KeyTable() + GuardedTable() +
        match this {
          case EcPrivateKey => PrivateTable()[CKA_EC_PARAMS := {Ck1, Ck4, Ck6}]
          case AesKey => SecretTable()[CKA_VALUE_LEN := {Ck2, Ck3, Ck6}]
          case GenericKey(_) => SecretTable()[CKA_VALUE_LEN := {Ck2, Ck3}]
          case DesKey(_) => SecretTable()
          case GostKey(k) => if k == CKK_GOST28147 then SecretTable()[CKA_GOST28147_PARAMS := {Ck1, Ck5}] else SecretTable()
        }
    }

    /** `init` on an object with attributes `s`: fix what identifies the class, default what is missing. */
    function Init(s: Store): Store {
      var forced := s[CKA_CLASS := Number(ClassCode())];
      var typed :=
        if X509Certificate? then forced[CKA_CERTIFICATE_TYPE := Number(CKC_X_509)]
        else forced[CKA_KEY_TYPE := Number(KeyType())];
      var open := if X509Certificate? && CKA_PRIVATE !in s then typed[CKA_PRIVATE := Flag(false)] else typed;
      map t | t in open.Keys + Table().Keys :: if t in open then open[t] else DefaultOf(t)
    }
  }

  // ----- saving a template, as a function -----

  function Entry(r: Request, table: Table, i: nat, a: Attribute, s: Store): Outcome {
    if a.typ !in table then Outcome(TypeInvalid, s)
    else Update(r.(iv := r.iv + 2 * i), table[a.typ], a, s)
  }

  /** The entries one after the other, up to the first that is refused. */
  function Apply(r: Request, table: Table, template: Template, s: Store): Outcome {
    if template == [] then Outcome(OK, s)
    else
      var n := |template| - 1;
      var before := Apply(r, table, template[..n], s);
      if before.rv.OK? then Entry(r, table, n, template[n], before.store) else before
  }

  predicate Mandatory(checks: set<Check>, op: Op) {
    || (op.Create? && Ck1 in checks)
    || (op.Generate? && Ck3 in checks)
    || ((op.Unwrap? || op.Decapsulate?) && Ck5 in checks)
  }

  predicate Names(template: Template, t: nat) { exists a :: a in template && a.typ == t }

  predicate Complete(table: Table, template: Template, op: Op) {
    forall t :: t in table && Mandatory(table[t], op) ==> Names(template, t)
  }

  /** SET needs a modifiable object and COPY a copyable one. */
  predicate Allowed(op: Op, s: Store) {
    && (op.Set? ==> IsModifiable(s))
    && (op.Copy? ==> IsCopyable(s))
  }

  /** The verdict of `saveTemplate`, and the attributes reached by the time it is known. */
  function Save(r: Request, table: Table, template: Template, s: Store): Outcome {
    if !Allowed(r.op, s) then Outcome(ActionProhibited, s)
    else
      var o := Apply(r, table, template, s);
      if o.rv.OK? && !Complete(table, template, r.op) then Outcome(TemplateIncomplete, o.store) else o
  }

  /** C_SetAttributeValue once the session may write: an object that is not modifiable is left alone; otherwise it is
      wrapped, which settles and stores its missing attributes, before the template is saved. */
  function SetCall(r: Request, c: ObjectClass, onDisk: bool, template: Template, s: Store): Outcome {
    if !IsModifiable(s) then Outcome(ActionProhibited, s)
    else
      var settled := c.Init(s);
      var o := Save(r, c.Table(), template, settled);
      if o.rv.OK? || !onDisk then o else Outcome(o.rv, settled)
  }

  lemma {:induction false} ApplyStops(r: Request, table: Table, template: Template, i: nat, s: Store)
    requires i <= |template| && !Apply(r, table, template[..i], s).rv.OK?
    ensures Apply(r, table, template, s) == Apply(r, table, template[..i], s)
  {
    if i == |template| {
      assert template[..i] == template;
    } else {
      var front := template[..|template| - 1];
      assert front[..i] == template[..i];
      ApplyStops(r, table, front, i, s);
    }
  }

  // ----- what saving means -----

  /** The attributes after each entry of a template that is accepted throughout. */
  ghost predicate Chain(r: Request, table: Table, template: Template, states: seq<Store>) {
    && |states| == |template| + 1
    && forall i :: 0 <= i < |template| ==> Entry(r, table, i, template[i], states[i]) == Outcome(OK, states[i + 1])
  }

  lemma {:induction false} ApplyChain(r: Request, table: Table, template: Template, s: Store)
    returns (states: seq<Store>)
    requires Apply(r, table, template, s).rv.OK?
    ensures Chain(r, table, template, states) && states[0] == s
    ensures states[|template|] == Apply(r, table, template, s).store
  {
    if template == [] {
      states := [s];
    } else {
      var n := |template| - 1;
      var front := ApplyChain(r, table, template[..n], s);
      states := front + [Apply(r, table, template, s).store];
      forall i | 0 <= i < |template|
        ensures Entry(r, table, i, template[i], states[i]) == Outcome(OK, states[i + 1])
      {
        if i < n { assert template[..n][i] == template[i]; }
      }
    }
  }

  lemma {:induction false} ChainApplies(r: Request, table: Table, template: Template, states: seq<Store>)
    requires Chain(r, table, template, states)
    ensures Apply(r, table, template, states[0]) == Outcome(OK, states[|template|])
  {
    if template != [] {
      var n := |template| - 1;
      assert Chain(r, table, template[..n], states[..n + 1]) by {
        forall i | 0 <= i < n
          ensures Entry(r, table, i, template[..n][i], states[..n + 1][i]) == Outcome(OK, states[..n + 1][i + 1])
        {
        }
      }
      ChainApplies(r, table, template[..n], states[..n + 1]);
    }
  }

  /** `saveTemplate` answers OK exactly when the object permits the operation, every entry is known and
      accepted in the state left by the entries before it, and every mandatory attribute is named. */
  lemma SaveAccepts(r: Request, table: Table, template: Template, s: Store)
    ensures Save(r, table, template, s).rv.OK? <==>
      && Allowed(r.op, s)
      && (exists states :: Chain(r, table, template, states) && states[0] == s)
      && Complete(table, template, r.op)
    ensures forall states :: Save(r, table, template, s).rv.OK? && Chain(r, table, template, states) && states[0] == s ==>
      Save(r, table, template, s).store == states[|template|]
  {
    hide Entry, Complete;
    if Apply(r, table, template, s).rv.OK? {
      var states := ApplyChain(r, table, template, s);
    }
    forall states | Chain(r, table, template, states) && states[0] == s
      ensures Apply(r, table, template, s) == Outcome(OK, states[|template|])
    {
      ChainApplies(r, table, template, states);
    }
  }

  /** Any other answer is that of the first failing check: the entries before `i` are accepted and entry `i`
      is refused with that code, or all are accepted and a mandatory attribute is missing. */
  lemma SaveRefuses(r: Request, table: Table, template: Template, s: Store) returns (i: nat)
    requires !Save(r, table, template, s).rv.OK? && Allowed(r.op, s)
    ensures i <= |template|
    ensures i < |template| ==>
      && Apply(r, table, template[..i], s).rv.OK?
      && Entry(r, table, i, template[i], Apply(r, table, template[..i], s).store).rv == Save(r, table, template, s).rv
    ensures i == |template| ==>
      && Apply(r, table, template, s).rv.OK?
      && !Complete(table, template, r.op)
      && Save(r, table, template, s).rv == TemplateIncomplete
  {
    i := 0;
    hide Entry, Complete;
    while i < |template| && Apply(r, table, template[..i + 1], s).rv.OK?
      invariant i <= |template| && Apply(r, table, template[..i], s).rv.OK?
    {
      i := i + 1;
    }
    assert template[..|template|] == template;
    if i < |template| {
      assert template[..i + 1][..i] == template[..i];
      ApplyStops(r, table, template, i + 1, s);
    }
  }

  /** Whatever a template does, stored values keep the types their attribute classes expect. */
  lemma {:induction false} ApplyFits(r: Request, table: Table, template: Template, s: Store)
    requires WellTyped(s)
    ensures WellTyped(Apply(r, table, template, s).store)
  {
    hide Update, WellTyped;
    if template != [] {
      var n := |template| - 1;
      var before := Apply(r, table, template[..n], s);
      ApplyFits(r, table, template[..n], s);
      if before.rv.OK? && template[n].typ in table {
        UpdateFits(r.(iv := r.iv + 2 * n), table[template[n].typ], template[n], before.store);
      }
    }
  }

  // ----- the object, and saving in place -----

  /** An object in the store.  Token objects have a copy on disk to go back to; the transactions of
      session objects are stubs. */
  class OSObject {
    const onDisk: bool
    var attributes: Store
    var disk: Store
    var inTransaction: bool

    constructor (onDisk: bool, s: Store)
      ensures this.onDisk == onDisk && attributes == s && disk == s && !inTransaction
    {
      this.onDisk := onDisk;
      attributes, disk, inTransaction := s, s, false;
    }

    ghost predicate Open()
      reads this
    {
      onDisk ==> inTransaction
    }

    /** Opening re-reads the file, so that the transaction starts from what is on disk. */
    method StartTransaction() returns (ok: bool)
      modifies this
      ensures ok <==> !(onDisk && old(inTransaction))
      ensures inTransaction == (onDisk || old(inTransaction))
      ensures disk == old(disk) && (ok ==> Open())
      ensures attributes == if ok && onDisk then old(disk) else old(attributes)
    {
      if !onDisk { return true; }
      if inTransaction { return false; }
      attributes := disk;
      inTransaction := true;
      return true;
    }

    method CommitTransaction() returns (ok: bool)
      modifies this
      ensures ok <==> !onDisk || old(inTransaction)
      ensures attributes == old(attributes)
      ensures disk == if ok && onDisk then old(attributes) else old(disk)
      ensures inTransaction == if onDisk then false else old(inTransaction)
    {
      if !onDisk { return true; }
      if !inTransaction { return false; }
      disk := attributes;
      inTransaction := false;
      return true;
    }

    method AbortTransaction() returns (ok: bool)
      modifies this
      ensures ok <==> !onDisk || old(inTransaction)
      ensures attributes == if ok && onDisk then old(disk) else old(attributes)
      ensures disk == old(disk)
      ensures inTransaction == if onDisk then false else old(inTransaction)
    {
      if !onDisk { return true; }
      if !inTransaction { return false; }
      attributes := disk;
      inTransaction := false;
      return true;
    }

    method SetAttribute(t: nat, v: Stored)
      requires Open()
      modifies this`attributes
      ensures attributes == old(attributes)[t := v]
    {
      attributes := attributes[t := v];
    }
  }

  class P11Object {
    const osobject: OSObject
    const table: Table

    constructor (osobject: OSObject, c: ObjectClass)
      modifies osobject`attributes, osobject`disk
      ensures this.osobject == osobject && table == c.Table()
      ensures osobject.attributes == c.Init(old(osobject.attributes))
      ensures osobject.disk == if osobject.onDisk && !osobject.inTransaction then osobject.attributes else old(osobject.disk)
    {
      this.osobject := osobject;
      table := c.Table();
      new;
      osobject.attributes := c.Init(osobject.attributes);
      if osobject.onDisk && !osobject.inTransaction { osobject.disk := osobject.attributes; }
    }

    method UpdateText(r: Request, t: nat, m: Memory, len: nat) returns (rv: RV)
      requires osobject.Open()
      modifies osobject`attributes
      ensures Outcome(rv, osobject.attributes) == StoreText(r, t, m, len, old(osobject.attributes))
    {
      var sealed := Sealed(r.tok, r.isPrivate, r.iv, Read(m, len));
      if sealed.None? || |sealed.value| < len { return GeneralError; }
      osobject.SetAttribute(t, Text(sealed.value));
      return OK;
    }

    method UpdateFlag(t: nat, m: Memory, len: nat) returns (rv: RV)
      requires osobject.Open()
      modifies osobject`attributes
      ensures Outcome(rv, osobject.attributes) == StoreFlag(t, m, len, old(osobject.attributes))
    {
      if len != SIZEOF_CK_BBOOL { return ValueInvalid; }
      osobject.SetAttribute(t, Flag(ReadFlag(m, len)));
      return OK;
    }

    method UpdateNumber(t: nat, m: Memory, len: nat) returns (rv: RV)
      requires osobject.Open()
      modifies osobject`attributes
      ensures Outcome(rv, osobject.attributes) == StoreNumber(t, m, len, old(osobject.attributes))
    {
      if len != SIZEOF_CK_ULONG { return ValueInvalid; }
      osobject.SetAttribute(t, Number(ReadNumber(m, len)));
      return OK;
    }

    method UpdateCopyable(m: Memory, len: nat) returns (rv: RV)
      requires osobject.Open()
      modifies osobject`attributes
      ensures Outcome(rv, osobject.attributes) == StoreCopyable(m, len, old(osobject.attributes))
    {
      if len != SIZEOF_CK_BBOOL { return ValueInvalid; }
      if !ReadFlag(m, len) {
        osobject.SetAttribute(CKA_COPYABLE, Flag(false));
      } else if !GetFlag(osobject.attributes, CKA_COPYABLE, true) {
        return ReadOnly;
      }
      return OK;
    }

    method UpdateSensitive(op: Op, m: Memory, len: nat) returns (rv: RV)
      requires osobject.Open()
      modifies osobject`attributes
      ensures Outcome(rv, osobject.attributes) == StoreSensitive(op, m, len, old(osobject.attributes))
    {
      if Alters(op) && GetFlag(osobject.attributes, CKA_SENSITIVE, false) { return ReadOnly; }
      if len != SIZEOF_CK_BBOOL { return ValueInvalid; }
      if !ReadFlag(m, len) {
        osobject.SetAttribute(CKA_SENSITIVE, Flag(false));
        osobject.SetAttribute(CKA_ALWAYS_SENSITIVE, Flag(false));
      } else {
        osobject.SetAttribute(CKA_SENSITIVE, Flag(true));
        if op.Generate? || op.Derive? {
          osobject.SetAttribute(CKA_ALWAYS_SENSITIVE, Flag(true));
        }
      }
      return OK;
    }

    method UpdateExtractable(op: Op, m: Memory, len: nat) returns (rv: RV)
      requires osobject.Open()
      modifies osobject`attributes
      ensures Outcome(rv, osobject.attributes) == StoreExtractable(op, m, len, old(osobject.attributes))
    {
      if Alters(op) && !GetFlag(osobject.attributes, CKA_EXTRACTABLE, false) { return ReadOnly; }
      if len != SIZEOF_CK_BBOOL { return ValueInvalid; }
      if !ReadFlag(m, len) {
        osobject.SetAttribute(CKA_EXTRACTABLE, Flag(false));
      } else {
        osobject.SetAttribute(CKA_EXTRACTABLE, Flag(true));
        osobject.SetAttribute(CKA_NEVER_EXTRACTABLE, Flag(false));
      }
      return OK;
    }

    method UpdateGuardedFlag(r: Request, t: nat, m: Memory, len: nat) returns (rv: RV)
      requires t == CKA_WRAP_WITH_TRUSTED || t == CKA_TRUSTED || t == CKA_ALWAYS_AUTHENTICATE
      requires osobject.Open()
      modifies osobject`attributes
      ensures Outcome(rv, osobject.attributes) == UpdateAttr(r, Attribute(t, m, len), old(osobject.attributes))
    {
      if t == CKA_WRAP_WITH_TRUSTED && Alters(r.op) && GetFlag(osobject.attributes, CKA_WRAP_WITH_TRUSTED, false) {
        return ReadOnly;
      }
      if len != SIZEOF_CK_BBOOL { return ValueInvalid; }
      if t == CKA_TRUSTED && r.op.Set? && !r.tok.so { return ReadOnly; }
      if ReadFlag(m, len) {
        if t == CKA_TRUSTED && !r.tok.so { return ReadOnly; }
        if t == CKA_ALWAYS_AUTHENTICATE && !r.isPrivate { return TemplateInconsistent; }
      }
      osobject.SetAttribute(t, Flag(ReadFlag(m, len)));
      return OK;
    }

    method UpdateCheckValue(r: Request, m: Memory, len: nat) returns (rv: RV)
      requires osobject.Open()
      modifies osobject`attributes
      ensures Outcome(rv, osobject.attributes) == StoreCheckValue(r, m, len, old(osobject.attributes))
    {
      var plain := Read(m, len);
      var sealed := Sealed(r.tok, r.isPrivate, r.iv, plain);
      if sealed.None? || |sealed.value| < len { return GeneralError; }
      if len != 0 {
        var key := GetText(osobject.attributes, CKA_VALUE);
        if r.isPrivate {
          var plainKey := r.tok.decrypt(key);
          if plainKey.None? { return GeneralError; }
          key := plainKey.value;
        }
        var expected := ExpectedCheckValue(r.tok, GetNumber(osobject.attributes, CKA_KEY_TYPE, VENDOR_DEFINED), key, plain);
        if expected.None? { return GeneralError; }
        if plain != expected.value { return ValueInvalid; }
      }
      osobject.SetAttribute(CKA_CHECK_VALUE, Text(sealed.value));
      return OK;
    }

    method UpdateValue(r: Request, m: Memory, len: nat) returns (rv: RV)
      requires osobject.Open()
      modifies osobject`attributes
      ensures Outcome(rv, osobject.attributes) == StoreValue(r, m, len, old(osobject.attributes))
    {
      var plain := Read(m, len);
      var sealed := Sealed(r.tok, r.isPrivate, r.iv, plain);
      if sealed.None? || |sealed.value| < len { return GeneralError; }
      osobject.SetAttribute(CKA_VALUE, Text(sealed.value));
      if (r.op.Create? || r.op.Unwrap? || r.op.Decapsulate?) && CKA_VALUE_LEN in osobject.attributes {
        osobject.SetAttribute(CKA_VALUE_LEN, Number(|plain|));
      }
      if GetNumber(osobject.attributes, CKA_CLASS, VENDOR_DEFINED) == CKO_CERTIFICATE {
        var digest := Sealed(r.tok, r.isPrivate, r.iv + 1, r.tok.digest(plain));
        if digest.None? { return GeneralError; }
        osobject.SetAttribute(CKA_CHECK_VALUE, Text(digest.value));
      }
      if r.op.Create? && GetNumber(osobject.attributes, CKA_CLASS, VENDOR_DEFINED) == CKO_SECRET_KEY {
        var keyType := GetNumber(osobject.attributes, CKA_KEY_TYPE, VENDOR_DEFINED);
        var checkValue: Bytes := [];
        if ExposesCheckValue(keyType) {
          checkValue := r.tok.keyCheck(keyType, plain);
        } else if !HidesCheckValue(keyType) {
          return GeneralError;
        }
        var sealedCheck := Sealed(r.tok, r.isPrivate, r.iv + 1, checkValue);
        if sealedCheck.None? { return GeneralError; }
        osobject.SetAttribute(CKA_CHECK_VALUE, Text(sealedCheck.value));
      }
      return OK;
    }

    method UpdateTemplate(t: nat, m: Memory, len: nat) returns (rv: RV)
      requires osobject.Open()
      modifies osobject`attributes
      ensures Outcome(rv, osobject.attributes) == StoreTemplate(t, m, len, old(osobject.attributes))
    {
      if len % SIZEOF_CK_ATTRIBUTE != 0 { return ValueInvalid; }
      var items := ReadItems(m, len / SIZEOF_CK_ATTRIBUTE);
      var data: map<nat, Stored> := map[];
      for i := 0 to |items|
        invariant NestedMap(items[..i]) == Some(data)
      {
        assert items[..i + 1][..i] == items[..i];
        var element := NestedValue(items[i]);
        if element.None? {
          NestedMapStops(items, i + 1);
          return ValueInvalid;
        }
        data := Insert(data, items[i].typ, element.value);
      }
      assert items[..|items|] == items;
      osobject.SetAttribute(t, Nested(data));
      return OK;
    }

    method UpdateMechanisms(m: Memory, len: nat) returns (rv: RV)
      requires osobject.Open()
      modifies osobject`attributes
      ensures Outcome(rv, osobject.attributes) == StoreMechanisms(m, len, old(osobject.attributes))
    {
      if len == 0 || len % SIZEOF_CK_ULONG != 0 { return ValueInvalid; }
      var mechType := Read(m, len);
      ghost var all := Words(mechType);
      var data: set<nat> := {};
      while SIZEOF_CK_ULONG <= |mechType|
        invariant data + Words(mechType) == all
      {
        data := data + {LittleEndian(mechType[..SIZEOF_CK_ULONG])};
        mechType := mechType[SIZEOF_CK_ULONG..];
      }
      osobject.SetAttribute(CKA_ALLOWED_MECHANISMS, Mechs(data));
      return OK;
    }

    /** The override that the attribute's class provides. */
    method UpdateAttribute(r: Request, a: Attribute) returns (rv: RV)
      requires osobject.Open()
      modifies osobject`attributes
      ensures Outcome(rv, osobject.attributes) == UpdateAttr(r, a, old(osobject.attributes))
    {
      match KindOf(a.typ)
      case Raw => rv := UpdateText(r, a.typ, a.value, a.len);
      case Date =>
        if a.len != SIZEOF_CK_DATE && a.len != 0 { return ValueInvalid; }
        rv := UpdateText(r, a.typ, a.value, a.len);
      case Pinned =>
        if a.len != SIZEOF_CK_ULONG { return ValueInvalid; }
        if GetNumber(osobject.attributes, a.typ, VENDOR_DEFINED) != ReadNumber(a.value, a.len) {
          return TemplateInconsistent;
        }
        return OK;
      case Boolean => rv := UpdateFlag(a.typ, a.value, a.len);
      case Latch => rv := UpdateCopyable(a.value, a.len);
      case SensitiveFlag => rv := UpdateSensitive(r.op, a.value, a.len);
      case ExtractableFlag => rv := UpdateExtractable(r.op, a.value, a.len);
      case WrapTrustedFlag => rv := UpdateGuardedFlag(r, a.typ, a.value, a.len);
      case TrustedFlag => rv := UpdateGuardedFlag(r, a.typ, a.value, a.len);
      case AuthenticateFlag => rv := UpdateGuardedFlag(r, a.typ, a.value, a.len);
      case Frozen => return ReadOnly;
      case Integer => rv := UpdateNumber(a.typ, a.value, a.len);
      case CheckValue => rv := UpdateCheckValue(r, a.value, a.len);
      case KeyValue => rv := UpdateValue(r, a.value, a.len);
      case ValueLength =>
        if !r.op.Generate? && !r.op.Derive? && !r.op.Decapsulate? { return ReadOnly; }
        rv := UpdateNumber(CKA_VALUE_LEN, a.value, a.len);
      case AttributeTemplate => rv := UpdateTemplate(a.typ, a.value, a.len);
      case Mechanisms => rv := UpdateMechanisms(a.value, a.len);
    }

    /** `P11Attribute::update`, in the order of its checks. */
    method UpdateEntry(r: Request, checks: set<Check>, a: Attribute) returns (rv: RV)
      requires osobject.Open()
      modifies osobject`attributes
      ensures Outcome(rv, osobject.attributes) == Update(r, checks, a, old(osobject.attributes))
    {
      if a.value.Null? && a.len != 0 { return ValueInvalid; }
      var size := SizeOf(a.typ);
      if size.Some? && size.value != a.len { return ValueInvalid; }
      if !IsModifiable(osobject.attributes) && !Originates(r.op) { return ReadOnly; }
      if IsTrusted(osobject.attributes) && !Originates(r.op) {
        if GetNumber(osobject.attributes, CKA_CLASS, VENDOR_DEFINED) == CKO_CERTIFICATE { return ReadOnly; }
      }
      if Ck2 in checks && r.op.Create? { return ReadOnly; }
      if Ck4 in checks && r.op.Generate? { return ReadOnly; }
      if Ck6 in checks && r.op.Unwrap? { return ReadOnly; }
      if Ck8 in checks && (r.op.Set? || r.op.Copy?) { rv := UpdateAttribute(r, a); return; }
      if Ck10 in checks && r.op.Set? && GetNumber(osobject.attributes, CKA_CLASS, VENDOR_DEFINED) == CKO_CERTIFICATE {
        rv := UpdateAttribute(r, a);
        return;
      }
      if Ck11 in checks && (r.op.Set? || r.op.Copy?) { rv := UpdateAttribute(r, a); return; }
      if Ck17 in checks && r.op.Copy? { rv := UpdateAttribute(r, a); return; }
      if r.op.Create? || r.op.Derive? || r.op.Generate? || r.op.Unwrap? || r.op.Decapsulate? {
        rv := UpdateAttribute(r, a);
        return;
      }
      return ReadOnly;
    }

    /** Whether the template names every attribute that the operation requires. */
    method CheckMandatory(template: Template, op: Op) returns (complete: bool)
      ensures complete <==> Complete(table, template, op)
    {
      var remaining := table.Keys;
      while remaining != {}
        invariant remaining <= table.Keys
        invariant forall t :: t in table && t !in remaining && Mandatory(table[t], op) ==> Names(template, t)
        decreases |remaining|
      {
        var t :| t in remaining;
        if Mandatory(table[t], op) {
          var specified := false;
          for n := 0 to |template|
            invariant specified <==> Names(template[..n], t)
          {
            assert template[..n + 1] == template[..n] + [template[n]];
            if template[n].typ == t { specified := true; }
          }
          assert template[..|template|] == template;
          if !specified { return false; }
        }
        remaining := remaining - {t};
      }
      return true;
    }

    /** The first loop of `saveTemplate`. */
    method UpdateEntries(r: Request, template: Template) returns (rv: RV)
      requires osobject.Open()
      modifies osobject`attributes
      ensures Outcome(rv, osobject.attributes) == Apply(r, table, template, old(osobject.attributes))
    {
      hide Update;
      ghost var start := osobject.attributes;
      for i := 0 to |template|
        invariant osobject.Open()
        invariant Apply(r, table, template[..i], start) == Outcome(OK, osobject.attributes)
      {
        assert template[..i + 1][..i] == template[..i];
        if template[i].typ !in table {
          rv := TypeInvalid;
        } else {
          rv := UpdateEntry(r.(iv := r.iv + 2 * i), table[template[i].typ], template[i]);
        }
        if !rv.OK? {
          ApplyStops(r, table, template, i + 1, start);
          return;
        }
      }
      assert template[..|template|] == template;
      return OK;
    }

    /** `saveTemplate`.  A token object ends up with the whole template or none of it; a session object keeps
        whatever the entries before the failure did. */
    method SaveTemplate(tok: Token, isPrivate: bool, template: Template, op: Op, iv: nat) returns (rv: RV)
      modifies osobject
      ensures osobject.onDisk && old(osobject.inTransaction) ==>
        rv == GeneralError && osobject.attributes == old(osobject.attributes) && osobject.disk == old(osobject.disk)
      ensures osobject.onDisk && !old(osobject.inTransaction) ==>
        var o := Save(Request(tok, isPrivate, op, iv), table, template, old(osobject.disk));
        rv == o.rv && !osobject.inTransaction && osobject.attributes == osobject.disk
        && osobject.disk == if o.rv.OK? then o.store else old(osobject.disk)
      ensures !osobject.onDisk ==>
        Outcome(rv, osobject.attributes) == Save(Request(tok, isPrivate, op, iv), table, template, old(osobject.attributes))
    {
      hide Apply, Complete;
      var started := osobject.StartTransaction();
      if !started { return GeneralError; }
      if op.Set? && !IsModifiable(osobject.attributes) {
        var _ := osobject.AbortTransaction();
        return ActionProhibited;
      }
      if op.Copy? && !IsCopyable(osobject.attributes) {
        var _ := osobject.AbortTransaction();
        return ActionProhibited;
      }
      rv := UpdateEntries(Request(tok, isPrivate, op, iv), template);
      if !rv.OK? {
        var _ := osobject.AbortTransaction();
        return;
      }
      var complete := CheckMandatory(template, op);
      if !complete {
        var _ := osobject.AbortTransaction();
        return TemplateIncomplete;
      }
      var committed := osobject.CommitTransaction();
      if !committed { return GeneralError; }
      return OK;
    }
  }

  /** C_SetAttributeValue on an object of class `c`, which is the class that `newP11Object` finds for it. */
  method SetAttributeValue(osobject: OSObject, c: ObjectClass, tok: Token, template: Template, iv: nat) returns (rv: RV)
    requires !osobject.inTransaction && (osobject.onDisk ==> osobject.attributes == osobject.disk)
    modifies osobject
    ensures var r := Request(tok, GetFlag(old(osobject.attributes), CKA_PRIVATE, true), Set, iv);
      Outcome(rv, osobject.attributes) == SetCall(r, c, osobject.onDisk, template, old(osobject.attributes))
    ensures osobject.onDisk ==> osobject.attributes == osobject.disk && !osobject.inTransaction
  {
    hide Save, ObjectClass.Init, ObjectClass.Table;
    var isPrivate := GetFlag(osobject.attributes, CKA_PRIVATE, true);
    if !IsModifiable(osobject.attributes) { return ActionProhibited; }
    var p11object := new P11Object(osobject, c);
    rv := p11object.SaveTemplate(tok, isPrivate, template, Set, iv);
  }

  lemma {:induction false} NestedMapStops(items: Template, i: nat)
    requires i <= |items| && NestedMap(items[..i]).None?
    ensures NestedMap(items).None?
  {
    if i == |items| {
      assert items[..i] == items;
    } else {
      var front := items[..|items| - 1];
      assert front[..i] == items[..i];
      NestedMapStops(front, i);
    }
  }
}
