/** The vocabulary of the attribute policy: attribute types, stored values, templates, tokens
    (P11Attributes.h, OSAttribute.h). */
module Cryptoki {
  import opened Octets
  import opened Wrappers

  // ----- attribute types, object classes, key types -----

  const CKA_CLASS := 0x0
  const CKA_TOKEN := 0x1
  const CKA_PRIVATE := 0x2
  const CKA_LABEL := 0x3
  const CKA_VALUE := 0x11
  const CKA_CERTIFICATE_TYPE := 0x80
  const CKA_ISSUER := 0x81
  const CKA_SERIAL_NUMBER := 0x82
  const CKA_TRUSTED := 0x86
  const CKA_CERTIFICATE_CATEGORY := 0x87
  const CKA_JAVA_MIDP_SECURITY_DOMAIN := 0x88
  const CKA_URL := 0x89
  const CKA_HASH_OF_SUBJECT_PUBLIC_KEY := 0x8a
  const CKA_HASH_OF_ISSUER_PUBLIC_KEY := 0x8b
  const CKA_NAME_HASH_ALGORITHM := 0x8c
  const CKA_CHECK_VALUE := 0x90
  const CKA_KEY_TYPE := 0x100
  const CKA_SUBJECT := 0x101
  const CKA_ID := 0x102
  const CKA_SENSITIVE := 0x103
  const CKA_ENCRYPT := 0x104
  const CKA_DECRYPT := 0x105
  const CKA_WRAP := 0x106
  const CKA_UNWRAP := 0x107
  const CKA_SIGN := 0x108
  const CKA_SIGN_RECOVER := 0x109
  const CKA_VERIFY := 0x10a
  const CKA_VERIFY_RECOVER := 0x10b
  const CKA_DERIVE := 0x10c
  const CKA_START_DATE := 0x110
  const CKA_END_DATE := 0x111
  const CKA_MODULUS_BITS := 0x121
  const CKA_PUBLIC_KEY_INFO := 0x129
  const CKA_PRIME_BITS := 0x133
  const CKA_SUB_PRIME_BITS := 0x134
  const CKA_VALUE_BITS := 0x160
  const CKA_VALUE_LEN := 0x161
  const CKA_EXTRACTABLE := 0x162
  const CKA_LOCAL := 0x163
  const CKA_NEVER_EXTRACTABLE := 0x164
  const CKA_ALWAYS_SENSITIVE := 0x165
  const CKA_KEY_GEN_MECHANISM := 0x166
  const CKA_MODIFIABLE := 0x170
  const CKA_COPYABLE := 0x171
  const CKA_DESTROYABLE := 0x172
  const CKA_EC_PARAMS := 0x180
  const CKA_SECONDARY_AUTH := 0x200
  const CKA_AUTH_PIN_FLAGS := 0x201
  const CKA_ALWAYS_AUTHENTICATE := 0x202
  const CKA_WRAP_WITH_TRUSTED := 0x210
  const CKA_GOST28147_PARAMS := 0x252
  const CKA_WRAP_TEMPLATE := 0x40000211
  const CKA_UNWRAP_TEMPLATE := 0x40000212
  const CKA_ALLOWED_MECHANISMS := 0x40000600
  const CKA_VENDOR_KEY_PIN_ENTER := 0x80002000
  const CKA_VENDOR_KEY_CONFIRM_OP := 0x80002001
  const CKA_VENDOR_KEY_JOURNAL := 0x80002002
  const CKA_VENDOR_CONFIRM_BY_TOUCH := 0x80002003

  const CKO_CERTIFICATE := 1
  const CKO_PRIVATE_KEY := 3
  const CKO_SECRET_KEY := 4
  const VENDOR_DEFINED := 0x80000000

  const CKK_EC := 0x3
  const CKK_GENERIC_SECRET := 0x10
  const CKK_DES := 0x13
  const CKK_DES2 := 0x14
  const CKK_DES3 := 0x15
  const CKK_AES := 0x1f
  const CKK_MD5_HMAC := 0x27
  const CKK_SHA_1_HMAC := 0x28
  const CKK_SHA256_HMAC := 0x2b
  const CKK_SHA384_HMAC := 0x2c
  const CKK_SHA512_HMAC := 0x2d
  const CKK_SHA224_HMAC := 0x2e
  const CKK_GOST28147 := 0x32
  const CKK_KUZNECHIK := 0xD4321004
  const CKK_MAGMA := 0xD4321005
  const CKK_KUZNECHIK_TWIN_KEY := 0xD4321006
  const CKK_MAGMA_TWIN_KEY := 0xD4321007

  const CKC_X_509 := 0
  const CKM_SHA_1 := 0x220

  const SIZEOF_CK_BBOOL := 1
  const SIZEOF_CK_ULONG := 8
  const SIZEOF_CK_DATE := 8
  const SIZEOF_CK_ATTRIBUTE := 24

  datatype RV =
    | OK
    | GeneralError
    | ValueInvalid
    | ReadOnly
    | TypeInvalid
    | TemplateInconsistent
    | TemplateIncomplete
    | ActionProhibited
    | Sensitive
    | BufferTooSmall

  datatype Op = NoOp | Copy | Create | Derive | Generate | Set | Unwrap | Decapsulate

  /** The operations that bring a key into being from outside. */
  predicate Originates(op: Op) { op.Generate? || op.Create? || op.Unwrap? || op.Decapsulate? }

  /** The footnotes of the attribute tables that the code consults. */
  datatype Check = Ck1 | Ck2 | Ck3 | Ck4 | Ck5 | Ck6 | Ck7 | Ck8 | Ck9 | Ck10 | Ck11 | Ck12 | Ck14 | Ck15 | Ck16 | Ck17

  // ----- stored values -----

  datatype Stored =
    | Flag(on: bool)
    | Number(n: nat)
    | Text(bytes: Bytes)
    | Mechs(mechs: set<nat>)
    | Nested(entries: map<nat, Stored>)

  type Store = map<nat, Stored>

  /** The getters answer the default when the attribute is missing or of another type. */
  function GetFlag(s: Store, t: nat, default: bool): bool {
    if t in s && s[t].Flag? then s[t].on else default
  }

  function GetNumber(s: Store, t: nat, default: nat): nat {
    if t in s && s[t].Number? then s[t].n else default
  }

  function GetText(s: Store, t: nat): Bytes {
    if t in s && s[t].Text? then s[t].bytes else []
  }

  // ----- templates -----

  /** The caller's memory behind a `pValue`, read as bytes or as a nested template. */
  datatype Memory = Null | Octets(bytes: Bytes) | Structs(items: seq<Attribute>)

  datatype Attribute = Attribute(typ: nat, value: Memory, len: nat)

  type Template = seq<Attribute>

  /** The first `len` bytes at the pointer.  Memory shorter than that is the caller's error and reads as nothing. */
  function Read(m: Memory, len: nat): Bytes {
    if m.Octets? && len <= |m.bytes| then m.bytes[..len] else []
  }

  function ReadItems(m: Memory, count: nat): Template {
    if m.Structs? && count <= |m.items| then m.items[..count] else []
  }

  /** `CK_FALSE` is zero; every other value of the byte counts as true. */
  predicate ReadFlag(m: Memory, len: nat) {
    var b := Read(m, len);
    b != [] && b[0] != 0
  }

  function ReadNumber(m: Memory, len: nat): nat { LittleEndian(Read(m, len)) }

  /** `memcpy` to the start of the memory. */
  function Fill(m: Memory, data: Bytes): Memory {
    match m
    case Octets(b) => Octets(data + b[if |data| <= |b| then |data| else |b|..])
    case _ => m
  }

  // ----- the token -----

  /** Encryption takes the initialisation vector it is to draw; it fails while nobody is logged in.  `keyCheck` is the
      key check value for a key type, `digest` the first three bytes of SHA-1. */
  datatype Token = Token(
    so: bool,
    encrypt: (nat, Bytes) -> Option<Bytes>,
    decrypt: Bytes -> Option<Bytes>,
    keyCheck: (nat, Bytes) -> Bytes,
    digest: Bytes -> Bytes)

  /** A vector and at least one block come first, so a ciphertext has at least 32 bytes and is longer than its
      plaintext; decryption undoes encryption, and leaves nothing of nothing. */
  ghost predicate Sound(tok: Token) {
    && tok.decrypt([]) == Some([])
    && forall iv: nat, p: Bytes :: tok.encrypt(iv, p).Some? ==>
         var c := tok.encrypt(iv, p).value;
         |c| >= 32 && |c| > |p| && tok.decrypt(c) == Some(p)
  }

  /** What a byte string looks like when stored: ciphertext on a private object. */
  function Sealed(tok: Token, isPrivate: bool, iv: nat, plain: Bytes): Option<Bytes> {
    if isPrivate then tok.encrypt(iv, plain) else Some(plain)
  }

  /** Key types whose check value is computed from the key. */
  predicate ExposesCheckValue(keyType: nat) {
    || keyType == CKK_GENERIC_SECRET || keyType == CKK_MD5_HMAC || keyType == CKK_SHA_1_HMAC
    || keyType == CKK_SHA224_HMAC || keyType == CKK_SHA256_HMAC || keyType == CKK_SHA384_HMAC
    || keyType == CKK_SHA512_HMAC || keyType == CKK_AES || keyType == CKK_DES || keyType == CKK_DES2
    || keyType == CKK_DES3
  }

  /** The ciphers that are stored without one. */
  predicate HidesCheckValue(keyType: nat) {
    || keyType == CKK_GOST28147 || keyType == CKK_KUZNECHIK || keyType == CKK_MAGMA
    || keyType == CKK_KUZNECHIK_TWIN_KEY || keyType == CKK_MAGMA_TWIN_KEY
  }
}
