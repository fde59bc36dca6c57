/** What a CMS envelope is worth: `verifyGostCms`, `verifyGostSignature` and the end of `verifyCms` of RutokenCMS.cpp.

    Digests, signature checks and the encodings of certificates are a `Host`'s; what is made of them is here. */
module EnvelopeVerdict {
  import opened Octets
  import opened Wrappers
  import opened CmsVerification
  import CertificateChain
  import SignedAttributes
  import Der

  type Certificate = CertificateChain.Certificate

  const OPTIONAL_CRL_CHECK: nat := 0

  const HOST_MEMORY: RV := Other(0x02)
  const FUNCTION_FAILED: RV := Other(0x06)
  const DATA_INVALID: RV := Other(0x20)
  const FUNCTION_NOT_SUPPORTED: RV := Other(0x54)
  const CERT_CHAIN_NOT_VERIFIED: RV := Other(0x8000_0009)

  // ----- what is around -----

  /** A signer of a decoded envelope.  `names` compares its identifier with a certificate; an attribute that cannot be
      encoded is `None`; `messageDigest` and `dataSigned` come from the two attributes that speak of the content. */
  datatype SignerInfo = SignerInfo(
    names: Certificate -> bool,
    digestOid: Option<string>,
    signatureOid: Option<string>,
    attributes: seq<Option<Bytes>>,
    messageDigest: Option<Bytes>,
    dataSigned: bool,
    signature: Option<Bytes>)

  datatype Cms = Cms(
    infos: seq<SignerInfo>, detached: bool, holdsData: bool, content: Option<Bytes>, certificates: Option<seq<Certificate>>)

  /** 0 for a key that is not a GOST key. */
  type Bits = n: nat | n == 0 || n == 256 || n == 512

  /** A request for memory. */
  datatype Allocation = SignerArray | SignerBytes(index: nat) | Content

  /** The answers of OpenSSL's own verification: to building the store, checking the signature and checking the chain,
      with the signers found and the content recovered. */
  datatype OpenSsl = OpenSsl(store: RV, signature: bool, chain: bool, signers: seq<Certificate>, recovered: Bytes)

  datatype Host = Host(
    decodeCms: Bytes -> Option<Cms>,
    decodeCertificate: Bytes -> Option<Certificate>,
    encodeCertificate: Certificate -> Option<Bytes>,
    gostBits: Certificate -> Bits,
    toBeSigned: Certificate -> Option<Bytes>,
    signatureOf: Certificate -> Option<Bytes>,
    digest: (Bits, Bytes) -> (RV, Bytes),
    checks: (Certificate, Bytes, Bytes) -> bool,
    allocates: Allocation -> bool,
    openSsl: (Envelope, bool, Bytes) -> OpenSsl)

  // ----- signatures and chains -----

  function TokenDigest(h: Host, bits: Bits, input: Bytes): (RV, Bytes) {
    var (rv, output) := h.digest(bits, input);
    (if rv == OK && |output| != bits / 8 then FUNCTION_FAILED else rv, output)
  }

  /** `verifyGostSignature`: the key of `cert` verifies the signature of the digest of `data`. */
  predicate GostSigned(h: Host, cert: Certificate, data: Bytes, signature: Bytes) {
    var bits := h.gostBits(cert);
    && bits != 0 && |signature| == bits / 4 && |data| <= MAX_DATA
    && TokenDigest(h, bits, data).0 == OK
    && h.checks(cert, TokenDigest(h, bits, data).1, signature)
  }

  /** `verifyGostCertificate`. */
  predicate IssuedBy(h: Host, issuer: Certificate, cert: Certificate) {
    && h.signatureOf(cert).Some? && h.gostBits(issuer) != 0
    && h.toBeSigned(cert).Some? && 0 < |h.toBeSigned(cert).value| <= MAX_CERTIFICATE
    && GostSigned(h, issuer, h.toBeSigned(cert).value, h.signatureOf(cert).value)
  }

  function IssuedRel(h: Host): (Certificate, Certificate) -> bool { (i, s) => IssuedBy(h, i, s) }

  function DecodedEach(h: Host, ders: seq<Bytes>): (cs: seq<Option<Certificate>>)
    ensures |cs| == |ders|
  {
    seq(|ders|, i requires 0 <= i < |ders| => h.decodeCertificate(ders[i]))
  }

  function ChainOf(h: Host, e: Envelope, cms: Cms): CertificateChain.Chain {
    CertificateChain.Chain(DecodedEach(h, e.trusted), DecodedEach(h, e.certificates), cms.certificates,
                           IgnoreInternal in e.flags, AllowPartial in e.flags)
  }

  /** The walk from the signer reaches a trusted certificate. */
  predicate Trusts(h: Host, e: Envelope, cms: Cms, signer: Certificate) {
    var c := ChainOf(h, e, cms);
    && c.trusted != [] && CertificateChain.Decodes(c.trusted) && CertificateChain.Decodes(c.certificates)
    && CertificateChain.Walk(CertificateChain.WorldOf(c, IssuedRel(h)), signer, CertificateChain.MAX_DEPTH)
  }

  function ChainVerdict(h: Host, e: Envelope, cms: Cms, signer: Certificate): RV {
    var c := ChainOf(h, e, cms);
    if Trusts(h, e, cms, signer) then OK
    else if c.trusted != [] && !(CertificateChain.Decodes(c.trusted) && CertificateChain.Decodes(c.certificates)) then DATA_INVALID
    else CERT_CHAIN_NOT_VERIFIED
  }

  // ----- the parts of a GOST envelope -----

  const GOST_ALGORITHMS: set<string> :=
    {"1.2.643.7.1.1.3.2", "1.2.643.7.1.1.3.3", "1.2.643.7.1.1.1.1", "1.2.643.7.1.1.1.2"}

  predicate IsGost(cms: Cms) {
    |cms.infos| == 1 && cms.infos[0].signatureOid.Some? && cms.infos[0].signatureOid.value in GOST_ALGORITHMS
  }

  function ContentOf(cms: Cms, detached: bool, given: Bytes): Option<Bytes> {
    if detached then Some(given)
    else if cms.content.Some? && |cms.content.value| <= MAX_DATA then cms.content
    else None
  }

  function Located(info: SignerInfo, certs: seq<Certificate>): Option<Certificate> {
    if certs == [] then None
    else if info.names(certs[0]) then Some(certs[0])
    else Located(info, certs[1..])
  }

  /** The signer's certificate: out of the envelope, unless that is ruled out, before the caller's. */
  function SignerOf(h: Host, e: Envelope, cms: Cms, info: SignerInfo): Option<Certificate>
    requires CertificateChain.Decodes(DecodedEach(h, e.certificates))
  {
    var inside := if IgnoreInternal in e.flags || cms.certificates.None? then None else Located(info, cms.certificates.value);
    if inside.Some? then inside else Located(info, CertificateChain.Decoded(DecodedEach(h, e.certificates)))
  }

  /** The algorithms are those of the signer's key size; the signature may be named by its own or by the key's. */
  predicate AlgorithmsAgree(bits: Bits, info: SignerInfo) {
    && bits != 0
    && info.digestOid == Some(if bits == 256 then "1.2.643.7.1.1.2.2" else "1.2.643.7.1.1.2.3")
    && info.signatureOid in (if bits == 256 then {Some("1.2.643.7.1.1.3.2"), Some("1.2.643.7.1.1.1.1")}
                             else {Some("1.2.643.7.1.1.3.3"), Some("1.2.643.7.1.1.1.2")})
  }

  predicate Encodable(attributes: seq<Option<Bytes>>) { forall i :: 0 <= i < |attributes| ==> attributes[i].Some? }

  function Encodings(attributes: seq<Option<Bytes>>): (items: seq<Bytes>)
    requires Encodable(attributes)
  {
    seq(|attributes|, i requires 0 <= i < |attributes| => attributes[i].value)
  }

  /** The signature covers the sorted attributes under a SET OF tag or, where there are none, the content itself. */
  ghost predicate Covers(info: SignerInfo, content: Bytes, input: Bytes) {
    if info.attributes == [] then input == content
    else Encodable(info.attributes) && exists field :: SignedAttributes.Signs(Encodings(info.attributes), input, field)
  }

  predicate DigestAgrees(h: Host, bits: Bits, info: SignerInfo, content: Bytes) {
    info.messageDigest == Some(TokenDigest(h, bits, content).1) && info.dataSigned
  }

  ghost predicate SignatureHolds(h: Host, info: SignerInfo, signer: Certificate, content: Bytes) {
    && info.signature.Some?
    && exists input :: Covers(info, content, input) && GostSigned(h, signer, input, info.signature.value)
  }

  // ----- the verdicts, as functions -----

  ghost function SignatureVerdict(h: Host, info: SignerInfo, signer: Certificate, content: Bytes): RV {
    var bits := h.gostBits(signer);
    if !AlgorithmsAgree(bits, info) then SignatureInvalid
    else if info.attributes != [] && TokenDigest(h, bits, content).0 != OK then TokenDigest(h, bits, content).0
    else if info.attributes != [] && !DigestAgrees(h, bits, info, content) then SignatureInvalid
    else if !SignatureHolds(h, info, signer, content) then SignatureInvalid
    else OK
  }

  /** Encoding signers, up to the first that fails. */
  function SignersOut(h: Host, signers: seq<Certificate>): (RV, seq<Bytes>) {
    if signers == [] then (OK, [])
    else
      var n := |signers| - 1;
      var before := SignersOut(h, signers[..n]);
      if before.0 != OK then before
      else if h.encodeCertificate(signers[n]).None? then (FUNCTION_FAILED, before.1)
      else if !h.allocates(SignerBytes(n)) then (HOST_MEMORY, before.1)
      else (OK, before.1 + [h.encodeCertificate(signers[n]).value])
  }

  /** Giving out the content, where it is asked for, and the signer of a GOST envelope, unless only its signature was
      to be checked. */
  function GostOutputs(h: Host, signer: Option<Certificate>, content: Option<Bytes>): (RV, Outputs) {
    if signer.Some? && h.encodeCertificate(signer.value).None? then (FUNCTION_FAILED, NOTHING)
    else if signer.Some? && !(h.allocates(SignerArray) && h.allocates(SignerBytes(0))) then (HOST_MEMORY, NOTHING)
    else if content.Some? && !h.allocates(Content) then (HOST_MEMORY, NOTHING)
    else (OK, Outputs(content, if signer.None? then None else Some([h.encodeCertificate(signer.value).value])))
  }

  /** The same for the signers that OpenSSL found and the content it recovered. */
  function RsaOutputs(h: Host, signers: seq<Certificate>, content: Option<Bytes>): (RV, Outputs) {
    if signers != [] && !h.allocates(SignerArray) then (HOST_MEMORY, NOTHING)
    else if SignersOut(h, signers).0 != OK then (SignersOut(h, signers).0, NOTHING)
    else if content.Some? && |content.value| > MAX_DATA then (DataLenRange, NOTHING)
    else if content.Some? && !h.allocates(Content) then (HOST_MEMORY, NOTHING)
    else (OK, Outputs(content, if signers == [] then None else Some(SignersOut(h, signers).1)))
  }

  ghost function GostVerdict(h: Host, e: Envelope, cms: Cms, detached: bool, given: Bytes): (RV, Outputs)
    requires IsGost(cms)
  {
    var info := cms.infos[0];
    if cms.detached != detached then (ArgumentsBad, NOTHING)
    else if !cms.holdsData then (SignatureInvalid, NOTHING)
    else if e.crlMode != OPTIONAL_CRL_CHECK || e.crls != [] then (FUNCTION_NOT_SUPPORTED, NOTHING)
    else
      match ContentOf(cms, detached, given)
      case None => (SignatureInvalid, NOTHING)
      case Some(content) =>
        if !CertificateChain.Decodes(DecodedEach(h, e.certificates)) then (DATA_INVALID, NOTHING)
        else
          match SignerOf(h, e, cms, info)
          case None => (SignatureInvalid, NOTHING)
          case Some(signer) =>
            var signature := SignatureVerdict(h, info, signer, content);
            var chain := if SignatureOnly in e.flags then OK else ChainVerdict(h, e, cms, signer);
            if signature != OK then (signature, NOTHING)
            else if chain != OK then (chain, NOTHING)
            else GostOutputs(h, if SignatureOnly in e.flags then None else Some(signer), if detached then None else Some(content))
  }

  function RsaVerdict(h: Host, e: Envelope, cms: Cms, detached: bool, given: Bytes): (RV, Outputs) {
    var o := h.openSsl(e, detached, given);
    if cms.detached != detached then (ArgumentsBad, NOTHING)
    else if o.store != OK then (o.store, NOTHING)
    else if !o.signature then (SignatureInvalid, NOTHING)
    else if SignatureOnly !in e.flags && (e.trusted == [] || !o.chain) then (CERT_CHAIN_NOT_VERIFIED, NOTHING)
    else if o.signers == [] then (SignatureInvalid, NOTHING)
    else RsaOutputs(h, if SignatureOnly in e.flags then [] else o.signers, if detached then None else Some(o.recovered))
  }

  /** The judge of `verify` and `verifyFinal`. */
  ghost function Judge(h: Host, e: Envelope, detached: bool, given: Bytes): (RV, Outputs) {
    match h.decodeCms(e.cms)
    case None => (SignatureInvalid, NOTHING)
    case Some(cms) => if IsGost(cms) then GostVerdict(h, e, cms, detached, given) else RsaVerdict(h, e, cms, detached, given)
  }

  // ----- what is vouched for -----

  /** The parts that say what was signed, by whom and over which content. */
  ghost predicate SignedOver(h: Host, cms: Cms, signer: Certificate, content: Bytes)
    requires IsGost(cms)
  {
    var info, bits := cms.infos[0], h.gostBits(signer);
    && AlgorithmsAgree(bits, info)
    && (info.attributes != [] ==> TokenDigest(h, bits, content).0 == OK && DigestAgrees(h, bits, info, content))
    && SignatureHolds(h, info, signer, content)
  }

  /** The envelope is of the right kind, and its signer's signature and, unless only that is asked for, chain hold. */
  ghost predicate Genuine(h: Host, e: Envelope, cms: Cms, detached: bool, content: Bytes)
    requires IsGost(cms)
  {
    && cms.detached == detached && cms.holdsData
    && e.crlMode == OPTIONAL_CRL_CHECK && e.crls == []
    && CertificateChain.Decodes(DecodedEach(h, e.certificates))
    && SignerOf(h, e, cms, cms.infos[0]).Some?
    && var signer := SignerOf(h, e, cms, cms.infos[0]).value;
       SignedOver(h, cms, signer, content) && (SignatureOnly in e.flags || Trusts(h, e, cms, signer))
  }

  /** What is to be given out can be. */
  predicate Deliverable(h: Host, signer: Option<Certificate>, content: Option<Bytes>) {
    && (signer.Some? ==> h.encodeCertificate(signer.value).Some? && h.allocates(SignerArray) && h.allocates(SignerBytes(0)))
    && (content.Some? ==> h.allocates(Content))
  }

  /** The content is there, the envelope is genuine for it, and it can be given out. */
  ghost predicate Vouched(h: Host, e: Envelope, cms: Cms, detached: bool, given: Bytes)
    requires IsGost(cms)
  {
    var content := ContentOf(cms, detached, given);
    && content.Some? && Genuine(h, e, cms, detached, content.value)
    && Deliverable(h, if SignatureOnly in e.flags then None else SignerOf(h, e, cms, cms.infos[0]),
                   if detached then None else content)
  }

  /** What is given out for a genuine envelope. */
  function VouchedOutputs(h: Host, e: Envelope, cms: Cms, detached: bool, given: Bytes): Outputs
    requires CertificateChain.Decodes(DecodedEach(h, e.certificates)) && IsGost(cms)
    requires SignatureOnly !in e.flags ==>
      && SignerOf(h, e, cms, cms.infos[0]).Some?
      && h.encodeCertificate(SignerOf(h, e, cms, cms.infos[0]).value).Some?
  {
    Outputs(if detached then None else ContentOf(cms, detached, given),
            if SignatureOnly in e.flags then None
            else Some([h.encodeCertificate(SignerOf(h, e, cms, cms.infos[0]).value).value]))
  }

  /** A GOST envelope is vouched for exactly when its message digest is that of the content, its signature verifies over
      the sorted attributes and the walk from its signer succeeds, the last not being asked for when only signatures are
      checked; then the content and the signer are given out. */
  lemma GostVouches(h: Host, e: Envelope, cms: Cms, detached: bool, given: Bytes)
    requires IsGost(cms)
    ensures var (rv, out) := GostVerdict(h, e, cms, detached, given);
      && (rv == OK <==> Vouched(h, e, cms, detached, given))
      && out == if rv == OK then VouchedOutputs(h, e, cms, detached, given) else NOTHING
  {
    hide AlgorithmsAgree, DigestAgrees, SignatureHolds, Trusts, CertificateChain.Decodes, CertificateChain.Decoded,
      TokenDigest, DecodedEach, Located;
  }

  // ----- what is vouched for, field by field -----

  /** The key of `cert` verifies a signature of `data` of the length that belongs to it. */
  predicate KeyVerifies(h: Host, cert: Certificate, data: Bytes, signature: Bytes) {
    var bits := h.gostBits(cert);
    && (bits == 256 || bits == 512) && 4 * |signature| == bits && |data| <= 67108864
    && h.digest(bits, data).0 == OK && 8 * |h.digest(bits, data).1| == bits
    && h.checks(cert, h.digest(bits, data).1, signature)
  }

  /** The key of `issuer` verifies the signature of a certificate, whose signed part is at most a megabyte. */
  predicate CertificateSigned(h: Host, issuer: Certificate, cert: Certificate) {
    && h.signatureOf(cert).Some? && h.toBeSigned(cert).Some? && 1 <= |h.toBeSigned(cert).value| <= 1048576
    && KeyVerifies(h, issuer, h.toBeSigned(cert).value, h.signatureOf(cert).value)
  }

  function SignedRel(h: Host): (Certificate, Certificate) -> bool { (i, s) => CertificateSigned(h, i, s) }

  /** The certificates of the envelope, if they count. */
  function Inside(e: Envelope, cms: Cms): seq<Certificate> {
    if IgnoreInternal in e.flags || cms.certificates.None? then [] else cms.certificates.value
  }

  /** The signer is the first certificate of the envelope that its signer info names, if these count, and otherwise the
      first such certificate of the caller's. */
  ghost predicate SignerFound(h: Host, e: Envelope, cms: Cms, info: SignerInfo, signer: Certificate) {
    || (exists k :: NamedAt(Inside(e, cms), k, info, signer))
    || (NoneNamed(Inside(e, cms), info) && exists k :: NamedFirst(h, e.certificates, k, info, signer))
  }

  predicate NoneNamed(certs: seq<Certificate>, info: SignerInfo) { forall j :: 0 <= j < |certs| ==> !info.names(certs[j]) }

  predicate NamedAt(certs: seq<Certificate>, k: int, info: SignerInfo, signer: Certificate) {
    0 <= k < |certs| && certs[k] == signer && info.names(signer) && forall j :: 0 <= j < k ==> !info.names(certs[j])
  }

  predicate NamedFirst(h: Host, ders: seq<Bytes>, k: int, info: SignerInfo, signer: Certificate) {
    && 0 <= k < |ders| && h.decodeCertificate(ders[k]) == Some(signer) && info.names(signer)
    && forall j :: 0 <= j < k && h.decodeCertificate(ders[j]).Some? ==> !info.names(h.decodeCertificate(ders[j]).value)
  }

  /** The algorithms named are those of the size of the signer's key. */
  predicate AlgorithmsOf(bits: Bits, info: SignerInfo) {
    || (bits == 256 && info.digestOid == Some("1.2.643.7.1.1.2.2")
        && (info.signatureOid == Some("1.2.643.7.1.1.3.2") || info.signatureOid == Some("1.2.643.7.1.1.1.1")))
    || (bits == 512 && info.digestOid == Some("1.2.643.7.1.1.2.3")
        && (info.signatureOid == Some("1.2.643.7.1.1.3.3") || info.signatureOid == Some("1.2.643.7.1.1.1.2")))
  }

  /** The signed attributes speak of this content: its digest, and that it is data. */
  predicate SpeaksOf(h: Host, bits: Bits, info: SignerInfo, content: Bytes) {
    && info.dataSigned && h.digest(bits, content).0 == OK && 8 * |h.digest(bits, content).1| == bits
    && info.messageDigest == Some(h.digest(bits, content).1)
  }

  /** The signature: over the content itself where there are no signed attributes, and otherwise over the attributes, sorted
      and tagged, which then speak of the content. */
  ghost predicate SignatureStands(h: Host, info: SignerInfo, signer: Certificate, content: Bytes) {
    && info.signature.Some?
    && if info.attributes == [] then KeyVerifies(h, signer, content, info.signature.value)
       else
         && SpeaksOf(h, h.gostBits(signer), info, content)
         && (forall i :: 0 <= i < |info.attributes| ==> info.attributes[i].Some?)
         && exists input, field ::
              SignedAttributes.Signs(Encodings(info.attributes), input, field) && KeyVerifies(h, signer, input, info.signature.value)
  }

  /** The chain reaches a trusted certificate. */
  ghost predicate ChainStands(h: Host, e: Envelope, cms: Cms, signer: Certificate) {
    var c := CertificateChain.Chain(DecodedEach(h, e.trusted), DecodedEach(h, e.certificates), cms.certificates,
                                    IgnoreInternal in e.flags, AllowPartial in e.flags);
    && (forall k :: 0 <= k < |e.trusted| ==> h.decodeCertificate(e.trusted[k]).Some?)
    && exists p :: PathStands(h, c, signer, p)
  }

  ghost predicate PathStands(h: Host, c: CertificateChain.Chain, signer: Certificate, p: seq<Certificate>) {
    && CertificateChain.IssuerPath(c, SignedRel(h), signer, p)
    && CertificateChain.FirstIssuers(c, SignedRel(h), p)
  }

  /** All that `verifyGostCms` asks of an envelope, in its own fields. */
  ghost predicate Accepted(h: Host, e: Envelope, cms: Cms, detached: bool, content: Bytes, signer: Certificate) {
    && |cms.infos| == 1 && cms.detached == detached && cms.holdsData
    && e.crlMode == 0 && e.crls == []
    && (!detached ==> cms.content == Some(content) && |content| <= 67108864)
    && (forall k :: 0 <= k < |e.certificates| ==> h.decodeCertificate(e.certificates[k]).Some?)
    && SignerFound(h, e, cms, cms.infos[0], signer)
    && AlgorithmsOf(h.gostBits(signer), cms.infos[0])
    && SignatureStands(h, cms.infos[0], signer, content)
    && (SignatureOnly in e.flags || ChainStands(h, e, cms, signer))
    && (SignatureOnly !in e.flags ==>
          h.encodeCertificate(signer).Some? && h.allocates(SignerArray) && h.allocates(SignerBytes(0)))
    && (!detached ==> h.allocates(Content))
  }

  lemma SameSignature(h: Host, cert: Certificate, data: Bytes, signature: Bytes)
    ensures KeyVerifies(h, cert, data, signature) <==> GostSigned(h, cert, data, signature)
  {
  }

  lemma SameIssued(h: Host, issuer: Certificate, cert: Certificate)
    ensures CertificateSigned(h, issuer, cert) <==> IssuedBy(h, issuer, cert)
  {
    if h.signatureOf(cert).Some? && h.toBeSigned(cert).Some? {
      SameSignature(h, issuer, h.toBeSigned(cert).value, h.signatureOf(cert).value);
    }
  }

  lemma {:induction false} LocatedFirst(info: SignerInfo, certs: seq<Certificate>, signer: Certificate)
    ensures Located(info, certs) == Some(signer) <==> exists k :: NamedAt(certs, k, info, signer)
    ensures Located(info, certs).None? <==> NoneNamed(certs, info)
  {
    if certs != [] {
      var rest := certs[1..];
      LocatedFirst(info, rest, signer);
      assert forall j :: 0 <= j < |rest| ==> certs[j + 1] == rest[j];
      if info.names(certs[0]) {
        assert NamedAt(certs, 0, info, certs[0]);
      } else {
        if k :| NamedAt(rest, k, info, signer) { assert NamedAt(certs, k + 1, info, signer); }
        if k :| NamedAt(certs, k, info, signer) { assert NamedAt(rest, k - 1, info, signer); }
      }
    }
  }

  lemma DecodesEach(h: Host, ders: seq<Bytes>)
    ensures CertificateChain.Decodes(DecodedEach(h, ders))
      <==> forall k :: 0 <= k < |ders| ==> h.decodeCertificate(ders[k]).Some?
  {
    forall k | 0 <= k < |ders| ensures DecodedEach(h, ders)[k] == h.decodeCertificate(ders[k]) && DecodedEach(h, ders)[k] in DecodedEach(h, ders) {
    }
  }

  lemma SameSigner(h: Host, e: Envelope, cms: Cms, info: SignerInfo, signer: Certificate)
    requires CertificateChain.Decodes(DecodedEach(h, e.certificates))
    ensures SignerOf(h, e, cms, info) == Some(signer) <==> SignerFound(h, e, cms, info, signer)
  {
    hide Located, CertificateChain.Decodes, CertificateChain.Decoded, DecodedEach, NamedAt, NamedFirst, NoneNamed, SignerOf, Inside;
    var inside := Inside(e, cms);
    var outside := CertificateChain.Decoded(DecodedEach(h, e.certificates));
    forall k ensures NamedAt(outside, k, info, signer) <==> NamedFirst(h, e.certificates, k, info, signer) {
      SameNaming(h, e.certificates, k, info, signer);
    }
    LocatedFirst(info, inside, signer);
    LocatedFirst(info, outside, signer);
    SignerIs(h, e, cms, info);
    assert Located(info, outside) == Some(signer) <==> exists k :: NamedFirst(h, e.certificates, k, info, signer);
  }

  lemma SignerIs(h: Host, e: Envelope, cms: Cms, info: SignerInfo)
    requires CertificateChain.Decodes(DecodedEach(h, e.certificates))
    ensures SignerOf(h, e, cms, info) ==
      if Located(info, Inside(e, cms)).Some? then Located(info, Inside(e, cms))
      else Located(info, CertificateChain.Decoded(DecodedEach(h, e.certificates)))
  {
  }

  lemma SameNaming(h: Host, ders: seq<Bytes>, k: int, info: SignerInfo, signer: Certificate)
    requires CertificateChain.Decodes(DecodedEach(h, ders))
    ensures NamedAt(CertificateChain.Decoded(DecodedEach(h, ders)), k, info, signer) <==> NamedFirst(h, ders, k, info, signer)
  {
    DecodesEach(h, ders);
    var certs := CertificateChain.Decoded(DecodedEach(h, ders));
    assert |certs| == |ders| && forall j :: 0 <= j < |ders| ==> h.decodeCertificate(ders[j]) == Some(certs[j]);
  }

  lemma SameStanding(h: Host, info: SignerInfo, signer: Certificate, content: Bytes)
    requires AlgorithmsAgree(h.gostBits(signer), info)
    ensures SignatureStands(h, info, signer, content) <==>
      && (info.attributes != [] ==>
            TokenDigest(h, h.gostBits(signer), content).0 == OK && DigestAgrees(h, h.gostBits(signer), info, content))
      && SignatureHolds(h, info, signer, content)
  {
    if info.signature.Some? {
      forall input ensures KeyVerifies(h, signer, input, info.signature.value) <==> GostSigned(h, signer, input, info.signature.value) {
        SameSignature(h, signer, input, info.signature.value);
      }
    }
    hide KeyVerifies, GostSigned, SignedAttributes.Signs, AlgorithmsAgree;
    var bits := h.gostBits(signer);
    assert SpeaksOf(h, bits, info, content) <==> TokenDigest(h, bits, content).0 == OK && DigestAgrees(h, bits, info, content);
    hide SpeaksOf, DigestAgrees, TokenDigest;
  }

  lemma TrustByFields(h: Host, e: Envelope, cms: Cms, signer: Certificate)
    ensures ChainStands(h, e, cms, signer) && CertificateChain.Decodes(DecodedEach(h, e.certificates)) <==> Trusts(h, e, cms, signer)
  {
    hide SignedRel, IssuedRel, CertificateChain.Walk, CertificateChain.WorldOf, CertificateChain.IssuerPath,
      CertificateChain.FirstIssuers, DecodedEach, CertificateChain.Decodes;
    var c := ChainOf(h, e, cms);
    DecodesEach(h, e.trusted);
    CertificateChain.SuccessByFields(c, IssuedRel(h), signer);
    CertificateChain.DecodesExactly(c.trusted);
    CertificateChain.DecodesExactly(c.certificates);
    forall p ensures PathStands(h, c, signer, p) <==>
      && CertificateChain.IssuerPath(c, IssuedRel(h), signer, p)
      && CertificateChain.FirstIssuers(c, IssuedRel(h), p)
    {
      SamePath(h, c, signer, p);
    }
  }

  lemma SamePath(h: Host, c: CertificateChain.Chain, signer: Certificate, p: seq<Certificate>)
    ensures CertificateChain.IssuerPath(c, SignedRel(h), signer, p)
      <==> CertificateChain.IssuerPath(c, IssuedRel(h), signer, p)
    ensures CertificateChain.FirstIssuers(c, SignedRel(h), p)
      <==> CertificateChain.FirstIssuers(c, IssuedRel(h), p)
  {
    forall i, s ensures SignedRel(h)(i, s) == IssuedRel(h)(i, s) { SameIssued(h, i, s); }
    hide SignedRel, IssuedRel;
    CertificateChain.SameVerifies(c, SignedRel(h), IssuedRel(h), signer, p);
  }

  /** The four parts of the verdict that are looked at one by one. */
  lemma PartsByFields(h: Host, e: Envelope, cms: Cms, signer: Certificate, content: Bytes)
    requires IsGost(cms) && CertificateChain.Decodes(DecodedEach(h, e.certificates))
    ensures SignerOf(h, e, cms, cms.infos[0]) == Some(signer) <==> SignerFound(h, e, cms, cms.infos[0], signer)
    ensures SignedOver(h, cms, signer, content)
      <==> AlgorithmsOf(h.gostBits(signer), cms.infos[0]) && SignatureStands(h, cms.infos[0], signer, content)
    ensures ChainStands(h, e, cms, signer) <==> Trusts(h, e, cms, signer)
  {
    hide SignerFound, SignatureStands, ChainStands, Trusts, SignatureHolds, SignerOf, TokenDigest, DigestAgrees, AlgorithmsOf,
      AlgorithmsAgree;
    SameSigner(h, e, cms, cms.infos[0], signer);
    SameAlgorithms(h.gostBits(signer), cms.infos[0]);
    if AlgorithmsAgree(h.gostBits(signer), cms.infos[0]) { SameStanding(h, cms.infos[0], signer, content); }
    TrustByFields(h, e, cms, signer);
  }

  /** What is vouched for is what is accepted. */
  lemma VouchedByFields(h: Host, e: Envelope, cms: Cms, detached: bool, given: Bytes)
    requires IsGost(cms)
    ensures Vouched(h, e, cms, detached, given) <==>
      exists content, signer :: Accepted(h, e, cms, detached, content, signer) && (detached ==> content == given)
  {
    hide SignerFound, SignatureStands, ChainStands, Trusts, SignerOf, SignedOver, AlgorithmsOf, DecodedEach,
      CertificateChain.Decodes;
    DecodesEach(h, e.certificates);
    if Vouched(h, e, cms, detached, given) {
      var content, signer := ContentOf(cms, detached, given).value, SignerOf(h, e, cms, cms.infos[0]).value;
      PartsByFields(h, e, cms, signer, content);
      assert Accepted(h, e, cms, detached, content, signer);
    }
    if content, signer :| Accepted(h, e, cms, detached, content, signer) && (detached ==> content == given) {
      PartsByFields(h, e, cms, signer, content);
      assert ContentOf(cms, detached, given) == Some(content);
    }
  }

  lemma SameAlgorithms(bits: Bits, info: SignerInfo)
    ensures AlgorithmsOf(bits, info) <==> AlgorithmsAgree(bits, info)
  {
  }

  // ----- the verdicts, step by step -----

  method DecodeEach(h: Host, ders: seq<Bytes>) returns (ok: bool, certs: seq<Certificate>)
    ensures ok <==> CertificateChain.Decodes(DecodedEach(h, ders))
    ensures ok ==> certs == CertificateChain.Decoded(DecodedEach(h, ders))
  {
    ok, certs := CertificateChain.DecodeAll(DecodedEach(h, ders));
  }

  method Locate(info: SignerInfo, certs: seq<Certificate>) returns (signer: Option<Certificate>)
    ensures signer == Located(info, certs)
  {
    for i := 0 to |certs|
      invariant Located(info, certs) == Located(info, certs[i..])
    {
      if info.names(certs[i]) { return Some(certs[i]); }
      assert certs[i..][1..] == certs[i + 1..];
    }
    return None;
  }

  method EncodeAttributes(attributes: seq<Option<Bytes>>) returns (items: Option<seq<Bytes>>)
    ensures items == if Encodable(attributes) then Some(Encodings(attributes)) else None
  {
    var encoded: seq<Bytes> := [];
    for i := 0 to |attributes|
      invariant |encoded| == i && forall j :: 0 <= j < i ==> attributes[j] == Some(encoded[j])
    {
      if attributes[i].None? { return None; }
      encoded := encoded + [attributes[i].value];
    }
    assert encoded == Encodings(attributes);
    return Some(encoded);
  }

  /** Encodings come out of memory, so together they are shorter than the largest size. */
  ghost predicate Short(info: SignerInfo) { Encodable(info.attributes) ==> SignedAttributes.Fits(Encodings(info.attributes)) }

  lemma CoversOnce(info: SignerInfo, content: Bytes, input: Bytes, input': Bytes)
    requires Covers(info, content, input) && Covers(info, content, input')
    ensures input == input'
  {
    if info.attributes != [] {
      var items := Encodings(info.attributes);
      var field :| SignedAttributes.Signs(items, input, field);
      var field' :| SignedAttributes.Signs(items, input', field');
      SignsOnce(items, input, field, input', field');
    }
  }

  lemma SignsOnce(items: seq<Bytes>, input: Bytes, field: Bytes, input': Bytes, field': Bytes)
    requires SignedAttributes.Signs(items, input, field) && SignedAttributes.Signs(items, input', field')
    ensures input == input'
  {
    var s :| SignedAttributes.SortedForm(s, items) && |Concat(s)| < Der.SIZE_MAX_PLUS_ONE
      && input == Der.Tagged(0x31, Concat(s)) && field == Der.Tagged(0xa0, Concat(s));
    var t :| SignedAttributes.SortedForm(t, items) && |Concat(t)| < Der.SIZE_MAX_PLUS_ONE
      && input' == Der.Tagged(0x31, Concat(t)) && field' == Der.Tagged(0xa0, Concat(t));
    SignedAttributes.SortedFormUnique(s, t);
  }

  /** The check of digest and signature inside `verifyGostCms`. */
  method CheckSignature(h: Host, info: SignerInfo, signer: Certificate, content: Bytes) returns (rv: RV)
    requires Short(info)
    ensures rv == SignatureVerdict(h, info, signer, content)
  {
    hide TokenDigest, AlgorithmsAgree, SignedAttributes.Signs, SignedAttributes.Fits;
    var bits := h.gostBits(signer);
    if !AlgorithmsAgree(bits, info) { return SignatureInvalid; }
    var signedInput := content;
    if |info.attributes| > 0 {
      var (digestRv, actual) := TokenDigest(h, bits, content);
      if digestRv != OK { return digestRv; }
      if info.messageDigest.None? || info.messageDigest.value != actual || !info.dataSigned { return SignatureInvalid; }
      var items := EncodeAttributes(info.attributes);
      if items.None? { return SignatureInvalid; }
      var field;
      signedInput, field := SignedAttributes.Encode(items.value);
    }
    assert Covers(info, content, signedInput);
    forall input | Covers(info, content, input) ensures input == signedInput { CoversOnce(info, content, input, signedInput); }
    var size := bits as int / 4;
    if info.signature.None? || |info.signature.value| != size { return SignatureInvalid; }
    return if GostSigned(h, signer, signedInput, info.signature.value) then OK else SignatureInvalid;
  }

  /** `verifyGostCms` succeeds exactly on what can be vouched for.  Nothing is written to the outputs before everything
      else has succeeded. */
  method VerifyGostCms(h: Host, e: Envelope, detached: bool, given: Bytes) returns (rv: RV, out: Outputs)
    requires h.decodeCms(e.cms).Some? && IsGost(h.decodeCms(e.cms).value) && Short(h.decodeCms(e.cms).value.infos[0])
    ensures (rv, out) == GostVerdict(h, e, h.decodeCms(e.cms).value, detached, given)
    ensures rv == OK <==> Vouched(h, e, h.decodeCms(e.cms).value, detached, given)
    ensures rv == OK <==>
      exists content, signer :: Accepted(h, e, h.decodeCms(e.cms).value, detached, content, signer) && (detached ==> content == given)
    ensures out == if rv == OK then VouchedOutputs(h, e, h.decodeCms(e.cms).value, detached, given) else NOTHING
  {
    GostVouches(h, e, h.decodeCms(e.cms).value, detached, given);
    VouchedByFields(h, e, h.decodeCms(e.cms).value, detached, given);
    hide Accepted, Vouched, VouchedOutputs, SignatureVerdict, CertificateChain.Walk, CertificateChain.Decodes,
      CertificateChain.Decoded, IssuedBy;
    out := NOTHING;
    var cms := h.decodeCms(e.cms).value;
    if cms.detached != detached { return ArgumentsBad, out; }
    if !cms.holdsData { return SignatureInvalid, out; }
    if e.crlMode != OPTIONAL_CRL_CHECK || e.crls != [] { return FUNCTION_NOT_SUPPORTED, out; }
    var content;
    if detached {
      content := given;
    } else if cms.content.Some? && |cms.content.value| <= MAX_DATA {
      content := cms.content.value;
    } else {
      return SignatureInvalid, out;
    }
    var ok, external := DecodeEach(h, e.certificates);
    if !ok { return DATA_INVALID, out; }
    var info, signer := cms.infos[0], None;
    if IgnoreInternal !in e.flags && cms.certificates.Some? { signer := Locate(info, cms.certificates.value); }
    if signer.None? { signer := Locate(info, external); }
    if signer.None? { return SignatureInvalid, out; }
    rv := CheckSignature(h, info, signer.value, content);
    if rv != OK { return rv, out; }
    var signatureOnly := SignatureOnly in e.flags;
    if !signatureOnly {
      var chain := CertificateChain.VerifyGostChain(signer.value, ChainOf(h, e, cms), IssuedRel(h));
      if chain.DataInvalid? { return DATA_INVALID, out; }
      if !chain.OK? { return CERT_CHAIN_NOT_VERIFIED, out; }
    }
    var signerOutput: Option<seq<Bytes>> := None;
    if !signatureOnly {
      var encoded := h.encodeCertificate(signer.value);
      if encoded.None? { return FUNCTION_FAILED, out; }
      if !h.allocates(SignerArray) { return HOST_MEMORY, out; }
      if !h.allocates(SignerBytes(0)) { return HOST_MEMORY, out; }
      signerOutput := Some([encoded.value]);
    }
    if !detached {
      if !h.allocates(Content) { return HOST_MEMORY, out; }
      out := out.(content := Some(content));
    }
    if signerOutput.Some? { out := out.(signers := signerOutput); }
    return OK, out;
  }

  /** The end of `verifyCms`, around the answers of OpenSSL. */
  method VerifyRsaCms(h: Host, e: Envelope, detached: bool, given: Bytes) returns (rv: RV, out: Outputs)
    requires h.decodeCms(e.cms).Some?
    ensures (rv, out) == RsaVerdict(h, e, h.decodeCms(e.cms).value, detached, given)
    ensures var o := h.openSsl(e, detached, given);
      var n := if SignatureOnly in e.flags then 0 else |o.signers|;
      && (rv == OK <==>
            && h.decodeCms(e.cms).value.detached == detached && o.store == OK && o.signature && o.signers != []
            && (SignatureOnly !in e.flags ==> e.trusted != [] && o.chain)
            && (n > 0 ==> h.allocates(SignerArray))
            && (forall i :: 0 <= i < n ==> h.encodeCertificate(o.signers[i]).Some? && h.allocates(SignerBytes(i)))
            && (!detached ==> |o.recovered| <= 67108864 && h.allocates(Content)))
      && (rv == OK ==>
            && out.content == (if detached then None else Some(o.recovered))
            && (n == 0 ==> out.signers.None?)
            && (n > 0 ==>
                  && out.signers.Some? && |out.signers.value| == n
                  && forall i :: 0 <= i < n ==> Some(out.signers.value[i]) == h.encodeCertificate(o.signers[i])))
      && (rv != OK ==> out == NOTHING)
  {
    SignersOutExactly(h, if SignatureOnly in e.flags then [] else h.openSsl(e, detached, given).signers);
    hide SignersOut;
    out := NOTHING;
    if h.decodeCms(e.cms).value.detached != detached { return ArgumentsBad, out; }
    var answers := h.openSsl(e, detached, given);
    if answers.store != OK { return answers.store, out; }
    if !answers.signature { return SignatureInvalid, out; }
    var signatureOnly := SignatureOnly in e.flags;
    if !signatureOnly && (e.trusted == [] || !answers.chain) { return CERT_CHAIN_NOT_VERIFIED, out; }
    if |answers.signers| == 0 { return SignatureInvalid, out; }
    var signers := if signatureOnly then [] else answers.signers;
    var signerOutput: seq<Bytes> := [];
    if |signers| > 0 && !h.allocates(SignerArray) { return HOST_MEMORY, out; }
    rv, signerOutput := EncodeSigners(h, signers);
    if rv != OK { return rv, out; }
    if !detached {
      if |answers.recovered| > MAX_DATA { return DataLenRange, out; }
      if !h.allocates(Content) { return HOST_MEMORY, out; }
      out := out.(content := Some(answers.recovered));
    }
    if |signers| > 0 { out := out.(signers := Some(signerOutput)); }
    return OK, out;
  }

  method EncodeSigners(h: Host, signers: seq<Certificate>) returns (rv: RV, encoded: seq<Bytes>)
    ensures (rv, encoded) == SignersOut(h, signers)
  {
    encoded := [];
    for i := 0 to |signers|
      invariant SignersOut(h, signers[..i]) == (OK, encoded)
    {
      assert signers[..i + 1][..i] == signers[..i];
      var cert := h.encodeCertificate(signers[i]);
      rv := if cert.None? then FUNCTION_FAILED else if !h.allocates(SignerBytes(i)) then HOST_MEMORY else OK;
      if rv != OK {
        assert SignersOut(h, signers[..i + 1]) == (rv, encoded);
        SignersStop(h, signers, i + 1);
        return rv, encoded;
      }
      encoded := encoded + [cert.value];
    }
    assert signers[..|signers|] == signers;
    return OK, encoded;
  }

  lemma {:induction false} SignersOutExactly(h: Host, signers: seq<Certificate>)
    ensures var (rv, encoded) := SignersOut(h, signers);
      && (rv == OK <==> forall i :: 0 <= i < |signers| ==> h.encodeCertificate(signers[i]).Some? && h.allocates(SignerBytes(i)))
      && (rv == OK ==> |encoded| == |signers| && forall i :: 0 <= i < |signers| ==> Some(encoded[i]) == h.encodeCertificate(signers[i]))
  {
    if signers != [] {
      var n := |signers| - 1;
      SignersOutExactly(h, signers[..n]);
      assert forall i :: 0 <= i < n ==> signers[..n][i] == signers[i];
    }
  }

  lemma {:induction false} SignersStop(h: Host, signers: seq<Certificate>, k: nat)
    requires k <= |signers| && SignersOut(h, signers[..k]).0 != OK
    ensures SignersOut(h, signers) == SignersOut(h, signers[..k])
  {
    if k < |signers| {
      assert signers[..|signers| - 1][..k] == signers[..k];
      SignersStop(h, signers[..|signers| - 1], k);
    } else {
      assert signers[..k] == signers;
    }
  }

  /** The codes of refusal that tell a caller what is wrong: a wrong kind of data, revocation lists, a certificate that does
      not decode, and a chain that does not hold though the signature does. */
  lemma RefusalCodes(h: Host, e: Envelope, cms: Cms, detached: bool, content: Bytes)
    requires IsGost(cms) && (detached || (cms.content == Some(content) && |content| <= 67108864))
    ensures var rv := GostVerdict(h, e, cms, detached, content).0;
      if cms.detached != detached then rv == ArgumentsBad
      else if !cms.holdsData then rv == SignatureInvalid
      else if e.crlMode != 0 || e.crls != [] then rv == Other(0x54)
      else if exists k :: 0 <= k < |e.certificates| && h.decodeCertificate(e.certificates[k]).None? then rv == Other(0x20)
      else
        forall signer | SignerFound(h, e, cms, cms.infos[0], signer) && SignedOver(h, cms, signer, content)
          && SignatureOnly !in e.flags && !ChainStands(h, e, cms, signer) ::
          rv == if e.trusted != [] && exists k :: 0 <= k < |e.trusted| && h.decodeCertificate(e.trusted[k]).None? then Other(0x20)
                else Other(0x8000_0009)
  {
    hide SignerOf, SignerFound, SignatureHolds, AlgorithmsAgree, DigestAgrees, TokenDigest, Trusts, ChainStands,
      CertificateChain.Decodes, DecodedEach, AlgorithmsOf, SignatureStands;
    DecodesEach(h, e.certificates);
    DecodesEach(h, e.trusted);
    if CertificateChain.Decodes(DecodedEach(h, e.certificates)) {
      forall signer
        ensures SignerOf(h, e, cms, cms.infos[0]) == Some(signer) <==> SignerFound(h, e, cms, cms.infos[0], signer)
        ensures ChainStands(h, e, cms, signer) <==> Trusts(h, e, cms, signer)
      {
        PartsByFields(h, e, cms, signer, content);
      }
    }
  }

  // ----- what is given out -----

  /** No verdict but success gives anything out, whichever of the two verifications it comes from. */
  lemma RefusedGivesNothing(h: Host, e: Envelope, detached: bool, given: Bytes)
    ensures Judge(h, e, detached, given).0 != OK ==> Judge(h, e, detached, given).1 == NOTHING
    ensures detached ==> Judge(h, e, detached, given).1.content.None?
    ensures SignatureOnly in e.flags ==> Judge(h, e, detached, given).1.signers.None?
  {
    hide SignatureVerdict, ChainVerdict, SignerOf, SignersOut, CertificateChain.Decodes, IsGost, ContentOf;
  }

  // ----- what signer and verifier agree on -----

  lemma SameCovers(info: SignerInfo, info': SignerInfo, content: Bytes, input: Bytes)
    requires Encodable(info.attributes) && Encodable(info'.attributes)
    requires multiset(Encodings(info.attributes)) == multiset(Encodings(info'.attributes))
    requires Covers(info, content, input)
    ensures Covers(info', content, input)
  {
    var items, items' := Encodings(info.attributes), Encodings(info'.attributes);
    assert |items| == |multiset(items)| && |items'| == |multiset(items')|;
    if info.attributes != [] {
      var field :| SignedAttributes.Signs(items, input, field);
      assert SignedAttributes.Signs(items', input, field);
    }
  }

  lemma SameHolds(h: Host, info: SignerInfo, info': SignerInfo, signer: Certificate, content: Bytes)
    requires Encodable(info.attributes) && Encodable(info'.attributes) && info.signature == info'.signature
    requires multiset(Encodings(info.attributes)) == multiset(Encodings(info'.attributes))
    requires SignatureHolds(h, info, signer, content)
    ensures SignatureHolds(h, info', signer, content)
  {
    var input :| Covers(info, content, input) && GostSigned(h, signer, input, info.signature.value);
    SameCovers(info, info', content, input);
  }

  lemma SameSignatureVerdict(h: Host, info: SignerInfo, attributes: seq<Option<Bytes>>, signer: Certificate, content: Bytes)
    requires Encodable(info.attributes) && Encodable(attributes)
    requires multiset(Encodings(info.attributes)) == multiset(Encodings(attributes))
    ensures SignatureVerdict(h, info.(attributes := attributes), signer, content) == SignatureVerdict(h, info, signer, content)
  {
    var info' := info.(attributes := attributes);
    assert |attributes| == |Encodings(attributes)| == |multiset(Encodings(attributes))|;
    assert |info.attributes| == |Encodings(info.attributes)| == |multiset(Encodings(info.attributes))|;
    hide SignatureHolds, TokenDigest, Encodings, Encodable;
    if SignatureHolds(h, info, signer, content) { SameHolds(h, info, info', signer, content); }
    if SignatureHolds(h, info', signer, content) { SameHolds(h, info', info, signer, content); }
  }

  lemma SameChain(h: Host, e: Envelope, cms: Cms, cms': Cms, signer: Certificate)
    requires cms.certificates == cms'.certificates
    ensures ChainVerdict(h, e, cms', signer) == ChainVerdict(h, e, cms, signer)
  {
  }

  /** The order in which the envelope stores the attributes makes no difference to the verdict. */
  lemma StoredOrderImmaterial(h: Host, e: Envelope, cms: Cms, attributes: seq<Option<Bytes>>, detached: bool, given: Bytes)
    requires IsGost(cms) && Encodable(cms.infos[0].attributes) && Encodable(attributes)
    requires multiset(Encodings(cms.infos[0].attributes)) == multiset(Encodings(attributes))
    ensures var other := cms.(infos := [cms.infos[0].(attributes := attributes)]);
      GostVerdict(h, e, other, detached, given) == GostVerdict(h, e, cms, detached, given)
  {
    hide SignatureVerdict, Located, CertificateChain.Decodes, CertificateChain.Decoded, ChainVerdict, Encodable,
      Encodings, GostOutputs;
    var info := cms.infos[0];
    forall signer
      ensures ChainVerdict(h, e, cms.(infos := [info.(attributes := attributes)]), signer) == ChainVerdict(h, e, cms, signer)
    {
      SameChain(h, e, cms, cms.(infos := [info.(attributes := attributes)]), signer);
    }
    forall certs ensures Located(info.(attributes := attributes), certs) == Located(info, certs) {
      SameLocated(info, info.(attributes := attributes), certs);
    }
    forall signer, content
      ensures SignatureVerdict(h, info.(attributes := attributes), signer, content) == SignatureVerdict(h, info, signer, content)
    {
      SameSignatureVerdict(h, info, attributes, signer, content);
    }
  }

  lemma {:induction false} SameLocated(info: SignerInfo, info': SignerInfo, certs: seq<Certificate>)
    requires info.names == info'.names
    ensures Located(info', certs) == Located(info, certs)
  {
    if certs != [] { SameLocated(info, info', certs[1..]); }
  }

  /** What `signGostCms` signs and stores, `verifyGostCms` accepts: the attributes read out of the stored field, in
      whatever order, give back the input that was signed. */
  lemma SignedVerifies(h: Host, cms: Cms, cert: Certificate, content: Bytes, made: seq<Bytes>, input: Bytes, field: Bytes,
                       body: Bytes)
    requires IsGost(cms) && AlgorithmsAgree(h.gostBits(cert), cms.infos[0])
    requires made != [] && SignedAttributes.Elements(made) && SignedAttributes.Signs(made, input, field)
    requires Der.ReadElement(field) == Some((0xa0, body, []))
    requires Encodable(cms.infos[0].attributes)
    requires multiset(Encodings(cms.infos[0].attributes)) == multiset(SignedAttributes.ReadAll(body))
    requires TokenDigest(h, h.gostBits(cert), content).0 == OK && DigestAgrees(h, h.gostBits(cert), cms.infos[0], content)
    requires cms.infos[0].signature.Some? && GostSigned(h, cert, input, cms.infos[0].signature.value)
    ensures SignedOver(h, cms, cert, content)
  {
    var found := Encodings(cms.infos[0].attributes);
    var sorted := SignedAttributes.FieldIsRetaggedInput(made, input, field);
    assert |found| == |multiset(found)| == |multiset(made)| == |made|;
    SameSigns(made, found, input, field);
    assert Covers(cms.infos[0], content, input);
    hide GostSigned, TokenDigest, AlgorithmsAgree, DigestAgrees, SignedAttributes.Signs, Der.ReadElement,
      SignedAttributes.ReadAll;
  }

  lemma SameSigns(items: seq<Bytes>, items': seq<Bytes>, input: Bytes, field: Bytes)
    requires multiset(items) == multiset(items') && SignedAttributes.Signs(items, input, field)
    ensures SignedAttributes.Signs(items', input, field)
  {
    var s :| SignedAttributes.SortedForm(s, items) && |Concat(s)| < Der.SIZE_MAX_PLUS_ONE
      && input == Der.Tagged(0x31, Concat(s)) && field == Der.Tagged(0xa0, Concat(s));
    assert SignedAttributes.SortedForm(s, items');
  }

  /** One envelope with signed attributes is vouched for with two contents only if their digests are the same. */
  lemma OneDigest(h: Host, e: Envelope, cms: Cms, detached: bool, given: Bytes, given': Bytes)
    requires IsGost(cms) && cms.infos[0].attributes != []
    requires GostVerdict(h, e, cms, detached, given).0 == OK && GostVerdict(h, e, cms, detached, given').0 == OK
    ensures ContentOf(cms, detached, given).Some? && ContentOf(cms, detached, given').Some?
    ensures CertificateChain.Decodes(DecodedEach(h, e.certificates)) && SignerOf(h, e, cms, cms.infos[0]).Some?
    ensures var bits := h.gostBits(SignerOf(h, e, cms, cms.infos[0]).value);
      TokenDigest(h, bits, ContentOf(cms, detached, given).value) == TokenDigest(h, bits, ContentOf(cms, detached, given').value)
  {
    GostVouches(h, e, cms, detached, given);
    GostVouches(h, e, cms, detached, given');
    hide GostVerdict, AlgorithmsAgree, SignatureHolds, TokenDigest, SignerOf, CertificateChain.Decodes, Trusts,
      ContentOf, IsGost, Deliverable;
  }

  // ----- in the calls -----

  /** The library whose judge this is. */
  ghost predicate Judges(lib: Library, h: Host) {
    && (forall b :: lib.decodes(b) == h.decodeCms(b).Some?)
    && (forall e, detached, given :: lib.judge(e, detached, given) == Judge(h, e, detached, given))
  }

  /** Whatever the states, only a call that succeeds leaves anything in the outputs. */
  lemma OnlySuccessGives(lib: Library, h: Host, states: States, c: Call)
    requires Judges(lib, h)
    ensures Answer(lib, states, c).0 != OK ==> Answer(lib, states, c).1 == NOTHING
    ensures c.Final? ==> Answer(lib, states, c).1.content.None?
  {
    hide Judge, InitVerdict;
    if (c.Verify? || c.Final?) && c.session in states {
      var s := states[c.session];
      RefusedGivesNothing(h, s.envelope, c.Final?, s.data);
    }
  }

  /** In every run, `verifyFinal` succeeds on a GOST envelope exactly when the chunks accepted since the operation was
      started concatenate to a content that the envelope is genuine for. */
  lemma FinalVouches(lib: Library, h: Host, calls: seq<Call>, session: nat, cms: Cms)
    requires Judges(lib, h) && Ledger(lib, calls, session).Some?
    requires h.decodeCms(Ledger(lib, calls, session).value.envelope.cms) == Some(cms) && IsGost(cms)
    ensures var op := Ledger(lib, calls, session).value;
      Answer(lib, Run(lib, calls), Final(session, OK, true)).0 == OK <==>
        && op.chunks != []
        && Genuine(h, op.envelope, cms, true, Concat(op.chunks))
        && Deliverable(h, if SignatureOnly in op.envelope.flags then None else SignerOf(h, op.envelope, cms, cms.infos[0]), None)
  {
    RunMatchesLedger(lib, calls, session);
    var op := Ledger(lib, calls, session).value;
    GostVouches(h, op.envelope, cms, true, Concat(op.chunks));
    hide Run, Ledger, GostVerdict, Genuine, Deliverable, IsGost, Concat, SignerOf;
  }
}
