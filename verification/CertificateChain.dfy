/** The walk from a signer's certificate to a trusted one: `verifyGostChain` of RutokenCMS.cpp.

    The walk never goes back: at each certificate it takes the first issuer that verifies.  It misses a path exactly
    when it takes a wrong turn on the way: an issuer from which no trusted certificate is near enough, where another
    issuer of the same certificate would have led to one. */
module CertificateChain {
  import opened Wrappers

  /** A decoded certificate.  Equality is `X509_cmp`; names are compared as wholes. */
  datatype Certificate = Certificate(der: nat, subject: nat, issuer: nat, ca: bool, inDate: bool)

  datatype Result = OK | NotVerified | DataInvalid

  /** `verifies(issuer, cert)` stands for the signature check with the issuer's key. */
  datatype World = World(
    candidates: seq<Certificate>,
    anchors: seq<Certificate>,
    allowPartial: bool,
    verifies: (Certificate, Certificate) -> bool)
  {
    predicate Issues(issuer: Certificate, cert: Certificate) {
      issuer.subject == cert.issuer && issuer.ca && verifies(issuer, cert)
    }

    predicate InPool(c: Certificate) { c in candidates || c in anchors }

    /** Whether a chain may end at the trusted certificate `c`. */
    predicate AcceptsEnd(c: Certificate) { allowPartial || (c.ca && c.subject == c.issuer) }

    /** The first verified issuer in a pool; the certificate itself is passed over among the candidates. */
    function FirstIssuer(pool: seq<Certificate>, cert: Certificate, notSelf: bool): (r: Option<Certificate>)
      ensures r.Some? ==> r.value in pool && Issues(r.value, cert) && (notSelf ==> r.value != cert)
      ensures r.None? ==> forall c :: c in pool && Issues(c, cert) ==> notSelf && c == cert
    {
      if pool == [] then None
      else if Issues(pool[0], cert) && !(notSelf && pool[0] == cert) then Some(pool[0])
      else FirstIssuer(pool[1..], cert, notSelf)
    }

    function NextIssuer(cert: Certificate): Option<Certificate> {
      var found := FirstIssuer(candidates, cert, true);
      if found.Some? then found else FirstIssuer(anchors, cert, false)
    }
  }

  // ----- paths -----

  /** An untrusted certificate followed by a verified issuer. */
  predicate Link(w: World, p: seq<Certificate>, i: nat)
    requires i + 1 < |p|
  {
    p[i] !in w.anchors && w.InPool(p[i + 1]) && w.Issues(p[i + 1], p[i])
  }

  predicate GreedyLink(w: World, p: seq<Certificate>, i: nat)
    requires i + 1 < |p|
  {
    w.NextIssuer(p[i]) == Some(p[i + 1])
  }

  /** A path upwards in which every certificate but the last is untrusted and the last may end a chain. */
  predicate Path(w: World, p: seq<Certificate>) {
    && p != []
    && (forall i :: 0 <= i < |p| ==> p[i].inDate)
    && (forall i :: 0 <= i < |p| - 1 ==> Link(w, p, i))
    && p[|p| - 1] in w.anchors
    && w.AcceptsEnd(p[|p| - 1])
  }

  /** Every step of the path is the one the walk takes. */
  predicate Greedy(w: World, p: seq<Certificate>) {
    forall i :: 0 <= i < |p| - 1 ==> GreedyLink(w, p, i)
  }

  /** No certificate in play has two different verified issuers. */
  ghost predicate Unambiguous(w: World, signer: Certificate) {
    forall c, x, y ::
      (c == signer || w.InPool(c)) && w.InPool(x) && w.InPool(y) && w.Issues(x, c) && w.Issues(y, c) ==> x == y
  }

  // ----- the walk -----

  const MAX_DEPTH: nat := 8

  /** Whether the walk from `current` succeeds within `depth` certificates. */
  predicate Walk(w: World, current: Certificate, depth: nat)
    decreases depth
  {
    && depth > 0
    && current.inDate
    && if current in w.anchors then w.AcceptsEnd(current)
       else
         var next := w.NextIssuer(current);
         next.Some? && Walk(w, next.value, depth - 1)
  }

  lemma {:induction false} WalkFindsPath(w: World, current: Certificate, depth: nat) returns (p: seq<Certificate>)
    requires Walk(w, current, depth)
    ensures |p| <= depth && Path(w, p) && Greedy(w, p) && p[0] == current
    decreases depth
  {
    if current in w.anchors {
      p := [current];
    } else {
      var rest := WalkFindsPath(w, w.NextIssuer(current).value, depth - 1);
      p := [current] + rest;
      forall i | 0 <= i < |p| - 1 ensures Link(w, p, i) && GreedyLink(w, p, i) {
        if i > 0 { assert Link(w, rest, i - 1) && GreedyLink(w, rest, i - 1); }
      }
    }
  }

  lemma {:induction false} PathIsWalked(w: World, p: seq<Certificate>, depth: nat)
    requires Path(w, p) && Greedy(w, p) && |p| <= depth
    ensures Walk(w, p[0], depth)
  {
    if |p| > 1 {
      assert Link(w, p, 0) && GreedyLink(w, p, 0);
      forall i | 0 <= i < |p[1..]| - 1 ensures Link(w, p[1..], i) && GreedyLink(w, p[1..], i) {
        assert Link(w, p, i + 1) && GreedyLink(w, p, i + 1);
      }
      PathIsWalked(w, p[1..], depth - 1);
    }
  }

  // ----- what the walk misses -----

  /** A trusted certificate can be reached from `c` along a path of at most `d` certificates. */
  ghost predicate Within(w: World, c: Certificate, d: nat) {
    exists p :: Path(w, p) && p[0] == c && |p| <= d
  }

  /** Where the walk from `c` stands after `n` issuers, if it gets that far. */
  function Steps(w: World, c: Certificate, n: nat): Option<Certificate>
    decreases n
  {
    if n == 0 then Some(c)
    else if !c.inDate || c in w.anchors || w.NextIssuer(c).None? then None
    else Steps(w, w.NextIssuer(c).value, n - 1)
  }

  /** With `d` certificates left, the issuer taken at `c` leads nowhere and another would have led to the end. */
  ghost predicate WrongTurn(w: World, c: Certificate, d: nat) {
    && d > 0 && c.inDate && c !in w.anchors
    && w.NextIssuer(c).Some?
    && !Within(w, w.NextIssuer(c).value, d - 1)
    && exists y :: w.InPool(y) && w.Issues(y, c) && Within(w, y, d - 1)
  }

  ghost predicate WrongTurnAhead(w: World, c: Certificate, d: nat) {
    exists n: nat :: n <= d && Steps(w, c, n).Some? && WrongTurn(w, Steps(w, c, n).value, d - n)
  }

  lemma PathTail(w: World, p: seq<Certificate>)
    requires Path(w, p) && |p| > 1
    ensures Path(w, p[1..]) && Link(w, p, 0)
  {
    forall i | 0 <= i < |p[1..]| - 1 ensures Link(w, p[1..], i) {
      assert Link(w, p, i + 1);
    }
  }

  lemma PathCons(w: World, c: Certificate, p: seq<Certificate>)
    requires Path(w, p) && c.inDate && c !in w.anchors && w.InPool(p[0]) && w.Issues(p[0], c)
    ensures Path(w, [c] + p)
  {
    var q := [c] + p;
    forall i | 0 <= i < |q| - 1 ensures Link(w, q, i) {
      if i > 0 { assert Link(w, p, i - 1); }
    }
  }

  lemma WithinCons(w: World, c: Certificate, y: Certificate, d: nat)
    requires d > 0 && c.inDate && c !in w.anchors && w.InPool(y) && w.Issues(y, c) && Within(w, y, d - 1)
    ensures Within(w, c, d)
  {
    var p :| Path(w, p) && p[0] == y && |p| <= d - 1;
    PathCons(w, c, p);
    assert ([c] + p)[0] == c;
  }

  /** A path need not pass through its first certificate again. */
  lemma {:induction false} LeaveAtOnce(w: World, p: seq<Certificate>) returns (q: seq<Certificate>)
    requires Path(w, p) && p[0] !in w.anchors
    ensures Path(w, q) && 1 < |q| <= |p| && q[0] == p[0] && q[1] != p[0]
    decreases |p|
  {
    PathTail(w, p);
    if p[1] == p[0] { q := LeaveAtOnce(w, p[1..]); } else { q := p; }
  }

  lemma WalkIsWithin(w: World, c: Certificate, d: nat)
    requires Walk(w, c, d)
    ensures Within(w, c, d)
  {
    var p := WalkFindsPath(w, c, d);
  }

  /** From an untrusted certificate with a path, the walk goes on, and some issuer continues the path. */
  lemma WithinGoesOn(w: World, c: Certificate, d: nat) returns (y: Certificate)
    requires Within(w, c, d) && c !in w.anchors
    ensures d > 0 && c.inDate && w.NextIssuer(c).Some?
    ensures w.InPool(y) && w.Issues(y, c) && Within(w, y, d - 1)
  {
    var p :| Path(w, p) && p[0] == c && |p| <= d;
    var q := LeaveAtOnce(w, p);
    PathTail(w, q);
    y := q[1];
  }

  lemma NextIsIssuer(w: World, c: Certificate)
    requires w.NextIssuer(c).Some?
    ensures w.InPool(w.NextIssuer(c).value) && w.Issues(w.NextIssuer(c).value, c)
  {
  }

  lemma TrustedWithin(w: World, c: Certificate, d: nat)
    requires c in w.anchors && Within(w, c, d)
    ensures Walk(w, c, d)
  {
    var p :| Path(w, p) && p[0] == c && |p| <= d;
    if |p| > 1 { PathTail(w, p); }
  }

  lemma StepsShift(w: World, c: Certificate, d: nat)
    requires d > 0 && c.inDate && c !in w.anchors && w.NextIssuer(c).Some?
    ensures WrongTurnAhead(w, c, d) <==> WrongTurn(w, c, d) || WrongTurnAhead(w, w.NextIssuer(c).value, d - 1)
  {
    var next := w.NextIssuer(c).value;
    hide WrongTurn;
    assert Steps(w, c, 0) == Some(c);
    if n: nat :| n <= d && Steps(w, c, n).Some? && WrongTurn(w, Steps(w, c, n).value, d - n) {
      if n > 0 { assert Steps(w, c, n) == Steps(w, next, n - 1) && d - n == d - 1 - (n - 1); }
    }
    if n: nat :| n <= d - 1 && Steps(w, next, n).Some? && WrongTurn(w, Steps(w, next, n).value, d - 1 - n) {
      assert Steps(w, c, n + 1) == Steps(w, next, n) && d - (n + 1) == d - 1 - n;
    }
  }

  lemma NoStepsAhead(w: World, c: Certificate, d: nat)
    requires d == 0 || !c.inDate || c in w.anchors || w.NextIssuer(c).None?
    ensures !WrongTurnAhead(w, c, d)
  {
  }

  /** A path within reach is missed exactly when the walk takes a wrong turn on its way. */
  lemma {:induction false} MissesExactly(w: World, c: Certificate, d: nat)
    ensures Within(w, c, d) && !Walk(w, c, d) <==> WrongTurnAhead(w, c, d)
    decreases d
  {
    if d == 0 || !c.inDate || c in w.anchors || w.NextIssuer(c).None? {
      NoStepsAhead(w, c, d);
      if Within(w, c, d) {
        if c in w.anchors { TrustedWithin(w, c, d); } else { var y := WithinGoesOn(w, c, d); }
      }
    } else {
      var next := w.NextIssuer(c).value;
      NextIsIssuer(w, c);
      StepsShift(w, c, d);
      MissesExactly(w, next, d - 1);
      if Within(w, c, d) { var y := WithinGoesOn(w, c, d); }
      if Within(w, next, d - 1) { WithinCons(w, c, next, d); }
      if Walk(w, next, d - 1) { WalkIsWithin(w, next, d - 1); }
      if y :| w.InPool(y) && w.Issues(y, c) && Within(w, y, d - 1) { WithinCons(w, c, y, d); }
      hide Within, Path;
    }
  }

  lemma {:induction false} StepsInPool(w: World, c: Certificate, n: nat)
    requires Steps(w, c, n).Some?
    ensures Steps(w, c, n).value == c || w.InPool(Steps(w, c, n).value)
    decreases n
  {
    if n > 0 {
      NextIsIssuer(w, c);
      StepsInPool(w, w.NextIssuer(c).value, n - 1);
    }
  }

  // ----- the whole check -----

  /** `state` and `internal` as the walk is given them: a `None` is a certificate that does not decode. */
  datatype Chain = Chain(
    trusted: seq<Option<Certificate>>,
    certificates: seq<Option<Certificate>>,
    internal: Option<seq<Certificate>>,
    ignoreInternal: bool,
    allowPartial: bool)

  predicate Decodes(ders: seq<Option<Certificate>>) { forall d :: d in ders ==> d.Some? }

  function Decoded(ders: seq<Option<Certificate>>): (cs: seq<Certificate>)
    requires Decodes(ders)
    ensures |cs| == |ders| && forall i :: 0 <= i < |ders| ==> cs[i] == ders[i].value
  {
    if ders == [] then [] else Decoded(ders[..|ders| - 1]) + [ders[|ders| - 1].value]
  }

  function WorldOf(c: Chain, verifies: (Certificate, Certificate) -> bool): World
    requires Decodes(c.trusted) && Decodes(c.certificates)
  {
    World(
      Decoded(c.certificates) + if c.ignoreInternal || c.internal.None? then [] else c.internal.value,
      Decoded(c.trusted), c.allowPartial, verifies)
  }

  // ----- what a path is, field by field -----

  /** The certificates among which an issuer is looked for first, in order. */
  function Offered(c: Chain): seq<Option<Certificate>> {
    c.certificates
    + if c.ignoreInternal || c.internal.None? then []
      else seq(|c.internal.value|, i requires 0 <= i < |c.internal.value| => Some(c.internal.value[i]))
  }

  /** `y` is a CA of the name that `cert` gives its issuer, and has verifiably signed it.  `notSelf` passes over `cert`
      itself. */
  predicate SignedBy(y: Option<Certificate>, cert: Certificate, notSelf: bool, verifies: (Certificate, Certificate) -> bool) {
    && y.Some? && y.value.ca && y.value.subject == cert.issuer && verifies(y.value, cert)
    && (notSelf ==> y.value != cert)
  }

  predicate NoCA(list: seq<Option<Certificate>>, cert: Certificate, notSelf: bool, verifies: (Certificate, Certificate) -> bool) {
    forall j :: 0 <= j < |list| ==> !SignedBy(list[j], cert, notSelf, verifies)
  }

  /** `x` is the first such CA in the list. */
  ghost predicate FirstCA(list: seq<Option<Certificate>>, x: Certificate, cert: Certificate, notSelf: bool,
                          verifies: (Certificate, Certificate) -> bool)
  {
    exists k :: FirstAt(list, k, x, cert, notSelf, verifies)
  }

  predicate FirstAt(list: seq<Option<Certificate>>, k: int, x: Certificate, cert: Certificate, notSelf: bool,
                    verifies: (Certificate, Certificate) -> bool)
  {
    && 0 <= k < |list| && list[k] == Some(x) && SignedBy(list[k], cert, notSelf, verifies)
    && forall j :: 0 <= j < k ==> !SignedBy(list[j], cert, notSelf, verifies)
  }

  /** A path from the signer: at most eight certificates, all in date, each followed by the CA that issued it, out of the
      offered certificates or the trusted ones, and none trusted but the last, which ends a chain as the flags allow. */
  predicate IssuerPath(c: Chain, verifies: (Certificate, Certificate) -> bool, signer: Certificate, p: seq<Certificate>) {
    && 1 <= |p| <= 8 && p[0] == signer
    && (forall i :: 0 <= i < |p| ==> p[i].inDate)
    && (forall i :: 0 <= i < |p| - 1 ==> IssuedByNext(c, verifies, p, i))
    && (forall i :: 0 <= i < |p| - 1 ==> Some(p[i]) !in c.trusted)
    && var last := p[|p| - 1];
       Some(last) in c.trusted && (c.allowPartial || (last.ca && last.subject == last.issuer))
  }

  predicate IssuedByNext(c: Chain, verifies: (Certificate, Certificate) -> bool, p: seq<Certificate>, i: nat)
    requires i + 1 < |p|
  {
    && p[i + 1].ca && p[i + 1].subject == p[i].issuer && verifies(p[i + 1], p[i])
    && InPlay(c, p[i + 1])
  }

  /** Moreover each CA is the first that there is. */
  ghost predicate FirstIssuers(c: Chain, verifies: (Certificate, Certificate) -> bool, p: seq<Certificate>) {
    forall i :: 0 <= i < |p| - 1 ==> FirstIssuerNext(c, verifies, p, i)
  }

  ghost predicate FirstIssuerNext(c: Chain, verifies: (Certificate, Certificate) -> bool, p: seq<Certificate>, i: nat)
    requires i + 1 < |p|
  {
    || FirstCA(Offered(c), p[i + 1], p[i], true, verifies)
    || (NoCA(Offered(c), p[i], true, verifies) && FirstCA(c.trusted, p[i + 1], p[i], false, verifies))
  }

  predicate InPlay(c: Chain, x: Certificate) { Some(x) in Offered(c) || Some(x) in c.trusted }

  /** No certificate has two issuers. */
  ghost predicate SoleIssuers(c: Chain, verifies: (Certificate, Certificate) -> bool, signer: Certificate) {
    forall k, x, y ::
      && (k == signer || InPlay(c, k)) && InPlay(c, x) && InPlay(c, y)
      && x.ca && x.subject == k.issuer && verifies(x, k)
      && y.ca && y.subject == k.issuer && verifies(y, k)
      ==> x == y
  }

  /** The pools of the walk are the offered and the trusted certificates. */
  lemma PoolsOf(c: Chain, verifies: (Certificate, Certificate) -> bool)
    requires Decodes(c.trusted) && Decodes(c.certificates)
    ensures var w := WorldOf(c, verifies);
      && |w.candidates| == |Offered(c)| && (forall i :: 0 <= i < |w.candidates| ==> Offered(c)[i] == Some(w.candidates[i]))
      && |w.anchors| == |c.trusted| && (forall i :: 0 <= i < |w.anchors| ==> c.trusted[i] == Some(w.anchors[i]))
  {
    forall i | 0 <= i < |c.trusted| ensures c.trusted[i].Some? { assert c.trusted[i] in c.trusted; }
    forall i | 0 <= i < |c.certificates| ensures c.certificates[i].Some? { assert c.certificates[i] in c.certificates; }
  }

  /** A list and the same certificates without their wrapping. */
  predicate SameList(list: seq<Option<Certificate>>, pool: seq<Certificate>) {
    |list| == |pool| && forall i :: 0 <= i < |list| ==> list[i] == Some(pool[i])
  }

  lemma SameMembers(list: seq<Option<Certificate>>, pool: seq<Certificate>, x: Certificate)
    requires SameList(list, pool)
    ensures Some(x) in list <==> x in pool
  {
    if x in pool {
      var i :| 0 <= i < |pool| && pool[i] == x;
      assert list[i] == Some(x);
    }
  }

  lemma FirstOfCons(y: Option<Certificate>, list: seq<Option<Certificate>>, x: Certificate, cert: Certificate, notSelf: bool,
                    verifies: (Certificate, Certificate) -> bool)
    ensures NoCA([y] + list, cert, notSelf, verifies)
      <==> !SignedBy(y, cert, notSelf, verifies) && NoCA(list, cert, notSelf, verifies)
    ensures FirstCA([y] + list, x, cert, notSelf, verifies)
      <==> if SignedBy(y, cert, notSelf, verifies) then y == Some(x) else FirstCA(list, x, cert, notSelf, verifies)
  {
    var all := [y] + list;
    assert all[0] == y && forall j :: 0 <= j < |list| ==> all[j + 1] == list[j];
    hide SignedBy, FirstAt;
    NoneOfCons(y, list, cert, notSelf, verifies);
    HeadOfCons(y, list, x, cert, notSelf, verifies);
    if k :| FirstAt(list, k, x, cert, notSelf, verifies) { LaterOfCons(y, list, k, x, cert, notSelf, verifies); }
    if k :| FirstAt(all, k, x, cert, notSelf, verifies) {
      LaterOfCons(y, list, k - 1, x, cert, notSelf, verifies);
      assert k - 1 + 1 == k;
    }
  }

  lemma NoneOfCons(y: Option<Certificate>, list: seq<Option<Certificate>>, cert: Certificate, notSelf: bool,
                   verifies: (Certificate, Certificate) -> bool)
    ensures NoCA([y] + list, cert, notSelf, verifies)
      <==> !SignedBy(y, cert, notSelf, verifies) && NoCA(list, cert, notSelf, verifies)
  {
    hide SignedBy;
    var all := [y] + list;
    assert all[0] == y && forall j :: 0 <= j < |list| ==> all[j + 1] == list[j];
  }

  lemma HeadOfCons(y: Option<Certificate>, list: seq<Option<Certificate>>, x: Certificate, cert: Certificate, notSelf: bool,
                   verifies: (Certificate, Certificate) -> bool)
    ensures FirstAt([y] + list, 0, x, cert, notSelf, verifies) <==> y == Some(x) && SignedBy(y, cert, notSelf, verifies)
    ensures forall k :: FirstAt([y] + list, k, x, cert, notSelf, verifies) ==> k >= 0
    ensures SignedBy(y, cert, notSelf, verifies) ==> forall k :: FirstAt([y] + list, k, x, cert, notSelf, verifies) ==> k == 0
  {
    hide SignedBy;
    assert ([y] + list)[0] == y;
  }

  lemma LaterOfCons(y: Option<Certificate>, list: seq<Option<Certificate>>, k: int, x: Certificate, cert: Certificate,
                    notSelf: bool, verifies: (Certificate, Certificate) -> bool)
    ensures FirstAt([y] + list, k + 1, x, cert, notSelf, verifies) && k >= 0
      <==> !SignedBy(y, cert, notSelf, verifies) && FirstAt(list, k, x, cert, notSelf, verifies)
  {
    hide SignedBy;
    var all := [y] + list;
    assert all[0] == y && forall j :: 0 <= j < |list| ==> all[j + 1] == list[j];
  }

  lemma {:induction false} FirstIssuerIsFirst(w: World, list: seq<Option<Certificate>>, pool: seq<Certificate>, cert: Certificate,
                                              notSelf: bool, x: Certificate)
    requires SameList(list, pool)
    ensures w.FirstIssuer(pool, cert, notSelf).None? <==> NoCA(list, cert, notSelf, w.verifies)
    ensures w.FirstIssuer(pool, cert, notSelf) == Some(x) <==> FirstCA(list, x, cert, notSelf, w.verifies)
  {
    if pool != [] {
      assert list == [list[0]] + list[1..];
      FirstOfCons(list[0], list[1..], x, cert, notSelf, w.verifies);
      FirstIssuerIsFirst(w, list[1..], pool[1..], cert, notSelf, x);
      hide FirstCA, NoCA;
    }
  }

  /** Only what is verified matters, not how it is told. */
  lemma SameVerifies(c: Chain, v: (Certificate, Certificate) -> bool, v': (Certificate, Certificate) -> bool, signer: Certificate,
                     p: seq<Certificate>)
    requires forall x, y :: v(x, y) == v'(x, y)
    ensures IssuerPath(c, v, signer, p) <==> IssuerPath(c, v', signer, p)
    ensures FirstIssuers(c, v, p) <==> FirstIssuers(c, v', p)
  {
    hide Offered;
    forall i | 0 <= i < |p| - 1
      ensures IssuedByNext(c, v, p, i) <==> IssuedByNext(c, v', p, i)
      ensures FirstIssuerNext(c, v, p, i) <==> FirstIssuerNext(c, v', p, i)
    {
      SameFirst(Offered(c), p[i + 1], p[i], true, v, v');
      SameFirst(c.trusted, p[i + 1], p[i], false, v, v');
    }
  }

  lemma SameFirst(list: seq<Option<Certificate>>, x: Certificate, cert: Certificate, notSelf: bool,
                  v: (Certificate, Certificate) -> bool, v': (Certificate, Certificate) -> bool)
    requires forall y, z :: v(y, z) == v'(y, z)
    ensures FirstCA(list, x, cert, notSelf, v) <==> FirstCA(list, x, cert, notSelf, v')
    ensures NoCA(list, cert, notSelf, v) <==> NoCA(list, cert, notSelf, v')
  {
    forall y ensures SignedBy(y, cert, notSelf, v) <==> SignedBy(y, cert, notSelf, v') {}
    hide SignedBy;
    forall k ensures FirstAt(list, k, x, cert, notSelf, v) <==> FirstAt(list, k, x, cert, notSelf, v') {}
    hide FirstAt;
  }

  /** The walk goes from a certificate to the first CA that issued it. */
  lemma NextIsFirst(c: Chain, verifies: (Certificate, Certificate) -> bool, p: seq<Certificate>, i: nat)
    requires Decodes(c.trusted) && Decodes(c.certificates) && i + 1 < |p|
    ensures WorldOf(c, verifies).NextIssuer(p[i]) == Some(p[i + 1]) <==> FirstIssuerNext(c, verifies, p, i)
  {
    var w := WorldOf(c, verifies);
    hide FirstCA, NoCA, World.FirstIssuer, Offered, WorldOf;
    PoolsOf(c, verifies);
    WorldVerifies(c, verifies);
    FirstIssuerIsFirst(w, Offered(c), w.candidates, p[i], true, p[i + 1]);
    FirstIssuerIsFirst(w, c.trusted, w.anchors, p[i], false, p[i + 1]);
  }

  lemma WorldVerifies(c: Chain, verifies: (Certificate, Certificate) -> bool)
    requires Decodes(c.trusted) && Decodes(c.certificates)
    ensures WorldOf(c, verifies).verifies == verifies && WorldOf(c, verifies).allowPartial == c.allowPartial
  {
  }

  lemma LinkByFields(c: Chain, verifies: (Certificate, Certificate) -> bool, p: seq<Certificate>, i: nat)
    requires Decodes(c.trusted) && Decodes(c.certificates) && i + 1 < |p|
    ensures Link(WorldOf(c, verifies), p, i) <==> IssuedByNext(c, verifies, p, i) && Some(p[i]) !in c.trusted
  {
    PoolsOf(c, verifies);
    var w := WorldOf(c, verifies);
    SameMembers(Offered(c), w.candidates, p[i + 1]);
    SameMembers(c.trusted, w.anchors, p[i + 1]);
    SameMembers(c.trusted, w.anchors, p[i]);
    hide Offered;
  }

  /** The paths of the walk are these paths. */
  lemma PathByFields(c: Chain, verifies: (Certificate, Certificate) -> bool, signer: Certificate, p: seq<Certificate>)
    requires Decodes(c.trusted) && Decodes(c.certificates)
    ensures Path(WorldOf(c, verifies), p) && p[0] == signer && |p| <= MAX_DEPTH <==> IssuerPath(c, verifies, signer, p)
  {
    hide Offered, WorldOf, Link, IssuedByNext;
    PoolsOf(c, verifies);
    WorldVerifies(c, verifies);
    forall i | 0 <= i < |p| - 1
      ensures Link(WorldOf(c, verifies), p, i) <==> IssuedByNext(c, verifies, p, i) && Some(p[i]) !in c.trusted
    {
      LinkByFields(c, verifies, p, i);
    }
    if p != [] { SameMembers(c.trusted, WorldOf(c, verifies).anchors, p[|p| - 1]); }
  }

  /** Success, field by field: a path of CAs from the signer to a trusted certificate, each the first there is. */
  lemma WalkByFields(c: Chain, verifies: (Certificate, Certificate) -> bool, signer: Certificate)
    requires Decodes(c.trusted) && Decodes(c.certificates)
    ensures Walk(WorldOf(c, verifies), signer, MAX_DEPTH)
      <==> exists p :: IssuerPath(c, verifies, signer, p) && FirstIssuers(c, verifies, p)
  {
    var w := WorldOf(c, verifies);
    hide Path, IssuerPath, WorldOf, Walk, FirstIssuerNext;
    WalkExactly(w, signer);
    forall p ensures Path(w, p) && p[0] == signer && |p| <= MAX_DEPTH <==> IssuerPath(c, verifies, signer, p) {
      PathByFields(c, verifies, signer, p);
    }
    forall p ensures Greedy(w, p) <==> FirstIssuers(c, verifies, p) {
      forall i: nat | i < |p| - 1 ensures GreedyLink(w, p, i) <==> FirstIssuerNext(c, verifies, p, i) {
        NextIsFirst(c, verifies, p, i);
      }
    }
    if p :| Path(w, p) && Greedy(w, p) && p[0] == signer && |p| <= MAX_DEPTH {
      assert IssuerPath(c, verifies, signer, p) && FirstIssuers(c, verifies, p);
    }
    if p :| IssuerPath(c, verifies, signer, p) && FirstIssuers(c, verifies, p) {
      assert Path(w, p) && Greedy(w, p) && p[0] == signer && |p| <= MAX_DEPTH;
    }
  }

  /** Where no certificate has two issuers, the order does not matter. */
  lemma SoleByFields(c: Chain, verifies: (Certificate, Certificate) -> bool, signer: Certificate)
    requires Decodes(c.trusted) && Decodes(c.certificates) && SoleIssuers(c, verifies, signer)
    ensures Walk(WorldOf(c, verifies), signer, MAX_DEPTH) <==> exists p :: IssuerPath(c, verifies, signer, p)
  {
    var w := WorldOf(c, verifies);
    PoolsOf(c, verifies);
    forall z ensures InPlay(c, z) <==> w.InPool(z) {
      SameMembers(Offered(c), w.candidates, z);
      SameMembers(c.trusted, w.anchors, z);
      hide Offered;
    }
    assert Unambiguous(w, signer) by {
      hide Offered, InPlay, World.InPool;
      WorldVerifies(c, verifies);
    }
    hide Walk, Path, IssuerPath, Offered, WorldOf;
    WalkComplete(w, signer);
    forall p ensures Path(w, p) && p[0] == signer && |p| <= MAX_DEPTH <==> IssuerPath(c, verifies, signer, p) {
      PathByFields(c, verifies, signer, p);
    }
    if p :| IssuerPath(c, verifies, signer, p) { assert Path(w, p) && p[0] == signer && |p| <= MAX_DEPTH; }
  }

  method DecodeAll(ders: seq<Option<Certificate>>) returns (ok: bool, certs: seq<Certificate>)
    ensures ok <==> Decodes(ders)
    ensures ok ==> certs == Decoded(ders)
  {
    certs := [];
    for i := 0 to |ders|
      invariant Decodes(ders[..i]) && certs == Decoded(ders[..i])
    {
      assert ders[..i + 1] == ders[..i] + [ders[i]];
      if ders[i].None? {
        assert ders[i] in ders;
        return false, certs;
      }
      certs := certs + [ders[i].value];
    }
    assert ders[..|ders|] == ders;
    return true, certs;
  }

  method FindIssuer(w: World, pool: seq<Certificate>, current: Certificate, notSelf: bool) returns (r: Option<Certificate>)
    ensures r == w.FirstIssuer(pool, current, notSelf)
  {
    for i := 0 to |pool|
      invariant w.FirstIssuer(pool, current, notSelf) == w.FirstIssuer(pool[i..], current, notSelf)
    {
      var candidate := pool[i];
      if candidate.subject == current.issuer && !(notSelf && candidate == current) && candidate.ca
         && w.verifies(candidate, current) {
        return Some(candidate);
      }
      assert pool[i..][1..] == pool[i + 1..];
    }
    return None;
  }

  method Among(pool: seq<Certificate>, cert: Certificate) returns (found: bool)
    ensures found <==> cert in pool
  {
    for i := 0 to |pool|
      invariant cert !in pool[..i]
    {
      if cert == pool[i] { return true; }
    }
    return false;
  }

  /** Both readings of success. */
  lemma SuccessByFields(c: Chain, verifies: (Certificate, Certificate) -> bool, signer: Certificate)
    ensures (c.trusted != [] && Decodes(c.trusted) && Decodes(c.certificates) && Walk(WorldOf(c, verifies), signer, MAX_DEPTH))
      <==> (&& None !in c.trusted && None !in c.certificates
            && exists p :: IssuerPath(c, verifies, signer, p) && FirstIssuers(c, verifies, p))
    ensures None !in c.trusted && None !in c.certificates && SoleIssuers(c, verifies, signer) ==>
      ((c.trusted != [] && Decodes(c.trusted) && Decodes(c.certificates) && Walk(WorldOf(c, verifies), signer, MAX_DEPTH))
       <==> exists p :: IssuerPath(c, verifies, signer, p))
  {
    DecodesExactly(c.trusted);
    DecodesExactly(c.certificates);
    hide Decodes, Walk, WorldOf, FirstIssuers, SoleIssuers;
    forall p | IssuerPath(c, verifies, signer, p) ensures c.trusted != [] { assert Some(p[|p| - 1]) in c.trusted; }
    if Decodes(c.trusted) && Decodes(c.certificates) {
      WalkByFields(c, verifies, signer);
      if SoleIssuers(c, verifies, signer) { SoleByFields(c, verifies, signer); }
    }
  }

  lemma DecodesExactly(ders: seq<Option<Certificate>>)
    ensures Decodes(ders) <==> None !in ders
  {
  }

  /** `verifyGostChain`. */
  method VerifyGostChain(signer: Certificate, c: Chain, verifies: (Certificate, Certificate) -> bool) returns (r: Result)
    ensures r.DataInvalid? <==> c.trusted != [] && !(Decodes(c.trusted) && Decodes(c.certificates))
    ensures r.OK? <==>
      c.trusted != [] && Decodes(c.trusted) && Decodes(c.certificates) && Walk(WorldOf(c, verifies), signer, MAX_DEPTH)
    ensures r.OK? <==>
      && None !in c.trusted && None !in c.certificates
      && exists p :: IssuerPath(c, verifies, signer, p) && FirstIssuers(c, verifies, p)
    ensures None !in c.trusted && None !in c.certificates && SoleIssuers(c, verifies, signer) ==>
      (r.OK? <==> exists p :: IssuerPath(c, verifies, signer, p))
  {
    hide IssuerPath, FirstIssuers, SoleIssuers, Decodes, Decoded, World.FirstIssuer, World.Issues;
    SuccessByFields(c, verifies, signer);
    if c.trusted == [] { return NotVerified; }
    var ok, anchors := DecodeAll(c.trusted);
    if !ok { return DataInvalid; }
    var candidates;
    ok, candidates := DecodeAll(c.certificates);
    if !ok { return DataInvalid; }
    if !c.ignoreInternal && c.internal.Some? {
      candidates := candidates + c.internal.value;
    }
    var w := World(candidates, anchors, c.allowPartial, verifies);
    assert w == WorldOf(c, verifies);
    var current := signer;
    for depth := 0 to MAX_DEPTH
      invariant Walk(w, signer, MAX_DEPTH) <==> Walk(w, current, MAX_DEPTH - depth)
    {
      if !current.inDate { return NotVerified; }
      var trusted := Among(anchors, current);
      if trusted {
        if c.allowPartial { return OK; }
        if !current.ca || current.subject != current.issuer { return NotVerified; }
        return OK;
      }
      var issuer := FindIssuer(w, candidates, current, true);
      if issuer.None? {
        issuer := FindIssuer(w, anchors, current, false);
      }
      if issuer.None? { return NotVerified; }
      current := issuer.value;
    }
    return NotVerified;
  }

  /** What success means: the path that the walk takes, of at most eight certificates, ends at its first trusted
      certificate; and no other outcome is possible when there is such a path. */
  lemma WalkExactly(w: World, signer: Certificate)
    ensures Walk(w, signer, MAX_DEPTH) <==>
      exists p :: Path(w, p) && Greedy(w, p) && p[0] == signer && |p| <= MAX_DEPTH
  {
    if Walk(w, signer, MAX_DEPTH) {
      var p := WalkFindsPath(w, signer, MAX_DEPTH);
    }
    if p :| Path(w, p) && Greedy(w, p) && p[0] == signer && |p| <= MAX_DEPTH {
      PathIsWalked(w, p, MAX_DEPTH);
    }
  }

  /** Success is a path within reach and no wrong turn on the way to it. */
  lemma WalkSucceeds(w: World, signer: Certificate)
    ensures Walk(w, signer, MAX_DEPTH) <==> Within(w, signer, MAX_DEPTH) && !WrongTurnAhead(w, signer, MAX_DEPTH)
  {
    MissesExactly(w, signer, MAX_DEPTH);
    if Walk(w, signer, MAX_DEPTH) { WalkIsWithin(w, signer, MAX_DEPTH); }
  }

  /** With unambiguous issuers there is no wrong turn to take: success is the existence of a path, whatever order the
      pools are in. */
  lemma WalkComplete(w: World, signer: Certificate)
    requires Unambiguous(w, signer)
    ensures Walk(w, signer, MAX_DEPTH) <==> Within(w, signer, MAX_DEPTH)
  {
    WalkSucceeds(w, signer);
    if n: nat :| n <= MAX_DEPTH && Steps(w, signer, n).Some? && WrongTurn(w, Steps(w, signer, n).value, MAX_DEPTH - n) {
      var c := Steps(w, signer, n).value;
      StepsInPool(w, signer, n);
      NextIsIssuer(w, c);
    }
  }

  /** Ambiguity matters: with two verified issuers of the same name, a path exists through the second and the walk
      is lost in the first. */
  lemma GreedyCanMiss() returns (w: World, signer: Certificate, p: seq<Certificate>)
    ensures Path(w, p) && p[0] == signer && |p| <= MAX_DEPTH
    ensures !Walk(w, signer, MAX_DEPTH) && WrongTurnAhead(w, signer, MAX_DEPTH)
  {
    signer := Certificate(0, 10, 20, false, true);
    var deadEnd := Certificate(1, 20, 99, true, true);
    var good := Certificate(2, 20, 30, true, true);
    var root := Certificate(3, 30, 30, true, true);
    w := World([deadEnd, good], [root], false, (issuer, cert) => true);
    p := [signer, good, root];
    assert Link(w, p, 0) && Link(w, p, 1);
    assert w.candidates[1] == good && w.anchors[0] == root;
    assert w.FirstIssuer(w.candidates, signer, true) == Some(deadEnd);
    assert w.NextIssuer(deadEnd).None?;
    assert !Walk(w, deadEnd, MAX_DEPTH - 1);
    MissesExactly(w, signer, MAX_DEPTH);
  }
}
