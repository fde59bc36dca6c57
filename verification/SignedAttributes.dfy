/** The signed attributes of a CMS signer: `signGostCms` and `verifyGostCms` of RutokenCMS.cpp both
    sort the encoded attributes and sign, or check, their concatenation under a SET OF tag. */
module SignedAttributes {
  import opened Octets
  import Der
  import opened Wrappers

  // ----- the order of encodings -----

  /** Lexicographic comparison, as `std::vector` compares bytes. */
  predicate Leq(a: Bytes, b: Bytes) {
    a == [] || (b != [] && (a[0] < b[0] || (a[0] == b[0] && Leq(a[1..], b[1..]))))
  }

  lemma {:induction false} LeqTotal(a: Bytes, b: Bytes)
    ensures Leq(a, b) || Leq(b, a)
  {
    if a != [] && b != [] { LeqTotal(a[1..], b[1..]); }
  }

  lemma {:induction false} LeqAntisymmetric(a: Bytes, b: Bytes)
    requires Leq(a, b) && Leq(b, a)
    ensures a == b
  {
    if a != [] && b != [] {
      LeqAntisymmetric(a[1..], b[1..]);
      assert a == [a[0]] + a[1..] && b == [b[0]] + b[1..];
    }
  }

  lemma {:induction false} LeqTransitive(a: Bytes, b: Bytes, c: Bytes)
    requires Leq(a, b) && Leq(b, c)
    ensures Leq(a, c)
  {
    if a != [] && a[0] == b[0] == c[0] { LeqTransitive(a[1..], b[1..], c[1..]); }
  }

  function Head(a: Bytes): byte { if a == [] then 0 else a[0] }

  function Tail(a: Bytes): Bytes { if a == [] then [] else a[1..] }

  /** The comparison that DER prescribes for SET OF: the shorter encoding is padded with zero octets
      (section 11.6 of X.690). */
  predicate PaddedLeq(a: Bytes, b: Bytes)
    decreases |a| + |b|
  {
    (a == [] && b == []) || Head(a) < Head(b) || (Head(a) == Head(b) && PaddedLeq(Tail(a), Tail(b)))
  }

  lemma {:induction false} LeqIsPadded(a: Bytes, b: Bytes)
    requires Leq(a, b)
    ensures PaddedLeq(a, b)
    decreases |a| + |b|
  {
    if (a != [] || b != []) && Head(a) == Head(b) { LeqIsPadded(Tail(a), Tail(b)); }
  }

  // ----- sorting -----

  predicate InOrder(items: seq<Bytes>) { forall i, j :: 0 <= i < j < |items| ==> Leq(items[i], items[j]) }

  predicate SortedForm(sorted: seq<Bytes>, items: seq<Bytes>) {
    InOrder(sorted) && multiset(sorted) == multiset(items)
  }

  lemma HeadIsLeast(s: seq<Bytes>, x: Bytes)
    requires InOrder(s) && x in s
    ensures Leq(s[0], x)
  {
    LeqTotal(s[0], s[0]);
    var i :| 0 <= i < |s| && s[i] == x;
  }

  lemma SameElements(s: seq<Bytes>, t: seq<Bytes>, x: Bytes)
    requires multiset(s) == multiset(t) && x in s
    ensures x in t
  {
    assert x in multiset(s);
  }

  lemma SameHeads(s: seq<Bytes>, t: seq<Bytes>)
    requires InOrder(s) && InOrder(t) && multiset(s) == multiset(t) && s != [] && t != []
    ensures s[0] == t[0] && multiset(s[1..]) == multiset(t[1..])
  {
    hide Leq, InOrder;
    SameElements(s, t, s[0]);
    SameElements(t, s, t[0]);
    HeadIsLeast(s, t[0]);
    HeadIsLeast(t, s[0]);
    LeqAntisymmetric(s[0], t[0]);
    TailMultiset(s);
    TailMultiset(t);
  }

  lemma TailMultiset(s: seq<Bytes>)
    requires s != []
    ensures multiset(s[1..]) == multiset(s) - multiset{s[0]}
  {
    assert s == [s[0]] + s[1..];
  }

  /** Sorting is canonical: two orders of the same encodings have the same sorted form. */
  lemma {:induction false} SortedFormUnique(s: seq<Bytes>, t: seq<Bytes>)
    requires InOrder(s) && InOrder(t) && multiset(s) == multiset(t)
    ensures s == t
  {
    assert |s| == |multiset(s)| == |multiset(t)| == |t|;
    if s != [] {
      SameHeads(s, t);
      SortedFormUnique(s[1..], t[1..]);
      assert s == [s[0]] + s[1..] && t == [t[0]] + t[1..];
    }
  }

  lemma InsertedInOrder(below: seq<Bytes>, x: Bytes, above: seq<Bytes>)
    requires InOrder(below + above)
    requires below != [] ==> Leq(below[|below| - 1], x)
    requires forall j :: 0 <= j < |above| ==> Leq(x, above[j])
    ensures InOrder(below + [x] + above)
  {
    hide Leq;
    var all, r := below + above, below + [x] + above;
    var k := |below|;
    forall j | 0 <= j < k ensures Leq(below[j], x) {
      if j < k - 1 {
        assert all[j] == below[j] && all[k - 1] == below[k - 1];
        LeqTransitive(below[j], below[k - 1], x);
      }
    }
    forall i, j | 0 <= i < j < |r| ensures Leq(r[i], r[j]) {
      if i != k && j != k {
        assert r[i] == all[if i < k then i else i - 1] && r[j] == all[if j < k then j else j - 1];
      }
    }
  }

  lemma InsertedElements(below: seq<Bytes>, x: Bytes, above: seq<Bytes>)
    ensures multiset(below + [x] + above) == multiset(below + above + [x])
  {
  }

  lemma FormOf(sorted: seq<Bytes>, items: seq<Bytes>)
    requires InOrder(sorted) && multiset(sorted) == multiset(items)
    ensures SortedForm(sorted, items)
  {
  }

  method Insert(sorted: seq<Bytes>, x: Bytes) returns (r: seq<Bytes>)
    requires InOrder(sorted)
    ensures SortedForm(r, sorted + [x])
  {
    hide Leq, SortedForm, InOrder;
    var k: nat := |sorted|;
    while k > 0 && !Leq(sorted[k - 1], x)
      invariant 0 <= k <= |sorted|
      invariant forall j :: k <= j < |sorted| ==> Leq(x, sorted[j])
    {
      LeqTotal(sorted[k - 1], x);
      k := k - 1;
    }
    r := sorted[..k] + [x] + sorted[k..];
    assert sorted == sorted[..k] + sorted[k..];
    InsertedInOrder(sorted[..k], x, sorted[k..]);
    InsertedElements(sorted[..k], x, sorted[k..]);
    FormOf(r, sorted + [x]);
  }

  /** `std::sort`; any implementation gives this result, by `SortedFormUnique`. */
  method Sort(items: seq<Bytes>) returns (sorted: seq<Bytes>)
    ensures SortedForm(sorted, items)
  {
    sorted := [];
    for i := 0 to |items|
      invariant SortedForm(sorted, items[..i])
    {
      assert items[..i + 1] == items[..i] + [items[i]];
      sorted := Insert(sorted, items[i]);
    }
    assert items[..|items|] == items;
  }

  // ----- the signed bytes -----

  method Join(items: seq<Bytes>) returns (body: Bytes)
    ensures body == Concat(items)
  {
    body := [];
    for i := 0 to |items|
      invariant body == Concat(items[..i])
    {
      assert items[..i + 1][..i] == items[..i];
      body := body + items[i];
    }
    assert items[..|items|] == items;
  }

  ghost predicate Fits(items: seq<Bytes>) {
    forall sorted :: SortedForm(sorted, items) ==> |Concat(sorted)| < Der.SIZE_MAX_PLUS_ONE
  }

  /** `input` is what is signed for these attributes, and `field` is how they are stored in the signer info. */
  ghost predicate Signs(items: seq<Bytes>, input: Bytes, field: Bytes) {
    exists sorted ::
      && SortedForm(sorted, items)
      && |Concat(sorted)| < Der.SIZE_MAX_PLUS_ONE
      && input == Der.Tagged(0x31, Concat(sorted))
      && field == Der.Tagged(0xa0, Concat(sorted))
  }

  /** The signer's bytes, and the verifier's from whatever order it finds. */
  method Encode(attributes: seq<Bytes>) returns (signedInput: Bytes, field: Bytes)
    requires Fits(attributes)
    ensures Signs(attributes, signedInput, field)
  {
    var sorted := Sort(attributes);
    var signedAttributes := Join(sorted);
    signedInput := Der.EncodeTagged(0x31, signedAttributes);
    field := Der.EncodeTagged(0xa0, signedAttributes);
  }

  // ----- reading the stored attributes -----

  ghost predicate IsElement(e: Bytes) {
    exists tag: byte, body: Bytes :: |body| < Der.SIZE_MAX_PLUS_ONE && e == Der.Tagged(tag, body)
  }

  ghost predicate Elements(items: seq<Bytes>) { forall e :: e in items ==> IsElement(e) }

  /** The elements at the front of `s`, one after the other. */
  function ReadAll(s: Bytes): seq<Bytes> {
    match Der.ReadElement(s)
    case None => []
    case Some((tag, body, rest)) => if |rest| < |s| then [s[..|s| - |rest|]] + ReadAll(rest) else []
  }

  lemma {:induction false} ConcatCons(e: Bytes, items: seq<Bytes>)
    ensures Concat([e] + items) == e + Concat(items)
  {
    if items == [] {
      assert [e] + items == [e];
      assert Concat([e]) == Concat([]) + e;
    } else {
      var n := |items| - 1;
      assert ([e] + items)[..n + 1] == [e] + items[..n];
      ConcatCons(e, items[..n]);
    }
  }

  /** The elements of a concatenation are found again, in order. */
  lemma {:induction false} ElementsRead(items: seq<Bytes>)
    requires Elements(items)
    ensures ReadAll(Concat(items)) == items
  {
    if items != [] {
      var e, rest := items[0], items[1..];
      assert items == [e] + rest;
      assert IsElement(e);
      var tag: byte, body: Bytes :| |body| < Der.SIZE_MAX_PLUS_ONE && e == Der.Tagged(tag, body);
      ElementsRead(rest);
      ConcatCons(e, rest);
      Der.TaggedReads(tag, body, Concat(rest));
      hide Der.ReadElement, Der.Tagged, Concat;
      FirstElement(e, Concat(rest), tag, body);
    }
  }

  lemma FirstElement(e: Bytes, rest: Bytes, tag: byte, body: Bytes)
    requires |body| < Der.SIZE_MAX_PLUS_ONE && e == Der.Tagged(tag, body)
    requires Der.ReadElement(e + rest) == Some((tag, body, rest))
    ensures ReadAll(e + rest) == [e] + ReadAll(rest)
  {
    assert |e| > 0;
    hide Der.ReadElement, Der.Tagged;
    assert (e + rest)[..|e|] == e;
  }

  // ----- what signer and verifier agree on -----

  /** The verifier's input equals the signer's exactly when it found the same attributes, in whatever order. */
  lemma SameInputSameAttributes(signed: seq<Bytes>, found: seq<Bytes>, input: Bytes, field: Bytes, input': Bytes, field': Bytes)
    requires Elements(signed) && Elements(found)
    requires Signs(signed, input, field) && Signs(found, input', field')
    ensures input == input' <==> multiset(signed) == multiset(found)
    ensures multiset(signed) == multiset(found) ==> field == field'
  {
    var s :| SortedForm(s, signed) && |Concat(s)| < Der.SIZE_MAX_PLUS_ONE
      && input == Der.Tagged(0x31, Concat(s)) && field == Der.Tagged(0xa0, Concat(s));
    var t :| SortedForm(t, found) && |Concat(t)| < Der.SIZE_MAX_PLUS_ONE
      && input' == Der.Tagged(0x31, Concat(t)) && field' == Der.Tagged(0xa0, Concat(t));
    hide Der.Tagged, Der.ReadElement, Concat;
    if multiset(signed) == multiset(found) {
      SortedFormUnique(s, t);
    }
    if input == input' {
      Der.TaggedReads(0x31, Concat(s), []);
      Der.TaggedReads(0x31, Concat(t), []);
      assert Concat(s) == Concat(t);
      ElementsOfForm(s, signed);
      ElementsOfForm(t, found);
      ElementsRead(s);
      ElementsRead(t);
    }
  }

  lemma ElementsOfForm(s: seq<Bytes>, items: seq<Bytes>)
    requires SortedForm(s, items) && Elements(items)
    ensures Elements(s)
  {
    forall e | e in s ensures IsElement(e) { SameElements(s, items, e); }
  }

  lemma Retagged(t: byte, u: byte, body: Bytes)
    requires |body| < Der.SIZE_MAX_PLUS_ONE
    ensures var a, b := Der.Tagged(t, body), Der.Tagged(u, body);
      |a| == |b| && a[0] == t && b[0] == u && a[1..] == b[1..]
  {
    hide Der.Length;
    assert Der.Tagged(t, body)[1..] == Der.Length(|body|) + body == Der.Tagged(u, body)[1..];
  }

  /** The stored field is the signed input with another tag, reads back as the attributes it was made of, and has
      them in the order prescribed for SET OF (section 5.4 of RFC 5652). */
  lemma FieldIsRetaggedInput(items: seq<Bytes>, input: Bytes, field: Bytes) returns (sorted: seq<Bytes>)
    requires Elements(items) && Signs(items, input, field)
    ensures |field| == |input| && field[0] == 0xa0 && input[0] == 0x31 && field[1..] == input[1..]
    ensures multiset(sorted) == multiset(items)
    ensures Der.ReadElement(field) == Some((0xa0, Concat(sorted), []))
    ensures ReadAll(Concat(sorted)) == sorted
    ensures forall i, j :: 0 <= i < j < |sorted| ==> PaddedLeq(sorted[i], sorted[j])
  {
    sorted :| SortedForm(sorted, items) && |Concat(sorted)| < Der.SIZE_MAX_PLUS_ONE
      && input == Der.Tagged(0x31, Concat(sorted)) && field == Der.Tagged(0xa0, Concat(sorted));
    hide Concat, Der.Tagged, Der.ReadElement, IsElement, Leq, PaddedLeq, ReadAll;
    ElementsOfForm(sorted, items);
    ElementsRead(sorted);
    Retagged(0x31, 0xa0, Concat(sorted));
    Der.TaggedReads(0xa0, Concat(sorted), []);
    assert field + [] == field;
    forall i, j | 0 <= i < j < |sorted| ensures PaddedLeq(sorted[i], sorted[j]) { LeqIsPadded(sorted[i], sorted[j]); }
  }
}
