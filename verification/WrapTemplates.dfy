/** Wrap and unwrap templates come back as they were stored: `P11AttrWrapTemplate::updateAttr` against
    `retrieveAttributeMap` of P11Attributes.cpp. */
module WrapTemplates {
  import opened Octets
  import opened Cryptoki
  import opened Attributes
  import opened Retrieval
  import opened Readback
  import opened Wrappers

  /** `a` is the first element of its type, the one that counts. */
  predicate Leads(items: Template, a: Attribute) {
    exists i :: 0 <= i < |items| && items[i] == a && forall j :: 0 <= j < i ==> items[j].typ != a.typ
  }

  /** The bytes of an element, a truth value being normalised to 0 or 1. */
  function Normal(a: Attribute): Bytes {
    if IsTemplateFlag(a.typ) then [if ReadFlag(a.value, a.len) then 1 else 0] else Read(a.value, a.len)
  }

  function Types(items: Template): set<nat> { set a | a in items :: a.typ }

  /** The elements were stored under their types with their normalised bytes, the first of each type. */
  ghost predicate Holds(entries: map<nat, Stored>, items: Template) {
    entries.Keys == Types(items) && forall a :: Leads(items, a) ==> a.typ in entries && NestedBytes(entries[a.typ]) == Some(Normal(a))
  }

  lemma NestedValueBytes(a: Attribute)
    requires Backed(a) && NestedValue(a).Some?
    ensures NestedBytes(NestedValue(a).value) == Some(Normal(a))
  {
    if !IsTemplateFlag(a.typ) && IsTemplateNumber(a.typ) {
      LittleRoundTrip(Read(a.value, a.len));
    }
  }

  lemma LeadsSnoc(front: Template, last: Attribute, a: Attribute)
    requires Leads(front + [last], a)
    ensures Leads(front, a) || (a == last && last.typ !in Types(front))
  {
    var items := front + [last];
    var i :| 0 <= i < |items| && items[i] == a && forall j :: 0 <= j < i ==> items[j].typ != a.typ;
    if i < |front| {
      assert front[i] == a && forall j :: 0 <= j < i ==> front[j] == items[j];
    } else {
      forall b | b in front ensures b.typ != a.typ {
        var j :| 0 <= j < |front| && front[j] == b;
        assert items[j] == b;
      }
    }
  }

  lemma {:induction false} TypeLeads(items: Template, t: nat)
    requires t in Types(items)
    ensures exists a :: Leads(items, a) && a.typ == t
  {
    var front, last := items[..|items| - 1], items[|items| - 1];
    assert items == front + [last];
    if t in Types(front) {
      TypeLeads(front, t);
      var a :| Leads(front, a) && a.typ == t;
      var i :| 0 <= i < |front| && front[i] == a && forall j :: 0 <= j < i ==> front[j].typ != a.typ;
      assert items[i] == a && forall j :: 0 <= j < i ==> items[j] == front[j];
      assert Leads(items, a);
    } else {
      forall j | 0 <= j < |front| ensures items[j].typ != t { assert items[j] == front[j] && front[j] in front; }
      assert items[|front|] == last && last.typ == t;
      assert Leads(items, last);
    }
  }

  lemma HoldsSnoc(before: map<nat, Stored>, front: Template, last: Attribute, v: Stored)
    requires Holds(before, front) && NestedBytes(v) == Some(Normal(last))
    ensures Holds(Insert(before, last.typ, v), front + [last])
  {
    hide Normal, NestedBytes, Leads;
    var items := front + [last];
    forall a ensures a in items <==> a in front || a == last {
    }
    assert Types(items) == Types(front) + {last.typ};
    forall a | Leads(items, a)
      ensures var entries := Insert(before, last.typ, v); a.typ in entries && NestedBytes(entries[a.typ]) == Some(Normal(a))
    {
      LeadsSnoc(front, last, a);
    }
  }

  /** An accepted template is stored element by element; of two elements of one type the first is kept. */
  lemma {:induction false} StoredElements(items: Template)
    requires NestedMap(items).Some?
    requires forall a :: a in items ==> Backed(a)
    ensures Holds(NestedMap(items).value, items)
  {
    if items != [] {
      var front, last := items[..|items| - 1], items[|items| - 1];
      assert items == front + [last];
      hide Normal, NestedBytes, NestedValue, Backed, Holds, Types, Insert;
      StoredElements(front);
      NestedValueBytes(last);
      HoldsSnoc(NestedMap(front).value, front, last, NestedValue(last).value);
    } else {
      forall a ensures !Leads(items, a) {
      }
    }
  }

  /** A template is accepted when each element is: a truth value of one byte, a number of eight, or a byte string, and
      no template within a template. */
  lemma {:induction false} AcceptedExactly(items: Template)
    ensures NestedMap(items).Some? <==> forall a :: a in items ==>
      if IsTemplateFlag(a.typ) then a.len == 1
      else if IsTemplateNumber(a.typ) then a.len == 8
      else a.typ != CKA_WRAP_TEMPLATE && a.typ != CKA_UNWRAP_TEMPLATE
  {
    hide IsTemplateFlag, IsTemplateNumber;
    if items != [] {
      AcceptedExactly(items[..|items| - 1]);
      assert items == items[..|items| - 1] + [items[|items| - 1]];
    }
  }

  lemma {:induction false} SizePass(entries: map<nat, Stored>, keys: seq<nat>, items: Template, n: nat)
    requires n <= |items| && n <= |keys|
    requires forall k :: k in keys ==> k in entries && NestedBytes(entries[k]).Some?
    ensures var f := Pass(entries, keys, true, items, n);
      && f.rv.OK? && (forall i :: n <= i < |items| ==> f.items[i] == items[i])
      && forall i :: 0 <= i < n ==> f.items[i] == items[i].(typ := keys[i], len := |NestedBytes(entries[keys[i]]).value|)
  {
    hide NestedBytes;
    if n > 0 { SizePass(entries, keys, items, n - 1); }
  }

  lemma {:induction false} ValuePass(entries: map<nat, Stored>, keys: seq<nat>, items: Template, n: nat)
    requires n <= |items| && n <= |keys| && forall k :: k in keys ==> k in entries
    requires forall i :: 0 <= i < n ==> ValueSlot(entries, items[i]).0.OK?
    ensures var f := Pass(entries, keys, false, items, n);
      && f.rv.OK? && (forall i :: n <= i < |items| ==> f.items[i] == items[i])
      && forall i :: 0 <= i < n ==> f.items[i] == ValueSlot(entries, items[i]).1
  {
    hide ValueSlot;
    if n > 0 { ValuePass(entries, keys, items, n - 1); }
  }

  /** A caller's slot with room for the value of the stored element of its type. */
  ghost predicate Takes(slot: Attribute, items: Template) {
    && slot.value.Octets? && slot.len <= |slot.value.bytes|
    && exists a :: Leads(items, a) && a.typ == slot.typ && |Normal(a)| <= slot.len
  }

  ghost predicate ShowsSize(out: Attribute, items: Template) {
    exists a :: Leads(items, a) && out == Attribute(a.typ, Null, |Normal(a)|)
  }

  /** The slot holds the element's value, followed by whatever the buffer held beyond it. */
  ghost predicate ShowsValue(slot: Attribute, out: Attribute, items: Template) {
    exists a :: Leads(items, a) && out == Attribute(slot.typ, Fill(slot.value, Normal(a)), |Normal(a)|) && a.typ == slot.typ
  }

  predicate ByType(items: Template) { forall i, j :: 0 <= i < j < |items| ==> items[i].typ < items[j].typ }

  lemma SizedSlot(items: Template, entries: map<nat, Stored>, k: nat, out: Attribute)
    requires Holds(entries, items) && k in entries && NestedBytes(entries[k]).Some?
    requires out == Attribute(k, Null, |NestedBytes(entries[k]).value|)
    ensures ShowsSize(out, items)
  {
    hide Normal, NestedBytes, Leads;
    TypeLeads(items, k);
    var a :| Leads(items, a) && a.typ == k;
    assert out == Attribute(a.typ, Null, |Normal(a)|);
  }

  lemma HeldBytes(items: Template, entries: map<nat, Stored>, k: nat)
    requires Holds(entries, items) && k in entries
    ensures NestedBytes(entries[k]).Some?
  {
    hide Normal, NestedBytes, Leads;
    TypeLeads(items, k);
    var a :| Leads(items, a) && a.typ == k;
  }

  lemma SizesReadBack(items: Template, entries: map<nat, Stored>, slots: Template)
    requires Holds(entries, items) && |slots| == |Types(items)| && AllNull(slots, |slots|)
    ensures var f := RetrieveMap(entries, slots);
      f.rv == OK && ByType(f.items) && forall i :: 0 <= i < |slots| ==> ShowsSize(f.items[i], items)
  {
    var keys, n := Sorted(entries.Keys), |slots|;
    assert |keys| == n && |entries.Keys| == |entries| && Lists(keys, entries.Keys);
    hide Holds, Normal, NestedBytes, Leads, Pass, ShowsSize, Sorted;
    forall k | k in keys ensures k in entries && NestedBytes(entries[k]).Some? { HeldBytes(items, entries, k); }
    SizePass(entries, keys, slots, n);
    var f := RetrieveMap(entries, slots);
    assert f == Pass(entries, keys, true, slots, n);
    forall i | 0 <= i < n ensures ShowsSize(f.items[i], items) {
      assert keys[i] in keys;
      SizedSlot(items, entries, keys[i], f.items[i]);
    }
  }

  lemma TakenSlot(items: Template, entries: map<nat, Stored>, slot: Attribute)
    requires Holds(entries, items) && Takes(slot, items)
    ensures ValueSlot(entries, slot).0.OK? && ShowsValue(slot, ValueSlot(entries, slot).1, items)
  {
    hide Normal, NestedBytes, Fill;
    var a :| Leads(items, a) && a.typ == slot.typ && |Normal(a)| <= slot.len;
  }

  lemma ValuesReadBack(items: Template, entries: map<nat, Stored>, slots: Template)
    requires Holds(entries, items) && |slots| == |Types(items)|
    requires forall i :: 0 <= i < |slots| ==> Takes(slots[i], items)
    ensures var f := RetrieveMap(entries, slots);
      f.rv == OK && forall i :: 0 <= i < |slots| ==> ShowsValue(slots[i], f.items[i], items)
  {
    hide Pass, ValueSlot, ShowsValue;
    forall i | 0 <= i < |slots| { TakenSlot(items, entries, slots[i]); }
    if slots != [] {
      assert Takes(slots[0], items);
      ValuePass(entries, Sorted(entries.Keys), slots, |entries|);
    } else {
      SizePass(entries, Sorted(entries.Keys), slots, 0);
    }
  }

  lemma RetrieveNested(tok: Token, isPrivate: bool, t: nat, s: Store, slots: Template)
    requires t == CKA_WRAP_TEMPLATE || t == CKA_UNWRAP_TEMPLATE
    requires t in s && s[t].Nested? && |s[t].entries| == |slots|
    ensures var size := |slots| * SIZEOF_CK_ATTRIBUTE;
      var f := RetrieveMap(s[t].entries, slots);
      && Retrieve(tok, isPrivate, {}, s, Attribute(t, Null, 0)) == Reply(OK, Null, size)
      && Retrieve(tok, isPrivate, {}, s, Attribute(t, Structs(slots), size)) == Reply(f.rv, Structs(f.items), size)
  {
    hide Retrieve, Extent, RetrieveMap;
    var entries := s[t].entries;
    var size := |slots| * SIZEOF_CK_ATTRIBUTE;
    NestedExtent(tok, isPrivate, t, entries);
    assert s[t] == Nested(entries);
    RetrieveStored(tok, isPrivate, {}, s, Attribute(t, Null, 0), size);
    RetrieveStored(tok, isPrivate, {}, s, Attribute(t, Structs(slots), size), size);
  }

  lemma NestedExtent(tok: Token, isPrivate: bool, t: nat, entries: map<nat, Stored>)
    requires t == CKA_WRAP_TEMPLATE || t == CKA_UNWRAP_TEMPLATE
    ensures Extent(tok, isPrivate, t, Nested(entries)) == Some(|entries| * SIZEOF_CK_ATTRIBUTE)
  {
  }

  lemma StoredTemplate(t: nat, items: Template, s: Store)
    requires forall a :: a in items ==> Backed(a)
    requires StoreTemplate(t, Structs(items), |items| * SIZEOF_CK_ATTRIBUTE, s).rv.OK?
    ensures var s' := StoreTemplate(t, Structs(items), |items| * SIZEOF_CK_ATTRIBUTE, s).store;
      t in s' && s'[t].Nested? && Holds(s'[t].entries, items)
  {
    hide NestedMap, Backed, Normal, NestedBytes, Holds;
    var n := |items|;
    assert n * SIZEOF_CK_ATTRIBUTE % SIZEOF_CK_ATTRIBUTE == 0 && n * SIZEOF_CK_ATTRIBUTE / SIZEOF_CK_ATTRIBUTE == n;
    assert ReadItems(Structs(items), n) == items;
    StoredElements(items);
  }

  /** A stored wrap template, read through `retrieve`: its size; the types of its elements, each once and ascending,
      with the lengths of the first element of each; and the values of those, in whatever order and number the caller asks
      for them. */
  lemma WrapTemplateRoundTrip(tok: Token, isPrivate: bool, items: Template, t: nat, s: Store, slots: Template)
    requires t == CKA_WRAP_TEMPLATE || t == CKA_UNWRAP_TEMPLATE
    requires forall a :: a in items ==> Backed(a)
    requires |slots| == |Types(items)|
    requires StoreTemplate(t, Structs(items), |items| * SIZEOF_CK_ATTRIBUTE, s).rv.OK?
    ensures var s' := StoreTemplate(t, Structs(items), |items| * SIZEOF_CK_ATTRIBUTE, s).store;
      var size := |slots| * SIZEOF_CK_ATTRIBUTE;
      var reply := Retrieve(tok, isPrivate, {}, s', Attribute(t, Structs(slots), size));
      && Retrieve(tok, isPrivate, {}, s', Attribute(t, Null, 0)) == Reply(OK, Null, size)
      && reply.len == size && reply.value.Structs? && |reply.value.items| == |slots|
      && (AllNull(slots, |slots|) ==>
            && reply.rv == OK && ByType(reply.value.items)
            && forall i :: 0 <= i < |slots| ==> ShowsSize(reply.value.items[i], items))
      && ((forall i :: 0 <= i < |slots| ==> Takes(slots[i], items)) ==>
            reply.rv == OK && forall i :: 0 <= i < |slots| ==> ShowsValue(slots[i], reply.value.items[i], items))
  {
    hide RetrieveMap, Retrieve, StoreTemplate, ShowsSize, ShowsValue, Takes, ByType, Backed;
    StoredTemplate(t, items, s);
    var s' := StoreTemplate(t, Structs(items), |items| * SIZEOF_CK_ATTRIBUTE, s).store;
    RetrieveNested(tok, isPrivate, t, s', slots);
    if AllNull(slots, |slots|) { SizesReadBack(items, s'[t].entries, slots); }
    if forall i :: 0 <= i < |slots| ==> Takes(slots[i], items) { ValuesReadBack(items, s'[t].entries, slots); }
  }
}
