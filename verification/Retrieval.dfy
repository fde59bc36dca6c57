/** Reading attributes back: `P11Attribute::retrieve`, `readStored` and `retrieveAttributeMap` of
    P11Attributes.cpp, `loadTemplate` of P11Objects.cpp. */
module Retrieval {
  import opened Octets
  import opened Cryptoki
  import opened Attributes
  import opened Objects
  import opened Policy
  import opened Wrappers

  const CK_UNAVAILABLE_INFORMATION := 0xFFFF_FFFF_FFFF_FFFF

  /** The answer to one entry: the code, the caller's memory and the `ulValueLen` left behind. */
  datatype Reply = Reply(rv: RV, value: Memory, len: nat)

  // ----- ascending order, in which ordered sets and maps are walked -----

  ghost predicate Ascending(xs: seq<nat>) { forall i, j :: 0 <= i < j < |xs| ==> xs[i] < xs[j] }

  ghost predicate Lists(xs: seq<nat>, s: set<nat>) { Ascending(xs) && forall x :: x in xs <==> x in s }

  predicate Least(m: nat, s: set<nat>) { m in s && forall x :: x in s ==> m <= x }

  lemma HasLeast(s: set<nat>)
    requires s != {}
    ensures exists m :: Least(m, s)
    decreases |s|
  {
    var m :| m in s;
    var rest := s - {m};
    if rest == {} {
      assert s == {m};
      assert Least(m, s);
    } else {
      HasLeast(rest);
      var least :| Least(least, rest);
      assert forall x :: x in s ==> x == m || x in rest;
      assert Least(if least < m then least else m, s);
    }
  }

  /** The elements of `s` in ascending order. */
  ghost function Sorted(s: set<nat>): (xs: seq<nat>)
    ensures Lists(xs, s) && |xs| == |s|
    decreases |s|
  {
    if s == {} then []
    else
      HasLeast(s);
      var m :| Least(m, s);
      [m] + Sorted(s - {m})
  }

  lemma {:induction false} ListsUnique(xs: seq<nat>, ys: seq<nat>, s: set<nat>)
    requires Lists(xs, s) && Lists(ys, s)
    ensures xs == ys
    decreases |xs|
  {
    hide Lists, Least;
    EmptyLists(xs, s);
    EmptyLists(ys, s);
    if s != {} {
      HeadIsLeast(xs, s);
      HeadIsLeast(ys, s);
      SameLeast(xs[0], ys[0], s);
      TailLists(xs, s);
      TailLists(ys, s);
      ListsUnique(xs[1..], ys[1..], s - {xs[0]});
      assert xs == [xs[0]] + xs[1..] && ys == [ys[0]] + ys[1..];
    }
  }

  lemma EmptyLists(xs: seq<nat>, s: set<nat>)
    requires Lists(xs, s)
    ensures xs == [] <==> s == {}
  {
    if xs != [] { HeadIsLeast(xs, s); }
    if s != {} {
      var x :| x in s;
      assert x in xs;
    }
  }

  lemma SameLeast(x: nat, y: nat, s: set<nat>)
    requires Least(x, s) && Least(y, s)
    ensures x == y
  {
  }

  lemma HeadIsLeast(xs: seq<nat>, s: set<nat>)
    requires Lists(xs, s) && xs != []
    ensures Least(xs[0], s)
  {
    assert xs[0] in xs;
  }

  lemma TailLists(xs: seq<nat>, s: set<nat>)
    requires Lists(xs, s) && xs != []
    ensures Lists(xs[1..], s - {xs[0]})
  {
    assert xs == [xs[0]] + xs[1..];
  }

  /** Walking an ordered set. */
  method Walk(s: set<nat>) returns (xs: seq<nat>)
    ensures xs == Sorted(s)
  {
    xs := [];
    var rest := s;
    while rest != {}
      invariant rest <= s && Lists(xs, s - rest)
      invariant forall i, y :: 0 <= i < |xs| && y in rest ==> xs[i] < y
      decreases |rest|
    {
      HasLeast(rest);
      var m :| Least(m, rest);
      xs := xs + [m];
      rest := rest - {m};
    }
    assert s - rest == s;
    ListsUnique(xs, Sorted(s), s);
  }

  // ----- nested templates -----

  datatype Filled = Filled(rv: RV, items: Template)

  /** The bytes of one element of a wrap template, for the types such an element can have. */
  function NestedBytes(v: Stored): Option<Bytes> {
    match v
    case Flag(on) => Some([if on then 1 else 0])
    case Number(n) => Some(LittleBytes(n, SIZEOF_CK_ULONG))
    case Text(b) => Some(b)
    case _ => None
  }

  function SizeSlot(entries: map<nat, Stored>, k: nat, a: Attribute): (RV, Attribute)
    requires k in entries
  {
    match NestedBytes(entries[k])
    case None => (GeneralError, a.(typ := k))
    case Some(b) => (OK, a.(typ := k, len := |b|))
  }

  function ValueSlot(entries: map<nat, Stored>, a: Attribute): (RV, Attribute) {
    if a.typ !in entries then (TypeInvalid, a.(len := CK_UNAVAILABLE_INFORMATION))
    else
      match NestedBytes(entries[a.typ])
      case None => (GeneralError, a)
      case Some(b) =>
        if a.len < |b| then (BufferTooSmall, a.(len := CK_UNAVAILABLE_INFORMATION))
        else (OK, a.(value := Fill(a.value, b), len := |b|))
  }

  /** The first `n` slots of a pass, up to the first that fails. */
  function Pass(entries: map<nat, Stored>, keys: seq<nat>, sizes: bool, items: Template, n: nat): (f: Filled)
    requires n <= |items| && n <= |keys| && forall k :: k in keys ==> k in entries
    ensures |f.items| == |items|
  {
    if n == 0 then Filled(OK, items)
    else
      var before := Pass(entries, keys, sizes, items, n - 1);
      if !before.rv.OK? then before
      else
        var (rv, a) := if sizes then SizeSlot(entries, keys[n - 1], items[n - 1]) else ValueSlot(entries, items[n - 1]);
        Filled(rv, before.items[n - 1 := a])
  }

  predicate AllNull(items: Template, n: nat)
    requires n <= |items|
  {
    forall i :: 0 <= i < n ==> items[i].value.Null?
  }

  ghost function RetrieveMap(entries: map<nat, Stored>, items: Template): (f: Filled)
    requires |entries| <= |items|
    ensures |f.items| == |items|
  {
    Pass(entries, Sorted(entries.Keys), AllNull(items, |entries|), items, |entries|)
  }

  lemma {:induction false} PassStops(entries: map<nat, Stored>, keys: seq<nat>, sizes: bool, items: Template, k: nat, n: nat)
    requires k <= n <= |items| && n <= |keys| && forall k :: k in keys ==> k in entries
    requires !Pass(entries, keys, sizes, items, k).rv.OK?
    ensures Pass(entries, keys, sizes, items, n) == Pass(entries, keys, sizes, items, k)
  {
    if k < n { PassStops(entries, keys, sizes, items, k, n - 1); }
  }

  method FillSlots(entries: map<nat, Stored>, keys: seq<nat>, sizes: bool, items: Template)
    returns (rv: RV, out: Template)
    requires |keys| <= |items| && forall k :: k in keys ==> k in entries
    ensures Filled(rv, out) == Pass(entries, keys, sizes, items, |keys|)
  {
    hide SizeSlot, ValueSlot;
    out := items;
    for i := 0 to |keys|
      invariant |out| == |items| && Filled(OK, out) == Pass(entries, keys, sizes, items, i)
      invariant forall j :: i <= j < |items| ==> out[j] == items[j]
    {
      var (code, a) := if sizes then SizeSlot(entries, keys[i], out[i]) else ValueSlot(entries, out[i]);
      out := out[i := a];
      if !code.OK? {
        PassStops(entries, keys, sizes, items, i + 1, |keys|);
        return code, out;
      }
    }
    return OK, out;
  }

  /** The size of one element: a byte for a flag, eight for a number, and the bytes of a byte string. */
  function ElementSize(v: Stored): Option<nat> {
    match v
    case Flag(_) => Some(1)
    case Number(_) => Some(8)
    case Text(b) => Some(|b|)
    case _ => None
  }

  /** The memory after a value of `n` bytes was written to its start. */
  predicate Overwritten(m: Memory, m': Memory, n: nat) {
    match m
    case Octets(b) =>
      n <= |b| ==> m'.Octets? && |m'.bytes| == |b| && forall i :: n <= i < |b| ==> m'.bytes[i] == b[i]
    case _ => m' == m
  }

  /** A slot that names a stored element with room for it. */
  predicate Roomy(entries: map<nat, Stored>, a: Attribute) {
    a.typ in entries && ElementSize(entries[a.typ]).Some? && ElementSize(entries[a.typ]).value <= a.len
  }

  /** Such a slot gets the element and its exact length, and no byte behind it changes. */
  predicate Served(entries: map<nat, Stored>, a: Attribute, b: Attribute)
    requires Roomy(entries, a)
  {
    b.typ == a.typ && b.len == ElementSize(entries[a.typ]).value && Overwritten(a.value, b.value, b.len)
  }

  /** The first slot that cannot be served: its memory stays as it is and its length says why. */
  predicate TurnedAway(entries: map<nat, Stored>, a: Attribute, b: Attribute, rv: RV) {
    if a.typ !in entries then rv == TypeInvalid && b == a.(len := 0xFFFF_FFFF_FFFF_FFFF)
    else if ElementSize(entries[a.typ]).None? then rv == GeneralError && b == a
    else a.len < ElementSize(entries[a.typ]).value && rv == BufferTooSmall && b == a.(len := 0xFFFF_FFFF_FFFF_FFFF)
  }

  predicate ServedUpTo(entries: map<nat, Stored>, items: Template, out: Template, k: nat)
    requires k <= |items| == |out|
  {
    && (forall j :: 0 <= j < k ==> Roomy(entries, items[j]) && Served(entries, items[j], out[j]))
    && (forall j :: k < j < |items| ==> out[j] == items[j])
  }

  /** What becomes of the slots when values are asked for: all are served, or all up to one that is turned away, and
      those behind it are as they were. */
  predicate SlotsServed(entries: map<nat, Stored>, items: Template, rv: RV, out: Template) {
    && |out| == |items| && |entries| <= |items|
    && if rv == OK then ServedUpTo(entries, items, out, |entries|) && (forall j :: |entries| <= j < |items| ==> out[j] == items[j])
       else exists k :: 0 <= k < |entries| && ServedUpTo(entries, items, out, k) && TurnedAway(entries, items[k], out[k], rv)
  }

  lemma ValueSlotServes(entries: map<nat, Stored>, a: Attribute)
    ensures var (rv, b) := ValueSlot(entries, a);
      if Roomy(entries, a) then rv == OK && Served(entries, a, b) else TurnedAway(entries, a, b, rv)
  {
    assert |LittleBytes(0, 8)| == 8;
  }

  lemma {:induction false} PassServes(entries: map<nat, Stored>, keys: seq<nat>, items: Template, n: nat)
    requires n <= |items| && n <= |keys| && forall k :: k in keys ==> k in entries
    ensures var f := Pass(entries, keys, false, items, n);
      if f.rv == OK then ServedUpTo(entries, items, f.items, n) && (forall j :: n <= j < |items| ==> f.items[j] == items[j])
      else exists k :: 0 <= k < n && ServedUpTo(entries, items, f.items, k) && TurnedAway(entries, items[k], f.items[k], f.rv)
  {
    hide Roomy, Served, TurnedAway, ValueSlot, SizeSlot;
    if n > 0 {
      PassServes(entries, keys, items, n - 1);
      ValueSlotServes(entries, items[n - 1]);
      var before, after := Pass(entries, keys, false, items, n - 1), Pass(entries, keys, false, items, n);
      if before.rv == OK {
        assert after.items == before.items[n - 1 := ValueSlot(entries, items[n - 1]).1];
        if after.rv != OK {
          assert ServedUpTo(entries, items, after.items, n - 1);
          assert TurnedAway(entries, items[n - 1], after.items[n - 1], after.rv);
        }
      }
    }
  }

  /** When only sizes are asked for, memory is left alone. */
  lemma {:induction false} PassSizes(entries: map<nat, Stored>, keys: seq<nat>, items: Template, n: nat)
    requires n <= |items| && n <= |keys| && forall k :: k in keys ==> k in entries
    ensures var f := Pass(entries, keys, true, items, n);
      && (forall j :: 0 <= j < |items| ==> f.items[j].value == items[j].value)
      && (forall j :: n <= j < |items| ==> f.items[j] == items[j])
      && (f.rv == OK ==> forall j :: 0 <= j < n ==>
            f.items[j].typ == keys[j] && keys[j] in entries && Some(f.items[j].len) == ElementSize(entries[keys[j]]))
      && (f.rv == OK || f.rv == GeneralError)
  {
    assert |LittleBytes(0, 8)| == 8;
    if n > 0 {
      PassSizes(entries, keys, items, n - 1);
      assert keys[n - 1] in keys;
    }
  }

  method RetrieveAttributeMap(entries: map<nat, Stored>, items: Template) returns (rv: RV, out: Template)
    requires |entries| <= |items|
    ensures Filled(rv, out) == RetrieveMap(entries, items)
    ensures AllNull(items, |entries|) ==> rv == OK || rv == GeneralError
    ensures !AllNull(items, |entries|) ==> SlotsServed(entries, items, rv, out)
  {
    hide Pass, SlotsServed, Ascending;
    MapServes(entries, items);
    var nulls := 0;
    for i := 0 to |entries|
      invariant 0 <= nulls <= i && (nulls == i <==> AllNull(items, i))
    {
      if items[i].value.Null? { nulls := nulls + 1; }
    }
    var keys := Walk(entries.Keys);
    rv, out := FillSlots(entries, keys, nulls == |entries|, items);
  }

  /** What the slots of a nested template get. */
  lemma MapServes(entries: map<nat, Stored>, items: Template)
    requires |entries| <= |items|
    ensures var f := RetrieveMap(entries, items);
      && |f.items| == |items|
      && (AllNull(items, |entries|) ==> f.rv == OK || f.rv == GeneralError)
      && (AllNull(items, |entries|) ==> forall j :: 0 <= j < |items| ==> f.items[j].value == items[j].value)
      && (AllNull(items, |entries|) ==> forall j :: |entries| <= j < |items| ==> f.items[j] == items[j])
      && (!AllNull(items, |entries|) ==> SlotsServed(entries, items, f.rv, f.items))
  {
    hide Pass, Roomy, Served, TurnedAway, Sorted;
    var keys := Sorted(entries.Keys);
    assert |entries.Keys| == |entries|;
    if AllNull(items, |entries|) { PassSizes(entries, keys, items, |entries|); } else { PassServes(entries, keys, items, |entries|); }
  }

  // ----- one attribute -----

  /** The byte string behind a stored value.  Dates that earlier builds stored in the clear on private objects
      are told from ciphertext by their size. */
  function Plain(tok: Token, isPrivate: bool, t: nat, stored: Bytes): Option<Bytes> {
    if !isPrivate || stored == [] then Some(stored)
    else if KindOf(t).Date? && |stored| == SIZEOF_CK_DATE then Some(stored)
    else tok.decrypt(stored)
  }

  function Extent(tok: Token, isPrivate: bool, t: nat, v: Stored): Option<nat> {
    if SizeOf(t).Some? then SizeOf(t)
    else
      match v
      case Text(b) =>
        (match Plain(tok, isPrivate, t, b)
         case None => None
         case Some(plain) => Some(|plain|))
      case Mechs(ms) => Some(|ms| * SIZEOF_CK_ULONG)
      case Nested(entries) => Some(|entries| * SIZEOF_CK_ATTRIBUTE)
      case _ => None
  }

  function WordList(xs: seq<nat>): Bytes {
    if xs == [] then [] else WordList(xs[..|xs| - 1]) + LittleBytes(xs[|xs| - 1], SIZEOF_CK_ULONG)
  }

  /** Copying a value into memory that is large enough for it. */
  ghost function Copied(tok: Token, isPrivate: bool, t: nat, v: Stored, m: Memory): (RV, Memory) {
    match v
    case Flag(on) => (OK, Fill(m, [if on then 1 else 0]))
    case Number(n) => (OK, Fill(m, LittleBytes(n, SIZEOF_CK_ULONG)))
    case Text(b) =>
      (match Plain(tok, isPrivate, t, b)
       case None => (GeneralError, m)
       case Some(plain) => (OK, Fill(m, plain)))
    case Mechs(ms) => (OK, Fill(m, WordList(Sorted(ms))))
    case Nested(entries) =>
      if m.Structs? && |entries| <= |m.items| then
        var f := RetrieveMap(entries, m.items);
        (f.rv, Structs(f.items))
      else
        (GeneralError, m)
  }

  ghost function Retrieve(tok: Token, isPrivate: bool, checks: set<Check>, s: Store, a: Attribute): Reply {
    if Ck7 in checks && (IsSensitive(s) || !IsExtractable(s)) then Reply(Sensitive, a.value, CK_UNAVAILABLE_INFORMATION)
    else if a.typ !in s then Reply(GeneralError, a.value, a.len)
    else
      match Extent(tok, isPrivate, a.typ, s[a.typ])
      case None => Reply(GeneralError, a.value, a.len)
      case Some(size) =>
        if a.value.Null? then Reply(OK, Null, size)
        else if a.len < size then Reply(BufferTooSmall, a.value, CK_UNAVAILABLE_INFORMATION)
        else
          var (rv, m) := Copied(tok, isPrivate, a.typ, s[a.typ], a.value);
          if s[a.typ].Text? && !rv.OK? then Reply(rv, m, a.len) else Reply(rv, m, size)
  }

  // ----- what a caller can rely on -----

  /** The exact length of a stored value: 1 for a truth value, 8 for a number, 8 for each mechanism and 24 for each element
      of a nested template, and the length of what a byte string opens to. */
  function ExactSize(tok: Token, isPrivate: bool, t: nat, v: Stored): Option<nat> {
    match v
    case Flag(_) => Some(1)
    case Number(_) => Some(8)
    case Mechs(ms) => Some(8 * |ms|)
    case Nested(entries) => Some(24 * |entries|)
    case Text(b) => if Plain(tok, isPrivate, t, b).None? then None else Some(|Plain(tok, isPrivate, t, b).value|)
  }

  /** No byte at or behind the stated length changes, in the memory or in that of the slots of a nested template. */
  predicate Bounded(m: Memory, m': Memory, len: nat) {
    match m
    case Structs(items) =>
      && m'.Structs? && |m'.items| == |items|
      && (forall j :: 0 <= j < |items| && 24 * j >= len ==> m'.items[j] == items[j])
      && (forall j :: 0 <= j < |items| ==>
            m'.items[j].value == items[j].value || Overwritten(items[j].value, m'.items[j].value, items[j].len))
    case _ => m' == m || Overwritten(m, m', len)
  }

  /** The answer to a request for an attribute of exact length `n` that may be revealed. */
  ghost predicate SizedReply(v: Stored, n: nat, a: Attribute, rv: RV, value: Memory, len: nat) {
    if a.value.Null? then rv == OK && value == Null && len == n
    else if a.len < n then rv == BufferTooSmall && value == a.value && len == 0xFFFF_FFFF_FFFF_FFFF
    else
      && len == n
      && (!v.Nested? ==> rv == OK && Overwritten(a.value, value, n))
      && (v.Nested? && a.value.Structs? && |v.entries| <= |a.value.items| ==>
            && value.Structs?
            && (AllNull(a.value.items, |v.entries|) ==> rv == OK || rv == GeneralError)
            && (!AllNull(a.value.items, |v.entries|) ==> SlotsServed(v.entries, a.value.items, rv, value.items)))
  }

  /** What C_GetAttributeValue promises for one attribute (steps 1 to 5 of its description in PKCS #11), on an object whose
      values have the types of their attributes. */
  ghost predicate Promised(tok: Token, isPrivate: bool, checks: set<Check>, s: Store, a: Attribute, rv: RV, value: Memory, len: nat) {
    && Bounded(a.value, value, a.len)
    && if Ck7 in checks && (GetFlag(s, CKA_SENSITIVE, false) || !GetFlag(s, CKA_EXTRACTABLE, true)) then
         rv == Sensitive && value == a.value && len == 0xFFFF_FFFF_FFFF_FFFF
       else if a.typ !in s || ExactSize(tok, isPrivate, a.typ, s[a.typ]).None? then
         rv == GeneralError && value == a.value && len == a.len
       else
         SizedReply(s[a.typ], ExactSize(tok, isPrivate, a.typ, s[a.typ]).value, a, rv, value, len)
  }

  lemma ExactExtent(tok: Token, isPrivate: bool, t: nat, v: Stored)
    requires Fits(t, v)
    ensures Extent(tok, isPrivate, t, v) == ExactSize(tok, isPrivate, t, v)
  {
    Shapes(t, v);
    assert SizeOf(t) == if IsFlag(t) then Some(1) else if IsNumber(t) then Some(8) else None;
    hide KindOf, IsFlag, IsNumber, Plain;
  }

  lemma FillOverwrites(m: Memory, data: Bytes)
    ensures Overwritten(m, Fill(m, data), |data|)
  {
  }

  lemma WiderOverwrites(m: Memory, m': Memory, n: nat, len: nat)
    requires Overwritten(m, m', n) && n <= len && !m.Structs?
    ensures Bounded(m, m', len)
  {
  }

  lemma {:induction false} WordListLength(xs: seq<nat>)
    ensures |WordList(xs)| == 8 * |xs|
  {
    if xs != [] { WordListLength(xs[..|xs| - 1]); }
  }

  lemma ScalarCopied(tok: Token, isPrivate: bool, t: nat, v: Stored, m: Memory)
    requires !v.Nested? && ExactSize(tok, isPrivate, t, v).Some?
    ensures var (rv, m') := Copied(tok, isPrivate, t, v, m);
      rv == OK && Overwritten(m, m', ExactSize(tok, isPrivate, t, v).value) && (m.Structs? ==> m' == m)
  {
    hide Plain, LittleBytes, Sorted, WordList;
    match v
    case Flag(on) => FillOverwrites(m, [if on then 1 else 0]);
    case Number(n) => FillOverwrites(m, LittleBytes(n, SIZEOF_CK_ULONG));
    case Text(b) => FillOverwrites(m, Plain(tok, isPrivate, t, b).value);
    case Mechs(ms) =>
      WordListLength(Sorted(ms));
      FillOverwrites(m, WordList(Sorted(ms)));
  }

  lemma NestedCopied(tok: Token, isPrivate: bool, t: nat, entries: map<nat, Stored>, items: Template, len: nat)
    requires |entries| <= |items| && 24 * |entries| <= len
    ensures var (rv, m') := Copied(tok, isPrivate, t, Nested(entries), Structs(items));
      && m'.Structs? && Bounded(Structs(items), m', len)
      && (AllNull(items, |entries|) ==> rv == OK || rv == GeneralError)
      && (!AllNull(items, |entries|) ==> SlotsServed(entries, items, rv, m'.items))
  {
    hide RetrieveMap, AllNull;
    MapServes(entries, items);
    var f := RetrieveMap(entries, items);
    if !AllNull(items, |entries|) {
      SlotsBounded(entries, items, f.rv, f.items, len);
    }
  }

  lemma SlotsBounded(entries: map<nat, Stored>, items: Template, rv: RV, out: Template, len: nat)
    requires SlotsServed(entries, items, rv, out) && 24 * |entries| <= len
    ensures Bounded(Structs(items), Structs(out), len)
  {
    forall j | 0 <= j < |items|
      ensures out[j].value == items[j].value || Overwritten(items[j].value, out[j].value, items[j].len)
      ensures 24 * j >= len ==> out[j] == items[j]
    {
    }
  }

  /** Every reading of an attribute keeps the promise. */
  lemma RetrievePromises(tok: Token, isPrivate: bool, checks: set<Check>, s: Store, a: Attribute)
    requires a.typ in s ==> Fits(a.typ, s[a.typ])
    ensures var reply := Retrieve(tok, isPrivate, checks, s, a);
      Promised(tok, isPrivate, checks, s, a, reply.rv, reply.value, reply.len)
  {
    hide Extent, ExactSize, Copied, Fits, Overwritten, SlotsServed, AllNull;
    Unchanged(a.value, a.len);
    if a.typ in s {
      var v := s[a.typ];
      ExactExtent(tok, isPrivate, a.typ, v);
      var size := ExactSize(tok, isPrivate, a.typ, v);
      if size.Some? && !a.value.Null? && a.len >= size.value {
        if !v.Nested? {
          ScalarCopied(tok, isPrivate, a.typ, v, a.value);
          if !a.value.Structs? { WiderOverwrites(a.value, Copied(tok, isPrivate, a.typ, v, a.value).1, size.value, a.len); }
        } else {
          NestedSize(tok, isPrivate, a.typ, v.entries);
          if a.value.Structs? && |v.entries| <= |a.value.items| {
            NestedCopied(tok, isPrivate, a.typ, v.entries, a.value.items, a.len);
          } else {
            NestedRefused(tok, isPrivate, a.typ, v.entries, a.value);
          }
        }
      }
    }
  }

  lemma Unchanged(m: Memory, len: nat)
    ensures Bounded(m, m, len)
  {
  }

  lemma NestedSize(tok: Token, isPrivate: bool, t: nat, entries: map<nat, Stored>)
    ensures ExactSize(tok, isPrivate, t, Nested(entries)) == Some(24 * |entries|)
  {
  }

  lemma NestedRefused(tok: Token, isPrivate: bool, t: nat, entries: map<nat, Stored>, m: Memory)
    requires !(m.Structs? && |entries| <= |m.items|)
    ensures Copied(tok, isPrivate, t, Nested(entries), m) == (GeneralError, m)
  {
  }

  method CopyMechanisms(ms: set<nat>) returns (data: Bytes)
    ensures data == WordList(Sorted(ms))
  {
    hide Sorted, LittleBytes;
    var xs := Walk(ms);
    data := [];
    for i := 0 to |xs|
      invariant data == WordList(xs[..i])
    {
      assert xs[..i + 1][..i] == xs[..i];
      data := data + LittleBytes(xs[i], SIZEOF_CK_ULONG);
    }
    assert xs[..|xs|] == xs;
  }

  method RetrieveValue(tok: Token, isPrivate: bool, checks: set<Check>, s: Store, a: Attribute)
    returns (rv: RV, value: Memory, len: nat)
    ensures Reply(rv, value, len) == Retrieve(tok, isPrivate, checks, s, a)
    ensures (a.typ in s ==> Fits(a.typ, s[a.typ])) ==> Promised(tok, isPrivate, checks, s, a, rv, value, len)
  {
    if a.typ in s ==> Fits(a.typ, s[a.typ]) { RetrievePromises(tok, isPrivate, checks, s, a); }
    hide Promised, Fits, RetrieveMap, WordList, Sorted, Fill, Plain;
    value, len := a.value, a.len;
    if Ck7 in checks && (GetFlag(s, CKA_SENSITIVE, false) || !GetFlag(s, CKA_EXTRACTABLE, true)) {
      return Sensitive, value, CK_UNAVAILABLE_INFORMATION;
    }
    if a.typ !in s { return GeneralError, value, len; }
    var attr := s[a.typ];
    var size := Extent(tok, isPrivate, a.typ, attr);
    if size.None? { return GeneralError, value, len; }
    if a.value.Null? { return OK, Null, size.value; }
    if a.len < size.value { return BufferTooSmall, value, CK_UNAVAILABLE_INFORMATION; }
    rv := OK;
    match attr {
      case Number(n) => value := Fill(value, LittleBytes(n, SIZEOF_CK_ULONG));
      case Flag(on) => value := Fill(value, [if on then 1 else 0]);
      case Text(b) =>
        var plain := Plain(tok, isPrivate, a.typ, b);
        if plain.None? { return GeneralError, value, len; }
        value := Fill(value, plain.value);
      case Mechs(ms) =>
        var data := CopyMechanisms(ms);
        value := Fill(value, data);
      case Nested(entries) =>
        if !a.value.Structs? || |a.value.items| < |entries| { return GeneralError, value, size.value; }
        var items;
        rv, items := RetrieveAttributeMap(entries, a.value.items);
        value := Structs(items);
    }
    len := size.value;
  }

  // ----- loadTemplate -----

  /** The answer to one entry of a template on its own. */
  ghost function Answer(tok: Token, table: Table, s: Store, a: Attribute): Reply {
    if a.typ !in table then Reply(TypeInvalid, a.value, CK_UNAVAILABLE_INFORMATION)
    else Retrieve(tok, IsPrivate(s), table[a.typ], s, a)
  }

  /** Answers that end the call at once. */
  ghost predicate Breaks(tok: Token, table: Table, s: Store, a: Attribute) {
    a.typ in table && Answer(tok, table, s, a).rv !in {OK, Sensitive, BufferTooSmall}
  }

  ghost predicate SomeAnswer(tok: Token, table: Table, s: Store, template: Template, rv: RV) {
    exists i :: 0 <= i < |template| && Answer(tok, table, s, template[i]).rv == rv
  }

  ghost predicate SomeBreaks(tok: Token, table: Table, s: Store, template: Template) {
    exists i :: 0 <= i < |template| && Breaks(tok, table, s, template[i])
  }

  /** `b` is the entry `a` as its answer leaves it. */
  ghost predicate Answered(tok: Token, table: Table, s: Store, a: Attribute, b: Attribute) {
    var reply := Answer(tok, table, s, a);
    b.typ == a.typ && b.value == reply.value && b.len == reply.len
  }

  /** An answered entry of an object whose values have the types of their attributes: an unknown type is unavailable,
      and any other gets what `Promised` says, with no byte behind its stated length touched. */
  ghost predicate Kept(tok: Token, table: Table, s: Store, a: Attribute, b: Attribute) {
    if a.typ !in table then b == a.(len := 0xFFFF_FFFF_FFFF_FFFF)
    else b.typ == a.typ && exists rv :: Promised(tok, IsPrivate(s), table[a.typ], s, a, rv, b.value, b.len)
  }

  lemma AnswerKeeps(tok: Token, table: Table, s: Store, a: Attribute, b: Attribute)
    requires WellTyped(s) && Answered(tok, table, s, a, b)
    ensures Kept(tok, table, s, a, b) && Bounded(a.value, b.value, a.len)
  {
    hide Retrieve, Promised, Fits, Bounded;
    if a.typ in table {
      RetrievePromises(tok, IsPrivate(s), table[a.typ], s, a);
      PromisedBounded(tok, IsPrivate(s), table[a.typ], s, a, Answer(tok, table, s, a).rv, b.value, b.len);
    } else {
      Unchanged(a.value, a.len);
    }
  }

  lemma PromisedBounded(tok: Token, isPrivate: bool, checks: set<Check>, s: Store, a: Attribute, rv: RV, value: Memory, len: nat)
    requires Promised(tok, isPrivate, checks, s, a, rv, value, len)
    ensures Bounded(a.value, value, a.len)
  {
  }

  /** What becomes of all the entries: those that were reached are kept to what was promised, the others as they were. */
  ghost predicate AllKept(tok: Token, table: Table, s: Store, template: Template, out: Template) {
    && |out| == |template|
    && forall i :: 0 <= i < |template| ==>
         (Kept(tok, table, s, template[i], out[i]) || out[i] == template[i]) && Bounded(template[i].value, out[i].value, template[i].len)
  }

  lemma AnswersKept(tok: Token, table: Table, s: Store, template: Template, out: Template, k: nat)
    requires WellTyped(s) && |out| == |template| && k <= |template|
    requires forall i :: 0 <= i < k ==> Answered(tok, table, s, template[i], out[i])
    requires forall i :: k <= i < |template| ==> out[i] == template[i]
    ensures AllKept(tok, table, s, template, out)
    ensures k == |template| ==> forall i :: 0 <= i < |template| ==> Kept(tok, table, s, template[i], out[i])
  {
    hide Answered, Kept, Bounded, WellTyped;
    forall i | 0 <= i < |template|
      ensures i < k ==> Kept(tok, table, s, template[i], out[i])
      ensures Bounded(template[i].value, out[i].value, template[i].len)
    {
      if i < k { AnswerKeeps(tok, table, s, template[i], out[i]); } else { Unchanged(template[i].value, template[i].len); }
    }
  }

  /** The call ends at entry `k`: that and the earlier ones are answered, the later ones are as they were. */
  ghost predicate EndedAt(tok: Token, table: Table, s: Store, template: Template, out: Template, k: nat)
    requires |out| == |template|
  {
    && k < |template| && Breaks(tok, table, s, template[k])
    && (forall j :: 0 <= j < k ==> !Breaks(tok, table, s, template[j]))
    && (forall j :: 0 <= j <= k ==> Answered(tok, table, s, template[j], out[j]))
    && (forall j :: k < j < |template| ==> out[j] == template[j])
  }

  lemma EndedKept(tok: Token, table: Table, s: Store, template: Template, out: Template, k: nat)
    requires |out| == |template| && EndedAt(tok, table, s, template, out, k)
    ensures WellTyped(s) ==> AllKept(tok, table, s, template, out)
  {
    hide Answered, AllKept, Kept, Breaks, WellTyped;
    if WellTyped(s) { AnswersKept(tok, table, s, template, out, k + 1); }
  }

  /** Every entry is answered as if it were alone, up to the first that ends the call, and the call reports the
      gravest answer. */
  method LoadTemplate(target: P11Object, tok: Token, template: Template) returns (rv: RV, out: Template)
    ensures |out| == |template|
    ensures var s, table := target.osobject.attributes, target.table;
      && (rv == GeneralError <==> SomeBreaks(tok, table, s, template))
      && (rv == GeneralError ==> exists k :: EndedAt(tok, table, s, template, out, k))
      && (rv != GeneralError ==>
            && (rv == Sensitive <==> SomeAnswer(tok, table, s, template, Sensitive))
            && (rv == TypeInvalid <==>
                  SomeAnswer(tok, table, s, template, TypeInvalid) && !SomeAnswer(tok, table, s, template, Sensitive))
            && (rv == BufferTooSmall <==>
                  && SomeAnswer(tok, table, s, template, BufferTooSmall)
                  && !SomeAnswer(tok, table, s, template, Sensitive) && !SomeAnswer(tok, table, s, template, TypeInvalid))
            && (rv == OK <==> forall i :: 0 <= i < |template| ==> Answer(tok, table, s, template[i]).rv == OK)
            && forall i :: 0 <= i < |template| ==> Answered(tok, table, s, template[i], out[i]))
      && (WellTyped(s) ==> AllKept(tok, table, s, template, out))
      && (WellTyped(s) && rv != GeneralError ==> forall i :: 0 <= i < |template| ==> Kept(tok, table, s, template[i], out[i]))
  {
    var s, table := target.osobject.attributes, target.table;
    var isPrivate := IsPrivate(s);
    var invalid, sensitive, tooSmall := false, false, false;
    out := template;
    hide Retrieve, Answered, AllKept, Kept, WellTyped, Promised, Fits, IsPrivate;
    for i := 0 to |template|
      invariant |out| == |template| && forall j :: i <= j < |template| ==> out[j] == template[j]
      invariant invalid <==> SomeAnswer(tok, table, s, template[..i], TypeInvalid)
      invariant sensitive <==> SomeAnswer(tok, table, s, template[..i], Sensitive)
      invariant tooSmall <==> SomeAnswer(tok, table, s, template[..i], BufferTooSmall)
      invariant forall j :: 0 <= j < i ==>
        && !Breaks(tok, table, s, template[j])
        && Answer(tok, table, s, template[j]).rv in {OK, Sensitive, TypeInvalid, BufferTooSmall}
        && Answered(tok, table, s, template[j], out[j])
    {
      assert template[..i + 1] == template[..i] + [template[i]];
      SomeAnswerSnoc(tok, table, s, template[..i], template[i]);
      var a := template[i];
      if a.typ !in table {
        out := out[i := a.(len := CK_UNAVAILABLE_INFORMATION)];
        AnswersSo(tok, table, s, a, out[i]);
        invalid := true;
      } else {
        var code, value, len := RetrieveValue(tok, isPrivate, table[a.typ], s, a);
        out := out[i := a.(value := value, len := len)];
        AnswersSo(tok, table, s, a, out[i]);
        if code.Sensitive? {
          sensitive := true;
        } else if code.BufferTooSmall? {
          tooSmall := true;
        } else if !code.OK? {
          assert Breaks(tok, table, s, template[i]);
          assert EndedAt(tok, table, s, template, out, i);
          EndedKept(tok, table, s, template, out, i);
          return GeneralError, out;
        }
      }
    }
    assert template[..|template|] == template;
    if WellTyped(s) { AnswersKept(tok, table, s, template, out, |template|); }
    rv := if sensitive then Sensitive else if invalid then TypeInvalid else if tooSmall then BufferTooSmall else OK;
  }

  lemma AnswersSo(tok: Token, table: Table, s: Store, a: Attribute, b: Attribute)
    requires b.typ == a.typ && Reply(Answer(tok, table, s, a).rv, b.value, b.len) == Answer(tok, table, s, a)
    ensures Answered(tok, table, s, a, b)
  {
  }

  lemma SomeAnswerSnoc(tok: Token, table: Table, s: Store, template: Template, a: Attribute)
    ensures forall rv :: SomeAnswer(tok, table, s, template + [a], rv) <==>
      SomeAnswer(tok, table, s, template, rv) || Answer(tok, table, s, a).rv == rv
  {
    forall rv
      ensures SomeAnswer(tok, table, s, template + [a], rv) <==>
        SomeAnswer(tok, table, s, template, rv) || Answer(tok, table, s, a).rv == rv
    {
      var all := template + [a];
      assert all[|template|] == a && forall i :: 0 <= i < |template| ==> all[i] == template[i];
    }
  }
}
