/** The multi-part CMS verification of a session: `verifyInit`, `verifyUpdate`, `verify`,
    `verifyFinal`, `clear` and `clearAll` of RutokenCMS.cpp.

    What an envelope is worth is for a `judge` to say (see `EnvelopeVerdict`); this module is about which data reaches
    it. */
module CmsVerification {
  import opened Octets
  import opened Wrappers

  const MAX_CERTIFICATE: nat := 1024 * 1024
  const MAX_CMS: nat := 16 * 1024 * 1024
  const MAX_DATA: nat := 64 * 1024 * 1024
  const MAX_BUFFERS: nat := 256
  const ALL_CRL_CHECK: nat := 2

  datatype RV =
    | OK
    | ArgumentsBad
    | SignatureInvalid
    | OperationActive
    | OperationNotInitialized
    | DataLenRange
    | Other(code: nat)

  datatype Flag = IgnoreInternal | AllowPartial | SignatureOnly | TrustedFromToken

  /** What verification starts from. */
  datatype Envelope = Envelope(
    cms: Bytes, trusted: seq<Bytes>, certificates: seq<Bytes>, crls: seq<Bytes>, crlMode: nat, flags: set<Flag>)

  datatype VerifyState = VerifyState(envelope: Envelope, data: Bytes, updated: bool)

  type States = map<nat, VerifyState>

  /** The values left in the caller's output variables: content and signers, null when absent. */
  datatype Outputs = Outputs(content: Option<Bytes>, signers: Option<seq<Bytes>>)

  const NOTHING: Outputs := Outputs(None, None)

  /** The parts of the library around the calls: whether bytes are an envelope, and the verdict on an envelope with
      embedded or with detached data, with what it leaves in output variables that were null. */
  datatype Library = Library(decodes: Bytes -> bool, judge: (Envelope, bool, Bytes) -> (RV, Outputs))

  // ----- arguments of verifyInit -----

  datatype Buffer = Buffer(size: nat, data: Option<Bytes>)

  datatype BufferArray = NullArray(count: nat) | Array(items: seq<Buffer>)

  datatype Store = Store(trusted: BufferArray, certificates: BufferArray, crls: BufferArray)

  /** `cms` is absent for a null pointer; `fromToken` is what searching the token for trusted certificates gives;
      `otherFlags` says that bits without a meaning are set. */
  datatype InitArguments = InitArguments(
    cms: Option<Bytes>, store: Option<Store>, crlMode: nat, flags: set<Flag>, otherFlags: bool,
    fromToken: (RV, seq<Bytes>))

  predicate GoodBuffer(b: Buffer) {
    b.size <= MAX_CERTIFICATE && (b.size != 0 ==> b.data.Some? && b.size <= |b.data.value|)
  }

  predicate GoodArray(a: BufferArray) {
    match a
    case NullArray(count) => count == 0
    case Array(items) => |items| <= MAX_BUFFERS && forall b :: b in items ==> GoodBuffer(b)
  }

  function BufferBytes(b: Buffer): Bytes
    requires GoodBuffer(b)
  {
    if b.size != 0 then b.data.value[..b.size] else []
  }

  function Copied(a: BufferArray): (r: seq<Bytes>)
    requires GoodArray(a)
  {
    match a
    case NullArray(_) => []
    case Array(items) => seq(|items|, i requires 0 <= i < |items| => assert items[i] in items; BufferBytes(items[i]))
  }

  /** The buffers in an array, and how many bytes each is said to have. */
  function Count(a: BufferArray): nat { if a.Array? then |a.items| else 0 }

  /** The bytes that an array of buffers describes, in order; no buffer is larger than a megabyte. */
  predicate Copies(a: BufferArray, target: seq<Bytes>) {
    match a
    case NullArray(count) => count == 0 && target == []
    case Array(items) =>
      && |items| <= 256 && |target| == |items|
      && forall i :: 0 <= i < |items| ==>
           && |target[i]| == items[i].size <= 1048576
           && (items[i].size != 0 ==> items[i].data.Some? && target[i] <= items[i].data.value)
  }

  /** An array that can be copied: at most 256 buffers of at most a megabyte, with memory behind those that are not empty. */
  predicate Described(a: BufferArray) {
    match a
    case NullArray(count) => count == 0
    case Array(items) =>
      && |items| <= 256
      && forall i :: 0 <= i < |items| ==>
           items[i].size <= 1048576 && (items[i].size != 0 ==> items[i].data.Some? && items[i].size <= |items[i].data.value|)
  }

  lemma DescribedExactly(a: BufferArray)
    ensures Described(a) <==> GoodArray(a)
  {
    if a.Array? {
      if GoodArray(a) {
        forall i | 0 <= i < |a.items| ensures GoodBuffer(a.items[i]) { assert a.items[i] in a.items; }
      }
    }
  }

  lemma CopiedCopies(a: BufferArray)
    requires GoodArray(a)
    ensures Copies(a, Copied(a)) && |Copied(a)| == Count(a)
  {
    if a.Array? {
      forall i | 0 <= i < |a.items| ensures GoodBuffer(a.items[i]) { assert a.items[i] in a.items; }
    }
  }

  method CopyBuffers(a: BufferArray) returns (rv: RV, target: seq<Bytes>)
    ensures rv == if GoodArray(a) then OK else ArgumentsBad
    ensures rv == OK ==> target == Copied(a)
  {
    target := [];
    match a
    case NullArray(count) => return if count == 0 then OK else ArgumentsBad, [];
    case Array(items) =>
      if |items| > MAX_BUFFERS { return ArgumentsBad, []; }
      for i := 0 to |items|
        invariant |target| == i && forall j :: 0 <= j < i ==> GoodBuffer(items[j]) && target[j] == BufferBytes(items[j])
      {
        var b := items[i];
        if b.size > MAX_CERTIFICATE || (b.size != 0 && (b.data.None? || |b.data.value| < b.size)) {
          assert b in items && !GoodBuffer(b);
          return ArgumentsBad, target;
        }
        target := target + [if b.size != 0 then b.data.value[..b.size] else []];
      }
      return OK, target;
  }

  // ----- the calls, as functions of the states -----

  /** One call.  `session` is the session's handle and `rv` what looking the session up answers. */
  datatype Call =
    | Init(session: nat, rv: RV, arguments: InitArguments)
    | Update(session: nat, rv: RV, chunk: Option<Bytes>, len: nat)
    | Verify(session: nat, rv: RV, pointers: bool)
    | Final(session: nat, rv: RV, pointers: bool)
    | Clear(session: nat)
    | ClearAll

  predicate Copyable(a: InitArguments) {
    a.store.Some? ==>
      GoodArray(a.store.value.trusted) && GoodArray(a.store.value.certificates) && GoodArray(a.store.value.crls)
  }

  function InitVerdict(lib: Library, sessionRv: RV, a: InitArguments): RV {
    if a.cms.None? || a.cms.value == [] || |a.cms.value| > MAX_CMS || a.crlMode > ALL_CRL_CHECK || a.otherFlags then
      ArgumentsBad
    else if a.store.None? && a.flags == {} then ArgumentsBad
    else if sessionRv != OK then sessionRv
    else if !lib.decodes(a.cms.value) then SignatureInvalid
    else if !Copyable(a) then ArgumentsBad
    else if TrustedFromToken in a.flags then a.fromToken.0
    else OK
  }

  function EnvelopeOf(a: InitArguments): Envelope
    requires a.cms.Some? && Copyable(a)
  {
    var fromStore := if a.store.None? then ([], [], [])
      else (Copied(a.store.value.trusted), Copied(a.store.value.certificates), Copied(a.store.value.crls));
    Envelope(a.cms.value, fromStore.0 + (if TrustedFromToken in a.flags then a.fromToken.1 else []),
             fromStore.1, fromStore.2, a.crlMode, a.flags)
  }

  function Judged(lib: Library, s: VerifyState, detached: bool): (RV, Outputs) {
    if !lib.decodes(s.envelope.cms) then (SignatureInvalid, NOTHING) else lib.judge(s.envelope, detached, s.data)
  }

  /** The answer to a call: its result code and, for `verify` and `verifyFinal` with usable pointers, the outputs. */
  function Answer(lib: Library, states: States, c: Call): (RV, Outputs) {
    match c
    case Init(session, rv, a) =>
      var verdict := InitVerdict(lib, rv, a);
      (if verdict == OK && session in states then OperationActive else verdict, NOTHING)
    case Update(session, rv, chunk, len) =>
      if len != 0 && chunk.None? then (ArgumentsBad, NOTHING)
      else if rv != OK then (rv, NOTHING)
      else if session !in states then (OperationNotInitialized, NOTHING)
      else if len > MAX_DATA - |states[session].data| then (DataLenRange, NOTHING)
      else (OK, NOTHING)
    case Verify(session, rv, pointers) =>
      if !pointers then (ArgumentsBad, NOTHING)
      else if rv != OK then (rv, NOTHING)
      else if session !in states then (OperationNotInitialized, NOTHING)
      else if states[session].updated then (ArgumentsBad, NOTHING)
      else Judged(lib, states[session], false)
    case Final(session, rv, pointers) =>
      if !pointers then (ArgumentsBad, NOTHING)
      else if rv != OK then (rv, NOTHING)
      else if session !in states then (OperationNotInitialized, NOTHING)
      else if !states[session].updated then (ArgumentsBad, NOTHING)
      else Judged(lib, states[session], true)
    case _ => (OK, NOTHING)
  }

  /** The bytes that an update appends. */
  function Chunk(c: Call): Bytes
    requires c.Update?
  {
    if c.chunk.Some? && c.len <= |c.chunk.value| then c.chunk.value[..c.len] else []
  }

  function Next(lib: Library, states: States, c: Call): States {
    match c
    case Init(session, rv, a) =>
      if Answer(lib, states, c).0 == OK then states[session := VerifyState(EnvelopeOf(a), [], false)] else states
    case Update(session, _, _, _) =>
      if Answer(lib, states, c).0 == OK then
        states[session := states[session].(data := states[session].data + Chunk(c), updated := true)]
      else states
    case Verify(session, rv, pointers) => if pointers && rv == OK then states - {session} else states
    case Final(session, rv, pointers) => if pointers && rv == OK then states - {session} else states
    case Clear(session) => states - {session}
    case ClearAll => map[]
  }

  // ----- the calls, in place -----

  class Verifier {
    const lib: Library
    var states: States

    constructor (lib: Library)
      ensures this.lib == lib && states == map[]
    {
      this.lib := lib;
      states := map[];
    }

    method VerifyInit(session: nat, sessionRv: RV, a: InitArguments) returns (rv: RV)
      modifies this`states
      ensures rv == Answer(lib, old(states), Init(session, sessionRv, a)).0
      ensures rv == OK ==>
        && session !in old(states) && a.cms.Some? && 0 < |a.cms.value| <= 16777216 && a.crlMode <= 2 && !a.otherFlags
        && (a.store.Some? || a.flags != {}) && sessionRv == OK && lib.decodes(a.cms.value)
        && states.Keys == old(states).Keys + {session}
        && var e := states[session].envelope;
           && states[session].data == [] && !states[session].updated
           && e.cms == a.cms.value && e.crlMode == a.crlMode && e.flags == a.flags
           && (a.store.Some? ==>
                 && Copies(a.store.value.certificates, e.certificates) && Copies(a.store.value.crls, e.crls)
                 && |e.trusted| >= Count(a.store.value.trusted)
                 && Copies(a.store.value.trusted, e.trusted[..Count(a.store.value.trusted)]))
           && (a.store.None? ==> e.certificates == [] && e.crls == [])
           && e.trusted[if a.store.Some? then Count(a.store.value.trusted) else 0..]
              == (if TrustedFromToken in a.flags then a.fromToken.1 else [])
      ensures rv != OK ==> states == old(states)
      ensures states == Next(lib, old(states), Init(session, sessionRv, a))
      ensures session !in old(states) && a.cms.Some? && 0 < |a.cms.value| <= 16777216 && a.crlMode <= 2 && !a.otherFlags
        && (a.store.Some? || a.flags != {}) && sessionRv == OK && lib.decodes(a.cms.value)
        && (a.store.Some? ==>
              Described(a.store.value.trusted) && Described(a.store.value.certificates) && Described(a.store.value.crls))
        && (TrustedFromToken in a.flags ==> a.fromToken.0 == OK)
        ==> rv == OK
    {
      if a.store.Some? {
        DescribedExactly(a.store.value.trusted);
        DescribedExactly(a.store.value.certificates);
        DescribedExactly(a.store.value.crls);
      }
      hide Described;
      if a.cms.None? || a.cms.value == [] || |a.cms.value| > MAX_CMS { return ArgumentsBad; }
      if a.crlMode > ALL_CRL_CHECK || a.otherFlags { return ArgumentsBad; }
      if a.store.None? && a.flags == {} { return ArgumentsBad; }
      if sessionRv != OK { return sessionRv; }
      if !lib.decodes(a.cms.value) { return SignatureInvalid; }
      var trusted, certificates, crls := [], [], [];
      if a.store.Some? {
        rv, trusted := CopyBuffers(a.store.value.trusted);
        if rv != OK { return; }
        rv, certificates := CopyBuffers(a.store.value.certificates);
        if rv != OK { return; }
        rv, crls := CopyBuffers(a.store.value.crls);
        if rv != OK { return; }
      }
      if TrustedFromToken in a.flags {
        if a.fromToken.0 != OK { return a.fromToken.0; }
        trusted := trusted + a.fromToken.1;
      }
      if session in states { return OperationActive; }
      assert forall t: seq<Bytes> :: t + [] == t;
      if a.store.Some? {
        CopiedCopies(a.store.value.trusted);
        CopiedCopies(a.store.value.certificates);
        CopiedCopies(a.store.value.crls);
        assert trusted[..Count(a.store.value.trusted)] == Copied(a.store.value.trusted);
      }
      states := states[session := VerifyState(Envelope(a.cms.value, trusted, certificates, crls, a.crlMode, a.flags), [], false)];
      return OK;
    }

    method VerifyUpdate(session: nat, sessionRv: RV, chunk: Option<Bytes>, len: nat) returns (rv: RV)
      requires chunk.Some? ==> len <= |chunk.value|
      modifies this`states
      ensures rv == Answer(lib, old(states), Update(session, sessionRv, chunk, len)).0
      ensures rv == OK <==>
        && (len == 0 || chunk.Some?) && sessionRv == OK && session in old(states)
        && |old(states)[session].data| + len <= 67108864
      ensures rv == OK ==>
        states == old(states)[session := old(states)[session].(
          data := old(states)[session].data + (if len == 0 then [] else chunk.value[..len]), updated := true)]
      ensures rv != OK ==> states == old(states)
      ensures states == Next(lib, old(states), Update(session, sessionRv, chunk, len))
    {
      if len != 0 && chunk.None? { return ArgumentsBad; }
      if sessionRv != OK { return sessionRv; }
      if session !in states { return OperationNotInitialized; }
      var state := states[session];
      if len > MAX_DATA - |state.data| { return DataLenRange; }
      if len != 0 { state := state.(data := state.data + chunk.value[..len]); }
      state := state.(updated := true);
      assert state.data == old(states)[session].data + Chunk(Update(session, sessionRv, chunk, len));
      states := states[session := state];
      return OK;
    }

    /** The state is taken out before it is looked at, so it is gone whatever the verdict. */
    method TakeAndJudge(session: nat, detached: bool) returns (rv: RV, out: Outputs)
      requires session in states
      modifies this`states
      ensures states == old(states) - {session}
      ensures (rv, out) ==
        if old(states)[session].updated != detached then (ArgumentsBad, NOTHING) else Judged(lib, old(states)[session], detached)
    {
      var state := states[session];
      states := states - {session};
      if state.updated != detached { return ArgumentsBad, NOTHING; }
      var judged := Judged(lib, state, detached);
      return judged.0, judged.1;
    }

    method VerifyAttached(session: nat, sessionRv: RV, pointers: bool, before: Outputs) returns (rv: RV, out: Outputs)
      modifies this`states
      ensures rv == Answer(lib, old(states), Verify(session, sessionRv, pointers)).0
      ensures out == if pointers then Answer(lib, old(states), Verify(session, sessionRv, pointers)).1 else before
      ensures states == Next(lib, old(states), Verify(session, sessionRv, pointers))
    {
      if !pointers { return ArgumentsBad, before; }
      out := NOTHING;
      if sessionRv != OK { return sessionRv, out; }
      if session !in states { return OperationNotInitialized, out; }
      rv, out := TakeAndJudge(session, false);
    }

    method VerifyFinal(session: nat, sessionRv: RV, pointers: bool, before: Outputs) returns (rv: RV, out: Outputs)
      modifies this`states
      ensures rv == Answer(lib, old(states), Final(session, sessionRv, pointers)).0
      ensures out == if pointers then Answer(lib, old(states), Final(session, sessionRv, pointers)).1 else before
      ensures states == Next(lib, old(states), Final(session, sessionRv, pointers))
    {
      if !pointers { return ArgumentsBad, before; }
      out := NOTHING;
      if sessionRv != OK { return sessionRv, out; }
      if session !in states { return OperationNotInitialized, out; }
      rv, out := TakeAndJudge(session, true);
    }

    method ClearSession(session: nat)
      modifies this`states
      ensures states == Next(lib, old(states), Clear(session))
    {
      states := states - {session};
    }

    method ClearEverySession()
      modifies this`states
      ensures states == Next(lib, old(states), ClearAll)
    {
      states := map[];
    }
  }

  // ----- runs -----

  function Run(lib: Library, calls: seq<Call>): States {
    if calls == [] then map[] else Next(lib, Run(lib, calls[..|calls| - 1]), calls[|calls| - 1])
  }

  /** The operation of a session as its own calls tell it: what it was started with, and the chunks accepted since. */
  datatype Operation = Operation(envelope: Envelope, chunks: seq<Bytes>)

  /** How a call moves the ledger of one session, given what was answered. */
  function Entered(op: Option<Operation>, c: Call, accepted: bool, session: nat): Option<Operation> {
    if !c.ClearAll? && c.session != session then op
    else
      match c
      case ClearAll => None
      case Init(_, _, a) => if accepted && a.cms.Some? && Copyable(a) then Some(Operation(EnvelopeOf(a), [])) else op
      case Update(_, _, _, _) =>
        if accepted && op.Some? then Some(op.value.(chunks := op.value.chunks + [Chunk(c)])) else op
      case Verify(_, rv, pointers) => if pointers && rv == OK then None else op
      case Final(_, rv, pointers) => if pointers && rv == OK then None else op
      case Clear(_) => None
  }

  function Ledger(lib: Library, calls: seq<Call>, session: nat): Option<Operation> {
    if calls == [] then None
    else
      var before, c := calls[..|calls| - 1], calls[|calls| - 1];
      Entered(Ledger(lib, before, session), c, Answer(lib, Run(lib, before), c).0 == OK, session)
  }

  /** What a state holds for a session, in the ledger's terms. */
  predicate Matches(state: Option<VerifyState>, op: Option<Operation>) {
    && (state.Some? <==> op.Some?)
    && (op.Some? ==>
          && state.value.envelope == op.value.envelope
          && state.value.data == Concat(op.value.chunks)
          && (state.value.updated <==> op.value.chunks != [])
          && |state.value.data| <= MAX_DATA)
  }

  function StateOf(states: States, session: nat): Option<VerifyState> {
    if session in states then Some(states[session]) else None
  }

  /** Calls on one session leave every other session alone. */
  lemma OthersUntouched(lib: Library, states: States, c: Call, session: nat)
    requires !c.ClearAll? && c.session != session
    ensures StateOf(Next(lib, states, c), session) == StateOf(states, session)
  {
  }

  lemma NextMatches(lib: Library, states: States, op: Option<Operation>, c: Call, session: nat)
    requires Matches(StateOf(states, session), op)
    ensures Matches(StateOf(Next(lib, states, c), session), Entered(op, c, Answer(lib, states, c).0 == OK, session))
  {
    hide Judged, EnvelopeOf, Concat, Chunk, GoodArray;
    assert Concat([]) == [] by { EmptyConcat(); }
    if !c.ClearAll? && c.session != session {
      OthersUntouched(lib, states, c, session);
    } else if c.Update? && op.Some? {
      ConcatSnoc(op.value.chunks, Chunk(c));
      ChunkFits(c);
    }
  }

  lemma EmptyConcat()
    ensures Concat([]) == []
  {
  }

  lemma ChunkFits(c: Call)
    requires c.Update?
    ensures |Chunk(c)| <= c.len
  {
  }

  /** In every run, each session has at most one operation, its data is the concatenation of the chunks accepted
      since it was started, within the limit, and it knows whether there were any. */
  lemma {:induction false} RunMatchesLedger(lib: Library, calls: seq<Call>, session: nat)
    ensures Matches(StateOf(Run(lib, calls), session), Ledger(lib, calls, session))
  {
    hide Next, Entered, Matches, StateOf, Answer;
    if calls == [] {
      NothingMatches(session);
    } else {
      var before, c := calls[..|calls| - 1], calls[|calls| - 1];
      RunMatchesLedger(lib, before, session);
      NextMatches(lib, Run(lib, before), Ledger(lib, before, session), c, session);
    }
  }

  lemma NothingMatches(session: nat)
    ensures Matches(StateOf(map[], session), None)
  {
  }

  /** The outcome of `verifyFinal` depends on the run only through the envelope, the concatenation of the chunks and
      whether there was at least one: not on how the data was cut, nor on anything other sessions did. */
  lemma FinalDependsOnDataAlone(lib: Library, calls: seq<Call>, calls': seq<Call>, session: nat, session': nat)
    requires Ledger(lib, calls, session).Some? && Ledger(lib, calls', session').Some?
    requires var op, op' := Ledger(lib, calls, session).value, Ledger(lib, calls', session').value;
      && op.envelope == op'.envelope
      && Concat(op.chunks) == Concat(op'.chunks)
      && (op.chunks == [] <==> op'.chunks == [])
    ensures Answer(lib, Run(lib, calls), Final(session, OK, true)) == Answer(lib, Run(lib, calls'), Final(session', OK, true))
  {
    RunMatchesLedger(lib, calls, session);
    RunMatchesLedger(lib, calls', session');
    hide Run, Ledger, Judged;
  }

  /** Either verification ends the operation once it reaches it: it judges only its own kind of data, and whatever the
      verdict no later call on the session finds anything, until the next `verifyInit`. */
  lemma VerificationEnds(lib: Library, states: States, c: Call, later: Call)
    requires (c.Verify? || c.Final?) && c.pointers && c.rv == OK
    requires later.Verify? || later.Final? || later.Update?
    requires later.session == c.session && later.rv == OK
    requires if later.Update? then later.len != 0 ==> later.chunk.Some? else later.pointers
    ensures c.session !in Next(lib, states, c)
    ensures c.session in states ==>
      Answer(lib, states, c) ==
        if states[c.session].updated == c.Final? then Judged(lib, states[c.session], c.Final?) else (ArgumentsBad, NOTHING)
    ensures Answer(lib, Next(lib, states, c), later) == (OperationNotInitialized, NOTHING)
  {
  }
}
