/** Concurrent installation of a configuration file: `installFileAtomically` and `writeAll` of
    SimpleConfigLoader.cpp as interleaved system calls over names and inodes.

    Installers may be threads of one process or separate processes, so process numbers can coincide; any call can
    fail, writes can be short, and an installer can stop for good at any point. */
module AtomicInstall {
  import opened Octets
  import opened Wrappers

  const ATTEMPTS: nat := 100

  datatype Name = Target | Temp(pid: nat, attempt: nat)

  /** A directory entry remembers which installer made it, if any of those watched did. */
  datatype Entry = Entry(inode: nat, maker: Option<nat>)

  /** Where an installer is; from `Writing` to `Unlinking` it holds temporary name number `k`. */
  datatype Place =
    | Checking
    | Preparing
    | Opening(k: nat)
    | Writing(k: nat, inode: nat, done: nat)
    | Closing(k: nat, inode: nat, written: bool)
    | Linking(k: nat, inode: nat)
    | Unlinking(k: nat, inode: nat, installed: bool)
    | LastCheck
    | Returned(result: bool)
    | Crashed
  {
    predicate Holds() { Writing? || Closing? || Linking? || Unlinking? }
  }

  datatype Installer = Installer(pid: nat, contents: Bytes, at: Place) {
    function Held(): Name
      requires at.Holds()
    {
      Temp(pid, at.k)
    }
  }

  datatype State = State(names: map<Name, Entry>, files: seq<Bytes>, installers: seq<Installer>) {
    function Move(i: nat, at': Place): State
      requires i < |installers|
    {
      this.(installers := installers[i := installers[i].(at := at')])
    }

    predicate Present() { Target in names }
  }

  // ----- steps -----

  /** How a system call turns out.  `Succeed(n)` moves `n` bytes where it is a write. */
  datatype Outcome = Succeed(n: nat) | Fail | Crash

  datatype Event = Spawn(pid: nat, contents: Bytes) | Act(who: nat, outcome: Outcome)

  /** A name is made exclusively: an existing one leads on to the next attempt. */
  function Open(s: State, i: nat, k: nat, o: Outcome): State
    requires i < |s.installers|
  {
    var name := Temp(s.installers[i].pid, k);
    if k >= ATTEMPTS then s.Move(i, LastCheck)
    else if o.Fail? then s.Move(i, LastCheck)
    else if name in s.names then s.Move(i, Opening(k + 1))
    else
      s.(names := s.names[name := Entry(|s.files|, Some(i))], files := s.files + [[]]).Move(i, Writing(k, |s.files|, 0))
  }

  /** One turn of `writeAll`: between one byte and all that is left, or an error. */
  function Write(s: State, i: nat, o: Outcome): State
    requires i < |s.installers| && s.installers[i].at.Writing?
  {
    var contents := s.installers[i].contents;
    var Writing(k, inode, done) := s.installers[i].at;
    if done >= |contents| then s.Move(i, Closing(k, inode, true))
    else if !o.Succeed? || o.n == 0 || inode >= |s.files| then s.Move(i, Closing(k, inode, false))
    else
      var done' := if done + o.n <= |contents| then done + o.n else |contents|;
      s.(files := s.files[inode := s.files[inode] + contents[done..done']]).Move(i, Writing(k, inode, done'))
  }

  /** A second name for a finished file: refused when the target exists. */
  function Link(s: State, i: nat, o: Outcome): State
    requires i < |s.installers| && s.installers[i].at.Linking?
  {
    var Linking(k, inode) := s.installers[i].at;
    if o.Succeed? && Target !in s.names then
      s.(names := s.names[Target := Entry(inode, Some(i))]).Move(i, Unlinking(k, inode, true))
    else
      s.Move(i, Unlinking(k, inode, false))
  }

  function Unlink(s: State, i: nat, o: Outcome): State
    requires i < |s.installers| && s.installers[i].at.Unlinking?
  {
    var s' := if o.Succeed? then s.(names := s.names - {s.installers[i].Held()}) else s;
    s'.Move(i, if s.installers[i].at.installed then Returned(true) else LastCheck)
  }

  /** `isReadableFile`: true only of a target that is there, and possibly false even then. */
  predicate SeesTarget(s: State, o: Outcome) { o.Succeed? && s.Present() }

  function Next(s: State, e: Event): State {
    match e
    case Spawn(pid, contents) => s.(installers := s.installers + [Installer(pid, contents, Checking)])
    case Act(i, o) =>
      if i >= |s.installers| then s
      else if s.installers[i].at.Returned? || s.installers[i].at.Crashed? then s
      else if o.Crash? then s.Move(i, Crashed)
      else
        match s.installers[i].at
        case Checking => s.Move(i, if SeesTarget(s, o) then Returned(true) else Preparing)
        case Preparing => s.Move(i, if o.Succeed? then Opening(0) else Returned(false))
        case Opening(k) => Open(s, i, k, o)
        case Writing(_, _, _) => Write(s, i, o)
        case Closing(k, inode, written) =>
          s.Move(i, if written && o.Succeed? then Linking(k, inode) else Unlinking(k, inode, false))
        case Linking(_, _) => Link(s, i, o)
        case Unlinking(_, _, _) => Unlink(s, i, o)
        case LastCheck => s.Move(i, Returned(SeesTarget(s, o)))
  }

  function Run(s: State, events: seq<Event>): State {
    if events == [] then s else Next(Run(s, events[..|events| - 1]), events[|events| - 1])
  }

  // ----- the invariant -----

  /** The file that installer `i` is working on is its own, and is as far as the installer believes. */
  predicate OwnFile(s: State, i: nat)
    requires i < |s.installers|
  {
    var me := s.installers[i];
    me.at.Holds() ==>
      && me.Held() in s.names && s.names[me.Held()] == Entry(me.at.inode, Some(i))
      && me.at.inode < |s.files|
      && (me.at.Writing? ==> me.at.done <= |me.contents| && s.files[me.at.inode] == me.contents[..me.at.done])
      && ((me.at.Closing? && me.at.written) || me.at.Linking? ==> s.files[me.at.inode] == me.contents)
  }

  predicate DistinctFiles(s: State, i: nat, j: nat)
    requires i < |s.installers| && j < |s.installers|
  {
    s.installers[i].at.Holds() && s.installers[j].at.Holds() && i != j ==> s.installers[i].at.inode != s.installers[j].at.inode
  }

  /** The target is what it was at first, or the complete contents of the installer that linked it; nobody is
      still writing to it. */
  predicate TargetWhole(s: State, origin: Option<Bytes>) {
    s.Present() ==>
      var e := s.names[Target];
      && e.inode < |s.files|
      && (match e.maker
          case None => origin == Some(s.files[e.inode])
          case Some(i) => i < |s.installers| && s.files[e.inode] == s.installers[i].contents)
      && forall j :: 0 <= j < |s.installers| && s.installers[j].at.Writing? ==> s.installers[j].at.inode != e.inode
  }

  predicate Promised(s: State, i: nat)
    requires i < |s.installers|
  {
    var at := s.installers[i].at;
    (at.Returned? && at.result) || (at.Unlinking? && at.installed) ==> s.Present()
  }

  predicate Inv(s: State, origin: Option<Bytes>) {
    && (forall i :: 0 <= i < |s.installers| ==> OwnFile(s, i) && Promised(s, i))
    && (forall i, j :: 0 <= i < |s.installers| && 0 <= j < |s.installers| ==> DistinctFiles(s, i, j))
    && TargetWhole(s, origin)
  }

  /** A directory that nobody watched is working in: a target or none, and any temporary names left behind. */
  predicate Start(s: State, origin: Option<Bytes>) {
    && s.installers == []
    && (s.Present() <==> origin.Some?)
    && (s.Present() ==>
          s.names[Target].maker.None? && s.names[Target].inode < |s.files| && origin == Some(s.files[s.names[Target].inode]))
  }

  /** What one event leaves alone: the target once it is there, the contents already in a file it names, and every
      temporary name but those its own installer made. */
  predicate Guarded(s: State, s': State, e: Event) {
    && (s.Present() ==> s'.Present() && s'.names[Target] == s.names[Target])
    && (forall n :: n in s.names && n !in s'.names ==> e.Act? && s.names[n].maker == Some(e.who))
    && (forall n :: n in s.names && n in s'.names ==> s'.names[n] == s.names[n])
    && |s.installers| <= |s'.installers|
    && (forall i :: 0 <= i < |s.installers| ==>
          s'.installers[i].pid == s.installers[i].pid && s'.installers[i].contents == s.installers[i].contents)
  }

  lemma OpenKeeps(s: State, i: nat, k: nat, o: Outcome, origin: Option<Bytes>)
    requires Inv(s, origin) && i < |s.installers| && s.installers[i].at == Opening(k)
    ensures Inv(Open(s, i, k, o), origin) && Guarded(s, Open(s, i, k, o), Act(i, o))
  {
    var s' := Open(s, i, k, o);
    forall j | 0 <= j < |s'.installers| ensures OwnFile(s', j) && Promised(s', j) {
      assert OwnFile(s, j) && Promised(s, j);
    }
    forall j, l | 0 <= j < |s'.installers| && 0 <= l < |s'.installers| ensures DistinctFiles(s', j, l) {
      assert DistinctFiles(s, j, l) && OwnFile(s, j) && OwnFile(s, l);
    }
  }

  lemma WriteKeeps(s: State, i: nat, o: Outcome, origin: Option<Bytes>)
    requires Inv(s, origin) && i < |s.installers| && s.installers[i].at.Writing?
    ensures Inv(Write(s, i, o), origin) && Guarded(s, Write(s, i, o), Act(i, o))
  {
    var s' := Write(s, i, o);
    assert OwnFile(s, i);
    forall j | 0 <= j < |s'.installers| ensures OwnFile(s', j) && Promised(s', j) {
      assert OwnFile(s, j) && Promised(s, j) && DistinctFiles(s, i, j);
    }
    forall j, l | 0 <= j < |s'.installers| && 0 <= l < |s'.installers| ensures DistinctFiles(s', j, l) {
      assert DistinctFiles(s, j, l);
    }
  }

  lemma LinkKeeps(s: State, i: nat, o: Outcome, origin: Option<Bytes>)
    requires Inv(s, origin) && i < |s.installers| && s.installers[i].at.Linking?
    ensures Inv(Link(s, i, o), origin) && Guarded(s, Link(s, i, o), Act(i, o))
  {
    var s' := Link(s, i, o);
    assert OwnFile(s, i);
    forall j | 0 <= j < |s'.installers| ensures OwnFile(s', j) && Promised(s', j) {
      assert OwnFile(s, j) && Promised(s, j);
    }
    forall j, l | 0 <= j < |s'.installers| && 0 <= l < |s'.installers| ensures DistinctFiles(s', j, l) {
      assert DistinctFiles(s, j, l);
    }
    forall j | 0 <= j < |s'.installers| && s'.installers[j].at.Writing?
      ensures s'.Present() ==> s'.installers[j].at.inode != s'.names[Target].inode
    {
      assert DistinctFiles(s, i, j);
    }
  }

  lemma UnlinkKeeps(s: State, i: nat, o: Outcome, origin: Option<Bytes>)
    requires Inv(s, origin) && i < |s.installers| && s.installers[i].at.Unlinking?
    ensures Inv(Unlink(s, i, o), origin) && Guarded(s, Unlink(s, i, o), Act(i, o))
  {
    var s' := Unlink(s, i, o);
    assert OwnFile(s, i) && Promised(s, i);
    forall j | 0 <= j < |s'.installers| ensures OwnFile(s', j) && Promised(s', j) {
      assert OwnFile(s, j) && Promised(s, j) && DistinctFiles(s, i, j);
    }
    forall j, l | 0 <= j < |s'.installers| && 0 <= l < |s'.installers| ensures DistinctFiles(s', j, l) {
      assert DistinctFiles(s, j, l);
    }
  }

  /** Steps that touch no file and no name. */
  lemma MoveKeeps(s: State, i: nat, at: Place, e: Event, origin: Option<Bytes>)
    requires Inv(s, origin) && i < |s.installers| && !at.Writing?
    requires at.Holds() ==> s.installers[i].at.Holds() && at.k == s.installers[i].at.k && at.inode == s.installers[i].at.inode
    requires (at.Closing? && at.written) || at.Linking? ==> s.installers[i].at.Closing? && s.installers[i].at.written
    requires (at.Returned? && at.result) || (at.Unlinking? && at.installed) ==> s.Present()
    ensures Inv(s.Move(i, at), origin) && Guarded(s, s.Move(i, at), e)
  {
    var s' := s.Move(i, at);
    forall j | 0 <= j < |s'.installers| ensures OwnFile(s', j) && Promised(s', j) {
      assert OwnFile(s, j) && Promised(s, j);
    }
    forall j, l | 0 <= j < |s'.installers| && 0 <= l < |s'.installers| ensures DistinctFiles(s', j, l) {
      assert DistinctFiles(s, j, l);
    }
  }

  lemma NextKeeps(s: State, e: Event, origin: Option<Bytes>)
    requires Inv(s, origin)
    ensures Inv(Next(s, e), origin) && Guarded(s, Next(s, e), e)
  {
    var s' := Next(s, e);
    match e
    case Spawn(pid, contents) =>
      forall j | 0 <= j < |s'.installers| ensures OwnFile(s', j) && Promised(s', j) {
        if j < |s.installers| { assert OwnFile(s, j) && Promised(s, j); }
      }
      forall j, l | 0 <= j < |s'.installers| && 0 <= l < |s'.installers| ensures DistinctFiles(s', j, l) {
        if j < |s.installers| && l < |s.installers| { assert DistinctFiles(s, j, l); }
      }
    case Act(i, o) =>
      if i < |s.installers| {
        hide Inv, Guarded;
        var at := s.installers[i].at;
        if s' != s {
          if o.Crash? { MoveKeeps(s, i, Crashed, e, origin); }
          else if at.Opening? { OpenKeeps(s, i, at.k, o, origin); }
          else if at.Writing? { WriteKeeps(s, i, o, origin); }
          else if at.Linking? { LinkKeeps(s, i, o, origin); }
          else if at.Unlinking? { UnlinkKeeps(s, i, o, origin); }
          else { MoveKeeps(s, i, s'.installers[i].at, e, origin); }
        }
      }
  }

  // ----- whole runs -----

  /** The bytes that the target names. */
  function TargetBytes(s: State): Option<Bytes> {
    if s.Present() && s.names[Target].inode < |s.files| then Some(s.files[s.names[Target].inode]) else None
  }

  /** Some installer was given exactly these bytes. */
  predicate SomebodysContents(s: State, b: Bytes) {
    exists i :: 0 <= i < |s.installers| && s.installers[i].contents == b
  }

  lemma {:induction false} RunKeeps(s: State, events: seq<Event>, origin: Option<Bytes>)
    requires Start(s, origin)
    ensures Inv(Run(s, events), origin)
  {
    hide Inv, Next;
    if events == [] {
      StartInv(s, origin);
    } else {
      var n := |events| - 1;
      RunKeeps(s, events[..n], origin);
      NextKeeps(Run(s, events[..n]), events[n], origin);
    }
  }

  lemma StartInv(s: State, origin: Option<Bytes>)
    requires Start(s, origin)
    ensures Inv(s, origin)
  {
  }

  /** What the target keeps from one state to a later one. */
  predicate TargetKept(s: State, s': State) {
    && (s.Present() ==> s'.Present() && s'.names[Target] == s.names[Target])
    && |s.installers| <= |s'.installers|
    && forall i :: 0 <= i < |s.installers| ==> s'.installers[i].contents == s.installers[i].contents
  }

  lemma GuardedKeepsTarget(s: State, s': State, e: Event)
    requires Guarded(s, s', e)
    ensures TargetKept(s, s')
  {
  }

  lemma TargetKeptTransitive(s: State, s': State, s'': State)
    requires TargetKept(s, s') && TargetKept(s', s'')
    ensures TargetKept(s, s'')
  {
  }

  lemma {:induction false} RunKeepsTarget(s: State, events: seq<Event>, k: nat, origin: Option<Bytes>)
    requires Start(s, origin) && k <= |events|
    ensures TargetKept(Run(s, events[..k]), Run(s, events))
    decreases |events|
  {
    hide Inv, Next, Guarded, Start;
    if k == |events| {
      assert events[..k] == events;
    } else {
      var n := |events| - 1;
      assert events[..n][..k] == events[..k];
      RunKeepsTarget(s, events[..n], k, origin);
      RunKeeps(s, events[..n], origin);
      var before := Run(s, events[..n]);
      NextKeeps(before, events[n], origin);
      GuardedKeepsTarget(before, Next(before, events[n]), events[n]);
      hide TargetKept;
      TargetKeptTransitive(Run(s, events[..k]), before, Run(s, events));
    }
  }

  lemma WholeBytes(s: State, origin: Option<Bytes>)
    requires TargetWhole(s, origin) && s.Present()
    ensures TargetBytes(s).Some? && (TargetBytes(s) == origin || SomebodysContents(s, TargetBytes(s).value))
  {
  }

  lemma SameBytes(s: State, s': State, origin: Option<Bytes>)
    requires TargetWhole(s, origin) && TargetWhole(s', origin) && TargetKept(s, s') && s.Present()
    ensures TargetBytes(s') == TargetBytes(s)
  {
  }

  /** In every run, whoever crashes and whatever fails: the target is absent or whole, being what it was before or
      the complete contents of one installer. */
  lemma TargetAbsentOrWhole(s: State, events: seq<Event>, origin: Option<Bytes>)
    requires Start(s, origin)
    ensures var s' := Run(s, events);
      s'.Present() ==> TargetBytes(s').Some? && (TargetBytes(s') == origin || SomebodysContents(s', TargetBytes(s').value))
  {
    hide Next, Run, Start, TargetBytes, SomebodysContents, TargetWhole, OwnFile, DistinctFiles;
    RunKeeps(s, events, origin);
    if Run(s, events).Present() { WholeBytes(Run(s, events), origin); }
  }

  /** Once there, it is never replaced, removed or written to. */
  lemma TargetNeverChanges(s: State, events: seq<Event>, k: nat, origin: Option<Bytes>)
    requires Start(s, origin) && k <= |events| && Run(s, events[..k]).Present()
    ensures Run(s, events).Present() && TargetBytes(Run(s, events)) == TargetBytes(Run(s, events[..k]))
  {
    hide Next, Run, Start, TargetBytes, TargetWhole, OwnFile, DistinctFiles;
    RunKeepsTarget(s, events, k, origin);
    RunKeeps(s, events[..k], origin);
    RunKeeps(s, events, origin);
    SameBytes(Run(s, events[..k]), Run(s, events), origin);
  }

  /** Whenever an installer has answered true, the target is there, then and ever after. */
  lemma TrueMeansInstalled(s: State, events: seq<Event>, k: nat, i: nat, origin: Option<Bytes>)
    requires Start(s, origin) && k <= |events|
    requires i < |Run(s, events[..k]).installers| && Run(s, events[..k]).installers[i].at == Returned(true)
    ensures Run(s, events).Present()
  {
    hide Next, Run, Start, TargetBytes, TargetWhole, OwnFile, DistinctFiles;
    RunKeeps(s, events[..k], origin);
    assert Promised(Run(s, events[..k]), i);
    TargetNeverChanges(s, events, k, origin);
  }

  /** A temporary name only ever disappears by the hand of the installer that made it. */
  lemma OnlyOwnNamesRemoved(s: State, events: seq<Event>, k: nat, n: Name, origin: Option<Bytes>)
    requires Start(s, origin) && k < |events|
    requires n in Run(s, events[..k]).names && n !in Run(s, events[..k + 1]).names
    ensures events[k].Act? && Run(s, events[..k]).names[n].maker == Some(events[k].who)
  {
    assert events[..k + 1][..k] == events[..k];
    RunKeeps(s, events[..k], origin);
    NextKeeps(Run(s, events[..k]), events[k], origin);
    hide Next, Inv;
  }

  // ----- an undisturbed installer succeeds -----

  function Times(e: Event, n: nat): seq<Event> { if n == 0 then [] else Times(e, n - 1) + [e] }

  lemma RunNone(s: State)
    ensures Run(s, []) == s
  {
  }

  lemma RunLast(s: State, events: seq<Event>)
    requires events != []
    ensures Run(s, events) == Next(Run(s, events[..|events| - 1]), events[|events| - 1])
  {
    hide Next;
  }

  lemma {:induction false} RunAppend(s: State, a: seq<Event>, b: seq<Event>)
    ensures Run(s, a + b) == Run(Run(s, a), b)
  {
    hide Next, Run;
    if b == [] {
      assert a + b == a;
      RunNone(Run(s, a));
    } else {
      var n := |b| - 1;
      RunAppend(s, a, b[..n]);
      RunLast(s, a + b);
      RunLast(Run(s, a), b);
      assert (a + b)[..|a| + n] == a + b[..n] && (a + b)[|a| + n] == b[n];
    }
  }

  lemma RunOne(s: State, e: Event)
    ensures Run(s, [e]) == Next(s, e)
  {
    assert [e][..0] == [];
    assert Run(s, []) == s;
  }

  lemma RunThree(s: State, a: Event, b: Event, c: Event)
    ensures Run(s, [a, b, c]) == Next(Next(Next(s, a), b), c)
  {
    hide Next;
    RunOne(s, a);
    assert [a, b][..1] == [a] && [a, b, c][..2] == [a, b];
    assert Run(s, [a, b]) == Next(Run(s, [a]), b);
  }

  lemma TimesLength(e: Event, n: nat)
    ensures |Times(e, n)| == n
  {
  }

  lemma PassOne(s: State, i: nat, k: nat)
    requires i < |s.installers| && k < ATTEMPTS && Temp(s.installers[i].pid, k) in s.names
    ensures Next(s.Move(i, Opening(k)), Act(i, Succeed(0))) == s.Move(i, Opening(k + 1))
  {
  }

  /** Names left behind by others are passed over, one attempt each. */
  lemma {:induction false} AttemptsPass(s: State, i: nat, k: nat)
    requires i < |s.installers| && k < ATTEMPTS
    requires forall j :: 0 <= j < k ==> Temp(s.installers[i].pid, j) in s.names
    ensures Run(s.Move(i, Opening(0)), Times(Act(i, Succeed(0)), k)) == s.Move(i, Opening(k))
  {
    hide Next;
    if k > 0 {
      var e := Act(i, Succeed(0));
      TimesLength(e, k - 1);
      assert Times(e, k)[..k - 1] == Times(e, k - 1);
      AttemptsPass(s, i, k - 1);
      PassOne(s, i, k - 1);
    }
  }

  /** Writing everything at one go. */
  lemma WriteAlone(s: State, i: nat, k: nat, inode: nat) returns (events: seq<Event>)
    requires i < |s.installers| && s.installers[i].at == Writing(k, inode, 0)
    requires inode < |s.files| && s.files[inode] == []
    ensures Run(s, events) == s.(files := s.files[inode := s.installers[i].contents]).Move(i, Closing(k, inode, true))
  {
    var go := Act(i, Succeed(0));
    var contents := s.installers[i].contents;
    if contents == [] {
      events := [go];
      RunOne(s, go);
      assert s.files[inode := contents] == s.files;
    } else {
      var all := Act(i, Succeed(|contents|));
      RunOne(s, all);
      RunOne(Next(s, all), go);
      RunAppend(s, [all], [go]);
      events := [all] + [go];
      assert [] + contents[0..|contents|] == contents;
      hide Run;
      assert Next(s, all) == s.(files := s.files[inode := contents]).Move(i, Writing(k, inode, |contents|));
      assert Next(Next(s, all), go) == Next(s, all).Move(i, Closing(k, inode, true));
    }
  }

  /** Closing, linking and unlinking. */
  lemma PublishAlone(s: State, i: nat, k: nat, inode: nat)
    requires i < |s.installers| && s.installers[i].at == Closing(k, inode, true) && !s.Present()
    ensures var go := Act(i, Succeed(0));
      Run(s, [go, go, go])
      == s.(names := s.names[Target := Entry(inode, Some(i))] - {Temp(s.installers[i].pid, k)}).Move(i, Returned(true))
  {
    var go := Act(i, Succeed(0));
    hide Next, Run;
    RunThree(s, go, go, go);
    CloseStep(s, i, k, inode);
    var s1 := s.Move(i, Linking(k, inode));
    LinkStep(s1, i, k, inode);
    var s2 := s1.(names := s.names[Target := Entry(inode, Some(i))]).Move(i, Unlinking(k, inode, true));
    UnlinkStep(s2, i, k, inode);
    var done := s2.(names := s2.names - {Temp(s.installers[i].pid, k)}).Move(i, Returned(true));
    assert done.installers == s.Move(i, Returned(true)).installers;
  }

  lemma CloseStep(s: State, i: nat, k: nat, inode: nat)
    requires i < |s.installers| && s.installers[i].at == Closing(k, inode, true)
    ensures Next(s, Act(i, Succeed(0))) == s.Move(i, Linking(k, inode))
  {
  }

  lemma LinkStep(s: State, i: nat, k: nat, inode: nat)
    requires i < |s.installers| && s.installers[i].at == Linking(k, inode) && !s.Present()
    ensures Next(s, Act(i, Succeed(0)))
      == s.(names := s.names[Target := Entry(inode, Some(i))]).Move(i, Unlinking(k, inode, true))
  {
  }

  lemma UnlinkStep(s: State, i: nat, k: nat, inode: nat)
    requires i < |s.installers| && s.installers[i].at == Unlinking(k, inode, true)
    ensures Next(s, Act(i, Succeed(0)))
      == s.(names := s.names - {Temp(s.installers[i].pid, k)}).Move(i, Returned(true))
  {
  }

  lemma CreateAlone(s: State, i: nat, k: nat)
    requires i < |s.installers| && s.installers[i].at == Opening(k) && k < ATTEMPTS
    requires Temp(s.installers[i].pid, k) !in s.names
    ensures Run(s, [Act(i, Succeed(0))])
      == s.(names := s.names[Temp(s.installers[i].pid, k) := Entry(|s.files|, Some(i))], files := s.files + [[]])
          .Move(i, Writing(k, |s.files|, 0))
  {
    RunOne(s, Act(i, Succeed(0)));
    hide Run;
    assert Next(s, Act(i, Succeed(0))) == Open(s, i, k, Succeed(0));
  }

  lemma BeginAlone(s: State, pid: nat, contents: Bytes)
    requires !s.Present()
    ensures var go := Act(|s.installers|, Succeed(0));
      Run(s, [Spawn(pid, contents), go, go]) == s.(installers := s.installers + [Installer(pid, contents, Opening(0))])
  {
    hide Run, Next;
    var i := |s.installers|;
    var go := Act(i, Succeed(0));
    RunThree(s, Spawn(pid, contents), go, go);
    var s1 := s.(installers := s.installers + [Installer(pid, contents, Checking)]);
    assert Next(s, Spawn(pid, contents)) == s1 by { SpawnStep(s, pid, contents); }
    PrepareStep(s1, i);
    assert s1.Move(i, Opening(0)).installers == s.installers + [Installer(pid, contents, Opening(0))];
  }

  lemma SpawnStep(s: State, pid: nat, contents: Bytes)
    ensures Next(s, Spawn(pid, contents)) == s.(installers := s.installers + [Installer(pid, contents, Checking)])
  {
  }

  lemma PrepareStep(s: State, i: nat)
    requires i < |s.installers| && s.installers[i].at == Checking && !s.Present()
    ensures Next(Next(s, Act(i, Succeed(0))), Act(i, Succeed(0))) == s.Move(i, Opening(0))
  {
    var s1 := Next(s, Act(i, Succeed(0)));
    assert s1 == s.Move(i, Preparing);
    assert s1.Move(i, Opening(0)).installers == s.Move(i, Opening(0)).installers;
  }

  /** Alone and without failures, with a free name among its hundred, an installer installs: the target holds its
      contents, and its temporary name is gone again. */
  lemma AloneItInstalls(s: State, pid: nat, contents: Bytes, k: nat) returns (events: seq<Event>)
    requires !s.Present() && k < 100
    requires Temp(pid, k) !in s.names && forall j :: 0 <= j < k ==> Temp(pid, j) in s.names
    ensures var s' := Run(s, events);
      && TargetBytes(s') == Some(contents)
      && s'.names.Keys == s.names.Keys + {Target}
      && |s'.installers| == |s.installers| + 1 && s'.installers[|s.installers|].at == Returned(true)
  {
    var i := |s.installers|;
    var go := Act(i, Succeed(0));
    hide Next, Run;
    BeginAlone(s, pid, contents);
    var s1 := s.(installers := s.installers + [Installer(pid, contents, Opening(0))]);
    assert s1.Move(i, Opening(0)) == s1;
    AttemptsPass(s1, i, k);
    var s2 := s1.Move(i, Opening(k));
    var start := [Spawn(pid, contents), go, go];
    RunAppend(s, start, Times(go, k));
    CreateAlone(s2, i, k);
    RunAppend(s, start + Times(go, k), [go]);
    var s3 := Run(s2, [go]);
    var writes := WriteAlone(s3, i, k, |s.files|);
    RunAppend(s, start + Times(go, k) + [go], writes);
    PublishAlone(Run(s3, writes), i, k, |s.files|);
    RunAppend(s, start + Times(go, k) + [go] + writes, [go, go, go]);
    events := start + Times(go, k) + [go] + writes + [go, go, go];
  }

  // ----- an installer among others -----

  /** None of the calls of installer `i` fails, and none of its writes writes nothing. */
  predicate Lucky(s: State, events: seq<Event>, i: nat) {
    forall j :: 0 <= j < |events| ==> LuckyAt(Run(s, events[..j]), events[j], i)
  }

  predicate LuckyAt(s: State, e: Event, i: nat) {
    e.Act? && e.who == i && i < |s.installers| ==>
      && e.outcome.Succeed?
      && (s.installers[i].at.Writing? && s.installers[i].at.done < |s.installers[i].contents| ==> e.outcome.n > 0)
  }

  /** Whenever installer `i` comes to its attempt number `k`, that name is free. */
  predicate MeetsFree(s: State, events: seq<Event>, i: nat, k: nat) {
    forall j :: 0 <= j < |events| ==> FreeAt(Run(s, events[..j]), i, k)
  }

  predicate FreeAt(s: State, i: nat, k: nat) {
    i < |s.installers| && s.installers[i].at == Opening(k) ==> Temp(s.installers[i].pid, k) !in s.names
  }

  /** Where such an installer can be: past no more than `k` attempts, with nothing failed but a link that found the
      target there. */
  predicate OnCourse(s: State, i: nat, k: nat)
    requires i < |s.installers|
  {
    match s.installers[i].at
    case Opening(j) => j <= k
    case Closing(_, _, written) => written
    case Unlinking(_, _, installed) => s.Present()
    case LastCheck => s.Present()
    case Returned(result) => result
    case Crashed => false
    case _ => true
  }

  /** The calls it can still make. */
  function CallsLeft(at: Place, size: nat): nat {
    match at
    case Checking => ATTEMPTS + size + 7
    case Preparing => ATTEMPTS + size + 6
    case Opening(j) => size + 5 + if j < ATTEMPTS then ATTEMPTS - j else 0
    case Writing(_, _, done) => 5 + if done < size then size - done else 0
    case Closing(_, _, _) => 4
    case Linking(_, _) => 3
    case Unlinking(_, _, _) => 2
    case LastCheck => 1
    case _ => 0
  }

  function Remaining(s: State, i: nat): nat
    requires i < |s.installers|
  {
    CallsLeft(s.installers[i].at, |s.installers[i].contents|)
  }

  function Calls(events: seq<Event>, i: nat): nat {
    if events == [] then 0
    else
      var last := events[|events| - 1];
      Calls(events[..|events| - 1], i) + if last.Act? && last.who == i then 1 else 0
  }

  /** Its own call keeps it on course and brings it nearer to its answer. */
  lemma OwnCall(s: State, i: nat, o: Outcome, k: nat, origin: Option<Bytes>)
    requires Inv(s, origin) && i < |s.installers| && k < ATTEMPTS && OnCourse(s, i, k) && FreeAt(s, i, k)
    requires LuckyAt(s, Act(i, o), i)
    ensures var s' := Next(s, Act(i, o));
      && i < |s'.installers| && OnCourse(s', i, k) && s'.installers[i].contents == s.installers[i].contents
      && (Remaining(s', i) < Remaining(s, i)
          || s'.installers[i].at == Returned(true))
  {
    assert OwnFile(s, i);
    hide Inv, DistinctFiles, TargetWhole;
  }

  lemma OthersStep(s: State, i: nat, e: Event, k: nat, origin: Option<Bytes>)
    requires Inv(s, origin) && i < |s.installers| && OnCourse(s, i, k) && !(e.Act? && e.who == i)
    ensures var s' := Next(s, e); i < |s'.installers| && OnCourse(s', i, k) && s'.installers[i] == s.installers[i]
  {
    NextKeeps(s, e, origin);
    OthersStay(s, i, e);
    hide Inv, Next;
  }

  lemma OthersStay(s: State, i: nat, e: Event)
    requires i < |s.installers| && !(e.Act? && e.who == i)
    ensures i < |Next(s, e).installers| && Next(s, e).installers[i] == s.installers[i]
  {
  }

  lemma {:induction false} StaysOnCourse(s: State, events: seq<Event>, i: nat, k: nat, origin: Option<Bytes>)
    requires Inv(s, origin) && i < |s.installers| && s.installers[i].at == Checking && k < ATTEMPTS
    requires Lucky(s, events, i) && MeetsFree(s, events, i, k)
    ensures var s' := Run(s, events);
      && Inv(s', origin) && i < |s'.installers| && OnCourse(s', i, k) && s'.installers[i].contents == s.installers[i].contents
      && (s'.installers[i].at == Returned(true) ||
          Calls(events, i) + Remaining(s', i) <= ATTEMPTS + |s.installers[i].contents| + 7)
  {
    hide Inv, Next, CallsLeft, FreeAt, LuckyAt;
    if events == [] {
      CheckingLeft(|s.installers[i].contents|);
    } else {
      var n := |events| - 1;
      var before := Run(s, events[..n]);
      forall j | 0 <= j < n
        ensures FreeAt(Run(s, events[..n][..j]), i, k) && LuckyAt(Run(s, events[..n][..j]), events[..n][j], i)
      {
        assert events[..n][..j] == events[..j] && LuckyAt(Run(s, events[..j]), events[j], i);
      }
      StaysOnCourse(s, events[..n], i, k, origin);
      NextKeeps(before, events[n], origin);
      assert FreeAt(before, i, k) && LuckyAt(before, events[n], i);
      if events[n].Act? && events[n].who == i {
        OwnCall(before, i, events[n].outcome, k, origin);
        if before.installers[i].at == Returned(true) { Answered(before, i, events[n].outcome); }
      } else {
        OthersStep(before, i, events[n], k, origin);
      }
    }
  }

  lemma CheckingLeft(size: nat)
    ensures CallsLeft(Checking, size) == ATTEMPTS + size + 7
  {
  }

  lemma Answered(s: State, i: nat, o: Outcome)
    requires i < |s.installers| && s.installers[i].at == Returned(true)
    ensures Next(s, Act(i, o)) == s
  {
  }

  /** In every run, whatever the others do meanwhile, an installer none of whose calls fails, and which finds one of its
      hundred names free, does not answer false, and has answered true after as many calls as there are attempts, bytes
      to write one by one, and seven more. */
  lemma LuckyInstalls(s: State, before: seq<Event>, pid: nat, contents: Bytes, after: seq<Event>, k: nat,
                      origin: Option<Bytes>)
    requires Start(s, origin) && k < 100
    requires var i := |Run(s, before).installers|;
      var spawned := Run(s, before + [Spawn(pid, contents)]);
      Lucky(spawned, after, i) && MeetsFree(spawned, after, i, k)
    ensures var i, s' := |Run(s, before).installers|, Run(s, before + [Spawn(pid, contents)] + after);
      && i < |s'.installers| && s'.installers[i].at != Returned(false)
      && (Calls(after, i) >= 100 + |contents| + 7 ==> s'.installers[i].at == Returned(true) && s'.Present())
  {
    hide Inv, Next, CallsLeft, Start, Lucky, MeetsFree, Calls;
    var i := |Run(s, before).installers|;
    var start := before + [Spawn(pid, contents)];
    assert start[..|before|] == before;
    RunKeeps(s, start, origin);
    SpawnStep(Run(s, before), pid, contents);
    RunAppend(s, start, after);
    StaysOnCourse(Run(s, start), after, i, k, origin);
    RunKeeps(s, start + after, origin);
    AnswerStands(Run(s, start + after), i, k, |contents|, origin);
  }

  lemma AnswerStands(s: State, i: nat, k: nat, size: nat, origin: Option<Bytes>)
    requires Inv(s, origin) && i < |s.installers| && OnCourse(s, i, k)
    ensures s.installers[i].at != Returned(false)
    ensures s.installers[i].at == Returned(true) ==> s.Present()
    ensures CallsLeft(s.installers[i].at, size) == 0 ==> s.installers[i].at == Returned(true)
  {
    assert Promised(s, i);
  }

  // ----- what an installer leaves behind -----

  /** Whenever installer `i` removes its temporary name, the removal succeeds. */
  predicate Tidy(s: State, events: seq<Event>, i: nat) {
    forall j :: 0 <= j < |events| ==> TidyAt(Run(s, events[..j]), events[j], i)
  }

  predicate TidyAt(s: State, e: Event, i: nat) {
    e.Act? && e.who == i && i < |s.installers| && s.installers[i].at.Unlinking? && !e.outcome.Crash? ==> e.outcome.Succeed?
  }

  /** The temporary names that installer `i` made and has not removed are the one it holds. */
  predicate OnlyHeld(s: State, i: nat) {
    forall n :: n in s.names && n.Temp? && s.names[n].maker == Some(i) ==>
      i < |s.installers| && (s.installers[i].at.Crashed? || (s.installers[i].at.Holds() && n == s.installers[i].Held()))
  }

  lemma StepOnlyHeld(s: State, e: Event, i: nat, origin: Option<Bytes>)
    requires Inv(s, origin) && OnlyHeld(s, i) && TidyAt(s, e, i)
    ensures OnlyHeld(Next(s, e), i)
  {
    if i < |s.installers| { assert OwnFile(s, i); }
    hide Inv;
  }

  lemma {:induction false} RunOnlyHeld(s: State, events: seq<Event>, i: nat, origin: Option<Bytes>)
    requires Start(s, origin) && (forall n :: n in s.names ==> s.names[n].maker == None) && Tidy(s, events, i)
    ensures OnlyHeld(Run(s, events), i)
  {
    hide Inv, Next, TidyAt, Start;
    if events != [] {
      var n := |events| - 1;
      forall j | 0 <= j < n ensures TidyAt(Run(s, events[..n][..j]), events[..n][j], i) {
        assert events[..n][..j] == events[..j] && TidyAt(Run(s, events[..j]), events[j], i);
      }
      RunOnlyHeld(s, events[..n], i, origin);
      RunKeeps(s, events[..n], origin);
      assert TidyAt(Run(s, events[..n]), events[n], i);
      StepOnlyHeld(Run(s, events[..n]), events[n], i, origin);
    }
  }

  /** In every run, an installer that has answered, whatever it answered and whatever failed on the way but the removal
      itself, has left none of its temporary names. */
  lemma NothingLeftBehind(s: State, events: seq<Event>, i: nat, origin: Option<Bytes>)
    requires Start(s, origin) && (forall n :: n in s.names ==> s.names[n].maker == None) && Tidy(s, events, i)
    requires i < |Run(s, events).installers| && Run(s, events).installers[i].at.Returned?
    ensures forall n :: n in Run(s, events).names && n.Temp? ==> Run(s, events).names[n].maker != Some(i)
  {
    RunOnlyHeld(s, events, i, origin);
    hide Run, Tidy, Start;
  }

  // ----- failures -----

  /** A target that is there and readable is answered for at once: nothing is touched. */
  lemma AlreadyInstalled(s: State, i: nat, n: nat)
    requires i < |s.installers| && s.installers[i].at == Checking && Target in s.names
    ensures var s' := Next(s, Act(i, Succeed(n)));
      s'.names == s.names && s'.files == s.files && s'.installers[i].at == Returned(true)
  {
  }

  /** Without a directory the answer is false, and when a name cannot be made for another reason than that it is there, no
      other is tried. */
  lemma SetupFails(s: State, i: nat)
    requires i < |s.installers|
    ensures var s' := Next(s, Act(i, Fail));
      && (s.installers[i].at == Preparing ==>
            s'.installers[i].at == Returned(false) && s'.names == s.names && s'.files == s.files)
      && (s.installers[i].at.Opening? ==> s'.installers[i].at == LastCheck && s'.names == s.names && s'.files == s.files)
  {
  }

  /** The installer has given up its file and has not linked it. */
  predicate GaveUp(s: State, i: nat) {
    && i < |s.installers|
    && (match s.installers[i].at
        case Closing(_, _, written) => !written
        case Unlinking(_, _, installed) => !installed
        case LastCheck => true
        case Returned(_) => true
        case Crashed => true
        case _ => false)
    && (Target in s.names ==> s.names[Target].maker != Some(i))
  }

  lemma StaysGivenUp(s: State, e: Event, i: nat)
    requires GaveUp(s, i)
    ensures GaveUp(Next(s, e), i)
  {
  }

  /** No target is linked to a file before its installer has linked it. */
  predicate Unlinked(s: State, i: nat) {
    i < |s.installers| ==>
      match s.installers[i].at
      case Unlinking(_, _, _) => true
      case LastCheck => true
      case Returned(_) => true
      case Crashed => true
      case _ => Target in s.names ==> s.names[Target].maker != Some(i)
  }

  lemma StepUnlinked(s: State, e: Event, i: nat)
    requires Unlinked(s, i) && (i >= |s.installers| && Target in s.names ==> s.names[Target].maker != Some(i))
    ensures Unlinked(Next(s, e), i)
    ensures i >= |Next(s, e).installers| && Target in Next(s, e).names ==> Next(s, e).names[Target].maker != Some(i)
  {
  }

  lemma {:induction false} RunUnlinked(s: State, events: seq<Event>, i: nat, origin: Option<Bytes>)
    requires Start(s, origin)
    ensures Unlinked(Run(s, events), i)
    ensures i >= |Run(s, events).installers| && Target in Run(s, events).names ==> Run(s, events).names[Target].maker != Some(i)
  {
    hide Next;
    if events != [] {
      RunUnlinked(s, events[..|events| - 1], i, origin);
      StepUnlinked(Run(s, events[..|events| - 1]), events[|events| - 1], i);
    }
  }

  lemma {:induction false} RunGivenUp(s: State, events: seq<Event>, i: nat)
    requires GaveUp(s, i)
    ensures GaveUp(Run(s, events), i)
  {
    hide Next, GaveUp;
    if events != [] {
      RunGivenUp(s, events[..|events| - 1], i);
      StaysGivenUp(Run(s, events[..|events| - 1]), events[|events| - 1], i);
    }
  }

  /** In every run, contents that could not be written, or a file that could not be closed, never become the target. */
  lemma FailedNeverLinks(s: State, before: seq<Event>, after: seq<Event>, i: nat, origin: Option<Bytes>)
    requires Start(s, origin) && i < |Run(s, before).installers|
    requires var me := Run(s, before).installers[i];
      me.at.Closing? || (me.at.Writing? && me.at.done < |me.contents|)
    ensures var s' := Run(s, before + [Act(i, Fail)] + after); Target in s'.names ==> s'.names[Target].maker != Some(i)
  {
    var now := Run(s, before);
    RunUnlinked(s, before, i, origin);
    assert GaveUp(Next(now, Act(i, Fail)), i);
    hide Next, GaveUp, Start;
    assert (before + [Act(i, Fail)])[..|before|] == before;
    RunLast(s, before + [Act(i, Fail)]);
    RunAppend(s, before + [Act(i, Fail)], after);
    RunGivenUp(Run(s, before + [Act(i, Fail)]), after, i);
    TargetNotHis(Run(s, before + [Act(i, Fail)] + after), i);
  }

  lemma TargetNotHis(s: State, i: nat)
    requires GaveUp(s, i)
    ensures Target in s.names ==> s.names[Target].maker != Some(i)
  {
  }
}
