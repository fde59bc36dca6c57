/** The text of `installFileAtomically` and `writeAll` of SimpleConfigLoader.cpp, issuing its system calls
    one at a time while other installers run in between: it takes exactly the steps of the state machine. */
module InstallerProgram {
  import opened Octets
  import opened AtomicInstall

  /** What happens around one call: the steps of others since the last, and how the call turns out. */
  datatype Weather = Weather(others: seq<Event>, outcome: Outcome)

  /** The others do not act for installer `i`, and it lives to see the outcome. */
  predicate Fair(w: Weather, i: nat) {
    !w.outcome.Crash? && forall e :: e in w.others ==> e.Spawn? || e.who != i
  }

  lemma {:induction false} OthersKeepPlace(s: State, others: seq<Event>, i: nat)
    requires i < |s.installers| && forall e :: e in others ==> e.Spawn? || e.who != i
    ensures var s' := Run(s, others); i < |s'.installers| && s'.installers[i] == s.installers[i]
  {
    if others != [] {
      var front, last := others[..|others| - 1], others[|others| - 1];
      assert last in others;
      OthersKeepPlace(s, front, i);
      OtherKeepsPlace(Run(s, front), last, i);
    }
  }

  lemma OtherKeepsPlace(s: State, e: Event, i: nat)
    requires i < |s.installers| && (e.Spawn? || e.who != i)
    ensures var s' := Next(s, e); i < |s'.installers| && s'.installers[i] == s.installers[i]
  {
  }

  datatype OpenResult = Descriptor(inode: nat) | Exists | Failed

  /** The directory all installers share, with the history that led to its state. */
  class Disk {
    ghost const start: State
    var state: State
    ghost var history: seq<Event>

    constructor (s: State)
      ensures start == s && state == s && history == [] && Valid()
    {
      start, state, history := s, s, [];
    }

    ghost predicate Valid()
      reads this
    {
      state == Run(start, history)
    }

    ghost predicate At(i: nat, at: Place)
      reads this
    {
      i < |state.installers| && state.installers[i].at == at
    }

    /** Others move, then installer `i` makes its step. */
    method Call(i: nat, w: Weather)
      requires Valid() && i < |state.installers| && Fair(w, i)
      modifies this
      ensures Valid() && old(history) <= history
      ensures history == old(history) + w.others + [Act(i, w.outcome)]
      ensures var before := Run(old(state), w.others);
        && i < |before.installers| && before.installers[i] == old(state).installers[i]
        && state == Next(before, Act(i, w.outcome))
    {
      hide Next;
      OthersKeepPlace(state, w.others, i);
      RunAppend(start, history, w.others);
      state := Run(state, w.others);
      history := history + w.others;
      RunOne(state, Act(i, w.outcome));
      RunAppend(start, history, [Act(i, w.outcome)]);
      state := Next(state, Act(i, w.outcome));
      history := history + [Act(i, w.outcome)];
    }

    method IsReadableFile(i: nat, w: Weather) returns (readable: bool)
      requires Valid() && (At(i, Checking) || At(i, LastCheck)) && Fair(w, i)
      modifies this
      ensures Valid() && old(history) <= history
      ensures At(i, if old(At(i, LastCheck)) || readable then Returned(readable) else Preparing)
    {
      Call(i, w);
      readable := state.installers[i].at == Returned(true);
    }

    method CreateDirectory(i: nat, w: Weather) returns (created: bool)
      requires Valid() && At(i, Preparing) && Fair(w, i)
      modifies this
      ensures Valid() && old(history) <= history && At(i, if created then Opening(0) else Returned(false))
    {
      Call(i, w);
      created := w.outcome.Succeed?;
    }

    method OpenExclusive(i: nat, attempt: nat, w: Weather) returns (r: OpenResult)
      requires Valid() && At(i, Opening(attempt)) && attempt < ATTEMPTS && Fair(w, i)
      modifies this
      ensures Valid() && old(history) <= history
      ensures At(i, match r case Descriptor(inode) => Writing(attempt, inode, 0) case Exists => Opening(attempt + 1) case Failed => LastCheck)
      ensures i < |state.installers| && state.installers[i].contents == old(state).installers[i].contents
    {
      Call(i, w);
      var at := state.installers[i].at;
      r := if at.Writing? then Descriptor(at.inode) else if at.Opening? then Exists else Failed;
    }

    /** `write`: the number of bytes taken, or at most 0 for an error. */
    method Write(i: nat, w: Weather, ghost k: nat, ghost inode: nat, done: nat) returns (written: int)
      requires Valid() && At(i, Writing(k, inode, done)) && done < |state.installers[i].contents| && Fair(w, i)
      modifies this
      ensures Valid() && old(history) <= history
      ensures i < |state.installers| && state.installers[i].contents == old(state).installers[i].contents
      ensures written <= |state.installers[i].contents| - done
      ensures At(i, if written > 0 then Writing(k, inode, done + written) else Closing(k, inode, false))
    {
      Call(i, w);
      var at := state.installers[i].at;
      written := if at.Writing? then at.done - done else -1;
    }

    method Close(i: nat, w: Weather, ghost k: nat, ghost inode: nat, ghost written: bool) returns (closed: bool)
      requires Valid() && At(i, Closing(k, inode, written)) && Fair(w, i)
      modifies this
      ensures Valid() && old(history) <= history
      ensures At(i, if written && closed then Linking(k, inode) else Unlinking(k, inode, false))
    {
      Call(i, w);
      closed := w.outcome.Succeed?;
    }

    method Link(i: nat, w: Weather, ghost k: nat, ghost inode: nat) returns (linked: bool)
      requires Valid() && At(i, Linking(k, inode)) && Fair(w, i)
      modifies this
      ensures Valid() && old(history) <= history && At(i, Unlinking(k, inode, linked))
    {
      Call(i, w);
      linked := state.installers[i].at.Unlinking? && state.installers[i].at.installed;
    }

    method Unlink(i: nat, w: Weather, ghost k: nat, ghost inode: nat, ghost installed: bool)
      requires Valid() && At(i, Unlinking(k, inode, installed)) && Fair(w, i)
      modifies this
      ensures Valid() && old(history) <= history && At(i, if installed then Returned(true) else LastCheck)
    {
      Call(i, w);
    }
  }

  /** A step in which the program only moves on. */
  const STILL: Weather := Weather([], Succeed(0))

  /** `writeAll`: the weather of its calls begins at `t`. */
  method WriteAll(d: Disk, i: nat, weather: nat -> Weather, t: nat, ghost k: nat, ghost inode: nat)
    returns (written: bool, t': nat)
    requires d.Valid() && d.At(i, Writing(k, inode, 0)) && forall n :: Fair(weather(n), i)
    modifies d
    ensures old(d.history) <= d.history
    ensures d.Valid() && d.At(i, Closing(k, inode, written))
  {
    ghost var contents := d.state.installers[i].contents;
    var length := |d.state.installers[i].contents|;
    var data := 0;
    t' := t;
    while length != 0
      invariant old(d.history) <= d.history
      invariant d.Valid() && d.At(i, Writing(k, inode, data)) && d.state.installers[i].contents == contents
      invariant length >= 0 && data + length == |contents|
      decreases length
    {
      var n := d.Write(i, weather(t'), k, inode, data);
      t' := t' + 1;
      if n <= 0 { return false, t'; }
      data := data + n;
      length := length - n;
    }
    d.Call(i, STILL);
    return true, t';
  }

  /** `installFileAtomically`: whatever the others do and whichever calls fail, the program goes through the state
      machine to an answer, and the answer true is given only with the target in place. */
  method InstallFileAtomically(d: Disk, i: nat, weather: nat -> Weather) returns (result: bool)
    requires d.Valid() && d.At(i, Checking) && forall n :: Fair(weather(n), i)
    modifies d
    ensures old(d.history) <= d.history
    ensures d.Valid() && d.At(i, Returned(result))
    ensures result ==> forall origin :: Start(d.start, origin) ==> d.state.Present()
  {
    result := Proceed(d, i, weather);
    forall origin | result && Start(d.start, origin) ensures d.state.Present() {
      assert d.history[..|d.history|] == d.history;
      TrueMeansInstalled(d.start, d.history, |d.history|, i, origin);
    }
  }

  /** What follows the creation of a temporary file: fill it, close it, link it, and remove its name. */
  method Publish(d: Disk, i: nat, weather: nat -> Weather, t: nat, ghost k: nat, ghost inode: nat) returns (result: bool)
    requires d.Valid() && d.At(i, Writing(k, inode, 0)) && forall n :: Fair(weather(n), i)
    modifies d
    ensures old(d.history) <= d.history
    ensures d.Valid() && d.At(i, Returned(result))
  {
    var written, t' := WriteAll(d, i, weather, t, k, inode);
    var closed := d.Close(i, weather(t'), k, inode, written);
    var installed := false;
    if written && closed {
      installed := d.Link(i, weather(t' + 1), k, inode);
    }
    d.Unlink(i, weather(t' + 2), k, inode, installed);
    if installed { return true; }
    result := d.IsReadableFile(i, weather(t' + 3));
  }

  method Proceed(d: Disk, i: nat, weather: nat -> Weather) returns (result: bool)
    requires d.Valid() && d.At(i, Checking) && forall n :: Fair(weather(n), i)
    modifies d
    ensures old(d.history) <= d.history
    ensures d.Valid() && d.At(i, Returned(result))
  {
    var readable := d.IsReadableFile(i, weather(0));
    if readable { return true; }
    var created := d.CreateDirectory(i, weather(1));
    if !created { return false; }
    var t := 2;
    for attempt := 0 to ATTEMPTS
      invariant old(d.history) <= d.history && d.Valid() && d.At(i, Opening(attempt))
    {
      var descriptor := d.OpenExclusive(i, attempt, weather(t));
      t := t + 1;
      if descriptor.Exists? { continue; }
      if descriptor.Failed? {
        result := d.IsReadableFile(i, weather(t));
        return;
      }
      result := Publish(d, i, weather, t, attempt, descriptor.inode);
      return;
    }
    d.Call(i, STILL);
    result := d.IsReadableFile(i, weather(t));
  }
}
