/** What a command line means, from the side of whoever writes it: each use of an option is spelled out in words, and
    the parser of getopt.cpp is shown to report these uses and no others. */
module CommandLine {
  import opened Wrappers
  import opened Getopt

  // ----- declarations, read off the option string -----

  /** The first place of `c` among the declarations, which a leading `+` or `-` is no part of. */
  predicate DeclaredAt(cfg: Config, c: char, k: nat) {
    var first := if cfg.options != "" && (cfg.options[0] == '+' || cfg.options[0] == '-') then 1 else 0;
    && first <= k < |cfg.options| && cfg.options[k] == c
    && forall j :: first <= j < k ==> cfg.options[j] != c
  }

  predicate Follows(cfg: Config, k: nat, c: char) { k < |cfg.options| && cfg.options[k] == c }

  /** No declaration: `?` is reported. */
  ghost predicate Undeclared(cfg: Config, c: char) { c == ':' || forall k: nat :: !DeclaredAt(cfg, c, k) }

  ghost predicate TakesNone(cfg: Config, c: char) {
    c != ':' && exists k: nat :: DeclaredAt(cfg, c, k) && !Follows(cfg, k + 1, ':') && !(c == 'W' && Follows(cfg, k + 1, ';'))
  }

  ghost predicate TakesOne(cfg: Config, c: char) {
    c != ':' && exists k: nat :: DeclaredAt(cfg, c, k) && Follows(cfg, k + 1, ':') && !Follows(cfg, k + 2, ':')
  }

  ghost predicate MayTakeOne(cfg: Config, c: char) {
    c != ':' && exists k: nat :: DeclaredAt(cfg, c, k) && Follows(cfg, k + 1, ':') && Follows(cfg, k + 2, ':')
  }

  /** `W;`: the letter stands for two dashes. */
  ghost predicate StandsForDashes(cfg: Config, c: char) {
    c == 'W' && exists k: nat :: DeclaredAt(cfg, c, k) && Follows(cfg, k + 1, ';')
  }

  predicate Moving(cfg: Config) {
    !cfg.posixlyCorrect && !(cfg.options != "" && (cfg.options[0] == '+' || cfg.options[0] == '-'))
  }

  predicate Reporting(cfg: Config) { !cfg.posixlyCorrect && cfg.options != "" && cfg.options[0] == '-' }

  const QUESTION: int := '?' as int

  /** What is returned for a missing or superfluous argument: `:` if the declarations begin with one. */
  function ArgumentError(cfg: Config): int {
    if (|cfg.options| > 0 && cfg.options[0] == ':')
       || (|cfg.options| > 1 && (cfg.options[0] == '+' || cfg.options[0] == '-') && cfg.options[1] == ':')
    then ':' as int else QUESTION
  }

  /** `key` picks long option `k`: as its full name, with at most one earlier name of which it is a part, or as the
      beginning of this name alone. */
  ghost predicate Picks(longs: seq<LongOption>, key: string, k: nat) {
    && k < |longs| && key <= longs[k].name
    && if longs[k].name == key then
         && (forall j :: 0 <= j < k ==> longs[j].name != key)
         && (forall i, j :: 0 <= i < j < k ==> !(key <= longs[i].name && key <= longs[j].name))
       else
         forall j :: 0 <= j < |longs| && j != k ==> !(key <= longs[j].name)
  }

  ghost predicate Picked(longs: seq<LongOption>, key: string) { exists k: nat :: Picks(longs, key, k) }

  ghost function Pick(longs: seq<LongOption>, key: string): (k: nat)
    requires Picked(longs, key)
    ensures Picks(longs, key, k)
  {
    var k: nat :| Picks(longs, key, k);
    k
  }

  // ----- uses of options -----

  /** How the text of a long option is led up to. */
  datatype Lead = Dashes | InWord(flags: string) | NextWord(flags: string)

  datatype Use =
    | Word(w: string)                                     // no option
    | Flags(flags: string)                                // -abc
    | LetterWith(flags: string, c: char, arg: string)     // -abcARG
    | LetterThen(flags: string, c: char, arg: string)     // -abc ARG
    | LetterAlone(flags: string, c: char)                 // -abc, the last letter without its optional argument
    | LongWith(lead: Lead, key: string, arg: string)      // --key=ARG
    | LongThen(lead: Lead, key: string, arg: string)      // --key ARG
    | LongAlone(lead: Lead, key: string)                  // --key

  function Led(lead: Lead, text: string): seq<string> {
    match lead
    case Dashes => ["--" + text]
    case InWord(flags) => ["-" + (flags + ("W" + text))]
    case NextWord(flags) => ["-" + (flags + "W"), text]
  }

  function Words(u: Use): (ws: seq<string>)
    ensures ws != []
  {
    match u
    case Word(w) => [w]
    case Flags(flags) => ["-" + flags]
    case LetterWith(flags, c, arg) => ["-" + (flags + ([c] + arg))]
    case LetterThen(flags, c, arg) => ["-" + (flags + [c]), arg]
    case LetterAlone(flags, c) => ["-" + (flags + [c])]
    case LongWith(lead, key, arg) => Led(lead, key + ("=" + arg))
    case LongThen(lead, key, arg) => Led(lead, key) + [arg]
    case LongAlone(lead, key) => Led(lead, key)
  }

  /** Letters that go without an argument, declared or not; a dash does not stand first. */
  ghost predicate GoodFlags(cfg: Config, flags: string) {
    && (flags != "" ==> flags[0] != '-')
    && forall i :: 0 <= i < |flags| ==> TakesNone(cfg, flags[i]) || Undeclared(cfg, flags[i])
  }

  ghost predicate GoodLead(cfg: Config, lead: Lead) {
    lead.Dashes? || (GoodFlags(cfg, lead.flags) && StandsForDashes(cfg, 'W'))
  }

  predicate NoEquals(key: string) { forall i :: 0 <= i < |key| ==> key[i] != '=' }

  predicate GoodKey(key: string) { key != "" && NoEquals(key) }

  ghost predicate GoodUse(cfg: Config, u: Use) {
    match u
    case Word(w) => (Moving(cfg) || Reporting(cfg)) && !(|w| >= 2 && w[0] == '-')
    case Flags(flags) => flags != "" && GoodFlags(cfg, flags)
    case LetterWith(flags, c, arg) =>
      GoodFlags(cfg, flags) && (flags == "" ==> c != '-') && (TakesOne(cfg, c) || MayTakeOne(cfg, c)) && arg != ""
    case LetterThen(flags, c, arg) => GoodFlags(cfg, flags) && (flags == "" ==> c != '-') && TakesOne(cfg, c)
    case LetterAlone(flags, c) => GoodFlags(cfg, flags) && (flags == "" ==> c != '-') && MayTakeOne(cfg, c)
    case LongWith(lead, key, arg) => GoodLead(cfg, lead) && NoEquals(key)
    case LongThen(lead, key, arg) =>
      GoodLead(cfg, lead) && GoodKey(key) && Picked(cfg.longs, key)
      && cfg.longs[Pick(cfg.longs, key)].hasArg == RequiredArgument
    case LongAlone(lead, key) =>
      GoodLead(cfg, lead) && GoodKey(key)
      && (Picked(cfg.longs, key) ==> cfg.longs[Pick(cfg.longs, key)].hasArg != RequiredArgument)
  }

  /** What the caller is told: the returned value, `optarg`, what `optopt` is set to, and the long option's index. */
  datatype Told = Told(ret: int, arg: Option<string>, bad: Option<int>, idx: Option<nat>)

  ghost function FlagTold(cfg: Config, c: char): Told {
    if TakesNone(cfg, c) then Told(c as int, None, None, None) else Told(QUESTION, None, Some(c as int), None)
  }

  ghost function FlagsTold(cfg: Config, flags: string): (ts: seq<Told>)
    ensures |ts| == |flags|
  {
    if flags == "" then [] else [FlagTold(cfg, flags[0])] + FlagsTold(cfg, flags[1..])
  }

  ghost function LongTold(cfg: Config, key: string, arg: Option<string>): Told {
    if !Picked(cfg.longs, key) then Told(QUESTION, None, Some(0), None)
    else
      var k := Pick(cfg.longs, key);
      var o := cfg.longs[k];
      if o.hasArg == NoArgument && arg.Some? then Told(ArgumentError(cfg), None, Some(if o.flag then 0 else o.val), None)
      else Told(if o.flag then 0 else o.val, arg, None, Some(k))
  }

  ghost function LeadTold(cfg: Config, lead: Lead): seq<Told> {
    if lead.Dashes? then [] else FlagsTold(cfg, lead.flags)
  }

  /** The reports of one use. */
  ghost function UseTold(cfg: Config, u: Use): seq<Told> {
    match u
    case Word(w) => if Reporting(cfg) then [Told(1, Some(w), None, None)] else []
    case Flags(flags) => FlagsTold(cfg, flags)
    case LetterWith(flags, c, arg) => FlagsTold(cfg, flags) + [Told(c as int, Some(arg), None, None)]
    case LetterThen(flags, c, arg) => FlagsTold(cfg, flags) + [Told(c as int, Some(arg), None, None)]
    case LetterAlone(flags, c) => FlagsTold(cfg, flags) + [Told(c as int, None, None, None)]
    case LongWith(lead, key, arg) => LeadTold(cfg, lead) + [LongTold(cfg, key, Some(arg))]
    case LongThen(lead, key, arg) => LeadTold(cfg, lead) + [LongTold(cfg, key, Some(arg))]
    case LongAlone(lead, key) => LeadTold(cfg, lead) + [LongTold(cfg, key, None)]
  }

  /** What can come last: nothing, `--` or its like and words that are not looked at, the first word that is no option
      where the parser stops there, or an option without its argument. */
  datatype End =
    | Nothing
    | DoubleDash(rest: seq<string>)
    | EmptyText(flags: string, rest: seq<string>)         // -W ""
    | FirstWord(rest: seq<string>)
    | LetterLacks(flags: string, c: char)
    | LongLacks(lead: Lead, key: string)

  function EndWords(e: End): seq<string> {
    match e
    case Nothing => []
    case DoubleDash(rest) => ["--"] + rest
    case EmptyText(flags, rest) => ["-" + (flags + "W"), ""] + rest
    case FirstWord(rest) => rest
    case LetterLacks(flags, c) => ["-" + (flags + [c])]
    case LongLacks(lead, key) => Led(lead, key)
  }

  ghost predicate GoodEnd(cfg: Config, e: End) {
    match e
    case Nothing => true
    case DoubleDash(rest) => true
    case EmptyText(flags, rest) => GoodFlags(cfg, flags) && StandsForDashes(cfg, 'W')
    case FirstWord(rest) => !Moving(cfg) && !Reporting(cfg) && rest != [] && !(|rest[0]| >= 2 && rest[0][0] == '-')
    case LetterLacks(flags, c) =>
      GoodFlags(cfg, flags) && (flags == "" ==> c != '-') && (TakesOne(cfg, c) || StandsForDashes(cfg, c))
    case LongLacks(lead, key) =>
      GoodLead(cfg, lead) && GoodKey(key) && Picked(cfg.longs, key)
      && cfg.longs[Pick(cfg.longs, key)].hasArg == RequiredArgument
  }

  ghost function EndTold(cfg: Config, e: End): seq<Told> {
    match e
    case Nothing => []
    case DoubleDash(rest) => []
    case EmptyText(flags, rest) => FlagsTold(cfg, flags)
    case FirstWord(rest) => []
    case LetterLacks(flags, c) => FlagsTold(cfg, flags) + [Told(ArgumentError(cfg), None, Some(c as int), None)]
    case LongLacks(lead, key) =>
      var o := if Picked(cfg.longs, key) then cfg.longs[Pick(cfg.longs, key)] else LongOption("", NoArgument, false, 0);
      LeadTold(cfg, lead) + [Told(ArgumentError(cfg), None, Some(if o.flag then 0 else o.val), None)]
  }

  /** The words of an end that belong to options. */
  function EndTaken(e: End): (n: nat)
    ensures n <= |EndWords(e)|
  {
    match e
    case DoubleDash(rest) => 1
    case EmptyText(flags, rest) => 2
    case FirstWord(rest) => 0
    case _ => |EndWords(e)|
  }

  // ----- the declarations as the parser finds them -----

  lemma {:induction false} FindFirst(s: string, c: char, k: nat)
    requires k < |s| && s[k] == c && forall j :: 0 <= j < k ==> s[j] != c
    ensures Find(s, c) == k
  {
    if k > 0 { FindFirst(s[1..], c, k - 1); }
  }

  lemma {:induction false} FindNone(s: string, c: char)
    requires forall j :: 0 <= j < |s| ==> s[j] != c
    ensures Find(s, c) == |s|
  {
    if s != "" { FindNone(s[1..], c); }
  }

  lemma DeclaredFound(cfg: Config, c: char, k: nat)
    requires DeclaredAt(cfg, c, k)
    ensures var first := if cfg.IgnoreFirst() then 1 else 0;
      k >= first && Find(cfg.Letters(), c) == k - first < |cfg.Letters()| && |cfg.Letters()| == |cfg.options| - first
      && forall j :: k <= j < |cfg.options| ==> cfg.Letters()[j - first] == cfg.options[j]
  {
    var first := if cfg.IgnoreFirst() then 1 else 0;
    forall j | 0 <= j < k - first ensures cfg.Letters()[j] != c {
      assert cfg.Letters()[j] == cfg.options[j + first];
    }
    FindFirst(cfg.Letters(), c, k - first);
  }

  lemma DeclaredOnce(cfg: Config, c: char, j: nat, k: nat)
    requires DeclaredAt(cfg, c, j) && DeclaredAt(cfg, c, k)
    ensures j == k
  {
  }

  /** What the parser makes of the characters behind a declaration. */
  lemma DeclaredKind(cfg: Config, c: char, k: nat)
    requires DeclaredAt(cfg, c, k) && c != ':'
    ensures LetterOf(cfg, c) ==
      if Follows(cfg, k + 1, ':') then if Follows(cfg, k + 2, ':') then Optional else Required
      else if c == 'W' && Follows(cfg, k + 1, ';') then LongPrefix
      else Plain
  {
    hide DeclaredAt, Find, Config.Letters, CharAt, Follows;
    DeclaredFound(cfg, c, k);
    Behind(cfg, c, k, 1, ':');
    Behind(cfg, c, k, 2, ':');
    Behind(cfg, c, k, 1, ';');
  }

  lemma Behind(cfg: Config, c: char, k: nat, n: nat, x: char)
    requires DeclaredAt(cfg, c, k) && x != '\0'
    ensures Follows(cfg, k + n, x) <==> CharAt(cfg.Letters(), Find(cfg.Letters(), c) + n) == x
  {
    hide DeclaredAt, Find, Config.Letters, Config.IgnoreFirst;
    DeclaredFound(cfg, c, k);
  }

  lemma NowhereDeclared(cfg: Config, c: char)
    requires forall k: nat :: !DeclaredAt(cfg, c, k)
    ensures LetterOf(cfg, c) == Unknown
  {
    forall j | 0 <= j < |cfg.Letters()| ensures cfg.Letters()[j] != c {
      if cfg.Letters()[j] == c { SomeDeclared(cfg, c, j); }
    }
    hide DeclaredAt;
    FindNone(cfg.Letters(), c);
  }

  lemma ColonUnknown(cfg: Config)
    ensures LetterOf(cfg, ':') == Unknown
  {
    hide Find;
  }

  /** How a letter is declared is how it is read. */
  lemma LetterKinds(cfg: Config, c: char)
    ensures Undeclared(cfg, c) ==> LetterOf(cfg, c) == Unknown
    ensures TakesNone(cfg, c) ==> LetterOf(cfg, c) == Plain
    ensures TakesOne(cfg, c) ==> LetterOf(cfg, c) == Required
    ensures MayTakeOne(cfg, c) ==> LetterOf(cfg, c) == Optional
    ensures StandsForDashes(cfg, c) ==> LetterOf(cfg, c) == LongPrefix
  {
    hide LetterOf, DeclaredAt;
    if c == ':' {
      ColonUnknown(cfg);
    } else if k: nat :| DeclaredAt(cfg, c, k) {
      DeclaredKind(cfg, c, k);
      forall j: nat | DeclaredAt(cfg, c, j) ensures j == k { DeclaredOnce(cfg, c, j, k); }
    } else {
      NowhereDeclared(cfg, c);
    }
  }

  lemma {:induction false} SomeDeclared(cfg: Config, c: char, j: nat)
    requires j < |cfg.Letters()| && cfg.Letters()[j] == c
    ensures exists k: nat :: DeclaredAt(cfg, c, k)
    decreases j
  {
    var first := if cfg.IgnoreFirst() then 1 else 0;
    if i :| 0 <= i < j && cfg.Letters()[i] == c {
      SomeDeclared(cfg, c, i);
    } else {
      assert DeclaredAt(cfg, c, j + first) by {
        forall i | first <= i < j + first ensures cfg.options[i] != c { assert cfg.Letters()[i - first] == cfg.options[i]; }
      }
    }
  }

  lemma Modes(cfg: Config)
    ensures Moving(cfg) == cfg.Permutes() && Reporting(cfg) == cfg.InOrder() && ArgumentError(cfg) == cfg.BadArg()
  {
  }

  // ----- long names as the parser matches them -----

  /** The state of the matching loop before entry `i`. */
  ghost predicate MatchedSoFar(longs: seq<LongOption>, key: string, i: nat, partial: Option<nat>) {
    && i <= |longs|
    && (forall j :: 0 <= j < i ==> longs[j].name != key)
    && (partial.None? ==> forall j :: 0 <= j < i ==> !(key <= longs[j].name))
    && (partial.Some? ==> partial.value < i && forall j :: 0 <= j < i ==> (key <= longs[j].name <==> j == partial.value))
  }

  lemma {:induction false} FindLongPicks(longs: seq<LongOption>, key: string, i: nat, partial: Option<nat>)
    requires MatchedSoFar(longs, key, i, partial)
    ensures var m := FindLong(key, longs, i, partial);
      (m.Found? ==> Picks(longs, key, m.index)) && (!m.Found? ==> !Picked(longs, key))
    decreases |longs| - i
  {
    if i < |longs| {
      assert key <= longs[i].name && |longs[i].name| == |key| ==> longs[i].name == key;
      if !(key <= longs[i].name) {
        FindLongPicks(longs, key, i + 1, partial);
      } else if |longs[i].name| != |key| && partial.None? {
        FindLongPicks(longs, key, i + 1, Some(i));
      } else if |longs[i].name| != |key| {
        forall k: nat | Picks(longs, key, k) ensures false { TwoPartial(longs, key, partial.value, i, k); }
      }
    }
  }

  lemma TwoPartial(longs: seq<LongOption>, key: string, p: nat, i: nat, k: nat)
    requires p < i < |longs| && key <= longs[p].name && key <= longs[i].name
    requires forall j :: 0 <= j <= i ==> longs[j].name != key
    ensures !Picks(longs, key, k)
  {
  }

  lemma PicksOnce(longs: seq<LongOption>, key: string, j: nat, k: nat)
    requires Picks(longs, key, j) && Picks(longs, key, k)
    ensures j == k
  {
  }

  /** The matching loop finds what is picked, and nothing else. */
  lemma MatchesPicked(longs: seq<LongOption>, key: string)
    ensures Picked(longs, key) ==> FindLong(key, longs, 0, None) == Found(Pick(longs, key))
    ensures !Picked(longs, key) ==> !FindLong(key, longs, 0, None).Found?
  {
    FindLongPicks(longs, key, 0, None);
    var m := FindLong(key, longs, 0, None);
    if m.Found? { PicksOnce(longs, key, m.index, Pick(longs, key)); }
  }

  // ----- what a run tells from a place on -----

  function ToldOf(e: Event): Told
    requires e.Report?
  {
    Told(e.ret, e.arg, e.bad, e.idx)
  }

  function AllTold(es: seq<Event>): (ts: seq<Told>)
    requires forall k | 0 <= k < |es| :: es[k].Report?
    ensures |ts| == |es|
  {
    seq(|es|, k requires 0 <= k < |es| => ToldOf(es[k]))
  }

  /** All that the parser makes of the words from a place on: what it tells, where it stops, and, from the start of a
      word, which words belong to options. */
  datatype Reading = Reading(told: seq<Told>, stop: nat)

  function ReadFrom(cfg: Config, words: seq<string>, i: nat, place: string): Reading
    requires place != "" ==> i < |words|
  {
    Reading(AllTold(Reports(cfg, words, i, place)), StopOf(cfg, words, i, place))
  }

  function Before(ts: seq<Told>, r: Reading): Reading { Reading(ts + r.told, r.stop) }

  lemma ReadStep(cfg: Config, words: seq<string>, i: nat, place: string, e: Event)
    requires place != "" ==> i < |words|
    requires e == CallEvent(cfg, words, i, place)
    ensures e.Report? ==>
      (e.place != "" ==> e.next < |words|)
      && ReadFrom(cfg, words, i, place) == Before([ToldOf(e)], ReadFrom(cfg, words, e.next, e.place))
    ensures e.Stop? ==> ReadFrom(cfg, words, i, place) == Reading([], e.next)
  {
    CallProgress(cfg, words, i, place);
    StopStep(cfg, words, i, place);
    hide CallEvent, StopOf;
    if e.Report? {
      assert Reports(cfg, words, i, place) == [e] + Reports(cfg, words, e.next, e.place);
    }
  }

  lemma BeforeTwice(ts: seq<Told>, us: seq<Told>, r: Reading)
    ensures Before(ts, Before(us, r)) == Before(ts + us, r) && Before([], r) == r
  {
    assert ts + (us + r.told) == ts + us + r.told;
  }

  // ----- a word of letters -----

  /** The letters `flags` in front of the rest of their word. */
  lemma {:induction false} FlagsRead(cfg: Config, words: seq<string>, i: nat, flags: string, rest: string)
    requires i < |words| && rest != ""
    requires forall j :: 0 <= j < |flags| ==> TakesNone(cfg, flags[j]) || Undeclared(cfg, flags[j])
    ensures ReadFrom(cfg, words, i, flags + rest) == Before(FlagsTold(cfg, flags), ReadFrom(cfg, words, i, rest))
    ensures ClusterEnd(cfg, words, i, flags + rest) == ClusterEnd(cfg, words, i, rest)
    decreases |flags|
  {
    hide TakesNone, Undeclared, ReadFrom, LetterOf, FlagTold;
    if flags == "" {
      assert flags + rest == rest;
      BeforeTwice([], [], ReadFrom(cfg, words, i, rest));
    } else {
      var cs := flags + rest;
      assert cs[0] == flags[0] && cs[1..] == flags[1..] + rest;
      FlagEvent(cfg, words, i, cs);
      FlagsRead(cfg, words, i, flags[1..], rest);
      ReadStep(cfg, words, i, cs, LetterEvent(cfg, words, i, cs));
      BeforeTwice([FlagTold(cfg, flags[0])], FlagsTold(cfg, flags[1..]), ReadFrom(cfg, words, i, rest));
    }
  }

  lemma FlagEvent(cfg: Config, words: seq<string>, i: nat, cs: string)
    requires i < |words| && cs != "" && (TakesNone(cfg, cs[0]) || Undeclared(cfg, cs[0]))
    ensures var e := LetterEvent(cfg, words, i, cs);
      e.Report? && ToldOf(e) == FlagTold(cfg, cs[0]) && e.place == cs[1..] && e.next == if cs[1..] == "" then i + 1 else i
  {
    LetterKinds(cfg, cs[0]);
    hide LetterOf, Undeclared;
  }

  /** The same letters when they end their word. */
  lemma LastFlagsRead(cfg: Config, words: seq<string>, i: nat, flags: string)
    requires i < |words| && flags != ""
    requires forall j :: 0 <= j < |flags| ==> TakesNone(cfg, flags[j]) || Undeclared(cfg, flags[j])
    ensures ReadFrom(cfg, words, i, flags) == Before(FlagsTold(cfg, flags), ReadFrom(cfg, words, i + 1, ""))
    ensures ClusterEnd(cfg, words, i, flags) == (i + 1, false)
  {
    hide TakesNone, Undeclared, ReadFrom, LetterOf, FlagTold;
    var n := |flags| - 1;
    var last := flags[n..];
    assert flags == flags[..n] + last && last == [flags[n]] && last[1..] == "";
    FlagsRead(cfg, words, i, flags[..n], last);
    FlagEvent(cfg, words, i, last);
    ReadStep(cfg, words, i, last, LetterEvent(cfg, words, i, last));
    FlagsToldSnoc(cfg, flags[..n], flags[n]);
    BeforeTwice(FlagsTold(cfg, flags[..n]), [FlagTold(cfg, flags[n])], ReadFrom(cfg, words, i + 1, ""));
  }

  lemma {:induction false} FlagsToldSnoc(cfg: Config, flags: string, c: char)
    ensures FlagsTold(cfg, flags + [c]) == FlagsTold(cfg, flags) + [FlagTold(cfg, c)]
  {
    hide FlagTold;
    if flags == "" {
      assert flags + [c] == [c] && [c][1..] == "";
    } else {
      assert (flags + [c])[1..] == flags[1..] + [c];
      FlagsToldSnoc(cfg, flags[1..], c);
    }
  }

  // ----- a long option's text -----

  lemma KeyEnds(key: string, arg: string)
    requires NoEquals(key)
    ensures Find(key, '=') == |key| && Find(key + ("=" + arg), '=') == |key|
    ensures key[..|key|] == key && (key + ("=" + arg))[..|key|] == key && (key + ("=" + arg))[|key| + 1..] == arg
  {
    FindNone(key, '=');
    FindFirst(key + ("=" + arg), '=', |key|);
  }

  lemma TextWith(cfg: Config, words: seq<string>, next: nat, key: string, arg: string)
    requires next <= |words| && NoEquals(key)
    ensures var e := LongEvent(cfg, words, next, key + ("=" + arg));
      e.Report? && ToldOf(e) == LongTold(cfg, key, Some(arg)) && e.next == next && e.place == ""
  {
    KeyEnds(key, arg);
    MatchesPicked(cfg.longs, key);
    Modes(cfg);
    hide Find, FindLong, Picked, Pick, Picks;
  }

  lemma TextAlone(cfg: Config, words: seq<string>, next: nat, key: string)
    requires next <= |words| && GoodKey(key)
    requires Picked(cfg.longs, key) ==> cfg.longs[Pick(cfg.longs, key)].hasArg != RequiredArgument
    ensures var e := LongEvent(cfg, words, next, key);
      e.Report? && ToldOf(e) == LongTold(cfg, key, None) && e.next == next && e.place == ""
  {
    KeyEnds(key, "");
    MatchesPicked(cfg.longs, key);
    hide Find, FindLong, Picked, Pick, Picks;
  }

  /** A separate argument is the next word, and that word is used up. */
  lemma TextThen(cfg: Config, words: seq<string>, next: nat, key: string)
    requires next <= |words| && GoodKey(key)
    requires Picked(cfg.longs, key) && cfg.longs[Pick(cfg.longs, key)].hasArg == RequiredArgument
    ensures var e := LongEvent(cfg, words, next, key);
      var o := cfg.longs[Pick(cfg.longs, key)];
      && e.Report? && e.place == ""
      && (next < |words| ==> ToldOf(e) == LongTold(cfg, key, Some(words[next])) && e.next == next + 1)
      && (next == |words| ==>
            ToldOf(e) == Told(ArgumentError(cfg), None, Some(if o.flag then 0 else o.val), None) && e.next == next)
  {
    KeyEnds(key, "");
    MatchesPicked(cfg.longs, key);
    Modes(cfg);
    hide Find, FindLong, Picked, Pick, Picks;
  }

  /** Reading a long option's text is reading the option words that lead up to it, and then one event. */
  lemma LeadRead(cfg: Config, words: seq<string>, i: nat, lead: Lead, text: string)
    requires GoodLead(cfg, lead) && (text != "" || lead.NextWord?)
    requires StandsAt(words, i, Led(lead, text))
    ensures var n := i + |Led(lead, text)|;
      var e := LongEvent(cfg, words, n, text);
      && (e.Report? ==>
            ReadFrom(cfg, words, i, "") == Before(LeadTold(cfg, lead) + [ToldOf(e)], ReadFrom(cfg, words, e.next, "")))
      && (e.Stop? ==> ReadFrom(cfg, words, i, "") == Before(LeadTold(cfg, lead), Reading([], e.next)))
      && IsOption(words[i]) && WordEnd(cfg, words, i) == (e.next, e.Stop?)
  {
    hide ReadFrom, LongEvent, LetterEvent, WordEnd, IsOption, StandsForDashes, GoodFlags, FlagsTold;
    var n := i + |Led(lead, text)|;
    var e := LongEvent(cfg, words, n, text);
    WordAt(words, i, Led(lead, text), 0);
    match lead
    case Dashes =>
      DashesRead(cfg, words, i, text);
    case InWord(flags) =>
      DashesEvent(cfg, words, i, text);
      LetterLeadRead(cfg, words, i, flags, "W" + text, e);
    case NextWord(flags) =>
      WordAt(words, i, Led(lead, text), 1);
      DashesEvent(cfg, words, i, "");
      LetterLeadRead(cfg, words, i, flags, "W", e);
  }

  /** A `W` that stands for dashes hands over to the rest of its word or to the next word. */
  lemma DashesEvent(cfg: Config, words: seq<string>, i: nat, text: string)
    requires i < |words| && StandsForDashes(cfg, 'W')
    ensures ("W" + text)[0] == 'W'
    ensures text != "" ==> LetterEvent(cfg, words, i, "W" + text) == LongEvent(cfg, words, i + 1, text)
    ensures i + 1 < |words| ==> LetterEvent(cfg, words, i, "W") == LongEvent(cfg, words, i + 2, words[i + 1])
  {
    LetterKinds(cfg, 'W');
    assert ("W" + text)[1..] == text && "W"[1..] == "";
    hide LetterOf, LongEvent, StandsForDashes;
  }

  lemma DashesRead(cfg: Config, words: seq<string>, i: nat, text: string)
    requires i < |words| && words[i] == "--" + text && text != ""
    ensures var e := LongEvent(cfg, words, i + 1, text);
      && e.Report? && ReadFrom(cfg, words, i, "") == Before([] + [ToldOf(e)], ReadFrom(cfg, words, e.next, ""))
      && IsOption(words[i]) && WordEnd(cfg, words, i) == (e.next, false)
  {
    var e := LongEvent(cfg, words, i + 1, text);
    assert words[i][2..] == text && [] + [ToldOf(e)] == [ToldOf(e)];
    hide LongEvent;
    ReadStep(cfg, words, i, "", e);
    hide ReadFrom;
  }

  /** A word of letters that ends in something that takes it over. */
  lemma LetterLeadRead(cfg: Config, words: seq<string>, i: nat, flags: string, rest: string, e: Event)
    requires i < |words| && GoodFlags(cfg, flags) && rest != "" && (flags == "" ==> rest[0] != '-')
    requires words[i] == "-" + (flags + rest)
    requires LetterEvent(cfg, words, i, rest) == e && (e.Report? ==> e.place == "")
    ensures e.Report? ==>
      ReadFrom(cfg, words, i, "") == Before(FlagsTold(cfg, flags) + [ToldOf(e)], ReadFrom(cfg, words, e.next, ""))
    ensures e.Stop? ==> ReadFrom(cfg, words, i, "") == Before(FlagsTold(cfg, flags), Reading([], e.next))
    ensures IsOption(words[i]) && WordEnd(cfg, words, i) == (e.next, e.Stop?)
  {
    hide ReadFrom, LetterEvent, TakesNone, Undeclared;
    WordRead(cfg, words, i, flags + rest);
    FlagsRead(cfg, words, i, flags, rest);
    ReadStep(cfg, words, i, rest, e);
    if e.Report? { BeforeTwice(FlagsTold(cfg, flags), [ToldOf(e)], ReadFrom(cfg, words, e.next, "")); }
  }

  /** A fresh word of letters is read from behind its dash. */
  lemma WordRead(cfg: Config, words: seq<string>, i: nat, cs: string)
    requires i < |words| && cs != "" && cs[0] != '-' && words[i] == "-" + cs
    ensures ReadFrom(cfg, words, i, "") == ReadFrom(cfg, words, i, cs)
    ensures IsOption(words[i]) && WordEnd(cfg, words, i) == ClusterEnd(cfg, words, i, cs)
  {
    assert words[i][1..] == cs && words[i][1] == cs[0];
    var e := LetterEvent(cfg, words, i, cs);
    assert CallEvent(cfg, words, i, "") == e;
    ReadStep(cfg, words, i, "", e);
    ReadStep(cfg, words, i, cs, e);
    hide ReadFrom, LetterEvent;
  }

  // ----- one use -----

  lemma LetterEnds(cfg: Config, words: seq<string>, i: nat, c: char, arg: string)
    requires i < |words|
    ensures ([c] + arg)[0] == c && ([c] + arg)[1..] == arg
    ensures (TakesOne(cfg, c) || MayTakeOne(cfg, c)) && arg != "" ==>
      LetterEvent(cfg, words, i, [c] + arg) == Report(c as int, Some(arg), None, None, i + 1, "")
    ensures TakesOne(cfg, c) && i + 1 < |words| ==>
      LetterEvent(cfg, words, i, [c]) == Report(c as int, Some(words[i + 1]), None, None, i + 2, "")
    ensures MayTakeOne(cfg, c) ==> LetterEvent(cfg, words, i, [c]) == Report(c as int, None, None, None, i + 1, "")
    ensures (TakesOne(cfg, c) || StandsForDashes(cfg, c)) && i + 1 == |words| ==>
      LetterEvent(cfg, words, i, [c]) == Report(ArgumentError(cfg), None, Some(c as int), None, i + 1, "")
  {
    LetterKinds(cfg, c);
    Modes(cfg);
    assert [c][1..] == "";
    hide LetterOf, LongEvent, TakesOne, MayTakeOne, StandsForDashes, ArgumentError;
  }

  /** The words of a use stand at `i`. */
  predicate StandsAt(words: seq<string>, i: nat, ws: seq<string>) { i + |ws| <= |words| && words[i..i + |ws|] == ws }

  lemma WordAt(words: seq<string>, i: nat, ws: seq<string>, k: nat)
    requires StandsAt(words, i, ws) && k < |ws|
    ensures i + k < |words| && words[i + k] == ws[k]
  {
    assert words[i..i + |ws|][k] == words[i + k];
  }

  lemma LettersRead(cfg: Config, words: seq<string>, i: nat, u: Use)
    requires u.LetterWith? || u.LetterThen? || u.LetterAlone?
    requires GoodUse(cfg, u) && StandsAt(words, i, Words(u))
    ensures ReadFrom(cfg, words, i, "") == Before(UseTold(cfg, u), ReadFrom(cfg, words, i + |Words(u)|, ""))
    ensures IsOption(words[i]) && WordEnd(cfg, words, i) == (i + |Words(u)|, false)
  {
    hide ReadFrom, LetterEvent, WordEnd, IsOption, GoodFlags, TakesOne, MayTakeOne, FlagsTold, StandsForDashes, StandsAt;
    WordAt(words, i, Words(u), 0);
    var rest := if u.LetterWith? then [u.c] + u.arg else [u.c];
    if u.LetterThen? { WordAt(words, i, Words(u), 1); }
    LetterEnds(cfg, words, i, u.c, if u.LetterWith? then u.arg else "");
    LetterLeadRead(cfg, words, i, u.flags, rest, LetterEvent(cfg, words, i, rest));
  }

  /** The words of a use stand at `i`, and so do those that come first. */
  lemma FrontAt(words: seq<string>, i: nat, front: seq<string>, back: seq<string>)
    requires StandsAt(words, i, front + back)
    ensures StandsAt(words, i, front)
  {
    assert words[i..i + |front|] == words[i..i + |front + back|][..|front|];
  }

  lemma LongRead(cfg: Config, words: seq<string>, i: nat, u: Use)
    requires u.LongWith? || u.LongThen? || u.LongAlone?
    requires GoodUse(cfg, u) && StandsAt(words, i, Words(u))
    ensures ReadFrom(cfg, words, i, "") == Before(UseTold(cfg, u), ReadFrom(cfg, words, i + |Words(u)|, ""))
    ensures IsOption(words[i]) && WordEnd(cfg, words, i) == (i + |Words(u)|, false)
  {
    hide ReadFrom, LongEvent, WordEnd, IsOption, GoodLead, LeadTold, Led, LongTold, Picked, Pick, NoEquals;
    match u
    case LongWith(lead, key, arg) =>
      TextWith(cfg, words, i + |Led(lead, key + ("=" + arg))|, key, arg);
      LeadRead(cfg, words, i, lead, key + ("=" + arg));
    case LongThen(lead, key, arg) =>
      var n := |Led(lead, key)|;
      WordAt(words, i, Words(u), n);
      FrontAt(words, i, Led(lead, key), [arg]);
      TextThen(cfg, words, i + n, key);
      LeadRead(cfg, words, i, lead, key);
    case LongAlone(lead, key) =>
      TextAlone(cfg, words, i + |Led(lead, key)|, key);
      LeadRead(cfg, words, i, lead, key);
  }

  /** The uses of options: told as they are meant, all of their words taken. */
  lemma OptionRead(cfg: Config, words: seq<string>, i: nat, u: Use)
    requires !u.Word? && GoodUse(cfg, u) && StandsAt(words, i, Words(u))
    ensures ReadFrom(cfg, words, i, "") == Before(UseTold(cfg, u), ReadFrom(cfg, words, i + |Words(u)|, ""))
    ensures IsOption(words[i]) && WordEnd(cfg, words, i) == (i + |Words(u)|, false)
  {
    hide ReadFrom, WordEnd, IsOption, FlagsTold, ClusterEnd, TakesNone, Undeclared;
    if u.Flags? {
      WordAt(words, i, Words(u), 0);
      WordRead(cfg, words, i, u.flags);
      LastFlagsRead(cfg, words, i, u.flags);
    } else {
      hide GoodUse, Words, UseTold, StandsAt;
      if u.LetterWith? || u.LetterThen? || u.LetterAlone? { LettersRead(cfg, words, i, u); } else { LongRead(cfg, words, i, u); }
    }
  }

  lemma NotEmpty(key: string)
    requires GoodKey(key)
    ensures key != ""
  {
  }

  /** A word that is no option is reported where the configuration says so, and is passed over. */
  lemma PlainRead(cfg: Config, words: seq<string>, i: nat, w: string)
    requires GoodUse(cfg, Word(w)) && i < |words| && words[i] == w
    ensures ReadFrom(cfg, words, i, "") == Before(UseTold(cfg, Word(w)), ReadFrom(cfg, words, i + 1, ""))
    ensures !IsOption(words[i])
  {
    Modes(cfg);
    if Reporting(cfg) {
      ReadStep(cfg, words, i, "", Report(INORDER, Some(w), None, None, i + 1, ""));
    } else {
      var e := CallEvent(cfg, words, i + 1, "");
      assert CallEvent(cfg, words, i, "") == e;
      BeforeTwice([], [], ReadFrom(cfg, words, i + 1, ""));
      ReadStep(cfg, words, i, "", e);
      ReadStep(cfg, words, i + 1, "", e);
      hide ReadFrom;
    }
  }

  /** Which words a use marks as belonging to options. */
  function UseMarks(u: Use): seq<bool> { All(!u.Word?, |Words(u)|) }

  lemma OptionMarks(cfg: Config, words: seq<string>, i: nat, end: nat)
    requires i < |words| && IsOption(words[i]) && WordEnd(cfg, words, i) == (end, false)
    ensures Marks(cfg, words, i) == All(true, end - i) + Marks(cfg, words, end)
  {
    hide WordEnd, IsOption;
  }

  lemma PlainMarks(cfg: Config, words: seq<string>, i: nat)
    requires i < |words| && !IsOption(words[i])
    ensures Marks(cfg, words, i) == All(false, 1) + Marks(cfg, words, i + 1)
  {
    hide WordEnd, IsOption;
    assert All(false, 1) == [false];
  }

  /** A use is told as it is meant, the scan goes on behind its words, and they all count as it says. */
  lemma UseRead(cfg: Config, words: seq<string>, i: nat, u: Use)
    requires GoodUse(cfg, u) && StandsAt(words, i, Words(u))
    ensures i + |Words(u)| <= |words|
    ensures ReadFrom(cfg, words, i, "") == Before(UseTold(cfg, u), ReadFrom(cfg, words, i + |Words(u)|, ""))
    ensures Marks(cfg, words, i) == UseMarks(u) + Marks(cfg, words, i + |Words(u)|)
  {
    hide ReadFrom, WordEnd, IsOption, UseTold, GoodUse, Marks;
    WordAt(words, i, Words(u), 0);
    if u.Word? {
      PlainRead(cfg, words, i, u.w);
      PlainMarks(cfg, words, i);
    } else {
      OptionRead(cfg, words, i, u);
      OptionMarks(cfg, words, i, i + |Words(u)|);
    }
  }

  // ----- whole command lines -----

  function Written(uses: seq<Use>): seq<string> {
    if uses == [] then [] else Words(uses[0]) + Written(uses[1..])
  }

  ghost function AllUsesTold(cfg: Config, uses: seq<Use>): seq<Told> {
    if uses == [] then [] else UseTold(cfg, uses[0]) + AllUsesTold(cfg, uses[1..])
  }

  /** The words of the options among the uses, or of the others. */
  function Sorted(uses: seq<Use>, options: bool): seq<string> {
    if uses == [] then []
    else (if uses[0].Word? != options then Words(uses[0]) else []) + Sorted(uses[1..], options)
  }

  ghost predicate GoodUses(cfg: Config, uses: seq<Use>) { forall k :: 0 <= k < |uses| ==> GoodUse(cfg, uses[k]) }

  /** The end of a command line is read as such, and stops the scan behind its own words. */
  lemma EndRead(cfg: Config, words: seq<string>, i: nat, e: End)
    requires GoodEnd(cfg, e) && i <= |words| && words[i..] == EndWords(e)
    ensures ReadFrom(cfg, words, i, "") == Reading(EndTold(cfg, e), i + EndTaken(e))
    ensures !e.FirstWord? ==>
      Marks(cfg, words, i) == All(true, EndTaken(e)) + All(false, |words| - i - EndTaken(e))
  {
    hide ReadFrom, LongEvent, LetterEvent, WordEnd, Marks, TakesNone, Undeclared, TakesOne, MayTakeOne, StandsForDashes,
      Picked, Pick, GoodKey, FlagsTold;
    match e
    case Nothing => NothingRead(cfg, words, i);
    case FirstWord(rest) =>
      assert words[i] == words[i..][0];
      FirstWordRead(cfg, words, i);
    case DoubleDash(rest) =>
      assert words[i] == words[i..][0];
      DoubleDashRead(cfg, words, i);
    case EmptyText(flags, rest) =>
      assert words[i..i + 2] == words[i..][..2] == Led(NextWord(flags), "");
      EmptyTextStops(cfg, words, i + 2);
      LeadRead(cfg, words, i, NextWord(flags), "");
      BeforeEmpty(FlagsTold(cfg, flags), i + 2);
      StoppingMarks(cfg, words, i, i + 2);
    case LetterLacks(flags, c) =>
      assert words[i] == words[i..][0];
      LetterEnds(cfg, words, i, c, "");
      LetterLeadRead(cfg, words, i, flags, [c], LetterEvent(cfg, words, i, [c]));
      NothingRead(cfg, words, i + 1);
      BeforeEmpty(EndTold(cfg, e), i + 1);
      LastMarks(cfg, words, i);
    case LongLacks(lead, key) =>
      assert words[i..i + |Led(lead, key)|] == words[i..] == Led(lead, key);
      NotEmpty(key);
      TextThen(cfg, words, |words|, key);
      LeadRead(cfg, words, i, lead, key);
      NothingRead(cfg, words, |words|);
      BeforeEmpty(EndTold(cfg, e), |words|);
      LastMarks(cfg, words, i);
  }

  lemma BeforeEmpty(ts: seq<Told>, n: nat)
    ensures Before(ts, Reading([], n)) == Reading(ts, n)
  {
  }

  lemma NothingRead(cfg: Config, words: seq<string>, i: nat)
    requires i == |words|
    ensures ReadFrom(cfg, words, i, "") == Reading([], i) && Marks(cfg, words, i) == [] == All(true, 0) + All(false, 0)
  {
    ReadStep(cfg, words, i, "", Stop(i));
    hide ReadFrom;
  }

  lemma FirstWordRead(cfg: Config, words: seq<string>, i: nat)
    requires i < |words| && !Moving(cfg) && !Reporting(cfg) && !(|words[i]| >= 2 && words[i][0] == '-')
    ensures ReadFrom(cfg, words, i, "") == Reading([], i)
  {
    Modes(cfg);
    ReadStep(cfg, words, i, "", Stop(i));
  }

  lemma DoubleDashRead(cfg: Config, words: seq<string>, i: nat)
    requires i < |words| && words[i] == "--"
    ensures ReadFrom(cfg, words, i, "") == Reading([], i + 1)
    ensures Marks(cfg, words, i) == All(true, 1) + All(false, |words| - i - 1)
  {
    assert words[i][2..] == "" && WordEnd(cfg, words, i) == (i + 1, true);
    ReadStep(cfg, words, i, "", Stop(i + 1));
    hide ReadFrom, WordEnd;
  }

  lemma EmptyTextStops(cfg: Config, words: seq<string>, next: nat)
    requires next <= |words|
    ensures LongEvent(cfg, words, next, "") == Stop(next)
  {
  }

  lemma StoppingMarks(cfg: Config, words: seq<string>, i: nat, end: nat)
    requires i < |words| && IsOption(words[i]) && WordEnd(cfg, words, i) == (end, true)
    ensures Marks(cfg, words, i) == All(true, end - i) + All(false, |words| - end)
  {
    hide WordEnd, IsOption;
  }

  lemma LastMarks(cfg: Config, words: seq<string>, i: nat)
    requires i < |words| && IsOption(words[i]) && WordEnd(cfg, words, i) == (|words|, false)
    ensures Marks(cfg, words, i) == All(true, |words| - i) + All(false, 0)
  {
    hide WordEnd, IsOption;
    assert Marks(cfg, words, |words|) == [];
  }

  lemma WrittenFront(uses: seq<Use>)
    requires uses != []
    ensures Written(uses) == Words(uses[0]) + Written(uses[1..])
  {
    hide Words;
  }

  /** The words of the first use stand in front of those of the others. */
  lemma FirstUse(words: seq<string>, i: nat, uses: seq<Use>, end: seq<string>)
    requires uses != [] && i <= |words| && words[i..] == Written(uses) + end
    ensures StandsAt(words, i, Words(uses[0])) && |Written(uses)| == |Words(uses[0])| + |Written(uses[1..])|
    ensures words[i + |Words(uses[0])|..] == Written(uses[1..]) + end
    ensures words[i..] == Words(uses[0]) + (Written(uses[1..]) + end)
  {
    hide Words, Written;
    WrittenFront(uses);
    assert Words(uses[0]) + Written(uses[1..]) + end == Words(uses[0]) + (Written(uses[1..]) + end);
    TailSplit(words, i, Words(uses[0]), Written(uses[1..]) + end);
  }

  lemma TailSplit(words: seq<string>, i: nat, front: seq<string>, back: seq<string>)
    requires i <= |words| && words[i..] == front + back
    ensures StandsAt(words, i, front) && words[i + |front|..] == back
  {
    assert words[i..i + |front|] == words[i..][..|front|];
    assert words[i + |front|..] == words[i..][|front|..];
  }

  lemma NoUses(cfg: Config, e: End, b: bool)
    ensures Written([]) == [] && AllUsesTold(cfg, []) == [] && Sorted([], b) == []
  {
  }

  lemma ToldFront(cfg: Config, uses: seq<Use>, ts: seq<Told>)
    requires uses != []
    ensures UseTold(cfg, uses[0]) + (AllUsesTold(cfg, uses[1..]) + ts) == AllUsesTold(cfg, uses) + ts
  {
    hide UseTold;
  }

  lemma RestGood(cfg: Config, uses: seq<Use>)
    requires GoodUses(cfg, uses) && uses != []
    ensures GoodUse(cfg, uses[0]) && GoodUses(cfg, uses[1..])
  {
    hide GoodUse;
  }

  lemma BeforeReading(ts: seq<Told>, us: seq<Told>, n: nat)
    ensures Before(ts, Reading(us, n)) == Reading(ts + us, n)
  {
  }

  /** From any place on, the uses are told in turn and then the end. */
  lemma {:induction false} UsesRead(cfg: Config, words: seq<string>, i: nat, uses: seq<Use>, e: End)
    requires GoodUses(cfg, uses) && GoodEnd(cfg, e) && i <= |words| && words[i..] == Written(uses) + EndWords(e)
    ensures ReadFrom(cfg, words, i, "")
      == Reading(AllUsesTold(cfg, uses) + EndTold(cfg, e), i + |Written(uses)| + EndTaken(e))
    decreases |uses|
  {
    hide ReadFrom, UseTold, EndTold, GoodEnd, EndWords, EndTaken, Words, GoodUse, GoodUses, Written, AllUsesTold, StandsAt,
      Marks, Before;
    if uses == [] {
      NoUses(cfg, e, true);
      EndRead(cfg, words, i, e);
    } else {
      FirstUse(words, i, uses, EndWords(e));
      RestGood(cfg, uses);
      UseRead(cfg, words, i, uses[0]);
      UsesRead(cfg, words, i + |Words(uses[0])|, uses[1..], e);
      ToldFront(cfg, uses, EndTold(cfg, e));
      BeforeReading(UseTold(cfg, uses[0]), AllUsesTold(cfg, uses[1..]) + EndTold(cfg, e), i + |Written(uses)| + EndTaken(e));
    }
  }

  /** The words of an end that belong to options, or the others. */
  function EndPart(e: End, b: bool): seq<string> {
    if b then EndWords(e)[..EndTaken(e)] else EndWords(e)[EndTaken(e)..]
  }

  /** The marks split the words into those of the options and the others. */
  lemma {:induction false} UsesSorted(cfg: Config, words: seq<string>, i: nat, uses: seq<Use>, e: End, b: bool)
    requires GoodUses(cfg, uses) && GoodEnd(cfg, e) && !e.FirstWord? && i <= |words|
    requires words[i..] == Written(uses) + EndWords(e)
    ensures Getopt.Pick(words[i..], Marks(cfg, words, i), b) == Sorted(uses, b) + EndPart(e, b)
    decreases |uses|
  {
    hide ReadFrom, UseTold, Marks, GoodEnd, EndWords, EndTaken, EndPart, GoodUse, GoodUses, Getopt.Pick, Words, Sorted,
      Written, StandsAt, Before, AllUsesTold, EndTold;
    if uses == [] {
      NoUses(cfg, e, b);
      EndRead(cfg, words, i, e);
      EndSorted(e, b);
    } else {
      var ws := Words(uses[0]);
      FirstUse(words, i, uses, EndWords(e));
      RestGood(cfg, uses);
      UseRead(cfg, words, i, uses[0]);
      UsesSorted(cfg, words, i + |ws|, uses[1..], e, b);
      PickFront(ws, !uses[0].Word?, Written(uses[1..]) + EndWords(e), Marks(cfg, words, i + |ws|), b);
      SortedFront(uses, b);
    }
  }

  lemma PickFront(ws: seq<string>, x: bool, rest: seq<string>, m: seq<bool>, b: bool)
    requires |rest| == |m|
    ensures Getopt.Pick(ws + rest, All(x, |ws|) + m, b) == (if x == b then ws else []) + Getopt.Pick(rest, m, b)
  {
    hide Getopt.Pick;
    PickAppend(ws, All(x, |ws|), rest, m, b);
    PickAll(ws, x, b);
  }

  lemma SortedFront(uses: seq<Use>, b: bool)
    requires uses != []
    ensures Sorted(uses, b) == (if !uses[0].Word? == b then Words(uses[0]) else []) + Sorted(uses[1..], b)
  {
    hide Words;
  }

  lemma EndSorted(e: End, b: bool)
    ensures Getopt.Pick(EndWords(e), All(true, EndTaken(e)) + All(false, |EndWords(e)| - EndTaken(e)), b) == EndPart(e, b)
  {
    hide EndWords, EndTaken, Getopt.Pick;
    PickTaken(EndWords(e), EndTaken(e), b);
  }

  lemma PickTaken(ws: seq<string>, n: nat, b: bool)
    requires n <= |ws|
    ensures Getopt.Pick(ws, All(true, n) + All(false, |ws| - n), b) == if b then ws[..n] else ws[n..]
  {
    hide Getopt.Pick;
    assert ws[..n] + ws[n..] == ws;
    PickFront(ws[..n], true, ws[n..], All(false, |ws| - n), b);
    PickAll(ws[n..], false, b);
  }

  /** A program's name, its uses of options among other words, and an end. */
  function CommandLine(name: string, uses: seq<Use>, e: End): seq<string> { [name] + (Written(uses) + EndWords(e)) }

  function Seeing(ts: seq<Told>): (r: seq<Seen>)
    ensures |r| == |ts|
  {
    seq(|ts|, k requires 0 <= k < |ts| => Seen(ts[k].ret, ts[k].arg, ts[k].idx))
  }

  /** What the loop over `getopt_long` sees and leaves behind, stated by what was written: exactly the uses that are
      there, with their arguments; then, where words move, the options and their arguments in front and the other words
      behind, with `optind` at the first of these, and otherwise the vector as it was, with `optind` behind the end of
      the options. */
  lemma CommandLineRead(cfg: Config, name: string, uses: seq<Use>, e: End, argv: seq<string>, optind: int)
    requires GoodUses(cfg, uses) && GoodEnd(cfg, e)
    requires Ended(cfg, CommandLine(name, uses, e), argv, optind, StopOf(cfg, CommandLine(name, uses, e), 1, ""))
    ensures AllTold(Reports(cfg, CommandLine(name, uses, e), 1, "")) == AllUsesTold(cfg, uses) + EndTold(cfg, e)
    ensures See(Reports(cfg, CommandLine(name, uses, e), 1, "")) == Seeing(AllUsesTold(cfg, uses) + EndTold(cfg, e))
    ensures Moving(cfg) ==>
      var options, others := Sorted(uses, true) + EndPart(e, true), Sorted(uses, false) + EndPart(e, false);
      argv == [name] + options + others && optind == 1 + |options|
    ensures !Moving(cfg) ==>
      argv == CommandLine(name, uses, e) && optind == 1 + |Written(uses)| + EndTaken(e)
  {
    var words := CommandLine(name, uses, e);
    hide Reports, StopOf, Marks, Getopt.Pick, Written, EndWords, EndTaken, EndTold, AllUsesTold, GoodUses, GoodEnd;
    assert words[1..] == Written(uses) + EndWords(e);
    UsesRead(cfg, words, 1, uses, e);
    Modes(cfg);
    if Moving(cfg) {
      NoFirstWord(cfg, e);
      UsesSorted(cfg, words, 1, uses, e, true);
      UsesSorted(cfg, words, 1, uses, e, false);
    }
  }

  lemma NoFirstWord(cfg: Config, e: End)
    requires Moving(cfg) && GoodEnd(cfg, e)
    ensures !e.FirstWord?
  {
  }

  // ----- every vector is a command line -----

  lemma LetterIsOne(cfg: Config, c: char)
    ensures Undeclared(cfg, c) || TakesNone(cfg, c) || TakesOne(cfg, c) || MayTakeOne(cfg, c) || StandsForDashes(cfg, c)
  {
  }

  lemma {:induction false} SplitAtEquals(body: string) returns (key: string, arg: Option<string>)
    ensures NoEquals(key) && body == if arg.None? then key else key + ("=" + arg.value)
  {
    if body == "" {
      key, arg := "", None;
    } else if body[0] == '=' {
      key, arg := "", Some(body[1..]);
      assert body == "=" + body[1..];
    } else {
      var k, a := SplitAtEquals(body[1..]);
      key, arg := [body[0]] + k, a;
      assert body == [body[0]] + body[1..];
    }
  }

  /** Some words spelled out as one use, or as the end of them all. */
  ghost predicate Spells(cfg: Config, ws: seq<string>, u: Option<Use>, e: End) {
    if u.Some? then GoodUse(cfg, u.value) && Words(u.value) <= ws else GoodEnd(cfg, e) && ws == EndWords(e)
  }

  /** The text of a long option, led up to by the front of `ws`. */
  lemma SpellLong(cfg: Config, ws: seq<string>, lead: Lead, text: string) returns (u: Option<Use>, e: End)
    requires GoodLead(cfg, lead) && text != "" && Led(lead, text) <= ws
    ensures Spells(cfg, ws, u, e)
  {
    hide Picked, Pick, GoodLead;
    e := Nothing;
    var key, arg := SplitAtEquals(text);
    if arg.Some? {
      u := Some(LongWith(lead, key, arg.value));
    } else if Picked(cfg.longs, key) && cfg.longs[Pick(cfg.longs, key)].hasArg == RequiredArgument {
      var n := |Led(lead, text)|;
      if n < |ws| {
        u := Some(LongThen(lead, key, ws[n]));
        assert ws[..n + 1] == ws[..n] + [ws[n]];
      } else {
        u, e := None, LongLacks(lead, key);
      }
    } else {
      u := Some(LongAlone(lead, key));
    }
  }

  /** A word of letters, of which `flags` have been looked at. */
  lemma {:induction false} SpellLetters(cfg: Config, ws: seq<string>, flags: string, cs: string) returns (u: Option<Use>, e: End)
    requires ws != [] && ws[0] == "-" + (flags + cs) && GoodFlags(cfg, flags)
    requires flags + cs != "" && (flags + cs)[0] != '-'
    ensures Spells(cfg, ws, u, e)
    decreases |cs|
  {
    hide Undeclared, TakesNone, TakesOne, MayTakeOne, StandsForDashes;
    e := Nothing;
    if cs == "" {
      assert flags + cs == flags;
      u := Some(Flags(flags));
    } else {
      var c, rest := cs[0], cs[1..];
      assert cs == [c] + rest;
      LetterIsOne(cfg, c);
      if Undeclared(cfg, c) || TakesNone(cfg, c) {
        assert flags + cs == (flags + [c]) + rest;
        u, e := SpellLetters(cfg, ws, flags + [c], rest);
      } else {
        u, e := SpellLast(cfg, ws, flags, c, rest);
      }
    }
  }

  /** The letter that takes over the rest of its word. */
  lemma SpellLast(cfg: Config, ws: seq<string>, flags: string, c: char, rest: string) returns (u: Option<Use>, e: End)
    requires ws != [] && ws[0] == "-" + (flags + ([c] + rest)) && GoodFlags(cfg, flags) && (flags == "" ==> c != '-')
    requires TakesOne(cfg, c) || MayTakeOne(cfg, c) || StandsForDashes(cfg, c)
    ensures Spells(cfg, ws, u, e)
  {
    e := Nothing;
    assert rest == "" ==> [c] + rest == [c];
    if StandsForDashes(cfg, c) {
      hide TakesNone, TakesOne, MayTakeOne, StandsForDashes, Undeclared;
      DashesLetter(cfg, c);
      if rest != "" {
        u, e := SpellLong(cfg, ws, InWord(flags), rest);
      } else if |ws| == 1 {
        u, e := None, LetterLacks(flags, c);
      } else if ws[1] == "" {
        u, e := None, EmptyText(flags, ws[2..]);
      } else {
        u, e := SpellLong(cfg, ws, NextWord(flags), ws[1]);
      }
    } else {
      hide TakesNone, TakesOne, MayTakeOne, StandsForDashes, Undeclared;
      if rest != "" {
        u := Some(LetterWith(flags, c, rest));
      } else if MayTakeOne(cfg, c) {
        u := Some(LetterAlone(flags, c));
      } else if |ws| == 1 {
        u, e := None, LetterLacks(flags, c);
      } else {
        u := Some(LetterThen(flags, c, ws[1]));
      }
    }
  }

  lemma DashesLetter(cfg: Config, c: char)
    requires StandsForDashes(cfg, c)
    ensures c == 'W'
  {
  }

  lemma SpellFront(cfg: Config, ws: seq<string>) returns (u: Option<Use>, e: End)
    ensures Spells(cfg, ws, u, e)
  {
    hide TakesNone, TakesOne, MayTakeOne, StandsForDashes, Undeclared, Picked, Pick;
    u, e := None, Nothing;
    if ws != [] {
      var w := ws[0];
      if !(|w| >= 2 && w[0] == '-') {
        if Moving(cfg) || Reporting(cfg) { u := Some(Word(w)); } else { e := FirstWord(ws); }
      } else if w[1] != '-' {
        assert w == "-" + ("" + w[1..]);
        u, e := SpellLetters(cfg, ws, "", w[1..]);
      } else {
        assert w == "--" + w[2..];
        if w[2..] == "" {
          assert "--" + w[2..] == "--" && ws == [w] + ws[1..];
          e := DoubleDash(ws[1..]);
        } else {
          u, e := SpellLong(cfg, ws, Dashes, w[2..]);
        }
      }
    }
  }

  lemma {:induction false} SpellAll(cfg: Config, ws: seq<string>) returns (uses: seq<Use>, e: End)
    ensures GoodUses(cfg, uses) && GoodEnd(cfg, e) && ws == Written(uses) + EndWords(e)
    decreases |ws|
  {
    hide GoodUse, GoodEnd, EndWords, Words;
    var u, e' := SpellFront(cfg, ws);
    if u.None? {
      uses, e := [], e';
    } else {
      var n := |Words(u.value)|;
      var rest, e'' := SpellAll(cfg, ws[n..]);
      uses, e := [u.value] + rest, e'';
      assert uses[1..] == rest && ws == Words(u.value) + ws[n..];
    }
  }

  /** Every vector with a program's name is a command line, so that `CommandLineRead` leaves none out. */
  lemma EveryVectorReads(cfg: Config, words: seq<string>) returns (uses: seq<Use>, e: End)
    requires words != []
    ensures GoodUses(cfg, uses) && GoodEnd(cfg, e) && words == CommandLine(words[0], uses, e)
  {
    hide GoodUses, GoodEnd, Written, EndWords;
    uses, e := SpellAll(cfg, words[1..]);
  }
}
