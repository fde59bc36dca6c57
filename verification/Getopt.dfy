/** Option parsing with permutation of the argument vector: `getopt_internal` and
    `getopt_long` of getopt.cpp, and the loop its callers run. */
module Getopt {
  import Rotation
  import opened Wrappers

  datatype HasArg = NoArgument | RequiredArgument | OptionalArgument

  /** `flag` says that the entry stores `val` through a pointer and the call returns 0. */
  datatype LongOption = LongOption(name: string, hasArg: HasArg, flag: bool, val: int)

  datatype Config = Config(options: string, longs: seq<LongOption>, posixlyCorrect: bool) {
    predicate IgnoreFirst() { options != "" && (options[0] == '-' || options[0] == '+') }

    predicate Permutes() { !posixlyCorrect && !IgnoreFirst() }

    predicate InOrder() { !posixlyCorrect && options != "" && options[0] == '-' }

    function Letters(): string { if IgnoreFirst() then options[1..] else options }

    function BadArg(): int {
      if (IgnoreFirst() && |options| > 1 && options[1] == ':') || (options != "" && options[0] == ':')
      then COLON else BADCH
    }
  }

  const BADCH: int := 63
  const COLON: int := 58
  const INORDER: int := 1

  // ----- what one call means, read off the original vector -----

  /** How an option letter is declared. */
  datatype Letter = Unknown | Plain | Required | Optional | LongPrefix

  function CharAt(s: string, i: nat): char {
    if i < |s| then s[i] else '\0'
  }

  /** The position of the first `c` in `s`, or its length. */
  function Find(s: string, c: char): (i: nat)
    ensures i <= |s|
    ensures i < |s| ==> s[i] == c
  {
    if s == "" || s[0] == c then 0 else 1 + Find(s[1..], c)
  }

  function LetterOf(cfg: Config, c: char): Letter {
    var ls := cfg.Letters();
    var i := Find(ls, c);
    if c == ':' || i == |ls| then Unknown
    else if c == 'W' && CharAt(ls, i + 1) == ';' then LongPrefix
    else if CharAt(ls, i + 1) != ':' then Plain
    else if CharAt(ls, i + 2) != ':' then Required
    else Optional
  }

  datatype Match = NotFound | Ambiguous | Found(index: nat)

  /** The scan of the long options from entry `i` on, `partial` being the partial match so far. */
  function FindLong(key: string, longs: seq<LongOption>, i: nat, partial: Option<nat>): (m: Match)
    requires i <= |longs| && (partial.Some? ==> partial.value < |longs|)
    ensures m.Found? ==> m.index < |longs|
    decreases |longs| - i
  {
    if i == |longs| then
      if partial.Some? then Found(partial.value) else NotFound
    else if !(key <= longs[i].name) then FindLong(key, longs, i + 1, partial)
    else if |longs[i].name| == |key| then Found(i)
    else if partial.None? then FindLong(key, longs, i + 1, Some(i))
    else Ambiguous
  }

  /** What a call reports, and where it leaves the scan: the word index `next`, and the rest of
      that word in `place`.  `Stop` is the end of the options. */
  datatype Event =
    | Report(ret: int, arg: Option<string>, bad: Option<int>, idx: Option<nat>, next: nat, place: string)
    | Stop(next: nat)

  /** A long option whose text is `body`; the words before `next` are used up. */
  function LongEvent(cfg: Config, words: seq<string>, next: nat, body: string): (e: Event)
    requires next <= |words|
    ensures next <= e.next <= |words|
    ensures e.Report? ==> e.place == ""
    ensures e.Stop? <==> body == ""
  {
    if body == "" then Stop(next) else
    var eq := Find(body, '=');
    var m := FindLong(body[..eq], cfg.longs, 0, None);
    if !m.Found? then Report(BADCH, None, Some(0), None, next, "") else
    var o := cfg.longs[m.index];
    var ret := if o.flag then 0 else o.val;
    var bad := if o.flag then 0 else o.val;
    if o.hasArg == NoArgument then
      if eq < |body| then Report(cfg.BadArg(), None, Some(bad), None, next, "")
      else Report(ret, None, None, Some(m.index), next, "")
    else if eq < |body| then Report(ret, Some(body[eq + 1..]), None, Some(m.index), next, "")
    else if o.hasArg == OptionalArgument then Report(ret, None, None, Some(m.index), next, "")
    else if next < |words| then Report(ret, Some(words[next]), None, Some(m.index), next + 1, "")
    else Report(cfg.BadArg(), None, Some(bad), None, next, "")
  }

  /** The option letter at the front of `cs`, the unread part of word `i`. */
  function LetterEvent(cfg: Config, words: seq<string>, i: nat, cs: string): (e: Event)
    requires i < |words| && cs != ""
    ensures i <= e.next <= |words|
    ensures e.Report? && e.place != "" ==> e.next == i && |e.place| < |cs|
    ensures !(e.Report? && e.place != "") ==> i < e.next
  {
    var c, rest := cs[0], cs[1..];
    var after := if rest == "" then i + 1 else i;
    match LetterOf(cfg, c)
    case Unknown => Report(BADCH, None, Some(c as int), None, after, rest)
    case Plain => Report(c as int, None, None, None, after, rest)
    case Optional => Report(c as int, if rest == "" then None else Some(rest), None, None, i + 1, "")
    case Required =>
      if rest != "" then Report(c as int, Some(rest), None, None, i + 1, "")
      else if i + 1 >= |words| then Report(cfg.BadArg(), None, Some(c as int), None, i + 1, "")
      else Report(c as int, Some(words[i + 1]), None, None, i + 2, "")
    case LongPrefix =>
      if rest != "" then LongEvent(cfg, words, i + 1, rest)
      else if i + 1 >= |words| then Report(cfg.BadArg(), None, Some(c as int), None, i + 1, "")
      else LongEvent(cfg, words, i + 2, words[i + 1])
  }

  predicate IsOption(w: string) {
    |w| >= 2 && w[0] == '-'
  }

  lemma OptionNotEmpty(w: string)
    requires IsOption(w)
    ensures w != ""
  {
  }

  /** The first call on an option word. */
  function WordEvent(cfg: Config, words: seq<string>, i: nat): (e: Event)
    requires i < |words| && IsOption(words[i])
    ensures i <= e.next <= |words|
    ensures e.Report? && e.place != "" ==> e.next == i
    ensures !(e.Report? && e.place != "") ==> i < e.next
  {
    if words[i][1] == '-' then LongEvent(cfg, words, i + 1, words[i][2..])
    else LetterEvent(cfg, words, i, words[i][1..])
  }

  lemma WordIsLetter(cfg: Config, words: seq<string>, i: nat)
    requires i < |words| && IsOption(words[i])
    ensures |words[i]| >= 2
    ensures words[i][1] != '-' ==> WordEvent(cfg, words, i) == LetterEvent(cfg, words, i, words[i][1..])
  {
  }

  /** A call that starts at a fresh word. */
  function FreshEvent(cfg: Config, words: seq<string>, i: nat): (e: Event)
    ensures i <= e.next
    ensures e.next <= |words| || e == Stop(i)
    ensures e.Report? ==> i < e.next || (e.place != "" && i == e.next) || i < |words|
    decreases |words| - i
  {
    if i >= |words| then Stop(i)
    else if IsOption(words[i]) then WordEvent(cfg, words, i)
    else if cfg.InOrder() then Report(INORDER, Some(words[i]), None, None, i + 1, "")
    else if !cfg.Permutes() then Stop(i)
    else FreshEvent(cfg, words, i + 1)
  }

  function CallEvent(cfg: Config, words: seq<string>, i: nat, place: string): (e: Event)
    requires place != "" ==> i < |words|
  {
    if place != "" then LetterEvent(cfg, words, i, place) else FreshEvent(cfg, words, i)
  }

  // ----- which words are options -----

  /** Where the option word at `i`, read from `cs` on, ends, and whether the options end there. */
  function ClusterEnd(cfg: Config, words: seq<string>, i: nat, cs: string): (r: (nat, bool))
    requires i < |words| && cs != ""
    ensures i < r.0 <= |words|
    decreases |cs|
  {
    var e := LetterEvent(cfg, words, i, cs);
    if e.Stop? then (e.next, true)
    else if e.place == "" then (e.next, false)
    else ClusterEnd(cfg, words, i, e.place)
  }

  function WordEnd(cfg: Config, words: seq<string>, i: nat): (r: (nat, bool))
    requires i < |words| && IsOption(words[i])
    ensures i < r.0 <= |words|
  {
    if words[i][1] == '-' then
      var e := LongEvent(cfg, words, i + 1, words[i][2..]);
      (e.next, e.Stop?)
    else ClusterEnd(cfg, words, i, words[i][1..])
  }

  function All(b: bool, n: nat): (m: seq<bool>)
    ensures |m| == n && forall k | 0 <= k < n :: m[k] == b
  {
    seq(n, _ => b)
  }

  /** For each word from `i` on, whether it belongs to an option: the option words, the words
      they take as arguments, and a terminating `--`. */
  function Marks(cfg: Config, words: seq<string>, i: nat): (m: seq<bool>)
    requires i <= |words|
    ensures |m| == |words| - i
    decreases |words| - i
  {
    if i == |words| then []
    else if !IsOption(words[i]) then [false] + Marks(cfg, words, i + 1)
    else
      var (end, stop) := WordEnd(cfg, words, i);
      All(true, end - i) + if stop then All(false, |words| - end) else Marks(cfg, words, end)
  }

  /** The words marked `b`, in their order. */
  function Pick(words: seq<string>, m: seq<bool>, b: bool): (p: seq<string>)
    requires |words| == |m|
    ensures |p| <= |words|
  {
    if words == [] then []
    else (if m[0] == b then [words[0]] else []) + Pick(words[1..], m[1..], b)
  }

  /** The vector a finished run leaves behind. */
  function Partitioned(cfg: Config, words: seq<string>): (p: seq<string>)
    requires words != []
  {
    var args, m := words[1..], Marks(cfg, words, 1);
    words[..1] + Pick(args, m, true) + Pick(args, m, false)
  }

  lemma {:induction false} PickAppend(a: seq<string>, ma: seq<bool>, c: seq<string>, mc: seq<bool>, b: bool)
    requires |a| == |ma| && |c| == |mc|
    ensures Pick(a + c, ma + mc, b) == Pick(a, ma, b) + Pick(c, mc, b)
  {
    if a == [] {
      assert a + c == c && ma + mc == mc;
    } else {
      PickAppend(a[1..], ma[1..], c, mc, b);
      var all, marks := a + c, ma + mc;
      assert all[1..] == a[1..] + c && marks[1..] == ma[1..] + mc;
      assert all[0] == a[0] && marks[0] == ma[0];
      var first := if ma[0] == b then [a[0]] else [];
      var left, right := Pick(a[1..], ma[1..], b), Pick(c, mc, b);
      assert Pick(all, marks, b) == first + Pick(all[1..], marks[1..], b);
      assert first + (left + right) == (first + left) + right;
    }
  }

  lemma {:induction false} PickAll(a: seq<string>, x: bool, b: bool)
    ensures Pick(a, All(x, |a|), b) == if x == b then a else []
  {
    if a != [] {
      PickAll(a[1..], x, b);
      assert All(x, |a|)[1..] == All(x, |a| - 1);
      assert a == [a[0]] + a[1..];
    }
  }

  /** Nothing is lost or invented. */
  lemma {:induction false} PickIsPermutation(words: seq<string>, m: seq<bool>)
    requires |words| == |m|
    ensures multiset(Pick(words, m, true)) + multiset(Pick(words, m, false)) == multiset(words)
    ensures |Pick(words, m, true)| + |Pick(words, m, false)| == |words|
  {
    if words != [] {
      var w, rest := words[0], words[1..];
      PickIsPermutation(rest, m[1..]);
      assert multiset(words) == multiset{w} + multiset(rest) by {
        assert words == [w] + rest;
      }
      PickHead(words, m, m[0]);
      PickHead(words, m, !m[0]);
    }
  }

  lemma PickHead(words: seq<string>, m: seq<bool>, b: bool)
    requires |words| == |m| > 0
    ensures |Pick(words, m, b)| == |Pick(words[1..], m[1..], b)| + if m[0] == b then 1 else 0
    ensures multiset(Pick(words, m, b))
            == multiset(Pick(words[1..], m[1..], b)) + if m[0] == b then multiset{words[0]} else multiset{}
  {
    assert Pick(words, m, b) == (if m[0] == b then [words[0]] else []) + Pick(words[1..], m[1..], b);
  }

  lemma PartitionedIsPermutation(cfg: Config, words: seq<string>)
    requires words != []
    ensures multiset(Partitioned(cfg, words)) == multiset(words)
    ensures |Partitioned(cfg, words)| == |words|
  {
    PickIsPermutation(words[1..], Marks(cfg, words, 1));
    var args, m := words[1..], Marks(cfg, words, 1);
    assert Partitioned(cfg, words) == words[..1] + (Pick(args, m, true) + Pick(args, m, false));
    assert words == words[..1] + words[1..];
  }

  // ----- the vector in the middle of a run -----

  /** The option words and the non-option words among those scanned before `i`. */
  function Scanned(cfg: Config, orig: seq<string>, i: nat, b: bool): (p: seq<string>)
    requires 1 <= i <= |orig|
    ensures |p| <= i - 1
  {
    Pick(orig[1..i], Marks(cfg, orig, 1)[..i - 1], b)
  }

  /** The scan has reached the start of a word that `Marks` has also reached. */
  ghost predicate Aligned(cfg: Config, orig: seq<string>, i: nat)
    requires 1 <= i <= |orig|
  {
    Marks(cfg, orig, 1)[i - 1..] == Marks(cfg, orig, i)
  }

  /** Skipped non-options stand either in front of the scan (`ne == -1`) or in front of a block
      of options that follows them; the words not yet scanned are untouched. */
  ghost predicate Layout(cfg: Config, orig: seq<string>, argv: seq<string>, ns: int, ne: int, i: nat) {
    && 1 <= i <= |orig| == |argv|
    && argv[0] == orig[0] && argv[i..] == orig[i..]
    && var os, ns' := Scanned(cfg, orig, i, true), Scanned(cfg, orig, i, false);
       if ns == -1 then ne == -1 && ns' == [] && argv[1..i] == os
       else if ne == -1 then 1 <= ns < i && argv[1..ns] == os && argv[ns..i] == ns'
       else 1 <= ns < ne <= i && argv[ns..ne] == ns' && argv[1..ns] + argv[ne..i] == os
  }

  lemma ScannedTake(cfg: Config, orig: seq<string>, i: nat, j: nat, x: bool)
    requires 1 <= i <= j <= |orig|
    requires Marks(cfg, orig, 1)[i - 1..j - 1] == All(x, j - i)
    ensures Scanned(cfg, orig, j, x) == Scanned(cfg, orig, i, x) + orig[i..j]
    ensures Scanned(cfg, orig, j, !x) == Scanned(cfg, orig, i, !x)
  {
    hide Marks, Pick;
    var m := Marks(cfg, orig, 1);
    assert orig[1..j] == orig[1..i] + orig[i..j];
    assert m[..j - 1] == m[..i - 1] + All(x, j - i);
    PickAppend(orig[1..i], m[..i - 1], orig[i..j], All(x, j - i), x);
    PickAppend(orig[1..i], m[..i - 1], orig[i..j], All(x, j - i), !x);
    PickAll(orig[i..j], x, x);
    PickAll(orig[i..j], x, !x);
  }

  lemma SkipWord(cfg: Config, orig: seq<string>, i: nat)
    requires 1 <= i < |orig| && Aligned(cfg, orig, i) && !IsOption(orig[i])
    ensures Aligned(cfg, orig, i + 1)
    ensures Scanned(cfg, orig, i + 1, false) == Scanned(cfg, orig, i, false) + [orig[i]]
    ensures Scanned(cfg, orig, i + 1, true) == Scanned(cfg, orig, i, true)
  {
    var m := Marks(cfg, orig, 1);
    assert m[i..] == m[i - 1..][1..] == Marks(cfg, orig, i + 1);
    assert m[i - 1] == m[i - 1..][0] == false;
    assert m[i - 1..i] == All(false, 1);
    ScannedTake(cfg, orig, i, i + 1, false);
    assert orig[i..i + 1] == [orig[i]];
  }

  lemma TakeWords(cfg: Config, orig: seq<string>, i: nat)
    requires 1 <= i < |orig| && Aligned(cfg, orig, i) && IsOption(orig[i])
    ensures var (end, stop) := WordEnd(cfg, orig, i);
            && Scanned(cfg, orig, end, true) == Scanned(cfg, orig, i, true) + orig[i..end]
            && Scanned(cfg, orig, end, false) == Scanned(cfg, orig, i, false)
            && if stop then Marks(cfg, orig, 1)[end - 1..] == All(false, |orig| - end)
               else Aligned(cfg, orig, end)
  {
    var (end, stop) := WordEnd(cfg, orig, i);
    var m := Marks(cfg, orig, 1);
    var rest := m[i - 1..];
    assert m[i - 1..end - 1] == rest[..end - i] == All(true, end - i);
    assert m[end - 1..] == rest[end - i..];
    ScannedTake(cfg, orig, i, end, true);
  }

  /** Taking the option at `i` extends whichever block of options the scan has just behind it. */
  lemma LayoutTake(cfg: Config, orig: seq<string>, argv: seq<string>, ns: int, ne: int, i: nat)
    requires Layout(cfg, orig, argv, ns, ne, i) && i < |orig| && (ns != -1 ==> ne != -1)
    requires Aligned(cfg, orig, i) && IsOption(orig[i])
    ensures Layout(cfg, orig, argv, ns, ne, WordEnd(cfg, orig, i).0)
  {
    hide Marks, WordEnd, Scanned, IsOption;
    var end := WordEnd(cfg, orig, i).0;
    TakeWords(cfg, orig, i);
    assert argv[i..end] == argv[i..][..end - i] == orig[i..end];
    assert argv[end..] == argv[i..][end - i..];
    if ns == -1 {
      assert argv[1..end] == argv[1..i] + argv[i..end];
    } else {
      assert argv[ne..end] == argv[ne..i] + argv[i..end];
    }
  }

  lemma LayoutSkip(cfg: Config, orig: seq<string>, argv: seq<string>, ns: int, i: nat)
    requires Layout(cfg, orig, argv, ns, -1, i) && i < |orig|
    requires Aligned(cfg, orig, i) && !IsOption(orig[i])
    ensures Layout(cfg, orig, argv, if ns == -1 then i else ns, -1, i + 1)
  {
    hide Marks, Scanned, IsOption;
    SkipWord(cfg, orig, i);
    assert argv[i + 1..] == argv[i..][1..];
    assert argv[i] == argv[i..][0] == orig[i];
    if ns != -1 {
      assert argv[ns..i + 1] == argv[ns..i] + [argv[i]];
    } else {
      assert argv[i..i + 1] == [argv[i]];
    }
  }

  /** Exchanging the skipped non-options with the options behind them brings the options together. */
  lemma LayoutExchange(cfg: Config, orig: seq<string>, argv: seq<string>, ns: int, ne: int, i: nat)
    requires Layout(cfg, orig, argv, ns, ne, i) && ne != -1 && ns != -1
    ensures Layout(cfg, orig, Rotation.Exchanged(argv, ns, ne, i), i - (ne - ns), -1, i)
  {
    hide Marks, Scanned;
    var now, mid := Rotation.Exchanged(argv, ns, ne, i), i - (ne - ns);
    assert now[1..mid] == argv[1..ns] + argv[ne..i];
    assert now[mid..i] == argv[ns..ne];
    assert now[i..] == argv[i..];
  }

  lemma ScannedAll(cfg: Config, orig: seq<string>, i: nat)
    requires 1 <= i <= |orig| && Marks(cfg, orig, 1)[i - 1..] == All(false, |orig| - i)
    ensures Pick(orig[1..], Marks(cfg, orig, 1), true) == Scanned(cfg, orig, i, true)
    ensures Pick(orig[1..], Marks(cfg, orig, 1), false) == Scanned(cfg, orig, i, false) + orig[i..]
  {
    var m := Marks(cfg, orig, 1);
    assert m[i - 1..|orig| - 1] == m[i - 1..];
    ScannedTake(cfg, orig, i, |orig|, false);
    assert orig[1..|orig|] == orig[1..] && m[..|orig| - 1] == m && orig[i..|orig|] == orig[i..];
  }

  /** At the end everything from the last options on is a non-option. */
  lemma LayoutFinal(cfg: Config, orig: seq<string>, argv: seq<string>, ns: int, i: nat)
    requires Layout(cfg, orig, argv, ns, -1, i)
    requires Marks(cfg, orig, 1)[i - 1..] == All(false, |orig| - i)
    ensures Finished(cfg, orig, argv, if ns == -1 then i else ns)
  {
    ScannedAll(cfg, orig, i);
    hide Marks, Pick, Scanned;
    var cut := if ns == -1 then i else ns;
    assert argv[cut..] == argv[cut..i] + argv[i..];
    assert argv == argv[..1] + argv[1..cut] + argv[cut..];
    assert argv[..1] == orig[..1];
  }

  /** The vector and `optind` of a finished run. */
  ghost predicate Finished(cfg: Config, orig: seq<string>, argv: seq<string>, optind: int) {
    orig != [] && argv == Partitioned(cfg, orig)
    && optind == 1 + |Pick(orig[1..], Marks(cfg, orig, 1), true)|
  }

  // ----- the scanning position between and during calls -----

  /** The variables that say where the scan is. */
  datatype Cursor = Cursor(optind: int, place: string, ns: int, ne: int)

  /** Between calls: `argv` is what the calls so far have made of `orig`. */
  ghost predicate Between(cfg: Config, orig: seq<string>, argv: seq<string>, c: Cursor) {
    && c.optind >= 1 && |argv| == |orig|
    && if orig == [] then c == Cursor(1, "", -1, -1)
       else if c.place != "" then Reading(cfg, orig, argv, c)
       else if !cfg.Permutes() then c.optind <= |orig| && c.ns == c.ne == -1 && argv == orig
       else Layout(cfg, orig, argv, c.ns, c.ne, c.optind) && c.ne < c.optind && Aligned(cfg, orig, c.optind)
  }

  /** Inside the option word at `c.optind`, whose unread part is `c.place`. */
  ghost predicate Reading(cfg: Config, orig: seq<string>, argv: seq<string>, c: Cursor) {
    && c.place != "" && 1 <= c.optind < |orig| == |argv| && argv[c.optind..] == orig[c.optind..]
    && if !cfg.Permutes() then c.ns == c.ne == -1 && argv == orig
       else
         && Layout(cfg, orig, argv, c.ns, c.ne, c.optind) && Aligned(cfg, orig, c.optind)
         && IsOption(orig[c.optind]) && (c.ns != -1 ==> c.ne != -1)
         && WordEnd(cfg, orig, c.optind) == ClusterEnd(cfg, orig, c.optind, c.place)
  }

  /** A long option was met in the option word at `i`; `c.place` is its text. */
  ghost predicate AtLong(cfg: Config, orig: seq<string>, argv: seq<string>, c: Cursor, i: nat, e: Event) {
    && 1 <= i <= c.optind < |orig| == |argv| && argv[i..] == orig[i..]
    && e == LongEvent(cfg, orig, c.optind + 1, c.place)
    && if !cfg.Permutes() then c.ns == c.ne == -1 && argv == orig
       else
         && Layout(cfg, orig, argv, c.ns, c.ne, i) && Aligned(cfg, orig, i)
         && IsOption(orig[i]) && (c.ns != -1 ==> c.ne != -1)
         && WordEnd(cfg, orig, i) == (e.next, e.Stop?)
  }

  /** After the call that returned -1. */
  ghost predicate Ended(cfg: Config, orig: seq<string>, argv: seq<string>, optind: int, next: nat) {
    if cfg.Permutes() && orig != [] then Finished(cfg, orig, argv, optind)
    else argv == orig && optind == next
  }

  lemma TailAt(orig: seq<string>, argv: seq<string>, i: nat, k: nat)
    requires i <= k < |orig| == |argv| && argv[i..] == orig[i..]
    ensures argv[k] == orig[k]
  {
    assert argv[k] == argv[i..][k - i];
    assert orig[k] == orig[i..][k - i];
  }

  /** The vector with the skipped non-options brought behind the options that follow them. */
  function Gathered(argv: seq<string>, c: Cursor): (r: seq<string>)
    requires c.ne != -1 ==> 0 <= c.ns < c.ne <= c.optind <= |argv|
    ensures |r| == |argv|
  {
    if c.ne == -1 then argv else Rotation.Exchanged(argv, c.ns, c.ne, c.optind)
  }

  function FirstSkipped(c: Cursor): int {
    if c.ne != -1 then c.optind - (c.ne - c.ns) else c.ns
  }

  lemma Gather(cfg: Config, orig: seq<string>, argv: seq<string>, c: Cursor)
    requires 1 <= c.optind && Layout(cfg, orig, argv, c.ns, c.ne, c.optind)
    ensures c.ne != -1 ==> 0 <= c.ns < c.ne <= c.optind <= |argv|
    ensures Layout(cfg, orig, Gathered(argv, c), FirstSkipped(c), -1, c.optind)
  {
    if c.ne != -1 {
      LayoutExchange(cfg, orig, argv, c.ns, c.ne, c.optind);
    }
  }

  lemma SkipStep(cfg: Config, orig: seq<string>, argv: seq<string>, c: Cursor)
    requires Between(cfg, orig, argv, c) && c.place == "" && cfg.Permutes()
    requires c.optind < |argv| && !IsOption(argv[c.optind])
    ensures !IsOption(orig[c.optind])
    ensures c.ne != -1 ==> 0 <= c.ns < c.ne < c.optind <= |argv|
    ensures var ns := if c.ns == -1 then c.optind else FirstSkipped(c);
            Between(cfg, orig, Gathered(argv, c), Cursor(c.optind + 1, "", ns, -1))
  {
    hide Aligned, IsOption, Gathered;
    TailAt(orig, argv, c.optind, c.optind);
    Gather(cfg, orig, argv, c);
    hide Layout;
    LayoutSkip(cfg, orig, Gathered(argv, c), FirstSkipped(c), c.optind);
    SkipWord(cfg, orig, c.optind);
  }

  lemma EndOfVector(cfg: Config, orig: seq<string>, argv: seq<string>, c: Cursor)
    requires Between(cfg, orig, argv, c) && c.place == "" && c.optind >= |argv|
    ensures c.ne != -1 ==> 0 <= c.ns < c.ne < c.optind <= |argv|
    ensures var skipped := FirstSkipped(c);
            Ended(cfg, orig, Gathered(argv, c), if skipped != -1 then skipped else c.optind, c.optind)
  {
    if cfg.Permutes() && orig != [] {
      Gather(cfg, orig, argv, c);
      assert Marks(cfg, orig, 1)[c.optind - 1..] == All(false, |orig| - c.optind);
      LayoutFinal(cfg, orig, Gathered(argv, c), FirstSkipped(c), c.optind);
    }
  }

  /** A fresh option word: non-options skipped just before it now have options behind them. */
  lemma EnterWord(cfg: Config, orig: seq<string>, argv: seq<string>, c: Cursor)
    requires Between(cfg, orig, argv, c) && c.place == "" && c.optind < |argv| && IsOption(argv[c.optind])
    ensures argv[c.optind] == orig[c.optind]
    ensures var ne := if c.ns != -1 && c.ne == -1 then c.optind else c.ne;
            var w := argv[c.optind];
            if w[1] == '-' then AtLong(cfg, orig, argv, Cursor(c.optind, w[2..], c.ns, ne), c.optind, WordEvent(cfg, orig, c.optind))
            else Reading(cfg, orig, argv, Cursor(c.optind, w[1..], c.ns, ne))
  {
    TailAt(orig, argv, c.optind, c.optind);
    if cfg.Permutes() && c.ns != -1 && c.ne == -1 {
      assert argv[1..c.ns] + argv[c.optind..c.optind] == argv[1..c.ns];
    }
  }

  /** Taking the whole option word at `i`. */
  lemma WordTaken(cfg: Config, orig: seq<string>, argv: seq<string>, ns: int, ne: int, i: nat)
    requires 1 <= i < |orig| && Layout(cfg, orig, argv, ns, ne, i) && Aligned(cfg, orig, i)
    requires IsOption(orig[i]) && (ns != -1 ==> ne != -1)
    ensures var (end, stop) := WordEnd(cfg, orig, i);
            && Layout(cfg, orig, argv, ns, ne, end) && ne < end
            && if stop then Marks(cfg, orig, 1)[end - 1..] == All(false, |orig| - end) else Aligned(cfg, orig, end)
  {
    TakeWords(cfg, orig, i);
    LayoutTake(cfg, orig, argv, ns, ne, i);
  }

  lemma LetterStep(cfg: Config, orig: seq<string>, argv: seq<string>, c: Cursor)
    requires Reading(cfg, orig, argv, c)
    ensures var e := LetterEvent(cfg, orig, c.optind, c.place);
            e.Report? ==> Between(cfg, orig, argv, Cursor(e.next, e.place, c.ns, c.ne))
  {
    var e := LetterEvent(cfg, orig, c.optind, c.place);
    if e.Report? && e.place == "" && cfg.Permutes() {
      WordTaken(cfg, orig, argv, c.ns, c.ne, c.optind);
    }
  }

  lemma LetterIsLong(cfg: Config, orig: seq<string>, argv: seq<string>, c: Cursor)
    requires Reading(cfg, orig, argv, c) && LetterOf(cfg, c.place[0]).LongPrefix?
    ensures var e, rest := LetterEvent(cfg, orig, c.optind, c.place), c.place[1..];
            if rest != "" then AtLong(cfg, orig, argv, Cursor(c.optind, rest, c.ns, c.ne), c.optind, e)
            else c.optind + 1 < |orig| ==>
              AtLong(cfg, orig, argv, Cursor(c.optind + 1, argv[c.optind + 1], c.ns, c.ne), c.optind, e)
  {
    hide Layout, Aligned, LongEvent, IsOption, WordEnd;
    if c.optind + 1 < |orig| {
      TailAt(orig, argv, c.optind, c.optind + 1);
    }
  }

  lemma LongReported(cfg: Config, orig: seq<string>, argv: seq<string>, c: Cursor, i: nat, e: Event)
    requires AtLong(cfg, orig, argv, c, i, e) && e.Report?
    ensures Between(cfg, orig, argv, Cursor(e.next, "", c.ns, c.ne))
  {
    if cfg.Permutes() {
      WordTaken(cfg, orig, argv, c.ns, c.ne, i);
    }
  }

  lemma LongStopped(cfg: Config, orig: seq<string>, argv: seq<string>, c: Cursor, i: nat, e: Event)
    requires AtLong(cfg, orig, argv, c, i, e) && e.Stop?
    ensures e.next == c.optind + 1 <= |argv|
    ensures c.ne != -1 ==> 0 <= c.ns < c.ne < e.next
    ensures var now := c.(optind := e.next);
            Ended(cfg, orig, Gathered(argv, now), if now.ne != -1 then FirstSkipped(now) else e.next, e.next)
  {
    if cfg.Permutes() {
      WordTaken(cfg, orig, argv, c.ns, c.ne, i);
      var now := c.(optind := e.next);
      Gather(cfg, orig, argv, now);
      LayoutFinal(cfg, orig, Gathered(argv, now), FirstSkipped(now), e.next);
    }
  }

  // ----- the parser -----

  /** The file's global variables. */
  class Parser {
    var optind: int
    var place: string
    var nonoptStart: int
    var nonoptEnd: int
    var optarg: Option<string>
    var optopt: int
    var optreset: bool

    constructor ()
      ensures forall cfg, orig :: Valid(cfg, orig, orig)
      ensures optind == 1 && !optreset && Where() == Cursor(1, "", -1, -1)
    {
      optind, place, nonoptStart, nonoptEnd := 1, "", -1, -1;
      optarg, optopt, optreset := None, BADCH, false;
      new;
      forall cfg: Config, orig: seq<string> ensures Between(cfg, orig, orig, Where()) {
        StartIsBetween(cfg, orig);
      }
    }

    /** The scanning position the next call starts from.  A caller may restart the scan by setting
        `optreset`, and may write 0 for the first word in `optind`. */
    ghost function Where(): Cursor
      reads this
    {
      var i := if optind == 0 then 1 else optind;
      if optreset then Cursor(i, "", -1, -1) else Cursor(i, place, nonoptStart, nonoptEnd)
    }

    ghost predicate Valid(cfg: Config, orig: seq<string>, argv: seq<string>)
      reads this
    {
      Between(cfg, orig, argv, Where())
    }

    /** What a call that met `e` has returned and left behind. */
    ghost predicate Answered(cfg: Config, orig: seq<string>, argv: seq<string>, e: Event, r: int, idx: Option<nat>, wasOptopt: int)
      reads this
    {
      match e
      case Report(ret, arg, bad, i, next, rest) =>
        && r == ret && optarg == arg && idx == i && optind == next && place == rest && !optreset
        && optopt == (if bad.Some? then bad.value else wasOptopt)
        && Valid(cfg, orig, argv)
      case Stop(next) =>
        && r == -1 && !optreset && place == "" && nonoptStart == nonoptEnd == -1 && optopt == wasOptopt
        && Ended(cfg, orig, argv, optind, next)
    }

    method GetoptLong(cfg: Config, nargv: array<string>, ghost orig: seq<string>) returns (retval: int, idx: Option<nat>)
      requires Valid(cfg, orig, nargv[..])
      modifies this, nargv
      ensures Answered(cfg, orig, nargv[..], CallEvent(cfg, orig, old(Where()).optind, old(Where()).place), retval, idx, old(optopt))
    {
      ghost var e := CallEvent(cfg, orig, Where().optind, Where().place);
      hide Between, LetterEvent, FreshEvent, Ended, AtLong;
      ghost var i;
      idx := None;
      retval, i := GetoptInternal(cfg, nargv, orig);
      if retval != -2 {
        return;
      }
      retval, idx := ReadLong(cfg, nargv, orig, i, e);
    }

    /** Returns -2 with `place` at the text of a long option, or answers the call itself. */
    method GetoptInternal(cfg: Config, nargv: array<string>, ghost orig: seq<string>) returns (r: int, ghost i: nat)
      requires Valid(cfg, orig, nargv[..])
      modifies this, nargv
      ensures var e := CallEvent(cfg, orig, old(Where()).optind, old(Where()).place);
              if r == -2 then
                && optarg == None && optopt == old(optopt) && !optreset && optind != 0
                && AtLong(cfg, orig, nargv[..], Where(), i, e)
              else Answered(cfg, orig, nargv[..], e, r, None, old(optopt))
    {
      hide LetterEvent, LongEvent, WordEvent, FreshEvent, IsOption, Ended, AtLong, Between, Reading;
      BetweenFacts(cfg, orig, nargv[..], Where());
      ghost var e := CallEvent(cfg, orig, Where().optind, Where().place);
      optarg := None;
      if optind == 0 {
        optind := 1;
      }
      if optreset {
        nonoptStart, nonoptEnd := -1, -1;
      }
      i := optind;
      if optreset || place == "" {
        optreset, place := false, "";
        r := NextOption(cfg, nargv, orig, e);
        if place == "" {
          return;
        }
        i := optind;
        var long := BeginWord(cfg, nargv, orig);
        if long {
          return -2, i;
        }
      }
      r := ReadLetter(cfg, nargv, orig);
    }

    /** Steps past the dash or dashes of an option word. */
    method BeginWord(cfg: Config, nargv: array<string>, ghost orig: seq<string>) returns (long: bool)
      requires !optreset && 1 <= optind < |orig| == nargv.Length && place == nargv[optind] == orig[optind] && IsOption(place)
      requires Between(cfg, orig, nargv[..], Where().(place := ""))
      modifies this
      ensures !optreset && optind == old(optind) && optopt == old(optopt) && optarg == old(optarg)
      ensures if long then AtLong(cfg, orig, nargv[..], Where(), optind, WordEvent(cfg, orig, optind))
              else Reading(cfg, orig, nargv[..], Where()) && WordEvent(cfg, orig, optind) == LetterEvent(cfg, orig, optind, place)
    {
      hide LetterEvent, LongEvent, WordEvent, IsOption, AtLong, Between, Reading;
      WordIsLetter(cfg, orig, optind);
      EnterWord(cfg, orig, nargv[..], Where().(place := ""));
      if nonoptStart != -1 && nonoptEnd == -1 {
        nonoptEnd := optind;
      }
      place := place[1..];
      long := place[0] == '-';
      if long {
        place := place[1..];
      }
      assert place == if long then orig[optind][2..] else orig[optind][1..];
    }

    /** Moves on to the next option word, which is left in `place`, or answers the call. */
    method NextOption(cfg: Config, nargv: array<string>, ghost orig: seq<string>, ghost e: Event) returns (r: int)
      requires Valid(cfg, orig, nargv[..]) && place == "" && optind >= 1 && optarg == None && !optreset
      requires e == FreshEvent(cfg, orig, optind)
      modifies this, nargv
      ensures if place == "" then Answered(cfg, orig, nargv[..], e, r, None, old(optopt)) && r != -2
              else
                && !optreset && optarg == None && optopt == old(optopt)
                && 1 <= optind < |orig| == nargv.Length && place == nargv[optind] && IsOption(place)
                && place == orig[optind] && e == WordEvent(cfg, orig, optind)
                && Between(cfg, orig, nargv[..], Where().(place := ""))
    {
      hide WordEvent, Ended, Between, IsOption;
      while true
        invariant optind >= 1 && place == "" && optarg == None && optopt == old(optopt) && !optreset
        invariant Valid(cfg, orig, nargv[..])
        invariant e == FreshEvent(cfg, orig, optind)
        decreases nargv.Length - optind
      {
        BetweenFacts(cfg, orig, nargv[..], Where());
        if optind >= nargv.Length {
          Finish(cfg, nargv, orig);
          return -1;
        }
        TailOfBetween(cfg, orig, nargv[..], Where());
        if IsOption(nargv[optind]) {
          OptionNotEmpty(nargv[optind]);
          place := nargv[optind];
          return 0;
        }
        if cfg.InOrder() {
          optarg := Some(nargv[optind]);
          optind := optind + 1;
          return INORDER;
        }
        if !cfg.Permutes() {
          return -1;
        }
        SkipNonOption(cfg, nargv, orig);
      }
    }

    /** The end of the vector: bring the options together, and step back to the first non-option. */
    method Finish(cfg: Config, nargv: array<string>, ghost orig: seq<string>)
      requires Valid(cfg, orig, nargv[..]) && place == "" && optind >= 1 && optind >= nargv.Length && !optreset
      modifies this, nargv
      ensures Answered(cfg, orig, nargv[..], Stop(old(optind)), -1, None, old(optopt))
      ensures optarg == old(optarg)
    {
      hide Ended, Between;
      EndOfVector(cfg, orig, nargv[..], Where());
      if nonoptEnd != -1 {
        Rotation.PermuteArgs(nonoptStart, nonoptEnd, optind, nargv);
        optind := optind - (nonoptEnd - nonoptStart);
      } else if nonoptStart != -1 {
        optind := nonoptStart;
      }
      nonoptStart, nonoptEnd := -1, -1;
    }

    method SkipNonOption(cfg: Config, nargv: array<string>, ghost orig: seq<string>)
      requires Valid(cfg, orig, nargv[..]) && place == "" && cfg.Permutes() && !optreset
      requires 1 <= optind < nargv.Length && !IsOption(nargv[optind])
      modifies this, nargv
      ensures Valid(cfg, orig, nargv[..]) && place == "" && !optreset
      ensures optind == old(optind) + 1 && optarg == old(optarg) && optopt == old(optopt)
      ensures old(optind) < |orig| && !IsOption(orig[old(optind)])
    {
      hide Between, IsOption;
      BetweenFacts(cfg, orig, nargv[..], Where());
      SkipStep(cfg, orig, nargv[..], Where());
      if nonoptStart == -1 {
        nonoptStart := optind;
      } else if nonoptEnd != -1 {
        Rotation.PermuteArgs(nonoptStart, nonoptEnd, optind, nargv);
        nonoptStart := optind - (nonoptEnd - nonoptStart);
        nonoptEnd := -1;
      }
      optind := optind + 1;
    }

    /** One option letter. */
    method ReadLetter(cfg: Config, nargv: array<string>, ghost orig: seq<string>) returns (r: int)
      requires !optreset && optind != 0 && Reading(cfg, orig, nargv[..], Where()) && optarg == None
      modifies this
      ensures var i := old(optind);
              var e := LetterEvent(cfg, orig, i, old(place));
              if r == -2 then
                && optarg == None && optopt == old(optopt) && !optreset && optind != 0
                && AtLong(cfg, orig, nargv[..], Where(), i, e)
              else Answered(cfg, orig, nargv[..], e, r, None, old(optopt))
    {
      hide Between, AtLong, Reading, LetterEvent, LetterOf, Ended;
      ghost var argv := nargv[..];
      ReadingFacts(cfg, orig, argv, Where());
      LetterStep(cfg, orig, argv, Where());
      if LetterOf(cfg, place[0]).LongPrefix? {
        LetterIsLong(cfg, orig, argv, Where());
      }
      r := StepLetter(cfg, nargv, orig);
      assert nargv[..] == argv;
    }

    /** The code for one option letter, in terms of the vector alone. */
    method StepLetter(cfg: Config, nargv: array<string>, ghost words: seq<string>) returns (r: int)
      requires place != "" && 0 < optind < |words| == nargv.Length && optarg == None
      requires optind + 1 < |words| ==> nargv[optind + 1] == words[optind + 1]
      modifies this
      ensures !optreset <==> !old(optreset)
      ensures nonoptStart == old(nonoptStart) && nonoptEnd == old(nonoptEnd)
      ensures var i, c, rest := old(optind), old(place)[0], old(place)[1..];
              var e := LetterEvent(cfg, words, i, old(place));
              if r == -2 then
                && LetterOf(cfg, c).LongPrefix? && optarg == None && optopt == old(optopt)
                && if rest != "" then optind == i && place == rest
                   else i + 1 < |words| && optind == i + 1 && place == words[i + 1]
              else
                && e.Report? && r == e.ret && optarg == e.arg && e.idx == None && optind == e.next && place == e.place
                && optopt == (if e.bad.Some? then e.bad.value else old(optopt))
    {
      hide LetterOf, LongEvent;
      var optchar := place[0];
      place := place[1..];
      var letter := LetterOf(cfg, optchar);
      if letter.Unknown? {
        if place == "" {
          optind := optind + 1;
        }
        optopt := optchar as int;
        return BADCH;
      }
      if letter.LongPrefix? {
        if place != "" {
          return -2;
        }
        optind := optind + 1;
        if optind >= nargv.Length {
          place := "";
          optopt := optchar as int;
          return cfg.BadArg();
        }
        place := nargv[optind];
        return -2;
      }
      if letter.Plain? {
        if place == "" {
          optind := optind + 1;
        }
      } else {
        optarg := None;
        if place != "" {
          optarg := Some(place);
        } else if letter.Required? {
          optind := optind + 1;
          if optind >= nargv.Length {
            place := "";
            optopt := optchar as int;
            return cfg.BadArg();
          }
          optarg := Some(nargv[optind]);
        }
        place := "";
        optind := optind + 1;
      }
      return optchar as int;
    }

    /** The part of `getopt_long` that handles the -2. */
    method ReadLong(cfg: Config, nargv: array<string>, ghost orig: seq<string>, ghost i: nat, ghost e: Event)
      returns (retval: int, idx: Option<nat>)
      requires !optreset && optind != 0 && optarg == None && AtLong(cfg, orig, nargv[..], Where(), i, e)
      modifies this, nargv
      ensures Answered(cfg, orig, nargv[..], e, retval, idx, old(optopt))
    {
      hide Between, AtLong, Ended, LongEvent;
      ghost var argv := nargv[..];
      AtLongFacts(cfg, orig, argv, Where(), i, e);
      if e.Stop? {
        LongStopped(cfg, orig, argv, Where(), i, e);
      } else {
        LongReported(cfg, orig, argv, Where(), i, e);
      }
      var body := place;
      optind := optind + 1;
      place := "";
      if body == "" {
        if nonoptEnd != -1 {
          Rotation.PermuteArgs(nonoptStart, nonoptEnd, optind, nargv);
          optind := optind - (nonoptEnd - nonoptStart);
        }
        nonoptStart, nonoptEnd := -1, -1;
        return -1, None;
      }
      retval, idx := TakeLong(cfg, nargv, body, orig);
      assert nargv[..] == argv;
    }

    /** Look the long option up and take its argument, in terms of the vector alone. */
    method TakeLong(cfg: Config, nargv: array<string>, body: string, ghost words: seq<string>)
      returns (retval: int, idx: Option<nat>)
      requires 0 < optind <= |words| == nargv.Length && place == "" && optarg == None && body != ""
      requires optind < |words| ==> nargv[optind] == words[optind]
      modifies this
      ensures !optreset <==> !old(optreset)
      ensures nonoptStart == old(nonoptStart) && nonoptEnd == old(nonoptEnd)
      ensures var e := LongEvent(cfg, words, old(optind), body);
              && e.Report? && retval == e.ret && optarg == e.arg && idx == e.idx && optind == e.next && place == e.place
              && optopt == (if e.bad.Some? then e.bad.value else old(optopt))
    {
      hide Find, FindLong;
      var eq := Find(body, '=');
      var m := MatchLong(cfg, body[..eq]);
      if !m.Found? {
        optopt := 0;
        return BADCH, None;
      }
      var o := cfg.longs[m.index];
      if o.hasArg == NoArgument && eq < |body| {
        optopt := if o.flag then 0 else o.val;
        return cfg.BadArg(), None;
      }
      if o.hasArg == RequiredArgument || o.hasArg == OptionalArgument {
        if eq < |body| {
          optarg := Some(body[eq + 1..]);
        } else if o.hasArg == RequiredArgument {
          // the word past the end of the vector is the null that terminates it
          optarg := if optind < nargv.Length then Some(nargv[optind]) else None;
          optind := optind + 1;
        }
      }
      if o.hasArg == RequiredArgument && optarg == None {
        optopt := if o.flag then 0 else o.val;
        optind := optind - 1;
        return cfg.BadArg(), None;
      }
      retval := if o.flag then 0 else o.val;
      idx := Some(m.index);
    }

    method MatchLong(cfg: Config, key: string) returns (m: Match)
      ensures m == FindLong(key, cfg.longs, 0, None)
    {
      var partial: Option<nat> := None;
      for i := 0 to |cfg.longs|
        invariant partial.Some? ==> partial.value < |cfg.longs|
        invariant FindLong(key, cfg.longs, 0, None) == FindLong(key, cfg.longs, i, partial)
      {
        if !(key <= cfg.longs[i].name) {
          continue;
        }
        if |cfg.longs[i].name| == |key| {
          return Found(i);
        }
        if partial == None {
          partial := Some(i);
        } else {
          return Ambiguous;
        }
      }
      return if partial.Some? then Found(partial.value) else NotFound;
    }
  }

  lemma StartIsBetween(cfg: Config, orig: seq<string>)
    ensures Between(cfg, orig, orig, Cursor(1, "", -1, -1))
  {
    if orig != [] && cfg.Permutes() {
      assert orig[1..1] == [];
    }
  }

  lemma BetweenFacts(cfg: Config, orig: seq<string>, argv: seq<string>, c: Cursor)
    requires Between(cfg, orig, argv, c)
    ensures c.optind >= 1 && |argv| == |orig| && (c.place != "" ==> c.optind < |orig| && Reading(cfg, orig, argv, c))
    ensures c.place == "" && c.optind < |orig| && !IsOption(argv[c.optind]) && cfg.InOrder() ==>
              Between(cfg, orig, argv, c.(optind := c.optind + 1))
  {
  }

  lemma ReadingFacts(cfg: Config, orig: seq<string>, argv: seq<string>, c: Cursor)
    requires Reading(cfg, orig, argv, c)
    ensures c.place != "" && 1 <= c.optind < |orig| == |argv|
    ensures c.optind + 1 < |orig| ==> argv[c.optind + 1] == orig[c.optind + 1]
  {
    if c.optind + 1 < |orig| {
      TailAt(orig, argv, c.optind, c.optind + 1);
    }
  }

  lemma AtLongFacts(cfg: Config, orig: seq<string>, argv: seq<string>, c: Cursor, i: nat, e: Event)
    requires AtLong(cfg, orig, argv, c, i, e)
    ensures 1 <= c.optind < |orig| == |argv| && e == LongEvent(cfg, orig, c.optind + 1, c.place)
    ensures c.optind + 1 < |orig| ==> argv[c.optind + 1] == orig[c.optind + 1]
  {
    if c.optind + 1 < |orig| {
      TailAt(orig, argv, i, c.optind + 1);
    }
  }

  lemma TailOfBetween(cfg: Config, orig: seq<string>, argv: seq<string>, c: Cursor)
    requires Between(cfg, orig, argv, c) && c.place == "" && c.optind < |argv|
    ensures argv[c.optind] == orig[c.optind]
    ensures !cfg.Permutes() ==> c.ns == c.ne == -1 && Ended(cfg, orig, argv, c.optind, c.optind)
  {
    if cfg.Permutes() {
      TailAt(orig, argv, c.optind, c.optind);
    }
  }

  // ----- whole runs -----

  /** The options a run reports, read off the vector from left to right without moving anything. */
  function Reports(cfg: Config, words: seq<string>, i: nat, place: string): (es: seq<Event>)
    requires place != "" ==> i < |words|
    ensures forall k | 0 <= k < |es| :: es[k].Report?
    decreases |words| - i, if place == "" then 1 else 0, |place|
  {
    var e := CallEvent(cfg, words, i, place);
    if e.Stop? then [] else
    FreshProgress(cfg, words, i);
    [e] + Reports(cfg, words, e.next, e.place)
  }

  lemma FreshProgress(cfg: Config, words: seq<string>, i: nat)
    ensures var e := FreshEvent(cfg, words, i);
            e.Report? ==> i <= e.next <= |words| && (e.place == "" ==> i < e.next)
                          && (e.place != "" ==> e.next < |words|)
    decreases |words| - i
  {
    if i < |words| && !IsOption(words[i]) && !cfg.InOrder() && cfg.Permutes() {
      FreshProgress(cfg, words, i + 1);
    }
  }

  lemma LongReturn(cfg: Config, words: seq<string>, next: nat, body: string)
    requires next <= |words| && forall o | o in cfg.longs :: o.flag || o.val != -1
    ensures var e := LongEvent(cfg, words, next, body); e.Report? ==> e.ret != -1
  {
    hide Find, FindLong;
  }

  lemma LetterReturn(cfg: Config, words: seq<string>, i: nat, cs: string)
    requires i < |words| && cs != "" && forall o | o in cfg.longs :: o.flag || o.val != -1
    ensures var e := LetterEvent(cfg, words, i, cs); e.Report? ==> e.ret != -1
  {
    hide LongEvent, LetterOf;
    if cs[1..] != "" {
      LongReturn(cfg, words, i + 1, cs[1..]);
    } else if i + 1 < |words| {
      LongReturn(cfg, words, i + 2, words[i + 1]);
    }
  }

  lemma ReportedReturn(cfg: Config, words: seq<string>, i: nat, place: string)
    requires place != "" ==> i < |words|
    requires forall o | o in cfg.longs :: o.flag || o.val != -1
    ensures var e := CallEvent(cfg, words, i, place); e.Report? ==> e.ret != -1
    decreases |words| - i
  {
    hide LongEvent, LetterEvent;
    if place != "" {
      LetterReturn(cfg, words, i, place);
    } else if i < |words| && IsOption(words[i]) {
      if words[i][1] == '-' {
        LongReturn(cfg, words, i + 1, words[i][2..]);
      } else {
        LetterReturn(cfg, words, i, words[i][1..]);
      }
    } else if i < |words| && !cfg.InOrder() && cfg.Permutes() {
      ReportedReturn(cfg, words, i + 1, "");
    }
  }

  /** What the caller of one call sees. */
  datatype Seen = Seen(ret: int, arg: Option<string>, idx: Option<nat>)

  function See(es: seq<Event>): (r: seq<Seen>)
    requires forall k | 0 <= k < |es| :: es[k].Report?
    ensures |r| == |es|
  {
    seq(|es|, k requires 0 <= k < |es| => Seen(es[k].ret, es[k].arg, es[k].idx))
  }

  lemma SeeCons(e: Event, rest: seq<Event>)
    requires e.Report? && forall k | 0 <= k < |rest| :: rest[k].Report?
    ensures See([e] + rest) == [Seen(e.ret, e.arg, e.idx)] + See(rest)
  {
  }

  lemma CallProgress(cfg: Config, words: seq<string>, i: nat, place: string)
    requires place != "" ==> i < |words|
    ensures var e := CallEvent(cfg, words, i, place);
            e.Report? ==>
              && e.next <= |words| && (e.place != "" ==> e.next < |words|)
              && (i < e.next || (i == e.next && e.place != "" && (place == "" || |e.place| < |place|)))
  {
    FreshProgress(cfg, words, i);
    hide FreshEvent;
  }

  lemma SeeStep(cfg: Config, words: seq<string>, i: nat, place: string)
    requires place != "" ==> i < |words|
    ensures var e := CallEvent(cfg, words, i, place);
            match e
            case Stop(_) => See(Reports(cfg, words, i, place)) == []
            case Report(ret, arg, _, idx, next, rest) =>
              && next <= |words| && (rest != "" ==> next < |words|)
              && See(Reports(cfg, words, i, place)) == [Seen(ret, arg, idx)] + See(Reports(cfg, words, next, rest))
              && (i < next || (i == next && rest != "" && (place == "" || |rest| < |place|)))
  {
    CallProgress(cfg, words, i, place);
    var e := CallEvent(cfg, words, i, place);
    hide CallEvent, See;
    if e.Report? {
      SeeCons(e, Reports(cfg, words, e.next, e.place));
    } else {
      SeeNothing();
    }
  }

  lemma SeeNothing()
    ensures See([]) == []
  {
  }

  /** Where the options of a run end, read off the vector from left to right. */
  function StopOf(cfg: Config, words: seq<string>, i: nat, place: string): (next: nat)
    requires place != "" ==> i < |words|
    decreases |words| - i, if place == "" then 1 else 0, |place|
  {
    var e := CallEvent(cfg, words, i, place);
    CallProgress(cfg, words, i, place);
    if e.Stop? then e.next else StopOf(cfg, words, e.next, e.place)
  }

  lemma StopStep(cfg: Config, words: seq<string>, i: nat, place: string)
    requires place != "" ==> i < |words|
    ensures var e := CallEvent(cfg, words, i, place);
            (e.Report? ==> e.place != "" ==> e.next < |words|)
            && StopOf(cfg, words, i, place) == if e.Stop? then e.next else StopOf(cfg, words, e.next, e.place)
  {
    CallProgress(cfg, words, i, place);
    hide CallEvent;
  }

  /** The end of the vector, a word that is no option where those end the scan, or just behind `--` or an empty word
      taken for a long option. */
  predicate StopsAt(cfg: Config, words: seq<string>, j: nat) {
    || j >= |words|
    || (!cfg.Permutes() && !cfg.InOrder() && !IsOption(words[j]))
    || (j > 0 && (words[j - 1] == "" || words[j - 1] == "--"))
  }

  lemma LetterStops(cfg: Config, words: seq<string>, i: nat, cs: string)
    requires i < |words| && cs != "" && LetterEvent(cfg, words, i, cs).Stop?
    ensures StopsAt(cfg, words, LetterEvent(cfg, words, i, cs).next)
  {
    hide LetterOf, Find, FindLong;
  }

  lemma WordStops(cfg: Config, words: seq<string>, i: nat)
    requires i < |words| && IsOption(words[i]) && WordEvent(cfg, words, i).Stop?
    ensures StopsAt(cfg, words, WordEvent(cfg, words, i).next)
  {
    hide LetterEvent, Find, FindLong;
    if words[i][1] == '-' {
      assert words[i] == ['-', '-'] + words[i][2..];
      assert words[i][2..] == "" ==> words[i] == "--";
    } else {
      LetterStops(cfg, words, i, words[i][1..]);
    }
  }

  lemma {:induction false} FreshStops(cfg: Config, words: seq<string>, i: nat)
    requires FreshEvent(cfg, words, i).Stop?
    ensures StopsAt(cfg, words, FreshEvent(cfg, words, i).next)
    decreases |words| - i
  {
    hide WordEvent, StopsAt;
    if i < |words| && IsOption(words[i]) {
      WordStops(cfg, words, i);
    } else if i < |words| && !cfg.InOrder() && cfg.Permutes() {
      FreshStops(cfg, words, i + 1);
    } else {
      EndStops(cfg, words, i);
    }
  }

  lemma EndStops(cfg: Config, words: seq<string>, i: nat)
    requires i >= |words| || (!IsOption(words[i]) && !cfg.Permutes() && !cfg.InOrder())
    ensures StopsAt(cfg, words, i)
  {
  }

  /** A run stops only where the options can end. */
  lemma {:induction false} StopOfStops(cfg: Config, words: seq<string>, i: nat, place: string)
    requires place != "" ==> i < |words|
    ensures StopsAt(cfg, words, StopOf(cfg, words, i, place))
    decreases |words| - i, if place == "" then 1 else 0, |place|
  {
    hide LetterEvent, FreshEvent, StopsAt;
    CallProgress(cfg, words, i, place);
    var e := CallEvent(cfg, words, i, place);
    if e.Report? {
      StopOfStops(cfg, words, e.next, e.place);
    } else if place != "" {
      LetterStops(cfg, words, i, place);
    } else {
      FreshStops(cfg, words, i);
    }
  }

  /** The loop every caller runs.  However the vector is shuffled on the way, the caller sees the
      options of the original vector, and ends with the options and their arguments in front,
      the other words behind, and each part in its original order. */
  method ParseAll(cfg: Config, nargv: array<string>) returns (p: Parser, seen: seq<Seen>)
    requires forall o | o in cfg.longs :: o.flag || o.val != -1
    modifies nargv
    ensures seen == See(Reports(cfg, old(nargv[..]), 1, ""))
    ensures Ended(cfg, old(nargv[..]), nargv[..], p.optind, StopOf(cfg, old(nargv[..]), 1, ""))
  {
    hide Between, CallEvent, Reports, See, Ended, StopOf, Reading, IsOption;
    ghost var orig := nargv[..];
    p := new Parser();
    seen := [];
    ghost var rest := See(Reports(cfg, orig, 1, ""));
    ghost var w := p.Where();
    while true
      invariant fresh(p)
      invariant p.Valid(cfg, orig, nargv[..]) && w == p.Where() && !p.optreset
      invariant w.optind >= 1 && (w.place != "" ==> w.optind < |orig|)
      invariant rest == See(Reports(cfg, orig, w.optind, w.place))
      invariant See(Reports(cfg, orig, 1, "")) == seen + rest
      invariant StopOf(cfg, orig, 1, "") == StopOf(cfg, orig, w.optind, w.place)
      decreases |orig| - w.optind, if w.place == "" then 1 else 0, |w.place|
    {
      ReportedReturn(cfg, orig, w.optind, w.place);
      SeeStep(cfg, orig, w.optind, w.place);
      StopStep(cfg, orig, w.optind, w.place);
      ghost var e := CallEvent(cfg, orig, w.optind, w.place);
      var option, idx := p.GetoptLong(cfg, nargv, orig);
      if option == -1 {
        return;
      }
      BetweenFacts(cfg, orig, nargv[..], p.Where());
      var one := Seen(option, p.optarg, idx);
      w, rest := p.Where(), See(Reports(cfg, orig, e.next, e.place));
      assert seen + ([one] + rest) == seen + [one] + rest;
      seen := seen + [one];
    }
  }
}
