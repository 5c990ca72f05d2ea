/** The command line of the stand-alone interpreter. It is walked twice, once to find the script
    and once to run the options in front of it. */
module CommandLine {
  import opened Wrappers

  // A C string: its characters without the terminator, so the test for '\0' at offset `k` is
  // `k == |s|`.
  type CString = string

  // ---------------------------------------------------------------- the grammar

  // -i and -v are flags; -e and -l take a text, attached to the letter or in the next word.
  datatype Opt = Flag(c: char) | WithText(c: char, text: CString, attached: bool)

  datatype Ending =
    | NoScript
    | DashDash
    | Script(name: CString, args: seq<CString>)
    | DashScript(name: CString, args: seq<CString>)

  datatype Line = Line(opts: seq<Opt>, ending: Ending)

  predicate LegalOpt(o: Opt) {
    match o
    case Flag(c) => c == 'i' || c == 'v'
    case WithText(c, text, attached) => (c == 'e' || c == 'l') && (attached ==> text != "")
  }

  predicate NotOption(w: CString) {
    w == "" || w[0] != '-' || w == "-"
  }

  predicate Legal(l: Line) {
    && (forall o <- l.opts :: LegalOpt(o))
    && (l.ending.Script? ==> NotOption(l.ending.name))
  }

  function Words(o: Opt): (ws: seq<CString>)
    ensures 1 <= |ws| <= 2
  {
    match o
    case Flag(c) => [['-', c]]
    case WithText(c, text, attached) => if attached then [['-', c] + text] else [['-', c], text]
  }

  function EndWords(e: Ending): seq<CString> {
    match e
    case NoScript => []
    case DashDash => ["--"]
    case Script(name, args) => [name] + args
    case DashScript(name, args) => ["--", name] + args
  }

  function OptWords(os: seq<Opt>): seq<CString> {
    if os == [] then [] else OptWords(os[..|os| - 1]) + Words(os[|os| - 1])
  }

  /** The words a user types for `l`. */
  function Render(l: Line): seq<CString> {
    OptWords(l.opts) + EndWords(l.ending)
  }

  /** What a word in option position turns out to be. */
  datatype Head = Bad | Stop(e: Ending) | Take(o: Opt)

  /** The branches of `collectargs`. */
  function First(ws: seq<CString>): (h: Head)
    requires ws != []
    ensures h.Take? ==> |Words(h.o)| <= |ws|
  {
    var w := ws[0];
    if w == "" || w[0] != '-' || |w| == 1 then Stop(Script(w, ws[1..])) else
    match w[1]
    case '-' =>
      if |w| > 2 then Bad
      else if |ws| == 1 then Stop(DashDash)
      else Stop(DashScript(ws[1], ws[2..]))
    case c =>
      if c == 'i' || c == 'v' then
        if |w| > 2 then Bad else Take(Flag(c))
      else if c == 'e' || c == 'l' then
        if |w| > 2 then Take(WithText(c, w[2..], true))
        else if |ws| == 1 then Bad
        else Take(WithText(c, ws[1], false))
      else Bad
  }

  function PushAll(os: seq<Opt>, r: Option<Line>): Option<Line> {
    if r.Some? then Some(r.value.(opts := os + r.value.opts)) else None
  }

  /** Reading the words back. */
  function Parse(ws: seq<CString>): Option<Line>
    decreases |ws|
  {
    if ws == [] then Some(Line([], NoScript)) else
    match First(ws)
    case Bad => None
    case Stop(e) => Some(Line([], e))
    case Take(o) => PushAll([o], Parse(ws[|Words(o)|..]))
  }

  lemma FirstOfOpt(o: Opt, rest: seq<CString>)
    requires LegalOpt(o)
    ensures First(Words(o) + rest) == Take(o)
  {
    if o.WithText? && o.attached {
      assert (['-', o.c] + o.text)[2..] == o.text;
    }
  }

  lemma FirstOfEnding(e: Ending)
    requires e.Script? ==> NotOption(e.name)
    requires !e.NoScript?
    ensures First(EndWords(e)) == Stop(e)
  {
    match e {
      case DashDash =>
      case Script(name, args) => assert ([name] + args)[1..] == args;
      case DashScript(name, args) => assert (["--", name] + args)[2..] == args;
    }
  }

  /** Round trip: rendering a legal command line and reading it gives it back. */
  lemma {:induction false} ParseRender(l: Line)
    requires Legal(l)
    ensures Parse(Render(l)) == Some(l)
    decreases |l.opts|
  {
    if l.opts == [] {
      assert Render(l) == EndWords(l.ending);
      if !l.ending.NoScript? {
        FirstOfEnding(l.ending);
      }
    } else {
      var o, rest := l.opts[0], l.(opts := l.opts[1..]);
      ParseRender(rest);
      FirstOfOpt(o, Render(rest));
      assert l.opts == [o] + rest.opts;
      RenderPush(o, rest);
      assert (Words(o) + Render(rest))[|Words(o)|..] == Render(rest);
    }
  }

  lemma RenderPush(o: Opt, rest: Line)
    ensures Render(Line([o] + rest.opts, rest.ending)) == Words(o) + Render(rest)
  {
    OptWordsPush(o, rest.opts);
    Associative(Words(o), OptWords(rest.opts), EndWords(rest.ending));
  }

  lemma {:induction false} OptWordsPush(o: Opt, os: seq<Opt>)
    ensures OptWords([o] + os) == Words(o) + OptWords(os)
  {
    if os == [] {
      assert [o] + os == [o] && [o][..0] == [];
    } else {
      var n := |os| - 1;
      OptWordsPush(o, os[..n]);
      assert ([o] + os)[..n + 1] == [o] + os[..n];
      Associative(Words(o), OptWords(os[..n]), Words(os[n]));
    }
  }

  lemma Associative<T>(a: seq<T>, b: seq<T>, c: seq<T>)
    ensures a + b + c == a + (b + c)
  {
  }

  /** What was recognised is what stood there: a C string ends at its first terminator. */
  lemma FirstSpells(ws: seq<CString>)
    requires ws != []
    ensures First(ws).Take? ==> LegalOpt(First(ws).o) && ws[..|Words(First(ws).o)|] == Words(First(ws).o)
    ensures First(ws).Stop? ==> Legal(Line([], First(ws).e)) && EndWords(First(ws).e) == ws
  {
    var w := ws[0];
    assert |w| == 1 ==> w == [w[0]];
    assert |w| == 2 ==> w == [w[0], w[1]];
    assert |w| > 2 ==> w == [w[0], w[1]] + w[2..];
    assert ws[..1] == [w] && ws == [w] + ws[1..];
    assert |ws| > 1 ==> ws[..2] == [w, ws[1]] && ws == [w, ws[1]] + ws[2..];
  }

  /** The other direction: whatever is accepted is the rendering of one legal command line. */
  lemma {:induction false} RenderParse(ws: seq<CString>)
    requires Parse(ws).Some?
    ensures Legal(Parse(ws).value) && Render(Parse(ws).value) == ws
    decreases |ws|
  {
    if ws != [] {
      FirstSpells(ws);
      if First(ws).Take? {
        var k := |Words(First(ws).o)|;
        RenderParse(ws[k..]);
        RenderPush(First(ws).o, Parse(ws[k..]).value);
        assert ws[..k] + ws[k..] == ws;
      }
    }
  }

  // ---------------------------------------------------------------- the first pass

  datatype Event =
    | Usage
    | Banner
    | RunChunk(text: CString)
    | RunLibrary(name: CString)
    | RunScript(file: Option<CString>, args: seq<CString>, arg: map<int, CString>)
    | Prompt
    | StdinFile

  predicate Fallible(e: Event) {
    e.RunChunk? || e.RunLibrary? || e.RunScript?
  }

  datatype Flags = Flags(i: bool, v: bool, e: bool)

  /** What a walk over options gathers: where the next word stands, where the options stood, the
      flags they set and the code they run. */
  datatype Pass = Pass(next: int, positions: seq<int>, flags: Flags, runs: seq<Event>)

  function Step(p: Pass, o: Opt): Pass {
    Pass(p.next + |Words(o)|,
         p.positions + [p.next],
         Flags(p.flags.i || o == Flag('i'), p.flags.v || o.Flag?, p.flags.e || (o.WithText? && o.c == 'e')),
         p.runs + RunsOf(o))
  }

  function Walk(os: seq<Opt>): (p: Pass)
    ensures p.next >= 1
  {
    if os == [] then Pass(1, [], Flags(false, false, false), [])
    else Step(Walk(os[..|os| - 1]), os[|os| - 1])
  }

  function RunsOf(o: Opt): seq<Event> {
    match o
    case Flag(_) => []
    case WithText(c, text, _) => [if c == 'e' then RunChunk(text) else RunLibrary(text)]
  }

  lemma WalkSnoc(os: seq<Opt>, o: Opt)
    ensures Walk(os + [o]) == Step(Walk(os), o)
  {
    assert (os + [o])[..|os|] == os;
  }

  lemma {:induction false} WalkLength(os: seq<Opt>)
    ensures Walk(os).next == 1 + |OptWords(os)|
  {
    if os != [] {
      WalkLength(os[..|os| - 1]);
    }
  }

  /** The first `m` options come first, and the next one right behind them. */
  lemma {:induction false} WalkPrefix(os: seq<Opt>, m: nat)
    requires m <= |os|
    ensures Walk(os[..m]).next <= Walk(os).next
    ensures Walk(os[..m]).positions <= Walk(os).positions
    ensures Walk(os[..m]).runs <= Walk(os).runs
    ensures OptWords(os[..m]) <= OptWords(os)
    decreases |os|
  {
    if m == |os| {
      assert os[..m] == os;
    } else {
      WalkPrefix(os[..|os| - 1], m);
      assert os[..|os| - 1][..m] == os[..m];
    }
  }

  /** Which options set which flag: -i sets two. */
  lemma {:induction false} FlagsMean(os: seq<Opt>)
    ensures Walk(os).flags.i <==> Flag('i') in os
    ensures Walk(os).flags.v <==> exists o <- os :: o.Flag?
    ensures Walk(os).flags.e <==> exists o <- os :: o.WithText? && o.c == 'e'
  {
    if os != [] {
      var n := |os| - 1;
      FlagsMean(os[..n]);
      assert forall o :: o in os <==> o in os[..n] || o == os[n];
    }
  }

  /** Where the script stands in argv; 0 when there is none. */
  function ScriptIndex(l: Line): int {
    match l.ending
    case Script(_, _) => Walk(l.opts).next
    case DashScript(_, _) => Walk(l.opts).next + 1
    case _ => 0
  }

  /** The words a pass steps over: the options, and a `--` behind them. */
  function Visited(l: Line): seq<int> {
    if l.ending.DashDash? || l.ending.DashScript? then Walk(l.opts).positions + [Walk(l.opts).next]
    else Walk(l.opts).positions
  }

  /** `done` has been read and the words from `i` on are still to be read. */
  ghost predicate ReadUpTo(argv: seq<CString>, done: seq<Opt>, i: nat) {
    && 1 <= i <= |argv|
    && Walk(done).next == i
    && Parse(argv[1..]) == PushAll(done, Parse(argv[i..]))
  }

  lemma ReadStart(argv: seq<CString>)
    requires |argv| >= 1
    ensures ReadUpTo(argv, [], 1)
  {
    var r := Parse(argv[1..]);
    assert r.Some? ==> [] + r.value.opts == r.value.opts;
  }

  /** How reading goes on at `i`. */
  lemma ReadStep(argv: seq<CString>, done: seq<Opt>, i: nat)
    requires ReadUpTo(argv, done, i)
    ensures i == |argv| ==> Parse(argv[1..]) == Some(Line(done, NoScript))
    ensures i < |argv| ==>
      match First(argv[i..])
      case Bad => Parse(argv[1..]) == None
      case Stop(e) => Parse(argv[1..]) == Some(Line(done, e))
      case Take(o) => ReadUpTo(argv, done + [o], i + |Words(o)|)
  {
    assert done + [] == done;
    if i < |argv| && First(argv[i..]).Take? {
      var o := First(argv[i..]).o;
      var j := i + |Words(o)|;
      assert argv[i..][|Words(o)|..] == argv[j..];
      WalkSnoc(done, o);
      PushAllTwice(done, o, Parse(argv[j..]));
    }
  }

  lemma PushAllTwice(done: seq<Opt>, o: Opt, r: Option<Line>)
    ensures PushAll(done, PushAll([o], r)) == PushAll(done + [o], r)
  {
    if r.Some? {
      assert done + ([o] + r.value.opts) == (done + [o]) + r.value.opts;
    }
  }

  /** Where the first pass goes from a word: it gives up, returns an index, or goes on. */
  datatype Verdict = Invalid | Returns(script: nat) | GoesOn(next: nat)

  ghost predicate Judged(h: Head, i: nat, flags: Flags, v: Verdict, flags': Flags) {
    match h
    case Bad => v == Invalid
    case Stop(e) => flags' == flags && v == Returns(if e.DashDash? then 0 else if e.DashScript? then i + 1 else i)
    case Take(o) => v == GoesOn(i + |Words(o)|) && flags' == Step(Pass(i, [], flags, []), o).flags
  }

  /** The first pass's test and switch on the word at `i`. */
  method CollectWord(argv: seq<CString>, i: nat, flags: Flags) returns (v: Verdict, flags': Flags)
    requires 1 <= i < |argv|
    ensures Judged(First(argv[i..]), i, flags, v, flags')
  {
    var Flags(pi, pv, pe) := flags;
    flags' := flags;
    if argv[i] == "" || argv[i][0] != '-' {
      return Returns(i), flags;
    }
    if |argv[i]| == 1 {
      return Returns(i), flags;
    }
    var i' := i;
    match argv[i][1] {
      case '-' =>
        if |argv[i]| > 2 { return Invalid, flags; }
        return Returns(if i + 1 < |argv| then i + 1 else 0), flags;
      case 'i' =>
        if |argv[i]| > 2 { return Invalid, flags; }
        pi, pv := true, true;
      case 'v' =>
        if |argv[i]| > 2 { return Invalid, flags; }
        pv := true;
      case 'e' =>
        pe := true;
        if |argv[i]| == 2 {
          i' := i' + 1;
          if i' == |argv| { return Invalid, flags; }
        }
      case 'l' =>
        if |argv[i]| == 2 {
          i' := i' + 1;
          if i' == |argv| { return Invalid, flags; }
        }
      case _ =>
        return Invalid, flags;
    }
    return GoesOn(i' + 1), Flags(pi, pv, pe);
  }

  lemma StopsAt(done: seq<Opt>, e: Ending)
    requires !e.NoScript?
    ensures
      var l, i, dashes := Line(done, e), Walk(done).next, e.DashDash? || e.DashScript?;
      && ScriptIndex(l) == (if e.DashDash? then 0 else if e.DashScript? then i + 1 else i)
      && Visited(l) == Walk(done).positions + if dashes then [i] else []
  {
  }

  lemma FirstDashes(ws: seq<CString>)
    requires ws != []
    ensures First(ws).Stop? ==>
      && !First(ws).e.NoScript?
      && var dashes := First(ws).e.DashDash? || First(ws).e.DashScript?;
      (ws[0] == "--" <==> dashes) && (|ws[0]| >= 2 && ws[0][0] == '-' <==> dashes)
    ensures First(ws).Take? ==> |ws[0]| >= 2 && ws[0][0] == '-'
  {
    var w := ws[0];
    assert |w| == 2 && w[0] == '-' && w[1] == '-' ==> w == "--";
  }

  /** The first pass's last turn. */
  lemma CollectReturns(argv: seq<CString>, done: seq<Opt>, i: nat, v: Verdict, flags: Flags)
    requires ReadUpTo(argv, done, i) && i < |argv| && !v.GoesOn?
    requires Judged(First(argv[i..]), i, Walk(done).flags, v, flags)
    ensures v.Invalid? ==> Parse(argv[1..]).None?
    ensures v.Returns? ==>
      && Parse(argv[1..]).Some?
      && var l := Parse(argv[1..]).value;
         && v.script == ScriptIndex(l)
         && flags == Walk(l.opts).flags
         && Visited(l) == Walk(done).positions + if |argv[i]| >= 2 && argv[i][0] == '-' then [i] else []
  {
    ReadStep(argv, done, i);
    if v.Returns? {
      FirstDashes(argv[i..]);
      StopsAt(done, First(argv[i..]).e);
    }
  }

  /** Any other turn of the first pass. */
  lemma CollectGoesOn(argv: seq<CString>, done: seq<Opt>, i: nat, v: Verdict, flags: Flags)
    returns (done': seq<Opt>)
    requires ReadUpTo(argv, done, i) && i < |argv| && v.GoesOn?
    requires Judged(First(argv[i..]), i, Walk(done).flags, v, flags)
    ensures ReadUpTo(argv, done', v.next) && i < v.next
    ensures flags == Walk(done').flags
    ensures Walk(done').positions == Walk(done).positions + [i]
    ensures |argv[i]| >= 2 && argv[i][0] == '-'
  {
    ReadStep(argv, done, i);
    FirstDashes(argv[i..]);
    var o := First(argv[i..]).o;
    WalkTake(done, o);
    done' := done + [o];
  }

  lemma WalkTake(done: seq<Opt>, o: Opt)
    ensures
      var p, p' := Walk(done), Walk(done + [o]);
      && p'.positions == p.positions + [p.next]
      && p'.flags == Step(Pass(p.next, [], p.flags, []), o).flags
  {
    WalkSnoc(done, o);
  }

  /** The first pass. Besides the script's index (0 for none, -1 for an invalid line) and the
      flags it gives the positions it accepted as options. */
  method CollectArgs(argv: seq<CString>) returns (script: int, flags: Flags, ghost accepted: seq<int>)
    requires |argv| >= 1
    ensures Parse(argv[1..]).None? ==> script == -1
    ensures Parse(argv[1..]).Some? ==>
      var l := Parse(argv[1..]).value;
      && script == ScriptIndex(l)
      && flags == Walk(l.opts).flags
      && accepted == Visited(l)
  {
    var i := 1;
    flags := Flags(false, false, false);
    accepted := [];
    ghost var done: seq<Opt> := [];
    ReadStart(argv);
    while i < |argv|
      invariant ReadUpTo(argv, done, i)
      invariant flags == Walk(done).flags && accepted == Walk(done).positions
      decreases |argv| - i
    {
      if |argv[i]| >= 2 && argv[i][0] == '-' {
        accepted := accepted + [i];
      }
      var v;
      v, flags := CollectWord(argv, i, flags);
      if !v.GoesOn? {
        CollectReturns(argv, done, i, v, flags);
        return if v.Returns? then v.script else -1, flags, accepted;
      }
      done := CollectGoesOn(argv, done, i, v, flags);
      i := v.next;
    }
    ReadStep(argv, done, i);
    return 0, flags, accepted;
  }

  // ---------------------------------------------------------------- what gets run

  /** Events happen in order until one fails; whether it does may depend on all before it.
      `log'` is `log` and then as much of `es` as happened. */
  ghost predicate Outcome(log: seq<Event>, es: seq<Event>, fails: seq<Event> -> bool,
                          failed: bool, log': seq<Event>)
  {
    && log <= log' <= log + es
    && Quiet(log, log', fails, failed)
    && (if failed then log < log' && Fallible(log'[|log'| - 1]) && fails(log') else log' == log + es)
  }

  /** Nothing between `log` and `log'` failed, leaving out the last event when it is one that did. */
  ghost predicate Quiet(log: seq<Event>, log': seq<Event>, fails: seq<Event> -> bool, failed: bool) {
    forall j | |log| < j <= |log'| && Fallible(log'[j - 1]) && (failed ==> j < |log'|) :: !fails(log'[..j])
  }

  /** The outcome is determined. */
  lemma OutcomeUnique(log: seq<Event>, es: seq<Event>, fails: seq<Event> -> bool,
                      failed1: bool, log1: seq<Event>, failed2: bool, log2: seq<Event>)
    requires Outcome(log, es, fails, failed1, log1) && Outcome(log, es, fails, failed2, log2)
    ensures failed1 == failed2 && log1 == log2
  {
    OutcomeShorter(log, es, fails, failed1, log1, failed2, log2);
    OutcomeShorter(log, es, fails, failed2, log2, failed1, log1);
    assert log1 == (log + es)[..|log1|] && log2 == (log + es)[..|log2|];
    assert log1[..|log1|] == log1;
  }

  lemma OutcomeShorter(log: seq<Event>, es: seq<Event>, fails: seq<Event> -> bool,
                       failed1: bool, log1: seq<Event>, failed2: bool, log2: seq<Event>)
    requires Outcome(log, es, fails, failed1, log1) && Outcome(log, es, fails, failed2, log2)
    ensures |log2| <= |log1|
  {
    if |log1| <= |log2| {
      PrefixFacts(log + es, log1, log2);
    }
  }

  lemma PrefixFacts(total: seq<Event>, a: seq<Event>, b: seq<Event>)
    requires a <= total && b <= total && |a| <= |b|
    ensures b[..|a|] == a && forall k :: 0 <= k < |a| ==> b[k] == a[k]
  {
    assert a == total[..|a|] && b == total[..|b|];
  }

  lemma QuietStep(log: seq<Event>, now: seq<Event>, es: seq<Event>, fails: seq<Event> -> bool)
    requires log <= now && Quiet(log, now, fails, false)
    requires |es| <= 1 && forall e <- es :: Fallible(e)
    ensures Quiet(log, now + es, fails, es != [] && fails(now + es))
  {
    assert forall j | |log| < j <= |now| :: (now + es)[..j] == now[..j];
    assert (now + es)[..|now + es|] == now + es;
  }

  /** The bound `pmain` passes: the script's index, or the number of words. */
  function Bound(l: Line, argc: nat): nat {
    if ScriptIndex(l) > 0 then ScriptIndex(l) else argc
  }

  /** What the switch of `runargs` finds at `i`: the event to run, if any, and the last word it
      uses. */
  predicate WordAt(argv: seq<CString>, i: nat, last: nat, es: seq<Event>) {
    && i <= last < |argv|
    && |argv[i]| >= 2 && argv[i][0] == '-'
    && if argv[i][1] == 'e' || argv[i][1] == 'l' then
         && last == (if |argv[i]| > 2 then i else i + 1)
         && var text := if |argv[i]| > 2 then argv[i][2..] else argv[last];
            es == [if argv[i][1] == 'e' then RunChunk(text) else RunLibrary(text)]
       else last == i && es == []
  }

  lemma WordsAt(argv: seq<CString>, i: nat, o: Opt)
    requires LegalOpt(o) && i + |Words(o)| <= |argv| && argv[i..i + |Words(o)|] == Words(o)
    ensures WordAt(argv, i, i + |Words(o)| - 1, RunsOf(o))
  {
    assert argv[i] == argv[i..i + |Words(o)|][0];
    assert |Words(o)| == 2 ==> argv[i + 1] == argv[i..i + |Words(o)|][1];
    if o.WithText? && o.attached {
      assert argv[i][2..] == o.text;
    }
  }

  /** The words of the `m`-th option stand where the walk over the options before it ends. */
  lemma OptAt(argv: seq<CString>, l: Line, m: nat)
    requires |argv| >= 1 && argv[1..] == Render(l) && m < |l.opts|
    ensures
      var i := Walk(l.opts[..m]).next;
      i + |Words(l.opts[m])| <= |argv| && argv[i..i + |Words(l.opts[m])|] == Words(l.opts[m])
  {
    var a, o := l.opts[..m], l.opts[m];
    assert l.opts[..m + 1][..m] == a;
    WalkPrefix(l.opts, m + 1);
    WalkLength(a);
    Inside(argv, OptWords(a), Words(o), OptWords(l.opts), EndWords(l.ending));
  }

  lemma WalkNext(os: seq<Opt>, m: nat)
    requires m < |os|
    ensures
      var w, v := Walk(os[..m]), Walk(os[..m + 1]);
      && v.next == w.next + |Words(os[m])|
      && v.positions == w.positions + [w.next]
      && v.runs == w.runs + RunsOf(os[m])
  {
    assert os[..m + 1] == os[..m] + [os[m]];
    WalkSnoc(os[..m], os[m]);
  }

  /** What the `m`-th option adds to the walk, read off argv. */
  lemma StepAt(argv: seq<CString>, l: Line, m: nat) returns (last: nat, es: seq<Event>)
    requires |argv| >= 1 && argv[1..] == Render(l) && Legal(l) && m < |l.opts|
    ensures WordAt(argv, Walk(l.opts[..m]).next, last, es)
    ensures Walk(l.opts[..m + 1]).next == last + 1
    ensures Walk(l.opts[..m + 1]).positions == Walk(l.opts[..m]).positions + [Walk(l.opts[..m]).next]
    ensures Walk(l.opts[..m + 1]).runs == Walk(l.opts[..m]).runs + es
  {
    var o := l.opts[m];
    assert o in l.opts;
    OptAt(argv, l, m);
    WordsAt(argv, Walk(l.opts[..m]).next, o);
    last, es := Walk(l.opts[..m]).next + |Words(o)| - 1, RunsOf(o);
    WalkNext(l.opts, m);
  }

  lemma WordRuns(argv: seq<CString>, i: nat, last: nat, es: seq<Event>)
    requires WordAt(argv, i, last, es)
    ensures |es| <= 1 && forall e <- es :: Fallible(e)
  {
  }

  /** One turn of the second pass's loop, in front of its bound. */
  lemma RunStep(argv: seq<CString>, l: Line, m: nat, log: seq<Event>, log': seq<Event>, fails: seq<Event> -> bool)
    returns (last: nat, es: seq<Event>)
    requires |argv| >= 1 && argv[1..] == Render(l) && Legal(l) && m < |l.opts|
    requires log' == log + Walk(l.opts[..m]).runs && Quiet(log, log', fails, false)
    ensures WordAt(argv, Walk(l.opts[..m]).next, last, es)
    ensures Walk(l.opts[..m + 1]).next == last + 1 <= Bound(l, |argv|)
    ensures Walk(l.opts[..m + 1]).positions == Walk(l.opts[..m]).positions + [Walk(l.opts[..m]).next] <= Visited(l)
    ensures log' + es == log + Walk(l.opts[..m + 1]).runs <= log + Walk(l.opts).runs
    ensures Quiet(log, log' + es, fails, es != [] && fails(log' + es))
  {
    last, es := StepAt(argv, l, m);
    WordRuns(argv, Walk(l.opts[..m]).next, last, es);
    WalkPrefix(l.opts, m + 1);
    AfterOpts(argv, l);
    LogGrows(log, Walk(l.opts[..m]).runs, es, Walk(l.opts).runs);
    QuietStep(log, log', es, fails);
  }

  lemma LogGrows(log: seq<Event>, a: seq<Event>, es: seq<Event>, all: seq<Event>)
    requires a + es <= all
    ensures log <= log + a && log + a + es == log + (a + es) <= log + all
  {
  }

  lemma Inside(argv: seq<CString>, a: seq<CString>, ws: seq<CString>, all: seq<CString>, rest: seq<CString>)
    requires |argv| >= 1 && argv[1..] == all + rest && a + ws <= all
    ensures 1 + |a| + |ws| <= 1 + |all| <= |argv| && argv[1 + |a|..1 + |a| + |ws|] == ws
  {
    assert all[..|a + ws|] == a + ws;
    assert forall k | 0 <= k < |ws| :: ws[k] == (a + ws)[|a| + k] == all[|a| + k] == argv[1..][|a| + k];
  }

  /** The bound of the second pass lies right behind the words the first one visited. */
  lemma AfterOpts(argv: seq<CString>, l: Line)
    requires |argv| >= 1 && argv[1..] == Render(l)
    ensures Walk(l.opts).next <= Bound(l, |argv|) <= |argv|
    ensures Bound(l, |argv|) == Walk(l.opts).next + |Visited(l)| - |Walk(l.opts).positions|
    ensures Walk(l.opts).next < Bound(l, |argv|) ==> argv[Walk(l.opts).next] == "--"
  {
    WalkLength(l.opts);
    var k := |OptWords(l.opts)|;
    assert |argv| == 1 + |Render(l)|;
    assert 1 + k < |argv| ==> argv[1 + k] == argv[1..][k] == EndWords(l.ending)[0];
  }

  /** The second pass's switch on the word at `i`; `i'` is the last word it uses. The three assertions
      of the source stand in the body. */
  method RunWord(argv: seq<CString>, i: nat, ghost last: nat, ghost es: seq<Event>, log: seq<Event>,
                 fails: seq<Event> -> bool)
    returns (failed: bool, i': nat, log': seq<Event>)
    requires WordAt(argv, i, last, es)
    ensures i' == last && log' == log + es && failed == (es != [] && fails(log'))
  {
    i', log' := i, log;
    assert argv[i] != "" && argv[i][0] == '-';
    match argv[i][1] {
      case 'e' =>
        var chunk := argv[i][2..];
        if chunk == "" {
          i' := i' + 1;
          assert i' < |argv|;
          chunk := argv[i'];
        }
        log' := log' + [RunChunk(chunk)];
        if fails(log') {
          return true, i', log';
        }
      case 'l' =>
        var filename := argv[i][2..];
        if filename == "" {
          i' := i' + 1;
          assert i' < |argv|;
          filename := argv[i'];
        }
        log' := log' + [RunLibrary(filename)];
        if fails(log') {
          return true, i', log';
        }
      case _ =>
    }
    failed := false;
  }

  /** The second pass over a line the first one accepted (by `RenderParse`, `argv` renders it). */
  method RunArgs(argv: seq<CString>, n: nat, ghost l: Line, log: seq<Event>, fails: seq<Event> -> bool)
    returns (failed: bool, log': seq<Event>, ghost cursor: nat, ghost visited: seq<int>)
    requires |argv| >= 1 && argv[1..] == Render(l) && Legal(l)
    requires n == Bound(l, |argv|)
    ensures Outcome(log, Walk(l.opts).runs, fails, failed, log')
    ensures cursor <= n && visited <= Visited(l)
    ensures !failed ==> cursor == n && visited == Visited(l)
  {
    var i := 1;
    ghost var m := 0;
    visited := [];
    log' := log;
    AfterOpts(argv, l);
    assert l.opts[..|l.opts|] == l.opts && l.opts[..0] == [];
    assert log + [] == log;
    while i < n
      invariant 1 <= i <= n <= |argv| && m <= |l.opts|
      invariant log' == log + Walk(l.opts[..m]).runs && Quiet(log, log', fails, false)
      invariant
        || (i == Walk(l.opts[..m]).next && visited == Walk(l.opts[..m]).positions)
        || (i == n && m == |l.opts| && visited == Visited(l))
      decreases n - i
    {
      visited := visited + [i];
      ghost var last, es := i, [];
      if m < |l.opts| {
        last, es := RunStep(argv, l, m, log, log', fails);
        m := m + 1;
      }
      ghost var now := log' + es;
      failed, i, log' := RunWord(argv, i, last, es, log', fails);
      assert log' == now;
      if failed {
        cursor := i;
        return;
      }
      i := i + 1;
    }
    if m < |l.opts| {
      ghost var _, _ := RunStep(argv, l, m, log, log', fails);
    }
    failed, cursor := false, i;
  }

  // ---------------------------------------------------------------- the script

  /** Pushes the script's arguments and builds the table `arg`, counted from the script. */
  method GetArgs(argv: seq<CString>, n: nat)
    returns (narg: nat, pushed: seq<CString>, arg: map<int, CString>)
    requires n < |argv|
    ensures narg == |pushed| && pushed == argv[n + 1..]
    ensures arg == ArgTable(argv, n, |argv|)
  {
    var argc := 0;
    while argc < |argv|
      invariant argc <= |argv|
    {
      argc := argc + 1;
    }
    narg := argc - (n + 1);
    pushed := [];
    var i := n + 1;
    while i < argc
      invariant n + 1 <= i <= argc && pushed == argv[n + 1..i]
    {
      pushed := pushed + [argv[i]];
      i := i + 1;
    }
    arg := map[];
    i := 0;
    while i < argc
      invariant 0 <= i <= argc
      invariant arg == ArgTable(argv, n, i)
    {
      arg := arg[i - n := argv[i]];
      i := i + 1;
    }
  }

  function ArgTable(argv: seq<CString>, n: nat, count: nat): map<int, CString>
    requires count <= |argv|
  {
    if count == 0 then map[] else ArgTable(argv, n, count - 1)[count - 1 - n := argv[count - 1]]
  }

  /** The table holds every word of the command line under its distance from the script. */
  lemma {:induction false} ArgTableHolds(argv: seq<CString>, n: nat, count: nat, k: int)
    requires count <= |argv|
    ensures k in ArgTable(argv, n, count) <==> 0 <= k + n < count
    ensures 0 <= k + n < count ==> ArgTable(argv, n, count)[k] == argv[k + n]
  {
    if count > 0 {
      ArgTableHolds(argv, n, count - 1, k);
    }
  }

  /** The test by which `handle_script` reads standard input instead of a file. */
  predicate ReadsStdin(argv: seq<CString>, n: nat)
    requires 1 <= n < |argv|
  {
    argv[n] == "-" && argv[n - 1] != "--"
  }

  /** A lone `-` is meant to stand for standard input. It does, unless the word in front of it
      happens to be `--` without ending the options: the detached argument of the last option,
      or the program's own name. */
  lemma StdinExactly(argv: seq<CString>, l: Line)
    requires |argv| >= 1 && argv[1..] == Render(l) && Legal(l) && ScriptIndex(l) > 0
    ensures
      var n := ScriptIndex(l);
      && n < |argv| && argv[n] == l.ending.name && argv[n + 1..] == l.ending.args
      && (ReadsStdin(argv, n) <==>
            && l.ending.Script? && l.ending.name == "-"
            && if l.opts == [] then argv[0] != "--"
               else
                 var last := l.opts[|l.opts| - 1];
                 !(last.WithText? && !last.attached && last.text == "--"))
  {
    WalkLength(l.opts);
    ScriptAt(argv, OptWords(l.opts), l.ending);
    if l.opts != [] {
      LastWord(argv, l);
    }
  }

  /** An input that fails: `lua -e -- -` has the script `-`, and takes it for a file. */
  lemma StdinMissed()
    ensures
      var argv: seq<CString> := ["lua", "-e", "--", "-"];
      var l := Line([WithText('e', "--", false)], Script("-", []));
      && Parse(argv[1..]) == Some(l) && |argv| == 4 && ScriptIndex(l) == 3 && !ReadsStdin(argv, 3)
  {
    var l := Line([WithText('e', "--", false)], Script("-", []));
    var argv: seq<CString> := ["lua", "-e", "--", "-"];
    assert l.opts[..0] == [];
    assert Render(l) == argv[1..];
    ParseRender(l);
    WalkLength(l.opts);
  }

  lemma ScriptAt(argv: seq<CString>, ws: seq<CString>, e: Ending)
    requires |argv| >= 1 && argv[1..] == ws + EndWords(e)
    ensures
      var k := 1 + |ws|;
      && (e.Script? ==> k < |argv| && argv[k] == e.name && argv[k + 1..] == e.args)
      && (e.DashScript? ==>
            k + 1 < |argv| && argv[k] == "--" && argv[k + 1] == e.name && argv[k + 2..] == e.args)
  {
    var k := |ws|;
    assert |argv| == 1 + |ws| + |EndWords(e)|;
    assert argv[1..][k..] == EndWords(e) == argv[1 + k..];
    assert e.Script? ==> EndWords(e)[1..] == e.args;
    assert e.DashScript? ==> EndWords(e)[2..] == e.args;
  }

  lemma LastWord(argv: seq<CString>, l: Line)
    requires |argv| >= 1 && argv[1..] == Render(l) && Legal(l) && l.opts != []
    ensures
      var k := |OptWords(l.opts)|;
      var last := l.opts[|l.opts| - 1];
      && k < |argv|
      && (argv[k] == "--" <==> last.WithText? && !last.attached && last.text == "--")
  {
    var m := |l.opts| - 1;
    var a, ws := OptWords(l.opts[..m]), Words(l.opts[m]);
    Inside(argv, a, ws, a + ws, EndWords(l.ending));
    assert argv[|a| + |ws|] == argv[1 + |a|..1 + |a| + |ws|][|ws| - 1];
    assert l.opts[m] in l.opts;
    LastOfWords(l.opts[m]);
  }

  lemma LastOfWords(o: Opt)
    requires LegalOpt(o)
    ensures Words(o)[|Words(o)| - 1] == "--"
        <==> o.WithText? && !o.attached && o.text == "--"
  {
    assert Words(o)[0][1] != '-' && "--"[1] == '-';
  }

  // ---------------------------------------------------------------- pmain

  /** All that a valid command line asks for, in order. */
  function Expected(l: Line, argv: seq<CString>, tty: bool): seq<Event>
    requires ScriptIndex(l) < |argv|
  {
    var p, n := Walk(l.opts), ScriptIndex(l);
    (if p.flags.v then [Banner] else [])
    + p.runs
    + (if n == 0 then [] else [ScriptRun(argv, n)])
    + Interaction(p.flags, n, tty)
  }

  function ScriptRun(argv: seq<CString>, n: nat): Event
    requires 1 <= n < |argv|
  {
    RunScript(if ReadsStdin(argv, n) then None else Some(argv[n]), argv[n + 1..], ArgTable(argv, n, |argv|))
  }

  function Interaction(f: Flags, n: nat, tty: bool): (es: seq<Event>)
    ensures forall e <- es :: !Fallible(e)
  {
    if f.i then [Prompt]
    else if n > 0 || f.e || f.v then []
    else if tty then [Banner, Prompt] else [StdinFile]
  }

  lemma OutcomeThen(log: seq<Event>, a: seq<Event>, b: seq<Event>, fails: seq<Event> -> bool,
                    failed: bool, mid: seq<Event>, log': seq<Event>)
    requires Outcome(log, a, fails, false, mid) && Outcome(mid, b, fails, failed, log')
    ensures Outcome(log, a + b, fails, failed, log')
  {
    assert log + (a + b) == log + a + b;
    forall j | |log| < j <= |log'| && Fallible(log'[j - 1]) && (failed ==> j < |log'|)
      ensures !fails(log'[..j])
    {
      if j <= |mid| {
        assert log'[..j] == mid[..j];
      }
    }
  }

  lemma OutcomeOne(mid: seq<Event>, e: Event, fails: seq<Event> -> bool)
    ensures Outcome(mid, [e], fails, Fallible(e) && fails(mid + [e]), mid + [e])
  {
    assert (mid + [e])[..|mid| + 1] == mid + [e];
  }

  lemma OutcomeNothing(mid: seq<Event>, fails: seq<Event> -> bool)
    ensures Outcome(mid, [], fails, false, mid)
  {
    assert mid + [] == mid;
  }

  lemma OutcomeStops(log: seq<Event>, a: seq<Event>, b: seq<Event>, fails: seq<Event> -> bool, log': seq<Event>)
    requires Outcome(log, a, fails, true, log')
    ensures Outcome(log, a + b, fails, true, log')
  {
    assert log + (a + b) == log + a + b;
  }

  /** Running the script, from a file or from standard input. */
  method HandleScript(argv: seq<CString>, n: nat, log: seq<Event>, fails: seq<Event> -> bool)
    returns (failed: bool, log': seq<Event>)
    requires 1 <= n < |argv|
    ensures Outcome(log, [ScriptRun(argv, n)], fails, failed, log')
  {
    var narg, pushed, arg := GetArgs(argv, n);
    var file := Some(argv[n]);
    if argv[n] == "-" && argv[n - 1] != "--" {
      file := None;
    }
    log' := log + [RunScript(file, pushed, arg)];
    failed := fails(log');
    OutcomeOne(log, ScriptRun(argv, n), fails);
  }

  /** The end of `pmain`: the prompt, or standard input when nothing else was asked for. */
  method Interact(f: Flags, n: nat, tty: bool, log: seq<Event>, ghost fails: seq<Event> -> bool)
    returns (log': seq<Event>)
    ensures Outcome(log, Interaction(f, n, tty), fails, false, log')
  {
    log' := log;
    if f.i {
      log' := log' + [Prompt];
    } else if n == 0 && !f.e && !f.v {
      if tty {
        log' := log' + [Banner];
        log' := log' + [Prompt];
      } else {
        log' := log' + [StdinFile];
      }
    }
    assert log' == log + Interaction(f, n, tty);
  }

  /** `pmain` after the library setup, when no script is frozen into the executable and
      LUA_INIT ran well. */
  method PMain(argv: seq<CString>, fails: seq<Event> -> bool, tty: bool)
    returns (failed: bool, log: seq<Event>)
    requires |argv| >= 1
    ensures Parse(argv[1..]).None? ==> failed && log == [Usage]
    ensures Parse(argv[1..]).Some? ==>
      var l := Parse(argv[1..]).value;
      && ScriptIndex(l) < |argv|
      && Outcome([], Expected(l, argv, tty), fails, failed, log)
  {
    var script, flags, accepted := CollectArgs(argv);
    if script < 0 {
      return true, [Usage];
    }
    ghost var l := Parse(argv[1..]).value;
    RenderParse(argv[1..]);
    AfterOpts(argv, l);
    if script > 0 {
      StdinExactly(argv, l);
    }
    ghost var tail := Interaction(flags, script, tty);
    ghost var handled := if script == 0 then [] else [ScriptRun(argv, script)];
    ghost var asked: seq<Event> := [];
    log := [];
    OutcomeNothing(log, fails);
    if flags.v {
      log := log + [Banner];
      asked := [Banner];
      OutcomeOne([], Banner, fails);
    }
    assert Expected(l, argv, tty) == asked + Walk(l.opts).runs + handled + tail;
    ghost var mid, cursor, visited := log, 0, [];
    failed, log, cursor, visited := RunArgs(argv, if script > 0 then script else |argv|, l, log, fails);
    OutcomeThen([], asked, Walk(l.opts).runs, fails, failed, mid, log);
    asked, mid := asked + Walk(l.opts).runs, log;
    if !failed {
      OutcomeNothing(log, fails);
      if script > 0 {
        failed, log := HandleScript(argv, script, log, fails);
      }
      OutcomeThen([], asked, handled, fails, failed, mid, log);
    } else {
      OutcomeStops([], asked, handled, fails, log);
    }
    asked, mid := asked + handled, log;
    if failed {
      OutcomeStops([], asked, tail, fails, log);
      return;
    }
    log := Interact(flags, script, tty, log, fails);
    OutcomeThen([], asked, tail, fails, false, mid, log);
  }
}
