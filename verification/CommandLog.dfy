/** What the log of a run of the interpreter says, event by event, in terms of the command line. */
module CommandLog {
  import opened Wrappers
  import opened CommandLine

  /** A command line, spelled out. */
  lemma LineShows()
    ensures
      var l := Line([Flag('i'), WithText('e', "x", true), WithText('l', "y", false)], Script("s", ["a"]));
      Legal(l) && Render(l) == ["-i", "-ex", "-l", "y", "s", "a"]
    ensures
      var l := Line([Flag('v')], DashScript("-s", []));
      Legal(l) && Render(l) == ["-v", "--", "-s"]
  {
    var os := [Flag('i'), WithText('e', "x", true), WithText('l', "y", false)];
    assert os[..2] == [Flag('i'), WithText('e', "x", true)] && os[..2][..1] == [Flag('i')];
    assert [Flag('i')][..0] == [] && [Flag('v')][..0] == [];
    assert "-ex" == ['-', 'e'] + "x" && "-i" == ['-', 'i'] && "-l" == ['-', 'l'] && "-v" == ['-', 'v'];
    assert OptWords([Flag('i')]) == ["-i"];
    assert OptWords(os[..2]) == ["-i", "-ex"];
    assert OptWords([Flag('v')]) == ["-v"];
  }

  // ---------------------------------------------------------------- what the options run

  /** How many options have a text. */
  function Texts(os: seq<Opt>): (k: nat)
    ensures k <= |os|
  {
    if os == [] then 0 else Texts(os[..|os| - 1]) + if os[|os| - 1].WithText? then 1 else 0
  }

  lemma PlacesNext(os: seq<Opt>, m: nat)
    requires 0 < m <= |os|
    ensures |set i | 0 <= i < m && os[i].WithText?|
         == |set i | 0 <= i < m - 1 && os[i].WithText?| + if os[m - 1].WithText? then 1 else 0
  {
    var front := set i | 0 <= i < m - 1 && os[i].WithText?;
    assert (set i | 0 <= i < m && os[i].WithText?) == if os[m - 1].WithText? then front + {m - 1} else front;
  }

  lemma TextsNext(os: seq<Opt>, m: nat)
    requires m < |os|
    ensures Texts(os[..m + 1]) == Texts(os[..m]) + if os[m].WithText? then 1 else 0
  {
    assert os[..m + 1][..m] == os[..m];
  }

  lemma {:induction false} TextsIsSize(os: seq<Opt>, m: nat)
    requires m <= |os|
    ensures Texts(os[..m]) == |set i | 0 <= i < m && os[i].WithText?|
    decreases m
  {
    var places := set i | 0 <= i < m && os[i].WithText?;
    if m == 0 {
      assert places == {};
    } else {
      TextsIsSize(os, m - 1);
      TextsNext(os, m - 1);
      PlacesNext(os, m);
    }
  }

  lemma {:induction false} RunsAreTexts(os: seq<Opt>)
    ensures |Walk(os).runs| == Texts(os)
  {
    if os != [] {
      RunsAreTexts(os[..|os| - 1]);
    }
  }

  /** The option with a text that comes after `j` others runs in place `j`: a chunk for -e, a library
      for -l. */
  lemma RunsMean(os: seq<Opt>, m: nat)
    requires m < |os| && os[m].WithText?
    ensures
      var j := Texts(os[..m]);
      && j < |Walk(os).runs|
      && Walk(os).runs[j] == if os[m].c == 'e' then RunChunk(os[m].text) else RunLibrary(os[m].text)
  {
    RunsAreTexts(os[..m]);
    WalkNext(os, m);
    WalkPrefix(os, m + 1);
  }

  // ---------------------------------------------------------------- the parts of a log

  lemma Parts<T>(a: seq<T>, r: seq<T>, s: seq<T>, t: seq<T>, log: seq<T>, j: nat)
    requires log <= a + r + s + t && j < |log|
    ensures log[j] == if j < |a| then a[j] else if j < |a| + |r| then r[j - |a|]
                      else if j < |a| + |r| + |s| then s[j - |a| - |r|] else t[j - |a| - |r| - |s|]
  {
  }

  /** The events of a log, by their places. */
  lemma EventAt(argv: seq<CString>, l: Line, tty: bool, log: seq<Event>, j: nat)
    requires ScriptIndex(l) < |argv| && log <= Expected(l, argv, tty) && j < |log|
    ensures
      var b, r := if Walk(l.opts).flags.v then 1 else 0, Walk(l.opts).runs;
      var s := if ScriptIndex(l) == 0 then [] else [ScriptRun(argv, ScriptIndex(l))];
      log[j] == if j < b then Banner else if j < b + |r| then r[j - b]
                else if j < b + |r| + |s| then s[j - b - |r|]
                else Interaction(Walk(l.opts).flags, ScriptIndex(l), tty)[j - b - |r| - |s|]
  {
    var p, n := Walk(l.opts), ScriptIndex(l);
    var a := if p.flags.v then [Banner] else [];
    var s := if n == 0 then [] else [ScriptRun(argv, n)];
    var t := Interaction(p.flags, n, tty);
    assert Expected(l, argv, tty) == a + p.runs + s + t;
    Parts(a, p.runs, s, t, log, j);
  }

  /** The banner comes first exactly when -v or -i was given; then comes what -e and -l ask for, in
      their order. */
  lemma LogRuns(argv: seq<CString>, l: Line, tty: bool, log: seq<Event>, m: nat)
    requires ScriptIndex(l) < |argv| && log <= Expected(l, argv, tty) && m < |l.opts| && l.opts[m].WithText?
    ensures
      var b := if exists o <- l.opts :: o.Flag? then 1 else 0;
      var j := b + |set i | 0 <= i < m && l.opts[i].WithText?|;
      j < |log| ==>
        && log[j] == (if l.opts[m].c == 'e' then RunChunk(l.opts[m].text) else RunLibrary(l.opts[m].text))
        && (b == 1 ==> log[0] == Banner)
  {
    FlagsMean(l.opts);
    TextsIsSize(l.opts, m);
    RunsMean(l.opts, m);
    var j := (if Walk(l.opts).flags.v then 1 else 0) + Texts(l.opts[..m]);
    if j < |log| {
      EventAt(argv, l, tty, log, j);
      EventAt(argv, l, tty, log, 0);
    }
  }

  /** The script runs behind all of them: under its own name, or from standard input if that is `-`
      and was not forced to be a file; with its arguments, and all words counted from it. */
  lemma LogScript(argv: seq<CString>, l: Line, tty: bool, log: seq<Event>)
    requires |argv| >= 1 && argv[1..] == Render(l) && Legal(l) && (l.ending.Script? || l.ending.DashScript?)
    requires ScriptIndex(l) < |argv| && log <= Expected(l, argv, tty)
    ensures
      var b := if exists o <- l.opts :: o.Flag? then 1 else 0;
      var j := b + |set i | 0 <= i < |l.opts| && l.opts[i].WithText?|;
      j < |log| ==>
        && log[j].RunScript? && log[j].args == l.ending.args
        && log[j].file
           == if && l.ending.Script? && l.ending.name == "-"
                 && if l.opts == [] then argv[0] != "--"
                    else
                      var last := l.opts[|l.opts| - 1];
                      !(last.WithText? && !last.attached && last.text == "--")
              then None else Some(l.ending.name)
  {
    FlagsMean(l.opts);
    TextsIsSize(l.opts, |l.opts|);
    assert l.opts[..|l.opts|] == l.opts;
    RunsAreTexts(l.opts);
    WalkLength(l.opts);
    StdinExactly(argv, l);
    var j := (if Walk(l.opts).flags.v then 1 else 0) + Texts(l.opts);
    if j < |log| {
      EventAt(argv, l, tty, log, j);
    }
  }

  lemma LogScriptTable(argv: seq<CString>, l: Line, tty: bool, log: seq<Event>, j: nat, q: int)
    requires |argv| >= 1 && argv[1..] == Render(l) && Legal(l)
    requires ScriptIndex(l) < |argv| && log <= Expected(l, argv, tty) && j < |log| && log[j].RunScript?
    ensures
      var n := |argv| - 1 - |log[j].args|;
      && (q in log[j].arg <==> 0 <= q + n < |argv|)
      && (0 <= q + n < |argv| ==> log[j].arg[q] == argv[q + n])
  {
    EventAt(argv, l, tty, log, j);
    var r, n := Walk(l.opts).runs, ScriptIndex(l);
    var i := j - if Walk(l.opts).flags.v then 1 else 0;
    if 0 <= i < |r| {
      RunsAreOptions(l.opts, i);
    }
    if n > 0 {
      ArgTableHolds(argv, n, |argv|, q);
    }
  }

  lemma {:induction false} RunsAreOptions(os: seq<Opt>, i: nat)
    requires i < |Walk(os).runs|
    ensures Walk(os).runs[i].RunChunk? || Walk(os).runs[i].RunLibrary?
    decreases |os|
  {
    if i < |Walk(os[..|os| - 1]).runs| {
      RunsAreOptions(os[..|os| - 1], i);
    }
  }

  /** How a run that does not fail ends: with the prompt when -i was given; otherwise, when nothing was
      asked for, with banner and prompt at a terminal, and with standard input run as a file elsewhere. */
  lemma LogEnds(argv: seq<CString>, l: Line, tty: bool)
    requires ScriptIndex(l) < |argv| && (ScriptIndex(l) == 0 <==> l.ending.NoScript? || l.ending.DashDash?)
    ensures
      var log := Expected(l, argv, tty);
      var b := if exists o <- l.opts :: o.Flag? then 1 else 0;
      var s := if l.ending.Script? || l.ending.DashScript? then 1 else 0;
      var j := b + |set i | 0 <= i < |l.opts| && l.opts[i].WithText?| + s;
      && j <= |log|
      && log[j..] == if Flag('i') in l.opts then [Prompt]
                     else if b == 1 || s == 1 || exists o <- l.opts :: o.WithText? && o.c == 'e' then []
                     else if tty then [Banner, Prompt] else [StdinFile]
  {
    FlagsMean(l.opts);
    TextsIsSize(l.opts, |l.opts|);
    assert l.opts[..|l.opts|] == l.opts;
    RunsAreTexts(l.opts);
    var p, n := Walk(l.opts), ScriptIndex(l);
    var front := (if p.flags.v then [Banner] else []) + p.runs + (if n == 0 then [] else [ScriptRun(argv, n)]);
    assert (front + Interaction(p.flags, n, tty))[|front|..] == Interaction(p.flags, n, tty);
  }

  lemma PromptExactly(argv: seq<CString>, l: Line, tty: bool)
    requires ScriptIndex(l) < |argv| && (ScriptIndex(l) == 0 <==> l.ending.NoScript? || l.ending.DashDash?)
    ensures
      var log := Expected(l, argv, tty);
      var asked := || l.ending.Script? || l.ending.DashScript?
                   || exists o <- l.opts :: o.Flag? || (o.WithText? && o.c == 'e');
      && (Prompt in log <==> Flag('i') in l.opts || (!asked && tty))
      && (StdinFile in log <==> !asked && !tty)
  {
    var log, p, n := Expected(l, argv, tty), Walk(l.opts), ScriptIndex(l);
    FlagsMean(l.opts);
    var front := (if p.flags.v then [Banner] else []) + p.runs + (if n == 0 then [] else [ScriptRun(argv, n)]);
    forall e | e in front
      ensures !e.Prompt? && !e.StdinFile?
    {
      if e in p.runs {
        var i :| 0 <= i < |p.runs| && p.runs[i] == e;
        RunsAreOptions(l.opts, i);
      }
    }
    var es := Interaction(p.flags, n, tty);
    assert log == front + es;
    assert forall e :: e in log <==> e in front || e in es;
  }

  // ---------------------------------------------------------------- a whole run

  /** A valid command line: what runs stops at the first failure, and without one the run ends as it
      should. `LogRuns`, `LogScript` and `LogScriptTable` say what stands in the log. */
  method Lua(argv: seq<CString>, fails: seq<Event> -> bool, tty: bool, ghost l: Line)
    returns (failed: bool, log: seq<Event>)
    requires |argv| >= 1 && argv[1..] == Render(l) && Legal(l)
    ensures ScriptIndex(l) < |argv| && log <= Expected(l, argv, tty) && (!failed ==> log == Expected(l, argv, tty))
    ensures failed ==>
      log != [] && fails(log) && var e := log[|log| - 1]; e.RunChunk? || e.RunLibrary? || e.RunScript?
    ensures forall j | 0 < j <= |log| && (failed ==> j < |log|) ::
      log[j - 1].RunChunk? || log[j - 1].RunLibrary? || log[j - 1].RunScript? ==> !fails(log[..j])
    ensures !failed ==>
      var asked := || l.ending.Script? || l.ending.DashScript?
                   || exists o <- l.opts :: o.Flag? || (o.WithText? && o.c == 'e');
      && (Prompt in log <==> Flag('i') in l.opts || (!asked && tty))
      && (StdinFile in log <==> !asked && !tty)
    ensures !failed && l.opts == [] && (l.ending.NoScript? || l.ending.DashDash?) ==>
      log == if tty then [Banner, Prompt] else [StdinFile]
  {
    ParseRender(l);
    WalkLength(l.opts);
    failed, log := PMain(argv, fails, tty);
    AfterOpts(argv, l);
    PromptExactly(argv, l, tty);
    LogEnds(argv, l, tty);
  }

  /** An invalid command line: nothing happens but the usage. */
  method LuaUsage(argv: seq<CString>, fails: seq<Event> -> bool, tty: bool) returns (failed: bool, log: seq<Event>)
    requires |argv| >= 1 && forall l | Legal(l) :: Render(l) != argv[1..]
    ensures failed && log == [Usage]
  {
    failed, log := PMain(argv, fails, tty);
    if Parse(argv[1..]).Some? {
      RenderParse(argv[1..]);
    }
  }
}
