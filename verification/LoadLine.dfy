/** The interactive reader: it adds lines to a chunk until the compiler stops asking for more. */
module LoadLine {
  import opened Wrappers

  const LUA_ERRRUN := 2
  const LUA_ERRSYNTAX := 3
  const LUA_ERRMEM := 4
  const EOF_MARK := "'<eof>'"

  /** What the compiler answers for a text. */
  datatype Answer = Compiled | SyntaxError(msg: string) | OutOfMemory(msg: string) {
    function Status(): int {
      match this
      case Compiled => 0
      case SyntaxError(_) => LUA_ERRSYNTAX
      case OutOfMemory(_) => LUA_ERRMEM
    }
  }

  type Compiler = string -> Answer

  // What the interpreter's stack holds: strings, among which numbers are counted, functions, named by
  // the text they came from, nil, and anything else.
  datatype Value = Str(s: string) | Function(text: string) | Nil | Other(n: nat)

  // What a user sees of the interactive loop.
  datatype Event = Ran(text: string) | Message(msg: string) | Printed(results: seq<Value>)

  // What becomes of a chunk that runs. It may depend on all that has happened before, and so may an
  // error in the call of `print`.
  datatype Outcome = Returned(results: seq<Value>) | Raised(error: Value)

  type Runner = seq<Event> -> Outcome
  type Printer = seq<Event> -> Option<Value>

  /** What `luaL_loadbuffer` leaves on the stack. */
  function Result(compile: Compiler, text: string): Value {
    match compile(text)
    case Compiled => Function(text)
    case SyntaxError(msg) => Str(msg)
    case OutOfMemory(msg) => Str(msg)
  }

  /** The mark is at offset `k`. */
  predicate MarkAt(msg: string, k: nat) {
    k + |EOF_MARK| <= |msg| && msg[k..k + |EOF_MARK|] == EOF_MARK
  }

  /** The first place where the mark occurs is the end of the message. */
  predicate AsksForMore(msg: string) {
    && |EOF_MARK| <= |msg|
    && MarkAt(msg, |msg| - |EOF_MARK|)
    && forall k | 0 <= k < |msg| - |EOF_MARK| :: !MarkAt(msg, k)
  }

  predicate NeedsMore(compile: Compiler, text: string) {
    compile(text).SyntaxError? && AsksForMore(compile(text).msg)
  }

  /** A line as the reader stores it: no newline at the end, and `=` in front of the first one
      turned into a return statement. */
  function LineText(b: string, firstline: bool): string {
    var line := if b != "" && b[|b| - 1] == '\n' then b[..|b| - 1] else b;
    if firstline && line != "" && line[0] == '=' then "return " + line[1..] else line
  }

  /** A newline at the end makes no difference; a first line that begins with `=` returns the rest. */
  lemma LineTextMeans(line: string, firstline: bool)
    requires line == "" || line[|line| - 1] != '\n'
    ensures LineText(line + "\n", firstline) == LineText(line, firstline)
    ensures LineText(line, firstline)
         == if firstline && line != "" && line[0] == '=' then "return " + line[1..] else line
  {
    assert (line + "\n")[..|line|] == line;
  }

  /** The message ends in the mark and holds it nowhere else. */
  lemma AsksMeans(msg: string)
    ensures AsksForMore(msg) <==>
      && |msg| >= 7 && msg[|msg| - 7..] == "'<eof>'"
      && forall k | 0 <= k < |msg| - 7 :: msg[k..][..7] != "'<eof>'"
  {
    if |msg| >= 7 {
      assert msg[|msg| - 7..|msg| - 7 + |EOF_MARK|] == msg[|msg| - 7..];
      forall k | 0 <= k < |msg| - 7
        ensures MarkAt(msg, k) <==> msg[k..][..7] == "'<eof>'"
      {
        assert msg[k..k + |EOF_MARK|] == msg[k..][..7];
      }
    }
  }

  /** The chunk made of some lines. */
  function Joined(lines: seq<string>): string
    requires lines != []
  {
    if |lines| == 1 then LineText(lines[0], true)
    else Joined(lines[..|lines| - 1]) + "\n" + LineText(lines[|lines| - 1], false)
  }

  /** The first `k` lines make a chunk the compiler asks more for. */
  predicate Partial(compile: Compiler, lines: seq<string>, k: nat)
    requires 1 <= k <= |lines|
  {
    NeedsMore(compile, Joined(lines[..k]))
  }

  /** The least number of lines, `k` or more, that do not ask for more; 0 when there is none. */
  function Complete(compile: Compiler, lines: seq<string>, k: nat): (n: nat)
    requires k >= 1
    ensures n <= |lines| && (n == 0 || k <= n)
    ensures n > 0 ==> !Partial(compile, lines, n)
    ensures forall j | k <= j <= |lines| && (n == 0 || j < n) :: Partial(compile, lines, j)
    decreases |lines| - k
  {
    if k > |lines| then 0
    else if !Partial(compile, lines, k) then k
    else Complete(compile, lines, k + 1)
  }

  // The lines of a chunk.
  type Chunk = g: seq<string> | g != [] witness [""]

  /** How a whole input falls into chunks. */
  function Session(compile: Compiler, lines: seq<string>): seq<Chunk>
    decreases |lines|
  {
    var n := Complete(compile, lines, 1);
    if n == 0 then [] else [lines[..n]] + Session(compile, lines[n..])
  }

  function Compiling(compile: Compiler, text: string): seq<string> {
    if compile(text).Compiled? then [text] else []
  }

  /** The texts among them that compile. */
  function Texts(compile: Compiler, lines: seq<string>): seq<string>
    decreases |lines|
  {
    var n := Complete(compile, lines, 1);
    if n == 0 then [] else Compiling(compile, Joined(lines[..n])) + Texts(compile, lines[n..])
  }

  /** What is reported of an error. */
  function TextOf(error: Value): string {
    if error.Str? then error.s else "(error object is not a string)"
  }

  function PrintText(error: Value): string {
    "error calling 'print' (" + (if error.Str? then error.s else "(null)") + ")"
  }

  /** After a chunk has run: its results, if any, are printed, or its error, unless that is nil, is
      reported. */
  function Answered(run: Runner, prints: Printer, ran: seq<Event>): seq<Event> {
    match run(ran)
    case Raised(error) => if error == Nil then ran else ran + [Message(TextOf(error))]
    case Returned(results) => if results == [] then ran else PrintedLog(prints, ran, results)
  }

  function PrintedLog(prints: Printer, log: seq<Event>, results: seq<Value>): seq<Event> {
    var printed := log + [Printed(results)];
    match prints(printed)
    case None => printed
    case Some(error) => printed + [Message(PrintText(error))]
  }

  /** What happens with a chunk: it is run, or the compiler's message is reported. */
  function Handled(compile: Compiler, run: Runner, prints: Printer, log: seq<Event>, text: string): seq<Event> {
    match compile(text)
    case SyntaxError(msg) => log + [Message(msg)]
    case OutOfMemory(msg) => log + [Message(msg)]
    case Compiled => Answered(run, prints, log + [Ran(text)])
  }

  /** What happens with a whole input, chunk by chunk. */
  function Transcript(compile: Compiler, run: Runner, prints: Printer, log: seq<Event>, lines: seq<string>): seq<Event>
    decreases |lines|
  {
    var n := Complete(compile, lines, 1);
    if n == 0 then log
    else Transcript(compile, run, prints, Handled(compile, run, prints, log, Joined(lines[..n])), lines[n..])
  }

  /** The texts that were run. */
  function Runs(log: seq<Event>): seq<string> {
    if log == [] then [] else
    var n := |log| - 1;
    if log[n].Ran? then Runs(log[..n]) + [log[n].text] else Runs(log[..n])
  }

  lemma RunsThen(log: seq<Event>, e: Event)
    ensures Runs(log + [e]) == if e.Ran? then Runs(log) + [e.text] else Runs(log)
  {
    assert (log + [e])[..|log|] == log;
  }

  lemma PrintedRuns(prints: Printer, log: seq<Event>, results: seq<Value>)
    ensures Runs(PrintedLog(prints, log, results)) == Runs(log)
  {
    var printed := log + [Printed(results)];
    RunsThen(log, Printed(results));
    match prints(printed)
    case None =>
    case Some(error) => RunsThen(printed, Message(PrintText(error)));
  }

  lemma AnsweredRuns(run: Runner, prints: Printer, ran: seq<Event>)
    ensures Runs(Answered(run, prints, ran)) == Runs(ran)
  {
    match run(ran)
    case Raised(error) => RunsThen(ran, Message(TextOf(error)));
    case Returned(results) => PrintedRuns(prints, ran, results);
  }

  lemma HandledRuns(compile: Compiler, run: Runner, prints: Printer, log: seq<Event>, text: string)
    ensures Runs(Handled(compile, run, prints, log, text)) == Runs(log) + Compiling(compile, text)
  {
    match compile(text)
    case SyntaxError(msg) => RunsThen(log, Message(msg));
    case OutOfMemory(msg) => RunsThen(log, Message(msg));
    case Compiled =>
      RunsThen(log, Ran(text));
      AnsweredRuns(run, prints, log + [Ran(text)]);
  }

  function Flatten(groups: seq<seq<string>>): seq<string> {
    if groups == [] then [] else groups[0] + Flatten(groups[1..])
  }

  /** A chunk that does not ask for more, while every shorter one does. */
  predicate Minimal(compile: Compiler, g: seq<string>) {
    g != [] && !Partial(compile, g, |g|) && forall k | 1 <= k < |g| :: Partial(compile, g, k)
  }

  predicate AllMinimal(compile: Compiler, groups: seq<seq<string>>) {
    groups == [] || (Minimal(compile, groups[0]) && AllMinimal(compile, groups[1..]))
  }

  lemma CompleteIsMinimal(compile: Compiler, lines: seq<string>)
    requires Complete(compile, lines, 1) > 0
    ensures Minimal(compile, lines[..Complete(compile, lines, 1)])
  {
    var n := Complete(compile, lines, 1);
    forall k | 1 <= k <= n
      ensures Partial(compile, lines[..n], k) == Partial(compile, lines, k)
    {
      assert lines[..n][..k] == lines[..k];
    }
  }

  /** Every line is read once and in order, every chunk is as short as it can be, and what is
      left over asks for more however it is cut. */
  lemma {:induction false} SessionPartition(compile: Compiler, lines: seq<string>) returns (rest: seq<string>)
    ensures lines == Flatten(Session(compile, lines)) + rest
    ensures AllMinimal(compile, Session(compile, lines))
    ensures forall k | 1 <= k <= |rest| :: Partial(compile, rest, k)
    decreases |lines|
  {
    var n := Complete(compile, lines, 1);
    if n == 0 {
      rest := lines;
    } else {
      rest := SessionPartition(compile, lines[n..]);
      CompleteIsMinimal(compile, lines);
      var g, groups := lines[..n], Session(compile, lines[n..]);
      assert ([g] + groups)[1..] == groups;
      assert lines == g + (Flatten(groups) + rest) == (g + Flatten(groups)) + rest;
    }
  }

  lemma Regroup<T>(a: seq<T>, b: seq<T>, c: seq<T>)
    ensures a + b + c == a + (b + c)
  {
  }

  /** The texts that compile, read off the chunks. */
  lemma {:induction false} TextsOfSession(compile: Compiler, lines: seq<string>)
    ensures Texts(compile, lines) == CompilingAll(compile, Session(compile, lines))
    decreases |lines|
  {
    var n := Complete(compile, lines, 1);
    if n > 0 {
      TextsOfSession(compile, lines[n..]);
      var groups := Session(compile, lines);
      assert groups[0] == lines[..n] && groups[1..] == Session(compile, lines[n..]);
    }
  }

  function CompilingAll(compile: Compiler, groups: seq<Chunk>): seq<string> {
    if groups == [] then [] else Compiling(compile, Joined(groups[0])) + CompilingAll(compile, groups[1..])
  }

  /** An input with two chunks, of which only the first line of each is looked at for `=`. */
  lemma JoinedShows()
    ensures Joined(["=f(\n", "=1)\n"]) == "return f(\n=1)" && Joined(["x = 1"]) == "x = 1"
  {
    assert ["=f(\n", "=1)\n"][..1] == ["=f(\n"];
    assert "=f(\n"[..3] == "=f(" && "=f("[1..] == "f(" && "=1)\n"[..3] == "=1)";
  }

  /** What happens with one chunk fills the log from `a` to `z`. */
  ghost predicate Piece(compile: Compiler, run: Runner, prints: Printer, log: seq<Event>, text: string, a: nat,
                        z: nat)
  {
    && a < z <= |log|
    && match compile(text)
       case SyntaxError(msg) => z == a + 1 && log[a] == Message(msg)
       case OutOfMemory(msg) => z == a + 1 && log[a] == Message(msg)
       case Compiled =>
         && log[a] == Ran(text)
         && match run(log[..a + 1])
            case Raised(error) =>
              if error == Nil then z == a + 1
              else
                && z == a + 2
                && log[a + 1] == Message(if error.Str? then error.s else "(error object is not a string)")
            case Returned(results) =>
              if results == [] then z == a + 1
              else
                && z >= a + 2 && log[a + 1] == Printed(results)
                && match prints(log[..a + 2])
                   case None => z == a + 2
                   case Some(error) =>
                     && z == a + 3
                     && log[a + 2]
                        == Message("error calling 'print' (" + (if error.Str? then error.s else "(null)") + ")")
  }

  lemma HandledPiece(compile: Compiler, run: Runner, prints: Printer, log: seq<Event>, text: string)
    ensures log <= Handled(compile, run, prints, log, text)
    ensures
      var after := Handled(compile, run, prints, log, text);
      Piece(compile, run, prints, after, text, |log|, |after|)
  {
    var after := Handled(compile, run, prints, log, text);
    if compile(text).Compiled? {
      var ran := log + [Ran(text)];
      assert after[..|log| + 1] == ran;
      if run(ran).Returned? && run(ran).results != [] {
        assert after[..|log| + 2] == ran + [Printed(run(ran).results)];
      }
    }
  }

  lemma PieceStays(compile: Compiler, run: Runner, prints: Printer, log: seq<Event>, text: string, a: nat, z: nat,
                   more: seq<Event>)
    requires Piece(compile, run, prints, log, text, a, z) && log <= more
    ensures Piece(compile, run, prints, more, text, a, z)
  {
    assert more[..a + 1] == log[..a + 1];
    if z >= a + 2 {
      assert more[..a + 2] == log[..a + 2];
    }
  }

  lemma ShortSlice(log: seq<Event>, a: nat, z: nat)
    requires a < z <= |log| && z <= a + 3
    ensures log[a..z] == if z == a + 1 then [log[a]] else if z == a + 2 then [log[a], log[a + 1]]
                         else [log[a], log[a + 1], log[a + 2]]
  {
  }

  /** All that happens with a chunk. */
  lemma PieceMeans(compile: Compiler, run: Runner, prints: Printer, log: seq<Event>, text: string, a: nat, z: nat)
    requires Piece(compile, run, prints, log, text, a, z)
    ensures
      && a < z <= |log|
      && match compile(text)
         case SyntaxError(msg) => log[a..z] == [Message(msg)]
         case OutOfMemory(msg) => log[a..z] == [Message(msg)]
         case Compiled =>
           match run(log[..a + 1])
           case Raised(Nil) => log[a..z] == [Ran(text)]
           case Raised(Str(e)) => log[a..z] == [Ran(text), Message(e)]
           case Raised(_) => log[a..z] == [Ran(text), Message("(error object is not a string)")]
           case Returned(results) =>
             if results == [] then log[a..z] == [Ran(text)]
             else
               && a + 2 <= |log|
               && match prints(log[..a + 2])
                  case None => log[a..z] == [Ran(text), Printed(results)]
                  case Some(Str(e)) =>
                    log[a..z] == [Ran(text), Printed(results), Message("error calling 'print' (" + e + ")")]
                  case Some(_) =>
                    log[a..z] == [Ran(text), Printed(results), Message("error calling 'print' (" + "(null)" + ")")]
  {
    ShortSlice(log, a, z);
  }

  /** The piece of chunk `c` lies between the marks `c` and `c + 1`. */
  ghost predicate Pieces(compile: Compiler, run: Runner, prints: Printer, log: seq<Event>, groups: seq<Chunk>,
                         marks: seq<nat>)
  {
    && |marks| == |groups| + 1 && marks[|groups|] == |log|
    && forall c | 0 <= c < |groups| :: Piece(compile, run, prints, log, Joined(groups[c]), marks[c], marks[c + 1])
  }

  lemma PiecesPush(compile: Compiler, run: Runner, prints: Printer, log: seq<Event>, g: Chunk, groups: seq<Chunk>,
                   mark: nat, marks: seq<nat>)
    requires Pieces(compile, run, prints, log, groups, marks)
    requires Piece(compile, run, prints, log, Joined(g), mark, marks[0])
    ensures Pieces(compile, run, prints, log, [g] + groups, [mark] + marks)
  {
    forall c | 0 <= c < |groups| + 1
      ensures Piece(compile, run, prints, log, Joined(([g] + groups)[c]), ([mark] + marks)[c], ([mark] + marks)[c + 1])
    {
      if c > 0 {
        assert ([g] + groups)[c] == groups[c - 1];
      }
    }
  }

  lemma {:induction false} TranscriptPieces(compile: Compiler, run: Runner, prints: Printer, log: seq<Event>,
                                            lines: seq<string>)
    returns (marks: seq<nat>)
    ensures
      var all := Transcript(compile, run, prints, log, lines);
      && log <= all && Pieces(compile, run, prints, all, Session(compile, lines), marks)
      && marks[0] == |log|
    decreases |lines|
  {
    var n := Complete(compile, lines, 1);
    if n == 0 {
      marks := [|log|];
    } else {
      var g: Chunk := lines[..n];
      var next := Handled(compile, run, prints, log, Joined(g));
      HandledPiece(compile, run, prints, log, Joined(g));
      var rest := TranscriptPieces(compile, run, prints, next, lines[n..]);
      var all := Transcript(compile, run, prints, log, lines);
      PieceStays(compile, run, prints, next, Joined(g), |log|, |next|, all);
      PiecesPush(compile, run, prints, all, g, Session(compile, lines[n..]), |log|, rest);
      marks := [|log|] + rest;
    }
  }

  lemma {:induction false} Between(marks: seq<nat>, j: nat, n: nat) returns (c: nat)
    requires n < |marks| && marks[0] <= j < marks[n]
    ensures c < n && marks[c] <= j < marks[c + 1]
  {
    if j < marks[n - 1] {
      c := Between(marks, j, n - 1);
    } else {
      c := n - 1;
    }
  }

  /** The results of a chunk that runs, if any, are printed right behind it, and an error other than
      nil, of the chunk or of `print`, is reported right behind what raised it; nothing else is
      printed. */
  lemma Answers(compile: Compiler, run: Runner, prints: Printer, log: seq<Event>, groups: seq<Chunk>, marks: seq<nat>,
                j: nat)
    requires Pieces(compile, run, prints, log, groups, marks) && marks[0] == 0 && j < |log|
    ensures log[j].Ran? && run(log[..j + 1]).Returned? && run(log[..j + 1]).results != [] ==>
      && j + 1 < |log| && log[j + 1] == Printed(run(log[..j + 1]).results)
      && (prints(log[..j + 2]).Some? ==> j + 2 < |log| && log[j + 2].Message?)
    ensures log[j].Ran? && run(log[..j + 1]).Raised? && run(log[..j + 1]).error != Nil ==>
      j + 1 < |log| && log[j + 1].Message?
    ensures log[j].Printed? ==>
      j > 0 && log[j - 1].Ran? && log[j].results != [] && run(log[..j]) == Returned(log[j].results)
  {
    var c := Between(marks, j, |groups|);
    assert Piece(compile, run, prints, log, Joined(groups[c]), marks[c], marks[c + 1]);
  }

  /** What the interactive loop runs of an input, and in which order, does not depend on what comes
      out of it: the minimal chunks that compile. */
  lemma {:induction false} TranscriptRuns(compile: Compiler, run: Runner, prints: Printer, log: seq<Event>,
                                          lines: seq<string>)
    ensures Runs(Transcript(compile, run, prints, log, lines)) == Runs(log) + Texts(compile, lines)
    decreases |lines|
  {
    var n := Complete(compile, lines, 1);
    if n > 0 {
      var text := Joined(lines[..n]);
      HandledRuns(compile, run, prints, log, text);
      TranscriptRuns(compile, run, prints, Handled(compile, run, prints, log, text), lines[n..]);
      Regroup(Runs(log), Compiling(compile, text), Texts(compile, lines[n..]));
    }
  }

  lemma JoinedNext(lines: seq<string>, n: nat)
    requires 1 <= n < |lines|
    ensures Joined(lines[..n + 1]) == Joined(lines[..n]) + "\n" + LineText(lines[n], false)
  {
    assert lines[..n + 1][..n] == lines[..n];
  }

  /** `strstr` for the mark: its first place, or -1. */
  method Strstr(msg: string) returns (at: int)
    ensures at == -1 ==> forall k | 0 <= k <= |msg| - |EOF_MARK| :: !MarkAt(msg, k)
    ensures at != -1 ==> at >= 0 && MarkAt(msg, at) && forall k | 0 <= k < at :: !MarkAt(msg, k)
  {
    at := 0;
    while at + |EOF_MARK| <= |msg|
      invariant at >= 0 && forall k | 0 <= k < at :: !MarkAt(msg, k)
    {
      if msg[at..at + |EOF_MARK|] == EOF_MARK {
        return;
      }
      at := at + 1;
    }
    at := -1;
  }

  class Reader {
    const compile: Compiler
    var stack: seq<Value>
    var input: seq<string>

    constructor (compile: Compiler, input: seq<string>)
      ensures this.compile == compile && this.input == input && stack == []
    {
      this.compile, this.input, stack := compile, input, [];
    }

    /** Reads one line and pushes it; false at the end of the input. */
    method PushLine(firstline: bool) returns (ok: bool)
      modifies this
      ensures ok == (old(input) != [])
      ensures ok ==> input == old(input)[1..] && stack == old(stack) + [Str(LineText(old(input)[0], firstline))]
      ensures !ok ==> input == old(input) && stack == old(stack)
    {
      if |input| == 0 {
        return false;
      }
      var b := input[0];
      input := input[1..];
      var l := |b|;
      if l > 0 && b[l - 1] == '\n' {
        b := b[..l - 1];
      }
      if firstline && b != "" && b[0] == '=' {
        stack := stack + [Str("return " + b[1..])];
      } else {
        stack := stack + [Str(b)];
      }
      ok := true;
    }

    /** Whether the message on the stack says that the text ended too early; then it is popped. */
    method Incomplete(status: int) returns (more: bool)
      requires stack != []
      requires status == LUA_ERRSYNTAX ==> stack[|stack| - 1].Str?
      modifies `stack
      ensures more == (status == LUA_ERRSYNTAX && AsksForMore(old(stack)[|old(stack)| - 1].s))
      ensures stack == if more then old(stack)[..|old(stack)| - 1] else old(stack)
    {
      if status == LUA_ERRSYNTAX {
        var msg := stack[|stack| - 1].s;
        var tp := |msg| - |EOF_MARK|;
        var at := Strstr(msg);
        if at >= 0 && at == tp {
          stack := stack[..|stack| - 1];
          return true;
        }
      }
      return false;
    }

    /** Compiles the text at the bottom of the stack and pushes what comes out. */
    method LoadBuffer() returns (status: int)
      requires stack != [] && stack[0].Str?
      modifies `stack
      ensures status == compile(old(stack)[0].s).Status()
      ensures stack == old(stack) + [Result(compile, old(stack)[0].s)]
    {
      var text := stack[0].s;
      stack := stack + [Result(compile, text)];
      status := compile(text).Status();
    }

    /** Puts a newline between the two lines on the stack and joins the three. */
    method JoinLines()
      requires |stack| == 2 && stack[0].Str? && stack[1].Str?
      modifies `stack
      ensures stack == [Str(old(stack)[0].s + "\n" + old(stack)[1].s)]
    {
      stack := stack + [Str("\n")];
      stack := stack[..|stack| - 2] + [stack[|stack| - 1]] + [stack[|stack| - 2]];
      stack := [Str(stack[0].s + stack[1].s + stack[2].s)];
    }

    /** Reads the next chunk. */
    method LoadLine() returns (status: int)
      modifies this
      ensures
        var n := Complete(compile, old(input), 1);
        if n == 0 then status == -1 && input == []
        else
          && status == compile(Joined(old(input)[..n])).Status()
          && stack == [Result(compile, Joined(old(input)[..n]))]
          && input == old(input)[n..]
    {
      stack := [];
      var ok := PushLine(true);
      if !ok {
        return -1;
      }
      ghost var lines, n := old(input), 1;
      assert lines[..1] == [lines[0]];
      while true
        invariant 1 <= n <= |lines| && input == lines[n..]
        invariant stack == [Str(Joined(lines[..n]))]
        invariant Complete(compile, lines, 1) == Complete(compile, lines, n)
        decreases |input|
      {
        status := LoadBuffer();
        var more := Incomplete(status);
        assert more == Partial(compile, lines, n);
        if !more {
          break;
        }
        assert stack == [Str(Joined(lines[..n]))];
        ok := PushLine(false);
        if !ok {
          return -1;
        }
        JoinedNext(lines, n);
        JoinLines();
        assert stack == [Str(Joined(lines[..n + 1]))];
        n := n + 1;
      }
      stack := stack[1..];
    }

    /** Calls the function on the stack. */
    method DoCall(run: Runner, log: seq<Event>) returns (status: int, log': seq<Event>)
      requires |stack| == 1 && stack[0].Function?
      modifies `stack
      ensures log' == log + [Ran(old(stack)[0].text)]
      ensures match run(log')
              case Returned(results) => status == 0 && stack == results
              case Raised(error) => status == LUA_ERRRUN && stack == [error]
    {
      log' := log + [Ran(stack[0].text)];
      match run(log') {
        case Returned(results) => status, stack := 0, results;
        case Raised(error) => status, stack := LUA_ERRRUN, [error];
      }
    }

    /** Reports the error on the stack, unless it is nil, and pops it. */
    method Report(status: int, log: seq<Event>) returns (log': seq<Event>)
      requires status != 0 ==> stack != []
      modifies `stack
      ensures
        if status != 0 && old(stack)[|old(stack)| - 1] != Nil then
          log' == log + [Message(TextOf(old(stack)[|old(stack)| - 1]))] && stack == old(stack)[..|old(stack)| - 1]
        else
          log' == log && stack == old(stack)
    {
      log' := log;
      if status != 0 && stack[|stack| - 1] != Nil {
        log' := log' + [Message(TextOf(stack[|stack| - 1]))];
        stack := stack[..|stack| - 1];
      }
    }

    /** Calls `print` on all that is on the stack. */
    method PrintResults(prints: Printer, log: seq<Event>) returns (log': seq<Event>)
      modifies `stack
      ensures log' == PrintedLog(prints, log, old(stack))
    {
      log' := log + [Printed(stack)];
      match prints(log') {
        case None => stack := [];
        case Some(error) =>
          stack := [error, Str(PrintText(error))];
          log' := log' + [Message(PrintText(error))];
      }
    }

    /** What is done with a chunk that was read, whether or not it compiled. */
    method Handle(status: int, run: Runner, prints: Printer, log: seq<Event>, ghost text: string)
      returns (log': seq<Event>)
      requires status == compile(text).Status() && stack == [Result(compile, text)]
      modifies `stack
      ensures log' == Handled(compile, run, prints, log, text)
    {
      var now := status;
      log' := log;
      if now == 0 {
        now, log' := DoCall(run, log');
      }
      log' := Report(now, log');
      if now == 0 && |stack| > 0 {
        log' := PrintResults(prints, log');
      }
    }

    /** The interactive loop. What a chunk leaves on the stack is cleared before the next is read. The
        log falls into pieces, one for each chunk in order, that say all that happens with it. */
    method Dotty(run: Runner, prints: Printer) returns (log: seq<Event>, ghost marks: seq<nat>)
      modifies this
      ensures log == Transcript(compile, run, prints, [], old(input))
      ensures Runs(log) == Texts(compile, old(input))
      ensures
        var groups := Session(compile, old(input));
        && |marks| == |groups| + 1 && marks[0] == 0 && marks[|groups|] == |log|
        && Pieces(compile, run, prints, log, groups, marks)
      ensures stack == [] && input == []
    {
      log := [];
      ghost var rest := input;
      TranscriptRuns(compile, run, prints, log, input);
      marks := TranscriptPieces(compile, run, prints, log, input);
      var status := LoadLine();
      while status != -1
        invariant status == -1 ==> input == [] && Complete(compile, rest, 1) == 0
        invariant status != -1 ==>
          var n := Complete(compile, rest, 1);
          && n > 0
          && stack == [Result(compile, Joined(rest[..n]))]
          && status == compile(Joined(rest[..n])).Status()
          && input == rest[n..]
        invariant Transcript(compile, run, prints, log, rest) == Transcript(compile, run, prints, [], old(input))
        decreases |rest|
      {
        log := Handle(status, run, prints, log, Joined(rest[..Complete(compile, rest, 1)]));
        rest := input;
        status := LoadLine();
      }
      stack := [];
    }
  }
}
