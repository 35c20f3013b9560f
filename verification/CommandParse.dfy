/** Splitting a command line into arguments the way a shell quotes them (pkg/mcpserver/command_parse.go). */
module CommandParse {
  import opened Wrappers
  import opened Text

  datatype Mode = Bare | SingleQuote | DoubleQuote

  datatype State = State(args: seq<string>, current: string, mode: Mode, escaped: bool, tokenStarted: bool)

  datatype ParseError = TrailingEscape | UnterminatedQuote | Empty

  const START := AtRest([])

  /** Between arguments. */
  function AtRest(args: seq<string>): State {
    State(args, "", Bare, false, false)
  }

  function Flush(s: State): State {
    if s.tokenStarted then s.(args := s.args + [s.current], current := "", tokenStarted := false) else s
  }

  function Write(s: State, c: char): State {
    s.(current := s.current + [c], tokenStarted := true)
  }

  function Step(s: State, c: char): State {
    match s.mode
    case SingleQuote => if c == '\'' then s.(tokenStarted := true, mode := Bare) else Write(s, c)
    case DoubleQuote =>
      if s.escaped then Write(s, c).(escaped := false)
      else if c == '\\' then s.(tokenStarted := true, escaped := true)
      else if c == '"' then s.(tokenStarted := true, mode := Bare)
      else Write(s, c)
    case Bare =>
      if s.escaped then Write(s, c).(escaped := false)
      else if IsSpace(c) then Flush(s)
      else if c == '\'' then s.(tokenStarted := true, mode := SingleQuote)
      else if c == '"' then s.(tokenStarted := true, mode := DoubleQuote)
      else if c == '\\' then s.(tokenStarted := true, escaped := true)
      else Write(s, c)
  }

  function Run(s: State, text: string): State {
    if text == "" then s else Step(Run(s, text[..|text| - 1]), text[|text| - 1])
  }

  function Finish(s: State): Result<seq<string>, ParseError> {
    if s.escaped then Failure(TrailingEscape)
    else if s.mode != Bare then Failure(UnterminatedQuote)
    else if Flush(s).args == [] then Failure(Empty)
    else Success(Flush(s).args)
  }

  function Parse(command: string): Result<seq<string>, ParseError> {
    Finish(Run(START, command))
  }

  method ParseCommand(command: string) returns (r: Result<seq<string>, ParseError>)
    ensures r == Parse(command)
  {
    var args: seq<string>, current: string := [], "";
    var mode, escaped, tokenStarted := Bare, false, false;
    for i := 0 to |command|
      invariant State(args, current, mode, escaped, tokenStarted) == Run(START, command[..i])
    {
      assert command[..i + 1][..i] == command[..i];
      var c := command[i];
      match mode
      case SingleQuote =>
        tokenStarted := true;
        if c == '\'' {
          mode := Bare;
        } else {
          current := current + [c];
        }
      case DoubleQuote =>
        tokenStarted := true;
        if escaped {
          current := current + [c];
          escaped := false;
        } else if c == '\\' {
          escaped := true;
        } else if c == '"' {
          mode := Bare;
        } else {
          current := current + [c];
        }
      case Bare =>
        if escaped {
          tokenStarted := true;
          current := current + [c];
          escaped := false;
        } else if IsSpace(c) {
          if tokenStarted {
            args, current, tokenStarted := args + [current], "", false;
          }
        } else {
          tokenStarted := true;
          if c == '\'' {
            mode := SingleQuote;
          } else if c == '"' {
            mode := DoubleQuote;
          } else if c == '\\' {
            escaped := true;
          } else {
            current := current + [c];
          }
        }
    }
    assert command[..|command|] == command;
    if escaped {
      return Failure(TrailingEscape);
    }
    if mode == SingleQuote || mode == DoubleQuote {
      return Failure(UnterminatedQuote);
    }
    if tokenStarted {
      args := args + [current];
    }
    if |args| == 0 {
      return Failure(Empty);
    }
    return Success(args);
  }

  // Joining commands

  lemma {:induction false} RunAppend(s: State, a: string, b: string)
    ensures Run(s, a + b) == Run(Run(s, a), b)
  {
    hide Step;
    if b == "" {
      assert a + b == a;
    } else {
      assert (a + b)[..|a + b| - 1] == a + b[..|b| - 1];
      RunAppend(s, a, b[..|b| - 1]);
    }
  }

  lemma RunCons(s: State, c: char, b: string)
    ensures Run(s, [c] + b) == Run(Step(s, c), b)
  {
    hide Step;
    RunAppend(s, [c], b);
    assert [c][..0] == "";
    assert Run(s, [c]) == Step(s, c);
  }

  /** Arguments already found do not influence the rest. */
  lemma {:induction false} EarlierArguments(before: seq<string>, s: State, text: string)
    ensures Run(s.(args := before + s.args), text) == Run(s, text).(args := before + Run(s, text).args)
  {
    if text != "" {
      EarlierArguments(before, s, text[..|text| - 1]);
      var t := Run(s, text[..|text| - 1]);
      assert before + (t.args + [t.current]) == before + t.args + [t.current];
    }
  }

  predicate IsComplete(s: State) {
    !s.escaped && s.mode == Bare
  }

  /** After a command that leaves no quote or escape open, white space starts the next one afresh. */
  lemma JoinedCommands(a: string, space: char, b: string)
    requires IsComplete(Run(START, a)) && IsSpace(space)
    ensures var joined := Run(START, a + [space] + b);
            var first := Flush(Run(START, a)).args;
            && IsComplete(joined) == IsComplete(Run(START, b))
            && Flush(joined).args == first + Flush(Run(START, b)).args
  {
    hide Run;
    var first := Flush(Run(START, a)).args;
    RunAppend(START, a + [space], b);
    RunAppend(START, a, [space]);
    RunCons(Run(START, a), space, "");
    CompleteUntilSpace(a);
    assert Run(Run(START, a), [space]) == AtRest(first) by {
      assert [space] + "" == [space];
      EmptyRun(Step(Run(START, a), space));
    }
    EarlierArguments(first, START, b);
    assert first + [] == first;
    var last := Run(START, b);
    assert first + (last.args + [last.current]) == first + last.args + [last.current];
  }

  lemma EmptyRun(s: State)
    ensures Run(s, "") == s
  {
  }

  /** Nothing is kept for an argument that has not started. */
  lemma {:induction false} CompleteUntilSpace(a: string)
    ensures !Run(START, a).tokenStarted ==> Run(START, a).current == "" && Run(START, a).mode == Bare && !Run(START, a).escaped
  {
    if a != "" {
      CompleteUntilSpace(a[..|a| - 1]);
    }
  }

  /** Two commands side by side parse to their arguments side by side. */
  lemma ParseJoined(a: string, space: char, b: string)
    requires Parse(a).Success? && Parse(b).Success? && IsSpace(space)
    ensures Parse(a + [space] + b) == Success(Parse(a).value + Parse(b).value)
  {
    hide Run;
    JoinedCommands(a, space, b);
  }

  // Printing and parsing back

  function EscapeChar(c: char): string {
    if c == '\\' || c == '"' then ['\\', c] else [c]
  }

  function Escape(s: string): string {
    if s == "" then "" else Escape(s[..|s| - 1]) + EscapeChar(s[|s| - 1])
  }

  function Quote(arg: string): string {
    "\"" + Escape(arg) + "\""
  }

  function QuoteAll(args: seq<string>): string {
    if args == [] then ""
    else if |args| == 1 then Quote(args[0])
    else QuoteAll(args[..|args| - 1]) + " " + Quote(args[|args| - 1])
  }

  lemma EscapedChar(args: seq<string>, current: string, c: char)
    ensures Run(State(args, current, DoubleQuote, false, true), EscapeChar(c)) == State(args, current + [c], DoubleQuote, false, true)
  {
    hide Run;
    var t := State(args, current, DoubleQuote, false, true);
    assert [c] + "" == [c];
    EmptyRun(State(args, current + [c], DoubleQuote, false, true));
    if c == '\\' || c == '"' {
      assert EscapeChar(c) == ['\\'] + [c];
      RunCons(t, '\\', [c]);
      RunCons(Step(t, '\\'), c, "");
    } else {
      RunCons(t, c, "");
    }
  }

  lemma {:induction false} EscapedText(args: seq<string>, arg: string)
    ensures Run(State(args, "", DoubleQuote, false, true), Escape(arg)) == State(args, arg, DoubleQuote, false, true)
  {
    hide Run, EscapeChar;
    var s := State(args, "", DoubleQuote, false, true);
    if arg == "" {
      EmptyRun(s);
    } else {
      var front, c := arg[..|arg| - 1], arg[|arg| - 1];
      EscapedText(args, front);
      RunAppend(s, Escape(front), EscapeChar(c));
      EscapedChar(args, front, c);
      assert arg == front + [c];
    }
  }

  lemma QuotedArgument(args: seq<string>, arg: string)
    ensures Run(AtRest(args), Quote(arg)) == State(args, arg, Bare, false, true)
  {
    hide Run, Escape;
    var s := AtRest(args);
    RunAppend(s, "\"" + Escape(arg), "\"");
    RunCons(s, '"', Escape(arg));
    EscapedText(args, arg);
    RunCons(State(args, arg, DoubleQuote, false, true), '"', "");
    assert "\"" + "" == "\"";
    EmptyRun(State(args, arg, Bare, false, true));
  }

  lemma {:induction false} QuotedArguments(args: seq<string>)
    requires args != []
    ensures Run(START, QuoteAll(args)) == State(args[..|args| - 1], args[|args| - 1], Bare, false, true)
  {
    hide Run, Quote;
    var front, last := args[..|args| - 1], args[|args| - 1];
    if |args| == 1 {
      QuotedArgument([], last);
    } else {
      QuotedArguments(front);
      var text := QuoteAll(front);
      RunAppend(START, text + " ", Quote(last));
      RunAppend(START, text, " ");
      RunCons(Run(START, text), ' ', "");
      assert " " + "" == " ";
      assert front == front[..|front| - 1] + [front[|front| - 1]];
      EmptyRun(AtRest(front));
      QuotedArgument(front, last);
    }
  }

  /** Any arguments, empty ones included, come back from their quoted form. */
  lemma ParseQuoted(args: seq<string>)
    ensures Parse(QuoteAll(args)) == if args == [] then Failure(Empty) else Success(args)
  {
    hide Quote;
    if args != [] {
      QuotedArguments(args);
      assert args == args[..|args| - 1] + [args[|args| - 1]];
    }
  }

  /** Inside single quotes every character stands for itself. */
  lemma {:induction false} SingleQuotedText(args: seq<string>, arg: string)
    requires '\'' !in arg
    ensures Run(State(args, "", SingleQuote, false, true), arg) == State(args, arg, SingleQuote, false, true)
  {
    if arg != "" {
      SingleQuotedText(args, arg[..|arg| - 1]);
      assert arg == arg[..|arg| - 1] + [arg[|arg| - 1]];
    }
  }

  lemma ParseSingleQuoted(arg: string)
    requires '\'' !in arg
    ensures Parse("'" + arg + "'") == Success([arg])
  {
    hide Run;
    RunAppend(START, "'" + arg, "'");
    RunCons(START, '\'', arg);
    SingleQuotedText([], arg);
    RunCons(State([], arg, SingleQuote, false, true), '\'', "");
    assert "'" + "" == "'";
    EmptyRun(State([], arg, Bare, false, true));
    assert Flush(State([], arg, Bare, false, true)).args == [arg];
  }

  // Plain text

  predicate Plain(s: string) {
    forall i :: 0 <= i < |s| ==> s[i] != '\'' && s[i] != '"' && s[i] != '\\'
  }

  /** The longest start without white space. */
  function Word(s: string): (w: string)
    ensures w <= s
    ensures forall i :: 0 <= i < |w| ==> !IsSpace(w[i])
    ensures |w| < |s| ==> IsSpace(s[|w|])
  {
    if s == "" || IsSpace(s[0]) then "" else [s[0]] + Word(s[1..])
  }

  /** The words of a text, as white space separates them. */
  function Fields(s: string): seq<string> {
    if s == "" then []
    else if IsSpace(s[0]) then Fields(s[1..])
    else [Word(s)] + Fields(s[|Word(s)|..])
  }

  lemma {:induction false} PlainWord(args: seq<string>, w: string)
    requires Plain(w) && forall i :: 0 <= i < |w| ==> !IsSpace(w[i])
    ensures Run(AtRest(args), w) == State(args, w, Bare, false, w != "")
  {
    hide IsSpace;
    if w != "" {
      PlainWord(args, w[..|w| - 1]);
      assert w == w[..|w| - 1] + [w[|w| - 1]];
    }
  }

  lemma {:induction false} PlainText(args: seq<string>, s: string)
    requires Plain(s)
    ensures IsComplete(Run(AtRest(args), s))
    ensures Flush(Run(AtRest(args), s)).args == args + Fields(s)
    decreases |s|
  {
    hide IsSpace, Run, Step;
    if s == "" {
      EmptyRun(AtRest(args));
    } else if IsSpace(s[0]) {
      assert s == [s[0]] + s[1..];
      RunCons(AtRest(args), s[0], s[1..]);
      RestSpace(args, s[0]);
      PlainText(args, s[1..]);
    } else {
      var w, rest := Word(s), s[|Word(s)|..];
      assert s == w + rest;
      RunAppend(AtRest(args), w, rest);
      PlainWord(args, w);
      if rest == "" {
        EmptyRun(State(args, w, Bare, false, true));
      } else {
        assert rest == [rest[0]] + rest[1..];
        RunCons(State(args, w, Bare, false, true), rest[0], rest[1..]);
        WordSpace(args, w, rest[0]);
        PlainText(args + [w], rest[1..]);
      }
    }
  }

  lemma RestSpace(args: seq<string>, c: char)
    requires IsSpace(c)
    ensures Step(AtRest(args), c) == AtRest(args)
  {
  }

  lemma WordSpace(args: seq<string>, w: string, c: char)
    requires IsSpace(c)
    ensures Step(State(args, w, Bare, false, true), c) == AtRest(args + [w])
  {
  }

  /** Text without quotes and backslashes parses to its words; it fails only when it has none. */
  lemma ParsePlain(s: string)
    requires Plain(s)
    ensures Parse(s) == if Fields(s) == [] then Failure(Empty) else Success(Fields(s))
  {
    hide Run, Fields;
    PlainText([], s);
    assert [] + Fields(s) == Fields(s);
  }

  /** The fallback for commands that do not parse. */
  function CommandFields(command: string): seq<string> {
    var r := Parse(command);
    if r.Failure? then Fields(Trim(command)) else r.value
  }

  lemma {:induction false} NoFieldsBlank(s: string)
    requires Fields(s) == []
    ensures Trim(s) == ""
  {
    hide IsSpace;
    if s != "" {
      NoFieldsBlank(s[1..]);
    }
  }

  /** Plain commands are split into their words, even when they do not parse. */
  lemma CommandFieldsPlain(command: string)
    requires Plain(command)
    ensures CommandFields(command) == Fields(command)
  {
    hide Parse;
    ParsePlain(command);
    if Fields(command) == [] {
      NoFieldsBlank(command);
    }
  }

  // Any way to write an argument

  /** A character between double quotes, as it is or after a backslash. */
  datatype Quoted = Quoted(c: char, escaped: bool)

  /** What an argument is written with: characters as they are or after a backslash, and quoted stretches. */
  datatype Piece = Literal(c: char) | Escaped(c: char) | Singles(text: string) | Doubles(chars: seq<Quoted>)

  predicate Writable(p: Piece) {
    match p
    case Literal(c) => !IsSpace(c) && c != '\'' && c != '"' && c != '\\'
    case Escaped(_) => true
    case Singles(text) => '\'' !in text
    case Doubles(chars) => WritableInDoubles(chars)
  }

  predicate WritableInDoubles(chars: seq<Quoted>) {
    forall i :: 0 <= i < |chars| && !chars[i].escaped ==> chars[i].c != '"' && chars[i].c != '\\'
  }

  function WrittenInDoubles(chars: seq<Quoted>): string {
    if chars == [] then ""
    else
      var q := chars[|chars| - 1];
      WrittenInDoubles(chars[..|chars| - 1]) + if q.escaped then ['\\', q.c] else [q.c]
  }

  function MeantInDoubles(chars: seq<Quoted>): string {
    seq(|chars|, (i: nat) requires i < |chars| => chars[i].c)
  }

  function WrittenPiece(p: Piece): string {
    match p
    case Literal(c) => [c]
    case Escaped(c) => ['\\', c]
    case Singles(text) => "'" + text + "'"
    case Doubles(chars) => "\"" + WrittenInDoubles(chars) + "\""
  }

  function MeantPiece(p: Piece): string {
    match p
    case Literal(c) => [c]
    case Escaped(c) => [c]
    case Singles(text) => text
    case Doubles(chars) => MeantInDoubles(chars)
  }

  function Written(ps: seq<Piece>): string {
    if ps == [] then "" else Written(ps[..|ps| - 1]) + WrittenPiece(ps[|ps| - 1])
  }

  function Meant(ps: seq<Piece>): string {
    if ps == [] then "" else Meant(ps[..|ps| - 1]) + MeantPiece(ps[|ps| - 1])
  }

  lemma RunOne(s: State, c: char)
    ensures Run(s, [c]) == Step(s, c)
  {
    assert [c][..0] == "";
  }

  lemma RunTwo(s: State, c: char, d: char)
    ensures Run(s, [c, d]) == Step(Step(s, c), d)
  {
    hide Step;
    assert [c, d][..1] == [c];
    RunOne(s, c);
  }

  lemma {:induction false} RunSingles(args: seq<string>, before: string, text: string)
    requires '\'' !in text
    ensures Run(State(args, before, SingleQuote, false, true), text) == State(args, before + text, SingleQuote, false, true)
  {
    if text == "" {
      assert before + text == before;
    } else {
      var n := |text| - 1;
      RunSingles(args, before, text[..n]);
      assert before + text == before + text[..n] + [text[n]];
    }
  }

  lemma {:induction false} RunDoubles(args: seq<string>, before: string, chars: seq<Quoted>)
    requires WritableInDoubles(chars)
    ensures Run(State(args, before, DoubleQuote, false, true), WrittenInDoubles(chars))
         == State(args, before + MeantInDoubles(chars), DoubleQuote, false, true)
  {
    hide Run;
    var s := State(args, before, DoubleQuote, false, true);
    if chars == [] {
      EmptyRun(s);
      assert before + MeantInDoubles(chars) == before;
    } else {
      var n := |chars| - 1;
      var q := chars[n];
      RunDoubles(args, before, chars[..n]);
      RunAppend(s, WrittenInDoubles(chars[..n]), if q.escaped then ['\\', q.c] else [q.c]);
      var t := State(args, before + MeantInDoubles(chars[..n]), DoubleQuote, false, true);
      RunOne(t, q.c);
      RunTwo(t, '\\', q.c);
      assert before + MeantInDoubles(chars) == before + MeantInDoubles(chars[..n]) + [q.c];
    }
  }

  lemma RunPiece(args: seq<string>, before: string, started: bool, p: Piece)
    requires Writable(p)
    ensures Run(State(args, before, Bare, false, started), WrittenPiece(p)) == State(args, before + MeantPiece(p), Bare, false, true)
  {
    hide Run, WrittenInDoubles, MeantInDoubles;
    var s := State(args, before, Bare, false, started);
    match p {
      case Literal(c) => RunOne(s, c);
      case Escaped(c) => RunTwo(s, '\\', c);
      case Singles(text) =>
        RunAppend(s, "'" + text, "'");
        RunCons(s, '\'', text);
        RunSingles(args, before, text);
        RunOne(State(args, before + text, SingleQuote, false, true), '\'');
      case Doubles(chars) =>
        var text := WrittenInDoubles(chars);
        RunAppend(s, "\"" + text, "\"");
        RunCons(s, '"', text);
        RunDoubles(args, before, chars);
        RunOne(State(args, before + MeantInDoubles(chars), DoubleQuote, false, true), '"');
    }
  }

  lemma {:induction false} RunPieces(args: seq<string>, ps: seq<Piece>)
    requires forall i :: 0 <= i < |ps| ==> Writable(ps[i])
    ensures Run(AtRest(args), Written(ps)) == State(args, Meant(ps), Bare, false, ps != [])
  {
    hide Run, Writable, WrittenPiece, MeantPiece;
    if ps == [] {
      EmptyRun(AtRest(args));
    } else {
      var n := |ps| - 1;
      RunPieces(args, ps[..n]);
      RunAppend(AtRest(args), Written(ps[..n]), WrittenPiece(ps[n]));
      RunPiece(args, Meant(ps[..n]), n > 0, ps[n]);
    }
  }

  /** However an argument is written, it parses to what it means. */
  lemma ParseWritten(ps: seq<Piece>)
    requires ps != [] && forall i :: 0 <= i < |ps| ==> Writable(ps[i])
    ensures Parse(Written(ps)) == Success([Meant(ps)])
  {
    hide Run, Writable, Written, Meant;
    RunPieces([], ps);
    assert [] + [Meant(ps)] == [Meant(ps)];
  }

  /** How an argument can be left open: in a quoted stretch, or after a backslash. */
  datatype Opening = InSingles(text: string) | InDoubles(chars: seq<Quoted>, trailing: bool) | AfterBackslash

  predicate Openable(o: Opening) {
    match o
    case InSingles(text) => '\'' !in text
    case InDoubles(chars, _) => WritableInDoubles(chars)
    case AfterBackslash => true
  }

  function WrittenOpening(o: Opening): string {
    match o
    case InSingles(text) => "'" + text
    case InDoubles(chars, trailing) => "\"" + WrittenInDoubles(chars) + if trailing then "\\" else ""
    case AfterBackslash => "\\"
  }

  /** A command that ends in an open quote or after a backslash is refused for just that, whatever comes before. */
  lemma ParseOpening(command: string, o: Opening)
    requires IsComplete(Run(START, command)) && Openable(o)
    ensures Parse(command + WrittenOpening(o)) ==
            Failure(if o.AfterBackslash? || (o.InDoubles? && o.trailing) then TrailingEscape else UnterminatedQuote)
  {
    hide Run, WrittenInDoubles, MeantInDoubles;
    var s := Run(START, command);
    RunAppend(START, command, WrittenOpening(o));
    match o {
      case InSingles(text) =>
        RunCons(s, '\'', text);
        RunSingles(s.args, s.current, text);
      case InDoubles(chars, trailing) =>
        var text := WrittenInDoubles(chars);
        RunAppend(s, "\"" + text, if trailing then "\\" else "");
        RunCons(s, '"', text);
        RunDoubles(s.args, s.current, chars);
        var t := State(s.args, s.current + MeantInDoubles(chars), DoubleQuote, false, true);
        RunOne(t, '\\');
        EmptyRun(t);
      case AfterBackslash =>
        RunOne(s, '\\');
    }
  }
}
