/**
 * Shell quoting (`src/bb/terminal-command.ts`) against the token rules of the POSIX shell: quoting
 * and token recognition as in sections 2.2 and 2.3 of the Shell Command Language, IEEE Std 1003.1-2017.
 */
module Shell {
  import opened Prelude

  // ----- the lexer

  /** `Stuck` is what follows anything but literal text: expansions, operators, globs, comments, line breaks and NUL. */
  datatype Mode =
    | Blank
    | Word(text: string)
    | Escaping(text: string)
    | Single(text: string)
    | Double(text: string)
    | DoubleEscaping(text: string)
    | Stuck

  datatype Lexer = Lexer(words: seq<string>, mode: Mode)

  const START := Lexer([], Blank)

  /** Characters that stand for themselves outside quotes. */
  predicate Ordinary(c: char) {
    'a' <= c <= 'z' || 'A' <= c <= 'Z' || '0' <= c <= '9' || c in "-_=/.,:@%+"
  }

  function InWord(words: seq<string>, text: string, c: char): Lexer {
    if c == '\'' then Lexer(words, Single(text))
    else if c == '"' then Lexer(words, Double(text))
    else if c == '\\' then Lexer(words, Escaping(text))
    else if c == ' ' || c == '\t' then Lexer(words + [text], Blank)
    else if Ordinary(c) then Lexer(words, Word(text + [c]))
    else Lexer(words, Stuck)
  }

  function Step(l: Lexer, c: char): Lexer {
    if c == '\0' then l.(mode := Stuck)
    else
      match l.mode
      case Blank => if c == ' ' || c == '\t' then l else InWord(l.words, "", c)
      case Word(text) => InWord(l.words, text, c)
      case Escaping(text) => if c == '\n' then l.(mode := Word(text)) else l.(mode := Word(text + [c]))
      case Single(text) => if c == '\'' then l.(mode := Word(text)) else l.(mode := Single(text + [c]))
      case Double(text) =>
        if c == '"' then l.(mode := Word(text))
        else if c == '\\' then l.(mode := DoubleEscaping(text))
        else if c == '$' || c == '`' then l.(mode := Stuck)
        else l.(mode := Double(text + [c]))
      case DoubleEscaping(text) =>
        if c == '\n' then l.(mode := Double(text))
        else if c in "$`\"\\" then l.(mode := Double(text + [c]))
        else l.(mode := Double(text + ['\\', c]))
      case Stuck => l
  }

  function Run(l: Lexer, s: string): Lexer
    decreases |s|
  {
    if s == "" then l else Run(Step(l, s[0]), s[1..])
  }

  /** The words of a simple command of literal text, quotes removed; None when the text is anything else. */
  function Words(s: string): Option<seq<string>> {
    var l := Run(START, s);
    match l.mode
    case Blank => Some(l.words)
    case Word(text) => Some(l.words + [text])
    case _ => None
  }

  lemma {:induction false} RunOfConcatenation(l: Lexer, a: string, b: string)
    ensures Run(l, a + b) == Run(Run(l, a), b)
    decreases |a|
  {
    hide Step;
    if a == "" {
      assert a + b == b;
    } else {
      assert (a + b)[1..] == a[1..] + b;
      RunOfConcatenation(Step(l, a[0]), a[1..], b);
    }
  }

  lemma {:induction false} StuckForever(l: Lexer, s: string)
    requires l.mode.Stuck?
    ensures Run(l, s).mode.Stuck?
  {
    if s != "" {
      StuckForever(Step(l, s[0]), s[1..]);
    }
  }

  // ----- quoting

  /** `value.replaceAll("'", ...)` */
  function EscapeQuotes(s: string): string {
    if s == "" then "" else (if s[0] == '\'' then "'\"'\"'" else [s[0]]) + EscapeQuotes(s[1..])
  }

  function SingleQuote(value: string): string {
    "'" + EscapeQuotes(value) + "'"
  }

  predicate NulFree(s: string) {
    '\0' !in s
  }

  lemma QuoteWithinQuotes(words: seq<string>, text: string)
    ensures Run(Lexer(words, Single(text)), "'\"'\"'") == Lexer(words, Single(text + "'"))
  {
    hide Run;
    FiveSteps(Lexer(words, Single(text)), "'\"'\"'");
  }

  lemma FiveSteps(l: Lexer, s: string)
    requires |s| == 5
    ensures Run(l, s) == Step(Step(Step(Step(Step(l, s[0]), s[1]), s[2]), s[3]), s[4])
  {
    hide Step;
    assert s[1..][1..] == s[2..] && s[2..][1..] == s[3..] && s[3..][1..] == s[4..] && s[4..][1..] == "";
    assert Run(l, s) == Run(Step(l, s[0]), s[1..]);
    assert Run(Step(l, s[0]), s[1..]) == Run(Step(Step(l, s[0]), s[1]), s[2..]);
    var l2 := Step(Step(l, s[0]), s[1]);
    assert Run(l2, s[2..]) == Run(Step(l2, s[2]), s[3..]);
    var l3 := Step(l2, s[2]);
    assert Run(l3, s[3..]) == Run(Step(l3, s[3]), s[4..]);
    var l4 := Step(l3, s[3]);
    assert Run(l4, s[4..]) == Run(Step(l4, s[4]), "");
  }

  lemma {:induction false} EscapedRun(words: seq<string>, text: string, value: string)
    requires NulFree(value)
    ensures Run(Lexer(words, Single(text)), EscapeQuotes(value)) == Lexer(words, Single(text + value))
    decreases |value|
  {
    if value == "" {
      assert text + value == text;
    } else {
      var l := Lexer(words, Single(text));
      var first := if value[0] == '\'' then "'\"'\"'" else [value[0]];
      RunOfConcatenation(l, first, EscapeQuotes(value[1..]));
      assert Run(l, first) == Lexer(words, Single(text + [value[0]])) by {
        if value[0] == '\'' {
          QuoteWithinQuotes(words, text);
        } else {
          assert first[1..] == "";
          assert Run(l, first) == Run(Step(l, first[0]), "");
        }
      }
      EscapedRun(words, text + [value[0]], value[1..]);
      assert text + [value[0]] + value[1..] == text + value;
    }
  }

  /** A quoted value is literal text of the word it stands in. */
  lemma QuotedRun(words: seq<string>, text: string, value: string)
    requires NulFree(value)
    ensures Run(Lexer(words, Word(text)), SingleQuote(value)) == Lexer(words, Word(text + value))
    ensures Run(Lexer(words, Blank), SingleQuote(value)) == Lexer(words, Word(value))
  {
    hide Step;
    QuotedFrom(Lexer(words, Word(text)), words, text, value) by { OpensQuote(words, text); }
    QuotedFrom(Lexer(words, Blank), words, "", value) by { OpensQuote(words, ""); }
    assert "" + value == value;
  }

  lemma OpensQuote(words: seq<string>, text: string)
    ensures Step(Lexer(words, Word(text)), '\'') == Lexer(words, Single(text))
    ensures Step(Lexer(words, Blank), '\'') == Lexer(words, Single(""))
    ensures Step(Lexer(words, Single(text)), '\'') == Lexer(words, Word(text))
  {
  }

  lemma QuotedFrom(l: Lexer, words: seq<string>, text: string, value: string)
    requires NulFree(value) && Step(l, '\'') == Lexer(words, Single(text))
    ensures Run(l, SingleQuote(value)) == Lexer(words, Word(text + value))
  {
    hide Step, EscapeQuotes;
    var inner := EscapeQuotes(value);
    assert SingleQuote(value)[1..] == inner + "'";
    RunOfConcatenation(Lexer(words, Single(text)), inner, "'");
    EscapedRun(words, text, value);
    OpensQuote(words, text + value);
    assert "'"[1..] == "";
    assert Run(Lexer(words, Single(text + value)), "'") == Run(Step(Lexer(words, Single(text + value)), '\''), "");
  }

  /** Quoting is exact: the shell reads back one word, the value itself, exactly when the value has no NUL. */
  lemma QuoteRoundTrip(value: string)
    ensures Words(SingleQuote(value)) == Some([value]) <==> NulFree(value)
  {
    hide Run, Step;
    if NulFree(value) {
      QuotedRun([], "", value);
      assert [] + [value] == [value];
    } else {
      QuoteKeepsNul(value);
      NulIsFatal(START, SingleQuote(value));
    }
  }

  lemma {:induction false} QuoteKeepsNul(value: string)
    requires !NulFree(value)
    ensures !NulFree(SingleQuote(value)) && !NulFree(EscapeQuotes(value))
  {
    if value[0] != '\0' {
      QuoteKeepsNul(value[1..]);
    }
  }

  lemma {:induction false} NulIsFatal(l: Lexer, s: string)
    requires !NulFree(s)
    ensures Run(l, s).mode.Stuck?
    decreases |s|
  {
    if s[0] == '\0' {
      StuckForever(Step(l, s[0]), s[1..]);
    } else {
      NulIsFatal(Step(l, s[0]), s[1..]);
    }
  }

  /** Quoting nests: a value quoted twice is read back through two shells. */
  lemma QuoteNests(value: string)
    requires NulFree(value)
    ensures Words(SingleQuote(SingleQuote(value))) == Some([SingleQuote(value)])
    ensures Words(SingleQuote(value)) == Some([value])
  {
    QuoteKeepsNulFree(value);
    QuoteRoundTrip(SingleQuote(value));
    QuoteRoundTrip(value);
  }

  lemma {:induction false} QuoteKeepsNulFree(value: string)
    requires NulFree(value)
    ensures NulFree(EscapeQuotes(value)) && NulFree(SingleQuote(value))
  {
    if value != "" {
      QuoteKeepsNulFree(value[1..]);
    }
  }

  // ----- commands

  /** A word that needs no quotes. */
  predicate Bare(s: string) {
    s != "" && forall i :: 0 <= i < |s| ==> Ordinary(s[i])
  }

  lemma {:induction false} BareRun(words: seq<string>, text: string, s: string)
    requires forall i :: 0 <= i < |s| ==> Ordinary(s[i])
    ensures Run(Lexer(words, Word(text)), s) == Lexer(words, Word(text + s))
    decreases |s|
  {
    hide Ordinary;
    if s == "" {
      assert text + s == text;
    } else {
      OrdinaryStep(words, text, s[0]);
      BareRun(words, text + [s[0]], s[1..]);
      assert text + [s[0]] + s[1..] == text + s;
    }
  }

  lemma OrdinaryStep(words: seq<string>, text: string, c: char)
    requires Ordinary(c)
    ensures Step(Lexer(words, Word(text)), c) == Lexer(words, Word(text + [c]))
    ensures Step(Lexer(words, Blank), c) == Lexer(words, Word([c]))
  {
    OrdinaryIsPlain(c);
    hide Ordinary;
    assert "" + [c] == [c];
  }

  lemma OrdinaryIsPlain(c: char)
    requires Ordinary(c)
    ensures c != '\0' && c != '\'' && c != '"' && c != '\\' && c != ' ' && c != '\t'
  {
  }

  lemma BareFromBlank(words: seq<string>, s: string)
    requires Bare(s)
    ensures Run(Lexer(words, Blank), s) == Lexer(words, Word(s))
  {
    hide Ordinary, Step;
    OrdinaryStep(words, "", s[0]);
    BareRun(words, [s[0]], s[1..]);
    assert [s[0]] + s[1..] == s;
  }

  /** `printed` is one way to write the argument on a command line. */
  predicate Renders(printed: string, arg: string) {
    (printed == arg && Bare(arg)) || printed == SingleQuote(arg)
  }

  predicate RendersAll(printed: seq<string>, args: seq<string>) {
    |printed| == |args| && forall i :: 0 <= i < |args| ==> Renders(printed[i], args[i])
  }

  predicate AllNulFree(args: seq<string>) {
    forall i :: 0 <= i < |args| ==> NulFree(args[i])
  }

  function Join(words: seq<string>): string {
    if words == [] then "" else if |words| == 1 then words[0] else words[0] + " " + Join(words[1..])
  }

  lemma RenderedRun(words: seq<string>, printed: string, arg: string)
    requires Renders(printed, arg) && NulFree(arg)
    ensures Run(Lexer(words, Blank), printed) == Lexer(words, Word(arg))
  {
    hide Run, Step;
    if printed == SingleQuote(arg) && NulFree(arg) {
      QuotedRun(words, "", arg);
    } else {
      BareFromBlank(words, arg);
    }
  }

  lemma {:induction false} JoinedRun(words: seq<string>, printed: seq<string>, args: seq<string>)
    requires args != [] && RendersAll(printed, args) && AllNulFree(args)
    ensures Run(Lexer(words, Blank), Join(printed)) == Lexer(words + args[..|args| - 1], Word(args[|args| - 1]))
    decreases |args|
  {
    hide Run, Step, Renders;
    var l := Lexer(words, Blank);
    RenderedRun(words, printed[0], args[0]);
    if |args| == 1 {
      assert words + args[..0] == words;
    } else {
      var rest := Join(printed[1..]);
      assert Join(printed) == printed[0] + (" " + rest);
      RunOfConcatenation(l, printed[0], " " + rest);
      RunOfConcatenation(Lexer(words, Word(args[0])), " ", rest);
      SpaceEndsWord(words, args[0]);
      JoinedRun(words + [args[0]], printed[1..], args[1..]);
      assert words + [args[0]] + args[1..][..|args| - 2] == words + args[..|args| - 1];
    }
  }

  lemma SpaceEndsWord(words: seq<string>, text: string)
    ensures Run(Lexer(words, Word(text)), " ") == Lexer(words + [text], Blank)
  {
    assert " "[1..] == "";
    assert Run(Lexer(words, Word(text)), " ") == Run(Step(Lexer(words, Word(text)), ' '), "");
  }

  /**
   * A command line printed argument by argument is read back as those arguments, exactly when none of them has a NUL.
   */
  lemma CommandRoundTrip(printed: seq<string>, args: seq<string>)
    requires args != [] && RendersAll(printed, args)
    ensures Words(Join(printed)) == Some(args) <==> AllNulFree(args)
  {
    hide Run, Step, Renders, NulFree;
    if AllNulFree(args) {
      JoinedRun([], printed, args);
      assert [] + args[..|args| - 1] + [args[|args| - 1]] == args;
    } else {
      JoinKeepsNul(printed, args);
      NulIsFatal(START, Join(printed));
    }
  }

  lemma {:induction false} JoinKeepsNul(printed: seq<string>, args: seq<string>)
    requires RendersAll(printed, args) && !AllNulFree(args)
    ensures !NulFree(Join(printed))
    decreases |args|
  {
    hide Bare;
    if !NulFree(args[0]) {
      QuoteKeepsNul(args[0]);
    } else {
      assert !AllNulFree(args[1..]) by {
        var i :| 0 <= i < |args| && !NulFree(args[i]);
        assert args[1..][i - 1] == args[i];
      }
      JoinKeepsNul(printed[1..], args[1..]);
    }
  }

  lemma RendersConcat(p: seq<string>, a: seq<string>, q: seq<string>, b: seq<string>)
    requires RendersAll(p, a) && RendersAll(q, b)
    ensures RendersAll(p + q, a + b)
  {
    hide Renders;
  }

  // ----- the command envelope

  const COMMAND_VARIABLE := "__bb_telegram_agent_command"

  /** The assignment of the envelope; a command with a NUL is refused before anything is built. */
  function EnvelopeAssignment(command: string): Option<string> {
    if !NulFree(command) then None else Some(COMMAND_VARIABLE + "=" + SingleQuote(command))
  }

  /** The assignment is one word, so the variable holds the command exactly, and the inner shell reads its words. */
  lemma EnvelopeCarriesCommand(command: string)
    requires NulFree(command)
    ensures Words(EnvelopeAssignment(command).value) == Some([COMMAND_VARIABLE + "=" + command])
  {
    hide Run, Step;
    var name := COMMAND_VARIABLE + "=";
    assert Bare(name) by { VariableIsBare(); }
    BareFromBlank([], name);
    RunOfConcatenation(START, name, SingleQuote(command));
    QuotedRun([], name, command);
    assert [] + [name + command] == [name + command];
  }

  lemma VariableIsBare()
    ensures Bare(COMMAND_VARIABLE + "=")
  {
    assert forall i :: 0 <= i < |COMMAND_VARIABLE| ==> Ordinary(COMMAND_VARIABLE[i]);
  }
}
