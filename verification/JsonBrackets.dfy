/**
 * Where the span scanner of `src/bb/terminal-command.ts` ends in any text at all, JSON or not, and which span of a
 * command's output is therefore taken for its payload.
 */
module JsonBrackets {
  import opened Prelude
  import opened JsonSpan

  // ----- bracketed text

  /** A character that is neither quote nor bracket, a quoted string, or a bracketed group. */
  datatype Part =
    | Plain(c: char)
    | Quoted(body: string)
    | Group(opening: char, inside: Parts)

  datatype Parts = End | Then(first: Part, rest: Parts)

  function CloserOf(opening: char): char { if opening == '{' then '}' else ']' }

  function Written(p: Part): string {
    match p
    case Plain(c) => [c]
    case Quoted(body) => "\"" + body + "\""
    case Group(opening, inside) => [opening] + AllWritten(inside) + [CloserOf(opening)]
  }

  function AllWritten(parts: Parts): string {
    match parts
    case End => ""
    case Then(first, rest) => Written(first) + AllWritten(rest)
  }

  predicate Balanced(parts: Parts) {
    match parts
    case End => true
    case Then(first, rest) =>
      && Balanced(rest)
      && match first
         case Plain(c) => c != '"' && c != '{' && c != '}' && c != '[' && c != ']'
         case Quoted(body) => IsBody(body)
         case Group(opening, inside) => (opening == '{' || opening == '[') && Balanced(inside)
  }

  /** The text begins with a bracket, and its first `n` characters are that bracket's whole group. */
  ghost predicate GroupOf(text: string, n: nat) {
    n <= |text| && exists opening, inside ::
      (opening == '{' || opening == '[') && Balanced(inside) && text[..n] == Written(Group(opening, inside))
  }

  // ----- a group ends the scan

  lemma {:induction false} PartsFeed(closers: string, parts: Parts)
    requires closers != "" && Balanced(parts)
    ensures Feed(Owing(closers), AllWritten(parts)) == Some(Owing(closers))
    decreases parts
  {
    hide Feed, IsBody;
    match parts
    case End => InertFeed(closers, "");
    case Then(first, rest) =>
      match first {
        case Plain(c) => InertFeed(closers, [c]);
        case Quoted(body) => QuotedFeed(closers, body);
        case Group(opening, inside) =>
          PartsFeed(closers + [CloserOf(opening)], inside);
          BracketedFeed(closers, opening, CloserOf(opening), AllWritten(inside));
      }
      PartsFeed(closers, rest);
      FeedOfConcatenation(Owing(closers), Written(first), AllWritten(rest));
  }

  lemma {:induction false} GroupEndsScan(opening: char, inside: Parts, following: string)
    requires (opening == '{' || opening == '[') && Balanced(inside)
    ensures var group := Written(Group(opening, inside)); Span(START, group + following) == Some(|group|)
  {
    hide Feed, Span, Balanced;
    var closer, middle := CloserOf(opening), AllWritten(inside);
    PartsFeed([closer], inside);
    assert "" + [closer] == [closer];
    OpeningStep("", opening, closer);
    OneCharacterFeed(START, opening);
    FeedOfConcatenation(START, [opening], middle);
    SpanAfterFeed(START, [opening] + middle, [closer] + following);
    ClosedSpan(Owing([closer]), closer, following);
    assert [opening] + middle + [closer] + following == [opening] + middle + ([closer] + following);
  }

  // ----- and only a group does

  lemma {:induction false} StringEnds(closers: string, text: string) returns (k: nat)
    requires Span(Scanner(closers, true, false), text).Some?
    ensures k < |text| && IsBody(text[..k]) && text[k] == '"' && Span(Owing(closers), text[k + 1..]).Some?
    ensures Span(Scanner(closers, true, false), text).value == k + 1 + Span(Owing(closers), text[k + 1..]).value
    decreases |text|
  {
    if text[0] == '"' {
      k := 0;
    } else if text[0] == '\\' {
      assert text[1..] != "" && text[1..][1..] == text[2..];
      var later := StringEnds(closers, text[2..]);
      k := later + 2;
      assert text[..k][2..] == text[2..][..later] && text[2..][later + 1..] == text[k + 1..];
    } else {
      var later := StringEnds(closers, text[1..]);
      k := later + 1;
      assert text[..k][1..] == text[1..][..later] && text[1..][later + 1..] == text[k + 1..];
    }
  }

  /**
   * Up to the innermost closer still owed, what the scanner has read is balanced; then the scan goes on for the others.
   */
  ghost predicate ReadsTo(closers: string, closer: char, text: string, parts: Parts, m: nat) {
    var before, after := Owing(closers + [closer]), Owing(closers);
    && m <= |text| && Balanced(parts) && text[..m] == AllWritten(parts) + [closer]
    && if closers == "" then Span(before, text) == Some(m)
       else Span(after, text[m..]).Some? && Span(before, text) == Some(m + Span(after, text[m..]).value)
  }

  lemma {:induction false} GroupIsRead(closers: string, closer: char, text: string) returns (parts: Parts, m: nat)
    requires (closer == '}' || closer == ']') && Span(Owing(closers + [closer]), text).Some?
    ensures ReadsTo(closers, closer, text, parts, m)
    decreases |text|
  {
    hide Span, Step, Balanced, AllWritten, Written, ReadsTo;
    SpanUnfolds(Owing(closers + [closer]), text);
    if text[0] == closer {
      parts, m := End, 1;
      CloserIsRead(closers, closer, text);
    } else {
      var part, k := PartIsRead(closers, closer, text);
      var later, n := GroupIsRead(closers, closer, text[k..]);
      parts, m := Then(part, later), k + n;
      PartComesFirst(closers, closer, text, part, k, later, n);
    }
  }

  lemma CloserIsRead(closers: string, closer: char, text: string)
    requires closer == '}' || closer == ']'
    requires Span(Owing(closers + [closer]), text).Some? && text != "" && text[0] == closer
    ensures ReadsTo(closers, closer, text, End, 1)
  {
    SpanUnfolds(Owing(closers + [closer]), text);
    CloserRead(closers, closer, closer);
    hide Span, Step;
    assert text[..1] == "" + [closer];
  }

  /** The part that comes before anything else, and `k` characters long. */
  ghost predicate First(closers: string, closer: char, text: string, part: Part, k: nat) {
    var owing := Owing(closers + [closer]);
    && 0 < k <= |text| && Balanced(Then(part, End)) && text[..k] == Written(part)
    && Span(owing, text).Some? && Span(owing, text[k..]).Some?
    && Span(owing, text).value == k + Span(owing, text[k..]).value
  }

  lemma {:induction false} PartIsRead(closers: string, closer: char, text: string) returns (part: Part, k: nat)
    requires (closer == '}' || closer == ']') && Span(Owing(closers + [closer]), text).Some?
    requires text != "" && text[0] != closer
    ensures First(closers, closer, text, part, k)
    decreases |text|, 0
  {
    hide IsBody, Span, Step;
    var c, rest := text[0], text[1..];
    SpanUnfolds(Owing(closers + [closer]), text);
    CloserRead(closers, closer, c);
    assert Balanced(End);
    if c == '"' {
      var i := StringEnds(closers + [closer], rest);
      part, k := Quoted(rest[..i]), i + 2;
      assert rest[i + 1..] == text[k..] && text[..k] == "\"" + rest[..i] + "\"";
    } else if c == '{' || c == '[' {
      var inside, i := GroupIsRead(closers + [closer], CloserOf(c), rest);
      part, k := Group(c, inside), 1 + i;
      assert rest[i..] == text[k..] && text[..k] == [c] + rest[..i];
    } else {
      part, k := Plain(c), 1;
      assert text[..1] == [c];
    }
  }

  lemma PartComesFirst(closers: string, closer: char, text: string, part: Part, k: nat, later: Parts, n: nat)
    requires First(closers, closer, text, part, k) && ReadsTo(closers, closer, text[k..], later, n)
    ensures ReadsTo(closers, closer, text, Then(part, later), k + n)
  {
    hide Span, IsBody;
    assert text[k..][n..] == text[k + n..] && text[..k + n] == text[..k] + text[k..][..n];
  }

  lemma SpanUnfolds(s: Scanner, text: string)
    requires Span(s, text).Some?
    ensures text != "" && Step(s, text[0]) != Mismatched
    ensures match Step(s, text[0])
            case Closed => Span(s, text) == Some(1)
            case Going(s') => Span(s', text[1..]).Some? && Span(s, text).value == 1 + Span(s', text[1..]).value
            case Mismatched => true
  {
  }

  /** One step outside any string, with at least one closer owed. */
  lemma CloserRead(closers: string, closer: char, c: char)
    requires closer == '}' || closer == ']'
    ensures Step(Owing(closers + [closer]), c)
            == if c == '"' then Going(Scanner(closers + [closer], true, false))
               else if c == '{' || c == '[' then Going(Owing(closers + [closer] + [CloserOf(c)]))
               else if c == closer then if closers == "" then Closed else Going(Owing(closers))
               else if c == '}' || c == ']' then Mismatched
               else Going(Owing(closers + [closer]))
  {
    var owed := closers + [closer];
    assert owed[..|owed| - 1] == closers;
  }

  /**
   * Behind an opening bracket the scanner ends after `n` characters exactly when they are that bracket's whole group.
   */
  lemma {:induction false} EndIsExact(text: string, n: nat)
    requires text != "" && (text[0] == '{' || text[0] == '[')
    ensures Span(START, text) == Some(n) <==> GroupOf(text, n)
  {
    hide Span, Balanced, IsBody;
    var opening := text[0];
    OpeningStep("", opening, CloserOf(opening));
    assert "" + [CloserOf(opening)] == [CloserOf(opening)];
    if Span(START, text) == Some(n) {
      SpanUnfolds(START, text);
      var inside, m := GroupIsRead("", CloserOf(opening), text[1..]);
      assert n == 1 + m && text[..n] == [opening] + text[1..][..m];
      assert text[..n] == Written(Group(opening, inside));
    }
    if GroupOf(text, n) {
      var other, inside :| (other == '{' || other == '[') && Balanced(inside)
                           && text[..n] == Written(Group(other, inside));
      GroupEndsScan(other, inside, text[n..]);
      assert text == text[..n] + text[n..];
    }
  }

  // ----- the payload

  /** A balanced group stands at `start` and ends before `end`. */
  ghost predicate GroupAt(cleaned: string, start: nat, end: nat) {
    start <= end <= |cleaned| && GroupOf(cleaned[start..], end - start)
  }

  /** The group at `start` is JSON. */
  ghost predicate PayloadAt<V>(cleaned: string, start: nat, parse: string -> Option<V>, value: V) {
    exists end: nat :: GroupAt(cleaned, start, end) && parse(cleaned[start..end]) == Some(value)
  }

  lemma GroupsBegin(text: string, n: nat)
    requires GroupOf(text, n)
    ensures text != "" && (text[0] == '{' || text[0] == '[') && n > 0
  {
    var opening, inside :| (opening == '{' || opening == '[') && Balanced(inside)
                           && text[..n] == Written(Group(opening, inside));
    assert text[..n][0] == opening;
  }

  lemma {:induction false} PayloadStep<V>(cleaned: string, start: nat, parse: string -> Option<V>)
    requires start < |cleaned|
    ensures ParseFrom(cleaned, start, parse).Some? && !(exists value :: PayloadAt(cleaned, start, parse, value)) ==>
              ParseFrom(cleaned, start, parse) == ParseFrom(cleaned, start + 1, parse)
    ensures ParseFrom(cleaned, start, parse).None? ==>
              ParseFrom(cleaned, start + 1, parse).None? && forall value :: !PayloadAt(cleaned, start, parse, value)
    ensures forall value :: PayloadAt(cleaned, start, parse, value) ==> ParseFrom(cleaned, start, parse) == Some(value)
  {
    hide Span, GroupOf;
    var text := cleaned[start..];
    forall n: nat | GroupOf(text, n)
      ensures (text[0] == '{' || text[0] == '[') && Span(START, text) == Some(n) && n > 0
    {
      GroupsBegin(text, n);
      EndIsExact(text, n);
    }
    if text[0] == '{' || text[0] == '[' {
      SpanInBounds(START, text);
      if Span(START, text).Some? {
        var n := Span(START, text).value;
        EndIsExact(text, n);
        assert GroupAt(cleaned, start, start + n);
        if parse(cleaned[start..start + n]).Some? {
          assert PayloadAt(cleaned, start, parse, parse(cleaned[start..start + n]).value);
        }
      }
    }
  }

  /** The payload is the first balanced group that parses, and nothing is found exactly when no group parses. */
  lemma {:induction false} PayloadIsFirst<V>(cleaned: string, start: nat, parse: string -> Option<V>, value: V)
    requires start <= |cleaned|
    ensures ParseFrom(cleaned, start, parse) == Some(value)
       <==> exists k: nat ::
              start <= k < |cleaned| && PayloadAt(cleaned, k, parse, value)
              && forall i: nat, other :: start <= i < k ==> !PayloadAt(cleaned, i, parse, other)
    decreases |cleaned| - start
  {
    hide ParseFrom, PayloadAt;
    if start < |cleaned| {
      PayloadStep(cleaned, start, parse);
      PayloadIsFirst(cleaned, start + 1, parse, value);
    } else {
      NothingLeft(cleaned, parse);
    }
  }

  lemma NothingLeft<V>(cleaned: string, parse: string -> Option<V>)
    ensures ParseFrom(cleaned, |cleaned|, parse) == None
  {
  }
}
