/**
 * The JSON-span scanner of `src/bb/terminal-command.ts`, against the grammar of JSON texts
 * (sections 2 to 7 of RFC 8259).
 */
module JsonSpan {
  import opened Prelude

  // ----- the scanner

  /** The closers still owed, innermost last, and where in a string the scan stands. */
  datatype Scanner = Scanner(closers: string, inString: bool, escaped: bool)

  datatype Outcome = Going(scanner: Scanner) | Closed | Mismatched

  const START := Scanner("", false, false)

  function Step(s: Scanner, c: char): Outcome {
    if s.inString then
      if s.escaped then Going(s.(escaped := false))
      else if c == '\\' then Going(s.(escaped := true))
      else if c == '"' then Going(s.(inString := false))
      else Going(s)
    else if c == '"' then Going(s.(inString := true))
    else if c == '{' then Going(s.(closers := s.closers + "}"))
    else if c == '[' then Going(s.(closers := s.closers + "]"))
    else if c == '}' || c == ']' then
      if s.closers == "" || s.closers[|s.closers| - 1] != c then Mismatched
      else if |s.closers| == 1 then Closed
      else Going(s.(closers := s.closers[..|s.closers| - 1]))
    else Going(s)
  }

  /** How many characters of `text` it takes to close the last closer. */
  function Span(s: Scanner, text: string): Option<nat>
    decreases |text|
  {
    if text == "" then None
    else match Step(s, text[0])
      case Mismatched => None
      case Closed => Some(1)
      case Going(s') =>
        match Span(s', text[1..])
        case None => None
        case Some(n) => Some(n + 1)
  }

  /** Where the value that begins at `start` ends. */
  function JsonValueEnd(text: string, start: nat): Option<nat>
    requires start <= |text|
  {
    match Span(START, text[start..])
    case None => None
    case Some(n) => Some(start + n)
  }

  /** `jsonValueEnd` as its loop performs it. */
  method FindValueEnd(text: string, start: nat) returns (end: Option<nat>)
    requires start <= |text|
    ensures end == JsonValueEnd(text, start)
  {
    var expectedClosers := "";
    var inString, escaped := false, false;
    var index := start;
    while index < |text|
      invariant start <= index <= |text|
      invariant JsonValueEnd(text, start)
                == match Span(Scanner(expectedClosers, inString, escaped), text[index..])
                   case None => None
                   case Some(n) => Some(index + n)
    {
      assert text[index..][1..] == text[index + 1..];
      var character := text[index];
      if inString {
        if escaped {
          escaped := false;
        } else if character == '\\' {
          escaped := true;
        } else if character == '"' {
          inString := false;
        }
      } else if character == '"' {
        inString := true;
      } else if character == '{' {
        expectedClosers := expectedClosers + "}";
      } else if character == '[' {
        expectedClosers := expectedClosers + "]";
      } else if character == '}' || character == ']' {
        if expectedClosers == "" || expectedClosers[|expectedClosers| - 1] != character {
          return None;
        }
        expectedClosers := expectedClosers[..|expectedClosers| - 1];
        if expectedClosers == "" {
          return Some(index + 1);
        }
      }
      index := index + 1;
    }
    return None;
  }

  /** The state after all of `text`, while nothing has closed or mismatched. */
  function Feed(s: Scanner, text: string): Option<Scanner>
    decreases |text|
  {
    if text == "" then Some(s)
    else match Step(s, text[0])
      case Going(s') => Feed(s', text[1..])
      case _ => None
  }

  lemma {:induction false} FeedOfConcatenation(s: Scanner, a: string, b: string)
    ensures Feed(s, a + b) == if Feed(s, a).Some? then Feed(Feed(s, a).value, b) else None
    decreases |a|
  {
    hide Step;
    if a == "" {
      assert a + b == b;
    } else {
      assert (a + b)[1..] == a[1..] + b;
      match Step(s, a[0])
      case Going(s') => FeedOfConcatenation(s', a[1..], b);
      case _ =>
    }
  }

  lemma {:induction false} SpanAfterFeed(s: Scanner, a: string, b: string)
    requires Feed(s, a).Some?
    ensures Span(s, a + b) == match Span(Feed(s, a).value, b) case None => None case Some(n) => Some(n + |a|)
    decreases |a|
  {
    hide Step;
    if a == "" {
      assert a + b == b;
    } else {
      assert (a + b)[1..] == a[1..] + b;
      SpanAfterFeed(Step(s, a[0]).scanner, a[1..], b);
    }
  }

  lemma {:induction false} FedHasNoSpan(s: Scanner, text: string)
    requires Feed(s, text).Some?
    ensures Span(s, text) == None
    decreases |text|
  {
    hide Step;
    if text != "" {
      FedHasNoSpan(Step(s, text[0]).scanner, text[1..]);
    }
  }

  // ----- JSON texts

  /** A JSON value as written, with its insignificant whitespace. */
  datatype Json =
    | Literal(text: string)
    | Text(body: string)
    | Array(items: Items)
    | Object(items: Items)

  /** What stands between the brackets: nothing but space, or items separated by commas. */
  datatype Items =
    | NoItems(space: string)
    | Last(item: Item)
    | More(item: Item, rest: Items)

  datatype Item = Item(before: string, key: Option<Key>, value: Json, after: string)

  /** A member name with its quotes and colon: `"body" : `. */
  datatype Key = Key(body: string, before: string, after: string)

  function Print(v: Json): string {
    match v
    case Literal(text) => text
    case Text(body) => "\"" + body + "\""
    case Array(items) => "[" + PrintItems(items) + "]"
    case Object(items) => "{" + PrintItems(items) + "}"
  }

  function PrintItems(items: Items): string {
    match items
    case NoItems(space) => space
    case Last(item) => PrintItem(item)
    case More(item, rest) => PrintItem(item) + "," + PrintItems(rest)
  }

  function PrintItem(item: Item): string {
    item.before + PrintKey(item.key) + Print(item.value) + item.after
  }

  function PrintKey(key: Option<Key>): string {
    if key.None? then "" else "\"" + key.value.body + "\"" + key.value.before + ":" + key.value.after
  }

  predicate Digit(c: char) { '0' <= c <= '9' }

  predicate Space(s: string) {
    forall i :: 0 <= i < |s| ==> s[i] in " \t\n\r"
  }

  /** false, null, true, or a number. */
  predicate IsLiteral(s: string) {
    s == "false" || s == "null" || s == "true" || IsNumber(s)
  }

  predicate IsNumber(s: string) {
    if s != "" && s[0] == '-' then IsUnsigned(s[1..]) else IsUnsigned(s)
  }

  /** Digits, with a fraction and an exponent among them. */
  predicate IsUnsigned(s: string) {
    s != "" && Digit(s[0]) && forall i :: 0 <= i < |s| ==> Digit(s[i]) || s[i] in ".eE+-"
  }

  /** Unescaped characters, and reverse solidi with what they escape. */
  predicate IsBody(s: string) {
    s == ""
    || (s[0] == '\\' && |s| >= 2 && IsBody(s[2..]))
    || (s[0] != '\\' && s[0] != '"' && IsBody(s[1..]))
  }

  predicate WellFormed(v: Json) {
    match v
    case Literal(text) => IsLiteral(text)
    case Text(body) => IsBody(body)
    case Array(items) => WellFormedItems(items, false)
    case Object(items) => WellFormedItems(items, true)
  }

  predicate WellFormedItems(items: Items, keyed: bool) {
    match items
    case NoItems(space) => Space(space)
    case Last(item) => WellFormedItem(item, keyed)
    case More(item, rest) => WellFormedItem(item, keyed) && !rest.NoItems? && WellFormedItems(rest, keyed)
  }

  predicate WellFormedItem(item: Item, keyed: bool) {
    && Space(item.before) && Space(item.after) && WellFormed(item.value)
    && keyed == item.key.Some?
    && (item.key.Some? ==> IsBody(item.key.value.body) && Space(item.key.value.before) && Space(item.key.value.after))
  }

  // ----- values leave the scanner where it was

  /** No quote and no bracket. */
  predicate Inert(s: string) {
    forall i :: 0 <= i < |s| ==> s[i] !in "\"{}[]"
  }

  /** Outside any string, owing `closers`. */
  function Owing(closers: string): Scanner { Scanner(closers, false, false) }

  lemma {:induction false} InertFeed(closers: string, s: string)
    requires Inert(s)
    ensures Feed(Owing(closers), s) == Some(Owing(closers))
  {
    if s != "" {
      assert s[0] !in "\"{}[]";
      InertFeed(closers, s[1..]);
    }
  }

  lemma {:induction false} BodyFeed(closers: string, body: string)
    requires IsBody(body)
    ensures Feed(Scanner(closers, true, false), body) == Some(Scanner(closers, true, false))
  {
    if body != "" {
      var inside := Scanner(closers, true, false);
      if body[0] == '\\' {
        assert body[1..][1..] == body[2..];
        assert Feed(inside, body) == Feed(inside.(escaped := true), body[1..]);
        BodyFeed(closers, body[2..]);
      } else {
        BodyFeed(closers, body[1..]);
      }
    }
  }

  lemma QuotedFeed(closers: string, body: string)
    requires IsBody(body)
    ensures Feed(Owing(closers), "\"" + body + "\"") == Some(Owing(closers))
  {
    var inside := Scanner(closers, true, false);
    assert ("\"" + body + "\"")[1..] == body + "\"";
    BodyFeed(closers, body);
    FeedOfConcatenation(inside, body, "\"");
    assert "\""[1..] == "";
  }

  lemma SpaceIsInert(s: string)
    requires Space(s)
    ensures Inert(s)
  {
    forall i | 0 <= i < |s| ensures s[i] !in "\"{}[]" {
      assert s[i] in " \t\n\r";
    }
  }

  lemma LiteralIsInert(s: string)
    requires IsLiteral(s)
    ensures Inert(s)
  {
    if IsNumber(s) {
      if s[0] == '-' {
        UnsignedIsInert(s[1..]);
        forall i | 0 <= i < |s| ensures s[i] !in "\"{}[]" {
          assert i > 0 ==> s[i] == s[1..][i - 1];
        }
      } else {
        UnsignedIsInert(s);
      }
    }
  }

  lemma UnsignedIsInert(s: string)
    requires IsUnsigned(s)
    ensures Inert(s)
  {
  }

  lemma KeyFeed(closers: string, key: Option<Key>)
    requires key.Some? ==> IsBody(key.value.body) && Space(key.value.before) && Space(key.value.after)
    ensures Feed(Owing(closers), PrintKey(key)) == Some(Owing(closers))
  {
    hide Feed, IsBody, Space;
    if key.None? {
      InertFeed(closers, "");
    } else {
      var k := key.value;
      QuotedFeed(closers, k.body);
      SpaceIsInert(k.before);
      SpaceIsInert(k.after);
      InertFeed(closers, k.before + ":" + k.after);
      FeedOfConcatenation(Owing(closers), "\"" + k.body + "\"", k.before + ":" + k.after);
      assert PrintKey(key) == "\"" + k.body + "\"" + (k.before + ":" + k.after);
    }
  }

  /** Inside an enclosing array or object, a whole value leaves the scanner as it found it. */
  lemma {:induction false} ValueFeed(closers: string, v: Json)
    requires closers != "" && WellFormed(v)
    ensures Feed(Owing(closers), Print(v)) == Some(Owing(closers))
    decreases v
  {
    hide Feed, IsBody, IsLiteral;
    match v
    case Literal(text) =>
      LiteralIsInert(text);
      InertFeed(closers, text);
    case Text(body) => QuotedFeed(closers, body);
    case Array(items) =>
      ItemsFeed(closers + "]", items, false);
      BracketedFeed(closers, '[', ']', PrintItems(items));
    case Object(items) =>
      ItemsFeed(closers + "}", items, true);
      BracketedFeed(closers, '{', '}', PrintItems(items));
  }

  lemma BracketedFeed(closers: string, opening: char, closing: char, inside: string)
    requires closers != "" && ((opening == '[' && closing == ']') || (opening == '{' && closing == '}'))
    requires Feed(Owing(closers + [closing]), inside) == Some(Owing(closers + [closing]))
    ensures Feed(Owing(closers), [opening] + inside + [closing]) == Some(Owing(closers))
  {
    hide Step;
    var whole := [opening] + inside + [closing];
    var inner := Owing(closers + [closing]);
    OpeningStep(closers, opening, closing);
    ClosingStep(closers, closing);
    FeedOfConcatenation(Owing(closers), [opening] + inside, [closing]);
    FeedOfConcatenation(Owing(closers), [opening], inside);
    OneCharacterFeed(Owing(closers), opening);
    OneCharacterFeed(inner, closing);
  }

  lemma OneCharacterFeed(s: Scanner, c: char)
    requires Step(s, c).Going?
    ensures Feed(s, [c]) == Some(Step(s, c).scanner)
  {
    hide Step;
    assert [c][1..] == "";
  }

  lemma OpeningStep(closers: string, opening: char, closing: char)
    requires (opening == '[' && closing == ']') || (opening == '{' && closing == '}')
    ensures Step(Owing(closers), opening) == Going(Owing(closers + [closing]))
  {
  }

  lemma ClosingStep(closers: string, closing: char)
    requires closers != "" && (closing == ']' || closing == '}')
    ensures Step(Owing(closers + [closing]), closing) == Going(Owing(closers))
  {
    assert (closers + [closing])[..|closers|] == closers;
  }

  lemma {:induction false} ItemsFeed(closers: string, items: Items, keyed: bool)
    requires closers != "" && WellFormedItems(items, keyed)
    ensures Feed(Owing(closers), PrintItems(items)) == Some(Owing(closers))
    decreases items
  {
    hide Feed;
    match items
    case NoItems(space) =>
      SpaceIsInert(space);
      InertFeed(closers, space);
    case Last(item) => ItemFeed(closers, item, keyed);
    case More(item, rest) =>
      ItemFeed(closers, item, keyed);
      ItemsFeed(closers, rest, keyed);
      InertFeed(closers, ",");
      FeedOfConcatenation(Owing(closers), PrintItem(item), ",");
      FeedOfConcatenation(Owing(closers), PrintItem(item) + ",", PrintItems(rest));
  }

  lemma {:induction false} ItemFeed(closers: string, item: Item, keyed: bool)
    requires closers != "" && WellFormedItem(item, keyed)
    ensures Feed(Owing(closers), PrintItem(item)) == Some(Owing(closers))
    decreases item
  {
    hide Feed, PrintKey, Print;
    SpaceIsInert(item.before);
    InertFeed(closers, item.before);
    KeyFeed(closers, item.key);
    ValueFeed(closers, item.value);
    SpaceIsInert(item.after);
    InertFeed(closers, item.after);
    FeedOfConcatenation(Owing(closers), item.before, PrintKey(item.key));
    FeedOfConcatenation(Owing(closers), item.before + PrintKey(item.key), Print(item.value));
    FeedOfConcatenation(Owing(closers), item.before + PrintKey(item.key) + Print(item.value), item.after);
  }

  // ----- exactness

  /** All of an array or object but its last character keeps the scanner going, and the last one closes it. */
  lemma ContainerCloses(v: Json)
    requires WellFormed(v) && (v.Array? || v.Object?)
    ensures |Print(v)| >= 2
    ensures Feed(START, Print(v)[..|Print(v)| - 1]).Some?
    ensures Step(Feed(START, Print(v)[..|Print(v)| - 1]).value, Print(v)[|Print(v)| - 1]) == Closed
  {
    var opening, closing := if v.Array? then '[' else '{', if v.Array? then ']' else '}';
    var inside := PrintItems(v.items);
    ItemsFeed([closing], v.items, v.Object?);
    var whole := [opening] + inside + [closing];
    assert Print(v) == whole;
    assert whole[..|whole| - 1] == [opening] + inside;
    assert ([opening] + inside)[1..] == inside;
    assert "" + [closing] == [closing];
    assert Feed(START, [opening] + inside) == Feed(Owing([closing]), inside);
  }

  /** The scanner is exact: behind any array or object, whatever follows, it stops precisely at the value's end. */
  lemma SpanIsExact(v: Json, following: string)
    requires WellFormed(v) && (v.Array? || v.Object?)
    ensures Span(START, Print(v) + following) == Some(|Print(v)|)
  {
    hide Print, Feed, Step, Span, WellFormed;
    ContainerCloses(v);
    var text := Print(v);
    var init, last := text[..|text| - 1], text[|text| - 1];
    assert text + following == init + ([last] + following);
    SpanAfterFeed(START, init, [last] + following);
    ClosedSpan(Feed(START, init).value, last, following);
  }

  lemma ClosedSpan(s: Scanner, c: char, following: string)
    requires Step(s, c) == Closed
    ensures Span(s, [c] + following) == Some(1)
  {
  }

  /** And on every proper prefix of the value it finds no end. */
  lemma PrefixHasNoSpan(v: Json, k: nat)
    requires WellFormed(v) && (v.Array? || v.Object?) && k < |Print(v)|
    ensures Span(START, Print(v)[..k]) == None
  {
    hide Print, Feed, Step, Span, WellFormed;
    ContainerCloses(v);
    var init := Print(v)[..|Print(v)| - 1];
    assert init == Print(v)[..k] + init[k..];
    FeedOfConcatenation(START, Print(v)[..k], init[k..]);
    FedHasNoSpan(START, Print(v)[..k]);
  }

  // ----- finding the payload

  /** The first span, from `start` on, that `parse` accepts. */
  function ParseFrom<V>(cleaned: string, start: nat, parse: string -> Option<V>): Option<V>
    requires start <= |cleaned|
    decreases |cleaned| - start
  {
    if start == |cleaned| then None
    else if cleaned[start] != '{' && cleaned[start] != '[' then ParseFrom(cleaned, start + 1, parse)
    else match JsonValueEnd(cleaned, start)
      case None => ParseFrom(cleaned, start + 1, parse)
      case Some(end) =>
        SpanInBounds(START, cleaned[start..]);
        var value := parse(cleaned[start..end]);
        if value.Some? then value else ParseFrom(cleaned, start + 1, parse)
  }

  lemma {:induction false} SpanInBounds(s: Scanner, text: string)
    ensures Span(s, text).Some? ==> 1 <= Span(s, text).value <= |text|
    decreases |text|
  {
    hide Step;
    if text != "" && Step(s, text[0]).Going? {
      SpanInBounds(Step(s, text[0]).scanner, text[1..]);
    }
  }

  /** `parseCommandJson` over cleaned output; `parse` stands for `JSON.parse`, None being its exception. */
  method ParseCommandJson<V>(cleaned: string, parse: string -> Option<V>) returns (value: Option<V>)
    ensures value == ParseFrom(cleaned, 0, parse)
  {
    var start := 0;
    while start < |cleaned|
      invariant 0 <= start <= |cleaned|
      invariant ParseFrom(cleaned, 0, parse) == ParseFrom(cleaned, start, parse)
    {
      if cleaned[start] == '{' || cleaned[start] == '[' {
        var end := FindValueEnd(cleaned, start);
        if end.Some? {
          SpanInBounds(START, cleaned[start..]);
          value := parse(cleaned[start..end.value]);
          if value.Some? {
            return;
          }
        }
      }
      start := start + 1;
    }
    return None;
  }

  predicate BracketFree(s: string) {
    forall i :: 0 <= i < |s| ==> s[i] != '{' && s[i] != '['
  }

  /** Behind noise without opening brackets, and whatever comes after it, the payload is found and parsed whole. */
  lemma {:induction false} PayloadIsRecovered<V>(noise: string, v: Json, following: string, parse: string -> Option<V>,
                                                 start: nat)
    requires BracketFree(noise) && WellFormed(v) && (v.Array? || v.Object?) && start <= |noise|
    requires parse(Print(v)).Some?
    ensures ParseFrom(noise + Print(v) + following, start, parse) == parse(Print(v))
    decreases |noise| - start
  {
    hide Span, WellFormed;
    var cleaned := noise + Print(v) + following;
    if start < |noise| {
      assert cleaned[start] == noise[start];
      PayloadIsRecovered(noise, v, following, parse, start + 1);
    } else {
      assert cleaned[start..] == Print(v) + following;
      SpanIsExact(v, following);
      assert cleaned[start..start + |Print(v)|] == Print(v);
    }
  }
}
