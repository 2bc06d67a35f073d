/**
 * Which plans are accepted, and what every other plan is refused for (`src/bb/pipeline-handoffs.ts`), said over the
 * text alone: lines, headings, rows, cells and code spans as they are written, not as they are scanned.
 */
module VerificationCauses {
  import opened Prelude
  import opened JsText
  import opened VerificationTable
  import opened VerificationRoundTrip

  // ----- words

  /** One letter in either case; the Kelvin sign passes for a k. */
  predicate SameLetter(c: char, small: char) {
    || c == small
    || ('a' <= small <= 'z' && c as int + 32 == small as int)
    || (small == 'k' && c as int == 0x212A)
  }

  predicate Spells(word: string, letters: string) {
    |word| == |letters| && forall i :: 0 <= i < |word| ==> SameLetter(word[i], letters[i])
  }

  /** Letters that no other letter folds away from. */
  predicate Small(letters: string) {
    forall c :: c in letters ==> !('A' <= c <= 'Z') && c as int != 0x212A
  }

  lemma SpellsExactly(word: string, letters: string)
    requires Small(letters)
    ensures Lower(word) == letters <==> Spells(word, letters)
  {
    if Lower(word) == letters {
      forall i | 0 <= i < |word| ensures SameLetter(word[i], letters[i]) {
        assert Lower(word)[i] == letters[i];
      }
    }
    if Spells(word, letters) {
      forall i | 0 <= i < |word| ensures Lower(word)[i] == letters[i] {
        assert SameLetter(word[i], letters[i]) && letters[i] in letters;
      }
    }
  }

  lemma TableWordsAreSmall()
    ensures Small("verification") && Small("check") && Small("command") && Small("expected") && Small("exit code 0")
  {
  }

  // ----- lines

  function WithoutReturn(piece: string): string {
    if piece != "" && piece[|piece| - 1] == '\r' then piece[..|piece| - 1] else piece
  }

  /** `raw` is cut at its line feeds, and a carriage return right before one goes with it. */
  predicate CutInto(raw: string, lines: seq<string>, pieces: seq<string>) {
    && |lines| == |pieces| > 0
    && raw == JoinLines(pieces)
    && (forall i :: 0 <= i < |pieces| ==> '\n' !in pieces[i])
    && (forall i :: 0 <= i < |lines| - 1 ==> lines[i] == WithoutReturn(pieces[i]))
    && lines[|lines| - 1] == pieces[|lines| - 1]
  }

  ghost predicate Lines(raw: string, lines: seq<string>) {
    exists pieces :: CutInto(raw, lines, pieces)
  }

  lemma {:induction false} PieceIsSplitOff(piece: string, rest: string, read: string)
    requires '\n' !in piece
    ensures SplitLines(piece + "\n" + rest, read) == [read + WithoutReturn(piece)] + SplitLines(rest, "")
    ensures SplitLines(piece, read) == [read + piece]
  {
    var whole := piece + "\n" + rest;
    if piece == "" {
      assert whole[1..] == rest && read + piece == read;
    } else {
      assert whole[1..] == piece[1..] + "\n" + rest;
      PieceIsSplitOff(piece[1..], rest, read + [piece[0]]);
      assert read + [piece[0]] + piece[1..] == read + piece;
      if piece == "\r" {
        assert whole[2..] == rest && read + "" == read;
      } else {
        assert |piece| > 1 ==> whole[1] == piece[1];
        assert read + [piece[0]] + WithoutReturn(piece[1..]) == read + WithoutReturn(piece);
      }
    }
  }

  lemma {:induction false} CutIsSplit(raw: string, lines: seq<string>, pieces: seq<string>)
    requires CutInto(raw, lines, pieces)
    ensures SplitLines(raw, "") == lines
    decreases |pieces|
  {
    hide SplitLines, WithoutReturn;
    PieceIsSplitOff(pieces[0], JoinLines(pieces[1..]), "");
    assert "" + WithoutReturn(pieces[0]) == WithoutReturn(pieces[0]) && "" + pieces[0] == pieces[0];
    if |pieces| > 1 {
      CutIsSplit(JoinLines(pieces[1..]), lines[1..], pieces[1..]);
    }
    assert lines == [lines[0]] + lines[1..];
  }

  lemma {:induction false} PiecesExist(raw: string) returns (pieces: seq<string>)
    ensures pieces != [] && raw == JoinLines(pieces) && forall i :: 0 <= i < |pieces| ==> '\n' !in pieces[i]
  {
    if raw == "" {
      pieces := [""];
    } else {
      var rest := PiecesExist(raw[1..]);
      assert raw == [raw[0]] + raw[1..];
      if raw[0] == '\n' {
        pieces := [""] + rest;
        assert pieces[1..] == rest;
        assert JoinLines(pieces) == "" + "\n" + JoinLines(rest);
      } else {
        pieces := [[raw[0]] + rest[0]] + rest[1..];
        if |rest| > 1 {
          assert pieces[1..] == rest[1..];
          assert JoinLines(pieces) == [raw[0]] + rest[0] + "\n" + JoinLines(rest[1..]);
        }
      }
    }
  }

  lemma {:induction false} LinesExactly(raw: string, lines: seq<string>)
    ensures SplitLines(raw, "") == lines <==> Lines(raw, lines)
  {
    hide SplitLines, JoinLines, WithoutReturn;
    var pieces := PiecesExist(raw);
    var n := |pieces| - 1;
    var cut := seq(n, i requires 0 <= i < n => WithoutReturn(pieces[i])) + [pieces[n]];
    assert CutInto(raw, cut, pieces);
    CutIsSplit(raw, cut, pieces);
    if other :| CutInto(raw, lines, other) {
      CutIsSplit(raw, lines, other);
    }
  }

  // ----- the section

  /** Two marks, spaces, and the word in any case. */
  ghost predicate Heading(line: string) {
    exists gap, word ::
      gap != "" && Spaces(gap) && Spells(word, "verification") && Trim(line) == "##" + gap + word
  }

  lemma {:induction false} HeadingExactly(line: string)
    ensures IsVerificationHeading(line) <==> Heading(line)
  {
    hide IsSpace, Trim, Lower, Small, TrimStart, Spells;
    TableWordsAreSmall();
    var t := Trim(line);
    if IsVerificationHeading(line) {
      var word := TrimStart(t[2..]);
      var gap := TrimStartExactly(t[2..]);
      SpellsExactly(word, "verification");
      assert t == "##" + gap + word;
      assert t[2..][0] == t[2];
    }
    if gap, word :| gap != "" && Spaces(gap) && Spells(word, "verification") && t == "##" + gap + word {
      SpellsExactly(word, "verification");
      assert t[2..] == gap + word && t[2] == gap[0];
      VerificationStartsPlain(word);
      TrimStartUnpads(gap, word);
    }
  }

  lemma VerificationStartsPlain(word: string)
    requires Spells(word, "verification")
    ensures word != "" && !IsSpace(word[0])
  {
    assert SameLetter(word[0], 'v');
  }

  /** A heading of either of the first two levels, whatever it says. */
  ghost predicate Closes(line: string) {
    exists marks, rest :: marks in {"#", "##"} && rest != "" && IsSpace(rest[0]) && Trim(line) == marks + rest
  }

  lemma ClosesExactly(line: string)
    ensures EndsSection(line) <==> Closes(line)
  {
    hide IsSpace, Trim;
    var t := Trim(line);
    if |t| > 1 && t[0] == '#' && IsSpace(t[1]) {
      assert t == "#" + t[1..] && "#" in {"#", "##"};
    } else if EndsSection(line) {
      assert t == "##" + t[2..] && "##" in {"#", "##"};
    }
    if marks, rest :| marks in {"#", "##"} && rest != "" && IsSpace(rest[0]) && t == marks + rest {
      assert rest[0] == t[|marks|];
    }
  }

  /** The lines that hold something, without the spaces around it. */
  function Kept(lines: seq<string>): seq<string> {
    if lines == [] then [] else (if Trim(lines[0]) == "" then [] else [Trim(lines[0])]) + Kept(lines[1..])
  }

  /** The first heading, what follows it, and the line that closes it, if any does. */
  ghost predicate Parts(lines: seq<string>, before: seq<string>, heading: string, body: seq<string>, after: seq<string>)
  {
    && lines == before + [heading] + body + after
    && (forall i :: 0 <= i < |before| ==> !Heading(before[i]))
    && Heading(heading)
    && (forall i :: 0 <= i < |body| ==> !Closes(body[i]))
    && (after == [] || Closes(after[0]))
  }

  ghost predicate Section(raw: string, section: seq<string>) {
    exists lines, before, heading, body, after ::
      Lines(raw, lines) && Parts(lines, before, heading, body, after) && section == Kept(body)
  }

  ghost predicate NoSection(raw: string) {
    exists lines :: Lines(raw, lines) && forall i :: 0 <= i < |lines| ==> !Heading(lines[i])
  }

  lemma {:induction false} BodyIsKept(body: seq<string>, after: seq<string>)
    requires (forall i :: 0 <= i < |body| ==> !Closes(body[i])) && (after == [] || Closes(after[0]))
    ensures SectionBody(body + after) == Kept(body)
  {
    hide Closes, EndsSection, Trim;
    if body == [] {
      assert body + after == after;
      if after != [] {
        ClosesExactly(after[0]);
      }
    } else {
      ClosesExactly(body[0]);
      assert (body + after)[1..] == body[1..] + after;
      BodyIsKept(body[1..], after);
    }
  }

  lemma {:induction false} BodyExists(lines: seq<string>) returns (body: seq<string>, after: seq<string>)
    ensures lines == body + after
    ensures (forall i :: 0 <= i < |body| ==> !Closes(body[i])) && (after == [] || Closes(after[0]))
  {
    hide Closes;
    if lines == [] || Closes(lines[0]) {
      body, after := [], lines;
    } else {
      body, after := BodyExists(lines[1..]);
      body := [lines[0]] + body;
    }
  }

  lemma {:induction false} PartsAreFound(lines: seq<string>, before: seq<string>, heading: string, body: seq<string>,
                                         after: seq<string>)
    requires Parts(lines, before, heading, body, after)
    ensures SectionOf(lines) == Some(Kept(body))
  {
    hide Heading, IsVerificationHeading, SectionBody, Closes, Kept;
    if before == [] {
      HeadingExactly(heading);
      assert lines[1..] == body + after;
      BodyIsKept(body, after);
    } else {
      HeadingExactly(before[0]);
      assert lines[1..] == before[1..] + [heading] + body + after;
      PartsAreFound(lines[1..], before[1..], heading, body, after);
    }
  }

  lemma {:induction false} PartsExist(lines: seq<string>)
    returns (before: seq<string>, heading: string, body: seq<string>, after: seq<string>)
    requires SectionOf(lines).Some?
    ensures Parts(lines, before, heading, body, after)
  {
    hide Heading, IsVerificationHeading, SectionBody, Closes;
    HeadingExactly(lines[0]);
    if IsVerificationHeading(lines[0]) {
      before, heading := [], lines[0];
      body, after := BodyExists(lines[1..]);
      assert lines == [lines[0]] + lines[1..];
    } else {
      before, heading, body, after := PartsExist(lines[1..]);
      before := [lines[0]] + before;
      assert lines == [lines[0]] + lines[1..];
    }
  }

  lemma {:induction false} NoHeadingFound(lines: seq<string>)
    ensures SectionOf(lines).None? <==> forall i :: 0 <= i < |lines| ==> !Heading(lines[i])
  {
    hide Heading, IsVerificationHeading, SectionBody;
    if lines != [] {
      HeadingExactly(lines[0]);
      NoHeadingFound(lines[1..]);
      assert forall i :: 0 < i < |lines| ==> lines[i] == lines[1..][i - 1];
    }
  }

  lemma {:induction false} SectionExactly(raw: string, section: seq<string>)
    ensures VerificationSection(raw) == Some(section) <==> Section(raw, section)
  {
    hide SplitLines, SectionOf, Lines, Parts, Kept;
    var lines := SplitLines(raw, "");
    LinesExactly(raw, lines);
    if VerificationSection(raw) == Some(section) {
      var before, heading, body, after := PartsExist(lines);
      PartsAreFound(lines, before, heading, body, after);
    }
    if other, before, heading, body, after :|
      Lines(raw, other) && Parts(other, before, heading, body, after) && section == Kept(body) {
      LinesExactly(raw, other);
      PartsAreFound(other, before, heading, body, after);
    }
  }

  lemma {:induction false} NoSectionExactly(raw: string)
    ensures VerificationSection(raw).None? <==> NoSection(raw)
  {
    hide SplitLines, SectionOf, Lines, Heading;
    var lines := SplitLines(raw, "");
    LinesExactly(raw, lines);
    NoHeadingFound(lines);
    if other :| Lines(raw, other) && forall i :: 0 <= i < |other| ==> !Heading(other[i]) {
      LinesExactly(raw, other);
    }
  }

  // ----- rows

  predicate EndsIn(s: string, c: char) {
    s != "" && s[|s| - 1] == c
  }

  /** The cells with the bars inside them escaped and plain bars between them. */
  function Barring(contents: seq<string>): string {
    if contents == [] then ""
    else if |contents| == 1 then Escape(contents[0])
    else Escape(contents[0]) + "|" + Barring(contents[1..])
  }

  /** No backslash escapes a bar between two cells. */
  predicate Apart(contents: seq<string>) {
    contents != [] && forall i :: 0 <= i < |contents| - 1 ==> !EndsIn(contents[i], '\\')
  }

  /**
   * What follows the opening bar: either a closing bar of its own, or an escaped one that closes and belongs to the
   * last cell.
   */
  predicate Closed(rest: string, contents: seq<string>) {
    && Apart(contents)
    && var last := contents[|contents| - 1];
       || (rest == Barring(contents) + "|" && !EndsIn(last, '\\'))
       || (rest == Barring(contents) && EndsIn(last, '|'))
  }

  predicate Barred(row: string) {
    var t := Trim(row);
    t != "" && t[0] == '|' && t[|t| - 1] == '|'
  }

  function TrimAll(contents: seq<string>): seq<string> {
    seq(|contents|, i requires 0 <= i < |contents| => Trim(contents[i]))
  }

  /** The row holds these cells; a single bar holds one empty cell. */
  ghost predicate Holds(row: string, cells: seq<string>) {
    || (Trim(row) == "|" && cells == [""])
    || exists rest, contents :: Trim(row) == "|" + rest && Closed(rest, contents) && cells == TrimAll(contents)
  }

  /** Escaped cells are read back, and the bars that close them are not. */
  lemma {:induction false} BarringIsRead(rest: string, contents: seq<string>)
    requires Closed(rest, contents)
    ensures Cells(rest, "") == TrimAll(contents)
    decreases |contents|
  {
    hide Trim, Cells, Escape, Closed, TrimAll;
    ClosedHasCells(rest, contents);
    var first := contents[0];
    assert "" + first == first;
    if |contents| > 1 {
      var tail := FirstIsClosed(rest, contents);
      CellsEscaped(first, "|" + tail, "");
      CellsBar(tail, first);
      BarringIsRead(tail, contents[1..]);
      TrimAllSplits(contents);
    } else {
      LastIsRead(rest, contents);
    }
  }

  lemma TrimAllSplits(contents: seq<string>)
    requires contents != []
    ensures TrimAll(contents) == [Trim(contents[0])] + TrimAll(contents[1..])
  {
    hide Trim;
  }

  lemma FirstIsClosed(rest: string, contents: seq<string>) returns (tail: string)
    requires Closed(rest, contents) && |contents| > 1
    ensures rest == Escape(contents[0]) + ("|" + tail) && tail != "" && Closed(tail, contents[1..])
    ensures !EndsIn(contents[0], '\\')
  {
    var first, inner, last := Escape(contents[0]), Barring(contents[1..]), contents[|contents| - 1];
    assert Barring(contents) == first + "|" + inner;
    hide Escape, Barring, EndsIn;
    assert last == contents[1..][|contents| - 2];
    if rest == Barring(contents) {
      tail := inner;
      assert first + "|" + inner == first + ("|" + inner);
    } else {
      tail := inner + "|";
      assert first + "|" + inner + "|" == first + ("|" + (inner + "|"));
    }
    ClosedIsNotEmpty(tail, contents[1..]);
  }

  lemma LastIsRead(rest: string, contents: seq<string>)
    requires Closed(rest, contents) && |contents| == 1
    ensures Cells(rest, "") == TrimAll(contents)
  {
    hide Trim, Cells, Escape;
    var last := contents[0];
    assert "" + last == last;
    if rest == Escape(last) + "|" && !EndsIn(last, '\\') {
      CellsEscaped(last, "|", "");
      CellsBar("", last);
      assert "|" + "" == "|";
    } else {
      LastBarIsRead(last);
    }
  }

  lemma ClosedHasCells(rest: string, contents: seq<string>)
    requires Closed(rest, contents)
    ensures contents != []
  {
  }

  lemma ClosedIsNotEmpty(rest: string, contents: seq<string>)
    requires Closed(rest, contents)
    ensures rest != ""
    decreases |contents|
  {
    if |contents| == 1 && rest == Barring(contents) {
      assert Escape(contents[0]) != "";
    }
  }

  lemma LastBarIsRead(last: string)
    requires EndsIn(last, '|')
    ensures Cells(Escape(last), "") == [Trim(last)]
  {
    hide Trim, Escape;
    var content := last[..|last| - 1];
    assert last == content + "|" && "" + content == content;
    EscapeOfConcatenation(content, "|");
    assert Escape("|") == "\\|" by { OneEscaped('|'); }
    CellsEscaped(content, "\\|", "");
    assert "\\|"[2..] == "";
  }

  /** One more character before the first cell. */
  lemma GrownIsClosed(c: char, rest: string, later: seq<string>)
    requires Closed(rest, later) && (c == '\\' ==> rest == "" || rest[0] != '|')
    ensures Closed(Escape([c]) + rest, [[c] + later[0]] + later[1..])
  {
    hide Escape;
    var contents := [[c] + later[0]] + later[1..];
    EscapeOfConcatenation([c], later[0]);
    if |later| > 1 {
      assert contents[1..] == later[1..];
    }
    assert Barring(contents) == Escape([c]) + Barring(later);
    if later[0] == "" {
      assert Escape("") == "" by { EscapeWithoutBars(""); }
      assert rest != "" && rest[0] == '|';
    }
    assert forall i :: 0 < i < |contents| ==> contents[i] == later[i];
  }

  lemma OneEscaped(c: char)
    ensures Escape([c]) == if c == '|' then "\\|" else [c]
  {
    assert [c][1..] == "";
  }

  /** Every text that ends in a bar can be read in this way. */
  lemma {:induction false} ContentsExist(rest: string) returns (contents: seq<string>)
    requires EndsIn(rest, '|')
    ensures Closed(rest, contents)
    decreases |rest|
  {
    hide Escape;
    OneEscaped('|');
    assert Escape("") == "" by { EscapeWithoutBars(""); }
    if rest == "|" {
      contents := [""];
      assert Barring(contents) + "|" == "|";
    } else if rest[0] == '\\' && rest[1] == '|' {
      assert rest == "\\|" + rest[2..];
      if |rest| == 2 {
        contents := ["|"];
      } else {
        var later := ContentsExist(rest[2..]);
        contents := [['|'] + later[0]] + later[1..];
        GrownIsClosed('|', rest[2..], later);
      }
    } else {
      var later := ContentsExist(rest[1..]);
      assert rest == [rest[0]] + rest[1..];
      if rest[0] == '|' {
        contents := [""] + later;
        assert contents[1..] == later;
        assert Barring(contents) == "|" + Barring(later);
      } else {
        contents := [[rest[0]] + later[0]] + later[1..];
        OneEscaped(rest[0]);
        GrownIsClosed(rest[0], rest[1..], later);
      }
    }
  }

  /** A row is split into exactly the cells it holds, and only a row without a bar at both ends is not split. */
  lemma {:induction false} RowExactly(row: string, cells: seq<string>)
    ensures SplitTableRow(row) == Ok(cells) <==> Holds(row, cells)
    ensures SplitTableRow(row).Err? <==> !Barred(row)
    ensures SplitTableRow(row).Err? ==> SplitTableRow(row).error == IncompleteRow
  {
    hide Trim, Closed, Cells, TrimAll;
    var t := Trim(row);
    if Barred(row) {
      var rest := t[1..];
      assert t == "|" + rest;
      if rest == "" {
        assert Cells("", "") == [""] by { NothingIsOneCell(); }
      } else {
        var contents := ContentsExist(rest);
        BarringIsRead(rest, contents);
      }
    }
    if other, contents :| t == "|" + other && Closed(other, contents) && cells == TrimAll(contents) {
      assert t[1..] == other;
      ClosedEndsInBar(other, contents);
      BarringIsRead(other, contents);
    }
    if t == "|" && cells == [""] {
      NothingIsOneCell();
      assert t[1..] == "";
    }
  }

  lemma NothingIsOneCell()
    ensures Cells("", "") == [""]
  {
    assert Trim("") == "";
  }

  lemma ClosedEndsInBar(rest: string, contents: seq<string>)
    requires Closed(rest, contents)
    ensures EndsIn(rest, '|')
  {
    if rest == Barring(contents) {
      BarringEnds(contents);
    }
  }

  lemma {:induction false} BarringEnds(contents: seq<string>)
    requires contents != [] && EndsIn(contents[|contents| - 1], '|')
    ensures EndsIn(Barring(contents), '|')
  {
    hide Escape;
    if |contents| == 1 {
      var content := contents[0][..|contents[0]| - 1];
      assert contents[0] == content + "|";
      EscapeOfConcatenation(content, "|");
      OneEscaped('|');
    } else {
      BarringEnds(contents[1..]);
    }
  }

  // ----- code spans

  /** `command`, on one line, between two fences of `k` backticks. */
  predicate Between(s: string, k: nat, command: string) {
    k > 0 && command != "" && SingleLine(command) && s == Ticks(k) + command + Ticks(k)
  }

  /** No line break of either kind. */
  lemma SingleLineExactly(s: string)
    ensures SingleLine(s) <==> forall c :: c in s ==> c as int != 10 && c as int != 13
  {
  }

  /** The span is read between the longest fences that leave anything. */
  ghost predicate Span(s: string, command: string) {
    exists k: nat :: Between(s, k, command) && forall j: nat, other :: Between(s, j, other) ==> j <= k
  }

  ghost predicate NoSpan(s: string) {
    forall k: nat, other :: !Between(s, k, other)
  }

  /** What two fences of `k` leave of `s`. */
  function InsideOf(s: string, k: nat): string {
    if 2 * k <= |s| then s[k..|s| - k] else ""
  }

  lemma FitsBetween(s: string, k: nat)
    requires Fits(s, k) && 0 < k <= LeadingTicks(s)
    ensures Between(s, k, InsideOf(s, k))
  {
    hide SingleLine;
    LeadingAreTicks(s);
    assert s == Ticks(k) + s[k..|s| - k] + Ticks(k);
  }

  lemma BetweenFits(s: string, k: nat, command: string)
    requires Between(s, k, command)
    ensures 0 < k <= LeadingTicks(s) && Fits(s, k) && command == InsideOf(s, k)
  {
    hide SingleLine;
    FenceFits(k, command);
    TicksLead(k, command + Ticks(k));
    assert s == Ticks(k) + (command + Ticks(k));
  }

  lemma {:induction false} LeadingAreTicks(s: string)
    ensures forall i :: 0 <= i < LeadingTicks(s) ==> s[i] == TICK
  {
    if s != "" && s[0] == TICK {
      LeadingAreTicks(s[1..]);
    }
  }

  /** The first fit on the way down is the longest. */
  lemma {:induction false} MatchIsLongest(s: string, k: nat)
    ensures MatchSpan(s, k).None? <==> forall j :: 0 < j <= k ==> !Fits(s, j)
    ensures MatchSpan(s, k).Some? ==>
              exists f :: 0 < f <= k && Fits(s, f) && InsideOf(s, f) == MatchSpan(s, k).value
                          && forall j :: f < j <= k ==> !Fits(s, j)
  {
    hide SingleLine, TICK;
    if k > 0 && Fits(s, k) {
      assert InsideOf(s, k) == s[k..|s| - k];
    } else if k > 0 {
      MatchIsLongest(s, k - 1);
    }
  }

  lemma {:induction false} SpanExactly(s: string, command: string)
    ensures CodeSpan(s) == Some(command) <==> Span(s, command)
    ensures CodeSpan(s).None? <==> NoSpan(s)
  {
    hide MatchSpan, LeadingTicks, Between, Fits;
    var most := LeadingTicks(s);
    MatchIsLongest(s, most);
    forall j: nat, other | Between(s, j, other) ensures 0 < j <= most && Fits(s, j) {
      BetweenFits(s, j, other);
    }
    if CodeSpan(s).Some? {
      var f :| 0 < f <= most && Fits(s, f) && InsideOf(s, f) == CodeSpan(s).value
               && forall j :: f < j <= most ==> !Fits(s, j);
      FitsBetween(s, f);
      assert Span(s, CodeSpan(s).value) by {
        forall j: nat, other | Between(s, j, other) ensures j <= f {
          BetweenFits(s, j, other);
        }
      }
      if Span(s, command) {
        var k: nat :| Between(s, k, command) && forall j: nat, other :: Between(s, j, other) ==> j <= k;
        BetweenFits(s, k, command);
      }
    }
  }

  // ----- checks

  ghost predicate Says(row: string, c: Check) {
    exists cells ::
      Holds(row, cells) && |cells| == 3 && cells[0] == c.name && Span(cells[1], c.command)
      && Spells(cells[2], "exit code 0")
  }

  /** What is wrong with a row, the first thing first. */
  ghost predicate RowFault(row: string, e: PlanError) {
    match e
    case IncompleteRow => !Barred(row)
    case WrongCellCount => exists cells :: Holds(row, cells) && |cells| != 3
    case NotInlineCode => exists cells :: Holds(row, cells) && |cells| == 3 && NoSpan(cells[1])
    case NotExitZero =>
      exists cells :: Holds(row, cells) && |cells| == 3 && !NoSpan(cells[1]) && !Spells(cells[2], "exit code 0")
    case _ => false
  }

  lemma {:induction false} CheckByCause(row: string, c: Check, e: PlanError)
    ensures ParseCheck(row) == Ok(c) <==> Says(row, c)
    ensures ParseCheck(row) == Err(e) <==> RowFault(row, e)
  {
    hide SplitTableRow, Holds, CodeSpan, Span, NoSpan, Lower, Spells, Barred;
    forall cells ensures SplitTableRow(row) == Ok(cells) <==> Holds(row, cells) {
      RowExactly(row, cells);
    }
    RowExactly(row, []);
    if SplitTableRow(row).Ok? && |SplitTableRow(row).value| == 3 {
      var cells := SplitTableRow(row).value;
      SpanExactly(cells[1], c.command);
      TableWordsAreSmall();
      SpellsExactly(cells[2], "exit code 0");
    }
  }

  /** Every row says its check. */
  ghost predicate Lists(rows: seq<string>, checks: seq<Check>) {
    |rows| == |checks| && forall i :: 0 <= i < |rows| ==> Says(rows[i], checks[i])
  }

  ghost predicate SaysSome(row: string) {
    exists c :: Says(row, c)
  }

  /** The first row that says no check is at fault. */
  ghost predicate RowsFault(rows: seq<string>, e: PlanError) {
    exists k :: 0 <= k < |rows| && RowFault(rows[k], e) && forall i :: 0 <= i < k ==> SaysSome(rows[i])
  }

  lemma RowIsOneOrOther(row: string)
    ensures ParseCheck(row).Ok? <==> SaysSome(row)
    ensures ParseCheck(row).Ok? ==> Says(row, ParseCheck(row).value)
    ensures ParseCheck(row).Err? ==> RowFault(row, ParseCheck(row).error)
    ensures forall c :: Says(row, c) ==> ParseCheck(row) == Ok(c)
    ensures forall e :: RowFault(row, e) ==> ParseCheck(row) == Err(e)
  {
    hide ParseCheck, Says, RowFault;
    forall c ensures ParseCheck(row) == Ok(c) <==> Says(row, c) {
      CheckByCause(row, c, IncompleteRow);
    }
    forall e ensures ParseCheck(row) == Err(e) <==> RowFault(row, e) {
      CheckByCause(row, Check("", ""), e);
    }
  }

  lemma {:induction false} ChecksByCause(rows: seq<string>, checks: seq<Check>, e: PlanError)
    ensures ParseChecks(rows) == Ok(checks) <==> Lists(rows, checks)
    ensures ParseChecks(rows) == Err(e) <==> RowsFault(rows, e)
  {
    hide ParseCheck, Says, Lists, RowFault, RowsFault, SaysSome;
    if rows == [] {
      NothingListed(checks, e);
    } else {
      RowIsOneOrOther(rows[0]);
      var rest := if checks == [] then [] else checks[1..];
      ChecksByCause(rows[1..], rest, e);
      ListsSplits(rows, checks);
      FaultSplits(rows, e);
      assert checks != [] ==> checks == [checks[0]] + rest;
    }
  }

  lemma NothingListed(checks: seq<Check>, e: PlanError)
    ensures Lists([], checks) <==> checks == []
    ensures !RowsFault([], e)
  {
  }

  lemma ListsSplits(rows: seq<string>, checks: seq<Check>)
    requires rows != []
    ensures Lists(rows, checks) <==> checks != [] && Says(rows[0], checks[0]) && Lists(rows[1..], checks[1..])
  {
    hide Says;
    if checks != [] && Says(rows[0], checks[0]) && Lists(rows[1..], checks[1..]) {
      assert forall i :: 0 < i < |rows| ==> rows[i] == rows[1..][i - 1] && checks[i] == checks[1..][i - 1];
    }
  }

  lemma FaultSplits(rows: seq<string>, e: PlanError)
    requires rows != []
    ensures RowsFault(rows, e) <==> RowFault(rows[0], e) || (SaysSome(rows[0]) && RowsFault(rows[1..], e))
  {
    hide RowFault, SaysSome;
    var rest := rows[1..];
    if SaysSome(rows[0]) && RowsFault(rest, e) {
      var k :| 0 <= k < |rest| && RowFault(rest[k], e) && forall i :: 0 <= i < k ==> SaysSome(rest[i]);
      assert RowFault(rows[k + 1], e) && forall i :: 0 < i < k + 1 ==> rows[i] == rest[i - 1];
    }
    if k :| 0 < k < |rows| && RowFault(rows[k], e) && forall i :: 0 <= i < k ==> SaysSome(rows[i]) {
      assert rest[k - 1] == rows[k] && forall i :: 0 <= i < k - 1 ==> rest[i] == rows[i + 1];
    }
  }

  // ----- the table

  ghost predicate TitleRow(row: string) {
    exists cells ::
      Holds(row, cells) && |cells| == 3
      && Spells(cells[0], "check") && Spells(cells[1], "command") && Spells(cells[2], "expected")
  }

  predicate Ruled(cell: string, left: string, dashes: string, right: string) {
    && (left == "" || left == ":") && (right == "" || right == ":")
    && |dashes| >= 3 && (forall c :: c in dashes ==> c == '-')
    && cell == left + dashes + right
  }

  /** Three dashes or more, with a colon or none on either side. */
  ghost predicate Rule(cell: string) {
    exists left, dashes, right :: Ruled(cell, left, dashes, right)
  }

  ghost predicate RuleRow(row: string) {
    exists cells :: Holds(row, cells) && |cells| == 3 && Rule(cells[0]) && Rule(cells[1]) && Rule(cells[2])
  }

  ghost predicate Table(section: seq<string>, checks: seq<Check>) {
    |section| >= 3 && TitleRow(section[0]) && RuleRow(section[1]) && Lists(section[2..], checks)
  }

  ghost predicate TableFault(section: seq<string>, e: PlanError) {
    if |section| < 3 then e == TableTooShort
    else if !Barred(section[0]) then e == IncompleteRow
    else if !TitleRow(section[0]) then e == HeaderInvalid
    else if !Barred(section[1]) then e == IncompleteRow
    else if !RuleRow(section[1]) then e == DividerInvalid
    else RowsFault(section[2..], e)
  }

  lemma RuleExactly(cell: string)
    ensures DividerCell(cell) <==> Rule(cell)
  {
    if DividerCell(cell) {
      var from := if cell[0] == ':' then 1 else 0;
      var to := if cell[|cell| - 1] == ':' then |cell| - 1 else |cell|;
      assert Ruled(cell, cell[..from], cell[from..to], cell[to..]);
    }
    if left, dashes, right :| Ruled(cell, left, dashes, right) {
      forall i | |left| <= i < |left| + |dashes| ensures cell[i] == '-' {
        assert cell[i] == dashes[i - |left|] && dashes[i - |left|] in dashes;
      }
    }
  }

  lemma {:induction false} TitleExactly(row: string)
    ensures (SplitTableRow(row).Ok? && HeaderAccepted(SplitTableRow(row).value)) <==> TitleRow(row)
  {
    hide SplitTableRow, Holds, Spells, Lower, Small;
    forall cells ensures SplitTableRow(row) == Ok(cells) <==> Holds(row, cells) {
      RowExactly(row, cells);
    }
    TableWordsAreSmall();
    if SplitTableRow(row).Ok? && |SplitTableRow(row).value| == 3 {
      var cells := SplitTableRow(row).value;
      SpellsExactly(cells[0], "check");
      SpellsExactly(cells[1], "command");
      SpellsExactly(cells[2], "expected");
    }
  }

  lemma {:induction false} RuleRowExactly(row: string)
    ensures (SplitTableRow(row).Ok? && DividerAccepted(SplitTableRow(row).value)) <==> RuleRow(row)
  {
    hide SplitTableRow, Holds, Rule, DividerCell;
    forall cells ensures SplitTableRow(row) == Ok(cells) <==> Holds(row, cells) {
      RowExactly(row, cells);
    }
    if SplitTableRow(row).Ok? && |SplitTableRow(row).value| == 3 {
      var cells := SplitTableRow(row).value;
      RuleExactly(cells[0]);
      RuleExactly(cells[1]);
      RuleExactly(cells[2]);
    }
  }

  lemma {:induction false} TableByCause(section: seq<string>, checks: seq<Check>, e: PlanError)
    ensures ParseTable(section) == Ok(checks) <==> Table(section, checks)
    ensures ParseTable(section) == Err(e) <==> TableFault(section, e)
  {
    hide SplitTableRow, HeaderAccepted, DividerAccepted, ParseChecks, TitleRow, RuleRow, Lists, RowsFault, Barred;
    if |section| >= 3 {
      RowExactly(section[0], []);
      RowExactly(section[1], []);
      TitleExactly(section[0]);
      RuleRowExactly(section[1]);
      ChecksByCause(section[2..], checks, e);
    }
  }

  // ----- the plan

  /** What the section under the heading has to be: the policy's table, or the line that stands for an empty policy. */
  ghost predicate Carries(section: seq<string>, policy: seq<Check>) {
    if policy == [] then section == [EMPTY_DISPOSITION] else Table(section, policy)
  }

  ghost predicate SectionFault(section: seq<string>, policy: seq<Check>, e: PlanError) {
    if policy == [] then section != [EMPTY_DISPOSITION] && e == NotExplicitlySkipped
    else
      || TableFault(section, e)
      || (e == NotThePolicyCommands && exists checks :: Table(section, checks) && checks != policy)
  }

  lemma {:induction false} SectionByCause(section: seq<string>, policy: seq<Check>, e: PlanError)
    ensures ParseSection(section, policy).Ok? <==> Carries(section, policy)
    ensures ParseSection(section, policy).Ok?
        ==> ParseSection(section, policy).value == (if policy == [] then Skipped else Commands(policy))
    ensures ParseSection(section, policy) == Err(e) <==> SectionFault(section, policy, e)
  {
    hide ParseTable, Table, TableFault, EMPTY_DISPOSITION;
    TableByCause(section, policy, e);
    forall checks ensures ParseTable(section) == Ok(checks) <==> Table(section, checks) {
      TableByCause(section, checks, e);
    }
  }

  /**
   * A plan is accepted exactly when its first Verification section carries the policy, whoever wrote it and however.
   */
  lemma {:induction false} AcceptedExactly(raw: string, policy: seq<Check>)
    ensures ParseVerificationPlan(raw, policy).Ok?
       <==> exists section :: Section(raw, section) && Carries(section, policy)
    ensures ParseVerificationPlan(raw, policy).Ok?
        ==> ParseVerificationPlan(raw, policy).value == (if policy == [] then Skipped else Commands(policy))
  {
    hide VerificationSection, ParseSection, Section, Carries;
    forall section ensures VerificationSection(raw) == Some(section) <==> Section(raw, section) {
      SectionExactly(raw, section);
    }
    if VerificationSection(raw).Some? {
      SectionByCause(VerificationSection(raw).value, policy, SectionMissing);
    }
  }

  /** Every other plan is refused, for the first thing that is wrong with it. */
  lemma {:induction false} RefusedByCause(raw: string, policy: seq<Check>, e: PlanError)
    ensures ParseVerificationPlan(raw, policy) == Err(e)
       <==> (NoSection(raw) && e == SectionMissing)
            || (exists section :: Section(raw, section) && SectionFault(section, policy, e))
  {
    hide VerificationSection, ParseSection, Section, SectionFault, NoSection;
    forall section ensures VerificationSection(raw) == Some(section) <==> Section(raw, section) {
      SectionExactly(raw, section);
    }
    NoSectionExactly(raw);
    if VerificationSection(raw).Some? {
      SectionByCause(VerificationSection(raw).value, policy, e);
    }
  }
}
