/**
 * From one row to a whole plan: the table a policy prints, embedded in any plan, is accepted
 * exactly when every check is printable.
 */
module VerificationPlan {
  import opened Prelude
  import opened JsText
  import opened VerificationTable
  import opened VerificationRoundTrip

  /** What every accepted check looks like, whoever wrote the table. */
  predicate Plain(c: Check) {
    Trimmed(c.name) && '\n' !in c.name && c.command != "" && SingleLine(c.command)
  }

  predicate Printable(c: Check) {
    Plain(c) && Fenceable(c.command)
  }

  // ----- printed rows

  lemma PrintCheckIsRow(c: Check)
    ensures PrintCheck(c) == "|" + PrintCells([c.name, Fenced(c.command), "exit code 0"])
  {
    hide FenceLength, PrintCells;
    var fence, command := Ticks(FenceLength(c.command)), c.command;
    EscapeWithoutBars(fence);
    EscapeOfConcatenation(fence + command, fence);
    EscapeOfConcatenation(fence, command);
    EscapeWithoutBars("exit code 0");
    hide Escape;
    assert Escape(Fenced(command)) == InlineCode(command);
    ThreeEscapedCells(c.name, Fenced(command), "exit code 0");
    LastCellText("| " + Escape(c.name) + " | " + InlineCode(command));
  }

  lemma LastCellText(start: string)
    ensures start + " | " + "exit code 0" + " |" == start + " | exit code 0 |"
  {
    assert " | " + "exit code 0" + " |" == " | exit code 0 |";
    assert start + " | " + "exit code 0" + " |" == start + (" | " + "exit code 0" + " |");
  }

  lemma ThreeEscapedCells(a: string, b: string, c: string)
    ensures "|" + PrintCells([a, b, c]) == "| " + Escape(a) + " | " + Escape(b) + " | " + Escape(c) + " |"
  {
    hide Escape;
    assert [a, b, c][1..] == [b, c] && [b, c][1..] == [c] && [c][1..] == [];
    assert PrintCells([c]) == " " + Escape(c) + " |";
    assert PrintCells([b, c]) == " " + Escape(b) + " |" + (" " + Escape(c) + " |");
  }

  /** One printed check is parsed back under its own name, and with its own command exactly when that is fenceable. */
  lemma PrintedCheckParses(c: Check)
    requires Plain(c)
    ensures BarredRow(PrintCheck(c))
    ensures ParseCheck(PrintCheck(c)).Ok? && ParseCheck(PrintCheck(c)).value.name == c.name
    ensures ParseCheck(PrintCheck(c)).value.command == c.command <==> Fenceable(c.command)
  {
    hide Fenceable, Fenced, PrintCheck, SplitTableRow, PrintCells, CodeSpan, SingleLine, BarredRow, IsSpace;
    var cells := [c.name, Fenced(c.command), "exit code 0"];
    PrintCheckIsRow(c);
    FencedIsTrimmed(c.command);
    assert Trimmed("exit code 0") by { PlainWordsAreTrimmed(); }
    assert forall i :: 0 <= i < |cells| ==> Trimmed(cells[i]);
    RowRoundTrip(cells);
    SpanRoundTrip(c.command);
    assert Lower("exit code 0") == "exit code 0";
  }

  lemma FencedIsTrimmed(command: string)
    ensures Trimmed(Fenced(command))
  {
    var s := Fenced(command);
    assert s[0] == TICK && s[|s| - 1] == TICK;
  }

  lemma PlainWordsAreTrimmed()
    ensures Trimmed("exit code 0") && Trimmed("Check") && Trimmed("Command") && Trimmed("Expected") && Trimmed("---")
  {
  }

  lemma {:induction false} PrintedChecksParse(policy: seq<Check>)
    requires forall c :: c in policy ==> Plain(c)
    ensures |PrintChecks(policy)| == |policy| && forall i :: 0 <= i < |policy| ==> BarredRow(PrintChecks(policy)[i])
    ensures ParseChecks(PrintChecks(policy)).Ok?
    ensures ParseChecks(PrintChecks(policy)).value == policy <==> forall c :: c in policy ==> Fenceable(c.command)
  {
    hide Plain, PrintCheck, ParseCheck, Fenceable, BarredRow;
    if policy != [] {
      PrintedCheckParses(policy[0]);
      PrintedChecksParse(policy[1..]);
      var first, rest := ParseCheck(PrintCheck(policy[0])).value, ParseChecks(PrintChecks(policy[1..])).value;
      assert PrintChecks(policy)[1..] == PrintChecks(policy[1..]);
      assert policy == [policy[0]] + policy[1..];
      assert ([first] + rest)[1..] == rest;
    }
  }

  lemma {:induction false} HeaderParses()
    ensures SplitTableRow(HEADER) == Ok(["Check", "Command", "Expected"]) && BarredRow(HEADER)
    ensures SplitTableRow(DIVIDER) == Ok(["---", "---", "---"]) && BarredRow(DIVIDER)
    ensures HeaderAccepted(["Check", "Command", "Expected"]) && DividerAccepted(["---", "---", "---"])
  {
    hide SplitTableRow, BarredRow;
    PlainWordsAreTrimmed();
    hide Trimmed;
    HeaderText();
    hide HEADER, DIVIDER;
    ThreeCells("Check", "Command", "Expected");
    ThreeCells("---", "---", "---");
    HeaderWords();
  }

  lemma HeaderText()
    ensures HEADER == "| " + "Check" + " | " + "Command" + " | " + "Expected" + " |"
    ensures DIVIDER == "| " + "---" + " | " + "---" + " | " + "---" + " |"
  {
  }

  lemma HeaderWords()
    ensures HeaderAccepted(["Check", "Command", "Expected"]) && DividerAccepted(["---", "---", "---"])
  {
    assert Lower("Check") == "check" && Lower("Command") == "command" && Lower("Expected") == "expected";
  }

  lemma ThreeCells(a: string, b: string, c: string)
    requires '|' !in a && '|' !in b && '|' !in c && Trimmed(a) && Trimmed(b) && Trimmed(c)
    ensures var row := "| " + a + " | " + b + " | " + c + " |"; SplitTableRow(row) == Ok([a, b, c]) && BarredRow(row)
  {
    hide SplitTableRow, BarredRow, Escape, Trimmed;
    EscapeWithoutBars(a);
    EscapeWithoutBars(b);
    EscapeWithoutBars(c);
    RowRoundTrip([a, b, c]);
    ThreeEscapedCells(a, b, c);
  }

  // ----- sections

  lemma RowBelongsToSection(row: string)
    requires BarredRow(row)
    ensures Trim(row) == row && !Blank(row) && !EndsSection(row)
  {
    TrimOfTrimmed(row);
  }

  lemma {:induction false} SectionOfRows(rows: seq<string>, after: seq<string>)
    requires forall i :: 0 <= i < |rows| ==> BarredRow(rows[i])
    ensures SectionBody(rows + after) == rows + SectionBody(after)
  {
    hide BarredRow, Trim, Blank, EndsSection;
    if rows == [] {
      assert rows + after == after;
    } else {
      RowBelongsToSection(rows[0]);
      SectionOfRows(rows[1..], after);
      assert (rows + after)[1..] == rows[1..] + after;
    }
  }

  /** Blank lines up to the end of the plan or the next heading of the first two levels. */
  predicate ClosesSection(lines: seq<string>) {
    lines == [] || EndsSection(lines[0]) || (Blank(lines[0]) && ClosesSection(lines[1..]))
  }

  lemma {:induction false} ClosedSectionIsEmpty(lines: seq<string>)
    requires ClosesSection(lines)
    ensures SectionBody(lines) == []
  {
    hide Blank, EndsSection;
    if lines != [] && !EndsSection(lines[0]) {
      ClosedSectionIsEmpty(lines[1..]);
    }
  }

  lemma {:induction false} BlankLinesAreSkipped(gap: seq<string>, rest: seq<string>)
    requires forall i :: 0 <= i < |gap| ==> Blank(gap[i])
    ensures SectionBody(gap + rest) == SectionBody(rest)
  {
    hide Blank, EndsSection;
    if gap == [] {
      assert gap + rest == rest;
    } else {
      BlankEndsNothing(gap[0]);
      assert (gap + rest)[1..] == gap[1..] + rest;
      BlankLinesAreSkipped(gap[1..], rest);
    }
  }

  lemma BlankEndsNothing(line: string)
    requires Blank(line)
    ensures !EndsSection(line)
  {
  }

  lemma {:induction false} SectionFound(before: seq<string>, heading: string, rest: seq<string>)
    requires IsVerificationHeading(heading) && forall i :: 0 <= i < |before| ==> !IsVerificationHeading(before[i])
    ensures SectionOf(before + [heading] + rest) == Some(SectionBody(rest))
  {
    hide IsVerificationHeading;
    if before == [] {
      assert ([heading] + rest)[1..] == rest;
      assert before + [heading] + rest == [heading] + rest;
    } else {
      assert (before + [heading] + rest)[1..] == before[1..] + [heading] + rest;
      SectionFound(before[1..], heading, rest);
    }
  }

  // ----- lines

  /** A line that a line break can follow without being changed by it. */
  predicate CleanLine(line: string) {
    '\n' !in line && (line == "" || line[|line| - 1] != '\r')
  }

  lemma {:induction false} LineIsSplitOff(line: string, rest: string, read: string)
    requires CleanLine(line)
    ensures SplitLines(line + "\n" + rest, read) == [read + line] + SplitLines(rest, "")
    ensures SplitLines(line, read) == [read + line]
  {
    var whole := line + "\n" + rest;
    if line == "" {
      assert whole[1..] == rest && read + line == read;
    } else {
      assert whole[1..] == line[1..] + "\n" + rest;
      LineIsSplitOff(line[1..], rest, read + [line[0]]);
      assert read + [line[0]] + line[1..] == read + line;
      if line[0] == '\r' {
        assert |line| > 1 && whole[1] == line[1];
      }
    }
  }

  /** Splitting undoes joining. */
  lemma {:induction false} LinesRoundTrip(lines: seq<string>)
    requires lines != [] && forall i :: 0 <= i < |lines| ==> CleanLine(lines[i])
    ensures SplitLines(JoinLines(lines), "") == lines
  {
    hide CleanLine, SplitLines;
    LineIsSplitOff(lines[0], JoinLines(lines[1..]), "");
    assert "" + lines[0] == lines[0];
    if |lines| > 1 {
      LinesRoundTrip(lines[1..]);
    }
    assert lines == [lines[0]] + lines[1..];
  }

  lemma {:induction false} SplitLinesAreLines(s: string, line: string)
    requires '\n' !in line
    ensures forall l :: l in SplitLines(s, line) ==> '\n' !in l
    decreases |s|
  {
    if s == "" {
    } else if s[0] == '\n' {
      SplitLinesAreLines(s[1..], "");
    } else if s[0] == '\r' && |s| > 1 && s[1] == '\n' {
      SplitLinesAreLines(s[2..], "");
    } else {
      SplitLinesAreLines(s[1..], line + [s[0]]);
    }
  }

  // ----- what any accepted plan says

  lemma {:induction false} CellsArePlain(rest: string, cell: string)
    requires '\n' !in rest && '\n' !in cell
    ensures forall c :: c in Cells(rest, cell) ==> Trimmed(c) && '\n' !in c
    decreases |rest|
  {
    hide Trim, Trimmed;
    TrimIsTrimmed(cell);
    TrimAddsNothing(cell, '\n');
    if |rest| <= 1 {
    } else if rest[0] == '\\' && rest[1] == '|' {
      CellsArePlain(rest[2..], cell + "|");
    } else if rest[0] == '|' {
      CellsArePlain(rest[1..], "");
    } else {
      CellsArePlain(rest[1..], cell + [rest[0]]);
    }
  }

  lemma {:induction false} SpansAreSingleLine(s: string, k: nat)
    ensures MatchSpan(s, k).Some? ==> SingleLine(MatchSpan(s, k).value) && MatchSpan(s, k).value != ""
  {
    if k > 0 && !Fits(s, k) {
      SpansAreSingleLine(s, k - 1);
    }
  }

  lemma ParsedCheckIsPlain(row: string)
    requires '\n' !in row && ParseCheck(row).Ok?
    ensures Plain(ParseCheck(row).value)
  {
    hide Trim, Trimmed, Cells, LeadingTicks, MatchSpan, SingleLine, Lower;
    TrimAddsNothing(row, '\n');
    CellsArePlain(Trim(row)[1..], "");
    var cells := SplitTableRow(row).value;
    assert cells[0] in cells;
    SpansAreSingleLine(cells[1], LeadingTicks(cells[1]));
  }

  lemma {:induction false} ParsedChecksArePlain(rows: seq<string>)
    requires (forall row :: row in rows ==> '\n' !in row) && ParseChecks(rows).Ok?
    ensures forall c :: c in ParseChecks(rows).value ==> Plain(c)
  {
    hide ParseCheck, Plain;
    if rows != [] {
      ParsedCheckIsPlain(rows[0]);
      ParsedChecksArePlain(rows[1..]);
    }
  }

  lemma {:induction false} SectionLinesAreLines(lines: seq<string>)
    requires forall l :: l in lines ==> '\n' !in l
    ensures forall l :: l in SectionBody(lines) ==> '\n' !in l
  {
    hide Trim, Blank, EndsSection;
    if lines != [] {
      TrimAddsNothing(lines[0], '\n');
      SectionLinesAreLines(lines[1..]);
    }
  }

  lemma {:induction false} FoundSectionIsLines(lines: seq<string>)
    requires forall l :: l in lines ==> '\n' !in l
    ensures SectionOf(lines).Some? ==> forall l :: l in SectionOf(lines).value ==> '\n' !in l
  {
    hide IsVerificationHeading, SectionBody;
    if lines != [] {
      SectionLinesAreLines(lines[1..]);
      FoundSectionIsLines(lines[1..]);
    }
  }

  /** No plan whatever gets a policy accepted that names a check in a way a table cannot hold. */
  lemma AcceptedPolicyIsPlain(raw: string, policy: seq<Check>)
    requires policy != [] && ParseVerificationPlan(raw, policy).Ok?
    ensures ParseVerificationPlan(raw, policy) == Ok(Commands(policy))
    ensures forall c :: c in policy ==> Plain(c)
  {
    hide Plain, SplitLines, SectionOf, ParseChecks, SplitTableRow;
    SplitLinesAreLines(raw, "");
    FoundSectionIsLines(SplitLines(raw, ""));
    ParsedChecksArePlain(VerificationSection(raw).value[2..]);
  }

  // ----- the whole plan

  /** The printed table stands under a Verification heading of `raw`, the first one, and nothing else does. */
  ghost predicate Embeds(raw: string, table: string, before: seq<string>, heading: string, gap: seq<string>,
                         after: seq<string>)
  {
    && SplitLines(raw, "") == before + [heading] + (gap + SplitLines(table, "") + after)
    && IsVerificationHeading(heading)
    && (forall i :: 0 <= i < |before| ==> !IsVerificationHeading(before[i]))
    && (forall i :: 0 <= i < |gap| ==> Blank(gap[i]))
    && ClosesSection(after)
  }

  /**
   * A plan that carries the policy's own table is accepted exactly when every check is printable, whatever the policy.
   */
  lemma PlanRoundTrip(raw: string, policy: seq<Check>, before: seq<string>, heading: string, gap: seq<string>,
                      after: seq<string>)
    requires policy != [] && Embeds(raw, VerificationContractMarkdown(policy), before, heading, gap, after)
    ensures ParseVerificationPlan(raw, policy) == Ok(Commands(policy)) <==> forall c :: c in policy ==> Printable(c)
    ensures (forall c :: c in policy ==> Plain(c)) && !(forall c :: c in policy ==> Printable(c)) ==>
              ParseVerificationPlan(raw, policy) == Err(NotThePolicyCommands)
  {
    hide Plain, VerificationContractMarkdown, ParseTable, Fenceable, VerificationSection;
    if forall c :: c in policy ==> Plain(c) {
      TableIsFound(raw, policy, before, heading, gap, after);
      TableParses(policy);
    } else if ParseVerificationPlan(raw, policy).Ok? {
      AcceptedPolicyIsPlain(raw, policy);
    }
  }

  /** Such plans are easily had: join the lines, and the table is embedded. */
  lemma {:induction false} JoinedPlanEmbeds(policy: seq<Check>, before: seq<string>, heading: string, gap: seq<string>,
                                            after: seq<string>)
    requires policy != [] && forall c :: c in policy ==> Plain(c)
    requires AllClean(before) && CleanLine(heading) && AllClean(gap) && AllClean(after)
    requires IsVerificationHeading(heading) && ClosesSection(after)
    requires forall i :: 0 <= i < |before| ==> !IsVerificationHeading(before[i])
    requires forall i :: 0 <= i < |gap| ==> Blank(gap[i])
    ensures Embeds(JoinLines(before + [heading] + (gap + TableLines(policy) + after)),
                   VerificationContractMarkdown(policy), before, heading, gap, after)
  {
    hide Plain, SplitLines, JoinLines, IsVerificationHeading, Blank, ClosesSection, TableLines, BarredRow, CleanLine,
         AllClean;
    var rows := TableLines(policy);
    assert AllClean(rows) && rows != [] by { TableRowsAreBarred(policy); AllCleanRows(rows); }
    AllCleanRows(rows);
    LinesRoundTrip(rows);
    AllCleanTogether(before, [heading]);
    AllCleanTogether(gap, rows);
    AllCleanTogether(gap + rows, after);
    AllCleanTogether(before + [heading], gap + rows + after);
    AllCleanRows(before + [heading] + (gap + rows + after));
    LinesRoundTrip(before + [heading] + (gap + rows + after));
  }

  predicate AllClean(lines: seq<string>) {
    forall i :: 0 <= i < |lines| ==> CleanLine(lines[i])
  }

  lemma AllCleanRows(lines: seq<string>)
    ensures AllClean(lines) <==> forall i :: 0 <= i < |lines| ==> CleanLine(lines[i])
  {
  }

  lemma AllCleanTogether(a: seq<string>, b: seq<string>)
    requires AllClean(a) && (AllClean(b) || (|b| == 1 && CleanLine(b[0])))
    ensures AllClean(a + b)
  {
  }

  lemma TableIsFound(raw: string, policy: seq<Check>, before: seq<string>, heading: string, gap: seq<string>,
                     after: seq<string>)
    requires policy != [] && Embeds(raw, VerificationContractMarkdown(policy), before, heading, gap, after)
    requires forall c :: c in policy ==> Plain(c)
    ensures VerificationSection(raw) == Some(TableLines(policy))
  {
    hide Plain, SplitLines, JoinLines, IsVerificationHeading, Blank, ClosesSection, SectionOf, SectionBody,
         PrintChecks, BarredRow;
    var rows := TableLines(policy);
    TableRowsAreBarred(policy);
    LinesRoundTrip(rows);
    SectionFound(before, heading, gap + rows + after);
    assert gap + rows + after == gap + (rows + after);
    BlankLinesAreSkipped(gap, rows + after);
    SectionOfRows(rows, after);
    ClosedSectionIsEmpty(after);
    assert rows + [] == rows;
  }

  lemma TableRowsAreBarred(policy: seq<Check>)
    requires forall c :: c in policy ==> Plain(c)
    ensures |TableLines(policy)| == |policy| + 2
    ensures forall i ::
              0 <= i < |TableLines(policy)| ==> BarredRow(TableLines(policy)[i]) && CleanLine(TableLines(policy)[i])
  {
    hide Plain, PrintChecks, BarredRow, HEADER, DIVIDER, CleanLine;
    HeaderParses();
    PrintedChecksParse(policy);
    PrintedRowsAreClean(policy);
    HeaderIsOneLine();
    forall row | row in TableLines(policy) ensures BarredRow(row) && CleanLine(row) {
      BarredIsClean(row);
    }
  }

  lemma BarredIsClean(row: string)
    requires BarredRow(row) && '\n' !in row
    ensures CleanLine(row)
  {
  }

  lemma HeaderIsOneLine()
    ensures '\n' !in HEADER && '\n' !in DIVIDER
  {
  }

  lemma {:induction false} PrintedRowsAreClean(policy: seq<Check>)
    requires forall c :: c in policy ==> Plain(c)
    ensures forall row :: row in PrintChecks(policy) ==> '\n' !in row
  {
    if policy != [] {
      assert Plain(policy[0]);
      EscapeAddsNoBreak(policy[0].name);
      EscapeAddsNoBreak(policy[0].command);
      PrintedRowsAreClean(policy[1..]);
    }
  }

  lemma {:induction false} EscapeAddsNoBreak(s: string)
    requires '\n' !in s
    ensures '\n' !in Escape(s)
  {
    if s != "" {
      EscapeAddsNoBreak(s[1..]);
    }
  }

  lemma {:induction false} TableParses(policy: seq<Check>)
    requires policy != [] && forall c :: c in policy ==> Plain(c)
    ensures ParseTable(TableLines(policy)).Ok?
    ensures ParseTable(TableLines(policy)).value == policy <==> forall c :: c in policy ==> Fenceable(c.command)
  {
    hide Plain, Fenceable, SplitTableRow, PrintChecks, ParseChecks;
    HeaderParses();
    PrintedChecksParse(policy);
    assert TableLines(policy)[2..] == PrintChecks(policy);
  }

  /** An empty policy's line under the heading is accepted too, as a skipped verification. */
  lemma {:induction false} EmptyPolicyRoundTrip(raw: string, before: seq<string>, heading: string, gap: seq<string>,
                                                after: seq<string>)
    requires Embeds(raw, VerificationContractMarkdown([]), before, heading, gap, after)
    ensures ParseVerificationPlan(raw, []) == Ok(Skipped)
  {
    hide SplitLines, IsVerificationHeading, Blank, Trim, ClosesSection, SectionOf, EndsSection, EMPTY_DISPOSITION,
         CleanLine;
    DispositionBelongsToSection();
    LineIsSplitOff(EMPTY_DISPOSITION, "", "");
    assert "" + EMPTY_DISPOSITION == EMPTY_DISPOSITION;
    var rest := [EMPTY_DISPOSITION] + after;
    SectionFound(before, heading, gap + [EMPTY_DISPOSITION] + after);
    assert gap + [EMPTY_DISPOSITION] + after == gap + rest;
    BlankLinesAreSkipped(gap, rest);
    assert rest[1..] == after;
    ClosedSectionIsEmpty(after);
  }

  lemma DispositionBelongsToSection()
    ensures Trim(EMPTY_DISPOSITION) == EMPTY_DISPOSITION && !Blank(EMPTY_DISPOSITION) && !EndsSection(EMPTY_DISPOSITION)
    ensures CleanLine(EMPTY_DISPOSITION)
  {
    DispositionOpening();
    DispositionClosing();
    WordsBelongToSection("Automated verification: skipped " + "(project policy has no validation commands).");
  }

  lemma DispositionOpening()
    ensures "Automated verification: skipped "[0] == 'A' && '\n' !in "Automated verification: skipped "
  {
  }

  lemma DispositionClosing()
    ensures var closing := "(project policy has no validation commands).";
            |closing| == 44 && closing[43] == '.' && '\n' !in closing
  {
  }

  lemma WordsBelongToSection(line: string)
    requires line != "" && line[0] == 'A' && line[|line| - 1] == '.' && '\n' !in line
    ensures Trim(line) == line && !Blank(line) && !EndsSection(line) && CleanLine(line)
  {
    TrimOfTrimmed(line);
  }

  /** The condition bites: a command that is itself an inline-code span cannot be verified by a plan. */
  lemma {:induction false} CodeSpanCommandIsLost(raw: string, before: seq<string>, heading: string, gap: seq<string>,
                                                 after: seq<string>)
    requires Embeds(raw, VerificationContractMarkdown([Check("tests", "`x`")]), before, heading, gap, after)
    ensures ParseVerificationPlan(raw, [Check("tests", "`x`")]) == Err(NotThePolicyCommands)
  {
    hide Embeds, ParseVerificationPlan, VerificationContractMarkdown;
    var c := Check("tests", "`x`");
    assert Plain(c) && !Printable(c);
    assert c in [c];
    PlanRoundTrip(raw, [c], before, heading, gap, after);
  }
}
