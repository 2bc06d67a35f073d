/**
 * What a plan parser makes of the table the policy printer wrote: the exact condition under
 * which the checks come back, for every policy and every surrounding plan.
 */
module VerificationRoundTrip {
  import opened Prelude
  import opened JsText
  import opened VerificationTable

  // ----- trimming

  lemma TrimOfTrimmed(s: string)
    requires Trimmed(s)
    ensures Trim(s) == s
  {
  }

  lemma TrimOfPadded(s: string)
    requires Trimmed(s)
    ensures Trim(" " + s + " ") == s
  {
    var padded := " " + s + " ";
    assert padded[1..] == s + " ";
    assert TrimStart(padded) == TrimStart(s + " ");
    if s == "" {
      assert padded[1..] == " " && " "[1..] == "";
      assert TrimStart(" ") == "";
    } else {
      assert TrimStart(s + " ") == s + " ";
      assert (s + " ")[..|s|] == s;
      assert TrimEnd(s + " ") == TrimEnd(s);
    }
  }

  lemma {:induction false} TrimIsTrimmed(s: string)
    ensures Trimmed(Trim(s))
  {
    StartIsTrimmed(s);
    EndIsTrimmed(TrimStart(s));
  }

  lemma {:induction false} StartIsTrimmed(s: string)
    ensures TrimStart(s) == "" || !IsSpace(TrimStart(s)[0])
  {
    hide IsSpace;
    if s != "" && IsSpace(s[0]) {
      StartIsTrimmed(s[1..]);
    }
  }

  lemma {:induction false} EndIsTrimmed(s: string)
    requires s == "" || !IsSpace(s[0])
    ensures Trimmed(TrimEnd(s))
  {
    hide IsSpace;
    if s != "" && IsSpace(s[|s| - 1]) {
      EndIsTrimmed(s[..|s| - 1]);
    }
  }

  lemma {:induction false} TrimAddsNothing(s: string, c: char)
    requires c !in s
    ensures c !in Trim(s)
  {
    StartAddsNothing(s, c);
    EndAddsNothing(TrimStart(s), c);
  }

  lemma {:induction false} StartAddsNothing(s: string, c: char)
    requires c !in s
    ensures c !in TrimStart(s)
  {
    hide IsSpace;
    if s != "" && IsSpace(s[0]) {
      StartAddsNothing(s[1..], c);
    }
  }

  lemma {:induction false} EndAddsNothing(s: string, c: char)
    requires c !in s
    ensures c !in TrimEnd(s)
  {
    hide IsSpace;
    if s != "" && IsSpace(s[|s| - 1]) {
      EndAddsNothing(s[..|s| - 1], c);
    }
  }

  // ----- rows

  /** The cells of a row, each with its pipes escaped and a space on both sides, up to the closing bar. */
  function PrintCells(cells: seq<string>): string {
    if cells == [] then "" else " " + Escape(cells[0]) + " |" + PrintCells(cells[1..])
  }

  lemma CellsPlain(c: char, rest: string, cell: string)
    requires |rest| >= 1 && c != '|' && !(c == '\\' && rest[0] == '|')
    ensures Cells([c] + rest, cell) == Cells(rest, cell + [c])
  {
    assert ([c] + rest)[1..] == rest;
  }

  /** Escaped text is read back as it was, unless it ends in a backslash and a bar follows. */
  lemma {:induction false} CellsEscaped(s: string, rest: string, cell: string)
    requires |rest| >= 1 && (rest[0] != '|' || s == "" || s[|s| - 1] != '\\')
    ensures Cells(Escape(s) + rest, cell) == Cells(rest, cell + s)
  {
    if s == "" {
      assert Escape(s) + rest == rest && cell + s == cell;
    } else {
      var tail := Escape(s[1..]) + rest;
      EscapeStartsBarless(s[1..], rest);
      CellsEscaped(s[1..], rest, cell + [s[0]]);
      assert cell + [s[0]] + s[1..] == cell + s;
      if s[0] == '|' {
        assert Escape(s) + rest == "\\|" + tail;
        assert ("\\|" + tail)[2..] == tail;
      } else {
        assert Escape(s) + rest == [s[0]] + tail;
        CellsPlain(s[0], tail, cell);
      }
    }
  }

  lemma EscapeStartsBarless(s: string, rest: string)
    requires |rest| >= 1
    ensures |Escape(s) + rest| >= 1 && (s != "" || rest[0] != '|' ==> (Escape(s) + rest)[0] != '|')
    ensures s == "" ==> Escape(s) + rest == rest
  {
    if s == "" {
      assert Escape(s) + rest == rest;
    } else {
      var first := if s[0] == '|' then "\\|" else [s[0]];
      assert Escape(s) == first + Escape(s[1..]) && first[0] != '|';
      assert (Escape(s) + rest)[0] == first[0];
    }
  }

  lemma {:induction false} CellsOfPrinted(cells: seq<string>)
    requires cells != [] && forall i :: 0 <= i < |cells| ==> Trimmed(cells[i])
    ensures Cells(PrintCells(cells), "") == cells
  {
    hide IsSpace, Trim, Trimmed, Cells, Escape;
    var rest := PrintCells(cells[1..]);
    assert PrintCells(cells) == " " + Escape(cells[0]) + " |" + rest;
    FirstPrintedCell(cells[0], rest);
    if |cells| > 1 {
      CellsOfPrinted(cells[1..]);
      PrintedIsNotEmpty(cells[1..]);
    } else {
      assert rest == "";
    }
    assert cells == [cells[0]] + cells[1..];
  }

  lemma FirstPrintedCell(cell: string, rest: string)
    requires Trimmed(cell)
    ensures Cells(" " + Escape(cell) + " |" + rest, "") == [cell] + if rest == "" then [] else Cells(rest, "")
  {
    hide IsSpace, Trim, Trimmed, Escape, Cells;
    var content := Escape(cell) + (" |" + rest);
    assert " " + Escape(cell) + " |" + rest == [' '] + content;
    EscapeStartsBarless(cell, " |" + rest);
    CellsPlain(' ', content, "");
    assert "" + [' '] == " ";
    CellsEscaped(cell, " |" + rest, " ");
    assert " |" + rest == [' '] + ("|" + rest);
    CellsPlain(' ', "|" + rest, " " + cell);
    assert (" " + cell) + [' '] == " " + cell + " ";
    TrimOfPadded(cell);
    CellsBar(rest, " " + cell + " ");
  }

  lemma CellsBar(rest: string, cell: string)
    ensures Cells("|" + rest, cell) == [Trim(cell)] + if rest == "" then [] else Cells(rest, "")
  {
    hide Trim;
    assert ("|" + rest)[1..] == rest;
  }

  lemma PrintedIsNotEmpty(cells: seq<string>)
    requires cells != []
    ensures |PrintCells(cells)| >= 1
  {
  }

  lemma {:induction false} PrintedEndsWithBar(cells: seq<string>)
    requires cells != []
    ensures |PrintCells(cells)| >= 1 && PrintCells(cells)[|PrintCells(cells)| - 1] == '|'
  {
    if |cells| > 1 {
      PrintedEndsWithBar(cells[1..]);
    }
  }

  predicate BarredRow(row: string) {
    |row| >= 2 && row[0] == '|' && row[|row| - 1] == '|'
  }

  /** A printed row of trimmed cells is split into those cells, whatever bars and backslashes they hold. */
  lemma {:induction false} RowRoundTrip(cells: seq<string>)
    requires cells != [] && forall i :: 0 <= i < |cells| ==> Trimmed(cells[i])
    ensures BarredRow("|" + PrintCells(cells))
    ensures SplitTableRow("|" + PrintCells(cells)) == Ok(cells)
  {
    hide Cells, PrintCells;
    var row := "|" + PrintCells(cells);
    PrintedEndsWithBar(cells);
    TrimOfTrimmed(row);
    assert row[1..] == PrintCells(cells);
    CellsOfPrinted(cells);
  }

  lemma {:induction false} EscapeWithoutBars(s: string)
    requires '|' !in s
    ensures Escape(s) == s
  {
    if s != "" {
      EscapeWithoutBars(s[1..]);
    }
  }

  lemma {:induction false} EscapeOfConcatenation(a: string, b: string)
    ensures Escape(a + b) == Escape(a) + Escape(b)
  {
    if a == "" {
      assert a + b == b;
    } else {
      assert (a + b)[1..] == a[1..] + b;
      EscapeOfConcatenation(a[1..], b);
    }
  }

  // ----- inline code

  /** The command between its fences. */
  function Fenced(command: string): string {
    Ticks(FenceLength(command)) + command + Ticks(FenceLength(command))
  }

  predicate Ticked(s: string) {
    s != "" && s[0] == TICK && s[|s| - 1] == TICK
  }

  /**
   * What the printer's fence protects: everything but commands of three characters or more with a backtick at both
   * ends.
   */
  predicate Fenceable(command: string) {
    |command| <= 2 || !Ticked(command)
  }

  lemma LeadingTicksOfFenced(f: nat, command: string)
    ensures LeadingTicks(Ticks(f) + command + Ticks(f)) >= f
    ensures command != "" && command[0] != TICK ==> LeadingTicks(Ticks(f) + command + Ticks(f)) == f
  {
    TicksLead(f, command + Ticks(f));
    assert Ticks(f) + (command + Ticks(f)) == Ticks(f) + command + Ticks(f);
  }

  lemma {:induction false} TicksLead(f: nat, rest: string)
    ensures LeadingTicks(Ticks(f) + rest) == f + LeadingTicks(rest)
  {
    if f == 0 {
      assert Ticks(f) + rest == rest;
    } else {
      assert (Ticks(f) + rest)[1..] == Ticks(f - 1) + rest;
      TicksLead(f - 1, rest);
    }
  }

  lemma {:induction false} MatchDescends(s: string, k: nat, f: nat)
    requires f <= k && forall j :: f < j <= k ==> !Fits(s, j)
    ensures MatchSpan(s, k) == MatchSpan(s, f)
  {
    hide Fits;
    if f < k {
      MatchDescends(s, k - 1, f);
    }
  }

  /** A longer fit is found first, and it leaves less between the fences. */
  lemma {:induction false} MatchFindsLonger(s: string, k: nat, f: nat)
    requires 0 < f <= k && Fits(s, f)
    ensures MatchSpan(s, k).Some? && |MatchSpan(s, k).value| <= |s| - 2 * f
  {
    if !Fits(s, k) {
      MatchFindsLonger(s, k - 1, f);
    }
  }

  lemma FenceFits(f: nat, command: string)
    requires command != "" && SingleLine(command)
    ensures var s := Ticks(f) + command + Ticks(f); Fits(s, f) && s[f..|s| - f] == command
  {
    var s := Ticks(f) + command + Ticks(f);
    assert s[f..|s| - f] == command;
  }

  lemma NoLongerFit(f: nat, command: string, j: nat)
    requires f < j && command != "" && (command[|command| - 1] != TICK || |command| <= 2)
    ensures !Fits(Ticks(f) + command + Ticks(f), j)
  {
    var s := Ticks(f) + command + Ticks(f);
    if |command| > 2 && |s| - j >= 0 {
      assert s[|s| - f - 1] == command[|command| - 1];
    }
  }

  /**
   * The regular expression recovers a fenced command exactly when the command is fenceable; otherwise it eats into it.
   */
  lemma SpanRoundTrip(command: string)
    requires command != "" && SingleLine(command)
    ensures CodeSpan(Fenced(command)).Some?
    ensures CodeSpan(Fenced(command)).value == command <==> Fenceable(command)
  {
    hide Fits, LeadingTicks, MatchSpan, SingleLine;
    var f := FenceLength(command);
    var s := Fenced(command);
    LeadingTicksOfFenced(f, command);
    FenceFits(f, command);
    if Fenceable(command) {
      if command[0] == TICK || |command| <= 2 {
        forall j | f < j <= LeadingTicks(s) ensures !Fits(s, j) {
          NoLongerFit(f, command, j);
        }
      }
      MatchDescends(s, LeadingTicks(s), f);
      MatchAt(s, f);
    } else {
      TickedFitsLonger(f, command);
      MatchFindsLonger(s, LeadingTicks(s), f + 1);
    }
  }

  lemma MatchAt(s: string, k: nat)
    requires k > 0 && Fits(s, k)
    ensures MatchSpan(s, k) == Some(s[k..|s| - k])
  {
  }

  lemma TickedFitsLonger(f: nat, command: string)
    requires |command| > 2 && Ticked(command) && SingleLine(command)
    ensures var s := Ticks(f) + command + Ticks(f); Fits(s, f + 1) && LeadingTicks(s) >= f + 1
  {
    var s := Ticks(f) + command + Ticks(f);
    assert s[f + 1..|s| - (f + 1)] == command[1..|command| - 1];
    TicksLead(f, command + Ticks(f));
    assert Ticks(f) + (command + Ticks(f)) == s;
  }

  predicate RunAt(s: string, i: nat, n: nat) {
    i + n <= |s| && forall j :: i <= j < i + n ==> s[j] == TICK
  }

  /** `n` backticks in a row somewhere in `s`. */
  ghost predicate HasRun(s: string, n: nat) {
    exists i: nat :: RunAt(s, i, n)
  }

  /** The fence is longer than any run of backticks inside the command, and no longer than it needs to be. */
  lemma FenceIsTight(command: string)
    ensures !HasRun(command, FenceLength(command)) && HasRun(command, FenceLength(command) - 1)
  {
    LongestRunIsTight(command, 0);
    assert Ticks(0) + command == command;
  }

  lemma {:induction false} LongestRunIsTight(s: string, run: nat)
    ensures !HasRun(Ticks(run) + s, LongestRun(s, run) + 1) && HasRun(Ticks(run) + s, LongestRun(s, run))
    decreases |s|
  {
    hide HasRun;
    var whole := Ticks(run) + s;
    if s == "" {
      assert HasRun(whole, run) && !HasRun(whole, run + 1) by { OnlyTicks(run, whole); }
    } else if s[0] == TICK {
      assert whole == Ticks(run + 1) + s[1..];
      LongestRunIsTight(s[1..], run + 1);
    } else {
      LongestRunIsTight(s[1..], 0);
      assert Ticks(0) + s[1..] == s[1..];
      RunsAcrossBreak(s, run);
    }
  }

  lemma OnlyTicks(run: nat, s: string)
    requires s == Ticks(run)
    ensures HasRun(s, run) && !HasRun(s, run + 1)
  {
    assert RunAt(s, 0, run);
  }

  /** A character that is not a backtick separates the runs before it from the runs after it. */
  lemma RunsAcrossBreak(s: string, run: nat)
    requires s != "" && s[0] != TICK
    requires var rest := LongestRun(s[1..], 0); !HasRun(s[1..], rest + 1) && HasRun(s[1..], rest)
    ensures !HasRun(Ticks(run) + s, LongestRun(s, run) + 1) && HasRun(Ticks(run) + s, LongestRun(s, run))
  {
    var whole, rest := Ticks(run) + s, LongestRun(s[1..], 0);
    NoRunAcross(s, run, LongestRun(s, run) + 1);
    if run > rest {
      assert RunAt(whole, 0, run);
    } else {
      var i: nat :| RunAt(s[1..], i, rest);
      ShiftedRun(s, run, i, rest);
    }
  }

  lemma ShiftedRun(s: string, run: nat, i: nat, n: nat)
    requires s != "" && RunAt(s[1..], i, n)
    ensures RunAt(Ticks(run) + s, run + 1 + i, n)
  {
    assert forall j :: i <= j < i + n ==> s[1..][j] == s[j + 1];
  }

  lemma NoRunAcross(s: string, run: nat, n: nat)
    requires s != "" && s[0] != TICK && n > run
    requires n > LongestRun(s[1..], 0) && !HasRun(s[1..], LongestRun(s[1..], 0) + 1)
    ensures !HasRun(Ticks(run) + s, n)
  {
    var whole, least := Ticks(run) + s, LongestRun(s[1..], 0) + 1;
    forall j: nat ensures !RunAt(whole, j, n) {
      assert whole[run] != TICK;
      if j > run && RunAt(whole, j, n) {
        assert forall x :: j - run - 1 <= x < j - run - 1 + least ==> s[1..][x] == whole[x + run + 1];
        assert RunAt(s[1..], j - run - 1, least);
      }
    }
  }
}
