/**
 * The verification table of a plan (`src/bb/pipeline-handoffs.ts`): the printer, the parser, and
 * exactly when the second undoes the first.
 */
module VerificationTable {
  import opened Prelude
  import opened JsText

  const TICK := '`'

  datatype Check = Check(name: string, command: string)

  datatype Plan = Commands(checks: seq<Check>) | Skipped

  datatype PlanError =
    | SectionMissing | NotExplicitlySkipped | IncompleteRow | TableTooShort | HeaderInvalid | DividerInvalid
    | WrongCellCount | NotInlineCode | NotExitZero | NotThePolicyCommands

  const EMPTY_DISPOSITION := "Automated verification: skipped " + "(project policy has no validation commands)."

  predicate SingleLine(s: string) {
    '\n' !in s && '\r' !in s
  }

  // ----- printing

  function Escape(s: string): string {
    if s == "" then "" else (if s[0] == '|' then "\\|" else [s[0]]) + Escape(s[1..])
  }

  function Ticks(n: nat): (t: string)
    ensures |t| == n && forall i :: 0 <= i < n ==> t[i] == TICK
  {
    seq(n, _ => TICK)
  }

  /** Length of the longest run of backticks, when `run` of them come right before `s`. */
  function LongestRun(s: string, run: nat): nat {
    if s == "" then run
    else if s[0] == TICK then LongestRun(s[1..], run + 1)
    else
      var rest := LongestRun(s[1..], 0);
      if run > rest then run else rest
  }

  function FenceLength(command: string): nat { LongestRun(command, 0) + 1 }

  function InlineCode(command: string): string {
    var fence := Ticks(FenceLength(command));
    fence + Escape(command) + fence
  }

  function PrintCheck(c: Check): string {
    "| " + Escape(c.name) + " | " + InlineCode(c.command) + " | exit code 0 |"
  }

  function PrintChecks(policy: seq<Check>): seq<string> {
    if policy == [] then [] else [PrintCheck(policy[0])] + PrintChecks(policy[1..])
  }

  const HEADER := "| Check | Command | Expected |"
  const DIVIDER := "| --- | --- | --- |"

  function TableLines(policy: seq<Check>): seq<string> {
    [HEADER, DIVIDER] + PrintChecks(policy)
  }

  function JoinLines(lines: seq<string>): string {
    if lines == [] then ""
    else if |lines| == 1 then lines[0]
    else lines[0] + "\n" + JoinLines(lines[1..])
  }

  function VerificationContractMarkdown(policy: seq<Check>): string {
    if policy == [] then EMPTY_DISPOSITION else JoinLines(TableLines(policy))
  }

  // ----- parsing a row

  /** The cells of `rest`, which runs up to the closing bar; `cell` is what has been read of the first one. */
  function Cells(rest: string, cell: string): seq<string>
    decreases |rest|
  {
    if |rest| <= 1 then [Trim(cell)]
    else if rest[0] == '\\' && rest[1] == '|' then Cells(rest[2..], cell + "|")
    else if rest[0] == '|' then [Trim(cell)] + Cells(rest[1..], "")
    else Cells(rest[1..], cell + [rest[0]])
  }

  function SplitTableRow(row: string): Result<seq<string>, PlanError> {
    var trimmed := Trim(row);
    if trimmed == "" || trimmed[0] != '|' || trimmed[|trimmed| - 1] != '|' then Err(IncompleteRow)
    else Ok(Cells(trimmed[1..], ""))
  }

  /** `splitTableRow` as its loop performs it. */
  method SplitRow(row: string) returns (result: Result<seq<string>, PlanError>)
    ensures result == SplitTableRow(row)
  {
    var trimmed := Trim(row);
    if trimmed == "" || trimmed[0] != '|' || trimmed[|trimmed| - 1] != '|' {
      return Err(IncompleteRow);
    }
    var cells: seq<string> := [];
    var cell := "";
    var index := 1;
    while index < |trimmed| - 1
      invariant 1 <= index <= |trimmed|
      invariant Cells(trimmed[1..], "") == cells + Cells(trimmed[index..], cell)
    {
      var character := trimmed[index];
      if character == '\\' && trimmed[index + 1] == '|' {
        cell := cell + "|";
        index := index + 1;
      } else if character == '|' {
        cells := cells + [Trim(cell)];
        cell := "";
      } else {
        cell := cell + [character];
      }
      index := index + 1;
    }
    cells := cells + [Trim(cell)];
    return Ok(cells);
  }

  // ----- parsing an inline-code span

  function LeadingTicks(s: string): (n: nat)
    ensures n <= |s|
  {
    if s != "" && s[0] == TICK then 1 + LeadingTicks(s[1..]) else 0
  }

  /** `k` backticks close the span, and something on one line is left between them and the first `k`. */
  predicate Fits(s: string, k: nat) {
    && 2 * k + 1 <= |s|
    && (forall i :: |s| - k <= i < |s| ==> s[i] == TICK)
    && SingleLine(s[k..|s| - k])
  }

  /** The greedy group gives back one backtick at a time until the back reference fits. */
  function MatchSpan(s: string, k: nat): Option<string> {
    if k == 0 then None else if Fits(s, k) then Some(s[k..|s| - k]) else MatchSpan(s, k - 1)
  }

  function CodeSpan(s: string): Option<string> { MatchSpan(s, LeadingTicks(s)) }

  // ----- parsing a section

  function SplitLines(s: string, line: string): seq<string>
    decreases |s|
  {
    if s == "" then [line]
    else if s[0] == '\n' then [line] + SplitLines(s[1..], "")
    else if s[0] == '\r' && |s| > 1 && s[1] == '\n' then [line] + SplitLines(s[2..], "")
    else SplitLines(s[1..], line + [s[0]])
  }

  /**
   * The letters that ASCII constants are compared with; the Kelvin sign is the one other character that folds to one.
   */
  function LowerChar(c: char): char {
    if 'A' <= c <= 'Z' then (c as int + 32) as char else if c as int == 0x212A then 'k' else c
  }

  function Lower(s: string): string {
    seq(|s|, i requires 0 <= i < |s| => LowerChar(s[i]))
  }

  /** `/^##\s+Verification\s*$/iu` on the trimmed line. */
  predicate IsVerificationHeading(line: string) {
    var t := Trim(line);
    && |t| > 2 && t[0] == '#' && t[1] == '#' && IsSpace(t[2])
    && Lower(TrimStart(t[2..])) == "verification"
  }

  /** `/^#{1,2}\s+/u` on the trimmed line. */
  predicate EndsSection(line: string) {
    var t := Trim(line);
    || (|t| > 1 && t[0] == '#' && IsSpace(t[1]))
    || (|t| > 2 && t[0] == '#' && t[1] == '#' && IsSpace(t[2]))
  }

  function SectionBody(lines: seq<string>): seq<string> {
    if lines == [] || EndsSection(lines[0]) then []
    else if Blank(lines[0]) then SectionBody(lines[1..])
    else [Trim(lines[0])] + SectionBody(lines[1..])
  }

  function SectionOf(lines: seq<string>): Option<seq<string>> {
    if lines == [] then None
    else if IsVerificationHeading(lines[0]) then Some(SectionBody(lines[1..]))
    else SectionOf(lines[1..])
  }

  function VerificationSection(raw: string): Option<seq<string>> { SectionOf(SplitLines(raw, "")) }

  /** `verificationSection` as its two loops perform it. */
  method FindVerificationSection(raw: string) returns (section: Option<seq<string>>)
    ensures section == VerificationSection(raw)
  {
    var lines := SplitLines(raw, "");
    var start := 0;
    assert lines[0..] == lines;
    while start < |lines| && !IsVerificationHeading(lines[start])
      invariant 0 <= start <= |lines|
      invariant SectionOf(lines) == SectionOf(lines[start..])
    {
      assert lines[start..][1..] == lines[start + 1..];
      start := start + 1;
    }
    if start == |lines| {
      return None;
    }
    assert lines[start..][1..] == lines[start + 1..];
    var body := CollectBody(lines[start + 1..]);
    return Some(body);
  }

  method CollectBody(lines: seq<string>) returns (section: seq<string>)
    ensures section == SectionBody(lines)
  {
    hide IsSpace, EndsSection, Trim, Blank;
    section := [];
    for i := 0 to |lines|
      invariant SectionBody(lines) == section + SectionBody(lines[i..])
    {
      assert lines[i..][1..] == lines[i + 1..];
      if EndsSection(lines[i]) {
        break;
      }
      if !Blank(lines[i]) {
        section := section + [Trim(lines[i])];
      }
    }
  }

  // ----- parsing the plan

  function ParseCheck(row: string): Result<Check, PlanError> {
    match SplitTableRow(row)
    case Err(e) => Err(e)
    case Ok(cells) =>
      if |cells| != 3 then Err(WrongCellCount)
      else if CodeSpan(cells[1]).None? then Err(NotInlineCode)
      else if Lower(cells[2]) != "exit code 0" then Err(NotExitZero)
      else Ok(Check(cells[0], CodeSpan(cells[1]).value))
  }

  function ParseChecks(rows: seq<string>): Result<seq<Check>, PlanError> {
    if rows == [] then Ok([])
    else match ParseCheck(rows[0])
      case Err(e) => Err(e)
      case Ok(c) =>
        match ParseChecks(rows[1..])
        case Err(e) => Err(e)
        case Ok(rest) => Ok([c] + rest)
  }

  predicate DividerCell(s: string) {
    var from := if s != "" && s[0] == ':' then 1 else 0;
    var to := if |s| > from && s[|s| - 1] == ':' then |s| - 1 else |s|;
    to - from >= 3 && forall i :: from <= i < to ==> s[i] == '-'
  }

  predicate HeaderAccepted(cells: seq<string>) {
    |cells| == 3 && Lower(cells[0]) == "check" && Lower(cells[1]) == "command" && Lower(cells[2]) == "expected"
  }

  predicate DividerAccepted(cells: seq<string>) {
    |cells| == 3 && forall i :: 0 <= i < 3 ==> DividerCell(cells[i])
  }

  function ParseTable(section: seq<string>): Result<seq<Check>, PlanError> {
    if |section| < 3 then Err(TableTooShort)
    else
      match SplitTableRow(section[0])
      case Err(e) => Err(e)
      case Ok(header) =>
        if !HeaderAccepted(header) then Err(HeaderInvalid)
        else
          match SplitTableRow(section[1])
          case Err(e) => Err(e)
          case Ok(divider) => if !DividerAccepted(divider) then Err(DividerInvalid) else ParseChecks(section[2..])
  }

  function ParseSection(section: seq<string>, policy: seq<Check>): Result<Plan, PlanError> {
    if policy == [] then if section == [EMPTY_DISPOSITION] then Ok(Skipped) else Err(NotExplicitlySkipped)
    else
      match ParseTable(section)
      case Err(e) => Err(e)
      case Ok(checks) => if checks == policy then Ok(Commands(checks)) else Err(NotThePolicyCommands)
  }

  function ParseVerificationPlan(raw: string, policy: seq<Check>): Result<Plan, PlanError> {
    match VerificationSection(raw)
    case None => Err(SectionMissing)
    case Some(section) => ParseSection(section, policy)
  }
}
