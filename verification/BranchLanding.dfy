/** Whether a branch's work is in the trunk (`src/autonomy/branch-landing.ts`). */
module BranchLanding {
  import opened Prelude
  import JsText

  datatype CommandResult = Exited(exitCode: int, output: string) | TimedOut | Aborted

  datatype Via = Ancestor | Tree

  /** Why a verdict is left open; the last is the sweep's own, for a probe that never came back. */
  datatype Doubt =
    | AncestryProbeFailed | AncestryProbeExited(exitCode: int) | TrunkTreeUnreadable | MergeProbeFailed
    | MergeTreeUnreadable | ProbeThrew

  datatype Verdict = Landed(via: Via) | Outstanding | Indeterminate(reason: Doubt)

  datatype Probes = Probes(ancestor: CommandResult, mergeTree: CommandResult, trunkTree: CommandResult)

  function FirstLine(s: string): string {
    if s == "" || s[0] == '\n' then "" else [s[0]] + FirstLine(s[1..])
  }

  /** `/^[0-9a-f]{7,64}$/` */
  predicate IsObjectId(s: string) {
    7 <= |s| <= 64 && forall i :: 0 <= i < |s| ==> '0' <= s[i] <= '9' || 'a' <= s[i] <= 'f'
  }

  function ReadObjectId(r: CommandResult): Option<string> {
    if !r.Exited? || r.exitCode != 0 then None
    else
      var first := JsText.Trim(FirstLine(JsText.Trim(r.output)));
      if IsObjectId(first) then Some(first) else None
  }

  function ReadBranchLanding(p: Probes): Verdict {
    if p.ancestor.Exited? && p.ancestor.exitCode == 0 then Landed(Ancestor)
    else if !p.ancestor.Exited? then Indeterminate(AncestryProbeFailed)
    else if p.ancestor.exitCode != 1 then Indeterminate(AncestryProbeExited(p.ancestor.exitCode))
    else
      match ReadObjectId(p.trunkTree)
      case None => Indeterminate(TrunkTreeUnreadable)
      case Some(trunk) =>
        if !p.mergeTree.Exited? then Indeterminate(MergeProbeFailed)
        else if p.mergeTree.exitCode != 0 then Outstanding
        else match ReadObjectId(p.mergeTree)
          case None => Indeterminate(MergeTreeUnreadable)
          case Some(merged) => if merged == trunk then Landed(Tree) else Outstanding
  }

  /** From 7 to 64 lower-case hexadecimal digits. */
  predicate HexId(s: string) {
    6 < |s| < 65 && forall c :: c in s ==> c in "0123456789abcdef"
  }

  /** Trimmed output whose first line is `id` with nothing but spaces around it. */
  ghost predicate Shows(output: string, id: string) {
    exists before, between, rest :: ShownAs(output, before, id, between, rest)
  }

  predicate ShownAs(output: string, before: string, id: string, between: string, rest: string) {
    && output == before + id + between + rest && JsText.Spaces(before) && JsText.Spaces(between)
    && '\n' !in between && (rest == "" || rest[0] == '\n')
  }

  lemma HexIdExactly(s: string)
    ensures IsObjectId(s) <==> HexId(s)
  {
    assert forall i :: 0 <= i < |s| ==> s[i] in s;
    forall c: char ensures '0' <= c <= '9' || 'a' <= c <= 'f' <==> c in "0123456789abcdef" {
    }
  }

  lemma {:induction false} FirstLineSplits(s: string) returns (rest: string)
    ensures s == FirstLine(s) + rest && '\n' !in FirstLine(s) && (rest == "" || rest[0] == '\n')
  {
    if s == "" || s[0] == '\n' {
      rest := s;
    } else {
      rest := FirstLineSplits(s[1..]);
      assert s == [s[0]] + s[1..];
    }
  }

  lemma {:induction false} FirstLineOf(a: string, rest: string)
    requires '\n' !in a && (rest == "" || rest[0] == '\n')
    ensures FirstLine(a + rest) == a
  {
    if a == "" {
      assert a + rest == rest;
    } else {
      assert (a + rest)[1..] == a[1..] + rest;
      FirstLineOf(a[1..], rest);
    }
  }

  lemma {:induction false} HexHasNoSpaces(id: string)
    requires HexId(id)
    ensures forall c :: c in id ==> !JsText.IsSpace(c)
    ensures JsText.Trimmed(id) && '\n' !in id
  {
    forall c | c in id ensures !JsText.IsSpace(c) && c != '\n' {
      assert c in "0123456789abcdef";
    }
    assert id[0] in id && id[|id| - 1] in id;
  }

  /** An object id is read exactly from a successful command whose trimmed output shows it on its first line. */
  lemma {:induction false} ObjectIdExactly(r: CommandResult, id: string)
    ensures ReadObjectId(r) == Some(id) <==> r.Exited? && r.exitCode == 0 && HexId(id) && Shows(r.output, id)
  {
    hide IsObjectId, HexId, JsText.IsSpace;
    if r.Exited? && r.exitCode == 0 {
      HexIdExactly(id);
      if HexId(id) && Shows(r.output, id) {
        var before, between, rest :| ShownAs(r.output, before, id, between, rest);
        ShownIsRead(before, id, between, rest);
      }
      if ReadObjectId(r) == Some(id) {
        ReadIsShown(r.output, id);
      }
    }
  }

  lemma {:induction false} ShownIsRead(before: string, id: string, between: string, rest: string)
    requires HexId(id) && JsText.Spaces(before) && JsText.Spaces(between) && '\n' !in between
    requires rest == "" || rest[0] == '\n'
    ensures JsText.Trim(FirstLine(JsText.Trim(before + id + between + rest))) == id
  {
    hide JsText.IsSpace, FirstLine;
    HexHasNoSpaces(id);
    assert id[0] in id && id[|id| - 1] in id && |id| > 0;
    hide HexId;
    var u := id + between + rest;
    assert before + id + between + rest == before + u;
    JsText.TrimStartUnpads(before, u);
    var after := JsText.TrimEndExactly(u);
    var t := JsText.TrimEnd(u);
    assert u[|id| - 1] == id[|id| - 1];
    if |t| < |id| {
      TailIsSpace(u, t, after, |id| - 1);
    }
    var n := |t| - |id|;
    var kept := if n <= |between| then between[..n] else between;
    var beyond := if n <= |between| then "" else rest[..n - |between|];
    assert t == u[..|t|] == (id + kept) + beyond;
    FirstLineOf(id + kept, beyond);
    assert id + kept == "" + id + kept;
    JsText.Unpadded("", id, kept);
  }

  lemma TailIsSpace(u: string, t: string, after: string, k: nat)
    requires u == t + after && JsText.Spaces(after) && |t| <= k < |u|
    ensures JsText.IsSpace(u[k])
  {
    hide JsText.IsSpace;
    assert after[k - |t|] == u[k];
    assert u[k] in after;
  }

  lemma {:induction false} ReadIsShown(output: string, id: string)
    requires JsText.Trim(FirstLine(JsText.Trim(output))) == id && HexId(id)
    ensures Shows(output, id)
  {
    hide JsText.IsSpace, JsText.Trim, JsText.Spaces, FirstLine, HexId, JsText.Trimmed, ShownAs;
    var t := JsText.Trim(output);
    JsText.TrimExactly(output, t);
    var start, end :| JsText.Spaces(start) && JsText.Spaces(end) && output == start + t + end;
    var first := FirstLine(t);
    var rest := FirstLineSplits(t);
    JsText.TrimExactly(first, id);
    var x, y :| JsText.Spaces(x) && JsText.Spaces(y) && first == x + id + y;
    Pieces(output, start, x, id, y, rest, end);
  }

  lemma {:induction false} Pieces(output: string, start: string, x: string, id: string, y: string, rest: string,
                                  end: string)
    requires output == start + (x + id + y + rest) + end && '\n' !in x + id + y && (rest == "" || rest[0] == '\n')
    requires JsText.Spaces(start) && JsText.Spaces(end) && JsText.Spaces(x) && JsText.Spaces(y)
    ensures Shows(output, id)
  {
    hide JsText.IsSpace, FirstLine;
    if rest == "" {
      var beyond := FirstLineSplits(end);
      var line := FirstLine(end);
      assert forall c :: c in line ==> c in end;
      assert output == (start + x) + id + (y + line) + beyond;
      assert ShownAs(output, start + x, id, y + line, beyond);
    } else {
      assert output == (start + x) + id + y + (rest + end);
      assert ShownAs(output, start + x, id, y, rest + end);
    }
  }

  /** The positive proofs: the tip is reachable from the trunk, or merging it would leave the trunk's own tree. */
  predicate ProvesLanded(p: Probes) {
    || (p.ancestor.Exited? && p.ancestor.exitCode == 0)
    || (p.ancestor.Exited? && p.ancestor.exitCode == 1 && ReadObjectId(p.trunkTree).Some?
        && ReadObjectId(p.trunkTree) == ReadObjectId(p.mergeTree))
  }

  /** The negative proofs: a merge that conflicts, or one that changes the trunk's tree. */
  predicate ProvesOutstanding(p: Probes) {
    && p.ancestor.Exited? && p.ancestor.exitCode == 1 && ReadObjectId(p.trunkTree).Some? && p.mergeTree.Exited?
    && (p.mergeTree.exitCode != 0
        || (ReadObjectId(p.mergeTree).Some? && ReadObjectId(p.trunkTree) != ReadObjectId(p.mergeTree)))
  }

  /** Why a verdict is left open, each doubt in its turn. */
  predicate Doubts(p: Probes, reason: Doubt) {
    var decided := p.ancestor.Exited? && p.ancestor.exitCode == 1;
    var trunk := ReadObjectId(p.trunkTree).Some?;
    match reason
    case AncestryProbeFailed => !p.ancestor.Exited?
    case AncestryProbeExited(code) => p.ancestor.Exited? && p.ancestor.exitCode == code && code != 0 && code != 1
    case TrunkTreeUnreadable => decided && !trunk
    case MergeProbeFailed => decided && trunk && !p.mergeTree.Exited?
    case MergeTreeUnreadable =>
      decided && trunk && p.mergeTree.Exited? && p.mergeTree.exitCode == 0 && ReadObjectId(p.mergeTree).None?
    case ProbeThrew => false
  }

  /**
   * The verdict is landed exactly on a positive proof, outstanding exactly on a negative one, and otherwise left open
   * for the doubt that is in its way.
   */
  lemma VerdictIsExact(p: Probes)
    ensures ReadBranchLanding(p).Landed? <==> ProvesLanded(p)
    ensures ReadBranchLanding(p).Outstanding? <==> ProvesOutstanding(p)
    ensures ReadBranchLanding(p) == Landed(Ancestor) <==> p.ancestor.Exited? && p.ancestor.exitCode == 0
    ensures forall reason :: ReadBranchLanding(p) == Indeterminate(reason) <==> Doubts(p, reason)
  {
    hide IsObjectId, FirstLine, JsText.Trim;
  }
}
