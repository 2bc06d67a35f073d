/**
 * One project's sweep (`src/services/workspace-housekeeping-service.ts`): probing what has landed, planning, and
 * carrying the plan out against a repository where any single command may fail.
 */
module WorkspaceSweep {
  import opened Prelude
  import opened BranchLanding
  import opened Finite
  import opened Reclaim

  datatype Project = Project(
    worktrees: seq<Worktree>, allBranches: seq<string>, protectedPaths: seq<string>, protectedBranches: seq<string>,
    now: int)

  /** What git answers: the probes of a branch, or None when probing threw; and which commands go through. */
  datatype World = World(
    probe: string -> Option<Probes>, saves: string -> bool, removes: string -> bool, deletes: string -> bool)

  // ----- planning

  function VerdictOn(probed: Option<Probes>): Verdict {
    match probed
    case Some(probes) => ReadBranchLanding(probes)
    case None => Indeterminate(ProbeThrew)
  }

  function Unprotected(branches: seq<string>, protectedBranches: seq<string>): seq<string> {
    if branches == [] then []
    else if branches[0] in protectedBranches then Unprotected(branches[1..], protectedBranches)
    else [branches[0]] + Unprotected(branches[1..], protectedBranches)
  }

  function PlanInput(project: Project, world: World): Input {
    var branches := Unprotected(project.allBranches, project.protectedBranches);
    Input(project.worktrees, branches, map b | b in branches :: VerdictOn(world.probe(b)), project.protectedPaths,
          project.protectedBranches, project.now, RECLAIM_MIN_IDLE_MS, RECLAIM_PER_RUN_CAP)
  }

  method PlanFor(project: Project, world: World) returns (plan: Plan)
    ensures plan == PlanReclaim(PlanInput(project, world))
  {
    hide PlanReclaim, VerdictOn;
    var branches := Unprotected(project.allBranches, project.protectedBranches);
    var landing: map<string, Verdict> := map[];
    for i := 0 to |branches|
      invariant landing == map b | b in branches[..i] :: VerdictOn(world.probe(b))
    {
      assert branches[..i + 1] == branches[..i] + [branches[i]];
      landing := landing[branches[i] := VerdictOn(world.probe(branches[i]))];
    }
    assert branches[..|branches|] == branches;
    plan := PlanWorkspaceReclaim(
      Input(project.worktrees, branches, landing, project.protectedPaths, project.protectedBranches, project.now,
            RECLAIM_MIN_IDLE_MS, RECLAIM_PER_RUN_CAP));
  }

  // ----- carrying the plan out

  /** A worktree goes once its uncommitted work, if any, is saved and the removal itself goes through. */
  predicate Goes(target: Target, world: World) {
    (target.preserveUncommitted ==> world.saves(target.path)) && world.removes(target.path)
  }

  function Gone(targets: seq<Target>, world: World): seq<string> {
    if targets == [] then []
    else if Goes(targets[0], world) then [targets[0].path] + Gone(targets[1..], world)
    else Gone(targets[1..], world)
  }

  /** The branches of the worktrees that would not go. */
  function StillHeld(targets: seq<Target>, world: World): set<string> {
    if targets == [] then {}
    else (if !Goes(targets[0], world) && targets[0].branch.Some? then {targets[0].branch.value} else {})
         + StillHeld(targets[1..], world)
  }

  function Deleted(branches: seq<string>, held: set<string>, world: World): seq<string> {
    if branches == [] then []
    else if branches[0] !in held && world.deletes(branches[0]) then [branches[0]] + Deleted(branches[1..], held, world)
    else Deleted(branches[1..], held, world)
  }

  method RemoveWorktrees(targets: seq<Target>, world: World) returns (removed: seq<string>, stillHeld: set<string>)
    ensures removed == Gone(targets, world) && stillHeld == StillHeld(targets, world)
  {
    removed, stillHeld := [], {};
    for i := 0 to |targets|
      invariant Gone(targets, world) == removed + Gone(targets[i..], world)
      invariant StillHeld(targets, world) == stillHeld + StillHeld(targets[i..], world)
    {
      assert targets[i..][1..] == targets[i + 1..];
      var target := targets[i];
      if target.preserveUncommitted && !world.saves(target.path) {
        if target.branch.Some? {
          stillHeld := stillHeld + {target.branch.value};
        }
      } else if world.removes(target.path) {
        removed := removed + [target.path];
      } else if target.branch.Some? {
        stillHeld := stillHeld + {target.branch.value};
      }
    }
  }

  method Apply(plan: Plan, world: World) returns (removed: seq<string>, deleted: seq<string>)
    ensures removed == Gone(plan.removeWorktrees, world)
    ensures deleted == Deleted(plan.deleteBranches, StillHeld(plan.removeWorktrees, world), world)
  {
    hide Gone, StillHeld;
    var branches := plan.deleteBranches;
    var stillHeld;
    removed, stillHeld := RemoveWorktrees(plan.removeWorktrees, world);
    deleted := [];
    for i := 0 to |branches|
      invariant Deleted(branches, stillHeld, world) == deleted + Deleted(branches[i..], stillHeld, world)
    {
      assert branches[i..][1..] == branches[i + 1..];
      if branches[i] !in stillHeld && world.deletes(branches[i]) {
        deleted := deleted + [branches[i]];
      }
    }
  }

  // ----- what a sweep may do

  ghost function SweptPaths(project: Project, world: World): seq<string> {
    Gone(PlanReclaim(PlanInput(project, world)).removeWorktrees, world)
  }

  ghost function SweptBranches(project: Project, world: World): seq<string> {
    var plan := PlanReclaim(PlanInput(project, world));
    Deleted(plan.deleteBranches, StillHeld(plan.removeWorktrees, world), world)
  }

  lemma {:induction false} UnprotectedIsExact(branches: seq<string>, protectedBranches: seq<string>, b: string)
    ensures b in Unprotected(branches, protectedBranches) <==> b in branches && b !in protectedBranches
  {
    if branches != [] {
      UnprotectedIsExact(branches[1..], protectedBranches, b);
      assert branches == [branches[0]] + branches[1..];
    }
  }

  lemma {:induction false} DeletedIsExact(branches: seq<string>, held: set<string>, world: World, b: string)
    ensures b in Deleted(branches, held, world) <==> b in branches && b !in held && world.deletes(b)
  {
    if branches != [] {
      DeletedIsExact(branches[1..], held, world, b);
      assert branches == [branches[0]] + branches[1..];
    }
  }

  lemma {:induction false} GoneIsExact(targets: seq<Target>, world: World, path: string)
    ensures path in Gone(targets, world)
       <==> exists target :: target in targets && Goes(target, world) && target.path == path
  {
    hide Goes;
    if targets != [] {
      GoneIsExact(targets[1..], world, path);
      assert targets == [targets[0]] + targets[1..];
    }
  }

  lemma {:induction false} StuckHoldsBranch(targets: seq<Target>, world: World, target: Target)
    requires target in targets && !Goes(target, world) && target.branch.Some?
    ensures target.branch.value in StillHeld(targets, world)
  {
    hide Goes;
    if targets[0] != target {
      assert targets == [targets[0]] + targets[1..];
      StuckHoldsBranch(targets[1..], world, target);
    }
  }

  /**
   * The sweep fails closed. Every branch it deletes is unprotected and was probed to the end with a positive proof that
   * its work has landed: a probe that throws, like one that cannot be read, keeps its branch.
   */
  lemma DeletedIsProvedLanded(project: Project, world: World, b: string)
    requires b in SweptBranches(project, world)
    ensures b in project.allBranches && b !in project.protectedBranches
    ensures world.probe(b).Some? && ProvesLanded(world.probe(b).value)
  {
    hide PlanReclaim, ReadBranchLanding, ProvesLanded, Unprotected, Deleted;
    var input := PlanInput(project, world);
    var plan := PlanReclaim(input);
    DeletedIsExact(plan.deleteBranches, StillHeld(plan.removeWorktrees, world), world, b);
    DeletedIsLanded(input, b);
    UnprotectedIsExact(project.allBranches, project.protectedBranches, b);
    if world.probe(b).Some? {
      VerdictIsExact(world.probe(b).value);
    }
  }

  /**
   * Whichever commands fail, a branch is deleted only when no worktree left standing has it checked out: each worktree
   * that had it is gone, with its uncommitted work saved first.
   */
  lemma DeletedBranchIsCheckedOutNowhere(project: Project, world: World, b: string, w: Worktree)
    requires DistinctPaths(project.worktrees) && b in SweptBranches(project, world)
    requires w in project.worktrees && w.branch == Some(b)
    ensures w.path in SweptPaths(project, world) && (w.dirty ==> world.saves(w.path))
  {
    hide PlanReclaim, Unprotected, Deleted, StillHeld, Gone, DistinctPaths, VerdictOn, Removed;
    var input := PlanInput(project, world);
    var plan := PlanReclaim(input);
    DeletedIsExact(plan.deleteBranches, StillHeld(plan.removeWorktrees, world), world, b);
    DeletedIsCheckedOutNowhere(input, b, w);
    if !Goes(TargetOf(w), world) {
      StuckHoldsBranch(plan.removeWorktrees, world, TargetOf(w));
    }
    GoneIsExact(plan.removeWorktrees, world, w.path);
  }

  /** Whatever a sweep removes was free to go, and its uncommitted work is saved. */
  lemma RemovedIsSaved(project: Project, world: World, w: Worktree)
    requires DistinctPaths(project.worktrees) && w in project.worktrees && w.path in SweptPaths(project, world)
    ensures Removed(PlanInput(project, world), w) && Removable(w, PlanInput(project, world))
    ensures w.dirty ==> world.saves(w.path)
  {
    hide Unprotected, Gone, VerdictOn, Removable, Deletable, BranchesOf, KeptOf, BlockedItems, BranchItems, Candidates,
         Take, TargetsOf, PreservedWorktrees, PreservedBranches;
    var input := PlanInput(project, world);
    var targets := PlanReclaim(input).removeWorktrees;
    GoneIsExact(targets, world, w.path);
    var target :| target in targets && Goes(target, world) && target.path == w.path;
    var v := PlannedIsRemoved(input, target);
    RemovedIsPlanned(input, v);
  }

  /**
   * Nothing a sweep removes is a protected root or lies below one: not the project's own checkout, nor anything in it.
   */
  lemma SweptIsUnguarded(project: Project, world: World, path: string, root: string)
    requires path in SweptPaths(project, world) && root in project.protectedPaths
    ensures path != root && !(root + "/" <= path)
  {
    hide PlanReclaim, Gone, VerdictOn, Unprotected;
    var input := PlanInput(project, world);
    GoneIsExact(PlanReclaim(input).removeWorktrees, world, path);
    var target :| target in PlanReclaim(input).removeWorktrees && Goes(target, world) && target.path == path;
    RemovedIsUnguarded(input, target);
  }

  /**
   * A sweep plans for at most twenty worktrees, the oldest of those free to go; when there are no more than twenty it
   * plans for each of them: unguarded, of a stopped thread, and idle for a day.
   */
  lemma SweepTakesExactly(project: Project, world: World, w: Worktree)
    ensures |PlanReclaim(PlanInput(project, world)).removeWorktrees| <= 20
    ensures |PlanReclaim(PlanInput(project, world)).deleteBranches| <= 20
    ensures |Candidates(PlanInput(project, world))| <= 20 ==>
              (Removed(PlanInput(project, world), w)
               <==> && w in project.worktrees && !Guarded(w.path, project.protectedPaths)
                    && w.threadStatus in {Terminal, NoThread} && w.lastActivityAt + 24 * 3_600_000 <= project.now)
  {
    hide PlanReclaim, Removed, Candidates, Guarded, VerdictOn, Unprotected;
    var input := PlanInput(project, world);
    CapIsHonest(input);
    if |Candidates(input)| <= 20 {
      UncappedRemovesExactly(input, w);
    }
  }

  /** A branch whose probe threw is preserved, and the report says that the probe is why, unless a worktree holds it. */
  lemma ThrownProbeIsReported(project: Project, world: World, b: string)
    requires b in project.allBranches && b !in project.protectedBranches && world.probe(b).None?
    ensures b !in SweptBranches(project, world)
    ensures PreservedItem(b,
                          if Holds(PlanInput(project, world), b)
                            then CheckedOutInKept else LandingIndeterminate(ProbeThrew))
            in PlanReclaim(PlanInput(project, world)).preserved
  {
    hide PlanReclaim, SweptBranches, Unprotected, Holds, Drop, HeldBack, BlockedFor;
    var input := PlanInput(project, world);
    UnprotectedIsExact(project.allBranches, project.protectedBranches, b);
    PreservedByCause(input,
                     PreservedItem(b, if Holds(input, b) then CheckedOutInKept else LandingIndeterminate(ProbeThrew)));
    if b in SweptBranches(project, world) {
      DeletedIsProvedLanded(project, world, b);
    }
  }
}
