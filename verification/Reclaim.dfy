/**
 * The workspace sweep's plan (`src/autonomy/workspace-reclaim.ts`): what one run removes, what it
 * deletes, and what it leaves standing and why.
 */
module Reclaim {
  import opened Prelude
  import opened StableSort
  import opened BranchLanding
  import opened Finite
  import JsObject

  const RECLAIM_MIN_IDLE_MS := 86_400_000
  const RECLAIM_PER_RUN_CAP: nat := 20

  datatype ThreadStatus = Running | Terminal | Unknown | NoThread

  datatype Worktree = Worktree(path: string, branch: Option<string>, threadStatus: ThreadStatus, dirty: bool,
                               lastActivityAt: int)

  datatype Target = Target(path: string, branch: Option<string>, preserveUncommitted: bool)

  datatype Reason =
    | ProtectedPath | StillRunning | StatusUnread | ActiveRecently | HeldByCap
    | ProtectedBranch | CheckedOutInKept | LandingUndetermined | LandingIndeterminate(doubt: Doubt) | NotLanded

  datatype PreservedItem = PreservedItem(subject: string, reason: Reason)

  datatype Input = Input(
    worktrees: seq<Worktree>, branches: seq<string>, landing: map<string, Verdict>, protectedPaths: seq<string>,
    protectedBranches: seq<string>, now: int, minIdleMs: int, maxPerRun: nat)

  datatype Plan = Plan(removeWorktrees: seq<Target>, deleteBranches: seq<string>, preserved: seq<PreservedItem>,
                       truncated: bool)

  // ----- blockers

  predicate IsProtectedPath(path: string, roots: seq<string>) {
    exists i :: 0 <= i < |roots| && (path == roots[i] || roots[i] + "/" <= path)
  }

  function WorktreeBlocker(w: Worktree, input: Input): Option<Reason> {
    if IsProtectedPath(w.path, input.protectedPaths) then Some(ProtectedPath)
    else if w.threadStatus == Running then Some(StillRunning)
    else if w.threadStatus == Unknown then Some(StatusUnread)
    else if input.now - w.lastActivityAt < input.minIdleMs then Some(ActiveRecently)
    else None
  }

  /**
   * A branch without a verdict of its own is undetermined, unless its name is inherited: then no test applies to it.
   */
  function LandingBlocker(branch: string, landing: map<string, Verdict>): Option<Reason> {
    if branch !in landing then if branch in JsObject.INHERITED then None else Some(LandingUndetermined)
    else match landing[branch]
      case Indeterminate(doubt) => Some(LandingIndeterminate(doubt))
      case Outstanding => Some(NotLanded)
      case Landed(_) => None
  }

  function BranchBlocker(branch: string, input: Input, held: set<string>): Option<Reason> {
    if branch in input.protectedBranches then Some(ProtectedBranch)
    else if branch in held then Some(CheckedOutInKept)
    else LandingBlocker(branch, input.landing)
  }

  // ----- worktrees

  predicate Older(a: Worktree, b: Worktree) { a.lastActivityAt < b.lastActivityAt }

  function ByAge(ws: seq<Worktree>): seq<Worktree> { Sort(ws, Older) }

  function TargetOf(w: Worktree): Target { Target(w.path, w.branch, w.dirty) }

  predicate Removable(w: Worktree, input: Input) { WorktreeBlocker(w, input).None? }

  function RemovableOf(ws: seq<Worktree>, input: Input): seq<Worktree> {
    if ws == [] then []
    else if Removable(ws[0], input) then [ws[0]] + RemovableOf(ws[1..], input)
    else RemovableOf(ws[1..], input)
  }

  function KeptOf(ws: seq<Worktree>, input: Input): seq<Worktree> {
    if ws == [] then []
    else if Removable(ws[0], input) then KeptOf(ws[1..], input)
    else [ws[0]] + KeptOf(ws[1..], input)
  }

  function BlockedItems(ws: seq<Worktree>, input: Input): seq<PreservedItem> {
    if ws == [] then []
    else match WorktreeBlocker(ws[0], input)
      case Some(reason) => [PreservedItem(ws[0].path, reason)] + BlockedItems(ws[1..], input)
      case None => BlockedItems(ws[1..], input)
  }

  function TargetsOf(ws: seq<Worktree>): seq<Target> {
    if ws == [] then [] else [TargetOf(ws[0])] + TargetsOf(ws[1..])
  }

  function HeldItems(held: seq<Worktree>): seq<PreservedItem> {
    if held == [] then [] else [PreservedItem(held[0].path, HeldByCap)] + HeldItems(held[1..])
  }

  function Find(ws: seq<Worktree>, path: string): Option<Worktree> {
    if ws == [] then None else if ws[0].path == path then Some(ws[0]) else Find(ws[1..], path)
  }

  /** The observations the held-back paths are looked up as. */
  function Originals(held: seq<Worktree>, ws: seq<Worktree>): seq<Worktree> {
    if held == [] then []
    else match Find(ws, held[0].path)
      case Some(w) => [w] + Originals(held[1..], ws)
      case None => Originals(held[1..], ws)
  }

  function BranchesOf(ws: seq<Worktree>): set<string> {
    if ws == [] then {} else (if ws[0].branch.Some? then {ws[0].branch.value} else {}) + BranchesOf(ws[1..])
  }

  // ----- branches

  function Deletable(branches: seq<string>, input: Input, held: set<string>): seq<string> {
    if branches == [] then []
    else if BranchBlocker(branches[0], input, held).None? then [branches[0]] + Deletable(branches[1..], input, held)
    else Deletable(branches[1..], input, held)
  }

  function BranchItems(branches: seq<string>, input: Input, held: set<string>): seq<PreservedItem> {
    if branches == [] then []
    else match BranchBlocker(branches[0], input, held)
      case Some(reason) => [PreservedItem(branches[0], reason)] + BranchItems(branches[1..], input, held)
      case None => BranchItems(branches[1..], input, held)
  }

  function HeldBranchItems(branches: seq<string>): seq<PreservedItem> {
    if branches == [] then [] else [PreservedItem(branches[0], HeldByCap)] + HeldBranchItems(branches[1..])
  }

  // ----- the plan

  function Candidates(input: Input): seq<Worktree> { RemovableOf(ByAge(input.worktrees), input) }

  function HeldBack(input: Input): seq<Worktree> { Drop(Candidates(input), input.maxPerRun) }

  function PreservedWorktrees(input: Input): seq<PreservedItem> {
    BlockedItems(ByAge(input.worktrees), input) + HeldItems(HeldBack(input))
  }

  function KeptWorktrees(input: Input): seq<Worktree> {
    KeptOf(ByAge(input.worktrees), input) + Originals(HeldBack(input), ByAge(input.worktrees))
  }

  function DeletableOf(input: Input): seq<string> { Deletable(input.branches, input, BranchesOf(KeptWorktrees(input))) }

  function PreservedBranches(input: Input): seq<PreservedItem> {
    BranchItems(input.branches, input, BranchesOf(KeptWorktrees(input)))
    + HeldBranchItems(Drop(DeletableOf(input), input.maxPerRun))
  }

  function PlanReclaim(input: Input): Plan {
    Plan(TargetsOf(Take(Candidates(input), input.maxPerRun)),
         Take(DeletableOf(input), input.maxPerRun),
         PreservedWorktrees(input) + PreservedBranches(input),
         |Candidates(input)| > input.maxPerRun || |DeletableOf(input)| > input.maxPerRun)
  }

  // ----- the plan as its loops make it

  method SortOutWorktrees(byAge: seq<Worktree>, input: Input)
    returns (removable: seq<Target>, keptWorktrees: seq<Worktree>, preserved: seq<PreservedItem>)
    ensures removable == TargetsOf(RemovableOf(byAge, input))
    ensures keptWorktrees == KeptOf(byAge, input)
    ensures preserved == BlockedItems(byAge, input)
  {
    hide WorktreeBlocker;
    removable, keptWorktrees, preserved := [], [], [];
    for i := 0 to |byAge|
      invariant TargetsOf(RemovableOf(byAge, input)) == removable + TargetsOf(RemovableOf(byAge[i..], input))
      invariant KeptOf(byAge, input) == keptWorktrees + KeptOf(byAge[i..], input)
      invariant BlockedItems(byAge, input) == preserved + BlockedItems(byAge[i..], input)
    {
      assert byAge[i..][1..] == byAge[i + 1..];
      var worktree := byAge[i];
      var blocker := WorktreeBlocker(worktree, input);
      if blocker.Some? {
        preserved := preserved + [PreservedItem(worktree.path, blocker.value)];
        keptWorktrees := keptWorktrees + [worktree];
      } else {
        FirstTarget(byAge[i..], input);
        removable := removable + [Target(worktree.path, worktree.branch, worktree.dirty)];
      }
    }
  }

  lemma FirstTarget(ws: seq<Worktree>, input: Input)
    requires ws != [] && Removable(ws[0], input)
    ensures TargetsOf(RemovableOf(ws, input)) == [TargetOf(ws[0])] + TargetsOf(RemovableOf(ws[1..], input))
  {
    var rest := RemovableOf(ws[1..], input);
    assert ([ws[0]] + rest)[1..] == rest;
  }

  /** What the cap holds back is preserved, and its worktree, looked up by path, is kept. */
  method HoldBack(held: seq<Worktree>, byAge: seq<Worktree>)
    returns (preserved: seq<PreservedItem>, keptWorktrees: seq<Worktree>)
    ensures preserved == HeldItems(held) && keptWorktrees == Originals(held, byAge)
  {
    hide Find, HeldItems, Originals;
    NothingHeld(byAge);
    preserved, keptWorktrees := [], [];
    for i := 0 to |held|
      invariant HeldItems(held) == preserved + HeldItems(held[i..])
      invariant Originals(held, byAge) == keptWorktrees + Originals(held[i..], byAge)
    {
      assert held[i..][1..] == held[i + 1..];
      FirstHeld(held[i..], byAge);
      preserved := preserved + [PreservedItem(held[i].path, HeldByCap)];
      var original := Find(byAge, held[i].path);
      if original.Some? {
        keptWorktrees := keptWorktrees + [original.value];
      }
    }
  }

  lemma NothingHeld(ws: seq<Worktree>)
    ensures HeldItems([]) == [] && Originals([], ws) == []
  {
  }

  lemma FirstHeld(held: seq<Worktree>, ws: seq<Worktree>)
    requires held != []
    ensures HeldItems(held) == [PreservedItem(held[0].path, HeldByCap)] + HeldItems(held[1..])
    ensures var found := Find(ws, held[0].path);
            Originals(held, ws)
            == if found.Some? then [found.value] + Originals(held[1..], ws) else Originals(held[1..], ws)
  {
    hide Find;
  }

  method SortOutBranches(input: Input, held: set<string>)
    returns (deletable: seq<string>, preserved: seq<PreservedItem>)
    ensures deletable == Deletable(input.branches, input, held)
    ensures preserved == BranchItems(input.branches, input, held)
  {
    hide BranchBlocker;
    deletable, preserved := [], [];
    for i := 0 to |input.branches|
      invariant Deletable(input.branches, input, held) == deletable + Deletable(input.branches[i..], input, held)
      invariant BranchItems(input.branches, input, held) == preserved + BranchItems(input.branches[i..], input, held)
    {
      assert input.branches[i..][1..] == input.branches[i + 1..];
      var blocker := BranchBlocker(input.branches[i], input, held);
      if blocker.Some? {
        preserved := preserved + [PreservedItem(input.branches[i], blocker.value)];
      } else {
        deletable := deletable + [input.branches[i]];
      }
    }
  }

  method PlanWorkspaceReclaim(input: Input) returns (plan: Plan)
    ensures plan == PlanReclaim(input)
  {
    hide RemovableOf, KeptOf, BlockedItems, TargetsOf, HeldItems, Originals, BranchesOf, Deletable, BranchItems,
         HeldBranchItems, Sort;
    var byAge := Sort(input.worktrees, Older);
    var removable, keptWorktrees, preserved := SortOutWorktrees(byAge, input);
    ghost var candidates := RemovableOf(byAge, input);
    TargetsSplit(candidates, input.maxPerRun);
    var removeWorktrees := Take(removable, input.maxPerRun);
    var heldItems, originals := HoldBack(Drop(RemovableOf(byAge, input), input.maxPerRun), byAge);
    keptWorktrees := keptWorktrees + originals;
    var heldBranches := BranchesOf(keptWorktrees);
    var deletable, branchItems := SortOutBranches(input, heldBranches);
    var deleteBranches := Take(deletable, input.maxPerRun);
    preserved := preserved + heldItems + (branchItems + HeldBranchItems(Drop(deletable, input.maxPerRun)));
    plan := Plan(removeWorktrees, deleteBranches, preserved,
                 |removable| > input.maxPerRun || |deletable| > input.maxPerRun);
  }

  lemma {:induction false} TargetsSplit(ws: seq<Worktree>, n: nat)
    ensures |TargetsOf(ws)| == |ws| && Take(TargetsOf(ws), n) == TargetsOf(Take(ws, n))
    ensures forall i :: 0 <= i < |ws| ==> TargetsOf(ws)[i] == TargetOf(ws[i])
    decreases |ws|
  {
    if ws != [] {
      TargetsSplit(ws[1..], if n == 0 then 0 else n - 1);
      if 0 < n < |ws| {
        assert ws[..n][1..] == ws[1..][..n - 1];
      }
    }
  }

  // ----- membership

  lemma {:induction false} CandidatesAreRemovable(ws: seq<Worktree>, input: Input, w: Worktree)
    ensures w in RemovableOf(ws, input) <==> w in ws && Removable(w, input)
    ensures w in KeptOf(ws, input) <==> w in ws && !Removable(w, input)
  {
    hide Removable;
    if ws != [] {
      CandidatesAreRemovable(ws[1..], input, w);
      assert ws == [ws[0]] + ws[1..];
    }
  }

  lemma ByAgeIsAll(ws: seq<Worktree>)
    ensures multiset(ByAge(ws)) == multiset(ws) && Sorted(ByAge(ws), Older) && forall w :: w in ByAge(ws) <==> w in ws
  {
    SortIsSort(ws, Older);
    assert forall w :: w in ByAge(ws) <==> w in multiset(ByAge(ws));
  }

  /** No two observations of one path. */
  predicate DistinctPaths(ws: seq<Worktree>) {
    forall w, v :: w in ws && v in ws && w.path == v.path ==> w == v
  }

  lemma {:induction false} FindsItself(ws: seq<Worktree>, w: Worktree)
    requires w in ws && DistinctPaths(ws)
    ensures Find(ws, w.path) == Some(w)
  {
    if ws[0] != w {
      assert ws == [ws[0]] + ws[1..];
      FindsItself(ws[1..], w);
    }
  }

  lemma {:induction false} OriginalsHold(held: seq<Worktree>, ws: seq<Worktree>, w: Worktree)
    requires w in held && w in ws && DistinctPaths(ws)
    ensures w in Originals(held, ws)
  {
    hide DistinctPaths;
    if held[0] == w {
      FindsItself(ws, w);
    } else {
      assert held == [held[0]] + held[1..];
      OriginalsHold(held[1..], ws, w);
    }
  }

  lemma {:induction false} BranchesHold(ws: seq<Worktree>, b: string)
    ensures b in BranchesOf(ws) <==> exists w :: w in ws && w.branch == Some(b)
  {
    if ws != [] {
      BranchesHold(ws[1..], b);
      assert ws == [ws[0]] + ws[1..];
    }
  }

  lemma {:induction false} DeletableIsExact(branches: seq<string>, input: Input, held: set<string>, b: string)
    ensures b in Deletable(branches, input, held) <==> b in branches && BranchBlocker(b, input, held).None?
  {
    hide BranchBlocker;
    if branches != [] {
      DeletableIsExact(branches[1..], input, held, b);
      assert branches == [branches[0]] + branches[1..];
    }
  }

  // ----- safety

  /** The plan removes this very observation. */
  ghost predicate Removed(input: Input, w: Worktree) {
    w in Take(Candidates(input), input.maxPerRun)
  }

  lemma RemovedIsPlanned(input: Input, w: Worktree)
    requires Removed(input, w)
    ensures TargetOf(w) in PlanReclaim(input).removeWorktrees && w in input.worktrees && Removable(w, input)
  {
    hide Removable, Deletable, BranchesOf, KeptOf, BlockedItems, BranchItems;
    var taken := Take(Candidates(input), input.maxPerRun);
    TargetsSplit(taken, |taken|);
    var i :| 0 <= i < |taken| && taken[i] == w;
    TakenOrDropped(Candidates(input), input.maxPerRun, w);
    CandidatesAreRemovable(ByAge(input.worktrees), input, w);
    ByAgeIsAll(input.worktrees);
  }

  /** A worktree that is left standing, for whatever reason, holds its branch. */
  lemma StandingHoldsBranch(input: Input, w: Worktree)
    requires w in input.worktrees && DistinctPaths(input.worktrees) && !Removed(input, w) && w.branch.Some?
    ensures w.branch.value in BranchesOf(KeptWorktrees(input))
  {
    hide Removable, RemovableOf, KeptOf, Originals, BranchesOf, Sort, Sorted;
    var byAge := ByAge(input.worktrees);
    ByAgeIsAll(input.worktrees);
    CandidatesAreRemovable(byAge, input, w);
    TakenOrDropped(Candidates(input), input.maxPerRun, w);
    if Removable(w, input) {
      OriginalsHold(HeldBack(input), byAge, w);
    }
    BranchesHold(KeptWorktrees(input), w.branch.value);
  }

  /** No deleted branch is checked out in any worktree left standing, those the cap held back included. */
  lemma DeletedIsCheckedOutNowhere(input: Input, b: string, w: Worktree)
    requires DistinctPaths(input.worktrees) && b in PlanReclaim(input).deleteBranches
    requires w in input.worktrees && w.branch == Some(b)
    ensures Removed(input, w) && TargetOf(w) in PlanReclaim(input).removeWorktrees
  {
    hide Removed, KeptWorktrees, Candidates, Deletable, BranchesOf, PreservedWorktrees, PreservedBranches, TargetsOf,
         DistinctPaths;
    TakenOrDropped(DeletableOf(input), input.maxPerRun, b);
    DeletableIsExact(input.branches, input, BranchesOf(KeptWorktrees(input)), b);
    if !Removed(input, w) {
      StandingHoldsBranch(input, w);
    }
    RemovedIsPlanned(input, w);
  }

  /**
   * A branch may be deleted exactly when it was offered, is not protected, is held by no kept worktree, and has a
   * landed verdict; or has no verdict at all and an inherited name.
   */
  lemma DeletableExactly(input: Input, b: string)
    ensures b in DeletableOf(input)
       <==> && b in input.branches && b !in input.protectedBranches && b !in BranchesOf(KeptWorktrees(input))
            && if b in input.landing then input.landing[b].Landed? else b in JsObject.INHERITED
  {
    hide KeptWorktrees, Deletable, BranchesOf;
    DeletableIsExact(input.branches, input, BranchesOf(KeptWorktrees(input)), b);
  }

  lemma DeletedIsLanded(input: Input, b: string)
    requires b in PlanReclaim(input).deleteBranches
    ensures b in input.branches && b !in input.protectedBranches
    ensures if b in input.landing then input.landing[b].Landed? else b in JsObject.INHERITED
  {
    hide KeptWorktrees, Candidates, DeletableOf, BranchesOf, PreservedWorktrees, PreservedBranches, TargetsOf;
    TakenOrDropped(DeletableOf(input), input.maxPerRun, b);
    DeletableExactly(input, b);
  }

  /** Without a verdict, an inherited name passes every test. */
  lemma InheritedNameIsDeleted()
    ensures var input := Input([], ["constructor"], map[], [], [], 0, RECLAIM_MIN_IDLE_MS, RECLAIM_PER_RUN_CAP);
            PlanReclaim(input).deleteBranches == ["constructor"]
  {
    var input := Input([], ["constructor"], map[], [], [], 0, RECLAIM_MIN_IDLE_MS, RECLAIM_PER_RUN_CAP);
    assert ["constructor"][1..] == [];
    assert KeptWorktrees(input) == [];
    assert BranchBlocker("constructor", input, {}).None?;
    assert Deletable(["constructor"], input, {}) == ["constructor"];
  }

  // ----- by cause

  /** The path is a protected root, or something below one: "/repo2" is neither to "/repo". */
  predicate Guarded(path: string, roots: seq<string>) {
    exists root :: root in roots && (path == root || (|root| < |path| && path[..|root|] == root && path[|root|] == '/'))
  }

  lemma GuardedExactly(path: string, roots: seq<string>)
    ensures IsProtectedPath(path, roots) <==> Guarded(path, roots)
  {
    forall root ensures root + "/" <= path <==> |root| < |path| && path[..|root|] == root && path[|root|] == '/' {
      if |root| < |path| && path[..|root|] == root && path[|root|] == '/' {
        assert path[..|root| + 1] == root + "/";
      }
      if root + "/" <= path {
        assert path[..|root|] == (root + "/")[..|root|] == root && path[|root|] == (root + "/")[|root|];
      }
    }
    if Guarded(path, roots) {
      var root :| root in roots && (path == root || (|root| < |path| && path[..|root|] == root && path[|root|] == '/'));
      var i :| 0 <= i < |roots| && roots[i] == root;
      assert path == roots[i] || roots[i] + "/" <= path;
    }
  }

  /** Why a worktree is blocked, each reason in its turn. */
  predicate BlockedFor(w: Worktree, input: Input, reason: Reason) {
    var guarded := Guarded(w.path, input.protectedPaths);
    match reason
    case ProtectedPath => guarded
    case StillRunning => !guarded && w.threadStatus == Running
    case StatusUnread => !guarded && w.threadStatus == Unknown
    case ActiveRecently =>
      !guarded && w.threadStatus in {Terminal, NoThread} && input.now < w.lastActivityAt + input.minIdleMs
    case _ => false
  }

  lemma BlockedByCause(w: Worktree, input: Input, reason: Reason)
    ensures WorktreeBlocker(w, input) == Some(reason) <==> BlockedFor(w, input, reason)
    ensures Removable(w, input)
       <==> !Guarded(w.path, input.protectedPaths) && w.threadStatus in {Terminal, NoThread}
            && w.lastActivityAt + input.minIdleMs <= input.now
  {
    GuardedExactly(w.path, input.protectedPaths);
  }

  /** Why a branch is not deleted, each reason in its turn. */
  ghost predicate KeptFor(b: string, input: Input, reason: Reason) {
    var landing := if b in input.landing then Some(input.landing[b]) else None;
    if b in input.protectedBranches then reason == ProtectedBranch
    else if Holds(input, b) then reason == CheckedOutInKept
    else match reason
      case LandingUndetermined => landing.None? && b !in JsObject.INHERITED
      case LandingIndeterminate(doubt) => landing == Some(Indeterminate(doubt))
      case NotLanded => landing == Some(Outstanding)
      case _ => false
  }

  lemma {:induction false} BlockedItemsExactly(ws: seq<Worktree>, input: Input, item: PreservedItem)
    ensures item in BlockedItems(ws, input)
       <==> exists w :: w in ws && w.path == item.subject && BlockedFor(w, input, item.reason)
  {
    hide WorktreeBlocker, BlockedFor;
    if ws != [] {
      BlockedItemsExactly(ws[1..], input, item);
      BlockedByCause(ws[0], input, item.reason);
      assert ws == [ws[0]] + ws[1..];
      if WorktreeBlocker(ws[0], input).Some? {
        BlockedByCause(ws[0], input, WorktreeBlocker(ws[0], input).value);
      }
    }
  }

  lemma {:induction false} HeldItemsExactly(held: seq<Worktree>, item: PreservedItem)
    ensures item in HeldItems(held) <==> item.reason == HeldByCap && exists w :: w in held && w.path == item.subject
  {
    if held != [] {
      HeldItemsExactly(held[1..], item);
      assert held == [held[0]] + held[1..];
    }
  }

  lemma {:induction false} BranchItemsExactly(branches: seq<string>, input: Input, item: PreservedItem)
    ensures item in BranchItems(branches, input, BranchesOf(KeptWorktrees(input)))
       <==> item.subject in branches && KeptFor(item.subject, input, item.reason)
  {
    hide BranchBlocker, KeptFor, KeptWorktrees, BranchesOf;
    if branches != [] {
      BranchItemsExactly(branches[1..], input, item);
      KeptByCause(branches[0], input, item.reason);
      assert branches == [branches[0]] + branches[1..];
    }
  }

  lemma KeptByCause(b: string, input: Input, reason: Reason)
    ensures BranchBlocker(b, input, BranchesOf(KeptWorktrees(input))) == Some(reason) <==> KeptFor(b, input, reason)
  {
    hide KeptWorktrees, BranchesOf, Holds;
    HoldsExactly(input, b);
  }

  lemma {:induction false} HeldBranchItemsExactly(branches: seq<string>, item: PreservedItem)
    ensures item in HeldBranchItems(branches) <==> item.reason == HeldByCap && item.subject in branches
  {
    if branches != [] {
      HeldBranchItemsExactly(branches[1..], item);
      assert branches == [branches[0]] + branches[1..];
    }
  }

  /**
   * Everything the plan preserves it preserves for the reason it gives, and everything with a reason is preserved for
   * it.
   */
  lemma PreservedByCause(input: Input, item: PreservedItem)
    ensures item in PlanReclaim(input).preserved
       <==> || (exists w :: w in input.worktrees && w.path == item.subject && BlockedFor(w, input, item.reason))
            || (item.subject in input.branches && KeptFor(item.subject, input, item.reason))
            || (item.reason == HeldByCap
                && ((exists w :: w in HeldBack(input) && w.path == item.subject)
                    || item.subject in Drop(DeletableOf(input), input.maxPerRun)))
  {
    hide BlockedItems, HeldItems, BranchItems, HeldBranchItems, BlockedFor, KeptFor, DeletableOf, KeptWorktrees,
         BranchesOf, HeldBack, TargetsOf, Candidates, Sort, Sorted;
    ByAgeIsAll(input.worktrees);
    BlockedItemsExactly(ByAge(input.worktrees), input, item);
    HeldItemsExactly(HeldBack(input), item);
    BranchItemsExactly(input.branches, input, item);
    HeldBranchItemsExactly(Drop(DeletableOf(input), input.maxPerRun), item);
  }

  /** No path the plan removes is a protected root or lies below one, and each was known to be stopped and idle. */
  lemma RemovedIsUnguarded(input: Input, target: Target)
    requires target in PlanReclaim(input).removeWorktrees
    ensures forall root :: root in input.protectedPaths ==> target.path != root && !(root + "/" <= target.path)
    ensures exists w :: && w in input.worktrees && target == Target(w.path, w.branch, w.dirty)
                        && w.threadStatus in {Terminal, NoThread} && w.lastActivityAt + input.minIdleMs <= input.now
  {
    hide PlanReclaim, Removed, Removable, Guarded, WorktreeBlocker, IsProtectedPath;
    var w := PlannedIsRemoved(input, target);
    RemovedIsPlanned(input, w);
    BlockedByCause(w, input, ProtectedPath);
    GuardsBelow(w.path, input.protectedPaths);
  }

  lemma GuardsBelow(path: string, roots: seq<string>)
    ensures !Guarded(path, roots) ==> forall root :: root in roots ==> path != root && !(root + "/" <= path)
  {
    forall root | root in roots && root + "/" <= path
      ensures |root| < |path| && path[..|root|] == root && path[|root|] == '/'
    {
      assert path[..|root|] == (root + "/")[..|root|] && path[|root|] == (root + "/")[|root|];
    }
  }

  lemma PlannedIsRemoved(input: Input, target: Target) returns (v: Worktree)
    requires target in PlanReclaim(input).removeWorktrees
    ensures Removed(input, v) && TargetOf(v) == target
  {
    hide Candidates, Deletable, BranchesOf, KeptOf, BlockedItems, BranchItems, TargetsOf, PreservedWorktrees,
         PreservedBranches;
    var taken := Take(Candidates(input), input.maxPerRun);
    TargetsSplit(taken, |taken|);
    var i :| 0 <= i < |TargetsOf(taken)| && TargetsOf(taken)[i] == target;
    v := taken[i];
  }

  /**
   * Without a cap in the way, exactly the unguarded worktrees of stopped threads that have been idle long enough go.
   */
  lemma UncappedRemovesExactly(input: Input, w: Worktree)
    requires |Candidates(input)| <= input.maxPerRun
    ensures Removed(input, w)
       <==> && w in input.worktrees && !Guarded(w.path, input.protectedPaths) && w.threadStatus in {Terminal, NoThread}
            && w.lastActivityAt + input.minIdleMs <= input.now
  {
    hide Removable, RemovableOf, Sort, Sorted, Guarded;
    BlockedByCause(w, input, ProtectedPath);
    CandidatesAreRemovable(ByAge(input.worktrees), input, w);
    ByAgeIsAll(input.worktrees);
  }

  /** A kept worktree has this branch: a blocked one, or the first by age on the path of one that was held back. */
  ghost predicate Holds(input: Input, b: string) {
    || (exists w :: w in input.worktrees && !Removable(w, input) && w.branch == Some(b))
    || (exists v ::
          v in HeldBack(input) && FirstOnPath(input, v).Some? && FirstOnPath(input, v).value.branch == Some(b))
  }

  function FirstOnPath(input: Input, v: Worktree): Option<Worktree> { Find(ByAge(input.worktrees), v.path) }

  lemma {:induction false} OriginalsAreFirst(held: seq<Worktree>, ws: seq<Worktree>, w: Worktree)
    ensures w in Originals(held, ws) <==> exists v :: v in held && Find(ws, v.path) == Some(w)
  {
    hide Find;
    if held != [] {
      OriginalsAreFirst(held[1..], ws, w);
      assert held == [held[0]] + held[1..];
    }
  }

  lemma HoldsExactly(input: Input, b: string)
    ensures b in BranchesOf(KeptWorktrees(input)) <==> Holds(input, b)
  {
    hide Removable, KeptOf, Originals, BranchesOf, HeldBack, Sort, Sorted, Find;
    var byAge := ByAge(input.worktrees);
    BranchesHold(KeptWorktrees(input), b);
    ByAgeIsAll(input.worktrees);
    forall w ensures w in KeptWorktrees(input)
                <==> (w in input.worktrees && !Removable(w, input))
                     || exists v :: v in HeldBack(input) && FirstOnPath(input, v) == Some(w)
    {
      CandidatesAreRemovable(byAge, input, w);
      OriginalsAreFirst(HeldBack(input), byAge, w);
    }
  }

  /** With these branches and verdicts the plan deletes the branch of a worktree it leaves standing. */
  ghost predicate Loses(input: Input, branches: seq<string>, landing: map<string, Verdict>, b: string, w: Worktree) {
    var offered := Offering(input, branches, landing);
    b in PlanReclaim(offered).deleteBranches && w in input.worktrees && w.branch == Some(b) && !Removed(offered, w)
  }

  function Offering(input: Input, branches: seq<string>, landing: map<string, Verdict>): Input {
    input.(branches := branches, landing := landing)
  }

  /** Worktrees are sorted out without a look at branches or verdicts. */
  lemma {:induction false} SameCandidates(ws: seq<Worktree>, input: Input, branches: seq<string>,
                                          landing: map<string, Verdict>)
    ensures var offered := Offering(input, branches, landing);
            RemovableOf(ws, offered) == RemovableOf(ws, input) && KeptOf(ws, offered) == KeptOf(ws, input)
  {
    if ws != [] {
      SameCandidates(ws[1..], input, branches, landing);
    }
  }

  /** What every held-back worktree needs for its branch to be safe. */
  ghost predicate HeldBackAreSafe(input: Input) {
    forall w :: w in HeldBack(input) && !Removed(input, w) && w.branch.Some?
      ==> w.branch.value in input.protectedBranches || Holds(input, w.branch.value)
  }

  lemma LosesNothing(input: Input, branches: seq<string>, landing: map<string, Verdict>, b: string, w: Worktree)
    requires HeldBackAreSafe(input)
    ensures !Loses(input, branches, landing, b, w)
  {
    hide Removable, RemovableOf, KeptOf, Originals, BranchesOf, Deletable, PreservedWorktrees, PreservedBranches,
         TargetsOf, Sort, Sorted, Find, Holds;
    var offered := Offering(input, branches, landing);
    SameCandidates(ByAge(input.worktrees), input, branches, landing);
    TakenOrDropped(DeletableOf(offered), input.maxPerRun, b);
    DeletableIsExact(branches, offered, BranchesOf(KeptWorktrees(offered)), b);
    HoldsExactly(input, b);
    ByAgeIsAll(input.worktrees);
    CandidatesAreRemovable(ByAge(input.worktrees), input, w);
    TakenOrDropped(Candidates(input), input.maxPerRun, w);
    if w in input.worktrees && w.branch == Some(b) && !Removable(w, input) {
      BlockedHolds(input, w);
    }
  }

  lemma BlockedHolds(input: Input, w: Worktree)
    requires w in input.worktrees && !Removable(w, input) && w.branch.Some?
    ensures Holds(input, w.branch.value)
  {
    hide Removable, HeldBack, FirstOnPath;
  }

  lemma UnsafeLoses(input: Input, w: Worktree)
    requires input.maxPerRun >= 1 && w in HeldBack(input) && !Removed(input, w) && w.branch.Some?
    requires w.branch.value !in input.protectedBranches && !Holds(input, w.branch.value)
    ensures Loses(input, [w.branch.value], map[w.branch.value := Landed(Ancestor)], w.branch.value, w)
  {
    hide Removable, RemovableOf, KeptOf, Originals, BranchesOf, Deletable, PlanReclaim, Sort, Sorted, Find, Holds;
    var b := w.branch.value;
    var offered := Offering(input, [b], map[b := Landed(Ancestor)]);
    SameCandidates(ByAge(input.worktrees), input, [b], map[b := Landed(Ancestor)]);
    HoldsExactly(input, b);
    DeletableExactly(offered, b);
    OneBranchPlan(offered);
    ByAgeIsAll(input.worktrees);
    TakenOrDropped(Candidates(input), input.maxPerRun, w);
    CandidatesAreRemovable(ByAge(input.worktrees), input, w);
  }

  /**
   * Whatever branches are offered with whatever verdicts, no deleted branch is checked out in a standing worktree:
   * exactly when the cap is zero, or each held-back worktree's branch is protected or held, if not by that worktree
   * itself.
   */
  lemma BranchesAreSafeExactly(input: Input)
    ensures (forall branches, landing, b, w :: !Loses(input, branches, landing, b, w))
       <==> input.maxPerRun == 0 || HeldBackAreSafe(input)
  {
    hide Holds, HeldBack, Removed, Loses;
    if input.maxPerRun == 0 {
      forall branches, landing, b, w ensures !Loses(input, branches, landing, b, w) {
        NothingDeleted(input, branches, landing, b, w);
      }
    } else if HeldBackAreSafe(input) {
      forall branches, landing, b, w ensures !Loses(input, branches, landing, b, w) {
        LosesNothing(input, branches, landing, b, w);
      }
    } else {
      var w :| w in HeldBack(input) && !Removed(input, w) && w.branch.Some?
               && w.branch.value !in input.protectedBranches && !Holds(input, w.branch.value);
      UnsafeLoses(input, w);
    }
  }

  lemma NothingDeleted(input: Input, branches: seq<string>, landing: map<string, Verdict>, b: string, w: Worktree)
    requires input.maxPerRun == 0
    ensures !Loses(input, branches, landing, b, w)
  {
    hide DeletableOf, Candidates, PreservedWorktrees, PreservedBranches;
  }

  lemma OneBranchPlan(input: Input)
    requires |input.branches| == 1 && input.maxPerRun >= 1 && input.branches[0] in DeletableOf(input)
    ensures input.branches[0] in PlanReclaim(input).deleteBranches
  {
    hide KeptWorktrees, BranchesOf, BranchBlocker;
    var held := BranchesOf(KeptWorktrees(input));
    assert input.branches[1..] == [];
    assert Deletable([], input, held) == [];
    assert DeletableOf(input) == [input.branches[0]];
  }

  /** With two observations of one path the lookup finds the wrong one, and a branch still checked out is deleted. */
  lemma DuplicatePathLosesBranch()
    ensures var first := Worktree("p", Some("a"), NoThread, false, 0);
            var second := Worktree("p", Some("b"), NoThread, false, 1);
            var input := Input([first, second], ["b"], map["b" := Landed(Ancestor)], [], [], 10, 5, 1);
            "b" in PlanReclaim(input).deleteBranches && !Removed(input, second)
  {
    hide PlanReclaim;
    var first, second := Worktree("p", Some("a"), NoThread, false, 0), Worktree("p", Some("b"), NoThread, false, 1);
    var input := Input([first, second], ["b"], map["b" := Landed(Ancestor)], [], [], 10, 5, 1);
    SortedStays([first, second], Older);
    hide Sort;
    assert [first, second][1..] == [second] && [second][1..] == [];
    assert [first] + [second] == [first, second];
    assert RemovableOf([second], input) == [second];
    assert RemovableOf([first, second], input) == [first] + RemovableOf([second], input);
    assert KeptOf([second], input) == KeptOf([], input) == [];
    assert KeptOf([first, second], input) == KeptOf([second], input);
    assert HeldBack(input) == [second];
    assert Originals([second], [first, second]) == [first];
    assert KeptWorktrees(input) == [first];
    assert [first][1..] == [];
    assert BranchesOf([first]) == {"a"};
    DeletableExactly(input, "b");
    OneBranchPlan(input);
  }

  // ----- order and accounting

  lemma {:induction false} RemovableStaySorted(ws: seq<Worktree>, input: Input)
    requires Sorted(ws, Older)
    ensures Sorted(RemovableOf(ws, input), Older)
  {
    hide Removable;
    if ws != [] {
      RemovableStaySorted(ws[1..], input);
      var rest := RemovableOf(ws[1..], input);
      forall i | 0 <= i < |rest| ensures !Older(rest[i], ws[0]) {
        CandidatesAreRemovable(ws[1..], input, rest[i]);
        var j :| 0 <= j < |ws[1..]| && ws[1..][j] == rest[i];
        assert ws[j + 1] == rest[i];
      }
    }
  }

  /** Nothing removed is younger than anything the cap held back. */
  lemma RemovedAreOldest(input: Input, w: Worktree, held: Worktree)
    requires Removed(input, w) && held in HeldBack(input)
    ensures w.lastActivityAt <= held.lastActivityAt
  {
    hide RemovableOf, Sort;
    ByAgeIsAll(input.worktrees);
    RemovableStaySorted(ByAge(input.worktrees), input);
    var c := Candidates(input);
    var i :| 0 <= i < |Take(c, input.maxPerRun)| && Take(c, input.maxPerRun)[i] == w;
    var j :| 0 <= j < |HeldBack(input)| && HeldBack(input)[j] == held;
    assert c[i] == w && c[input.maxPerRun + j] == held;
  }

  function PathsOf(ws: seq<Worktree>): seq<string> { if ws == [] then [] else [ws[0].path] + PathsOf(ws[1..]) }

  function TargetPaths(ts: seq<Target>): seq<string> { if ts == [] then [] else [ts[0].path] + TargetPaths(ts[1..]) }

  function Subjects(items: seq<PreservedItem>): seq<string> {
    if items == [] then [] else [items[0].subject] + Subjects(items[1..])
  }

  lemma {:induction false} SubjectsOfConcatenation(a: seq<PreservedItem>, b: seq<PreservedItem>)
    ensures Subjects(a + b) == Subjects(a) + Subjects(b)
  {
    if a == [] {
      assert a + b == b;
    } else {
      assert (a + b)[1..] == a[1..] + b;
      SubjectsOfConcatenation(a[1..], b);
    }
  }

  lemma {:induction false} WorktreesBalance(ws: seq<Worktree>, input: Input)
    ensures multiset(PathsOf(ws))
            == multiset(PathsOf(RemovableOf(ws, input))) + multiset(Subjects(BlockedItems(ws, input)))
  {
    hide WorktreeBlocker;
    if ws != [] {
      WorktreesBalance(ws[1..], input);
      var rest, items := RemovableOf(ws[1..], input), BlockedItems(ws[1..], input);
      if Removable(ws[0], input) {
        assert ([ws[0]] + rest)[1..] == rest;
      } else {
        var item := PreservedItem(ws[0].path, WorktreeBlocker(ws[0], input).value);
        assert ([item] + items)[1..] == items;
      }
    }
  }

  lemma {:induction false} PathsOfConcatenation(a: seq<Worktree>, b: seq<Worktree>)
    ensures PathsOf(a + b) == PathsOf(a) + PathsOf(b)
  {
    if a == [] {
      assert a + b == b;
    } else {
      assert (a + b)[1..] == a[1..] + b;
      PathsOfConcatenation(a[1..], b);
    }
  }

  lemma {:induction false} PathsOfPermutation(a: seq<Worktree>, b: seq<Worktree>)
    requires multiset(a) == multiset(b)
    ensures multiset(PathsOf(a)) == multiset(PathsOf(b))
    decreases |a|
  {
    if a == [] {
      assert |multiset(b)| == 0;
    } else {
      assert a[0] in multiset(b);
      var i :| 0 <= i < |b| && b[i] == a[0];
      TailMultiset(a);
      TakenOut(b, i);
      PathsOfPermutation(a[1..], b[..i] + b[i + 1..]);
    }
  }

  lemma {:induction false} TakenOut(b: seq<Worktree>, i: nat)
    requires i < |b|
    ensures multiset(b[..i] + b[i + 1..]) == multiset(b) - multiset{b[i]}
    ensures multiset(PathsOf(b)) == multiset([b[i].path]) + multiset(PathsOf(b[..i] + b[i + 1..]))
  {
    hide PathsOf;
    var front, back := b[..i], b[i + 1..];
    assert b == front + ([b[i]] + back);
    assert multiset(b) == multiset(front) + (multiset{b[i]} + multiset(back));
    PathsOfConcatenation(front, [b[i]] + back);
    PathsOfConcatenation(front, back);
    PathsOfOneMore(b[i], back);
  }

  lemma PathsOfOneMore(w: Worktree, ws: seq<Worktree>)
    ensures PathsOf([w] + ws) == [w.path] + PathsOf(ws)
  {
    assert ([w] + ws)[1..] == ws;
  }

  lemma {:induction false} HeldItemsNamePaths(held: seq<Worktree>)
    ensures Subjects(HeldItems(held)) == PathsOf(held)
  {
    if held != [] {
      HeldItemsNamePaths(held[1..]);
      var item := PreservedItem(held[0].path, HeldByCap);
      assert ([item] + HeldItems(held[1..]))[1..] == HeldItems(held[1..]);
    }
  }

  lemma {:induction false} TargetsNamePaths(ws: seq<Worktree>)
    ensures TargetPaths(TargetsOf(ws)) == PathsOf(ws)
  {
    if ws != [] {
      TargetsNamePaths(ws[1..]);
      assert ([TargetOf(ws[0])] + TargetsOf(ws[1..]))[1..] == TargetsOf(ws[1..]);
    }
  }

  /** Every observed worktree is accounted for exactly once: removed, or preserved with a reason. */
  lemma EveryWorktreeAccountedFor(input: Input)
    ensures multiset(TargetPaths(PlanReclaim(input).removeWorktrees)) + multiset(Subjects(PreservedWorktrees(input)))
         == multiset(PathsOf(input.worktrees))
  {
    hide RemovableOf, BlockedItems, Sort, DeletableOf, PreservedBranches, Sorted;
    var c, n := Candidates(input), input.maxPerRun;
    ByAgeIsAll(input.worktrees);
    PathsOfPermutation(ByAge(input.worktrees), input.worktrees);
    WorktreesBalance(ByAge(input.worktrees), input);
    TakenAndDroppedPaths(c, n);
    TargetsNamePaths(Take(c, n));
    HeldItemsNamePaths(Drop(c, n));
    SubjectsOfConcatenation(BlockedItems(ByAge(input.worktrees), input), HeldItems(Drop(c, n)));
  }

  lemma TakenAndDroppedPaths(c: seq<Worktree>, n: nat)
    ensures PathsOf(c) == PathsOf(Take(c, n)) + PathsOf(Drop(c, n))
  {
    PathsOfConcatenation(Take(c, n), Drop(c, n));
    assert Take(c, n) + Drop(c, n) == c;
  }

  lemma {:induction false} BranchesBalance(branches: seq<string>, input: Input, held: set<string>)
    ensures multiset(branches)
            == multiset(Deletable(branches, input, held)) + multiset(Subjects(BranchItems(branches, input, held)))
  {
    hide BranchBlocker;
    if branches != [] {
      BranchesBalance(branches[1..], input, held);
      assert branches == [branches[0]] + branches[1..];
      var blocker, items := BranchBlocker(branches[0], input, held), BranchItems(branches[1..], input, held);
      if blocker.Some? {
        assert ([PreservedItem(branches[0], blocker.value)] + items)[1..] == items;
      }
    }
  }

  lemma {:induction false} HeldBranchesNamed(branches: seq<string>)
    ensures Subjects(HeldBranchItems(branches)) == branches
  {
    if branches != [] {
      HeldBranchesNamed(branches[1..]);
      var item := PreservedItem(branches[0], HeldByCap);
      assert ([item] + HeldBranchItems(branches[1..]))[1..] == HeldBranchItems(branches[1..]);
    }
  }

  lemma SplitBalances(all: seq<string>, d: seq<string>, n: nat, kept: seq<string>)
    requires multiset(all) == multiset(d) + multiset(kept)
    ensures multiset(Take(d, n)) + multiset(kept + Drop(d, n)) == multiset(all)
  {
    assert Take(d, n) + Drop(d, n) == d;
  }

  /** And so is every branch: deleted, or preserved with a reason. */
  lemma EveryBranchAccountedFor(input: Input)
    ensures multiset(PlanReclaim(input).deleteBranches) + multiset(Subjects(PreservedBranches(input)))
            == multiset(input.branches)
  {
    hide Deletable, BranchItems, BranchesOf, KeptWorktrees, Candidates, PreservedWorktrees, HeldBranchItems, Subjects,
         Take, Drop, TargetsOf;
    var d, n, held := DeletableOf(input), input.maxPerRun, BranchesOf(KeptWorktrees(input));
    BranchesBalance(input.branches, input, held);
    HeldBranchesNamed(Drop(d, n));
    SubjectsOfConcatenation(BranchItems(input.branches, input, held), HeldBranchItems(Drop(d, n)));
    SplitBalances(input.branches, d, n, Subjects(BranchItems(input.branches, input, held)));
  }

  /** Both lists respect the cap, and the plan says it was truncated exactly when the cap held something back. */
  lemma CapIsHonest(input: Input)
    ensures |PlanReclaim(input).removeWorktrees| <= input.maxPerRun
            && |PlanReclaim(input).deleteBranches| <= input.maxPerRun
    ensures PlanReclaim(input).preserved == PreservedWorktrees(input) + PreservedBranches(input)
    ensures PlanReclaim(input).truncated
       <==> exists item :: item in PlanReclaim(input).preserved && item.reason == HeldByCap
  {
    hide RemovableOf, BlockedItems, Sort, Deletable, BranchItems, BranchesOf, KeptWorktrees;
    TargetsSplit(Take(Candidates(input), input.maxPerRun), 0);
    BlockedNeverCapped(ByAge(input.worktrees), input);
    BranchesNeverCapped(input.branches, input, BranchesOf(KeptWorktrees(input)));
    HeldAreCapped(HeldBack(input), Drop(DeletableOf(input), input.maxPerRun));
  }

  lemma {:induction false} BlockedNeverCapped(ws: seq<Worktree>, input: Input)
    ensures forall item :: item in BlockedItems(ws, input) ==> item.reason != HeldByCap
  {
    if ws != [] {
      BlockedNeverCapped(ws[1..], input);
    }
  }

  lemma {:induction false} BranchesNeverCapped(branches: seq<string>, input: Input, held: set<string>)
    ensures forall item :: item in BranchItems(branches, input, held) ==> item.reason != HeldByCap
  {
    if branches != [] {
      BranchesNeverCapped(branches[1..], input, held);
    }
  }

  lemma HeldAreCapped(held: seq<Worktree>, branches: seq<string>)
    ensures held != [] ==> PreservedItem(held[0].path, HeldByCap) in HeldItems(held)
    ensures held == [] ==> HeldItems(held) == []
    ensures branches != [] ==> PreservedItem(branches[0], HeldByCap) in HeldBranchItems(branches)
    ensures branches == [] ==> HeldBranchItems(branches) == []
  {
  }

  // ----- progress

  /** The worktrees still there after a run over frozen observations. */
  function Remaining(ws: seq<Worktree>, removed: seq<Worktree>): seq<Worktree> {
    if ws == [] then []
    else if ws[0] in removed then Remaining(ws[1..], removed)
    else [ws[0]] + Remaining(ws[1..], removed)
  }

  function AfterRun(input: Input): Input {
    input.(worktrees := Remaining(input.worktrees, Take(Candidates(input), input.maxPerRun)))
  }

  function AfterRuns(input: Input, runs: nat): Input
    decreases runs
  {
    if runs == 0 then input else AfterRuns(AfterRun(input), runs - 1)
  }

  /** The observations are all different. */
  predicate Distinct(ws: seq<Worktree>) {
    forall i, j :: 0 <= i < j < |ws| ==> ws[i] != ws[j]
  }

  function RemovableSet(ws: seq<Worktree>, input: Input): set<Worktree> { set w | w in ws && Removable(w, input) }

  lemma {:induction false} RemainingIsRest(ws: seq<Worktree>, removed: seq<Worktree>)
    ensures forall w :: w in Remaining(ws, removed) <==> w in ws && w !in removed
    ensures Distinct(ws) ==> Distinct(Remaining(ws, removed))
  {
    if ws != [] {
      RemainingIsRest(ws[1..], removed);
      assert ws == [ws[0]] + ws[1..];
    }
  }

  lemma {:induction false} CandidatesAreDistinct(ws: seq<Worktree>, input: Input)
    requires Distinct(ws)
    ensures Distinct(RemovableOf(ws, input)) && |RemovableOf(ws, input)| == |RemovableSet(ws, input)|
  {
    hide Removable;
    if ws != [] {
      CandidatesAreDistinct(ws[1..], input);
      CandidatesAreRemovable(ws[1..], input, ws[0]);
      assert ws == [ws[0]] + ws[1..];
      assert ws[0] !in ws[1..];
      assert RemovableSet(ws, input) == RemovableSet(ws[1..], input) + if Removable(ws[0], input) then {ws[0]} else {};
    }
  }

  lemma {:induction false} DistinctSet(s: seq<Worktree>)
    requires Distinct(s)
    ensures |set w | w in s| == |s|
  {
    if s != [] {
      DistinctSet(s[1..]);
      assert s == [s[0]] + s[1..];
      assert (set w | w in s) == (set w | w in s[1..]) + {s[0]};
    }
  }

  lemma {:induction false} SortedIsDistinct(a: seq<Worktree>, b: seq<Worktree>)
    requires multiset(a) == multiset(b) && Distinct(a)
    ensures Distinct(b)
  {
    forall i, j | 0 <= i < j < |b| ensures b[i] != b[j] {
      if b[i] == b[j] {
        assert b == b[..i] + [b[i]] + b[i + 1..j] + [b[j]] + b[j + 1..];
        assert multiset(b)[b[i]] >= 2;
        OnceEach(a, b[i]);
      }
    }
  }

  lemma {:induction false} OnceEach(a: seq<Worktree>, w: Worktree)
    requires Distinct(a)
    ensures multiset(a)[w] <= 1
  {
    if a != [] {
      OnceEach(a[1..], w);
      assert a == [a[0]] + a[1..];
      assert a[0] !in a[1..];
    }
  }

  function CountRemovable(input: Input): nat { |RemovableSet(input.worktrees, input)| }

  /** One run takes the cap off what is removable, or all of it. */
  lemma RunDrains(input: Input)
    requires Distinct(input.worktrees)
    ensures Distinct(AfterRun(input).worktrees)
    ensures CountRemovable(AfterRun(input))
            == if CountRemovable(input) <= input.maxPerRun then 0 else CountRemovable(input) - input.maxPerRun
  {
    hide Removable, RemovableOf, Sort, Sorted, Distinct;
    var byAge, c := ByAge(input.worktrees), Candidates(input);
    var taken := Take(c, input.maxPerRun);
    ByAgeIsAll(input.worktrees);
    SortedIsDistinct(input.worktrees, byAge);
    CandidatesAreDistinct(byAge, input);
    assert RemovableSet(byAge, input) == RemovableSet(input.worktrees, input);
    PrefixIsDistinct(c, input.maxPerRun);
    DistinctSet(taken);
    RemainingIsRest(input.worktrees, taken);
    var takenSet := set w | w in taken;
    forall w | w in takenSet ensures w in RemovableSet(input.worktrees, input) {
      TakenOrDropped(c, input.maxPerRun, w);
      CandidatesAreRemovable(byAge, input, w);
    }
    SameRules(input, AfterRun(input));
    assert RemovableSet(AfterRun(input).worktrees, AfterRun(input)) == RemovableSet(input.worktrees, input) - takenSet;
  }

  lemma PrefixIsDistinct(s: seq<Worktree>, n: nat)
    requires Distinct(s)
    ensures Distinct(Take(s, n))
  {
  }

  lemma SameRules(input: Input, input': Input)
    requires input'.protectedPaths == input.protectedPaths && input'.now == input.now
             && input'.minIdleMs == input.minIdleMs
    ensures forall w :: Removable(w, input') <==> Removable(w, input)
  {
  }

  /** With cap k, n removable worktrees are drained in n / k runs, rounded up, and no fewer. */
  lemma {:induction false} RunsDrain(input: Input, runs: nat)
    requires Distinct(input.worktrees) && input.maxPerRun >= 1
    ensures var n := CountRemovable(input); var taken := runs * input.maxPerRun;
            CountRemovable(AfterRuns(input, runs)) == if n <= taken then 0 else n - taken
    decreases runs
  {
    hide CountRemovable, Distinct, AfterRun;
    if runs > 0 {
      RunDrains(input);
      CapStays(input);
      RunsDrain(AfterRun(input), runs - 1);
      assert (runs - 1) * input.maxPerRun + input.maxPerRun == runs * input.maxPerRun;
    }
  }

  lemma CapStays(input: Input)
    ensures AfterRun(input).maxPerRun == input.maxPerRun
  {
  }
}
