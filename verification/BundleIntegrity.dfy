/**
 * `collectFiles` and `verifyFiles` of `src/agent-skills/bundle-integrity.js`, in place: the walk
 * over its stack and its entry counter, and the two-way comparison with the lock.
 */
module BundleIntegrity {
  import opened Prelude
  import opened JsText
  import opened StableSort
  import opened BundleWalk

  /** `pending` and `traversal.entries`; the ghost fields record every path added, and those popped since. */
  class Traversal {
    var pending: seq<Entry>
    var entries: nat
    ghost var seen: map<string, nat>
    ghost var done: set<string>

    constructor ()
      ensures pending == [] && entries == 0 && seen == map[] && done == {}
    {
      pending, entries, seen, done := [], 0, map[], {};
    }

    method AddTreeEntry(entry: Entry) returns (error: Option<WalkError>)
      requires entry.path !in seen && entries == |seen|
      modifies `pending, `entries, `seen
      ensures error == (if entry.depth > MAX_TREE_DEPTH then Some(DepthExceeded)
                        else if old(entries) >= MAX_TREE_ENTRIES then Some(EntriesExceeded) else None)
      ensures error.None? ==>
                pending == old(pending) + [entry] && entries == old(entries) + 1
                && seen == old(seen)[entry.path := entry.depth]
      ensures error.None? ==> entries == |seen| <= MAX_TREE_ENTRIES
      ensures error.Some? ==> pending == old(pending) && seen == old(seen)
    {
      if entry.depth > MAX_TREE_DEPTH {
        return Some(DepthExceeded);
      }
      entries := entries + 1;
      if entries > MAX_TREE_ENTRIES {
        return Some(EntriesExceeded);
      }
      pending := pending + [entry];
      assert |seen[entry.path := entry.depth].Keys| == |seen.Keys + {entry.path}| == |seen| + 1;
      seen := seen[entry.path := entry.depth];
      return None;
    }

    /** The next root. */
    method AddRoot(fs: FileSystem, roots: seq<string>, i: nat) returns (error: Option<WalkError>)
      requires i < |roots| && RootsApart(roots) && Inv(fs, roots, i, pending, seen, {}, None) && entries == |seen|
      modifies `pending, `entries, `seen
      ensures error.Some? ==> Faulty(fs, roots, error.value)
      ensures error.None? ==> fs.node(roots[i]).Directory? && Inv(fs, roots, i + 1, pending, seen, {}, None)
      ensures error.None? ==> entries == |seen| <= MAX_TREE_ENTRIES
    {
      hide Inv, RootsApart, Faulty, Under;
      RootKeepsInv(fs, roots, i, pending, seen);
      var node := fs.node(roots[i]);
      if !node.Directory? {
        RootsMustBeDirectories(fs, roots, i);
        return Some(RootFault(node));
      }
      ghost var pendingBefore, seenBefore := pending, seen;
      error := AddTreeEntry(Entry(roots[i], 0));
      if error.Some? {
        RootIsUnder(fs, roots, i);
        TooManyEntries(fs, roots, i, pendingBefore, seenBefore, {}, None, roots[i], 0);
      }
    }

    /** The next entry of the directory at `path`: one of the budget, and one on the stack. */
    method AddChild(fs: FileSystem, roots: seq<string>, path: string, depth: nat, k: nat)
      returns (error: Option<WalkError>)
      requires WellNamed(fs) && RootsApart(roots)
      requires fs.node(path).Directory? && forall j :: 0 <= j <= k ==> fs.node(path).entry(j).Some?
      requires Inv(fs, roots, |roots|, pending, seen, done, Some((path, k))) && path in seen && seen[path] == depth
      requires entries == |seen| <= MAX_TREE_ENTRIES
      modifies `pending, `entries, `seen
      ensures error.Some? ==> Faulty(fs, roots, error.value)
      ensures error.None? ==>
                Inv(fs, roots, |roots|, pending, seen, done, Some((path, k + 1))) && path in seen && seen[path] == depth
      ensures error.None? ==>
                old(entries) + 1 == entries == |seen| <= MAX_TREE_ENTRIES && |pending| == old(|pending|) + 1
    {
      hide Inv, WellNamed, RootsApart, Faulty, ChildAt, Under;
      var child := path + "/" + fs.node(path).entry(k).value;
      EntryIsChild(fs, path, k);
      NextIsNew(fs, roots, pending, seen, done, path, k, child);
      SeenIsUnder(fs, roots, |roots|, pending, seen, done, Some((path, k)), path);
      OneLevelDown(fs, roots, path, depth, k, child);
      ghost var pendingBefore, seenBefore := pending, seen;
      error := AddTreeEntry(Entry(child, depth + 1));
      if error.None? {
        AddKeepsInv(fs, roots, pendingBefore, seenBefore, done, path, k, child);
      } else if depth + 1 > MAX_TREE_DEPTH {
        TooDeep(fs, roots, child, depth + 1);
      } else {
        TooManyEntries(fs, roots, |roots|, pendingBefore, seenBefore, done, Some((path, k)), child, depth + 1);
      }
    }

    /**
     * Reads a directory, which may be endless, until it ends or the budget does. Twice the budget left plus the stack
     * never goes up, so it goes down over every turn of the walk, which pops one entry first.
     */
    method AddDirectoryChildren(fs: FileSystem, roots: seq<string>, path: string, depth: nat)
      returns (error: Option<WalkError>)
      requires WellNamed(fs) && RootsApart(roots) && fs.node(path).Directory?
      requires Inv(fs, roots, |roots|, pending, seen, done, Some((path, 0))) && path in seen && seen[path] == depth
      requires entries == |seen| <= MAX_TREE_ENTRIES
      modifies `pending, `entries, `seen
      ensures error.Some? ==> Faulty(fs, roots, error.value)
      ensures error.None? ==>
                Inv(fs, roots, |roots|, pending, seen, done, None) && entries == |seen| <= MAX_TREE_ENTRIES
      ensures error.None? ==>
                2 * (MAX_TREE_ENTRIES - entries) + |pending| <= old(2 * (MAX_TREE_ENTRIES - entries) + |pending|)
    {
      hide Inv, WellNamed, RootsApart, Faulty;
      var k := 0;
      while fs.node(path).entry(k).Some?
        invariant forall j :: 0 <= j < k ==> fs.node(path).entry(j).Some?
        invariant Inv(fs, roots, |roots|, pending, seen, done, Some((path, k))) && path in seen && seen[path] == depth
        invariant entries == |seen| <= MAX_TREE_ENTRIES
        invariant 2 * (MAX_TREE_ENTRIES - entries) + |pending| <= old(2 * (MAX_TREE_ENTRIES - entries) + |pending|)
        decreases MAX_TREE_ENTRIES - entries
      {
        error := AddChild(fs, roots, path, depth, k);
        if error.Some? {
          return;
        }
        k := k + 1;
      }
      DirectoryIsRead(fs, roots, pending, seen, done, path, k);
      return None;
    }

    /** Pops the top of the stack, unless it is something the walk stops at. */
    method Pop(fs: FileSystem, roots: seq<string>, files: seq<string>)
      returns (current: Entry, error: Option<WalkError>)
      requires pending != [] && Inv(fs, roots, |roots|, pending, seen, done, None) && Collected(fs, done, files)
      modifies `pending, `done
      ensures current == old(pending[|pending| - 1])
      ensures error.Some? ==> Faulty(fs, roots, error.value)
      ensures error.None? ==>
                && pending == old(pending[..|pending| - 1]) && current.path in seen
                && seen[current.path] == current.depth
                && Acceptable(fs.node(current.path)) && (fs.node(current.path).Regular? ==> |files| < MAX_LOCKED_FILES)
                && Inv(fs, roots, |roots|, pending, seen, done,
                       if fs.node(current.path).Directory? then Some((current.path, 0)) else None)
                && Collected(fs, done, if fs.node(current.path).Regular? then files + [current.path] else files)
    {
      hide Inv, Faulty, Under, Collected;
      current := pending[|pending| - 1];
      var node := fs.node(current.path);
      PendingIsUnder(fs, roots, pending, seen, done, current);
      if !Acceptable(node) {
        Unacceptable(fs, roots, current.path, current.depth);
        return current, Some(FaultOf(node));
      }
      if node.Regular? && |files| >= MAX_LOCKED_FILES {
        TooManyRegular(fs, roots, pending, seen, done, files, current);
        return current, Some(TooManyFiles);
      }
      PopKeepsInv(fs, roots, pending, seen, done);
      CollectedAfterPop(fs, done, files, current.path);
      pending, done := pending[..|pending| - 1], done + {current.path};
      return current, None;
    }
  }

  lemma EntryIsChild(fs: FileSystem, p: string, k: nat)
    requires fs.node(p).Directory? && forall j :: 0 <= j <= k ==> fs.node(p).entry(j).Some?
    ensures ChildAt(fs, p, k, p + "/" + fs.node(p).entry(k).value)
  {
  }

  lemma OneLevelDown(fs: FileSystem, roots: seq<string>, d: string, n: nat, k: nat, c: string)
    requires Under(fs, roots, d, n) && ChildAt(fs, d, k, c)
    ensures Under(fs, roots, c, n + 1)
  {
    hide ChildAt;
    assert Child(fs, d, c);
  }

  /**
   * The walk ends on every file system, even an infinite one. It succeeds exactly when the tree under the roots fits
   * the limits, and then it returns every regular file under the roots exactly once, sorted.
   */
  method CollectFiles(fs: FileSystem, roots: seq<string>) returns (result: Result<seq<string>, WalkError>)
    requires WellNamed(fs) && RootsApart(roots)
    ensures result.Ok? <==> TreeFits(fs, roots)
    ensures result.Err? ==> Faulty(fs, roots, result.error)
    ensures result.Ok? ==> forall p :: multiset(result.value)[p] == if FileUnder(fs, roots, p) then 1 else 0
    ensures result.Ok? ==> Sorted(result.value, TextLess)
  {
    hide Inv, WellNamed, RootsApart, Faulty, TreeFits, FileUnder, Collected, Sorted, Sort, Acceptable;
    var traversal := new Traversal();
    NothingAdded(fs, roots);
    for i := 0 to |roots|
      invariant Inv(fs, roots, i, traversal.pending, traversal.seen, {}, None) && traversal.done == {}
      invariant traversal.entries == |traversal.seen| <= MAX_TREE_ENTRIES
      invariant forall j :: 0 <= j < i ==> fs.node(roots[j]).Directory?
    {
      var error := traversal.AddRoot(fs, roots, i);
      if error.Some? {
        FaultyDoesNotFit(fs, roots, error.value);
        return Err(error.value);
      }
    }
    var files: seq<string> := [];
    NothingCollected(fs);
    while traversal.pending != []
      invariant Inv(fs, roots, |roots|, traversal.pending, traversal.seen, traversal.done, None)
      invariant traversal.entries == |traversal.seen| <= MAX_TREE_ENTRIES
      invariant Collected(fs, traversal.done, files) && |files| <= MAX_LOCKED_FILES
      decreases 2 * (MAX_TREE_ENTRIES - traversal.entries) + |traversal.pending|
    {
      var current, stop := traversal.Pop(fs, roots, files);
      if stop.Some? {
        FaultyDoesNotFit(fs, roots, stop.value);
        return Err(stop.value);
      }
      if fs.node(current.path).Directory? {
        var error := traversal.AddDirectoryChildren(fs, roots, current.path, current.depth);
        if error.Some? {
          FaultyDoesNotFit(fs, roots, error.value);
          return Err(error.value);
        }
      } else {
        RegularIfNot(fs.node(current.path));
        files := files + [current.path];
      }
    }
    WalkIsComplete(fs, roots, traversal.seen, traversal.done, files);
    SortedFiles(files);
    return Ok(Sort(files, TextLess));
  }

  lemma RegularIfNot(n: Node)
    requires Acceptable(n) && !n.Directory?
    ensures n.Regular?
  {
  }

  lemma NothingAdded(fs: FileSystem, roots: seq<string>)
    ensures Inv(fs, roots, 0, [], map[], {}, None)
  {
  }

  lemma NothingCollected(fs: FileSystem)
    ensures Collected(fs, {}, [])
  {
  }

  lemma RootIsUnder(fs: FileSystem, roots: seq<string>, i: nat)
    requires i < |roots|
    ensures Under(fs, roots, roots[i], 0)
  {
  }

  function RootFault(node: Node): WalkError
    requires !node.Directory?
  {
    if node.Missing? then PathMissing else if node.SymbolicLink? then LinkNotAllowed else NotDirectory
  }

  lemma RootsMustBeDirectories(fs: FileSystem, roots: seq<string>, i: nat)
    requires i < |roots| && !fs.node(roots[i]).Directory?
    ensures Faulty(fs, roots, RootFault(fs.node(roots[i])))
  {
    RootIsUnder(fs, roots, i);
    hide Under;
    assert roots[i] in roots;
  }

  lemma PendingIsUnder(fs: FileSystem, roots: seq<string>, pending: seq<Entry>, seen: map<string, nat>,
                       done: set<string>, e: Entry)
    requires Inv(fs, roots, |roots|, pending, seen, done, None) && e in pending
    ensures e.path in seen && seen[e.path] == e.depth && e.path !in done && Under(fs, roots, e.path, e.depth)
  {
    hide PlacedPart, ReadPart, RootsPart, Under;
    SeenIsUnder(fs, roots, |roots|, pending, seen, done, None, e.path);
  }

  lemma CollectedAfterPop(fs: FileSystem, done: set<string>, files: seq<string>, p: string)
    requires Collected(fs, done, files) && p !in done
    ensures Collected(fs, done + {p}, if fs.node(p).Regular? then files + [p] else files)
  {
    if fs.node(p).Regular? {
      assert RegularIn(fs, done + {p}) == RegularIn(fs, done) + {p};
      CountAfterPush(files, p);
    } else {
      assert RegularIn(fs, done + {p}) == RegularIn(fs, done);
    }
  }

  lemma CountAfterPush(files: seq<string>, p: string)
    ensures forall q :: multiset(files + [p])[q] == multiset(files)[q] + if q == p then 1 else 0
  {
  }

  lemma {:induction false} TextLessIsOrder()
    ensures StrictWeakOrder(TextLess)
  {
    forall a, b ensures TextLess(a, b) ==> !TextLess(b, a) {
      TextLessIsTotal(a, b);
    }
    forall a, b, c | !TextLess(b, a) && !TextLess(c, b) ensures !TextLess(c, a) {
      TextLessIsTotal(a, b);
      TextLessIsTotal(b, c);
      TextLessIsTotal(a, c);
      if TextLess(a, b) && TextLess(b, c) {
        TextLessIsTransitive(a, b, c);
      }
    }
  }

  lemma SortedFiles(files: seq<string>)
    ensures Sorted(Sort(files, TextLess), TextLess) && multiset(Sort(files, TextLess)) == multiset(files)
  {
    TextLessIsOrder();
    SortIsSort(files, TextLess);
  }

  // ----- the lock

  datatype LockEntry = Malformed | Locked(path: string, sha256: string)

  /** The bundle's own constants, the collation the lock is sorted by, and the hash its digests are of. */
  datatype Rules = Rules(
    lockedRoots: seq<string>, curatedRoot: string, curatedMetadata: set<string>, curatedSkillRoots: seq<string>,
    precedes: (string, string) -> bool, sha256: string -> string)

  datatype LockError =
    | RecordMalformed | PathNotRelative | PathOutsideRoots | PathUnsupported | DigestMalformed | DuplicatePath
    | NotSorted | FileUnreadable | DigestMismatch | UnlockedFile | LockedFileMissing

  function Parts(s: string, part: string): seq<string> {
    if s == "" then [part] else if s[0] == '/' then [part] + Parts(s[1..], "") else Parts(s[1..], part + [s[0]])
  }

  /** `normalizedRelativePath` does not throw. */
  predicate Normalized(path: string) {
    && path != "" && '\\' !in path && path[0] != '/'
    && forall part :: part in Parts(path, "") ==> part != "" && part != "." && part != ".."
  }

  predicate InsideOneOf(path: string, roots: seq<string>) {
    exists i :: 0 <= i < |roots| && roots[i] + "/" <= path
  }

  predicate Supported(path: string, rules: Rules) {
    rules.curatedRoot + "/" <= path ==> path in rules.curatedMetadata || InsideOneOf(path, rules.curatedSkillRoots)
  }

  /** `/^[a-f0-9]{64}$/` */
  predicate IsDigest(s: string) {
    |s| == 64 && forall i :: 0 <= i < |s| ==> 'a' <= s[i] <= 'f' || '0' <= s[i] <= '9'
  }

  predicate Readable(n: Node) {
    n.Regular? && n.size <= MAX_FILE_BYTES
  }

  /** A record that stands on its own: a well-formed path in the bundle, whose file has the digest recorded for it. */
  predicate EntryHolds(fs: FileSystem, rules: Rules, e: LockEntry) {
    && e.Locked? && Normalized(e.path) && InsideOneOf(e.path, rules.lockedRoots) && Supported(e.path, rules)
    && IsDigest(e.sha256)
    && Readable(fs.node(e.path)) && rules.sha256(fs.node(e.path).contents) == e.sha256
  }

  /** Each record comes after the one before it, and no path comes twice. */
  predicate StrictlyIncreasing(rules: Rules, lock: seq<LockEntry>) {
    && (forall i :: 0 <= i < |lock| ==> lock[i].Locked?)
    && (forall i, j :: 0 <= i < j < |lock| ==> lock[i].path != lock[j].path)
    && (forall i :: 0 < i < |lock| ==> rules.precedes(lock[i - 1].path, lock[i].path))
  }

  predicate LockHolds(fs: FileSystem, rules: Rules, lock: seq<LockEntry>) {
    StrictlyIncreasing(rules, lock) && forall i :: 0 <= i < |lock| ==> EntryHolds(fs, rules, lock[i])
  }

  predicate Locks(lock: seq<LockEntry>, path: string) {
    exists i :: 0 <= i < |lock| && lock[i].Locked? && lock[i].path == path
  }

  /** The locked paths are exactly the actual ones. */
  ghost predicate SamePaths(lock: seq<LockEntry>, actual: seq<string>) {
    forall path :: Locks(lock, path) <==> path in actual
  }

  /** What is wrong with a record by itself, before its file is read. */
  function EntryFault(rules: Rules, e: LockEntry): Option<LockError> {
    if e.Malformed? then Some(RecordMalformed)
    else if !Normalized(e.path) then Some(PathNotRelative)
    else if !InsideOneOf(e.path, rules.lockedRoots) then Some(PathOutsideRoots)
    else if !Supported(e.path, rules) then Some(PathUnsupported)
    else if !IsDigest(e.sha256) then Some(DigestMalformed)
    else None
  }

  /** What is wrong with record `i`, when there is nothing wrong with those before it. */
  function RecordFault(fs: FileSystem, rules: Rules, lock: seq<LockEntry>, i: nat): Option<LockError>
    requires i < |lock| && LockHolds(fs, rules, lock[..i])
  {
    var e := lock[i];
    if EntryFault(rules, e).Some? then EntryFault(rules, e)
    else if Locks(lock[..i], e.path) then Some(DuplicatePath)
    else if i > 0 && !rules.precedes(PathAt(fs, rules, lock, i), e.path) then Some(NotSorted)
    else if !Readable(fs.node(e.path)) then Some(FileUnreadable)
    else if rules.sha256(fs.node(e.path).contents) != e.sha256 then Some(DigestMismatch)
    else None
  }

  /** The path of the record before record `i`. */
  function PathAt(fs: FileSystem, rules: Rules, lock: seq<LockEntry>, i: nat): string
    requires 0 < i <= |lock| && LockHolds(fs, rules, lock[..i])
  {
    assert lock[..i][i - 1].Locked?;
    lock[i - 1].path
  }

  /** The first record that does not hold is at fault, or else a file without a record, or a record without a file. */
  ghost predicate Blamed(fs: FileSystem, rules: Rules, lock: seq<LockEntry>, actual: seq<string>, e: LockError) {
    || (exists i: nat :: i < |lock| && LockHolds(fs, rules, lock[..i]) && RecordFault(fs, rules, lock, i) == Some(e))
    || (LockHolds(fs, rules, lock)
        && if exists path :: path in actual && !Locks(lock, path) then e == UnlockedFile
           else e == LockedFileMissing && exists path :: path !in actual && Locks(lock, path))
  }

  method CheckEntry(rules: Rules, e: LockEntry) returns (error: Option<LockError>)
    ensures error == EntryFault(rules, e)
  {
    if e.Malformed? {
      return Some(RecordMalformed);
    }
    if !Normalized(e.path) {
      return Some(PathNotRelative);
    }
    if !InsideOneOf(e.path, rules.lockedRoots) {
      return Some(PathOutsideRoots);
    }
    if !Supported(e.path, rules) {
      return Some(PathUnsupported);
    }
    return if IsDigest(e.sha256) then None else Some(DigestMalformed);
  }

  /**
   * Accepts exactly when every record holds, the records are strictly increasing, and they are the actual files and no
   * others.
   */
  method VerifyFiles(fs: FileSystem, rules: Rules, lock: seq<LockEntry>, actual: seq<string>)
    returns (error: Option<LockError>)
    ensures error.None? <==> LockHolds(fs, rules, lock) && SamePaths(lock, actual)
    ensures error.Some? ==> Blamed(fs, rules, lock, actual, error.value)
  {
    hide Normalized, InsideOneOf, Supported, IsDigest, SamePaths, Locks, StrictlyIncreasing;
    NothingLocked();
    StrictFromStart(fs, rules, lock);
    var lockedPaths: set<string> := {};
    var previousPath := "";
    for i := 0 to |lock|
      invariant LockHolds(fs, rules, lock[..i])
      invariant forall path :: path in lockedPaths <==> Locks(lock[..i], path)
      invariant i > 0 ==> lock[i - 1].Locked? && previousPath == lock[i - 1].path
    {
      var e := lock[i];
      error := CheckEntry(rules, e);
      if error.Some? {
        BadEntry(fs, rules, lock, i);
        return;
      }
      if e.path in lockedPaths {
        Repeated(rules, lock, i);
        return Some(DuplicatePath);
      }
      if i > 0 && !rules.precedes(previousPath, e.path) {
        OutOfOrder(rules, lock, i);
        return Some(NotSorted);
      }
      var node := fs.node(e.path);
      if !Readable(node) {
        BadEntry(fs, rules, lock, i);
        return Some(FileUnreadable);
      }
      if rules.sha256(node.contents) != e.sha256 {
        BadEntry(fs, rules, lock, i);
        return Some(DigestMismatch);
      }
      OneMoreHolds(fs, rules, lock, i);
      previousPath := e.path;
      lockedPaths := lockedPaths + {e.path};
    }
    assert lock[..|lock|] == lock;
    error := ComparePaths(lock, lockedPaths, actual);
  }

  lemma NothingLocked()
    ensures forall path :: !Locks([], path)
  {
  }

  lemma StrictFromStart(fs: FileSystem, rules: Rules, lock: seq<LockEntry>)
    ensures lock[..0] == [] && LockHolds(fs, rules, lock[..0])
  {
  }

  lemma OutOfOrder(rules: Rules, lock: seq<LockEntry>, i: nat)
    requires 0 < i < |lock| && lock[i - 1].Locked? && lock[i].Locked? && !rules.precedes(lock[i - 1].path, lock[i].path)
    ensures !StrictlyIncreasing(rules, lock)
  {
  }

  lemma BadEntry(fs: FileSystem, rules: Rules, lock: seq<LockEntry>, i: nat)
    requires i < |lock| && !EntryHolds(fs, rules, lock[i])
    ensures !LockHolds(fs, rules, lock)
  {
    hide EntryHolds, StrictlyIncreasing;
  }

  lemma Repeated(rules: Rules, lock: seq<LockEntry>, i: nat)
    requires i < |lock| && lock[i].Locked? && Locks(lock[..i], lock[i].path)
    ensures !StrictlyIncreasing(rules, lock)
  {
    var j :| 0 <= j < i && lock[..i][j].Locked? && lock[..i][j].path == lock[i].path;
    assert lock[j].path == lock[i].path;
  }

  lemma OneMoreHolds(fs: FileSystem, rules: Rules, lock: seq<LockEntry>, i: nat)
    requires i < |lock| && LockHolds(fs, rules, lock[..i]) && EntryHolds(fs, rules, lock[i])
             && !Locks(lock[..i], lock[i].path)
    requires i > 0 && lock[i - 1].Locked? ==> rules.precedes(lock[i - 1].path, lock[i].path)
    ensures LockHolds(fs, rules, lock[..i + 1])
    ensures forall path :: Locks(lock[..i + 1], path) <==> Locks(lock[..i], path) || path == lock[i].path
  {
    hide Normalized, InsideOneOf, Supported, IsDigest, Readable;
    var before, after := lock[..i], lock[..i + 1];
    assert after == before + [lock[i]];
    forall path ensures Locks(after, path) <==> Locks(before, path) || path == lock[i].path {
      if Locks(before, path) {
        var j :| 0 <= j < |before| && before[j].Locked? && before[j].path == path;
        assert after[j].path == path;
      }
      assert after[i].path == lock[i].path;
    }
    forall j | 0 <= j < i ensures after[j].path != lock[i].path {
      assert before[j].Locked?;
    }
  }

  method ComparePaths(lock: seq<LockEntry>, lockedPaths: set<string>, actual: seq<string>)
    returns (error: Option<LockError>)
    requires forall path :: path in lockedPaths <==> Locks(lock, path)
    ensures error.None? <==> SamePaths(lock, actual)
    ensures error.Some? ==>
              if exists path :: path in actual && !Locks(lock, path) then error == Some(UnlockedFile)
              else error == Some(LockedFileMissing) && exists path :: path !in actual && Locks(lock, path)
  {
    hide Locks;
    for i := 0 to |actual|
      invariant forall j :: 0 <= j < i ==> actual[j] in lockedPaths
    {
      if actual[i] !in lockedPaths {
        return Some(UnlockedFile);
      }
    }
    if exists path :: path in lockedPaths && path !in actual {
      return Some(LockedFileMissing);
    }
    return None;
  }

  /**
   * The bundle is accepted exactly when its tree fits the limits and the lock, strictly increasing, names every regular
   * file under the roots and nothing else, each with the digest of what it holds.
   */
  method VerifyBundle(fs: FileSystem, rules: Rules, lock: seq<LockEntry>) returns (accepted: bool)
    requires WellNamed(fs) && RootsApart(rules.lockedRoots)
    ensures accepted <==> TreeFits(fs, rules.lockedRoots) && LockHolds(fs, rules, lock)
                          && forall path :: Locks(lock, path) <==> FileUnder(fs, rules.lockedRoots, path)
  {
    hide WellNamed, RootsApart, Faulty, TreeFits, LockHolds, Locks, FileUnder, Sorted, SamePaths;
    var actual := CollectFiles(fs, rules.lockedRoots);
    if actual.Err? {
      return false;
    }
    forall path ensures path in actual.value <==> FileUnder(fs, rules.lockedRoots, path) {
      assert path in actual.value <==> path in multiset(actual.value);
    }
    SamePathsMeans(lock, actual.value);
    var error := VerifyFiles(fs, rules, lock, actual.value);
    return error.None?;
  }

  lemma SamePathsMeans(lock: seq<LockEntry>, actual: seq<string>)
    ensures SamePaths(lock, actual) <==> forall path :: Locks(lock, path) <==> path in actual
  {
    hide Locks;
  }
}
