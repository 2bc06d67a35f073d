/**
 * The bundle walk of `src/agent-skills/bundle-integrity.js`: an explicit stack and an entry budget over
 * a file system that may be infinite, and the comparison of what it found with the lock.
 */
module BundleWalk {
  import opened Prelude

  const MAX_FILE_BYTES: nat := 262_144
  const MAX_LOCKED_FILES: nat := 512
  const MAX_TREE_ENTRIES: nat := 640
  const MAX_TREE_DEPTH: nat := 32

  /** A directory hands out its entries one by one, and may never come to an end. */
  datatype Node =
    | Missing
    | SymbolicLink
    | Special
    | Regular(size: nat, contents: string)
    | Directory(entry: nat -> Option<string>)

  /** What the component-wise check and the status call say of a path relative to the plugin root. */
  datatype FileSystem = FileSystem(node: string -> Node)

  datatype WalkError =
    | DepthExceeded | EntriesExceeded | NotDirectory | PathMissing | LinkNotAllowed | NotRegular | FileTooLarge
    | TooManyFiles

  datatype Entry = Entry(path: string, depth: nat)

  // ----- what is under the roots

  /** Reading the directory at `p` gets as far as its entry `k`. */
  predicate Listed(fs: FileSystem, p: string, k: nat) {
    fs.node(p).Directory? && forall j :: 0 <= j <= k ==> fs.node(p).entry(j).Some?
  }

  ghost predicate ChildAt(fs: FileSystem, p: string, k: nat, q: string) {
    Listed(fs, p, k) && q == p + "/" + fs.node(p).entry(k).value
  }

  ghost predicate Child(fs: FileSystem, p: string, q: string) {
    exists k: nat :: ChildAt(fs, p, k, q)
  }

  /** `p` lies `n` levels below a root. */
  ghost predicate Under(fs: FileSystem, roots: seq<string>, p: string, n: nat)
    decreases n
  {
    if n == 0 then p in roots else exists q :: Child(fs, q, p) && Under(fs, roots, q, n - 1)
  }

  predicate SlashFree(s: string) { '/' !in s }

  /** Names in a directory contain no slash, and no two are the same. */
  ghost predicate WellNamed(fs: FileSystem) {
    && (forall p, k: nat :: Listed(fs, p, k) ==> SlashFree(fs.node(p).entry(k).value))
    && (forall p, j: nat, k: nat ::
          Listed(fs, p, j) && Listed(fs, p, k) && j != k ==> fs.node(p).entry(j) != fs.node(p).entry(k))
  }

  /** No root is another one, or inside another one. */
  predicate RootsApart(roots: seq<string>) {
    && (forall i, j :: 0 <= i < j < |roots| ==> roots[i] != roots[j])
    && (forall i, j :: 0 <= i < |roots| && 0 <= j < |roots| ==> !(roots[i] + "/" <= roots[j]))
  }

  /** A node the walk does not stop at. */
  predicate Acceptable(n: Node) {
    n.Directory? || (n.Regular? && n.size <= MAX_FILE_BYTES)
  }

  function RegularIn(fs: FileSystem, paths: set<string>): set<string> {
    set p | p in paths && fs.node(p).Regular?
  }

  /** `all` holds the roots and everything listed in a directory it holds, and is within every limit. */
  ghost predicate Encloses(fs: FileSystem, roots: seq<string>, all: set<string>) {
    && (forall r :: r in roots ==> r in all && fs.node(r).Directory?)
    && (forall p, q :: p in all && Child(fs, p, q) ==> q in all)
    && (forall p :: p in all ==> Acceptable(fs.node(p)))
    && |all| <= MAX_TREE_ENTRIES
    && |RegularIn(fs, all)| <= MAX_LOCKED_FILES
  }

  ghost predicate TreeFits(fs: FileSystem, roots: seq<string>) {
    && (exists all: set<string> :: Encloses(fs, roots, all))
    && (forall p, n: nat :: Under(fs, roots, p, n) ==> n <= MAX_TREE_DEPTH)
  }

  /** A regular file somewhere under the roots. */
  ghost predicate FileUnder(fs: FileSystem, roots: seq<string>, p: string) {
    fs.node(p).Regular? && exists n: nat :: Under(fs, roots, p, n)
  }

  lemma {:induction false} EnclosedUnder(fs: FileSystem, roots: seq<string>, all: set<string>, p: string, n: nat)
    requires Encloses(fs, roots, all) && Under(fs, roots, p, n)
    ensures p in all
    decreases n
  {
    hide Child, Acceptable;
    if n > 0 {
      var q :| Child(fs, q, p) && Under(fs, roots, q, n - 1);
      EnclosedUnder(fs, roots, all, q, n - 1);
    }
  }

  lemma {:induction false} UnderStartsAtRoot(fs: FileSystem, roots: seq<string>, p: string, n: nat)
    requires Under(fs, roots, p, n)
    ensures exists i :: 0 <= i < |roots| && (p == roots[i] || roots[i] + "/" <= p)
    decreases n
  {
    if n == 0 {
    } else {
      var q :| Child(fs, q, p) && Under(fs, roots, q, n - 1);
      UnderStartsAtRoot(fs, roots, q, n - 1);
      var i :| 0 <= i < |roots| && (q == roots[i] || roots[i] + "/" <= q);
      assert roots[i] + "/" <= p;
    }
  }

  lemma SplitsOnce(p: string, a: string, q: string, b: string)
    requires SlashFree(a) && SlashFree(b) && p + "/" + a == q + "/" + b
    ensures p == q && a == b
  {
    if |p| < |q| {
      LongerPrefix(p, a, q, b);
    } else if |q| < |p| {
      LongerPrefix(q, b, p, a);
    } else {
      assert (p + "/" + a)[..|p|] == p && (q + "/" + b)[..|q|] == q;
      assert (p + "/" + a)[|p| + 1..] == a && (q + "/" + b)[|q| + 1..] == b;
    }
  }

  lemma LongerPrefix(p: string, a: string, q: string, b: string)
    requires p + "/" + a == q + "/" + b && |p| < |q|
    ensures !SlashFree(a)
  {
    assert (q + "/" + b)[|q|] == '/';
    assert (p + "/" + a)[|p| + 1..] == a;
    assert a[|q| - |p| - 1] == '/';
  }

  /** A listed entry names its directory and its place in it. */
  lemma ChildNamesParent(fs: FileSystem, p: string, j: nat, q: string, k: nat, c: string)
    requires WellNamed(fs) && ChildAt(fs, p, j, c) && ChildAt(fs, q, k, c)
    ensures p == q && j == k
  {
    SplitsOnce(p, fs.node(p).entry(j).value, q, fs.node(q).entry(k).value);
  }

  // ----- the state of the walk

  function Paths(pending: seq<Entry>): set<string> { set i | 0 <= i < |pending| :: pending[i].path }

  /** Where a path that has been added came from. */
  ghost predicate Placed(fs: FileSystem, roots: seq<string>, seen: map<string, nat>, done: set<string>,
                         at: Option<(string, nat)>, q: string)
  {
    && q in seen
    && Under(fs, roots, q, seen[q])
    && ((q in roots && seen[q] == 0)
        || exists p, k: nat :: ChildAt(fs, p, k, q) && p in done && p in seen && seen[q] == seen[p] + 1
                          && (at.Some? && at.value.0 == p ==> k < at.value.1))
  }

  /** Everything listed in an expanded directory has been added, one level below it. */
  ghost predicate Expanded(fs: FileSystem, seen: map<string, nat>, at: Option<(string, nat)>, p: string) {
    forall k: nat, q ::
      ChildAt(fs, p, k, q) && (at.Some? && at.value.0 == p ==> k < at.value.1) ==>
        q in seen && p in seen && seen[q] == seen[p] + 1
  }

  /**
   * `seen` records every path added so far with its depth, `done` those popped since; `at` is the directory being read,
   * with how many of its entries have been added.
   */
  ghost predicate Inv(fs: FileSystem, roots: seq<string>, added: nat, pending: seq<Entry>, seen: map<string, nat>,
                      done: set<string>, at: Option<(string, nat)>)
  {
    RootsPart(roots, added, seen) && PendingPart(pending, seen, done) && PlacedPart(fs, roots, seen, done, at)
    && ReadPart(fs, seen, done, at)
  }

  ghost predicate RootsPart(roots: seq<string>, added: nat, seen: map<string, nat>) {
    && added <= |roots|
    && (forall i :: 0 <= i < added ==> roots[i] in seen)
    && (forall i :: added <= i < |roots| ==> roots[i] !in seen)
  }

  ghost predicate PendingPart(pending: seq<Entry>, seen: map<string, nat>, done: set<string>) {
    && (forall i ::
          0 <= i < |pending| ==>
            pending[i].path in seen && seen[pending[i].path] == pending[i].depth && pending[i].path !in done)
    && (forall i, j :: 0 <= i < j < |pending| ==> pending[i].path != pending[j].path)
    && seen.Keys == done + Paths(pending)
  }

  ghost predicate PlacedPart(fs: FileSystem, roots: seq<string>, seen: map<string, nat>, done: set<string>,
                             at: Option<(string, nat)>)
  {
    forall q :: q in seen ==> Placed(fs, roots, seen, done, at, q) && seen[q] <= MAX_TREE_DEPTH
  }

  ghost predicate ReadPart(fs: FileSystem, seen: map<string, nat>, done: set<string>, at: Option<(string, nat)>) {
    && (forall p :: p in done ==> Acceptable(fs.node(p)) && Expanded(fs, seen, at, p))
    && (at.Some? ==> at.value.0 in done && fs.node(at.value.0).Directory?)
  }

  ghost predicate Collected(fs: FileSystem, done: set<string>, files: seq<string>) {
    && (forall p :: multiset(files)[p] == if p in done && fs.node(p).Regular? then 1 else 0)
    && |files| == |RegularIn(fs, done)|
  }

  // ----- steps of the walk

  lemma {:induction false} SeenIsUnder(fs: FileSystem, roots: seq<string>, added: nat, pending: seq<Entry>,
                                       seen: map<string, nat>, done: set<string>, at: Option<(string, nat)>, p: string)
    requires Inv(fs, roots, added, pending, seen, done, at) && p in seen
    ensures Placed(fs, roots, seen, done, at, p) && Under(fs, roots, p, seen[p]) && seen[p] <= MAX_TREE_DEPTH
  {
    hide Under, RootsPart, PendingPart, ReadPart;
  }

  /** Adding the next root. */
  lemma RootKeepsInv(fs: FileSystem, roots: seq<string>, added: nat, pending: seq<Entry>, seen: map<string, nat>)
    requires Inv(fs, roots, added, pending, seen, {}, None) && added < |roots| && RootsApart(roots)
    ensures Inv(fs, roots, added + 1, pending + [Entry(roots[added], 0)], seen[roots[added] := 0], {}, None)
    ensures roots[added] !in seen
  {
    hide PlacedPart, PendingPart;
    PendingAfterAdd(pending, seen, {}, Entry(roots[added], 0));
    RootPlaced(fs, roots, seen, roots[added]);
  }

  lemma RootPlaced(fs: FileSystem, roots: seq<string>, seen: map<string, nat>, r: string)
    requires PlacedPart(fs, roots, seen, {}, None) && r in roots && r !in seen
    ensures PlacedPart(fs, roots, seen[r := 0], {}, None)
  {
    hide ChildAt;
    var seen' := seen[r := 0];
    forall q | q in seen' ensures Placed(fs, roots, seen', {}, None, q) && seen'[q] <= MAX_TREE_DEPTH {
      if q != r {
        assert Placed(fs, roots, seen, {}, None, q);
      }
    }
  }

  lemma PathsOfPushed(pending: seq<Entry>, e: Entry)
    ensures Paths(pending + [e]) == Paths(pending) + {e.path}
  {
    var all := pending + [e];
    forall x | x in Paths(pending) + {e.path} ensures x in Paths(all) {
      if x in Paths(pending) {
        var i :| 0 <= i < |pending| && pending[i].path == x;
        assert all[i].path == x;
      } else {
        assert all[|pending|].path == x;
      }
    }
  }

  lemma PendingAfterAdd(pending: seq<Entry>, seen: map<string, nat>, done: set<string>, e: Entry)
    requires PendingPart(pending, seen, done) && e.path !in seen
    ensures PendingPart(pending + [e], seen[e.path := e.depth], done)
  {
    hide Paths;
    PathsOfPushed(pending, e);
  }

  lemma PendingAfterPop(pending: seq<Entry>, seen: map<string, nat>, done: set<string>)
    requires PendingPart(pending, seen, done) && pending != []
    ensures PendingPart(pending[..|pending| - 1], seen, done + {pending[|pending| - 1].path})
    ensures pending[|pending| - 1].path in seen && pending[|pending| - 1].path !in done
  {
    hide Paths;
    var last, rest := pending[|pending| - 1], pending[..|pending| - 1];
    assert pending == rest + [last];
    PathsOfPushed(rest, last);
  }

  /** Popping a path: it counts as read, with none of its entries added yet. */
  lemma {:induction false} PopKeepsInv(fs: FileSystem, roots: seq<string>, pending: seq<Entry>, seen: map<string, nat>,
                                       done: set<string>)
    requires Inv(fs, roots, |roots|, pending, seen, done, None) && pending != []
    requires Acceptable(fs.node(pending[|pending| - 1].path))
    ensures var last := pending[|pending| - 1];
            Inv(fs, roots, |roots|, pending[..|pending| - 1], seen, done + {last.path},
                if fs.node(last.path).Directory? then Some((last.path, 0)) else None)
  {
    hide PendingPart, RootsPart, PlacedPart, ReadPart, Acceptable;
    PendingAfterPop(pending, seen, done);
    PlacedAfterPop(fs, roots, seen, done, pending[|pending| - 1].path);
    ReadAfterPop(fs, seen, done, pending[|pending| - 1].path);
  }

  lemma PlacedAfterPop(fs: FileSystem, roots: seq<string>, seen: map<string, nat>, done: set<string>, d: string)
    requires PlacedPart(fs, roots, seen, done, None) && d !in done
    ensures PlacedPart(fs, roots, seen, done + {d}, Some((d, 0))) && PlacedPart(fs, roots, seen, done + {d}, None)
  {
    hide Under, ChildAt;
    forall q | q in seen
      ensures Placed(fs, roots, seen, done + {d}, Some((d, 0)), q) && Placed(fs, roots, seen, done + {d}, None, q)
    {
      assert Placed(fs, roots, seen, done, None, q);
    }
  }

  lemma ReadAfterPop(fs: FileSystem, seen: map<string, nat>, done: set<string>, d: string)
    requires ReadPart(fs, seen, done, None) && Acceptable(fs.node(d)) && d !in done
    ensures ReadPart(fs, seen, done + {d}, if fs.node(d).Directory? then Some((d, 0)) else None)
  {
    hide Acceptable;
    var at := if fs.node(d).Directory? then Some((d, 0)) else None;
    forall p | p in done + {d} ensures Expanded(fs, seen, at, p) {
      if p in done {
        assert Expanded(fs, seen, None, p);
      }
    }
  }

  /** The next entry of the directory being read has not been added before. */
  lemma {:induction false} NextIsNew(fs: FileSystem, roots: seq<string>, pending: seq<Entry>, seen: map<string, nat>,
                                     done: set<string>, d: string, k: nat, c: string)
    requires Inv(fs, roots, |roots|, pending, seen, done, Some((d, k))) && ChildAt(fs, d, k, c)
    requires WellNamed(fs) && RootsApart(roots) && d in seen
    ensures c !in seen
  {
    hide Inv, WellNamed, Under, RootsApart, ChildAt;
    if c in seen {
      SeenIsUnder(fs, roots, |roots|, pending, seen, done, Some((d, k)), c);
      if c in roots {
        SeenIsUnder(fs, roots, |roots|, pending, seen, done, Some((d, k)), d);
        UnderStartsAtRoot(fs, roots, d, seen[d]);
        RootIsNoChild(fs, roots, d, k, c);
      } else {
        var p, j: nat :| ChildAt(fs, p, j, c) && p in done && p in seen && seen[c] == seen[p] + 1 && (p == d ==> j < k);
        ChildNamesParent(fs, p, j, d, k, c);
      }
    }
  }

  lemma RootIsNoChild(fs: FileSystem, roots: seq<string>, d: string, k: nat, c: string)
    requires RootsApart(roots) && ChildAt(fs, d, k, c)
             && exists i :: 0 <= i < |roots| && (d == roots[i] || roots[i] + "/" <= d)
    ensures c !in roots
  {
    var i :| 0 <= i < |roots| && (d == roots[i] || roots[i] + "/" <= d);
    assert roots[i] + "/" <= c;
  }

  /** Adding the next entry of the directory being read. */
  lemma {:induction false} AddKeepsInv(fs: FileSystem, roots: seq<string>, pending: seq<Entry>, seen: map<string, nat>,
                                       done: set<string>, d: string, k: nat, c: string)
    requires Inv(fs, roots, |roots|, pending, seen, done, Some((d, k))) && ChildAt(fs, d, k, c) && c !in seen
    requires d in seen && seen[d] < MAX_TREE_DEPTH
    ensures Inv(fs, roots, |roots|, pending + [Entry(c, seen[d] + 1)], seen[c := seen[d] + 1], done, Some((d, k + 1)))
  {
    hide PendingPart, PlacedPart, ReadPart, ChildAt;
    AtIsDone(fs, seen, done, d, k);
    PendingAfterAdd(pending, seen, done, Entry(c, seen[d] + 1));
    PlacedAfterAdd(fs, roots, seen, done, d, k, c);
    ReadAfterAdd(fs, seen, done, d, k, c);
  }

  lemma AtIsDone(fs: FileSystem, seen: map<string, nat>, done: set<string>, d: string, k: nat)
    requires ReadPart(fs, seen, done, Some((d, k)))
    ensures d in done
  {
  }

  lemma PlacedAfterAdd(fs: FileSystem, roots: seq<string>, seen: map<string, nat>, done: set<string>, d: string,
                       k: nat, c: string)
    requires PlacedPart(fs, roots, seen, done, Some((d, k))) && ChildAt(fs, d, k, c) && c !in seen
    requires d in seen && d in done && seen[d] < MAX_TREE_DEPTH
    ensures PlacedPart(fs, roots, seen[c := seen[d] + 1], done, Some((d, k + 1)))
  {
    hide Placed, Under, ChildAt;
    var seen' := seen[c := seen[d] + 1];
    forall q | q in seen' ensures Placed(fs, roots, seen', done, Some((d, k + 1)), q) && seen'[q] <= MAX_TREE_DEPTH {
      if q == c {
        NewlyPlaced(fs, roots, seen, done, d, k, c);
      } else {
        StillPlaced(fs, roots, seen, done, d, k, c, q);
      }
    }
  }

  lemma NewlyPlaced(fs: FileSystem, roots: seq<string>, seen: map<string, nat>, done: set<string>, d: string, k: nat,
                    c: string)
    requires Placed(fs, roots, seen, done, Some((d, k)), d) && ChildAt(fs, d, k, c) && d in done && c !in seen
    ensures Placed(fs, roots, seen[c := seen[d] + 1], done, Some((d, k + 1)), c)
  {
    hide ChildAt;
    assert Child(fs, d, c);
  }

  lemma StillPlaced(fs: FileSystem, roots: seq<string>, seen: map<string, nat>, done: set<string>, d: string, k: nat,
                    c: string, q: string)
    requires Placed(fs, roots, seen, done, Some((d, k)), q) && c !in seen && d in seen
    ensures Placed(fs, roots, seen[c := seen[d] + 1], done, Some((d, k + 1)), q)
  {
    hide Under, ChildAt;
    if !(q in roots && seen[q] == 0) {
      var p, j: nat :| ChildAt(fs, p, j, q) && p in done && p in seen && seen[q] == seen[p] + 1 && (p == d ==> j < k);
      assert ChildAt(fs, p, j, q) && p in done;
    }
  }

  lemma ReadAfterAdd(fs: FileSystem, seen: map<string, nat>, done: set<string>, d: string, k: nat, c: string)
    requires ReadPart(fs, seen, done, Some((d, k))) && ChildAt(fs, d, k, c) && c !in seen && d in seen
    ensures ReadPart(fs, seen[c := seen[d] + 1], done, Some((d, k + 1)))
  {
    hide Acceptable;
    var seen' := seen[c := seen[d] + 1];
    forall p | p in done ensures Expanded(fs, seen', Some((d, k + 1)), p) {
      assert Expanded(fs, seen, Some((d, k)), p);
      forall j: nat, q | ChildAt(fs, p, j, q) && (p == d ==> j < k + 1)
        ensures q in seen' && p in seen' && seen'[q] == seen'[p] + 1
      {
        if p == d && j == k {
          assert q == c;
        }
      }
    }
  }

  /** The directory has no further entry. */
  lemma DirectoryIsRead(fs: FileSystem, roots: seq<string>, pending: seq<Entry>, seen: map<string, nat>,
                        done: set<string>, d: string, k: nat)
    requires Inv(fs, roots, |roots|, pending, seen, done, Some((d, k))) && fs.node(d).Directory?
             && fs.node(d).entry(k).None?
    ensures Inv(fs, roots, |roots|, pending, seen, done, None)
  {
    hide Acceptable, Under, PendingPart, RootsPart;
    forall q | q in seen ensures Placed(fs, roots, seen, done, None, q) {
      assert Placed(fs, roots, seen, done, Some((d, k)), q);
    }
    forall p | p in done ensures Expanded(fs, seen, None, p) {
      assert Expanded(fs, seen, Some((d, k)), p);
    }
  }

  // ----- the end of the walk

  lemma {:induction false} AllSeen(fs: FileSystem, roots: seq<string>, seen: map<string, nat>, done: set<string>,
                                   p: string, n: nat)
    requires Inv(fs, roots, |roots|, [], seen, done, None) && WellNamed(fs) && RootsApart(roots)
             && Under(fs, roots, p, n)
    ensures p in done && p in seen && seen[p] == n
    decreases n
  {
    hide Acceptable, Expanded, WellNamed, RootsApart;
    assert Paths([]) == {};
    if n == 0 {
      RootIsSeen(fs, roots, seen, done, p);
    } else {
      var q :| Child(fs, q, p) && Under(fs, roots, q, n - 1);
      AllSeen(fs, roots, seen, done, q, n - 1);
      var k: nat :| ChildAt(fs, q, k, p);
      assert Expanded(fs, seen, None, q);
      ExpandedHolds(fs, seen, q, k, p);
    }
  }

  lemma ExpandedHolds(fs: FileSystem, seen: map<string, nat>, q: string, k: nat, p: string)
    requires Expanded(fs, seen, None, q) && ChildAt(fs, q, k, p)
    ensures p in seen && q in seen && seen[p] == seen[q] + 1
  {
    hide ChildAt;
  }

  lemma {:induction false} RootIsSeen(fs: FileSystem, roots: seq<string>, seen: map<string, nat>, done: set<string>,
                                      p: string)
    requires Inv(fs, roots, |roots|, [], seen, done, None) && RootsApart(roots) && p in roots
    ensures p in seen && seen[p] == 0
  {
    hide PlacedPart, PendingPart, ReadPart, Under, RootsApart, ChildAt;
    assert p in seen;
    hide RootsPart;
    SeenIsUnder(fs, roots, |roots|, [], seen, done, None, p);
    if seen[p] != 0 {
      var q, k: nat :| ChildAt(fs, q, k, p) && q in done && q in seen && seen[p] == seen[q] + 1;
      SeenIsUnder(fs, roots, |roots|, [], seen, done, None, q);
      UnderStartsAtRoot(fs, roots, q, seen[q]);
      RootIsNoChild(fs, roots, q, k, p);
    }
  }

  lemma WalkIsComplete(fs: FileSystem, roots: seq<string>, seen: map<string, nat>, done: set<string>,
                       files: seq<string>)
    requires Inv(fs, roots, |roots|, [], seen, done, None) && WellNamed(fs) && RootsApart(roots)
             && Collected(fs, done, files)
    requires |seen| <= MAX_TREE_ENTRIES && |files| <= MAX_LOCKED_FILES
             && forall r :: r in roots ==> fs.node(r).Directory?
    ensures TreeFits(fs, roots)
    ensures forall p :: multiset(files)[p] == if FileUnder(fs, roots, p) then 1 else 0
  {
    hide Inv, WellNamed, RootsApart, Under;
    forall p, n: nat | Under(fs, roots, p, n) ensures p in done && p in seen && seen[p] == n && n <= MAX_TREE_DEPTH {
      AllSeen(fs, roots, seen, done, p, n);
      SeenIsUnder(fs, roots, |roots|, [], seen, done, None, p);
    }
    SeenEncloses(fs, roots, seen, done, files);
    forall p | p in done ensures exists n: nat :: Under(fs, roots, p, n) {
      DoneIsSeen(fs, roots, seen, done, p);
      SeenIsUnder(fs, roots, |roots|, [], seen, done, None, p);
    }
  }

  lemma DoneIsSeen(fs: FileSystem, roots: seq<string>, seen: map<string, nat>, done: set<string>, p: string)
    requires Inv(fs, roots, |roots|, [], seen, done, None)
    ensures p in done <==> p in seen
  {
    hide Placed, Expanded, Acceptable;
    assert Paths([]) == {};
  }

  lemma {:induction false} SeenEncloses(fs: FileSystem, roots: seq<string>, seen: map<string, nat>, done: set<string>,
                                        files: seq<string>)
    requires Inv(fs, roots, |roots|, [], seen, done, None) && Collected(fs, done, files)
    requires |seen| <= MAX_TREE_ENTRIES && |files| <= MAX_LOCKED_FILES
             && forall r :: r in roots ==> fs.node(r).Directory?
    ensures Encloses(fs, roots, done)
  {
    hide Placed, Acceptable, ChildAt;
    assert Paths([]) == {};
    assert seen.Keys == done;
    forall p, q | p in done && Child(fs, p, q) ensures q in done {
      var k: nat :| ChildAt(fs, p, k, q);
      ExpandedHolds(fs, seen, p, k, q);
    }
  }

  // ----- why the walk stops early

  /** Something lies under the roots that is in the way, or too much does. */
  ghost predicate Faulty(fs: FileSystem, roots: seq<string>, e: WalkError) {
    match e
    case NotDirectory => exists r :: r in roots && (fs.node(r).Regular? || fs.node(r).Special?)
    case PathMissing => exists p, n: nat :: Under(fs, roots, p, n) && fs.node(p).Missing?
    case LinkNotAllowed => exists p, n: nat :: Under(fs, roots, p, n) && fs.node(p).SymbolicLink?
    case NotRegular => exists p, n: nat :: Under(fs, roots, p, n) && fs.node(p).Special?
    case FileTooLarge =>
      exists p, n: nat :: Under(fs, roots, p, n) && fs.node(p).Regular? && fs.node(p).size > 262_144
    case DepthExceeded => exists p, n: nat :: Under(fs, roots, p, n) && n > 32
    case EntriesExceeded => exists some: set<string> :: |some| > 640 && AllUnder(fs, roots, some)
    case TooManyFiles =>
      exists some: set<string> :: |some| > 512 && AllUnder(fs, roots, some) && AllRegular(fs, some)
  }

  ghost predicate AllUnder(fs: FileSystem, roots: seq<string>, some: set<string>) {
    forall p :: p in some ==> exists n: nat :: Under(fs, roots, p, n)
  }

  predicate AllRegular(fs: FileSystem, some: set<string>) {
    forall p :: p in some ==> fs.node(p).Regular?
  }

  lemma {:induction false} AllUnderEnclosed(fs: FileSystem, roots: seq<string>, all: set<string>, some: set<string>)
    requires Encloses(fs, roots, all) && AllUnder(fs, roots, some)
    ensures some <= all && |some| <= |all|
  {
    hide Encloses, Under;
    forall p | p in some ensures p in all {
      var n: nat :| Under(fs, roots, p, n);
      EnclosedUnder(fs, roots, all, p, n);
    }
    SubsetIsSmaller(some, all);
  }

  /** Nothing that fits is faulty. */
  lemma {:induction false} FaultyDoesNotFit(fs: FileSystem, roots: seq<string>, e: WalkError)
    requires Faulty(fs, roots, e)
    ensures !TreeFits(fs, roots)
  {
    hide Under, AllUnder, Child;
    if all: set<string> :| Encloses(fs, roots, all) {
      forall p, n: nat | Under(fs, roots, p, n) ensures p in all {
        EnclosedUnder(fs, roots, all, p, n);
      }
      if e.EntriesExceeded? {
        var some: set<string> :| |some| > 640 && AllUnder(fs, roots, some);
        AllUnderEnclosed(fs, roots, all, some);
      } else if e.TooManyFiles? {
        var some: set<string> :| |some| > 512 && AllUnder(fs, roots, some) && AllRegular(fs, some);
        AllUnderEnclosed(fs, roots, all, some);
        SubsetIsSmaller(some, RegularIn(fs, all));
      }
    }
  }

  /** More entries than the budget are too many. */
  lemma {:induction false} TooManyEntries(fs: FileSystem, roots: seq<string>, added: nat, pending: seq<Entry>,
                                          seen: map<string, nat>, done: set<string>, at: Option<(string, nat)>,
                                          extra: string, n: nat)
    requires Inv(fs, roots, added, pending, seen, done, at) && Under(fs, roots, extra, n) && extra !in seen
             && |seen| >= MAX_TREE_ENTRIES
    ensures Faulty(fs, roots, EntriesExceeded)
  {
    hide Inv, Under;
    var some := seen.Keys + {extra};
    forall p | p in some ensures exists m: nat :: Under(fs, roots, p, m) {
      if p != extra {
        SeenIsUnder(fs, roots, added, pending, seen, done, at, p);
      }
    }
    assert |some| == |seen| + 1;
    assert AllUnder(fs, roots, some);
  }

  lemma {:induction false} SubsetIsSmaller(a: set<string>, b: set<string>)
    requires a <= b
    ensures |a| <= |b|
  {
    if a != {} {
      var x :| x in a;
      SubsetIsSmaller(a - {x}, b - {x});
    }
  }

  lemma TooDeep(fs: FileSystem, roots: seq<string>, p: string, n: nat)
    requires Under(fs, roots, p, n) && n > MAX_TREE_DEPTH
    ensures Faulty(fs, roots, DepthExceeded)
  {
    hide Under;
  }

  /** What is wrong with a node that is no directory and no file of acceptable size. */
  function FaultOf(node: Node): WalkError
    requires !Acceptable(node)
  {
    if node.Missing? then PathMissing else if node.SymbolicLink? then LinkNotAllowed
    else if node.Special? then NotRegular else FileTooLarge
  }

  lemma Unacceptable(fs: FileSystem, roots: seq<string>, p: string, n: nat)
    requires Under(fs, roots, p, n) && !Acceptable(fs.node(p))
    ensures Faulty(fs, roots, FaultOf(fs.node(p)))
  {
    hide Under;
  }

  lemma {:induction false} TooManyRegular(fs: FileSystem, roots: seq<string>, pending: seq<Entry>,
                                          seen: map<string, nat>, done: set<string>, files: seq<string>, extra: Entry)
    requires Inv(fs, roots, |roots|, pending, seen, done, None) && Collected(fs, done, files) && extra in pending
    requires fs.node(extra.path).Regular? && |files| >= MAX_LOCKED_FILES
    ensures Faulty(fs, roots, TooManyFiles)
  {
    hide Placed, Expanded, Acceptable, Under;
    var some := RegularIn(fs, done) + {extra.path};
    forall p | p in some ensures exists n: nat :: Under(fs, roots, p, n) {
      SeenIsUnder(fs, roots, |roots|, pending, seen, done, None, p);
    }
    assert extra.path !in done;
    assert AllUnder(fs, roots, some);
  }
}
