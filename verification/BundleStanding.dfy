/**
 * What an accepted skill bundle is (`src/agent-skills/bundle-integrity.js`), said over its paths, sizes and digests,
 * and what every other one is refused for.
 */
module BundleStanding {
  import opened Prelude
  import opened BundleWalk
  import opened BundleIntegrity

  // ----- the tree

  /** The numbers the walk holds the tree to, wherever its directories lead. */
  ghost predicate WithinLimits(fs: FileSystem, roots: seq<string>) {
    && (exists all: set<string>, files: set<string> :: Closed(fs, roots, all) && Small(fs, all, files))
    && (forall p, n: nat :: Under(fs, roots, p, n) ==> n < 33)
  }

  ghost predicate Closed(fs: FileSystem, roots: seq<string>, all: set<string>) {
    && (forall r :: r in roots ==> r in all && fs.node(r).Directory?)
    && (forall p, q :: p in all && Child(fs, p, q) ==> q in all)
  }

  predicate SmallFile(node: Node) {
    node.Regular? && node.size < 262_145
  }

  /** Every path of `all` is a directory or one of few small files. */
  ghost predicate Small(fs: FileSystem, all: set<string>, files: set<string>) {
    && |all| < 641 && |files| < 513
    && forall p :: p in all ==> fs.node(p).Directory? || (p in files && SmallFile(fs.node(p)))
  }

  lemma EnclosesExactly(fs: FileSystem, roots: seq<string>, all: set<string>)
    ensures Encloses(fs, roots, all) <==> Closed(fs, roots, all) && exists files: set<string> :: Small(fs, all, files)
  {
    hide Child;
    if Encloses(fs, roots, all) {
      assert Small(fs, all, RegularIn(fs, all));
    }
    if Closed(fs, roots, all) {
      if files: set<string> :| Small(fs, all, files) {
        SubsetIsSmaller(RegularIn(fs, all), files);
      }
    }
  }

  lemma {:induction false} WithinLimitsExactly(fs: FileSystem, roots: seq<string>)
    ensures TreeFits(fs, roots) <==> WithinLimits(fs, roots)
  {
    hide Encloses, Closed, Small, Under;
    forall all: set<string>
      ensures Encloses(fs, roots, all) <==> Closed(fs, roots, all) && exists files: set<string> :: Small(fs, all, files)
    {
      EnclosesExactly(fs, roots, all);
    }
  }

  // ----- the records

  function Joined(parts: seq<string>): string {
    if parts == [] then "" else if |parts| == 1 then parts[0] else parts[0] + "/" + Joined(parts[1..])
  }

  /** Names joined by slashes, none of them empty, a dot or two dots, and no backslash in any. */
  ghost predicate Relative(path: string) {
    exists parts :: AllNames(parts) && path == Joined(parts)
  }

  predicate AllNames(parts: seq<string>) {
    |parts| > 0 && forall part :: part in parts ==> Name(part)
  }

  predicate Name(part: string) {
    |part| > 0 && part != "." && part != ".." && forall c :: c in part ==> c != '/' && c != '\\'
  }

  predicate Below(root: string, path: string) {
    |root| < |path| && path[..|root|] == root && path[|root|] == '/'
  }

  predicate Hexadecimal(s: string) {
    |s| == 64 && forall c :: c in s ==> c in "0123456789abcdef"
  }

  /** A record of this shape names a path of the bundle. */
  ghost predicate Shaped(rules: Rules, path: string) {
    && Relative(path) && (exists root :: root in rules.lockedRoots && Below(root, path))
    && (Below(rules.curatedRoot, path) ==>
          path in rules.curatedMetadata || exists root :: root in rules.curatedSkillRoots && Below(root, path))
  }

  /** The record's file is there, small, and what the record says. */
  ghost predicate Holds(fs: FileSystem, rules: Rules, e: LockEntry) {
    && e.Locked? && Shaped(rules, e.path) && Hexadecimal(e.sha256)
    && SmallFile(fs.node(e.path)) && rules.sha256(fs.node(e.path).contents) == e.sha256
  }

  /** The bundle is within its limits, and the lock names its files, each once and in order, with what they hold. */
  ghost predicate Accepted(fs: FileSystem, rules: Rules, lock: seq<LockEntry>) {
    && WithinLimits(fs, rules.lockedRoots)
    && (forall i :: 0 <= i < |lock| ==> Holds(fs, rules, lock[i]))
    && InOrder(rules, lock)
    && (forall path :: FileUnder(fs, rules.lockedRoots, path) <==> Names(lock, path))
  }

  /** Each path once, and each record before the next. */
  predicate InOrder(rules: Rules, lock: seq<LockEntry>) {
    forall i, j :: 0 <= i < j < |lock| ==>
      && lock[i].Locked? && lock[j].Locked? && lock[i].path != lock[j].path
      && (j == i + 1 ==> rules.precedes(lock[i].path, lock[j].path))
  }

  predicate Names(lock: seq<LockEntry>, path: string) {
    exists e :: e in lock && e.Locked? && e.path == path
  }

  lemma HexadecimalExactly(s: string)
    ensures IsDigest(s) <==> Hexadecimal(s)
  {
    if IsDigest(s) {
      forall c | c in s ensures c in "0123456789abcdef" {
        Digits(c);
      }
    }
    if Hexadecimal(s) {
      forall i | 0 <= i < |s| ensures 'a' <= s[i] <= 'f' || '0' <= s[i] <= '9' {
        Digits(s[i]);
      }
    }
  }

  lemma Digits(c: char)
    ensures c in "0123456789abcdef" <==> 'a' <= c <= 'f' || '0' <= c <= '9'
  {
  }

  lemma BelowExactly(root: string, path: string)
    ensures root + "/" <= path <==> Below(root, path)
  {
    if Below(root, path) {
      assert path[..|root| + 1] == root + "/";
    }
    if root + "/" <= path {
      assert path[..|root|] == (root + "/")[..|root|] == root && path[|root|] == (root + "/")[|root|];
    }
  }

  lemma InsideExactly(path: string, roots: seq<string>)
    ensures InsideOneOf(path, roots) <==> exists root :: root in roots && Below(root, path)
  {
    hide Below;
    forall root ensures root + "/" <= path <==> Below(root, path) {
      BelowExactly(root, path);
    }
    if root :| root in roots && Below(root, path) {
      var i :| 0 <= i < |roots| && roots[i] == root;
      assert roots[i] + "/" <= path;
    }
  }

  // ----- paths

  lemma {:induction false} PartsAreJoined(s: string, part: string)
    ensures Parts(s, part) != [] && Joined(Parts(s, part)) == part + s
    decreases |s|
  {
    if s == "" {
      assert part + s == part;
    } else if s[0] == '/' {
      PartsAreJoined(s[1..], "");
      assert Parts(s, part)[1..] == Parts(s[1..], "");
      assert "" + s[1..] == s[1..] && part + "/" + s[1..] == part + s;
    } else {
      PartsAreJoined(s[1..], part + [s[0]]);
      assert part + [s[0]] + s[1..] == part + s;
    }
  }

  lemma {:induction false} PartsHaveNoSlash(s: string, part: string, c: char)
    requires '/' !in part
    ensures forall p :: p in Parts(s, part) ==> '/' !in p
    ensures c !in s && c !in part ==> forall p :: p in Parts(s, part) ==> c !in p
    decreases |s|
  {
    if s == "" {
    } else if s[0] == '/' {
      PartsHaveNoSlash(s[1..], "", c);
    } else {
      PartsHaveNoSlash(s[1..], part + [s[0]], c);
    }
  }

  lemma {:induction false} JoinedIsSplit(parts: seq<string>, part: string)
    requires AllNames(parts)
    ensures Parts(Joined(parts), part) == [part + parts[0]] + parts[1..]
    decreases |parts|
  {
    hide Parts;
    assert parts[0] in parts && Name(parts[0]);
    if |parts| == 1 {
      NameIsOnePart(parts[0], "", part);
      assert parts[1..] == [];
    } else {
      assert AllNames(parts[1..]);
      NameIsOnePart(parts[0], Joined(parts[1..]), part);
      JoinedIsSplit(parts[1..], "");
      assert "" + parts[1..][0] == parts[1..][0] && [parts[1..][0]] + parts[1..][1..] == parts[1..];
    }
  }

  lemma {:induction false} NameIsOnePart(name: string, rest: string, part: string)
    requires '/' !in name
    ensures Parts(name + "/" + rest, part) == [part + name] + Parts(rest, "")
    ensures Parts(name, part) == [part + name]
    decreases |name|
  {
    var whole := name + "/" + rest;
    if name == "" {
      assert whole[1..] == rest && part + name == part;
    } else {
      assert whole[1..] == name[1..] + "/" + rest;
      NameIsOnePart(name[1..], rest, part + [name[0]]);
      assert part + [name[0]] + name[1..] == part + name;
    }
  }

  lemma {:induction false} RelativeExactly(path: string)
    ensures Normalized(path) <==> Relative(path)
  {
    hide Parts, Joined;
    PartsAreJoined(path, "");
    PartsHaveNoSlash(path, "", '\\');
    assert "" + path == path;
    if Normalized(path) {
      forall part | part in Parts(path, "") ensures Name(part) {
        assert part != "" && part != "." && part != "..";
      }
      assert AllNames(Parts(path, ""));
    }
    if parts :| AllNames(parts) && path == Joined(parts) {
      JoinedIsSplit(parts, "");
      assert Parts(path, "") == parts by { assert [parts[0]] + parts[1..] == parts && "" + parts[0] == parts[0]; }
      JoinedHasNo(parts, '\\');
      assert parts[0] in parts;
      JoinedBegins(parts);
    }
  }

  lemma {:induction false} JoinedHasNo(parts: seq<string>, c: char)
    requires AllNames(parts) && c == '\\'
    ensures c !in Joined(parts)
    decreases |parts|
  {
    assert parts[0] in parts && Name(parts[0]);
    if |parts| > 1 {
      assert AllNames(parts[1..]);
      JoinedHasNo(parts[1..], c);
    }
  }

  lemma JoinedBegins(parts: seq<string>)
    requires AllNames(parts)
    ensures Joined(parts) != "" && Joined(parts)[0] != '/'
  {
    assert parts[0] in parts && Name(parts[0]) && parts[0][0] in parts[0];
    assert Joined(parts)[0] == parts[0][0];
  }

  lemma {:induction false} HoldsExactly(fs: FileSystem, rules: Rules, e: LockEntry)
    ensures EntryHolds(fs, rules, e) <==> Holds(fs, rules, e)
  {
    hide Normalized, Relative, InsideOneOf, Below, IsDigest, Hexadecimal;
    if e.Locked? {
      ShapedExactly(rules, e.path);
      HexadecimalExactly(e.sha256);
    }
    hide Shaped, Supported;
  }

  lemma {:induction false} ShapedExactly(rules: Rules, path: string)
    ensures Normalized(path) && InsideOneOf(path, rules.lockedRoots) && Supported(path, rules) <==> Shaped(rules, path)
  {
    hide Normalized, Relative, InsideOneOf, Below;
    RelativeExactly(path);
    InsideExactly(path, rules.lockedRoots);
    InsideExactly(path, rules.curatedSkillRoots);
    BelowExactly(rules.curatedRoot, path);
  }

  lemma {:induction false} InOrderExactly(rules: Rules, lock: seq<LockEntry>)
    requires forall i :: 0 <= i < |lock| ==> lock[i].Locked?
    ensures StrictlyIncreasing(rules, lock) <==> InOrder(rules, lock)
  {
    if InOrder(rules, lock) {
      forall i | 0 < i < |lock| ensures rules.precedes(lock[i - 1].path, lock[i].path) {
        assert i == (i - 1) + 1;
      }
    }
  }

  lemma NamesExactly(lock: seq<LockEntry>, path: string)
    ensures Locks(lock, path) <==> Names(lock, path)
  {
  }

  /** What `VerifyBundle` accepts, and nothing else, is such a bundle. */
  lemma {:induction false} AcceptedExactly(fs: FileSystem, rules: Rules, lock: seq<LockEntry>)
    ensures TreeFits(fs, rules.lockedRoots) && LockHolds(fs, rules, lock)
            && (forall path :: Locks(lock, path) <==> FileUnder(fs, rules.lockedRoots, path))
       <==> Accepted(fs, rules, lock)
  {
    hide TreeFits, WithinLimits, EntryHolds, Holds, StrictlyIncreasing, InOrder, Locks, Names, FileUnder;
    WithinLimitsExactly(fs, rules.lockedRoots);
    forall i | 0 <= i < |lock|
      ensures EntryHolds(fs, rules, lock[i]) <==> Holds(fs, rules, lock[i])
      ensures Holds(fs, rules, lock[i]) ==> lock[i].Locked?
    {
      HoldsExactly(fs, rules, lock[i]);
      HeldIsLocked(fs, rules, lock[i]);
    }
    forall path ensures Locks(lock, path) <==> Names(lock, path) {
      NamesExactly(lock, path);
    }
    if forall i :: 0 <= i < |lock| ==> Holds(fs, rules, lock[i]) {
      InOrderExactly(rules, lock);
    }
  }

  lemma HeldIsLocked(fs: FileSystem, rules: Rules, e: LockEntry)
    ensures Holds(fs, rules, e) ==> e.Locked?
  {
    hide Shaped, Hexadecimal;
  }

  // ----- refusals

  /** What is wrong with a record by itself, the first thing first. */
  ghost function Misshapen(rules: Rules, e: LockEntry): Option<LockError> {
    if e.Malformed? then Some(RecordMalformed)
    else if !Relative(e.path) then Some(PathNotRelative)
    else if !(exists root :: root in rules.lockedRoots && Below(root, e.path)) then Some(PathOutsideRoots)
    else if !Shaped(rules, e.path) then Some(PathUnsupported)
    else if !Hexadecimal(e.sha256) then Some(DigestMalformed)
    else None
  }

  /** And what is wrong with it behind records that hold. */
  ghost predicate AtFault(fs: FileSystem, rules: Rules, lock: seq<LockEntry>, i: nat, e: LockError)
    requires i < |lock|
  {
    if lock[i].Malformed? || Misshapen(rules, lock[i]).Some? then Misshapen(rules, lock[i]) == Some(e)
    else
      var path := lock[i].path;
      if Names(lock[..i], path) then e == DuplicatePath
      else if i > 0 && lock[i - 1].Locked? && !rules.precedes(lock[i - 1].path, path) then e == NotSorted
      else if !SmallFile(fs.node(path)) then e == FileUnreadable
      else rules.sha256(fs.node(path).contents) != lock[i].sha256 && e == DigestMismatch
  }

  lemma {:induction false} MisshapenExactly(rules: Rules, e: LockEntry)
    ensures EntryFault(rules, e) == Misshapen(rules, e)
  {
    hide Normalized, Relative, InsideOneOf, Below, Shaped, Supported, IsDigest, Hexadecimal;
    if e.Locked? {
      RelativeExactly(e.path);
      InsideExactly(e.path, rules.lockedRoots);
      ShapedExactly(rules, e.path);
      HexadecimalExactly(e.sha256);
    }
  }

  lemma {:induction false} FaultByCause(fs: FileSystem, rules: Rules, lock: seq<LockEntry>, i: nat, e: LockError)
    requires i < |lock| && LockHolds(fs, rules, lock[..i])
    ensures RecordFault(fs, rules, lock, i) == Some(e) <==> AtFault(fs, rules, lock, i, e)
  {
    MisshapenExactly(rules, lock[i]);
    if i > 0 {
      assert lock[..i][i - 1].Locked?;
    }
    hide Misshapen, EntryFault, LockHolds, Locks, Names;
    if lock[i].Locked? {
      NamesExactly(lock[..i], lock[i].path);
    }
  }
}
