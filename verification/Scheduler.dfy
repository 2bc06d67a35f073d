/**
 * Job admission (`src/autonomy/scheduler.ts`): what the selection loop selects, and when reading only
 * the oldest few candidates selects the same.
 */
module Scheduler {
  import opened Prelude
  import opened StableSort
  import opened JsText
  import opened Finite

  const MAX_CONCURRENT_JOBS: nat := 8

  datatype Candidate = Candidate(jobId: string, projectId: string, queueSeq: nat)

  // ----- the order of the queue

  /** `compareCandidates(a, b) < 0` */
  predicate Precedes(a: Candidate, b: Candidate) {
    a.queueSeq < b.queueSeq || (a.queueSeq == b.queueSeq && TextLess(a.jobId, b.jobId))
  }

  lemma PrecedesIsOrder()
    ensures StrictWeakOrder(Precedes)
  {
    forall a, b ensures Precedes(a, b) ==> !Precedes(b, a) {
      TextLessIsTotal(a.jobId, b.jobId);
    }
    forall a, b, c | !Precedes(b, a) && !Precedes(c, b) ensures !Precedes(c, a) {
      NotAfterIsTransitive(a, b, c);
    }
  }

  lemma NotAfterIsTransitive(a: Candidate, b: Candidate, c: Candidate)
    requires !Precedes(b, a) && !Precedes(c, b)
    ensures !Precedes(c, a)
  {
    TextLessIsTotal(a.jobId, b.jobId);
    TextLessIsTotal(b.jobId, c.jobId);
    TextLessIsTotal(a.jobId, c.jobId);
    if TextLess(a.jobId, b.jobId) && TextLess(b.jobId, c.jobId) {
      TextLessIsTransitive(a.jobId, b.jobId, c.jobId);
    }
  }

  function Ordered(s: seq<Candidate>): seq<Candidate> { Sort(s, Precedes) }

  /** A queue position and a job id together name one candidate. */
  predicate Keyed(s: seq<Candidate>) {
    forall x, y :: x in s && y in s && x.queueSeq == y.queueSeq && x.jobId == y.jobId ==> x == y
  }

  lemma KeyedSeparates(s: seq<Candidate>)
    requires Keyed(s)
    ensures Separates(s, Precedes)
  {
    forall i, j | 0 <= i < |s| && 0 <= j < |s| && !Precedes(s[i], s[j]) && !Precedes(s[j], s[i]) ensures s[i] == s[j] {
      TextLessIsTotal(s[i].jobId, s[j].jobId);
    }
  }

  // ----- selection

  function ResourceKey(projectId: string): string { "project:" + projectId + ":pipeline" }

  lemma ResourceKeyIsInjective(p: string, q: string)
    requires ResourceKey(p) == ResourceKey(q)
    ensures p == q
  {
    assert ResourceKey(p)[8..|ResourceKey(p)| - 9] == p;
    assert ResourceKey(q)[8..|ResourceKey(q)| - 9] == q;
  }

  /** In order: the first candidate of each project that is not paused, unless the project is held. */
  function Eligible(ordered: seq<Candidate>, paused: set<string>, held: set<string>, seen: set<string>): seq<Candidate>
  {
    if ordered == [] then []
    else
      var c := ordered[0];
      if c.projectId in paused || c.projectId in seen then Eligible(ordered[1..], paused, held, seen)
      else if ResourceKey(c.projectId) in held then Eligible(ordered[1..], paused, held, seen + {c.projectId})
      else [c] + Eligible(ordered[1..], paused, held, seen + {c.projectId})
  }

  datatype SelectionError = SlotsOutOfRange

  function SelectOldestEligible(candidates: seq<Candidate>, paused: set<string>, held: set<string>, slots: int)
    : Result<seq<Candidate>, SelectionError>
  {
    if slots < 0 || slots > MAX_CONCURRENT_JOBS then Err(SlotsOutOfRange)
    else Ok(Take(Eligible(Ordered(candidates), paused, held, {}), slots))
  }

  /** `selectOldestEligibleAdmissions` as its loop performs it. */
  method Select(candidates: seq<Candidate>, paused: set<string>, held: set<string>, slots: int)
    returns (result: Result<seq<Candidate>, SelectionError>)
    ensures result == SelectOldestEligible(candidates, paused, held, slots)
  {
    if slots < 0 || slots > MAX_CONCURRENT_JOBS {
      return Err(SlotsOutOfRange);
    }
    hide ResourceKey, Ordered;
    var orderedCandidates := Ordered(candidates);
    var selected: seq<Candidate> := [];
    var seenProjects: set<string> := {};
    ghost var all := Eligible(orderedCandidates, paused, held, {});
    for i := 0 to |orderedCandidates|
      invariant |selected| <= slots
      invariant all == selected + Eligible(orderedCandidates[i..], paused, held, seenProjects)
    {
      var candidate := orderedCandidates[i];
      assert orderedCandidates[i..][1..] == orderedCandidates[i + 1..];
      if |selected| >= slots {
        assert all[..slots] == selected;
        assert |all| <= slots ==> all == selected;
        return Ok(selected);
      }
      if candidate.projectId in paused || candidate.projectId in seenProjects {
        continue;
      }
      seenProjects := seenProjects + {candidate.projectId};
      if ResourceKey(candidate.projectId) in held {
        continue;
      }
      selected := selected + [candidate];
    }
    assert orderedCandidates[|orderedCandidates|..] == [] && all == selected;
    return Ok(selected);
  }

  /**
   * The selection is refused exactly outside 0 to 8 slots, and otherwise takes the oldest eligible candidates, one a
   * slot.
   */
  lemma SelectionIsBounded(candidates: seq<Candidate>, paused: set<string>, held: set<string>, slots: int)
    ensures var selection := SelectOldestEligible(candidates, paused, held, slots);
            if 0 <= slots <= 8
            then selection.Ok? && |selection.value| <= slots
                 && selection.value <= Eligible(Ordered(candidates), paused, held, {})
                 && (|selection.value| == slots || selection.value == Eligible(Ordered(candidates), paused, held, {}))
            else selection == Err(SlotsOutOfRange)
  {
    hide Eligible, Ordered;
  }

  /** The oldest of its project among `ordered`, in a project that is neither paused, held nor seen. */
  predicate OldestEligible(ordered: seq<Candidate>, i: int, paused: set<string>, held: set<string>, seen: set<string>) {
    && 0 <= i < |ordered|
    && ordered[i].projectId !in paused && ResourceKey(ordered[i].projectId) !in held && ordered[i].projectId !in seen
    && forall j :: 0 <= j < i ==> ordered[j].projectId != ordered[i].projectId
  }

  /** Exactly the oldest candidates of eligible projects are eligible. */
  lemma {:induction false} EligibleIsExact(ordered: seq<Candidate>, paused: set<string>, held: set<string>,
                                           seen: set<string>, c: Candidate)
    ensures c in Eligible(ordered, paused, held, seen)
       <==> exists i :: OldestEligible(ordered, i, paused, held, seen) && ordered[i] == c
  {
    hide ResourceKey;
    if ordered != [] {
      var first, rest := ordered[0], ordered[1..];
      var skipped := first.projectId in paused || first.projectId in seen;
      var seen' := if skipped then seen else seen + {first.projectId};
      EligibleIsExact(rest, paused, held, seen', c);
      if c in Eligible(rest, paused, held, seen') {
        var i :| OldestEligible(rest, i, paused, held, seen') && rest[i] == c;
        assert OldestEligible(ordered, i + 1, paused, held, seen);
      }
      if exists i :: OldestEligible(ordered, i, paused, held, seen) && ordered[i] == c {
        var i :| OldestEligible(ordered, i, paused, held, seen) && ordered[i] == c;
        if i > 0 {
          assert OldestEligible(rest, i - 1, paused, held, seen');
        } else {
          assert c in Eligible(ordered, paused, held, seen);
        }
      }
      if !skipped && ResourceKey(first.projectId) !in held {
        assert OldestEligible(ordered, 0, paused, held, seen);
      }
    }
  }

  /** The selection depends on which candidates there are, not on the order they come in. */
  lemma SelectionIgnoresOrder(a: seq<Candidate>, b: seq<Candidate>, paused: set<string>, held: set<string>, slots: int)
    requires multiset(a) == multiset(b) && Keyed(a)
    ensures SelectOldestEligible(a, paused, held, slots) == SelectOldestEligible(b, paused, held, slots)
  {
    hide Sort, Sorted, Separates, StrictWeakOrder, Eligible, Keyed;
    PrecedesIsOrder();
    SortIsSort(a, Precedes);
    SortIsSort(b, Precedes);
    SameElementsKeyed(a, Ordered(a));
    KeyedSeparates(Ordered(a));
    SortedIsUnique(Ordered(a), Ordered(b), Precedes);
  }

  lemma SameElementsKeyed(a: seq<Candidate>, b: seq<Candidate>)
    requires Keyed(a) && multiset(a) == multiset(b)
    ensures Keyed(b)
  {
    forall x | x in b ensures x in a {
      assert x in multiset(b);
    }
  }

  // ----- truncation

  /** `ROW_NUMBER() ... = 1`: the oldest candidate of each project, in order. */
  function OldestPerProject(ordered: seq<Candidate>, seen: set<string>): seq<Candidate> {
    if ordered == [] then []
    else if ordered[0].projectId in seen then OldestPerProject(ordered[1..], seen)
    else [ordered[0]] + OldestPerProject(ordered[1..], seen + {ordered[0].projectId})
  }

  function ProjectsOf(s: seq<Candidate>): set<string> { set c | c in s :: c.projectId }

  /** A paused or held project takes up a place in the window without being eligible. */
  predicate Blocked(c: Candidate, paused: set<string>, held: set<string>) {
    c.projectId in paused || ResourceKey(c.projectId) in held
  }

  function CountBlocked(s: seq<Candidate>, paused: set<string>, held: set<string>): nat {
    if s == [] then 0 else (if Blocked(s[0], paused, held) then 1 else 0) + CountBlocked(s[1..], paused, held)
  }

  /** Those of a list with one candidate per project that are not blocked. */
  function Unblocked(s: seq<Candidate>, paused: set<string>, held: set<string>): seq<Candidate> {
    if s == [] then [] else (if Blocked(s[0], paused, held) then [] else [s[0]]) + Unblocked(s[1..], paused, held)
  }

  /** Keeping only the oldest of each project loses nothing eligible. */
  lemma {:induction false} DedupKeepsEligible(ordered: seq<Candidate>, paused: set<string>, held: set<string>,
                                              seen: set<string>, seen': set<string>)
    requires forall q :: q !in paused ==> (q in seen <==> q in seen')
    ensures Eligible(ordered, paused, held, seen') == Unblocked(OldestPerProject(ordered, seen), paused, held)
  {
    hide ResourceKey;
    if ordered != [] {
      var p := ordered[0].projectId;
      if p in seen {
        DedupKeepsEligible(ordered[1..], paused, held, seen, seen');
      } else if p in paused {
        DedupKeepsEligible(ordered[1..], paused, held, seen + {p}, seen');
        FirstOfOldest(ordered, seen);
      } else {
        DedupKeepsEligible(ordered[1..], paused, held, seen + {p}, seen' + {p});
        FirstOfOldest(ordered, seen);
      }
    }
  }

  lemma FirstOfOldest(ordered: seq<Candidate>, seen: set<string>)
    requires ordered != [] && ordered[0].projectId !in seen
    ensures var rest := OldestPerProject(ordered[1..], seen + {ordered[0].projectId});
            OldestPerProject(ordered, seen) == [ordered[0]] + rest && ([ordered[0]] + rest)[1..] == rest
  {
  }

  /** One candidate per project. */
  predicate ProjectsDistinct(s: seq<Candidate>) {
    forall i, j :: 0 <= i < j < |s| ==> s[i].projectId != s[j].projectId
  }

  lemma {:induction false} OldestAreDistinct(ordered: seq<Candidate>, seen: set<string>)
    ensures ProjectsDistinct(OldestPerProject(ordered, seen))
    ensures forall c :: c in OldestPerProject(ordered, seen) ==> c.projectId !in seen && c in ordered
  {
    if ordered != [] {
      OldestAreDistinct(ordered[1..], if ordered[0].projectId in seen then seen else seen + {ordered[0].projectId});
    }
  }

  lemma {:induction false} UnblockedOfConcatenation(a: seq<Candidate>, b: seq<Candidate>, paused: set<string>,
                                                    held: set<string>)
    ensures Unblocked(a + b, paused, held) == Unblocked(a, paused, held) + Unblocked(b, paused, held)
  {
    hide Blocked;
    if a == [] {
      assert a + b == b;
    } else {
      assert (a + b)[1..] == a[1..] + b;
      UnblockedOfConcatenation(a[1..], b, paused, held);
    }
  }

  lemma {:induction false} BlockedAndUnblocked(s: seq<Candidate>, paused: set<string>, held: set<string>)
    ensures |Unblocked(s, paused, held)| + CountBlocked(s, paused, held) == |s|
  {
    hide Blocked;
    if s != [] {
      BlockedAndUnblocked(s[1..], paused, held);
    }
  }

  /**
   * Selecting from a window of the oldest candidates is selecting from all of them exactly when what the window blocks
   * leaves enough room, or nothing eligible lies beyond it.
   */
  lemma WindowIsExact(oldest: seq<Candidate>, paused: set<string>, held: set<string>, window: nat, slots: nat)
    requires slots <= window
    ensures Take(Unblocked(Take(oldest, window), paused, held), slots) == Take(Unblocked(oldest, paused, held), slots)
       <==> CountBlocked(Take(oldest, window), paused, held) <= window - slots || |oldest| <= window
            || Unblocked(oldest[window..], paused, held) == []
  {
    if |oldest| > window {
      var inside, beyond := oldest[..window], oldest[window..];
      assert oldest == inside + beyond;
      UnblockedOfConcatenation(inside, beyond, paused, held);
      BlockedAndUnblocked(inside, paused, held);
      PrefixTaken(Unblocked(inside, paused, held), Unblocked(beyond, paused, held), slots);
    }
  }

  lemma PrefixTaken<T>(a: seq<T>, b: seq<T>, n: nat)
    ensures Take(a, n) == Take(a + b, n) <==> |a| >= n || b == []
  {
    if |a| >= n {
      assert (a + b)[..n] == a[..n];
    } else if b == [] {
      assert a + b == a;
    } else {
      assert |Take(a + b, n)| > |Take(a, n)|;
    }
  }

  /** Distinct projects that are held need as many held keys. */
  lemma {:induction false} BlockedAtMostHeld(s: seq<Candidate>, held: set<string>)
    requires ProjectsDistinct(s)
    ensures CountBlocked(s, {}, held) <= |held|
    decreases |s|
  {
    hide ResourceKey;
    if s != [] {
      var key := ResourceKey(s[0].projectId);
      if key in held {
        BlockedAtMostHeld(s[1..], held - {key});
        forall i | 0 < i < |s| ensures ResourceKey(s[i].projectId) != key {
          if ResourceKey(s[i].projectId) == key {
            ResourceKeyIsInjective(s[i].projectId, s[0].projectId);
          }
        }
        SameBlocked(s[1..], held, held - {key});
      } else {
        BlockedAtMostHeld(s[1..], held);
      }
    }
  }

  lemma {:induction false} SameBlocked(s: seq<Candidate>, held: set<string>, held': set<string>)
    requires forall i ::
               0 <= i < |s| ==> (ResourceKey(s[i].projectId) in held <==> ResourceKey(s[i].projectId) in held')
    ensures CountBlocked(s, {}, held) == CountBlocked(s, {}, held')
  {
    if s != [] {
      SameBlocked(s[1..], held, held');
    }
  }

  // ----- a tick of the scheduler

  /** What the repository holds: the queue, the occupied count, and the keys of held project claims in claim order. */
  datatype Repository = Repository(queued: seq<Candidate>, occupied: nat, projectClaims: seq<string>)

  function ListOldestQueuedPerProject(r: Repository, limit: nat): seq<Candidate> {
    Take(OldestPerProject(Ordered(r.queued), {}), limit)
  }

  function KeysOf(claims: seq<string>): set<string> { set k | k in claims }

  function HeldProjectKeys(r: Repository, limit: nat): set<string> { KeysOf(Take(r.projectClaims, limit)) }

  datatype TickError = MaxConcurrentOutOfRange

  /** The candidates a tick goes on to admit, one by one. `paused` is None when the pause list could not be read. */
  function Tick(r: Repository, maxConcurrent: int, paused: Option<set<string>>): Result<seq<Candidate>, TickError> {
    if maxConcurrent < 1 || maxConcurrent > MAX_CONCURRENT_JOBS then Err(MaxConcurrentOutOfRange)
    else if r.occupied >= maxConcurrent || paused.None? then Ok([])
    else
      var slots := maxConcurrent - r.occupied;
      var limit := r.occupied + slots;
      Ok(Take(Eligible(Ordered(ListOldestQueuedPerProject(r, limit)), paused.value, HeldProjectKeys(r, limit), {}),
              slots))
  }

  method RunTick(r: Repository, maxConcurrent: int, paused: Option<set<string>>)
    returns (result: Result<seq<Candidate>, TickError>)
    ensures result == Tick(r, maxConcurrent, paused)
  {
    if maxConcurrent < 1 || maxConcurrent > MAX_CONCURRENT_JOBS {
      return Err(MaxConcurrentOutOfRange);
    }
    var availableSlots := if maxConcurrent > r.occupied then maxConcurrent - r.occupied else 0;
    if availableSlots == 0 || paused.None? {
      return Ok([]);
    }
    var candidateLimit := r.occupied + availableSlots;
    var claimLimit := if candidateLimit < 100 then candidateLimit else 100;
    var selected :=
      Select(ListOldestQueuedPerProject(r, candidateLimit), paused.value, HeldProjectKeys(r, claimLimit),
             availableSlots);
    return Ok(selected.value);
  }

  lemma {:induction false} OldestStaySorted(ordered: seq<Candidate>, seen: set<string>)
    requires Sorted(ordered, Precedes)
    ensures Sorted(OldestPerProject(ordered, seen), Precedes)
  {
    hide Precedes;
    if ordered != [] {
      var seen' := if ordered[0].projectId in seen then seen else seen + {ordered[0].projectId};
      OldestStaySorted(ordered[1..], seen');
      OldestAreDistinct(ordered[1..], seen');
      var rest := OldestPerProject(ordered[1..], seen');
      forall i | 0 <= i < |rest| ensures !Precedes(rest[i], ordered[0]) {
        assert rest[i] in ordered[1..];
        var j :| 0 <= j < |ordered[1..]| && ordered[1..][j] == rest[i];
        assert ordered[j + 1] == rest[i];
      }
    }
  }

  // ----- what a tick may admit

  /** The oldest of every project come in order, one for each, and no queued candidate of the project goes before it. */
  lemma {:induction false} OldestIsOldest(ordered: seq<Candidate>, seen: set<string>, c: Candidate, q: Candidate)
    requires Sorted(ordered, Precedes) && c in OldestPerProject(ordered, seen)
    requires q in ordered && q.projectId == c.projectId
    ensures !Precedes(q, c)
  {
    hide Precedes;
    PrecedesIsOrder();
    var first := ordered[0];
    var seen' := if first.projectId in seen then seen else seen + {first.projectId};
    OldestAreDistinct(ordered[1..], seen');
    if c in OldestPerProject(ordered[1..], seen') {
      OldestAreDistinct(ordered, seen);
      if q in ordered[1..] {
        OldestIsOldest(ordered[1..], seen', c, q);
      } else if first.projectId in seen {
        OldestAreDistinct(ordered, seen);
      }
    } else {
      var i :| 0 <= i < |ordered| && ordered[i] == q;
    }
  }

  /** What is eligible comes in order, one of each project, and none of a paused, held or seen one. */
  lemma {:induction false} EligibleAreApart(ordered: seq<Candidate>, paused: set<string>, held: set<string>,
                                            seen: set<string>)
    requires Sorted(ordered, Precedes)
    ensures var e := Eligible(ordered, paused, held, seen);
            && (forall c :: c in e ==> c in ordered && c.projectId !in paused && c.projectId !in seen
                                       && ResourceKey(c.projectId) !in held)
            && (forall i, j :: 0 <= i < j < |e| ==> e[i].projectId != e[j].projectId && !Precedes(e[j], e[i]))
    decreases |ordered|
  {
    hide ResourceKey, Precedes;
    if ordered != [] {
      var p := ordered[0].projectId;
      EligibleAreApart(ordered[1..], paused, held, if p in paused || p in seen then seen else seen + {p});
      var rest := Eligible(ordered[1..], paused, held, seen + {p});
      forall j | 0 <= j < |rest| && p !in paused && p !in seen ensures !Precedes(rest[j], ordered[0]) {
        assert rest[j] in ordered[1..];
        var i :| 0 <= i < |ordered[1..]| && ordered[1..][i] == rest[j];
        assert ordered[i + 1] == rest[j];
      }
    }
  }

  /** By place in the queue, and among equals by job id. */
  predicate ComesFirst(c: Candidate, q: Candidate) {
    c.queueSeq < q.queueSeq || (c.queueSeq == q.queueSeq && !TextLess(q.jobId, c.jobId))
  }

  /**
   * Oldest first, no more than the free slots: each queued, the oldest of its project, no two of one project, and none
   * of a project that is paused or whose pipeline is claimed.
   */
  predicate Admissible(r: Repository, slots: int, paused: set<string>, claims: seq<string>, admitted: seq<Candidate>) {
    && |admitted| <= slots
    && (forall c :: c in admitted ==>
          && c in r.queued && c.projectId !in paused && "project:" + c.projectId + ":pipeline" !in claims
          && forall q :: q in r.queued && q.projectId == c.projectId ==> ComesFirst(c, q))
    && (forall i, j :: 0 <= i < j < |admitted| ==>
          admitted[i].projectId != admitted[j].projectId && ComesFirst(admitted[i], admitted[j]))
  }

  /**
   * What a tick does, by its cause: it refuses a limit outside 1 to 8; it admits nothing while no slot is free or the
   * pause list cannot be read, which never counts as an empty one; otherwise what it admits is admissible.
   */
  lemma TickByCause(r: Repository, maxConcurrent: int, paused: Option<set<string>>)
    ensures var tick := Tick(r, maxConcurrent, paused);
            if !(1 <= maxConcurrent <= 8) then tick == Err(MaxConcurrentOutOfRange)
            else if paused.None? || maxConcurrent <= r.occupied then tick == Ok([])
            else tick.Ok?
                 && Admissible(r, maxConcurrent - r.occupied, paused.value, Take(r.projectClaims, maxConcurrent),
                               tick.value)
  {
    hide Sort, Sorted, StrictWeakOrder, OldestPerProject, Eligible, Precedes, ComesFirst;
    if 1 <= maxConcurrent <= 8 && paused.Some? && r.occupied < maxConcurrent {
      var queue := Ordered(r.queued);
      var oldest := OldestPerProject(queue, {});
      var window := Take(oldest, maxConcurrent);
      PrecedesIsOrder();
      SortIsSort(r.queued, Precedes);
      OldestStaySorted(queue, {});
      TakeKeepsSorted(oldest, maxConcurrent);
      SortedStays(window, Precedes);
      OldestAreDistinct(queue, {});
      EligibleAreApart(window, paused.value, HeldProjectKeys(r, maxConcurrent), {});
      var eligible := Eligible(window, paused.value, HeldProjectKeys(r, maxConcurrent), {});
      var admitted := Take(eligible, maxConcurrent - r.occupied);
      SameElements(r.queued, queue);
      forall c | c in admitted
        ensures c in r.queued && c.projectId !in paused.value
                && "project:" + c.projectId + ":pipeline" !in Take(r.projectClaims, maxConcurrent)
        ensures forall q :: q in r.queued && q.projectId == c.projectId ==> ComesFirst(c, q)
      {
        TakenOrDropped(eligible, maxConcurrent - r.occupied, c);
        TakenOrDropped(oldest, maxConcurrent, c);
        forall q | q in r.queued && q.projectId == c.projectId ensures ComesFirst(c, q) {
          OldestIsOldest(queue, {}, c, q);
          NotAfter(q, c);
        }
      }
      forall i, j | 0 <= i < j < |admitted| ensures ComesFirst(admitted[i], admitted[j]) {
        NotAfter(eligible[j], eligible[i]);
      }
    }
  }

  lemma NotAfter(q: Candidate, c: Candidate)
    requires !Precedes(q, c)
    ensures ComesFirst(c, q)
  {
  }

  lemma SameElements(a: seq<Candidate>, b: seq<Candidate>)
    requires multiset(a) == multiset(b)
    ensures forall c :: c in a <==> c in b
  {
    forall c ensures c in a <==> c in b {
      assert c in multiset(a) <==> c in multiset(b);
    }
  }

  /** What a tick would admit if it read the whole queue. */
  function FullSelection(r: Repository, paused: set<string>, slots: nat): seq<Candidate> {
    Take(Eligible(Ordered(r.queued), paused, KeysOf(r.projectClaims), {}), slots)
  }

  /** The window a tick reads. */
  function Window(r: Repository, maxConcurrent: nat): seq<Candidate> { ListOldestQueuedPerProject(r, maxConcurrent) }

  /**
   * With all claims in sight, a tick admits what the whole queue would give exactly when the paused and held projects
   * in its window are no more than the occupied slots, or nothing eligible waits beyond the window.
   */
  lemma TickIsExact(r: Repository, maxConcurrent: nat, paused: set<string>)
    requires r.occupied < maxConcurrent <= MAX_CONCURRENT_JOBS && |r.projectClaims| <= r.occupied
    ensures var held := KeysOf(r.projectClaims); var oldest := OldestPerProject(Ordered(r.queued), {});
            (Tick(r, maxConcurrent, Some(paused)) == Ok(FullSelection(r, paused, maxConcurrent - r.occupied))
         <==> CountBlocked(Window(r, maxConcurrent), paused, held) <= r.occupied || |oldest| <= maxConcurrent
               || Unblocked(oldest[maxConcurrent..], paused, held) == [])
  {
    hide Eligible, OldestPerProject, Sort, Sorted, StrictWeakOrder, Unblocked, CountBlocked;
    var held, oldest, slots :=
      KeysOf(r.projectClaims), OldestPerProject(Ordered(r.queued), {}), maxConcurrent - r.occupied;
    PrecedesIsOrder();
    SortIsSort(r.queued, Precedes);
    OldestStaySorted(Ordered(r.queued), {});
    TakeKeepsSorted(oldest, maxConcurrent);
    SortedStays(Take(oldest, maxConcurrent), Precedes);
    DedupKeepsEligible(Ordered(r.queued), paused, held, {}, {});
    OldestAreDistinct(Ordered(r.queued), {});
    WindowIsItsOldest(oldest, maxConcurrent, paused, held);
    WindowIsExact(oldest, paused, held, maxConcurrent, slots);
  }

  lemma TakeKeepsSorted(s: seq<Candidate>, n: nat)
    requires Sorted(s, Precedes)
    ensures Sorted(Take(s, n), Precedes)
  {
  }

  lemma WindowIsItsOldest(oldest: seq<Candidate>, n: nat, paused: set<string>, held: set<string>)
    requires ProjectsDistinct(oldest)
    ensures Eligible(Take(oldest, n), paused, held, {}) == Unblocked(Take(oldest, n), paused, held)
  {
    hide Eligible, Unblocked, OldestPerProject;
    DistinctAreOldest(Take(oldest, n), {});
    DedupKeepsEligible(Take(oldest, n), paused, held, {}, {});
  }

  lemma {:induction false} DistinctAreOldest(s: seq<Candidate>, seen: set<string>)
    requires ProjectsDistinct(s) && forall c :: c in s ==> c.projectId !in seen
    ensures OldestPerProject(s, seen) == s
  {
    if s != [] {
      DistinctAreOldest(s[1..], seen + {s[0].projectId});
      assert s == [s[0]] + s[1..];
    }
  }

  /**
   * The pigeonhole: when each occupied slot holds at most one project claim and no project is paused, reading only the
   * oldest few candidates loses nothing.
   */
  lemma TruncationLosesNothing(r: Repository, maxConcurrent: nat)
    requires r.occupied < maxConcurrent <= MAX_CONCURRENT_JOBS && |r.projectClaims| <= r.occupied
    ensures Tick(r, maxConcurrent, Some({})) == Ok(FullSelection(r, {}, maxConcurrent - r.occupied))
  {
    hide Tick, FullSelection, OldestPerProject, Sort, CountBlocked, Unblocked;
    TickIsExact(r, maxConcurrent, {});
    OldestAreDistinct(Ordered(r.queued), {});
    var held := KeysOf(r.projectClaims);
    BlockedAtMostHeld(Window(r, maxConcurrent), held);
    KeysAreFew(r.projectClaims);
  }

  lemma {:induction false} KeysAreFew(claims: seq<string>)
    ensures |KeysOf(claims)| <= |claims|
  {
    if claims != [] {
      KeysAreFew(claims[..|claims| - 1]);
      assert claims == claims[..|claims| - 1] + [claims[|claims| - 1]];
      assert KeysOf(claims) == KeysOf(claims[..|claims| - 1]) + {claims[|claims| - 1]};
    }
  }

  /**
   * With pauses it can lose: one paused project at the head of the queue starves another for as long as it is paused.
   */
  lemma PausedHeadStarves()
    ensures var r := Repository([Candidate("a", "paused", 1), Candidate("b", "other", 2)], 0, []);
            && Tick(r, 1, Some({"paused"})) == Ok([])
            && FullSelection(r, {"paused"}, 1) == [Candidate("b", "other", 2)]
  {
    hide Sort, Ordered, OldestPerProject, Eligible;
    PausedPair();
    PausedWindow();
    assert KeysOf([]) == {};
  }

  lemma PausedPair()
    ensures var a, b := Candidate("a", "paused", 1), Candidate("b", "other", 2);
            Ordered([a, b]) == [a, b] && Ordered([a]) == [a] && OldestPerProject([a, b], {}) == [a, b]
  {
    var a, b := Candidate("a", "paused", 1), Candidate("b", "other", 2);
    SortedStays([a, b], Precedes);
    SortedStays([a], Precedes);
    hide Sort;
    DistinctAreOldest([a, b], {});
  }

  lemma PausedWindow()
    ensures var a, b := Candidate("a", "paused", 1), Candidate("b", "other", 2);
            Take([a, b], 1) == [a] && Eligible([a], {"paused"}, {}, {}) == []
            && Eligible([a, b], {"paused"}, {}, {}) == [b]
  {
    var a, b := Candidate("a", "paused", 1), Candidate("b", "other", 2);
    assert [a, b][1..] == [b] && [b][1..] == [] && [a][1..] == [] && [a, b][..1] == [a];
    assert Eligible([b], {"paused"}, {}, {}) == [b];
    assert Eligible([a, b], {"paused"}, {}, {}) == Eligible([b], {"paused"}, {}, {});
  }
}
