/**
 * Whole runs of the protected connector: administration, requests begun and finished in any
 * interleaving, crashes that forget every call in flight, and restart recovery row by row.
 */
module ConnectorRuns {
  import opened Prelude
  import opened ConnectorProtocol
  import L = ConnectorLedger
  import opened ConnectorInvariant
  import A = ConnectorAuthority
  import Finite
  import Registry

  /** `serving` is false between a crash and the end of restart recovery. */
  datatype System = System(registry: Registry.Registry, tables: L.Tables, inflight: map<RequestKey, A.Call>,
                           serving: bool)

  const START := System(Registry.EMPTY, L.EMPTY, map[], true)

  datatype Label =
    | Administer(step: Registry.Step)
    | SetPolicy(policyKey: L.PolicyKey, digest: string, operations: seq<Operation>)
    | Enroll(projection: Projection, target: Target, credential: Option<string>, now: nat)
    | EnrollProtected(projectId: string, digest: string, operations: seq<Operation>,
                      projection: Projection, target: Target, credential: Option<string>, now: nat)
    | Begin(certificate: string, request: Request, env: A.Env)
    | Finish(key: RequestKey, execution: A.Execution, env: A.Env)
    | Crash
    | CrashAfterClaim(certificate: string, request: Request, now: nat)
    | Reconcile(key: RequestKey, receiptId: string, now: nat)
    | Serve

  function Keep(result: Result<L.Tables, L.StoreError>, otherwise: L.Tables): L.Tables {
    if result.Ok? then result.value else otherwise
  }

  /** One step. A step that is not possible in a state leaves it as it is. */
  function Step(s: System, l: Label): System {
    match l
    case Administer(step) => s.(registry := Registry.Next(s.registry, step))
    case SetPolicy(key, digest, operations) =>
      s.(tables := Keep(L.SetPolicy(s.registry, s.tables, key, digest, operations), s.tables))
    case Enroll(p, target, credential, now) =>
      s.(tables := Keep(L.EnrollBinding(s.registry, s.tables, p, target, credential, now), s.tables))
    case EnrollProtected(projectId, digest, operations, p, target, credential, now) =>
      s.(tables := Keep(L.EnrollProtectedBinding(s.registry, s.tables, projectId, digest, operations, p, target,
                                                 credential, now), s.tables))
    case Begin(certificate, request, env) => if s.serving then BeginStep(s, certificate, request, env) else s
    case Finish(key, execution, env) => if s.serving && key in s.inflight then FinishStep(s, key, execution, env) else s
    case Crash => s.(inflight := map[], serving := false)
    case CrashAfterClaim(certificate, request, now) =>
      if s.serving && ValidRequest(request) && A.InitialDenial(s.registry, s.tables, certificate, request, now).None?
      then s.(tables := L.ClaimRequest(s.tables, request, certificate, now).1, inflight := map[], serving := false)
      else s
    case Reconcile(key, receiptId, now) =>
      if !s.serving && key in s.tables.requests && s.tables.requests[key].state == L.Claimed
      then s.(tables := Keep(L.ReconcileRow(s.tables, s.tables.requests[key], receiptId, now), s.tables))
      else s
    case Serve => if NoneClaimed(s.tables) then s.(serving := true) else s
  }

  function BeginStep(s: System, certificate: string, request: Request, env: A.Env): System {
    var (begun, t') := A.Begin(s.registry, s.tables, certificate, request, env);
    s.(tables := t', inflight := if begun.Dispatched? then s.inflight[request.key := begun.call] else s.inflight)
  }

  function FinishStep(s: System, key: RequestKey, execution: A.Execution, env: A.Env): System
    requires key in s.inflight
  {
    var (_, t') := A.Finish(s.registry, s.tables, s.inflight[key], execution, env);
    s.(tables := t', inflight := s.inflight - {key})
  }

  predicate NoneClaimed(t: L.Tables) {
    forall k :: k in t.requests ==> t.requests[k].state != L.Claimed
  }

  function Run(labels: seq<Label>): System
    decreases |labels|
  {
    if labels == [] then START else Step(Run(labels[..|labels| - 1]), labels[|labels| - 1])
  }

  /** The state in which position `i` of a run is about to happen. */
  function At(labels: seq<Label>, i: nat): System
    requires i <= |labels|
  {
    Run(labels[..i])
  }

  lemma AtNext(labels: seq<Label>, i: nat)
    requires i < |labels|
    ensures At(labels, i + 1) == Step(At(labels, i), labels[i])
  {
    assert labels[..i + 1][..i] == labels[..i];
  }

  // ----- the invariant of every reachable state

  ghost predicate CallAwaited(t: L.Tables, key: RequestKey, call: A.Call) {
    && call.request.key == key
    && A.Awaited(t, call.request)
    && t.requests[key].certificate == call.certificate
  }

  ghost predicate CallsAwaited(s: System) {
    && (forall k :: k in s.inflight ==> CallAwaited(s.tables, k, s.inflight[k]))
    && (!s.serving ==> s.inflight == map[])
  }

  ghost predicate Reachable(s: System) {
    Registry.WellFormed(s.registry) && Inv(s.tables) && CallsAwaited(s)
  }

  lemma CallsKept(s: System, s': System)
    requires CallsAwaited(s) && A.RowsKept(s.tables, s'.tables)
    requires s'.inflight == s.inflight && s'.serving == s.serving
    ensures CallsAwaited(s')
  {
  }

  lemma RowsKeptTrivially(t: L.Tables, t': L.Tables)
    requires t'.requests == t.requests
    ensures A.RowsKept(t, t')
  {
  }

  lemma {:induction false} StepKeepsReachable(s: System, l: Label)
    requires Reachable(s)
    ensures Reachable(Step(s, l)) && Grows(s.tables, Step(s, l).tables)
  {
    hide Inv, Grows, CallsAwaited, BeginStep, FinishStep;
    var s' := Step(s, l);
    GrowsReflexive(s.tables);
    match l
    case Administer(step) =>
      Registry.StepKeepsRegistry(s.registry, step);
      RowsKeptTrivially(s.tables, s'.tables);
      CallsKept(s, s');
    case SetPolicy(key, digest, operations) =>
      PolicyKeepsInv(s.registry, s.tables, key, digest, operations);
      RowsKeptTrivially(s.tables, s'.tables);
      CallsKept(s, s');
    case Enroll(p, target, credential, now) =>
      EnrolmentKeepsInv(s.registry, s.tables, p, target, credential, now);
      RowsKeptTrivially(s.tables, s'.tables);
      CallsKept(s, s');
    case EnrollProtected(projectId, digest, operations, p, target, credential, now) =>
      ProtectedEnrolmentKeepsInv(s.registry, s.tables, projectId, digest, operations, p, target, credential, now);
      RowsKeptTrivially(s.tables, s'.tables);
      CallsKept(s, s');
    case Begin(certificate, request, env) => if s.serving { BeginKeepsReachable(s, certificate, request, env); }
    case Finish(key, execution, env) =>
      if s.serving && key in s.inflight { FinishKeepsReachable(s, key, execution, env); }
    case Crash => NoCalls(s');
    case CrashAfterClaim(certificate, request, now) =>
      ClaimKeepsInv(s.tables, request, certificate, now);
      if s' != s { NoCalls(s'); }
    case Reconcile(key, receiptId, now) =>
      if s' != s { ReconcileKeepsReachable(s, key, receiptId, now); }
    case Serve => ServingCalls(s);
  }

  lemma NoCalls(s: System)
    requires s.inflight == map[]
    ensures CallsAwaited(s)
  {
  }

  lemma ServingCalls(s: System)
    requires CallsAwaited(s)
    ensures CallsAwaited(s.(serving := true))
  {
  }

  lemma {:induction false} BeginKeepsReachable(s: System, certificate: string, request: Request, env: A.Env)
    requires Reachable(s) && s.serving
    ensures Reachable(BeginStep(s, certificate, request, env))
            && Grows(s.tables, BeginStep(s, certificate, request, env).tables)
  {
    hide Inv, Grows, A.Begin, A.AuthorityHolds, Registry.WellFormed;
    A.BeginEffect(s.registry, s.tables, certificate, request, env);
  }

  lemma {:induction false} FinishKeepsReachable(s: System, key: RequestKey, execution: A.Execution, env: A.Env)
    requires Reachable(s) && s.serving && key in s.inflight
    ensures Reachable(FinishStep(s, key, execution, env)) && Grows(s.tables, FinishStep(s, key, execution, env).tables)
  {
    hide Inv, Grows, A.Finish, A.FinishSucceeds, A.FinishFails, Registry.WellFormed;
    A.FinishEffect(s.registry, s.tables, s.inflight[key], execution, env);
  }

  lemma {:induction false} ReconcileKeepsReachable(s: System, key: RequestKey, receiptId: string, now: nat)
    requires Reachable(s) && !s.serving && key in s.tables.requests
    requires L.ReconcileRow(s.tables, s.tables.requests[key], receiptId, now).Ok?
    ensures var t' := L.ReconcileRow(s.tables, s.tables.requests[key], receiptId, now).value;
            Reachable(s.(tables := t')) && Grows(s.tables, t')
  {
    hide Inv, Grows, Registry.WellFormed, L.CompleteRequest;
    var row := s.tables.requests[key];
    GrowsReflexive(s.tables);
    if L.BindingOf(row.key, row.authority) in s.tables.bindings {
      CompletionKeepsInv(s.tables, L.RequestFromRow(row), L.InterruptedResponse(row, receiptId, now),
                         Some(s.tables.bindings[L.BindingOf(row.key, row.authority)].targetDigest),
                         L.RECONCILER_VERSION, now);
    }
  }

  lemma StartIsReachable()
    ensures Reachable(START)
  {
  }

  /** Every state of every run keeps the ledger invariant, and its tables only grow. */
  lemma {:induction false} RunKeepsReachable(labels: seq<Label>, i: nat, j: nat)
    requires i <= j <= |labels|
    ensures Reachable(At(labels, i)) && Reachable(At(labels, j)) && Grows(At(labels, i).tables, At(labels, j).tables)
    decreases j
  {
    hide *;
    GrowsReflexive(At(labels, i).tables);
    if i < j {
      RunKeepsReachable(labels, i, j - 1);
      AtNext(labels, j - 1);
      StepKeepsReachable(At(labels, j - 1), labels[j - 1]);
      GrowsTransitive(At(labels, i).tables, At(labels, j - 1).tables, At(labels, j).tables);
    } else if i > 0 {
      RunKeepsReachable(labels, i - 1, i - 1);
      AtNext(labels, i - 1);
      StepKeepsReachable(At(labels, i - 1), labels[i - 1]);
    } else {
      AtStart(labels);
      StartIsReachable();
    }
  }

  lemma AtStart(labels: seq<Label>)
    ensures At(labels, 0) == START
  {
  }

  // ----- dispatch at most once

  /** Position `i` hands `call` to the executor. */
  ghost predicate DispatchesAt(labels: seq<Label>, i: nat, call: A.Call) {
    && i < |labels|
    && labels[i].Begin?
    && At(labels, i).serving
    && A.Begin(At(labels, i).registry, At(labels, i).tables, labels[i].certificate, labels[i].request, labels[i].env).0
       == A.Dispatched(call)
  }

  /** What a dispatch at position `i` tells about the states around it. */
  lemma DispatchFacts(labels: seq<Label>, i: nat, call: A.Call)
    requires DispatchesAt(labels, i, call)
    ensures var s := At(labels, i); var s' := At(labels, i + 1);
            && A.DispatchEffect(s.registry, s.tables, s'.tables, labels[i].certificate, labels[i].request,
                                labels[i].env, call)
            && s'.inflight == s.inflight[labels[i].request.key := call]
            && call.request == labels[i].request
  {
    hide *;
    DispatchUnfolds(labels, i, call);
    RunKeepsReachable(labels, i, i);
    AtNext(labels, i);
    DispatchStep(At(labels, i), labels[i], call);
  }

  lemma DispatchUnfolds(labels: seq<Label>, i: nat, call: A.Call)
    requires DispatchesAt(labels, i, call)
    ensures i < |labels| && labels[i].Begin? && At(labels, i).serving
    ensures A.Begin(At(labels, i).registry, At(labels, i).tables, labels[i].certificate, labels[i].request,
                    labels[i].env).0 == A.Dispatched(call)
  {
    hide A.Begin, Run;
  }

  lemma DispatchStep(s: System, l: Label, call: A.Call)
    requires Reachable(s) && s.serving && l.Begin?
    requires A.Begin(s.registry, s.tables, l.certificate, l.request, l.env).0 == A.Dispatched(call)
    ensures A.DispatchEffect(s.registry, s.tables, Step(s, l).tables, l.certificate, l.request, l.env, call)
    ensures Step(s, l).inflight == s.inflight[l.request.key := call]
    ensures call.request == l.request
  {
    hide Inv, A.Begin, A.AuthorityHolds, CallsAwaited, A.BeginsSafely;
    A.BeginEffect(s.registry, s.tables, l.certificate, l.request, l.env);
  }

  /**
   * The executor is asked at most once per idempotency key, per request id and per nonce of an installation,
   * over any run with any number of crashes and restarts.
   */
  lemma DispatchedAtMostOnce(labels: seq<Label>, i: nat, j: nat, call: A.Call, call': A.Call)
    requires i < j && DispatchesAt(labels, i, call) && DispatchesAt(labels, j, call')
    ensures call.request.key != call'.request.key
    ensures call.request.key.installationId == call'.request.key.installationId ==>
              call.request.requestId != call'.request.requestId && call.request.nonce != call'.request.nonce
  {
    hide *;
    DispatchUnfolds(labels, i, call);
    DispatchUnfolds(labels, j, call');
    DispatchFacts(labels, i, call);
    DispatchFacts(labels, j, call');
    RunKeepsReachable(labels, i + 1, j);
    ClaimedForever(At(labels, i), At(labels, i + 1).tables, At(labels, j), labels[i], labels[j], call, call',
                   At(labels, j + 1).tables);
  }

  lemma ClaimedForever(s: System, t1: L.Tables, s': System, l: Label, l': Label, call: A.Call, call': A.Call,
                       t2: L.Tables)
    requires l.Begin? && l'.Begin? && call.request == l.request && call'.request == l'.request
    requires A.DispatchEffect(s.registry, s.tables, t1, l.certificate, l.request, l.env, call)
    requires A.DispatchEffect(s'.registry, s'.tables, t2, l'.certificate, l'.request, l'.env, call')
    requires Grows(t1, s'.tables)
    ensures call.request.key != call'.request.key
    ensures call.request.key.installationId == call'.request.key.installationId ==>
              call.request.requestId != call'.request.requestId && call.request.nonce != call'.request.nonce
  {
    hide A.AuthorityHolds;
    assert call.request.key in t1.requests;
    RowRoundTrip(call.request, l.certificate, l.env.now);
    assert call.request.key in s'.tables.requests;
    assert L.RequestFromRow(s'.tables.requests[call.request.key]) == call.request;
  }

  // ----- authority, twice

  /** Every call in flight was dispatched earlier in the run. */
  lemma {:induction false} InflightWasDispatched(labels: seq<Label>, n: nat, key: RequestKey) returns (i: nat)
    requires n <= |labels| && key in At(labels, n).inflight
    ensures i < n && DispatchesAt(labels, i, At(labels, n).inflight[key])
  {
    hide A.Begin, A.Finish, Reachable;
    AtStart(labels);
    var s := At(labels, n - 1);
    AtNext(labels, n - 1);
    hide Run;
    if key in s.inflight && s.inflight[key] == At(labels, n).inflight[key] {
      i := InflightWasDispatched(labels, n - 1, key);
    } else {
      i := n - 1;
      NewCallIsDispatched(s, labels[n - 1], key);
    }
  }

  lemma NewCallIsDispatched(s: System, l: Label, key: RequestKey)
    requires key in Step(s, l).inflight && !(key in s.inflight && s.inflight[key] == Step(s, l).inflight[key])
    ensures l.Begin? && s.serving
    ensures A.Begin(s.registry, s.tables, l.certificate, l.request, l.env).0 == A.Dispatched(Step(s, l).inflight[key])
  {
    hide A.Begin, A.Finish;
  }

  /** Position `j` settles the call in flight for `key` with the success on receipt `id`. */
  ghost predicate SucceedsAt(labels: seq<Label>, j: nat, call: A.Call, id: string, receipt: L.Receipt) {
    && j < |labels|
    && labels[j].Finish?
    && var s := At(labels, j);
    && s.serving && labels[j].key in s.inflight && s.inflight[labels[j].key] == call
    && A.AuthorityHolds(s.registry, s.tables, call.certificate, call.request, call.targetDigest, labels[j].env.now,
                        labels[j].env.clock)
    && labels[j].env.now <= call.request.deadlineAt
    && receipt.completedAt == labels[j].env.now
    && receipt.requestDigest == RequestDigest(call.request)
    && receipt.targetDigest == Some(call.targetDigest)
    && Proved(call, labels[j].execution, receipt)
  }

  /** The receipt carries the identity the executor came back with, of the target the call was for. */
  ghost predicate Proved(call: A.Call, execution: A.Execution, receipt: L.Receipt) {
    && execution.Inspected?
    && receipt.verdict == Succeeded(execution.identity)
    && IdentityMatchesTarget(call.target, execution.identity)
    && IdentityOperation(execution.identity) == call.request.authority.operation
    && execution.identity.observedAt <= receipt.completedAt
    && receipt.connectorVersion == VersionFor(execution.identity, execution.version)
    && IsVersion(receipt.connectorVersion)
  }

  /** Position `i` authorizes `call`: the same authority, at the time of the claim. */
  ghost predicate AuthorizedAt(labels: seq<Label>, i: nat, call: A.Call) {
    && DispatchesAt(labels, i, call)
    && labels[i].request == call.request && labels[i].certificate == call.certificate
    && A.AuthorityHolds(At(labels, i).registry, At(labels, i).tables, call.certificate, call.request, call.targetDigest,
                        labels[i].env.now, labels[i].env.clock)
  }

  /**
   * A succeeded receipt exists only if its whole authority held twice: when the request was claimed and
   * authorized, and again when the answer came back, which was no later than the deadline.
   */
  lemma {:induction false} SuccessNeedsAuthorityTwice(labels: seq<Label>, n: nat, id: string)
    returns (i: nat, j: nat, call: A.Call)
    requires n <= |labels| && id in At(labels, n).tables.receipts
             && At(labels, n).tables.receipts[id].verdict.Succeeded?
    ensures i < j < n && AuthorizedAt(labels, i, call)
            && SucceedsAt(labels, j, call, id, At(labels, n).tables.receipts[id])
  {
    hide A.Begin, A.Finish, A.AuthorityHolds, Reachable, A.DispatchEffect;
    AtStart(labels);
    var s := At(labels, n - 1);
    AtNext(labels, n - 1);
    RunKeepsReachable(labels, n - 1, n);
    hide *;
    if id in s.tables.receipts {
      ReceiptFrozen(s.tables, At(labels, n).tables, id);
      i, j, call := SuccessNeedsAuthorityTwice(labels, n - 1, id);
    } else {
      NewSuccessFacts(s, labels[n - 1], id);
      j := n - 1;
      call := s.inflight[labels[n - 1].key];
      i := InflightWasDispatched(labels, n - 1, labels[n - 1].key);
      AuthorizedFacts(labels, i, call);
      NewSuccessSucceeds(labels, j, call, id, At(labels, n).tables.receipts[id]);
    }
  }

  lemma ReceiptFrozen(t: L.Tables, t': L.Tables, id: string)
    requires Grows(t, t') && id in t.receipts
    ensures id in t'.receipts && t'.receipts[id] == t.receipts[id]
  {
  }

  lemma AuthorizedFacts(labels: seq<Label>, i: nat, call: A.Call)
    requires DispatchesAt(labels, i, call)
    ensures AuthorizedAt(labels, i, call)
  {
    hide A.Begin, A.AuthorityHolds, Run;
    DispatchFacts(labels, i, call);
  }

  ghost predicate NewSuccess(s: System, l: Label, id: string) {
    && l.Finish? && s.serving && l.key in s.inflight
    && var call := s.inflight[l.key];
    && A.AuthorityHolds(s.registry, s.tables, call.certificate, call.request, call.targetDigest, l.env.now, l.env.clock)
    && l.env.now <= call.request.deadlineAt
    && id in Step(s, l).tables.receipts
    && var receipt := Step(s, l).tables.receipts[id];
    && receipt.completedAt == l.env.now
    && receipt.requestDigest == RequestDigest(call.request)
    && receipt.targetDigest == Some(call.targetDigest)
    && Proved(call, l.execution, receipt)
  }

  lemma NewSuccessSucceeds(labels: seq<Label>, j: nat, call: A.Call, id: string, receipt: L.Receipt)
    requires j < |labels| && NewSuccess(At(labels, j), labels[j], id) && call == At(labels, j).inflight[labels[j].key]
    requires receipt == Step(At(labels, j), labels[j]).tables.receipts[id]
    ensures SucceedsAt(labels, j, call, id, receipt)
  {
    hide A.AuthorityHolds, Run, Step;
  }

  /** Only the second half of an execution ever writes a succeeded receipt. */
  lemma {:induction false} NewSuccessFacts(s: System, l: Label, id: string)
    requires Reachable(s) && id in Step(s, l).tables.receipts && id !in s.tables.receipts
    requires Step(s, l).tables.receipts[id].verdict.Succeeded?
    ensures NewSuccess(s, l, id)
  {
    hide Inv, BeginStep, FinishStep, CallsAwaited;
    match l
    case Begin(certificate, request, env) => if s.serving { BeginAddsNoSuccess(s, certificate, request, env); }
    case Finish(key, execution, env) =>
      if s.serving && key in s.inflight { FinishAddsSuccess(s, key, execution, env, id); }
    case Reconcile(key, receiptId, now) =>
      if !s.serving && key in s.tables.requests && s.tables.requests[key].state == L.Claimed {
        RequestFiledUnderKey(s, key);
        ReconcileAddsNoSuccess(s.tables, s.tables.requests[key], receiptId, now);
      }
    case CrashAfterClaim(certificate, request, now) => ClaimKeepsInv(s.tables, request, certificate, now);
    case SetPolicy(key, digest, operations) => PolicyKeepsInv(s.registry, s.tables, key, digest, operations);
    case Enroll(p, target, credential, now) => EnrolmentKeepsInv(s.registry, s.tables, p, target, credential, now);
    case EnrollProtected(projectId, digest, operations, p, target, credential, now) =>
      ProtectedEnrolmentKeepsInv(s.registry, s.tables, projectId, digest, operations, p, target, credential, now);
    case _ =>
  }

  lemma RequestFiledUnderKey(s: System, key: RequestKey)
    requires Reachable(s) && key in s.tables.requests
    ensures s.tables.requests[key].key == key
  {
    hide ReceiptsWellFormed, UniqueRequests, BindingsWellFormed, ActiveIsProved;
  }

  lemma {:induction false} BeginAddsNoSuccess(s: System, certificate: string, request: Request, env: A.Env)
    requires Inv(s.tables) && s.serving
    ensures A.NoNewSuccess(s.tables, BeginStep(s, certificate, request, env).tables)
  {
    hide Inv, Grows, A.Begin, A.DispatchEffect;
    A.BeginEffect(s.registry, s.tables, certificate, request, env);
  }

  lemma ReconcileAddsNoSuccess(t: L.Tables, row: L.RequestRow, receiptId: string, now: nat)
    requires Inv(t) && row.key in t.requests && t.requests[row.key] == row && row.state == L.Claimed
    ensures A.NoNewSuccess(t, Keep(L.ReconcileRow(t, row, receiptId, now), t))
  {
    hide Inv, L.CompleteRequest;
    if L.BindingOf(row.key, row.authority) in t.bindings {
      CompletionKeepsInv(t, L.RequestFromRow(row), L.InterruptedResponse(row, receiptId, now),
                         Some(t.bindings[L.BindingOf(row.key, row.authority)].targetDigest), L.RECONCILER_VERSION, now);
    }
  }

  lemma {:induction false} FinishAddsSuccess(s: System, key: RequestKey, execution: A.Execution, env: A.Env, id: string)
    requires Reachable(s) && s.serving && key in s.inflight
    requires var t' := FinishStep(s, key, execution, env).tables;
             id in t'.receipts && id !in s.tables.receipts && t'.receipts[id].verdict.Succeeded?
    ensures NewSuccess(s, Finish(key, execution, env), id)
  {
    hide Inv, Grows, A.Finish, A.FinishFails, A.AuthorityHolds;
    var call := s.inflight[key];
    A.FinishEffect(s.registry, s.tables, call, execution, env);
    if A.FinishSucceeds(s.registry, s.tables, call, execution, env) {
      A.AuthorityWithinDeadline(s.registry, s.tables, call, env);
    }
  }

  // ----- replies, activity, accounting

  /** The reply the caller is given at position `i`, if that position answers a caller. */
  function ReplyAt(labels: seq<Label>, i: nat): Option<(Request, Response)>
    requires i < |labels|
  {
    var s := At(labels, i);
    match labels[i]
    case Begin(certificate, request, env) =>
      if !s.serving then None
      else
        var begun := A.Begin(s.registry, s.tables, certificate, request, env).0;
        if begun.Replied? then Some((request, begun.response)) else None
    case Finish(key, execution, env) =>
      if !s.serving || key !in s.inflight then None
      else Some((s.inflight[key].request, A.Finish(s.registry, s.tables, s.inflight[key], execution, env).0))
    case _ => None
  }

  /** A reply that names a receipt, replays included, is the response on file from then on. */
  lemma ReceiptedReplyIsFinal(labels: seq<Label>, i: nat, n: nat)
    requires i < n <= |labels| && ReplyAt(labels, i).Some? && ReplyAt(labels, i).value.1.receiptId.Some?
    ensures var (request, reply) := ReplyAt(labels, i).value; var t := At(labels, n).tables;
            && request.key in t.requests && t.requests[request.key].response == Some(reply)
            && reply.receiptId.value in t.receipts
            && t.receipts[reply.receiptId.value].responseDigest == ResponseDigest(reply)
  {
    hide A.Begin, A.Finish, Reachable, Run, Inv, Grows;
    var (request, reply) := ReplyAt(labels, i).value;
    RunKeepsReachable(labels, i, i);
    RunKeepsReachable(labels, i + 1, n);
    AtNext(labels, i);
    ReplyIsOnFile(At(labels, i), labels[i], request, reply);
    ResponseFrozen(At(labels, i + 1).tables, At(labels, n).tables, request.key) by {
      ReachableTables(At(labels, i + 1));
    }
    FiledResponseHasReceipt(At(labels, n).tables, request.key) by {
      ReachableTables(At(labels, n));
    }
  }

  lemma ReachableTables(s: System)
    requires Reachable(s)
    ensures Inv(s.tables)
  {
    hide Inv;
  }

  lemma {:induction false} ReplyIsOnFile(s: System, l: Label, request: Request, reply: Response)
    requires Reachable(s) && s.serving && reply.receiptId.Some?
    requires match l
             case Begin(certificate, r, env) =>
               r == request && A.Begin(s.registry, s.tables, certificate, request, env).0 == A.Replied(reply)
             case Finish(key, execution, env) =>
               key in s.inflight && s.inflight[key].request == request
               && A.Finish(s.registry, s.tables, s.inflight[key], execution, env).0 == reply
             case _ => false
    ensures A.ReplyOnFile(Step(s, l).tables, request, reply)
  {
    hide Inv, Grows, A.Begin, A.Finish, A.FinishSucceeds, A.BeginsSafely, A.DispatchEffect;
    if l.Begin? {
      A.BeginEffect(s.registry, s.tables, l.certificate, l.request, l.env);
    } else {
      A.FinishEffect(s.registry, s.tables, s.inflight[l.key], l.execution, l.env);
    }
  }

  lemma {:induction false} ResponseFrozen(t: L.Tables, t': L.Tables, key: RequestKey)
    requires Inv(t) && Grows(t, t') && key in t.requests && t.requests[key].response.Some?
    ensures key in t'.requests && t'.requests[key] == t.requests[key]
  {
    hide ReceiptsWellFormed, UniqueRequests, BindingsWellFormed, ActiveIsProved;
    RowIsWellFormed(t, key);
  }

  lemma {:induction false} FiledResponseHasReceipt(t: L.Tables, key: RequestKey)
    requires Inv(t) && key in t.requests && t.requests[key].response.Some?
    ensures var response := t.requests[key].response.value;
            response.receiptId.Some? && response.receiptId.value in t.receipts
            && t.receipts[response.receiptId.value].responseDigest == ResponseDigest(response)
  {
    hide UniqueRequests, BindingsWellFormed, ActiveIsProved;
    RowIsWellFormed(t, key);
    assert ReceiptWellFormed(t, t.requests[key].receiptId.value, t.receipts[t.requests[key].receiptId.value]);
  }

  /**
   * In any reachable state an active binding has a succeeded receipt at its generation, and its columns agree with its
   * projection.
   */
  lemma ActiveBindingsAreProved(labels: seq<Label>, n: nat, k: L.BindingKey)
    requires n <= |labels| && k in At(labels, n).tables.bindings
    ensures var t := At(labels, n).tables; var row := t.bindings[k];
            && row.state == row.projection.state && row.generation == row.projection.generation
            && row.operation == row.projection.operation
            && ValidProjection(row.projection)
            && (row.state == Active ==> exists id :: id in t.receipts && SuccessFor(t.receipts[id], k, row.generation))
  {
    hide Run, RowsWellFormed, ReceiptsWellFormed, UniqueRequests;
    RunKeepsReachable(labels, n, n);
    assert BindingWellFormed(k, At(labels, n).tables.bindings[k]);
  }

  /**
   * In any reachable state a row is waiting, with no response and no receipt, or settled under exactly one receipt,
   * whose id its response names; and it is ambiguous exactly when that response says so.
   */
  lemma EveryRowIsSettledOnce(labels: seq<Label>, n: nat, k: RequestKey)
    requires n <= |labels| && k in At(labels, n).tables.requests
    ensures var t := At(labels, n).tables; var row := t.requests[k];
            && row.key == k
            && (row.state == L.Claimed <==> row.response.None?) && (row.state == L.Claimed <==> row.receiptId.None?)
            && (forall id :: id in t.receipts && t.receipts[id].key == k <==> row.receiptId == Some(id))
            && (row.response.Some? ==> row.response.value.receiptId == row.receiptId
                                       && (row.state == L.Ambiguous <==> IsAmbiguous(row.response.value)))
  {
    hide Run, UniqueRequests, BindingsWellFormed, ActiveIsProved;
    RunKeepsReachable(labels, n, n);
    var t := At(labels, n).tables;
    RowIsWellFormed(t, k);
    hide RowsWellFormed;
    forall id | id in t.receipts && t.receipts[id].key == k ensures t.requests[k].receiptId == Some(id) {
      assert ReceiptWellFormed(t, id, t.receipts[id]);
    }
  }

  /** Receipts and waiting rows together account for every row. */
  lemma EveryRowAccountedFor(labels: seq<Label>, n: nat)
    requires n <= |labels|
    ensures var t := At(labels, n).tables;
            |t.receipts| + |set k | k in t.requests && t.requests[k].state == L.Claimed| == |t.requests|
  {
    hide Run;
    RunKeepsReachable(labels, n, n);
    ReachableTables(At(labels, n));
    RowsBalance(At(labels, n).tables);
  }

  lemma RowsBalance(t: L.Tables)
    requires Inv(t)
    ensures |t.receipts| + |set k | k in t.requests && t.requests[k].state == L.Claimed| == |t.requests|
  {
    hide Inv;
    ReceiptsNameRows(t);
    var waiting := set k | k in t.requests && t.requests[k].state == L.Claimed;
    Finite.Balance(t.requests.Keys, waiting, t.receipts.Keys,
                   map id | id in t.receipts :: t.receipts[id].key,
                   map k | k in t.requests && t.requests[k].receiptId.Some? :: t.requests[k].receiptId.value);
  }

  lemma ReceiptsNameRows(t: L.Tables)
    requires Inv(t)
    ensures forall id :: id in t.receipts ==>
              t.receipts[id].key in t.requests && t.requests[t.receipts[id].key].receiptId == Some(id)
    ensures forall k :: k in t.requests ==> (t.requests[k].state != L.Claimed <==> t.requests[k].receiptId.Some?)
    ensures forall k :: k in t.requests && t.requests[k].receiptId.Some? ==>
              t.requests[k].receiptId.value in t.receipts && t.receipts[t.requests[k].receiptId.value].key == k
  {
    hide UniqueRequests, BindingsWellFormed, ActiveIsProved;
    forall id | id in t.receipts
      ensures t.receipts[id].key in t.requests && t.requests[t.receipts[id].key].receiptId == Some(id)
    {
      assert ReceiptWellFormed(t, id, t.receipts[id]);
    }
    forall k | k in t.requests
      ensures t.requests[k].state != L.Claimed <==> t.requests[k].receiptId.Some?
      ensures t.requests[k].receiptId.Some? ==>
                t.requests[k].receiptId.value in t.receipts && t.receipts[t.requests[k].receiptId.value].key == k
    {
      RowIsWellFormed(t, k);
    }
  }

  /** The foreign key on claims makes `binding_missing` a denial no caller ever sees. */
  lemma BindingMissingNeverDenied(t: L.Tables, r: Registry.Registry, certificate: string, request: Request, env: A.Env)
    requires L.ClaimRequest(t, request, certificate, env.now).0 == L.Fresh
    ensures var t1 := L.ClaimRequest(t, request, certificate, env.now).1;
            var authorization := A.Authorize(r, t1, certificate, request, env);
            authorization.Denied? ==> authorization.failureClass != BindingMissing
  {
    hide L.ResolveTarget, L.ResolveCredential, A.TopologyReady, A.FenceCurrent;
  }
}
