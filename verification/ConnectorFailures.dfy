/**
 * How the protected connector fails, over whole runs: a call that comes back settles its row exactly when its outcome
 * can be put on record, whatever happened in between; otherwise the row waits for restart recovery.
 */
module ConnectorFailures {
  import opened Prelude
  import opened ConnectorProtocol
  import opened ConnectorInvariant
  import opened ConnectorRuns
  import L = ConnectorLedger
  import A = ConnectorAuthority
  import Registry

  // ----- one finished call

  /** The version an unsuccessful call would be recorded under, if its failure can be encoded at all. */
  function FailureVersion(r: Registry.Registry, t: L.Tables, call: A.Call, execution: A.Execution, env: A.Env)
    : Option<string>
  {
    if !A.AuthorityHolds(r, t, call.certificate, call.request, call.targetDigest, env.now, env.clock)
      then Some(A.AUTHORITY_VERSION)
    else match execution
      case InspectionFailed(c, retryable, after, version) =>
        if A.FitsFailure(c, retryable, after) then Some(version) else None
      case Inspected(identity, version) =>
        if !IdentityMatchesTarget(call.target, identity) then Some(version)
        else if IdentityOperation(identity) != call.request.authority.operation || identity.observedAt > env.now
                || (!identity.BrowserIdentity? && !IsVersion(identity.connectorVersion))
          then Some(A.AUTHORITY_VERSION)
        else None
  }

  /**
   * A call that comes back goes on record: as the success it proves, or as a failure that can be encoded and stored.
   */
  predicate FinishRecords(r: Registry.Registry, t: L.Tables, call: A.Call, execution: A.Execution, env: A.Env) {
    || A.FinishSucceeds(r, t, call, execution, env)
    || (FailureVersion(r, t, call, execution, env).Some?
        && A.CanRecord(t, FailureVersion(r, t, call, execution, env).value, env))
  }

  lemma AuthorityVersionFits()
    ensures IsVersion(A.AUTHORITY_VERSION)
  {
  }

  /**
   * The second half settles its row exactly when the outcome can go on record; otherwise it changes nothing and says
   * so.
   */
  lemma {:induction false} FinishSettlesExactly(r: Registry.Registry, t: L.Tables, call: A.Call,
                                                execution: A.Execution, env: A.Env)
    requires Inv(t) && A.Awaited(t, call.request)
    ensures var (reply, t') := A.Finish(r, t, call, execution, env);
            if FinishRecords(r, t, call, execution, env)
            then exists version :: Settles(t, t', call.request, reply, Some(call.targetDigest), version, env.now)
            else t' == t && reply.receiptId.None? && reply.verdict.Failed?
  {
    hide Inv, A.Awaited, A.Finish, A.AuthorityHolds, A.ProofAccepted, Settles, A.FailsSafely, IsVersion;
    A.FinishEffect(r, t, call, execution, env);
    AuthorityVersionFits();
  }

  // ----- settled for good

  /** `reply` is the one outcome of `request` on file: its row holds it and exactly one receipt says so. */
  ghost predicate OnRecord(t: L.Tables, request: Request, reply: Response, targetDigest: Option<TargetDigest>,
                           version: string, completedAt: nat) {
    && request.key in t.requests && reply.receiptId.Some?
    && var row := t.requests[request.key];
    && var id := reply.receiptId.value;
    && L.RequestFromRow(row) == request
    && row.state == (if IsAmbiguous(reply) then L.Ambiguous else L.Completed)
    && row.response == Some(reply) && row.receiptId == Some(id) && row.completedAt == Some(completedAt)
    && id in t.receipts && t.receipts[id] == L.ReceiptFor(row, reply, id, targetDigest, version, completedAt)
    && forall other :: other in t.receipts && t.receipts[other].key == request.key ==> other == id
  }

  lemma SettledIsOnRecord(t: L.Tables, t': L.Tables, request: Request, reply: Response,
                          targetDigest: Option<TargetDigest>, version: string, completedAt: nat)
    requires Inv(t) && Settles(t, t', request, reply, targetDigest, version, completedAt)
    ensures OnRecord(t', request, reply, targetDigest, version, completedAt)
  {
    hide BindingsWellFormed, ActiveIsProved, UniqueRequests;
    assert A.Awaited(t, request);
    A.AwaitedIsUnanswered(t, request);
  }

  lemma RecordIsFrozen(t: L.Tables, t': L.Tables, request: Request, reply: Response, targetDigest: Option<TargetDigest>,
                       version: string, completedAt: nat)
    requires Inv(t) && Inv(t') && Grows(t, t') && OnRecord(t, request, reply, targetDigest, version, completedAt)
    ensures OnRecord(t', request, reply, targetDigest, version, completedAt)
  {
    ResponseFrozen(t, t', request.key);
    ReceiptFrozen(t, t', reply.receiptId.value);
    hide RowsWellFormed, UniqueRequests, BindingsWellFormed, ActiveIsProved;
    forall other | other in t'.receipts && t'.receipts[other].key == request.key
      ensures Some(other) == reply.receiptId
    {
      assert ReceiptWellFormed(t', other, t'.receipts[other]);
    }
  }

  /** What is settled from well-formed tables at one step is on record in every later state. */
  lemma {:induction false} SettledForGood(labels: seq<Label>, t: L.Tables, i: nat, n: nat, request: Request,
                                          reply: Response, targetDigest: Option<TargetDigest>, version: string,
                                          completedAt: nat)
    requires i <= n <= |labels| && Inv(t)
    requires Settles(t, At(labels, i).tables, request, reply, targetDigest, version, completedAt)
    ensures OnRecord(At(labels, n).tables, request, reply, targetDigest, version, completedAt)
  {
    hide *;
    RunKeepsReachable(labels, i, n);
    ReachableTables(At(labels, i));
    ReachableTables(At(labels, n));
    SettledIsOnRecord(t, At(labels, i).tables, request, reply, targetDigest, version, completedAt);
    RecordIsFrozen(At(labels, i).tables, At(labels, n).tables, request, reply, targetDigest, version, completedAt);
  }

  // ----- waiting

  /** The row of `request` is claimed, and no call will come back for it. */
  ghost predicate LeftWaiting(s: System, request: Request) {
    A.Awaited(s.tables, request) && request.key !in s.inflight
  }

  /** Only recovery of that very row moves it: not a repeat of the request, not a restart. */
  lemma {:induction false} WaitingRowStays(s: System, l: Label, request: Request)
    requires Reachable(s) && LeftWaiting(s, request) && !(l.Reconcile? && l.key == request.key)
    ensures LeftWaiting(Step(s, l), request)
  {
    hide Inv, Grows, BeginStep, FinishStep;
    match l
    case Begin(certificate, r, env) => if s.serving { BeginLeavesWaiting(s, certificate, r, env, request); }
    case Finish(key, execution, env) =>
      if s.serving && key in s.inflight { FinishLeavesWaiting(s, key, execution, env, request); }
    case Reconcile(key, receiptId, now) =>
      if !s.serving && key in s.tables.requests && s.tables.requests[key].state == L.Claimed {
        RequestFiledUnderKey(s, key);
        ReconcileLeavesOthers(s.tables, s.tables.requests[key], receiptId, now);
      }
    case CrashAfterClaim(certificate, r, now) => ClaimKeepsInv(s.tables, r, certificate, now);
    case SetPolicy(key, digest, operations) => PolicyKeepsInv(s.registry, s.tables, key, digest, operations);
    case Enroll(p, target, credential, now) => EnrolmentKeepsInv(s.registry, s.tables, p, target, credential, now);
    case EnrollProtected(projectId, digest, operations, p, target, credential, now) =>
      ProtectedEnrolmentKeepsInv(s.registry, s.tables, projectId, digest, operations, p, target, credential, now);
    case _ =>
  }

  lemma {:induction false} BeginLeavesWaiting(s: System, certificate: string, r: Request, env: A.Env, request: Request)
    requires Reachable(s) && s.serving && LeftWaiting(s, request)
    ensures LeftWaiting(BeginStep(s, certificate, r, env), request)
  {
    hide Inv, Grows, A.Begin, A.DispatchEffect, A.MayDispatch, A.ClaimDenied;
    A.BeginEffect(s.registry, s.tables, certificate, r, env);
  }

  lemma {:induction false} FinishLeavesWaiting(s: System, key: RequestKey, execution: A.Execution, env: A.Env,
                                               request: Request)
    requires Reachable(s) && s.serving && key in s.inflight && LeftWaiting(s, request)
    ensures LeftWaiting(FinishStep(s, key, execution, env), request)
  {
    hide Inv, Grows, A.Finish, A.FinishSucceeds, A.FinishFails;
    A.FinishEffect(s.registry, s.tables, s.inflight[key], execution, env);
  }

  lemma ReconcileLeavesOthers(t: L.Tables, row: L.RequestRow, receiptId: string, now: nat)
    requires row.key in t.requests
    ensures var t' := Keep(L.ReconcileRow(t, row, receiptId, now), t);
            && t'.requests.Keys == t.requests.Keys
            && forall k :: k in t.requests && k != row.key ==> t'.requests[k] == t.requests[k]
  {
  }

  predicate NotReconciled(labels: seq<Label>, i: nat, n: nat, key: RequestKey) {
    forall k :: i <= k < n <= |labels| ==> !(labels[k].Reconcile? && labels[k].key == key)
  }

  lemma {:induction false} WaitsUntilReconciled(labels: seq<Label>, i: nat, n: nat, request: Request)
    requires i <= n <= |labels| && LeftWaiting(At(labels, i), request) && NotReconciled(labels, i, n, request.key)
    ensures LeftWaiting(At(labels, n), request)
    decreases n
  {
    hide *;
    if i < n {
      NotReconciledSplits(labels, i, n, request.key);
      WaitsUntilReconciled(labels, i, n - 1, request);
      RunKeepsReachable(labels, n - 1, n - 1);
      AtNext(labels, n - 1);
      WaitingRowStays(At(labels, n - 1), labels[n - 1], request);
    }
  }

  lemma NotReconciledSplits(labels: seq<Label>, i: nat, n: nat, key: RequestKey)
    requires NotReconciled(labels, i, n, key) && i < n <= |labels|
    ensures NotReconciled(labels, i, n - 1, key) && !(labels[n - 1].Reconcile? && labels[n - 1].key == key)
  {
  }

  // ----- the theorems

  /** Position `j` hands the executor's answer for `call` back to the service. */
  ghost predicate FinishesAt(labels: seq<Label>, j: nat, call: A.Call) {
    && j < |labels| && labels[j].Finish?
    && At(labels, j).serving && labels[j].key in At(labels, j).inflight && At(labels, j).inflight[labels[j].key] == call
  }

  /** Whether what comes back at position `j` can go on record, in the state it finds there. */
  predicate RecordsAt(labels: seq<Label>, j: nat, call: A.Call)
    requires j < |labels| && labels[j].Finish?
  {
    FinishRecords(At(labels, j).registry, At(labels, j).tables, call, labels[j].execution, labels[j].env)
  }

  /**
   * Every call that comes back, whatever changed while it was away: either its outcome is on record under one receipt
   * in every later state, or its row waits, claimed and with no call in flight, until restart recovery takes it up.
   * Which of the two is decided by `FinishRecords` alone.
   */
  lemma {:induction false} FinishSettlesOrWaits(labels: seq<Label>, j: nat, n: nat, call: A.Call)
    requires FinishesAt(labels, j, call) && j < n <= |labels|
    ensures ReplyAt(labels, j).Some? && ReplyAt(labels, j).value.0 == call.request
    ensures var reply := ReplyAt(labels, j).value.1;
            if RecordsAt(labels, j, call)
            then exists version ::
                   OnRecord(At(labels, n).tables, call.request, reply, Some(call.targetDigest), version,
                            labels[j].env.now)
            else reply.receiptId.None? && reply.verdict.Failed?
                 && (NotReconciled(labels, j + 1, n, call.request.key) ==> LeftWaiting(At(labels, n), call.request))
  {
    hide *;
    FinishUnfolds(labels, j, call);
    RunKeepsReachable(labels, j, j);
    AtNext(labels, j);
    FinishStepExactly(labels, j, call);
    if RecordsAt(labels, j, call) {
      var reply := ReplyAt(labels, j).value.1;
      var version :| Settles(At(labels, j).tables, At(labels, j + 1).tables, call.request, reply,
                             Some(call.targetDigest), version, labels[j].env.now);
      ReachableTables(At(labels, j));
      SettledForGood(labels, At(labels, j).tables, j + 1, n, call.request, reply, Some(call.targetDigest), version,
                     labels[j].env.now);
    } else if NotReconciled(labels, j + 1, n, call.request.key) {
      WaitsUntilReconciled(labels, j + 1, n, call.request);
    }
  }

  lemma FinishUnfolds(labels: seq<Label>, j: nat, call: A.Call)
    requires FinishesAt(labels, j, call)
    ensures j < |labels| && labels[j].Finish? && At(labels, j).serving
    ensures labels[j].key in At(labels, j).inflight && At(labels, j).inflight[labels[j].key] == call
    ensures ReplyAt(labels, j) == Some((call.request, A.Finish(At(labels, j).registry, At(labels, j).tables, call,
                                                               labels[j].execution, labels[j].env).0))
  {
    hide A.Finish, Run;
  }

  /** The step itself: the row is settled by the reply, or nothing but the call in flight is gone. */
  lemma {:induction false} FinishStepExactly(labels: seq<Label>, j: nat, call: A.Call)
    requires FinishesAt(labels, j, call) && Reachable(At(labels, j))
             && At(labels, j + 1) == Step(At(labels, j), labels[j])
    ensures ReplyAt(labels, j).Some? && ReplyAt(labels, j).value.0 == call.request
    ensures var reply := ReplyAt(labels, j).value.1; var t := At(labels, j).tables; var t' := At(labels, j + 1).tables;
            if RecordsAt(labels, j, call)
            then exists version ::
                   Settles(t, t', call.request, reply, Some(call.targetDigest), version, labels[j].env.now)
            else reply.receiptId.None? && reply.verdict.Failed?
                 && LeftWaiting(At(labels, j + 1), call.request)
  {
    hide Inv, A.Finish, Run, FinishRecords, Settles;
    FinishSettlesExactly(At(labels, j).registry, At(labels, j).tables, call, labels[j].execution, labels[j].env);
  }

  /** The failure the service itself decides on, under the receipt it draws. */
  function Denial(request: Request, c: FailureClass, env: A.Env): Response {
    FailureResponse(request, c, Retryable(c), A.DefaultAdvice(c), Some(env.receiptId), env.now)
  }

  lemma {:induction false} LostAuthorityStep(s: System, l: Label, call: A.Call)
    requires Reachable(s) && s.serving && l.Finish? && l.key in s.inflight && s.inflight[l.key] == call
    requires !A.AuthorityHolds(s.registry, s.tables, call.certificate, call.request, call.targetDigest, l.env.now,
                               l.env.clock)
    ensures var (reply, t') := A.Finish(s.registry, s.tables, call, l.execution, l.env);
            && t' == Step(s, l).tables
            && if l.env.auditWritable && l.env.receiptId !in s.tables.receipts
               then reply == Denial(call.request, ReconciliationRequired, l.env)
                    && Settles(s.tables, t', call.request, reply, Some(call.targetDigest), A.AUTHORITY_VERSION,
                               l.env.now)
               else t' == s.tables && reply == Unreceipted(call.request, ReceiptPersistenceFailed, l.env.now)
  {
    hide Inv, A.Finish, A.AuthorityHolds, Settles, IsVersion, A.FailsSafely, Registry.WellFormed;
    A.FinishEffect(s.registry, s.tables, call, l.execution, l.env);
    AuthorityVersionFits();
  }

  /**
   * Authority that is lost while the executor is away, through revocation, a policy change, a fence that moved on, a
   * binding at another generation or time running out: the answer is dropped, and the request ends as
   * `reconciliation_required`.
   */
  lemma {:induction false} LostAuthorityIsSettled(labels: seq<Label>, j: nat, n: nat, call: A.Call)
    requires FinishesAt(labels, j, call) && j < n <= |labels|
    requires !A.AuthorityHolds(At(labels, j).registry, At(labels, j).tables, call.certificate, call.request,
                               call.targetDigest, labels[j].env.now, labels[j].env.clock)
    ensures var env := labels[j].env;
            if env.auditWritable && env.receiptId !in At(labels, j).tables.receipts
            then ReplyAt(labels, j) == Some((call.request, Denial(call.request, ReconciliationRequired, env)))
                 && OnRecord(At(labels, n).tables, call.request, Denial(call.request, ReconciliationRequired, env),
                             Some(call.targetDigest), A.AUTHORITY_VERSION, env.now)
            else ReplyAt(labels, j)
                 == Some((call.request, Unreceipted(call.request, ReceiptPersistenceFailed, env.now)))
                 && At(labels, j + 1).tables == At(labels, j).tables
  {
    hide *;
    FinishUnfolds(labels, j, call);
    RunKeepsReachable(labels, j, j);
    AtNext(labels, j);
    var env := labels[j].env;
    LostAuthorityStep(At(labels, j), labels[j], call);
    if env.auditWritable && env.receiptId !in At(labels, j).tables.receipts {
      ReachableTables(At(labels, j));
      SettledForGood(labels, At(labels, j).tables, j + 1, n, call.request,
                     Denial(call.request, ReconciliationRequired, env), Some(call.targetDigest), A.AUTHORITY_VERSION,
                     env.now);
    }
  }

  /** The authority still holds, a receipt can be written, and the executor reports a failure with this retry advice. */
  ghost predicate ExecutorFailsAt(labels: seq<Label>, j: nat, call: A.Call, c: FailureClass, retryable: bool,
                                  after: Option<int>, version: string)
  {
    && FinishesAt(labels, j, call)
    && labels[j].execution == A.InspectionFailed(c, retryable, after, version)
    && A.AuthorityHolds(At(labels, j).registry, At(labels, j).tables, call.certificate, call.request, call.targetDigest,
                        labels[j].env.now, labels[j].env.clock)
    && A.CanRecord(At(labels, j).tables, version, labels[j].env)
  }

  /**
   * The executor's own failures are settled as they are, exactly when their retry advice fits their class. Advice that
   * does not fit is reported as ambiguous under no receipt, and the row waits for restart recovery.
   */
  lemma {:induction false} ExecutorFailureIsSettled(labels: seq<Label>, j: nat, n: nat, call: A.Call, c: FailureClass,
                                retryable: bool, after: Option<int>, version: string)
    requires ExecutorFailsAt(labels, j, call, c, retryable, after, version) && j < n <= |labels|
    ensures var env := labels[j].env;
            if A.FitsFailure(c, retryable, after)
            then var response := FailureResponse(call.request, c, retryable, after, Some(env.receiptId), env.now);
                 && ReplyAt(labels, j) == Some((call.request, response))
                 && OnRecord(At(labels, n).tables, call.request, response, Some(call.targetDigest), version, env.now)
            else ReplyAt(labels, j) == Some((call.request, Unreceipted(call.request, ResultAmbiguous, env.now)))
                 && (NotReconciled(labels, j + 1, n, call.request.key) ==> LeftWaiting(At(labels, n), call.request))
  {
    hide *;
    ExecutorFailureUnfolds(labels, j, call, c, retryable, after, version);
    FinishUnfolds(labels, j, call);
    RunKeepsReachable(labels, j, j);
    AtNext(labels, j);
    var env := labels[j].env;
    ExecutorFailureStep(At(labels, j), labels[j], call);
    if A.FitsFailure(c, retryable, after) {
      ReachableTables(At(labels, j));
      SettledForGood(labels, At(labels, j).tables, j + 1, n, call.request,
                     FailureResponse(call.request, c, retryable, after, Some(env.receiptId), env.now),
                     Some(call.targetDigest), version, env.now);
    } else {
      MisfitIsNotRecorded(labels, j, call);
      FinishSettlesOrWaits(labels, j, n, call);
    }
  }

  lemma ExecutorFailureUnfolds(labels: seq<Label>, j: nat, call: A.Call, c: FailureClass, retryable: bool,
                               after: Option<int>, version: string)
    requires ExecutorFailsAt(labels, j, call, c, retryable, after, version)
    ensures FinishesAt(labels, j, call) && j < |labels| && labels[j].Finish?
    ensures labels[j].execution == A.InspectionFailed(c, retryable, after, version)
    ensures A.AuthorityHolds(At(labels, j).registry, At(labels, j).tables, call.certificate, call.request,
                             call.targetDigest, labels[j].env.now, labels[j].env.clock)
    ensures A.CanRecord(At(labels, j).tables, version, labels[j].env)
  {
    hide A.AuthorityHolds, A.CanRecord, Run;
  }

  lemma {:induction false} ExecutorFailureStep(s: System, l: Label, call: A.Call)
    requires Reachable(s) && s.serving && l.Finish? && l.key in s.inflight && s.inflight[l.key] == call
    requires A.AuthorityHolds(s.registry, s.tables, call.certificate, call.request, call.targetDigest, l.env.now,
                              l.env.clock)
    requires l.execution.InspectionFailed? && A.CanRecord(s.tables, l.execution.version, l.env)
    ensures var (reply, t') := A.Finish(s.registry, s.tables, call, l.execution, l.env);
            var InspectionFailed(c, retryable, after, version) := l.execution;
            && t' == Step(s, l).tables
            && if A.FitsFailure(c, retryable, after)
               then reply == FailureResponse(call.request, c, retryable, after, Some(l.env.receiptId), l.env.now)
                    && Settles(s.tables, t', call.request, reply, Some(call.targetDigest), version, l.env.now)
               else reply == Unreceipted(call.request, ResultAmbiguous, l.env.now)
  {
    hide Inv, A.Finish, A.AuthorityHolds, Settles, IsVersion, A.FailsSafely, Registry.WellFormed, A.FitsFailure;
    A.FinishEffect(s.registry, s.tables, call, l.execution, l.env);
  }

  lemma MisfitIsNotRecorded(labels: seq<Label>, j: nat, call: A.Call)
    requires FinishesAt(labels, j, call) && j < |labels| && labels[j].Finish? && labels[j].execution.InspectionFailed?
    requires A.AuthorityHolds(At(labels, j).registry, At(labels, j).tables, call.certificate, call.request,
                              call.targetDigest, labels[j].env.now, labels[j].env.clock)
    requires !A.FitsFailure(labels[j].execution.failureClass, labels[j].execution.retryable,
                            labels[j].execution.retryAfterMs)
    ensures !RecordsAt(labels, j, call)
  {
    hide A.AuthorityHolds, A.FitsFailure, Run, Reachable;
  }

  // ----- denials

  /** Position `j` gives a row to a request it may not dispatch. */
  ghost predicate DeniesAt(labels: seq<Label>, j: nat) {
    && j < |labels| && labels[j].Begin? && At(labels, j).serving
    && A.ClaimsFresh(At(labels, j).registry, At(labels, j).tables, labels[j].certificate, labels[j].request,
                     labels[j].env.now)
    && !A.MayDispatch(At(labels, j).registry, At(labels, j).tables, labels[j].certificate, labels[j].request,
                      labels[j].env)
  }

  /**
   * A new request without the whole authority is never dispatched. Its row is settled for good by a failure under the
   * receipt drawn for it, if one can be written; otherwise the caller is told so and the row waits for restart
   * recovery.
   */
  lemma {:induction false} DeniedRequestIsSettled(labels: seq<Label>, j: nat, n: nat)
    requires DeniesAt(labels, j) && j < n <= |labels|
    ensures labels[j].Begin? && ReplyAt(labels, j).Some? && ReplyAt(labels, j).value.0 == labels[j].request
    ensures var env := labels[j].env; var request := labels[j].request; var reply := ReplyAt(labels, j).value.1;
            if env.auditWritable && env.receiptId !in At(labels, j).tables.receipts
            then exists c, digest ::
                   reply == Denial(request, c, env)
                   && OnRecord(At(labels, n).tables, request, reply, digest, A.AUTHORITY_VERSION, env.now)
            else reply == Unreceipted(request, ReceiptPersistenceFailed, env.now)
                 && (NotReconciled(labels, j + 1, n, request.key) ==> LeftWaiting(At(labels, n), request))
  {
    hide *;
    RunKeepsReachable(labels, j, j);
    DenialUnfolds(labels, j);
    AtNext(labels, j);
    var s, l := At(labels, j), labels[j];
    ClaimedTables(s, l);
    var t1 := s.tables.(requests := s.tables.requests[l.request.key := L.RowFor(l.request, l.certificate, l.env.now)]);
    var reply := ReplyAt(labels, j).value.1;
    DenialStep(s, l, t1, reply);
    if l.env.auditWritable && l.env.receiptId !in s.tables.receipts {
      var c, digest :| reply == Denial(l.request, c, l.env)
                       && Settles(t1, Step(s, l).tables, l.request, reply, digest, A.AUTHORITY_VERSION, l.env.now);
      SettledForGood(labels, t1, j + 1, n, l.request, reply, digest, A.AUTHORITY_VERSION, l.env.now);
    } else if NotReconciled(labels, j + 1, n, l.request.key) {
      WaitsUntilReconciled(labels, j + 1, n, l.request);
    }
  }

  lemma {:induction false} DenialUnfolds(labels: seq<Label>, j: nat)
    requires DeniesAt(labels, j) && Reachable(At(labels, j))
    ensures j < |labels| && labels[j].Begin? && At(labels, j).serving
    ensures A.ClaimsFresh(At(labels, j).registry, At(labels, j).tables, labels[j].certificate, labels[j].request,
                          labels[j].env.now)
    ensures !A.MayDispatch(At(labels, j).registry, At(labels, j).tables, labels[j].certificate, labels[j].request,
                           labels[j].env)
    ensures var s := At(labels, j); var l := labels[j];
            var begun := A.Begin(s.registry, s.tables, l.certificate, l.request, l.env).0;
            begun.Replied? && ReplyAt(labels, j) == Some((l.request, begun.response))
  {
    hide Inv, A.Begin, A.ClaimsFresh, A.MayDispatch, A.BeginsSafely, A.ClaimDenied, A.DispatchEffect, Run;
    var s, l := At(labels, j), labels[j];
    A.BeginEffect(s.registry, s.tables, l.certificate, l.request, l.env);
  }

  lemma {:induction false} ClaimedTables(s: System, l: Label)
    requires Reachable(s) && l.Begin? && A.ClaimsFresh(s.registry, s.tables, l.certificate, l.request, l.env.now)
    ensures Inv(s.tables.(requests := s.tables.requests[l.request.key := L.RowFor(l.request, l.certificate,
            l.env.now)]))
  {
    hide Inv, A.InitialDenial, Registry.WellFormed;
    ClaimKeepsInv(s.tables, l.request, l.certificate, l.env.now);
  }

  /** The denial itself: the new row is settled by the reply, or waits with no call behind it. */
  lemma {:induction false} DenialStep(s: System, l: Label, t1: L.Tables, reply: Response)
    requires Reachable(s) && s.serving && l.Begin?
    requires A.ClaimsFresh(s.registry, s.tables, l.certificate, l.request, l.env.now)
    requires !A.MayDispatch(s.registry, s.tables, l.certificate, l.request, l.env)
    requires A.Begin(s.registry, s.tables, l.certificate, l.request, l.env).0 == A.Replied(reply)
    requires t1 == s.tables.(requests := s.tables.requests[l.request.key := L.RowFor(l.request, l.certificate,
             l.env.now)])
    ensures if l.env.auditWritable && l.env.receiptId !in s.tables.receipts
            then exists c, digest ::
                   reply == Denial(l.request, c, l.env)
                   && Settles(t1, Step(s, l).tables, l.request, reply, digest, A.AUTHORITY_VERSION, l.env.now)
            else reply == Unreceipted(l.request, ReceiptPersistenceFailed, l.env.now)
                 && LeftWaiting(Step(s, l), l.request)
  {
    hide Inv, A.Begin, A.ClaimsFresh, A.MayDispatch, A.BeginsSafely, A.DispatchEffect, A.Authorize, Settles, IsVersion;
    hide Registry.WellFormed;
    A.BeginEffect(s.registry, s.tables, l.certificate, l.request, l.env);
    AuthorityVersionFits();
    FreshKeyNotInflight(s, l);
    var decided := A.Authorize(s.registry, t1, l.certificate, l.request, l.env);
    if decided.Denied? && A.CanRecord(t1, A.AUTHORITY_VERSION, l.env) {
      assert reply == Denial(l.request, decided.failureClass, l.env);
      assert Settles(t1, Step(s, l).tables, l.request, reply, decided.targetDigest, A.AUTHORITY_VERSION, l.env.now);
    }
  }

  lemma FreshKeyNotInflight(s: System, l: Label)
    requires Reachable(s) && l.Begin? && A.ClaimsFresh(s.registry, s.tables, l.certificate, l.request, l.env.now)
    ensures l.request.key !in s.inflight
  {
    hide Inv, A.InitialDenial, Registry.WellFormed;
  }
}
