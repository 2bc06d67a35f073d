/**
 * The laws of the protected connector over whole runs, stated over the columns of the tables: what stands behind every
 * dispatch and every success, and what becomes of every request and every call by its cause.
 */
module ConnectorLaws {
  import opened Prelude
  import opened ConnectorProtocol
  import opened ConnectorInvariant
  import opened ConnectorRuns
  import opened ConnectorFailures
  import opened ConnectorStanding
  import L = ConnectorLedger
  import A = ConnectorAuthority
  import Registry

  /** Everything the call rests on stands at position `i`, at the time and by the clock of that step. */
  ghost predicate StandsAt(labels: seq<Label>, i: nat, call: A.Call, env: A.Env)
    requires i <= |labels|
  {
    Stands(At(labels, i).registry, At(labels, i).tables, call.certificate, call.request, call.target, env.now,
           env.clock)
  }

  // ----- dispatch

  /** Position `i` begins a request while the service is serving. */
  predicate BeginsAt(labels: seq<Label>, i: nat) {
    i < |labels| && labels[i].Begin? && At(labels, i).serving
  }

  ghost function FateAt(labels: seq<Label>, i: nat): Fate
    requires BeginsAt(labels, i)
  {
    FateOf(At(labels, i).registry, At(labels, i).tables, labels[i].certificate, labels[i].request, labels[i].env)
  }

  function BegunAt(labels: seq<Label>, i: nat): A.Begun
    requires BeginsAt(labels, i)
  {
    A.Begin(At(labels, i).registry, At(labels, i).tables, labels[i].certificate, labels[i].request, labels[i].env).0
  }

  /** Every request that comes in meets the fate its cause calls for, in the reply or the call and in the tables. */
  lemma {:induction false} BegunByCause(labels: seq<Label>, i: nat)
    requires BeginsAt(labels, i)
    ensures Meets(At(labels, i).tables, At(labels, i + 1).tables, labels[i].certificate, labels[i].request,
                  labels[i].env, FateAt(labels, i), BegunAt(labels, i))
  {
    hide A.Begin, Meets, FateOf, Run, Inv, CallsAwaited, Registry.WellFormed;
    RunKeepsReachable(labels, i, i);
    AtNext(labels, i);
    var s, l := At(labels, i), labels[i];
    BeginMeetsFate(s.registry, s.tables, l.certificate, l.request, l.env);
  }

  /**
   * The executor is asked for a request exactly when it is well made and new, the audit can be written, and everything
   * it rests on stands at that moment for the target its binding seals.
   */
  lemma {:induction false} DispatchedExactly(labels: seq<Label>, i: nat)
    requires BeginsAt(labels, i)
    ensures var t := At(labels, i).tables; var request := labels[i].request;
            var key := L.BindingKey(request.key.installationId, request.authority.bindingId);
            (BegunAt(labels, i).Dispatched?
             <==> && WellMade(request) && Unclaimed(t, request) && labels[i].env.auditWritable
                  && key in t.bindings
                  && Stands(At(labels, i).registry, t, labels[i].certificate, request, t.bindings[key].target.secret,
                            labels[i].env.now, labels[i].env.clock))
  {
    hide A.Begin, Run, Inv, CallsAwaited, Registry.WellFormed, Registry.Holds, TopologyStands, PolicyStands,
         FenceStands, Usable, Timely, Written;
    BegunByCause(labels, i);
    RunKeepsReachable(labels, i, i);
    StoredCapability(At(labels, i), labels[i].request);
  }

  lemma StoredCapability(s: System, request: Request)
    requires Reachable(s)
    ensures var t := s.tables; var key := L.BindingKey(request.key.installationId, request.authority.bindingId);
            WellMade(request) && key in t.bindings
            && t.bindings[key].projection.operation == request.authority.operation ==>
              request.authority.capabilityId in t.bindings[key].projection.capabilityIds
  {
    hide Inv, CallsAwaited, Registry.WellFormed;
    var key := L.BindingKey(request.key.installationId, request.authority.bindingId);
    if key in s.tables.bindings {
      StoredTarget(s.tables, key);
    }
  }

  /** What a dispatched call carries: its request and certificate, and the target and credential its binding seals. */
  lemma {:induction false} DispatchCarries(labels: seq<Label>, i: nat, call: A.Call)
    requires DispatchesAt(labels, i, call)
    ensures BeginsAt(labels, i) && call.request == labels[i].request && call.certificate == labels[i].certificate
    ensures call.targetDigest == TargetDigest(call.target)
    ensures StandsAt(labels, i, call, labels[i].env) && labels[i].env.auditWritable
  {
    hide A.Begin, Run, Inv, Stands, WellMade, Unclaimed;
    DispatchUnfolds(labels, i, call);
    DispatchedExactly(labels, i);
    BegunByCause(labels, i);
  }

  /**
   * A request denied before anybody is asked is on record in every later state, with the class its cause calls for and
   * the digest of its binding's target where the binding was at fault, whenever a receipt for it can be written.
   */
  lemma {:induction false} DeniedByCause(labels: seq<Label>, i: nat, n: nat)
    requires BeginsAt(labels, i) && i < n <= |labels| && FateAt(labels, i).Recorded?
    requires labels[i].env.auditWritable && labels[i].env.receiptId !in At(labels, i).tables.receipts
    ensures var request := labels[i].request; var env := labels[i].env;
            var reply := Failure(request, FateAt(labels, i).failureClass, false, None, Some(env.receiptId), env.now);
            && ReplyAt(labels, i) == Some((request, reply))
            && OnRecord(At(labels, n).tables, request, reply, FateAt(labels, i).targetDigest, "authority-1", env.now)
  {
    BeginLabel(labels, i);
    hide *;
    BeginLabel(labels, i);
    BegunByCause(labels, i);
    RunKeepsReachable(labels, i + 1, n);
    RecordedIsWritten(labels, i);
    BeginReplies(labels, i);
    var request, env := labels[i].request, labels[i].env;
    var reply := Failure(request, FateAt(labels, i).failureClass, false, None, Some(env.receiptId), env.now);
    ReachableTables(At(labels, i + 1));
    ReachableTables(At(labels, n));
    var t1 := At(labels,
                 i).tables.(requests := At(labels,
                                           i).tables.requests[request.key := Claim(request, labels[i].certificate,
                                           env.now)]);
    WrittenIsOnRecord(t1, At(labels, i + 1).tables, request, reply, FateAt(labels, i).targetDigest, "authority-1",
                      env.now);
    RecordIsFrozen(At(labels, i + 1).tables, At(labels, n).tables, request, reply, FateAt(labels, i).targetDigest,
                   "authority-1", env.now);
  }

  lemma BeginLabel(labels: seq<Label>, i: nat)
    requires BeginsAt(labels, i)
    ensures i < |labels| && labels[i].Begin?
  {
    hide Run;
  }

  lemma BeginReplies(labels: seq<Label>, i: nat)
    requires BeginsAt(labels, i) && BegunAt(labels, i).Replied?
    ensures ReplyAt(labels, i) == Some((labels[i].request, BegunAt(labels, i).response))
  {
    hide A.Begin, Run;
  }

  lemma RecordedIsWritten(labels: seq<Label>, i: nat)
    requires BeginsAt(labels, i) && FateAt(labels, i).Recorded?
    requires labels[i].env.auditWritable && labels[i].env.receiptId !in At(labels, i).tables.receipts
    requires Meets(At(labels, i).tables, At(labels, i + 1).tables, labels[i].certificate, labels[i].request,
                   labels[i].env, FateAt(labels, i), BegunAt(labels, i))
    ensures var t := At(labels, i).tables; var l := labels[i];
            var reply := Failure(l.request, FateAt(labels, i).failureClass, false, None, Some(l.env.receiptId),
                                 l.env.now);
            && BegunAt(labels, i) == A.Replied(reply)
            && Written(t.(requests := t.requests[l.request.key := Claim(l.request, l.certificate, l.env.now)]),
                       At(labels, i + 1).tables, l.request.key, reply, FateAt(labels, i).targetDigest, "authority-1",
                       l.env.now)
    ensures L.RequestFromRow(Claim(labels[i].request, labels[i].certificate, labels[i].env.now)) == labels[i].request
  {
    hide A.Begin, Run, Written, FateAt;
  }

  lemma WrittenIsOnRecord(t: L.Tables, t': L.Tables, request: Request, reply: Response,
                          targetDigest: Option<TargetDigest>, version: string, now: nat)
    requires Inv(t') && Written(t, t', request.key, reply, targetDigest, version, now)
    requires L.RequestFromRow(t.requests[request.key]) == request
    ensures OnRecord(t', request, reply, targetDigest, version, now)
  {
    hide RowsWellFormed, BindingsWellFormed, ActiveIsProved, UniqueRequests;
    forall other | other in t'.receipts && t'.receipts[other].key == request.key
      ensures Some(other) == reply.receiptId
    {
      assert ReceiptWellFormed(t', other, t'.receipts[other]);
    }
  }

  // ----- completion

  lemma {:induction false} InflightCarries(labels: seq<Label>, n: nat, key: RequestKey)
    requires n <= |labels| && key in At(labels, n).inflight
    ensures var call := At(labels, n).inflight[key]; call.targetDigest == TargetDigest(call.target)
  {
    hide *;
    var i := InflightWasDispatched(labels, n, key);
    DispatchCarries(labels, i, At(labels, n).inflight[key]);
  }

  ghost function EndAt(labels: seq<Label>, j: nat, call: A.Call): End
    requires j < |labels| && labels[j].Finish?
  {
    EndOf(At(labels, j).registry, At(labels, j).tables, call, labels[j].execution, labels[j].env)
  }

  /** Every call that comes back ends as its cause requires, in the reply and in the tables. */
  lemma {:induction false} FinishedByCause(labels: seq<Label>, j: nat, call: A.Call)
    requires FinishesAt(labels, j, call)
    ensures ReplyAt(labels, j).Some? && ReplyAt(labels, j).value.0 == call.request
    ensures Ends(At(labels, j).tables, At(labels, j + 1).tables, call, labels[j].execution, labels[j].env,
                 EndAt(labels, j, call), ReplyAt(labels, j).value.1)
  {
    FinishUnfolds(labels, j, call);
    hide *;
    RunKeepsReachable(labels, j, j);
    AtNext(labels, j);
    FinishUnfolds(labels, j, call);
    InflightCarries(labels, j, labels[j].key);
    FinishedStep(labels, j, call);
  }

  lemma {:induction false} FinishedStep(labels: seq<Label>, j: nat, call: A.Call)
    requires j < |labels| && labels[j].Finish? && At(labels, j).serving && Reachable(At(labels, j))
    requires labels[j].key in At(labels, j).inflight && At(labels, j).inflight[labels[j].key] == call
    requires call.targetDigest == TargetDigest(call.target) && At(labels, j + 1) == Step(At(labels, j), labels[j])
    requires ReplyAt(labels, j) == Some((call.request, A.Finish(At(labels, j).registry, At(labels, j).tables, call,
                                                                labels[j].execution, labels[j].env).0))
    ensures Ends(At(labels, j).tables, At(labels, j + 1).tables, call, labels[j].execution, labels[j].env,
                 EndAt(labels, j, call), ReplyAt(labels, j).value.1)
  {
    hide Inv, A.Finish, Ends, EndOf, Run, Registry.WellFormed, ReplyAt;
    var s, l := At(labels, j), labels[j];
    FinishMeetsEnd(s.registry, s.tables, call, l.execution, l.env);
  }

  /**
   * A call that comes back after anything it rests on has changed, the policy digest, the enabled operation, the
   * installation, its topology receipt, the fence, the binding or the time, is never a success. It is on record as
   * `reconciliation_required` in every later state, whenever a receipt for it can be written.
   */
  lemma {:induction false} ChangedStandingIsRefused(labels: seq<Label>, j: nat, n: nat, call: A.Call)
    requires FinishesAt(labels, j, call) && j < n <= |labels| && !StandsAt(labels, j, call, labels[j].env)
    ensures ReplyAt(labels, j).Some? && ReplyAt(labels, j).value.1.verdict.Failed?
    ensures var env := labels[j].env;
            env.auditWritable && env.receiptId !in At(labels, j).tables.receipts ==>
              var reply := Failure(call.request, ReconciliationRequired, false, None, Some(env.receiptId), env.now);
              ReplyAt(labels, j) == Some((call.request, reply))
              && OnRecord(At(labels, n).tables, call.request, reply, Some(TargetDigest(call.target)), "authority-1",
                          env.now)
  {
    FinishUnfolds(labels, j, call);
    hide *;
    FinishUnfolds(labels, j, call);
    FinishedByCause(labels, j, call);
    RunKeepsReachable(labels, j, j);
    InflightCarries(labels, j, labels[j].key);
    AuthorityAt(labels, j, call);
    LostAuthorityIsSettled(labels, j, n, call);
    var env := labels[j].env;
    DenialSpelled(call.request, env);
  }

  lemma AuthorityAt(labels: seq<Label>, j: nat, call: A.Call)
    requires j < |labels| && labels[j].Finish? && Reachable(At(labels, j))
             && call.targetDigest == TargetDigest(call.target)
    ensures A.AuthorityHolds(At(labels, j).registry, At(labels, j).tables, call.certificate, call.request,
                             call.targetDigest, labels[j].env.now, labels[j].env.clock)
       <==> StandsAt(labels, j, call, labels[j].env)
  {
    hide Inv, Registry.WellFormed, Stands, A.AuthorityHolds, Run;
    AuthorityExactly(At(labels, j).registry, At(labels, j).tables, call.certificate, call.request, call.target,
                     labels[j].env.now, labels[j].env.clock);
  }

  lemma DenialSpelled(request: Request, env: A.Env)
    ensures Denial(request, ReconciliationRequired, env)
            == Failure(request, ReconciliationRequired, false, None, Some(env.receiptId), env.now)
    ensures Unreceipted(request, ReceiptPersistenceFailed, env.now)
            == Failure(request, ReceiptPersistenceFailed, false, None, None, env.now)
    ensures A.AUTHORITY_VERSION == "authority-1"
    ensures forall c, retryable, after, id, now :: Failure(request, c, retryable, after, id, now).verdict.Failed?
  {
  }

  // ----- success

  /**
   * A succeeded receipt exists only if everything stood twice, when its request was claimed and again when the answer
   * came back, for the very target the binding sealed both times; and it carries an identity of that target, observed
   * no later than the completion, which was no later than the deadline.
   */
  lemma {:induction false} SuccessStandsTwice(labels: seq<Label>, n: nat, id: string)
    returns (i: nat, j: nat, call: A.Call)
    requires n <= |labels| && id in At(labels, n).tables.receipts
             && At(labels, n).tables.receipts[id].verdict.Succeeded?
    ensures i < j < n && BeginsAt(labels, i) && DispatchesAt(labels, i, call) && FinishesAt(labels, j, call)
    ensures StandsAt(labels, i, call, labels[i].env) && StandsAt(labels, j, call, labels[j].env)
    ensures var receipt := At(labels, n).tables.receipts[id];
            && receipt.requestDigest == RequestDigest(call.request)
            && receipt.targetDigest == Some(TargetDigest(call.target))
            && OfTarget(call.target, receipt.verdict.identity)
            && receipt.verdict.identity.observedAt <= receipt.completedAt <= call.request.deadlineAt
  {
    hide *;
    i, j, call := SuccessNeedsAuthorityTwice(labels, n, id);
    SuccessUnfolds(labels, i, j, call, id, At(labels, n).tables.receipts[id]);
    DispatchCarries(labels, i, call);
    RunKeepsReachable(labels, j, j);
    AuthorityAt(labels, j, call);
  }

  lemma SuccessUnfolds(labels: seq<Label>, i: nat, j: nat, call: A.Call, id: string, receipt: L.Receipt)
    requires AuthorizedAt(labels, i, call) && SucceedsAt(labels, j, call, id, receipt)
    ensures DispatchesAt(labels, i, call) && FinishesAt(labels, j, call) && j < |labels| && labels[j].Finish?
    ensures A.AuthorityHolds(At(labels, j).registry, At(labels, j).tables, call.certificate, call.request,
                             call.targetDigest, labels[j].env.now, labels[j].env.clock)
    ensures receipt.requestDigest == RequestDigest(call.request) && receipt.targetDigest == Some(call.targetDigest)
    ensures receipt.verdict.Succeeded? && OfTarget(call.target, receipt.verdict.identity)
    ensures receipt.verdict.identity.observedAt <= receipt.completedAt <= call.request.deadlineAt
  {
    hide A.AuthorityHolds, Run, DispatchesAt, OfTarget, IdentityMatchesTarget;
    if receipt.verdict.Succeeded? {
      OfTargetExactly(call.target, receipt.verdict.identity);
    }
  }
}
