/**
 * Whole runs of the foundation broker: administration, requests begun and finished in any
 * interleaving, rejections, crashes that forget every call in flight, and restarts.
 */
module FoundationRuns {
  import opened Prelude
  import opened FoundationProtocol
  import L = FoundationLedger
  import opened FoundationInvariant
  import S = FoundationService
  import Finite
  import Registry

  datatype System = System(registry: Registry.Registry, tables: L.Tables, inflight: map<RequestKey, S.Call>,
                           serving: bool)

  const START := System(Registry.EMPTY, L.EMPTY, map[], true)

  datatype Label =
    | Administer(step: Registry.Step)
    | AddBinding(bindingKey: L.BindingKey, reference: string, labelText: string, capabilityIds: seq<string>)
    | RevokeBinding(bindingKey: L.BindingKey, now: nat)
    | Reject(input: L.ClaimInput, receiptId: string, now: nat)
    | Begin(certificate: string, request: Request, now: nat, receiptId: string)
    | Finish(key: RequestKey, answer: S.Answer, receiptId: string)
    | Crash
    | CrashAfterClaim(certificate: string, request: Request, now: nat)
    | Restart(rows: seq<L.RequestRow>, receiptIds: seq<string>, now: nat)

  function Keep(result: Result<L.Tables, L.StoreError>, otherwise: L.Tables): L.Tables {
    if result.Ok? then result.value else otherwise
  }

  /** One step. A step that is not possible in a state leaves it as it is. */
  ghost function Step(s: System, l: Label): System {
    match l
    case Administer(step) => AdministerStep(s, step)
    case AddBinding(key, reference, labelText, capabilityIds) =>
      s.(tables := Keep(L.AddBinding(s.registry, s.tables, key, reference, labelText, capabilityIds), s.tables))
    case RevokeBinding(key, now) => s.(tables := Keep(L.RevokeBinding(s.tables, key, now), s.tables))
    case Reject(input, receiptId, now) =>
      var result := L.RejectRequest(s.tables, input, receiptId, now);
      if result.Ok? then s.(tables := result.value.1) else s
    case Begin(certificate, request, now, receiptId) =>
      if s.serving then BeginStep(s, certificate, request, now, receiptId) else s
    case Finish(key, answer, receiptId) =>
      if FinishPossible(s, key, answer) then FinishStep(s, key, answer, receiptId) else s
    case Crash => s.(inflight := map[], serving := false)
    case CrashAfterClaim(certificate, request, now) =>
      if !s.serving then s
      else
        var input := L.ClaimInput(request, RequestDigest(request), certificate);
        s.(tables := L.ClaimRequest(s.registry, s.tables, input, now).1, inflight := map[], serving := false)
    case Restart(rows, receiptIds, now) => if s.serving then s else RestartStep(s, rows, receiptIds, now)
  }

  /** Revoking an installation compromises its bindings in the same transaction. */
  ghost function AdministerStep(s: System, step: Registry.Step): System {
    var r' := Registry.Next(s.registry, step);
    s.(registry := r',
       tables := if step.Revoke? && Registry.RevokeInstallation(s.registry, step.installationId).Ok?
                 then L.CompromiseBindings(s.tables, step.installationId) else s.tables)
  }

  function BeginStep(s: System, certificate: string, request: Request, now: nat, receiptId: string): System {
    var (begun, t') := S.Begin(s.registry, s.tables, certificate, request, now, receiptId);
    s.(tables := t', inflight := if begun.Dispatched? then s.inflight[request.key := begun.call] else s.inflight)
  }

  /** The call is in flight, the answer fits it, and a listing is what the tables hold at this moment. */
  ghost predicate FinishPossible(s: System, key: RequestKey, answer: S.Answer) {
    && s.serving && key in s.inflight && S.Answers(s.inflight[key], answer)
    && (answer.AdapterReady? ==> S.Lists(s.tables, key.installationId, answer.listing))
  }

  ghost function FinishStep(s: System, key: RequestKey, answer: S.Answer, receiptId: string): System
    requires key in s.inflight && S.Answers(s.inflight[key], answer)
  {
    var (_, t') := S.Finish(s.tables, s.inflight[key], answer, receiptId);
    s.(tables := t', inflight := s.inflight - {key})
  }

  /** The constructor's pass over every claimed row; the service serves once it has gone through. */
  ghost function RestartStep(s: System, rows: seq<L.RequestRow>, receiptIds: seq<string>, now: nat): System {
    if |rows| == |receiptIds| && L.SelectsClaimed(s.tables, rows)
       && L.ReconcileRows(s.tables, rows, receiptIds, now).Ok?
    then s.(tables := L.ReconcileRows(s.tables, rows, receiptIds, now).value, serving := true)
    else s
  }

  ghost function Run(labels: seq<Label>): System
    decreases |labels|
  {
    if labels == [] then START else Step(Run(labels[..|labels| - 1]), labels[|labels| - 1])
  }

  ghost function At(labels: seq<Label>, i: nat): System
    requires i <= |labels|
  {
    Run(labels[..i])
  }

  lemma AtNext(labels: seq<Label>, i: nat)
    requires i < |labels|
    ensures At(labels, i + 1) == Step(At(labels, i), labels[i])
  {
    assert labels[..i + 1][..i] == labels[..i];
  }

  lemma AtStart(labels: seq<Label>)
    ensures At(labels, 0) == START
  {
  }

  // ----- the invariant of every reachable state

  ghost predicate CallsAwaited(s: System) {
    && (forall k :: k in s.inflight ==> CallAwaited(s.tables, k, s.inflight[k]))
    && (!s.serving ==> s.inflight == map[])
  }

  ghost predicate CallAwaited(t: L.Tables, key: RequestKey, call: S.Call) {
    && call.request.key == key
    && key in t.requests
    && t.requests[key].requestDigest == RequestDigest(call.request)
    && t.requests[key].subject == call.request.subject
    && S.CallFits(call)
  }

  ghost predicate Reachable(s: System) {
    Registry.WellFormed(s.registry) && Inv(s.tables) && CompromiseMatches(s.registry, s.tables) && CallsAwaited(s)
  }

  lemma CallsKept(s: System, s': System)
    requires CallsAwaited(s) && Grows(s.tables, s'.tables)
    requires s'.inflight == s.inflight && s'.serving == s.serving
    ensures CallsAwaited(s')
  {
    hide ReceiptsGrow, BindingsGrow;
    forall k | k in s'.inflight ensures CallAwaited(s'.tables, k, s'.inflight[k]) {
      assert CallAwaited(s.tables, k, s.inflight[k]);
    }
  }

  lemma NoCalls(s: System)
    requires s.inflight == map[]
    ensures CallsAwaited(s)
  {
  }

  lemma CompromiseKept(r: Registry.Registry, t: L.Tables, t': L.Tables)
    requires CompromiseMatches(r, t) && SameCompromise(t, t')
    ensures CompromiseMatches(r, t')
  {
  }

  lemma {:induction false} StepKeepsReachable(s: System, l: Label)
    requires Reachable(s)
    ensures Reachable(Step(s, l)) && Grows(s.tables, Step(s, l).tables)
  {
    hide Inv, Grows, CallsAwaited, CompromiseMatches, SameCompromise, AdministerStep, BeginStep, FinishStep,
         RestartStep, Registry.WellFormed, L.AddBinding, L.RevokeBinding, L.RejectRequest, L.ClaimRequest;
    var s' := Step(s, l);
    GrowsReflexive(s.tables);
    match l
    case Administer(step) => AdministerKeepsReachable(s, step);
    case AddBinding(key, reference, labelText, capabilityIds) =>
      AddKeepsInv(s.registry, s.tables, key, reference, labelText, capabilityIds);
      CallsKept(s, s');
    case RevokeBinding(key, now) =>
      RevokeKeepsInv(s.registry, s.tables, key, now);
      CallsKept(s, s');
    case Reject(input, receiptId, now) =>
      RejectKeepsInv(s.tables, input, receiptId, now);
      if s' != s {
        CompromiseKept(s.registry, s.tables, s'.tables);
        CallsKept(s, s');
      }
    case Begin(certificate, request, now, receiptId) =>
      if s.serving { BeginKeepsReachable(s, certificate, request, now, receiptId); }
    case Finish(key, answer, receiptId) => if s' != s { FinishKeepsReachable(s, key, answer, receiptId); }
    case Crash => NoCalls(s');
    case CrashAfterClaim(certificate, request, now) =>
      if s.serving { CrashKeepsReachable(s, certificate, request, now); }
    case Restart(rows, receiptIds, now) => if !s.serving { RestartKeepsReachable(s, rows, receiptIds, now); }
  }

  lemma {:induction false} AdministerKeepsReachable(s: System, step: Registry.Step)
    requires Reachable(s)
    ensures Reachable(AdministerStep(s, step)) && Grows(s.tables, AdministerStep(s, step).tables)
  {
    hide Inv, Grows, CallsAwaited, CompromiseMatches, Registry.WellFormed, Registry.Next, L.CompromiseBindings,
         Registry.RevokeInstallation;
    var s' := AdministerStep(s, step);
    GrowsReflexive(s.tables);
    Registry.StepKeepsRegistry(s.registry, step);
    if step.Revoke? && Registry.RevokeInstallation(s.registry, step.installationId).Ok? {
      CompromiseKeepsInv(s.registry, s.tables, step.installationId);
      NextIsRevocation(s.registry, step);
    } else {
      OtherStepsKeepStates(s.registry, step, s.tables);
    }
    CallsKept(s, s');
  }

  lemma NextIsRevocation(r: Registry.Registry, step: Registry.Step)
    requires step.Revoke? && Registry.RevokeInstallation(r, step.installationId).Ok?
    ensures Registry.Next(r, step) == Registry.RevokeInstallation(r, step.installationId).value
  {
  }

  /** Only revocation takes an installation out of service. */
  lemma OtherStepsKeepStates(r: Registry.Registry, step: Registry.Step, t: L.Tables)
    requires CompromiseMatches(r, t)
    requires !(step.Revoke? && Registry.RevokeInstallation(r, step.installationId).Ok?)
    ensures CompromiseMatches(Registry.Next(r, step), t)
  {
  }

  lemma {:induction false} BeginKeepsReachable(s: System, certificate: string, request: Request, now: nat,
                                               receiptId: string)
    requires Reachable(s) && s.serving
    ensures Reachable(BeginStep(s, certificate, request, now, receiptId))
    ensures Grows(s.tables, BeginStep(s, certificate, request, now, receiptId).tables)
  {
    hide Inv, Grows, CallsAwaited, CompromiseMatches, SameCompromise, Registry.WellFormed, S.Begin, S.DispatchEffect;
    S.BeginEffect(s.registry, s.tables, certificate, request, now, receiptId);
    var s' := BeginStep(s, certificate, request, now, receiptId);
    CompromiseKept(s.registry, s.tables, s'.tables);
    CallsKept(s, s.(tables := s'.tables));
    var begun := S.Begin(s.registry, s.tables, certificate, request, now, receiptId).0;
    if begun.Dispatched? {
      DispatchedCallAwaits(s.registry, s.tables, s'.tables, certificate, request, now, begun.call);
      OneMoreCall(s.(tables := s'.tables), request.key, begun.call);
    }
  }

  lemma DispatchedCallAwaits(r: Registry.Registry, t: L.Tables, t': L.Tables, certificate: string, request: Request,
                             now: nat, call: S.Call)
    requires S.DispatchEffect(r, t, t', certificate, request, now, call)
    ensures CallAwaited(t', request.key, call)
  {
    hide L.DuplicateRequest, S.StandsFor;
  }

  lemma OneMoreCall(s: System, key: RequestKey, call: S.Call)
    requires CallsAwaited(s) && s.serving && CallAwaited(s.tables, key, call)
    ensures CallsAwaited(s.(inflight := s.inflight[key := call]))
  {
  }

  lemma {:induction false} FinishKeepsReachable(s: System, key: RequestKey, answer: S.Answer, receiptId: string)
    requires Reachable(s) && s.serving && key in s.inflight && S.Answers(s.inflight[key], answer)
    ensures Reachable(FinishStep(s, key, answer, receiptId))
            && Grows(s.tables, FinishStep(s, key, answer, receiptId).tables)
  {
    hide Inv, Grows, CallsAwaited, CompromiseMatches, SameCompromise, Registry.WellFormed, S.Finish;
    S.FinishEffect(s.tables, s.inflight[key], answer, receiptId);
    var s' := FinishStep(s, key, answer, receiptId);
    CompromiseKept(s.registry, s.tables, s'.tables);
    CallsKept(s, s.(tables := s'.tables));
    OneCallFewer(s.(tables := s'.tables), key);
  }

  lemma OneCallFewer(s: System, key: RequestKey)
    requires CallsAwaited(s) && s.serving
    ensures CallsAwaited(s.(inflight := s.inflight - {key}))
  {
  }

  lemma {:induction false} CrashKeepsReachable(s: System, certificate: string, request: Request, now: nat)
    requires Reachable(s) && s.serving
    ensures var s' := Step(s, CrashAfterClaim(certificate, request, now)); Reachable(s') && Grows(s.tables, s'.tables)
  {
    hide Inv, Grows, CallsAwaited, CompromiseMatches, Registry.WellFormed, L.ClaimRequest;
    var c := L.ClaimInput(request, RequestDigest(request), certificate);
    ClaimKeepsInv(s.registry, s.tables, c, now);
    S.ClaimIsExact(s.registry, s.tables, c, now);
    SameBindingsSameCompromise(s.registry, s.tables, L.ClaimRequest(s.registry, s.tables, c, now).1);
    NoCalls(Step(s, CrashAfterClaim(certificate, request, now)));
  }

  lemma SameBindingsSameCompromise(r: Registry.Registry, t: L.Tables, t': L.Tables)
    requires CompromiseMatches(r, t) && t'.bindings == t.bindings
    ensures CompromiseMatches(r, t')
  {
  }

  lemma {:induction false} RestartKeepsReachable(s: System, rows: seq<L.RequestRow>, receiptIds: seq<string>, now: nat)
    requires Reachable(s) && !s.serving
    ensures var s' := RestartStep(s, rows, receiptIds, now); Reachable(s') && Grows(s.tables, s'.tables)
  {
    hide Inv, Grows, CallsAwaited, CompromiseMatches, Registry.WellFormed, L.ReconcileRows, L.SelectsClaimed;
    GrowsReflexive(s.tables);
    var s' := RestartStep(s, rows, receiptIds, now);
    if s' != s {
      SelectionWaits(s.tables, rows);
      PassKeepsInv(s.tables, rows, receiptIds, now);
      SameBindingsSameCompromise(s.registry, s.tables, s'.tables);
      assert s.inflight == map[] by { NotServingNoCalls(s); }
      NoCalls(s');
    }
  }

  lemma NotServingNoCalls(s: System)
    requires CallsAwaited(s) && !s.serving
    ensures s.inflight == map[]
  {
  }

  lemma SelectionWaits(t: L.Tables, rows: seq<L.RequestRow>)
    requires L.SelectsClaimed(t, rows)
    ensures Waiting(t, rows)
    ensures forall k :: k in t.requests && t.requests[k].state == L.Claimed ==> t.requests[k] in rows
  {
  }

  /** A pass that goes through drew identifiers that were all new. */
  lemma {:induction false} PassKeepsInv(t: L.Tables, rows: seq<L.RequestRow>, receiptIds: seq<string>, now: nat)
    requires Inv(t) && Waiting(t, rows) && |rows| == |receiptIds| && L.ReconcileRows(t, rows, receiptIds, now).Ok?
    ensures var t' := L.ReconcileRows(t, rows, receiptIds, now).value;
            Inv(t') && Grows(t, t') && Recovers(t, t', rows)
  {
    hide Inv, Grows, Recovers, Waiting;
    PassDrewFreshIds(t, rows, receiptIds, now);
    RecoveryIsTotal(t, rows, receiptIds, now);
  }

  lemma {:induction false} PassDrewFreshIds(t: L.Tables, rows: seq<L.RequestRow>, receiptIds: seq<string>, now: nat)
    requires |rows| == |receiptIds| && L.ReconcileRows(t, rows, receiptIds, now).Ok?
    ensures FreshIds(t, receiptIds)
    decreases |rows|
  {
    if rows != [] {
      var response := L.ResponseForRow(rows[0], Failed, Failure(ResultAmbiguous), receiptIds[0], None, [], now);
      var t1 := L.Settle(t, rows[0], response, L.Ambiguous, receiptIds[0], None, now).value;
      PassDrewFreshIds(t1, rows[1..], receiptIds[1..], now);
      assert forall i :: 0 < i < |receiptIds| ==> receiptIds[i] == receiptIds[1..][i - 1];
    }
  }

  lemma StartIsReachable()
    ensures Reachable(START)
  {
  }

  /** Every state of every run keeps the invariant, and its tables only grow. */
  lemma {:induction false} RunKeepsReachable(labels: seq<Label>, i: nat, j: nat)
    requires i <= j <= |labels|
    ensures Reachable(At(labels, i)) && Reachable(At(labels, j)) && Grows(At(labels, i).tables, At(labels, j).tables)
    decreases j
  {
    hide *;
    GrowsReflexive(At(labels, i).tables);
    if i < j {
      RunKeepsReachable(labels, i, j - 1);
      AtNext(labels, j - 1);
      StepKeepsReachable(At(labels, j - 1), labels[j - 1]);
      GrowsTransitive(At(labels, i).tables, At(labels, j - 1).tables, At(labels, j).tables);
    } else if i > 0 {
      RunKeepsReachable(labels, i - 1, i - 1);
      AtNext(labels, i - 1);
      StepKeepsReachable(At(labels, i - 1), labels[i - 1]);
    } else {
      AtStart(labels);
      StartIsReachable();
    }
  }

  lemma ReachableTables(s: System)
    requires Reachable(s)
    ensures Inv(s.tables)
  {
    hide Inv;
  }

  // ----- dispatch at most once

  /** Position `i` hands `call` to the vault adapter. */
  ghost predicate DispatchesAt(labels: seq<Label>, i: nat, call: S.Call) {
    && i < |labels|
    && labels[i].Begin?
    && At(labels, i).serving
    && S.Begin(At(labels, i).registry, At(labels, i).tables, labels[i].certificate, labels[i].request, labels[i].now,
               labels[i].receiptId).0
       == S.Dispatched(call)
  }

  /** Each dispatch is of a request the certificate may make, against a binding that stands for it right then. */
  lemma DispatchIsAuthorized(labels: seq<Label>, i: nat, call: S.Call)
    requires DispatchesAt(labels, i, call)
    ensures S.DispatchEffect(At(labels, i).registry, At(labels, i).tables, At(labels, i + 1).tables,
                             labels[i].certificate, labels[i].request, labels[i].now, call)
  {
    hide Inv, Grows, S.Begin, S.DispatchEffect, Run, SameCompromise;
    RunKeepsReachable(labels, i, i);
    AtNext(labels, i);
    S.BeginEffect(At(labels, i).registry, At(labels, i).tables, labels[i].certificate, labels[i].request,
                  labels[i].now, labels[i].receiptId);
  }

  /** The adapter is asked at most once per idempotency key, per request id and per nonce, over any run. */
  lemma DispatchedAtMostOnce(labels: seq<Label>, i: nat, j: nat, call: S.Call, call': S.Call)
    requires i < j && DispatchesAt(labels, i, call) && DispatchesAt(labels, j, call')
    ensures call.request.key != call'.request.key
    ensures call.request.key.installationId == call'.request.key.installationId ==>
              call.request.requestId != call'.request.requestId && call.request.nonce != call'.request.nonce
  {
    hide S.Begin, Grows, S.DispatchEffect, Run;
    DispatchIsAuthorized(labels, i, call);
    DispatchIsAuthorized(labels, j, call');
    RunKeepsReachable(labels, i + 1, j);
    SeenForever(At(labels, i), At(labels, i + 1).tables, At(labels, j), At(labels, j + 1).tables, labels[i], labels[j],
                call, call');
  }

  lemma SeenForever(s: System, t1: L.Tables, s': System, t2: L.Tables, l: Label, l': Label, call: S.Call, call': S.Call)
    requires l.Begin? && l'.Begin?
    requires S.DispatchEffect(s.registry, s.tables, t1, l.certificate, l.request, l.now, call)
    requires S.DispatchEffect(s'.registry, s'.tables, t2, l'.certificate, l'.request, l'.now, call')
    requires Grows(t1, s'.tables)
    ensures call.request.key != call'.request.key
    ensures call.request.key.installationId == call'.request.key.installationId ==>
              call.request.requestId != call'.request.requestId && call.request.nonce != call'.request.nonce
  {
    hide S.StandsFor, ReceiptsGrow, BindingsGrow;
    assert call.request.key in t1.requests;
    assert call.request.key in s'.tables.requests;
  }

  // ----- the binding lifecycle

  /**
   * Between any two moments of a run a binding's generation never goes back; once revoked or compromised it is never
   * again pending, verified, degraded or active, whatever verification completes in between; and within one generation
   * its sealed reference is the same.
   */
  lemma BindingLifecycle(labels: seq<Label>, i: nat, j: nat, k: L.BindingKey)
    requires i <= j <= |labels| && k in At(labels, i).tables.bindings
    ensures k in At(labels, j).tables.bindings
    ensures var before := At(labels, i).tables.bindings[k]; var after := At(labels, j).tables.bindings[k];
            && before.generation <= after.generation
            && (L.Withdrawn(before.state) ==> L.Withdrawn(after.state))
            && (before.state == BindingCompromised ==> after.state == BindingCompromised)
            && (before.generation == after.generation ==> before.reference == after.reference)
  {
    hide Run, Reachable, RequestsGrow, ReceiptsGrow;
    RunKeepsReachable(labels, i, j);
  }

  /**
   * In any reachable state a binding is compromised exactly when its installation is no longer enabled; its reference
   * is sealed one generation behind exactly then, and so opens exactly when the binding is not compromised.
   */
  lemma ReferenceFollowsCompromise(labels: seq<Label>, n: nat, k: L.BindingKey)
    requires n <= |labels| && k in At(labels, n).tables.bindings
    ensures var s := At(labels, n); var row := s.tables.bindings[k]; var compromised := row.state == BindingCompromised;
            && (compromised <==> !Registry.InstallationEnabled(s.registry, k.installationId))
            && (L.OpenReference(k, row).Some? <==> !compromised)
            && row.reference.Some? && row.generation >= 1
            && row.reference.value.aad == L.BindingAad(k, if compromised then row.generation - 1 else row.generation)
            && row.state != Active
  {
    hide Run, Ledger, VerifiedIsProved;
    RunKeepsReachable(labels, n, n);
    ReferenceOpensUnlessCompromised(At(labels, n).tables, k);
    assert BindingWellFormed(k, At(labels, n).tables.bindings[k]);
  }

  /** A binding shows as verified or degraded only if a valid verification at its present generation is on file. */
  lemma VerifiedBindingsAreProved(labels: seq<Label>, n: nat, k: L.BindingKey)
    requires n <= |labels| && k in At(labels, n).tables.bindings
    requires At(labels, n).tables.bindings[k].state in {VaultVerified, Degraded}
    ensures ProvedVerified(At(labels, n).tables, k, At(labels, n).tables.bindings[k].generation)
  {
    hide Run, Ledger, BindingsWellFormed, ProvedVerified;
    RunKeepsReachable(labels, n, n);
  }

  // ----- replies

  /** The reply a caller is given at position `i`, with the key it asked under, if that position answers a caller. */
  ghost function ReplyAt(labels: seq<Label>, i: nat): Option<(RequestKey, Response)>
    requires i < |labels|
  {
    var s := At(labels, i);
    match labels[i]
    case Begin(certificate, request, now, receiptId) =>
      if !s.serving then None
      else
        var begun := S.Begin(s.registry, s.tables, certificate, request, now, receiptId).0;
        if begun.Replied? then Some((request.key, begun.response)) else None
    case Finish(key, answer, receiptId) =>
      if FinishPossible(s, key, answer)
      then Some((key, S.Finish(s.tables, s.inflight[key], answer, receiptId).0)) else None
    case Reject(input, receiptId, now) =>
      var result := L.RejectRequest(s.tables, input, receiptId, now);
      if result.Ok? then Some((input.request.key, result.value.0)) else None
    case _ => None
  }

  /** A reply that names a receipt, replays included, is the response on file from then on, and the receipt is kept. */
  lemma ReceiptedReplyIsFinal(labels: seq<Label>, i: nat, n: nat)
    requires i < n <= |labels| && ReplyAt(labels, i).Some? && ReplyAt(labels, i).value.1.receiptId.Some?
    ensures var (key, reply) := ReplyAt(labels, i).value; var t := At(labels, n).tables;
            && key in t.requests && t.requests[key].response == Some(reply)
            && reply.receiptId.value in t.receipts
            && t.receipts[reply.receiptId.value].verdict == reply.verdict
            && t.receipts[reply.receiptId.value].outcome == reply.outcome
  {
    hide S.Begin, S.Finish, Reachable, Run, Inv, Grows, L.RejectRequest;
    var (key, reply) := ReplyAt(labels, i).value;
    RunKeepsReachable(labels, i, i);
    RunKeepsReachable(labels, i + 1, n);
    AtNext(labels, i);
    ReplyIsOnFile(At(labels, i), labels[i], key, reply);
    ReachableTables(At(labels, i + 1));
    ResponseFrozen(At(labels, i + 1).tables, At(labels, n).tables, key);
    ReachableTables(At(labels, n));
    FiledResponseHasReceipt(At(labels, n).tables, key);
  }

  lemma {:induction false} ReplyIsOnFile(s: System, l: Label, key: RequestKey, reply: Response)
    requires Reachable(s) && reply.receiptId.Some?
    requires match l
             case Begin(certificate, request, now, receiptId) =>
               s.serving && request.key == key
               && S.Begin(s.registry, s.tables, certificate, request, now, receiptId).0 == S.Replied(reply)
             case Finish(k, answer, receiptId) =>
               FinishPossible(s, k, answer) && k == key
               && S.Finish(s.tables, s.inflight[k], answer, receiptId).0 == reply
             case Reject(input, receiptId, now) =>
               input.request.key == key && var result := L.RejectRequest(s.tables, input, receiptId, now);
                                           result.Ok? && result.value.0 == reply
             case _ => false
    ensures ReplyOnFile(Step(s, l).tables, key, reply)
  {
    hide Inv, Grows, S.Begin, S.Finish, L.RejectRequest, S.DispatchEffect, SameCompromise;
    if l.Begin? {
      S.BeginEffect(s.registry, s.tables, l.certificate, l.request, l.now, l.receiptId);
    } else if l.Finish? {
      assert CallAwaited(s.tables, key, s.inflight[key]);
      S.FinishEffect(s.tables, s.inflight[key], l.answer, l.receiptId);
    } else {
      RejectKeepsInv(s.tables, l.input, l.receiptId, l.now);
    }
  }

  lemma ResponseFrozen(t: L.Tables, t': L.Tables, key: RequestKey)
    requires Inv(t) && Grows(t, t') && key in t.requests && t.requests[key].response.Some?
    ensures key in t'.requests && t'.requests[key] == t.requests[key]
  {
    hide Inv, ReceiptsGrow, BindingsGrow;
    AnsweredIsSettled(t, key);
  }

  lemma FiledResponseHasReceipt(t: L.Tables, key: RequestKey)
    requires Inv(t) && key in t.requests && t.requests[key].response.Some?
    ensures var response := t.requests[key].response.value;
            response.receiptId.Some? && response.receiptId.value in t.receipts
            && t.receipts[response.receiptId.value].verdict == response.verdict
            && t.receipts[response.receiptId.value].outcome == response.outcome
  {
    hide UniqueRequests, BindingsWellFormed, VerifiedIsProved, ValidResponse;
    RowIsWellFormed(t, key);
    assert ReceiptWellFormed(t, t.requests[key].receiptId.value, t.receipts[t.requests[key].receiptId.value]);
  }

  // ----- accounting

  /**
   * In any reachable state a row is waiting, with no response and no receipt, or settled under exactly one receipt,
   * whose id its response names; and it is ambiguous exactly when that response says so.
   */
  lemma EveryRowIsSettledOnce(labels: seq<Label>, n: nat, k: RequestKey)
    requires n <= |labels| && k in At(labels, n).tables.requests
    ensures var t := At(labels, n).tables; var row := t.requests[k];
            && row.key == k
            && (row.state == L.Claimed <==> row.response.None?) && (row.state == L.Claimed <==> row.receiptId.None?)
            && (forall id :: id in t.receipts && t.receipts[id].key == k <==> row.receiptId == Some(id))
            && (row.response.Some? ==> row.response.value.receiptId == row.receiptId
                                       && (row.state == L.Ambiguous
                                           <==> row.response.value.verdict.failureClass == Some(ResultAmbiguous)))
  {
    hide Run, UniqueRequests, BindingsWellFormed, VerifiedIsProved, ValidResponse;
    RunKeepsReachable(labels, n, n);
    var t := At(labels, n).tables;
    RowIsWellFormed(t, k);
    hide RowsWellFormed;
    forall id | id in t.receipts && t.receipts[id].key == k ensures t.requests[k].receiptId == Some(id) {
      assert ReceiptWellFormed(t, id, t.receipts[id]);
    }
  }

  /** Receipts and waiting rows together account for every row. */
  lemma EveryRowAccountedFor(labels: seq<Label>, n: nat)
    requires n <= |labels|
    ensures var t := At(labels, n).tables;
            |t.receipts| + |set k | k in t.requests && t.requests[k].state == L.Claimed| == |t.requests|
  {
    hide Run;
    RunKeepsReachable(labels, n, n);
    ReachableTables(At(labels, n));
    RowsBalance(At(labels, n).tables);
  }

  lemma RowsBalance(t: L.Tables)
    requires Inv(t)
    ensures |t.receipts| + |set k | k in t.requests && t.requests[k].state == L.Claimed| == |t.requests|
  {
    hide Inv;
    ReceiptsNameRows(t);
    var waiting := set k | k in t.requests && t.requests[k].state == L.Claimed;
    Finite.Balance(t.requests.Keys, waiting, t.receipts.Keys,
                   map id | id in t.receipts :: t.receipts[id].key,
                   map k | k in t.requests && t.requests[k].receiptId.Some? :: t.requests[k].receiptId.value);
  }

  lemma ReceiptsNameRows(t: L.Tables)
    requires Inv(t)
    ensures forall id :: id in t.receipts ==>
              t.receipts[id].key in t.requests && t.requests[t.receipts[id].key].receiptId == Some(id)
    ensures forall k :: k in t.requests ==> (t.requests[k].state != L.Claimed <==> t.requests[k].receiptId.Some?)
    ensures forall k :: k in t.requests && t.requests[k].receiptId.Some? ==>
              t.requests[k].receiptId.value in t.receipts && t.receipts[t.requests[k].receiptId.value].key == k
  {
    hide UniqueRequests, BindingsWellFormed, VerifiedIsProved, ValidResponse;
    forall id | id in t.receipts
      ensures t.receipts[id].key in t.requests && t.requests[t.receipts[id].key].receiptId == Some(id)
    {
      assert ReceiptWellFormed(t, id, t.receipts[id]);
    }
    forall k | k in t.requests
      ensures t.requests[k].state != L.Claimed <==> t.requests[k].receiptId.Some?
      ensures t.requests[k].receiptId.Some? ==>
                t.requests[k].receiptId.value in t.receipts && t.receipts[t.requests[k].receiptId.value].key == k
    {
      RowIsWellFormed(t, k);
    }
  }

  // ----- restarts

  /**
   * A restart over the rows it selects always goes through when its identifiers are new: afterwards nothing is waiting,
   * every interrupted row says its result is ambiguous, and every other row is as it was.
   */
  lemma RestartLeavesNothingWaiting(labels: seq<Label>, n: nat, rows: seq<L.RequestRow>, receiptIds: seq<string>,
                                    now: nat)
    requires n <= |labels| && !At(labels, n).serving
    requires L.SelectsClaimed(At(labels, n).tables, rows) && FreshIds(At(labels, n).tables, receiptIds)
             && |rows| == |receiptIds|
    ensures var s := At(labels, n); var s' := Step(s, Restart(rows, receiptIds, now));
            && s'.serving && s'.tables.requests.Keys == s.tables.requests.Keys
            && forall k :: k in s.tables.requests ==>
                 if s.tables.requests[k].state == L.Claimed then InterruptedRow(s'.tables.requests[k])
                 else s'.tables.requests[k] == s.tables.requests[k]
  {
    hide Run, Inv, Grows, L.ReconcileRows, L.SelectsClaimed, FreshIds;
    var s := At(labels, n);
    RunKeepsReachable(labels, n, n);
    SelectionWaits(s.tables, rows);
    RecoveryIsTotal(s.tables, rows, receiptIds, now);
    ListedAreClaimed(s.tables, rows);
  }

  ghost predicate InterruptedRow(row: L.RequestRow) {
    row.state == L.Ambiguous && row.response.Some? && row.response.value.verdict == Failure(ResultAmbiguous)
  }

  lemma ListedAreClaimed(t: L.Tables, rows: seq<L.RequestRow>)
    requires Inv(t) && Waiting(t, rows)
    requires forall k :: k in t.requests && t.requests[k].state == L.Claimed ==> t.requests[k] in rows
    ensures forall k :: k in t.requests ==> (Listed(rows, k) <==> t.requests[k].state == L.Claimed)
  {
    hide ReceiptsWellFormed, UniqueRequests, BindingsWellFormed, VerifiedIsProved, ValidResponse;
    forall k | k in t.requests && t.requests[k].state == L.Claimed ensures Listed(rows, k) {
      RowIsWellFormed(t, k);
      var i :| 0 <= i < |rows| && rows[i] == t.requests[k];
      assert rows[i].key == k;
    }
  }

  // ----- the binding limit

  ghost predicate WithinLimit(t: L.Tables) {
    forall id :: |L.InstallationBindings(t, id)| <= BROKER_MAX_BINDINGS
  }

  lemma SameKeysSameLimit(t: L.Tables, t': L.Tables)
    requires WithinLimit(t) && t'.bindings.Keys == t.bindings.Keys
    ensures WithinLimit(t')
  {
    forall id ensures |L.InstallationBindings(t', id)| <= BROKER_MAX_BINDINGS {
      assert L.InstallationBindings(t', id) == L.InstallationBindings(t, id);
    }
  }

  lemma AddKeepsLimit(r: Registry.Registry, t: L.Tables, key: L.BindingKey, reference: string, labelText: string,
                      capabilityIds: seq<string>)
    requires WithinLimit(t)
    ensures WithinLimit(Keep(L.AddBinding(r, t, key, reference, labelText, capabilityIds), t))
  {
    hide L.ValidEnrollment, L.InstallationBindings;
    var t' := Keep(L.AddBinding(r, t, key, reference, labelText, capabilityIds), t);
    if t' != t {
      forall id ensures |L.InstallationBindings(t', id)| <= BROKER_MAX_BINDINGS {
        OneMoreBinding(t, t', key, id);
      }
    }
  }

  lemma OneMoreBinding(t: L.Tables, t': L.Tables, key: L.BindingKey, id: string)
    requires t'.bindings.Keys == t.bindings.Keys + {key}
    ensures |L.InstallationBindings(t', id)| <= |L.InstallationBindings(t, id)|
            + if id == key.installationId then 1 else 0
  {
    assert L.InstallationBindings(t', id)
           == L.InstallationBindings(t, id) + if id == key.installationId then {key} else {};
  }

  lemma StepKeepsLimit(s: System, l: Label)
    requires Reachable(s) && WithinLimit(s.tables)
    ensures WithinLimit(Step(s, l).tables)
  {
    hide Inv, Grows, CallsAwaited, CompromiseMatches, WithinLimit, BeginStep, FinishStep, RestartStep, FinishPossible,
         L.AddBinding, L.RejectRequest, L.ClaimRequest;
    match l
    case AddBinding(key, reference, labelText, capabilityIds) =>
      AddKeepsLimit(s.registry, s.tables, key, reference, labelText, capabilityIds);
    case _ => OtherStepsKeepKeys(s, l); SameKeysSameLimit(s.tables, Step(s, l).tables);
  }

  lemma OtherStepsKeepKeys(s: System, l: Label)
    requires Reachable(s) && !l.AddBinding?
    ensures Step(s, l).tables.bindings.Keys == s.tables.bindings.Keys
  {
    hide Inv, Grows, CallsAwaited, CompromiseMatches, S.Begin, S.Finish, L.ReconcileRows, L.SelectsClaimed,
         L.RejectRequest, L.ClaimRequest, S.DispatchEffect, S.Lists;
    match l
    case Begin(certificate, request, now, receiptId) =>
      S.BeginEffect(s.registry, s.tables, certificate, request, now, receiptId);
    case Finish(key, answer, receiptId) =>
      if FinishPossible(s, key, answer) { S.FinishEffect(s.tables, s.inflight[key], answer, receiptId); }
    case Reject(input, receiptId, now) => RejectKeepsInv(s.tables, input, receiptId, now);
    case CrashAfterClaim(certificate, request, now) =>
      S.ClaimIsExact(s.registry, s.tables, L.ClaimInput(request, RequestDigest(request), certificate), now);
    case Restart(rows, receiptIds, now) =>
      if |rows| == |receiptIds| && L.SelectsClaimed(s.tables, rows)
         && L.ReconcileRows(s.tables, rows, receiptIds, now).Ok? {
        SelectionWaits(s.tables, rows);
        PassKeepsInv(s.tables, rows, receiptIds, now);
      }
    case _ =>
  }

  /** No installation ever has more bindings than a health response may list. */
  lemma {:induction false} BindingsStayWithinLimit(labels: seq<Label>, n: nat)
    requires n <= |labels|
    ensures WithinLimit(At(labels, n).tables)
  {
    hide *;
    if n == 0 {
      AtStart(labels);
      EmptyWithinLimit();
    } else {
      BindingsStayWithinLimit(labels, n - 1);
      RunKeepsReachable(labels, n - 1, n - 1);
      AtNext(labels, n - 1);
      StepKeepsLimit(At(labels, n - 1), labels[n - 1]);
    }
  }

  lemma EmptyWithinLimit()
    ensures WithinLimit(START.tables)
  {
    forall id ensures |L.InstallationBindings(START.tables, id)| <= BROKER_MAX_BINDINGS {
      assert L.InstallationBindings(START.tables, id) == {};
    }
  }

  /**
   * So a health read that the adapter answers is always recorded as a success, with every binding of the installation
   * in it once, whatever was enrolled while the adapter was being asked.
   */
  lemma HealthIsRecorded(labels: seq<Label>, n: nat, key: RequestKey, listing: seq<Metadata>, receiptId: string)
    requires n <= |labels| && FinishPossible(At(labels, n), key, S.AdapterReady(listing))
    requires var t := At(labels, n).tables;
             receiptId !in t.receipts && key in t.requests && t.requests[key].response.None?
    ensures var s := At(labels, n);
            var (reply, t') := S.Finish(s.tables, s.inflight[key], S.AdapterReady(listing), receiptId);
            && reply.outcome == Succeeded && reply.receiptId == Some(receiptId) && receiptId in t'.receipts
            && reply.bindings == listing
            && reply.health == Some(HealthSnapshot(|L.InstallationBindings(s.tables, key.installationId)|,
                                                   s.inflight[key].installation.topologyDigest,
                                                   s.inflight[key].installation.topologyExpiresAt))
  {
    hide Run, Inv, Grows, WithinLimit, CompromiseMatches;
    BindingsStayWithinLimit(labels, n);
    RunKeepsReachable(labels, n, n);
    var s := At(labels, n);
    LimitHolds(s.tables, key.installationId);
    assert CallAwaited(s.tables, key, s.inflight[key]);
    S.ReadinessIsRecorded(s.tables, s.inflight[key], listing, receiptId);
  }

  lemma LimitHolds(t: L.Tables, id: string)
    requires WithinLimit(t)
    ensures |L.InstallationBindings(t, id)| <= BROKER_MAX_BINDINGS
  {
  }

  // ----- there is always such a selection

  /** Whatever a crash leaves behind, a restart has rows to select, in the order they were started. */
  lemma SelectionExists(t: L.Tables) returns (rows: seq<L.RequestRow>)
    requires Inv(t)
    ensures L.SelectsClaimed(t, rows)
  {
    hide Inv;
    var keys := set k | k in t.requests && t.requests[k].state == L.Claimed;
    var order;
    order, rows := Finite.RowsInOrder(t.requests, keys, map k | k in t.requests :: t.requests[k].startedAt);
    forall i | 0 <= i < |rows| ensures rows[i].key == order[i] {
      FiledUnderKey(t, order[i]);
    }
  }

  lemma FiledUnderKey(t: L.Tables, k: RequestKey)
    requires Inv(t) && k in t.requests
    ensures t.requests[k].key == k
  {
    hide ReceiptsWellFormed, UniqueRequests, BindingsWellFormed, VerifiedIsProved, ValidResponse;
    RowIsWellFormed(t, k);
  }
}
