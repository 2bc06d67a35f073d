/**
 * The execute protocol of `broker/src/connector-authority-service.ts`, split at its one
 * await: `Begin` claims the request and authorizes it, `Finish` re-checks the authority and
 * settles. Anything may happen to the tables in between.
 */
module ConnectorAuthority {
  import opened Prelude
  import opened ConnectorProtocol
  import opened ConnectorLedger
  import opened ConnectorInvariant
  import Registry

  const BROKER_MAX_TOPOLOGY_RECEIPT_AGE_MS: nat := 2_592_000_000
  const DEFAULT_RETRY_AFTER_MS: nat := 30_000
  const AUTHORITY_VERSION := "authority-1"

  /**
   * What one synchronous stretch of code reads from outside the tables: the time handed to it,
   * the clock it consults, whether receipts can be written, and the identifier it draws.
   */
  datatype Env = Env(now: nat, clock: nat, auditWritable: bool, receiptId: string)

  // ----- standing authority

  predicate TopologyReady(r: Registry.Registry, t: Tables, request: Request, clock: nat) {
    && Registry.InstallationEnabled(r, request.key.installationId)
    && var expiresAt := r.installations[request.key.installationId].topologyExpiresAt;
    && clock < expiresAt <= clock + BROKER_MAX_TOPOLOGY_RECEIPT_AGE_MS
    && OperationEnabled(t, request)
  }

  predicate OperationEnabled(t: Tables, request: Request) {
    var key := PolicyKey(request.key.installationId, request.authority.projectId);
    key in t.policies && request.authority.operation in t.policies[key].enabledOperations
  }

  predicate PolicyCurrent(t: Tables, request: Request) {
    && OperationEnabled(t, request)
    && t.policies[PolicyKey(request.key.installationId, request.authority.projectId)].policyDigest
       == request.authority.policyDigest
  }

  predicate FenceCurrent(r: Registry.Registry, request: Request, clock: nat) {
    Registry.FenceCurrent(
      r, Registry.FenceKey(request.key.installationId, request.authority.taskId, request.authority.projectId),
      request.authority.fenceOwner, request.authority.fenceGeneration, clock)
  }

  predicate InstallationCurrent(r: Registry.Registry, certificate: string, installationId: string) {
    var found := Registry.ByCertificate(r, certificate);
    found.Some? && found.value.installationId == installationId
  }

  predicate BindingCurrent(t: Tables, request: Request, targetDigest: TargetDigest, now: nat) {
    var key := BindingOf(request.key, request.authority);
    && key in t.bindings
    && var row := t.bindings[key];
    && row.projection.generation == request.authority.bindingGeneration
    && row.projection.operation == request.authority.operation
    && request.authority.capabilityId in row.projection.capabilityIds
    && row.targetDigest == targetDigest
    && BindingCanRun(row.projection, now)
  }

  /**
   * Everything a succeeded receipt must be able to point to at one instant: an enabled installation behind the
   * certificate, the named policy, a live topology receipt, the named fence, the named binding at its generation
   * with this target, and a time inside the request's window.
   */
  predicate AuthorityHolds(r: Registry.Registry, t: Tables, certificate: string, request: Request,
                           targetDigest: TargetDigest, now: nat, clock: nat) {
    && !TemporalFailure(request, now)
    && InstallationCurrent(r, certificate, request.key.installationId)
    && PolicyCurrent(t, request)
    && TopologyReady(r, t, request, clock)
    && FenceCurrent(r, request, clock)
    && BindingCurrent(t, request, targetDigest, now)
  }

  // ----- completion of a failure

  function CompleteFailure(t: Tables, request: Request, targetDigest: Option<TargetDigest>, c: FailureClass,
                           retryable: bool, retryAfterMs: Option<int>, version: string, completedAt: nat, env: Env)
    : (Response, Tables)
  {
    var response := FailureResponse(request, c, retryable, retryAfterMs, Some(env.receiptId), completedAt);
    if !ValidResponse(response) then (Unreceipted(request, ResultAmbiguous, completedAt), t)
    else if !env.auditWritable then (Unreceipted(request, ReceiptPersistenceFailed, completedAt), t)
    else match CompleteRequest(t, request, response, targetDigest, version, completedAt)
      case Ok(pair) => pair
      case Err(_) => (Unreceipted(request, ReceiptPersistenceFailed, completedAt), t)
  }

  /** A failure the service itself decides on carries the default retry advice. */
  function Deny(t: Tables, request: Request, targetDigest: Option<TargetDigest>, c: FailureClass,
                version: string, completedAt: nat, env: Env): (Response, Tables) {
    CompleteFailure(t, request, targetDigest, c, Retryable(c),
                    if Retryable(c) then Some(DEFAULT_RETRY_AFTER_MS) else None, version, completedAt, env)
  }

  // ----- before the await

  datatype Call = Call(certificate: string, request: Request, target: Target, targetDigest: TargetDigest,
                       credential: Option<string>)

  datatype Begun = Replied(response: Response) | Dispatched(call: Call)

  function InitialDenial(r: Registry.Registry, t: Tables, certificate: string, request: Request, now: nat)
    : Option<Response>
  {
    var found := Registry.ByCertificate(r, certificate);
    if found.None? then Some(Unreceipted(request, BrokerAuthFailed, now))
    else if found.value.installationId != request.key.installationId
      then Some(Unreceipted(request, RequestRejected, now))
    else if !PolicyCurrent(t, request) then Some(Unreceipted(request, RequestRejected, now))
    else None
  }

  datatype Authorization =
    | Granted(call: Call)
    | Unaudited
    | Denied(targetDigest: Option<TargetDigest>, failureClass: FailureClass)

  function Authorize(r: Registry.Registry, t: Tables, certificate: string, request: Request, env: Env): Authorization {
    if TemporalFailure(request, env.now) then Denied(None, RequestRejected)
    else if !TopologyReady(r, t, request, env.clock) then Denied(None, UnsafeTopology)
    else if !env.auditWritable then Unaudited
    else if !FenceCurrent(r, request, env.clock) then Denied(None, RequestRejected)
    else AuthorizeBinding(t, certificate, request, env.now)
  }

  function AuthorizeBinding(t: Tables, certificate: string, request: Request, now: nat): Authorization {
    var key := BindingOf(request.key, request.authority);
    if key !in t.bindings then Denied(None, BindingMissing)
    else
      var row := t.bindings[key];
      if row.projection.generation != request.authority.bindingGeneration
        then Denied(Some(row.targetDigest), BindingGenerationStale)
      else if row.projection.operation != request.authority.operation
              || CapabilityFor(request.authority.operation) !in row.projection.capabilityIds
        then Denied(Some(row.targetDigest), DestinationDenied)
      else if !BindingCanRun(row.projection, now) then Denied(Some(row.targetDigest), BindingInactive)
      else
        var target := ResolveTarget(t, row.projection);
        var credential := ResolveCredential(t, row.projection);
        if target.None? then Denied(Some(row.targetDigest), ReconciliationRequired)
        else if TargetOperation(target.value) != request.authority.operation
          then Denied(Some(row.targetDigest), DestinationDenied)
        else if credential.None? then Denied(Some(row.targetDigest), ReconciliationRequired)
        else Granted(Call(certificate, request, target.value, row.targetDigest, credential.value))
  }

  function Begin(r: Registry.Registry, t: Tables, certificate: string, request: Request, env: Env): (Begun, Tables) {
    if !ValidRequest(request) then (Replied(Unreceipted(request, RequestRejected, env.now)), t)
    else
      var denial := InitialDenial(r, t, certificate, request, env.now);
      if denial.Some? then (Replied(denial.value), t)
      else
        var (claim, t1) := ClaimRequest(t, request, certificate, env.now);
        match claim
        case Replay(response) => (Replied(response), t1)
        case InFlight => (Replied(Unreceipted(request, ResultAmbiguous, env.now)), t1)
        case DigestMismatch => (Replied(Unreceipted(request, RequestRejected, env.now)), t1)
        case Fresh =>
          match Authorize(r, t1, certificate, request, env)
          case Granted(call) => (Dispatched(call), t1)
          case Unaudited => (Replied(Unreceipted(request, ReceiptPersistenceFailed, env.now)), t1)
          case Denied(digest, c) =>
            var (response, t2) := Deny(t1, request, digest, c, AUTHORITY_VERSION, env.now, env);
            (Replied(response), t2)
  }

  // ----- after the await

  datatype Execution =
    | Inspected(identity: Identity, version: string)
    | InspectionFailed(failureClass: FailureClass, retryable: bool, retryAfterMs: Option<int>, version: string)

  function Finish(r: Registry.Registry, t: Tables, call: Call, execution: Execution, env: Env): (Response, Tables) {
    var request := call.request;
    var digest := Some(call.targetDigest);
    if !AuthorityHolds(r, t, call.certificate, request, call.targetDigest, env.now, env.clock)
      then Deny(t, request, digest, ReconciliationRequired, AUTHORITY_VERSION, env.now, env)
    else if !env.auditWritable then (Unreceipted(request, ReceiptPersistenceFailed, env.now), t)
    else match execution
      case InspectionFailed(c, retryable, after, version) =>
        CompleteFailure(t, request, digest, c, retryable, after, version, env.now, env)
      case Inspected(identity, version) =>
        if !IdentityMatchesTarget(call.target, identity)
          then Deny(t, request, digest, DestinationDenied, version, env.now, env)
        else PersistSuccess(t, request, digest, identity, VersionFor(identity, version), env)
  }

  function PersistSuccess(t: Tables, request: Request, digest: Option<TargetDigest>, identity: Identity,
                          version: string, env: Env)
    : (Response, Tables)
  {
    var response := Response(request.key.installationId, request.requestId, request.authority.operation,
                             Succeeded(identity), Some(env.receiptId), env.now);
    if !ValidResponse(response) then Deny(t, request, digest, ResultAmbiguous, AUTHORITY_VERSION, env.now, env)
    else match CompleteRequest(t, request, response, digest, version, env.now)
      case Ok(pair) => pair
      case Err(_) => (Unreceipted(request, ReceiptPersistenceFailed, env.now), t)
  }

  // ----- what each half does to the tables

  /** A reply that names a receipt is the response on file for its request. */
  ghost predicate ReplyOnFile(t: Tables, request: Request, reply: Response) {
    reply.receiptId.Some? ==> request.key in t.requests && t.requests[request.key].response == Some(reply)
  }

  /** The rows that were there before are still there, untouched. */
  ghost predicate RowsKept(t: Tables, t': Tables) {
    forall k :: k in t.requests ==> k in t'.requests && t'.requests[k] == t.requests[k]
  }

  ghost predicate RowsKeptExcept(t: Tables, t': Tables, key: RequestKey) {
    && t'.requests.Keys == t.requests.Keys
    && forall k :: k in t.requests && k != key ==> t'.requests[k] == t.requests[k]
  }

  ghost predicate NoNewSuccess(t: Tables, t': Tables) {
    forall id :: id in t'.receipts && id !in t.receipts ==> t'.receipts[id].verdict.Failed?
  }

  /** A call whose row is still waiting for it. */
  ghost predicate Awaited(t: Tables, request: Request) {
    && request.key in t.requests
    && t.requests[request.key].state == Claimed
    && RequestFromRow(t.requests[request.key]) == request
  }

  /** At most the one awaited row is settled, with a failure, and the reply says what is on file. */
  ghost predicate FailsSafely(t: Tables, t': Tables, request: Request, reply: Response) {
    && Inv(t') && Grows(t, t') && RowsKeptExcept(t, t', request.key) && NoNewSuccess(t, t')
    && reply.verdict.Failed? && ReplyOnFile(t', request, reply)
  }

  lemma FailsSafelyUnchanged(t: Tables, request: Request, reply: Response)
    requires Inv(t) && reply.verdict.Failed? && reply.receiptId.None?
    ensures FailsSafely(t, t, request, reply)
  {
    hide Inv, Grows;
    GrowsReflexive(t);
  }

  lemma SettlementFrame(t: Tables, t': Tables, request: Request, reply: Response, targetDigest: Option<TargetDigest>,
                        version: string, now: nat)
    requires Settles(t, t', request, reply, targetDigest, version, now)
    ensures RowsKeptExcept(t, t', request.key) && ReplyOnFile(t', request, reply)
    ensures reply.verdict.Failed? ==> NoNewSuccess(t, t')
  {
  }

  // ----- failures, exactly

  /** Retry advice that fits the failure class, for a failure that can be put under a receipt. */
  predicate FitsFailure(c: FailureClass, retryable: bool, retryAfterMs: Option<int>) {
    && c != ReceiptPersistenceFailed
    && retryable == Retryable(c)
    && if retryable then retryAfterMs.Some? && MIN_RETRY_AFTER_MS <= retryAfterMs.value <= MAX_RETRY_AFTER_MS
       else retryAfterMs.None?
  }

  /** The world lets a receipt be written: audit, a version that can be stored, and an identifier that is new. */
  predicate CanRecord(t: Tables, version: string, env: Env) {
    env.auditWritable && IsVersion(version) && env.receiptId !in t.receipts
  }

  /** The awaited row is settled by exactly this reply, and no policy or binding moves. */
  ghost predicate SettledBy(t: Tables, t': Tables, request: Request, reply: Response,
                            targetDigest: Option<TargetDigest>, version: string, completedAt: nat)
  {
    && Settles(t, t', request, reply, targetDigest, version, completedAt)
    && t'.bindings == t.bindings && t'.policies == t.policies
  }

  /** A failure that fits is settled whenever it can be recorded; otherwise nothing changes, and the reply says why. */
  ghost predicate FailureOutcome(t: Tables, t': Tables, request: Request, targetDigest: Option<TargetDigest>,
                                 c: FailureClass, retryable: bool, retryAfterMs: Option<int>, version: string,
                                 completedAt: nat, env: Env, reply: Response)
  {
    if FitsFailure(c, retryable, retryAfterMs) && CanRecord(t, version, env) then
      && reply == FailureResponse(request, c, retryable, retryAfterMs, Some(env.receiptId), completedAt)
      && SettledBy(t, t', request, reply, targetDigest, version, completedAt)
    else
      && t' == t
      && reply == Unreceipted(request,
                              if FitsFailure(c, retryable, retryAfterMs)
                                then ReceiptPersistenceFailed else ResultAmbiguous, completedAt)
  }

  function DefaultAdvice(c: FailureClass): Option<int> {
    if Retryable(c) then Some(DEFAULT_RETRY_AFTER_MS) else None
  }

  /** A denial always fits, so it is settled exactly when it can be recorded. */
  ghost predicate DenialOutcome(t: Tables, t': Tables, request: Request, targetDigest: Option<TargetDigest>,
                                c: FailureClass, version: string, completedAt: nat, env: Env, reply: Response)
  {
    if CanRecord(t, version, env) then
      && reply == FailureResponse(request, c, Retryable(c), DefaultAdvice(c), Some(env.receiptId), completedAt)
      && SettledBy(t, t', request, reply, targetDigest, version, completedAt)
    else
      t' == t && reply == Unreceipted(request, ReceiptPersistenceFailed, completedAt)
  }

  lemma FitsMeansValid(request: Request, c: FailureClass, retryable: bool, retryAfterMs: Option<int>,
                       receiptId: string, completedAt: nat)
    ensures ValidResponse(FailureResponse(request, c, retryable, retryAfterMs, Some(receiptId), completedAt))
       <==> FitsFailure(c, retryable, retryAfterMs)
  {
  }

  lemma {:induction false} FailureEffect(t: Tables, request: Request, targetDigest: Option<TargetDigest>,
                                         c: FailureClass, retryable: bool, retryAfterMs: Option<int>, version: string,
                                         completedAt: nat, env: Env)
    requires Inv(t) && Awaited(t, request)
    ensures var (reply, t') := CompleteFailure(t, request, targetDigest, c, retryable, retryAfterMs, version,
                                               completedAt, env);
            && FailsSafely(t, t', request, reply)
            && FailureOutcome(t, t', request, targetDigest, c, retryable, retryAfterMs, version, completedAt, env,
                              reply)
  {
    hide Inv, FailsSafely, CompleteRequest, ValidResponse, FitsFailure, Settles, Grows, IsVersion;
    var (reply, t') := CompleteFailure(t, request, targetDigest, c, retryable, retryAfterMs, version, completedAt, env);
    var response := FailureResponse(request, c, retryable, retryAfterMs, Some(env.receiptId), completedAt);
    FitsMeansValid(request, c, retryable, retryAfterMs, env.receiptId, completedAt);
    CompletionKeepsInv(t, request, response, targetDigest, version, completedAt);
    FailureCompletes(t, request, response, targetDigest, version, completedAt);
    if ValidResponse(response) && CanRecord(t, version, env) {
      SettlementFrame(t, t', request, reply, targetDigest, version, completedAt);
      SettledSafely(t, t', request, reply);
    } else {
      FailsSafelyUnchanged(t, request, reply);
    }
  }

  /**
   * Completing an awaited row with a failure goes through exactly when response, version and receipt id are acceptable.
   */
  lemma FailureCompletes(t: Tables, request: Request, response: Response, targetDigest: Option<TargetDigest>,
                         version: string, now: nat)
    requires Inv(t) && Awaited(t, request)
    requires response.verdict.Failed? && response.receiptId.Some?
             && response.installationId == request.key.installationId
    requires response.requestId == request.requestId && response.operation == request.authority.operation
    ensures var result := CompleteRequest(t, request, response, targetDigest, version, now);
            && (result.Ok?
                <==> ValidResponse(response) && IsVersion(version) && response.receiptId.value !in t.receipts)
            && t.requests[request.key].response.None?
            && (result.Ok? ==> result.value.1.bindings == t.bindings && result.value.1.policies == t.policies)
  {
    hide Inv, ValidResponse, IsVersion;
    AwaitedIsUnanswered(t, request);
  }

  lemma SettledSafely(t: Tables, t': Tables, request: Request, reply: Response)
    requires Inv(t') && Grows(t, t') && RowsKeptExcept(t, t', request.key) && NoNewSuccess(t, t')
    requires reply.verdict.Failed? && ReplyOnFile(t', request, reply)
    ensures FailsSafely(t, t', request, reply)
  {
  }

  lemma AwaitedIsUnanswered(t: Tables, request: Request)
    requires Inv(t) && Awaited(t, request)
    ensures t.requests[request.key].response.None?
    ensures forall id :: id in t.receipts ==> t.receipts[id].key != request.key
    ensures t.requests[request.key].requestDigest == RequestDigest(request)
  {
    hide UniqueRequests, BindingsWellFormed, ActiveIsProved;
    RowIsWellFormed(t, request.key);
  }

  /** The authority a granted call rests on, at the instant it was granted. */
  lemma GrantRestsOnAuthority(r: Registry.Registry, t: Tables, certificate: string, request: Request, env: Env)
    requires Inv(t) && ValidRequest(request) && InitialDenial(r, t, certificate, request, env.now).None?
    requires Authorize(r, t, certificate, request, env).Granted?
    ensures var call := Authorize(r, t, certificate, request, env).call;
            && AuthorityHolds(r, t, certificate, request, call.targetDigest, env.now, env.clock)
            && env.auditWritable
            && call == Call(certificate, request, call.target, TargetDigest(call.target), call.credential)
            && TargetOperation(call.target) == request.authority.operation
            && (call.credential.Some? <==> request.authority.operation != BrowserInspect)
  {
    hide RowsWellFormed, ReceiptsWellFormed, UniqueRequests, ActiveIsProved;
    TargetAlwaysResolves(t, BindingOf(request.key, request.authority));
  }

  /** A call is granted exactly when its whole authority holds and the audit can be written. */
  lemma GrantIsExact(r: Registry.Registry, t: Tables, certificate: string, request: Request, env: Env)
    requires Inv(t) && ValidRequest(request) && InitialDenial(r, t, certificate, request, env.now).None?
    ensures Authorize(r, t, certificate, request, env).Granted? <==> MayDispatch(r, t, certificate, request, env)
    ensures Authorize(r, t, certificate, request, env).Unaudited? ==> !env.auditWritable
  {
    hide RowsWellFormed, ReceiptsWellFormed, UniqueRequests, ActiveIsProved;
    if BindingOf(request.key, request.authority) in t.bindings {
      TargetAlwaysResolves(t, BindingOf(request.key, request.authority));
    }
  }

  lemma DenialClass(r: Registry.Registry, t: Tables, certificate: string, request: Request, env: Env)
    ensures var a := Authorize(r, t, certificate, request, env);
            a.Denied? ==> a.failureClass != ReceiptPersistenceFailed
  {
    hide ResolveTarget, ResolveCredential, TopologyReady, FenceCurrent;
  }

  /** Begin dispatches only a request that was not on file, and only under full authority. */
  ghost predicate DispatchEffect(r: Registry.Registry, t: Tables, t': Tables, certificate: string, request: Request,
                                 env: Env, call: Call)
  {
    && request.key !in t.requests && !InsertRefused(t, request)
    && t' == t.(requests := t.requests[request.key := RowFor(request, certificate, env.now)])
    && AuthorityHolds(r, t, certificate, request, call.targetDigest, env.now, env.clock)
    && env.auditWritable
    && call == Call(certificate, request, call.target, TargetDigest(call.target), call.credential)
    && (call.credential.Some? <==> request.authority.operation != BrowserInspect)
  }

  /** A request that gets a row of its own. */
  predicate ClaimsFresh(r: Registry.Registry, t: Tables, certificate: string, request: Request, now: nat) {
    && ValidRequest(request) && InitialDenial(r, t, certificate, request, now).None?
    && request.key !in t.requests && !InsertRefused(t, request)
  }

  /** The whole standing authority for the target the named binding now has, and an audit that can be written. */
  predicate MayDispatch(r: Registry.Registry, t: Tables, certificate: string, request: Request, env: Env) {
    && BindingOf(request.key, request.authority) in t.bindings
    && AuthorityHolds(r, t, certificate, request, t.bindings[BindingOf(request.key, request.authority)].targetDigest,
                      env.now, env.clock)
    && env.auditWritable
  }

  /**
   * A new row that is not dispatched is settled by its denial at once, unless no receipt can be written: then it waits.
   */
  ghost predicate ClaimDenied(r: Registry.Registry, t: Tables, t': Tables, certificate: string, request: Request,
                              env: Env, reply: Response)
  {
    var t1 := t.(requests := t.requests[request.key := RowFor(request, certificate, env.now)]);
    match Authorize(r, t1, certificate, request, env)
    case Granted(_) => false
    case Unaudited => t' == t1 && !env.auditWritable && reply == Unreceipted(request, ReceiptPersistenceFailed, env.now)
    case Denied(digest, c) => DenialOutcome(t1, t', request, digest, c, AUTHORITY_VERSION, env.now, env, reply)
  }

  ghost predicate BeginOutcome(r: Registry.Registry, t: Tables, t': Tables, certificate: string, request: Request,
                               env: Env, begun: Begun)
  {
    && (begun.Dispatched?
        <==> ClaimsFresh(r, t, certificate, request, env.now) && MayDispatch(r, t, certificate, request, env))
    && match begun
       case Dispatched(call) => DispatchEffect(r, t, t', certificate, request, env, call)
       case Replied(reply) =>
         && ReplyOnFile(t', request, reply)
         && if ClaimsFresh(r, t, certificate, request, env.now)
            then ClaimDenied(r, t, t', certificate, request, env, reply)
            else t' == t
  }

  ghost predicate BeginsSafely(t: Tables, t': Tables, request: Request) {
    && Inv(t') && Grows(t, t') && RowsKept(t, t') && NoNewSuccess(t, t')
    && t'.requests.Keys <= t.requests.Keys + {request.key}
  }

  /**
   * The first half dispatches exactly the new requests whose whole authority holds; every other new request is settled
   * by its denial, and a request that gets no row changes nothing.
   */
  lemma {:induction false} BeginEffect(r: Registry.Registry, t: Tables, certificate: string, request: Request, env: Env)
    requires Inv(t)
    ensures var (begun, t') := Begin(r, t, certificate, request, env);
            BeginsSafely(t, t', request) && BeginOutcome(r, t, t', certificate, request, env, begun)
  {
    hide Inv, Grows, ValidRequest, Authorize, BeginsSafely, DispatchEffect, ClaimDenied, MayDispatch;
    UnchangedBeginsSafely(t, request);
    if ValidRequest(request) && InitialDenial(r, t, certificate, request, env.now).None? {
      ClaimKeepsInv(t, request, certificate, env.now);
      if ClaimRequest(t, request, certificate, env.now).0 == Fresh {
        FreshBeginEffect(r, t, certificate, request, env);
      } else {
        ReplayedReplyOnFile(t, request, certificate, env.now);
      }
    }
  }

  lemma UnchangedBeginsSafely(t: Tables, request: Request)
    requires Inv(t)
    ensures BeginsSafely(t, t, request)
  {
    hide Inv, Grows;
    GrowsReflexive(t);
  }

  lemma ReplayedReplyOnFile(t: Tables, request: Request, certificate: string, now: nat)
    ensures var (claim, t') := ClaimRequest(t, request, certificate, now);
            claim.Replay? ==> ReplyOnFile(t, request, claim.response)
  {
  }

  lemma {:induction false} FreshBeginEffect(r: Registry.Registry, t: Tables, certificate: string, request: Request,
                                            env: Env)
    requires Inv(t) && ValidRequest(request) && InitialDenial(r, t, certificate, request, env.now).None?
    requires ClaimRequest(t, request, certificate, env.now).0 == Fresh
    ensures var (begun, t') := Begin(r, t, certificate, request, env);
            BeginsSafely(t, t', request) && BeginOutcome(r, t, t', certificate, request, env, begun)
  {
    hide Inv, Grows, ValidRequest, Authorize, Deny, AuthorityHolds, FailsSafely, BeginsSafely, InitialDenial,
         DenialOutcome;
    var t1 := ClaimRequest(t, request, certificate, env.now).1;
    ClaimKeepsInv(t, request, certificate, env.now);
    SameStanding(r, t, t1, certificate, request, env);
    ClaimBeginsSafely(t, t1, request, certificate, env.now);
    GrantIsExact(r, t1, certificate, request, env);
    DenialClass(r, t1, certificate, request, env);
    match Authorize(r, t1, certificate, request, env)
    case Granted(call) => GrantRestsOnAuthority(r, t1, certificate, request, env);
    case Unaudited =>
    case Denied(digest, c) =>
      var (reply, t2) := Deny(t1, request, digest, c, AUTHORITY_VERSION, env.now, env);
      DenialEffect(t1, request, digest, c, AUTHORITY_VERSION, env.now, env);
      DeniedBeginFrame(t, t1, t2, request, reply);
  }

  lemma ClaimBeginsSafely(t: Tables, t1: Tables, request: Request, certificate: string, now: nat)
    requires Inv(t1) && Grows(t, t1) && t1.receipts == t.receipts && request.key !in t.requests
    requires t1.requests == t.requests[request.key := RowFor(request, certificate, now)]
    ensures BeginsSafely(t, t1, request) && Awaited(t1, request)
  {
    hide Inv, Grows;
    RowRoundTrip(request, certificate, now);
  }

  lemma {:induction false} DenialEffect(t: Tables, request: Request, targetDigest: Option<TargetDigest>,
                                        c: FailureClass, version: string, completedAt: nat, env: Env)
    requires Inv(t) && Awaited(t, request) && c != ReceiptPersistenceFailed
    ensures var (reply, t') := Deny(t, request, targetDigest, c, version, completedAt, env);
            && FailsSafely(t, t', request, reply)
            && DenialOutcome(t, t', request, targetDigest, c, version, completedAt, env, reply)
  {
    hide Inv, Awaited, CompleteFailure, FailsSafely, SettledBy, CanRecord;
    FailureEffect(t, request, targetDigest, c, Retryable(c), DefaultAdvice(c), version, completedAt, env);
  }

  lemma {:induction false} DeniedBeginFrame(t: Tables, t1: Tables, t2: Tables, request: Request, reply: Response)
    requires BeginsSafely(t, t1, request) && FailsSafely(t1, t2, request, reply)
    requires request.key !in t.requests && t1.receipts == t.receipts
    ensures BeginsSafely(t, t2, request) && ReplyOnFile(t2, request, reply)
  {
    hide Inv, Grows;
    GrowsTransitive(t, t1, t2);
  }

  /** Standing authority reads policies and bindings only, so a claim does not move it. */
  lemma SameStanding(r: Registry.Registry, t: Tables, t': Tables, certificate: string, request: Request, env: Env)
    requires t'.policies == t.policies && t'.bindings == t.bindings
    ensures InitialDenial(r, t', certificate, request, env.now) == InitialDenial(r, t, certificate, request, env.now)
    ensures forall digest :: AuthorityHolds(r, t', certificate, request, digest, env.now, env.clock)
                         <==> AuthorityHolds(r, t, certificate, request, digest, env.now, env.clock)
  {
  }

  // ----- completion, exactly

  /** When a finished call is a success: the authority held throughout, and the proof is the target's. */
  predicate FinishSucceeds(r: Registry.Registry, t: Tables, call: Call, execution: Execution, env: Env) {
    && AuthorityHolds(r, t, call.certificate, call.request, call.targetDigest, env.now, env.clock)
    && env.auditWritable
    && execution.Inspected?
    && IdentityMatchesTarget(call.target, execution.identity)
    && ProofAccepted(t, call.request, execution.identity, VersionFor(execution.identity, execution.version), env)
  }

  predicate ProofAccepted(t: Tables, request: Request, identity: Identity, version: string, env: Env) {
    && IdentityOperation(identity) == request.authority.operation
    && identity.observedAt <= env.now
    && IsVersion(version)
    && env.receiptId !in t.receipts
  }

  /** The awaited row is settled with the success this identity proves, and its binding is activated. */
  ghost predicate SucceedsSafely(t: Tables, t': Tables, request: Request, targetDigest: TargetDigest,
                                 identity: Identity, version: string, env: Env, reply: Response)
  {
    && Inv(t') && Grows(t, t') && RowsKeptExcept(t, t', request.key) && ReplyOnFile(t', request, reply)
    && reply == SuccessResponse(request, identity, env)
    && Settles(t, t', request, reply, Some(targetDigest), version, env.now)
    && t'.policies == t.policies
    && t'.bindings == ProjectBindingActive(t.bindings, t.requests[request.key], env.now)
  }

  function SuccessResponse(request: Request, identity: Identity, env: Env): Response {
    Response(request.key.installationId, request.requestId, request.authority.operation, Succeeded(identity),
             Some(env.receiptId), env.now)
  }

  /**
   * A proof that is not accepted: ambiguous when no such response can be encoded, unwritten when the tables refuse it.
   */
  ghost predicate ProofRefused(t: Tables, t': Tables, request: Request, targetDigest: TargetDigest, identity: Identity,
                               version: string, env: Env, reply: Response) {
    if IdentityOperation(identity) == request.authority.operation && identity.observedAt <= env.now
       && (!identity.BrowserIdentity? ==> IsVersion(identity.connectorVersion))
    then t' == t && !CanRecord(t, version, env) && reply == Unreceipted(request, ReceiptPersistenceFailed, env.now)
    else DenialOutcome(t, t', request, Some(targetDigest), ResultAmbiguous, AUTHORITY_VERSION, env.now, env, reply)
  }

  /** How a finished call that is no success ends: which failure, under which version, or nothing written. */
  ghost predicate FinishFails(r: Registry.Registry, t: Tables, t': Tables, call: Call, execution: Execution, env: Env,
                              reply: Response) {
    var request := call.request;
    var digest := Some(call.targetDigest);
    if !AuthorityHolds(r, t, call.certificate, request, call.targetDigest, env.now, env.clock)
      then DenialOutcome(t, t', request, digest, ReconciliationRequired, AUTHORITY_VERSION, env.now, env, reply)
    else if !env.auditWritable then t' == t && reply == Unreceipted(request, ReceiptPersistenceFailed, env.now)
    else match execution
      case InspectionFailed(c, retryable, after, version) =>
        FailureOutcome(t, t', request, digest, c, retryable, after, version, env.now, env, reply)
      case Inspected(identity, version) =>
        if !IdentityMatchesTarget(call.target, identity)
        then DenialOutcome(t, t', request, digest, DestinationDenied, version, env.now, env, reply)
        else ProofRefused(t, t', request, call.targetDigest, identity, VersionFor(identity, version), env, reply)
  }

  /**
   * Success exactly when the authority still holds and the proof is acceptable. Anything else is the failure its cause
   * calls for, settled whenever a receipt for it can be written; only then is the row left waiting.
   */
  lemma {:induction false} FinishEffect(r: Registry.Registry, t: Tables, call: Call, execution: Execution, env: Env)
    requires Inv(t) && Awaited(t, call.request)
    ensures var (reply, t') := Finish(r, t, call, execution, env);
            if FinishSucceeds(r, t, call, execution, env)
            then SucceedsSafely(t, t', call.request, call.targetDigest, execution.identity,
                                VersionFor(execution.identity, execution.version), env, reply)
            else FailsSafely(t, t', call.request, reply) && FinishFails(r, t, t', call, execution, env, reply)
  {
    hide Inv, Awaited, AuthorityHolds, CompleteFailure, PersistSuccess, FailsSafely, SucceedsSafely, Deny,
         ProofAccepted;
    hide DenialOutcome, FailureOutcome, ProofRefused;
    var digest := Some(call.targetDigest);
    DenialEffect(t, call.request, digest, ReconciliationRequired, AUTHORITY_VERSION, env.now, env);
    FailsSafelyUnchanged(t, call.request, Unreceipted(call.request, ReceiptPersistenceFailed, env.now));
    match execution
    case InspectionFailed(c, retryable, after, version) =>
      FailureEffect(t, call.request, digest, c, retryable, after, version, env.now, env);
    case Inspected(identity, version) =>
      DenialEffect(t, call.request, digest, DestinationDenied, version, env.now, env);
      if AuthorityHolds(r, t, call.certificate, call.request, call.targetDigest, env.now, env.clock) {
        AuthorityWithinDeadline(r, t, call, env);
        PersistEffect(t, call.request, call.targetDigest, identity, VersionFor(identity, version), env);
      }
  }

  lemma AuthorityWithinDeadline(r: Registry.Registry, t: Tables, call: Call, env: Env)
    requires AuthorityHolds(r, t, call.certificate, call.request, call.targetDigest, env.now, env.clock)
    ensures env.now <= call.request.deadlineAt
  {
  }

  lemma {:induction false} PersistEffect(t: Tables, request: Request, targetDigest: TargetDigest, identity: Identity,
                                         version: string, env: Env)
    requires Inv(t) && Awaited(t, request) && env.now <= request.deadlineAt
    requires version == VersionFor(identity, version)
    ensures var (reply, t') := PersistSuccess(t, request, Some(targetDigest), identity, version, env);
            if ProofAccepted(t, request, identity, version, env)
            then SucceedsSafely(t, t', request, targetDigest, identity, version, env, reply)
            else FailsSafely(t, t', request, reply)
                 && ProofRefused(t, t', request, targetDigest, identity, version, env, reply)
  {
    hide Inv, FailsSafely, SucceedsSafely, Deny, Settles, Grows, DenialOutcome;
    var response := SuccessResponse(request, identity, env);
    var (reply, t') := PersistSuccess(t, request, Some(targetDigest), identity, version, env);
    AwaitedIsUnanswered(t, request);
    DenialEffect(t, request, Some(targetDigest), ResultAmbiguous, AUTHORITY_VERSION, env.now, env);
    FailsSafelyUnchanged(t, request, Unreceipted(request, ReceiptPersistenceFailed, env.now));
    CompletionKeepsInv(t, request, response, Some(targetDigest), version, env.now);
    if ProofAccepted(t, request, identity, version, env) {
      SettlementFrame(t, t', request, reply, Some(targetDigest), version, env.now);
      SettledSuccessfully(t, t', request, targetDigest, identity, version, env, reply);
    }
  }

  lemma {:induction false} SettledSuccessfully(t: Tables, t': Tables, request: Request, targetDigest: TargetDigest,
                                               identity: Identity, version: string, env: Env, reply: Response)
    requires Inv(t') && Grows(t, t') && RowsKeptExcept(t, t', request.key) && ReplyOnFile(t', request, reply)
    requires reply == SuccessResponse(request, identity, env)
    requires Settles(t, t', request, reply, Some(targetDigest), version, env.now)
    requires t'.policies == t.policies
    requires t'.bindings == ProjectBindingActive(t.bindings, t.requests[request.key], env.now)
    ensures SucceedsSafely(t, t', request, targetDigest, identity, version, env, reply)
  {
  }
}
