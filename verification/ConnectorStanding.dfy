/**
 * What the two halves of the connector's protocol must decide, read off the columns of the tables and the fields of the
 * request, and the proof that they decide it.
 */
module ConnectorStanding {
  import opened Prelude
  import opened ConnectorProtocol
  import opened ConnectorInvariant
  import L = ConnectorLedger
  import A = ConnectorAuthority
  import Registry

  // ----- what an execution rests on

  /** The topology receipt is live, and for no more than thirty days. */
  predicate TopologyStands(r: Registry.Registry, id: string, clock: nat) {
    && id in r.installations
    && clock < r.installations[id].topologyExpiresAt <= clock + 30 * 86_400_000
  }

  predicate PolicyStands(t: L.Tables, request: Request) {
    var key := L.PolicyKey(request.key.installationId, request.authority.projectId);
    && key in t.policies
    && t.policies[key].policyDigest == request.authority.policyDigest
    && request.authority.operation in t.policies[key].enabledOperations
  }

  predicate FenceStands(r: Registry.Registry, request: Request, clock: nat) {
    var a := request.authority;
    var key := Registry.FenceKey(request.key.installationId, a.taskId, a.projectId);
    && key in r.fences
    && r.fences[key].owner == a.fenceOwner && r.fences[key].generation == a.fenceGeneration
    && clock < r.fences[key].expiresAt
  }

  /** Not expired; active, or else pending for a browser operation and verified for the other two. */
  predicate Usable(p: Projection, now: nat) {
    && (p.expiresAt.Some? ==> now < p.expiresAt.value)
    && (p.state == Active || p.state == if p.operation == BrowserInspect then Pending else VaultVerified)
  }

  predicate BindingStands(t: L.Tables, request: Request, target: Target, now: nat) {
    var key := L.BindingKey(request.key.installationId, request.authority.bindingId);
    && key in t.bindings
    && t.bindings[key].projection.generation == request.authority.bindingGeneration
    && t.bindings[key].projection.operation == request.authority.operation
    && request.authority.capabilityId in t.bindings[key].projection.capabilityIds
    && t.bindings[key].target.secret == target
    && Usable(t.bindings[key].projection, now)
  }

  /** No later than the deadline, and no more than a minute before the request was issued. */
  predicate Timely(request: Request, now: nat) {
    request.issuedAt <= now + 60_000 && now <= request.deadlineAt
  }

  ghost predicate Stands(r: Registry.Registry, t: L.Tables, certificate: string, request: Request, target: Target,
                         now: nat, clock: nat)
  {
    && Timely(request, now)
    && Registry.Holds(r, certificate, request.key.installationId)
    && TopologyStands(r, request.key.installationId, clock)
    && PolicyStands(t, request)
    && FenceStands(r, request, clock)
    && BindingStands(t, request, target, now)
  }

  lemma InstallationExactly(r: Registry.Registry, certificate: string, id: string)
    requires Registry.WellFormed(r)
    ensures A.InstallationCurrent(r, certificate, id) <==> Registry.Holds(r, certificate, id)
  {
    hide Registry.ByCertificate;
    Registry.LookupIsExact(r, certificate, id);
  }

  lemma StoredTarget(t: L.Tables, k: L.BindingKey)
    requires Inv(t) && k in t.bindings
    ensures t.bindings[k].targetDigest == TargetDigest(t.bindings[k].target.secret)
    ensures TargetOperation(t.bindings[k].target.secret) == t.bindings[k].projection.operation
    ensures t.bindings[k].projection.capabilityIds == [CapabilityFor(t.bindings[k].projection.operation)]
    ensures L.ResolveTarget(t, t.bindings[k].projection) == Some(t.bindings[k].target.secret)
    ensures L.ResolveCredential(t, t.bindings[k].projection)
            == Some(if t.bindings[k].credential.None? then None else Some(t.bindings[k].credential.value.secret))
  {
    hide RowsWellFormed, ReceiptsWellFormed, UniqueRequests, ActiveIsProved;
    assert BindingWellFormed(k, t.bindings[k]);
  }

  /** The authority the protocol re-checks is this standing, no more and no less. */
  lemma AuthorityExactly(r: Registry.Registry, t: L.Tables, certificate: string, request: Request, target: Target,
                         now: nat, clock: nat)
    requires Registry.WellFormed(r) && Inv(t)
    ensures A.AuthorityHolds(r, t, certificate, request, TargetDigest(target), now, clock)
       <==> Stands(r, t, certificate, request, target, now, clock)
  {
    hide Inv, Registry.FirstCarries, A.InstallationCurrent;
    InstallationExactly(r, certificate, request.key.installationId);
    var key := L.BindingKey(request.key.installationId, request.authority.bindingId);
    if key in t.bindings {
      StoredTarget(t, key);
    }
  }

  // ----- what is written

  /** The one transaction that answers a request: its row, its receipt, and at most its binding. */
  ghost predicate Written(t: L.Tables, t': L.Tables, key: RequestKey, reply: Response,
                          targetDigest: Option<TargetDigest>, version: string, now: nat)
  {
    && key in t.requests && reply.receiptId.Some?
    && var row := t.requests[key];
    && var id := reply.receiptId.value;
    && var ambiguous := reply.verdict.Failed? && reply.verdict.failureClass == ResultAmbiguous;
    && id !in t.receipts
    && t'.requests == t.requests[key := row.(state := if ambiguous then L.Ambiguous else L.Completed,
                                             response := Some(reply), receiptId := Some(id), completedAt := Some(now))]
    && t'.receipts == t.receipts[id := L.Receipt(id, key, row.requestId, row.authority, row.requestDigest,
                                                 row.certificate, targetDigest, reply.verdict, ResponseDigest(reply),
                                                 version, row.startedAt, now)]
    && t'.policies == t.policies
  }

  function Failure(request: Request, c: FailureClass, retryable: bool, after: Option<int>, receiptId: Option<string>,
                   now: nat): Response
  {
    Response(request.key.installationId, request.requestId, request.authority.operation, Failed(c, retryable, after),
             receiptId, now)
  }

  /** The row a claim inserts. */
  function Claim(request: Request, certificate: string, now: nat): L.RequestRow {
    L.RequestRow(request.key, request.requestId, request.nonce, RequestDigest(request), request.authority, certificate,
                 request.issuedAt, request.deadlineAt, L.Claimed, None, None, now, None)
  }

  lemma SettlingWrites(t: L.Tables, t': L.Tables, request: Request, reply: Response, targetDigest: Option<TargetDigest>,
                       version: string, now: nat)
    requires Inv(t) && Settles(t, t', request, reply, targetDigest, version, now) && t'.policies == t.policies
    ensures Written(t, t', request.key, reply, targetDigest, version, now)
  {
    hide BindingsWellFormed, ActiveIsProved, UniqueRequests, ReceiptsWellFormed, ValidResponse;
    RowIsWellFormed(t, request.key);
  }

  // ----- the first half

  predicate WellMade(request: Request) {
    var a := request.authority;
    && a.bindingGeneration >= 1 && a.fenceGeneration >= 1
    && a.capabilityId == (match a.operation
                          case ConvexInspect => ConvexCapability
                          case VercelInspect => VercelCapability
                          case BrowserInspect => BrowserCapability)
    && |a.policyDigest| == 64 && (forall c :: c in a.policyDigest ==> '0' <= c <= '9' || 'a' <= c <= 'f')
    && request.issuedAt < request.deadlineAt <= request.issuedAt + 30_000
  }

  /** No row of the installation has its key, its request id or its nonce, and the binding it names has one. */
  predicate Unclaimed(t: L.Tables, request: Request) {
    && (forall k :: k in t.requests && k.installationId == request.key.installationId ==>
          k != request.key && t.requests[k].requestId != request.requestId && t.requests[k].nonce != request.nonce)
    && L.BindingKey(request.key.installationId, request.authority.bindingId) in t.bindings
  }

  datatype Fate =
    | Unrecorded(failureClass: FailureClass)
    | Answered(response: Response)
    | LeftClaimed
    | Recorded(targetDigest: Option<TargetDigest>, failureClass: FailureClass)
    | Handed

  /** What becomes of a request before anybody is asked, by its cause. */
  ghost function FateOf(r: Registry.Registry, t: L.Tables, certificate: string, request: Request, env: A.Env): Fate {
    var id := request.key.installationId;
    if !WellMade(request) then Unrecorded(RequestRejected)
    else if forall other :: !Registry.Holds(r, certificate, other) then Unrecorded(BrokerAuthFailed)
    else if !Registry.Holds(r, certificate, id) || !PolicyStands(t, request) then Unrecorded(RequestRejected)
    else if request.key in t.requests then
      if L.RequestFromRow(t.requests[request.key]) != request then Unrecorded(RequestRejected)
      else if t.requests[request.key].response.None? then Unrecorded(ResultAmbiguous)
      else Answered(t.requests[request.key].response.value)
    else if !Unclaimed(t, request) then Unrecorded(RequestRejected)
    else if !Timely(request, env.now) then Recorded(None, RequestRejected)
    else if !TopologyStands(r, id, env.clock) then Recorded(None, UnsafeTopology)
    else if !env.auditWritable then LeftClaimed
    else if !FenceStands(r, request, env.clock) then Recorded(None, RequestRejected)
    else
      var binding := t.bindings[L.BindingKey(id, request.authority.bindingId)];
      var digest := Some(TargetDigest(binding.target.secret));
      if binding.projection.generation != request.authority.bindingGeneration
        then Recorded(digest, BindingGenerationStale)
      else if binding.projection.operation != request.authority.operation then Recorded(digest, DestinationDenied)
      else if !Usable(binding.projection, env.now) then Recorded(digest, BindingInactive)
      else Handed
  }

  /** The reply or the call, and the tables, that this fate calls for. */
  ghost predicate Meets(t: L.Tables, t': L.Tables, certificate: string, request: Request, env: A.Env, fate: Fate,
                        begun: A.Begun)
  {
    var t1 := t.(requests := t.requests[request.key := Claim(request, certificate, env.now)]);
    match fate
    case Unrecorded(c) => begun == A.Replied(Failure(request, c, false, None, None, env.now)) && t' == t
    case Answered(response) => begun == A.Replied(response) && t' == t
    case LeftClaimed =>
      begun == A.Replied(Failure(request, ReceiptPersistenceFailed, false, None, None, env.now)) && t' == t1
    case Recorded(digest, c) =>
      if env.auditWritable && env.receiptId !in t.receipts then
        var reply := Failure(request, c, false, None, Some(env.receiptId), env.now);
        begun == A.Replied(reply) && Written(t1, t', request.key, reply, digest, "authority-1", env.now)
        && t'.bindings == t.bindings
      else begun == A.Replied(Failure(request, ReceiptPersistenceFailed, false, None, None, env.now)) && t' == t1
    case Handed =>
      var key := L.BindingKey(request.key.installationId, request.authority.bindingId);
      && key in t.bindings && t' == t1
      && begun == A.Dispatched(A.Call(certificate, request, t.bindings[key].target.secret,
                                      TargetDigest(t.bindings[key].target.secret),
                                      if t.bindings[key].credential.None? then None
                                      else Some(t.bindings[key].credential.value.secret)))
  }

  lemma WellMadeExactly(request: Request)
    ensures ValidRequest(request) <==> WellMade(request)
  {
    var digest := request.authority.policyDigest;
    if forall i :: 0 <= i < |digest| ==> '0' <= digest[i] <= '9' || 'a' <= digest[i] <= 'f' {
      forall c | c in digest ensures '0' <= c <= '9' || 'a' <= c <= 'f' {
        var i :| 0 <= i < |digest| && digest[i] == c;
      }
    }
    assert forall i :: 0 <= i < |digest| ==> digest[i] in digest;
  }

  lemma {:induction false} InitiallyExactly(r: Registry.Registry, t: L.Tables, certificate: string, request: Request,
                                            now: nat)
    requires Registry.WellFormed(r)
    ensures A.InitialDenial(r, t, certificate, request, now)
            == if forall other :: !Registry.Holds(r, certificate, other)
               then Some(Failure(request, BrokerAuthFailed, false, None, None, now))
               else if !Registry.Holds(r, certificate, request.key.installationId) || !PolicyStands(t, request)
               then Some(Failure(request, RequestRejected, false, None, None, now))
               else None
  {
    hide Registry.Holds, Registry.ByCertificate;
    InstallationExactly(r, certificate, request.key.installationId);
    var found := Registry.ByCertificate(r, certificate);
    if found.Some? {
      InstallationExactly(r, certificate, found.value.installationId);
    }
    forall other ensures A.InstallationCurrent(r, certificate, other) <==> Registry.Holds(r, certificate, other) {
      InstallationExactly(r, certificate, other);
    }
  }

  lemma ClaimExactly(t: L.Tables, request: Request, certificate: string, now: nat)
    requires Inv(t)
    ensures var (claim, t') := L.ClaimRequest(t, request, certificate, now);
            if request.key in t.requests then
              && t' == t
              && claim == if L.RequestFromRow(t.requests[request.key]) != request then L.DigestMismatch
                          else if t.requests[request.key].response.None? then L.InFlight
                          else L.Replay(t.requests[request.key].response.value)
            else if WellMade(request) && Unclaimed(t, request) then
              claim == L.Fresh && t' == t.(requests := t.requests[request.key := Claim(request, certificate, now)])
            else WellMade(request) ==> claim == L.DigestMismatch && t' == t
  {
    hide BindingsWellFormed, ActiveIsProved, UniqueRequests, ReceiptsWellFormed;
    if request.key in t.requests {
      RowIsWellFormed(t, request.key);
    }
  }

  /** Each decision of the authorization, by its cause. */
  lemma {:induction false} AuthorizedByCause(r: Registry.Registry, t: L.Tables, certificate: string, request: Request,
                                             env: A.Env)
    requires Registry.WellFormed(r) && Inv(t) && WellMade(request)
    requires Registry.Holds(r, certificate, request.key.installationId) && PolicyStands(t, request)
    requires L.BindingKey(request.key.installationId, request.authority.bindingId) in t.bindings
    ensures var binding := t.bindings[L.BindingKey(request.key.installationId, request.authority.bindingId)];
            var digest := TargetDigest(binding.target.secret);
            A.Authorize(r, t, certificate, request, env)
            == if !Timely(request, env.now) then A.Denied(None, RequestRejected)
               else if !TopologyStands(r, request.key.installationId, env.clock) then A.Denied(None, UnsafeTopology)
               else if !env.auditWritable then A.Unaudited
               else if !FenceStands(r, request, env.clock) then A.Denied(None, RequestRejected)
               else if binding.projection.generation != request.authority.bindingGeneration
               then A.Denied(Some(digest), BindingGenerationStale)
               else if binding.projection.operation != request.authority.operation
                 then A.Denied(Some(digest), DestinationDenied)
               else if !Usable(binding.projection, env.now) then A.Denied(Some(digest), BindingInactive)
               else A.Granted(A.Call(certificate, request, binding.target.secret, digest,
                                     if binding.credential.None? then None else Some(binding.credential.value.secret)))
  {
    hide Inv, Registry.WellFormed, Registry.FirstCarries, WellMade;
    var key := L.BindingKey(request.key.installationId, request.authority.bindingId);
    StoredTarget(t, key);
    hide L.ResolveTarget, L.ResolveCredential;
  }

  lemma {:induction false} DenialWrites(t: L.Tables, request: Request, digest: Option<TargetDigest>, c: FailureClass,
                                        env: A.Env)
    requires Inv(t) && A.Awaited(t, request)
    requires c in {RequestRejected, UnsafeTopology, BindingGenerationStale, DestinationDenied, BindingInactive}
    ensures var (reply, t') := A.Deny(t, request, digest, c, A.AUTHORITY_VERSION, env.now, env);
            if env.auditWritable && env.receiptId !in t.receipts
            then reply == Failure(request, c, false, None, Some(env.receiptId), env.now)
                 && Written(t, t', request.key, reply, digest, "authority-1", env.now) && t'.bindings == t.bindings
            else reply == Failure(request, ReceiptPersistenceFailed, false, None, None, env.now) && t' == t
  {
    hide Inv, A.Deny, A.Awaited, Settles, Written, A.FailsSafely;
    A.DenialEffect(t, request, digest, c, A.AUTHORITY_VERSION, env.now, env);
    var (reply, t') := A.Deny(t, request, digest, c, A.AUTHORITY_VERSION, env.now, env);
    if env.auditWritable && env.receiptId !in t.receipts {
      assert IsVersion(A.AUTHORITY_VERSION);
      SettlingWrites(t, t', request, reply, digest, A.AUTHORITY_VERSION, env.now);
    }
  }

  /** The first half meets the fate of every request, in every well-formed state. */
  lemma {:induction false} BeginMeetsFate(r: Registry.Registry, t: L.Tables, certificate: string, request: Request,
                                          env: A.Env)
    requires Registry.WellFormed(r) && Inv(t)
    ensures var (begun, t') := A.Begin(r, t, certificate, request, env);
            Meets(t, t', certificate, request, env, FateOf(r, t, certificate, request, env), begun)
  {
    hide Inv, Unclaimed, Timely, TopologyStands, FenceStands, PolicyStands, Usable, WellMade, Registry.Holds,
         Written;
    hide A.Authorize, A.Deny, ValidRequest, A.InitialDenial, Settles, Meets, L.ClaimRequest;
    WellMadeExactly(request);
    InitiallyExactly(r, t, certificate, request, env.now);
    if WellMade(request) && A.InitialDenial(r, t, certificate, request, env.now).None? {
      if request.key !in t.requests && Unclaimed(t, request) {
        NewRequestMeetsFate(r, t, certificate, request, env);
      } else {
        OldRequestMeetsFate(r, t, certificate, request, env);
      }
    } else {
      UnclaimedRequestMeets(t, certificate, request, env);
    }
  }

  lemma UnclaimedRequestMeets(t: L.Tables, certificate: string, request: Request, env: A.Env)
    ensures forall c :: Meets(t, t, certificate, request, env, Unrecorded(c),
                              A.Replied(Failure(request, c, false, None, None, env.now)))
    ensures forall response :: Meets(t, t, certificate, request, env, Answered(response), A.Replied(response))
  {
  }

  lemma {:induction false} OldRequestMeetsFate(r: Registry.Registry, t: L.Tables, certificate: string, request: Request,
                                               env: A.Env)
    requires Registry.WellFormed(r) && Inv(t) && WellMade(request) && ValidRequest(request)
    requires Registry.Holds(r, certificate, request.key.installationId) && PolicyStands(t, request)
    requires A.InitialDenial(r, t, certificate, request, env.now).None?
    requires !(request.key !in t.requests && Unclaimed(t, request))
    ensures var (begun, t') := A.Begin(r, t, certificate, request, env);
            Meets(t, t', certificate, request, env, FateOf(r, t, certificate, request, env), begun)
  {
    hide Inv, Unclaimed, Timely, TopologyStands, FenceStands, PolicyStands, Usable, WellMade, Registry.Holds,
         Written;
    hide A.Authorize, A.Deny, ValidRequest, A.InitialDenial, Meets, L.ClaimRequest;
    ClaimExactly(t, request, certificate, env.now);
    UnclaimedRequestMeets(t, certificate, request, env);
  }

  lemma {:induction false} NewRequestMeetsFate(r: Registry.Registry, t: L.Tables, certificate: string, request: Request,
                                               env: A.Env)
    requires Registry.WellFormed(r) && Inv(t) && WellMade(request) && ValidRequest(request)
    requires Registry.Holds(r, certificate, request.key.installationId) && PolicyStands(t, request)
    requires A.InitialDenial(r, t, certificate, request, env.now).None?
    requires request.key !in t.requests && Unclaimed(t, request)
    ensures var (begun, t') := A.Begin(r, t, certificate, request, env);
            Meets(t, t', certificate, request, env, FateOf(r, t, certificate, request, env), begun)
  {
    hide Inv, Timely, TopologyStands, FenceStands, Usable, WellMade, Registry.Holds, Written;
    hide A.Authorize, A.Deny, ValidRequest, A.InitialDenial, L.ClaimRequest;
    var t1 := t.(requests := t.requests[request.key := Claim(request, certificate, env.now)]);
    ClaimExactly(t, request, certificate, env.now);
    ClaimKeepsInv(t, request, certificate, env.now);
    hide Unclaimed;
    AuthorizedByCause(r, t1, certificate, request, env);
    hide PolicyStands;
    var decided := A.Authorize(r, t1, certificate, request, env);
    if decided.Denied? {
      DenialWrites(t1, request, decided.targetDigest, decided.failureClass, env);
    }
  }

  // ----- the second half

  /** The identity is of this very target: the project, and the team it is in. */
  predicate OfTarget(target: Target, identity: Identity) {
    match target
    case ConvexTarget(team, slug) =>
      identity.ConvexIdentity? && identity.projectSlug == slug && team in {identity.teamId, identity.teamSlug}
    case VercelTarget(team, project) =>
      || (identity.VercelIdentity? && identity.teamId == team
          && project in {identity.vercelProjectId, identity.projectName})
      || (identity.ConvexIdentity? && identity.teamId == team && project == identity.convexProjectId)
    case BrowserTarget(_, profile, team, project) =>
      identity.BrowserIdentity? && identity.profileId == profile && identity.teamSlug == team
      && identity.projectName == project
  }

  /** A version as the protocol writes it: up to 32 letters, digits, points, underscores, pluses and hyphens. */
  predicate Versioned(s: string) {
    && 0 < |s| <= 32
    && (forall c :: c in s ==> LetterOrDigit(c) || c == '.' || c == '_' || c == '+' || c == '-')
    && LetterOrDigit(s[0])
  }

  predicate LetterOrDigit(c: char) {
    var n := c as int;
    48 <= n <= 57 || 65 <= n <= 90 || 97 <= n <= 122
  }

  /**
   * A failure the protocol can put under a receipt: retried exactly for three classes, after one second to five
   * minutes.
   */
  predicate Receiptable(c: FailureClass, retryable: bool, after: Option<int>) {
    && c != ReceiptPersistenceFailed
    && if c in {BrokerUnavailable, ProviderRateLimited, ProviderUnavailable}
       then retryable && after.Some? && 1_000 <= after.value <= 300_000
       else !retryable && after.None?
  }

  datatype End =
    | Succeeds(version: string)
    | Fails(version: string, failureClass: FailureClass, retryable: bool, after: Option<int>)
    | Misfits
    | Refused

  /** What becomes of a call that comes back, by its cause. */
  ghost function EndOf(r: Registry.Registry, t: L.Tables, call: A.Call, execution: A.Execution, env: A.Env): End {
    if !Stands(r, t, call.certificate, call.request, call.target, env.now, env.clock)
    then Fails("authority-1", ReconciliationRequired, false, None)
    else if !env.auditWritable then Refused
    else match execution
      case InspectionFailed(c, retryable, after, version) =>
        if Receiptable(c, retryable, after) then Fails(version, c, retryable, after) else Misfits
      case Inspected(identity, version) =>
        if !OfTarget(call.target, identity) then Fails(version, DestinationDenied, false, None)
        else if identity.BrowserIdentity? then
          if identity.observedAt > env.now
            then Fails("authority-1", ResultAmbiguous, false, None) else Succeeds(version)
        else if (identity.ConvexIdentity? && call.target.VercelTarget?) || identity.observedAt > env.now
                || !Versioned(identity.connectorVersion)
        then Fails("authority-1", ResultAmbiguous, false, None)
        else Succeeds(identity.connectorVersion)
  }

  /** The reply and the tables that this end calls for, when a receipt can be written and when not. */
  ghost predicate Ends(t: L.Tables, t': L.Tables, call: A.Call, execution: A.Execution, env: A.Env, end: End,
                       reply: Response)
  {
    var request := call.request;
    var unwritten :=
      Failure(request, if end.Misfits? then ResultAmbiguous else ReceiptPersistenceFailed, false, None, None, env.now);
    if end.Misfits? || end.Refused? || !env.auditWritable || env.receiptId in t.receipts || !Versioned(end.version)
    then reply == unwritten && t' == t
    else match end
      case Fails(version, c, retryable, after) =>
        && reply == Failure(request, c, retryable, after, Some(env.receiptId), env.now)
        && Written(t, t', request.key, reply, Some(call.targetDigest), version, env.now)
        && t'.bindings == t.bindings
      case Succeeds(version) =>
        && execution.Inspected?
        && reply == Response(request.key.installationId, request.requestId, request.authority.operation,
                             Succeeded(execution.identity), Some(env.receiptId), env.now)
        && Written(t, t', request.key, reply, Some(call.targetDigest), version, env.now)
        && Activates(t, t', L.BindingKey(request.key.installationId, request.authority.bindingId), env.now)
  }

  /** One binding becomes active and verified at this time. */
  ghost predicate Activates(t: L.Tables, t': L.Tables, key: L.BindingKey, now: nat) {
    && key in t.bindings
    && var row := t.bindings[key];
    && t'.bindings == t.bindings[key := row.(state := Active, updatedAt := now,
                                             projection := row.projection.(state := Active, verifiedAt := Some(now)))]
  }

  lemma OfTargetExactly(target: Target, identity: Identity)
    ensures IdentityMatchesTarget(target, identity) <==> OfTarget(target, identity)
  {
  }

  lemma VersionedExactly(s: string)
    ensures IsVersion(s) <==> Versioned(s)
  {
    if IsVersion(s) {
      forall c | c in s ensures LetterOrDigit(c) || c == '.' || c == '_' || c == '+' || c == '-' {
        var i :| 0 <= i < |s| && s[i] == c;
      }
    }
    assert forall i :: 0 <= i < |s| ==> s[i] in s;
  }

  lemma ReceiptableExactly(c: FailureClass, retryable: bool, after: Option<int>)
    ensures A.FitsFailure(c, retryable, after) <==> Receiptable(c, retryable, after)
  {
  }

  lemma Vocabulary()
    ensures forall target, identity :: IdentityMatchesTarget(target, identity) <==> OfTarget(target, identity)
    ensures forall s :: IsVersion(s) <==> Versioned(s)
    ensures forall c, retryable, after :: A.FitsFailure(c, retryable, after) <==> Receiptable(c, retryable, after)
    ensures Versioned("authority-1")
  {
    forall target, identity ensures IdentityMatchesTarget(target, identity) <==> OfTarget(target, identity) {
      OfTargetExactly(target, identity);
    }
    forall s ensures IsVersion(s) <==> Versioned(s) {
      VersionedExactly(s);
    }
    assert Versioned("authority-1") by {
      assert IsVersion("authority-1");
    }
  }

  /** A failure that settles under a receipt, or leaves everything as it was. */
  ghost predicate FailsAs(t: L.Tables, t': L.Tables, call: A.Call, env: A.Env, version: string, c: FailureClass,
                          retryable: bool, after: Option<int>, reply: Response)
  {
    if env.auditWritable && env.receiptId !in t.receipts && Versioned(version) then
      && reply == Failure(call.request, c, retryable, after, Some(env.receiptId), env.now)
      && Written(t, t', call.request.key, reply, Some(call.targetDigest), version, env.now)
      && t'.bindings == t.bindings
    else reply == Failure(call.request, ReceiptPersistenceFailed, false, None, None, env.now) && t' == t
  }

  lemma {:induction false} FailureMeans(t: L.Tables, t': L.Tables, call: A.Call, env: A.Env, version: string,
                                        c: FailureClass, retryable: bool, after: Option<int>, reply: Response)
    requires Inv(t) && A.FitsFailure(c, retryable, after)
    requires A.FailureOutcome(t, t', call.request, Some(call.targetDigest), c, retryable, after, version, env.now, env,
                              reply)
    ensures FailsAs(t, t', call, env, version, c, retryable, after, reply)
  {
    hide Inv, Settles, Written, A.FitsFailure, IsVersion, Versioned;
    Vocabulary();
    if A.CanRecord(t, version, env) {
      SettlingWrites(t, t', call.request, reply, Some(call.targetDigest), version, env.now);
    }
  }

  lemma {:induction false} DenialMeans(t: L.Tables, t': L.Tables, call: A.Call, env: A.Env, version: string,
                                       c: FailureClass, reply: Response)
    requires Inv(t) && c in {ReconciliationRequired, DestinationDenied, ResultAmbiguous}
    requires A.DenialOutcome(t, t', call.request, Some(call.targetDigest), c, version, env.now, env, reply)
    ensures FailsAs(t, t', call, env, version, c, false, None, reply)
  {
    hide Inv, Settles, Written, A.SettledBy, FailsAs;
    FailureMeans(t, t', call, env, version, c, false, None, reply);
  }

  lemma ActivationExactly(t: L.Tables, request: Request, target: Target, now: nat, t': L.Tables)
    requires Inv(t) && A.Awaited(t, request) && BindingStands(t, request, target, now)
    requires t'.bindings == L.ProjectBindingActive(t.bindings, t.requests[request.key], now)
    ensures Activates(t, t', L.BindingKey(request.key.installationId, request.authority.bindingId), now)
  {
    hide RowsWellFormed, ReceiptsWellFormed, UniqueRequests, ActiveIsProved;
    var key := L.BindingKey(request.key.installationId, request.authority.bindingId);
    assert BindingWellFormed(key, t.bindings[key]);
  }

  /** The second half ends every call as its cause requires, in every well-formed state that waits for it. */
  lemma {:induction false} FinishMeetsEnd(r: Registry.Registry, t: L.Tables, call: A.Call, execution: A.Execution,
                                          env: A.Env)
    requires Registry.WellFormed(r) && Inv(t) && A.Awaited(t, call.request)
    requires call.targetDigest == TargetDigest(call.target)
    ensures var (reply, t') := A.Finish(r, t, call, execution, env);
            Ends(t, t', call, execution, env, EndOf(r, t, call, execution, env), reply)
  {
    hide Inv, Registry.WellFormed, A.Finish, A.Awaited, A.AuthorityHolds, Stands, Ends, EndOf;
    AuthorityExactly(r, t, call.certificate, call.request, call.target, env.now, env.clock);
    A.FinishEffect(r, t, call, execution, env);
    if A.FinishSucceeds(r, t, call, execution, env) {
      SuccessMeetsEnd(r, t, call, execution, env);
    } else {
      FailureMeetsEnd(r, t, call, execution, env);
    }
  }

  lemma {:induction false} SuccessMeetsEnd(r: Registry.Registry, t: L.Tables, call: A.Call, execution: A.Execution,
                                           env: A.Env)
    requires Inv(t) && A.Awaited(t, call.request) && A.FinishSucceeds(r, t, call, execution, env)
    requires Stands(r, t, call.certificate, call.request, call.target, env.now, env.clock)
    requires var (reply, t') := A.Finish(r, t, call, execution, env);
             A.SucceedsSafely(t, t', call.request, call.targetDigest, execution.identity,
                              VersionFor(execution.identity, execution.version), env, reply)
    ensures var (reply, t') := A.Finish(r, t, call, execution, env);
            Ends(t, t', call, execution, env, EndOf(r, t, call, execution, env), reply)
  {
    hide Inv, A.Finish, A.Awaited, A.AuthorityHolds, Settles, Written, Grows, L.ProjectBindingActive, Activates,
         IsVersion, Versioned, OfTarget, IdentityMatchesTarget, Registry.Holds, BindingStands, FenceStands,
         PolicyStands;
    var (reply, t') := A.Finish(r, t, call, execution, env);
    Vocabulary();
    SettlingWrites(t, t', call.request, reply, Some(call.targetDigest),
                   VersionFor(execution.identity, execution.version), env.now);
    ActivationExactly(t, call.request, call.target, env.now, t');
    TargetIsAsked(t, call.request, call.target, env.now);
    ProofOperation(call.target, execution.identity);
  }

  lemma TargetIsAsked(t: L.Tables, request: Request, target: Target, now: nat)
    requires Inv(t) && BindingStands(t, request, target, now)
    ensures TargetOperation(target) == request.authority.operation
  {
    hide Inv;
    StoredTarget(t, L.BindingKey(request.key.installationId, request.authority.bindingId));
  }

  lemma ProofOperation(target: Target, identity: Identity)
    requires OfTarget(target, identity)
    ensures IdentityOperation(identity) != TargetOperation(target) <==> identity.ConvexIdentity? && target.VercelTarget?
  {
  }

  lemma {:induction false} FailureMeetsEnd(r: Registry.Registry, t: L.Tables, call: A.Call, execution: A.Execution,
                                           env: A.Env)
    requires Inv(t) && A.Awaited(t, call.request) && !A.FinishSucceeds(r, t, call, execution, env)
    requires A.AuthorityHolds(r, t, call.certificate, call.request, call.targetDigest, env.now, env.clock)
        <==> Stands(r, t, call.certificate, call.request, call.target, env.now, env.clock)
    requires var (reply, t') := A.Finish(r, t, call, execution, env);
             A.FinishFails(r, t, t', call, execution, env, reply)
    ensures var (reply, t') := A.Finish(r, t, call, execution, env);
            Ends(t, t', call, execution, env, EndOf(r, t, call, execution, env), reply)
  {
    hide Inv, A.Finish, A.Awaited, A.AuthorityHolds, Stands, Written, A.SettledBy, A.FitsFailure, Receiptable,
         IsVersion, Versioned, OfTarget, IdentityMatchesTarget, A.DenialOutcome;
    var (reply, t') := A.Finish(r, t, call, execution, env);
    Vocabulary();
    if !Stands(r, t, call.certificate, call.request, call.target, env.now, env.clock) {
      DenialMeans(t, t', call, env, A.AUTHORITY_VERSION, ReconciliationRequired, reply);
    } else if env.auditWritable {
      match execution
      case InspectionFailed(c, retryable, after, version) =>
        if A.FitsFailure(c, retryable, after) {
          FailureMeans(t, t', call, env, version, c, retryable, after, reply);
        }
      case Inspected(identity, version) =>
        if !OfTarget(call.target, identity) {
          DenialMeans(t, t', call, env, version, DestinationDenied, reply);
        } else {
          StandingTarget(r, t, call, env);
          ProofOperation(call.target, identity);
          if A.DenialOutcome(t, t', call.request, Some(call.targetDigest), ResultAmbiguous, A.AUTHORITY_VERSION,
                             env.now, env, reply) {
            DenialMeans(t, t', call, env, A.AUTHORITY_VERSION, ResultAmbiguous, reply);
          }
        }
    }
  }

  lemma StandingTarget(r: Registry.Registry, t: L.Tables, call: A.Call, env: A.Env)
    requires Inv(t) && Stands(r, t, call.certificate, call.request, call.target, env.now, env.clock)
    ensures TargetOperation(call.target) == call.request.authority.operation
  {
    hide Inv, BindingStands;
    TargetIsAsked(t, call.request, call.target, env.now);
  }

  // ----- tables of any shape

  function OwnCapability(operation: Operation): Capability {
    if operation == ConvexInspect then ConvexCapability
    else if operation == VercelInspect then VercelCapability
    else BrowserCapability
  }

  /** What a binding decides, in tables of any shape: causes the ledger invariant excludes have their class as well. */
  function BindingDecides(t: L.Tables, certificate: string, request: Request, now: nat): A.Authorization {
    var a := request.authority;
    var key := L.BindingKey(request.key.installationId, a.bindingId);
    if key !in t.bindings then A.Denied(None, BindingMissing)
    else
      var row := t.bindings[key];
      var p := row.projection;
      if p.generation != a.bindingGeneration then A.Denied(Some(row.targetDigest), BindingGenerationStale)
      else if p.operation != a.operation || OwnCapability(a.operation) !in p.capabilityIds
        then A.Denied(Some(row.targetDigest), DestinationDenied)
      else if !Usable(p, now) then A.Denied(Some(row.targetDigest), BindingInactive)
      else match (L.ResolveTarget(t, p), L.ResolveCredential(t, p))
        case (None, _) => A.Denied(Some(row.targetDigest), ReconciliationRequired)
        case (Some(target), credential) =>
          if !OperatesOn(target, a.operation) then A.Denied(Some(row.targetDigest), DestinationDenied)
          else if credential.None? then A.Denied(Some(row.targetDigest), ReconciliationRequired)
          else A.Granted(A.Call(certificate, request, target, row.targetDigest, credential.value))
  }

  predicate OperatesOn(target: Target, operation: Operation) {
    match target
    case ConvexTarget(_, _) => operation == ConvexInspect
    case VercelTarget(_, _) => operation == VercelInspect
    case BrowserTarget(_, _, _, _) => operation == BrowserInspect
  }

  lemma DecidedByCause(r: Registry.Registry, t: L.Tables, certificate: string, request: Request, now: nat, clock: nat)
    ensures A.AuthorizeBinding(t, certificate, request, now) == BindingDecides(t, certificate, request, now)
    ensures A.TopologyReady(r, t, request, clock)
       <==> && TopologyStands(r, request.key.installationId, clock)
            && r.installations[request.key.installationId].state == Registry.Enabled
            && var key := L.PolicyKey(request.key.installationId, request.authority.projectId);
               key in t.policies && request.authority.operation in t.policies[key].enabledOperations
  {
    hide L.ResolveTarget, L.ResolveCredential;
  }

  /** A denial of a class that may be retried says so, after thirty seconds. */
  lemma DenialAdvice(t: L.Tables, request: Request, digest: Option<TargetDigest>, c: FailureClass, version: string,
                     now: nat, env: A.Env)
    ensures var again := c in {BrokerUnavailable, ProviderRateLimited, ProviderUnavailable};
            A.Deny(t, request, digest, c, version, now, env)
            == A.CompleteFailure(t, request, digest, c, again, if again then Some(30_000) else None, version, now, env)
  {
    hide A.CompleteFailure;
  }
}
