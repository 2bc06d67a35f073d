/**
 * `ProtectedConnectorAuthorityService` of `broker/src/connector-authority-service.ts`. `execute`
 * is split where it awaits the executor: `Execute` runs up to the await and `Resume` from
 * there, and the tables may be changed by anyone in between.
 */
module AuthorityService {
  import opened Prelude
  import opened ConnectorProtocol
  import opened ConnectorLedger
  import opened ConnectorInvariant
  import opened BrokerDatabase
  import opened A = ConnectorAuthority
  import B = BrokerStore
  import S = ConnectorStore
  import Registry

  class ProtectedConnectorAuthorityService {
    const foundationStore: B.BrokerStore
    const connectorStore: S.BrokerProtectedConnectorStore
    const db: Database

    ghost predicate Valid() {
      foundationStore.db == db && connectorStore.db == db
    }

    constructor (foundationStore: B.BrokerStore, connectorStore: S.BrokerProtectedConnectorStore)
      requires foundationStore.db == connectorStore.db
      ensures Valid() && this.foundationStore == foundationStore && this.connectorStore == connectorStore
    {
      this.foundationStore := foundationStore;
      this.connectorStore := connectorStore;
      this.db := foundationStore.db;
    }

    /** Construction: recovery first, then service. When recovery throws there is no service. */
    static method Open(foundationStore: B.BrokerStore, connectorStore: S.BrokerProtectedConnectorStore,
                       rows: seq<RequestRow>, receiptIds: seq<string>, now: nat)
      returns (service: Result<ProtectedConnectorAuthorityService, StoreError>)
      requires foundationStore.db == connectorStore.db && |rows| == |receiptIds|
      modifies connectorStore.db`connectorRequests, connectorStore.db`connectorReceipts,
          connectorStore.db`connectorBindings
      ensures match ReconcileRows(old(connectorStore.db.Connector()), rows, receiptIds, now)
              case Ok(t) =>
                service.Ok? && fresh(service.value) && service.value.Valid() && service.value.db == connectorStore.db
                            && connectorStore.db.Connector() == t
              case Err(e) => service == Err(e)
    {
      hide ReconcileRows;
      var reconciled := connectorStore.ReconcileInterruptedRequests(rows, receiptIds, now);
      if reconciled.Err? {
        return Err(reconciled.error);
      }
      var service' := new ProtectedConnectorAuthorityService(foundationStore, connectorStore);
      return Ok(service');
    }

    // ----- before the await

    method Execute(certificate: string, request: Request, env: Env) returns (begun: Begun)
      requires Valid()
      modifies db`connectorRequests, db`connectorReceipts, db`connectorBindings
      ensures (begun, db.Connector()) == A.Begin(db.Registered(), old(db.Connector()), certificate, request, env)
    {
      hide ValidRequest, A.InitialDenial, A.Authorize, A.Deny, ConnectorLedger.ClaimRequest;
      if !ValidRequest(request) {
        return Replied(Unreceipted(request, RequestRejected, env.now));
      }
      var denial := InitialDenial(certificate, request, env.now);
      if denial.Some? {
        return Replied(denial.value);
      }
      var claim := connectorStore.ClaimRequest(request, certificate, env.now);
      match claim {
        case Replay(response) => return Replied(response);
        case InFlight => return Replied(Unreceipted(request, ResultAmbiguous, env.now));
        case DigestMismatch => return Replied(Unreceipted(request, RequestRejected, env.now));
        case Fresh =>
      }
      var authorization := AuthorizeClaimedRequest(certificate, request, env);
      match authorization {
        case Granted(call) => return Dispatched(call);
        case Unaudited => return Replied(Unreceipted(request, ReceiptPersistenceFailed, env.now));
        case Denied(digest, c) =>
          var response := Deny(request, digest, c, AUTHORITY_VERSION, env.now, env);
          return Replied(response);
      }
    }

    method InitialDenial(certificate: string, request: Request, now: nat) returns (denial: Option<Response>)
      requires Valid()
      ensures denial == A.InitialDenial(db.Registered(), db.Connector(), certificate, request, now)
    {
      var installation := foundationStore.GetInstallationByCertificate(certificate);
      if installation.None? {
        return Some(Unreceipted(request, BrokerAuthFailed, now));
      }
      if installation.value.installationId != request.key.installationId {
        return Some(Unreceipted(request, RequestRejected, now));
      }
      var current := PolicyStillCurrent(request);
      return if current then None else Some(Unreceipted(request, RequestRejected, now));
    }

    method PolicyStillCurrent(request: Request) returns (current: bool)
      requires Valid()
      ensures current == PolicyCurrent(db.Connector(), request)
    {
      var key := PolicyKey(request.key.installationId, request.authority.projectId);
      if key !in db.connectorPolicies {
        return false;
      }
      var policy := db.connectorPolicies[key];
      return policy.policyDigest == request.authority.policyDigest
             && request.authority.operation in policy.enabledOperations;
    }

    /** The durable authority port: enabled installation, live topology receipt, enabled operation. */
    method TopologyReady(request: Request, clock: nat) returns (ready: bool)
      requires Valid()
      ensures ready == A.TopologyReady(db.Registered(), db.Connector(), request, clock)
    {
      var id := request.key.installationId;
      if id !in db.installations || db.installations[id].state != Registry.Enabled {
        return false;
      }
      var expiresAt := db.installations[id].topologyExpiresAt;
      if expiresAt <= clock || expiresAt - clock > BROKER_MAX_TOPOLOGY_RECEIPT_AGE_MS {
        return false;
      }
      var key := PolicyKey(id, request.authority.projectId);
      return key in db.connectorPolicies && request.authority.operation in db.connectorPolicies[key].enabledOperations;
    }

    method FenceStillCurrent(request: Request, clock: nat) returns (current: bool)
      requires Valid()
      ensures current == A.FenceCurrent(db.Registered(), request, clock)
    {
      current := foundationStore.IsExecutorFenceCurrent(
        Registry.FenceKey(request.key.installationId, request.authority.taskId, request.authority.projectId),
        request.authority.fenceOwner, request.authority.fenceGeneration, clock);
    }

    method AuthorizeClaimedRequest(certificate: string, request: Request, env: Env)
      returns (authorization: Authorization)
      requires Valid()
      ensures authorization == A.Authorize(db.Registered(), db.Connector(), certificate, request, env)
      ensures Inv(db.Connector()) && ValidRequest(request)
              && A.InitialDenial(db.Registered(), db.Connector(), certificate, request, env.now).None? ==>
                (authorization.Granted? <==> MayDispatch(db.Registered(), db.Connector(), certificate, request, env))
    {
      hide A.TopologyReady, A.FenceCurrent, A.AuthorizeBinding, Inv, A.InitialDenial, A.MayDispatch, ValidRequest;
      if Inv(db.Connector()) && ValidRequest(request)
         && A.InitialDenial(db.Registered(), db.Connector(), certificate, request, env.now).None? {
        GrantIsExact(db.Registered(), db.Connector(), certificate, request, env);
      }
      if TemporalFailure(request, env.now) {
        return Denied(None, RequestRejected);
      }
      var ready := TopologyReady(request, env.clock);
      if !ready {
        return Denied(None, UnsafeTopology);
      }
      if !env.auditWritable {
        return Unaudited;
      }
      var current := FenceStillCurrent(request, env.clock);
      if !current {
        return Denied(None, RequestRejected);
      }
      authorization := AuthorizeBinding(certificate, request, env.now);
    }

    method AuthorizeBinding(certificate: string, request: Request, now: nat) returns (authorization: Authorization)
      requires Valid()
      ensures authorization == A.AuthorizeBinding(db.Connector(), certificate, request, now)
    {
      hide ConnectorLedger.ResolveTarget, ConnectorLedger.ResolveCredential;
      var key := BindingOf(request.key, request.authority);
      if key !in db.connectorBindings {
        return Denied(None, BindingMissing);
      }
      var row := db.connectorBindings[key];
      if row.projection.generation != request.authority.bindingGeneration {
        return Denied(Some(row.targetDigest), BindingGenerationStale);
      }
      if row.projection.operation != request.authority.operation
         || CapabilityFor(request.authority.operation) !in row.projection.capabilityIds {
        return Denied(Some(row.targetDigest), DestinationDenied);
      }
      if !BindingCanRun(row.projection, now) {
        return Denied(Some(row.targetDigest), BindingInactive);
      }
      var target := connectorStore.ResolveTarget(row.projection);
      if target.None? {
        return Denied(Some(row.targetDigest), ReconciliationRequired);
      }
      if TargetOperation(target.value) != request.authority.operation {
        return Denied(Some(row.targetDigest), DestinationDenied);
      }
      var credential := connectorStore.ResolveCredentialReference(row.projection);
      if credential.None? {
        return Denied(Some(row.targetDigest), ReconciliationRequired);
      }
      return Granted(Call(certificate, request, target.value, row.targetDigest, credential.value));
    }

    // ----- after the await

    method Resume(call: Call, execution: Execution, env: Env) returns (response: Response)
      requires Valid()
      modifies db`connectorRequests, db`connectorReceipts, db`connectorBindings
      ensures (response, db.Connector()) == A.Finish(db.Registered(), old(db.Connector()), call, execution, env)
    {
      hide A.AuthorityHolds, A.Deny, A.PersistSuccess, A.CompleteFailure;
      var request := call.request;
      var current := CompletionAuthorityCurrent(call, env);
      if !current {
        response := Deny(request, Some(call.targetDigest), ReconciliationRequired, AUTHORITY_VERSION, env.now, env);
        return;
      }
      if !env.auditWritable {
        return Unreceipted(request, ReceiptPersistenceFailed, env.now);
      }
      match execution {
        case InspectionFailed(c, retryable, retryAfterMs, version) =>
          response := CompleteFailure(request, Some(call.targetDigest), c, retryable, retryAfterMs, version, env.now,
                                      env);
        case Inspected(identity, version) =>
          if !IdentityMatchesTarget(call.target, identity) {
            response := Deny(request, Some(call.targetDigest), DestinationDenied, version, env.now, env);
          } else {
            response := PersistSuccess(request, Some(call.targetDigest), identity, VersionFor(identity, version), env);
          }
      }
    }

    method CompletionAuthorityCurrent(call: Call, env: Env) returns (current: bool)
      requires Valid()
      ensures current
              == AuthorityHolds(db.Registered(), db.Connector(), call.certificate, call.request, call.targetDigest,
                                env.now, env.clock)
    {
      hide A.PolicyCurrent, A.TopologyReady, A.FenceCurrent, A.BindingCurrent;
      var installation := foundationStore.GetInstallationByCertificate(call.certificate);
      var policy := PolicyStillCurrent(call.request);
      var topology := TopologyReady(call.request, env.clock);
      var fence := FenceStillCurrent(call.request, env.clock);
      var binding := BindingStillCurrent(call, env.now);
      return !TemporalFailure(call.request, env.now)
             && installation.Some? && installation.value.installationId == call.request.key.installationId
             && policy && topology && fence && binding;
    }

    method BindingStillCurrent(call: Call, now: nat) returns (current: bool)
      requires Valid()
      ensures current == BindingCurrent(db.Connector(), call.request, call.targetDigest, now)
    {
      var key := BindingOf(call.request.key, call.request.authority);
      if key !in db.connectorBindings {
        return false;
      }
      var row := db.connectorBindings[key];
      return row.projection.generation == call.request.authority.bindingGeneration
             && row.projection.operation == call.request.authority.operation
             && call.request.authority.capabilityId in row.projection.capabilityIds
             && row.targetDigest == call.targetDigest
             && BindingCanRun(row.projection, now);
    }

    method PersistSuccess(request: Request, digest: Option<TargetDigest>, identity: Identity, version: string, env: Env)
      returns (response: Response)
      requires Valid()
      modifies db`connectorRequests, db`connectorReceipts, db`connectorBindings
      ensures (response, db.Connector())
              == A.PersistSuccess(old(db.Connector()), request, digest, identity, version, env)
    {
      hide ValidResponse, A.Deny, ConnectorLedger.CompleteRequest;
      var success := Response(request.key.installationId, request.requestId, request.authority.operation,
                              Succeeded(identity), Some(env.receiptId), env.now);
      if !ValidResponse(success) {
        response := Deny(request, digest, ResultAmbiguous, AUTHORITY_VERSION, env.now, env);
        return;
      }
      var completed := connectorStore.CompleteRequest(request, success, digest, version, env.now);
      if completed.Err? {
        return Unreceipted(request, ReceiptPersistenceFailed, env.now);
      }
      return completed.value;
    }

    /** A failure the service decides on itself carries the default retry advice. */
    method Deny(request: Request, digest: Option<TargetDigest>, c: FailureClass, version: string, completedAt: nat,
                env: Env)
      returns (response: Response)
      requires Valid()
      modifies db`connectorRequests, db`connectorReceipts, db`connectorBindings
      ensures (response, db.Connector()) == A.Deny(old(db.Connector()), request, digest, c, version, completedAt, env)
    {
      hide A.CompleteFailure;
      var retryable := Retryable(c);
      var retryAfterMs: Option<int> := if retryable then Some(30_000) else None;
      response := CompleteFailure(request, digest, c, retryable, retryAfterMs, version, completedAt, env);
    }

    method CompleteFailure(request: Request, digest: Option<TargetDigest>, c: FailureClass, retryable: bool,
                           retryAfterMs: Option<int>, version: string, completedAt: nat, env: Env)
      returns (response: Response)
      requires Valid()
      modifies db`connectorRequests, db`connectorReceipts, db`connectorBindings
      ensures (response, db.Connector())
              == A.CompleteFailure(old(db.Connector()), request, digest, c, retryable, retryAfterMs, version,
                                   completedAt, env)
    {
      hide ValidResponse, ConnectorLedger.CompleteRequest;
      var failure := Response(request.key.installationId, request.requestId, request.authority.operation,
                              Failed(c, retryable, retryAfterMs), Some(env.receiptId), completedAt);
      if !ValidResponse(failure) {
        return Unreceipted(request, ResultAmbiguous, completedAt);
      }
      if !env.auditWritable {
        return Unreceipted(request, ReceiptPersistenceFailed, completedAt);
      }
      var completed := connectorStore.CompleteRequest(request, failure, digest, version, completedAt);
      if completed.Err? {
        return Unreceipted(request, ReceiptPersistenceFailed, completedAt);
      }
      return completed.value;
    }
  }
}
