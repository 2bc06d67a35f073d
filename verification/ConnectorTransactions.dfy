/**
 * The transactions of the connector store (`broker/src/connector-store.ts`), each by its cause and column by column:
 * what is turned away and why, what the rows look like afterwards, and that nothing else has moved.
 */
module ConnectorTransactions {
  import opened Prelude
  import opened Sealing
  import opened ConnectorProtocol
  import Registry
  import RegistryHistory
  import Finite
  import Standing = ConnectorStanding
  import I = ConnectorInvariant
  import R = ConnectorRecovery
  import L = ConnectorLedger

  ghost predicate SoundPolicy(digest: string, operations: seq<Operation>) {
    RegistryHistory.Digest(digest) && |operations| > 0 && forall o :: multiset(operations)[o] < 2
  }

  /** A capability that is the operation's own, and no proof of activity yet. */
  predicate SoundProjection(p: Projection) {
    && p.generation > 0 && |p.capabilityIds| == 1
    && (p.operation == ConvexInspect ==> p.capabilityIds[0] == ConvexCapability)
    && (p.operation == VercelInspect ==> p.capabilityIds[0] == VercelCapability)
    && (p.operation == BrowserInspect ==> p.capabilityIds[0] == BrowserCapability)
  }

  predicate OfOperation(target: Target, operation: Operation) {
    || (target.ConvexTarget? && operation == ConvexInspect)
    || (target.VercelTarget? && operation == VercelInspect)
    || (target.BrowserTarget? && operation == BrowserInspect)
  }

  /** A browser target goes without a credential, the others need one; an empty one is none. */
  predicate WellSupplied(target: Target, credential: Option<string>) {
    target.BrowserTarget? <==> credential == None || credential == Some("")
  }

  predicate InstallationStands(r: Registry.Registry, id: string) {
    id in r.installations && r.installations[id].state == Registry.Enabled
  }

  /** Neither requests nor receipts nor any policy or binding under another key has moved. */
  ghost predicate OnlyRows(t: L.Tables, t': L.Tables, policies: set<L.PolicyKey>, bindings: set<L.BindingKey>) {
    && t'.requests == t.requests && t'.receipts == t.receipts
    && (forall k :: k !in policies ==> (k in t'.policies <==> k in t.policies))
    && (forall k :: k !in policies && k in t.policies ==> t'.policies[k] == t.policies[k])
    && (forall k :: k !in bindings ==> (k in t'.bindings <==> k in t.bindings))
    && (forall k :: k !in bindings && k in t.bindings ==> t'.bindings[k] == t.bindings[k])
  }

  /** The row of a binding that has just been enrolled. */
  predicate Enrolled(row: L.BindingRow, p: Projection, target: Target, credential: Option<string>, now: nat) {
    && row.operation == p.operation && row.generation == p.generation && row.state == p.state && row.projection == p
    && row.updatedAt == now && row.targetDigest.of == target
    && row.target == Sealed(target, Aad(p.installationId, p.bindingId + ":target", p.generation))
    && row.credential.Some? == !target.BrowserTarget?
    && (!target.BrowserTarget? && credential.Some? ==>
          row.credential.value
          == Sealed(credential.value, Aad(p.installationId, p.bindingId + ":credential", p.generation)))
  }

  lemma {:induction false} SoundPolicyExactly(digest: string, operations: seq<Operation>)
    ensures L.ValidPolicy(digest, operations) <==> SoundPolicy(digest, operations)
  {
    hide Registry.IsHexDigest, RegistryHistory.Digest;
    RegistryHistory.DigestExactly(digest);
    Finite.DistinctExactly(operations);
  }

  lemma SoundProjectionExactly(p: Projection, target: Target)
    ensures ValidProjection(p) <==> SoundProjection(p) && (p.state != Active || p.verifiedAt.Some?)
    ensures p.operation == TargetOperation(target) <==> OfOperation(target, p.operation)
  {
    if SoundProjection(p) {
      assert p.capabilityIds == [p.capabilityIds[0]];
    }
  }

  // ----- a policy

  /** A policy is set exactly when it is sound and its installation stands, and then it is what was asked for. */
  lemma {:induction false} PolicySetByCause(r: Registry.Registry, t: L.Tables, key: L.PolicyKey, digest: string,
                                            operations: seq<Operation>)
    ensures match L.SetPolicy(r, t, key, digest, operations)
            case Ok(t') =>
              && SoundPolicy(digest, operations) && InstallationStands(r, key.installationId)
              && OnlyRows(t, t', {key}, {}) && key in t'.policies
              && t'.policies[key].policyDigest == digest && t'.policies[key].enabledOperations == operations
            case Err(e) =>
              if !SoundPolicy(digest, operations) then e == L.PolicyInvalid
              else !InstallationStands(r, key.installationId) && e == L.InstallationUnavailable
  {
    hide L.ValidPolicy, SoundPolicy;
    SoundPolicyExactly(digest, operations);
  }

  // ----- a binding

  /** What stands in the way of a new binding, the first thing first. */
  predicate Refused(r: Registry.Registry, t: L.Tables, p: Projection, target: Target, credential: Option<string>,
                    e: L.StoreError) {
    if !SoundProjection(p) || !OfOperation(target, p.operation) || !WellSupplied(target, credential)
      then e == L.BindingInvalid
    else if !InstallationStands(r, p.installationId) then e == L.InstallationUnavailable
    else L.BindingKey(p.installationId, p.bindingId) in t.bindings && e == L.ConstraintFailed
  }

  /** A binding is never enrolled as active; otherwise it is enrolled exactly when nothing stands in its way. */
  lemma {:induction false} EnrolledByCause(r: Registry.Registry, t: L.Tables, p: Projection, target: Target,
                                           credential: Option<string>, now: nat, e: L.StoreError)
    ensures L.EnrollBinding(r, t, p, target, credential, now) == Err(e)
       <==> if p.state == Active then e == L.BindingActiveRequiresReceipt
            else Refused(r, t, p, target, credential, e)
    ensures match L.EnrollBinding(r, t, p, target, credential, now)
            case Ok(t') =>
              && var key := L.BindingKey(p.installationId, p.bindingId);
              && OnlyRows(t, t', {}, {key}) && key !in t.bindings && key in t'.bindings
              && Enrolled(t'.bindings[key], p, target, credential, now)
            case Err(_) => true
  {
    if p.state != Active {
      SoundProjectionExactly(p, target);
    }
    hide ValidProjection, SoundProjection;
  }

  /** Policy and binding come together: the policy has to be sound and to enable the operation. */
  predicate PolicyRefused(r: Registry.Registry, t: L.Tables, sound: bool, operations: seq<Operation>, p: Projection,
                          target: Target, credential: Option<string>, e: L.StoreError) {
    if !sound then e == L.PolicyInvalid
    else if p.state == Active then e == L.BindingInvalid
    else if SoundProjection(p) && OfOperation(target, p.operation) && WellSupplied(target, credential)
            && InstallationStands(r, p.installationId) && p.operation !in operations then e == L.PolicyInvalid
    else Refused(r, t, p, target, credential, e)
  }

  lemma {:induction false} ProtectedRefusedByCause(
      r: Registry.Registry, t: L.Tables, projectId: string, digest: string, operations: seq<Operation>,
      p: Projection, target: Target, credential: Option<string>, now: nat, e: L.StoreError)
    ensures L.EnrollProtectedBinding(r, t, projectId, digest, operations, p, target, credential, now) == Err(e)
       <==> PolicyRefused(r, t, SoundPolicy(digest, operations), operations, p, target, credential, e)
  {
    hide L.ValidPolicy, SoundPolicy, L.NewBinding;
    SoundPolicyExactly(digest, operations);
    if p.state != Active {
      SoundProjectionExactly(p, target);
    }
    hide ValidProjection, SoundProjection;
  }

  /** Otherwise both rows are written, and no other. */
  lemma {:induction false} ProtectedIsWritten(
      r: Registry.Registry, t: L.Tables, projectId: string, digest: string, operations: seq<Operation>,
      p: Projection, target: Target, credential: Option<string>, now: nat)
    requires L.EnrollProtectedBinding(r, t, projectId, digest, operations, p, target, credential, now).Ok?
    ensures var t' := L.EnrollProtectedBinding(r, t, projectId, digest, operations, p, target, credential, now).value;
            && var key := L.BindingKey(p.installationId, p.bindingId);
            && var policyKey := L.PolicyKey(p.installationId, projectId);
            && OnlyRows(t, t', {policyKey}, {key}) && key !in t.bindings
            && policyKey in t'.policies && t'.policies[policyKey] == L.Policy(digest, operations)
            && key in t'.bindings && Enrolled(t'.bindings[key], p, target, credential, now)
  {
    hide L.ValidPolicy, ValidProjection;
  }

  // ----- what a binding seals

  /** The target is sealed for this binding at this very generation, under its own digest. */
  lemma TargetIsSealed(t: L.Tables, p: Projection, target: Target)
    ensures var key := L.BindingKey(p.installationId, p.bindingId);
            (L.ResolveTarget(t, p) == Some(target)
             <==> && key in t.bindings && t.bindings[key].generation == p.generation
                  && t.bindings[key].targetDigest.of == target
                  && t.bindings[key].target
                     == Sealed(target, Aad(p.installationId, p.bindingId + ":target", p.generation)))
  {
  }

  /** So is the credential, unless the binding has none. */
  lemma CredentialIsSealed(t: L.Tables, p: Projection, secret: Option<string>)
    ensures var key := L.BindingKey(p.installationId, p.bindingId);
            (L.ResolveCredential(t, p) == Some(secret)
             <==> && key in t.bindings && t.bindings[key].generation == p.generation
                  && match secret
                     case None => t.bindings[key].credential.None?
                     case Some(text) =>
                       t.bindings[key].credential
                       == Some(Sealed(text, Aad(p.installationId, p.bindingId + ":credential", p.generation))))
  {
  }

  // ----- claims

  /** What an insert may not repeat, and what it has to name. */
  predicate Insertable(t: L.Tables, request: Request) {
    && (forall k :: k in t.requests && k.installationId == request.key.installationId ==>
          t.requests[k].requestId != request.requestId && t.requests[k].nonce != request.nonce)
    && L.BindingKey(request.key.installationId, request.authority.bindingId) in t.bindings
    && request.authority.bindingGeneration > 0 && request.authority.fenceGeneration > 0
  }

  predicate ClaimCause(t: L.Tables, request: Request, claim: L.Claim) {
    if request.key in t.requests then
      if t.requests[request.key].requestDigest.of != request then claim.DigestMismatch?
      else if t.requests[request.key].response.None? then claim.InFlight?
      else claim.Replay? && t.requests[request.key].response.value == claim.response
    else if Insertable(t, request) then claim.Fresh?
    else claim.DigestMismatch?
  }

  /** The row waits, and repeats the request column by column. */
  predicate Waits(row: L.RequestRow, request: Request, certificate: string, now: nat) {
    && row.key == request.key && row.requestId == request.requestId && row.nonce == request.nonce
    && row.requestDigest.of == request && row.authority == request.authority && row.certificate == certificate
    && row.issuedAt == request.issuedAt && row.deadlineAt == request.deadlineAt && row.state == L.Claimed
    && row.response.None? && row.receiptId.None? && row.completedAt.None? && row.startedAt == now
  }

  lemma {:induction false} ClaimedByCause(t: L.Tables, request: Request, certificate: string, now: nat)
    ensures var (claim, t') := L.ClaimRequest(t, request, certificate, now);
            && ClaimCause(t, request, claim)
            && t'.policies == t.policies && t'.bindings == t.bindings && t'.receipts == t.receipts
            && t'.requests.Keys == t.requests.Keys + (if claim.Fresh? then {request.key} else {})
            && (forall k :: k in t.requests ==> t'.requests[k] == t.requests[k])
            && (claim.Fresh? ==> Waits(t'.requests[request.key], request, certificate, now))
  {
  }

  // ----- responses

  predicate IdentityOf(identity: Identity, operation: Operation) {
    || (identity.ConvexIdentity? && operation == ConvexInspect)
    || (identity.VercelIdentity? && operation == VercelInspect)
    || (identity.BrowserIdentity? && operation == BrowserInspect)
  }

  /**
   * A success names its receipt and an identity of its operation seen by then; a failure is retried in three classes.
   */
  predicate Lawful(r: Response) {
    match r.verdict
    case Succeeded(identity) =>
      && r.receiptId.Some? && IdentityOf(identity, r.operation) && identity.observedAt <= r.completedAt
      && (identity.BrowserIdentity? || Standing.Versioned(identity.connectorVersion))
    case Failed(c, retryable, after) =>
      && (if c in {BrokerUnavailable, ProviderRateLimited, ProviderUnavailable}
          then retryable && after.Some? && 1_000 <= after.value <= 300_000
          else !retryable && after.None?)
      && (r.receiptId.Some? ==> c != ReceiptPersistenceFailed)
  }

  lemma LawfulExactly(r: Response)
    ensures ValidResponse(r) <==> Lawful(r)
  {
    hide IsVersion, Standing.Versioned;
    if r.verdict.Succeeded? && !r.verdict.identity.BrowserIdentity? {
      Standing.VersionedExactly(r.verdict.identity.connectorVersion);
    }
  }

  // ----- completion

  /** The response answers this row, in time if it is a success. */
  predicate Answers(response: Response, row: L.RequestRow, targetDigest: Option<TargetDigest>) {
    && response.installationId == row.key.installationId && response.requestId == row.requestId
    && response.operation == row.authority.operation
    && (response.verdict.Succeeded? ==> targetDigest.Some? && response.completedAt <= row.deadlineAt)
  }

  predicate ReceiptTaken(t: L.Tables, key: RequestKey, receiptId: string) {
    receiptId in t.receipts || exists id :: id in t.receipts && t.receipts[id].key == key
  }

  /** What stands in the way of a completion, the first thing first. */
  predicate CompletionRefused(t: L.Tables, request: Request, response: Response, targetDigest: Option<TargetDigest>,
                              version: string, e: L.StoreError) {
    if !Lawful(response) || !Standing.Versioned(version) then e == L.ResponseInvalid
    else if request.key !in t.requests then e == L.ClaimMissing
    else
      var row := t.requests[request.key];
      if row.requestDigest.of != request then e == L.RequestDigestMismatch
      else if !Answers(response, row, targetDigest) then e == L.ResponseIdentityMismatch
      else
        && row.response.None?
        && if response.receiptId.None? then e == L.ReceiptMissing
           else ReceiptTaken(t, request.key, response.receiptId.value) && e == L.ConstraintFailed
  }

  /** A completion is turned away for its cause only; a row that is answered repeats its answer. */
  lemma {:induction false} CompletedByCause(t: L.Tables, request: Request, response: Response,
                                            targetDigest: Option<TargetDigest>, version: string, now: nat)
    requires request.key in t.requests ==> t.requests[request.key].key == request.key
    ensures match L.CompleteRequest(t, request, response, targetDigest, version, now)
            case Err(e) => CompletionRefused(t, request, response, targetDigest, version, e)
            case Ok((reply, t')) =>
              && (forall e :: !CompletionRefused(t, request, response, targetDigest, version, e))
              && request.key in t.requests
              && match t.requests[request.key].response
                 case Some(stored) => reply == stored && t' == t
                 case None => reply == response && request.key in t'.requests
                              && t'.requests[request.key].response == Some(response)
  {
    hide ValidResponse, IsVersion, Lawful, Standing.Versioned, L.ProjectBindingActive;
    LawfulExactly(response);
    Standing.VersionedExactly(version);
  }

  // ----- restart recovery

  /** What a caller is told of a request that was interrupted. */
  function AmbiguousReply(row: L.RequestRow, id: string, now: nat): Response {
    Response(row.key.installationId, row.requestId, row.authority.operation, Failed(ResultAmbiguous, false, None),
             Some(id), now)
  }

  /** The row waits no longer and has this answer, and its receipt has the digest of its binding's target. */
  ghost predicate RecoveredAs(t: L.Tables, t': L.Tables, row: L.RequestRow, id: string, now: nat) {
    var reply := AmbiguousReply(row, id, now);
    var key := L.BindingKey(row.key.installationId, row.authority.bindingId);
    && row.key in t'.requests && id in t'.receipts && key in t.bindings
    && t'.requests[row.key] == row.(state := L.Ambiguous, response := Some(reply), receiptId := Some(id),
                                    completedAt := Some(now))
    && t'.receipts[id] == L.Receipt(id, row.key, row.requestId, row.authority, row.requestDigest, row.certificate,
                                    Some(TargetDigest(t.bindings[key].target.secret)),
                                    Failed(ResultAmbiguous, false, None), ResponseDigest(reply), "reconciler-1",
                                    row.startedAt, now)
  }

  lemma {:induction false} RowIsRecovered(t: L.Tables, row: L.RequestRow, id: string, now: nat)
    requires I.Inv(t) && row.key in t.requests && t.requests[row.key] == row && row.state == L.Claimed
    requires id !in t.receipts
    ensures L.ReconcileRow(t, row, id, now).Ok?
    ensures var t' := L.ReconcileRow(t, row, id, now).value;
            && I.Inv(t') && I.Grows(t, t') && t'.bindings == t.bindings
            && t'.requests.Keys == t.requests.Keys && t'.receipts.Keys == t.receipts.Keys + {id}
            && (forall k :: k in t.requests && k != row.key ==> t'.requests[k] == t.requests[k])
            && RecoveredAs(t, t', row, id, now)
  {
    hide I.Inv, I.Grows, L.CompleteRequest, R.Interrupted, IsVersion;
    R.RowRecovers(t, row, id, now);
    R.WaitingRowFacts(t, row);
    R.ReconcilerVersionIsValid();
    var response, key := L.InterruptedResponse(row, id, now), L.BindingOf(row.key, row.authority);
    var digest := Some(t.bindings[key].targetDigest);
    I.CompletionKeepsInv(t, L.RequestFromRow(row), response, digest, L.RECONCILER_VERSION, now);
    Standing.StoredTarget(t, key);
  }

  lemma RecoveredForGood(t: L.Tables, t1: L.Tables, t2: L.Tables, row: L.RequestRow, id: string, now: nat)
    requires RecoveredAs(t, t1, row, id, now) && I.Grows(t1, t2)
    ensures RecoveredAs(t, t2, row, id, now)
  {
    hide I.BindingsGrow;
  }

  lemma SameTargets(t: L.Tables, t1: L.Tables, t2: L.Tables, row: L.RequestRow, id: string, now: nat)
    requires RecoveredAs(t1, t2, row, id, now) && t1.bindings == t.bindings
    ensures RecoveredAs(t, t2, row, id, now)
  {
  }

  /** A pass over the waiting rows never fails, and recovers each of them under the identifier drawn for it. */
  lemma {:induction false} PassByCause(t: L.Tables, rows: seq<L.RequestRow>, ids: seq<string>, now: nat, i: nat)
    requires I.Inv(t) && R.Waiting(t, rows) && R.FreshIds(t, ids) && |rows| == |ids| && i < |rows|
    ensures L.ReconcileRows(t, rows, ids, now).Ok?
    ensures RecoveredAs(t, L.ReconcileRows(t, rows, ids, now).value, rows[i], ids[i], now)
    decreases |rows|
  {
    hide I.Inv, I.Grows, L.ReconcileRow, RecoveredAs, R.Interrupted, R.Recovers;
    RowIsRecovered(t, rows[0], ids[0], now);
    R.RowRecovers(t, rows[0], ids[0], now);
    var t1 := L.ReconcileRow(t, rows[0], ids[0], now).value;
    R.StillWaiting(t, t1, rows, ids, now);
    hide R.Waiting, R.FreshIds;
    R.RecoveryIsTotal(t1, rows[1..], ids[1..], now);
    var t2 := L.ReconcileRows(t1, rows[1..], ids[1..], now).value;
    if i == 0 {
      RecoveredForGood(t, t1, t2, rows[0], ids[0], now);
    } else {
      PassByCause(t1, rows[1..], ids[1..], now, i - 1);
      SameTargets(t, t1, t2, rows[i], ids[i], now);
    }
  }
}
