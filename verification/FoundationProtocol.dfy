/**
 * Envelopes of the foundation broker protocol (`src/credentials/protocol.ts`): health reads and
 * vault verifications, with the cross-field rules a response must meet. Digests are ideal.
 */
module FoundationProtocol {
  import opened Prelude

  const BROKER_MAX_BINDINGS: nat := 100
  const BROKER_MAX_DEADLINE_MS: nat := 30_000
  const BROKER_MAX_CLOCK_SKEW_MS: nat := 60_000
  const MIN_RETRY_AFTER_MS: nat := 1_000
  const MAX_RETRY_AFTER_MS: nat := 300_000
  const FOUNDATION_POLICY_DIGEST := "ec85ff22cd278f05806b37ae7d27df36c2e6154a811c02816fb0b87c83e4b4aa"

  datatype Operation = Health | Verify

  datatype Capability = SystemHealth | AccessStatus | AccessVerify

  datatype FailureClass =
    | BrokerAuthFailed | VaultAuthFailed | RequestRejected | BindingMissing | BindingInactive | BindingGenerationStale
    | CredentialInvalid | ProviderRateLimited | ProviderUnavailable | ReceiptPersistenceFailed | ResultAmbiguous

  predicate Retryable(c: FailureClass) { c == ProviderRateLimited || c == ProviderUnavailable }

  datatype RequestKey = RequestKey(installationId: string, idempotencyKey: string)

  /** The columns requests and receipts share. */
  datatype Subject = Subject(
    operation: Operation, bindingId: Option<string>, bindingGeneration: Option<nat>, capabilityId: Capability,
    policyDigest: string, fenceOwner: Option<string>, fenceGeneration: Option<nat>)

  datatype Request = Request(
    key: RequestKey, requestId: string, nonce: string, subject: Subject, turnId: Option<string>, issuedAt: nat,
    deadlineAt: nat)

  datatype RequestDigest = RequestDigest(of: Request)

  predicate ValidRequest(r: Request) {
    var s := r.subject;
    && r.issuedAt < r.deadlineAt <= r.issuedAt + BROKER_MAX_DEADLINE_MS
    && match s.operation
       case Health =>
         && s.bindingId.None? && s.bindingGeneration.None? && r.turnId.None? && s.fenceOwner.None?
         && s.fenceGeneration.None?
         && s.capabilityId == SystemHealth
       case Verify =>
         && s.bindingId.Some? && s.bindingGeneration.Some? && r.turnId.Some? && s.fenceOwner.Some?
         && s.fenceGeneration.Some?
         && s.capabilityId != SystemHealth
  }

  predicate TemporalFailure(r: Request, now: nat) {
    || now < r.issuedAt - BROKER_MAX_CLOCK_SKEW_MS || now > r.deadlineAt
    || r.deadlineAt <= r.issuedAt || r.deadlineAt - r.issuedAt > BROKER_MAX_DEADLINE_MS
  }

  predicate ValidOperationPair(s: Subject) {
    (s.operation == Health && s.capabilityId == SystemHealth)
    || (s.operation == Verify && s.capabilityId == AccessVerify)
  }

  // ----- responses

  datatype Outcome = Succeeded | Failed

  datatype Finding = Ready | Valid | Invalid

  datatype BindingState = Pending | VaultVerified | Degraded | Active | BindingRevoked | BindingCompromised

  datatype Metadata = Metadata(bindingId: string, labelText: string, state: BindingState, generation: nat,
                               lastVerifiedAt: Option<nat>)

  datatype HealthSnapshot = HealthSnapshot(bindingCount: nat, topologyDigest: string, topologyExpiresAt: nat)

  /** The verdict columns of a response, which a completion supplies. */
  datatype Verdict = Verdict(result: Option<Finding>, failureClass: Option<FailureClass>, retryable: bool,
                             retryAfterMs: Option<int>)

  datatype Response = Response(
    installationId: string, requestId: string, operation: Operation, outcome: Outcome, verdict: Verdict,
    receiptId: Option<string>, health: Option<HealthSnapshot>, bindings: seq<Metadata>, completedAt: nat)

  datatype ResponseDigest = ResponseDigest(of: Response)

  /** The cross-field matrix of `checkResponseCombination`, with the list and delay limits around it. */
  predicate ValidResponse(r: Response) {
    var v := r.verdict;
    var succeeded := r.outcome == Succeeded;
    var isHealth := r.operation == Health;
    var expectsHealth := succeeded && isHealth;
    && (v.retryAfterMs.Some? ==> MIN_RETRY_AFTER_MS <= v.retryAfterMs.value <= MAX_RETRY_AFTER_MS)
    && |r.bindings| <= BROKER_MAX_BINDINGS
    && (forall i, j :: 0 <= i < j < |r.bindings| ==> r.bindings[i].bindingId != r.bindings[j].bindingId)
    && (succeeded <==> v.failureClass.None?)
    && (succeeded ==> v.result.Some? && r.receiptId.Some?)
    && (v.result == Some(Ready) ==> isHealth)
    && (v.result in {Some(Valid), Some(Invalid)} ==> !isHealth)
    && (succeeded ==> v.result == Some(if isHealth then Ready else Valid))
    && (v.failureClass == Some(CredentialInvalid) ==> v.result == Some(Invalid))
    && (v.failureClass.Some? && v.failureClass != Some(CredentialInvalid) ==> v.result.None?)
    && (v.retryable <==> v.failureClass.Some? && Retryable(v.failureClass.value))
    && (v.retryable <==> v.retryAfterMs.Some?)
    && (r.receiptId.None? && v.failureClass.Some? ==>
          v.failureClass.value in {ReceiptPersistenceFailed, ResultAmbiguous, BrokerAuthFailed, RequestRejected})
    && (v.failureClass == Some(ReceiptPersistenceFailed) ==> r.receiptId.None?)
    && (expectsHealth <==> r.health.Some?)
    && (!expectsHealth ==> r.bindings == [])
    && (r.health.Some? ==> r.health.value.bindingCount == |r.bindings|)
  }

  predicate IsAmbiguous(r: Response) { r.verdict.failureClass == Some(ResultAmbiguous) }

  function Failure(c: FailureClass): Verdict { Verdict(None, Some(c), false, None) }

  function BareFailure(request: Request, c: FailureClass, completedAt: nat): Response {
    Response(request.key.installationId, request.requestId, request.subject.operation, Failed, Failure(c), None, None,
             [], completedAt)
  }
}
