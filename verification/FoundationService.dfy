/**
 * The execute protocol of `broker/src/operation-service.ts`, split at its one await: `Begin`
 * claims and authorizes a request, `Finish` settles it with whatever the adapter answered.
 */
module FoundationService {
  import opened Prelude
  import opened Sealing
  import opened FoundationProtocol
  import opened FoundationLedger
  import opened FoundationInvariant
  import Registry

  // ----- before the await

  /** The adapter call a request is waiting for. The completion time is the time the request came in. */
  datatype Call =
    | HealthCall(request: Request, installation: Registry.Installation, now: nat)
    | VerifyCall(request: Request, reference: string, now: nat)

  datatype Begun = Replied(response: Response) | Dispatched(call: Call)

  function Plain(outcome: Outcome, verdict: Verdict): Completion { Completion(outcome, verdict, None, [], None) }

  /** `complete`: what the store refuses is reported as a failure to persist. */
  function Complete(t: Tables, request: Request, c: Completion, receiptId: string, now: nat): (Response, Tables) {
    match CompleteRequest(t, request.key, c, receiptId, now)
    case Ok(pair) => pair
    case Err(_) => (BareFailure(request, ReceiptPersistenceFailed, now), t)
  }

  const UNAVAILABLE := Verdict(None, Some(ProviderUnavailable), true, Some(30_000))

  function ExpectedVault(r: Registry.Registry, id: string): Option<string> {
    if id !in r.installations then None
    else Open(r.installations[id].expectedVault, Aad(id, Registry.EXPECTED_VAULT_BINDING_ID, 0))
  }

  predicate TemporalFailureOrPair(request: Request, now: nat) {
    TemporalFailure(request, now) || !ValidOperationPair(request.subject)
  }

  function Authorize(r: Registry.Registry, t: Tables, request: Request, installation: Registry.Installation, now: nat)
    : Result<Call, Verdict>
  {
    if TemporalFailureOrPair(request, now) then Err(Failure(RequestRejected))
    else if request.subject.operation == Health then
      if ExpectedVault(r, installation.installationId).None?
        then Err(UNAVAILABLE) else Ok(HealthCall(request, installation, now))
    else AuthorizeVerification(r, t, request, now)
  }

  function AuthorizeVerification(r: Registry.Registry, t: Tables, request: Request, now: nat): Result<Call, Verdict> {
    if request.subject.bindingId.None? then Err(Failure(BindingMissing))
    else
      var key := BindingKey(request.key.installationId, request.subject.bindingId.value);
      if key !in t.bindings then Err(Failure(BindingMissing))
      else if Withdrawn(t.bindings[key].state) then Err(Failure(BindingInactive))
      else if request.subject.bindingGeneration != Some(t.bindings[key].generation)
        then Err(Failure(BindingGenerationStale))
      else if ExpectedVault(r, request.key.installationId).None?
           || OpenReference(key, t.bindings[key]).None? then Err(UNAVAILABLE)
      else Ok(VerifyCall(request, OpenReference(key, t.bindings[key]).value, now))
  }

  /** A request settled without asking the adapter. */
  function SettledAtOnce(t: Tables, request: Request, verdict: Verdict, receiptId: string, now: nat): (Begun, Tables) {
    var (response, t') := Complete(t, request, Plain(Failed, verdict), receiptId, now);
    (Replied(response), t')
  }

  function Begin(r: Registry.Registry, t: Tables, certificate: string, request: Request, now: nat, receiptId: string)
    : (Begun, Tables)
  {
    var installation := Registry.ByCertificate(r, certificate);
    if !ValidRequest(request) then (Replied(BareFailure(request, RequestRejected, now)), t)
    else if installation.None? then (Replied(BareFailure(request, BrokerAuthFailed, now)), t)
    else if request.key.installationId != installation.value.installationId
      then (Replied(BareFailure(request, RequestRejected, now)), t)
    else if request.subject.policyDigest != FOUNDATION_POLICY_DIGEST
         || request.subject.policyDigest != installation.value.policyDigest
      then (Replied(BareFailure(request, RequestRejected, now)), t)
    else
      var (claim, t1) := ClaimRequest(r, t, ClaimInput(request, RequestDigest(request), certificate), now);
      match claim
      case Replay(response) => (Replied(response), t1)
      case InFlight => (Replied(BareFailure(request, ResultAmbiguous, now)), t1)
      case DigestMismatch => (Replied(BareFailure(request, RequestRejected, now)), t1)
      case Fresh =>
        match Authorize(r, t1, request, installation.value, now)
        case Ok(call) => (Dispatched(call), t1)
        case Err(verdict) => SettledAtOnce(t1, request, verdict, receiptId, now)
  }

  // ----- after the await

  datatype Answer =
    | AdapterReady(listing: seq<Metadata>)
    | ItemValid(versionHmac: string)
    | ItemInvalid
    | AdapterFailed(failureClass: FailureClass, retryable: bool, retryAfterMs: Option<int>)
    | AdapterThrew

  /** A health call is answered with readiness, a verification with a verdict on the item; either may fail. */
  predicate Answers(call: Call, a: Answer) {
    match a
    case AdapterReady(_) => call.HealthCall?
    case ItemValid(_) => call.VerifyCall?
    case ItemInvalid => call.VerifyCall?
    case _ => true
  }

  function CompletionFor(call: Call, a: Answer): Completion
    requires Answers(call, a)
  {
    match a
    case AdapterReady(listing) =>
      Completion(Succeeded, Verdict(Some(Ready), None, false, None),
                 Some(HealthSnapshot(|listing|, call.installation.topologyDigest,
                                     call.installation.topologyExpiresAt)), listing, None)
    case ItemValid(hmac) => Completion(Succeeded, Verdict(Some(Valid), None, false, None), None, [], Some(hmac))
    case ItemInvalid => Plain(Failed, Verdict(Some(Invalid), Some(CredentialInvalid), false, None))
    case AdapterFailed(c, retryable, after) => Plain(Failed, Verdict(None, Some(c), retryable, after))
    case AdapterThrew => Plain(Failed, UNAVAILABLE)
  }

  function Finish(t: Tables, call: Call, a: Answer, receiptId: string): (Response, Tables)
    requires Answers(call, a)
  {
    Complete(t, call.request, CompletionFor(call, a), receiptId, call.now)
  }

  // ----- what the two halves do

  /** The rows that were there are still there unchanged. */
  ghost predicate RowsKept(t: Tables, t': Tables) {
    forall k :: k in t.requests ==> k in t'.requests && t'.requests[k] == t.requests[k]
  }

  /**
   * Everything a dispatch guarantees at the moment the adapter is called: the request was never seen before in any
   * of its three identities, it is now on file as waiting, the certificate speaks for its installation, and for a
   * verification the named binding stands at the named generation with the reference handed over.
   */
  ghost predicate DispatchEffect(r: Registry.Registry, t: Tables, t': Tables, certificate: string, request: Request,
                                 now: nat, call: Call)
  {
    && call.request == request
    && Inserts(t, t', ClaimInput(request, RequestDigest(request), certificate), now)
    && ValidRequest(request) && !TemporalFailure(request, now)
    && Registry.ByCertificate(r, certificate).Some?
    && var installation := Registry.ByCertificate(r, certificate).value;
    && installation.installationId == request.key.installationId
    && installation.policyDigest == request.subject.policyDigest == FOUNDATION_POLICY_DIGEST
    && match call
       case HealthCall(_, snapshot, _) => request.subject.operation == Health && snapshot == installation
       case VerifyCall(_, reference, _) =>
         && request.subject.operation == Verify
         && StandsFor(t, BindingKey(request.key.installationId, request.subject.bindingId.value),
                      request.subject.bindingGeneration, reference)
  }

  /** The binding is neither revoked nor compromised, is at this generation, and seals this reference. */
  ghost predicate StandsFor(t: Tables, key: BindingKey, generation: Option<nat>, reference: string) {
    && key in t.bindings
    && !Withdrawn(t.bindings[key].state)
    && generation == Some(t.bindings[key].generation)
    && OpenReference(key, t.bindings[key]) == Some(reference)
  }

  /** A denied row is settled by the denial, bindings as they were, exactly when its receipt is new. */
  ghost predicate DenialOutcome(t: Tables, t': Tables, request: Request, verdict: Verdict, receiptId: string, now: nat,
                                reply: Response)
    requires request.key in t.requests
  {
    var row := t.requests[request.key];
    var response := ResponseForRow(row, Failed, verdict, receiptId, None, [], now);
    if receiptId !in t.receipts
    then reply == response && Settles(t, t', row, response, Completed, receiptId, None, now)
         && t'.bindings == t.bindings
    else t' == t && reply == BareFailure(request, ReceiptPersistenceFailed, now)
  }

  /** The denials authorization can come to. */
  predicate Denies(verdict: Verdict) {
    verdict == UNAVAILABLE
    || verdict in {Failure(RequestRejected), Failure(BindingMissing), Failure(BindingInactive),
                   Failure(BindingGenerationStale)}
  }

  lemma {:induction false} DenialSettles(t: Tables, request: Request, verdict: Verdict, receiptId: string, now: nat)
    requires Inv(t) && Denies(verdict) && request.key in t.requests && t.requests[request.key].response.None?
    ensures var (begun, t') := SettledAtOnce(t, request, verdict, receiptId, now);
            begun.Replied? && DenialOutcome(t, t', request, verdict, receiptId, now, begun.response)
  {
    hide Inv;
    AnsweredIsSettled(t, request.key);
  }

  lemma {:induction false} BeginEffect(r: Registry.Registry, t: Tables, certificate: string, request: Request,
                                       now: nat, receiptId: string)
    requires Inv(t)
    ensures var (begun, t') := Begin(r, t, certificate, request, now, receiptId);
            && Inv(t') && Grows(t, t') && SameCompromise(t, t') && RowsKept(t, t')
            && (begun.Replied? ==> ReplyOnFile(t', request.key, begun.response))
            && (begun.Dispatched? ==> DispatchEffect(r, t, t', certificate, request, now, begun.call))
  {
    hide Inv, Grows, ValidResponse, ClaimRequest, Authorize, SettledAtOnce, DispatchEffect;
    GrowsReflexive(t);
    var c := ClaimInput(request, RequestDigest(request), certificate);
    ClaimKeepsInv(r, t, c, now);
    ClaimIsExact(r, t, c, now);
    var found := Registry.ByCertificate(r, certificate);
    var (claim, t1) := ClaimRequest(r, t, c, now);
    if claim.Fresh? && ValidRequest(request) && found.Some? && found.value.installationId == request.key.installationId
       && found.value.policyDigest == request.subject.policyDigest == FOUNDATION_POLICY_DIGEST {
      match Authorize(r, t1, request, found.value, now)
      case Ok(call) => AuthorizedDispatch(r, t, t1, certificate, request, now);
      case Err(verdict) => SettledAtOnceEffect(t, t1, request, verdict, receiptId, now);
    }
  }

  /** Authorization reads the tables as the claim left them, which are the tables as they were plus the claim. */
  lemma AuthorizedDispatch(r: Registry.Registry, t: Tables, t1: Tables, certificate: string, request: Request, now: nat)
    requires Registry.ByCertificate(r, certificate).Some? && ValidRequest(request)
    requires var installation := Registry.ByCertificate(r, certificate).value;
             && installation.installationId == request.key.installationId
             && installation.policyDigest == request.subject.policyDigest == FOUNDATION_POLICY_DIGEST
             && Authorize(r, t1, request, installation, now).Ok?
    requires Inserts(t, t1, ClaimInput(request, RequestDigest(request), certificate), now)
    ensures DispatchEffect(r, t, t1, certificate, request, now,
                           Authorize(r, t1, request, Registry.ByCertificate(r, certificate).value, now).value)
  {
    hide Inserts, Registry.ByCertificate, TemporalFailure;
    assert t1.bindings == t.bindings by {
      InsertLeavesBindings(t, t1, ClaimInput(request, RequestDigest(request), certificate), now);
    }
  }

  lemma InsertLeavesBindings(t: Tables, t1: Tables, c: ClaimInput, now: nat)
    requires Inserts(t, t1, c, now)
    ensures t1.bindings == t.bindings
  {
  }

  lemma {:induction false} SettledAtOnceEffect(t: Tables, t1: Tables, request: Request, verdict: Verdict,
                                               receiptId: string, now: nat)
    requires Inv(t1) && Grows(t, t1) && t1.bindings == t.bindings && RowsKept(t, t1) && request.key !in t.requests
    ensures var (begun, t') := SettledAtOnce(t1, request, verdict, receiptId, now);
            && Inv(t') && Grows(t, t') && SameCompromise(t, t') && RowsKept(t, t')
            && begun.Replied? && ReplyOnFile(t', request.key, begun.response)
  {
    hide Inv, Grows, ValidResponse, CompleteRequest;
    CompletionKeepsInv(t1, request.key, Plain(Failed, verdict), receiptId, now);
    GrowsTransitive(t, t1, Complete(t1, request, Plain(Failed, verdict), receiptId, now).1);
  }

  lemma ClaimIsExact(r: Registry.Registry, t: Tables, c: ClaimInput, now: nat)
    ensures var (claim, t') := ClaimRequest(r, t, c, now);
            && (claim.Fresh? ==>
                  c.request.key !in t.requests && RowsKept(t, t') && t'.bindings == t.bindings
                  && c.request.key in t'.requests)
            && (!claim.Fresh? ==> t' == t)
            && (claim.Replay? ==> ReplyOnFile(t', c.request.key, claim.response))
  {
  }

  lemma {:induction false} FinishEffect(t: Tables, call: Call, a: Answer, receiptId: string)
    requires Inv(t) && Answers(call, a)
    ensures var (reply, t') := Finish(t, call, a, receiptId);
            && Inv(t') && Grows(t, t') && SameCompromise(t, t') && RowsKeptExcept(t, t', call.request.key)
            && ReplyOnFile(t', call.request.key, reply)
  {
    hide Inv, Grows, ValidResponse, CompleteRequest, CompletionFor;
    GrowsReflexive(t);
    CompletionKeepsInv(t, call.request.key, CompletionFor(call, a), receiptId, call.now);
  }

  /** Health calls are made for health reads, and only for them. */
  predicate CallFits(call: Call) { call.HealthCall? <==> call.request.subject.operation == Health }

  /** Whether the protocol has a receipted response for this answer. */
  predicate AnswerFits(a: Answer) {
    match a
    case AdapterReady(listing) =>
      && |listing| <= BROKER_MAX_BINDINGS
      && forall i, j :: 0 <= i < j < |listing| ==> listing[i].bindingId != listing[j].bindingId
    case AdapterFailed(c, retryable, after) =>
      && c != CredentialInvalid && c != ReceiptPersistenceFailed
      && retryable == Retryable(c)
      && if retryable then after.Some? && MIN_RETRY_AFTER_MS <= after.value <= MAX_RETRY_AFTER_MS else after.None?
    case _ => true
  }

  function ResponseTo(row: RequestRow, call: Call, a: Answer, receiptId: string): Response
    requires Answers(call, a)
  {
    var c := CompletionFor(call, a);
    ResponseForRow(row, c.outcome, c.verdict, receiptId, c.health, c.bindings, call.now)
  }

  /**
   * A row somebody has already answered keeps its answer. Any other row is settled by the response to this answer, with
   * the verdict's effect on the binding, when the protocol has such a response and the receipt is new; otherwise
   * nothing changes.
   */
  ghost predicate FinishOutcome(t: Tables, t': Tables, call: Call, a: Answer, receiptId: string, reply: Response)
    requires Answers(call, a) && call.request.key in t.requests
  {
    var row := t.requests[call.request.key];
    var response := ResponseTo(row, call, a, receiptId);
    if row.response.Some? then t' == t && reply == row.response.value
    else if AnswerFits(a) && receiptId !in t.receipts then
      && reply == response
      && Settles(t, t', row, response, if IsAmbiguous(response) then Ambiguous else Completed, receiptId,
                 CompletionFor(call, a).versionHmac, call.now)
      && t'.bindings == ApplyBindingTransition(t.bindings, row, response, call.now)
    else t' == t && reply == BareFailure(call.request, ReceiptPersistenceFailed, call.now)
  }

  lemma AnswerFitsExactly(row: RequestRow, call: Call, a: Answer, receiptId: string)
    requires Answers(call, a) && CallFits(call) && row.subject == call.request.subject
    ensures ValidResponse(ResponseTo(row, call, a, receiptId)) <==> AnswerFits(a)
  {
  }

  lemma {:induction false} FinishSettlesExactly(t: Tables, call: Call, a: Answer, receiptId: string)
    requires Inv(t) && Answers(call, a) && CallFits(call)
    requires call.request.key in t.requests && t.requests[call.request.key].subject == call.request.subject
    ensures var (reply, t') := Finish(t, call, a, receiptId);
            && Inv(t') && Grows(t, t') && SameCompromise(t, t') && RowsKeptExcept(t, t', call.request.key)
            && ReplyOnFile(t', call.request.key, reply)
            && FinishOutcome(t, t', call, a, receiptId, reply)
  {
    hide Inv, Grows, SameCompromise, RowsKeptExcept, ValidResponse, AnswerFits, Answers, CompletionFor,
         ApplyBindingTransition;
    FinishEffect(t, call, a, receiptId);
    AnsweredIsSettled(t, call.request.key);
    AnswerFitsExactly(t.requests[call.request.key], call, a, receiptId);
  }

  /**
   * What an answered verification does to its binding: it verifies a pending or degraded one, degrades a verified
   * one, and does neither once the generation has moved on.
   */
  lemma VerificationMovesBinding(t: Tables, call: Call, a: Answer, receiptId: string, key: BindingKey)
    requires call.VerifyCall? && Answers(call, a) && receiptId !in t.receipts && Inv(t)
    requires call.request.key in t.requests && t.requests[call.request.key].response.None?
    requires t.requests[call.request.key].subject == call.request.subject && call.request.subject.operation == Verify
    requires call.request.subject.bindingId == Some(key.bindingId)
             && key.installationId == call.request.key.installationId
    requires key in t.bindings
    ensures var before := t.bindings[key]; var t' := Finish(t, call, a, receiptId).1;
            var current := call.request.subject.bindingGeneration == Some(before.generation);
            && key in t'.bindings
            && var after := t'.bindings[key];
            && after.generation == before.generation && after.reference == before.reference
            && (after.state == VaultVerified <==> (before.state == VaultVerified && !(current && a.ItemInvalid?))
                                                  || (before.state in {Pending, Degraded} && current && a.ItemValid?))
            && (after.state == Degraded <==> (before.state == Degraded && !(current && a.ItemValid?))
                                             || (before.state == VaultVerified && current && a.ItemInvalid?))
            && (after.state !in {VaultVerified, Degraded} ==> after == before)
  {
    hide Ledger, BindingsWellFormed, VerifiedIsProved;
    AnsweredIsSettled(t, call.request.key);
  }

  function MetadataOf(key: BindingKey, row: BindingRow): Metadata {
    Metadata(key.bindingId, row.labelText, row.state, row.generation, row.lastVerifiedAt)
  }

  /** `listBindingMetadata`: every binding of the installation, once. The order is that of the binding ids. */
  ghost predicate Lists(t: Tables, installationId: string, listing: seq<Metadata>) {
    && |listing| == |InstallationBindings(t, installationId)|
    && (forall i :: 0 <= i < |listing| ==>
          && BindingKey(installationId, listing[i].bindingId) in t.bindings
          && listing[i]
             == MetadataOf(BindingKey(installationId, listing[i].bindingId),
                           t.bindings[BindingKey(installationId, listing[i].bindingId)]))
    && (forall i, j :: 0 <= i < j < |listing| ==> listing[i].bindingId != listing[j].bindingId)
  }

  lemma ReadinessIsRecorded(t: Tables, call: Call, listing: seq<Metadata>, receiptId: string)
    requires Inv(t) && call.HealthCall? && receiptId !in t.receipts
             && Lists(t, call.request.key.installationId, listing)
    requires |InstallationBindings(t, call.request.key.installationId)| <= BROKER_MAX_BINDINGS
    requires call.request.key in t.requests && t.requests[call.request.key].response.None?
    requires t.requests[call.request.key].subject == call.request.subject && call.request.subject.operation == Health
    ensures var (reply, t') := Finish(t, call, AdapterReady(listing), receiptId);
            && reply.outcome == Succeeded && reply.receiptId == Some(receiptId) && receiptId in t'.receipts
            && reply.bindings == listing
            && reply.health
               == Some(HealthSnapshot(|listing|, call.installation.topologyDigest, call.installation.topologyExpiresAt))
  {
    hide Ledger, BindingsWellFormed, VerifiedIsProved;
    AnsweredIsSettled(t, call.request.key);
  }
}
