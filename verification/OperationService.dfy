/**
 * `BrokerOperationService` of `broker/src/operation-service.ts`. `execute` is split where it
 * awaits the adapter: `Execute` runs up to the await and `Resume` from there, and the tables
 * may be changed by anyone in between.
 */
module OperationService {
  import opened Prelude
  import opened Sealing
  import opened FoundationProtocol
  import opened FoundationLedger
  import opened FoundationInvariant
  import S = FoundationService
  import B = BrokerStore
  import opened BrokerDatabase
  import Registry

  class BrokerOperationService {
    const store: B.BrokerStore

    /** The service object exists only once the pass over interrupted requests has gone through; see `Open`. */
    constructor (store: B.BrokerStore)
      ensures this.store == store
    {
      this.store := store;
    }

    /** Construction: recovery first, then service. */
    static method Open(store: B.BrokerStore, rows: seq<RequestRow>, receiptIds: seq<string>, now: nat)
      returns (service: Result<BrokerOperationService, StoreError>)
      requires |rows| == |receiptIds|
      modifies store.db`requests, store.db`receipts
      ensures match ReconcileRows(old(store.db.Foundation()), rows, receiptIds, now)
              case Ok(t) =>
                service.Ok? && fresh(service.value) && service.value.store == store && store.db.Foundation() == t
              case Err(e) => service == Err(e) && store.db.Foundation() == old(store.db.Foundation())
    {
      var reconciled := store.ReconcileInterruptedRequests(rows, receiptIds, now);
      if reconciled.Err? {
        return Err(reconciled.error);
      }
      var service' := new BrokerOperationService(store);
      return Ok(service');
    }

    method Execute(certificate: string, request: Request, now: nat, receiptId: string) returns (begun: S.Begun)
      modifies store.db`requests, store.db`receipts, store.db`bindings
      ensures (begun, store.db.Foundation())
              == S.Begin(store.db.Registered(), old(store.db.Foundation()), certificate, request, now, receiptId)
    {
      hide FoundationLedger.ClaimRequest, FoundationLedger.CompleteRequest, ValidResponse, Registry.ByCertificate;
      if !ValidRequest(request) {
        return S.Replied(BareFailure(request, RequestRejected, now));
      }
      var installation := store.GetInstallationByCertificate(certificate);
      if installation.None? {
        return S.Replied(BareFailure(request, BrokerAuthFailed, now));
      }
      if request.key.installationId != installation.value.installationId {
        return S.Replied(BareFailure(request, RequestRejected, now));
      }
      if request.subject.policyDigest != FOUNDATION_POLICY_DIGEST
         || request.subject.policyDigest != installation.value.policyDigest {
        return S.Replied(BareFailure(request, RequestRejected, now));
      }
      var claimed := store.ClaimRequest(ClaimInput(request, RequestDigest(request), certificate), now);
      match claimed {
        case Replay(response) => return S.Replied(response);
        case InFlight => return S.Replied(BareFailure(request, ResultAmbiguous, now));
        case DigestMismatch => return S.Replied(BareFailure(request, RequestRejected, now));
        case Fresh =>
      }
      if S.TemporalFailureOrPair(request, now) {
        begun := CompleteRejection(request, RequestRejected, receiptId, now);
        return;
      }
      if request.subject.operation == Health {
        begun := ExecuteHealth(request, installation.value, receiptId, now);
      } else {
        begun := ExecuteVerification(request, receiptId, now);
      }
    }

    method ExecuteHealth(request: Request, installation: Registry.Installation, receiptId: string, now: nat)
      returns (begun: S.Begun)
      modifies store.db`requests, store.db`receipts, store.db`bindings
      ensures (begun, store.db.Foundation())
              == if S.ExpectedVault(store.db.Registered(), installation.installationId).Some?
                 then (S.Dispatched(S.HealthCall(request, installation, now)), old(store.db.Foundation()))
                 else S.SettledAtOnce(old(store.db.Foundation()), request, S.UNAVAILABLE, receiptId, now)
    {
      hide FoundationLedger.CompleteRequest, ValidResponse;
      var readable := DecryptsExpectedVault(installation.installationId);
      if readable {
        return S.Dispatched(S.HealthCall(request, installation, now));
      }
      var response := Complete(request, S.Plain(Failed, S.UNAVAILABLE), receiptId, now);
      return S.Replied(response);
    }

    method ExecuteVerification(request: Request, receiptId: string, now: nat) returns (begun: S.Begun)
      modifies store.db`requests, store.db`receipts, store.db`bindings
      ensures (begun, store.db.Foundation())
              == match S.AuthorizeVerification(store.db.Registered(), old(store.db.Foundation()), request, now)
                 case Ok(call) => (S.Dispatched(call), old(store.db.Foundation()))
                 case Err(verdict) => S.SettledAtOnce(old(store.db.Foundation()), request, verdict, receiptId, now)
    {
      hide FoundationLedger.CompleteRequest, ValidResponse;
      if request.subject.bindingId.None?
         || BindingKey(request.key.installationId, request.subject.bindingId.value) !in store.db.bindings {
        begun := CompleteRejection(request, BindingMissing, receiptId, now);
        return;
      }
      var key := BindingKey(request.key.installationId, request.subject.bindingId.value);
      var binding := store.db.bindings[key];
      if binding.state in {BindingRevoked, BindingCompromised} {
        begun := CompleteRejection(request, BindingInactive, receiptId, now);
        return;
      }
      if Some(binding.generation) != request.subject.bindingGeneration {
        begun := CompleteRejection(request, BindingGenerationStale, receiptId, now);
        return;
      }
      var vault := DecryptsExpectedVault(request.key.installationId);
      var reference := store.DecryptBindingReference(key, binding);
      if vault && reference.Some? {
        return S.Dispatched(S.VerifyCall(request, reference.value, now));
      }
      var response := Complete(request, S.Plain(Failed, S.UNAVAILABLE), receiptId, now);
      return S.Replied(response);
    }

    method DecryptsExpectedVault(installationId: string) returns (readable: bool)
      ensures readable == S.ExpectedVault(store.db.Registered(), installationId).Some?
    {
      if installationId !in store.db.installations {
        return false;
      }
      return store.db.installations[installationId].expectedVault.aad
             == Aad(installationId, Registry.EXPECTED_VAULT_BINDING_ID, 0);
    }

    method CompleteRejection(request: Request, c: FailureClass, receiptId: string, now: nat) returns (begun: S.Begun)
      modifies store.db`requests, store.db`receipts, store.db`bindings
      ensures (begun, store.db.Foundation())
              == S.SettledAtOnce(old(store.db.Foundation()), request, Failure(c), receiptId, now)
    {
      hide FoundationLedger.CompleteRequest, ValidResponse;
      var response := Complete(request, S.Plain(Failed, Failure(c)), receiptId, now);
      return S.Replied(response);
    }

    /** What the store refuses is reported as a failure to persist, without a receipt. */
    method Complete(request: Request, c: Completion, receiptId: string, now: nat) returns (response: Response)
      modifies store.db`requests, store.db`receipts, store.db`bindings
      ensures (response, store.db.Foundation()) == S.Complete(old(store.db.Foundation()), request, c, receiptId, now)
    {
      hide FoundationLedger.CompleteRequest, ValidResponse;
      var result := store.CompleteRequest(request.key, c, receiptId, now);
      if result.Ok? {
        return result.value;
      }
      return BareFailure(request, ReceiptPersistenceFailed, now);
    }

    method Resume(call: S.Call, answer: S.Answer, receiptId: string) returns (response: Response)
      requires S.Answers(call, answer)
      modifies store.db`requests, store.db`receipts, store.db`bindings
      ensures (response, store.db.Foundation()) == S.Finish(old(store.db.Foundation()), call, answer, receiptId)
    {
      hide FoundationLedger.CompleteRequest, ValidResponse;
      match answer {
        case AdapterReady(listing) =>
          var health := HealthSnapshot(|listing|, call.installation.topologyDigest,
                                       call.installation.topologyExpiresAt);
          var verdict := Verdict(Some(Ready), None, false, None);
          response := Complete(call.request, Completion(Succeeded, verdict, Some(health), listing, None), receiptId,
                               call.now);
        case ItemValid(hmac) =>
          var verdict := Verdict(Some(Valid), None, false, None);
          response := Complete(call.request, Completion(Succeeded, verdict, None, [], Some(hmac)), receiptId, call.now);
        case ItemInvalid =>
          var verdict := Verdict(Some(Invalid), Some(CredentialInvalid), false, None);
          response := Complete(call.request, Completion(Failed, verdict, None, [], None), receiptId, call.now);
        case AdapterFailed(c, retryable, retryAfterMs) =>
          response := Complete(call.request,
                               Completion(Failed, Verdict(None, Some(c), retryable, retryAfterMs), None, [], None),
                               receiptId, call.now);
        case AdapterThrew =>
          var verdict := Verdict(None, Some(ProviderUnavailable), true, Some(30_000));
          response := Complete(call.request, Completion(Failed, verdict, None, [], None), receiptId, call.now);
      }
    }
  }
}
