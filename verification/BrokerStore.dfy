/**
 * `BrokerStore` of `broker/src/store.ts`: every method works on the shared tables in place and is
 * proved to do what its ledger function says, touching no other table. An exception is an `Err`
 * with the tables as the call found them, which is what an aborted transaction leaves behind.
 */
module BrokerStore {
  import opened Prelude
  import opened Sealing
  import opened FoundationProtocol
  import opened FoundationLedger
  import opened FoundationInvariant
  import opened BrokerDatabase
  import JsText
  import Registry

  class BrokerStore {
    const db: Database

    constructor (db: Database)
      ensures this.db == db
    {
      this.db := db;
    }

    // ----- installations and fences

    method GetInstallationByCertificate(certificate: string) returns (found: Option<Registry.Installation>)
      ensures found == Registry.ByCertificate(db.Registered(), certificate)
    {
      var i := 0;
      while i < |db.enrolled|
        invariant 0 <= i <= |db.enrolled|
        invariant Registry.FirstWithCertificate(db.Registered(), db.enrolled, certificate)
                  == Registry.FirstWithCertificate(db.Registered(), db.enrolled[i..], certificate)
      {
        var id := db.enrolled[i];
        if id in db.installations && db.installations[id].certificate == certificate {
          var row := db.installations[id];
          return if row.state == Registry.Enabled then Some(row) else None;
        }
        i := i + 1;
      }
      return None;
    }

    method AddInstallation(e: Registry.Enrollment) returns (error: Option<Registry.RegistryError>)
      modifies db`enrolled, db`installations
      ensures match Registry.AddInstallation(old(db.Registered()), e)
              case Ok(r) => error == None && db.Registered() == r
              case Err(x) => error == Some(x) && db.Registered() == old(db.Registered())
    {
      if !Registry.IsHexDigest(e.certificate) || !Registry.IsHexDigest(e.policyDigest)
         || !Registry.IsHexDigest(e.topologyDigest)
         || e.expectedVaultId == "" {
        return Some(Registry.InvalidInstallation);
      }
      var sealedVault := Sealed(e.expectedVaultId, Aad(e.installationId, Registry.EXPECTED_VAULT_BINDING_ID, 0));
      if e.installationId in db.installations {
        return Some(Registry.ConstraintFailed);
      }
      var row := Registry.Installation(e.installationId, e.certificate, e.policyDigest, e.topologyDigest,
                                       e.topologyExpiresAt, sealedVault, Registry.Enabled);
      db.enrolled := db.enrolled + [e.installationId];
      db.installations := db.installations[e.installationId := row];
      return None;
    }

    method AttestInstallation(id: string, digest: string, expiresAt: nat)
      returns (error: Option<Registry.RegistryError>)
      modifies db`installations
      ensures match Registry.AttestInstallation(old(db.Registered()), id, digest, expiresAt)
              case Ok(r) => error == None && db.Registered() == r
              case Err(x) => error == Some(x) && db.Registered() == old(db.Registered())
    {
      if id !in db.installations {
        return Some(Registry.InstallationMissing);
      }
      var row := db.installations[id];
      db.installations := db.installations[id := row.(topologyDigest := digest, topologyExpiresAt := expiresAt)];
      return None;
    }

    /** The installation is revoked and its bindings compromised in one transaction. */
    method RevokeInstallation(id: string) returns (error: Option<Registry.RegistryError>)
      modifies db`installations, db`bindings
      ensures match Registry.RevokeInstallation(old(db.Registered()), id)
              case Ok(r) =>
                error == None && db.Registered() == r && db.Foundation() == CompromiseBindings(old(db.Foundation()), id)
              case Err(x) =>
                error == Some(x) && db.Registered() == old(db.Registered()) && db.Foundation() == old(db.Foundation())
    {
      if id !in db.installations || db.installations[id].state != Registry.Enabled {
        return Some(Registry.InstallationUnavailable);
      }
      db.installations := db.installations[id := db.installations[id].(state := Registry.Revoked)];
      db.bindings := map k | k in db.bindings ::
        if k.installationId == id
          then db.bindings[k].(state := BindingCompromised, generation := db.bindings[k].generation + 1)
        else db.bindings[k];
      return None;
    }

    method AttestExecutorFence(a: Registry.Attestation) returns (verdict: Registry.FenceVerdict)
      modifies db`fences
      ensures (verdict, db.Registered()) == Registry.AttestFence(old(db.Registered()), a)
    {
      if a.generation < 1 || a.expiresAt <= a.now || JsText.Blank(a.key.taskId) || JsText.Blank(a.key.projectId)
         || JsText.Blank(a.owner) {
        return Registry.Refused;
      }
      if a.key in db.fences {
        var current := db.fences[a.key];
        if a.generation < current.generation || (a.generation == current.generation && current.owner != a.owner) {
          return Registry.Refused;
        }
      }
      if a.key.installationId !in db.installations {
        return Registry.FenceConstraintFailed;
      }
      db.fences := db.fences[a.key := Registry.Fence(a.owner, a.generation, a.expiresAt)];
      return Registry.Accepted;
    }

    method IsExecutorFenceCurrent(key: Registry.FenceKey, owner: string, generation: nat, now: nat)
      returns (current: bool)
      ensures current == Registry.FenceCurrent(db.Registered(), key, owner, generation, now)
    {
      if key !in db.fences {
        return false;
      }
      var row := db.fences[key];
      return row.owner == owner && row.generation == generation && row.expiresAt > now;
    }

    // ----- requests

    method ClaimRequest(input: ClaimInput, now: nat) returns (claim: Claim)
      modifies db`requests
      ensures (claim, db.Foundation())
              == FoundationLedger.ClaimRequest(db.Registered(), old(db.Foundation()), input, now)
    {
      var id := input.request.key.installationId;
      if id !in db.installations || db.installations[id].certificate != input.certificate {
        return DigestMismatch;
      }
      if input.request.key in db.requests {
        var existing := db.requests[input.request.key];
        if existing.requestDigest != input.requestDigest {
          return DigestMismatch;
        }
        if existing.response.Some? {
          return Replay(existing.response.value);
        }
        return InFlight;
      }
      var duplicate := HasDuplicate(input.request);
      if duplicate {
        return DigestMismatch;
      }
      db.requests := db.requests[input.request.key := RowFor(input, now)];
      return Fresh;
    }

    /** The two duplicate lookups, by request id and by nonce. */
    method HasDuplicate(request: Request) returns (duplicate: bool)
      ensures duplicate == DuplicateRequest(db.Foundation(), request)
    {
      var duplicateRequest := exists k :: k in db.requests && k.installationId == request.key.installationId
                                          && db.requests[k].requestId == request.requestId;
      var duplicateNonce := exists k :: k in db.requests && k.installationId == request.key.installationId
                                        && db.requests[k].nonce == request.nonce;
      return duplicateRequest || duplicateNonce;
    }

    /** One receipt per id and per request: a second one is refused by the table. */
    method InsertReceipt(row: RequestRow, response: Response, receiptId: string, versionHmac: Option<string>,
                         completedAt: nat)
      returns (inserted: bool)
      modifies db`receipts
      ensures inserted == !ReceiptRefused(old(db.Foundation()), row, receiptId)
      ensures db.receipts
              == if inserted
                then old(db.receipts)[receiptId := ReceiptFor(row, response, receiptId, versionHmac, completedAt)]
                             else old(db.receipts)
    {
      if receiptId in db.receipts || exists id :: id in db.receipts && db.receipts[id].key == row.key {
        return false;
      }
      db.receipts := db.receipts[receiptId := Receipt(
        receiptId, row.key, row.requestId, row.subject, row.requestDigest, row.certificate,
        response.outcome, response.verdict, versionHmac, row.startedAt, completedAt)];
      return true;
    }

    method CompleteRequest(key: RequestKey, c: Completion, receiptId: string, now: nat)
      returns (result: Result<Response, StoreError>)
      modifies db`requests, db`receipts, db`bindings
      ensures match FoundationLedger.CompleteRequest(old(db.Foundation()), key, c, receiptId, now)
              case Ok((response, t)) => result == Ok(response) && db.Foundation() == t
              case Err(e) => result == Err(e) && db.Foundation() == old(db.Foundation())
    {
      hide ValidResponse, FoundationLedger.ApplyBindingTransition;
      if key !in db.requests {
        return Err(ClaimMissing);
      }
      var row := db.requests[key];
      if row.response.Some? {
        return Ok(row.response.value);
      }
      var response := ResponseForRow(row, c.outcome, c.verdict, receiptId, c.health, c.bindings, now);
      if !ValidResponse(response) {
        return Err(ResponseInvalid);
      }
      var inserted := InsertReceipt(row, response, receiptId, c.versionHmac, now);
      if !inserted {
        return Err(StoreError.ConstraintFailed);
      }
      ApplyBindingTransition(row, response, now);
      db.requests := db.requests[row.key := row.(
        state := if response.verdict.failureClass == Some(ResultAmbiguous) then Ambiguous else Completed,
        response := Some(response), receiptId := Some(receiptId), completedAt := Some(now))];
      return Ok(response);
    }

    method ApplyBindingTransition(row: RequestRow, response: Response, completedAt: nat)
      modifies db`bindings
      ensures db.bindings == FoundationLedger.ApplyBindingTransition(old(db.bindings), row, response, completedAt)
    {
      if row.subject.operation != Verify || row.subject.bindingId.None? {
        return;
      }
      var key := BindingKey(row.key.installationId, row.subject.bindingId.value);
      if key !in db.bindings || row.subject.bindingGeneration != Some(db.bindings[key].generation) {
        return;
      }
      var binding := db.bindings[key];
      if response.verdict.result == Some(Valid) && response.verdict.failureClass.None? {
        if binding.state in {Pending, Degraded} {
          db.bindings := db.bindings[key := binding.(state := VaultVerified, lastVerifiedAt := Some(completedAt))];
        }
      } else if response.verdict.result == Some(Invalid) && response.verdict.failureClass == Some(CredentialInvalid) {
        if binding.state == VaultVerified {
          db.bindings := db.bindings[key := binding.(state := Degraded)];
        }
      }
    }

    /** A refused receipt takes the row that was inserted for it away again. */
    method RejectRequest(input: ClaimInput, receiptId: string, now: nat) returns (result: Result<Response, StoreError>)
      modifies db`requests, db`receipts
      ensures match FoundationLedger.RejectRequest(old(db.Foundation()), input, receiptId, now)
              case Ok((response, t)) => result == Ok(response) && db.Foundation() == t
              case Err(e) => result == Err(e) && db.Foundation() == old(db.Foundation())
    {
      hide ValidResponse, DuplicateRequest;
      var key := input.request.key;
      var before := db.requests;
      if key in db.requests && db.requests[key].response.Some? {
        return Ok(db.requests[key].response.value);
      }
      if key !in db.requests {
        var duplicate := HasDuplicate(input.request);
        if duplicate {
          return Err(StoreError.ConstraintFailed);
        }
        db.requests := db.requests[key := RowFor(input, now)];
      }
      var row := db.requests[key];
      var response := ResponseForRow(row, Failed, Failure(RequestRejected), receiptId, None, [], now);
      var inserted := InsertReceipt(row, response, receiptId, None, now);
      if !inserted {
        db.requests := before;
        return Err(StoreError.ConstraintFailed);
      }
      db.requests := db.requests[row.key := row.(
        state := Completed, response := Some(response), receiptId := Some(receiptId), completedAt := Some(now))];
      return Ok(response);
    }

    /**
     * All interrupted rows in one transaction. `rows` is what the SELECT returned, `receiptIds` the identifiers drawn.
     */
    method ReconcileInterruptedRequests(rows: seq<RequestRow>, receiptIds: seq<string>, now: nat)
      returns (result: Result<nat, StoreError>)
      requires |rows| == |receiptIds|
      modifies db`requests, db`receipts
      ensures match ReconcileRows(old(db.Foundation()), rows, receiptIds, now)
              case Ok(t) => result == Ok(|rows|) && db.Foundation() == t
              case Err(e) => result == Err(e) && db.Foundation() == old(db.Foundation())
    {
      var requestsBefore, receiptsBefore := db.requests, db.receipts;
      ghost var before := db.Foundation();
      var reconciled := 0;
      while reconciled < |rows|
        invariant 0 <= reconciled <= |rows|
        invariant db.bindings == old(db.bindings)
        invariant ReconcileRows(before, rows, receiptIds, now)
                  == ReconcileRows(db.Foundation(), rows[reconciled..], receiptIds[reconciled..], now)
      {
        var row, receiptId := rows[reconciled], receiptIds[reconciled];
        ghost var t := db.Foundation();
        assert rows[reconciled..][1..] == rows[reconciled + 1..]
               && receiptIds[reconciled..][1..] == receiptIds[reconciled + 1..];
        var response := ResponseForRow(row, Failed, Failure(ResultAmbiguous), receiptId, None, [], now);
        var inserted := InsertReceipt(row, response, receiptId, None, now);
        if !inserted {
          db.requests, db.receipts := requestsBefore, receiptsBefore;
          return Err(StoreError.ConstraintFailed);
        }
        db.requests := db.requests[row.key := row.(
          state := Ambiguous, response := Some(response), receiptId := Some(receiptId), completedAt := Some(now))];
        assert Settle(t, row, response, Ambiguous, receiptId, None, now) == Ok(db.Foundation());
        reconciled := reconciled + 1;
      }
      return Ok(reconciled);
    }

    // ----- bindings

    method AddBinding(key: BindingKey, reference: string, labelText: string, capabilityIds: seq<string>)
      returns (error: Option<StoreError>)
      modifies db`bindings
      ensures match FoundationLedger.AddBinding(db.Registered(), old(db.Foundation()), key, reference, labelText,
                                                capabilityIds)
              case Ok(t) => error == None && db.Foundation() == t
              case Err(e) => error == Some(e) && db.Foundation() == old(db.Foundation())
    {
      hide ValidEnrollment;
      if !ValidEnrollment(reference, labelText, capabilityIds) {
        return Some(InvalidBinding);
      }
      if key.installationId !in db.installations || db.installations[key.installationId].state != Registry.Enabled {
        return Some(StoreError.InstallationUnavailable);
      }
      var siblings := set k | k in db.bindings && k.installationId == key.installationId;
      if |siblings| >= BROKER_MAX_BINDINGS {
        return Some(BindingLimit);
      }
      if key in db.bindings {
        return Some(StoreError.ConstraintFailed);
      }
      var sealedReference := Sealed(reference, BindingAad(key, BINDING_GENERATION_START));
      db.bindings := db.bindings[key := BindingRow(Some(sealedReference), labelText, Pending, BINDING_GENERATION_START,
                                                   None, None)];
      return None;
    }

    method DecryptBindingReference(key: BindingKey, row: BindingRow) returns (reference: Option<string>)
      ensures reference == OpenReference(key, row)
    {
      if row.reference.None? || row.reference.value.aad != Aad(key.installationId, key.bindingId, row.generation) {
        return None;
      }
      return Some(row.reference.value.secret);
    }

    method RevokeBinding(key: BindingKey, now: nat) returns (error: Option<StoreError>)
      modifies db`bindings
      ensures match FoundationLedger.RevokeBinding(old(db.Foundation()), key, now)
              case Ok(t) => error == None && db.Foundation() == t
              case Err(e) => error == Some(e) && db.Foundation() == old(db.Foundation())
    {
      if key !in db.bindings {
        return Some(BindingNotFound);
      }
      var row := db.bindings[key];
      var nextGeneration := row.generation + 1;
      var nextReference: Option<Sealed<string>> := None;
      if row.reference.Some? {
        var secret := DecryptBindingReference(key, row);
        if secret.None? {
          return Some(ReferenceUnreadable);
        }
        nextReference := Some(Sealed(secret.value, BindingAad(key, nextGeneration)));
      }
      db.bindings := db.bindings[key := row.(
        reference := nextReference, state := BindingRevoked, generation := nextGeneration, revokedAt := Some(now))];
      return None;
    }
  }
}
