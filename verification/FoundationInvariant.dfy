/**
 * What every transaction of the foundation broker keeps: the ledger invariant, the binding
 * lifecycle, and the way tables may grow.
 */
module FoundationInvariant {
  import opened Prelude
  import opened Sealing
  import opened FoundationProtocol
  import opened FoundationLedger
  import Registry

  // ----- the ledger

  ghost predicate Settled(row: RequestRow) {
    && row.response.Some? && row.receiptId.Some? && row.completedAt.Some?
    && var response := row.response.value;
    && response.receiptId == row.receiptId
    && ValidResponse(response)
    && (row.state == Ambiguous <==> IsAmbiguous(response))
    && response.installationId == row.key.installationId
    && response.requestId == row.requestId
    && response.operation == row.subject.operation
  }

  /** A row is claimed with no response and no receipt, or settled with exactly one of each. */
  ghost predicate RowWellFormed(t: Tables, k: RequestKey, row: RequestRow) {
    && row.key == k
    && (if row.state == Claimed then row.response.None? && row.receiptId.None?
                                     && row.completedAt.None? else Settled(row))
    && (row.receiptId.Some? ==> row.receiptId.value in t.receipts && t.receipts[row.receiptId.value].key == k)
  }

  ghost predicate ReceiptWellFormed(t: Tables, id: string, receipt: Receipt) {
    && receipt.receiptId == id
    && receipt.key in t.requests
    && var row := t.requests[receipt.key];
    && row.receiptId == Some(id)
    && row.response.Some?
    && row.completedAt == Some(receipt.completedAt)
    && receipt == ReceiptFor(row, row.response.value, id, receipt.versionHmac, receipt.completedAt)
  }

  ghost predicate RowsWellFormed(t: Tables) {
    forall k :: k in t.requests ==> RowWellFormed(t, k, t.requests[k])
  }

  ghost predicate ReceiptsWellFormed(t: Tables) {
    forall id :: id in t.receipts ==> ReceiptWellFormed(t, id, t.receipts[id])
  }

  ghost predicate UniqueRequests(t: Tables) {
    forall k, k' :: k in t.requests && k' in t.requests && k != k' && k.installationId == k'.installationId
      ==> t.requests[k].requestId != t.requests[k'].requestId && t.requests[k].nonce != t.requests[k'].nonce
  }

  ghost predicate Ledger(t: Tables) {
    RowsWellFormed(t) && ReceiptsWellFormed(t) && UniqueRequests(t)
  }

  // ----- the bindings

  /** The reference is sealed under the row's generation, or one behind when the binding is compromised. */
  ghost predicate BindingWellFormed(k: BindingKey, row: BindingRow) {
    && row.generation >= 1
    && row.reference.Some?
    && row.state != Active
    && if row.state == BindingCompromised then row.reference.value.aad == BindingAad(k, row.generation - 1)
       else row.reference.value.aad == BindingAad(k, row.generation)
  }

  ghost predicate BindingsWellFormed(t: Tables) {
    forall k :: k in t.bindings ==> BindingWellFormed(k, t.bindings[k])
  }

  /** Compromised bindings are exactly those of installations that are no longer enabled. */
  ghost predicate CompromiseMatches(r: Registry.Registry, t: Tables) {
    forall k :: k in t.bindings ==>
      && k.installationId in r.installations
      && (t.bindings[k].state == BindingCompromised <==> r.installations[k.installationId].state != Registry.Enabled)
  }

  /** A valid verification of this binding at this generation is on file. */
  ghost predicate ProvedVerified(t: Tables, k: BindingKey, generation: nat) {
    exists id :: id in t.receipts && VerificationOf(t.receipts[id], k, generation)
  }

  ghost predicate VerificationOf(receipt: Receipt, k: BindingKey, generation: nat) {
    && receipt.subject.operation == Verify
    && receipt.outcome == Succeeded && receipt.verdict.result == Some(Valid)
    && receipt.key.installationId == k.installationId
    && receipt.subject.bindingId == Some(k.bindingId)
    && receipt.subject.bindingGeneration == Some(generation)
  }

  ghost predicate VerifiedIsProved(t: Tables) {
    forall k :: k in t.bindings && t.bindings[k].state in {VaultVerified, Degraded} ==>
                  ProvedVerified(t, k, t.bindings[k].generation)
  }

  ghost predicate Inv(t: Tables) {
    Ledger(t) && BindingsWellFormed(t) && VerifiedIsProved(t)
  }

  // ----- growth

  ghost predicate RowGrows(row: RequestRow, row': RequestRow) {
    && row'.key == row.key && row'.requestId == row.requestId && row'.nonce == row.nonce
    && row'.requestDigest == row.requestDigest && row'.subject == row.subject && row'.certificate == row.certificate
    && (row.state != Claimed ==> row' == row)
  }

  /** Generations never go back, a withdrawn binding stays withdrawn, and a compromised one stays compromised. */
  ghost predicate BindingGrows(row: BindingRow, row': BindingRow) {
    && row.generation <= row'.generation
    && (Withdrawn(row.state) ==> Withdrawn(row'.state))
    && (row.state == BindingCompromised ==> row'.state == BindingCompromised)
    && (row.generation == row'.generation ==> row'.reference == row.reference)
  }

  ghost predicate RequestsGrow(t: Tables, t': Tables) {
    forall k :: k in t.requests ==> k in t'.requests && RowGrows(t.requests[k], t'.requests[k])
  }

  ghost predicate ReceiptsGrow(t: Tables, t': Tables) {
    forall id :: id in t.receipts ==> id in t'.receipts && t'.receipts[id] == t.receipts[id]
  }

  ghost predicate BindingsGrow(t: Tables, t': Tables) {
    forall k :: k in t.bindings ==> k in t'.bindings && BindingGrows(t.bindings[k], t'.bindings[k])
  }

  ghost predicate Grows(t: Tables, t': Tables) {
    RequestsGrow(t, t') && ReceiptsGrow(t, t') && BindingsGrow(t, t')
  }

  lemma GrowsReflexive(t: Tables)
    ensures Grows(t, t)
  {
  }

  lemma GrowsTransitive(a: Tables, b: Tables, c: Tables)
    requires Grows(a, b) && Grows(b, c)
    ensures Grows(a, c)
  {
  }

  // ----- claims

  lemma RowIsWellFormed(t: Tables, k: RequestKey)
    requires RowsWellFormed(t) && k in t.requests
    ensures RowWellFormed(t, k, t.requests[k])
  {
  }

  ghost predicate Inserts(t: Tables, t': Tables, c: ClaimInput, now: nat) {
    && c.request.key !in t.requests && !DuplicateRequest(t, c.request)
    && t' == t.(requests := t.requests[c.request.key := RowFor(c, now)])
  }

  lemma InsertKeepsLedger(t: Tables, t': Tables, c: ClaimInput, now: nat)
    requires Ledger(t) && Inserts(t, t', c, now)
    ensures Ledger(t') && RequestsGrow(t, t') && ReceiptsGrow(t, t')
  {
    hide RowsWellFormed, ReceiptsWellFormed, UniqueRequests, RequestsGrow;
    InsertKeepsRows(t, t', c, now);
    InsertKeepsReceipts(t, t', c, now);
    InsertKeepsUnique(t, t', c, now);
  }

  lemma InsertKeepsRows(t: Tables, t': Tables, c: ClaimInput, now: nat)
    requires RowsWellFormed(t) && Inserts(t, t', c, now)
    ensures RowsWellFormed(t') && RequestsGrow(t, t')
  {
    forall k | k in t'.requests ensures RowWellFormed(t', k, t'.requests[k]) {
      if k != c.request.key {
        RowIsWellFormed(t, k);
      }
    }
  }

  lemma InsertKeepsReceipts(t: Tables, t': Tables, c: ClaimInput, now: nat)
    requires ReceiptsWellFormed(t) && Inserts(t, t', c, now)
    ensures ReceiptsWellFormed(t')
  {
    forall id | id in t'.receipts ensures ReceiptWellFormed(t', id, t'.receipts[id]) {
      assert ReceiptWellFormed(t, id, t.receipts[id]);
    }
  }

  lemma InsertKeepsUnique(t: Tables, t': Tables, c: ClaimInput, now: nat)
    requires UniqueRequests(t) && Inserts(t, t', c, now)
    ensures UniqueRequests(t')
  {
  }

  lemma SameBindings(t: Tables, t': Tables)
    requires t'.bindings == t.bindings && ReceiptsGrow(t, t')
    ensures BindingsGrow(t, t')
    ensures BindingsWellFormed(t) ==> BindingsWellFormed(t')
    ensures VerifiedIsProved(t) ==> VerifiedIsProved(t')
  {
    if VerifiedIsProved(t) {
      ProofFrame(t, t');
    }
  }

  /** A proof of verification outlives any step that keeps receipts and verifies nothing new. */
  lemma ProofFrame(t: Tables, t': Tables)
    requires VerifiedIsProved(t) && ReceiptsGrow(t, t')
    requires forall k :: k in t'.bindings && t'.bindings[k].state in {VaultVerified, Degraded} ==>
               k in t.bindings && t.bindings[k].state in {VaultVerified, Degraded}
               && t.bindings[k].generation == t'.bindings[k].generation
    ensures VerifiedIsProved(t')
  {
    forall k | k in t'.bindings && t'.bindings[k].state in {VaultVerified, Degraded}
      ensures ProvedVerified(t', k, t'.bindings[k].generation)
    {
      assert ProvedVerified(t, k, t.bindings[k].generation);
      var id :| id in t.receipts && VerificationOf(t.receipts[id], k, t.bindings[k].generation);
      assert VerificationOf(t'.receipts[id], k, t'.bindings[k].generation);
    }
  }

  lemma InsertKeepsInv(t: Tables, t': Tables, c: ClaimInput, now: nat)
    requires Inv(t) && Inserts(t, t', c, now)
    ensures Inv(t') && Grows(t, t')
  {
    hide Ledger, BindingsWellFormed, VerifiedIsProved, RequestsGrow, BindingsGrow, DuplicateRequest;
    InsertKeepsLedger(t, t', c, now);
    SameBindings(t, t');
  }

  lemma {:induction false} ClaimKeepsInv(r: Registry.Registry, t: Tables, c: ClaimInput, now: nat)
    requires Inv(t)
    ensures var (claim, t') := ClaimRequest(r, t, c, now);
            && Inv(t') && Grows(t, t')
            && (claim == Fresh ==> Inserts(t, t', c, now))
            && (claim != Fresh ==> t' == t)
  {
    hide Inv, Grows;
    GrowsReflexive(t);
    if ClaimRequest(r, t, c, now).0 == Fresh {
      InsertKeepsInv(t, ClaimRequest(r, t, c, now).1, c, now);
    }
  }

  // ----- settlement

  ghost predicate Settles(t: Tables, t': Tables, row: RequestRow, response: Response, state: RowState, id: string,
                          hmac: Option<string>, now: nat)
  {
    && row.key in t.requests && t.requests[row.key] == row && row.state == Claimed
    && id !in t.receipts
    && state != Claimed && response.receiptId == Some(id) && ValidResponse(response)
    && (state == Ambiguous <==> IsAmbiguous(response))
    && response.installationId == row.key.installationId && response.requestId == row.requestId
    && response.operation == row.subject.operation
    && t'.requests == t.requests[row.key := SettledRow(row, response, state, id, now)]
    && t'.receipts == t.receipts[id := ReceiptFor(row, response, id, hmac, now)]
  }

  lemma {:induction false} SettlementKeepsLedger(t: Tables, t': Tables, row: RequestRow, response: Response,
                                                 state: RowState, id: string, hmac: Option<string>, now: nat)
    requires Ledger(t) && Settles(t, t', row, response, state, id, hmac, now)
    ensures Ledger(t') && RequestsGrow(t, t') && ReceiptsGrow(t, t')
  {
    hide RowsWellFormed, ReceiptsWellFormed, UniqueRequests, RequestsGrow, ReceiptsGrow, ValidResponse;
    SettlementKeepsRows(t, t', row, response, state, id, hmac, now);
    SettlementKeepsReceipts(t, t', row, response, state, id, hmac, now);
    SettlementKeepsUnique(t, t', row, response, state, id, hmac, now);
  }

  lemma SettlementKeepsRows(t: Tables, t': Tables, row: RequestRow, response: Response, state: RowState, id: string,
                            hmac: Option<string>, now: nat)
    requires RowsWellFormed(t) && Settles(t, t', row, response, state, id, hmac, now)
    ensures RowsWellFormed(t') && RequestsGrow(t, t') && ReceiptsGrow(t, t')
  {
    hide ValidResponse;
    forall k | k in t.requests
      ensures k in t'.requests && RowWellFormed(t', k, t'.requests[k]) && RowGrows(t.requests[k], t'.requests[k])
    {
      RowIsWellFormed(t, k);
      SettledRowWellFormed(t, t', k, row, response, state, id, hmac, now);
    }
    assert t'.requests.Keys == t.requests.Keys;
    hide RowWellFormed, RowGrows;
  }

  lemma SettledRowWellFormed(t: Tables, t': Tables, k: RequestKey, row: RequestRow, response: Response,
                             state: RowState, id: string, hmac: Option<string>, now: nat)
    requires Settles(t, t', row, response, state, id, hmac, now) && k in t.requests
             && RowWellFormed(t, k, t.requests[k])
    ensures k in t'.requests && RowWellFormed(t', k, t'.requests[k]) && RowGrows(t.requests[k], t'.requests[k])
  {
    hide ValidResponse;
  }

  lemma SettlementKeepsReceipts(t: Tables, t': Tables, row: RequestRow, response: Response, state: RowState,
                                id: string, hmac: Option<string>, now: nat)
    requires RowsWellFormed(t) && ReceiptsWellFormed(t) && Settles(t, t', row, response, state, id, hmac, now)
    ensures ReceiptsWellFormed(t')
  {
    hide ValidResponse;
    RowIsWellFormed(t, row.key);
    NewReceiptWellFormed(t, t', row, response, state, id, hmac, now);
    forall i | i in t.receipts ensures i in t'.receipts && ReceiptWellFormed(t', i, t'.receipts[i]) {
      OldReceiptWellFormed(t, t', i, row, response, state, id, hmac, now);
    }
    hide *;
    assert t'.receipts.Keys == t.receipts.Keys + {id};
  }

  lemma NewReceiptWellFormed(t: Tables, t': Tables, row: RequestRow, response: Response, state: RowState, id: string,
                             hmac: Option<string>, now: nat)
    requires Settles(t, t', row, response, state, id, hmac, now)
    ensures ReceiptWellFormed(t', id, t'.receipts[id])
  {
    hide ValidResponse;
  }

  lemma OldReceiptWellFormed(t: Tables, t': Tables, i: string, row: RequestRow, response: Response, state: RowState,
                             id: string, hmac: Option<string>, now: nat)
    requires i in t.receipts && ReceiptWellFormed(t, i, t.receipts[i])
    requires Settles(t, t', row, response, state, id, hmac, now) && RowWellFormed(t, row.key, row)
    ensures i in t'.receipts && ReceiptWellFormed(t', i, t'.receipts[i])
  {
    hide ValidResponse;
  }

  lemma SettlementKeepsUnique(t: Tables, t': Tables, row: RequestRow, response: Response, state: RowState, id: string,
                              hmac: Option<string>, now: nat)
    requires UniqueRequests(t) && Settles(t, t', row, response, state, id, hmac, now)
    ensures UniqueRequests(t')
  {
    hide ValidResponse;
  }

  /** A reply that names a receipt is the response on file for its request. */
  ghost predicate ReplyOnFile(t: Tables, key: RequestKey, reply: Response) {
    reply.receiptId.Some? ==> key in t.requests && t.requests[key].response == Some(reply)
  }

  ghost predicate RowsKeptExcept(t: Tables, t': Tables, key: RequestKey) {
    && t'.requests.Keys == t.requests.Keys
    && forall k :: k in t.requests && k != key ==> t'.requests[k] == t.requests[k]
  }

  /** No step over requests compromises a binding or clears one. */
  ghost predicate SameCompromise(t: Tables, t': Tables) {
    && t'.bindings.Keys == t.bindings.Keys
    && forall k :: k in t.bindings ==>
                     (t'.bindings[k].state == BindingCompromised <==> t.bindings[k].state == BindingCompromised)
  }

  lemma {:induction false} CompletionKeepsInv(t: Tables, key: RequestKey, c: Completion, id: string, now: nat)
    requires Inv(t)
    ensures var result := CompleteRequest(t, key, c, id, now);
            result.Ok? ==>
              var (reply, t') := result.value;
              && Inv(t') && Grows(t, t') && RowsKeptExcept(t, t', key) && SameCompromise(t, t')
              && key in t'.requests && t'.requests[key].response == Some(reply) && t'.requests[key].state != Claimed
              && (t.requests[key].response.Some? ==> t' == t)
  {
    hide Inv, Grows, ValidResponse;
    GrowsReflexive(t);
    var result := CompleteRequest(t, key, c, id, now);
    if result.Ok? {
      AnsweredIsSettled(t, key);
      if t.requests[key].response.None? {
        var (reply, t') := result.value;
        var row := t.requests[key];
        var state := if IsAmbiguous(reply) then Ambiguous else Completed;
        SettlementKeepsInv(t, t', row, reply, state, id, c.versionHmac, now);
        TransitionKeepsCompromise(t, t', row, reply, now);
      }
    }
  }

  lemma AnsweredIsSettled(t: Tables, key: RequestKey)
    requires Inv(t) && key in t.requests
    ensures t.requests[key].response.Some? <==> t.requests[key].state != Claimed
    ensures t.requests[key].key == key
    ensures t.requests[key].response.None? ==> forall id :: id in t.receipts ==> t.receipts[id].key != key
  {
    hide UniqueRequests, BindingsWellFormed, VerifiedIsProved, ValidResponse;
    RowIsWellFormed(t, key);
    forall id | id in t.receipts && t.requests[key].response.None? ensures t.receipts[id].key != key {
      assert ReceiptWellFormed(t, id, t.receipts[id]);
    }
  }

  /** Settlement with or without the binding transition that goes with it. */
  lemma {:induction false} SettlementKeepsInv(t: Tables, t': Tables, row: RequestRow, response: Response,
                                              state: RowState, id: string, hmac: Option<string>, now: nat)
    requires Inv(t) && Settles(t, t', row, response, state, id, hmac, now)
    requires t'.bindings == t.bindings || t'.bindings == ApplyBindingTransition(t.bindings, row, response, now)
    ensures Inv(t') && Grows(t, t')
  {
    hide Ledger, BindingsWellFormed, VerifiedIsProved, RequestsGrow, ReceiptsGrow, BindingsGrow, ApplyBindingTransition;
    SettlementKeepsLedger(t, t', row, response, state, id, hmac, now);
    if t'.bindings == t.bindings {
      SameBindings(t, t');
    } else {
      TransitionKeepsBindings(t, t', row, response, id, hmac, now);
    }
  }

  lemma {:induction false} TransitionKeepsBindings(t: Tables, t': Tables, row: RequestRow, response: Response,
                                                   id: string, hmac: Option<string>, now: nat)
    requires BindingsWellFormed(t) && VerifiedIsProved(t) && ReceiptsGrow(t, t') && ValidResponse(response)
    requires id in t'.receipts && t'.receipts[id] == ReceiptFor(row, response, id, hmac, now)
    requires t'.bindings == ApplyBindingTransition(t.bindings, row, response, now)
    ensures BindingsWellFormed(t') && VerifiedIsProved(t') && BindingsGrow(t, t')
  {
    hide ValidResponse;
    ValidMeansSucceeded(response);
    forall k | k in t'.bindings
      ensures k in t.bindings && BindingWellFormed(k, t'.bindings[k]) && BindingGrows(t.bindings[k], t'.bindings[k])
      ensures t'.bindings[k].state in {VaultVerified, Degraded} ==> ProvedVerified(t', k, t'.bindings[k].generation)
    {
      assert BindingWellFormed(k, t.bindings[k]);
      if t.bindings[k].state in {VaultVerified, Degraded} {
        assert ProvedVerified(t, k, t.bindings[k].generation);
        var i :| i in t.receipts && VerificationOf(t.receipts[i], k, t.bindings[k].generation);
        assert VerificationOf(t'.receipts[i], k, t'.bindings[k].generation);
      } else if t'.bindings[k] != t.bindings[k] {
        assert VerificationOf(t'.receipts[id], k, t'.bindings[k].generation);
      }
    }
  }

  lemma ValidMeansSucceeded(response: Response)
    requires ValidResponse(response)
    ensures response.verdict.failureClass.None? ==> response.outcome == Succeeded
  {
  }

  lemma TransitionKeepsCompromise(t: Tables, t': Tables, row: RequestRow, response: Response, now: nat)
    requires t'.bindings == ApplyBindingTransition(t.bindings, row, response, now)
    ensures SameCompromise(t, t')
  {
  }

  lemma {:induction false} RejectKeepsInv(t: Tables, c: ClaimInput, id: string, now: nat)
    requires Inv(t)
    ensures var result := RejectRequest(t, c, id, now);
            result.Ok? ==>
              var (reply, t') := result.value;
              && Inv(t') && Grows(t, t') && SameCompromise(t, t')
              && c.request.key in t'.requests && t'.requests[c.request.key].response == Some(reply)
  {
    hide Inv, Grows, ValidResponse, DuplicateRequest;
    GrowsReflexive(t);
    var result := RejectRequest(t, c, id, now);
    if result.Ok? && !(c.request.key in t.requests && t.requests[c.request.key].response.Some?) {
      var t0 := if c.request.key in t.requests then t else t.(requests := t.requests[c.request.key := RowFor(c, now)]);
      if c.request.key !in t.requests {
        InsertKeepsInv(t, t0, c, now);
      }
      var (reply, t') := result.value;
      AnsweredIsSettled(t0, c.request.key);
      SettledFailureIsValid(t0.requests[c.request.key], RequestRejected, id, now);
      SettlementKeepsInv(t0, t', t0.requests[c.request.key], reply, Completed, id, None, now);
      GrowsTransitive(t, t0, t');
    }
  }

  lemma SettledFailureIsValid(row: RequestRow, c: FailureClass, id: string, now: nat)
    requires c == RequestRejected || c == ResultAmbiguous
    ensures ValidResponse(ResponseForRow(row, Failed, Failure(c), id, None, [], now))
  {
  }

  // ----- bindings

  lemma {:induction false} AddKeepsInv(r: Registry.Registry, t: Tables, key: BindingKey, reference: string,
                                       labelText: string, capabilityIds: seq<string>)
    requires Inv(t) && CompromiseMatches(r, t)
    ensures var result := AddBinding(r, t, key, reference, labelText, capabilityIds);
            result.Ok? ==> Inv(result.value) && Grows(t, result.value) && CompromiseMatches(r, result.value)
                           && result.value.requests == t.requests && result.value.receipts == t.receipts
  {
    hide RowWellFormed, ReceiptWellFormed, UniqueRequests, ValidEnrollment;
    var result := AddBinding(r, t, key, reference, labelText, capabilityIds);
    if result.Ok? {
      LedgerFrame(t, result.value);
      ProofFrame(t, result.value);
    }
  }

  /** The ledger reads nothing of the bindings. */
  lemma LedgerFrame(t: Tables, t': Tables)
    requires Ledger(t) && t'.requests == t.requests && t'.receipts == t.receipts
    ensures Ledger(t') && RequestsGrow(t, t') && ReceiptsGrow(t, t')
  {
    forall k | k in t'.requests ensures RowWellFormed(t', k, t'.requests[k]) {
      RowIsWellFormed(t, k);
    }
    forall id | id in t'.receipts ensures ReceiptWellFormed(t', id, t'.receipts[id]) {
      assert ReceiptWellFormed(t, id, t.receipts[id]);
    }
  }

  /** A reference opens exactly when its binding is not compromised. */
  lemma ReferenceOpensUnlessCompromised(t: Tables, k: BindingKey)
    requires Inv(t) && k in t.bindings
    ensures OpenReference(k, t.bindings[k]).Some? <==> t.bindings[k].state != BindingCompromised
    ensures t.bindings[k].state != BindingCompromised ==>
              OpenReference(k, t.bindings[k]) == Some(t.bindings[k].reference.value.secret)
  {
    hide Ledger, VerifiedIsProved;
    assert BindingWellFormed(k, t.bindings[k]);
  }

  /** So revocation succeeds exactly on bindings that exist and are not compromised. */
  lemma RevokeKeepsInv(r: Registry.Registry, t: Tables, key: BindingKey, now: nat)
    requires Inv(t) && CompromiseMatches(r, t)
    ensures var result := RevokeBinding(t, key, now);
            && (result.Ok? <==> key in t.bindings && t.bindings[key].state != BindingCompromised)
            && (result.Ok? ==> Inv(result.value) && Grows(t, result.value) && CompromiseMatches(r, result.value)
                               && result.value.requests == t.requests && result.value.receipts == t.receipts)
  {
    hide Ledger, BindingsWellFormed, VerifiedIsProved, RequestsGrow, ReceiptsGrow, BindingsGrow, CompromiseMatches,
         BindingWellFormed;
    var result := RevokeBinding(t, key, now);
    if key in t.bindings {
      ReferenceOpensUnlessCompromised(t, key);
      ReferenceIsSealed(t, key);
    }
    if result.Ok? {
      LedgerFrame(t, result.value);
      RevokedBinding(r, t, key, now);
      ProofFrame(t, result.value);
    }
  }

  lemma ReferenceIsSealed(t: Tables, k: BindingKey)
    requires BindingsWellFormed(t) && k in t.bindings
    ensures t.bindings[k].reference.Some?
  {
  }

  lemma RevokedBinding(r: Registry.Registry, t: Tables, key: BindingKey, now: nat)
    requires BindingsWellFormed(t) && CompromiseMatches(r, t) && RevokeBinding(t, key, now).Ok?
    ensures var t' := RevokeBinding(t, key, now).value;
            BindingsWellFormed(t') && BindingsGrow(t, t') && CompromiseMatches(r, t')
  {
    assert BindingWellFormed(key, t.bindings[key]);
  }

  /** Revoking an installation compromises every one of its bindings, and no other. */
  lemma CompromiseKeepsInv(r: Registry.Registry, t: Tables, id: string)
    requires Inv(t) && CompromiseMatches(r, t) && Registry.RevokeInstallation(r, id).Ok?
    ensures var r' := Registry.RevokeInstallation(r, id).value; var t' := CompromiseBindings(t, id);
            && Inv(t') && Grows(t, t') && CompromiseMatches(r', t')
            && t'.requests == t.requests && t'.receipts == t.receipts
  {
    hide Ledger, VerifiedIsProved, RequestsGrow, ReceiptsGrow;
    var t' := CompromiseBindings(t, id);
    LedgerFrame(t, t');
    ProofFrame(t, t');
  }

  // ----- recovery

  ghost predicate Waiting(t: Tables, rows: seq<RequestRow>) {
    && (forall i ::
          0 <= i < |rows| ==>
            rows[i].key in t.requests && t.requests[rows[i].key] == rows[i] && rows[i].state == Claimed)
    && (forall i, j :: 0 <= i < j < |rows| ==> rows[i].key != rows[j].key)
  }

  ghost predicate FreshIds(t: Tables, ids: seq<string>) {
    && (forall i :: 0 <= i < |ids| ==> ids[i] !in t.receipts)
    && (forall i, j :: 0 <= i < j < |ids| ==> ids[i] != ids[j])
  }

  ghost predicate Listed(rows: seq<RequestRow>, k: RequestKey) {
    exists i :: 0 <= i < |rows| && rows[i].key == k
  }

  /** Listed rows come out ambiguous, the others as they went in. */
  ghost predicate Recovers(t: Tables, t': Tables, rows: seq<RequestRow>) {
    && t'.bindings == t.bindings && t'.requests.Keys == t.requests.Keys
    && forall k :: k in t.requests ==>
         if Listed(rows, k) then t'.requests[k].state == Ambiguous && t'.requests[k].response.Some?
                                 && t'.requests[k].response.value.verdict == Failure(ResultAmbiguous)
         else t'.requests[k] == t.requests[k]
  }

  /** Restart recovery never fails: exactly the interrupted requests are settled, each as ambiguous. */
  lemma {:induction false} RecoveryIsTotal(t: Tables, rows: seq<RequestRow>, ids: seq<string>, now: nat)
    requires Inv(t) && Waiting(t, rows) && FreshIds(t, ids) && |rows| == |ids|
    ensures var result := ReconcileRows(t, rows, ids, now);
            result.Ok? && Inv(result.value) && Grows(t, result.value) && Recovers(t, result.value, rows)
    decreases |rows|
  {
    hide Inv, Grows, ValidResponse;
    GrowsReflexive(t);
    if rows != [] {
      AnsweredIsSettled(t, rows[0].key);
      SettledFailureIsValid(rows[0], ResultAmbiguous, ids[0], now);
      var response := ResponseForRow(rows[0], Failed, Failure(ResultAmbiguous), ids[0], None, [], now);
      var t1 := Settle(t, rows[0], response, Ambiguous, ids[0], None, now).value;
      SettlementKeepsInv(t, t1, rows[0], response, Ambiguous, ids[0], None, now);
      StillWaiting(t, t1, rows, ids);
      RecoveryIsTotal(t1, rows[1..], ids[1..], now);
      var t2 := ReconcileRows(t1, rows[1..], ids[1..], now).value;
      GrowsTransitive(t, t1, t2);
      RecoversOneMore(t, t1, t2, rows);
    }
  }

  lemma StillWaiting(t: Tables, t1: Tables, rows: seq<RequestRow>, ids: seq<string>)
    requires Waiting(t, rows) && FreshIds(t, ids) && |rows| == |ids| > 0
    requires t1.requests.Keys == t.requests.Keys
             && (forall k :: k in t.requests && k != rows[0].key ==> t1.requests[k] == t.requests[k])
    requires t1.receipts.Keys == t.receipts.Keys + {ids[0]}
    ensures Waiting(t1, rows[1..]) && FreshIds(t1, ids[1..])
  {
  }

  lemma RecoversOneMore(t: Tables, t1: Tables, t2: Tables, rows: seq<RequestRow>)
    requires rows != [] && rows[0].key in t.requests && (forall i :: 0 < i < |rows| ==> rows[i].key != rows[0].key)
    requires t1.requests.Keys == t.requests.Keys && t1.bindings == t.bindings
    requires forall k :: k in t.requests && k != rows[0].key ==> t1.requests[k] == t.requests[k]
    requires t1.requests[rows[0].key].state == Ambiguous && t1.requests[rows[0].key].response.Some?
    requires t1.requests[rows[0].key].response.value.verdict == Failure(ResultAmbiguous)
    requires Recovers(t1, t2, rows[1..])
    ensures Recovers(t, t2, rows)
  {
    forall k | k in t.requests
      ensures k == rows[0].key ==> !Listed(rows[1..], k)
      ensures Listed(rows, k) <==> k == rows[0].key || Listed(rows[1..], k)
    {
      if Listed(rows, k) && k != rows[0].key {
        var i :| 0 <= i < |rows| && rows[i].key == k;
        assert rows[1..][i - 1].key == k;
      }
    }
  }
}
