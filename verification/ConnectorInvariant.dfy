/**
 * What every transaction keeps: the ledger invariant of the protected connector tables,
 * and the way tables may grow (nothing is deleted, a settled row is frozen).
 */
module ConnectorInvariant {
  import opened Prelude
  import opened Sealing
  import opened ConnectorProtocol
  import opened ConnectorLedger
  import Registry

  /** A row is claimed with no response and no receipt, or settled with exactly one of each. */
  ghost predicate Settled(row: RequestRow) {
    && row.response.Some? && row.receiptId.Some? && row.completedAt.Some?
    && var response := row.response.value;
    && response.receiptId == row.receiptId
    && ValidResponse(response)
    && (row.state == Ambiguous <==> IsAmbiguous(response))
    && response.installationId == row.key.installationId
    && response.requestId == row.requestId
    && response.operation == row.authority.operation
    && (response.verdict.Succeeded? ==> response.completedAt <= row.deadlineAt)
  }

  ghost predicate RowWellFormed(t: Tables, k: RequestKey, row: RequestRow) {
    && row.key == k
    && row.requestDigest == RequestDigest(RequestFromRow(row))
    && BindingOf(row.key, row.authority) in t.bindings
    && (if row.state == Claimed then row.response.None? && row.receiptId.None?
                                     && row.completedAt.None? else Settled(row))
    && (row.receiptId.Some? ==> row.receiptId.value in t.receipts && t.receipts[row.receiptId.value].key == k)
  }

  ghost predicate ReceiptMatches(receipt: Receipt, row: RequestRow) {
    && row.response.Some?
    && row.completedAt == Some(receipt.completedAt)
    && receipt == ReceiptFor(row, row.response.value, receipt.receiptId, receipt.targetDigest,
                             receipt.connectorVersion, receipt.completedAt)
    && (receipt.verdict.Succeeded? ==> receipt.targetDigest.Some?)
  }

  ghost predicate ReceiptWellFormed(t: Tables, id: string, receipt: Receipt) {
    && receipt.receiptId == id
    && receipt.key in t.requests
    && t.requests[receipt.key].receiptId == Some(id)
    && ReceiptMatches(receipt, t.requests[receipt.key])
  }

  ghost predicate UniqueRequests(t: Tables) {
    forall k, k' :: k in t.requests && k' in t.requests && k != k' && k.installationId == k'.installationId
      ==> t.requests[k].requestId != t.requests[k'].requestId && t.requests[k].nonce != t.requests[k'].nonce
  }

  /** Columns agree with the projection, and the private target and credential open for it. */
  ghost predicate BindingWellFormed(k: BindingKey, row: BindingRow) {
    && ProjectionKey(row.projection) == k
    && ValidProjection(row.projection)
    && row.operation == row.projection.operation
    && row.generation == row.projection.generation
    && row.state == row.projection.state
    && row.target.aad == TargetAad(row.projection)
    && row.targetDigest == TargetDigest(row.target.secret)
    && TargetOperation(row.target.secret) == row.operation
    && (row.operation != BrowserInspect <==> row.credential.Some?)
    && (row.credential.Some? ==>
          row.credential.value.aad == CredentialAad(row.projection) && row.credential.value.secret != "")
  }

  /** A succeeded receipt for this binding at this generation is on file. */
  ghost predicate ProvedActive(t: Tables, k: BindingKey, generation: nat) {
    exists id :: id in t.receipts && SuccessFor(t.receipts[id], k, generation)
  }

  ghost predicate SuccessFor(receipt: Receipt, k: BindingKey, generation: nat) {
    && receipt.verdict.Succeeded?
    && BindingOf(receipt.key, receipt.authority) == k
    && receipt.authority.bindingGeneration == generation
  }

  ghost predicate RowsWellFormed(t: Tables) {
    forall k :: k in t.requests ==> RowWellFormed(t, k, t.requests[k])
  }

  ghost predicate ReceiptsWellFormed(t: Tables) {
    forall id :: id in t.receipts ==> ReceiptWellFormed(t, id, t.receipts[id])
  }

  ghost predicate BindingsWellFormed(t: Tables) {
    forall k :: k in t.bindings ==> BindingWellFormed(k, t.bindings[k])
  }

  ghost predicate ActiveIsProved(t: Tables) {
    forall k :: k in t.bindings && t.bindings[k].state == Active ==> ProvedActive(t, k, t.bindings[k].generation)
  }

  ghost predicate Inv(t: Tables) {
    RowsWellFormed(t) && ReceiptsWellFormed(t) && UniqueRequests(t) && BindingsWellFormed(t) && ActiveIsProved(t)
  }

  // ----- growth

  ghost predicate RowGrows(row: RequestRow, row': RequestRow) {
    && RequestFromRow(row') == RequestFromRow(row)
    && row'.certificate == row.certificate
    && row'.startedAt == row.startedAt
    && (row.state != Claimed ==> row' == row)
  }

  /** Activation is the only change a binding ever sees, and it never revives a withdrawn one. */
  ghost predicate BindingGrows(row: BindingRow, row': BindingRow) {
    && row'.operation == row.operation && row'.generation == row.generation
    && row'.target == row.target && row'.targetDigest == row.targetDigest && row'.credential == row.credential
    && row'.projection == row.projection.(state := row'.projection.state, verifiedAt := row'.projection.verifiedAt)
    && (row'.state != row.state ==> row'.state == Active && row.state !in {BindingRevoked, BindingCompromised, Expired})
  }

  ghost predicate RequestsGrow(t: Tables, t': Tables) {
    forall k :: k in t.requests ==> k in t'.requests && RowGrows(t.requests[k], t'.requests[k])
  }

  ghost predicate ReceiptsGrow(t: Tables, t': Tables) {
    forall id :: id in t.receipts ==> id in t'.receipts && t'.receipts[id] == t.receipts[id]
  }

  ghost predicate BindingsGrow(t: Tables, t': Tables) {
    forall k :: k in t.bindings ==> k in t'.bindings && BindingGrows(t.bindings[k], t'.bindings[k])
  }

  ghost predicate Grows(t: Tables, t': Tables) {
    RequestsGrow(t, t') && ReceiptsGrow(t, t') && BindingsGrow(t, t')
  }

  lemma GrowsReflexive(t: Tables)
    ensures Grows(t, t)
  {
  }

  lemma GrowsTransitive(a: Tables, b: Tables, c: Tables)
    requires Grows(a, b) && Grows(b, c)
    ensures Grows(a, c)
  {
  }

  lemma SameBindings(t: Tables, t': Tables)
    requires t'.bindings == t.bindings
    ensures BindingsGrow(t, t') && (BindingsWellFormed(t) ==> BindingsWellFormed(t'))
  {
  }

  // ----- transactions

  /** Requests and receipts read nothing of a binding but that it exists. */
  lemma LedgerFrame(t: Tables, t': Tables)
    requires RowsWellFormed(t) && ReceiptsWellFormed(t) && UniqueRequests(t)
    requires t'.requests == t.requests && t'.receipts == t.receipts && t.bindings.Keys <= t'.bindings.Keys
    ensures RowsWellFormed(t') && ReceiptsWellFormed(t') && UniqueRequests(t')
  {
    forall k | k in t'.requests ensures RowWellFormed(t', k, t'.requests[k]) {
      assert RowWellFormed(t, k, t.requests[k]);
    }
    forall id | id in t'.receipts ensures ReceiptWellFormed(t', id, t'.receipts[id]) {
      assert ReceiptWellFormed(t, id, t.receipts[id]);
    }
  }

  /** A proof of activity outlives any step that keeps receipts and activates nothing new. */
  lemma ProofFrame(t: Tables, t': Tables)
    requires ActiveIsProved(t)
    requires ReceiptsGrow(t, t')
    requires forall k :: k in t'.bindings && t'.bindings[k].state == Active ==>
               k in t.bindings && t.bindings[k].state == Active && t.bindings[k].generation == t'.bindings[k].generation
    ensures ActiveIsProved(t')
  {
    forall k | k in t'.bindings && t'.bindings[k].state == Active
      ensures ProvedActive(t', k, t'.bindings[k].generation)
    {
      assert ProvedActive(t, k, t.bindings[k].generation);
      var id :| id in t.receipts && SuccessFor(t.receipts[id], k, t.bindings[k].generation);
      assert SuccessFor(t'.receipts[id], k, t'.bindings[k].generation);
    }
  }

  lemma PolicyKeepsInv(r: Registry.Registry, t: Tables, key: PolicyKey, digest: string, operations: seq<Operation>)
    requires Inv(t)
    ensures var result := SetPolicy(r, t, key, digest, operations);
            result.Ok? ==> Inv(result.value) && Grows(t, result.value) && result.value.receipts == t.receipts
                           && result.value.requests == t.requests
  {
    hide RowsWellFormed, ReceiptsWellFormed, UniqueRequests, BindingsWellFormed, BindingsGrow;
    var result := SetPolicy(r, t, key, digest, operations);
    if result.Ok? {
      SameBindings(t, result.value);
      LedgerFrame(t, result.value);
      ProofFrame(t, result.value);
    }
  }

  /** Enrolment adds one binding, and never an active one. */
  lemma {:induction false} BindingInsertKeepsInv(t: Tables, t': Tables, p: Projection, target: Target,
                                                 credential: Option<string>, now: nat)
    requires Inv(t) && p.state != Active && ValidProjection(p) && p.operation == TargetOperation(target)
    requires CredentialFits(target, credential) && ProjectionKey(p) !in t.bindings
    requires t'.bindings == t.bindings[ProjectionKey(p) := NewBinding(p, target, credential, now)]
    requires t'.requests == t.requests && t'.receipts == t.receipts
    ensures Inv(t') && Grows(t, t')
  {
    LedgerFrame(t, t');
    ProofFrame(t, t');
    NewBindingWellFormed(p, target, credential, now);
    BindingInsertGrows(t, t', p, NewBinding(p, target, credential, now));
  }

  lemma NewBindingWellFormed(p: Projection, target: Target, credential: Option<string>, now: nat)
    requires ValidProjection(p) && p.operation == TargetOperation(target) && CredentialFits(target, credential)
    ensures BindingWellFormed(ProjectionKey(p), NewBinding(p, target, credential, now))
  {
  }

  lemma BindingInsertGrows(t: Tables, t': Tables, p: Projection, row: BindingRow)
    requires BindingsWellFormed(t) && ProjectionKey(p) !in t.bindings && BindingWellFormed(ProjectionKey(p), row)
    requires t'.bindings == t.bindings[ProjectionKey(p) := row]
    ensures BindingsWellFormed(t') && BindingsGrow(t, t')
  {
  }

  lemma {:induction false} EnrolmentKeepsInv(r: Registry.Registry, t: Tables, p: Projection, target: Target,
                                             credential: Option<string>, now: nat)
    requires Inv(t)
    ensures var result := EnrollBinding(r, t, p, target, credential, now);
            result.Ok? ==> Inv(result.value) && Grows(t, result.value) && result.value.receipts == t.receipts
                           && result.value.requests == t.requests
  {
    var result := EnrollBinding(r, t, p, target, credential, now);
    if result.Ok? {
      BindingInsertKeepsInv(t, result.value, p, target, credential, now);
    }
  }

  lemma {:induction false} ProtectedEnrolmentKeepsInv(
      r: Registry.Registry, t: Tables, projectId: string, digest: string, operations: seq<Operation>,
      p: Projection, target: Target, credential: Option<string>, now: nat)
    requires Inv(t)
    ensures var result := EnrollProtectedBinding(r, t, projectId, digest, operations, p, target, credential, now);
            result.Ok? ==> Inv(result.value) && Grows(t, result.value) && result.value.receipts == t.receipts
                           && result.value.requests == t.requests
  {
    var result := EnrollProtectedBinding(r, t, projectId, digest, operations, p, target, credential, now);
    if result.Ok? {
      BindingInsertKeepsInv(t, result.value, p, target, credential, now);
    }
  }

  /** Recovery rebuilds exactly the envelope the claim stored. */
  lemma RowRoundTrip(request: Request, certificate: string, now: nat)
    ensures RequestFromRow(RowFor(request, certificate, now)) == request
  {
  }

  lemma {:induction false} ClaimKeepsInv(t: Tables, request: Request, certificate: string, now: nat)
    requires Inv(t)
    ensures var (claim, t') := ClaimRequest(t, request, certificate, now);
            && Inv(t') && Grows(t, t') && t'.receipts == t.receipts && t'.bindings == t.bindings
            && (claim == Fresh <==> request.key !in t.requests && !InsertRefused(t, request))
            && (claim == Fresh ==>
                  request.key in t'.requests && t'.requests[request.key] == RowFor(request, certificate, now))
            && (claim != Fresh ==> t' == t)
  {
    hide RowsWellFormed, ReceiptsWellFormed, UniqueRequests, BindingsWellFormed, ActiveIsProved, RequestsGrow,
         BindingsGrow;
    var (claim, t') := ClaimRequest(t, request, certificate, now);
    GrowsReflexive(t);
    if claim == Fresh {
      SameBindings(t, t');
      ProofFrame(t, t');
      ClaimKeepsRows(t, t', request, certificate, now);
      ClaimKeepsReceipts(t, t', request, certificate, now);
      ClaimKeepsUnique(t, t', request, certificate, now);
    }
  }

  ghost predicate Claims(t: Tables, t': Tables, request: Request, certificate: string, now: nat) {
    && request.key !in t.requests && !InsertRefused(t, request)
    && t' == t.(requests := t.requests[request.key := RowFor(request, certificate, now)])
  }

  lemma ClaimKeepsRows(t: Tables, t': Tables, request: Request, certificate: string, now: nat)
    requires RowsWellFormed(t) && Claims(t, t', request, certificate, now)
    ensures RowsWellFormed(t') && RequestsGrow(t, t')
  {
    RowRoundTrip(request, certificate, now);
    forall k | k in t'.requests ensures RowWellFormed(t', k, t'.requests[k]) {
      if k != request.key {
        assert RowWellFormed(t, k, t.requests[k]);
      }
    }
  }

  lemma ClaimKeepsReceipts(t: Tables, t': Tables, request: Request, certificate: string, now: nat)
    requires ReceiptsWellFormed(t) && Claims(t, t', request, certificate, now)
    ensures ReceiptsWellFormed(t')
  {
    forall id | id in t'.receipts ensures ReceiptWellFormed(t', id, t'.receipts[id]) {
      assert ReceiptWellFormed(t, id, t.receipts[id]);
    }
  }

  lemma ClaimKeepsUnique(t: Tables, t': Tables, request: Request, certificate: string, now: nat)
    requires UniqueRequests(t) && Claims(t, t', request, certificate, now)
    ensures UniqueRequests(t')
  {
  }

  /** Completion of a claimed row, the only transaction that writes a receipt. */
  ghost predicate Settles(t: Tables, t': Tables, request: Request, response: Response,
                          targetDigest: Option<TargetDigest>, version: string, now: nat)
  {
    && request.key in t.requests
    && var row := t.requests[request.key];
    && row.state == Claimed
    && RequestFromRow(row) == request && row.requestDigest == RequestDigest(request)
    && ValidResponse(response)
    && response.installationId == row.key.installationId && response.requestId == row.requestId
    && response.operation == row.authority.operation
    && (response.verdict.Succeeded? ==> targetDigest.Some? && response.completedAt <= request.deadlineAt)
    && response.receiptId.Some?
    && var id := response.receiptId.value;
    && id !in t.receipts
    && t'.requests == t.requests[request.key := SettledRow(row, response, id, now)]
    && t'.receipts == t.receipts[id := ReceiptFor(row, response, id, targetDigest, version, now)]
    && t'.bindings.Keys == t.bindings.Keys
  }

  lemma {:induction false} CompletionKeepsInv(t: Tables, request: Request, response: Response,
                                              targetDigest: Option<TargetDigest>, version: string, now: nat)
    requires Inv(t)
    ensures var result := CompleteRequest(t, request, response, targetDigest, version, now);
            result.Ok? ==>
              var (reply, t') := result.value;
              && Inv(t') && Grows(t, t')
              && if t.requests[request.key].response.Some? then t' == t
                                                                && t.requests[request.key].response == Some(reply)
                 else reply == response && Settles(t, t', request, response, targetDigest, version, now)
  {
    hide Inv, Grows, Settles;
    var result := CompleteRequest(t, request, response, targetDigest, version, now);
    GrowsReflexive(t);
    if result.Ok? && t.requests[request.key].response.None? {
      SettlementKeepsInv(t, request, response, targetDigest, version, now);
    }
  }

  lemma {:induction false} SettlementKeepsInv(t: Tables, request: Request, response: Response,
                                              targetDigest: Option<TargetDigest>, version: string, now: nat)
    requires Inv(t)
    requires CompleteRequest(t, request, response, targetDigest, version, now).Ok?
    requires t.requests[request.key].response.None?
    ensures var t' := CompleteRequest(t, request, response, targetDigest, version, now).value.1;
            Inv(t') && Grows(t, t') && Settles(t, t', request, response, targetDigest, version, now)
  {
    hide RowsWellFormed, ReceiptsWellFormed, UniqueRequests, BindingsWellFormed, ActiveIsProved, RequestsGrow,
         ReceiptsGrow, BindingsGrow;
    var t' := CompleteRequest(t, request, response, targetDigest, version, now).value.1;
    var row := t.requests[request.key];
    RowIsWellFormed(t, request.key);
    SettlementShape(t, request, response, targetDigest, version, now);
    SettlementKeepsRows(t, t', request, response, targetDigest, version, now);
    SettlementKeepsReceipts(t, t', request, response, targetDigest, version, now);
    SettlementKeepsUnique(t, t', request, response, targetDigest, version, now);
    ActivationKeepsBindings(t, t', row, response.receiptId.value, now);
  }

  lemma RowIsWellFormed(t: Tables, k: RequestKey)
    requires RowsWellFormed(t) && k in t.requests
    ensures RowWellFormed(t, k, t.requests[k])
  {
  }

  lemma SettlementShape(t: Tables, request: Request, response: Response, targetDigest: Option<TargetDigest>,
                        version: string, now: nat)
    requires CompleteRequest(t, request, response, targetDigest, version, now).Ok?
    requires t.requests[request.key].response.None?
    requires RowWellFormed(t, request.key, t.requests[request.key])
    ensures Settles(t, CompleteRequest(t, request, response, targetDigest, version, now).value.1, request, response,
                    targetDigest, version, now)
  {
  }

  lemma {:induction false} SettlementKeepsRows(t: Tables, t': Tables, request: Request, response: Response,
                                               targetDigest: Option<TargetDigest>, version: string, now: nat)
    requires RowsWellFormed(t) && Settles(t, t', request, response, targetDigest, version, now)
    ensures RowsWellFormed(t') && RequestsGrow(t, t') && ReceiptsGrow(t, t')
  {
    forall k | k in t.requests
      ensures k in t'.requests && RowWellFormed(t', k, t'.requests[k]) && RowGrows(t.requests[k], t'.requests[k])
    {
      RowIsWellFormed(t, k);
      SettledRowWellFormed(t, t', k, request, response, targetDigest, version, now);
    }
    assert t'.requests.Keys == t.requests.Keys;
    hide RowWellFormed, RowGrows;
  }

  lemma SettledRowWellFormed(t: Tables, t': Tables, k: RequestKey, request: Request, response: Response,
                             targetDigest: Option<TargetDigest>, version: string, now: nat)
    requires Settles(t, t', request, response, targetDigest, version, now) && k in t.requests
             && RowWellFormed(t, k, t.requests[k])
    ensures k in t'.requests && RowWellFormed(t', k, t'.requests[k]) && RowGrows(t.requests[k], t'.requests[k])
  {
  }

  lemma {:induction false} SettlementKeepsReceipts(t: Tables, t': Tables, request: Request, response: Response,
                                                   targetDigest: Option<TargetDigest>, version: string, now: nat)
    requires RowsWellFormed(t) && ReceiptsWellFormed(t) && Settles(t, t', request, response, targetDigest, version, now)
    ensures ReceiptsWellFormed(t')
  {
    RowIsWellFormed(t, request.key);
    NewReceiptWellFormed(t, t', request, response, targetDigest, version, now);
    forall i | i in t.receipts ensures i in t'.receipts && ReceiptWellFormed(t', i, t'.receipts[i]) {
      OldReceiptWellFormed(t, t', i, request, response, targetDigest, version, now);
    }
    hide *;
    assert t'.receipts.Keys == t.receipts.Keys + {response.receiptId.value};
  }

  lemma NewReceiptWellFormed(t: Tables, t': Tables, request: Request, response: Response,
                             targetDigest: Option<TargetDigest>, version: string, now: nat)
    requires Settles(t, t', request, response, targetDigest, version, now)
    ensures ReceiptWellFormed(t', response.receiptId.value, t'.receipts[response.receiptId.value])
  {
  }

  lemma OldReceiptWellFormed(t: Tables, t': Tables, i: string, request: Request, response: Response,
                             targetDigest: Option<TargetDigest>, version: string, now: nat)
    requires i in t.receipts && ReceiptWellFormed(t, i, t.receipts[i])
    requires Settles(t, t', request, response, targetDigest, version, now)
             && RowWellFormed(t, request.key, t.requests[request.key])
    ensures i in t'.receipts && ReceiptWellFormed(t', i, t'.receipts[i])
  {
  }

  lemma SettlementKeepsUnique(t: Tables, t': Tables, request: Request, response: Response,
                              targetDigest: Option<TargetDigest>, version: string, now: nat)
    requires UniqueRequests(t) && Settles(t, t', request, response, targetDigest, version, now)
    ensures UniqueRequests(t')
  {
  }

  lemma ActivationKeepsBindings(t: Tables, t': Tables, row: RequestRow, id: string, now: nat)
    requires Inv(t) && id in t'.receipts
    requires ReceiptsGrow(t, t')
    requires BindingOf(row.key, row.authority) in t.bindings
    requires t'.bindings == t.bindings ||
             (t'.bindings == ProjectBindingActive(t.bindings, row, now)
              && SuccessFor(t'.receipts[id], BindingOf(row.key, row.authority), row.authority.bindingGeneration))
    ensures BindingsWellFormed(t') && BindingsGrow(t, t') && ActiveIsProved(t')
  {
    hide RowsWellFormed, ReceiptsWellFormed, UniqueRequests, BindingWellFormed, ProvedActive, SuccessFor;
    assert t'.bindings.Keys == t.bindings.Keys;
    forall k | k in t.bindings
      ensures BindingWellFormed(k, t'.bindings[k])
              && (t'.bindings[k].state == Active ==> ProvedActive(t', k, t'.bindings[k].generation))
      ensures BindingGrows(t.bindings[k], t'.bindings[k])
    {
      if t'.bindings[k] == t.bindings[k] {
        if t.bindings[k].state == Active {
          StillProved(t, t', k, t.bindings[k].generation);
        }
      } else {
        ActivatedWellFormed(t, t', row, id, now);
      }
    }
  }

  lemma StillProved(t: Tables, t': Tables, k: BindingKey, generation: nat)
    requires ProvedActive(t, k, generation) && ReceiptsGrow(t, t')
    ensures ProvedActive(t', k, generation)
  {
    hide SuccessFor;
  }

  lemma ActivatedWellFormed(t: Tables, t': Tables, row: RequestRow, id: string, now: nat)
    requires var k := BindingOf(row.key, row.authority); k in t.bindings && BindingWellFormed(k, t.bindings[k])
    requires t'.bindings == ProjectBindingActive(t.bindings, row, now) && t'.bindings != t.bindings
    requires id in t'.receipts
             && SuccessFor(t'.receipts[id], BindingOf(row.key, row.authority), row.authority.bindingGeneration)
    ensures var k := BindingOf(row.key, row.authority);
            && k in t'.bindings && BindingWellFormed(k, t'.bindings[k])
            && ProvedActive(t', k, t'.bindings[k].generation)
            && BindingGrows(t.bindings[k], t'.bindings[k])
            && forall other ::
                 other in t.bindings && other != k ==> other in t'.bindings && t'.bindings[other] == t.bindings[other]
  {
    hide SuccessFor;
  }

  lemma StoredOperation(t: Tables, k: BindingKey)
    requires Inv(t) && k in t.bindings
    ensures t.bindings[k].operation == t.bindings[k].projection.operation
  {
    hide RowsWellFormed, ReceiptsWellFormed, UniqueRequests, ActiveIsProved;
    assert BindingWellFormed(k, t.bindings[k]);
  }

  /** In a well-formed table the private target of a binding always opens, as a target of the binding's operation. */
  lemma TargetAlwaysResolves(t: Tables, k: BindingKey)
    requires Inv(t) && k in t.bindings
    ensures var row := t.bindings[k];
            && ResolveTarget(t, row.projection) == Some(row.target.secret)
            && TargetDigest(row.target.secret) == row.targetDigest
            && TargetOperation(row.target.secret) == row.projection.operation
            && ResolveCredential(t, row.projection).Some?
            && (ResolveCredential(t, row.projection).value.Some? <==> row.operation != BrowserInspect)
  {
    assert BindingWellFormed(k, t.bindings[k]);
  }
}
