/**
 * The transactions of the foundation store (`broker/src/store.ts`), each by its cause and column by column: what is
 * turned away and why, what the rows look like afterwards, and that nothing else has moved.
 */
module FoundationTransactions {
  import opened Prelude
  import opened Sealing
  import opened FoundationProtocol
  import Finite
  import JsText
  import Registry
  import I = FoundationInvariant
  import L = FoundationLedger

  /** Only the binding table differs, and there only in the rows of `keys`. */
  ghost predicate OnlyBindings(t: L.Tables, t': L.Tables, keys: set<L.BindingKey>) {
    && t'.requests == t.requests && t'.receipts == t.receipts
    && (forall k :: k !in keys ==> (k in t'.bindings <==> k in t.bindings))
    && (forall k :: k !in keys && k in t.bindings ==> t'.bindings[k] == t.bindings[k])
  }

  // ----- enrolment

  ghost predicate Fits(reference: string, labelText: string, capabilityIds: seq<string>) {
    && |reference| > 0 && |labelText| < 121 && (exists c :: c in labelText && !JsText.IsSpace(c))
    && |capabilityIds| < 9 && forall id :: multiset(capabilityIds)[id] < 2
  }

  predicate Full(t: L.Tables, installationId: string) {
    |set k | k in t.bindings && k.installationId == installationId| >= 100
  }

  /** What stands in the way of a new binding, the first thing first. */
  ghost predicate Refused(r: Registry.Registry, t: L.Tables, key: L.BindingKey, fits: bool, e: L.StoreError) {
    if !fits then e == L.InvalidBinding
    else if !(key.installationId in r.installations && r.installations[key.installationId].state == Registry.Enabled)
      then e == L.InstallationUnavailable
    else if Full(t, key.installationId) then e == L.BindingLimit
    else key in t.bindings && e == L.ConstraintFailed
  }

  lemma {:induction false} LabelExactly(s: string)
    ensures JsText.Blank(s) <==> !exists c :: c in s && !JsText.IsSpace(c)
  {
    hide JsText.IsSpace, JsText.Trim;
    JsText.TrimExactly(s, "");
    if JsText.Spaces(s) {
      assert JsText.Spaces("") && s == s + "" + "";
    }
  }

  lemma {:induction false} FitsExactly(reference: string, labelText: string, capabilityIds: seq<string>)
    ensures L.ValidEnrollment(reference, labelText, capabilityIds) <==> Fits(reference, labelText, capabilityIds)
  {
    hide JsText.Blank, JsText.IsSpace;
    LabelExactly(labelText);
    Finite.DistinctExactly(capabilityIds);
  }

  /**
   * The row of a binding that has just been enrolled: pending, in its first generation, its reference sealed for it.
   */
  predicate Fresh(key: L.BindingKey, row: L.BindingRow, reference: string, labelText: string) {
    && row.labelText == labelText && row.state == Pending && row.generation == 1
    && row.lastVerifiedAt.None? && row.revokedAt.None?
    && row.reference == Some(Sealed(reference, Aad(key.installationId, key.bindingId, 1)))
  }

  lemma {:induction false} AddedByCause(r: Registry.Registry, t: L.Tables, key: L.BindingKey, reference: string,
                                        labelText: string, capabilityIds: seq<string>, e: L.StoreError)
    ensures L.AddBinding(r, t, key, reference, labelText, capabilityIds) == Err(e)
       <==> Refused(r, t, key, Fits(reference, labelText, capabilityIds), e)
    ensures match L.AddBinding(r, t, key, reference, labelText, capabilityIds)
            case Ok(t') =>
              && OnlyBindings(t, t', {key}) && key !in t.bindings && key in t'.bindings
              && Fresh(key, t'.bindings[key], reference, labelText)
            case Err(_) => true
  {
    hide L.ValidEnrollment, Fits;
    FitsExactly(reference, labelText, capabilityIds);
  }

  // ----- revocation

  /** The reference is sealed for this very generation of the binding, if there is one. */
  predicate Readable(key: L.BindingKey, row: L.BindingRow) {
    row.reference.Some? ==> row.reference.value.aad == Aad(key.installationId, key.bindingId, row.generation)
  }

  /** Withdrawn for good under the next generation, with the same secret sealed for it. */
  predicate Withdrawn(key: L.BindingKey, row: L.BindingRow, row': L.BindingRow, now: nat) {
    && row'.state == BindingRevoked && row'.generation == row.generation + 1 && row'.revokedAt == Some(now)
    && row'.labelText == row.labelText && row'.lastVerifiedAt == row.lastVerifiedAt
    && row'.reference.Some? == row.reference.Some?
    && (row.reference.Some? ==>
          row'.reference.value
          == Sealed(row.reference.value.secret, Aad(key.installationId, key.bindingId, row.generation + 1)))
  }

  /** A binding is revoked exactly when it is there and its reference can be read; revoking it again is allowed. */
  lemma {:induction false} RevokedByCause(t: L.Tables, key: L.BindingKey, now: nat)
    ensures L.RevokeBinding(t, key, now) == Err(L.BindingNotFound) <==> key !in t.bindings
    ensures L.RevokeBinding(t, key, now) == Err(L.ReferenceUnreadable)
       <==> key in t.bindings && !Readable(key, t.bindings[key])
    ensures match L.RevokeBinding(t, key, now)
            case Ok(t') =>
              && OnlyBindings(t, t', {key}) && key in t.bindings && key in t'.bindings
              && Withdrawn(key, t.bindings[key], t'.bindings[key], now)
            case Err(_) => key in t.bindings ==> !Readable(key, t.bindings[key])
  {
  }

  /** Revoking an installation moves the generation of each of its bindings and seals nothing anew. */
  lemma {:induction false} CompromisedByCause(t: L.Tables, installationId: string)
    ensures var t' := L.CompromiseBindings(t, installationId);
            && OnlyBindings(t, t', set k | k in t.bindings && k.installationId == installationId)
            && forall k :: k in t.bindings && k.installationId == installationId ==>
                 && k in t'.bindings
                 && var row, row' := t.bindings[k], t'.bindings[k];
                    && row'.state == BindingCompromised && row'.generation == row.generation + 1
                    && row'.reference == row.reference && row'.labelText == row.labelText
                    && row'.lastVerifiedAt == row.lastVerifiedAt && row'.revokedAt == row.revokedAt
  {
  }

  // ----- requests

  /** Timely: not from the future, not past its deadline, and with at most thirty seconds between the two. */
  lemma TimelyExactly(r: Request, now: nat)
    ensures TemporalFailure(r, now)
       <==> !(r.issuedAt <= now + 60_000 && now <= r.deadlineAt && r.issuedAt < r.deadlineAt <= r.issuedAt + 30_000)
    ensures ValidOperationPair(r.subject)
       <==> (r.subject.operation, r.subject.capabilityId) in {(Health, SystemHealth), (Verify, AccessVerify)}
  {
  }

  // ----- claims

  /** Another request of the installation goes by the same request id or the same nonce. */
  predicate Taken(t: L.Tables, request: Request) {
    exists k :: k in t.requests && k.installationId == request.key.installationId
                && (t.requests[k].requestId == request.requestId || t.requests[k].nonce == request.nonce)
  }

  /** Why a claim is or is not fresh. */
  predicate ClaimCause(r: Registry.Registry, t: L.Tables, c: L.ClaimInput, claim: L.Claim) {
    var request := c.request;
    var id := request.key.installationId;
    if !(id in r.installations && r.installations[id].certificate == c.certificate) then claim.DigestMismatch?
    else if request.key in t.requests then
      if t.requests[request.key].requestDigest != c.requestDigest then claim.DigestMismatch?
      else if t.requests[request.key].response.None? then claim.InFlight?
      else claim.Replay? && t.requests[request.key].response.value == claim.response
    else if Taken(t, request) then claim.DigestMismatch?
    else claim.Fresh?
  }

  /** The row waits, and repeats the request column by column. */
  predicate Waits(row: L.RequestRow, c: L.ClaimInput, now: nat) {
    && row.key == c.request.key && row.requestId == c.request.requestId && row.nonce == c.request.nonce
    && row.requestDigest == c.requestDigest && row.subject == c.request.subject && row.turnId == c.request.turnId
    && row.certificate == c.certificate && row.issuedAt == c.request.issuedAt && row.deadlineAt == c.request.deadlineAt
    && row.state == L.Claimed && row.response.None? && row.receiptId.None? && row.completedAt.None?
    && row.startedAt == now
  }

  lemma {:induction false} ClaimedByCause(r: Registry.Registry, t: L.Tables, c: L.ClaimInput, now: nat)
    ensures var (claim, t') := L.ClaimRequest(r, t, c, now);
            && ClaimCause(r, t, c, claim)
            && t'.bindings == t.bindings && t'.receipts == t.receipts
            && t'.requests.Keys == t.requests.Keys + (if claim.Fresh? then {c.request.key} else {})
            && (forall k :: k in t.requests ==> t'.requests[k] == t.requests[k])
            && (claim.Fresh? ==> Waits(t'.requests[c.request.key], c, now))
  {
  }

  // ----- responses

  predicate Unreceiptable(c: FailureClass) {
    c in {ReceiptPersistenceFailed, ResultAmbiguous, BrokerAuthFailed, RequestRejected}
  }

  /** The response matrix read row by row: a success of either operation, or a failure of some class. */
  predicate Lawful(r: Response) {
    var v := r.verdict;
    && |r.bindings| <= 100
    && (forall i, j :: 0 <= i < j < |r.bindings| ==> r.bindings[i].bindingId != r.bindings[j].bindingId)
    && match v.failureClass
       case None =>
         && r.outcome == Succeeded && r.receiptId.Some? && !v.retryable && v.retryAfterMs.None?
         && (if r.operation == Health
             then v.result == Some(Ready) && r.health.Some? && r.health.value.bindingCount == |r.bindings|
             else v.result == Some(Valid) && r.health.None? && |r.bindings| == 0)
       case Some(c) =>
         && r.outcome == Failed && r.health.None? && |r.bindings| == 0
         && (if c == CredentialInvalid then v.result == Some(Invalid) && r.operation == Verify else v.result.None?)
         && (if c in {ProviderRateLimited, ProviderUnavailable}
             then v.retryable && v.retryAfterMs.Some? && 1_000 <= v.retryAfterMs.value <= 300_000
             else !v.retryable && v.retryAfterMs.None?)
         && (if r.receiptId.Some? then c != ReceiptPersistenceFailed else Unreceiptable(c))
  }

  lemma LawfulExactly(r: Response)
    ensures ValidResponse(r) <==> Lawful(r)
  {
  }

  // ----- settlement

  /** The response is for this row, with the verdict of the completion under the drawn receipt. */
  predicate Says(response: Response, row: L.RequestRow, c: L.Completion, receiptId: string, now: nat) {
    && response.installationId == row.key.installationId && response.requestId == row.requestId
    && response.operation == row.subject.operation && response.outcome == c.outcome && response.verdict == c.verdict
    && response.receiptId == Some(receiptId) && response.health == c.health && response.bindings == c.bindings
    && response.completedAt == now
  }

  /** Somebody else has the receipt id, or the row has a receipt already. */
  predicate ReceiptTaken(t: L.Tables, key: RequestKey, receiptId: string) {
    receiptId in t.receipts || exists id :: id in t.receipts && t.receipts[id].key == key
  }

  /** A completion is turned away for want of its row, for what it says, or for its receipt, in this order. */
  lemma {:induction false} CompletedByCause(t: L.Tables, key: RequestKey, c: L.Completion, receiptId: string, now: nat)
    requires key in t.requests ==> t.requests[key].key == key
    ensures match L.CompleteRequest(t, key, c, receiptId, now)
            case Err(e) =>
              if key !in t.requests then e == L.ClaimMissing
              else && t.requests[key].response.None?
                   && exists response :: Says(response, t.requests[key], c, receiptId, now)
                        && if !Lawful(response) then e == L.ResponseInvalid
                           else ReceiptTaken(t, key, receiptId) && e == L.ConstraintFailed
            case Ok((response, t')) =>
              && key in t.requests
              && if t.requests[key].response.Some? then response == t.requests[key].response.value && t' == t
                 else Says(response, t.requests[key], c, receiptId, now) && Lawful(response)
                      && !ReceiptTaken(t, key, receiptId)
  {
    hide ValidResponse, Lawful, L.ApplyBindingTransition;
    if key in t.requests {
      var response := L.ResponseForRow(t.requests[key], c.outcome, c.verdict, receiptId, c.health, c.bindings, now);
      LawfulExactly(response);
      assert Says(response, t.requests[key], c, receiptId, now);
    }
  }

  /** A rejection repeats what is on file, is turned away for one cause, or is on record as a plain rejection. */
  lemma {:induction false} RejectedByCause(t: L.Tables, c: L.ClaimInput, receiptId: string, now: nat)
    requires c.request.key in t.requests ==> t.requests[c.request.key].key == c.request.key
    ensures var key := c.request.key;
            match L.RejectRequest(t, c, receiptId, now)
            case Err(e) =>
              && e == L.ConstraintFailed && (key in t.requests ==> t.requests[key].response.None?)
              && ((key !in t.requests && Taken(t, c.request)) || ReceiptTaken(t, key, receiptId))
            case Ok((response, t')) =>
              if key in t.requests && t.requests[key].response.Some?
              then response == t.requests[key].response.value && t' == t
              else
                && (key in t.requests || !Taken(t, c.request)) && !ReceiptTaken(t, key, receiptId)
                && t'.bindings == t.bindings && key in t'.requests
                && response.verdict == Verdict(None, Some(RequestRejected), false, None) && response.outcome == Failed
                && response.receiptId == Some(receiptId) && t'.requests[key].response == Some(response)
                && response.requestId == t'.requests[key].requestId
                && (key !in t.requests ==>
                      t'.requests[key].subject == c.request.subject && t'.requests[key].nonce == c.request.nonce)
  {
  }

  /** Recovery is undone whole for one cause only: a receipt that is taken. */
  lemma {:induction false} RecoveryRefusedByCause(t: L.Tables, rows: seq<L.RequestRow>, receiptIds: seq<string>,
                                                  now: nat)
    requires |rows| == |receiptIds|
    ensures match L.ReconcileRows(t, rows, receiptIds, now)
            case Err(e) => e == L.ConstraintFailed && rows != []
            case Ok(t') => t'.bindings == t.bindings
    decreases |rows|
  {
    hide L.ResponseForRow;
    if rows != [] {
      var response := L.ResponseForRow(rows[0], Failed, Failure(ResultAmbiguous), receiptIds[0], None, [], now);
      var settled := L.Settle(t, rows[0], response, L.Ambiguous, receiptIds[0], None, now);
      if settled.Ok? {
        RecoveryRefusedByCause(settled.value, rows[1..], receiptIds[1..], now);
      }
    }
  }

  /** The row waits no longer: its request was interrupted, and that is what its one receipt says. */
  ghost predicate RecoveredAs(t': L.Tables, row: L.RequestRow, id: string, now: nat) {
    var verdict := Verdict(None, Some(ResultAmbiguous), false, None);
    && row.key in t'.requests && id in t'.receipts
    && t'.requests[row.key]
       == row.(state := L.Ambiguous, receiptId := Some(id), completedAt := Some(now),
               response := Some(Response(row.key.installationId, row.requestId, row.subject.operation, Failed, verdict,
                                         Some(id), None, [], now)))
    && t'.receipts[id] == L.Receipt(id, row.key, row.requestId, row.subject, row.requestDigest, row.certificate, Failed,
                                    verdict, None, row.startedAt, now)
  }

  lemma {:induction false} FirstIsRecovered(t: L.Tables, rows: seq<L.RequestRow>, ids: seq<string>, now: nat)
    requires I.Inv(t) && I.Waiting(t, rows) && I.FreshIds(t, ids) && |rows| == |ids| > 0
    ensures var response := L.ResponseForRow(rows[0], Failed, Failure(ResultAmbiguous), ids[0], None, [], now);
            var settled := L.Settle(t, rows[0], response, L.Ambiguous, ids[0], None, now);
            && settled.Ok? && I.Inv(settled.value) && RecoveredAs(settled.value, rows[0], ids[0], now)
            && I.Waiting(settled.value, rows[1..]) && I.FreshIds(settled.value, ids[1..])
  {
    hide I.Inv, I.Grows, ValidResponse, I.Waiting, I.FreshIds;
    FirstWaits(t, rows, ids);
    I.AnsweredIsSettled(t, rows[0].key);
    I.SettledFailureIsValid(rows[0], ResultAmbiguous, ids[0], now);
    var response := L.ResponseForRow(rows[0], Failed, Failure(ResultAmbiguous), ids[0], None, [], now);
    var t1 := L.Settle(t, rows[0], response, L.Ambiguous, ids[0], None, now).value;
    I.SettlementKeepsInv(t, t1, rows[0], response, L.Ambiguous, ids[0], None, now);
    I.StillWaiting(t, t1, rows, ids);
  }

  lemma FirstWaits(t: L.Tables, rows: seq<L.RequestRow>, ids: seq<string>)
    requires I.Waiting(t, rows) && I.FreshIds(t, ids) && |rows| == |ids| > 0
    ensures rows[0].key in t.requests && t.requests[rows[0].key] == rows[0] && rows[0].state == L.Claimed
    ensures ids[0] !in t.receipts
  {
  }

  /** A pass over the waiting rows never fails, and recovers each of them under the identifier drawn for it. */
  lemma {:induction false} PassByCause(t: L.Tables, rows: seq<L.RequestRow>, ids: seq<string>, now: nat, i: nat)
    requires I.Inv(t) && I.Waiting(t, rows) && I.FreshIds(t, ids) && |rows| == |ids| && i < |rows|
    ensures L.ReconcileRows(t, rows, ids, now).Ok?
    ensures RecoveredAs(L.ReconcileRows(t, rows, ids, now).value, rows[i], ids[i], now)
    decreases |rows|
  {
    hide I.Inv, I.Grows, I.Waiting, I.FreshIds, I.Recovers, L.Settle, L.ResponseForRow, RecoveredAs;
    FirstIsRecovered(t, rows, ids, now);
    var response := L.ResponseForRow(rows[0], Failed, Failure(ResultAmbiguous), ids[0], None, [], now);
    var t1 := L.Settle(t, rows[0], response, L.Ambiguous, ids[0], None, now).value;
    I.RecoveryIsTotal(t1, rows[1..], ids[1..], now);
    if i == 0 {
      RecoveredForGood(t1, L.ReconcileRows(t1, rows[1..], ids[1..], now).value, rows[0], ids[0], now);
    } else {
      PassByCause(t1, rows[1..], ids[1..], now, i - 1);
    }
  }

  lemma RecoveredForGood(t1: L.Tables, t2: L.Tables, row: L.RequestRow, id: string, now: nat)
    requires RecoveredAs(t1, row, id, now) && I.Grows(t1, t2)
    ensures RecoveredAs(t2, row, id, now)
  {
    hide I.BindingsGrow;
  }
}
