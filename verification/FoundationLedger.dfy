/**
 * The durable tables of the foundation broker and the atomic transactions over them
 * (`broker/src/store.ts`): requests, receipts and vault bindings.
 */
module FoundationLedger {
  import opened Prelude
  import opened Sealing
  import opened FoundationProtocol
  import JsText
  import Registry

  const BINDING_GENERATION_START: nat := 1

  datatype BindingKey = BindingKey(installationId: string, bindingId: string)

  datatype BindingRow = BindingRow(
    reference: Option<Sealed<string>>, labelText: string, state: BindingState, generation: nat,
    lastVerifiedAt: Option<nat>, revokedAt: Option<nat>)

  datatype RowState = Claimed | Completed | Ambiguous

  datatype RequestRow = RequestRow(
    key: RequestKey, requestId: string, nonce: string, requestDigest: RequestDigest, subject: Subject,
    turnId: Option<string>, certificate: string, issuedAt: nat, deadlineAt: nat, state: RowState,
    response: Option<Response>, receiptId: Option<string>, startedAt: nat, completedAt: Option<nat>)

  datatype Receipt = Receipt(
    receiptId: string, key: RequestKey, requestId: string, subject: Subject, requestDigest: RequestDigest,
    certificate: string, outcome: Outcome, verdict: Verdict, versionHmac: Option<string>, startedAt: nat,
    completedAt: nat)

  datatype Tables = Tables(
    bindings: map<BindingKey, BindingRow>, requests: map<RequestKey, RequestRow>, receipts: map<string, Receipt>)

  const EMPTY := Tables(map[], map[], map[])

  datatype StoreError =
    | ClaimMissing | ResponseInvalid | ConstraintFailed | InvalidBinding | InstallationUnavailable | BindingLimit
    | BindingNotFound | ReferenceUnreadable

  // ----- claim

  /** A claim as the operation service submits it. */
  datatype ClaimInput = ClaimInput(request: Request, requestDigest: RequestDigest, certificate: string)

  datatype Claim = Fresh | Replay(response: Response) | InFlight | DigestMismatch

  function RowFor(c: ClaimInput, now: nat): RequestRow {
    var r := c.request;
    RequestRow(r.key, r.requestId, r.nonce, c.requestDigest, r.subject, r.turnId, c.certificate, r.issuedAt,
               r.deadlineAt, Claimed, None, None, now, None)
  }

  predicate DuplicateRequest(t: Tables, request: Request) {
    exists k :: k in t.requests && k.installationId == request.key.installationId
                && (t.requests[k].requestId == request.requestId || t.requests[k].nonce == request.nonce)
  }

  function ClaimRequest(r: Registry.Registry, t: Tables, c: ClaimInput, now: nat): (Claim, Tables) {
    var id := c.request.key.installationId;
    if id !in r.installations || r.installations[id].certificate != c.certificate then (DigestMismatch, t)
    else if c.request.key in t.requests then
      var existing := t.requests[c.request.key];
      if existing.requestDigest != c.requestDigest then (DigestMismatch, t)
      else if existing.response.Some? then (Replay(existing.response.value), t)
      else (InFlight, t)
    else if DuplicateRequest(t, c.request) then (DigestMismatch, t)
    else (Fresh, t.(requests := t.requests[c.request.key := RowFor(c, now)]))
  }

  // ----- settlement

  function ReceiptFor(row: RequestRow, response: Response, receiptId: string, hmac: Option<string>, completedAt: nat)
    : Receipt
  {
    Receipt(receiptId, row.key, row.requestId, row.subject, row.requestDigest, row.certificate,
            response.outcome, response.verdict, hmac, row.startedAt, completedAt)
  }

  predicate ReceiptRefused(t: Tables, row: RequestRow, receiptId: string) {
    receiptId in t.receipts || exists id :: id in t.receipts && t.receipts[id].key == row.key
  }

  function ResponseForRow(row: RequestRow, outcome: Outcome, verdict: Verdict, receiptId: string,
                          health: Option<HealthSnapshot>, bindings: seq<Metadata>, completedAt: nat): Response {
    Response(row.key.installationId, row.requestId, row.subject.operation, outcome, verdict, Some(receiptId), health,
             bindings, completedAt)
  }

  function SettledRow(row: RequestRow, response: Response, state: RowState, receiptId: string, now: nat): RequestRow {
    row.(state := state, response := Some(response), receiptId := Some(receiptId), completedAt := Some(now))
  }

  /** Receipt and row in one transaction. */
  function Settle(t: Tables, row: RequestRow, response: Response, state: RowState, receiptId: string,
                  hmac: Option<string>, now: nat)
    : Result<Tables, StoreError>
  {
    if ReceiptRefused(t, row, receiptId) then Err(ConstraintFailed)
    else Ok(t.(receipts := t.receipts[receiptId := ReceiptFor(row, response, receiptId, hmac, now)],
               requests := t.requests[row.key := SettledRow(row, response, state, receiptId, now)]))
  }

  function BindingAfter(binding: BindingRow, row: RequestRow, response: Response, completedAt: nat): BindingRow {
    if row.subject.bindingGeneration != Some(binding.generation) then binding
    else if response.verdict.result == Some(Valid) && response.verdict.failureClass.None? then
      if binding.state in {Pending, Degraded}
      then binding.(state := VaultVerified, lastVerifiedAt := Some(completedAt)) else binding
    else if response.verdict.result == Some(Invalid) && response.verdict.failureClass == Some(CredentialInvalid) then
      if binding.state == VaultVerified then binding.(state := Degraded) else binding
    else binding
  }

  function ApplyBindingTransition(bindings: map<BindingKey, BindingRow>, row: RequestRow, response: Response,
                                  completedAt: nat)
    : map<BindingKey, BindingRow>
  {
    if row.subject.operation != Verify || row.subject.bindingId.None? then bindings
    else
      var key := BindingKey(row.key.installationId, row.subject.bindingId.value);
      if key !in bindings then bindings else bindings[key := BindingAfter(bindings[key], row, response, completedAt)]
  }

  /** What the service knows of an answer before it has a receipt. */
  datatype Completion = Completion(
    outcome: Outcome, verdict: Verdict, health: Option<HealthSnapshot>, bindings: seq<Metadata>,
    versionHmac: Option<string>)

  function CompleteRequest(t: Tables, key: RequestKey, c: Completion, receiptId: string, now: nat)
    : Result<(Response, Tables), StoreError>
  {
    if key !in t.requests then Err(ClaimMissing)
    else
      var row := t.requests[key];
      if row.response.Some? then Ok((row.response.value, t))
      else
        var response := ResponseForRow(row, c.outcome, c.verdict, receiptId, c.health, c.bindings, now);
        if !ValidResponse(response) then Err(ResponseInvalid)
        else
          match Settle(t, row, response,
                       if IsAmbiguous(response) then Ambiguous else Completed, receiptId, c.versionHmac, now)
          case Err(e) => Err(e)
          case Ok(t') => Ok((response, t'.(bindings := ApplyBindingTransition(t.bindings, row, response, now))))
  }

  function RejectRequest(t: Tables, c: ClaimInput, receiptId: string, now: nat): Result<(Response, Tables), StoreError>
  {
    if c.request.key in t.requests && t.requests[c.request.key].response.Some?
      then Ok((t.requests[c.request.key].response.value, t))
    else if c.request.key !in t.requests && DuplicateRequest(t, c.request) then Err(ConstraintFailed)
    else
      var t0 := if c.request.key in t.requests then t else t.(requests := t.requests[c.request.key := RowFor(c, now)]);
      var row := t0.requests[c.request.key];
      var response := ResponseForRow(row, Failed, Failure(RequestRejected), receiptId, None, [], now);
      match Settle(t0, row, response, Completed, receiptId, None, now)
      case Err(e) => Err(e)
      case Ok(t') => Ok((response, t'))
  }

  /** All interrupted rows in one transaction: a refused receipt abandons the whole pass. */
  function ReconcileRows(t: Tables, rows: seq<RequestRow>, receiptIds: seq<string>, now: nat)
    : Result<Tables, StoreError>
    requires |rows| == |receiptIds|
    decreases |rows|
  {
    if rows == [] then Ok(t)
    else
      var response := ResponseForRow(rows[0], Failed, Failure(ResultAmbiguous), receiptIds[0], None, [], now);
      match Settle(t, rows[0], response, Ambiguous, receiptIds[0], None, now)
      case Err(e) => Err(e)
      case Ok(t') => ReconcileRows(t', rows[1..], receiptIds[1..], now)
  }

  /** `SELECT * ... WHERE state = 'claimed' ORDER BY started_at` */
  ghost predicate SelectsClaimed(t: Tables, rows: seq<RequestRow>) {
    && (forall i ::
          0 <= i < |rows| ==>
            rows[i].key in t.requests && t.requests[rows[i].key] == rows[i] && rows[i].state == Claimed)
    && (forall i, j :: 0 <= i < j < |rows| ==> rows[i].key != rows[j].key && rows[i].startedAt <= rows[j].startedAt)
    && (forall k :: k in t.requests && t.requests[k].state == Claimed ==> t.requests[k] in rows)
  }

  // ----- bindings

  predicate Withdrawn(s: BindingState) { s == BindingRevoked || s == BindingCompromised }

  function BindingAad(key: BindingKey, generation: nat): Aad { Aad(key.installationId, key.bindingId, generation) }

  /** `decryptBindingReference`: the sealed reference opens under the row's own generation, or not at all. */
  function OpenReference(key: BindingKey, row: BindingRow): Option<string> {
    if row.reference.None? then None else Open(row.reference.value, BindingAad(key, row.generation))
  }

  function InstallationBindings(t: Tables, installationId: string): set<BindingKey> {
    set k | k in t.bindings && k.installationId == installationId
  }

  predicate ValidEnrollment(reference: string, labelText: string, capabilityIds: seq<string>) {
    && reference != "" && !JsText.Blank(labelText) && |labelText| <= 120
    && |capabilityIds| <= 8 && forall i, j :: 0 <= i < j < |capabilityIds| ==> capabilityIds[i] != capabilityIds[j]
  }

  function AddBinding(r: Registry.Registry, t: Tables, key: BindingKey, reference: string, labelText: string,
                      capabilityIds: seq<string>)
    : Result<Tables, StoreError>
  {
    if !ValidEnrollment(reference, labelText, capabilityIds) then Err(InvalidBinding)
    else if !Registry.InstallationEnabled(r, key.installationId) then Err(InstallationUnavailable)
    else if |InstallationBindings(t, key.installationId)| >= BROKER_MAX_BINDINGS then Err(BindingLimit)
    else if key in t.bindings then Err(ConstraintFailed)
    else
      var row := BindingRow(Some(Sealed(reference, BindingAad(key, BINDING_GENERATION_START))), labelText, Pending,
                            BINDING_GENERATION_START, None, None);
      Ok(t.(bindings := t.bindings[key := row]))
  }

  /** Revocation re-seals the reference under the next generation, so it needs to open it first. */
  function RevokeBinding(t: Tables, key: BindingKey, now: nat): Result<Tables, StoreError> {
    if key !in t.bindings then Err(BindingNotFound)
    else
      var row := t.bindings[key];
      var secret := OpenReference(key, row);
      if row.reference.Some? && secret.None? then Err(ReferenceUnreadable)
      else
        var reference := if secret.Some? then Some(Sealed(secret.value, BindingAad(key, row.generation + 1))) else None;
        Ok(t.(bindings := t.bindings[key := row.(reference := reference, state := BindingRevoked,
                                                 generation := row.generation + 1, revokedAt := Some(now))]))
  }

  /** The binding half of `revokeInstallation`: every generation moves, no reference is re-sealed. */
  function CompromiseBindings(t: Tables, installationId: string): Tables {
    t.(bindings := map k | k in t.bindings ::
         if k.installationId == installationId
         then t.bindings[k].(state := BindingCompromised, generation := t.bindings[k].generation + 1)
         else t.bindings[k])
  }
}
