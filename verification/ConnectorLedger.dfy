/**
 * The durable tables of the protected connector and the atomic transactions over them
 * (`broker/src/connector-store.ts`). Each transaction is a function from tables to tables;
 * the class in ConnectorStore.dfy performs them in place.
 */
module ConnectorLedger {
  import opened Prelude
  import opened Sealing
  import opened ConnectorProtocol
  import Registry

  datatype PolicyKey = PolicyKey(installationId: string, projectId: string)

  datatype Policy = Policy(policyDigest: string, enabledOperations: seq<Operation>)

  datatype BindingKey = BindingKey(installationId: string, bindingId: string)

  datatype BindingRow = BindingRow(
    operation: Operation, generation: nat, state: BindingState, projection: Projection,
    target: Sealed<Target>, targetDigest: TargetDigest, credential: Option<Sealed<string>>, updatedAt: nat)

  datatype RowState = Claimed | Completed | Ambiguous

  datatype RequestRow = RequestRow(
    key: RequestKey, requestId: string, nonce: string, requestDigest: RequestDigest, authority: Authority,
    certificate: string, issuedAt: nat, deadlineAt: nat, state: RowState, response: Option<Response>,
    receiptId: Option<string>, startedAt: nat, completedAt: Option<nat>)

  datatype Receipt = Receipt(
    receiptId: string, key: RequestKey, requestId: string, authority: Authority, requestDigest: RequestDigest,
    certificate: string, targetDigest: Option<TargetDigest>, verdict: Verdict, responseDigest: ResponseDigest,
    connectorVersion: string, startedAt: nat, completedAt: nat)

  datatype Tables = Tables(
    policies: map<PolicyKey, Policy>, bindings: map<BindingKey, BindingRow>,
    requests: map<RequestKey, RequestRow>, receipts: map<string, Receipt>)

  const EMPTY := Tables(map[], map[], map[], map[])

  datatype StoreError =
    | PolicyInvalid | BindingActiveRequiresReceipt | BindingInvalid | InstallationUnavailable
    | ResponseInvalid | ClaimMissing | RequestDigestMismatch | ResponseIdentityMismatch | ReceiptMissing
    | ConstraintFailed

  // ----- policy and enrolment

  predicate ValidPolicy(digest: string, operations: seq<Operation>) {
    && Registry.IsHexDigest(digest)
    && operations != []
    && forall i, j :: 0 <= i < j < |operations| ==> operations[i] != operations[j]
  }

  function SetPolicy(r: Registry.Registry, t: Tables, key: PolicyKey, digest: string, operations: seq<Operation>)
    : Result<Tables, StoreError>
  {
    if !ValidPolicy(digest, operations) then Err(PolicyInvalid)
    else if !Registry.InstallationEnabled(r, key.installationId) then Err(InstallationUnavailable)
    else Ok(t.(policies := t.policies[key := Policy(digest, operations)]))
  }

  function TargetAad(p: Projection): Aad { Aad(p.installationId, p.bindingId + ":target", p.generation) }

  function CredentialAad(p: Projection): Aad { Aad(p.installationId, p.bindingId + ":credential", p.generation) }

  function ProjectionKey(p: Projection): BindingKey { BindingKey(p.installationId, p.bindingId) }

  predicate CredentialFits(target: Target, credential: Option<string>) {
    (TargetOperation(target) != BrowserInspect) == (credential.Some? && credential.value != "")
  }

  function NewBinding(p: Projection, target: Target, credential: Option<string>, now: nat): BindingRow {
    BindingRow(p.operation, p.generation, p.state, p, Sealed(target, TargetAad(p)), TargetDigest(target),
               if credential.Some? && TargetOperation(target) != BrowserInspect
               then Some(Sealed(credential.value, CredentialAad(p))) else None, now)
  }

  function EnrollBinding(r: Registry.Registry, t: Tables, p: Projection, target: Target, credential: Option<string>,
                         now: nat)
    : Result<Tables, StoreError>
  {
    if p.state == Active then Err(BindingActiveRequiresReceipt)
    else if !ValidProjection(p) || p.operation != TargetOperation(target) then Err(BindingInvalid)
    else if !CredentialFits(target, credential) then Err(BindingInvalid)
    else if !Registry.InstallationEnabled(r, p.installationId) then Err(InstallationUnavailable)
    else if ProjectionKey(p) in t.bindings then Err(ConstraintFailed)
    else Ok(t.(bindings := t.bindings[ProjectionKey(p) := NewBinding(p, target, credential, now)]))
  }

  /** Policy and binding in one transaction: a refused binding leaves the policy untouched. */
  function EnrollProtectedBinding(
      r: Registry.Registry, t: Tables, projectId: string, digest: string, operations: seq<Operation>,
      p: Projection, target: Target, credential: Option<string>, now: nat): Result<Tables, StoreError>
  {
    if !ValidPolicy(digest, operations) then Err(PolicyInvalid)
    else if !ValidProjection(p) || p.operation != TargetOperation(target) || p.state == Active then Err(BindingInvalid)
    else if !CredentialFits(target, credential) then Err(BindingInvalid)
    else if !Registry.InstallationEnabled(r, p.installationId) then Err(InstallationUnavailable)
    else if p.operation !in operations then Err(PolicyInvalid)
    else if ProjectionKey(p) in t.bindings then Err(ConstraintFailed)
    else Ok(t.(policies := t.policies[PolicyKey(p.installationId, projectId) := Policy(digest, operations)],
               bindings := t.bindings[ProjectionKey(p) := NewBinding(p, target, credential, now)]))
  }

  // ----- private targets

  function ResolveTarget(t: Tables, p: Projection): Option<Target> {
    if ProjectionKey(p) !in t.bindings || t.bindings[ProjectionKey(p)].generation != p.generation then None
    else
      var row := t.bindings[ProjectionKey(p)];
      match Open(row.target, TargetAad(p))
      case Some(target) => if TargetDigest(target) == row.targetDigest then Some(target) else None
      case None => None
  }

  /** None is a failure; Some(None) is a binding that has no credential. */
  function ResolveCredential(t: Tables, p: Projection): Option<Option<string>> {
    if ProjectionKey(p) !in t.bindings || t.bindings[ProjectionKey(p)].generation != p.generation then None
    else match t.bindings[ProjectionKey(p)].credential
      case None => Some(None)
      case Some(sealed) =>
        match Open(sealed, CredentialAad(p))
        case Some(secret) => Some(Some(secret))
        case None => None
  }

  // ----- claim

  datatype Claim = Fresh | Replay(response: Response) | InFlight | DigestMismatch

  function BindingOf(key: RequestKey, authority: Authority): BindingKey {
    BindingKey(key.installationId, authority.bindingId)
  }

  function RowFor(request: Request, certificate: string, now: nat): RequestRow {
    RequestRow(
      request.key, request.requestId, request.nonce, RequestDigest(request), request.authority, certificate,
      request.issuedAt, request.deadlineAt, Claimed, None, None, now, None)
  }

  function RequestFromRow(row: RequestRow): Request {
    Request(row.key, row.requestId, row.nonce, row.authority, row.issuedAt, row.deadlineAt)
  }

  /**
   * UNIQUE (installation, request id), UNIQUE (installation, nonce), the foreign key to the binding, and the CHECKs.
   */
  predicate InsertRefused(t: Tables, request: Request) {
    || (exists k :: k in t.requests && k.installationId == request.key.installationId
                    && (t.requests[k].requestId == request.requestId || t.requests[k].nonce == request.nonce))
    || BindingOf(request.key, request.authority) !in t.bindings
    || request.authority.bindingGeneration < 1
    || request.authority.fenceGeneration < 1
  }

  function ClaimRequest(t: Tables, request: Request, certificate: string, now: nat): (Claim, Tables) {
    if request.key in t.requests then
      var existing := t.requests[request.key];
      if existing.requestDigest != RequestDigest(request) then (DigestMismatch, t)
      else if existing.response.Some? then (Replay(existing.response.value), t)
      else (InFlight, t)
    else if InsertRefused(t, request) then (DigestMismatch, t)
    else (Fresh, t.(requests := t.requests[request.key := RowFor(request, certificate, now)]))
  }

  // ----- completion

  function ReceiptFor(row: RequestRow, response: Response, receiptId: string, targetDigest: Option<TargetDigest>,
                      version: string, now: nat): Receipt {
    Receipt(
      receiptId, row.key, row.requestId, row.authority, row.requestDigest, row.certificate, targetDigest,
      response.verdict, ResponseDigest(response), version, row.startedAt, now)
  }

  predicate ReceiptRefused(t: Tables, row: RequestRow, receiptId: string) {
    receiptId in t.receipts || exists id :: id in t.receipts && t.receipts[id].key == row.key
  }

  function ProjectBindingActive(bindings: map<BindingKey, BindingRow>, row: RequestRow, now: nat)
    : map<BindingKey, BindingRow>
  {
    var key := BindingOf(row.key, row.authority);
    if key !in bindings || bindings[key].generation != row.authority.bindingGeneration then bindings
    else
      var current := bindings[key].projection;
      if current.state in {BindingRevoked, BindingCompromised, Expired} then bindings
      else bindings[key := bindings[key].(state := Active, updatedAt := now,
                                          projection := current.(state := Active, verifiedAt := Some(now)))]
  }

  function SettledRow(row: RequestRow, response: Response, receiptId: string, now: nat): RequestRow {
    row.(state := if IsAmbiguous(response) then Ambiguous else Completed,
         response := Some(response), receiptId := Some(receiptId), completedAt := Some(now))
  }

  function CompleteRequest(t: Tables, request: Request, response: Response, targetDigest: Option<TargetDigest>,
                           version: string, now: nat): Result<(Response, Tables), StoreError> {
    var key := request.key;
    if !ValidResponse(response) || !IsVersion(version) then Err(ResponseInvalid)
    else if key !in t.requests then Err(ClaimMissing)
    else
      var row := t.requests[key];
      if row.requestDigest != RequestDigest(request) then Err(RequestDigestMismatch)
      else if response.installationId != row.key.installationId || response.requestId != row.requestId
              || response.operation != row.authority.operation
              || (response.verdict.Succeeded? && (targetDigest.None? || response.completedAt > row.deadlineAt))
        then Err(ResponseIdentityMismatch)
      else if row.response.Some? then Ok((row.response.value, t))
      else if response.receiptId.None? then Err(ReceiptMissing)
      else if ReceiptRefused(t, row, response.receiptId.value) then Err(ConstraintFailed)
      else
        var receiptId := response.receiptId.value;
        Ok((response, t.(
          receipts := t.receipts[receiptId := ReceiptFor(row, response, receiptId, targetDigest, version, now)],
          bindings := if response.verdict.Succeeded? then ProjectBindingActive(t.bindings, row, now) else t.bindings,
          requests := t.requests[key := SettledRow(row, response, receiptId, now)])))
  }

  // ----- restart recovery

  const RECONCILER_VERSION := "reconciler-1"

  function InterruptedResponse(row: RequestRow, receiptId: string, now: nat): Response {
    Response(row.key.installationId, row.requestId, row.authority.operation, Failed(ResultAmbiguous, false, None),
             Some(receiptId), now)
  }

  /** One iteration of the recovery loop, a transaction of its own. A row without a binding is skipped. */
  function ReconcileRow(t: Tables, row: RequestRow, receiptId: string, now: nat): Result<Tables, StoreError> {
    var key := BindingOf(row.key, row.authority);
    if key !in t.bindings then Ok(t)
    else
      match CompleteRequest(t, RequestFromRow(row), InterruptedResponse(row, receiptId, now),
                            Some(t.bindings[key].targetDigest), RECONCILER_VERSION, now)
      case Ok(pair) => Ok(pair.1)
      case Err(e) => Err(e)
  }

  /** The loop over the rows selected at the start; an exception abandons the rest. */
  function ReconcileRows(t: Tables, rows: seq<RequestRow>, receiptIds: seq<string>, now: nat)
    : Result<Tables, StoreError>
    requires |rows| == |receiptIds|
    decreases |rows|
  {
    if rows == [] then Ok(t)
    else match ReconcileRow(t, rows[0], receiptIds[0], now)
      case Ok(t') => ReconcileRows(t', rows[1..], receiptIds[1..], now)
      case Err(e) => Err(e)
  }

  /** `SELECT * ... WHERE state = 'claimed' ORDER BY started_at` */
  ghost predicate SelectsClaimed(t: Tables, rows: seq<RequestRow>) {
    && (forall i ::
          0 <= i < |rows| ==>
            rows[i].key in t.requests && t.requests[rows[i].key] == rows[i] && rows[i].state == Claimed)
    && (forall i, j :: 0 <= i < j < |rows| ==> rows[i].key != rows[j].key && rows[i].startedAt <= rows[j].startedAt)
    && (forall k :: k in t.requests && t.requests[k].state == Claimed ==> t.requests[k] in rows)
  }
}
