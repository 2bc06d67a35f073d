/**
 * `BrokerProtectedConnectorStore` of `broker/src/connector-store.ts`, over the shared tables in
 * place. Each method is proved to do what its ledger function says and touches no other table;
 * an exception is an `Err` with the tables as the call found them.
 */
module ConnectorStore {
  import opened Prelude
  import opened Sealing
  import opened ConnectorProtocol
  import opened ConnectorLedger
  import opened BrokerDatabase
  import ConnectorInvariant
  import Registry

  /** How many of the rows still have their binding, which is how many the recovery loop counts. */
  function Bound(bindings: map<BindingKey, BindingRow>, rows: seq<RequestRow>): nat {
    if rows == [] then 0
    else (if BindingOf(rows[0].key, rows[0].authority) in bindings then 1 else 0) + Bound(bindings, rows[1..])
  }

  class BrokerProtectedConnectorStore {
    const db: Database

    constructor (db: Database)
      ensures this.db == db
    {
      this.db := db;
    }

    // ----- policy and enrolment

    method AssertActiveInstallation(installationId: string) returns (active: bool)
      ensures active == Registry.InstallationEnabled(db.Registered(), installationId)
    {
      return installationId in db.installations && db.installations[installationId].state == Registry.Enabled;
    }

    method SetPolicy(key: PolicyKey, digest: string, operations: seq<Operation>) returns (error: Option<StoreError>)
      modifies db`connectorPolicies
      ensures match ConnectorLedger.SetPolicy(db.Registered(), old(db.Connector()), key, digest, operations)
              case Ok(t) => error == None && db.Connector() == t
              case Err(e) => error == Some(e) && db.Connector() == old(db.Connector())
    {
      hide ValidPolicy;
      if !ValidPolicy(digest, operations) {
        return Some(PolicyInvalid);
      }
      var active := AssertActiveInstallation(key.installationId);
      if !active {
        return Some(InstallationUnavailable);
      }
      db.connectorPolicies := db.connectorPolicies[key := Policy(digest, operations)];
      return None;
    }

    method EnrollBinding(p: Projection, target: Target, credential: Option<string>, now: nat)
      returns (error: Option<StoreError>)
      modifies db`connectorBindings
      ensures match ConnectorLedger.EnrollBinding(db.Registered(), old(db.Connector()), p, target, credential, now)
              case Ok(t) => error == None && db.Connector() == t
              case Err(e) => error == Some(e) && db.Connector() == old(db.Connector())
    {
      hide ValidProjection;
      if p.state == Active {
        return Some(BindingActiveRequiresReceipt);
      }
      var requiresCredential := TargetOperation(target) != BrowserInspect;
      if !ValidProjection(p) || p.operation != TargetOperation(target) {
        return Some(BindingInvalid);
      }
      if requiresCredential != (credential.Some? && credential.value != "") {
        return Some(BindingInvalid);
      }
      var active := AssertActiveInstallation(p.installationId);
      if !active {
        return Some(InstallationUnavailable);
      }
      var inserted := InsertBinding(p, target, credential, now);
      return if inserted then None else Some(StoreError.ConstraintFailed);
    }

    /** The INSERT of an enrolment, with both private values sealed under the projection's generation. */
    method InsertBinding(p: Projection, target: Target, credential: Option<string>, now: nat) returns (inserted: bool)
      requires CredentialFits(target, credential)
      modifies db`connectorBindings
      ensures inserted == (ProjectionKey(p) !in old(db.connectorBindings))
      ensures db.connectorBindings
              == if inserted then old(db.connectorBindings)[ProjectionKey(p) := NewBinding(p, target, credential, now)]
                                      else old(db.connectorBindings)
    {
      var key := BindingKey(p.installationId, p.bindingId);
      if key in db.connectorBindings {
        return false;
      }
      var sealedTarget := Sealed(target, Aad(p.installationId, p.bindingId + ":target", p.generation));
      var sealedCredential := None;
      if TargetOperation(target) != BrowserInspect {
        sealedCredential := Some(Sealed(credential.value,
                                        Aad(p.installationId, p.bindingId + ":credential", p.generation)));
      }
      db.connectorBindings := db.connectorBindings[key := BindingRow(
        p.operation, p.generation, p.state, p, sealedTarget, TargetDigest(target), sealedCredential, now)];
      return true;
    }

    /** Policy, then binding: when the binding is refused the policy is put back. */
    method EnrollProtectedBinding(projectId: string, digest: string, operations: seq<Operation>,
                                  p: Projection, target: Target, credential: Option<string>, now: nat)
      returns (error: Option<StoreError>)
      modifies db`connectorPolicies, db`connectorBindings
      ensures match ConnectorLedger.EnrollProtectedBinding(db.Registered(), old(db.Connector()), projectId, digest,
                                                           operations, p, target, credential, now)
              case Ok(t) => error == None && db.Connector() == t
              case Err(e) => error == Some(e) && db.Connector() == old(db.Connector())
    {
      hide ValidProjection, ValidPolicy, NewBinding;
      if !ValidPolicy(digest, operations) {
        return Some(PolicyInvalid);
      }
      if !ValidProjection(p) || p.operation != TargetOperation(target) || p.state == Active {
        return Some(BindingInvalid);
      }
      if (TargetOperation(target) != BrowserInspect) != (credential.Some? && credential.value != "") {
        return Some(BindingInvalid);
      }
      var active := AssertActiveInstallation(p.installationId);
      if !active {
        return Some(InstallationUnavailable);
      }
      if p.operation !in operations {
        return Some(PolicyInvalid);
      }
      var policiesBefore := db.connectorPolicies;
      var policyKey := PolicyKey(p.installationId, projectId);
      db.connectorPolicies := db.connectorPolicies[policyKey := Policy(digest, operations)];
      var inserted := InsertBinding(p, target, credential, now);
      if !inserted {
        db.connectorPolicies := policiesBefore;
        return Some(StoreError.ConstraintFailed);
      }
      return None;
    }

    // ----- private targets

    /** The projection is the one on file for its binding. */
    predicate Stored(p: Projection)
      reads this, db
    {
      ProjectionKey(p) in db.connectorBindings && db.connectorBindings[ProjectionKey(p)].projection == p
    }

    lemma StoredResolves(p: Projection)
      ensures ConnectorInvariant.Inv(db.Connector()) && Stored(p) ==>
                var target := ConnectorLedger.ResolveTarget(db.Connector(), p);
                var credential := ConnectorLedger.ResolveCredential(db.Connector(), p);
                && target.Some? && TargetDigest(target.value) == db.connectorBindings[ProjectionKey(p)].targetDigest
                && TargetOperation(target.value) == p.operation
                && credential.Some? && (credential.value.Some? <==> p.operation != BrowserInspect)
    {
      hide ConnectorInvariant.Inv, ConnectorLedger.ResolveTarget, ConnectorLedger.ResolveCredential;
      if ConnectorInvariant.Inv(db.Connector()) && Stored(p) {
        ConnectorInvariant.TargetAlwaysResolves(db.Connector(), ProjectionKey(p));
        ConnectorInvariant.StoredOperation(db.Connector(), ProjectionKey(p));
      }
    }

    method ResolveTarget(p: Projection) returns (target: Option<Target>)
      ensures target == ConnectorLedger.ResolveTarget(db.Connector(), p)
      ensures ConnectorInvariant.Inv(db.Connector()) && Stored(p) ==>
                target.Some? && TargetDigest(target.value) == db.connectorBindings[ProjectionKey(p)].targetDigest
                && TargetOperation(target.value) == p.operation
    {
      StoredResolves(p);
      var key := ProjectionKey(p);
      if key !in db.connectorBindings || db.connectorBindings[key].generation != p.generation {
        return None;
      }
      var row := db.connectorBindings[key];
      if row.target.aad != Aad(p.installationId, p.bindingId + ":target", p.generation) {
        return None;
      }
      if TargetDigest(row.target.secret) != row.targetDigest {
        return None;
      }
      return Some(row.target.secret);
    }

    method ResolveCredentialReference(p: Projection) returns (credential: Option<Option<string>>)
      ensures credential == ConnectorLedger.ResolveCredential(db.Connector(), p)
      ensures ConnectorInvariant.Inv(db.Connector()) && Stored(p) ==>
                credential.Some? && (credential.value.Some? <==> p.operation != BrowserInspect)
    {
      StoredResolves(p);
      var key := ProjectionKey(p);
      if key !in db.connectorBindings || db.connectorBindings[key].generation != p.generation {
        return None;
      }
      var sealedCredential := db.connectorBindings[key].credential;
      if sealedCredential.None? {
        return Some(None);
      }
      if sealedCredential.value.aad != Aad(p.installationId, p.bindingId + ":credential", p.generation) {
        return None;
      }
      return Some(Some(sealedCredential.value.secret));
    }

    // ----- requests

    method ClaimRequest(request: Request, certificate: string, now: nat) returns (claim: Claim)
      modifies db`connectorRequests
      ensures (claim, db.Connector()) == ConnectorLedger.ClaimRequest(old(db.Connector()), request, certificate, now)
    {
      if request.key in db.connectorRequests {
        var existing := db.connectorRequests[request.key];
        if existing.requestDigest != RequestDigest(request) {
          return DigestMismatch;
        }
        if existing.response.Some? {
          return Replay(existing.response.value);
        }
        return InFlight;
      }
      var inserted := InsertRequest(request, certificate, now);
      return if inserted then Fresh else DigestMismatch;
    }

    /** The INSERT of a claim, which every constraint of the table may refuse. */
    method InsertRequest(request: Request, certificate: string, now: nat) returns (inserted: bool)
      requires request.key !in db.connectorRequests
      modifies db`connectorRequests
      ensures inserted == !InsertRefused(old(db.Connector()), request)
      ensures db.connectorRequests
              == if inserted then old(db.connectorRequests)[request.key := RowFor(request, certificate, now)]
                                      else old(db.connectorRequests)
    {
      if BindingOf(request.key, request.authority) !in db.connectorBindings
         || request.authority.bindingGeneration < 1 || request.authority.fenceGeneration < 1
         || exists k :: k in db.connectorRequests && k.installationId == request.key.installationId
                        && (db.connectorRequests[k].requestId == request.requestId
                            || db.connectorRequests[k].nonce == request.nonce) {
        return false;
      }
      db.connectorRequests := db.connectorRequests[request.key := RequestRow(
        request.key, request.requestId, request.nonce, RequestDigest(request), request.authority, certificate,
        request.issuedAt, request.deadlineAt, Claimed, None, None, now, None)];
      return true;
    }

    method InsertReceipt(row: RequestRow, response: Response, receiptId: string, targetDigest: Option<TargetDigest>,
                         version: string, now: nat)
      returns (inserted: bool)
      modifies db`connectorReceipts
      ensures inserted == !ReceiptRefused(old(db.Connector()), row, receiptId)
      ensures db.connectorReceipts
              == if inserted
                then old(db.connectorReceipts)[receiptId := ReceiptFor(row, response, receiptId, targetDigest, version,
                                                                       now)]
                 else old(db.connectorReceipts)
    {
      if receiptId in db.connectorReceipts
         || exists id :: id in db.connectorReceipts && db.connectorReceipts[id].key == row.key {
        return false;
      }
      db.connectorReceipts := db.connectorReceipts[receiptId := Receipt(
        receiptId, row.key, row.requestId, row.authority, row.requestDigest, row.certificate, targetDigest,
        response.verdict, ResponseDigest(response), version, row.startedAt, now)];
      return true;
    }

    method CompleteRequest(request: Request, response: Response, targetDigest: Option<TargetDigest>, version: string,
                           now: nat)
      returns (result: Result<Response, StoreError>)
      modifies db`connectorRequests, db`connectorReceipts, db`connectorBindings
      ensures match ConnectorLedger.CompleteRequest(old(db.Connector()), request, response, targetDigest, version, now)
              case Ok((reply, t)) => result == Ok(reply) && db.Connector() == t
              case Err(e) => result == Err(e) && db.Connector() == old(db.Connector())
    {
      hide ValidResponse, IsVersion, ConnectorLedger.ProjectBindingActive;
      if !ValidResponse(response) || !IsVersion(version) {
        return Err(ResponseInvalid);
      }
      var key := request.key;
      if key !in db.connectorRequests {
        return Err(ClaimMissing);
      }
      var row := db.connectorRequests[key];
      if row.requestDigest != RequestDigest(request) {
        return Err(RequestDigestMismatch);
      }
      if response.installationId != row.key.installationId || response.requestId != row.requestId
         || response.operation != row.authority.operation
         || (response.verdict.Succeeded? && (targetDigest.None? || response.completedAt > row.deadlineAt)) {
        return Err(ResponseIdentityMismatch);
      }
      if row.response.Some? {
        return Ok(row.response.value);
      }
      if response.receiptId.None? {
        return Err(ReceiptMissing);
      }
      var receiptId := response.receiptId.value;
      var inserted := InsertReceipt(row, response, receiptId, targetDigest, version, now);
      if !inserted {
        return Err(StoreError.ConstraintFailed);
      }
      if response.verdict.Succeeded? {
        ProjectBindingActive(row, now);
      }
      var state := if response.verdict.Failed? && response.verdict.failureClass == ResultAmbiguous then Ambiguous
        else Completed;
      db.connectorRequests := db.connectorRequests[key := row.(
        state := state, response := Some(response), receiptId := Some(receiptId), completedAt := Some(now))];
      return Ok(response);
    }

    method ProjectBindingActive(row: RequestRow, now: nat)
      modifies db`connectorBindings
      ensures db.connectorBindings == ConnectorLedger.ProjectBindingActive(old(db.connectorBindings), row, now)
    {
      var key := BindingOf(row.key, row.authority);
      if key !in db.connectorBindings || db.connectorBindings[key].generation != row.authority.bindingGeneration {
        return;
      }
      var current := db.connectorBindings[key].projection;
      if current.state in {BindingRevoked, BindingCompromised, Expired} {
        return;
      }
      var next := current.(state := Active, verifiedAt := Some(now));
      var row' := db.connectorBindings[key].(state := Active, projection := next, updatedAt := now);
      db.connectorBindings := db.connectorBindings[key := row'];
    }

    /**
     * Every row its own transaction. `rows` is what the SELECT returned and `receiptIds` the identifiers drawn. An
     * exception abandons the rest of the loop: what it leaves behind is a pass over a prefix of the rows.
     */
    method ReconcileInterruptedRequests(rows: seq<RequestRow>, receiptIds: seq<string>, now: nat)
      returns (result: Result<nat, StoreError>)
      requires |rows| == |receiptIds|
      modifies db`connectorRequests, db`connectorReceipts, db`connectorBindings
      ensures match ReconcileRows(old(db.Connector()), rows, receiptIds, now)
              case Ok(t) => result == Ok(Bound(old(db.connectorBindings), rows)) && db.Connector() == t
              case Err(e) => result == Err(e)
                             && exists n :: 0 <= n < |rows|
                                            && ReconcileRows(old(db.Connector()), rows[..n], receiptIds[..n], now)
                                               == Ok(db.Connector())
    {
      hide ConnectorLedger.CompleteRequest;
      ghost var before := db.Connector();
      var reconciled := 0;
      var i := 0;
      while i < |rows|
        invariant 0 <= i <= |rows|
        invariant db.connectorBindings == old(db.connectorBindings)
        invariant reconciled + Bound(db.connectorBindings, rows[i..]) == Bound(db.connectorBindings, rows)
        invariant ReconcileRows(before, rows, receiptIds, now)
                  == ReconcileRows(db.Connector(), rows[i..], receiptIds[i..], now)
        invariant ReconcileRows(before, rows[..i], receiptIds[..i], now) == Ok(db.Connector())
      {
        var row, receiptId := rows[i], receiptIds[i];
        ghost var t := db.Connector();
        assert rows[i..][1..] == rows[i + 1..] && receiptIds[i..][1..] == receiptIds[i + 1..];
        var key := BindingOf(row.key, row.authority);
        if key in db.connectorBindings {
          var response := InterruptedResponse(row, receiptId, now);
          FailureKeepsBindings(t, RequestFromRow(row), response, Some(db.connectorBindings[key].targetDigest),
                               RECONCILER_VERSION, now);
          var completed :=
            CompleteRequest(RequestFromRow(row), response, Some(db.connectorBindings[key].targetDigest),
                            RECONCILER_VERSION, now);
          if completed.Err? {
            return Err(completed.error);
          }
          reconciled := reconciled + 1;
        }
        PassExtends(before, rows, receiptIds, now, i, t);
        i := i + 1;
      }
      assert rows[..i] == rows && receiptIds[..i] == receiptIds;
      return Ok(reconciled);
    }
  }

  lemma FailureKeepsBindings(t: Tables, request: Request, response: Response, targetDigest: Option<TargetDigest>,
                             version: string, now: nat)
    requires response.verdict.Failed?
    ensures var result := ConnectorLedger.CompleteRequest(t, request, response, targetDigest, version, now);
            result.Ok? ==> result.value.1.bindings == t.bindings && result.value.1.policies == t.policies
  {
    hide ValidResponse, IsVersion;
  }

  /** A pass over one more row is the pass so far followed by that row. */
  lemma {:induction false} PassExtends(t: Tables, rows: seq<RequestRow>, receiptIds: seq<string>, now: nat, i: nat,
                                       reached: Tables)
    requires |rows| == |receiptIds| && i < |rows|
    requires ReconcileRows(t, rows[..i], receiptIds[..i], now) == Ok(reached)
    ensures ReconcileRows(t, rows[..i + 1], receiptIds[..i + 1], now)
            == ReconcileRow(reached, rows[i], receiptIds[i], now)
    decreases i
  {
    hide ReconcileRow;
    if i == 0 {
      assert rows[..1][1..] == [] && receiptIds[..1][1..] == [];
    } else {
      var t1 := ReconcileRow(t, rows[0], receiptIds[0], now);
      assert rows[..i][1..] == rows[1..][..i - 1] && receiptIds[..i][1..] == receiptIds[1..][..i - 1];
      assert rows[..i + 1][1..] == rows[1..][..i] && receiptIds[..i + 1][1..] == receiptIds[1..][..i];
      PassExtends(t1.value, rows[1..], receiptIds[1..], now, i - 1, reached);
    }
  }
}
