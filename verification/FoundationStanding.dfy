/**
 * What the two halves of the foundation protocol must decide, read off the columns of the tables and the fields of the
 * request, and the proof that they decide it.
 */
module FoundationStanding {
  import opened Prelude
  import opened Sealing
  import opened FoundationProtocol
  import opened FoundationInvariant
  import L = FoundationLedger
  import S = FoundationService
  import Registry

  // ----- what is written

  /** The one transaction that answers a request: its row and its receipt. The binding is spelled where it matters. */
  ghost predicate Written(t: L.Tables, t': L.Tables, key: RequestKey, reply: Response, hmac: Option<string>, now: nat) {
    && key in t.requests && reply.receiptId.Some?
    && var row := t.requests[key];
    && var id := reply.receiptId.value;
    && var ambiguous := reply.verdict.failureClass == Some(ResultAmbiguous);
    && id !in t.receipts
    && t'.requests == t.requests[key := row.(state := if ambiguous then L.Ambiguous else L.Completed,
                                             response := Some(reply), receiptId := Some(id), completedAt := Some(now))]
    && t'.receipts
       == t.receipts[id := L.Receipt(id, key, row.requestId, row.subject, row.requestDigest, row.certificate,
                                     reply.outcome, reply.verdict, hmac, row.startedAt, now)]
  }

  /** A failed response for this request, under a receipt or under none. */
  function Failing(request: Request, verdict: Verdict, receiptId: Option<string>, now: nat): Response {
    Response(request.key.installationId, request.requestId, request.subject.operation, Failed, verdict, receiptId,
             None, [], now)
  }

  function Plainly(c: FailureClass): Verdict { Verdict(None, Some(c), false, None) }

  /** The row a claim inserts. */
  function Claim(request: Request, certificate: string, now: nat): L.RequestRow {
    L.RequestRow(request.key, request.requestId, request.nonce, RequestDigest(request), request.subject, request.turnId,
                 certificate, request.issuedAt, request.deadlineAt, L.Claimed, None, None, now, None)
  }

  lemma SettlingWrites(t: L.Tables, t': L.Tables, row: L.RequestRow, response: Response, state: L.RowState, id: string,
                       hmac: Option<string>, now: nat)
    requires Settles(t, t', row, response, state, id, hmac, now) && state != L.Claimed
    ensures Written(t, t', row.key, response, hmac, now)
  {
    hide ValidResponse;
  }

  // ----- the first half

  predicate WellMade(request: Request) {
    var s := request.subject;
    && request.issuedAt < request.deadlineAt <= request.issuedAt + 30_000
    && if s.operation == Health
       then && s.bindingId == None && s.bindingGeneration == None && request.turnId == None
            && s.fenceOwner == None && s.fenceGeneration == None && s.capabilityId == SystemHealth
       else && s.bindingId.Some? && s.bindingGeneration.Some? && request.turnId.Some?
            && s.fenceOwner.Some? && s.fenceGeneration.Some? && s.capabilityId in {AccessStatus, AccessVerify}
  }

  /** No row of the installation has its key, its request id or its nonce. */
  predicate Unclaimed(t: L.Tables, request: Request) {
    forall k :: k in t.requests && k.installationId == request.key.installationId ==>
      k != request.key && t.requests[k].requestId != request.requestId && t.requests[k].nonce != request.nonce
  }

  predicate Timely(request: Request, now: nat) {
    request.issuedAt <= now + 60_000 && now <= request.deadlineAt
  }

  /** The one policy the broker knows, pinned on both sides. */
  predicate PolicyStands(r: Registry.Registry, request: Request) {
    && request.key.installationId in r.installations
    && request.subject.policyDigest == "ec85ff22cd278f05806b37ae7d27df36c2e6154a811c02816fb0b87c83e4b4aa"
    && r.installations[request.key.installationId].policyDigest == request.subject.policyDigest
  }

  /** The vault id is sealed for this installation. */
  predicate VaultOpens(r: Registry.Registry, id: string) {
    id in r.installations && r.installations[id].expectedVault.aad == Aad(id, "__expected_vault__", 0)
  }

  /** The reference is sealed for this binding at its generation. */
  predicate ReferenceOpens(key: L.BindingKey, row: L.BindingRow) {
    row.reference.Some? && row.reference.value.aad == Aad(key.installationId, key.bindingId, row.generation)
  }

  datatype Fate =
    | Unrecorded(failureClass: FailureClass)
    | Answered(response: Response)
    | Recorded(verdict: Verdict)
    | Handed

  /** What becomes of a request before anybody is asked, by its cause. */
  ghost function FateOf(r: Registry.Registry, t: L.Tables, certificate: string, request: Request, now: nat): Fate {
    var id := request.key.installationId;
    if !WellMade(request) then Unrecorded(RequestRejected)
    else if forall other :: !Registry.Holds(r, certificate, other) then Unrecorded(BrokerAuthFailed)
    else if !Registry.Holds(r, certificate, id) || !PolicyStands(r, request) then Unrecorded(RequestRejected)
    else if request.key in t.requests then
      if t.requests[request.key].requestDigest.of != request then Unrecorded(RequestRejected)
      else if t.requests[request.key].response.None? then Unrecorded(ResultAmbiguous)
      else Answered(t.requests[request.key].response.value)
    else if !Unclaimed(t, request) then Unrecorded(RequestRejected)
    else if !Timely(request, now)
         || request.subject.capabilityId == AccessStatus then Recorded(Plainly(RequestRejected))
    else if request.subject.operation == Health then
      if VaultOpens(r, id) then Handed else Recorded(Verdict(None, Some(ProviderUnavailable), true, Some(30_000)))
    else
      var key := L.BindingKey(id, request.subject.bindingId.value);
      if key !in t.bindings then Recorded(Plainly(BindingMissing))
      else if t.bindings[key].state in {BindingRevoked, BindingCompromised} then Recorded(Plainly(BindingInactive))
      else if request.subject.bindingGeneration != Some(t.bindings[key].generation)
      then Recorded(Plainly(BindingGenerationStale))
      else if !VaultOpens(r, id) || !ReferenceOpens(key, t.bindings[key])
      then Recorded(Verdict(None, Some(ProviderUnavailable), true, Some(30_000)))
      else Handed
  }

  /** The reply or the call, and the tables, that this fate calls for. */
  ghost predicate Meets(r: Registry.Registry, t: L.Tables, t': L.Tables, certificate: string, request: Request,
                        now: nat, receiptId: string, fate: Fate, begun: S.Begun)
  {
    var t1 := t.(requests := t.requests[request.key := Claim(request, certificate, now)]);
    match fate
    case Unrecorded(c) => begun == S.Replied(Failing(request, Plainly(c), None, now)) && t' == t
    case Answered(response) => begun == S.Replied(response) && t' == t
    case Recorded(verdict) =>
      if receiptId !in t.receipts then
        var reply := Failing(request, verdict, Some(receiptId), now);
        begun == S.Replied(reply) && Written(t1, t', request.key, reply, None, now) && t'.bindings == t.bindings
      else begun == S.Replied(Failing(request, Plainly(ReceiptPersistenceFailed), None, now)) && t' == t1
    case Handed =>
      && t' == t1 && request.key.installationId in r.installations
      && if request.subject.operation == Health
         then begun == S.Dispatched(S.HealthCall(request, r.installations[request.key.installationId], now))
         else && request.subject.bindingId.Some?
              && var key := L.BindingKey(request.key.installationId, request.subject.bindingId.value);
              && key in t.bindings && t.bindings[key].reference.Some?
              && begun == S.Dispatched(S.VerifyCall(request, t.bindings[key].reference.value.secret, now))
  }

  lemma WellMadeExactly(request: Request)
    ensures ValidRequest(request) <==> WellMade(request)
  {
  }

  lemma {:induction false} HolderExactly(r: Registry.Registry, certificate: string)
    requires Registry.WellFormed(r)
    ensures match Registry.ByCertificate(r, certificate)
            case Some(i) => i.installationId in r.installations && r.installations[i.installationId] == i
                            && Registry.Holds(r, certificate, i.installationId)
                            && forall other :: Registry.Holds(r, certificate, other) ==> other == i.installationId
            case None => forall other :: !Registry.Holds(r, certificate, other)
  {
    hide Registry.ByCertificate, Registry.Holds;
    Registry.CertificateNamesEnabledInstallation(r, certificate);
    forall other ensures Registry.Holds(r, certificate, other)
                    <==> Registry.ByCertificate(r, certificate).Some?
                         && Registry.ByCertificate(r, certificate).value.installationId == other
    {
      Registry.LookupIsExact(r, certificate, other);
    }
  }

  lemma ClaimExactly(r: Registry.Registry, t: L.Tables, request: Request, certificate: string, now: nat)
    requires Inv(t) && Registry.Holds(r, certificate, request.key.installationId)
    ensures var (claim, t') := L.ClaimRequest(r, t, L.ClaimInput(request, RequestDigest(request), certificate), now);
            if request.key in t.requests then
              && t' == t
              && claim == if t.requests[request.key].requestDigest.of != request then L.DigestMismatch
                          else if t.requests[request.key].response.None? then L.InFlight
                          else L.Replay(t.requests[request.key].response.value)
            else if Unclaimed(t, request) then
              claim == L.Fresh && t' == t.(requests := t.requests[request.key := Claim(request, certificate, now)])
            else claim == L.DigestMismatch && t' == t
  {
    hide Inv;
  }

  /** Each decision of the authorization, by its cause. */
  lemma AuthorizedByCause(r: Registry.Registry, t: L.Tables, request: Request, installation: Registry.Installation,
                          now: nat)
    requires WellMade(request) && request.key.installationId in r.installations
    requires installation == r.installations[request.key.installationId]
    requires installation.installationId == request.key.installationId
    ensures var id := request.key.installationId;
            var unavailable := Err(Verdict(None, Some(ProviderUnavailable), true, Some(30_000)));
            S.Authorize(r, t, request, installation, now)
            == if !Timely(request, now)
            || request.subject.capabilityId == AccessStatus then Err(Plainly(RequestRejected))
               else if request.subject.operation == Health then
                 if VaultOpens(r, id) then Ok(S.HealthCall(request, installation, now)) else unavailable
               else
                 var key := L.BindingKey(id, request.subject.bindingId.value);
                 if key !in t.bindings then Err(Plainly(BindingMissing))
                 else if t.bindings[key].state in {BindingRevoked, BindingCompromised}
                   then Err(Plainly(BindingInactive))
                 else if request.subject.bindingGeneration != Some(t.bindings[key].generation)
                 then Err(Plainly(BindingGenerationStale))
                 else if !VaultOpens(r, id) || !ReferenceOpens(key, t.bindings[key]) then unavailable
                 else Ok(S.VerifyCall(request, t.bindings[key].reference.value.secret, now))
  {
  }

  /** Without a binding to verify, one is missing; the protocol lets no such request through. */
  lemma NamelessIsMissing(r: Registry.Registry, t: L.Tables, request: Request, now: nat)
    requires request.subject.bindingId.None?
    ensures S.AuthorizeVerification(r, t, request, now) == Err(Plainly(BindingMissing))
    ensures WellMade(request) ==> request.subject.operation == Health
  {
  }

  lemma {:induction false} DenialWrites(t: L.Tables, request: Request, verdict: Verdict, receiptId: string, now: nat)
    requires Inv(t) && request.key in t.requests && t.requests[request.key].response.None?
    requires t.requests[request.key].requestId == request.requestId
             && t.requests[request.key].subject == request.subject
    requires verdict == Verdict(None, Some(ProviderUnavailable), true, Some(30_000))
             || verdict in {Plainly(RequestRejected), Plainly(BindingMissing), Plainly(BindingInactive),
                            Plainly(BindingGenerationStale)}
    ensures var (begun, t') := S.SettledAtOnce(t, request, verdict, receiptId, now);
            if receiptId !in t.receipts
            then begun == S.Replied(Failing(request, verdict, Some(receiptId), now))
                 && Written(t, t', request.key, begun.response, None, now) && t'.bindings == t.bindings
            else begun == S.Replied(Failing(request, Plainly(ReceiptPersistenceFailed), None, now)) && t' == t
  {
    hide Inv, S.SettledAtOnce, Settles, Written;
    S.DenialSettles(t, request, verdict, receiptId, now);
    AnsweredIsSettled(t, request.key);
    var (begun, t') := S.SettledAtOnce(t, request, verdict, receiptId, now);
    if receiptId !in t.receipts {
      SettlingWrites(t, t', t.requests[request.key], begun.response, L.Completed, receiptId, None, now);
    }
  }

  /** The first half meets the fate of every request, in every well-formed state. */
  lemma {:induction false} BeginMeetsFate(r: Registry.Registry, t: L.Tables, certificate: string, request: Request,
                                          now: nat, receiptId: string)
    requires Registry.WellFormed(r) && Inv(t)
    ensures var (begun, t') := S.Begin(r, t, certificate, request, now, receiptId);
            Meets(r, t, t', certificate, request, now, receiptId, FateOf(r, t, certificate, request, now), begun)
  {
    hide Inv, Registry.WellFormed, Registry.Holds, Registry.ByCertificate, WellMade, ValidRequest, Timely, VaultOpens,
         ReferenceOpens, Unclaimed, Written, L.ClaimRequest, S.Authorize, S.SettledAtOnce, Meets;
    WellMadeExactly(request);
    HolderExactly(r, certificate);
    NothingMeets(r, t, certificate, request, now, receiptId);
    if WellMade(request) && Registry.Holds(r, certificate, request.key.installationId) && PolicyStands(r, request) {
      ClaimExactly(r, t, request, certificate, now);
      if request.key !in t.requests && Unclaimed(t, request) {
        NewRequestMeets(r, t, certificate, request, now, receiptId);
      }
    }
  }

  lemma NothingMeets(r: Registry.Registry, t: L.Tables, certificate: string, request: Request, now: nat,
                     receiptId: string)
    ensures forall c :: Meets(r, t, t, certificate, request, now, receiptId, Unrecorded(c),
                              S.Replied(BareFailure(request, c, now)))
    ensures forall response ::
              Meets(r, t, t, certificate, request, now, receiptId, Answered(response), S.Replied(response))
  {
  }

  lemma {:induction false} NewRequestMeets(r: Registry.Registry, t: L.Tables, certificate: string, request: Request,
                                           now: nat, receiptId: string)
    requires Registry.WellFormed(r) && Inv(t) && WellMade(request) && PolicyStands(r, request)
    requires Registry.Holds(r, certificate, request.key.installationId)
    requires request.key !in t.requests && Unclaimed(t, request)
    ensures var (begun, t') := S.Begin(r, t, certificate, request, now, receiptId);
            Meets(r, t, t', certificate, request, now, receiptId, FateOf(r, t, certificate, request, now), begun)
  {
    hide Inv, Registry.WellFormed, Registry.ByCertificate, ValidRequest, Timely, VaultOpens, Unclaimed,
         Written, L.ClaimRequest, S.Authorize, S.SettledAtOnce;
    WellMadeExactly(request);
    HolderExactly(r, certificate);
    ClaimExactly(r, t, request, certificate, now);
    ClaimKeepsInv(r, t, L.ClaimInput(request, RequestDigest(request), certificate), now);
    var t1 := t.(requests := t.requests[request.key := Claim(request, certificate, now)]);
    var installation := Registry.ByCertificate(r, certificate).value;
    AuthorizedByCause(r, t1, request, installation, now);
    var decided := S.Authorize(r, t1, request, installation, now);
    assert S.Begin(r, t, certificate, request, now, receiptId)
           == match decided
              case Ok(call) => (S.Dispatched(call), t1)
              case Err(verdict) => S.SettledAtOnce(t1, request, verdict, receiptId, now);
    if decided.Err? {
      DenialWrites(t1, request, decided.error, receiptId, now);
    }
  }

  // ----- the second half

  /** Whether the protocol has a receipted response for the adapter's answer. */
  predicate Receiptable(a: S.Answer) {
    match a
    case AdapterReady(listing) =>
      |listing| <= 100 && forall i, j :: 0 <= i < j < |listing| ==> listing[i].bindingId != listing[j].bindingId
    case AdapterFailed(c, retryable, after) =>
      && c !in {CredentialInvalid, ReceiptPersistenceFailed}
      && if c in {ProviderRateLimited, ProviderUnavailable}
         then retryable && after.Some? && 1_000 <= after.value <= 300_000
         else !retryable && after.None?
    case _ => true
  }

  /** The response each answer calls for. */
  function Due(row: L.RequestRow, call: S.Call, a: S.Answer, receiptId: string): Response
    requires S.Answers(call, a)
  {
    var blank := Response(row.key.installationId, row.requestId, row.subject.operation, Failed,
                          Verdict(None, Some(ProviderUnavailable), true, Some(30_000)), Some(receiptId), None, [],
                          call.now);
    match a
    case AdapterReady(listing) =>
      blank.(outcome := Succeeded, verdict := Verdict(Some(Ready), None, false, None), bindings := listing,
             health := Some(HealthSnapshot(|listing|, call.installation.topologyDigest,
                                           call.installation.topologyExpiresAt)))
    case ItemValid(_) => blank.(outcome := Succeeded, verdict := Verdict(Some(Valid), None, false, None))
    case ItemInvalid => blank.(verdict := Verdict(Some(Invalid), Some(CredentialInvalid), false, None))
    case AdapterFailed(c, retryable, after) => blank.(verdict := Verdict(None, Some(c), retryable, after))
    case AdapterThrew => blank
  }

  /** What an answer does to the binding that was asked about, at its generation; every other binding stays as it is. */
  ghost predicate Moves(t: L.Tables, t': L.Tables, call: S.Call, a: S.Answer) {
    var s := call.request.subject;
    if s.operation == Verify && s.bindingId.Some?
       && L.BindingKey(call.request.key.installationId, s.bindingId.value) in t.bindings
       && t.bindings[L.BindingKey(call.request.key.installationId, s.bindingId.value)].state
          in (match a
              case ItemValid(_) => {Pending, Degraded}
              case ItemInvalid => {VaultVerified}
              case _ => {})
       && s.bindingGeneration
          == Some(t.bindings[L.BindingKey(call.request.key.installationId, s.bindingId.value)].generation)
    then
      var key := L.BindingKey(call.request.key.installationId, s.bindingId.value);
      t'.bindings == t.bindings[key := if a.ItemInvalid? then t.bindings[key].(state := Degraded)
                                       else t.bindings[key].(state := VaultVerified, lastVerifiedAt := Some(call.now))]
    else t'.bindings == t.bindings
  }

  /** How a call that comes back ends, by what it comes back with and what it finds. */
  ghost predicate Ends(t: L.Tables, t': L.Tables, call: S.Call, a: S.Answer, receiptId: string, reply: Response)
    requires S.Answers(call, a)
  {
    && call.request.key in t.requests
    && var row := t.requests[call.request.key];
    if row.response.Some? then reply == row.response.value && t' == t
    else if Receiptable(a) && receiptId !in t.receipts then
      && reply == Due(row, call, a, receiptId)
      && Written(t, t', call.request.key, reply, if a.ItemValid? then Some(a.versionHmac) else None, call.now)
      && Moves(t, t', call, a)
    else reply == Failing(call.request, Plainly(ReceiptPersistenceFailed), None, call.now) && t' == t
  }

  lemma DueExactly(row: L.RequestRow, call: S.Call, a: S.Answer, receiptId: string)
    requires S.Answers(call, a)
    ensures S.ResponseTo(row, call, a, receiptId) == Due(row, call, a, receiptId)
    ensures S.CompletionFor(call, a).versionHmac == if a.ItemValid? then Some(a.versionHmac) else None
  {
  }

  lemma ReceiptableExactly(a: S.Answer)
    ensures S.AnswerFits(a) <==> Receiptable(a)
  {
  }

  lemma MovesExactly(t: L.Tables, t': L.Tables, call: S.Call, a: S.Answer, receiptId: string)
    requires S.Answers(call, a) && S.CallFits(call) && call.request.key in t.requests
    requires var row := t.requests[call.request.key];
             row.subject == call.request.subject && row.key == call.request.key
             && t'.bindings == L.ApplyBindingTransition(t.bindings, row, Due(row, call, a, receiptId), call.now)
    ensures Moves(t, t', call, a)
  {
    var s := call.request.subject;
    if s.operation == Verify && s.bindingId.Some? {
      var key := L.BindingKey(call.request.key.installationId, s.bindingId.value);
      if key in t.bindings && t'.bindings[key] == t.bindings[key] {
        assert t'.bindings == t.bindings;
      }
    }
  }

  /** The second half ends every call as what it comes back with requires. */
  lemma {:induction false} FinishMeetsEnd(t: L.Tables, call: S.Call, a: S.Answer, receiptId: string)
    requires Inv(t) && S.Answers(call, a) && S.CallFits(call)
    requires call.request.key in t.requests && t.requests[call.request.key].subject == call.request.subject
    ensures var (reply, t') := S.Finish(t, call, a, receiptId); Ends(t, t', call, a, receiptId, reply)
  {
    hide Inv, Grows, SameCompromise, S.Finish, Settles, Written, Moves, S.AnswerFits, Receiptable, S.ResponseTo, Due,
         S.CompletionFor, L.ApplyBindingTransition;
    var (reply, t') := S.Finish(t, call, a, receiptId);
    var row := t.requests[call.request.key];
    S.FinishSettlesExactly(t, call, a, receiptId);
    AnsweredIsSettled(t, call.request.key);
    DueExactly(row, call, a, receiptId);
    ReceiptableExactly(a);
    if row.response.None? && Receiptable(a) && receiptId !in t.receipts {
      SettlingWrites(t, t', row, reply, if IsAmbiguous(reply) then L.Ambiguous else L.Completed, receiptId,
                     if a.ItemValid? then Some(a.versionHmac) else None, call.now);
      MovesExactly(t, t', call, a, receiptId);
    }
  }
}
