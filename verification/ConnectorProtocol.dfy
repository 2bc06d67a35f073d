/**
 * Envelopes of the protected connector protocol and the binding policy around them:
 * the cross-field rules of `connector-protocol.ts` and `connector-policy.ts`.
 * Digests are ideal, so a digest is the value it was taken of.
 */
module ConnectorProtocol {
  import opened Prelude
  import Registry

  const BROKER_MAX_DEADLINE_MS: nat := 30_000
  const BROKER_MAX_CLOCK_SKEW_MS: nat := 60_000
  const MIN_RETRY_AFTER_MS: nat := 1_000
  const MAX_RETRY_AFTER_MS: nat := 300_000

  datatype Operation = ConvexInspect | VercelInspect | BrowserInspect

  datatype Capability = ConvexCapability | VercelCapability | BrowserCapability

  function CapabilityFor(operation: Operation): Capability {
    match operation
    case ConvexInspect => ConvexCapability
    case VercelInspect => VercelCapability
    case BrowserInspect => BrowserCapability
  }

  datatype FailureClass =
    | UnsafeTopology | BrokerUnavailable | BrokerAuthFailed | RequestRejected
    | BindingMissing | BindingInactive | BindingGenerationStale | ScopeInsufficient
    | DestinationDenied | ApprovalRequired | StrongApprovalRequired | HumanPresenceRequired
    | CredentialInvalid | CredentialExpired | CredentialRevoked
    | ProviderRateLimited | ProviderUnavailable
    | ResultAmbiguous | ReceiptPersistenceFailed | ReconciliationRequired

  predicate Retryable(c: FailureClass) {
    c == BrokerUnavailable || c == ProviderRateLimited || c == ProviderUnavailable
  }

  // ----- requests

  datatype RequestKey = RequestKey(installationId: string, idempotencyKey: string)

  /** What a request asks to do and the authority it names: the columns requests and receipts share. */
  datatype Authority = Authority(
    operation: Operation, bindingId: string, bindingGeneration: nat, taskId: string, projectId: string,
    capabilityId: Capability, policyDigest: string, fenceOwner: string, fenceGeneration: nat)

  datatype Request = Request(
    key: RequestKey, requestId: string, nonce: string, authority: Authority, issuedAt: nat, deadlineAt: nat)

  datatype RequestDigest = RequestDigest(of: Request)

  predicate ValidRequest(r: Request) {
    && r.authority.bindingGeneration >= 1
    && r.authority.fenceGeneration >= 1
    && r.authority.capabilityId == CapabilityFor(r.authority.operation)
    && Registry.IsHexDigest(r.authority.policyDigest)
    && r.issuedAt < r.deadlineAt <= r.issuedAt + BROKER_MAX_DEADLINE_MS
  }

  predicate TemporalFailure(r: Request, now: nat) {
    now < r.issuedAt - BROKER_MAX_CLOCK_SKEW_MS || now > r.deadlineAt
  }

  // ----- targets and identities

  datatype Target =
    | ConvexTarget(teamIdOrSlug: string, projectSlug: string)
    | VercelTarget(vercelTeamId: string, projectIdOrName: string)
    | BrowserTarget(hostId: string, profileId: string, teamSlug: string, projectName: string)

  datatype TargetDigest = TargetDigest(of: Target)

  function TargetOperation(t: Target): Operation {
    match t
    case ConvexTarget(_, _) => ConvexInspect
    case VercelTarget(_, _) => VercelInspect
    case BrowserTarget(_, _, _, _) => BrowserInspect
  }

  datatype Identity =
    | ConvexIdentity(convexProjectId: string, projectSlug: string, teamId: string, teamSlug: string,
                     connectorVersion: string, observedAt: nat)
    | VercelIdentity(vercelProjectId: string, projectName: string, teamId: string, connectorVersion: string,
                     observedAt: nat)
    | BrowserIdentity(profileId: string, teamSlug: string, projectName: string, observedAt: nat)

  function IdentityOperation(i: Identity): Operation {
    match i
    case ConvexIdentity(_, _, _, _, _, _) => ConvexInspect
    case VercelIdentity(_, _, _, _, _) => VercelInspect
    case BrowserIdentity(_, _, _, _) => BrowserInspect
  }

  /** The version an identity reports for itself wins over the one its executor reports. */
  function VersionFor(i: Identity, fallback: string): string {
    if i.BrowserIdentity? then fallback else i.connectorVersion
  }

  /**
   * Compared field by field, whatever operation the identity is of: one of another operation lacks the fields that
   * decide, but for the team and project ids a Convex identity shares with a Vercel one.
   */
  predicate IdentityMatchesTarget(t: Target, i: Identity) {
    match (t, i)
    case (ConvexTarget(team, slug), ConvexIdentity(_, projectSlug, teamId, teamSlug, _, _)) =>
      slug == projectSlug && (team == teamId || team == teamSlug)
    case (VercelTarget(team, project), VercelIdentity(projectId, name, teamId, _, _)) =>
      team == teamId && (project == projectId || project == name)
    case (VercelTarget(team, project), ConvexIdentity(projectId, _, teamId, _, _, _)) =>
      team == teamId && project == projectId
    case (BrowserTarget(_, profile, team, project), BrowserIdentity(profileId, teamSlug, name, _)) =>
      profile == profileId && team == teamSlug && project == name
    case _ => false
  }

  // ----- responses

  datatype Verdict =
    | Succeeded(identity: Identity)
    | Failed(failureClass: FailureClass, retryable: bool, retryAfterMs: Option<int>)

  datatype Response = Response(
    installationId: string, requestId: string, operation: Operation,
    verdict: Verdict, receiptId: Option<string>, completedAt: nat)

  datatype ResponseDigest = ResponseDigest(of: Response)

  predicate ValidResponse(r: Response) {
    match r.verdict
    case Succeeded(identity) =>
      && r.receiptId.Some?
      && IdentityOperation(identity) == r.operation
      && (!identity.BrowserIdentity? ==> IsVersion(identity.connectorVersion))
      && identity.observedAt <= r.completedAt
    case Failed(c, retryable, after) =>
      && retryable == Retryable(c)
      && (if retryable then after.Some? && MIN_RETRY_AFTER_MS <= after.value <= MAX_RETRY_AFTER_MS else after.None?)
      && (c == ReceiptPersistenceFailed ==> r.receiptId.None?)
  }

  predicate IsAmbiguous(r: Response) {
    r.verdict.Failed? && r.verdict.failureClass == ResultAmbiguous
  }

  function FailureResponse(request: Request, c: FailureClass, retryable: bool, retryAfterMs: Option<int>,
                           receiptId: Option<string>, completedAt: nat): Response {
    Response(request.key.installationId, request.requestId, request.authority.operation,
             Failed(c, retryable, retryAfterMs), receiptId, completedAt)
  }

  function Unreceipted(request: Request, c: FailureClass, completedAt: nat): Response {
    FailureResponse(request, c, false, None, None, completedAt)
  }

  /** `/^[A-Za-z0-9][A-Za-z0-9._+-]{0,31}$/` */
  predicate IsVersion(s: string) {
    && 1 <= |s| <= 32
    && Alphanumeric(s[0])
    && forall i :: 1 <= i < |s| ==> Alphanumeric(s[i]) || s[i] in "._+-"
  }

  predicate Alphanumeric(c: char) {
    'A' <= c <= 'Z' || 'a' <= c <= 'z' || '0' <= c <= '9'
  }

  // ----- binding projections

  datatype BindingState =
    Pending | VaultVerified | Active | Degraded | Expired | BindingRevoked | BindingCompromised

  /** `details` stands for the descriptive fields, which no decision reads. */
  datatype Projection = Projection(
    bindingId: string, installationId: string, operation: Operation, capabilityIds: seq<Capability>,
    details: string, state: BindingState, generation: nat, verifiedAt: Option<nat>, expiresAt: Option<nat>)

  predicate ValidProjection(p: Projection) {
    && p.generation >= 1
    && p.capabilityIds == [CapabilityFor(p.operation)]
    && (p.state == Active ==> p.verifiedAt.Some?)
  }

  predicate BindingCanRun(p: Projection, now: nat) {
    if p.expiresAt.Some? && now >= p.expiresAt.value then false
    else if p.operation == BrowserInspect then p.state == Pending || p.state == Active
    else p.state == VaultVerified || p.state == Active
  }
}
