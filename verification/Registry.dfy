/**
 * Installations and executor fences: the rows of `broker_installations` and
 * `broker_connector_executor_fences`, and the administrative steps over them.
 */
module Registry {
  import opened Prelude
  import opened Sealing
  import JsText

  datatype InstallationState = Enabled | Revoked | Compromised

  datatype Installation = Installation(
    installationId: string, certificate: string, policyDigest: string,
    topologyDigest: string, topologyExpiresAt: nat,
    expectedVault: Sealed<string>, state: InstallationState)

  datatype FenceKey = FenceKey(installationId: string, taskId: string, projectId: string)

  datatype Fence = Fence(owner: string, generation: nat, expiresAt: nat)

  /** `enrolled` is the insertion order a lookup by certificate scans. */
  datatype Registry = Registry(
    enrolled: seq<string>, installations: map<string, Installation>, fences: map<FenceKey, Fence>)

  const EMPTY := Registry([], map[], map[])

  const EXPECTED_VAULT_BINDING_ID := "__expected_vault__"

  datatype RegistryError = InvalidInstallation | InstallationMissing | InstallationUnavailable | ConstraintFailed

  predicate IsHexDigest(s: string) {
    |s| == 64 && forall i :: 0 <= i < |s| ==> '0' <= s[i] <= '9' || 'a' <= s[i] <= 'f'
  }

  // ----- installations

  datatype Enrollment = Enrollment(
    installationId: string, certificate: string, policyDigest: string,
    topologyDigest: string, topologyExpiresAt: nat, expectedVaultId: string)

  function NewInstallation(e: Enrollment): Installation {
    Installation(e.installationId, e.certificate, e.policyDigest, e.topologyDigest, e.topologyExpiresAt,
                 Sealed(e.expectedVaultId, Aad(e.installationId, EXPECTED_VAULT_BINDING_ID, 0)), Enabled)
  }

  function AddInstallation(r: Registry, e: Enrollment): Result<Registry, RegistryError> {
    if !IsHexDigest(e.certificate) || !IsHexDigest(e.policyDigest) || !IsHexDigest(e.topologyDigest)
       || e.expectedVaultId == "" then Err(InvalidInstallation)
    else if e.installationId in r.installations then Err(ConstraintFailed)
    else Ok(r.(enrolled := r.enrolled + [e.installationId],
               installations := r.installations[e.installationId := NewInstallation(e)]))
  }

  function AttestInstallation(r: Registry, id: string, digest: string, expiresAt: nat): Result<Registry, RegistryError>
  {
    if id !in r.installations then Err(InstallationMissing)
    else
      var updated := r.installations[id].(topologyDigest := digest, topologyExpiresAt := expiresAt);
      Ok(r.(installations := r.installations[id := updated]))
  }

  function RevokeInstallation(r: Registry, id: string): Result<Registry, RegistryError> {
    if id !in r.installations || r.installations[id].state != Enabled then Err(InstallationUnavailable)
    else Ok(r.(installations := r.installations[id := r.installations[id].(state := Revoked)]))
  }

  predicate InstallationEnabled(r: Registry, id: string) {
    id in r.installations && r.installations[id].state == Enabled
  }

  /** First row in insertion order that carries the certificate. */
  function FirstWithCertificate(r: Registry, order: seq<string>, certificate: string): Option<Installation> {
    if order == [] then None
    else if order[0] in r.installations && r.installations[order[0]].certificate == certificate
      then Some(r.installations[order[0]])
    else FirstWithCertificate(r, order[1..], certificate)
  }

  /** `getInstallationByCertificate`: the row, unless it is no longer enabled. */
  function ByCertificate(r: Registry, certificate: string): Option<Installation> {
    match FirstWithCertificate(r, r.enrolled, certificate)
    case Some(i) => if i.state == Enabled then Some(i) else None
    case None => None
  }

  /** Rows are filed under their own id, and every row is in the scan order. */
  ghost predicate WellFormed(r: Registry) {
    && (forall id :: id in r.installations ==> r.installations[id].installationId == id && id in r.enrolled)
    && (forall key :: key in r.fences ==> key.installationId in r.installations && r.fences[key].generation >= 1)
  }

  lemma {:induction false} ScanFindsRow(r: Registry, order: seq<string>, certificate: string)
    ensures match FirstWithCertificate(r, order, certificate)
            case Some(i) =>
              i.certificate == certificate
              && exists id :: id in order && id in r.installations && r.installations[id] == i
            case None =>
              forall id :: id in order && id in r.installations ==> r.installations[id].certificate != certificate
  {
    if order != [] && !(order[0] in r.installations && r.installations[order[0]].certificate == certificate) {
      ScanFindsRow(r, order[1..], certificate);
      assert order == [order[0]] + order[1..];
    } else if order != [] {
      assert order[0] in order;
    }
  }

  /** A certificate only ever speaks for the enabled installation that is filed under its id. */
  lemma CertificateNamesEnabledInstallation(r: Registry, certificate: string)
    requires WellFormed(r)
    ensures match ByCertificate(r, certificate)
            case Some(i) =>
              InstallationEnabled(r, i.installationId) && r.installations[i.installationId] == i
              && i.certificate == certificate
            case None => true
  {
    ScanFindsRow(r, r.enrolled, certificate);
  }

  /** Place `k` of the order is the first whose row carries the certificate. */
  predicate FirstCarries(r: Registry, order: seq<string>, k: nat, certificate: string) {
    && k < |order| && order[k] in r.installations && r.installations[order[k]].certificate == certificate
    && forall j :: 0 <= j < k && order[j] in r.installations ==> r.installations[order[j]].certificate != certificate
  }

  lemma {:induction false} ScanIsExact(r: Registry, order: seq<string>, certificate: string, i: Installation)
    ensures FirstWithCertificate(r, order, certificate) == Some(i)
       <==> exists k: nat :: FirstCarries(r, order, k, certificate) && r.installations[order[k]] == i
  {
    if order != [] {
      var rest := order[1..];
      if order[0] in r.installations && r.installations[order[0]].certificate == certificate {
        assert FirstCarries(r, order, 0, certificate);
      } else {
        ScanIsExact(r, rest, certificate, i);
        forall k: nat
          ensures FirstCarries(r, order, k, certificate) <==> k > 0 && FirstCarries(r, rest, k - 1, certificate)
        {
          assert k > 0 && k < |order| ==> order[k] == rest[k - 1];
          assert forall j :: 0 < j < |order| ==> order[j] == rest[j - 1];
        }
        if k: nat :| FirstCarries(r, rest, k, certificate) && r.installations[rest[k]] == i {
          assert FirstCarries(r, order, k + 1, certificate);
        }
      }
    }
  }

  /** The installation is enabled, and the first in order of enrolment whose row carries the certificate. */
  ghost predicate Holds(r: Registry, certificate: string, id: string) {
    && id in r.installations && r.installations[id].state == Enabled && r.installations[id].certificate == certificate
    && exists k: nat :: FirstCarries(r, r.enrolled, k, certificate) && r.enrolled[k] == id
  }

  /**
   * A certificate speaks for an installation exactly when that is the first, in order of enrolment, whose row carries
   * it, and is enabled. A revoked row in front hides every later one.
   */
  lemma LookupIsExact(r: Registry, certificate: string, id: string)
    requires WellFormed(r)
    ensures ByCertificate(r, certificate).Some? && ByCertificate(r, certificate).value.installationId == id
       <==> Holds(r, certificate, id)
  {
    var found := FirstWithCertificate(r, r.enrolled, certificate);
    if found.Some? {
      ScanIsExact(r, r.enrolled, certificate, found.value);
    }
    if id in r.installations {
      ScanIsExact(r, r.enrolled, certificate, r.installations[id]);
    }
    hide FirstWithCertificate;
  }

  /** With one row per certificate the lookup is exact: it finds the enabled holder whenever there is one. */
  lemma UniqueCertificateIsFound(r: Registry, id: string)
    requires WellFormed(r) && InstallationEnabled(r, id)
    requires forall other ::
               other in r.installations && r.installations[other].certificate == r.installations[id].certificate ==>
                 other == id
    ensures ByCertificate(r, r.installations[id].certificate) == Some(r.installations[id])
  {
    ScanFindsRow(r, r.enrolled, r.installations[id].certificate);
  }

  // ----- executor fences

  datatype Attestation = Attestation(key: FenceKey, owner: string, generation: int, expiresAt: nat, now: nat)

  datatype FenceVerdict = Accepted | Refused | FenceConstraintFailed

  function AttestFence(r: Registry, a: Attestation): (result: (FenceVerdict, Registry)) {
    if a.generation < 1 || a.expiresAt <= a.now || JsText.Blank(a.key.taskId) || JsText.Blank(a.key.projectId)
       || JsText.Blank(a.owner) then (Refused, r)
    else if a.key in r.fences
            && (a.generation < r.fences[a.key].generation
                || (a.generation == r.fences[a.key].generation && r.fences[a.key].owner != a.owner)) then (Refused, r)
    else if a.key.installationId !in r.installations then (FenceConstraintFailed, r)
    else (Accepted, r.(fences := r.fences[a.key := Fence(a.owner, a.generation, a.expiresAt)]))
  }

  predicate FenceCurrent(r: Registry, key: FenceKey, owner: string, generation: nat, now: nat) {
    && key in r.fences
    && r.fences[key].owner == owner
    && r.fences[key].generation == generation
    && r.fences[key].expiresAt > now
  }

  // ----- runs

  datatype Step =
    | Enroll(enrollment: Enrollment)
    | Attest(installationId: string, digest: string, expiresAt: nat)
    | Revoke(installationId: string)
    | AttestExecutor(attestation: Attestation)

  /** A step that the store refuses leaves the tables as they were. */
  function Next(r: Registry, s: Step): Registry {
    match s
    case Enroll(e) => Or(AddInstallation(r, e), r)
    case Attest(id, digest, expiresAt) => Or(AttestInstallation(r, id, digest, expiresAt), r)
    case Revoke(id) => Or(RevokeInstallation(r, id), r)
    case AttestExecutor(a) => AttestFence(r, a).1
  }

  function Or(result: Result<Registry, RegistryError>, otherwise: Registry): Registry {
    if result.Ok? then result.value else otherwise
  }

  function Run(r: Registry, steps: seq<Step>): Registry
    decreases |steps|
  {
    if steps == [] then r else Next(Run(r, steps[..|steps| - 1]), steps[|steps| - 1])
  }

  /** What one step may do to a registry. Rows are never deleted, and fences only move forward. */
  ghost predicate Follows(r: Registry, r': Registry) {
    && (forall id :: id in r.installations ==>
          && id in r'.installations
          && (r.installations[id].state != Enabled ==> r'.installations[id].state == r.installations[id].state))
    && (forall key :: key in r.fences ==>
          && key in r'.fences
          && r.fences[key].generation <= r'.fences[key].generation
          && (r.fences[key].generation == r'.fences[key].generation ==> r.fences[key].owner == r'.fences[key].owner))
  }

  lemma StepKeepsRegistry(r: Registry, s: Step)
    requires WellFormed(r)
    ensures WellFormed(Next(r, s)) && Follows(r, Next(r, s))
  {
    FollowsReflexive(r);
    match s
    case Enroll(e) => EnrollKeepsRegistry(r, e);
    case Attest(id, digest, expiresAt) =>
    case Revoke(id) =>
    case AttestExecutor(a) => AttestFenceKeepsRegistry(r, a);
  }

  lemma EnrollKeepsRegistry(r: Registry, e: Enrollment)
    requires WellFormed(r)
    ensures AddInstallation(r, e).Ok? ==>
              WellFormed(AddInstallation(r, e).value) && Follows(r, AddInstallation(r, e).value)
  {
  }

  lemma AttestFenceKeepsRegistry(r: Registry, a: Attestation)
    requires WellFormed(r)
    ensures WellFormed(AttestFence(r, a).1) && Follows(r, AttestFence(r, a).1)
  {
  }

  lemma {:induction false} RunKeepsRegistry(r: Registry, steps: seq<Step>, i: nat, j: nat)
    requires WellFormed(r) && i <= j <= |steps|
    ensures WellFormed(Run(r, steps[..i])) && Follows(Run(r, steps[..i]), Run(r, steps[..j]))
    decreases j
  {
    hide *;
    FollowsReflexive(Run(r, steps[..i]));
    if i < j {
      RunKeepsRegistry(r, steps, i, j - 1);
      RunKeepsRegistry(r, steps, j - 1, j - 1);
      RunExtends(r, steps, j - 1);
      StepKeepsRegistry(Run(r, steps[..j - 1]), steps[j - 1]);
      FollowsTransitive(Run(r, steps[..i]), Run(r, steps[..j - 1]), Run(r, steps[..j]));
    } else if i > 0 {
      RunKeepsRegistry(r, steps, i - 1, i - 1);
      RunExtends(r, steps, i - 1);
      StepKeepsRegistry(Run(r, steps[..i - 1]), steps[i - 1]);
    } else {
      RunOfNothing(r, steps);
    }
  }

  lemma RunOfNothing(r: Registry, steps: seq<Step>)
    ensures Run(r, steps[..0]) == r
  {
  }

  lemma FollowsReflexive(r: Registry)
    ensures Follows(r, r)
  {
  }

  lemma FollowsTransitive(a: Registry, b: Registry, c: Registry)
    requires Follows(a, b) && Follows(b, c)
    ensures Follows(a, c)
  {
  }

  lemma RunExtends(r: Registry, steps: seq<Step>, i: nat)
    requires i < |steps|
    ensures Run(r, steps[..i + 1]) == Next(Run(r, steps[..i]), steps[i])
  {
    assert steps[..i + 1][..i] == steps[..i];
  }

  /** The attestation at position `i` of a run was accepted. */
  ghost predicate AcceptedAt(r: Registry, steps: seq<Step>, i: nat) {
    && i < |steps|
    && steps[i].AttestExecutor?
    && AttestFence(Run(r, steps[..i]), steps[i].attestation).0 == Accepted
  }

  lemma AcceptedIsStored(r: Registry, steps: seq<Step>, i: nat)
    requires AcceptedAt(r, steps, i)
    ensures var a := steps[i].attestation; var after := Run(r, steps[..i + 1]);
            a.generation >= 1 && a.key in after.fences
            && after.fences[a.key] == Fence(a.owner, a.generation, a.expiresAt)
  {
    RunExtends(r, steps, i);
  }

  /** Two accepted attestations of one generation name the same owner, whatever happened in between. */
  lemma {:induction false} OneOwnerPerGeneration(r: Registry, steps: seq<Step>, i: nat, j: nat)
    requires WellFormed(r) && i < j && AcceptedAt(r, steps, i) && AcceptedAt(r, steps, j)
    requires steps[i].attestation.key == steps[j].attestation.key
    ensures steps[i].attestation.generation <= steps[j].attestation.generation
    ensures steps[i].attestation.generation == steps[j].attestation.generation
            ==> steps[i].attestation.owner == steps[j].attestation.owner
  {
    AcceptedIsStored(r, steps, i);
    AcceptedIsStored(r, steps, j);
    RunKeepsRegistry(r, steps, i + 1, j + 1);
  }

  /** At any instant at most one pair is current. */
  lemma OneCurrentPair(r: Registry, key: FenceKey, owner: string, generation: nat, owner': string, generation': nat,
                       now: nat)
    requires FenceCurrent(r, key, owner, generation, now) && FenceCurrent(r, key, owner', generation', now)
    ensures owner == owner' && generation == generation'
  {
  }

  /** Once another pair has taken a fence, the pair it displaced is never current again. */
  lemma {:induction false} SupersededFenceNeverReturns(
      r: Registry, steps: seq<Step>, i: nat, j: nat, k: nat,
      key: FenceKey, owner: string, generation: nat, t: nat, owner': string, generation': nat, t': nat, now: nat)
    requires WellFormed(r) && i <= j <= k <= |steps|
    requires FenceCurrent(Run(r, steps[..i]), key, owner, generation, t)
    requires FenceCurrent(Run(r, steps[..j]), key, owner', generation', t')
    requires (owner, generation) != (owner', generation')
    ensures !FenceCurrent(Run(r, steps[..k]), key, owner, generation, now)
  {
    RunKeepsRegistry(r, steps, i, j);
    RunKeepsRegistry(r, steps, j, k);
  }
}
