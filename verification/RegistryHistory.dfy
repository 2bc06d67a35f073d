/**
 * What the registry remembers of a run: every row, every fence and every refusal is a matter of which steps came before
 * (`broker/src/store.ts`).
 */
module RegistryHistory {
  import opened Prelude
  import opened Sealing
  import JsText
  import opened Registry

  // ----- installations

  predicate Digest(s: string) {
    |s| == 64 && forall c :: c in s ==> c in "0123456789abcdef"
  }

  predicate Sound(e: Enrollment) {
    Digest(e.certificate) && Digest(e.policyDigest) && Digest(e.topologyDigest) && |e.expectedVaultId| > 0
  }

  /** Step `k` puts `id` on file: the first sound enrolment of it. */
  predicate EnrolledBy(steps: seq<Step>, id: string, k: nat) {
    && k < |steps| && Enrolls(steps[k], id)
    && forall j :: 0 <= j < k ==> !Enrolls(steps[j], id)
  }

  predicate Enrolls(s: Step, id: string) {
    s.Enroll? && s.enrollment.installationId == id && Sound(s.enrollment)
  }

  ghost predicate OnFile(steps: seq<Step>, id: string) {
    exists k: nat :: EnrolledBy(steps, id, k)
  }

  /** Somewhere after step `k` the installation was revoked. */
  predicate RevokedSince(steps: seq<Step>, id: string, k: nat) {
    exists j :: k < j < |steps| && steps[j] == Revoke(id)
  }

  /** The last attestation of the installation's topology after step `k`. */
  predicate AttestedBy(steps: seq<Step>, id: string, k: nat, j: nat) {
    && k < j < |steps| && steps[j].Attest? && steps[j].installationId == id
    && forall i :: j < i < |steps| ==> !(steps[i].Attest? && steps[i].installationId == id)
  }

  /** The row that a history leaves of the installation step `k` enrolled. */
  ghost predicate Remembered(steps: seq<Step>, id: string, k: nat, row: Installation)
    requires EnrolledBy(steps, id, k)
  {
    var e := steps[k].enrollment;
    && row.installationId == id && row.certificate == e.certificate && row.policyDigest == e.policyDigest
    && row.expectedVault == Sealed(e.expectedVaultId, Aad(id, "__expected_vault__", 0))
    && row.state == (if RevokedSince(steps, id, k) then Revoked else Enabled)
    && (forall j: nat :: AttestedBy(steps, id, k, j) ==>
          row.topologyDigest == steps[j].digest && row.topologyExpiresAt == steps[j].expiresAt)
    && ((forall j: nat :: !AttestedBy(steps, id, k, j)) ==>
          row.topologyDigest == e.topologyDigest && row.topologyExpiresAt == e.topologyExpiresAt)
  }

  lemma DigestExactly(s: string)
    ensures IsHexDigest(s) <==> Digest(s)
  {
    if IsHexDigest(s) {
      forall c | c in s ensures c in "0123456789abcdef" {
        HexDigits(c);
      }
    }
    if Digest(s) {
      forall i | 0 <= i < |s| ensures '0' <= s[i] <= '9' || 'a' <= s[i] <= 'f' {
        HexDigits(s[i]);
      }
    }
  }

  lemma HexDigits(c: char)
    ensures c in "0123456789abcdef" <==> '0' <= c <= '9' || 'a' <= c <= 'f'
  {
  }

  // ----- one step more

  lemma EnrolledEarlier(steps: seq<Step>, id: string, k: nat)
    requires |steps| > 0
    ensures EnrolledBy(steps, id, k)
       <==> EnrolledBy(steps[..|steps| - 1], id, k)
            || (k == |steps| - 1 && Enrolls(steps[k], id) && forall j :: 0 <= j < k ==> !Enrolls(steps[j], id))
  {
    hide Enrolls;
  }

  lemma {:induction false} OnFileEarlier(steps: seq<Step>, id: string)
    requires |steps| > 0
    ensures OnFile(steps, id) <==> OnFile(steps[..|steps| - 1], id) || Enrolls(steps[|steps| - 1], id)
  {
    hide Enrolls;
    var before, n := steps[..|steps| - 1], |steps| - 1;
    if OnFile(before, id) {
      var k: nat :| EnrolledBy(before, id, k);
      assert EnrolledBy(steps, id, k);
    } else if Enrolls(steps[n], id) {
      NotOnFile(before, id);
      assert forall j :: 0 <= j < n ==> before[j] == steps[j];
      assert EnrolledBy(steps, id, n);
    }
    if k: nat :| EnrolledBy(steps, id, k) {
      assert k < n ==> EnrolledBy(before, id, k);
    }
  }

  lemma {:induction false} NotOnFile(steps: seq<Step>, id: string)
    ensures !OnFile(steps, id) <==> forall j :: 0 <= j < |steps| ==> !Enrolls(steps[j], id)
  {
    hide Enrolls;
    if j :| 0 <= j < |steps| && Enrolls(steps[j], id) {
      FirstEnrols(steps, id, j);
    }
  }

  lemma {:induction false} FirstEnrols(steps: seq<Step>, id: string, j: nat)
    requires j < |steps| && Enrolls(steps[j], id)
    ensures OnFile(steps, id)
  {
    hide Enrolls;
    if i :| 0 <= i < j && Enrolls(steps[i], id) {
      FirstEnrols(steps, id, i);
    } else {
      assert EnrolledBy(steps, id, j);
    }
  }

  /** What one step does to the row of one installation. */
  lemma RowAfter(r: Registry, s: Step, id: string)
    ensures id in Next(r, s).installations <==> id in r.installations || Enrolls(s, id)
    ensures id in r.installations ==>
              Next(r, s).installations[id] ==
              if s == Revoke(id) && r.installations[id].state == Enabled then r.installations[id].(state := Revoked)
              else if s.Attest? && s.installationId == id
                then r.installations[id].(topologyDigest := s.digest, topologyExpiresAt := s.expiresAt)
              else r.installations[id]
    ensures id !in r.installations && Enrolls(s, id) ==> Next(r, s).installations[id] == NewInstallation(s.enrollment)
  {
    if s.Enroll? {
      DigestExactly(s.enrollment.certificate);
      DigestExactly(s.enrollment.policyDigest);
      DigestExactly(s.enrollment.topologyDigest);
    }
    hide IsHexDigest, Digest, AttestFence;
    if s.AttestExecutor? {
      FencesOnly(r, s.attestation);
    }
  }

  lemma FencesOnly(r: Registry, a: Attestation)
    ensures AttestFence(r, a).1.installations == r.installations && AttestFence(r, a).1.enrolled == r.enrolled
  {
  }

  lemma NewRowIsRemembered(steps: seq<Step>, id: string, k: nat)
    requires EnrolledBy(steps, id, k) && k == |steps| - 1
    ensures Remembered(steps, id, k, NewInstallation(steps[k].enrollment))
  {
  }

  lemma RowStaysRemembered(steps: seq<Step>, id: string, k: nat, row: Installation, row': Installation)
    requires |steps| > 0 && EnrolledBy(steps[..|steps| - 1], id, k)
    requires Remembered(steps[..|steps| - 1], id, k, row)
    requires var s := steps[|steps| - 1];
             row' == if s == Revoke(id) && row.state == Enabled then row.(state := Revoked)
                     else if s.Attest? && s.installationId == id
                       then row.(topologyDigest := s.digest, topologyExpiresAt := s.expiresAt)
                     else row
    ensures EnrolledBy(steps, id, k) && Remembered(steps, id, k, row')
  {
    hide Enrolls;
    var before, n := steps[..|steps| - 1], |steps| - 1;
    var s := steps[n];
    EnrolledEarlier(steps, id, k);
    assert RevokedSince(steps, id, k) <==> RevokedSince(before, id, k) || s == Revoke(id) by {
      if RevokedSince(before, id, k) {
        var j :| k < j < n && before[j] == Revoke(id);
        assert steps[j] == Revoke(id);
      }
      if RevokedSince(steps, id, k) && s != Revoke(id) {
        var j :| k < j < |steps| && steps[j] == Revoke(id);
        assert before[j] == Revoke(id);
      }
    }
    if s.Attest? && s.installationId == id {
      assert AttestedBy(steps, id, k, n);
    } else {
      forall j: nat ensures AttestedBy(steps, id, k, j) <==> AttestedBy(before, id, k, j) {
        assert j < n ==> before[j] == steps[j];
      }
    }
  }

  /** Every row is what the history of its installation leaves, and every installation on file has one. */
  lemma {:induction false} RowIsRemembered(steps: seq<Step>, id: string)
    ensures id in Run(EMPTY, steps).installations <==> OnFile(steps, id)
    ensures forall k: nat ::
              EnrolledBy(steps, id, k) && id in Run(EMPTY, steps).installations ==>
                Remembered(steps, id, k, Run(EMPTY, steps).installations[id])
    decreases |steps|
  {
    hide Enrolls, Next, Remembered;
    if |steps| > 0 {
      var before, n := steps[..|steps| - 1], |steps| - 1;
      RowIsRemembered(before, id);
      RowAfter(Run(EMPTY, before), steps[n], id);
      OnFileEarlier(steps, id);
      var r, r' := Run(EMPTY, before), Run(EMPTY, steps);
      assert r' == Next(r, steps[n]);
      forall k: nat | EnrolledBy(steps, id, k) && id in r'.installations
        ensures Remembered(steps, id, k, r'.installations[id])
      {
        if EnrolledBy(before, id, k) {
          assert OnFile(before, id);
          RowStaysRemembered(steps, id, k, r.installations[id], r'.installations[id]);
        } else {
          EnrolledEarlier(steps, id, k);
          assert forall j :: 0 <= j < n ==> !Enrolls(before[j], id);
          assert !OnFile(before, id) by { NotOnFile(before, id); }
          NewRowIsRemembered(steps, id, k);
        }
      }
    }
  }

  lemma OrderAfter(r: Registry, s: Step)
    ensures Next(r, s).enrolled ==
            if s.Enroll? && Enrolls(s, s.enrollment.installationId) && s.enrollment.installationId !in r.installations
              then r.enrolled + [s.enrollment.installationId]
            else r.enrolled
  {
    if s.Enroll? {
      DigestExactly(s.enrollment.certificate);
      DigestExactly(s.enrollment.policyDigest);
      DigestExactly(s.enrollment.topologyDigest);
    }
    hide IsHexDigest, Digest, AttestFence;
    if s.AttestExecutor? {
      FencesOnly(r, s.attestation);
    }
  }

  /** Every installation in the order is on file, and came on file before the ones behind it. */
  ghost predicate Ordered(steps: seq<Step>, order: seq<string>) {
    && (forall i :: 0 <= i < |order| ==> OnFile(steps, order[i]))
    && (forall i, j, k: nat, l: nat ::
          0 <= i < j < |order| && EnrolledBy(steps, order[i], k) && EnrolledBy(steps, order[j], l) ==> k < l)
  }

  /** The lookup scans all the installations on file, in the order in which they came there. */
  lemma {:induction false} OrderIsRemembered(steps: seq<Step>)
    ensures Ordered(steps, Run(EMPTY, steps).enrolled)
    ensures forall id :: OnFile(steps, id) ==> id in Run(EMPTY, steps).enrolled
    decreases |steps|
  {
    hide Enrolls, Next, Ordered;
    if |steps| == 0 {
      NothingOrdered();
    } else {
      var before, n := steps[..|steps| - 1], |steps| - 1;
      OrderIsRemembered(before);
      var r, r' := Run(EMPTY, before), Run(EMPTY, steps);
      assert r' == Next(r, steps[n]);
      OrderAfter(r, steps[n]);
      forall id | OnFile(steps, id) ensures id in r'.enrolled {
        OnFileEarlier(steps, id);
        RowIsRemembered(before, id);
        if Enrolls(steps[n], id) {
          EnrolsOwn(steps[n], id);
        }
      }
      OldOrderStays(steps, r.enrolled);
      if r'.enrolled != r.enrolled {
        var id := steps[n].enrollment.installationId;
        RowIsRemembered(before, id);
        NewComesLast(steps, r.enrolled, id);
      }
    }
  }

  lemma EnrolsOwn(s: Step, id: string)
    requires Enrolls(s, id)
    ensures s.Enroll? && s.enrollment.installationId == id
  {
  }

  lemma NothingOrdered()
    ensures Ordered([], []) && forall id :: !OnFile([], id)
  {
  }

  lemma OldOrderStays(steps: seq<Step>, order: seq<string>)
    requires |steps| > 0 && Ordered(steps[..|steps| - 1], order)
    ensures Ordered(steps, order)
  {
    hide Enrolls;
    var before := steps[..|steps| - 1];
    forall i | 0 <= i < |order| ensures OnFile(steps, order[i]) {
      OnFileEarlier(steps, order[i]);
    }
    forall i, k: nat | 0 <= i < |order| && EnrolledBy(steps, order[i], k) ensures EnrolledBy(before, order[i], k) {
      CameEarlier(steps, order[i], k);
    }
  }

  lemma CameEarlier(steps: seq<Step>, id: string, k: nat)
    requires |steps| > 0 && OnFile(steps[..|steps| - 1], id) && EnrolledBy(steps, id, k)
    ensures EnrolledBy(steps[..|steps| - 1], id, k)
  {
    hide Enrolls;
    var before := steps[..|steps| - 1];
    var j: nat :| EnrolledBy(before, id, j);
    assert before[j] == steps[j];
  }

  lemma NewComesLast(steps: seq<Step>, order: seq<string>, id: string)
    requires |steps| > 0 && Ordered(steps[..|steps| - 1], order) && Ordered(steps, order)
    requires Enrolls(steps[|steps| - 1], id) && !OnFile(steps[..|steps| - 1], id)
    ensures Ordered(steps, order + [id])
  {
    hide Enrolls;
    var before, n := steps[..|steps| - 1], |steps| - 1;
    OnFileEarlier(steps, id);
    forall k: nat | EnrolledBy(steps, id, k) ensures k == n {
      EnrolledEarlier(steps, id, k);
    }
    forall i, k: nat | 0 <= i < |order| && EnrolledBy(steps, order[i], k) ensures k < n {
      CameEarlier(steps, order[i], k);
    }
  }

  /** Each step is refused for its cause, and only for it, whatever came before. */
  lemma {:induction false} RefusedByCause(steps: seq<Step>, e: Enrollment, id: string, digest: string, expiresAt: nat)
    ensures AddInstallation(Run(EMPTY, steps), e) == Err(InvalidInstallation) <==> !Sound(e)
    ensures AddInstallation(Run(EMPTY, steps), e) == Err(ConstraintFailed)
       <==> Sound(e) && OnFile(steps, e.installationId)
    ensures AddInstallation(Run(EMPTY, steps), e).Ok? <==> Sound(e) && !OnFile(steps, e.installationId)
    ensures AttestInstallation(Run(EMPTY, steps), id, digest, expiresAt).Ok? <==> OnFile(steps, id)
    ensures !OnFile(steps, id) ==>
              AttestInstallation(Run(EMPTY, steps), id, digest, expiresAt) == Err(InstallationMissing)
    ensures RevokeInstallation(Run(EMPTY, steps), id).Ok?
       <==> exists k: nat :: EnrolledBy(steps, id, k) && !RevokedSince(steps, id, k)
    ensures RevokeInstallation(Run(EMPTY, steps), id).Err? ==>
              RevokeInstallation(Run(EMPTY, steps), id).error == InstallationUnavailable
  {
    hide Run, IsHexDigest, Digest, EnrolledBy, RevokedSince;
    DigestExactly(e.certificate);
    DigestExactly(e.policyDigest);
    DigestExactly(e.topologyDigest);
    RowIsRemembered(steps, e.installationId);
    RowIsRemembered(steps, id);
  }

  // ----- executor fences

  predicate Timely(a: Attestation) {
    && a.generation >= 1 && a.now < a.expiresAt
    && !JsText.Spaces(a.key.taskId) && !JsText.Spaces(a.key.projectId) && !JsText.Spaces(a.owner)
  }

  /** `a` does not yield to `b`, which took the same fence before it. */
  predicate Supersedes(a: Attestation, b: Attestation) {
    b.generation < a.generation || (b.generation == a.generation && b.owner == a.owner)
  }

  predicate AttestsFence(s: Step, key: FenceKey) {
    s.AttestExecutor? && s.attestation.key == key
  }

  /** Step `i` takes the fence: its installation is on file, and no earlier taker of the fence stands in its way. */
  ghost predicate Takes(steps: seq<Step>, i: nat)
    decreases i
  {
    && i < |steps| && steps[i].AttestExecutor? && Timely(steps[i].attestation)
    && OnFile(steps[..i], steps[i].attestation.key.installationId)
    && forall j: nat ::
         j < i && AttestsFence(steps[j], steps[i].attestation.key) && Takes(steps, j) ==>
           Supersedes(steps[i].attestation, steps[j].attestation)
  }

  /** The last step to take the fence. */
  ghost predicate Holder(steps: seq<Step>, key: FenceKey, i: nat) {
    && i < |steps| && AttestsFence(steps[i], key) && Takes(steps, i)
    && forall j: nat :: i < j < |steps| && AttestsFence(steps[j], key) ==> !Takes(steps, j)
  }

  lemma {:induction false} BlankExactly(s: string)
    ensures JsText.Blank(s) <==> JsText.Spaces(s)
  {
    hide JsText.IsSpace, JsText.Trim;
    JsText.TrimExactly(s, "");
    if JsText.Spaces(s) {
      assert JsText.Spaces("") && s == s + "" + "";
    }
  }

  lemma TimelyExactly(a: Attestation)
    ensures Timely(a)
       <==> !(a.generation < 1 || a.expiresAt <= a.now || JsText.Blank(a.key.taskId) || JsText.Blank(a.key.projectId)
              || JsText.Blank(a.owner))
  {
    hide JsText.Blank, JsText.Spaces;
    BlankExactly(a.key.taskId);
    BlankExactly(a.key.projectId);
    BlankExactly(a.owner);
  }

  /** Whether a step takes a fence is a matter of what came before it. */
  lemma {:induction false} TakesEarlier(steps: seq<Step>, n: nat, i: nat)
    requires i < n <= |steps|
    ensures Takes(steps[..n], i) <==> Takes(steps, i)
    decreases i
  {
    hide Timely, OnFile, Supersedes;
    assert steps[..n][..i] == steps[..i];
    forall j: nat | j < i ensures Takes(steps[..n], j) <==> Takes(steps, j) {
      TakesEarlier(steps, n, j);
    }
  }

  /** It is enough to compare with the holder: it supersedes whatever took the fence before it. */
  lemma HolderDecides(steps: seq<Step>, key: FenceKey, h: nat, a: Attestation)
    requires Holder(steps, key, h)
    ensures Supersedes(a, steps[h].attestation)
       <==> forall j: nat :: j < |steps| && AttestsFence(steps[j], key) && Takes(steps, j) ==>
                               Supersedes(a, steps[j].attestation)
  {
    hide Timely, OnFile;
    if Supersedes(a, steps[h].attestation) {
      forall j: nat | j < |steps| && AttestsFence(steps[j], key) && Takes(steps, j)
        ensures Supersedes(a, steps[j].attestation)
      {
        assert j <= h;
        if j < h {
          TakesSupersedes(steps, h, j);
        }
      }
    }
  }

  lemma TakesSupersedes(steps: seq<Step>, i: nat, j: nat)
    requires Takes(steps, i) && j < i && Takes(steps, j) && AttestsFence(steps[j], steps[i].attestation.key)
    ensures Supersedes(steps[i].attestation, steps[j].attestation)
  {
  }

  lemma {:induction false} HolderEarlier(steps: seq<Step>, key: FenceKey, i: nat)
    requires |steps| > 0
    ensures var n := |steps| - 1;
            Holder(steps, key, i) <==> if AttestsFence(steps[n], key) && Takes(steps, n) then i == n
                                       else Holder(steps[..n], key, i)
  {
    hide Takes;
    var n := |steps| - 1;
    forall j: nat | j < n ensures Takes(steps[..n], j) <==> Takes(steps, j) {
      TakesEarlier(steps, n, j);
    }
    assert forall j: nat :: j < n ==> steps[..n][j] == steps[j];
  }

  lemma {:induction false} SomeHolder(steps: seq<Step>, key: FenceKey)
    ensures (exists i: nat :: Holder(steps, key, i))
       <==> exists j: nat :: j < |steps| && AttestsFence(steps[j], key) && Takes(steps, j)
    decreases |steps|
  {
    hide Takes, AttestsFence, Holder;
    if |steps| == 0 {
      NoHolder(key);
    } else {
      var n := |steps| - 1;
      forall i: nat
        ensures Holder(steps, key, i) <==> if AttestsFence(steps[n], key) && Takes(steps, n) then i == n
                                           else Holder(steps[..n], key, i)
      {
        HolderEarlier(steps, key, i);
      }
      SomeHolder(steps[..n], key);
      forall j: nat | j < n ensures Takes(steps[..n], j) <==> Takes(steps, j) {
        TakesEarlier(steps, n, j);
      }
      if AttestsFence(steps[n], key) && Takes(steps, n) {
        assert Holder(steps, key, n);
      } else if j: nat :| j < |steps| && AttestsFence(steps[j], key) && Takes(steps, j) {
        assert steps[..n][j] == steps[j];
        var i: nat :| Holder(steps[..n], key, i);
        assert Holder(steps, key, i);
      }
    }
  }

  lemma NoHolder(key: FenceKey)
    ensures forall i: nat :: !Holder([], key, i)
  {
  }

  /** What the fence table keeps is the last attestation that took the fence. */
  ghost predicate FenceRemembered(steps: seq<Step>, key: FenceKey, r: Registry) {
    && (key in r.fences <==> exists i: nat :: Holder(steps, key, i))
    && (forall i: nat :: Holder(steps, key, i) && key in r.fences ==>
          r.fences[key] == Fence(steps[i].attestation.owner, steps[i].attestation.generation,
                                 steps[i].attestation.expiresAt))
  }

  lemma {:induction false} OnFileForGood(steps: seq<Step>, i: nat, id: string)
    requires i <= |steps| && OnFile(steps[..i], id)
    ensures OnFile(steps, id)
  {
    hide Enrolls;
    var k: nat :| EnrolledBy(steps[..i], id, k);
    assert steps[..i][k] == steps[k];
    FirstEnrols(steps, id, k);
  }

  /** The verdict on one more attestation. */
  ghost predicate Judged(steps: seq<Step>, a: Attestation, verdict: FenceVerdict) {
    match verdict
    case Accepted => Takes(steps + [AttestExecutor(a)], |steps|)
    case FenceConstraintFailed => Timely(a) && !OnFile(steps, a.key.installationId)
    case Refused => !Takes(steps + [AttestExecutor(a)], |steps|) && (Timely(a) ==> OnFile(steps, a.key.installationId))
  }

  lemma {:induction false} VerdictFollows(steps: seq<Step>, a: Attestation)
    requires FenceRemembered(steps, a.key, Run(EMPTY, steps))
    ensures Judged(steps, a, AttestFence(Run(EMPTY, steps), a).0)
  {
    var n, more := |steps|, steps + [AttestExecutor(a)];
    var r := Run(EMPTY, steps);
    assert more[..n] == steps;
    TimelyExactly(a);
    RowIsRemembered(steps, a.key.installationId);
    hide Run, JsText.Blank, Timely, OnFile, Supersedes, Holder;
    forall j: nat | j < n ensures Takes(steps, j) <==> Takes(more, j) {
      TakesEarlier(more, n, j);
    }
    SomeHolder(steps, a.key);
    if a.key in r.fences {
      var h: nat :| Holder(steps, a.key, h);
      HolderDecides(steps, a.key, h, a);
      HolderIsOnFile(steps, a.key, h);
    }
  }

  lemma {:induction false} HolderIsOnFile(steps: seq<Step>, key: FenceKey, h: nat)
    requires Holder(steps, key, h)
    ensures OnFile(steps, key.installationId)
  {
    OnFileForGood(steps, h, key.installationId);
  }

  lemma TakerIsOnFile(steps: seq<Step>, i: nat)
    requires Takes(steps, i)
    ensures OnFile(steps[..i], steps[i].attestation.key.installationId)
  {
  }

  /** The fence table keeps exactly the last attestation that took each fence. */
  lemma {:induction false} FenceIsRemembered(steps: seq<Step>, key: FenceKey)
    ensures FenceRemembered(steps, key, Run(EMPTY, steps))
    decreases |steps|
  {
    hide Takes, Holder, AttestFence, Timely, OnFile;
    if |steps| == 0 {
      NoHolder(key);
    } else {
      var n := |steps| - 1;
      FenceIsRemembered(steps[..n], key);
      var r, r' := Run(EMPTY, steps[..n]), Run(EMPTY, steps);
      assert r' == Next(r, steps[n]);
      assert steps == steps[..n] + [steps[n]];
      forall i: nat
        ensures Holder(steps, key, i) <==> if AttestsFence(steps[n], key) && Takes(steps, n) then i == n
                                           else Holder(steps[..n], key, i)
        ensures Holder(steps[..n], key, i) ==> i < n
      {
        HolderEarlier(steps, key, i);
        HolderIsThere(steps[..n], key, i);
      }
      FenceAfter(r, steps[n], key);
      if AttestsFence(steps[n], key) {
        assert steps[..n] + [AttestExecutor(steps[n].attestation)] == steps && |steps[..n]| == n;
        VerdictFollows(steps[..n], steps[n].attestation);
        HolderEarlier(steps, key, n);
        if Takes(steps, n) {
          TakerIsOnFile(steps, n);
        }
      }
    }
  }

  lemma HolderIsThere(steps: seq<Step>, key: FenceKey, i: nat)
    ensures Holder(steps, key, i) ==> i < |steps|
  {
  }

  /** What one step does to one fence. */
  lemma FenceAfter(r: Registry, s: Step, key: FenceKey)
    ensures AttestsFence(s, key) && AttestFence(r, s.attestation).0 == Accepted ==>
              key in Next(r, s).fences
              && Next(r, s).fences[key] ==
                 Fence(s.attestation.owner, s.attestation.generation, s.attestation.expiresAt)
    ensures !(AttestsFence(s, key) && AttestFence(r, s.attestation).0 == Accepted) ==>
              (key in Next(r, s).fences <==> key in r.fences)
              && (key in r.fences ==> Next(r, s).fences[key] == r.fences[key])
  {
    hide IsHexDigest, JsText.Blank;
  }

  /** An attestation is accepted exactly when it takes the fence, and every other is turned away for its cause. */
  lemma {:induction false} VerdictByCause(steps: seq<Step>, a: Attestation)
    ensures Judged(steps, a, AttestFence(Run(EMPTY, steps), a).0)
  {
    FenceIsRemembered(steps, a.key);
    VerdictFollows(steps, a);
  }
}
