/**
 One reconciler pass over one VPN (`process_vpn` of panel-app/vpn_reconciler.py),
 with other connections to the database at work between any two of its own
 statements. What docker, the file system and the probes answer is an input.
 */
module Reconciler {
  import opened Wrappers
  import opened Onboarding
  import opened Fencing

  // What the pass was handed by its claim.
  datatype Pass = Pass(id: nat, token: string, rev: nat, vpn: Row)

  datatype Container =
    | Absent
    | Unlabelled
    | Present(slugMatches: bool, imageMatches: bool, owner: string, revision: nat, running: bool)

  datatype Static = Raises | Invalid | Valid
  datatype Cleanup = Done | OwnershipError | OtherError

  // What `default_activate` looks at.
  datatype Activation = Activation(equipment: nat, runtimeMatches: bool, portsClosed: bool, composeValid: bool)

  datatype Answers = Answers(
    partialsOwned: bool,            // the remains of an interrupted generation carry the owner's mark
    cleanup: Cleanup,
    containerExists: bool,
    filesExist: bool,
    filesOwned: bool,
    newOwner: string,
    generated: bool,
    manifest: string,               // of the artifacts as they are now
    preflight: Static,
    before: Option<Snapshot>,       // unrelated VPNs, before the gates
    container: Container,
    started: bool,
    afterStart: Option<Snapshot>,
    evidence: Option<Evidence>,
    after: Option<Snapshot>,        // unrelated VPNs, after the gates
    digests: Option<set<string>>,   // certificates in the container's log
    unsealed: Option<string>,
    sealed: string,
    activation: Option<Activation>)

  function ActivationResult(c: Activation): (r: Result) {
    if c.equipment > 0 then Result(Draft, ActivationPublicationRequired, false)
    else if !c.runtimeMatches then Result(Draft, ActivationRuntimeChanged, false)
    else if !c.portsClosed then Result(Draft, ActivationPortsPresent, false)
    else if !c.composeValid then Result(Draft, ActivationComposeInvalid, false)
    else Result(Active, ActiveCode, false)
  }

  // An interrupted generation is begun again.
  predicate Interrupted(vpn: Row) {
    !vpn.state.Draft? && vpn.phase.Generating?
  }

  predicate FromDraft(vpn: Row) {
    vpn.state.Draft? || vpn.phase.Generating?
  }

  function OwnerOf(vpn: Row, a: Answers): (owner: string) {
    if FromDraft(vpn) && !a.filesExist then a.newOwner else vpn.owner
  }

  predicate ArtifactsOwned(vpn: Row, a: Answers) {
    && (Interrupted(vpn) ==> vpn.owner != "" && a.partialsOwned)
    && if FromDraft(vpn) then
         && !a.containerExists && a.manifest != ""
         && if a.filesExist then vpn.state.Draft? && vpn.owner != "" && a.filesOwned else a.generated
       else
         && !vpn.state.Deleting? && vpn.owner != "" && a.filesOwned
         && vpn.manifest != "" && a.manifest == vpn.manifest
  }

  // The inventory of unrelated VPNs is the recorded one, or the first ever taken.
  predicate Isolated(vpn: Row, a: Answers) {
    && a.before.Some? && a.after == a.before
    && (vpn.baseline.Unset? || vpn.baseline == Recorded(a.before.value))
  }

  predicate NeedsStart(a: Answers) {
    a.container.Absent? || (a.container.Present? && !a.container.running)
  }

  // An existing container carries the slug, image, owner and revision of this very draft.
  predicate Labelled(container: Container, owner: string, rev: nat) {
    && !container.Unlabelled?
    && (container.Present? ==>
          container.slugMatches && container.imageMatches && container.owner == owner && container.revision == rev)
  }

  predicate RuntimeOwned(vpn: Row, rev: nat, a: Answers) {
    Labelled(a.container, OwnerOf(vpn, a), rev) && (NeedsStart(a) ==> a.started && a.afterStart == a.before)
  }

  /** Everything that has to be true of one pass for it to find the VPN usable. */
  predicate Verified(p: Pass, a: Answers) {
    && ArtifactsOwned(p.vpn, a)
    && a.preflight.Valid?
    && Isolated(p.vpn, a)
    && RuntimeOwned(p.vpn, p.rev, a)
    && a.evidence.Some? && AllGates(p.vpn.settings, a.evidence.value)
  }

  predicate ActivationPasses(a: Answers) {
    a.activation.Some? && ActivationResult(a.activation.value).state.Active?
  }

  /** What a pass must have found out in order to activate the VPN. */
  predicate Justified(p: Pass, a: Answers) {
    && Verified(p, a)
    && p.vpn.autoActivate
    && (p.vpn.publication.Published? || ActivationPasses(a))
  }

  // What becomes of the row when nobody interferes, part by part.

  function Rejected(code: Code): (r: Result) {
    Result(Draft, code, false)
  }

  function IsolationBroken(code: Code): (r: Result) {
    Result(Blocked, code, false)
  }

  const PROBE_FAILED := Result(Offline, RuntimeProbeFailed, true)

  datatype Verdict = Fine | Says(result: Result) | Erased | Pinned | Silent

  function DraftVerdict(a: Answers, known: string): (v: Verdict) {
    if a.containerExists then Says(Rejected(ContainerCollision))
    else if a.filesExist && (known == "" || !a.filesOwned) then Says(Rejected(SlugFilesCollision))
    else if (!a.filesExist && !a.generated) || a.manifest == "" then Says(Rejected(GenerationFailed))
    else Fine
  }

  function ArtifactVerdict(vpn: Row, a: Answers): (v: Verdict) {
    if Interrupted(vpn) then
      if vpn.owner == "" || !a.partialsOwned then Says(Rejected(ArtifactOwnershipFailed)) else DraftVerdict(a, "")
    else if vpn.state.Deleting? then
      if a.cleanup.Done? then Erased else Says(Result(Blocked, CleanupFailed, false))
    else if vpn.state.Draft? then DraftVerdict(a, vpn.owner)
    else if ArtifactsOwned(vpn, a) then Fine
    else Says(Rejected(ArtifactOwnershipFailed))
  }

  function IsolationVerdict(vpn: Row, a: Answers): (v: Verdict) {
    if a.before.None? then Says(IsolationBroken(IsolationSnapshotFailed))
    else if vpn.baseline.Corrupt? then Says(IsolationBroken(IsolationBaselineInvalid))
    else if vpn.baseline.Unset? || vpn.baseline.snapshot == a.before.value then Fine
    else Says(IsolationBroken(RuntimeIsolationChanged))
  }

  function ValidationVerdict(vpn: Row, a: Answers): (v: Verdict) {
    match a.preflight
    case Raises => Silent
    case Invalid => Says(Rejected(ConfigInvalid))
    case Valid => IsolationVerdict(vpn, a)
  }

  function RuntimeVerdict(vpn: Row, rev: nat, a: Answers): (v: Verdict) {
    if !Labelled(a.container, OwnerOf(vpn, a), rev) then Says(Rejected(RuntimeOwnershipFailed))
    else if NeedsStart(a) && !a.started then Says(Result(Offline, ContainerStartFailed, true))
    else if NeedsStart(a) && a.afterStart != a.before then Says(IsolationBroken(RuntimeIsolationChanged))
    else Fine
  }

  // A certificate in the log of a container that will not run.
  function CertificateVerdict(vpn: Row, a: Answers, result: Result): (v: Verdict) {
    if !vpn.settings.kind.Ssl? || (!result.code.ContainerNotRunning? && !result.code.DaemonNotRunning?)
       || a.digests.None? || a.digests.value == {} then
      Says(result)
    else if vpn.trustedCert != "" then
      if a.unsealed.None? then Says(Result(Blocked, CertificateStateInvalid, false))
      else if a.digests.value <= {a.unsealed.value} then Says(result)
      else Says(Result(Blocked, CertificateChanged, false))
    else if |a.digests.value| != 1 then Says(Result(Blocked, CertificateAmbiguous, false))
    else if !vpn.settings.acceptCertificate then Says(Result(Blocked, CertificateUntrusted, false))
    else if a.sealed == "" || a.cleanup.OtherError? then Says(Result(Blocked, CertificateAcceptanceFailed, false))
    else if a.cleanup.OwnershipError? then Says(PROBE_FAILED)
    else Pinned
  }

  function PromotionVerdict(vpn: Row, a: Answers): (v: Verdict) {
    if vpn.publication.Published? then Says(Result(Active, ActiveCode, false))
    else if a.activation.None? then Says(PROBE_FAILED)
    else Says(ActivationResult(a.activation.value))
  }

  function GateVerdict(vpn: Row, a: Answers): (v: Verdict) {
    if a.evidence.None? then Says(PROBE_FAILED)
    else
      var found := ClassifyEvidence(vpn.settings, a.evidence.value);
      if a.after != a.before then Says(IsolationBroken(RuntimeIsolationChanged))
      else if found.state.Online? && vpn.autoActivate then PromotionVerdict(vpn, a)
      else CertificateVerdict(vpn, a, found)
  }

  /** The first part that has an objection decides. */
  function PassVerdict(p: Pass, a: Answers): (v: Verdict) {
    if !ArtifactVerdict(p.vpn, a).Fine? then ArtifactVerdict(p.vpn, a)
    else if !ValidationVerdict(p.vpn, a).Fine? then ValidationVerdict(p.vpn, a)
    else if !RuntimeVerdict(p.vpn, p.rev, a).Fine? then RuntimeVerdict(p.vpn, p.rev, a)
    else GateVerdict(p.vpn, a)
  }

  lemma ArtifactVerdictMeaning(vpn: Row, a: Answers)
    ensures ArtifactVerdict(vpn, a).Fine? <==> ArtifactsOwned(vpn, a)
    ensures ArtifactVerdict(vpn, a).Says? ==> Failure(ArtifactVerdict(vpn, a).result)
    ensures ArtifactVerdict(vpn, a).Erased? <==> vpn.state.Deleting? && !vpn.phase.Generating? && a.cleanup.Done?
    ensures !ArtifactVerdict(vpn, a).Pinned? && !ArtifactVerdict(vpn, a).Silent?
  {
  }

  lemma MiddleVerdictsMeaning(vpn: Row, rev: nat, a: Answers)
    ensures ValidationVerdict(vpn, a).Fine? <==>
              a.preflight.Valid? && a.before.Some? && (vpn.baseline.Unset? || vpn.baseline == Recorded(a.before.value))
    ensures ValidationVerdict(vpn, a).Says? ==> Failure(ValidationVerdict(vpn, a).result)
    ensures ValidationVerdict(vpn, a).Silent? <==> a.preflight.Raises?
    ensures RuntimeVerdict(vpn, rev, a).Fine? <==> RuntimeOwned(vpn, rev, a)
    ensures
      var v := RuntimeVerdict(vpn, rev, a);
      (v.Fine? || v.Says?) && (v.Says? ==> Failure(v.result) || Transient(v.result))
  {
  }

  lemma GateVerdictMeaning(vpn: Row, a: Answers)
    ensures
      var v := GateVerdict(vpn, a);
      && (v.Says? || v.Pinned?)
      && (v.Says? ==> WellFormed(v.result) && !Progress(v.result))
      && (v.Says? && IsActive(Settled(v.result, vpn.autoActivate).state) <==>
            && a.evidence.Some? && AllGates(vpn.settings, a.evidence.value) && a.after == a.before
            && vpn.autoActivate && (vpn.publication.Published? || ActivationPasses(a)))
  {
    if a.evidence.Some? {
      ClassificationMeaning(vpn.settings, a.evidence.value);
    }
  }

  /** The verdict is an active VPN exactly when activation is justified. */
  lemma VerdictMeaning(p: Pass, a: Answers)
    ensures PassVerdict(p, a).Says? && IsActive(Settled(PassVerdict(p, a).result, p.vpn.autoActivate).state) <==>
              Justified(p, a)
    ensures PassVerdict(p, a).Says? ==> WellFormed(PassVerdict(p, a).result) && !Progress(PassVerdict(p, a).result)
    ensures PassVerdict(p, a).Erased? <==> p.vpn.state.Deleting? && !p.vpn.phase.Generating? && a.cleanup.Done?
  {
    ArtifactVerdictMeaning(p.vpn, a);
    MiddleVerdictsMeaning(p.vpn, p.rev, a);
    GateVerdictMeaning(p.vpn, a);
  }

  // A container that does not come up, or comes up without its daemon.
  predicate NotUp(e: Evidence) {
    !e.containerRunning || (e.stable && !e.daemonRunning)
  }

  // Artifacts, inventory and container are in order; what is left are the gates.
  predicate Ready(p: Pass, a: Answers) {
    && ArtifactsOwned(p.vpn, a)
    && a.preflight.Valid? && IsolationVerdict(p.vpn, a).Fine?
    && RuntimeOwned(p.vpn, p.rev, a)
  }

  /** What a pass must have found out in order to pin the certificate of a gateway. */
  predicate PinJustified(p: Pass, a: Answers) {
    && Ready(p, a) && a.after == a.before
    && a.evidence.Some? && NotUp(a.evidence.value)
    && p.vpn.settings.kind.Ssl? && p.vpn.trustedCert == ""
    && a.digests.Some? && |a.digests.value| == 1
    && p.vpn.settings.acceptCertificate
    && a.sealed != "" && a.cleanup.Done?
  }

  lemma PinnedExactly(p: Pass, a: Answers)
    ensures PassVerdict(p, a).Pinned? <==> PinJustified(p, a)
  {
    ArtifactVerdictMeaning(p.vpn, a);
    MiddleVerdictsMeaning(p.vpn, p.rev, a);
    if a.evidence.Some? {
      EvidenceCodes(p.vpn.settings, a.evidence.value);
    }
  }

  // The remaining verdicts, each by its condition on the row and the answers.

  // A draft, or an interrupted generation that may be begun again.
  predicate Regenerates(vpn: Row, a: Answers) {
    vpn.state.Draft? || (Interrupted(vpn) && vpn.owner != "" && a.partialsOwned)
  }

  predicate FilesMayStay(vpn: Row, a: Answers) {
    vpn.state.Draft? && vpn.owner != "" && a.filesOwned
  }

  lemma ArtifactCodes(p: Pass, a: Answers)
    ensures
      var v, vpn := PassVerdict(p, a), p.vpn;
      && (v == Says(Result(Blocked, CleanupFailed, false)) <==>
            vpn.state.Deleting? && !vpn.phase.Generating? && !a.cleanup.Done?)
      && (v == Says(Rejected(ArtifactOwnershipFailed)) <==>
            if Interrupted(vpn) then vpn.owner == "" || !a.partialsOwned
            else
              && !FromDraft(vpn) && !vpn.state.Deleting?
              && (vpn.owner == "" || !a.filesOwned || vpn.manifest == "" || a.manifest != vpn.manifest))
      && (v == Says(Rejected(ContainerCollision)) <==> Regenerates(vpn, a) && a.containerExists)
      && (v == Says(Rejected(SlugFilesCollision)) <==>
            Regenerates(vpn, a) && !a.containerExists && a.filesExist && !FilesMayStay(vpn, a))
      && (v == Says(Rejected(GenerationFailed)) <==>
            && Regenerates(vpn, a) && !a.containerExists
            && if a.filesExist then FilesMayStay(vpn, a) && a.manifest == "" else !a.generated || a.manifest == "")
  {
    ArtifactVerdictMeaning(p.vpn, a);
    MiddleVerdictCodes(p.vpn, p.rev, a);
    GateVerdictCodes(p.vpn, a);
  }

  // None of the later parts gives a verdict of the first one.
  lemma MiddleVerdictCodes(vpn: Row, rev: nat, a: Answers)
    ensures
      var v := ValidationVerdict(vpn, a);
      v.Says? ==> v.result in {Rejected(ConfigInvalid), IsolationBroken(IsolationSnapshotFailed),
                               IsolationBroken(IsolationBaselineInvalid), IsolationBroken(RuntimeIsolationChanged)}
    ensures
      var v := RuntimeVerdict(vpn, rev, a);
      v.Says? ==> v.result in {Rejected(RuntimeOwnershipFailed), Result(Offline, ContainerStartFailed, true),
                               IsolationBroken(RuntimeIsolationChanged)}
  {
  }

  predicate GateCode(code: Code) {
    || RetryableCode(code) || code.AuthRejected? || code.ProposalRejected? || code.OnlineCode? || code.ActiveCode?
    || code.CertificateStateInvalid? || code.CertificateChanged? || code.CertificateAmbiguous?
    || code.CertificateUntrusted? || code.CertificateAcceptanceFailed? || code.ActivationPublicationRequired?
    || code.ActivationRuntimeChanged? || code.ActivationPortsPresent? || code.ActivationComposeInvalid?
  }

  lemma GateVerdictCodes(vpn: Row, a: Answers)
    ensures GateVerdict(vpn, a).Says? ==> GateCode(GateVerdict(vpn, a).result.code)
    ensures GateVerdict(vpn, a).Says? ==> !GateVerdict(vpn, a).result.code.ContainerStartFailed?
  {
  }

  lemma ValidationCodes(p: Pass, a: Answers)
    ensures
      var v, vpn, owned := PassVerdict(p, a), p.vpn, ArtifactsOwned(p.vpn, a);
      && (v.Silent? <==> owned && a.preflight.Raises?)
      && (v == Says(Rejected(ConfigInvalid)) <==> owned && a.preflight.Invalid?)
      && (v == Says(IsolationBroken(IsolationSnapshotFailed)) <==> owned && a.preflight.Valid? && a.before.None?)
      && (v == Says(IsolationBroken(IsolationBaselineInvalid)) <==>
            owned && a.preflight.Valid? && a.before.Some? && vpn.baseline.Corrupt?)
  {
    ArtifactVerdictMeaning(p.vpn, a);
    MiddleVerdictCodes(p.vpn, p.rev, a);
    GateVerdictCodes(p.vpn, a);
  }

  // A container that this draft did not make, or made for another revision.
  predicate Foreign(container: Container, owner: string, rev: nat) {
    match container
    case Absent => false
    case Unlabelled => true
    case Present(slugMatches, imageMatches, mark, revision, _) =>
      !slugMatches || !imageMatches || mark != owner || revision != rev
  }

  lemma RuntimeCodes(p: Pass, a: Answers)
    ensures
      var v, vpn, owned := PassVerdict(p, a), p.vpn, ArtifactsOwned(p.vpn, a);
      && (v == Says(Rejected(RuntimeOwnershipFailed)) <==>
            owned && a.preflight.Valid? && IsolationVerdict(vpn, a).Fine? && Foreign(a.container, OwnerOf(vpn, a), p.rev))
      && (v == Says(Result(Offline, ContainerStartFailed, true)) <==>
            && owned && a.preflight.Valid? && IsolationVerdict(vpn, a).Fine?
            && (a.container.Absent? || (!Foreign(a.container, OwnerOf(vpn, a), p.rev) && !a.container.running))
            && !a.started)
  {
    ArtifactVerdictMeaning(p.vpn, a);
    GateVerdictCodes(p.vpn, a);
  }

  /** An unrelated VPN that has changed, wherever it is noticed, blocks the pass. */
  lemma IsolationCode(p: Pass, a: Answers)
    ensures
      PassVerdict(p, a) == Says(IsolationBroken(RuntimeIsolationChanged)) <==>
        && ArtifactsOwned(p.vpn, a) && a.preflight.Valid? && a.before.Some? && !p.vpn.baseline.Corrupt?
        && (|| (p.vpn.baseline.Recorded? && p.vpn.baseline.snapshot != a.before.value)
            || (&& Labelled(a.container, OwnerOf(p.vpn, a), p.rev) && NeedsStart(a) && a.started
                && a.afterStart != a.before)
            || (RuntimeOwned(p.vpn, p.rev, a) && a.evidence.Some? && a.after != a.before))
  {
    ArtifactVerdictMeaning(p.vpn, a);
  }

  // A certificate shows in the log of a container that does not come up.
  predicate Presented(p: Pass, a: Answers) {
    && Ready(p, a) && a.after == a.before && a.evidence.Some? && NotUp(a.evidence.value)
    && p.vpn.settings.kind.Ssl? && a.digests.Some? && a.digests.value != {}
  }

  predicate CertificateCode(code: Code) {
    || code.CertificateStateInvalid? || code.CertificateChanged? || code.CertificateAmbiguous?
    || code.CertificateUntrusted? || code.CertificateAcceptanceFailed?
  }

  lemma GatesDecide(p: Pass, a: Answers)
    ensures Ready(p, a) ==> PassVerdict(p, a) == GateVerdict(p.vpn, a)
    ensures !Ready(p, a) && PassVerdict(p, a).Says? ==> !CertificateCode(PassVerdict(p, a).result.code)
  {
    ArtifactVerdictMeaning(p.vpn, a);
    MiddleVerdictsMeaning(p.vpn, p.rev, a);
    MiddleVerdictCodes(p.vpn, p.rev, a);
  }

  lemma CertificateDecides(p: Pass, a: Answers)
    ensures Presented(p, a) ==>
              && NotUp(a.evidence.value)
              && PassVerdict(p, a) == CertificateVerdict(p.vpn, a, ClassifyEvidence(p.vpn.settings, a.evidence.value))
              && (var code := ClassifyEvidence(p.vpn.settings, a.evidence.value).code;
                  code.ContainerNotRunning? || code.DaemonNotRunning?)
    ensures !Presented(p, a) && PassVerdict(p, a).Says? ==> !CertificateCode(PassVerdict(p, a).result.code)
  {
    GatesDecide(p, a);
    if a.evidence.Some? {
      EvidenceCodes(p.vpn.settings, a.evidence.value);
      ClassificationMeaning(p.vpn.settings, a.evidence.value);
    }
  }

  lemma CertificateCodes(p: Pass, a: Answers)
    ensures
      var v, vpn := PassVerdict(p, a), p.vpn;
      && (v == Says(Result(Blocked, CertificateStateInvalid, false)) <==>
            Presented(p, a) && vpn.trustedCert != "" && a.unsealed.None?)
      && (v == Says(Result(Blocked, CertificateChanged, false)) <==>
            && Presented(p, a) && vpn.trustedCert != "" && a.unsealed.Some?
            && exists digest :: digest in a.digests.value && digest != a.unsealed.value)
      && (v == Says(Result(Blocked, CertificateAmbiguous, false)) <==>
            Presented(p, a) && vpn.trustedCert == "" && |a.digests.value| != 1)
      && (v == Says(Result(Blocked, CertificateUntrusted, false)) <==>
            Presented(p, a) && vpn.trustedCert == "" && |a.digests.value| == 1 && !vpn.settings.acceptCertificate)
      && (v == Says(Result(Blocked, CertificateAcceptanceFailed, false)) <==>
            && Presented(p, a) && vpn.trustedCert == "" && |a.digests.value| == 1 && vpn.settings.acceptCertificate
            && (a.sealed == "" || a.cleanup.OtherError?))
  {
    CertificateDecides(p, a);
    if Presented(p, a) {
      assert a.unsealed.Some? ==>
          (a.digests.value <= {a.unsealed.value} <==>
           !exists digest :: digest in a.digests.value && digest != a.unsealed.value);
    }
  }

  /** Where nothing stands in the way, the evidence itself is what is stored. */
  lemma EvidenceIsStored(p: Pass, a: Answers)
    requires Ready(p, a) && a.after == a.before && a.evidence.Some? && !Presented(p, a)
    requires !(AllGates(p.vpn.settings, a.evidence.value) && p.vpn.autoActivate)
    ensures PassVerdict(p, a) == Says(ClassifyEvidence(p.vpn.settings, a.evidence.value))
  {
    ArtifactVerdictMeaning(p.vpn, a);
    MiddleVerdictsMeaning(p.vpn, p.rev, a);
    ClassificationMeaning(p.vpn.settings, a.evidence.value);
    EvidenceCodes(p.vpn.settings, a.evidence.value);
  }

  // The certificate could be pinned, but cleaning up meets something foreign.
  predicate PinMeetsForeign(p: Pass, a: Answers) {
    && Presented(p, a) && p.vpn.trustedCert == "" && |a.digests.value| == 1 && p.vpn.settings.acceptCertificate
    && a.sealed != "" && a.cleanup.OwnershipError?
  }

  /** The probe counts as failed exactly where an exception leaves the guarded part of the pass. */
  lemma ProbeCode(p: Pass, a: Answers)
    ensures PassVerdict(p, a) == Says(PROBE_FAILED) <==>
              || (Ready(p, a) && a.evidence.None?)
              || PinMeetsForeign(p, a)
              || (Verified(p, a) && p.vpn.autoActivate && !p.vpn.publication.Published? && a.activation.None?)
  {
    GatesDecide(p, a);
    ArtifactVerdictMeaning(p.vpn, a);
    MiddleVerdictsMeaning(p.vpn, p.rev, a);
    MiddleVerdictCodes(p.vpn, p.rev, a);
    CertificateDecides(p, a);
    if a.evidence.Some? {
      ClassificationMeaning(p.vpn.settings, a.evidence.value);
      EvidenceCodes(p.vpn.settings, a.evidence.value);
    }
  }

  /** A certificate that is the trusted one changes nothing. */
  lemma TrustedCertificateIsIgnored(p: Pass, a: Answers)
    requires Presented(p, a) && p.vpn.trustedCert != "" && a.unsealed.Some?
    requires forall digest :: digest in a.digests.value ==> digest == a.unsealed.value
    ensures PassVerdict(p, a) == Says(ClassifyEvidence(p.vpn.settings, a.evidence.value))
  {
    CertificateDecides(p, a);
  }

  lemma ActivationCodes(p: Pass, a: Answers)
    requires Verified(p, a) && p.vpn.autoActivate && !p.vpn.publication.Published?
    ensures
      var v := PassVerdict(p, a);
      && (v == Says(PROBE_FAILED) <==> a.activation.None?)
      && (a.activation.Some? ==>
            var c := a.activation.value;
            && (v == Says(Rejected(ActivationPublicationRequired)) <==> c.equipment > 0)
            && (v == Says(Rejected(ActivationRuntimeChanged)) <==> c.equipment == 0 && !c.runtimeMatches)
            && (v == Says(Rejected(ActivationPortsPresent)) <==> c.equipment == 0 && c.runtimeMatches && !c.portsClosed)
            && (v == Says(Rejected(ActivationComposeInvalid)) <==>
                  c.equipment == 0 && c.runtimeMatches && c.portsClosed && !c.composeValid)
            && (v == Says(Result(Active, ActiveCode, false)) <==>
                  c.equipment == 0 && c.runtimeMatches && c.portsClosed && c.composeValid))
  {
    ArtifactVerdictMeaning(p.vpn, a);
    MiddleVerdictsMeaning(p.vpn, p.rev, a);
    ClassificationMeaning(p.vpn.settings, a.evidence.value);
  }

  // A statement and the table it met.
  datatype Event = Event(s: Statement, before: Table)

  predicate Own(s: Statement, token: string) {
    (OfPass(s) || s.Claim?) && s.token == token
  }

  predicate Concluding(e: Event, p: Pass) {
    && Own(e.s, p.token) && e.s.Store? && Matches(e.before, e.s)
    && (Failure(e.s.result) || Success(e.s.result))
  }

  // What a pass records about its progress, and what must be the case for it to do so.
  predicate Fits(phase: Phase, change: Change, p: Pass, a: Answers) {
    match change
    case Nothing =>
      || (phase.Validated? && a.preflight.Valid? && IsolationVerdict(p.vpn, a).Fine?)
      || (phase.Starting? && Labelled(a.container, OwnerOf(p.vpn, a), p.rev) && NeedsStart(a))
      || (phase.RuntimeWait? && RuntimeOwned(p.vpn, p.rev, a) && NeedsStart(a))
    case Owner(owner) => phase.Generating? && owner == a.newOwner && FromDraft(p.vpn) && !a.containerExists && !a.filesExist
    case Manifest(manifest) => phase.Generated? && manifest == a.manifest && ArtifactsOwned(p.vpn, a)
    case Forget => phase.NoPhase? && Interrupted(p.vpn) && a.partialsOwned
    case SetBaseline(snapshot) =>
      phase.Validated? && a.before == Some(snapshot) && p.vpn.baseline.Unset? && a.preflight.Valid?
    case Publish(publication) =>
      && phase == (if Interrupted(p.vpn) then NoPhase else p.vpn.phase)
      && Verified(p, a) && p.vpn.autoActivate
      && (publication.Published? ==> ActivationPasses(a)) && !publication.NotPublished?
  }

  /** What every statement of a pass satisfies, whatever else goes on in the database. */
  predicate Warranted(e: Event, p: Pass, a: Answers) {
    Own(e.s, p.token) ==>
      && OfPass(e.s) && e.s.id == p.id && (Fenced(e.s) ==> e.s.rev == p.rev)
      && (e.s.Store? ==> WellFormed(e.s.result))
      && (e.s.Store? && Matches(e.before, e.s) && Exec(e.before, e.s)[p.id].active ==> Justified(p, a))
      && (e.s.SetPhase? ==> Fits(e.s.phase, e.s.change, p, a))
      && (e.s.Pin? ==> PinJustified(p, a) && e.s.certificate == a.sealed)
      && (e.s.Erase? ==> p.vpn.state.Deleting? && !p.vpn.phase.Generating? && a.cleanup.Done?)
  }

  // As long as the token of the pass is in the row, what it read of `auto_activate` stands.
  lemma AutoActivateStands(rows: Table, s: Statement, p: Pass)
    requires p.token != "" && (Own(s, p.token) ==> OfPass(s))
    ensures Holds(Exec(rows, s), p.id, p.token) ==>
              && Holds(rows, p.id, p.token) && Exec(rows, s)[p.id].autoActivate == rows[p.id].autoActivate
              && (!Own(s, p.token) ==> Exec(rows, s)[p.id].revision == rows[p.id].revision)
  {
  }

  datatype Outcome = Applied | Refused | Missing | Died

  class Database {
    var rows: Table
    // What other connections execute before each of our statements; we die when it runs out.
    var others: seq<seq<Statement>>
    ghost var log: seq<Event>
    ghost var concluded: bool

    ghost predicate Chained()
      reads this
    {
      && (log != [] ==> rows == Exec(log[|log| - 1].before, log[|log| - 1].s))
      && (forall i, j :: 0 <= i && i + 1 == j < |log| ==> log[j].before == Exec(log[i].before, log[i].s))
    }

    ghost predicate Sound(p: Pass, a: Answers)
      reads this
    {
      && p.token != ""
      && (forall k, m :: 0 <= k < |others| && 0 <= m < |others[k]| ==> !Own(others[k][m], p.token))
      && (Holds(rows, p.id, p.token) ==> rows[p.id].autoActivate == p.vpn.autoActivate)
      && Chained()
      && (forall k :: 0 <= k < |log| ==> Warranted(log[k], p, a))
      && (!concluded ==> forall k :: 0 <= k < |log| ==> !Concluding(log[k], p))
      && (forall i, j :: 0 <= i < j < |log| && Concluding(log[i], p) && Own(log[j].s, p.token) ==>
            log[j].s.Release?)
    }

    // Nobody else is at work, and there is time for `n` statements.
    ghost predicate Calm(p: Pass, n: int)
      reads this
    {
      && |others| >= n && (forall k :: 0 <= k < |others| ==> others[k] == [])
      && Holds(rows, p.id, p.token) && rows[p.id].revision == p.rev && !rows[p.id].active
    }

    method Record(s: Statement, p: Pass, ghost a: Answers)
      requires Sound(p, a) && (Own(s, p.token) ==> Warranted(Event(s, rows), p, a) && (concluded ==> s.Release?))
      modifies this`rows, this`log, this`concluded
      ensures Sound(p, a) && rows == Exec(old(rows), s) && log == old(log) + [Event(s, old(rows))]
      ensures concluded == (old(concluded) || Concluding(Event(s, old(rows)), p))
    {
      AutoActivateStands(rows, s, p);
      concluded := concluded || Concluding(Event(s, rows), p);
      log := log + [Event(s, rows)];
      rows := Exec(rows, s);
    }

    // Other connections get their turn; false if the process dies first.
    method Yield(p: Pass, ghost a: Answers) returns (alive: bool)
      requires Sound(p, a)
      modifies this
      ensures Sound(p, a) && concluded == old(concluded)
      ensures alive == (old(others) != []) && others == if alive then old(others)[1..] else []
      ensures |old(log)| <= |log| && forall k :: |old(log)| <= k < |log| ==> !Own(log[k].s, p.token)
      ensures Holds(rows, p.id, p.token) ==>
                && Holds(old(rows), p.id, p.token)
                && rows[p.id].autoActivate == old(rows)[p.id].autoActivate
                && rows[p.id].revision == old(rows)[p.id].revision
      ensures alive && old(others)[0] == [] ==> rows == old(rows)
    {
      if others == [] {
        return false;
      }
      var batch := others[0];
      for i := 0 to |batch|
        invariant others == old(others) && batch == others[0] && Sound(p, a) && concluded == old(concluded)
        invariant |old(log)| <= |log| && forall k :: |old(log)| <= k < |log| ==> !Own(log[k].s, p.token)
        invariant Holds(rows, p.id, p.token) ==>
                    && Holds(old(rows), p.id, p.token)
                    && rows[p.id].autoActivate == old(rows)[p.id].autoActivate
                    && rows[p.id].revision == old(rows)[p.id].revision
        invariant batch == [] ==> rows == old(rows)
      {
        AutoActivateStands(rows, batch[i], p);
        Record(batch[i], p, a);
      }
      others := others[1..];
      return true;
    }

    // `_phase`, the certificate pin and the row delete: one fenced statement.
    method Write(s: Statement, p: Pass, ghost a: Answers) returns (o: Outcome)
      requires Sound(p, a) && !concluded && Own(s, p.token) && !s.Store? && Fenced(s) && s.id == p.id && s.rev == p.rev
      requires s.SetPhase? ==> Fits(s.phase, s.change, p, a)
      requires s.Pin? ==> PinJustified(p, a) && s.certificate == a.sealed
      requires s.Erase? ==> p.vpn.state.Deleting? && !p.vpn.phase.Generating? && a.cleanup.Done?
      modifies this
      ensures Sound(p, a) && !concluded
      ensures old(Calm(p, 1)) && (s.Erase? ==> old(rows)[p.id].state.Deleting?) ==> o.Applied? && rows == Exec(old(rows), s)
      ensures old(Calm(p, 1)) && s.SetPhase? ==> Calm(p, old(|others|) - 1)
    {
      var alive := Yield(p, a);
      if !alive {
        return Died;
      }
      o := if Matches(rows, s) then Applied else Refused;
      Record(s, p, a);
    }

    // The fenced UPDATE of `set_validation_state`, with what its SELECT had read.
    method Update(result: Result, now: int, previous: nat, auto: bool, p: Pass, ghost a: Answers) returns (o: Outcome)
      requires Sound(p, a) && !concluded && WellFormed(result)
      requires IsActive(result.state) && (result.state.Online? ==> p.vpn.autoActivate) ==> Justified(p, a)
      requires Holds(rows, p.id, p.token) ==> auto == p.vpn.autoActivate
      modifies this
      ensures Sound(p, a) && (concluded ==> o.Applied? && !Progress(result))
      ensures old(Calm(p, 1)) ==>
                o.Applied? && p.id in rows && rows[p.id] == Stored(old(rows)[p.id], result, now, previous, auto)
      ensures old(Calm(p, 1)) && !IsActive(result.state) ==> Calm(p, old(|others|) - 1)
    {
      var alive := Yield(p, a);
      if !alive {
        return Died;
      }
      var s := Store(p.id, p.rev, p.token, result, now, previous, auto);
      o := if Matches(rows, s) then Applied else Refused;
      Record(s, p, a);
    }

    // `set_validation_state`: the SELECT and then the UPDATE.
    method Settle(result: Result, now: int, p: Pass, ghost a: Answers) returns (o: Outcome)
      requires Sound(p, a) && !concluded && WellFormed(result)
      requires IsActive(result.state) && (result.state.Online? ==> p.vpn.autoActivate) ==> Justified(p, a)
      modifies this
      ensures Sound(p, a) && (concluded ==> o.Applied? && !Progress(result))
      ensures old(Calm(p, 2)) ==>
                && o.Applied? && p.id in rows
                && var row := old(rows)[p.id];
                   rows[p.id] == Stored(row, result, now, row.retryCount, p.vpn.autoActivate)
      ensures old(Calm(p, 2)) && !IsActive(result.state) ==> Calm(p, old(|others|) - 2)
    {
      var alive := Yield(p, a);
      if !alive {
        return Died;
      }
      if p.id !in rows {
        return Missing;
      }
      o := Update(result, now, rows[p.id].retryCount, rows[p.id].autoActivate, p, a);
    }
  }

  // The row as a verdict leaves it.
  ghost predicate Ends(db: Database, p: Pass, a: Answers, v: Verdict)
    reads db
  {
    match v
    case Says(result) =>
      && p.id in db.rows
      && var row, final := db.rows[p.id], Settled(result, p.vpn.autoActivate);
         row.state == final.state && row.code == final.code && (row.active <==> IsActive(final.state))
    case Erased => p.id !in db.rows
    case Pinned =>
      && p.id in db.rows
      && var row := db.rows[p.id];
         && !row.active && row.state.Draft? && row.code.Pending? && row.trustedCert == a.sealed
         && row.revision == p.rev + 1 && row.owner == "" && row.manifest == "" && row.phase.NoPhase?
         && row.baseline.Unset? && row.publication.NotPublished? && row.retryCount == 0
    case Silent => p.id in db.rows && !db.rows[p.id].active
    case Fine => p.id in db.rows
  }

  // What has been recorded about artifacts that are in order, and about unrelated VPNs.
  ghost predicate Accounted(db: Database, p: Pass, a: Answers)
    reads db
  {
    && p.id in db.rows && db.rows[p.id].owner == OwnerOf(p.vpn, a) && db.rows[p.id].manifest == a.manifest
    && db.rows[p.id].publication == p.vpn.publication
  }

  ghost predicate Inventoried(db: Database, p: Pass, a: Answers)
    reads db
  {
    p.id in db.rows && a.before.Some? && db.rows[p.id].baseline == Recorded(a.before.value)
  }

  ghost predicate OnRecord(db: Database, p: Pass, a: Answers)
    reads db
  {
    && Inventoried(db, p, a) && db.rows[p.id].owner == OwnerOf(p.vpn, a) && db.rows[p.id].manifest == a.manifest
    && db.rows[p.id].publication.Published?
  }

  // A draft gets its artifacts, unless something of that name is in the way.
  method Generate(db: Database, p: Pass, a: Answers, now: int, known: string) returns (go: bool, owner: string)
    requires db.Sound(p, a) && !db.concluded && known == if p.vpn.state.Draft? then p.vpn.owner else ""
    requires FromDraft(p.vpn) && (Interrupted(p.vpn) ==> p.vpn.owner != "" && a.partialsOwned)
    modifies db
    ensures db.Sound(p, a) && (go ==> !db.concluded && owner == if a.filesExist then known else a.newOwner)
    ensures go ==> DraftVerdict(a, known).Fine?
    ensures old(db.Calm(p, 4) && db.rows[p.id].owner == known) ==>
              && (go <==> DraftVerdict(a, known).Fine?)
              && if go then
                   && db.Calm(p, old(|db.others|) - 2)
                   && db.rows[p.id].owner == owner && db.rows[p.id].manifest == a.manifest
                   && db.rows[p.id].phase.Generated?
                   && db.rows[p.id].baseline == old(db.rows)[p.id].baseline
                   && db.rows[p.id].publication == old(db.rows)[p.id].publication
                 else Ends(db, p, a, DraftVerdict(a, known))
  {
    go, owner := false, known;
    var o;
    if a.containerExists {
      o := db.Settle(Rejected(ContainerCollision), now, p, a);
      return;
    }
    if a.filesExist {
      if known == "" || !a.filesOwned {
        o := db.Settle(Rejected(SlugFilesCollision), now, p, a);
        return;
      }
    } else {
      owner := a.newOwner;
      o := db.Write(SetPhase(p.id, p.rev, p.token, Generating, Owner(owner)), p, a);
      if !o.Applied? {
        return;
      }
      if !a.generated {
        o := db.Settle(Rejected(GenerationFailed), now, p, a);
        return;
      }
    }
    if a.manifest == "" {
      o := db.Settle(Rejected(GenerationFailed), now, p, a);
      return;
    }
    o := db.Write(SetPhase(p.id, p.rev, p.token, Generated, Manifest(a.manifest)), p, a);
    go := o.Applied?;
  }

  // A VPN marked for deletion goes, or stays as evidence.
  method CleanUp(db: Database, p: Pass, a: Answers, now: int)
    requires db.Sound(p, a) && !db.concluded && p.vpn.state.Deleting? && !p.vpn.phase.Generating?
    modifies db
    ensures db.Sound(p, a)
    ensures old(db.Calm(p, 2) && db.rows[p.id].state.Deleting?) ==>
              Ends(db, p, a, if a.cleanup.Done? then Erased else Says(Result(Blocked, CleanupFailed, false)))
  {
    var o;
    if a.cleanup.Done? {
      o := db.Write(Erase(p.id, p.rev, p.token), p, a);
      if !o.Refused? {
        return;
      }
    }
    o := db.Settle(Result(Blocked, CleanupFailed, false), now, p, a);
  }

  // The part of `process_vpn` that answers for the artifacts, or removes them.
  method SecureArtifacts(db: Database, p: Pass, a: Answers, now: int) returns (go: bool, owner: string, phase: Phase)
    requires db.Sound(p, a) && !db.concluded
    modifies db
    ensures db.Sound(p, a)
    ensures go ==> !db.concluded && owner == OwnerOf(p.vpn, a) && ArtifactsOwned(p.vpn, a)
    ensures go ==> phase == if Interrupted(p.vpn) then NoPhase else p.vpn.phase
    ensures old(db.Calm(p, 5) && db.rows[p.id] == p.vpn) ==>
              && (go <==> ArtifactVerdict(p.vpn, a).Fine?)
              && if go then
                   && db.Calm(p, old(|db.others|) - 3) && Accounted(db, p, a)
                   && db.rows[p.id].baseline == p.vpn.baseline
                   && db.rows[p.id].phase == (if FromDraft(p.vpn) then Generated else p.vpn.phase)
                 else Ends(db, p, a, ArtifactVerdict(p.vpn, a))
  {
    go, owner, phase := false, p.vpn.owner, p.vpn.phase;
    var o;
    if Interrupted(p.vpn) {
      if owner == "" || !a.partialsOwned {
        o := db.Settle(Rejected(ArtifactOwnershipFailed), now, p, a);
        return;
      }
      o := db.Write(SetPhase(p.id, p.rev, p.token, NoPhase, Forget), p, a);
      if !o.Applied? {
        return;
      }
      owner, phase := "", NoPhase;
    } else if p.vpn.state.Deleting? {
      CleanUp(db, p, a, now);
      return;
    }
    if FromDraft(p.vpn) {
      go, owner := Generate(db, p, a, now, owner);
    } else if owner == "" || !a.filesOwned || p.vpn.manifest == "" || a.manifest != p.vpn.manifest {
      o := db.Settle(Rejected(ArtifactOwnershipFailed), now, p, a);
    } else {
      go := true;
    }
  }

  // Static validation, then the comparison with unrelated VPNs.
  method Validate(db: Database, p: Pass, a: Answers, now: int) returns (go: bool, baseline: Snapshot)
    requires db.Sound(p, a) && !db.concluded
    modifies db
    ensures db.Sound(p, a)
    ensures go ==> !db.concluded && ValidationVerdict(p.vpn, a).Fine? && a.before == Some(baseline)
    ensures old(db.Calm(p, 6) && Accounted(db, p, a) && db.rows[p.id].baseline == p.vpn.baseline) ==>
              && (go <==> ValidationVerdict(p.vpn, a).Fine?)
              && if go then
                   db.Calm(p, old(|db.others|) - 4) && Accounted(db, p, a) && Inventoried(db, p, a)
                   && db.rows[p.id].phase.Validated?
                 else Ends(db, p, a, ValidationVerdict(p.vpn, a))
  {
    go, baseline := false, map[];
    if a.preflight.Raises? {
      return;
    }
    var o := db.Settle(if a.preflight.Valid? then Result(Validating, LocalValidated, false) else Rejected(ConfigInvalid),
                       now, p, a);
    if !o.Applied? || !a.preflight.Valid? {
      return;
    }
    go, baseline := CheckIsolation(db, p, a, now);
  }

  // The inventory of unrelated VPNs against the recorded one, or the first to be recorded.
  method CheckIsolation(db: Database, p: Pass, a: Answers, now: int) returns (go: bool, baseline: Snapshot)
    requires db.Sound(p, a) && !db.concluded && a.preflight.Valid?
    modifies db
    ensures db.Sound(p, a)
    ensures go ==> !db.concluded && IsolationVerdict(p.vpn, a).Fine? && a.before == Some(baseline)
    ensures old(db.Calm(p, 4) && Accounted(db, p, a) && db.rows[p.id].baseline == p.vpn.baseline) ==>
              && (go <==> IsolationVerdict(p.vpn, a).Fine?)
              && if go then
                   db.Calm(p, old(|db.others|) - 2) && Accounted(db, p, a) && Inventoried(db, p, a)
                   && db.rows[p.id].phase.Validated?
                 else Ends(db, p, a, IsolationVerdict(p.vpn, a))
  {
    go, baseline := false, map[];
    var o;
    if a.before.None? {
      o := db.Settle(IsolationBroken(IsolationSnapshotFailed), now, p, a);
      return;
    }
    match p.vpn.baseline {
      case Corrupt =>
        o := db.Settle(IsolationBroken(IsolationBaselineInvalid), now, p, a);
        return;
      case Recorded(snapshot) =>
        if snapshot != a.before.value {
          o := db.Settle(IsolationBroken(RuntimeIsolationChanged), now, p, a);
          return;
        }
      case Unset =>
        o := db.Write(SetPhase(p.id, p.rev, p.token, Validated, SetBaseline(a.before.value)), p, a);
        if !o.Applied? {
          return;
        }
    }
    baseline := a.before.value;
    o := db.Write(SetPhase(p.id, p.rev, p.token, Validated, Nothing), p, a);
    go := o.Applied?;
  }

  // The container is ours and runs, or is started without touching an unrelated VPN.
  method Start(db: Database, p: Pass, a: Answers, now: int, owner: string, baseline: Snapshot) returns (go: bool)
    requires db.Sound(p, a) && !db.concluded && owner == OwnerOf(p.vpn, a) && a.before == Some(baseline)
    modifies db
    ensures db.Sound(p, a) && (go ==> !db.concluded && RuntimeOwned(p.vpn, p.rev, a))
    ensures old(db.Calm(p, 3) && Accounted(db, p, a) && Inventoried(db, p, a)) ==>
              && (go <==> RuntimeVerdict(p.vpn, p.rev, a).Fine?)
              && if go then
                   db.Calm(p, old(|db.others|) - 2) && Accounted(db, p, a) && Inventoried(db, p, a)
                   && db.rows[p.id].phase == (if NeedsStart(a) then RuntimeWait else old(db.rows)[p.id].phase)
                 else Ends(db, p, a, RuntimeVerdict(p.vpn, p.rev, a))
  {
    go := false;
    var o;
    if !Labelled(a.container, owner, p.rev) {
      o := db.Settle(Rejected(RuntimeOwnershipFailed), now, p, a);
      return;
    }
    if NeedsStart(a) {
      o := db.Write(SetPhase(p.id, p.rev, p.token, Starting, Nothing), p, a);
      if !o.Applied? {
        return;
      }
      if !a.started {
        o := db.Settle(Result(Offline, ContainerStartFailed, true), now, p, a);
        return;
      }
      if a.afterStart != Some(baseline) {
        o := db.Settle(IsolationBroken(RuntimeIsolationChanged), now, p, a);
        return;
      }
      o := db.Write(SetPhase(p.id, p.rev, p.token, RuntimeWait, Nothing), p, a);
      if !o.Applied? {
        return;
      }
    }
    go := true;
  }

  // `_handle_ssl_certificate`; `handled` also when the process died on the way.
  method HandleCertificate(db: Database, p: Pass, a: Answers, now: int, result: Result)
    returns (r: Result, handled: bool, raised: bool)
    requires db.Sound(p, a) && !db.concluded && WellFormed(result) && (result.state.Online? ==> result.code.OnlineCode?)
    requires result.code.ContainerNotRunning? || result.code.DaemonNotRunning? ==>
               Ready(p, a) && a.after == a.before && a.evidence.Some? && NotUp(a.evidence.value)
    modifies db
    ensures db.Sound(p, a) && !db.concluded && WellFormed(r) && !(handled && raised)
    ensures result.state.Online? ==> r == result && !handled && !raised
    ensures IsActive(r.state) ==> r == result
    ensures old(db.Calm(p, 1)) ==>
              var v := CertificateVerdict(p.vpn, a, result);
              if handled then v.Pinned? && Ends(db, p, a, v)
              else db.rows == old(db.rows) && db.Calm(p, old(|db.others|)) && v == Says(if raised then PROBE_FAILED else r)
  {
    r, handled, raised := result, false, false;
    if !p.vpn.settings.kind.Ssl? || (!result.code.ContainerNotRunning? && !result.code.DaemonNotRunning?) {
      return;
    }
    if a.digests.None? || a.digests.value == {} {
      return;
    }
    if p.vpn.trustedCert != "" {
      if a.unsealed.None? {
        r := Result(Blocked, CertificateStateInvalid, false);
      } else if exists digest <- a.digests.value :: digest != a.unsealed.value {
        r := Result(Blocked, CertificateChanged, false);
      }
      return;
    }
    if |a.digests.value| != 1 {
      r := Result(Blocked, CertificateAmbiguous, false);
      return;
    }
    if !p.vpn.settings.acceptCertificate {
      r := Result(Blocked, CertificateUntrusted, false);
      return;
    }
    if a.sealed == "" || a.cleanup.OtherError? {
      r := Result(Blocked, CertificateAcceptanceFailed, false);
      return;
    }
    if a.cleanup.OwnershipError? {
      raised := true;
      return;
    }
    var o := db.Write(Pin(p.id, p.rev, p.token, a.sealed, now), p, a);
    handled, raised := o.Applied? || o.Died?, o.Refused? || o.Missing?;
  }

  // The activation of a verified VPN; `dead` when the process died on the way.
  method Promote(db: Database, p: Pass, a: Answers, phase: Phase) returns (result: Result, raised: bool, dead: bool)
    requires db.Sound(p, a) && !db.concluded && Verified(p, a) && p.vpn.autoActivate
    requires phase == if Interrupted(p.vpn) then NoPhase else p.vpn.phase
    modifies db
    ensures db.Sound(p, a) && !db.concluded
    ensures !raised && !dead ==> WellFormed(result) && (IsActive(result.state) ==> Justified(p, a))
    ensures old(db.Calm(p, 2) && Accounted(db, p, a) && Inventoried(db, p, a)) ==>
              && !dead && db.Calm(p, old(|db.others|) - if raised then 1 else 2)
              && PromotionVerdict(p.vpn, a) == Says(if raised then PROBE_FAILED else result)
              && (!raised && result.state.Active? ==> OnRecord(db, p, a))
    ensures !raised && !dead ==> !result.state.Online?
  {
    result, raised, dead := Result(Active, ActiveCode, false), false, false;
    if p.vpn.publication.Published? {
      return;
    }
    var o := db.Write(SetPhase(p.id, p.rev, p.token, phase, Publish(Publishing)), p, a);
    if !o.Applied? {
      raised, dead := !o.Died?, o.Died?;
      return;
    }
    if a.activation.None? {
      raised := true;
      return;
    }
    result := ActivationResult(a.activation.value);
    if result.state.Active? {
      o := db.Write(SetPhase(p.id, p.rev, p.token, phase, Publish(Published)), p, a);
      raised, dead := o.Refused? || o.Missing?, o.Died?;
    }
  }

  // The gates; true if an exception leaves this part.
  method Gates(db: Database, p: Pass, a: Answers, now: int, baseline: Snapshot, phase: Phase) returns (raised: bool)
    requires db.Sound(p, a) && !db.concluded && a.before == Some(baseline)
    requires ArtifactsOwned(p.vpn, a) && a.preflight.Valid? && RuntimeOwned(p.vpn, p.rev, a)
    requires p.vpn.baseline.Unset? || p.vpn.baseline == Recorded(baseline)
    requires phase == if Interrupted(p.vpn) then NoPhase else p.vpn.phase
    modifies db
    ensures db.Sound(p, a) && (raised ==> !db.concluded)
    ensures old(db.Calm(p, 4) && Accounted(db, p, a) && Inventoried(db, p, a)) ==>
              if raised then GateVerdict(p.vpn, a) == Says(PROBE_FAILED) && db.Calm(p, old(|db.others|) - 1)
              else Ends(db, p, a, GateVerdict(p.vpn, a)) && (db.rows[p.id].active ==> OnRecord(db, p, a))
  {
    if a.evidence.None? {
      return true;
    }
    ClassificationMeaning(p.vpn.settings, a.evidence.value);
    EvidenceCodes(p.vpn.settings, a.evidence.value);
    var result := ClassifyEvidence(p.vpn.settings, a.evidence.value);
    if a.after != Some(baseline) {
      result := IsolationBroken(RuntimeIsolationChanged);
    }
    assert result.state.Online? <==> Verified(p, a);
    var handled;
    result, handled, raised := HandleCertificate(db, p, a, now, result);
    if handled || raised {
      return;
    }
    raised := Conclude(db, p, a, now, phase, result);
  }

  // The last steps of the guarded part: activation where it is due, and the stored result.
  method Conclude(db: Database, p: Pass, a: Answers, now: int, phase: Phase, found: Result) returns (raised: bool)
    requires db.Sound(p, a) && !db.concluded && WellFormed(found)
    requires (IsActive(found.state) ==> found.state.Online?) && (found.state.Online? ==> Verified(p, a))
    requires phase == if Interrupted(p.vpn) then NoPhase else p.vpn.phase
    modifies db
    ensures db.Sound(p, a) && (raised ==> !db.concluded)
    ensures old(db.Calm(p, 4) && Accounted(db, p, a) && Inventoried(db, p, a)) ==>
              var v := if found.state.Online? && p.vpn.autoActivate then PromotionVerdict(p.vpn, a) else Says(found);
              if raised then v == Says(PROBE_FAILED) && db.Calm(p, old(|db.others|) - 1)
              else Ends(db, p, a, v) && (db.rows[p.id].active ==> OnRecord(db, p, a))
  {
    var result := found;
    if result.state.Online? && p.vpn.autoActivate {
      var dead;
      result, raised, dead := Promote(db, p, a, phase);
      if raised || dead {
        return;
      }
    }
    var o := db.Settle(result, now, p, a);
    raised := o.Refused? || o.Missing?;
  }

  /**
   `process_vpn`. Whatever other connections do meanwhile, the pass stays within
   what `Sound` allows: it activates the VPN only if that is justified. Left to
   itself it carries out its verdict, and activates the VPN exactly then.
   */
  method ProcessVpn(db: Database, p: Pass, a: Answers, now: int)
    requires db.Sound(p, a) && !db.concluded
    modifies db
    ensures db.Sound(p, a)
    ensures old(db.Calm(p, 15) && db.rows[p.id] == p.vpn) ==> Ends(db, p, a, PassVerdict(p, a))
    ensures old(db.Calm(p, 15) && db.rows[p.id] == p.vpn) ==>
              (p.id in db.rows && db.rows[p.id].active <==> Justified(p, a)) && (Justified(p, a) ==> OnRecord(db, p, a))
  {
    CarryOut(db, p, a, now);
    if Ends(db, p, a, PassVerdict(p, a)) {
      EndsActive(db, p, a);
    }
  }

  lemma EndsActive(db: Database, p: Pass, a: Answers)
    requires Ends(db, p, a, PassVerdict(p, a))
    ensures p.id in db.rows && db.rows[p.id].active <==> Justified(p, a)
  {
    VerdictMeaning(p, a);
    ArtifactVerdictMeaning(p.vpn, a);
    MiddleVerdictsMeaning(p.vpn, p.rev, a);
    GateVerdictMeaning(p.vpn, a);
  }

  // The parts of a pass, one after the other.
  method CarryOut(db: Database, p: Pass, a: Answers, now: int)
    requires db.Sound(p, a) && !db.concluded
    modifies db
    ensures db.Sound(p, a)
    ensures old(db.Calm(p, 15) && db.rows[p.id] == p.vpn) ==>
              && Ends(db, p, a, PassVerdict(p, a))
              && (p.id in db.rows && db.rows[p.id].active ==> OnRecord(db, p, a))
  {
    ArtifactVerdictMeaning(p.vpn, a);
    MiddleVerdictsMeaning(p.vpn, p.rev, a);
    var go, owner, phase := SecureArtifacts(db, p, a, now);
    if !go {
      return;
    }
    var baseline;
    go, baseline := Validate(db, p, a, now);
    if !go {
      return;
    }
    go := Start(db, p, a, now, owner, baseline);
    if !go {
      return;
    }
    PassGates(db, p, a, now, baseline, phase);
  }

  // The guarded part with its handler.
  method PassGates(db: Database, p: Pass, a: Answers, now: int, baseline: Snapshot, phase: Phase)
    requires db.Sound(p, a) && !db.concluded && a.before == Some(baseline)
    requires ArtifactsOwned(p.vpn, a) && a.preflight.Valid? && RuntimeOwned(p.vpn, p.rev, a)
    requires p.vpn.baseline.Unset? || p.vpn.baseline == Recorded(baseline)
    requires phase == if Interrupted(p.vpn) then NoPhase else p.vpn.phase
    modifies db
    ensures db.Sound(p, a)
    ensures old(db.Calm(p, 4) && Accounted(db, p, a) && Inventoried(db, p, a)) ==>
              Ends(db, p, a, GateVerdict(p.vpn, a)) && (db.rows[p.id].active ==> OnRecord(db, p, a))
  {
    var raised := Gates(db, p, a, now, baseline, phase);
    if raised {
      var o := db.Settle(PROBE_FAILED, now, p, a);
    }
  }

  /**
   `_claim`: the row read after the update is the one the pass works on, and the
   pass starts out sound, however stale the row that `reconcile_once` chose was.
   */
  method MakeClaim(db: Database, id: nat, rev: nat, token: string, now: int, ghost a: Answers)
    returns (claimed: Option<Pass>)
    requires token != "" && !Holds(db.rows, id, token)
    requires forall k, m :: 0 <= k < |db.others| && 0 <= m < |db.others[k]| ==>
               !Own(db.others[k][m], token)
    modifies db
    ensures claimed.Some? ==>
              var p := claimed.value;
              && p.id == id && p.token == token && p.rev == rev && p.vpn.revision == rev
              && db.Sound(p, a) && !db.concluded && Holds(db.rows, id, token) && p.vpn == db.rows[id]
    ensures claimed.Some? ==> old(Matches(db.rows, Claim(id, rev, token, now)))
    ensures old(Matches(db.rows, Claim(id, rev, token, now)) && db.others != [] && db.others[0] == []) ==>
              claimed.Some? && claimed.value.vpn == Updated(old(db.rows)[id], Claim(id, rev, token, now))
  {
    var s := Claim(id, rev, token, now);
    if !Matches(db.rows, s) {
      return None;
    }
    db.rows := Exec(db.rows, s);
    db.log, db.concluded := [], false;
    var p := Pass(id, token, rev, db.rows[id]);
    var alive := db.Yield(p, a);
    if !alive || !Holds(db.rows, id, token) {
      return None;
    }
    return Some(p.(vpn := db.rows[id]));
  }

  // `_release`
  method GiveUp(db: Database, p: Pass, ghost a: Answers)
    requires db.Sound(p, a)
    modifies db
    ensures db.Sound(p, a)
    ensures old(db.others) != [] ==> !Holds(db.rows, p.id, p.token)
  {
    var alive := db.Yield(p, a);
    if alive {
      db.Record(Release(p.id, p.token), p, a);
    }
  }

  /** The body of the loop of `reconcile_once`, for a row that was read earlier. */
  method ReconcileRow(db: Database, id: nat, seen: Row, token: string, now: int, a: Answers)
    returns (pass: Option<Pass>)
    requires token != "" && !Holds(db.rows, id, token)
    requires forall k, m :: 0 <= k < |db.others| && 0 <= m < |db.others[k]| ==> !Own(db.others[k][m], token)
    modifies db
    ensures pass.Some? ==>
              && pass.value.id == id && pass.value.token == token && pass.value.rev == seen.revision
              && Picks(seen, now) && db.Sound(pass.value, a)
    ensures !Picks(seen, now) ==> db.rows == old(db.rows)
    ensures (&& Picks(seen, now) && old(Matches(db.rows, Claim(id, seen.revision, token, now)))
             && old(db.others != [] && db.others[0] == [])) ==> pass.Some?
  {
    if !Picks(seen, now) {
      return None;
    }
    pass := MakeClaim(db, id, seen.revision, token, now, a);
    if pass.Some? {
      ProcessVpn(db, pass.value, a, now);
      GiveUp(db, pass.value, a);
    }
  }

  function Statements(log: seq<Event>): (run: seq<Statement>) {
    seq(|log|, i requires 0 <= i < |log| => log[i].s)
  }

  /** The log of a pass, interference included, is a run in the sense of the fencing theorems. */
  lemma {:induction false} LogIsRun(db: Database, k: nat)
    requires db.Chained() && k < |db.log|
    ensures At(db.log[0].before, Statements(db.log), k) == db.log[k].before
  {
    if k == 0 {
      assert Statements(db.log)[..0] == [];
    } else {
      LogIsRun(db, k - 1);
      AtNext(db.log[0].before, Statements(db.log), k - 1);
      assert db.log[k].before == Exec(db.log[k - 1].before, db.log[k - 1].s);
    }
  }

  /** What the pass delivers to `Fencing.LeftAlone`: after a conclusive result it only releases its lock. */
  lemma PassConcludes(db: Database, p: Pass, a: Answers, i: nat, j: nat)
    requires db.Sound(p, a) && i < j < |db.log|
    requires
      var run := Statements(db.log);
      && run[i].Store? && run[i].token == p.token && Matches(At(db.log[0].before, run, i), run[i])
      && (Failure(run[i].result) || Success(run[i].result))
      && OfPass(run[j]) && run[j].token == p.token
    ensures Statements(db.log)[j].Release?
  {
    LogIsRun(db, i);
    assert Concluding(db.log[i], p) && Own(db.log[j].s, p.token);
  }

  /** Activation safety over the run: where the pass turns the row active, that is justified. */
  lemma ActivationIsJustified(db: Database, p: Pass, a: Answers, i: nat)
    requires db.Sound(p, a) && i < |db.log| && Own(db.log[i].s, p.token)
    requires
      var before, after := At(db.log[0].before, Statements(db.log), i), At(db.log[0].before, Statements(db.log), i + 1);
      p.id in before && !before[p.id].active && p.id in after && after[p.id].active
    ensures Justified(p, a)
  {
    LogIsRun(db, i);
    AtNext(db.log[0].before, Statements(db.log), i);
    OnlyStoreActivates(db.log[i].before, db.log[i].s, p.id);
    assert Warranted(db.log[i], p, a);
  }

  // Corners of the code that the theorems above bring out.

  function GoodAnswers(unrelated: Snapshot): (a: Answers) {
    Answers(true, Done, false, false, true, "o", true, "m", Valid, Some(unrelated), Absent, true, Some(unrelated),
            Some(Evidence(true, true, true, true, true, true, true, true, false, false, true, true, true, true, true)),
            Some(unrelated), None, None, "", Some(Activation(0, true, true, true)))
  }

  /**
   A VPN marked for deletion can be activated again, instead of being cleaned up,
   exactly when its generation was interrupted under a known owner.
   */
  lemma DeletionHonoured(p: Pass)
    requires p.vpn.state.Deleting?
    ensures (exists a :: Justified(p, a)) <==>
              p.vpn.phase.Generating? && p.vpn.owner != "" && p.vpn.autoActivate && !p.vpn.baseline.Corrupt?
  {
    if p.vpn.phase.Generating? && p.vpn.owner != "" && p.vpn.autoActivate && !p.vpn.baseline.Corrupt? {
      assert Justified(p, GoodAnswers(if p.vpn.baseline.Unset? then map[] else p.vpn.baseline.snapshot));
    }
  }

  // A generation that fails leaves its phase and its owner in the row.
  function FailedGeneration(): (run: seq<Statement>) {
    [Claim(1, 0, "a", 100),
     SetPhase(1, 0, "a", Generating, Owner("o")),
     Store(1, 0, "a", Rejected(GenerationFailed), 100, 0, true),
     Release(1, "a"),
     Delete(1)]
  }

  /** It happens: the administrator deletes a draft whose generation has failed. */
  lemma DeletionForgotten(settings: Settings)
    ensures
      var rows := After(map[1 := NewRow(settings, "", true, true)], FailedGeneration());
      && 1 in rows && rows[1].state.Deleting? && Picks(rows[1], 100)
      && exists a :: Justified(Pass(1, "b", rows[1].revision, rows[1]), a)
  {
    var last := After(map[1 := NewRow(settings, "", true, true)], FailedGeneration());
    FailedGenerationLeaves(settings);
    DeletionHonoured(Pass(1, "b", last[1].revision, last[1]));
  }

  lemma FailedGenerationLeaves(settings: Settings)
    ensures
      var rows := After(map[1 := NewRow(settings, "", true, true)], FailedGeneration());
      && 1 in rows && rows[1].state.Deleting? && Picks(rows[1], 100)
      && rows[1].phase.Generating? && rows[1].owner != "" && rows[1].autoActivate && rows[1].baseline.Unset?
  {
    var rows, run := map[1 := NewRow(settings, "", true, true)], FailedGeneration();
    assert At(rows, run, 0) == rows;
    AtNext(rows, run, 0);
    AtNext(rows, run, 1);
    AtNext(rows, run, 2);
    AtNext(rows, run, 3);
    AtNext(rows, run, 4);
    assert run[..5] == run;
  }

  /** What an edit leaves of a row: everything that the gates depend on is new, and the pass begins again. */
  lemma EditEffect(rows: Table, id: nat, settings: Settings, certificate: string)
    requires id in rows
    ensures
      var edited, row := After(rows, [Prepare(id), Save(id, settings, certificate), Reset(id)]), rows[id];
      && id in edited
      && edited[id] == row.(
           settings := settings, trustedCert := certificate, revision := row.revision + 1, active := false,
           state := Draft, code := Pending, nextRetry := None, retryCount := 0, token := "", lockUntil := None,
           phase := NoPhase, owner := "", manifest := "")
  {
    var run := [Prepare(id), Save(id, settings, certificate), Reset(id)];
    assert At(rows, run, 0) == rows;
    AtNext(rows, run, 0);
    AtNext(rows, run, 1);
    AtNext(rows, run, 2);
    assert run[..3] == run;
  }

  /**
   An edit of an inactive VPN keeps a recorded publication, so that a pass over the edited VPN
   may activate it without the activation check.
   */
  lemma EditKeepsPublication(rows: Table, id: nat, settings: Settings, certificate: string, token: string, a: Answers)
    requires id in rows && !rows[id].active && rows[id].publication.Published? && rows[id].autoActivate
    ensures
      var edited := After(rows, [Prepare(id), Save(id, settings, certificate), Reset(id)]);
      && id in edited && edited[id].revision == rows[id].revision + 1 && Picks(edited[id], 0)
      && var p := Pass(id, token, edited[id].revision, edited[id]);
         Justified(p, a) <==> Verified(p, a)
  {
    EditEffect(rows, id, settings, certificate);
  }

  // A VPN is activated, and later marked for deletion.
  function ActivatedThenDeleted(): (run: seq<Statement>) {
    [Claim(1, 0, "a", 100),
     SetPhase(1, 0, "a", Generated, Publish(Published)),
     Store(1, 0, "a", Result(Active, ActiveCode, false), 100, 0, true),
     Release(1, "a"),
     Delete(1)]
  }

  /** Such a row is reached: the administrator deletes an active VPN, and edits it before it has been cleaned up. */
  lemma PublicationOutlivesActivity(settings: Settings)
    ensures
      var rows, run := map[1 := NewRow(settings, "", true, true)], ActivatedThenDeleted();
      var active, last := At(rows, run, 3), After(rows, run);
      && 1 in active && active[1].active
      && 1 in last && !last[1].active && last[1].publication.Published? && last[1].autoActivate
  {
    var rows, run := map[1 := NewRow(settings, "", true, true)], ActivatedThenDeleted();
    assert At(rows, run, 0) == rows;
    AtNext(rows, run, 0);
    AtNext(rows, run, 1);
    AtNext(rows, run, 2);
    AtNext(rows, run, 3);
    AtNext(rows, run, 4);
    assert run[..5] == run;
  }
}
