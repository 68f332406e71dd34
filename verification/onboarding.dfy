/**
 The onboarding row of a VPN and the SQL statements that change it: those of a
 reconciler pass (panel-app/vpn_reconciler.py, panel-app/vpn_onboarding.py) and
 those of the administrator's routes (panel-app/app.py). A statement is one UPDATE,
 DELETE or INSERT: atomic, and doing nothing where its WHERE clause fails.
 */
module Onboarding {
  import opened Wrappers

  datatype State =
    | Draft | Validating | WaitingGateway | WaitingTarget | Blocked | Active | Offline | AuthFailed
    | ProposalFailed | ControlPlaneUp | Installed | Online | VerifiedPendingActivation | Deleting

  datatype Code =
    // retried sooner: the target does not answer
    | TargetTcpUnreachable | TargetUnreachable | RouteMissing
    // retried: the tunnel is not up
    | PeerNoResponse | GatewayDnsFailed | ContainerMissing | IkeSaMissing | ChildSaMissing | RouteOrXfrmMissing
    | ContainerStartFailed | RuntimeProbeFailed | TunnelMissing | ContainerNotRunning | DaemonNotRunning
    | RuntimeChanged | VipMissing | RuntimeIsolationChanged
    // not retried
    | NoCode | Pending | LocalValidated | OnlineCode | ActiveCode | VerifiedPending | ManualActivationRequested
    | DeletingCode | AuthRejected | ProposalRejected | ConfigInvalid | ContainerCollision | SlugFilesCollision
    | GenerationFailed | ArtifactOwnershipFailed | RuntimeOwnershipFailed | IsolationSnapshotFailed
    | IsolationBaselineInvalid | CleanupFailed | CertificateStateInvalid | CertificateChanged
    | CertificateAmbiguous | CertificateUntrusted | CertificateAcceptanceFailed | ActivationPublicationRequired
    | ActivationRuntimeChanged | ActivationPortsPresent | ActivationComposeInvalid

  datatype Result = Result(state: State, code: Code, retryable: bool)

  // Containers of unrelated VPNs, by name.
  type Snapshot = map<string, string>
  datatype Baseline = Unset | Corrupt | Recorded(snapshot: Snapshot)
  datatype Phase = NoPhase | Generating | Generated | Validated | Starting | RuntimeWait
  datatype Publication = NotPublished | Publishing | Published
  datatype Kind = Ssl | Ipsec | Pptp | OpenVpn

  // The columns an administrator edits, as far as the gates look at them.
  datatype Settings = Settings(kind: Kind, pullsAddress: bool, acceptCertificate: bool)

  datatype Row = Row(
    settings: Settings, trustedCert: string, active: bool, state: State, code: Code, nextRetry: Option<int>,
    retryCount: nat, autoActivate: bool, revision: nat, token: string, lockUntil: Option<int>, phase: Phase,
    owner: string, manifest: string, baseline: Baseline, publication: Publication)

  type Table = map<nat, Row>

  // `retry_delay`

  predicate TargetCode(code: Code) {
    code.TargetTcpUnreachable? || code.TargetUnreachable? || code.RouteMissing?
  }

  predicate ControlCode(code: Code) {
    || code.PeerNoResponse? || code.GatewayDnsFailed? || code.ContainerMissing? || code.IkeSaMissing?
    || code.ChildSaMissing? || code.RouteOrXfrmMissing? || code.ContainerStartFailed? || code.RuntimeProbeFailed?
    || code.TunnelMissing? || code.ContainerNotRunning? || code.DaemonNotRunning? || code.RuntimeChanged?
    || code.VipMissing? || code.RuntimeIsolationChanged?
  }

  predicate RetryableCode(code: Code) {
    || code.PeerNoResponse? || code.GatewayDnsFailed? || code.TargetTcpUnreachable? || code.ContainerMissing?
    || code.TargetUnreachable? || code.IkeSaMissing? || code.ChildSaMissing? || code.RouteOrXfrmMissing?
    || code.ContainerStartFailed? || code.RuntimeProbeFailed? || code.TunnelMissing? || code.RouteMissing?
    || code.ContainerNotRunning? || code.DaemonNotRunning? || code.RuntimeChanged? || code.VipMissing?
    || code.RuntimeIsolationChanged?
  }

  function Schedule(code: Code): (delays: seq<nat>) {
    if TargetCode(code) then [60, 300, 900] else if ControlCode(code) then [60, 300, 900, 1800] else []
  }

  function RetryDelay(code: Code, retryCount: nat): (delay: Option<nat>) {
    var schedule := Schedule(code);
    if schedule == [] then None else Some(schedule[if retryCount < |schedule| then retryCount else |schedule| - 1])
  }

  /** The codes that may be retried are those with a schedule, and waiting never gets shorter. */
  lemma DelaysGrow(code: Code, few: nat, many: nat)
    requires few <= many
    ensures RetryDelay(code, few).Some? <==> RetryableCode(code)
    ensures RetryableCode(code) ==> 60 <= RetryDelay(code, few).value <= RetryDelay(code, many).value <= 1800
    ensures RetryableCode(code) ==>
              RetryDelay(code, many).value ==
              if many == 0 then 60 else if many == 1 then 300 else if many == 2 || TargetCode(code) then 900 else 1800
    ensures TargetCode(code) <==> code in {TargetTcpUnreachable, TargetUnreachable, RouteMissing}
  {
  }

  // `set_validation_state`

  predicate IsActive(state: State) {
    state.Active? || state.Online?
  }

  // What is stored for a result, given the `auto_activate` read just before.
  function Settled(result: Result, auto: bool): (r: Result) {
    if result.state.Online? && !auto
    then Result(VerifiedPendingActivation, VerifiedPending, result.retryable)
    else result
  }

  function Stored(row: Row, result: Result, now: int, previous: nat, auto: bool): (r: Row) {
    var final := Settled(result, auto);
    var retry := final.retryable && RetryableCode(final.code) && !IsActive(final.state);
    var delay := if retry then RetryDelay(final.code, previous) else None;
    row.(state := final.state, code := final.code, active := IsActive(final.state),
         nextRetry := if delay.Some? then Some(now + delay.value) else None,
         retryCount := if retry then previous + 1 else if IsActive(final.state) then 0 else previous)
  }

  // `_eligible` and the filter of `reconcile_once`

  predicate Considered(row: Row) {
    && !row.active
    && (row.state.Draft? ==> row.code.NoCode? || row.code.Pending?)
    && (row.state.Draft? || row.state.Validating? || row.state.Offline? || row.state.ControlPlaneUp?
        || row.state.Installed? || row.state.Deleting?)
  }

  predicate Picks(row: Row, now: int) {
    Considered(row) && (row.nextRetry.None? || row.nextRetry.value <= now)
  }

  // The statements

  datatype Statement =
    // a pass, fenced by the token of its claim
    | Claim(id: nat, rev: nat, token: string, now: int)
    | Release(id: nat, token: string)
    | Store(id: nat, rev: nat, token: string, result: Result, now: int, previous: nat, auto: bool)
    | SetPhase(id: nat, rev: nat, token: string, phase: Phase, change: Change)
    | Pin(id: nat, rev: nat, token: string, certificate: string, now: int)
    | Erase(id: nat, rev: nat, token: string)
    // the administrator
    | Activate(id: nat)
    | Delete(id: nat)
    | Prepare(id: nat)
    | Save(id: nat, settings: Settings, trustedCert: string)
    | Reset(id: nat)
    | Insert(id: nat, settings: Settings, trustedCert: string, draft: bool, auto: bool)

  // The columns `_phase` may set besides the phase.
  datatype Change =
    | Nothing
    | Owner(owner: string)
    | Manifest(manifest: string)
    | Forget
    | SetBaseline(snapshot: Snapshot)
    | Publish(publication: Publication)

  predicate OfPass(s: Statement) {
    s.Release? || Fenced(s)
  }

  predicate Fenced(s: Statement) {
    s.Store? || s.SetPhase? || s.Pin? || s.Erase?
  }

  predicate LockFree(row: Row, now: int) {
    row.lockUntil.None? || row.lockUntil.value < now || row.token == ""
  }

  // The WHERE clause.
  predicate Matches(rows: Table, s: Statement) {
    match s
    case Claim(id, rev, _, now) => id in rows && !rows[id].active && rows[id].revision == rev && LockFree(rows[id], now)
    case Release(id, token) => id in rows && rows[id].token == token
    case Erase(id, rev, token) =>
      id in rows && rows[id].state.Deleting? && rows[id].token == token && rows[id].revision == rev
    case Store(_, _, _, _, _, _, _) => s.id in rows && rows[s.id].revision == s.rev && rows[s.id].token == s.token
    case SetPhase(id, rev, token, _, _) => id in rows && rows[id].revision == rev && rows[id].token == token
    case Pin(id, rev, token, _, _) => id in rows && rows[id].revision == rev && rows[id].token == token
    case Activate(id) => id in rows && !rows[id].active && rows[id].state.VerifiedPendingActivation?
    case Insert(id, _, _, _, _) => id !in rows
    case Delete(id) => id in rows
    case Prepare(id) => id in rows
    case Save(id, _, _) => id in rows
    case Reset(id) => id in rows
  }

  function Changed(row: Row, change: Change): (r: Row) {
    match change
    case Nothing => row
    case Owner(owner) => row.(owner := owner)
    case Manifest(manifest) => row.(manifest := manifest)
    case Forget => row.(owner := "", manifest := "")
    case SetBaseline(snapshot) => row.(baseline := Recorded(snapshot))
    case Publish(publication) => row.(publication := publication)
  }

  // The SET clause.
  function Updated(row: Row, s: Statement): (r: Row)
    requires !s.Erase? && !s.Insert?
  {
    match s
    case Claim(_, _, token, now) => row.(token := token, lockUntil := Some(now + 300))
    case Release(_, _) => row.(token := "", lockUntil := None)
    case Store(_, _, _, result, now, previous, auto) => Stored(row, result, now, previous, auto)
    case SetPhase(_, _, _, phase, change) => Changed(row.(phase := phase), change)
    case Pin(_, _, _, certificate, now) =>
      row.(trustedCert := certificate, state := Draft, code := Pending, active := false, nextRetry := Some(now),
           retryCount := 0, phase := NoPhase, owner := "", manifest := "", baseline := Unset,
           publication := NotPublished, revision := row.revision + 1)
    case Activate(_) =>
      row.(autoActivate := true, state := Installed, code := ManualActivationRequested, nextRetry := Some(0),
           token := "", lockUntil := None)
    case Delete(_) =>
      row.(active := false, state := Deleting, code := DeletingCode, nextRetry := Some(0), token := "",
           lockUntil := None)
    case Prepare(_) => row.(phase := NoPhase, owner := "", manifest := "")
    case Save(_, settings, trustedCert) =>
      row.(settings := settings, trustedCert := trustedCert, revision := row.revision + 1, token := "",
           lockUntil := None)
    case Reset(_) => row.(active := false, state := Draft, code := Pending, nextRetry := None, retryCount := 0)
  }

  function NewRow(settings: Settings, trustedCert: string, draft: bool, auto: bool): (r: Row) {
    Row(settings, trustedCert, !draft, if draft then Draft else Active, if draft then Pending else NoCode, None, 0,
        auto, 0, "", None, NoPhase, "", "", Unset, NotPublished)
  }

  function Exec(rows: Table, s: Statement): (r: Table) {
    if !Matches(rows, s) then rows
    else if s.Erase? then rows - {s.id}
    else if s.Insert? then rows[s.id := NewRow(s.settings, s.trustedCert, s.draft, s.auto)]
    else rows[s.id := Updated(rows[s.id], s)]
  }

  /** Only an inactive row of the revision that was read is claimed; its lock holds for 300 seconds, or until it is released. */
  lemma LockIsRespected(rows: Table, id: nat, rev: nat, token: string, now: int, other: string, later: int)
    requires Matches(rows, Claim(id, rev, token, now)) && token != ""
    ensures id in rows && !rows[id].active && rows[id].revision == rev
    ensures
      var claimed := Exec(rows, Claim(id, rev, token, now));
      && (Matches(claimed, Claim(id, rev, other, later)) <==> now + 300 < later)
      && Matches(Exec(claimed, Release(id, token)), Claim(id, rev, other, later))
  {
  }

  /** What the administrator asks for is taken up by the next pass. */
  lemma AdministratorIsHeard(rows: Table, s: Statement, now: int)
    requires Matches(rows, s) && now >= 0
    requires s.Activate? || s.Delete? || s.Reset? || (s.Insert? && s.draft)
    ensures
      var row := Exec(rows, s)[s.id];
      && Picks(row, now) && (!s.Reset? ==> row.token == "" && LockFree(row, now))
      && (s.Activate? ==> row.state.Installed? && row.autoActivate)
      && (s.Delete? ==> row.state.Deleting?)
      && (s.Reset? || s.Insert? ==> row.state.Draft? && row.code.Pending? && row.retryCount == 0)
  {
  }

  /**
   A statement leaves other rows alone. Settings are changed by the administrator's edit only;
   the certificate by that and by a pin; the revision goes up with either; auto-activation is
   switched on by hand only; claim and release change nothing but the lock.
   */
  lemma WhoChanges(rows: Table, s: Statement, id: nat)
    requires id in rows && id in Exec(rows, s)
    ensures
      var before, after := rows[id], Exec(rows, s)[id];
      && (s.id != id || s.Insert? || s.Erase? || !Matches(rows, s) ==> after == before)
      && (before.settings != after.settings ==> s.Save?)
      && (before.trustedCert != after.trustedCert ==> s.Save? || s.Pin?)
      && after.revision == before.revision + (if s.id == id && Matches(rows, s) && (s.Save? || s.Pin?) then 1 else 0)
      && (before.autoActivate != after.autoActivate ==> s.Activate? && after.autoActivate)
      && (s.Claim? || s.Release? ==> after == before.(token := after.token, lockUntil := after.lockUntil))
      && (before.state != after.state || before.code != after.code || before.retryCount != after.retryCount ==>
            s.Store? || s.Pin? || s.Activate? || s.Delete? || s.Reset?)
      && (before.baseline != after.baseline ==> s.SetPhase? || s.Pin?)
      && (before.publication != after.publication ==> s.SetPhase? || s.Pin?)
      && (before.owner != after.owner || before.manifest != after.manifest || before.phase != after.phase ==>
            s.SetPhase? || s.Pin? || s.Prepare?)
  {
  }

  /** What a phase statement does to the columns, one by one. */
  lemma PhaseEffect(rows: Table, s: Statement)
    requires s.SetPhase? && Matches(rows, s)
    ensures
      var before, after, change := rows[s.id], Exec(rows, s)[s.id], s.change;
      && after.phase == s.phase
      && after.owner == (if change.Owner? then change.owner else if change.Forget? then "" else before.owner)
      && after.manifest == (if change.Manifest? then change.manifest else if change.Forget? then "" else before.manifest)
      && after.baseline == (if change.SetBaseline? then Recorded(change.snapshot) else before.baseline)
      && after.publication == (if change.Publish? then change.publication else before.publication)
  {
  }

  /** A new VPN is a draft that waits for its first pass, or active from the start. */
  lemma InsertEffect(rows: Table, s: Statement)
    requires s.Insert? && Matches(rows, s)
    ensures
      var row := Exec(rows, s)[s.id];
      && row.settings == s.settings && row.trustedCert == s.trustedCert && row.autoActivate == s.auto
      && (if s.draft then !row.active && row.state.Draft? && row.code.Pending?
          else row.active && row.state.Active? && row.code.NoCode?)
      && row.nextRetry.None? && row.retryCount == 0 && row.revision == 0 && row.token == "" && row.lockUntil.None?
      && row.phase.NoPhase? && row.owner == "" && row.manifest == "" && row.baseline.Unset? && row.publication.NotPublished?
  {
  }

  /** After a pin the VPN starts over under its new revision, at once and with the certificate trusted. */
  lemma PinStartsOver(rows: Table, s: Statement, later: int)
    requires s.Pin? && Matches(rows, s) && s.now <= later
    ensures
      var row := Exec(rows, s)[s.id];
      && Picks(row, later) && row.state.Draft? && row.retryCount == 0 && row.trustedCert == s.certificate
      && row.phase.NoPhase? && row.owner == "" && row.manifest == "" && row.baseline.Unset? && row.publication.NotPublished?
  {
  }

  /** A row disappears only while it is marked for deletion, by the pass that holds it. */
  lemma OnlyErasureRemoves(rows: Table, s: Statement, id: nat)
    requires id in rows && id !in Exec(rows, s)
    ensures s.Erase? && s.id == id && rows[id].state.Deleting? && rows[id].token == s.token && rows[id].revision == s.rev
  {
  }

  // `classify_evidence`

  datatype Evidence = Evidence(
    containerRunning: bool, daemonRunning: bool, ikeEstablished: bool, childInstalled: bool, routesOk: bool,
    xfrmOk: bool, targetOk: bool, peerReplied: bool, authFailed: bool, proposalFailed: bool, vipOk: bool,
    stable: bool, targetTcpOk: bool, trafficOut: bool, trafficIn: bool)

  function TargetFailure(e: Evidence): (r: Result) {
    if e.trafficOut && e.trafficIn && !e.targetTcpOk
    then Result(Installed, TargetTcpUnreachable, true)
    else Result(Installed, TargetUnreachable, true)
  }

  function ClassifyEvidence(settings: Settings, e: Evidence): (r: Result) {
    if !e.containerRunning then Result(Offline, ContainerNotRunning, true)
    else if !e.stable then Result(Offline, RuntimeChanged, true)
    else if !e.daemonRunning then Result(Offline, DaemonNotRunning, true)
    else if e.authFailed then Result(AuthFailed, AuthRejected, false)
    else if e.proposalFailed then Result(ProposalFailed, ProposalRejected, false)
    else if !settings.kind.Ipsec? then
      if !e.ikeEstablished then Result(Offline, TunnelMissing, true)
      else if !e.routesOk then Result(Installed, RouteMissing, true)
      else if !e.targetOk then TargetFailure(e)
      else Result(Online, OnlineCode, false)
    else if !e.ikeEstablished then Result(Offline, if e.peerReplied then IkeSaMissing else PeerNoResponse, true)
    else if !e.childInstalled then Result(ControlPlaneUp, ChildSaMissing, true)
    else if settings.pullsAddress && !e.vipOk then Result(Installed, VipMissing, true)
    else if !e.routesOk || !e.xfrmOk then Result(Installed, RouteOrXfrmMissing, true)
    else if !e.targetOk then TargetFailure(e)
    else Result(Online, OnlineCode, false)
  }

  /** Every gate that the kind of VPN has is open. */
  predicate AllGates(settings: Settings, e: Evidence) {
    && e.containerRunning && e.stable && e.daemonRunning && !e.authFailed && !e.proposalFailed
    && e.ikeEstablished && e.routesOk && e.targetOk
    && (settings.kind.Ipsec? ==> e.childInstalled && e.xfrmOk && (settings.pullsAddress ==> e.vipOk))
  }

  // What a result means for the row: try again later, leave it alone, or go on.
  predicate Transient(result: Result) {
    && result.retryable && RetryableCode(result.code)
    && (result.state.Offline? || result.state.Installed? || result.state.ControlPlaneUp?)
  }

  predicate Failure(result: Result) {
    && !result.retryable
    && (result.state.Blocked? || result.state.AuthFailed? || result.state.ProposalFailed?
        || (result.state.Draft? && !result.code.NoCode? && !result.code.Pending?))
  }

  predicate Success(result: Result) {
    !result.retryable && IsActive(result.state)
  }

  predicate Progress(result: Result) {
    result == Result(Validating, LocalValidated, false)
  }

  predicate WellFormed(result: Result) {
    Transient(result) || Failure(result) || Success(result) || Progress(result)
  }

  lemma ClassificationMeaning(settings: Settings, e: Evidence)
    ensures
      var r := ClassifyEvidence(settings, e);
      && (IsActive(r.state) <==> AllGates(settings, e))
      && (Failure(r) <==> e.containerRunning && e.stable && e.daemonRunning && (e.authFailed || e.proposalFailed))
      && (Transient(r) <==> !Success(r) && !Failure(r))
  {
  }

  /** Each code of the classification, by the gates that lead to it, with the state it puts the row in. */
  lemma EvidenceCodes(settings: Settings, e: Evidence)
    ensures
      var r := ClassifyEvidence(settings, e);
      var up := e.containerRunning && e.stable && e.daemonRunning;
      var trusted := up && !e.authFailed && !e.proposalFailed;
      var ipsec, ike := settings.kind.Ipsec?, trusted && e.ikeEstablished;
      var child := ike && ipsec && e.childInstalled;
      var address := child && (settings.pullsAddress ==> e.vipOk);
      var routed := if ipsec then address && e.routesOk && e.xfrmOk else ike && e.routesOk;
      && (r == Result(Offline, ContainerNotRunning, true) <==> !e.containerRunning)
      && (r == Result(Offline, RuntimeChanged, true) <==> e.containerRunning && !e.stable)
      && (r == Result(Offline, DaemonNotRunning, true) <==> e.containerRunning && e.stable && !e.daemonRunning)
      && (r == Result(AuthFailed, AuthRejected, false) <==> up && e.authFailed)
      && (r == Result(ProposalFailed, ProposalRejected, false) <==> up && !e.authFailed && e.proposalFailed)
      && (r == Result(Offline, TunnelMissing, true) <==> trusted && !ipsec && !e.ikeEstablished)
      && (r == Result(Installed, RouteMissing, true) <==> ike && !ipsec && !e.routesOk)
      && (r == Result(Offline, PeerNoResponse, true) <==> trusted && ipsec && !e.ikeEstablished && !e.peerReplied)
      && (r == Result(Offline, IkeSaMissing, true) <==> trusted && ipsec && !e.ikeEstablished && e.peerReplied)
      && (r == Result(ControlPlaneUp, ChildSaMissing, true) <==> ike && ipsec && !e.childInstalled)
      && (r == Result(Installed, VipMissing, true) <==> child && settings.pullsAddress && !e.vipOk)
      && (r == Result(Installed, RouteOrXfrmMissing, true) <==> address && !(e.routesOk && e.xfrmOk))
      && (r == Result(Installed, TargetTcpUnreachable, true) <==>
            routed && !e.targetOk && e.trafficOut && e.trafficIn && !e.targetTcpOk)
      && (r == Result(Installed, TargetUnreachable, true) <==>
            routed && !e.targetOk && !(e.trafficOut && e.trafficIn && !e.targetTcpOk))
      && (r == Result(Online, OnlineCode, false) <==> routed && e.targetOk)
      && (r.code.ContainerNotRunning? <==> !e.containerRunning)
      && (r.code.DaemonNotRunning? <==> e.containerRunning && e.stable && !e.daemonRunning)
  {
  }

  /**
   Storing a transient result leaves the row to be picked up again after exactly
   the scheduled delay; storing a failure, or a verified VPN that waits for the
   administrator, leaves a row that is never picked up.
   */
  lemma StoredIsPickedUp(row: Row, result: Result, now: int, previous: nat, auto: bool, later: int)
    requires WellFormed(result)
    ensures
      var r := Stored(row, result, now, previous, auto);
      && (r.active <==> IsActive(r.state))
      && (Transient(result) ==>
            var delay := RetryDelay(result.code, previous).value;
            && delay in {60, 300, 900, 1800} && r.retryCount == previous + 1
            && (Picks(r, later) <==> now + delay <= later))
      && (Failure(result) || Success(result) ==> !Considered(r))
      && (Progress(result) ==> Picks(r, later))
      && (r.active <==> Success(result) && (result.state.Online? ==> auto))
      && (if result.state.Online? && !auto then r.state.VerifiedPendingActivation? && r.code.VerifiedPending?
          else r.state == result.state && r.code == result.code)
      && (!Transient(result) ==> r.nextRetry.None? && r.retryCount == if r.active then 0 else previous)
  {
  }
}
