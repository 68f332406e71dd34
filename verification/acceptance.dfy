/**
 Which posted results the panel takes (panel-app/app.py, panel-app/vpn_endpoint_health.py):
 an exact condition on the tables, and what an accepted batch does to them.
 */
module MonitorAcceptance {
  import opened Wrappers
  import opened EndpointHealth
  import opened MonitorProtocol

  /** The row of the same target has a later observation, made under another lease. */
  predicate Overtaken(w: World, p: Post)
    requires p.vpn in w.leases
  {
    && p.vpn in w.rows
    && w.rows[p.vpn].revision == p.revision && w.rows[p.vpn].generation == w.leases[p.vpn].generation
    && w.rows[p.vpn].lease != w.leases[p.vpn].id && p.checkedAt < w.rows[p.vpn].checkedAt
  }

  /** The result is for an active VPN as it is now, under the lease in force, and nothing later is stored. */
  predicate Acceptable(w: World, p: Post) {
    && IsActive(w.vpns, p.vpn) && p.vpn in w.leases
    && w.leases[p.vpn].generation == w.vpns[p.vpn].generation
    && (p.lease.Some? ==> p.lease.value == w.leases[p.vpn])
    && w.vpns[p.vpn].target == Some(Target(p.revision, p.evidence.probe))
    && !Overtaken(w, p)
  }

  /** The result is already in the row. */
  predicate AlreadyStored(w: World, p: Post)
    requires p.vpn in w.leases
  {
    && p.vpn in w.rows && w.rows[p.vpn].lease == w.leases[p.vpn].id
    && w.rows[p.vpn].revision == p.revision && w.rows[p.vpn].generation == w.leases[p.vpn].generation
  }

  predicate Passes(o: Outcome) {
    o.Repeated? || o.Stored?
  }

  function RowAfter(previous: Option<Row>, r: Report): Option<Row> {
    match Apply(previous, r) case Stored(row, _) => Some(row) case _ => previous
  }

  // ----- One result -----

  lemma ResolvedExactly(w: World, p: Post)
    ensures Resolve(w.vpns, w.leases, p).Ok? <==>
              && IsActive(w.vpns, p.vpn) && p.vpn in w.leases
              && w.leases[p.vpn].generation == w.vpns[p.vpn].generation
              && (p.lease.Some? ==> p.lease.value == w.leases[p.vpn])
              && w.vpns[p.vpn].target == Some(Target(p.revision, p.evidence.probe))
    ensures Resolve(w.vpns, w.leases, p).Ok? ==>
              var lease := w.leases[p.vpn];
              Resolve(w.vpns, w.leases, p).value ==
              Report(p.vpn, p.revision, lease.generation, lease.cycle, lease.id, p.evidence, p.checkedAt)
  {
  }

  /** The row shows the result and the lease it was made under. */
  predicate RowShows(row: Row, p: Post, lease: Lease) {
    && row.evidence == p.evidence && row.checkedAt == p.checkedAt && row.revision == p.revision
    && row.generation == lease.generation && row.cycle == lease.cycle && row.lease == lease.id
  }

  lemma PassesExactly(w: World, p: Post)
    requires Inv(w) && Resolve(w.vpns, w.leases, p).Ok?
    ensures
      var r, row := Resolve(w.vpns, w.leases, p).value, Find(w.rows, p.vpn);
      && r.vpn == p.vpn && p.vpn in w.leases
      && (Passes(Apply(row, r)) <==> !Overtaken(w, p))
      && (Apply(row, r).Repeated? <==> AlreadyStored(w, p))
      && (Apply(row, r).Stored? ==> RowShows(RowAfter(row, r).value, p, w.leases[p.vpn]))
  {
    ResolvedExactly(w, p);
    assert LeaseOk(w, p.vpn);
    if p.vpn in w.rows {
      assert RowOk(w, p.vpn);
    }
  }

  // ----- A batch -----

  predicate DistinctReports(reports: seq<Report>) {
    forall k, m :: 0 <= k < m < |reports| ==> reports[k].vpn != reports[m].vpn
  }

  predicate Untouched(reports: seq<Report>, v: nat) {
    forall k :: 0 <= k < |reports| ==> reports[k].vpn != v
  }

  /** Each result passes in the tables as they are. */
  predicate AllPass(w: World, reports: seq<Report>) {
    reports == [] || (AllPass(w, reports[..|reports| - 1]) && PassesIn(w, reports[|reports| - 1]))
  }

  predicate PassesIn(w: World, r: Report) {
    Passes(Apply(Find(w.rows, r.vpn), r))
  }

  lemma {:induction false} AllPassMeaning(w: World, reports: seq<Report>)
    ensures AllPass(w, reports) <==> forall k :: 0 <= k < |reports| ==> PassesIn(w, reports[k])
  {
    if reports != [] {
      var front := reports[..|reports| - 1];
      AllPassMeaning(w, front);
      assert forall k :: 0 <= k < |front| ==> front[k] == reports[k];
    }
  }

  /** A batch leaves other rows alone. */
  lemma {:induction false} OthersStay(w: World, reports: seq<Report>, v: nat)
    requires ApplyAll(w, reports).Ok? && Untouched(reports, v)
    ensures Find(ApplyAll(w, reports).value.rows, v) == Find(w.rows, v)
  {
    if reports != [] {
      var n := |reports| - 1;
      OthersStay(w, reports[..n], v);
    }
  }

  /** Later results of a batch meet the rows as they were before it. */
  lemma {:induction false} ApplyAllExactly(w: World, reports: seq<Report>)
    requires DistinctReports(reports)
    ensures ApplyAll(w, reports).Ok? <==> AllPass(w, reports)
  {
    if reports != [] {
      var n := |reports| - 1;
      ApplyAllExactly(w, reports[..n]);
      if ApplyAll(w, reports[..n]).Ok? {
        LastDecides(w, reports);
      }
    }
  }

  lemma LastDecides(w: World, reports: seq<Report>)
    requires reports != [] && DistinctReports(reports) && ApplyAll(w, reports[..|reports| - 1]).Ok?
    ensures
      var last := reports[|reports| - 1];
      ApplyAll(w, reports).Ok? <==> PassesIn(w, last)
  {
    var n := |reports| - 1;
    var next := ApplyAll(w, reports[..n]).value;
    OthersStay(w, reports[..n], reports[n].vpn);
    PassingApplies(next, reports[n], Find(w.rows, reports[n].vpn));
  }

  lemma PassingApplies(w: World, r: Report, row: Option<Row>)
    requires row == Find(w.rows, r.vpn)
    ensures ApplyReport(w, r).Ok? <==> Passes(Apply(row, r))
  {
  }

  lemma {:induction false} ApplyAllRows(w: World, reports: seq<Report>, k: nat)
    requires DistinctReports(reports) && ApplyAll(w, reports).Ok? && k < |reports|
    ensures Find(ApplyAll(w, reports).value.rows, reports[k].vpn) == RowAfter(Find(w.rows, reports[k].vpn), reports[k])
  {
    if k < |reports| - 1 {
      RowBeforeLast(w, reports, reports[k].vpn);
      ApplyAllRows(w, reports[..|reports| - 1], k);
    } else {
      LastRow(w, reports);
    }
  }

  lemma RowBeforeLast(w: World, reports: seq<Report>, v: nat)
    requires ApplyAll(w, reports).Ok? && reports != [] && reports[|reports| - 1].vpn != v
    ensures
      var front := ApplyAll(w, reports[..|reports| - 1]);
      front.Ok? && Find(ApplyAll(w, reports).value.rows, v) == Find(front.value.rows, v)
  {
    OtherRowStays(ApplyAll(w, reports[..|reports| - 1]).value, reports[|reports| - 1], v);
  }

  lemma LastRow(w: World, reports: seq<Report>)
    requires DistinctReports(reports) && ApplyAll(w, reports).Ok? && reports != []
    ensures
      var last := reports[|reports| - 1];
      Find(ApplyAll(w, reports).value.rows, last.vpn) == RowAfter(Find(w.rows, last.vpn), last)
  {
    OthersStay(w, reports[..|reports| - 1], reports[|reports| - 1].vpn);
    OwnRow(ApplyAll(w, reports[..|reports| - 1]).value, reports[|reports| - 1]);
  }

  lemma OtherRowStays(w: World, r: Report, v: nat)
    requires ApplyReport(w, r).Ok? && r.vpn != v
    ensures Find(ApplyReport(w, r).value.rows, v) == Find(w.rows, v)
  {
  }

  lemma OwnRow(w: World, r: Report)
    requires ApplyReport(w, r).Ok?
    ensures Find(ApplyReport(w, r).value.rows, r.vpn) == RowAfter(Find(w.rows, r.vpn), r)
  {
  }

  lemma {:induction false} AllRepeated(w: World, reports: seq<Report>)
    requires forall k :: 0 <= k < |reports| ==> Apply(Find(w.rows, reports[k].vpn), reports[k]).Repeated?
    ensures ApplyAll(w, reports) == Ok(w)
  {
    if reports != [] {
      AllRepeated(w, reports[..|reports| - 1]);
    }
  }

  lemma {:induction false} ResolvedAll(w: World, posts: seq<Post>)
    ensures ResolveAll(w.vpns, w.leases, posts).Ok? <==>
              forall k :: 0 <= k < |posts| ==> Resolve(w.vpns, w.leases, posts[k]).Ok?
    ensures ResolveAll(w.vpns, w.leases, posts).Ok? ==>
              var reports := ResolveAll(w.vpns, w.leases, posts).value;
              && |reports| == |posts|
              && forall k :: 0 <= k < |posts| ==> Resolve(w.vpns, w.leases, posts[k]) == Ok(reports[k])
  {
    if posts != [] {
      var n := |posts| - 1;
      ResolvedAll(w, posts[..n]);
      assert forall k :: 0 <= k < n ==> posts[..n][k] == posts[k];
    }
  }

  /** The panel takes a batch exactly if it is small enough and each result in it is acceptable, one for each VPN. */
  lemma {:induction false} AcceptedExactly(w: World, posts: seq<Post>)
    requires Inv(w)
    ensures Accept(w, posts).Ok? <==>
              && |posts| <= 500 && DistinctVpns(posts)
              && forall k :: 0 <= k < |posts| ==> Acceptable(w, posts[k])
  {
    forall k | 0 <= k < |posts|
      ensures Acceptable(w, posts[k]) <==> Resolve(w.vpns, w.leases, posts[k]).Ok? && !Overtaken(w, posts[k])
    {
      ResolvedExactly(w, posts[k]);
    }
    ResolvedAll(w, posts);
    if ResolveAll(w.vpns, w.leases, posts).Ok? && DistinctVpns(posts) {
      BatchExactly(w, posts);
    }
  }

  lemma {:induction false} BatchExactly(w: World, posts: seq<Post>)
    requires Inv(w) && DistinctVpns(posts) && ResolveAll(w.vpns, w.leases, posts).Ok?
    ensures forall k :: 0 <= k < |posts| ==> posts[k].vpn in w.leases
    ensures ApplyAll(w, ResolveAll(w.vpns, w.leases, posts).value).Ok? <==>
              forall k :: 0 <= k < |posts| ==> !Overtaken(w, posts[k])
  {
    ResolvedAll(w, posts);
    var reports := ResolveAll(w.vpns, w.leases, posts).value;
    forall k | 0 <= k < |posts|
      ensures reports[k].vpn == posts[k].vpn && posts[k].vpn in w.leases
      ensures PassesIn(w, reports[k]) <==> !Overtaken(w, posts[k])
    {
      PassesExactly(w, posts[k]);
    }
    ApplyAllExactly(w, reports);
    AllPassMeaning(w, reports);
  }

  /**
   After an accepted batch each of its VPNs has a row that shows the result and the lease in
   force, except where the row was under that lease already: then it is as it was. Rows of
   other VPNs are as they were.
   */
  lemma {:induction false} AcceptedEffect(w: World, posts: seq<Post>, k: nat, v: nat)
    requires Inv(w) && Accept(w, posts).Ok? && k < |posts| && forall m :: 0 <= m < |posts| ==> posts[m].vpn != v
    ensures
      var next, p := Accept(w, posts).value, posts[k];
      && p.vpn in w.leases && p.vpn in next.rows
      && (if AlreadyStored(w, p) then next.rows[p.vpn] == w.rows[p.vpn]
          else RowShows(next.rows[p.vpn], p, w.leases[p.vpn]))
      && Find(next.rows, v) == Find(w.rows, v)
      && next.vpns == w.vpns && next.leases == w.leases
  {
    ResolvedAll(w, posts);
    var reports := ResolveAll(w.vpns, w.leases, posts).value;
    forall m | 0 <= m < |posts| ensures reports[m].vpn == posts[m].vpn {
      ResolvedExactly(w, posts[m]);
    }
    ApplyAllExactly(w, reports);
    AllPassMeaning(w, reports);
    ApplyAllRows(w, reports, k);
    OthersStay(w, reports, v);
    PassesExactly(w, posts[k]);
    TablesStay(w, reports);
  }

  lemma {:induction false} TablesStay(w: World, reports: seq<Report>)
    requires ApplyAll(w, reports).Ok?
    ensures ApplyAll(w, reports).value.vpns == w.vpns && ApplyAll(w, reports).value.leases == w.leases
  {
    if reports != [] {
      TablesStay(w, reports[..|reports| - 1]);
    }
  }

  /** A batch that is posted again under the same leases is accepted and changes nothing at all. */
  lemma {:induction false} RepeatedChangesNothing(w: World, posts: seq<Post>)
    requires Inv(w) && |posts| <= MONITOR_MAX_BATCH && DistinctVpns(posts)
    requires forall k :: 0 <= k < |posts| ==> Acceptable(w, posts[k]) && AlreadyStored(w, posts[k])
    ensures Accept(w, posts) == Ok(w)
  {
    ResolvedAll(w, posts);
    forall k | 0 <= k < |posts| ensures Resolve(w.vpns, w.leases, posts[k]).Ok? {
      ResolvedExactly(w, posts[k]);
    }
    var reports := ResolveAll(w.vpns, w.leases, posts).value;
    forall k | 0 <= k < |posts| ensures Apply(Find(w.rows, reports[k].vpn), reports[k]).Repeated? {
      PassesExactly(w, posts[k]);
    }
    AllRepeated(w, reports);
  }

  // ----- Refusals -----

  /** What is wrong with a result before the stored rows are looked at. */
  function Objection(w: World, p: Post): Option<string> {
    if !IsActive(w.vpns, p.vpn) then Some("target_unavailable")
    else
      var vpn, lease := w.vpns[p.vpn], Find(w.leases, p.vpn);
      if lease.None? || (p.lease.Some? && p.lease.value.generation != vpn.generation) then Some("stale_target_generation")
      else if lease.value.generation != vpn.generation || (p.lease.Some? && p.lease != lease) then Some("invalid_monitor_lease")
      else if vpn.target.None? then Some("target_unavailable")
      else if vpn.target.value.revision != p.revision then Some("stale_target_revision")
      else if vpn.target.value.probe != p.evidence.probe then Some("probe_type_mismatch")
      else None
  }

  lemma ObjectionMeaning(w: World, p: Post)
    ensures Objection(w, p).None? <==> Resolve(w.vpns, w.leases, p).Ok?
    ensures Objection(w, p).Some? ==> Resolve(w.vpns, w.leases, p) == Refused(Objection(w, p).value)
  {
  }

  /**
   Why a batch is refused: its size, a VPN that occurs twice or is not active, the objection to
   the first result that has one, or a later observation in a stored row.
   */
  lemma {:induction false} RefusedBecause(w: World, posts: seq<Post>)
    requires Inv(w) && Accept(w, posts).Refused?
    ensures
      var code := Accept(w, posts).code;
      if |posts| > 500 then code == "invalid_request"
      else if !DistinctVpns(posts) then code == "duplicate_vpn_id"
      else if exists k :: 0 <= k < |posts| && !IsActive(w.vpns, posts[k].vpn) then code == "target_unavailable"
      else if exists k :: 0 <= k < |posts| && Objection(w, posts[k]).Some? then FirstObjection(w, posts, code)
      else code == "stale_cycle" && exists k :: 0 <= k < |posts| && posts[k].vpn in w.leases && Overtaken(w, posts[k])
  {
    if |posts| <= 500 && DistinctVpns(posts) {
      ResolvedAll(w, posts);
      forall k | 0 <= k < |posts| ensures Objection(w, posts[k]).None? <==> Resolve(w.vpns, w.leases, posts[k]).Ok? {
        ObjectionMeaning(w, posts[k]);
      }
      if ResolveAll(w.vpns, w.leases, posts).Refused? {
        ObjectionDecides(w, posts);
      } else {
        BatchExactly(w, posts);
        StaleBatch(w, posts);
      }
    }
  }

  ghost predicate FirstObjection(w: World, posts: seq<Post>, code: string) {
    exists k :: 0 <= k < |posts| && IsFirst(w, posts, k) && Objection(w, posts[k]) == Some(code)
  }

  ghost predicate IsFirst(w: World, posts: seq<Post>, k: nat)
    requires k <= |posts|
  {
    forall m :: 0 <= m < k ==> Objection(w, posts[m]).None?
  }

  lemma {:induction false} ObjectionDecides(w: World, posts: seq<Post>)
    requires ResolveAll(w.vpns, w.leases, posts).Refused?
    ensures FirstObjection(w, posts, ResolveAll(w.vpns, w.leases, posts).code)
  {
    var n := |posts| - 1;
    var front := posts[..n];
    if ResolveAll(w.vpns, w.leases, front).Refused? {
      ObjectionDecides(w, front);
      var k :| 0 <= k < n && IsFirst(w, front, k) && Objection(w, front[k]) == Some(ResolveAll(w.vpns, w.leases, front).code);
      assert IsFirst(w, posts, k) by {
        assert forall m :: 0 <= m < k ==> posts[m] == front[m];
      }
      assert Objection(w, posts[k]) == Some(ResolveAll(w.vpns, w.leases, posts).code);
    } else {
      ResolvedAll(w, front);
      forall m | 0 <= m < n ensures Objection(w, posts[m]).None? {
        assert front[m] == posts[m];
        ObjectionMeaning(w, posts[m]);
      }
      ObjectionMeaning(w, posts[n]);
      assert IsFirst(w, posts, n);
    }
  }

  lemma {:induction false} StaleBatch(w: World, posts: seq<Post>)
    requires Inv(w) && DistinctVpns(posts) && ResolveAll(w.vpns, w.leases, posts).Ok?
    requires ApplyAll(w, ResolveAll(w.vpns, w.leases, posts).value).Refused?
    ensures ApplyAll(w, ResolveAll(w.vpns, w.leases, posts).value).code == "stale_cycle"
  {
    ResolvedAll(w, posts);
    var reports := ResolveAll(w.vpns, w.leases, posts).value;
    forall k | 0 <= k < |posts|
      ensures reports[k].vpn == posts[k].vpn && !Apply(Find(w.rows, reports[k].vpn), reports[k]).StaleRevision?
    {
      NeverStaleRevision(w, posts[k]);
    }
    OnlyStaleCycles(w, reports);
  }

  lemma NeverStaleRevision(w: World, p: Post)
    requires Inv(w) && Resolve(w.vpns, w.leases, p).Ok?
    ensures
      var r := Resolve(w.vpns, w.leases, p).value;
      r.vpn == p.vpn && !Apply(Find(w.rows, r.vpn), r).StaleRevision?
  {
    ResolvedExactly(w, p);
    if p.vpn in w.rows {
      assert RowOk(w, p.vpn);
    }
  }

  lemma {:induction false} OnlyStaleCycles(w: World, reports: seq<Report>)
    requires DistinctReports(reports) && ApplyAll(w, reports).Refused?
    requires forall k :: 0 <= k < |reports| ==> !Apply(Find(w.rows, reports[k].vpn), reports[k]).StaleRevision?
    ensures ApplyAll(w, reports).code == "stale_cycle"
  {
    var n := |reports| - 1;
    if ApplyAll(w, reports[..n]).Ok? {
      OthersStay(w, reports[..n], reports[n].vpn);
      RefusedReport(ApplyAll(w, reports[..n]).value, reports[n]);
    } else {
      OnlyStaleCycles(w, reports[..n]);
    }
  }

  lemma RefusedReport(w: World, r: Report)
    requires !Apply(Find(w.rows, r.vpn), r).StaleRevision?
    ensures ApplyReport(w, r).Refused? ==> ApplyReport(w, r).code == "stale_cycle"
  {
  }

  // ----- From fetch to result -----

  /** A fetch gives each VPN of the page its id and the next cycle of its generation, and no other VPN a lease. */
  lemma {:induction false} FetchEffect(w: World, page: seq<nat>, ids: seq<string>, k: nat, v: nat)
    requires |page| == |ids| && (forall u :: u in page ==> u in w.vpns)
    requires (forall i, j :: 0 <= i < j < |page| ==> page[i] != page[j]) && k < |page| && v !in page
    ensures
      var next, prior := IssueAll(w, page, ids), Find(w.leases, page[k]);
      && page[k] in next.leases
      && next.leases[page[k]] ==
           Lease(w.vpns[page[k]].generation,
                 if prior.Some? && prior.value.generation == w.vpns[page[k]].generation then prior.value.cycle + 1 else 1,
                 ids[k])
      && Find(next.leases, v) == Find(w.leases, v) && next.rows == w.rows && next.vpns == w.vpns
  {
    var n := |page| - 1;
    assert forall u :: u in page[..n] ==> u in page;
    OthersKeepLease(w, page[..n], ids[..n], page[n]);
    OthersKeepLease(w, page, ids, v);
    if k < n {
      FetchEffect(w, page[..n], ids[..n], k, v);
    }
  }

  lemma {:induction false} OthersKeepLease(w: World, page: seq<nat>, ids: seq<string>, v: nat)
    requires |page| == |ids| && (forall u :: u in page ==> u in w.vpns) && v !in page
    ensures Find(IssueAll(w, page, ids).leases, v) == Find(w.leases, v)
    ensures IssueAll(w, page, ids).rows == w.rows
  {
    if page != [] {
      var n := |page| - 1;
      assert forall u :: u in page[..n] ==> u in page;
      OthersKeepLease(w, page[..n], ids[..n], v);
    }
  }

  /** The result of a target that was just fetched is accepted, unless it was observed before the one stored last. */
  lemma {:induction false} FreshResultIsAcceptable(w: World, page: seq<nat>, ids: seq<string>, k: nat, v: nat,
                                                   evidence: Evidence, at: nat)
    requires |page| == |ids| && (forall u :: u in page ==> u in w.vpns)
    requires (forall i, j :: 0 <= i < j < |page| ==> page[i] != page[j]) && k < |page| && v !in page
    requires IsActive(w.vpns, page[k]) && w.vpns[page[k]].target.Some?
    requires evidence.probe == w.vpns[page[k]].target.value.probe
    requires page[k] in w.rows ==> w.rows[page[k]].checkedAt <= at
    ensures
      var next := IssueAll(w, page, ids);
      && page[k] in next.leases
      && Acceptable(next, Post(page[k], w.vpns[page[k]].target.value.revision, evidence, at, Some(next.leases[page[k]])))
  {
    FetchEffect(w, page, ids, k, v);
  }
}
