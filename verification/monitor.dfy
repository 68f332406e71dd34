/**
 The lease protocol between the panel and its endpoint monitors (the two monitor routes of
 panel-app/app.py): leases are issued with the targets, results come back duplicated, late
 or out of order while administrators edit the VPNs, and health rows are updated.
 */
module MonitorProtocol {
  import opened Wrappers
  import opened EndpointHealth

  datatype Target = Target(revision: string, probe: string)

  /** `target` is `None` where the row does not describe a probe target. */
  datatype Vpn = Vpn(active: bool, generation: nat, target: Option<Target>)

  datatype Lease = Lease(generation: nat, cycle: nat, id: string)

  /** What an issued lease id stands for. */
  datatype Ticket = Ticket(vpn: nat, generation: nat, cycle: nat)

  /** A posted result; without lease fields it follows the minimal contract. */
  datatype Post = Post(vpn: nat, revision: string, evidence: Evidence, checkedAt: nat, lease: Option<Lease>)

  datatype Try<T> = Ok(value: T) | Refused(code: string)

  /** The tables, and behind them what has happened so far: history that the code does not keep. */
  datatype World = World(
    vpns: map<nat, Vpn>, leases: map<nat, Lease>, rows: map<nat, Row>, events: seq<Event>,
    issued: map<string, Ticket>, used: set<nat>, accepted: map<nat, seq<Report>>, log: seq<Event>, latest: nat)

  const MONITOR_MAX_BATCH := 500

  function Find<K, V>(m: map<K, V>, k: K): Option<V> {
    if k in m then Some(m[k]) else None
  }

  // ----- Issuing leases -----

  function LeaseFor(w: World, v: nat, id: string): Lease
    requires v in w.vpns
  {
    var generation := w.vpns[v].generation;
    Lease(generation, if v in w.leases && w.leases[v].generation == generation then w.leases[v].cycle + 1 else 1, id)
  }

  function Issue(w: World, v: nat, id: string): World
    requires v in w.vpns
  {
    var lease := LeaseFor(w, v, id);
    w.(leases := w.leases[v := lease], issued := w.issued[id := Ticket(v, lease.generation, lease.cycle)])
  }

  predicate IsActive(vpns: map<nat, Vpn>, v: nat) {
    v in vpns && vpns[v].active
  }

  /** The rows of one page, as the query returns them: the lowest active ids after the cursor. */
  predicate IsPage(vpns: map<nat, Vpn>, after: nat, limit: nat, page: seq<nat>) {
    && |page| <= limit
    && (forall k :: 0 <= k < |page| ==> after < page[k] && IsActive(vpns, page[k]))
    && (forall k, m :: 0 <= k < m < |page| ==> page[k] < page[m])
    && (forall v :: v in vpns && IsActive(vpns, v) && after < v && (|page| < limit || (page != [] && v <= page[|page| - 1])) ==> v in page)
  }

  /** Leases for a whole page, one id each. */
  function IssueAll(w: World, page: seq<nat>, ids: seq<string>): World
    requires |page| == |ids| && forall v :: v in page ==> v in w.vpns
    ensures IssueAll(w, page, ids).vpns == w.vpns
  {
    if page == [] then w
    else
      var n := |page| - 1;
      assert forall v :: v in page[..n] ==> v in page;
      Issue(IssueAll(w, page[..n], ids[..n]), page[n], ids[n])
  }

  // ----- Accepting results -----

  /** The checks of one posted result against the current tables. */
  function Resolve(vpns: map<nat, Vpn>, leases: map<nat, Lease>, p: Post): Try<Report> {
    if !IsActive(vpns, p.vpn) then Refused("target_unavailable")
    else if p.vpn !in leases then Refused("stale_target_generation")
    else
      var vpn, lease := vpns[p.vpn], leases[p.vpn];
      var claimed := if p.lease.Some? then p.lease.value else lease.(generation := vpn.generation);
      if claimed.generation != vpn.generation then Refused("stale_target_generation")
      else if claimed != lease then Refused("invalid_monitor_lease")
      else if vpn.target.None? then Refused("target_unavailable")
      else if p.revision != vpn.target.value.revision then Refused("stale_target_revision")
      else if p.evidence.probe != vpn.target.value.probe then Refused("probe_type_mismatch")
      else Ok(Report(p.vpn, p.revision, claimed.generation, claimed.cycle, claimed.id, p.evidence, p.checkedAt))
  }

  function ResolveAll(vpns: map<nat, Vpn>, leases: map<nat, Lease>, posts: seq<Post>): Try<seq<Report>> {
    if posts == [] then Ok([])
    else
      match ResolveAll(vpns, leases, posts[..|posts| - 1])
      case Refused(code) => Refused(code)
      case Ok(reports) =>
        match Resolve(vpns, leases, posts[|posts| - 1])
        case Refused(code) => Refused(code)
        case Ok(report) => Ok(reports + [report])
  }

  /** `_purge_events`: drops what is older than the cutoff. */
  function From(events: seq<Event>, cutoff: int): seq<Event> {
    if events == [] then []
    else
      From(events[..|events| - 1], cutoff) +
      if events[|events| - 1].at >= cutoff then [events[|events| - 1]] else []
  }

  /** `apply_probe_result` on the tables. */
  function ApplyReport(w: World, r: Report): Try<World> {
    match Apply(Find(w.rows, r.vpn), r)
    case StaleRevision => Refused("stale_target_revision")
    case StaleCycle => Refused("stale_cycle")
    case Repeated => Ok(w)
    case Stored(row, event) =>
      var added := if event.Some? then [event.value] else [];
      Ok(w.(rows := w.rows[r.vpn := row], events := From(w.events + added, r.checkedAt - HISTORY_SECONDS),
            accepted := w.accepted[r.vpn := History(w, r.vpn) + [r]], log := w.log + added,
            latest := if r.checkedAt > w.latest then r.checkedAt else w.latest))
  }

  /** The results that have been stored for a VPN. */
  function History(w: World, v: nat): seq<Report> {
    if v in w.accepted then w.accepted[v] else []
  }

  function ApplyAll(w: World, reports: seq<Report>): Try<World> {
    if reports == [] then Ok(w)
    else
      match ApplyAll(w, reports[..|reports| - 1])
      case Refused(code) => Refused(code)
      case Ok(next) => ApplyReport(next, reports[|reports| - 1])
  }

  predicate DistinctVpns(posts: seq<Post>) {
    forall k, m :: 0 <= k < m < |posts| ==> posts[k].vpn != posts[m].vpn
  }

  /** `monitor_results`: the new tables, or the code of the refusal. */
  function Accept(w: World, posts: seq<Post>): Try<World> {
    if |posts| > MONITOR_MAX_BATCH then Refused("invalid_request")
    else if !DistinctVpns(posts) then Refused("duplicate_vpn_id")
    else if exists k :: 0 <= k < |posts| && !IsActive(w.vpns, posts[k].vpn) then Refused("target_unavailable")
    else
      match ResolveAll(w.vpns, w.leases, posts)
      case Refused(code) => Refused(code)
      case Ok(reports) => ApplyAll(w, reports)
  }

  // ----- Everything that can happen -----

  datatype Action =
    | Register(v: nat, vpn: Vpn)
    | Edit(v: nat, target: Option<Target>)
    | SetActive(v: nat, active: bool)
    | Remove(v: nat)
    | Fetch(page: seq<nat>, ids: seq<string>)
    | Submit(posts: seq<Post>)

  /** VPN ids are not reused, and lease ids are fresh and not empty. */
  predicate Enabled(w: World, a: Action) {
    match a
    case Register(v, _) => v !in w.used
    case Edit(v, _) => v in w.vpns
    case SetActive(v, _) => v in w.vpns
    case Remove(v) => v in w.vpns
    case Fetch(page, ids) =>
      && |page| == |ids| && (forall v :: v in page ==> v in w.vpns)
      && (forall k :: 0 <= k < |ids| ==> ids[k] != "" && ids[k] !in w.issued)
      && (forall k, m :: 0 <= k < m < |ids| ==> ids[k] != ids[m])
    case Submit(_) => true
  }

  function Next(w: World, a: Action): World
    requires Enabled(w, a)
  {
    match a
    case Register(v, vpn) => w.(vpns := w.vpns[v := vpn], used := w.used + {v})
    case Edit(v, target) =>
      w.(vpns := w.vpns[v := w.vpns[v].(generation := w.vpns[v].generation + 1, target := target)])
    case SetActive(v, active) => w.(vpns := w.vpns[v := w.vpns[v].(active := active)])
    case Remove(v) => w.(vpns := w.vpns - {v})
    case Fetch(page, ids) => IssueAll(w, page, ids)
    case Submit(posts) => match Accept(w, posts) case Ok(next) => next case Refused(_) => w
  }

  // ----- The invariant -----

  predicate Before(g1: nat, c1: nat, g2: nat, c2: nat) {
    g1 < g2 || (g1 == g2 && c1 < c2)
  }

  predicate LeaseOk(w: World, v: nat)
    requires v in w.leases
  {
    var lease := w.leases[v];
    && v in w.used && lease.cycle > 0 && lease.id != ""
    && lease.id in w.issued && w.issued[lease.id] == Ticket(v, lease.generation, lease.cycle)
    && (v in w.vpns ==> lease.generation <= w.vpns[v].generation)
  }

  /** A stored row never runs ahead of the lease, and is level with it only under the same lease id. */
  predicate RowOk(w: World, v: nat)
    requires v in w.rows
  {
    var row := w.rows[v];
    && v in w.leases
    && (Before(row.generation, row.cycle, w.leases[v].generation, w.leases[v].cycle) ||
        (row.generation, row.cycle, row.lease) == (w.leases[v].generation, w.leases[v].cycle, w.leases[v].id))
    && row.lease in w.issued && w.issued[row.lease] == Ticket(v, row.generation, row.cycle)
    && (v in w.vpns && w.vpns[v].generation == row.generation ==>
          w.vpns[v].target.Some? && w.vpns[v].target.value.revision == row.revision)
  }

  function OfVpn(events: seq<Event>, v: nat): seq<Event> {
    if events == [] then []
    else OfVpn(events[..|events| - 1], v) + if events[|events| - 1].vpn == v then [events[|events| - 1]] else []
  }

  /** A row and a list of transitions are those of a history of results, none later than `latest`. */
  predicate Explained(v: nat, h: seq<Report>, row: Option<Row>, transitions: seq<Event>, latest: nat) {
    && AllStored(h) && row == Replay(h) && transitions == Transitions(h)
    && forall k :: 0 <= k < |h| ==> h[k].vpn == v && h[k].checkedAt <= latest
  }

  /** The row and the transitions of a VPN are those of its accepted results; of one target, the latest are stored. */
  predicate HistoryOk(w: World, v: nat) {
    && Explained(v, History(w, v), Find(w.rows, v), OfVpn(w.log, v), w.latest)
    && (OneTarget(History(w, v)) ==> IsSuffix(OfVpn(w.events, v), OfVpn(w.log, v)))
  }

  /** No event of the last five hours has been purged. */
  ghost predicate Retained(w: World) {
    forall cutoff: int :: cutoff >= w.latest - HISTORY_SECONDS ==> From(w.events, cutoff) == From(w.log, cutoff)
  }

  ghost predicate Inv(w: World) {
    && w.vpns.Keys <= w.used
    && (forall v :: v in w.leases ==> LeaseOk(w, v))
    && (forall v :: v in w.rows ==> RowOk(w, v))
    && (forall v: nat :: HistoryOk(w, v))
    && Retained(w)
  }

  /** A report that has passed every check of the route. */
  predicate Checked(w: World, r: Report) {
    && r.vpn in w.vpns && r.vpn in w.leases
    && w.leases[r.vpn] == Lease(r.generation, r.cycle, r.lease)
    && w.vpns[r.vpn].generation == r.generation
    && w.vpns[r.vpn].target.Some? && w.vpns[r.vpn].target.value.revision == r.revision
  }

  // ----- Every step keeps the invariant -----

  lemma {:induction false} FromAppend(events: seq<Event>, more: seq<Event>, cutoff: int)
    ensures From(events + more, cutoff) == From(events, cutoff) + From(more, cutoff)
  {
    if more == [] {
      assert events + more == events;
    } else {
      var n := |more| - 1;
      FromAppend(events, more[..n], cutoff);
      assert (events + more)[..|events| + n] == events + more[..n];
    }
  }

  /** Purging below a cutoff does not touch what lies above it. */
  lemma {:induction false} FromFrom(events: seq<Event>, low: int, high: int)
    requires low <= high
    ensures From(From(events, low), high) == From(events, high)
  {
    if events != [] {
      var n := |events| - 1;
      FromFrom(events[..n], low, high);
      var tail := if events[n].at >= low then [events[n]] else [];
      FromAppend(From(events[..n], low), tail, high);
    }
  }

  lemma {:induction false} OfVpnAppend(events: seq<Event>, more: seq<Event>, v: nat)
    requires |more| <= 1
    ensures OfVpn(events + more, v) == OfVpn(events, v) + if more != [] && more[0].vpn == v then more else []
  {
    if more == [] {
      assert events + more == events;
    } else {
      assert (events + more)[..|events|] == events;
    }
  }

  /** Purging and selecting by VPN can be done in either order. */
  lemma {:induction false} OfVpnFrom(events: seq<Event>, cutoff: int, v: nat)
    ensures OfVpn(From(events, cutoff), v) == From(OfVpn(events, v), cutoff)
  {
    if events != [] {
      var n := |events| - 1;
      OfVpnFrom(events[..n], cutoff, v);
      OfVpnAppend(From(events[..n], cutoff), if events[n].at >= cutoff then [events[n]] else [], v);
      FromAppend(OfVpn(events[..n], v), if events[n].vpn == v then [events[n]] else [], cutoff);
    }
  }

  /** Of ascending events, purging leaves the latest. */
  lemma {:induction false} FromAscending(events: seq<Event>, cutoff: int) returns (dropped: seq<Event>)
    requires Ascending(events)
    ensures events == dropped + From(events, cutoff)
    ensures forall m :: 0 <= m < |dropped| ==> dropped[m].at < cutoff
  {
    dropped := [];
    if events != [] {
      var n := |events| - 1;
      var front, last := events[..n], events[n];
      dropped := FromAscending(front, cutoff);
      assert events == front + [last];
      if last.at < cutoff {
        FromNothing(events, cutoff);
        dropped := events;
      }
    }
  }

  lemma {:induction false} FromNothing(events: seq<Event>, cutoff: int)
    requires forall k :: 0 <= k < |events| ==> events[k].at < cutoff
    ensures From(events, cutoff) == []
  {
    if events != [] {
      FromNothing(events[..|events| - 1], cutoff);
    }
  }

  lemma {:induction false} KeptAreLatest(all: seq<Event>, kept: seq<Event>, cutoff: int)
    requires Ascending(all) && IsSuffix(kept, all)
    ensures IsSuffix(From(kept, cutoff), all)
  {
    var first := all[..|all| - |kept|];
    SuffixAscends(first, kept);
    var second := FromAscending(kept, cutoff);
    SuffixByParts(first + second, From(kept, cutoff), all);
  }

  lemma {:induction false} SuffixByParts(dropped: seq<Event>, kept: seq<Event>, all: seq<Event>)
    requires all == dropped + kept
    ensures IsSuffix(kept, all)
  {
    assert all[..|all| - |kept|] == dropped;
  }

  /** Storing keeps the events of the last five hours, whatever VPN the result is for. */
  lemma {:induction false} StoringRetains(w: World, added: seq<Event>, checkedAt: nat)
    requires Retained(w)
    ensures var latest := if checkedAt > w.latest then checkedAt else w.latest;
            forall cutoff: int :: cutoff >= latest - HISTORY_SECONDS ==>
              From(From(w.events + added, checkedAt - HISTORY_SECONDS), cutoff) == From(w.log + added, cutoff)
  {
    var latest := if checkedAt > w.latest then checkedAt else w.latest;
    forall cutoff: int | cutoff >= latest - HISTORY_SECONDS
      ensures From(From(w.events + added, checkedAt - HISTORY_SECONDS), cutoff) == From(w.log + added, cutoff)
    {
      FromFrom(w.events + added, checkedAt - HISTORY_SECONDS, cutoff);
      FromAppend(w.events, added, cutoff);
      FromAppend(w.log, added, cutoff);
    }
  }

  lemma {:induction false} ExplainedLater(v: nat, h: seq<Report>, row: Option<Row>, ts: seq<Event>, latest: nat, later: nat)
    requires Explained(v, h, row, ts, latest) && latest <= later
    ensures Explained(v, h, row, ts, later)
  {
  }

  lemma {:induction false} ExplainedFurther(h: seq<Report>, row: Option<Row>, ts: seq<Event>, latest: nat, r: Report)
    requires Explained(r.vpn, h, row, ts, latest) && Apply(row, r).Stored? && r.checkedAt <= latest
    ensures var Stored(next, event) := Apply(row, r);
            && Explained(r.vpn, h + [r], Some(next), ts + (if event.Some? then [event.value] else []), latest)
            && (event.Some? ==> event.value.vpn == r.vpn)
  {
    ReplayExtends(h, r);
  }

  /** A stored report extends the history of its own VPN and leaves the others alone. */
  lemma {:induction false} StoringExplains(w: World, r: Report, v: nat)
    requires HistoryOk(w, r.vpn) && HistoryOk(w, v) && Apply(Find(w.rows, r.vpn), r).Stored?
    ensures HistoryOk(ApplyReport(w, r).value, v)
  {
    var next := ApplyReport(w, r).value;
    var event := Apply(Find(w.rows, r.vpn), r).event;
    var added := if event.Some? then [event.value] else [];
    ExplainedLater(r.vpn, History(w, r.vpn), Find(w.rows, r.vpn), OfVpn(w.log, r.vpn), w.latest, next.latest);
    ExplainedFurther(History(w, r.vpn), Find(w.rows, r.vpn), OfVpn(w.log, r.vpn), next.latest, r);
    OfVpnAppend(w.log, added, v);
    if v != r.vpn {
      ExplainedLater(v, History(w, v), Find(w.rows, v), OfVpn(w.log, v), w.latest, next.latest);
      assert History(next, v) == History(w, v) && OfVpn(next.log, v) == OfVpn(w.log, v) && Find(next.rows, v) == Find(w.rows, v);
    }
    StoringTrims(History(w, v), History(next, v), w.events, w.log, added, r.checkedAt - HISTORY_SECONDS, v);
  }

  lemma {:induction false} TrimmedFurther(h: seq<Report>, all: seq<Event>, kept: seq<Event>, own: seq<Event>, cutoff: int)
    requires AllStored(h) && OneTarget(h) && Transitions(h) == all + own && IsSuffix(kept, all)
    ensures IsSuffix(From(kept + own, cutoff), all + own)
  {
    TransitionsChain(h);
    SuffixByParts(all[..|all| - |kept|], kept + own, all + own);
    KeptAreLatest(all + own, kept + own, cutoff);
  }

  lemma {:induction false} EventsOf(events: seq<Event>, added: seq<Event>, cutoff: int, v: nat)
    requires |added| <= 1
    ensures OfVpn(From(events + added, cutoff), v) == From(OfVpn(events, v) + OfVpn(added, v), cutoff)
    ensures OfVpn(events + added, v) == OfVpn(events, v) + OfVpn(added, v)
  {
    OfVpnFrom(events + added, cutoff, v);
    OfVpnAppend(events, added, v);
  }

  /** The stored events of a VPN with one target remain its latest transitions. */
  lemma {:induction false} StoringTrims(before: seq<Report>, after: seq<Report>, events: seq<Event>, log: seq<Event>,
                                        added: seq<Event>, cutoff: int, v: nat)
    requires before <= after && |added| <= 1 && AllStored(after) && OfVpn(log + added, v) == Transitions(after)
    requires OneTarget(before) ==> IsSuffix(OfVpn(events, v), OfVpn(log, v))
    ensures OneTarget(after) ==> IsSuffix(OfVpn(From(events + added, cutoff), v), OfVpn(log + added, v))
  {
    if OneTarget(after) {
      OneTargetBefore(before, after);
      EventsOf(events, added, cutoff, v);
      EventsOf(log, added, cutoff, v);
      TrimmedFurther(after, OfVpn(log, v), OfVpn(events, v), OfVpn(added, v), cutoff);
    }
  }

  lemma {:induction false} OneTargetBefore(before: seq<Report>, after: seq<Report>)
    requires before <= after && OneTarget(after)
    ensures OneTarget(before)
  {
    assert forall k :: 0 <= k < |before| ==> before[k] == after[k];
  }

  /** A checked report is stored only if it moves the row strictly forward, to the current lease. */
  lemma {:induction false} StoredMovesForward(w: World, r: Report)
    requires Inv(w) && Checked(w, r) && Apply(Find(w.rows, r.vpn), r).Stored?
    ensures var row := ApplyReport(w, r).value.rows[r.vpn];
            && (row.generation, row.cycle, row.lease) == (r.generation, r.cycle, r.lease)
            && row.revision == r.revision
            && (r.vpn in w.rows ==> Before(w.rows[r.vpn].generation, w.rows[r.vpn].cycle, row.generation, row.cycle))
  {
    assert LeaseOk(w, r.vpn);
    if r.vpn in w.rows {
      assert RowOk(w, r.vpn);
    }
  }

  lemma {:induction false} ApplyKeepsInv(w: World, r: Report)
    requires Inv(w) && Checked(w, r) && ApplyReport(w, r).Ok?
    ensures var next := ApplyReport(w, r).value;
            Inv(next) && next.vpns == w.vpns && next.leases == w.leases && next.issued == w.issued && next.used == w.used
  {
    var next := ApplyReport(w, r).value;
    if Apply(Find(w.rows, r.vpn), r).Stored? {
      StoredMovesForward(w, r);
      var event := Apply(Find(w.rows, r.vpn), r).event;
      StoringRetains(w, if event.Some? then [event.value] else [], r.checkedAt);
      forall v: nat ensures HistoryOk(next, v) {
        assert HistoryOk(w, r.vpn) && HistoryOk(w, v);
        StoringExplains(w, r, v);
      }
      assert forall v :: v in next.leases ==> LeaseOk(w, v) && LeaseOk(next, v);
      forall v | v in next.rows ensures RowOk(next, v) {
        if v != r.vpn {
          assert RowOk(w, v);
        } else {
          assert LeaseOk(w, v);
        }
      }
    }
  }

  /** The row of `v` is as before, or it has moved strictly forward to the lease now in force. */
  predicate SameOrForward(w: World, next: World, v: nat) {
    || Find(next.rows, v) == Find(w.rows, v)
    || (&& v in next.rows && v in w.leases
        && (next.rows[v].generation, next.rows[v].cycle, next.rows[v].lease) ==
           (w.leases[v].generation, w.leases[v].cycle, w.leases[v].id)
        && (v in w.rows ==>
              Before(w.rows[v].generation, w.rows[v].cycle, next.rows[v].generation, next.rows[v].cycle)))
  }

  lemma {:induction false} ResolvedAreChecked(w: World, posts: seq<Post>)
    requires ResolveAll(w.vpns, w.leases, posts).Ok?
    ensures var reports := ResolveAll(w.vpns, w.leases, posts).value;
            && |reports| == |posts|
            && forall k :: 0 <= k < |posts| ==> Resolve(w.vpns, w.leases, posts[k]) == Ok(reports[k]) && Checked(w, reports[k])
  {
    if posts != [] {
      var n := |posts| - 1;
      ResolvedAreChecked(w, posts[..n]);
      var reports := ResolveAll(w.vpns, w.leases, posts).value;
      assert reports[..n] == ResolveAll(w.vpns, w.leases, posts[..n]).value;
    }
  }

  lemma {:induction false} ApplyAllKeepsInv(w: World, reports: seq<Report>)
    requires Inv(w) && (forall k :: 0 <= k < |reports| ==> Checked(w, reports[k])) && ApplyAll(w, reports).Ok?
    ensures var next := ApplyAll(w, reports).value;
            && Inv(next) && next.vpns == w.vpns && next.leases == w.leases && next.issued == w.issued && next.used == w.used
            && forall v: nat :: SameOrForward(w, next, v)
  {
    if reports != [] {
      var n := |reports| - 1;
      ApplyAllKeepsInv(w, reports[..n]);
      var middle := ApplyAll(w, reports[..n]).value;
      var r := reports[n];
      assert Checked(middle, r);
      ApplyKeepsInv(middle, r);
      var next := ApplyReport(middle, r).value;
      if Apply(Find(middle.rows, r.vpn), r).Stored? {
        StoredMovesForward(middle, r);
      }
      forall v: nat ensures SameOrForward(w, next, v) {
        assert SameOrForward(w, middle, v);
      }
    }
  }

  lemma {:induction false} IssueKeepsInv(w: World, v: nat, id: string)
    requires Inv(w) && v in w.vpns && id !in w.issued && id != ""
    ensures Inv(Issue(w, v, id))
  {
    var next := Issue(w, v, id);
    if v in w.leases {
      assert LeaseOk(w, v);
    }
    forall u | u in next.leases ensures LeaseOk(next, u) {
      if u != v { assert LeaseOk(w, u); }
    }
    forall u | u in next.rows ensures RowOk(next, u) {
      assert RowOk(w, u);
    }
    forall u: nat ensures HistoryOk(next, u) {
      assert HistoryOk(w, u);
      assert History(next, u) == History(w, u);
    }
    assert Retained(w);
  }

  lemma {:induction false} IssueAllKeepsInv(w: World, page: seq<nat>, ids: seq<string>)
    requires Inv(w) && Enabled(w, Fetch(page, ids))
    ensures var next := IssueAll(w, page, ids);
            && Inv(next) && next.rows == w.rows
            && (forall id :: id in w.issued ==> id in next.issued && next.issued[id] == w.issued[id])
            && (forall id :: id in next.issued ==> id in w.issued || id in ids)
  {
    if page != [] {
      var n := |page| - 1;
      assert forall k :: 0 <= k < n ==> ids[..n][k] == ids[k];
      assert forall v :: v in page[..n] ==> v in page;
      IssueAllKeepsInv(w, page[..n], ids[..n]);
      var middle := IssueAll(w, page[..n], ids[..n]);
      assert ids[n] !in middle.issued;
      IssueKeepsInv(middle, page[n], ids[n]);
    }
  }

  /** Steps that only touch the VPN table: a target never changes without a new generation. */
  lemma {:induction false} EditKeepsInv(w: World, a: Action)
    requires Inv(w) && Enabled(w, a) && !a.Fetch? && !a.Submit?
    ensures Inv(Next(w, a))
  {
    var next := Next(w, a);
    forall v | v in next.leases ensures LeaseOk(next, v) {
      assert LeaseOk(w, v);
    }
    forall v | v in next.rows ensures RowOk(next, v) {
      assert RowOk(w, v) && LeaseOk(w, v);
    }
    forall v: nat ensures HistoryOk(next, v) {
      assert HistoryOk(w, v);
      assert History(next, v) == History(w, v);
    }
    assert Retained(w);
  }

  /** Every step keeps the invariant, keeps what lease ids stand for, and moves rows only forward. */
  lemma {:induction false} StepKeepsInv(w: World, a: Action)
    requires Inv(w) && Enabled(w, a)
    ensures Inv(Next(w, a))
    ensures forall id :: id in w.issued ==> id in Next(w, a).issued && Next(w, a).issued[id] == w.issued[id]
    ensures forall v: nat :: SameOrForward(w, Next(w, a), v)
  {
    match a {
      case Fetch(page, ids) => IssueAllKeepsInv(w, page, ids);
      case Submit(posts) =>
        if Accept(w, posts).Ok? {
          ResolvedAreChecked(w, posts);
          ApplyAllKeepsInv(w, ResolveAll(w.vpns, w.leases, posts).value);
        }
      case _ => EditKeepsInv(w, a);
    }
  }

  // ----- Whole runs -----

  predicate Init(w: World) {
    && w.vpns.Keys <= w.used
    && w.leases == map[] && w.rows == map[] && w.events == [] && w.issued == map[]
    && w.accepted == map[] && w.log == [] && w.latest == 0
  }

  /** The worlds of a run, from fresh tables on. */
  ghost predicate IsRun(ws: seq<World>, actions: seq<Action>) {
    && |ws| == |actions| + 1 && Init(ws[0])
    && forall k :: 0 <= k < |actions| ==> Enabled(ws[k], actions[k]) && ws[k + 1] == Next(ws[k], actions[k])
  }

  lemma {:induction false} RunInv(ws: seq<World>, actions: seq<Action>, k: nat)
    requires IsRun(ws, actions) && k < |ws|
    ensures Inv(ws[k])
  {
    if k > 0 {
      RunInv(ws, actions, k - 1);
      StepKeepsInv(ws[k - 1], actions[k - 1]);
    }
  }

  /** Along a run, lease ids keep their meaning and no row moves back. */
  lemma {:induction false} RunMovesForward(ws: seq<World>, actions: seq<Action>, i: nat, j: nat, v: nat)
    requires IsRun(ws, actions) && i <= j < |ws|
    ensures forall id :: id in ws[i].issued ==> id in ws[j].issued && ws[j].issued[id] == ws[i].issued[id]
    ensures v in ws[i].rows ==>
              && v in ws[j].rows
              && !Before(ws[j].rows[v].generation, ws[j].rows[v].cycle, ws[i].rows[v].generation, ws[i].rows[v].cycle)
  {
    if i < j {
      RunMovesForward(ws, actions, i, j - 1, v);
      RunInv(ws, actions, j - 1);
      StepKeepsInv(ws[j - 1], actions[j - 1]);
      assert SameOrForward(ws[j - 1], ws[j], v);
    }
  }

  predicate RowChanges(ws: seq<World>, k: nat, v: nat)
    requires k + 1 < |ws|
  {
    Find(ws[k].rows, v) != Find(ws[k + 1].rows, v)
  }

  /**
   Whatever the interleaving of fetches, edits and repeated, late or reordered posts, no two
   changes of health rows, in one step or in two, are made under one and the same lease.
   */
  lemma {:induction false} EachLeaseCountsOnce(ws: seq<World>, actions: seq<Action>, i: nat, j: nat, v: nat, u: nat)
    requires IsRun(ws, actions) && i <= j < |actions| && (i, v) != (j, u)
    requires RowChanges(ws, i, v) && RowChanges(ws, j, u)
    ensures v in ws[i + 1].rows && u in ws[j + 1].rows
    ensures ws[i + 1].rows[v].lease != ws[j + 1].rows[u].lease
  {
    RunInv(ws, actions, i);
    StepKeepsInv(ws[i], actions[i]);
    assert SameOrForward(ws[i], ws[i + 1], v);
    RunInv(ws, actions, j);
    StepKeepsInv(ws[j], actions[j]);
    assert SameOrForward(ws[j], ws[j + 1], u);
    if i < j {
      RunMovesForward(ws, actions, i + 1, j, v);
    }
    RunMovesForward(ws, actions, i + 1, j + 1, v);
    RunInv(ws, actions, i + 1);
    RunInv(ws, actions, j + 1);
    assert RowOk(ws[i + 1], v) && RowOk(ws[j + 1], u);
  }

  /** One result with a superseded lease or generation makes the whole batch change nothing. */
  lemma {:induction false} SupersededChangesNothing(w: World, posts: seq<Post>, k: nat)
    requires k < |posts| && posts[k].lease.Some?
    requires || posts[k].vpn !in w.vpns || posts[k].vpn !in w.leases
             || posts[k].lease.value != w.leases[posts[k].vpn]
             || posts[k].lease.value.generation != w.vpns[posts[k].vpn].generation
    ensures Accept(w, posts).Refused? && Next(w, Submit(posts)) == w
  {
    if ResolveAll(w.vpns, w.leases, posts).Ok? {
      ResolvedAreChecked(w, posts);
    }
  }

  /** In every reachable state an alert means three failed results in a row, the last one fresh. */
  lemma {:induction false} AlertsAreEarned(ws: seq<World>, actions: seq<Action>, k: nat, v: nat, now: int)
    requires IsRun(ws, actions) && k < |ws| && v in ws[k].rows
    ensures var h := History(ws[k], v);
            && h != []
            && (AlertEligible(ws[k].rows[v], now) <==>
                  && |h| >= 3
                  && (forall m :: |h| - 3 <= m < |h| ==> FailedFor(h[m], h[|h| - 1]))
                  && now - h[|h| - 1].checkedAt <= 15 * 60)
  {
    RunInv(ws, actions, k);
    assert HistoryOk(ws[k], v);
    AlertMeaning(History(ws[k], v), now);
  }

  // ----- The history shown to administrators -----

  lemma {:induction false} WindowOfRecent(events: seq<Event>, v: nat, start: int, now: int)
    ensures Window(OfVpn(events, v), start, now) == Window(OfVpn(From(events, start), v), start, now)
  {
    if events != [] {
      var n := |events| - 1;
      WindowOfRecent(events[..n], v, start, now);
      var last := if events[n].at >= start then [events[n]] else [];
      OfVpnAppend(From(events[..n], start), last, v);
      var own, recent := OfVpn(events[..n], v), OfVpn(From(events[..n], start), v);
      WindowAppend(own, if events[n].vpn == v then [events[n]] else [], start, now);
      WindowAppend(recent, if last != [] && last[0].vpn == v then last else [], start, now);
    }
  }

  lemma {:induction false} WindowAppend(events: seq<Event>, more: seq<Event>, start: int, now: int)
    requires |more| <= 1
    ensures Window(events + more, start, now) ==
            Window(events, start, now) + if more != [] && InWindow(more[0], start, now) then more else []
  {
    if more == [] {
      assert events + more == events;
    } else {
      assert (events + more)[..|events|] == events;
    }
  }

  /** In a window of at most five hours, the stored events are all the transitions there were. */
  lemma {:induction false} NoEventMissing(w: World, v: nat, start: int, now: int)
    requires Inv(w) && w.latest <= now && now - start <= 5 * 3600
    ensures Window(OfVpn(w.events, v), start, now) == Window(Transitions(History(w, v)), start, now)
  {
    assert HistoryOk(w, v);
    WindowOfRecent(w.events, v, start, now);
    WindowOfRecent(w.log, v, start, now);
  }

  lemma {:induction false} FromMembers(events: seq<Event>, cutoff: int)
    ensures forall e :: e in From(events, cutoff) <==> e in events && e.at >= cutoff
  {
    if events != [] {
      FromMembers(events[..|events| - 1], cutoff);
    }
  }

  /** Storing a result leaves exactly the events of the five hours before it, its own included. */
  lemma {:induction false} OldEventsGo(w: World, r: Report)
    requires Apply(Find(w.rows, r.vpn), r).Stored?
    ensures
      var next, event := ApplyReport(w, r).value, Apply(Find(w.rows, r.vpn), r).event;
      forall e :: e in next.events <==> e.at >= r.checkedAt - 5 * 3600 && (e in w.events || event == Some(e))
  {
    var event := Apply(Find(w.rows, r.vpn), r).event;
    FromMembers(w.events + if event.Some? then [event.value] else [], r.checkedAt - HISTORY_SECONDS);
  }

  /** What has been purged of a VPN with one target is older than five hours. */
  lemma {:induction false} PurgedIsOld(w: World, v: nat) returns (dropped: seq<Event>)
    requires Inv(w) && OneTarget(History(w, v))
    ensures Transitions(History(w, v)) == dropped + OfVpn(w.events, v) && Ascending(OfVpn(w.events, v))
    ensures forall m :: 0 <= m < |dropped| ==> dropped[m].at < w.latest - HISTORY_SECONDS
  {
    assert HistoryOk(w, v);
    var cutoff := w.latest - HISTORY_SECONDS;
    assert From(w.events, cutoff) == From(w.log, cutoff);
    OfVpnFrom(w.events, cutoff, v);
    OfVpnFrom(w.log, cutoff, v);
    TransitionsChain(History(w, v));
    dropped := DroppedAreOld(Transitions(History(w, v)), OfVpn(w.events, v), cutoff);
  }

  lemma {:induction false} DroppedAreOld(all: seq<Event>, kept: seq<Event>, cutoff: int) returns (dropped: seq<Event>)
    requires Ascending(all) && IsSuffix(kept, all) && From(kept, cutoff) == From(all, cutoff)
    ensures all == dropped + kept && Ascending(kept)
    ensures forall m :: 0 <= m < |dropped| ==> dropped[m].at < cutoff
  {
    dropped := all[..|all| - |kept|];
    SuffixAscends(dropped, kept);
    var past := FromAscending(all, cutoff);
    FromShrinks(kept, cutoff);
    forall m | 0 <= m < |dropped| ensures dropped[m].at < cutoff {
      assert dropped[m] == all[m] && past[m] == all[m];
    }
  }

  lemma {:induction false} FromShrinks(events: seq<Event>, cutoff: int)
    ensures |From(events, cutoff)| <= |events|
  {
    if events != [] {
      FromShrinks(events[..|events| - 1], cutoff);
    }
  }

  lemma {:induction false} WindowAscends(events: seq<Event>, start: int, now: int)
    requires Ascending(events)
    ensures Ascending(Window(events, start, now))
  {
    if events != [] {
      var n := |events| - 1;
      WindowAscends(events[..n], start, now);
      var w := Window(events[..n], start, now);
      forall k | 0 <= k < |w| ensures w[k].at <= events[n].at {
        assert w[k] in w && w[k] in events[..n];
      }
    }
  }
}
