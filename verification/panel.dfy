/**
 The monitor routes of the panel as they run (panel-app/app.py, panel-app/vpn_endpoint_health.py):
 loops over rows inside transactions that are rolled back on the first refusal. Each route
 is proved to be one step of the protocol, or no step at all.
 */
module MonitorPanel {
  import opened Wrappers
  import opened EndpointHealth
  import opened MonitorProtocol

  /** What a worker is told to probe, and under which lease. */
  datatype Handout = Handout(vpn: nat, lease: Lease, target: Target)

  class Panel {
    var vpns: map<nat, Vpn>
    var leases: map<nat, Lease>
    var rows: map<nat, Row>
    var events: seq<Event>
    ghost var issued: map<string, Ticket>
    ghost var used: set<nat>
    ghost var accepted: map<nat, seq<Report>>
    ghost var log: seq<Event>
    ghost var latest: nat

    ghost function View(): World
      reads this
    {
      World(vpns, leases, rows, events, issued, used, accepted, log, latest)
    }

    ghost predicate Valid()
      reads this
    {
      Inv(View())
    }

    /** `_purge_events` */
    method PurgeEvents(cutoff: int)
      modifies this`events
      ensures events == From(old(events), cutoff)
    {
      var kept := [];
      var k := 0;
      while k < |events|
        invariant 0 <= k <= |events| && events == old(events)
        invariant kept == From(events[..k], cutoff)
      {
        assert events[..k + 1][..k] == events[..k];
        if events[k].at >= cutoff {
          kept := kept + [events[k]];
        }
        k := k + 1;
      }
      assert events[..k] == events;
      events := kept;
    }

    /** `apply_probe_result`: writes the row, records a transition and purges old events. */
    method ApplyProbeResult(r: Report) returns (code: string)
      modifies this`rows, this`events, this`accepted, this`log, this`latest
      ensures match ApplyReport(old(View()), r)
              case Ok(next) => code == "" && View() == next
              case Refused(c) => code == c != "" && View() == old(View())
    {
      match Apply(Find(rows, r.vpn), r) {
        case StaleRevision => return "stale_target_revision";
        case StaleCycle => return "stale_cycle";
        case Repeated => return "";
        case Stored(row, event) =>
          StoreResult(r, row, event);
          return "";
      }
    }

    /** The writes for a result that is stored. */
    method StoreResult(r: Report, row: Row, event: Option<Event>)
      requires Apply(Find(rows, r.vpn), r) == Stored(row, event)
      modifies this`rows, this`events, this`accepted, this`log, this`latest
      ensures ApplyReport(old(View()), r) == Ok(View())
    {
      var added := if event.Some? then [event.value] else [];
      accepted := accepted[r.vpn := History(View(), r.vpn) + [r]];
      rows := rows[r.vpn := row];
      events := events + added;
      log := log + added;
      latest := if r.checkedAt > latest then r.checkedAt else latest;
      PurgeEvents(r.checkedAt - HISTORY_SECONDS);
    }

    /** The next lease of one VPN: a later cycle of its generation, or the first of a new one. */
    method IssueLease(v: nat, id: string) returns (handout: Handout)
      requires v in vpns && vpns[v].target.Some?
      modifies this`leases, this`issued
      ensures View() == Issue(old(View()), v, id)
      ensures v in leases && handout == Handout(v, leases[v], vpns[v].target.value)
      ensures forall u :: u in old(leases) && u != v ==> u in leases && leases[u] == old(leases[u])
    {
      var generation := vpns[v].generation;
      var cycle := if v in leases && leases[v].generation == generation then leases[v].cycle + 1 else 1;
      leases := leases[v := Lease(generation, cycle, id)];
      issued := issued[id := Ticket(v, generation, cycle)];
      handout := Handout(v, leases[v], vpns[v].target.value);
    }

    /** The loop of `monitor_targets` over the rows of a page, in one transaction. */
    method IssuePage(page: seq<nat>, ids: seq<string>) returns (ok: bool, targets: seq<Handout>)
      requires |page| == |ids| && (forall v :: v in page ==> v in vpns)
      requires forall k, m :: 0 <= k < m < |page| ==> page[k] != page[m]
      modifies this`leases, this`issued
      ensures ok <==> forall v :: v in page ==> vpns[v].target.Some?
      ensures View() == if ok then IssueAll(old(View()), page, ids) else old(View())
      ensures if ok then |targets| == |page| else targets == []
      ensures ok ==> forall k :: 0 <= k < |page| ==>
                page[k] in leases && targets[k] == Handout(page[k], leases[page[k]], vpns[page[k]].target.value)
    {
      ghost var before := View();
      var saved := leases;
      targets := [];
      var k := 0;
      while k < |page|
        invariant 0 <= k <= |page| && |targets| == k
        invariant vpns == old(vpns)
        invariant forall m :: 0 <= m < k ==> vpns[page[m]].target.Some?
        invariant View() == IssueAll(before, page[..k], ids[..k])
        invariant forall m :: 0 <= m < k ==>
                    page[m] in leases && targets[m] == Handout(page[m], leases[page[m]], vpns[page[m]].target.value)
      {
        var v := page[k];
        assert v in page;
        if vpns[v].target.None? {
          leases := saved;
          issued := before.issued;
          return false, [];
        }
        assert page[..k + 1][..k] == page[..k] && ids[..k + 1][..k] == ids[..k];
        var handout := IssueLease(v, ids[k]);
        targets := targets + [handout];
        k := k + 1;
      }
      assert page[..k] == page && ids[..k] == ids;
      ok := true;
    }

    /** `monitor_targets`: every row of the page gets a new lease, or nothing changes at all. */
    method MonitorTargets(after: nat, limit: nat, page: seq<nat>, ids: seq<string>)
      returns (ok: bool, targets: seq<Handout>, nextAfter: Option<nat>)
      requires Valid() && IsPage(vpns, after, limit, page) && Enabled(View(), Fetch(page, ids))
      modifies this`leases, this`issued
      ensures Valid()
      ensures ok <==> forall v :: v in page ==> vpns[v].target.Some?
      ensures View() == if ok then Next(old(View()), Fetch(page, ids)) else old(View())
      ensures if ok then |targets| == |page| else targets == []
      ensures ok ==> forall k :: 0 <= k < |page| ==>
                page[k] in leases && targets[k] == Handout(page[k], leases[page[k]], vpns[page[k]].target.value)
      ensures nextAfter == if ok && |page| == limit && page != [] then Some(page[|page| - 1]) else None
    {
      StepKeepsInv(View(), Fetch(page, ids));
      ok, targets := IssuePage(page, ids);
      nextAfter := if ok && |page| == limit && page != [] then Some(page[|page| - 1]) else None;
    }

    /** The scan for ids that occur twice in a batch. */
    method HasDuplicates(posts: seq<Post>) returns (found: bool)
      ensures found <==> !DistinctVpns(posts)
    {
      var seen: set<nat> := {};
      var k := 0;
      while k < |posts|
        invariant 0 <= k <= |posts|
        invariant seen == set m | 0 <= m < k :: posts[m].vpn
        invariant DistinctVpns(posts[..k])
      {
        if posts[k].vpn in seen {
          return true;
        }
        seen := seen + {posts[k].vpn};
        k := k + 1;
      }
      assert posts[..k] == posts;
      return false;
    }

    /** The checks of a whole batch; the first refusal stops the loop. */
    method CheckBatch(posts: seq<Post>) returns (checked: Try<seq<Report>>)
      ensures checked == ResolveAll(vpns, leases, posts)
    {
      var reports: seq<Report> := [];
      var k := 0;
      while k < |posts|
        invariant 0 <= k <= |posts|
        invariant ResolveAll(vpns, leases, posts[..k]) == Ok(reports)
      {
        assert posts[..k + 1][..k] == posts[..k];
        match Resolve(vpns, leases, posts[k]) {
          case Refused(code) =>
            RefusedStays(vpns, leases, posts, k + 1);
            return Refused(code);
          case Ok(report) => reports := reports + [report];
        }
        k := k + 1;
      }
      assert posts[..k] == posts;
      return Ok(reports);
    }

    /** One update of a batch that has gone well so far. */
    method ApplyNext(ghost before: World, reports: seq<Report>, k: nat) returns (code: string)
      requires k < |reports| && ApplyAll(before, reports[..k]) == Ok(View())
      modifies this`rows, this`events, this`accepted, this`log, this`latest
      ensures code == "" ==> ApplyAll(before, reports[..k + 1]) == Ok(View())
      ensures code != "" ==> ApplyAll(before, reports) == Refused(code)
    {
      assert reports[..k + 1][..k] == reports[..k];
      code := ApplyProbeResult(reports[k]);
      if code != "" {
        ApplyRefusedStays(before, reports, k + 1);
      }
    }

    /** The updates of a whole batch; a refusal undoes the ones already made. */
    method ApplyBatch(reports: seq<Report>) returns (code: string)
      modifies this`rows, this`events, this`accepted, this`log, this`latest
      ensures match ApplyAll(old(View()), reports)
              case Ok(next) => code == "" && View() == next
              case Refused(c) => code == c != "" && View() == old(View())
    {
      ghost var before := View();
      var savedRows, savedEvents := rows, events;
      var k := 0;
      while k < |reports|
        invariant 0 <= k <= |reports|
        invariant vpns == before.vpns && leases == before.leases
        invariant ApplyAll(before, reports[..k]) == Ok(View())
      {
        code := ApplyNext(before, reports, k);
        if code != "" {
          rows, events := savedRows, savedEvents;
          accepted, log, latest := before.accepted, before.log, before.latest;
          return;
        }
        k := k + 1;
      }
      assert reports[..k] == reports;
      code := "";
    }

    /** `monitor_results`: a batch is one step of the protocol, or it changes nothing. */
    method MonitorResults(posts: seq<Post>) returns (answer: Try<nat>)
      requires Valid()
      modifies this`rows, this`events, this`accepted, this`log, this`latest
      ensures Valid()
      ensures match Accept(old(View()), posts)
              case Ok(next) => answer == Ok(|posts|) && View() == next
              case Refused(code) => answer == Refused(code) && View() == old(View())
      ensures View() == Next(old(View()), Submit(posts))
    {
      StepKeepsInv(View(), Submit(posts));
      if |posts| > MONITOR_MAX_BATCH {
        return Refused("invalid_request");
      }
      var duplicates := HasDuplicates(posts);
      if duplicates {
        return Refused("duplicate_vpn_id");
      }
      if exists k :: 0 <= k < |posts| && !IsActive(vpns, posts[k].vpn) {
        return Refused("target_unavailable");
      }
      var checked := CheckBatch(posts);
      match checked {
        case Refused(code) => answer := Refused(code);
        case Ok(reports) =>
          var code := ApplyBatch(reports);
          answer := if code == "" then Ok(|posts|) else Refused(code);
      }
    }

    /**
     `history_intervals`: the intervals cover the window without gaps, and while the target of
     a VPN stays the same they show, for the last five hours at least, the state the machine
     had at each instant.
     */
    method ShowHistory(v: nat, now: nat, hours: nat) returns (intervals: seq<Interval>)
      requires Valid() && 1 <= hours <= 24 * 30 && latest <= now
      requires OneTarget(History(View(), v))
      ensures var start := if now < hours * 3600 then 0 else now - hours * 3600;
              && Tiling(intervals, start, now)
              && (intervals != [] <==> now > 0)
              && AllStored(History(View(), v))
              && Recent(intervals, History(View(), v), now - 5 * 3600)
    {
      var start := if now < hours * 3600 then 0 else now - hours * 3600;
      var kept := OfVpn(events, v);
      var row := Find(rows, v);
      ghost var dropped := PurgedIsOld(View(), v);
      assert HistoryOk(View(), v);
      WindowAscends(kept, start, now);
      intervals := HistoryIntervals(Window(kept, start, now), if row.Some? then row.value.state else Accessible,
                                    if row.Some? then Some(row.value.evidence) else None, start, now);
      RecentlyRight(History(View(), v), dropped, kept, intervals, start, now, now - HISTORY_SECONDS);
    }
  }

  /** From `since` on, the intervals show the state that the machine had. */
  ghost predicate Recent(intervals: seq<Interval>, h: seq<Report>, since: int)
    requires AllStored(h)
  {
    forall k, t :: 0 <= k < |intervals| && since <= t && intervals[k].start <= t < intervals[k].end ==>
      intervals[k].state == StateAt(h, t)
  }

  lemma RecentlyRight(h: seq<Report>, dropped: seq<Event>, kept: seq<Event>, intervals: seq<Interval>,
                      start: int, now: int, since: int)
    requires AllStored(h) && OneTarget(h) && (h != [] ==> h[|h| - 1].checkedAt <= now)
    requires Transitions(h) == dropped + kept && forall m :: 0 <= m < |dropped| ==> dropped[m].at < since
    requires Tiling(intervals, start, now) && Faithful(intervals, Window(kept, start, now), Final(h))
    ensures Recent(intervals, h, since)
  {
    forall k, t | 0 <= k < |intervals| && since <= t && intervals[k].start <= t < intervals[k].end
      ensures intervals[k].state == StateAt(h, t)
    {
      LookupIsStateAt(h, dropped, kept, start, now, t);
    }
  }

  /** A refused prefix refuses the whole batch, with the same code. */
  lemma {:induction false} RefusedStays(vpns: map<nat, Vpn>, leases: map<nat, Lease>, posts: seq<Post>, k: nat)
    requires k <= |posts| && ResolveAll(vpns, leases, posts[..k]).Refused?
    ensures ResolveAll(vpns, leases, posts) == ResolveAll(vpns, leases, posts[..k])
    decreases |posts| - k
  {
    if k == |posts| {
      assert posts[..k] == posts;
    } else {
      assert posts[..k + 1][..k] == posts[..k];
      RefusedStays(vpns, leases, posts, k + 1);
    }
  }

  lemma {:induction false} ApplyRefusedStays(w: World, reports: seq<Report>, k: nat)
    requires k <= |reports| && ApplyAll(w, reports[..k]).Refused?
    ensures ApplyAll(w, reports) == ApplyAll(w, reports[..k])
    decreases |reports| - k
  {
    if k == |reports| {
      assert reports[..k] == reports;
    } else {
      assert reports[..k + 1][..k] == reports[..k];
      ApplyRefusedStays(w, reports, k + 1);
    }
  }
}
