/**
 Health state of public VPN endpoints (panel-app/vpn_endpoint_health.py): what one accepted
 probe result does to the stored row, what a whole history of results amounts to, and how
 the state over time is rebuilt from the transition events alone.
 */
module EndpointHealth {
  import opened Wrappers

  datatype State = Accessible | Unreachable

  datatype Evidence = Evidence(icmpOk: bool, protocolOk: bool, probe: string, icmpCode: string, protocolCode: string)

  /** A validated probe result with its lease fields filled in. */
  datatype Report = Report(vpn: nat, revision: string, generation: nat, cycle: nat, lease: string,
                           evidence: Evidence, checkedAt: nat)

  datatype Row = Row(revision: string, generation: nat, cycle: nat, lease: string, state: State, failures: nat,
                     evidence: Evidence, checkedAt: nat, lastSuccess: Option<nat>, lastTransition: Option<nat>)

  datatype Event = Event(vpn: nat, oldState: State, newState: State, evidence: Evidence, at: nat)

  datatype Outcome =
    | StaleRevision
    | StaleCycle
    | Repeated
    | Stored(row: Row, event: Option<Event>)

  const MAX_CONSECUTIVE_FAILURES := 255
  const FAILURE_THRESHOLD := 3
  const HISTORY_SECONDS := 5 * 60 * 60
  const STALE_AFTER_SECONDS := 15 * 60

  /** A cycle counts as a success when either probe answered. */
  predicate Success(r: Report) {
    r.evidence.icmpOk || r.evidence.protocolOk
  }

  /** The stored row describes the same target configuration as the report. */
  predicate SameTarget(row: Row, r: Report) {
    row.revision == r.revision && row.generation == r.generation
  }

  function Capped(n: nat): nat {
    if n < MAX_CONSECUTIVE_FAILURES then n else MAX_CONSECUTIVE_FAILURES
  }

  /** The first result for a target: counting starts again, and no transition is recorded. */
  function Restarted(previous: Option<Row>, r: Report): Outcome {
    Stored(Row(r.revision, r.generation, NextCycle(previous, r), NextLease(previous, r), Accessible,
               if Success(r) then 0 else 1, r.evidence, r.checkedAt, None, None), None)
  }

  function NextCycle(previous: Option<Row>, r: Report): nat {
    if r.cycle != 0 then r.cycle else if previous.Some? then previous.value.cycle + 1 else 1
  }

  function NextLease(previous: Option<Row>, r: Report): string {
    if r.lease != "" then r.lease else if previous.Some? then previous.value.lease else "legacy"
  }

  /** A further result for the target already stored. */
  function Continued(row: Row, r: Report): Outcome {
    var failures := if Success(r) then 0 else Capped(row.failures + 1);
    var state := if Success(r) then Accessible else if failures >= FAILURE_THRESHOLD then Unreachable else row.state;
    var event := if state != row.state then Some(Event(r.vpn, row.state, state, r.evidence, r.checkedAt)) else None;
    Stored(Row(r.revision, r.generation, NextCycle(Some(row), r), NextLease(Some(row), r), state, failures, r.evidence,
               r.checkedAt, if Success(r) then Some(r.checkedAt) else row.lastSuccess,
               if event.Some? then Some(r.checkedAt) else row.lastTransition), event)
  }

  /** `apply_probe_result`, from the point where the report matches the expected target. */
  function Apply(previous: Option<Row>, r: Report): Outcome {
    match previous
    case None => Restarted(previous, r)
    case Some(row) =>
      if r.generation < row.generation then StaleRevision
      else if !SameTarget(row, r) then Restarted(previous, r)
      else if r.cycle != 0 && r.cycle < row.cycle then StaleCycle
      else if r.cycle != 0 && r.cycle == row.cycle then (if r.lease == row.lease then Repeated else StaleCycle)
      else if r.checkedAt < row.checkedAt then StaleCycle
      else Continued(row, r)
  }

  // ----- What a history of stored results amounts to -----

  predicate SameSubject(a: Report, b: Report) {
    a.revision == b.revision && a.generation == b.generation
  }

  /** Row left by a history of reports, each of which was stored in turn; `None` if one was not. */
  function Replay(history: seq<Report>): Option<Row> {
    if history == [] then None
    else
      var last := history[|history| - 1];
      var before := Replay(history[..|history| - 1]);
      if |history| > 1 && before.None? then None
      else match Apply(before, last) case Stored(row, _) => Some(row) case _ => None
  }

  /** All reports of the history were stored. */
  predicate AllStored(history: seq<Report>) {
    history == [] || Replay(history).Some?
  }

  /** Length of the run of complete failures at the end of a history, for the target it ends with. */
  function TrailingFailures(history: seq<Report>): nat {
    if history == [] || Success(history[|history| - 1]) then 0
    else if |history| > 1 && SameSubject(history[|history| - 2], history[|history| - 1])
    then 1 + TrailingFailures(history[..|history| - 1])
    else 1
  }

  /** Neither probe answered, and the target was the same as in the other report. */
  predicate FailedFor(r: Report, other: Report) {
    !r.evidence.icmpOk && !r.evidence.protocolOk && r.revision == other.revision && r.generation == other.generation
  }

  /** What the trailing run means: at least `n` failures in a row, all for one target. */
  lemma {:induction false} TrailingFailuresMeaning(history: seq<Report>, n: nat)
    requires n > 0
    ensures TrailingFailures(history) >= n <==>
              && |history| >= n
              && forall k :: |history| - n <= k < |history| ==>
                   FailedFor(history[k], history[|history| - 1])
    decreases |history|
  {
    if history != [] && n > 1 {
      var shorter := history[..|history| - 1];
      TrailingFailuresMeaning(shorter, n - 1);
      if |history| >= n {
        var previous, last := history[|history| - 2], history[|history| - 1];
        assert shorter[|shorter| - 1] == previous;
        assert forall k :: |history| - n <= k < |history| - 1 ==> history[k] == shorter[k];
        assert (forall k :: |history| - n <= k < |history| ==> !Success(history[k]) && SameSubject(history[k], last)) ==>
            SameSubject(previous, last);
      }
    }
  }

  /**
   The stored counters are exactly what the history says: the capped trailing run of
   failures, and unreachable precisely from the third one on.
   */
  lemma {:induction false} HealthRefinesHistory(history: seq<Report>)
    requires history != [] && AllStored(history)
    ensures var row := Replay(history).value;
            var last := history[|history| - 1];
            && row.failures == (if TrailingFailures(history) < 255 then TrailingFailures(history) else 255)
            && (row.state == Unreachable <==> TrailingFailures(history) >= 3)
            && row.revision == last.revision && row.generation == last.generation
            && row.evidence == last.evidence && row.checkedAt == last.checkedAt
  {
    var shorter := history[..|history| - 1];
    if shorter != [] {
      HealthRefinesHistory(shorter);
    }
  }

  /** `public_alert_eligible` on a row as `health_for_vpns` reports it at time `now`. */
  predicate AlertEligible(row: Row, now: int) {
    row.state == Unreachable && row.failures >= FAILURE_THRESHOLD && !(now - row.checkedAt > STALE_AFTER_SECONDS)
  }

  /** An alert is shown exactly when the three latest results all failed and the last one is fresh. */
  lemma {:induction false} AlertMeaning(history: seq<Report>, now: int)
    requires history != [] && AllStored(history)
    ensures AlertEligible(Replay(history).value, now) <==>
              && |history| >= 3
              && (forall k :: |history| - 3 <= k < |history| ==> FailedFor(history[k], history[|history| - 1]))
              && now - history[|history| - 1].checkedAt <= 15 * 60
  {
    HealthRefinesHistory(history);
    TrailingFailuresMeaning(history, 3);
  }

  // ----- Rebuilding the state over time -----

  /** All reports describe one and the same target. */
  predicate OneTarget(history: seq<Report>) {
    forall k :: 0 <= k < |history| ==> SameSubject(history[k], history[0])
  }

  /** State of the machine after a history; endpoints start out accessible. */
  function Final(history: seq<Report>): State {
    var row := Replay(history);
    if row.Some? then row.value.state else Accessible
  }

  /** State of the machine at instant `t`: after the observations made up to then. */
  function StateAt(history: seq<Report>, t: int): State
    requires AllStored(history)
  {
    if history == [] then Accessible
    else if history[|history| - 1].checkedAt <= t then Final(history)
    else StateAt(history[..|history| - 1], t)
  }

  /** Every transition event that a history ever gave rise to. */
  function Transitions(history: seq<Report>): seq<Event> {
    if history == [] then []
    else
      var before := history[..|history| - 1];
      Transitions(before) +
      match Apply(Replay(before), history[|history| - 1]) case Stored(_, Some(event)) => [event] case _ => []
  }

  /** One more stored result, as far as row and transitions are concerned. */
  lemma {:induction false} ReplayExtends(history: seq<Report>, r: Report)
    requires AllStored(history) && Apply(Replay(history), r).Stored?
    ensures var Stored(row, event) := Apply(Replay(history), r);
            && AllStored(history + [r]) && Replay(history + [r]) == Some(row)
            && Transitions(history + [r]) == Transitions(history) + (if event.Some? then [event.value] else [])
            && (event.Some? ==> event.value.vpn == r.vpn)
  {
    assert (history + [r])[..|history|] == history;
  }

  /** One more result for the same target: time moves on, and an event marks each change of state. */
  lemma {:induction false} OneMore(before: seq<Report>, last: Report)
    requires AllStored(before + [last]) && OneTarget(before + [last])
    ensures AllStored(before) && OneTarget(before)
    ensures before != [] ==> before[|before| - 1].checkedAt <= last.checkedAt
    ensures Transitions(before + [last]) == Transitions(before) +
              if Final(before) == Final(before + [last]) then []
              else [Event(last.vpn, Final(before), Final(before + [last]), last.evidence, last.checkedAt)]
  {
    var history := before + [last];
    assert history[..|history| - 1] == before;
    assert forall k :: 0 <= k < |before| ==> before[k] == history[k];
    assert Replay(history) == match Apply(Replay(before), last) case Stored(row, _) => Some(row) case _ => None;
    if before != [] {
      HealthRefinesHistory(before);
      assert SameSubject(history[|before| - 1], history[0]) && SameSubject(history[|before|], history[0]);
      AppliedToSameTarget(Replay(before).value, last);
    }
  }

  lemma {:induction false} AppliedToSameTarget(row: Row, r: Report)
    requires Apply(Some(row), r).Stored? && SameTarget(row, r)
    ensures var Stored(next, event) := Apply(Some(row), r);
            && row.checkedAt <= r.checkedAt
            && event == if next.state == row.state then None
                        else Some(Event(r.vpn, row.state, next.state, r.evidence, r.checkedAt))
  {
  }

  /** What the transitions of one target look like: ascending, each a change, and chained from the first state to the last. */
  ghost predicate Chained(ts: seq<Event>, history: seq<Report>) {
    && (forall k, m :: 0 <= k < m < |ts| ==> ts[k].at <= ts[m].at)
    && (forall k :: 0 <= k < |ts| ==> history != [] && ts[k].at <= history[|history| - 1].checkedAt)
    && (forall k :: 0 <= k < |ts| ==> ts[k].newState != ts[k].oldState)
    && (forall k, m :: 0 <= k < m < |ts| && m == k + 1 ==> ts[m].oldState == ts[k].newState)
    && (if ts == [] then Final(history) == Accessible
        else ts[0].oldState == Accessible && ts[|ts| - 1].newState == Final(history))
  }

  lemma {:induction false} TransitionsChain(history: seq<Report>)
    requires AllStored(history) && OneTarget(history)
    ensures Chained(Transitions(history), history)
  {
    if history != [] {
      var before, last := history[..|history| - 1], history[|history| - 1];
      assert history == before + [last];
      OneMore(before, last);
      TransitionsChain(before);
      if Final(before) != Final(history) {
        ChainExtends(Transitions(before), before, history,
                     Event(last.vpn, Final(before), Final(history), last.evidence, last.checkedAt));
      }
    }
  }

  lemma {:induction false} ChainExtends(ts: seq<Event>, before: seq<Report>, after: seq<Report>, e: Event)
    requires Chained(ts, before) && after != [] && e.at == after[|after| - 1].checkedAt
    requires before != [] ==> before[|before| - 1].checkedAt <= e.at
    requires e.oldState == Final(before) && e.newState == Final(after) && e.oldState != e.newState
    ensures Chained(ts + [e], after)
  {
    var all := ts + [e];
    assert forall k :: 0 <= k < |ts| ==> all[k] == ts[k];
  }

  predicate InWindow(e: Event, start: int, now: int) {
    start <= e.at <= now
  }

  /** The events inside a window, in order. */
  function Window(events: seq<Event>, start: int, now: int): (w: seq<Event>)
    ensures forall e :: e in w <==> e in events && InWindow(e, start, now)
  {
    if events == [] then []
    else
      var last := events[|events| - 1];
      Window(events[..|events| - 1], start, now) + (if InWindow(last, start, now) then [last] else [])
  }

  /** State at `t` read off a list of events; `current` where there is none. */
  function Lookup(events: seq<Event>, current: State, t: int): State {
    if events == [] then current
    else if events[|events| - 1].at <= t then events[|events| - 1].newState
    else if |events| == 1 then events[0].oldState
    else Lookup(events[..|events| - 1], current, t)
  }

  predicate IsSuffix(kept: seq<Event>, all: seq<Event>) {
    |kept| <= |all| && all == all[..|all| - |kept|] + kept
  }

  /**
   The events of a window and the current state determine the state at every instant of the
   window, also from the latest transitions alone as long as none after the instant is missing.
   */
  lemma {:induction false} LookupIsStateAt(history: seq<Report>, dropped: seq<Event>, kept: seq<Event>,
                                           start: int, now: int, t: int)
    requires AllStored(history) && OneTarget(history)
    requires history != [] ==> history[|history| - 1].checkedAt <= now
    requires start <= t < now
    requires Transitions(history) == dropped + kept && forall m :: 0 <= m < |dropped| ==> dropped[m].at <= t
    ensures Lookup(Window(kept, start, now), Final(history), t) == StateAt(history, t)
    decreases history
  {
    if history != [] {
      var before, last := history[..|history| - 1], history[|history| - 1];
      assert history == before + [last];
      if last.checkedAt <= t {
        LookupIsFinal(history, dropped, kept, start, now, t);
      } else {
        OneMore(before, last);
        if Final(before) != Final(history) {
          var e := Event(last.vpn, Final(before), Final(history), last.evidence, last.checkedAt);
          var older := WithoutLast(Transitions(before), e, dropped, kept, t);
          LookupIsStateAt(before, dropped, older, start, now, t);
          LookupEarlier(older, e, Final(before), Final(history), start, now, t);
        } else {
          LookupIsStateAt(before, dropped, kept, start, now, t);
        }
      }
    }
  }

  lemma {:induction false} LookupIsFinal(history: seq<Report>, dropped: seq<Event>, kept: seq<Event>,
                                         start: int, now: int, t: int)
    requires AllStored(history) && OneTarget(history) && history != []
    requires history[|history| - 1].checkedAt <= t < now && Transitions(history) == dropped + kept
    ensures Lookup(Window(kept, start, now), Final(history), t) == Final(history)
  {
    TransitionsChain(history);
    SuffixAscends(dropped, kept);
    assert kept != [] ==> kept[|kept| - 1] == (dropped + kept)[|dropped + kept| - 1];
    forall k | 0 <= k < |kept| ensures kept[k].at <= t {
      assert kept[k] == (dropped + kept)[|dropped| + k];
    }
    LastInWindow(kept, start, now);
  }

  lemma {:induction false} SuffixAscends(dropped: seq<Event>, kept: seq<Event>)
    requires Ascending(dropped + kept)
    ensures Ascending(kept)
  {
    forall k, m | 0 <= k < m < |kept| ensures kept[k].at <= kept[m].at {
      assert kept[k] == (dropped + kept)[|dropped| + k] && kept[m] == (dropped + kept)[|dropped| + m];
    }
  }

  lemma {:induction false} LastPart(a: seq<Event>, b: seq<Event>)
    requires a + b != []
    ensures (a + b)[|a + b| - 1] == if b != [] then b[|b| - 1] else a[|a| - 1]
  {
  }

  /** A last event after `t` has been kept; what is kept before it follows what was dropped. */
  lemma {:induction false} WithoutLast(earlier: seq<Event>, e: Event, dropped: seq<Event>, kept: seq<Event>, t: int)
    returns (older: seq<Event>)
    requires earlier + [e] == dropped + kept && e.at > t && forall m :: 0 <= m < |dropped| ==> dropped[m].at <= t
    ensures kept == older + [e] && earlier == dropped + older
  {
    LastPart(dropped, kept);
    assert (earlier + [e])[|earlier|] == e;
    older := kept[..|kept| - 1];
    assert kept[|kept| - 1] == (dropped + kept)[|earlier|];
    assert earlier == (earlier + [e])[..|earlier|] == (dropped + kept)[..|earlier|];
  }

  /** An event after `t` does not change what is read off at `t`. */
  lemma {:induction false} LookupEarlier(earlier: seq<Event>, e: Event, was: State, current: State, start: int, now: int, t: int)
    requires start <= t < e.at <= now && e.oldState == was
    ensures Lookup(Window(earlier + [e], start, now), current, t) == Lookup(Window(earlier, start, now), was, t)
  {
    assert (earlier + [e])[..|earlier|] == earlier;
    var w := Window(earlier, start, now);
    assert Window(earlier + [e], start, now) == w + [e];
    assert (w + [e])[..|w|] == w;
    if w != [] {
      LookupIgnoresCurrent(w, was, current, t);
    }
  }

  lemma {:induction false} LookupIgnoresCurrent(events: seq<Event>, a: State, b: State, t: int)
    requires events != []
    ensures Lookup(events, a, t) == Lookup(events, b, t)
  {
    if |events| > 1 {
      LookupIgnoresCurrent(events[..|events| - 1], a, b, t);
    }
  }

  /** Among ascending events that are all past, a window that is not empty ends with the last event. */
  lemma {:induction false} LastInWindow(events: seq<Event>, start: int, now: int)
    requires forall k, m :: 0 <= k < m < |events| ==> events[k].at <= events[m].at
    requires forall k :: 0 <= k < |events| ==> events[k].at <= now
    ensures var w := Window(events, start, now);
            w != [] ==> events != [] && w[|w| - 1] == events[|events| - 1]
  {
    var w := Window(events, start, now);
    if w != [] {
      assert w[0] in events && InWindow(w[0], start, now);
    }
  }

  datatype Interval = Interval(start: int, end: int, state: State, evidence: Option<Evidence>)

  /** The intervals are not empty, follow one another, and cover exactly [start, end). */
  predicate Tiling(intervals: seq<Interval>, start: int, end: int) {
    && (forall k :: 0 <= k < |intervals| ==> start <= intervals[k].start < intervals[k].end <= end)
    && (forall k :: 0 < k < |intervals| ==> intervals[k - 1].end == intervals[k].start)
    && (if intervals == [] then start == end else intervals[0].start == start && intervals[|intervals| - 1].end == end)
  }

  /** Each interval shows the state that can be read off the events at each of its instants. */
  ghost predicate Faithful(intervals: seq<Interval>, events: seq<Event>, current: State) {
    forall k, t :: 0 <= k < |intervals| && intervals[k].start <= t < intervals[k].end ==>
      intervals[k].state == Lookup(events, current, t)
  }

  /** Evidence at `t`: that of the last event up to then, or `otherwise`. */
  function EvidenceAt(events: seq<Event>, otherwise: Option<Evidence>, t: int): Option<Evidence> {
    if events == [] then otherwise
    else if events[|events| - 1].at <= t then Some(events[|events| - 1].evidence)
    else EvidenceAt(events[..|events| - 1], otherwise, t)
  }

  /** Each interval shows the evidence of the event that it follows. */
  ghost predicate Evidenced(intervals: seq<Interval>, events: seq<Event>, otherwise: Option<Evidence>) {
    forall k, t :: 0 <= k < |intervals| && intervals[k].start <= t < intervals[k].end ==>
      intervals[k].evidence == EvidenceAt(events, otherwise, t)
  }

  lemma {:induction false} NextEvidence(intervals: seq<Interval>, events: seq<Event>, e: Event, otherwise: Option<Evidence>, last: Interval)
    requires Evidenced(intervals, events, otherwise)
    requires forall k :: 0 <= k < |intervals| ==> intervals[k].end <= e.at
    requires last.end <= e.at && (events != [] ==> events[|events| - 1].at <= last.start)
    requires last.evidence == if events == [] then otherwise else Some(events[|events| - 1].evidence)
    ensures Evidenced(intervals, events + [e], otherwise) && Evidenced(intervals + [last], events + [e], otherwise)
  {
    assert (events + [e])[..|events|] == events;
  }

  lemma {:induction false} LastEvidence(intervals: seq<Interval>, events: seq<Event>, otherwise: Option<Evidence>, last: Interval)
    requires Evidenced(intervals, events, otherwise)
    requires events != [] ==> events[|events| - 1].at <= last.start
    requires last.evidence == if events == [] then otherwise else Some(events[|events| - 1].evidence)
    ensures Evidenced(intervals + [last], events, otherwise)
  {
  }

  predicate Ascending(events: seq<Event>) {
    forall k, m :: 0 <= k < m < |events| ==> events[k].at <= events[m].at
  }

  lemma {:induction false} TilingExtends(intervals: seq<Interval>, start: int, last: Interval)
    requires Tiling(intervals, start, last.start) && start <= last.start < last.end
    ensures Tiling(intervals + [last], start, last.end)
  {
  }

  /** Up to the next event the last one counts; intervals drawn so far stay faithful. */
  lemma {:induction false} NextEvent(intervals: seq<Interval>, events: seq<Event>, e: Event, current: State, last: Interval)
    requires Faithful(intervals, events, current)
    requires intervals != [] ==> events != []
    requires forall k :: 0 <= k < |intervals| ==> intervals[k].end <= e.at
    requires last.end <= e.at && (events != [] ==> events[|events| - 1].at <= last.start)
    requires last.state == if events == [] then e.oldState else events[|events| - 1].newState
    ensures Faithful(intervals, events + [e], current) && Faithful(intervals + [last], events + [e], current)
  {
    assert (events + [e])[..|events|] == events;
  }

  /** After the last event its new state holds, or the current state if there is none. */
  lemma {:induction false} AfterEvents(intervals: seq<Interval>, events: seq<Event>, current: State, last: Interval)
    requires Faithful(intervals, events, current)
    requires events != [] ==> events[|events| - 1].at <= last.start
    requires last.state == if events == [] then current else events[|events| - 1].newState
    ensures Faithful(intervals + [last], events, current)
  {
  }

  /** The loop of `history_intervals` over the selected events, which the query returns in time order. */
  method HistoryIntervals(events: seq<Event>, current: State, evidence0: Option<Evidence>, start: int, now: int)
    returns (intervals: seq<Interval>)
    requires start <= now && Ascending(events)
    requires forall e :: e in events ==> InWindow(e, start, now)
    ensures Tiling(intervals, start, now) && Faithful(intervals, events, current)
    ensures Evidenced(intervals, events, evidence0)
  {
    var state := if events == [] then current else events[0].oldState;
    var evidence := evidence0;
    var cursor := start;
    intervals := [];
    var i := 0;
    while i < |events|
      invariant 0 <= i <= |events|
      invariant cursor == if i == 0 then start else events[i - 1].at
      invariant state == if i == 0 then (if events == [] then current else events[0].oldState) else events[i - 1].newState
      invariant evidence == if i == 0 then evidence0 else Some(events[i - 1].evidence)
      invariant start <= cursor <= now && Evidenced(intervals, events[..i], evidence0)
      invariant Tiling(intervals, start, cursor) && Faithful(intervals, events[..i], current)
    {
      var event := events[i];
      assert event in events && InWindow(event, start, now);
      assert events[..i + 1] == events[..i] + [event];
      var interval := Interval(cursor, event.at, state, evidence);
      NextEvent(intervals, events[..i], event, current, interval);
      NextEvidence(intervals, events[..i], event, evidence0, interval);
      if event.at > cursor {
        TilingExtends(intervals, start, interval);
        intervals := intervals + [interval];
      }
      state := event.newState;
      evidence := Some(event.evidence);
      cursor := if event.at > cursor then event.at else cursor;
      i := i + 1;
    }
    assert events[..i] == events;
    if cursor < now {
      var interval := Interval(cursor, now, state, evidence);
      AfterEvents(intervals, events, current, interval);
      LastEvidence(intervals, events, evidence0, interval);
      TilingExtends(intervals, start, interval);
      intervals := intervals + [interval];
    }
  }
}
