/**
 Whole runs of onboarding statements: any interleaving of reconciler passes and
 administrator actions, down to single SQL statements.
 */
module Fencing {
  import opened Wrappers
  import opened Onboarding

  function After(rows: Table, run: seq<Statement>): (r: Table) {
    if run == [] then rows else Exec(After(rows, run[..|run| - 1]), run[|run| - 1])
  }

  // The table that statement `k` of a run meets.
  function At(rows: Table, run: seq<Statement>, k: nat): (r: Table)
    requires k <= |run|
  {
    After(rows, run[..k])
  }

  lemma AtNext(rows: Table, run: seq<Statement>, k: nat)
    requires k < |run|
    ensures At(rows, run, k + 1) == Exec(At(rows, run, k), run[k])
  {
    assert run[..k + 1][..k] == run[..k];
  }

  predicate Holds(rows: Table, id: nat, token: string) {
    id in rows && rows[id].token == token
  }

  // Tokens are random: never empty, never issued twice, and not in the table before they are issued.
  ghost predicate FreshTokens(rows: Table, run: seq<Statement>) {
    && (forall i :: 0 <= i < |run| && OfPass(run[i]) ==> run[i].token != "")
    && (forall i :: 0 <= i < |run| && run[i].Claim? ==>
          run[i].token != "" && forall id :: id in rows ==> rows[id].token != run[i].token)
    && (forall i, j :: 0 <= i < j < |run| && run[i].Claim? && run[j].Claim? ==> run[i].token != run[j].token)
  }

  /** The row is edited, deleted, activated, or claimed by another pass. */
  predicate TakesOver(rows: Table, s: Statement, id: nat, token: string) {
    && s.id == id && Matches(rows, s)
    && (s.Save? || s.Delete? || s.Activate? || (s.Claim? && s.token != token))
  }

  lemma {:induction false} LostForGood(rows: Table, run: seq<Statement>, c: nat, i: nat, j: nat, id: nat)
    requires FreshTokens(rows, run) && c < i <= j <= |run| && run[c].Claim?
    requires !Holds(At(rows, run, i), id, run[c].token)
    ensures !Holds(At(rows, run, j), id, run[c].token)
  {
    if i < j {
      LostForGood(rows, run, c, i, j - 1, id);
      AtNext(rows, run, j - 1);
    }
  }

  /**
   Fencing: once a row has been taken over after a pass claimed it, no statement
   of that pass ever changes the table again.
   */
  lemma FencedOut(rows: Table, run: seq<Statement>, c: nat, i: nat, j: nat)
    requires FreshTokens(rows, run) && c < i < j < |run| && run[c].Claim?
    requires TakesOver(At(rows, run, i), run[i], run[c].id, run[c].token)
    requires OfPass(run[j]) && run[j].id == run[c].id && run[j].token == run[c].token
    ensures At(rows, run, j + 1) == At(rows, run, j)
  {
    AtNext(rows, run, i);
    LostForGood(rows, run, c, i + 1, j, run[c].id);
    AtNext(rows, run, j);
  }

  // After a pass has pinned a certificate or erased the row, its revision is behind or its token is gone.
  predicate Superseded(rows: Table, id: nat, token: string, rev: nat) {
    Holds(rows, id, token) ==> rows[id].revision > rev
  }

  lemma {:induction false} SupersededForGood(rows: Table, run: seq<Statement>, c: nat, i: nat, j: nat, id: nat, rev: nat)
    requires FreshTokens(rows, run) && c < i <= j <= |run| && run[c].Claim?
    requires Superseded(At(rows, run, i), id, run[c].token, rev)
    ensures Superseded(At(rows, run, j), id, run[c].token, rev)
  {
    if i < j {
      SupersededForGood(rows, run, c, i, j - 1, id, rev);
      AtNext(rows, run, j - 1);
    }
  }

  /** Pinning a certificate or erasing the row is the last change a pass makes, but for releasing its lock. */
  lemma PinOrEraseIsLast(rows: Table, run: seq<Statement>, c: nat, i: nat, j: nat)
    requires FreshTokens(rows, run) && c < i < j < |run| && run[c].Claim?
    requires (run[i].Pin? || run[i].Erase?) && Matches(At(rows, run, i), run[i])
    requires run[i].id == run[c].id && run[i].token == run[c].token
    requires Fenced(run[j]) && run[j].id == run[i].id && run[j].token == run[i].token && run[j].rev == run[i].rev
    ensures At(rows, run, j + 1) == At(rows, run, j)
  {
    AtNext(rows, run, i);
    SupersededForGood(rows, run, c, i + 1, j, run[i].id, run[i].rev);
    AtNext(rows, run, j);
  }

  // A token is in a row because it was there or was just claimed, and nothing took the row over.
  lemma HoldStep(rows: Table, s: Statement, id: nat, token: string)
    requires token != "" && Holds(Exec(rows, s), id, token)
    ensures !TakesOver(rows, s, id, token)
    ensures Holds(rows, id, token) || (s.Claim? && s.id == id && s.token == token && Matches(rows, s))
  {
  }

  /**
   Only the most recent claim can write: a statement of a pass takes effect only
   if the claim that issued its token took effect before it and nothing has taken
   the row over since.
   */
  lemma {:induction false} OnlyLatestClaimHolds(rows: Table, run: seq<Statement>, j: nat, id: nat, token: string)
    returns (c: nat)
    requires j <= |run| && token != ""
    requires Holds(At(rows, run, j), id, token) && !Holds(rows, id, token)
    ensures c < j && run[c].Claim? && run[c].id == id && run[c].token == token && Matches(At(rows, run, c), run[c])
    ensures forall k :: c < k < j ==> !TakesOver(At(rows, run, k), run[k], id, token)
  {
    assert At(rows, run, 0) == rows;
    AtNext(rows, run, j - 1);
    HoldStep(At(rows, run, j - 1), run[j - 1], id, token);
    if Holds(At(rows, run, j - 1), id, token) {
      c := OnlyLatestClaimHolds(rows, run, j - 1, id, token);
    } else {
      c := j - 1;
    }
  }

  // Lifecycle

  /** `active` says exactly that the state is `active` or `online`. */
  predicate Lifecycle(rows: Table) {
    forall id :: id in rows ==> (rows[id].active <==> IsActive(rows[id].state))
  }

  lemma LifecycleStep(rows: Table, s: Statement)
    requires Lifecycle(rows)
    ensures Lifecycle(Exec(rows, s))
  {
    if Matches(rows, s) && !s.Erase? && !s.Insert? {
      var row := Updated(rows[s.id], s);
      assert row.active <==> IsActive(row.state);
    }
  }

  lemma {:induction false} LifecycleHolds(rows: Table, run: seq<Statement>)
    requires Lifecycle(rows)
    ensures Lifecycle(After(rows, run))
  {
    if run != [] {
      LifecycleHolds(rows, run[..|run| - 1]);
      LifecycleStep(After(rows, run[..|run| - 1]), run[|run| - 1]);
    }
  }

  /** Nothing but a stored result makes an existing row active. */
  lemma OnlyStoreActivates(rows: Table, s: Statement, id: nat)
    requires id in rows && !rows[id].active && id in Exec(rows, s) && Exec(rows, s)[id].active
    ensures s.Store? && s.id == id && Matches(rows, s) && IsActive(Settled(s.result, s.auto).state)
  {
  }

  // Each claim is made for a row that `reconcile_once` read earlier and chose then.
  ghost predicate Selected(rows: Table, run: seq<Statement>, seen: seq<nat>) {
    && |seen| == |run|
    && forall k :: 0 <= k < |run| && run[k].Claim? ==>
         && seen[k] <= k && run[k].id in At(rows, run, seen[k])
         && Picks(At(rows, run, seen[k])[run[k].id], run[k].now)
         && At(rows, run, seen[k])[run[k].id].revision == run[k].rev
  }

  // A conclusive result is the last thing a pass writes.
  ghost predicate Concludes(rows: Table, run: seq<Statement>) {
    forall i, j ::
      (&& 0 <= i < j < |run| && run[i].Store? && Matches(At(rows, run, i), run[i])
       && (Failure(run[i].result) || Success(run[i].result))
       && OfPass(run[j]) && run[j].id == run[i].id && run[j].token == run[i].token)
      ==> run[j].Release?
  }

  predicate Administers(s: Statement, id: nat) {
    s.id == id && !OfPass(s) && !s.Claim?
  }

  predicate SameButLock(a: Row, b: Row) {
    a.(token := "", lockUntil := None) == b.(token := "", lockUntil := None)
  }

  // Neither the pass that wrote the row, which may only release it, nor an earlier one disturbs it.
  lemma Undisturbed(rows: Table, s: Statement, id: nat, token: string)
    requires id in rows && (rows[id].token == token || rows[id].token == "")
    requires s.id == id ==> OfPass(s) && s.token != "" && (s.token == token ==> s.Release?)
    ensures id in Exec(rows, s) && SameButLock(Exec(rows, s)[id], rows[id])
    ensures Exec(rows, s)[id].token == token || Exec(rows, s)[id].token == ""
  {
  }

  /**
   A failed or activated VPN is left alone until the administrator acts, provided
   that every later claim of it was selected after the result was stored.
   */
  lemma {:induction false} LeftAlone(rows: Table, run: seq<Statement>, seen: seq<nat>, i: nat, j: nat)
    requires FreshTokens(rows, run) && Selected(rows, run, seen) && Concludes(rows, run)
    requires i < j <= |run| && run[i].Store? && Matches(At(rows, run, i), run[i])
    requires Failure(run[i].result) || Success(run[i].result)
    requires forall k :: i < k < j ==> !Administers(run[k], run[i].id)
    requires forall k :: i < k < j && run[k].Claim? && run[k].id == run[i].id ==> i < seen[k]
    ensures
      var id, token := run[i].id, run[i].token;
      && id in At(rows, run, i + 1) && !Considered(At(rows, run, i + 1)[id])
      && id in At(rows, run, j) && SameButLock(At(rows, run, j)[id], At(rows, run, i + 1)[id])
      && (At(rows, run, j)[id].token == token || At(rows, run, j)[id].token == "")
    decreases j
  {
    AtNext(rows, run, i);
    StoredIsPickedUp(At(rows, run, i)[run[i].id], run[i].result, run[i].now, run[i].previous, run[i].auto, 0);
    if i + 1 < j {
      var k := j - 1;
      LeftAlone(rows, run, seen, i, k);
      AtNext(rows, run, k);
      if run[k].Claim? && run[k].id == run[i].id {
        LeftAlone(rows, run, seen, i, seen[k]);
        assert false;
      }
      Undisturbed(At(rows, run, k), run[k], run[i].id, run[i].token);
    }
  }

  /**
   The proviso is needed: a claim looks at the row's activity, revision and lock,
   not at its state, so one that was selected before the result was stored still
   succeeds, and the pass puts the row back to work.
   */
  lemma StaleClaimSucceeds(rows: Table, id: nat, token: string, now: int, previous: nat, auto: bool)
    requires id in rows && !rows[id].active && LockFree(rows[id], now)
    ensures
      var rev := rows[id].revision;
      var claimed := Exec(rows, Claim(id, rev, token, now));
      var stored := Exec(claimed, Store(id, rev, token, Result(Validating, LocalValidated, false), now, previous, auto));
      Holds(claimed, id, token) && Considered(stored[id])
  {
  }

  function DraftRow(): (r: Row) {
    NewRow(Settings(Ssl, false, false), "", true, true)
  }

  // Two reconcilers select the same draft; the second claims it after the first has found it invalid.
  function TwoReconcilers(): (run: seq<Statement>) {
    [Claim(1, 0, "a", 100),
     Store(1, 0, "a", Result(Draft, ConfigInvalid, false), 100, 0, true),
     Release(1, "a"),
     Claim(1, 0, "b", 100),
     Store(1, 0, "b", Result(Validating, LocalValidated, false), 100, 0, true)]
  }

  lemma TwoReconcilersRows(rows: Table, run: seq<Statement>)
    requires rows == map[1 := DraftRow()] && run == TwoReconcilers()
    ensures At(rows, run, 0) == rows
    ensures 1 in At(rows, run, 3) && !Considered(At(rows, run, 3)[1])
    ensures 1 in At(rows, run, 5) && Considered(At(rows, run, 5)[1])
  {
    AtNext(rows, run, 0);
    AtNext(rows, run, 1);
    AtNext(rows, run, 2);
    assert At(rows, run, 3)[1] == DraftRow().(code := ConfigInvalid);
    AtNext(rows, run, 3);
    AtNext(rows, run, 4);
  }

  lemma TwoReconcilersAreHonest(rows: Table, run: seq<Statement>)
    requires rows == map[1 := DraftRow()] && run == TwoReconcilers()
    ensures FreshTokens(rows, run) && Concludes(rows, run)
  {
  }

  lemma FailureIsForgotten()
    ensures
      var rows, run, seen := map[1 := DraftRow()], TwoReconcilers(), [0, 0, 0, 0, 0];
      && FreshTokens(rows, run) && Selected(rows, run, seen) && Concludes(rows, run)
      && 1 in At(rows, run, 3) && !Considered(At(rows, run, 3)[1])
      && 1 in At(rows, run, 5) && Considered(At(rows, run, 5)[1])
  {
    TwoReconcilersRows(map[1 := DraftRow()], TwoReconcilers());
    TwoReconcilersAreHonest(map[1 := DraftRow()], TwoReconcilers());
  }
}
