/** The daily `cleanupOldTokens` job: for every user, delete the token documents
    whose `lastUsed` lies strictly before `now` minus the retention window. The
    whole loop runs inside one `try`, so the first failing user ends the sweep;
    batches committed before it stay committed. */
module Sweeper {
  import opened Options
  import opened Sequences
  import opened TokenStore

  const SecondsPerDay: int := 86400
  const RetentionDays: int := 30
  const RetentionSeconds: int := RetentionDays * SecondsPerDay

  /** The oldest `lastUsed` that is kept. */
  function Cutoff(now: Timestamp): (c: Timestamp)
    ensures c < now
    ensures c + 30 * 86400 == now
  {
    now - RetentionSeconds
  }

  /** The documents the query `lastUsed < cutoff` returns. */
  function StaleKeys(ts: Tokens, cutoff: Timestamp): set<Token>
  {
    set t | t in ts && ts[t] < cutoff
  }

  /** No token of user `u` is older than the cutoff. */
  predicate NoStale(s: Store, u: UserId, cutoff: Timestamp)
  {
    forall t :: t in TokensOf(s, u) ==> TokensOf(s, u)[t] >= cutoff
  }

  /** `s'` arises from `s` by deleting token documents only. */
  predicate OnlyDeletes(s: Store, s': Store)
  {
    && s'.Keys == s.Keys
    && forall u, t :: u in s && t in s'[u] ==> t in s[u] && s'[u][t] == s[u][t]
  }

  /** Every token at or after the cutoff in `s` is still in `s'`, unchanged. */
  predicate KeepsFresh(s: Store, s': Store, cutoff: Timestamp)
  {
    forall u, t :: u in s && t in s[u] && s[u][t] >= cutoff ==> u in s' && t in s'[u] && s'[u][t] == s[u][t]
  }

  /** The stale tokens of one user, deleted in one batch. */
  function PurgeUser(s: Store, u: UserId, cutoff: Timestamp): (r: Store)
    ensures OnlyDeletes(s, r)
    ensures KeepsFresh(s, r, cutoff)
    ensures NoStale(r, u, cutoff)
    ensures forall v :: v in s && v != u ==> r[v] == s[v]
  {
    RemoveTokens(s, u, StaleKeys(TokensOf(s, u), cutoff))
  }

  /** The effect of a sweep: the store afterwards, the `deletedCount` tally, the users
      for which a batch was committed, and whether the loop ran to the end. */
  datatype SweepRun = SweepRun(store: Store, deleted: nat, commits: seq<UserId>, completed: bool)

  /** The loop over `users` (the user documents in listing order). A user in
      `failing` is one whose stale query or batch commit throws. */
  function Sweep(s: Store, users: seq<UserId>, cutoff: Timestamp, failing: set<UserId>): (r: SweepRun)
    ensures r.store.Keys == s.Keys
    ensures r.deleted == 0 <==> r.commits == []
    decreases |users|
  {
    if |users| == 0 then SweepRun(s, 0, [], true)
    else if users[0] in failing then SweepRun(s, 0, [], false)
    else
      var u := users[0];
      var stale := StaleKeys(TokensOf(s, u), cutoff);
      var rest := Sweep(PurgeUser(s, u, cutoff), users[1..], cutoff, failing);
      SweepRun(
        rest.store,
        |stale| + rest.deleted,
        (if stale == {} then [] else [u]) + rest.commits,
        rest.completed)
  }

  /** A sweep only deletes, never deletes a token at or after the cutoff, leaves
      unlisted users alone, completes exactly when no listed user fails, and after a
      completed sweep no listed user has a stale token left. */
  lemma {:induction false} SweepSound(s: Store, users: seq<UserId>, cutoff: Timestamp, failing: set<UserId>)
    ensures var r := Sweep(s, users, cutoff, failing);
            && OnlyDeletes(s, r.store)
            && KeepsFresh(s, r.store, cutoff)
            && (forall u :: u in s && u !in users ==> r.store[u] == s[u])
            && (r.completed <==> forall i :: 0 <= i < |users| ==> users[i] !in failing)
            && (r.completed ==> forall i :: 0 <= i < |users| ==> NoStale(r.store, users[i], cutoff))
    decreases |users|
  {
    if |users| > 0 && users[0] !in failing {
      var s1 := PurgeUser(s, users[0], cutoff);
      SweepSound(s1, users[1..], cutoff, failing);
      assert forall i :: 1 <= i < |users| ==> users[i] == users[1..][i - 1];
    }
  }

  /** How many users the loop finishes before it stops: the index of the first
      failing user, or all of them. */
  function Processed(users: seq<UserId>, failing: set<UserId>): (k: nat)
    ensures k <= |users|
    ensures forall i :: 0 <= i < k ==> users[i] !in failing
    ensures k < |users| ==> users[k] in failing
    decreases |users|
  {
    if |users| == 0 || users[0] in failing then 0
    else
      assert forall i :: 1 <= i < |users| ==> users[i] == users[1..][i - 1];
      1 + Processed(users[1..], failing)
  }

  /** Sum over `users` of the number of stale tokens each has in `s`. */
  function StaleTotal(s: Store, users: seq<UserId>, cutoff: Timestamp): nat
    decreases |users|
  {
    if |users| == 0 then 0
    else |StaleKeys(TokensOf(s, users[0]), cutoff)| + StaleTotal(s, users[1..], cutoff)
  }

  lemma {:induction false} StaleTotalFrame(s: Store, s': Store, users: seq<UserId>, cutoff: Timestamp)
    requires forall i :: 0 <= i < |users| ==> TokensOf(s', users[i]) == TokensOf(s, users[i])
    ensures StaleTotal(s', users, cutoff) == StaleTotal(s, users, cutoff)
    decreases |users|
  {
    if |users| > 0 {
      assert forall i :: 1 <= i < |users| ==> users[i] == users[1..][i - 1];
      StaleTotalFrame(s, s', users[1..], cutoff);
    }
  }

  /** The first failing user ends the sweep: the users before it are swept, it and
      every user after it (that did not also occur before it) keep all their tokens,
      and the sweep reports completion only if no user failed. */
  lemma {:induction false} SweepAbortsAtFirstFailure(s: Store, users: seq<UserId>, cutoff: Timestamp, failing: set<UserId>)
    ensures var r := Sweep(s, users, cutoff, failing);
            r.completed <==> Processed(users, failing) == |users|
    ensures var r := Sweep(s, users, cutoff, failing);
            forall u :: u !in users[..Processed(users, failing)] ==> TokensOf(r.store, u) == TokensOf(s, u)
    ensures var r := Sweep(s, users, cutoff, failing);
            forall i :: 0 <= i < Processed(users, failing) ==> NoStale(r.store, users[i], cutoff)
    decreases |users|
  {
    if |users| > 0 && users[0] !in failing {
      var u0 := users[0];
      var s1 := PurgeUser(s, u0, cutoff);
      var k := Processed(users, failing);
      SweepAbortsAtFirstFailure(s1, users[1..], cutoff, failing);
      SweepSound(s1, users[1..], cutoff, failing);
      assert users[..k] == [u0] + users[1..][..k - 1];
      var r := Sweep(s, users, cutoff, failing);
      forall i | 0 <= i < k ensures NoStale(r.store, users[i], cutoff) {
        if i == 0 {
          assert NoStale(s1, u0, cutoff);
        } else {
          assert users[i] == users[1..][i - 1];
        }
      }
    }
  }

  lemma DistinctTail(users: seq<UserId>)
    requires |users| > 0 && Distinct(users)
    ensures Distinct(users[1..]) && users[0] !in users[1..]
  {
    var tail := users[1..];
    forall i, j | 0 <= i < j < |tail| ensures tail[i] != tail[j] {
      assert tail[i] == users[i + 1] && tail[j] == users[j + 1];
    }
    forall i | 0 <= i < |tail| ensures tail[i] != users[0] {
      assert tail[i] == users[i + 1];
    }
  }

  /** For a listing without repetitions, `deletedCount` is the number of stale
      tokens the finished users had. */
  lemma {:induction false} SweepCountsStaleTokens(s: Store, users: seq<UserId>, cutoff: Timestamp, failing: set<UserId>)
    requires Distinct(users)
    ensures Sweep(s, users, cutoff, failing).deleted == StaleTotal(s, users[..Processed(users, failing)], cutoff)
    decreases |users|
  {
    if |users| > 0 && users[0] !in failing {
      var u0 := users[0];
      var s1 := PurgeUser(s, u0, cutoff);
      var k := Processed(users, failing);
      var tail := users[1..];
      DistinctTail(users);
      SweepCountsStaleTokens(s1, tail, cutoff, failing);
      var done := tail[..k - 1];
      assert users[..k] == [u0] + done;
      assert forall i :: 0 <= i < |done| ==> done[i] in tail;
      StaleTotalFrame(s, s1, done, cutoff);
      assert ([u0] + done)[1..] == done;
    }
  }

  /** For a listing without repetitions, a batch is committed exactly for the
      finished users that had a stale token. */
  lemma {:induction false} SweepCommitsOnlyForStale(s: Store, users: seq<UserId>, cutoff: Timestamp, failing: set<UserId>)
    requires Distinct(users)
    ensures var r := Sweep(s, users, cutoff, failing);
            forall u :: u in r.commits <==> u in users[..Processed(users, failing)] && StaleKeys(TokensOf(s, u), cutoff) != {}
    decreases |users|
  {
    if |users| > 0 && users[0] !in failing {
      var u0 := users[0];
      var s1 := PurgeUser(s, u0, cutoff);
      var k := Processed(users, failing);
      var tail := users[1..];
      DistinctTail(users);
      SweepCommitsOnlyForStale(s1, tail, cutoff, failing);
      assert users[..k] == [u0] + tail[..k - 1];
      var r := Sweep(s, users, cutoff, failing);
      forall u ensures u in r.commits <==> u in users[..k] && StaleKeys(TokensOf(s, u), cutoff) != {} {
        if u != u0 {
          assert TokensOf(s1, u) == TokensOf(s, u);
        }
      }
    }
  }

  /** The deleted count of one user equals how much the user's collection shrank. */
  lemma PurgeCountIsShrinkage(s: Store, u: UserId, cutoff: Timestamp)
    ensures |StaleKeys(TokensOf(s, u), cutoff)| == |TokensOf(s, u)| - |TokensOf(PurgeUser(s, u, cutoff), u)|
  {
    var ts := TokensOf(s, u);
    var stale := StaleKeys(ts, cutoff);
    var left := TokensOf(PurgeUser(s, u, cutoff), u);
    assert left.Keys == ts.Keys - stale;
    assert ts.Keys == left.Keys + stale;
    assert |ts.Keys| == |left.Keys| + |stale|;
  }

  /** A sweep over users that have no stale token changes nothing and counts nothing. */
  lemma {:induction false} SweepOnCleanStoreIsNoop(s: Store, users: seq<UserId>, cutoff: Timestamp, failing: set<UserId>)
    requires forall i :: 0 <= i < |users| ==> NoStale(s, users[i], cutoff)
    ensures var r := Sweep(s, users, cutoff, failing);
            r.store == s && r.deleted == 0 && r.commits == []
    decreases |users|
  {
    if |users| > 0 && users[0] !in failing {
      var u0 := users[0];
      assert StaleKeys(TokensOf(s, u0), cutoff) == {};
      RemoveAbsentIsNoop(s, u0, {});
      assert forall i :: 1 <= i < |users| ==> users[i] == users[1..][i - 1];
      SweepOnCleanStoreIsNoop(s, users[1..], cutoff, failing);
    }
  }

  /** Running a completed sweep again with the same cutoff deletes nothing more. */
  lemma SweepIdempotent(s: Store, users: seq<UserId>, cutoff: Timestamp, failing: set<UserId>)
    requires Sweep(s, users, cutoff, failing).completed
    ensures var r := Sweep(s, users, cutoff, failing);
            var again := Sweep(r.store, users, cutoff, failing);
            again.store == r.store && again.deleted == 0 && again.commits == []
  {
    var r := Sweep(s, users, cutoff, failing);
    SweepSound(s, users, cutoff, failing);
    SweepOnCleanStoreIsNoop(r.store, users, cutoff, failing);
  }

  /** The retention boundary is strict: a token is kept exactly when its `lastUsed`
      is at or after `now` minus thirty days. */
  lemma RetentionBoundary(s: Store, u: UserId, now: Timestamp, t: Token, failing: set<UserId>)
    requires t in TokensOf(s, u)
    requires u !in failing
    ensures var r := Sweep(s, [u], Cutoff(now), failing);
            t in TokensOf(r.store, u) <==> TokensOf(s, u)[t] >= now - 30 * 86400
  {
    var r := Sweep(s, [u], Cutoff(now), failing);
    SweepSound(s, [u], Cutoff(now), failing);
    assert NoStale(r.store, [u][0], Cutoff(now));
  }

  /** With `now` at day 100, a token last used on day 69 is deleted and tokens last
      used on day 70 (exactly the cutoff) and day 71 are kept. */
  lemma DayHundredScenario()
    ensures var s := map["u1" := map["a" := 69 * SecondsPerDay, "b" := 70 * SecondsPerDay, "c" := 71 * SecondsPerDay]];
            var r := Sweep(s, ["u1"], Cutoff(100 * SecondsPerDay), {});
            "a" !in r.store["u1"] && "b" in r.store["u1"] && "c" in r.store["u1"]
  {
    var s := map["u1" := map["a" := 69 * SecondsPerDay, "b" := 70 * SecondsPerDay, "c" := 71 * SecondsPerDay]];
    RetentionBoundary(s, "u1", 100 * SecondsPerDay, "a", {});
    RetentionBoundary(s, "u1", 100 * SecondsPerDay, "b", {});
    RetentionBoundary(s, "u1", 100 * SecondsPerDay, "c", {});
  }

  /** A sweep of a user and a dispatcher deletion for the same user commute, so the
      two may interleave in either order. */
  lemma PurgeCommutesWithRemoval(s: Store, u: UserId, cutoff: Timestamp, dead: set<Token>)
    ensures PurgeUser(RemoveTokens(s, u, dead), u, cutoff) == RemoveTokens(PurgeUser(s, u, cutoff), u, dead)
  {
    if u in s {
      var m := s[u];
      var a := (m - dead) - StaleKeys(m - dead, cutoff);
      var b := (m - StaleKeys(m, cutoff)) - dead;
      assert a.Keys == b.Keys;
      assert a == b;
    }
  }

  /** The run `rest` preceded by finished users that deleted `deleted` tokens and
      committed for `commits`. */
  function Then(deleted: nat, commits: seq<UserId>, rest: SweepRun): SweepRun
  {
    SweepRun(rest.store, deleted + rest.deleted, commits + rest.commits, rest.completed)
  }

  lemma SweepStopsAt(st: Store, list: seq<UserId>, i: nat, cutoff: Timestamp, failing: set<UserId>)
    requires i < |list| && list[i] in failing
    ensures Sweep(st, list[i..], cutoff, failing) == SweepRun(st, 0, [], false)
  {
    assert list[i..][0] == list[i];
  }

  /** The loop invariant of `CleanupOldTokens` carried across one finished user. */
  lemma ThenStep(deleted: nat, commits: seq<UserId>, st: Store, users: seq<UserId>, cutoff: Timestamp, failing: set<UserId>)
    requires |users| > 0 && users[0] !in failing
    ensures var stale := StaleKeys(TokensOf(st, users[0]), cutoff);
            Then(deleted, commits, Sweep(st, users, cutoff, failing))
            == Then(deleted + |stale|, commits + (if stale == {} then [] else [users[0]]),
                    Sweep(PurgeUser(st, users[0], cutoff), users[1..], cutoff, failing))
  {
    var stale := StaleKeys(TokensOf(st, users[0]), cutoff);
    var rest := Sweep(PurgeUser(st, users[0], cutoff), users[1..], cutoff, failing);
    var step := if stale == {} then [] else [users[0]];
    assert commits + (step + rest.commits) == (commits + step) + rest.commits;
  }

  /** The handler: the user query may throw (`None`), otherwise the loop of
      `Sweep`, written as the `for` loop over the user documents. */
  method CleanupOldTokens(s: Store, users: Option<seq<UserId>>, now: Timestamp, failing: set<UserId>) returns (r: SweepRun)
    ensures users.None? ==> r == SweepRun(s, 0, [], false)
    ensures users.Some? ==> r == Sweep(s, users.value, Cutoff(now), failing)
  {
    if users.None? {
      return SweepRun(s, 0, [], false);
    }
    var list := users.value;
    var cutoff := Cutoff(now);
    var store := s;
    var deletedCount: nat := 0;
    var commits: seq<UserId> := [];
    var i := 0;
    assert list[0..] == list;
    assert Then(0, [], Sweep(s, list, cutoff, failing)) == Sweep(s, list, cutoff, failing);
    while i < |list|
      invariant 0 <= i <= |list|
      invariant Sweep(s, list, cutoff, failing) == Then(deletedCount, commits, Sweep(store, list[i..], cutoff, failing))
    {
      var u := list[i];
      if u in failing {
        SweepStopsAt(store, list, i, cutoff, failing);
        return SweepRun(store, deletedCount, commits, false);
      }
      assert list[i..][0] == u && list[i..][1..] == list[i + 1..];
      ThenStep(deletedCount, commits, store, list[i..], cutoff, failing);
      var stale := StaleKeys(TokensOf(store, u), cutoff);
      if stale != {} {
        store := RemoveTokens(store, u, stale);
        deletedCount := deletedCount + |stale|;
        commits := commits + [u];
      } else {
        RemoveAbsentIsNoop(store, u, stale);
      }
      i := i + 1;
    }
    r := SweepRun(store, deletedCount, commits, true);
  }
}
