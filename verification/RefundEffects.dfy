/** What a refund sweep and a give-up do to the three tables, field by field. */
module RefundEffects {
  import opened Common
  import opened Refunds

  // ---- the sweep ----

  // Pending since before the cutoff; or running, and started (created, if it has no start) before it.
  ghost predicate Stuck(j: Job, running: bool, cutoff: int) {
    if running then j.status == Running && (match j.started case Some(t) => t < cutoff case None => j.created < cutoff)
    else j.status == Pending && j.created < cutoff
  }

  function Why(running: bool): string {
    if running then "auto-failed: stuck running > 45 minutes" else "auto-failed: stuck pending > 30 minutes"
  }

  // The refund row of a job.
  function Entry(j: Job, id: nat, running: bool): Log {
    Log(j.user, j.cost, Refund,
        "Refund: " + j.kind + " scan auto-failed (" + (if running then "stuck running" else "stuck pending") + ")", Some(id))
  }

  function StatusOf(running: bool): Status {
    if running then Running else Pending
  }

  lemma StaleIs(j: Job, running: bool, cutoff: int)
    ensures Stale(j, StatusOf(running), cutoff) <==> Stuck(j, running, cutoff)
    ensures Refundable(j, StatusOf(running), cutoff) <==> Stuck(j, running, cutoff) && j.cost > 0
  {
  }

  // How many of the first n jobs are stuck, and what they cost one user, where they cost something.
  ghost function StuckCount(jobs: seq<Job>, n: nat, running: bool, cutoff: int): nat
    requires n <= |jobs|
  {
    if n == 0 then 0
    else StuckCount(jobs, n - 1, running, cutoff) + if Stuck(jobs[n - 1], running, cutoff) then 1 else 0
  }

  ghost function StuckCost(jobs: seq<Job>, n: nat, running: bool, cutoff: int, user: nat): int
    requires n <= |jobs|
  {
    if n == 0 then 0
    else
      var j := jobs[n - 1];
      StuckCost(jobs, n - 1, running, cutoff, user)
      + if Stuck(j, running, cutoff) && j.cost > 0 && j.user == user then j.cost else 0
  }

  ghost function Entries(jobs: seq<Job>, n: nat, running: bool, cutoff: int): seq<Log>
    requires n <= |jobs|
  {
    if n == 0 then []
    else
      Entries(jobs, n - 1, running, cutoff)
      + if Stuck(jobs[n - 1], running, cutoff) && jobs[n - 1].cost > 0 then [Entry(jobs[n - 1], n - 1, running)] else []
  }

  lemma {:induction false} PrefixSums(jobs: seq<Job>, n: nat, running: bool, cutoff: int, user: nat)
    requires n <= |jobs|
    ensures StaleCount(jobs[..n], StatusOf(running), cutoff) == StuckCount(jobs, n, running, cutoff)
    ensures RefundLogs(jobs[..n], StatusOf(running), cutoff) == Entries(jobs, n, running, cutoff)
    ensures Owed(jobs[..n], StatusOf(running), cutoff, user) == StuckCost(jobs, n, running, cutoff, user)
  {
    if n > 0 {
      PrefixSums(jobs, n - 1, running, cutoff, user);
      StepPrefix(jobs, n - 1, StatusOf(running), cutoff);
      OwedLast(jobs[..n], StatusOf(running), cutoff, user);
      assert jobs[..n][..n - 1] == jobs[..n - 1];
      StaleIs(jobs[n - 1], running, cutoff);
      EntryIs(jobs[n - 1], n - 1, running);
      hide Stale, Refundable, Stuck, RefundLogs, StaleCount, Owed, SweepLog, Entry;
    }
  }

  lemma EntryIs(j: Job, id: nat, running: bool)
    ensures SweepLog(j, id, StatusOf(running)) == Entry(j, id, running)
  {
  }

  /** What a sweep does to each row: a stuck job is failed now, for the reason given, and keeps its other fields; every
      other job stays. Each user gains what their stuck jobs cost, as far as they cost something; one row is logged for
      each such job, in the order of the jobs. The two counts are those of stuck jobs and of rows logged. */
  lemma SweepEffect(db: Db, running: bool, cutoff: int, now: int, id: nat, user: nat)
    ensures var after := Sweep(db, StatusOf(running), cutoff, now);
      && |after.jobs| == |db.jobs|
      && (id < |db.jobs| ==>
            var j := db.jobs[id];
            after.jobs[id] == if Stuck(j, running, cutoff)
              then Job(j.user, j.kind, j.cost, Failed, j.created, j.started, Some(now), Some(Why(running))) else j)
      && after.credits.Keys == db.credits.Keys
      && (user in db.credits ==>
            user in after.credits
            && after.credits[user] == db.credits[user] + StuckCost(db.jobs, |db.jobs|, running, cutoff, user))
      && after.logs == db.logs + Entries(db.jobs, |db.jobs|, running, cutoff)
      && StaleCount(db.jobs, StatusOf(running), cutoff) == StuckCount(db.jobs, |db.jobs|, running, cutoff)
  {
    var status := StatusOf(running);
    PrefixSums(db.jobs, |db.jobs|, running, cutoff, user);
    assert db.jobs[..|db.jobs|] == db.jobs;
    LoggedIsOwed(db.jobs, status, cutoff, user);
    if id < |db.jobs| {
      StaleIs(db.jobs[id], running, cutoff);
    }
    hide Stale, Stuck, RefundLogs, Entries, StaleCount, StuckCount, Owed, StuckCost, Amount;
  }

  // ---- giving one job up ----

  // The job has a refund in the log.
  ghost predicate HasRefund(logs: seq<Log>, id: nat) {
    exists k :: 0 <= k < |logs| && logs[k].entry == Refund && logs[k].job == Some(id)
  }

  lemma {:induction false} CountSome(logs: seq<Log>, id: nat)
    ensures RefundCount(logs, id) > 0 <==> HasRefund(logs, id)
    decreases |logs|
  {
    if logs != [] {
      var n := |logs| - 1;
      CountSome(logs[..n], id);
      assert forall k :: 0 <= k < n ==> logs[..n][k] == logs[k];
      if HasRefund(logs, id) && !HasRefund(logs[..n], id) {
        var k :| 0 <= k < |logs| && logs[k].entry == Refund && logs[k].job == Some(id);
        assert k == n;
      }
      if HasRefund(logs[..n], id) {
        var k :| 0 <= k < n && logs[..n][k].entry == Refund && logs[..n][k].job == Some(id);
        assert logs[k].entry == Refund;
      }
    }
  }

  /** Giving a job up fails it, with the message cut to 500 characters. It refunds the job's cost, once, if and only if
      that is asked for, the job costs something, the log has no refund of it, and its user exists; where that would take
      the user below zero, nothing changes at all. */
  lemma GiveUpEffect(db: Db, id: nat, kind: string, message: string, now: int, refund: bool)
    ensures var after := FailOne(db, id, kind, message, now, refund);
      if id >= |db.jobs| then after == db
      else
        var j := db.jobs[id];
        var jobs := db.jobs[id := Job(j.user, j.kind, j.cost, Failed, j.created, j.started, Some(now),
                                      Some(message[..if |message| > 500 then 500 else |message|]))];
        var pays := refund && j.cost != 0 && !HasRefund(db.logs, id) && j.user in db.credits;
        if !pays then after == Db(jobs, db.credits, db.logs)
        else if db.credits[j.user] + j.cost < 0 then after == db
        else after == Db(jobs, db.credits[j.user := db.credits[j.user] + j.cost],
                         db.logs + [Log(j.user, j.cost, Refund, "Refund: " + kind + " scan failed", Some(id))])
  {
    CountSome(db.logs, id);
    assert message[..|message|] == message;
    hide RefundCount, HasRefund;
  }
}
