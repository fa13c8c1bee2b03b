/** Credit refunds of failed scan jobs (`workers/tasks/maintenance.py`, `workers/utils/scan_fail.py`). */
module Refunds {
  import opened Common

  datatype Status = Pending | Running | Completed | Failed

  // A job's id is its place in the table.
  datatype Job = Job(
    user: nat, kind: string, cost: int, status: Status,
    created: int, started: Option<int>, completed: Option<int>, error: Option<string>)

  datatype Kind = Credit | Deduct | Refund

  datatype Log = Log(user: nat, amount: int, entry: Kind, description: string, job: Option<nat>)

  // The three tables: scan jobs, each user's credits, the credit log.
  datatype Db = Db(jobs: seq<Job>, credits: map<nat, int>, logs: seq<Log>)

  // Every job belongs to a user: `scan_jobs.user_id` is a foreign key.
  ghost predicate Linked(jobs: seq<Job>, credits: map<nat, int>) {
    forall k :: 0 <= k < |jobs| ==> jobs[k].user in credits
  }

  // ---- the sweep ----

  // The jobs one sweep takes: `status` is pending or running, and names the age it uses.
  predicate Stale(j: Job, status: Status, cutoff: int) {
    j.status == status && Age(j, status) < cutoff
  }

  function Age(j: Job, status: Status): int {
    if status == Running && j.started.Some? then j.started.value else j.created
  }

  function Reason(status: Status): string {
    if status == Running then "stuck running" else "stuck pending"
  }

  function Summary(status: Status): string {
    if status == Running then "auto-failed: stuck running > 45 minutes" else "auto-failed: stuck pending > 30 minutes"
  }

  function Fail(j: Job, now: int, error: string): Job {
    j.(status := Failed, completed := Some(now), error := Some(error))
  }

  function SweptJob(j: Job, status: Status, cutoff: int, now: int): Job {
    if Stale(j, status, cutoff) then Fail(j, now, Summary(status)) else j
  }

  function Swept(jobs: seq<Job>, status: Status, cutoff: int, now: int): (after: seq<Job>)
    ensures |after| == |jobs|
  {
    seq(|jobs|, k requires 0 <= k < |jobs| => SweptJob(jobs[k], status, cutoff, now))
  }

  predicate Refundable(j: Job, status: Status, cutoff: int) {
    Stale(j, status, cutoff) && j.cost > 0
  }

  function SweepLog(j: Job, id: nat, status: Status): Log {
    Log(j.user, j.cost, Refund, "Refund: " + j.kind + " scan auto-failed (" + Reason(status) + ")", Some(id))
  }

  function RefundLogs(jobs: seq<Job>, status: Status, cutoff: int): seq<Log> {
    if jobs == [] then []
    else
      var n := |jobs| - 1;
      RefundLogs(jobs[..n], status, cutoff)
        + if Refundable(jobs[n], status, cutoff) then [SweepLog(jobs[n], n, status)] else []
  }

  function StaleCount(jobs: seq<Job>, status: Status, cutoff: int): nat {
    if jobs == [] then 0
    else StaleCount(jobs[..|jobs| - 1], status, cutoff) + if Stale(jobs[|jobs| - 1], status, cutoff) then 1 else 0
  }

  // What a list of log entries amounts to for one user.
  function Amount(logs: seq<Log>, user: nat): int {
    if logs == [] then 0
    else
      var last := logs[|logs| - 1];
      Amount(logs[..|logs| - 1], user) + if last.user == user then last.amount else 0
  }

  function Credited(credits: map<nat, int>, logs: seq<Log>): map<nat, int> {
    map u | u in credits :: credits[u] + Amount(logs, u)
  }

  function Sweep(db: Db, status: Status, cutoff: int, now: int): Db {
    var added := RefundLogs(db.jobs, status, cutoff);
    Db(Swept(db.jobs, status, cutoff, now), Credited(db.credits, added), db.logs + added)
  }

  // ---- failing one job ----

  predicate IsRefundOf(l: Log, id: nat) {
    l.entry == Refund && l.job == Some(id)
  }

  function RefundCount(logs: seq<Log>, id: nat): nat {
    if logs == [] then 0
    else RefundCount(logs[..|logs| - 1], id) + if IsRefundOf(logs[|logs| - 1], id) then 1 else 0
  }

  function FailLog(j: Job, id: nat, kind: string): Log {
    Log(j.user, j.cost, Refund, "Refund: " + kind + " scan failed", Some(id))
  }

  // `err_msg[:500]`
  function Clipped(message: string): string {
    if |message| > 500 then message[..500] else message
  }

  // `fail_job_no_retry`. Credits below zero break a check constraint, and everything is rolled back.
  function FailOne(db: Db, id: nat, kind: string, message: string, now: int, refund: bool): Db {
    if id >= |db.jobs| then db
    else
      var j := db.jobs[id];
      var failed := db.(jobs := db.jobs[id := Fail(j, now, Clipped(message))]);
      if !refund || j.cost == 0 || RefundCount(db.logs, id) > 0 || j.user !in db.credits then failed
      else if db.credits[j.user] + j.cost < 0 then db
      else failed.(credits := db.credits[j.user := db.credits[j.user] + j.cost], logs := db.logs + [FailLog(j, id, kind)])
  }

  // The statement's subqueries: the failed rows, what each user is owed, and the log rows.
  method TakeStale(table: seq<Job>, status: Status, cutoff: int, now: int)
      returns (jobs: seq<Job>, byUser: map<nat, int>, added: seq<Log>, autoFailed: nat)
    ensures jobs == Swept(table, status, cutoff, now)
    ensures added == RefundLogs(table, status, cutoff) && autoFailed == StaleCount(table, status, cutoff)
    ensures forall u: nat :: Amount(added, u) == if u in byUser then byUser[u] else 0
  {
    hide RefundLogs, StaleCount, Swept, Stale, Fail, Summary, SweepLog, Grouped, Amount;
    jobs, byUser, added, autoFailed := table, map[], [], 0;
    SweepStart(table, status, cutoff, now);
    for k := 0 to |table|
      invariant jobs == Swept(table[..k], status, cutoff, now) + table[k..]
      invariant added == RefundLogs(table[..k], status, cutoff) && autoFailed == StaleCount(table[..k], status, cutoff)
      invariant Grouped(byUser, added)
    {
      var j := table[k];
      StepPrefix(table, k, status, cutoff);
      StepSwept(table, k, status, cutoff, now);
      if Stale(j, status, cutoff) {
        jobs := jobs[k := Fail(j, now, Summary(status))];
        autoFailed := autoFailed + 1;
        if j.cost > 0 {
          GroupOne(byUser, added, SweepLog(j, k, status), j.user, j.cost) by {
            SweepLogFields(j, k, status);
          }
          byUser := byUser[j.user := (if j.user in byUser then byUser[j.user] else 0) + j.cost];
          added := added + [SweepLog(j, k, status)];
        }
      }
    }
    SweptAll(table, status, cutoff, now);
    GroupedMeans(byUser, added);
  }

  class Desk {
    var jobs: seq<Job>
    var credits: map<nat, int>
    var logs: seq<Log>

    function Now(): Db reads this {
      Db(jobs, credits, logs)
    }

    // `_fail_stale_and_refund`: refunds are summed by user before the users are updated, and logged job by job.
    method FailStaleAndRefund(status: Status, cutoff: int, now: int) returns (autoFailed: nat, refunded: nat)
      requires Linked(jobs, credits)
      modifies this
      ensures Now() == Sweep(old(Now()), status, cutoff, now) && Linked(jobs, credits)
      ensures autoFailed == StaleCount(old(jobs), status, cutoff)
      ensures refunded == |RefundLogs(old(jobs), status, cutoff)|
    {
      hide RefundLogs, StaleCount, Swept, Stale, Fail, Summary, SweepLog, Grouped, Credited, Sweep, Linked, Amount;
      var table := jobs;
      var byUser, added;
      jobs, byUser, added, autoFailed := TakeStale(table, status, cutoff, now);
      refunded := |added|;
      SweepEnd(credits, byUser, added);
      credits := map u | u in credits :: credits[u] + if u in byUser then byUser[u] else 0;
      logs := logs + added;
      SweepIs(old(Now()), Now(), status, cutoff, now);
    }

    method FailJobNoRetry(id: nat, kind: string, message: string, now: int, refund: bool)
      modifies this
      ensures Now() == FailOne(old(Now()), id, kind, message, now, refund)
    {
      if id >= |jobs| {
        return;
      }
      var before := jobs;
      jobs := jobs[id := Fail(jobs[id], now, Clipped(message))];
      if refund {
        var ok := RefundCredits(id, kind);
        if !ok {
          jobs := before;
        }
      }
    }

    // `_refund_credits`, and whether its changes can be committed.
    method RefundCredits(id: nat, kind: string) returns (ok: bool)
      modifies this`credits, this`logs
      ensures var changes :=
          && id < |jobs| && jobs[id].cost != 0 && RefundCount(old(logs), id) == 0 && jobs[id].user in old(credits);
        && (ok <==> (changes ==> old(credits)[jobs[id].user] + jobs[id].cost >= 0))
        && (ok && changes ==>
              && credits == old(credits)[jobs[id].user := old(credits)[jobs[id].user] + jobs[id].cost]
              && logs == old(logs) + [FailLog(jobs[id], id, kind)])
        && (!(ok && changes) ==> credits == old(credits) && logs == old(logs))
    {
      hide RefundCount, FailLog;
      ok := true;
      if id >= |jobs| || jobs[id].cost == 0 {
        return;
      }
      if RefundCount(logs, id) > 0 {
        return;
      }
      var j := jobs[id];
      if j.user !in credits {
        return;
      }
      if credits[j.user] + j.cost < 0 {
        return false;
      }
      credits := credits[j.user := credits[j.user] + j.cost];
      logs := logs + [FailLog(j, id, kind)];
    }
  }

  ghost predicate Grouped(byUser: map<nat, int>, logs: seq<Log>) {
    forall u: nat :: Amount(logs, u) == if u in byUser then byUser[u] else 0
  }

  lemma SweepStart(table: seq<Job>, status: Status, cutoff: int, now: int)
    ensures table == Swept(table[..0], status, cutoff, now) + table[0..]
    ensures RefundLogs(table[..0], status, cutoff) == [] && StaleCount(table[..0], status, cutoff) == 0
    ensures Grouped(map[], [])
  {
  }

  lemma StepSwept(table: seq<Job>, k: nat, status: Status, cutoff: int, now: int)
    requires k < |table|
    ensures var jobs := Swept(table[..k], status, cutoff, now) + table[k..];
      k < |jobs| && Swept(table[..k + 1], status, cutoff, now) + table[k + 1..]
        == if Stale(table[k], status, cutoff) then jobs[k := Fail(table[k], now, Summary(status))] else jobs
  {
    hide Stale, Fail;
  }

  lemma SweptAll(table: seq<Job>, status: Status, cutoff: int, now: int)
    ensures Swept(table[..|table|], status, cutoff, now) + table[|table|..] == Swept(table, status, cutoff, now)
    ensures table[..|table|] == table
  {
    assert table[..|table|] == table;
    hide Swept;
  }

  lemma GroupedMeans(byUser: map<nat, int>, added: seq<Log>)
    requires Grouped(byUser, added)
    ensures forall u: nat :: Amount(added, u) == if u in byUser then byUser[u] else 0
  {
  }

  lemma SweepEnd(credits: map<nat, int>, byUser: map<nat, int>, added: seq<Log>)
    requires forall u: nat :: Amount(added, u) == if u in byUser then byUser[u] else 0
    ensures (map u | u in credits :: credits[u] + if u in byUser then byUser[u] else 0) == Credited(credits, added)
  {
    hide Amount;
  }

  lemma SweepIs(db: Db, after: Db, status: Status, cutoff: int, now: int)
    requires Linked(db.jobs, db.credits) && after.jobs == Swept(db.jobs, status, cutoff, now)
    requires after.credits == Credited(db.credits, RefundLogs(db.jobs, status, cutoff))
    requires after.logs == db.logs + RefundLogs(db.jobs, status, cutoff)
    ensures after == Sweep(db, status, cutoff, now) && Linked(after.jobs, after.credits)
  {
    hide RefundLogs, Amount, Stale;
  }

  lemma SweepLogFields(j: Job, id: nat, status: Status)
    ensures var l := SweepLog(j, id, status); l.user == j.user && l.amount == j.cost && l.entry == Refund && l.job == Some(id)
  {
  }

  lemma StepPrefix(jobs: seq<Job>, k: nat, status: Status, cutoff: int)
    requires k < |jobs|
    ensures RefundLogs(jobs[..k + 1], status, cutoff)
         == RefundLogs(jobs[..k], status, cutoff)
            + if Stale(jobs[k], status, cutoff) && jobs[k].cost > 0 then [SweepLog(jobs[k], k, status)] else []
    ensures StaleCount(jobs[..k + 1], status, cutoff)
         == StaleCount(jobs[..k], status, cutoff) + if Stale(jobs[k], status, cutoff) then 1 else 0
  {
    hide Stale, SweepLog;
    assert jobs[..k + 1][..k] == jobs[..k];
  }

  lemma AmountAppend(logs: seq<Log>, l: Log, user: nat)
    ensures Amount(logs + [l], user) == Amount(logs, user) + if l.user == user then l.amount else 0
  {
    assert (logs + [l])[..|logs|] == logs;
  }

  lemma GroupOne(byUser: map<nat, int>, logs: seq<Log>, l: Log, user: nat, amount: int)
    requires Grouped(byUser, logs) && l.user == user && l.amount == amount
    ensures Grouped(byUser[user := (if user in byUser then byUser[user] else 0) + amount], logs + [l])
  {
    hide Amount;
    forall u: nat ensures Amount(logs + [l], u) == Amount(logs, u) + if user == u then amount else 0 {
      AmountAppend(logs, l, u);
    }
  }

  // ---- what one sweep does ----

  lemma CountAppend(logs: seq<Log>, l: Log, id: nat)
    ensures RefundCount(logs + [l], id) == RefundCount(logs, id) + if IsRefundOf(l, id) then 1 else 0
  {
    assert (logs + [l])[..|logs|] == logs;
  }

  lemma Ends(logs: seq<Log>, id: nat, user: nat)
    ensures logs == [] ==> RefundCount(logs, id) == 0 && Amount(logs, user) == 0
    ensures logs != [] ==>
      var l := logs[|logs| - 1];
      && RefundCount(logs, id) == RefundCount(logs[..|logs| - 1], id) + (if IsRefundOf(l, id) then 1 else 0)
      && Amount(logs, user) == Amount(logs[..|logs| - 1], user) + if l.user == user then l.amount else 0
  {
    hide IsRefundOf;
  }

  lemma Split(a: seq<Log>, b: seq<Log>)
    ensures b == [] ==> a + b == a
    ensures b != [] ==> a + b == (a + b[..|b| - 1]) + [b[|b| - 1]]
  {
  }

  lemma {:induction false} CountConcat(a: seq<Log>, b: seq<Log>, id: nat)
    ensures RefundCount(a + b, id) == RefundCount(a, id) + RefundCount(b, id)
    decreases |b|
  {
    hide *;
    Split(a, b);
    Ends(b, id, 0);
    if b != [] {
      var front, last := b[..|b| - 1], b[|b| - 1];
      CountConcat(a, front, id);
      CountAppend(a + front, last, id);
    }
  }

  lemma {:induction false} AmountConcat(a: seq<Log>, b: seq<Log>, user: nat)
    ensures Amount(a + b, user) == Amount(a, user) + Amount(b, user)
    decreases |b|
  {
    hide *;
    Split(a, b);
    Ends(b, 0, user);
    if b != [] {
      var front, last := b[..|b| - 1], b[|b| - 1];
      AmountConcat(a, front, user);
      AmountAppend(a + front, last, user);
    }
  }

  lemma LogsLast(jobs: seq<Job>, status: Status, cutoff: int) returns (front: seq<Job>, before: seq<Log>, l: Log)
    requires jobs != []
    ensures front == jobs[..|jobs| - 1] && before == RefundLogs(front, status, cutoff)
    ensures var last := jobs[|jobs| - 1];
      && l.user == last.user && l.amount == last.cost
      && (forall id: nat :: IsRefundOf(l, id) <==> id == |jobs| - 1)
      && RefundLogs(jobs, status, cutoff) == if Refundable(last, status, cutoff) then before + [l] else before
  {
    hide Refundable;
    front, l := jobs[..|jobs| - 1], SweepLog(jobs[|jobs| - 1], |jobs| - 1, status);
    before := RefundLogs(front, status, cutoff);
    assert before + [] == before;
  }

  /** A sweep writes one refund for each job it takes whose cost is positive, and for no other job. */
  lemma {:induction false} OneLogPerRefund(jobs: seq<Job>, status: Status, cutoff: int, id: nat)
    ensures RefundCount(RefundLogs(jobs, status, cutoff), id)
         == if id < |jobs| && Refundable(jobs[id], status, cutoff) then 1 else 0
    decreases |jobs|
  {
    if jobs != [] {
      hide *;
      var front, before, l := LogsLast(jobs, status, cutoff);
      OneLogPerRefund(front, status, cutoff, id);
      CountAppend(before, l, id);
    }
  }

  // The sum over jobs of what a sweep owes one user.
  function Owed(jobs: seq<Job>, status: Status, cutoff: int, user: nat): int {
    if jobs == [] then 0
    else
      var n := |jobs| - 1;
      Owed(jobs[..n], status, cutoff, user)
        + if jobs[n].user == user && Refundable(jobs[n], status, cutoff) then jobs[n].cost else 0
  }

  lemma OwedLast(jobs: seq<Job>, status: Status, cutoff: int, user: nat)
    requires jobs != []
    ensures Owed(jobs, status, cutoff, user) == Owed(jobs[..|jobs| - 1], status, cutoff, user)
      + if jobs[|jobs| - 1].user == user && Refundable(jobs[|jobs| - 1], status, cutoff) then jobs[|jobs| - 1].cost else 0
  {
  }

  /** The refunds logged for a user add up to the costs of that user's refundable jobs. */
  lemma {:induction false} LoggedIsOwed(jobs: seq<Job>, status: Status, cutoff: int, user: nat)
    ensures Amount(RefundLogs(jobs, status, cutoff), user) == Owed(jobs, status, cutoff, user)
    decreases |jobs|
  {
    if jobs != [] {
      hide *;
      var front, before, l := LogsLast(jobs, status, cutoff);
      LoggedIsOwed(front, status, cutoff, user);
      AmountAppend(before, l, user);
      OwedLast(jobs, status, cutoff, user);
    }
  }

  /** What a sweep does: each user gains what their refundable jobs cost, which is also what is logged for
      them; exactly the stale jobs of the status are failed, and the others are left as they were. */
  lemma SweepOutcome(db: Db, status: Status, cutoff: int, now: int, user: nat, id: nat)
    requires user in db.credits && id < |db.jobs|
    ensures var after := Sweep(db, status, cutoff, now);
      && after.credits.Keys == db.credits.Keys
      && after.credits[user] - db.credits[user] == Owed(db.jobs, status, cutoff, user)
      && Amount(after.logs, user) - Amount(db.logs, user) == Owed(db.jobs, status, cutoff, user)
      && db.logs <= after.logs
      && (Stale(db.jobs[id], status, cutoff) ==> after.jobs[id] == Fail(db.jobs[id], now, Summary(status)))
      && (!Stale(db.jobs[id], status, cutoff) ==> after.jobs[id] == db.jobs[id])
  {
    LoggedIsOwed(db.jobs, status, cutoff, user);
    AmountConcat(db.logs, RefundLogs(db.jobs, status, cutoff), user);
    hide Amount, RefundLogs, Owed, Stale;
  }

  lemma {:induction false} NothingStale(jobs: seq<Job>, status: Status, cutoff: int)
    requires forall k :: 0 <= k < |jobs| ==> !Stale(jobs[k], status, cutoff)
    ensures RefundLogs(jobs, status, cutoff) == [] && StaleCount(jobs, status, cutoff) == 0
    decreases |jobs|
  {
    if jobs != [] {
      hide Stale;
      NothingStale(jobs[..|jobs| - 1], status, cutoff);
    }
  }

  lemma SweepNothing(db: Db, status: Status, cutoff: int, now: int)
    requires forall k :: 0 <= k < |db.jobs| ==> !Stale(db.jobs[k], status, cutoff)
    ensures Sweep(db, status, cutoff, now) == db
  {
    NothingStale(db.jobs, status, cutoff);
    hide Stale;
    assert Swept(db.jobs, status, cutoff, now) == db.jobs;
    assert Credited(db.credits, []) == db.credits;
  }

  /** Repeating a sweep, at any later time with the same cutoff, changes nothing and finds nothing. */
  lemma SweepTwice(db: Db, status: Status, cutoff: int, now: int, later: int)
    requires status != Failed
    ensures var after := Sweep(db, status, cutoff, now);
      Sweep(after, status, cutoff, later) == after && StaleCount(after.jobs, status, cutoff) == 0
  {
    var after := Sweep(db, status, cutoff, now);
    forall k | 0 <= k < |after.jobs| ensures !Stale(after.jobs[k], status, cutoff) {
      assert after.jobs[k] == SweptJob(db.jobs[k], status, cutoff, now);
    }
    hide Stale, Sweep;
    NothingStale(after.jobs, status, cutoff);
    SweepNothing(after, status, cutoff, later);
  }

  // ---- the two sweeps commute ----

  lemma OtherSweep(j: Job, a: Status, ca: int, na: int, b: Status, cb: int)
    requires a != b && a != Failed && b != Failed
    ensures var swept := SweptJob(j, a, ca, na);
      && (Stale(swept, b, cb) <==> Stale(j, b, cb))
      && (Stale(j, b, cb) ==> swept == j)
  {
  }

  lemma {:induction false} OtherLogs(jobs: seq<Job>, a: Status, ca: int, na: int, b: Status, cb: int)
    requires a != b && a != Failed && b != Failed
    ensures RefundLogs(Swept(jobs, a, ca, na), b, cb) == RefundLogs(jobs, b, cb)
    decreases |jobs|
  {
    if jobs != [] {
      var n := |jobs| - 1;
      var swept := Swept(jobs, a, ca, na);
      OtherLogs(jobs[..n], a, ca, na, b, cb);
      OtherSweep(jobs[n], a, ca, na, b, cb);
      assert swept[..n] == Swept(jobs[..n], a, ca, na);
      hide Stale, Swept, SweptJob, SweepLog;
    }
  }

  /** The pending sweep and the running sweep can come in either order: jobs and credits end the same, and
      the same entries are logged. */
  lemma SweepsCommute(db: Db, pendingCutoff: int, runningCutoff: int, pendingAt: int, runningAt: int)
    ensures var one := Sweep(Sweep(db, Pending, pendingCutoff, pendingAt), Running, runningCutoff, runningAt);
      var two := Sweep(Sweep(db, Running, runningCutoff, runningAt), Pending, pendingCutoff, pendingAt);
      one.jobs == two.jobs && one.credits == two.credits && multiset(one.logs) == multiset(two.logs)
  {
    var p, r := RefundLogs(db.jobs, Pending, pendingCutoff), RefundLogs(db.jobs, Running, runningCutoff);
    OtherLogs(db.jobs, Pending, pendingCutoff, pendingAt, Running, runningCutoff);
    OtherLogs(db.jobs, Running, runningCutoff, runningAt, Pending, pendingCutoff);
    hide RefundLogs, Amount;
    JobsCommute(db.jobs, pendingCutoff, runningCutoff, pendingAt, runningAt);
    CreditsCommute(db.credits, p, r);
    hide Swept, Credited;
  }

  lemma JobsCommute(jobs: seq<Job>, pendingCutoff: int, runningCutoff: int, pendingAt: int, runningAt: int)
    ensures Swept(Swept(jobs, Pending, pendingCutoff, pendingAt), Running, runningCutoff, runningAt)
         == Swept(Swept(jobs, Running, runningCutoff, runningAt), Pending, pendingCutoff, pendingAt)
  {
    forall k | 0 <= k < |jobs|
      ensures SweptJob(SweptJob(jobs[k], Pending, pendingCutoff, pendingAt), Running, runningCutoff, runningAt)
           == SweptJob(SweptJob(jobs[k], Running, runningCutoff, runningAt), Pending, pendingCutoff, pendingAt)
    {
    }
    hide SweptJob;
  }

  lemma CreditsCommute(credits: map<nat, int>, a: seq<Log>, b: seq<Log>)
    ensures Credited(Credited(credits, a), b) == Credited(Credited(credits, b), a)
  {
    hide Amount;
  }

  // ---- runs ----

  // Everything that happens to jobs: the two sweeps, a task giving up, a worker starting a job (again, on a
  // retry) or completing it.
  datatype Action =
    | SweepStale(running: bool, cutoff: int, now: int)
    | GiveUp(id: nat, kind: string, message: string, now: int, refund: bool)
    | Start(id: nat, now: int)
    | Complete(id: nat, now: int)

  function Step(db: Db, a: Action): Db {
    match a
    case SweepStale(running, cutoff, now) => Sweep(db, if running then Running else Pending, cutoff, now)
    case GiveUp(id, kind, message, now, refund) => FailOne(db, id, kind, message, now, refund)
    case Start(id, now) =>
      if id < |db.jobs| then db.(jobs := db.jobs[id := db.jobs[id].(status := Running, started := Some(now))]) else db
    case Complete(id, now) =>
      if id < |db.jobs| then db.(jobs := db.jobs[id := db.jobs[id].(status := Completed, completed := Some(now))]) else db
  }

  function Run(db: Db, actions: seq<Action>): Db
    decreases |actions|
  {
    if actions == [] then db else Step(Run(db, actions[..|actions| - 1]), actions[|actions| - 1])
  }

  lemma FailOneConserves(db: Db, id: nat, kind: string, message: string, now: int, refund: bool, user: nat)
    requires user in db.credits
    ensures var after := FailOne(db, id, kind, message, now, refund);
      && after.credits.Keys == db.credits.Keys
      && after.credits[user] - Amount(after.logs, user) == db.credits[user] - Amount(db.logs, user)
  {
    hide RefundCount, Fail, Clipped, Amount;
    if id < |db.jobs| {
      AmountAppend(db.logs, FailLog(db.jobs[id], id, kind), user);
    }
  }

  /** Conservation over every run: each user's credits less what the log adds up to for them never change. */
  lemma {:induction false} CreditsMatchLog(db: Db, actions: seq<Action>, user: nat)
    requires user in db.credits
    ensures var after := Run(db, actions);
      && user in after.credits
      && after.credits[user] - Amount(after.logs, user) == db.credits[user] - Amount(db.logs, user)
    decreases |actions|
  {
    if actions != [] {
      var n := |actions| - 1;
      CreditsMatchLog(db, actions[..n], user);
      var mid := Run(db, actions[..n]);
      hide Sweep, FailOne, Amount, Run;
      StepConserves(mid, actions[n], user);
      hide Step;
      assert Run(db, actions) == Step(mid, actions[n]) by {
        RunLast(db, actions);
      }
    }
  }

  lemma RunLast(db: Db, actions: seq<Action>)
    requires actions != []
    ensures Run(db, actions) == Step(Run(db, actions[..|actions| - 1]), actions[|actions| - 1])
  {
  }

  lemma StepConserves(db: Db, a: Action, user: nat)
    requires user in db.credits
    ensures var after := Step(db, a);
      && user in after.credits
      && after.credits[user] - Amount(after.logs, user) == db.credits[user] - Amount(db.logs, user)
  {
    hide Sweep, FailOne, Amount;
    match a
    case SweepStale(running, cutoff, now) =>
      SweepConserves(db, if running then Running else Pending, cutoff, now, user);
    case GiveUp(id, kind, message, now, refund) =>
      FailOneConserves(db, id, kind, message, now, refund, user);
    case Start(_, _) =>
    case Complete(_, _) =>
  }

  lemma SweepConserves(db: Db, status: Status, cutoff: int, now: int, user: nat)
    requires user in db.credits
    ensures var after := Sweep(db, status, cutoff, now);
      && user in after.credits
      && after.credits[user] - Amount(after.logs, user) == db.credits[user] - Amount(db.logs, user)
  {
    AmountConcat(db.logs, RefundLogs(db.jobs, status, cutoff), user);
    hide Amount, RefundLogs, Swept;
  }

  // ---- at most one refund ----

  predicate Live(j: Job) {
    j.status == Pending || j.status == Running
  }

  // A refunded job has one refund and is no longer live.
  ghost predicate RefundedOnce(db: Db, id: nat) {
    RefundCount(db.logs, id) <= 1 && (RefundCount(db.logs, id) == 1 && id < |db.jobs| ==> !Live(db.jobs[id]))
  }

  // An action that does not set a refunded job going again.
  ghost predicate Sound(db: Db, a: Action, id: nat) {
    a.Start? && a.id == id ==> RefundCount(db.logs, id) == 0
  }

  ghost predicate SoundRun(db: Db, actions: seq<Action>, id: nat)
    decreases |actions|
  {
    actions != [] ==>
      var n := |actions| - 1;
      SoundRun(db, actions[..n], id) && Sound(Run(db, actions[..n]), actions[n], id)
  }

  lemma SweepRefundsOnce(db: Db, status: Status, cutoff: int, now: int, id: nat)
    requires RefundedOnce(db, id) && (status == Pending || status == Running)
    ensures RefundedOnce(Sweep(db, status, cutoff, now), id)
  {
    var added := RefundLogs(db.jobs, status, cutoff);
    OneLogPerRefund(db.jobs, status, cutoff, id);
    CountConcat(db.logs, added, id);
    hide RefundCount, RefundLogs, Credited, Age;
  }

  lemma FailRefundsOnce(db: Db, id: nat, kind: string, message: string, now: int, refund: bool, of: nat)
    requires RefundedOnce(db, of)
    ensures RefundedOnce(FailOne(db, id, kind, message, now, refund), of)
  {
    hide RefundCount, Clipped, FailLog, IsRefundOf;
    if id < |db.jobs| {
      var l := FailLog(db.jobs[id], id, kind);
      FailLogIs(db.jobs[id], id, kind, of);
      CountAppend(db.logs, l, of);
    }
  }

  lemma FailLogIs(j: Job, id: nat, kind: string, of: nat)
    ensures IsRefundOf(FailLog(j, id, kind), of) <==> id == of
  {
  }

  lemma StepRefundsOnce(db: Db, a: Action, id: nat)
    requires RefundedOnce(db, id) && Sound(db, a, id)
    ensures RefundedOnce(Step(db, a), id)
  {
    hide Sweep, FailOne, RefundCount;
    match a
    case SweepStale(running, cutoff, now) =>
      SweepRefundsOnce(db, if running then Running else Pending, cutoff, now, id);
    case GiveUp(i, kind, message, now, refund) =>
      FailRefundsOnce(db, i, kind, message, now, refund, id);
    case Start(_, _) =>
    case Complete(_, _) =>
  }

  /** Over any run of sweeps, give-ups, starts and completions in which no refunded job is started again,
      a job is refunded at most once. */
  lemma {:induction false} AtMostOneRefund(db: Db, actions: seq<Action>, id: nat)
    requires RefundedOnce(db, id) && SoundRun(db, actions, id)
    ensures RefundedOnce(Run(db, actions), id)
    decreases |actions|
  {
    if actions != [] {
      var n := |actions| - 1;
      AtMostOneRefund(db, actions[..n], id);
      RunLast(db, actions);
      hide Step, RefundedOnce, Sound, Run;
      StepRefundsOnce(Run(db, actions[..n]), actions[n], id);
    }
  }

  // ---- exactly when ----

  // A sweep that takes a job which already has a refund.
  predicate Repeats(db: Db, a: Action, id: nat) {
    && a.SweepStale? && id < |db.jobs| && RefundCount(db.logs, id) > 0
    && Refundable(db.jobs[id], if a.running then Running else Pending, a.cutoff)
  }

  predicate NeverRepeats(db: Db, actions: seq<Action>, id: nat)
    decreases |actions|
  {
    actions != [] ==>
      var n := |actions| - 1;
      NeverRepeats(db, actions[..n], id) && !Repeats(Run(db, actions[..n]), actions[n], id)
  }

  // What one action adds to a job's refunds.
  lemma StepCounts(db: Db, a: Action, id: nat)
    ensures var before, after := RefundCount(db.logs, id), RefundCount(Step(db, a).logs, id);
      && before <= after <= before + 1
      && (before == 1 && after == 2 ==> Repeats(db, a, id))
      && (Repeats(db, a, id) ==> after == before + 1)
  {
    hide Sweep, FailOne, RefundCount, Refundable;
    match a
    case SweepStale(running, cutoff, _) =>
      SweepCounts(db, if running then Running else Pending, cutoff, a.now, id);
    case GiveUp(i, kind, message, now, refund) =>
      FailCounts(db, i, kind, message, now, refund, id);
    case Start(_, _) =>
    case Complete(_, _) =>
  }

  lemma SweepCounts(db: Db, status: Status, cutoff: int, now: int, id: nat)
    ensures RefundCount(Sweep(db, status, cutoff, now).logs, id)
         == RefundCount(db.logs, id) + if id < |db.jobs| && Refundable(db.jobs[id], status, cutoff) then 1 else 0
  {
    OneLogPerRefund(db.jobs, status, cutoff, id);
    CountConcat(db.logs, RefundLogs(db.jobs, status, cutoff), id);
    hide RefundCount, RefundLogs, Refundable, Credited, Swept;
  }

  lemma FailCounts(db: Db, id: nat, kind: string, message: string, now: int, refund: bool, of: nat)
    ensures var before, after := RefundCount(db.logs, of), RefundCount(FailOne(db, id, kind, message, now, refund).logs, of);
      after == before || (before == 0 && after == 1)
  {
    hide RefundCount, Clipped, FailLog, IsRefundOf, Fail;
    if id < |db.jobs| {
      FailLogIs(db.jobs[id], id, kind, of);
      CountAppend(db.logs, FailLog(db.jobs[id], id, kind), of);
    }
  }

  /** Exactly when a job is refunded at most once: over any run of sweeps, give-ups, starts and completions, if and
      only if no sweep takes the job, with a cost to refund, after it was refunded. Restarting a refunded job
      does no harm by itself. */
  lemma {:induction false} RefundedAtMostOnceIff(db: Db, actions: seq<Action>, id: nat)
    requires RefundCount(db.logs, id) <= 1
    ensures RefundCount(Run(db, actions).logs, id) <= 1 <==> NeverRepeats(db, actions, id)
    decreases |actions|
  {
    if actions != [] {
      var n := |actions| - 1;
      RefundedAtMostOnceIff(db, actions[..n], id);
      RunLast(db, actions);
      hide Step, Run, RefundCount, Repeats;
      StepCounts(Run(db, actions[..n]), actions[n], id);
    }
  }

  /** Never starting a refunded job again is one way to meet the condition. */
  lemma SoundRunNeverRepeats(db: Db, actions: seq<Action>, id: nat)
    requires RefundedOnce(db, id) && SoundRun(db, actions, id)
    ensures NeverRepeats(db, actions, id)
  {
    hide Run, SoundRun, NeverRepeats, RefundCount;
    AtMostOneRefund(db, actions, id);
    RefundedAtMostOnceIff(db, actions, id);
  }

  // Any number of `fail_job_no_retry` calls for one job.
  datatype Call = Call(kind: string, message: string, now: int, refund: bool)

  function Calls(db: Db, id: nat, calls: seq<Call>): Db
    decreases |calls|
  {
    if calls == [] then db
    else
      var c := calls[|calls| - 1];
      FailOne(Calls(db, id, calls[..|calls| - 1]), id, c.kind, c.message, c.now, c.refund)
  }

  // What the calls may have done to the books.
  ghost predicate CallsSoFar(db: Db, after: Db, id: nat) {
    && |after.jobs| == |db.jobs| && after.credits.Keys == db.credits.Keys
    && (id < |db.jobs| ==>
          && after.jobs[id].user == db.jobs[id].user && after.jobs[id].cost == db.jobs[id].cost
          && (if after.logs == db.logs then after.credits == db.credits
              else Paid(db, after, id)))
    && (id >= |db.jobs| ==> after == db)
  }

  // One refund of the job's cost, and it had none before.
  ghost predicate Paid(db: Db, after: Db, id: nat)
    requires id < |db.jobs|
  {
    var j := db.jobs[id];
    && RefundCount(db.logs, id) == 0 && RefundCount(after.logs, id) == 1 && j.user in db.credits
    && after.credits == db.credits[j.user := db.credits[j.user] + j.cost]
  }

  /** However often a job is given up, its user's credits are raised by its cost at most once, and not at all
      when the job already had a refund. */
  lemma {:induction false} CallsRefundOnce(db: Db, id: nat, calls: seq<Call>)
    ensures CallsSoFar(db, Calls(db, id, calls), id)
    decreases |calls|
  {
    if calls != [] {
      var n := |calls| - 1;
      CallsRefundOnce(db, id, calls[..n]);
      var c, mid := calls[n], Calls(db, id, calls[..n]);
      hide CallsSoFar, Calls;
      CallStep(db, mid, id, c);
      hide FailOne;
      CallsLast(db, id, calls);
    }
  }

  lemma CallsLast(db: Db, id: nat, calls: seq<Call>)
    requires calls != []
    ensures var c := calls[|calls| - 1];
      Calls(db, id, calls) == FailOne(Calls(db, id, calls[..|calls| - 1]), id, c.kind, c.message, c.now, c.refund)
  {
  }

  lemma CallStep(db: Db, mid: Db, id: nat, c: Call)
    requires CallsSoFar(db, mid, id)
    ensures CallsSoFar(db, FailOne(mid, id, c.kind, c.message, c.now, c.refund), id)
  {
    if id < |db.jobs| {
      var l := FailLog(mid.jobs[id], id, c.kind);
      CountAppend(mid.logs, l, id);
      hide RefundCount, Clipped;
    }
  }

  /** What the once depends on: a job that is started again after its refund is refunded by the next sweep a
      second time. */
  lemma RestartRefundsTwice(user: nat, cost: int, kind: string, message: string)
    requires cost > 0
    ensures
      var job := Job(user, kind, cost, Running, 0, Some(0), None, None);
      var db := Db([job], map[user := 0], []);
      var actions := [GiveUp(0, kind, message, 1, true), Start(0, 2), SweepStale(true, 10, 20)];
      var after := Run(db, actions);
      RefundCount(after.logs, 0) == 2 && user in after.credits && after.credits[user] == 2 * cost
  {
    var job := Job(user, kind, cost, Running, 0, Some(0), None, None);
    var db := Db([job], map[user := 0], []);
    var actions := [GiveUp(0, kind, message, 1, true), Start(0, 2), SweepStale(true, 10, 20)];
    var one := FailOne(db, 0, kind, message, 1, true);
    FirstRefund(db, kind, message);
    assert actions[..2] == [actions[0], actions[1]] && actions[..2][..1] == [actions[0]];
    assert [actions[0]][..0] == [];
    hide FailOne, Sweep;
    assert Run(db, [actions[0]]) == one;
    var two := Step(one, actions[1]);
    assert Run(db, actions[..2]) == two;
    assert Run(db, actions) == Sweep(two, Running, 10, 20);
    hide Run, Step;
    SecondRefund(two);
  }

  lemma FirstRefund(db: Db, kind: string, message: string)
    requires |db.jobs| == 1 && db.jobs[0].cost > 0 && db.logs == []
    requires db.jobs[0].user in db.credits && db.credits[db.jobs[0].user] == 0
    ensures var one := FailOne(db, 0, kind, message, 1, true);
      && |one.jobs| == 1 && one.jobs[0].user == db.jobs[0].user && one.jobs[0].cost == db.jobs[0].cost
      && one.credits == db.credits[db.jobs[0].user := db.jobs[0].cost] && RefundCount(one.logs, 0) == 1
  {
    CountAppend([], FailLog(db.jobs[0], 0, kind), 0);
  }

  lemma SecondRefund(db: Db)
    requires |db.jobs| == 1 && db.jobs[0].cost > 0 && RefundCount(db.logs, 0) == 1
    requires db.jobs[0].status == Running && db.jobs[0].started == Some(2)
    requires db.jobs[0].user in db.credits && db.credits[db.jobs[0].user] == db.jobs[0].cost
    ensures var two := Sweep(db, Running, 10, 20);
      && RefundCount(two.logs, 0) == 2 && two.credits[db.jobs[0].user] == 2 * db.jobs[0].cost
  {
    var added := RefundLogs(db.jobs, Running, 10);
    OneLogPerRefund(db.jobs, Running, 10, 0);
    CountConcat(db.logs, added, 0);
    LoggedIsOwed(db.jobs, Running, 10, db.jobs[0].user);
    assert db.jobs[..0] == [];
    hide RefundCount, Amount, RefundLogs;
  }
}
