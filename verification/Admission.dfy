/** Scheduled host scans (`run_due_host_scans` in `workers/tasks/host_protect.py`). */
module Admission {
  import opened Common

  const CAP: nat := 2

  datatype ScanStatus = Queued | Running | Finished

  datatype Scan = Scan(org: nat, site: nat, status: ScanStatus, scheduled: bool, at: int)

  datatype Site = Site(id: nat, org: nat, enabled: bool, interval: Option<string>)

  // `row["scan_interval"] or "daily"`, in seconds.
  function Seconds(site: Site): (s: int)
    ensures s > 0
  {
    if site.interval == Some("hourly") then 3600 else 86400
  }

  predicate Counted(s: Scan, org: nat) {
    s.org == org && (s.status == Queued || s.status == Running)
  }

  function InFlight(scans: seq<Scan>, org: nat): nat {
    if scans == [] then 0
    else InFlight(scans[..|scans| - 1], org) + if Counted(scans[|scans| - 1], org) then 1 else 0
  }

  predicate ScheduledFor(s: Scan, site: nat) {
    s.scheduled && s.site == site
  }

  // `MAX(created_at)` of a site's scheduled scans.
  function LastScheduled(scans: seq<Scan>, site: nat): Option<int> {
    if scans == [] then None
    else
      var before, s := LastScheduled(scans[..|scans| - 1], site), scans[|scans| - 1];
      if !ScheduledFor(s, site) then before
      else if before.Some? && before.value > s.at then before
      else Some(s.at)
  }

  // ---- one row ----

  datatype Verdict = SkippedCap | SkippedNotDue | Admitted

  function Judge(scans: seq<Scan>, row: Site, now: int): Verdict {
    if InFlight(scans, row.org) >= CAP then SkippedCap
    else
      var last := LastScheduled(scans, row.id);
      if last.Some? && last.value + Seconds(row) > now then SkippedNotDue else Admitted
  }

  function NewScan(row: Site, now: int): Scan {
    Scan(row.org, row.id, Queued, true, now)
  }

  function Examined(scans: seq<Scan>, row: Site, now: int): seq<Scan> {
    if Judge(scans, row, now) == Admitted then scans + [NewScan(row, now)] else scans
  }

  // ---- the sweep ----

  // The query: the oldest enabled sites; the table is in order of creation.
  function Enabled(sites: seq<Site>): seq<Site> {
    if sites == [] then []
    else Enabled(sites[..|sites| - 1]) + if sites[|sites| - 1].enabled then [sites[|sites| - 1]] else []
  }

  function Rows(sites: seq<Site>, limit: nat): seq<Site> {
    if |Enabled(sites)| > limit then Enabled(sites)[..limit] else Enabled(sites)
  }

  // What a sweep meets at one row: the time of its transaction, and whether the broker takes the job.
  datatype Tick = Tick(now: int, sent: bool)

  datatype Outcome = Done(enqueued: nat, skippedCap: nat, skippedNotDue: nat) | Broken

  datatype Swept = Swept(scans: seq<Scan>, outcome: Outcome)

  // The rows from some row on, with the counters so far. A job that cannot be sent ends the sweep after its
  // scan was committed.
  function Sweep(scans: seq<Scan>, rows: seq<Site>, ticks: seq<Tick>, enqueued: nat, cap: nat, notDue: nat): Swept
    requires |rows| == |ticks|
    decreases rows
  {
    if rows == [] then Swept(scans, Done(enqueued, cap, notDue))
    else
      var next := Examined(scans, rows[0], ticks[0].now);
      match Judge(scans, rows[0], ticks[0].now)
      case SkippedCap => Sweep(next, rows[1..], ticks[1..], enqueued, cap + 1, notDue)
      case SkippedNotDue => Sweep(next, rows[1..], ticks[1..], enqueued, cap, notDue + 1)
      case Admitted =>
        if ticks[0].sent then Sweep(next, rows[1..], ticks[1..], enqueued + 1, cap, notDue) else Swept(next, Broken)
  }

  class Beat {
    var scans: seq<Scan>

    method RunDueHostScans(sites: seq<Site>, limit: nat, ticks: seq<Tick>) returns (outcome: Outcome)
      requires |ticks| == |Rows(sites, limit)|
      modifies this
      ensures var s := Sweep(old(scans), Rows(sites, limit), ticks, 0, 0, 0); scans == s.scans && outcome == s.outcome
    {
      hide InFlight, LastScheduled, Rows, Seconds;
      var rows := Rows(sites, limit);
      var enqueued: nat, skippedCap: nat, skippedNotDue: nat := 0, 0, 0;
      for k := 0 to |rows|
        invariant Sweep(scans, rows[k..], ticks[k..], enqueued, skippedCap, skippedNotDue)
               == Sweep(old(scans), rows, ticks, 0, 0, 0)
      {
        var row, now := rows[k], ticks[k].now;
        assert rows[k..][0] == row && rows[k..][1..] == rows[k + 1..];
        assert ticks[k..][0] == ticks[k] && ticks[k..][1..] == ticks[k + 1..];
        if InFlight(scans, row.org) >= CAP {
          skippedCap := skippedCap + 1;
          continue;
        }
        var last := LastScheduled(scans, row.id);
        if last.Some? && last.value + Seconds(row) > now {
          skippedNotDue := skippedNotDue + 1;
          continue;
        }
        scans := scans + [NewScan(row, now)];
        if !ticks[k].sent {
          return Broken;
        }
        enqueued := enqueued + 1;
      }
      outcome := Done(enqueued, skippedCap, skippedNotDue);
    }
  }

  // ---- the tests on the table ----

  predicate Active(s: Scan, org: nat) {
    s.org == org && s.status != Finished
  }

  // Two scans of the organisation are queued or running.
  ghost predicate Full(scans: seq<Scan>, org: nat) {
    exists i, j :: 0 <= i < j < |scans| && Active(scans[i], org) && Active(scans[j], org)
  }

  // A scheduled scan of the site is less than its interval old: an hour if it says so, a day otherwise.
  ghost predicate Recent(scans: seq<Scan>, row: Site, now: int) {
    exists k :: 0 <= k < |scans| && scans[k].scheduled && scans[k].site == row.id
                && scans[k].at + (if row.interval == Some("hourly") then 3600 else 86400) > now
  }

  ghost function Ruling(scans: seq<Scan>, row: Site, now: int): Verdict {
    if Full(scans, row.org) then SkippedCap else if Recent(scans, row, now) then SkippedNotDue else Admitted
  }

  lemma {:induction false} InFlightSome(scans: seq<Scan>, org: nat)
    ensures InFlight(scans, org) > 0 <==> exists i :: 0 <= i < |scans| && Active(scans[i], org)
    ensures InFlight(scans, org) >= 2 <==> Full(scans, org)
    decreases |scans|
  {
    if scans != [] {
      var n := |scans| - 1;
      var front := scans[..n];
      InFlightSome(front, org);
      assert Counted(scans[n], org) <==> Active(scans[n], org);
      hide Counted, Active;
      assert forall i :: 0 <= i < n ==> front[i] == scans[i];
      if Full(scans, org) && !Full(front, org) {
        var i, j :| 0 <= i < j < |scans| && Active(scans[i], org) && Active(scans[j], org);
        assert j == n && Active(front[i], org);
      }
      if Active(scans[n], org) && InFlight(front, org) > 0 {
        var i :| 0 <= i < n && Active(front[i], org);
        assert Active(scans[i], org) && i < n;
      }
    }
  }

  lemma {:induction false} LastIsScan(scans: seq<Scan>, site: nat) returns (k: nat)
    requires LastScheduled(scans, site).Some?
    ensures k < |scans| && ScheduledFor(scans[k], site) && scans[k].at == LastScheduled(scans, site).value
    decreases |scans|
  {
    var n := |scans| - 1;
    var before := LastScheduled(scans[..n], site);
    if !ScheduledFor(scans[n], site) || (before.Some? && before.value > scans[n].at) {
      k := LastIsScan(scans[..n], site);
    } else {
      k := n;
    }
  }

  lemma RecentIff(scans: seq<Scan>, row: Site, now: int)
    ensures var last := LastScheduled(scans, row.id);
      last.Some? && last.value + Seconds(row) > now <==> Recent(scans, row, now)
  {
    var last := LastScheduled(scans, row.id);
    if last.Some? {
      var k := LastIsScan(scans, row.id);
    }
    if k :| 0 <= k < |scans| && scans[k].scheduled && scans[k].site == row.id
            && scans[k].at + (if row.interval == Some("hourly") then 3600 else 86400) > now {
      LastIsLatest(scans, row.id, k);
    }
    hide LastScheduled;
  }

  /** What examining a row does, from the table alone. It adds the site's scan if and only if fewer than two scans of
      the organisation are queued or running, and each scheduled scan of the site is at least the interval old;
      otherwise the row counts as skipped for the first reason or for the second. */
  lemma ExaminedIff(scans: seq<Scan>, row: Site, now: int)
    ensures Judge(scans, row, now) == Ruling(scans, row, now)
    ensures Examined(scans, row, now)
         == if Full(scans, row.org) || Recent(scans, row, now) then scans
            else scans + [Scan(row.org, row.id, Queued, true, now)]
  {
    InFlightSome(scans, row.org);
    RecentIff(scans, row, now);
    hide InFlight, LastScheduled, Seconds, Full, Recent;
  }

  // The table before the sweep gets to its k-th row.
  ghost function TableAt(scans: seq<Scan>, rows: seq<Site>, ticks: seq<Tick>, k: nat): seq<Scan>
    requires |rows| == |ticks| && k <= |rows|
  {
    if k == 0 then scans
    else
      var t := TableAt(scans, rows, ticks, k - 1);
      var row, now := rows[k - 1], ticks[k - 1].now;
      if Ruling(t, row, now) == Admitted then t + [Scan(row.org, row.id, Queued, true, now)] else t
  }

  // How many of the first k rows are ruled that way.
  ghost function RuledCount(scans: seq<Scan>, rows: seq<Site>, ticks: seq<Tick>, k: nat, v: Verdict): nat
    requires |rows| == |ticks| && k <= |rows|
  {
    if k == 0 then 0
    else RuledCount(scans, rows, ticks, k - 1, v)
         + if Ruling(TableAt(scans, rows, ticks, k - 1), rows[k - 1], ticks[k - 1].now) == v then 1 else 0
  }

  // The job of the k-th row's scan is not taken.
  ghost predicate BreaksAt(scans: seq<Scan>, rows: seq<Site>, ticks: seq<Tick>, k: nat)
    requires |rows| == |ticks| && k < |rows|
  {
    Ruling(TableAt(scans, rows, ticks, k), rows[k], ticks[k].now) == Admitted && !ticks[k].sent
  }

  lemma {:induction false} TableShift(scans: seq<Scan>, rows: seq<Site>, ticks: seq<Tick>, k: nat)
    requires |rows| == |ticks| && rows != [] && k < |rows|
    ensures TableAt(scans, rows, ticks, k + 1)
         == TableAt(Examined(scans, rows[0], ticks[0].now), rows[1..], ticks[1..], k)
    decreases k
  {
    ExaminedIff(scans, rows[0], ticks[0].now);
    assert TableAt(scans, rows, ticks, 0) == scans;
    hide Ruling, Full, Recent, Examined, Judge;
    if k > 0 {
      TableShift(scans, rows, ticks, k - 1);
    } else {
      RulingAdmits(scans, rows[0], ticks[0].now);
    }
  }

  lemma RulingAdmits(scans: seq<Scan>, row: Site, now: int)
    ensures Ruling(scans, row, now) == Admitted <==> !Full(scans, row.org) && !Recent(scans, row, now)
  {
  }

  lemma {:induction false} CountShift(scans: seq<Scan>, rows: seq<Site>, ticks: seq<Tick>, k: nat, v: Verdict)
    requires |rows| == |ticks| && rows != [] && k < |rows|
    ensures RuledCount(scans, rows, ticks, k + 1, v)
         == (if Ruling(scans, rows[0], ticks[0].now) == v then 1 else 0)
            + RuledCount(Examined(scans, rows[0], ticks[0].now), rows[1..], ticks[1..], k, v)
    decreases k
  {
    hide *;
    var next, rest, later := Examined(scans, rows[0], ticks[0].now), rows[1..], ticks[1..];
    CountStep(scans, rows, ticks, k, v);
    NoTableYet(scans, rows, ticks);
    NoTableYet(next, rest, later);
    if k > 0 {
      CountShift(scans, rows, ticks, k - 1, v);
      TableShift(scans, rows, ticks, k - 1);
      CountStep(next, rest, later, k - 1, v);
    }
  }

  lemma CountStep(scans: seq<Scan>, rows: seq<Site>, ticks: seq<Tick>, k: nat, v: Verdict)
    requires |rows| == |ticks| && k < |rows|
    ensures RuledCount(scans, rows, ticks, k + 1, v)
         == RuledCount(scans, rows, ticks, k, v)
            + if Ruling(TableAt(scans, rows, ticks, k), rows[k], ticks[k].now) == v then 1 else 0
  {
    hide Ruling, TableAt;
  }

  lemma BreaksShift(scans: seq<Scan>, rows: seq<Site>, ticks: seq<Tick>, k: nat)
    requires |rows| == |ticks| && k + 1 < |rows|
    ensures BreaksAt(scans, rows, ticks, k + 1)
      <==> BreaksAt(Examined(scans, rows[0], ticks[0].now), rows[1..], ticks[1..], k)
  {
    TableShift(scans, rows, ticks, k);
    hide Ruling, Examined, TableAt;
  }

  // One row of a sweep.
  lemma SweepFirst(scans: seq<Scan>, rows: seq<Site>, ticks: seq<Tick>, enqueued: nat, cap: nat, notDue: nat)
    requires |rows| == |ticks| && rows != []
    ensures var v, next := Ruling(scans, rows[0], ticks[0].now), Examined(scans, rows[0], ticks[0].now);
      Sweep(scans, rows, ticks, enqueued, cap, notDue)
      == if v == Admitted && !ticks[0].sent then Swept(next, Broken)
         else Sweep(next, rows[1..], ticks[1..], if v == Admitted then enqueued + 1 else enqueued,
                    if v == SkippedCap then cap + 1 else cap, if v == SkippedNotDue then notDue + 1 else notDue)
  {
    ExaminedIff(scans, rows[0], ticks[0].now);
    hide Judge, Ruling, Examined;
  }

  /** What a sweep does, row by row, from the tables alone. If every job is taken it ends with the last table and with the
      number of rows ruled each way. */
  lemma {:induction false} SweepCompletes(scans: seq<Scan>, rows: seq<Site>, ticks: seq<Tick>,
                                          enqueued: nat, cap: nat, notDue: nat)
    requires |rows| == |ticks| && forall k :: 0 <= k < |rows| ==> !BreaksAt(scans, rows, ticks, k)
    ensures Sweep(scans, rows, ticks, enqueued, cap, notDue)
         == Swept(TableAt(scans, rows, ticks, |rows|),
                  Done(enqueued + RuledCount(scans, rows, ticks, |rows|, Admitted),
                       cap + RuledCount(scans, rows, ticks, |rows|, SkippedCap),
                       notDue + RuledCount(scans, rows, ticks, |rows|, SkippedNotDue)))
    decreases rows
  {
    hide *;
    if rows == [] {
      NoTableYet(scans, rows, ticks);
      SweepOver(scans, enqueued, cap, notDue);
    } else {
      var n, v := |rows| - 1, Ruling(scans, rows[0], ticks[0].now);
      var next, rest, later := Examined(scans, rows[0], ticks[0].now), rows[1..], ticks[1..];
      SweepFirst(scans, rows, ticks, enqueued, cap, notDue);
      BreaksFirst(scans, rows, ticks);
      assert !BreaksAt(scans, rows, ticks, 0);
      forall k | 0 <= k < |rest| ensures !BreaksAt(next, rest, later, k) {
        BreaksShift(scans, rows, ticks, k);
        assert !BreaksAt(scans, rows, ticks, k + 1);
      }
      SweepCompletes(next, rest, later, if v == Admitted then enqueued + 1 else enqueued,
                     if v == SkippedCap then cap + 1 else cap, if v == SkippedNotDue then notDue + 1 else notDue);
      TableShift(scans, rows, ticks, n);
      CountShift(scans, rows, ticks, n, Admitted);
      CountShift(scans, rows, ticks, n, SkippedCap);
      CountShift(scans, rows, ticks, n, SkippedNotDue);
    }
  }

  lemma SweepOver(scans: seq<Scan>, enqueued: nat, cap: nat, notDue: nat)
    ensures Sweep(scans, [], [], enqueued, cap, notDue) == Swept(scans, Done(enqueued, cap, notDue))
  {
  }

  /** At the first job that is not taken the sweep ends, with the table as that row left it. */
  lemma {:induction false} SweepBreaks(scans: seq<Scan>, rows: seq<Site>, ticks: seq<Tick>,
                                       enqueued: nat, cap: nat, notDue: nat, k: nat)
    requires |rows| == |ticks| && k < |rows| && BreaksAt(scans, rows, ticks, k)
    requires forall j :: 0 <= j < k ==> !BreaksAt(scans, rows, ticks, j)
    ensures Sweep(scans, rows, ticks, enqueued, cap, notDue) == Swept(TableAt(scans, rows, ticks, k + 1), Broken)
    decreases rows
  {
    hide *;
    var v := Ruling(scans, rows[0], ticks[0].now);
    var next, rest, later := Examined(scans, rows[0], ticks[0].now), rows[1..], ticks[1..];
    SweepFirst(scans, rows, ticks, enqueued, cap, notDue);
    BreaksFirst(scans, rows, ticks);
    TableShift(scans, rows, ticks, k);
    if k == 0 {
      NoTableYet(next, rest, later);
    } else {
      assert !BreaksAt(scans, rows, ticks, 0);
      BreaksShift(scans, rows, ticks, k - 1);
      forall j | 0 <= j < k - 1 ensures !BreaksAt(next, rest, later, j) {
        BreaksShift(scans, rows, ticks, j);
        assert !BreaksAt(scans, rows, ticks, j + 1);
      }
      SweepBreaks(next, rest, later, if v == Admitted then enqueued + 1 else enqueued,
                  if v == SkippedCap then cap + 1 else cap, if v == SkippedNotDue then notDue + 1 else notDue, k - 1);
    }
  }

  lemma NoTableYet(scans: seq<Scan>, rows: seq<Site>, ticks: seq<Tick>)
    requires |rows| == |ticks|
    ensures TableAt(scans, rows, ticks, 0) == scans
    ensures forall v :: RuledCount(scans, rows, ticks, 0, v) == 0
  {
  }

  lemma BreaksFirst(scans: seq<Scan>, rows: seq<Site>, ticks: seq<Tick>)
    requires |rows| == |ticks| && rows != []
    ensures BreaksAt(scans, rows, ticks, 0) <==> Ruling(scans, rows[0], ticks[0].now) == Admitted && !ticks[0].sent
  {
    assert TableAt(scans, rows, ticks, 0) == scans;
    hide Ruling;
  }

  lemma ExaminedGrows(scans: seq<Scan>, row: Site, now: int)
    ensures var next := Examined(scans, row, now);
      if Ruling(scans, row, now) == Admitted then next == scans + [Scan(row.org, row.id, Queued, true, now)] else next == scans
  {
    ExaminedIff(scans, row, now);
    hide Judge, Examined, Full, Recent;
  }

  /** A sweep that ends well counts every row once, and adds one scan for each row it enqueued; a sweep that
      breaks off has added one scan whose task was never sent. */
  lemma {:induction false} EveryRowIsCounted(scans: seq<Scan>, rows: seq<Site>, ticks: seq<Tick>,
                                             enqueued: nat, cap: nat, notDue: nat)
    requires |rows| == |ticks|
    ensures var s := Sweep(scans, rows, ticks, enqueued, cap, notDue);
      && scans <= s.scans
      && (s.outcome.Done? ==>
            && s.outcome.enqueued + s.outcome.skippedCap + s.outcome.skippedNotDue == enqueued + cap + notDue + |rows|
            && |s.scans| == |scans| + s.outcome.enqueued - enqueued)
      && (s.outcome.Broken? ==> |s.scans| > |scans| && s.scans[|s.scans| - 1].status == Queued)
    decreases rows
  {
    hide *;
    if rows == [] {
      SweepOver(scans, enqueued, cap, notDue);
    } else {
      var v, next := Ruling(scans, rows[0], ticks[0].now), Examined(scans, rows[0], ticks[0].now);
      SweepFirst(scans, rows, ticks, enqueued, cap, notDue);
      ExaminedGrows(scans, rows[0], ticks[0].now);
      if v != Admitted || ticks[0].sent {
        EveryRowIsCounted(next, rows[1..], ticks[1..], if v == Admitted then enqueued + 1 else enqueued,
                          if v == SkippedCap then cap + 1 else cap, if v == SkippedNotDue then notDue + 1 else notDue);
      }
    }
  }

  // ---- runs ----

  // A sweep examining a row, a scan in flight moving on, and a scan someone asks for by hand.
  datatype Action =
    | Examine(row: Site, now: int)
    | Move(k: nat, status: ScanStatus)
    | ByHand(org: nat, site: nat, now: int)

  function Step(scans: seq<Scan>, a: Action): seq<Scan> {
    match a
    case Examine(row, now) => Examined(scans, row, now)
    case Move(k, status) =>
      if k < |scans| && scans[k].status != Finished then scans[k := scans[k].(status := status)] else scans
    case ByHand(org, site, now) => scans + [Scan(org, site, Queued, false, now)]
  }

  function Run(scans: seq<Scan>, actions: seq<Action>): seq<Scan>
    decreases |actions|
  {
    if actions == [] then scans else Step(Run(scans, actions[..|actions| - 1]), actions[|actions| - 1])
  }

  // The rows a sweep got to.
  function Visits(scans: seq<Scan>, rows: seq<Site>, ticks: seq<Tick>): seq<Action>
    requires |rows| == |ticks|
    decreases rows
  {
    if rows == [] then []
    else
      var visit := Examine(rows[0], ticks[0].now);
      if Judge(scans, rows[0], ticks[0].now) == Admitted && !ticks[0].sent then [visit]
      else [visit] + Visits(Examined(scans, rows[0], ticks[0].now), rows[1..], ticks[1..])
  }

  lemma {:induction false} RunFirst(scans: seq<Scan>, a: Action, rest: seq<Action>)
    ensures Run(scans, [a] + rest) == Run(Step(scans, a), rest)
    decreases |rest|
  {
    var all := [a] + rest;
    hide Step;
    if rest == [] {
      assert all[..0] == [];
    } else {
      var n := |rest| - 1;
      RunFirst(scans, a, rest[..n]);
      assert all[..|all| - 1] == [a] + rest[..n];
    }
  }

  /** A sweep is a run that examines its rows in order, so what holds over every run, with anything in between
      the rows, holds of it. */
  lemma {:induction false} SweepIsARun(scans: seq<Scan>, rows: seq<Site>, ticks: seq<Tick>,
                                       enqueued: nat, cap: nat, notDue: nat)
    requires |rows| == |ticks|
    ensures Sweep(scans, rows, ticks, enqueued, cap, notDue).scans == Run(scans, Visits(scans, rows, ticks))
    decreases rows
  {
    if rows != [] {
      var visit := Examine(rows[0], ticks[0].now);
      var verdict := Judge(scans, rows[0], ticks[0].now);
      var next := Examined(scans, rows[0], ticks[0].now);
      assert Step(scans, visit) == next;
      RunFirst(scans, visit, []);
      assert [visit] + [] == [visit];
      RunFirst(scans, visit, Visits(next, rows[1..], ticks[1..]));
      assert Run(next, []) == next;
      hide Judge, Examined, Step, Run;
      match verdict {
        case SkippedCap => SweepIsARun(next, rows[1..], ticks[1..], enqueued, cap + 1, notDue);
        case SkippedNotDue => SweepIsARun(next, rows[1..], ticks[1..], enqueued, cap, notDue + 1);
        case Admitted => SweepIsARun(next, rows[1..], ticks[1..], enqueued + 1, cap, notDue);
      }
    }
  }

  lemma RunLast(scans: seq<Scan>, actions: seq<Action>)
    requires actions != []
    ensures Run(scans, actions) == Step(Run(scans, actions[..|actions| - 1]), actions[|actions| - 1])
  {
  }

  // ---- the cap ----

  lemma InFlightAppend(scans: seq<Scan>, s: Scan, org: nat)
    ensures InFlight(scans + [s], org) == InFlight(scans, org) + if Counted(s, org) then 1 else 0
  {
    assert (scans + [s])[..|scans|] == scans;
  }

  lemma {:induction false} InFlightUpdate(scans: seq<Scan>, k: nat, s: Scan, org: nat)
    requires k < |scans|
    ensures InFlight(scans[k := s], org)
         == InFlight(scans, org) - (if Counted(scans[k], org) then 1 else 0) + if Counted(s, org) then 1 else 0
    decreases |scans|
  {
    var n := |scans| - 1;
    hide Counted;
    if k == n {
      assert scans[k := s][..n] == scans[..n];
    } else {
      assert scans[k := s][..n] == scans[..n][k := s];
      InFlightUpdate(scans[..n], k, s, org);
    }
  }

  function ByHandCount(actions: seq<Action>, org: nat): nat
    decreases |actions|
  {
    if actions == [] then 0
    else
      var a := actions[|actions| - 1];
      ByHandCount(actions[..|actions| - 1], org) + if a.ByHand? && a.org == org then 1 else 0
  }

  lemma StepInFlight(scans: seq<Scan>, a: Action, org: nat)
    ensures var before, after := InFlight(scans, org), InFlight(Step(scans, a), org);
      && (a.Examine? ==> after <= before || (after == before + 1 <= CAP && a.row.org == org))
      && (a.Move? ==> after <= before)
      && (a.ByHand? ==> after == before + if a.org == org then 1 else 0)
  {
    match a
    case Examine(row, now) =>
      InFlightAppend(scans, NewScan(row, now), org);
      hide InFlight, LastScheduled;
    case Move(k, status) =>
      if k < |scans| {
        InFlightUpdate(scans, k, scans[k].(status := status), org);
      }
      hide InFlight;
    case ByHand(o, site, now) =>
      InFlightAppend(scans, Scan(o, site, Queued, false, now), org);
      hide InFlight;
  }

  /** Over every run, an organisation has in flight at most the cap, or what it started with, and what was asked
      for by hand: sweeps never raise it above the cap. */
  lemma {:induction false} CapIsKept(scans: seq<Scan>, actions: seq<Action>, org: nat)
    ensures var start := InFlight(scans, org);
      InFlight(Run(scans, actions), org) <= (if start > CAP then start else CAP) + ByHandCount(actions, org)
    decreases |actions|
  {
    if actions != [] {
      var n := |actions| - 1;
      CapIsKept(scans, actions[..n], org);
      RunLast(scans, actions);
      hide Run, Step, InFlight;
      StepInFlight(Run(scans, actions[..n]), actions[n], org);
    }
  }

  // ---- spacing ----

  ghost predicate Apart(a: Scan, b: Scan, gap: nat -> int) {
    a.scheduled && b.scheduled && a.site == b.site ==> b.at - a.at >= gap(a.site)
  }

  // Scheduled scans of a site are at least `gap` of it apart, later rows after earlier ones.
  ghost predicate Spaced(scans: seq<Scan>, gap: nat -> int) {
    forall i, j :: 0 <= i < j < |scans| ==> Apart(scans[i], scans[j], gap)
  }

  // Every row examined has an interval of at least the site's gap.
  ghost predicate AtLeast(actions: seq<Action>, gap: nat -> int) {
    forall k :: 0 <= k < |actions| && actions[k].Examine? ==> Seconds(actions[k].row) >= gap(actions[k].row.id)
  }

  lemma {:induction false} LastIsLatest(scans: seq<Scan>, site: nat, k: nat)
    requires k < |scans| && ScheduledFor(scans[k], site)
    ensures LastScheduled(scans, site).Some? && LastScheduled(scans, site).value >= scans[k].at
    decreases |scans|
  {
    var n := |scans| - 1;
    if k < n {
      LastIsLatest(scans[..n], site, k);
      assert scans[..n][k] == scans[k];
    }
  }

  lemma ExamineKeepsSpace(scans: seq<Scan>, row: Site, now: int, gap: nat -> int)
    requires Spaced(scans, gap) && Seconds(row) >= gap(row.id)
    ensures Spaced(Examined(scans, row, now), gap)
  {
    if Judge(scans, row, now) == Admitted {
      var s := NewScan(row, now);
      forall k | 0 <= k < |scans| ensures Apart(scans[k], s, gap) {
        if ScheduledFor(scans[k], row.id) {
          LastIsLatest(scans, row.id, k);
        }
      }
      hide Apart, InFlight, LastScheduled, Seconds;
    }
  }

  lemma StepKeepsSpace(scans: seq<Scan>, a: Action, gap: nat -> int)
    requires Spaced(scans, gap) && (a.Examine? ==> Seconds(a.row) >= gap(a.row.id))
    ensures Spaced(Step(scans, a), gap)
  {
    hide Seconds;
    match a
    case Examine(row, now) => ExamineKeepsSpace(scans, row, now, gap);
    case Move(k, status) =>
    case ByHand(org, site, now) =>
  }

  /** Over every run, whatever the clock does, two scheduled scans of a site are at least its interval apart. */
  lemma {:induction false} ScansAreSpaced(scans: seq<Scan>, actions: seq<Action>, gap: nat -> int)
    requires Spaced(scans, gap) && AtLeast(actions, gap)
    ensures Spaced(Run(scans, actions), gap)
    decreases |actions|
  {
    if actions != [] {
      var n := |actions| - 1;
      assert AtLeast(actions[..n], gap) by {
        assert forall k :: 0 <= k < n ==> actions[..n][k] == actions[k];
      }
      ScansAreSpaced(scans, actions[..n], gap);
      RunLast(scans, actions);
      hide Run, Step, Spaced, Seconds;
      StepKeepsSpace(Run(scans, actions[..n]), actions[n], gap);
    }
  }

  // ---- a sweep leaves nothing due ----

  // The row cannot be admitted at `now`, and so at no earlier time.
  ghost predicate Held(scans: seq<Scan>, row: Site, now: int) {
    Full(scans, row.org) || Recent(scans, row, now)
  }

  lemma AppendKeepsHeld(scans: seq<Scan>, s: Scan, row: Site, now: int)
    requires Held(scans, row, now)
    ensures Held(scans + [s], row, now)
  {
    var after := scans + [s];
    assert forall k :: 0 <= k < |scans| ==> after[k] == scans[k];
    hide Active;
    if Full(scans, row.org) {
      var i, j :| 0 <= i < j < |scans| && Active(scans[i], row.org) && Active(scans[j], row.org);
      assert Active(after[i], row.org) && Active(after[j], row.org);
    } else {
      var k :| 0 <= k < |scans| && scans[k].scheduled && scans[k].site == row.id
               && scans[k].at + (if row.interval == Some("hourly") then 3600 else 86400) > now;
      assert after[k].scheduled;
    }
  }

  lemma ExaminedIsHeld(scans: seq<Scan>, row: Site, now: int)
    ensures Held(Examined(scans, row, now), row, now)
  {
    ExaminedIff(scans, row, now);
    hide Judge, Examined, Full;
    var after := scans + [Scan(row.org, row.id, Queued, true, now)];
    assert after[|scans|].scheduled;
  }

  lemma HeldStays(scans: seq<Scan>, row: Site, now: int, other: Site, t: int)
    requires Held(scans, row, now)
    ensures Held(Examined(scans, other, t), row, now)
  {
    ExaminedIff(scans, other, t);
    AppendKeepsHeld(scans, Scan(other.org, other.id, Queued, true, t), row, now);
    hide Judge, Examined, Full, Recent;
  }

  lemma {:induction false} SweepKeepsHeld(scans: seq<Scan>, rows: seq<Site>, ticks: seq<Tick>,
                                          enqueued: nat, cap: nat, notDue: nat, row: Site, now: int)
    requires |rows| == |ticks| && Held(scans, row, now)
    ensures Held(Sweep(scans, rows, ticks, enqueued, cap, notDue).scans, row, now)
    decreases rows
  {
    if rows != [] {
      var verdict := Judge(scans, rows[0], ticks[0].now);
      var next := Examined(scans, rows[0], ticks[0].now);
      HeldStays(scans, row, now, rows[0], ticks[0].now);
      hide Judge, Examined, Held;
      match verdict {
        case SkippedCap => SweepKeepsHeld(next, rows[1..], ticks[1..], enqueued, cap + 1, notDue, row, now);
        case SkippedNotDue => SweepKeepsHeld(next, rows[1..], ticks[1..], enqueued, cap, notDue + 1, row, now);
        case Admitted => SweepKeepsHeld(next, rows[1..], ticks[1..], enqueued + 1, cap, notDue, row, now);
      }
    }
  }

  /** After a sweep that ends well no row is admissible at the time it was examined: each is at its cap or not
      due yet. */
  lemma {:induction false} NothingLeftDue(scans: seq<Scan>, rows: seq<Site>, ticks: seq<Tick>,
                                          enqueued: nat, cap: nat, notDue: nat, k: nat)
    requires |rows| == |ticks| && k < |rows|
    requires Sweep(scans, rows, ticks, enqueued, cap, notDue).outcome.Done?
    ensures Held(Sweep(scans, rows, ticks, enqueued, cap, notDue).scans, rows[k], ticks[k].now)
    decreases rows
  {
    var verdict := Judge(scans, rows[0], ticks[0].now);
    var next := Examined(scans, rows[0], ticks[0].now);
    ExaminedIsHeld(scans, rows[0], ticks[0].now);
    hide Judge, Examined, Held;
    var e, c, d := if verdict == Admitted then enqueued + 1 else enqueued,
                   if verdict == SkippedCap then cap + 1 else cap,
                   if verdict == SkippedNotDue then notDue + 1 else notDue;
    if k == 0 {
      SweepKeepsHeld(next, rows[1..], ticks[1..], e, c, d, rows[0], ticks[0].now);
    } else {
      NothingLeftDue(next, rows[1..], ticks[1..], e, c, d, k - 1);
    }
  }

  lemma {:induction false} HeldSweep(scans: seq<Scan>, rows: seq<Site>, ticks: seq<Tick>,
                                     enqueued: nat, cap: nat, notDue: nat)
    requires |rows| == |ticks|
    requires forall k :: 0 <= k < |rows| ==> Held(scans, rows[k], ticks[k].now)
    ensures Sweep(scans, rows, ticks, enqueued, cap, notDue).scans == scans
    ensures Sweep(scans, rows, ticks, enqueued, cap, notDue).outcome.Done?
    decreases rows
  {
    if rows != [] {
      assert Held(scans, rows[0], ticks[0].now);
      var verdict := Judge(scans, rows[0], ticks[0].now);
      ExaminedIff(scans, rows[0], ticks[0].now);
      hide Judge, Examined, Full, Recent;
      assert verdict != Admitted && Examined(scans, rows[0], ticks[0].now) == scans;
      hide Held, Examined;
      var rest, later := rows[1..], ticks[1..];
      assert forall k :: 0 <= k < |rest| ==> rest[k] == rows[k + 1] && later[k] == ticks[k + 1];
      HeldSweep(scans, rest, later, enqueued, if verdict == SkippedCap then cap + 1 else cap,
                if verdict == SkippedNotDue then notDue + 1 else notDue);
    }
  }

  /** A sweep delivered again at the same times admits nothing. */
  lemma RepeatAdmitsNothing(scans: seq<Scan>, rows: seq<Site>, ticks: seq<Tick>)
    requires |rows| == |ticks| && Sweep(scans, rows, ticks, 0, 0, 0).outcome.Done?
    ensures var after := Sweep(scans, rows, ticks, 0, 0, 0).scans;
      Sweep(after, rows, ticks, 0, 0, 0).scans == after
  {
    var after := Sweep(scans, rows, ticks, 0, 0, 0).scans;
    forall k | 0 <= k < |rows| ensures Held(after, rows[k], ticks[k].now) {
      NothingLeftDue(scans, rows, ticks, 0, 0, 0, k);
    }
    hide Sweep, Held;
    HeldSweep(after, rows, ticks, 0, 0, 0);
  }

  // ---- the limit ----

  function EnabledBefore(sites: seq<Site>, k: nat): nat
    requires k <= |sites|
  {
    |Enabled(sites[..k])|
  }

  lemma {:induction false} EnabledPlace(sites: seq<Site>, k: nat)
    requires k < |sites| && sites[k].enabled
    ensures EnabledBefore(sites, k) < |Enabled(sites)| && Enabled(sites)[EnabledBefore(sites, k)] == sites[k]
    decreases |sites|
  {
    var n := |sites| - 1;
    if k < n {
      EnabledPlace(sites[..n], k);
      assert sites[..n][..k] == sites[..k];
    }
  }

  lemma {:induction false} EnabledFrom(sites: seq<Site>, p: nat) returns (k: nat)
    requires p < |Enabled(sites)|
    ensures k < |sites| && sites[k].enabled && Enabled(sites)[p] == sites[k] && EnabledBefore(sites, k) == p
    decreases |sites|
  {
    var n := |sites| - 1;
    if p < |Enabled(sites[..n])| {
      k := EnabledFrom(sites[..n], p);
      assert sites[..n][..k] == sites[..k];
    } else {
      k := n;
    }
  }

  ghost predicate IdsDiffer(sites: seq<Site>) {
    forall i, j :: 0 <= i < j < |sites| ==> sites[i].id != sites[j].id
  }

  ghost predicate AmongRows(sites: seq<Site>, limit: nat, id: nat) {
    exists p :: 0 <= p < |Rows(sites, limit)| && Rows(sites, limit)[p].id == id
  }

  /** The limit is a place in the queue, not a turn: an enabled site is examined exactly when fewer than `limit`
      enabled sites are older. */
  lemma OnlyTheOldest(sites: seq<Site>, limit: nat, k: nat)
    requires k < |sites| && sites[k].enabled && IdsDiffer(sites)
    ensures AmongRows(sites, limit, sites[k].id) <==> EnabledBefore(sites, k) < limit
  {
    EnabledPlace(sites, k);
    var place := EnabledBefore(sites, k);
    hide Enabled, EnabledBefore;
    if place < limit {
      assert Rows(sites, limit)[place] == sites[k];
    }
    if p :| 0 <= p < |Rows(sites, limit)| && Rows(sites, limit)[p].id == sites[k].id {
      var i := EnabledFrom(sites, p);
      assert i == k;
    }
  }

  /** So a site behind `limit` older enabled ones is never scanned on schedule, however many sweeps there are. */
  lemma {:induction false} LaterSitesStarve(scans: seq<Scan>, actions: seq<Action>, sites: seq<Site>, limit: nat,
                              k: nat)
    requires k < |sites| && sites[k].enabled && IdsDiffer(sites) && EnabledBefore(sites, k) >= limit
    requires forall i :: 0 <= i < |actions| && actions[i].Examine? ==> AmongRows(sites, limit, actions[i].row.id)
    ensures LastScheduled(Run(scans, actions), sites[k].id) == LastScheduled(scans, sites[k].id)
    decreases |actions|
  {
    if actions != [] {
      var n := |actions| - 1;
      hide EnabledBefore, AmongRows;
      assert forall i :: 0 <= i < n ==> actions[..n][i] == actions[i];
      LaterSitesStarve(scans, actions[..n], sites, limit, k);
      OnlyTheOldest(sites, limit, k);
      RunLast(scans, actions);
      hide Run, Step, LastScheduled, IdsDiffer;
      OtherSiteUntouched(Run(scans, actions[..n]), actions[n], sites[k].id);
    }
  }

  lemma OtherSiteUntouched(scans: seq<Scan>, a: Action, site: nat)
    requires a.Examine? ==> a.row.id != site
    ensures LastScheduled(Step(scans, a), site) == LastScheduled(scans, site)
  {
    match a
    case Examine(row, now) =>
      assert (scans + [NewScan(row, now)])[..|scans|] == scans;
      hide InFlight, Seconds;
    case Move(k, status) =>
      if k < |scans| {
        LastAfterMove(scans, k, status, site);
      }
    case ByHand(org, s, now) =>
      assert (scans + [Scan(org, s, Queued, false, now)])[..|scans|] == scans;
  }

  lemma {:induction false} LastAfterMove(scans: seq<Scan>, k: nat, status: ScanStatus, site: nat)
    requires k < |scans|
    ensures LastScheduled(scans[k := scans[k].(status := status)], site) == LastScheduled(scans, site)
    decreases |scans|
  {
    var n := |scans| - 1;
    var after := scans[k := scans[k].(status := status)];
    if k == n {
      assert after[..n] == scans[..n];
    } else {
      LastAfterMove(scans[..n], k, status, site);
      assert after[..n] == scans[..n][k := scans[..n][k].(status := status)];
    }
  }
}
