/** The subscription sweep of `workers/tasks/billing.py`: three UPDATE statements, run every hour.
    Times are seconds; a day is 86400 of them. */
module Lifecycle {
  import opened Common

  datatype Status = Incomplete | Active | PastDue | Canceled

  datatype Subscription = Subscription(
    org: nat, status: Status, cancelAtPeriodEnd: bool, periodEnd: Option<int>,
    canceledAt: Option<int>, endedAt: Option<int>, updatedAt: int)

  datatype InvoiceStatus = Draft | Sent | Paid | Void

  datatype Invoice = Invoice(
    org: nat, scan: bool, status: InvoiceStatus, periodStart: int, createdAt: int, dueDate: Option<int>)

  datatype Config = Config(graceDays: int, cancelDays: int)

  const DAY: int := 86400

  // ---- `latest`: the newest non-void scan invoice of an organisation ----

  predicate Counts(i: Invoice, org: nat) {
    i.org == org && i.scan && i.status != Void
  }

  predicate Newer(a: Invoice, b: Invoice) {
    a.periodStart > b.periodStart || (a.periodStart == b.periodStart && a.createdAt > b.createdAt)
  }

  function Latest(invoices: seq<Invoice>, org: nat): (r: Option<Invoice>)
    ensures r.None? <==> forall i :: i in invoices ==> !Counts(i, org)
    ensures r.Some? ==> r.value in invoices && Counts(r.value, org)
    ensures r.Some? ==> forall i :: i in invoices && Counts(i, org) ==> !Newer(i, r.value)
  {
    if invoices == [] then None
    else
      var first, rest := invoices[0], Latest(invoices[1..], org);
      assert invoices == [first] + invoices[1..];
      if Counts(first, org) && (rest.None? || !Newer(rest.value, first)) then Some(first) else rest
  }

  // The latest invoice has been sent and is `days` past due.
  predicate Overdue(latest: Option<Invoice>, days: int, now: int) {
    && latest.Some? && latest.value.status == Sent && latest.value.dueDate.Some?
    && latest.value.dueDate.value + days * DAY <= now
  }

  // ---- the three statements, on one row ----

  function End(s: Subscription, now: int): Subscription {
    s.(status := Canceled, cancelAtPeriodEnd := false, canceledAt := Some(now), endedAt := Some(now), updatedAt := now)
  }

  predicate ToClose(s: Subscription, now: int) {
    s.cancelAtPeriodEnd && s.periodEnd.Some? && s.periodEnd.value <= now
  }

  predicate ToMark(s: Subscription, latest: Option<Invoice>, c: Config, now: int) {
    s.status == Active && Overdue(latest, c.graceDays, now)
  }

  predicate ToTerminate(s: Subscription, latest: Option<Invoice>, c: Config, now: int) {
    s.status == PastDue && Overdue(latest, c.cancelDays, now)
  }

  function CloseCanceled(s: Subscription, now: int): Subscription {
    if ToClose(s, now) then End(s, now) else s
  }

  function MarkPastDue(s: Subscription, latest: Option<Invoice>, c: Config, now: int): Subscription {
    if ToMark(s, latest, c, now) then s.(status := PastDue, updatedAt := now) else s
  }

  function TerminatePastDue(s: Subscription, latest: Option<Invoice>, c: Config, now: int): Subscription {
    if ToTerminate(s, latest, c, now) then End(s, now) else s
  }

  function Sweep(s: Subscription, latest: Option<Invoice>, c: Config, now: int): Subscription {
    TerminatePastDue(MarkPastDue(CloseCanceled(s, now), latest, c, now), latest, c, now)
  }

  // ---- the sweep over the tables ----

  function SweepAll(subs: seq<Subscription>, invoices: seq<Invoice>, c: Config, now: int): (r: seq<Subscription>)
    ensures |r| == |subs|
    ensures forall i :: 0 <= i < |subs| ==> r[i] == Sweep(subs[i], Latest(invoices, subs[i].org), c, now)
  {
    if subs == [] then []
    else [Sweep(subs[0], Latest(invoices, subs[0].org), c, now)] + SweepAll(subs[1..], invoices, c, now)
  }

  // The table after the first statement, and after the first two.
  function Closed(subs: seq<Subscription>, now: int): (r: seq<Subscription>)
    ensures |r| == |subs|
  {
    seq(|subs|, i requires 0 <= i < |subs| => CloseCanceled(subs[i], now))
  }

  function Marked(subs: seq<Subscription>, invoices: seq<Invoice>, c: Config, now: int): (r: seq<Subscription>)
    ensures |r| == |subs|
  {
    seq(|subs|, i requires 0 <= i < |subs| => MarkPastDue(subs[i], Latest(invoices, subs[i].org), c, now))
  }

  // How many rows a WHERE clause selects.
  function Matched(subs: seq<Subscription>, p: Subscription -> bool): nat {
    if subs == [] then 0
    else Matched(subs[..|subs| - 1], p) + if p(subs[|subs| - 1]) then 1 else 0
  }

  class Billing {
    var subs: seq<Subscription>
    const invoices: seq<Invoice>
    const config: Config

    constructor (subs: seq<Subscription>, invoices: seq<Invoice>, config: Config)
      ensures this.subs == subs && this.invoices == invoices && this.config == config
    {
      this.subs, this.invoices, this.config := subs, invoices, config;
    }

    method Close(now: int) returns (count: nat)
      modifies this
      ensures |subs| == |old(subs)|
      ensures forall i :: 0 <= i < |subs| ==> subs[i] == CloseCanceled(old(subs)[i], now)
      ensures count == Matched(old(subs), (s: Subscription) => ToClose(s, now))
    {
      hide ToClose, End;
      count := 0;
      for i := 0 to |subs|
        invariant |subs| == |old(subs)|
        invariant count == Matched(old(subs)[..i], (s: Subscription) => ToClose(s, now))
        invariant forall k :: 0 <= k < i ==> subs[k] == CloseCanceled(old(subs)[k], now)
        invariant forall k :: i <= k < |subs| ==> subs[k] == old(subs)[k]
      {
        assert old(subs)[..i + 1] == old(subs)[..i] + [old(subs)[i]];
        if ToClose(subs[i], now) {
          subs := subs[i := End(subs[i], now)];
          count := count + 1;
        }
      }
      assert old(subs)[..|subs|] == old(subs);
    }

    method Mark(now: int) returns (count: nat)
      modifies this
      ensures |subs| == |old(subs)|
      ensures forall i :: 0 <= i < |subs| ==> subs[i] == MarkPastDue(old(subs)[i], Latest(invoices, old(subs)[i].org), config, now)
      ensures count == Matched(old(subs), (s: Subscription) => ToMark(s, Latest(invoices, s.org), config, now))
    {
      hide Latest, ToMark;
      count := 0;
      for i := 0 to |subs|
        invariant |subs| == |old(subs)|
        invariant count == Matched(old(subs)[..i], (s: Subscription) => ToMark(s, Latest(invoices, s.org), config, now))
        invariant forall k :: 0 <= k < i ==> subs[k] == MarkPastDue(old(subs)[k], Latest(invoices, old(subs)[k].org), config, now)
        invariant forall k :: i <= k < |subs| ==> subs[k] == old(subs)[k]
      {
        assert old(subs)[..i + 1] == old(subs)[..i] + [old(subs)[i]];
        if ToMark(subs[i], Latest(invoices, subs[i].org), config, now) {
          subs := subs[i := subs[i].(status := PastDue, updatedAt := now)];
          count := count + 1;
        }
      }
      assert old(subs)[..|subs|] == old(subs);
    }

    method Terminate(now: int) returns (count: nat)
      modifies this
      ensures |subs| == |old(subs)|
      ensures forall i :: 0 <= i < |subs| ==> subs[i] == TerminatePastDue(old(subs)[i], Latest(invoices, old(subs)[i].org), config, now)
      ensures count == Matched(old(subs), (s: Subscription) => ToTerminate(s, Latest(invoices, s.org), config, now))
    {
      hide Latest, ToTerminate, End;
      count := 0;
      for i := 0 to |subs|
        invariant |subs| == |old(subs)|
        invariant count == Matched(old(subs)[..i], (s: Subscription) => ToTerminate(s, Latest(invoices, s.org), config, now))
        invariant forall k :: 0 <= k < i ==> subs[k] == TerminatePastDue(old(subs)[k], Latest(invoices, old(subs)[k].org), config, now)
        invariant forall k :: i <= k < |subs| ==> subs[k] == old(subs)[k]
      {
        assert old(subs)[..i + 1] == old(subs)[..i] + [old(subs)[i]];
        if ToTerminate(subs[i], Latest(invoices, subs[i].org), config, now) {
          subs := subs[i := End(subs[i], now)];
          count := count + 1;
        }
      }
      assert old(subs)[..|subs|] == old(subs);
    }

    // `finalize_periods`: the statements run one after the other in one transaction.
    method FinalizePeriods(now: int) returns (canceled: nat, pastDue: nat, terminal: nat)
      modifies this
      ensures subs == SweepAll(old(subs), invoices, config, now)
      ensures canceled == Matched(old(subs), (s: Subscription) => ToClose(s, now))
      ensures pastDue == Matched(Closed(old(subs), now),
                                 (s: Subscription) => ToMark(s, Latest(invoices, s.org), config, now))
      ensures terminal == Matched(Marked(Closed(old(subs), now), invoices, config, now),
                                  (s: Subscription) => ToTerminate(s, Latest(invoices, s.org), config, now))
    {
      hide Matched, ToClose, ToMark, ToTerminate;
      canceled := Close(now);
      assert subs == Closed(old(subs), now);
      pastDue := Mark(now);
      hide Latest;
      assert subs == Marked(Closed(old(subs), now), invoices, config, now);
      terminal := Terminate(now);
      assert forall i :: 0 <= i < |subs| ==> subs[i].org == old(subs)[i].org;
    }
  }

  // ---- cadence ----

  // What access decisions look at; the timestamps depend on when a sweep happened to run.
  datatype Standing = Standing(status: Status, cancelAtPeriodEnd: bool)

  function StandingOf(s: Subscription): Standing {
    Standing(s.status, s.cancelAtPeriodEnd)
  }

  function Sweeps(s: Subscription, latest: Option<Invoice>, c: Config, times: seq<int>): Subscription
    decreases times
  {
    if times == [] then s else Sweeps(Sweep(s, latest, c, times[0]), latest, c, times[1..])
  }

  // An earlier sweep leaves no trace in what a later one decides.
  lemma EarlierSweepAbsorbed(s: Subscription, latest: Option<Invoice>, c: Config, earlier: int, now: int)
    requires earlier <= now
    ensures StandingOf(Sweep(Sweep(s, latest, c, earlier), latest, c, now)) == StandingOf(Sweep(s, latest, c, now))
  {
    assert forall days :: Overdue(latest, days, earlier) ==> Overdue(latest, days, now);
    hide Overdue;
  }

  /** For fixed invoices, whatever sweeps ran before, in whatever order and however often, one sweep at
      a time no earlier than theirs leaves the same status and cancel flag as if it had been the only
      one. No relation between the two grace periods is needed. */
  lemma {:induction false} CadenceDoesNotMatter(s: Subscription, latest: Option<Invoice>, c: Config,
                                                times: seq<int>, now: int)
    requires forall k :: 0 <= k < |times| ==> times[k] <= now
    ensures StandingOf(Sweep(Sweeps(s, latest, c, times), latest, c, now)) == StandingOf(Sweep(s, latest, c, now))
    decreases times
  {
    if times != [] {
      EarlierSweepAbsorbed(s, latest, c, times[0], now);
      hide Sweep;
      CadenceDoesNotMatter(Sweep(s, latest, c, times[0]), latest, c, times[1..], now);
    }
  }

  /** A second sweep at the same time changes nothing at all, timestamps included. */
  lemma SweepIdempotent(s: Subscription, latest: Option<Invoice>, c: Config, now: int)
    ensures Sweep(Sweep(s, latest, c, now), latest, c, now) == Sweep(s, latest, c, now)
  {
    hide Overdue;
  }

  predicate Towards(a: Status, b: Status) {
    a == b || b == Canceled || (a == Active && b == PastDue)
  }

  /** Over any run of sweeps, at any times, status only moves towards canceled, the cancel flag is
      never set, and period, organisation and a canceled row's dates stay as they are. */
  lemma {:induction false} SweepsMoveForward(s: Subscription, latest: Option<Invoice>, c: Config, times: seq<int>)
    ensures var t := Sweeps(s, latest, c, times);
      && Towards(s.status, t.status)
      && (t.cancelAtPeriodEnd ==> s.cancelAtPeriodEnd)
      && t.org == s.org && t.periodEnd == s.periodEnd
      && (s.status == Canceled && !s.cancelAtPeriodEnd ==> t == s)
    decreases times
  {
    hide Overdue;
    if times != [] {
      SweepsMoveForward(Sweep(s, latest, c, times[0]), latest, c, times[1..]);
    }
  }

  /** What a sweep decides, without reference to the order of its statements: a live subscription ends
      up canceled exactly when its period has ended under a cancel request, or it is (or becomes, past
      the grace days) past due and the latest invoice is past the cancel days too. */
  lemma WhenSweepCancels(s: Subscription, latest: Option<Invoice>, c: Config, now: int)
    requires s.status != Canceled
    ensures Sweep(s, latest, c, now).status == Canceled <==>
      || ToClose(s, now)
      || (Overdue(latest, c.cancelDays, now)
          && (s.status == PastDue || (s.status == Active && Overdue(latest, c.graceDays, now))))
    ensures Sweep(s, latest, c, now).status == PastDue <==>
      && !ToClose(s, now) && !Overdue(latest, c.cancelDays, now)
      && (s.status == PastDue || (s.status == Active && Overdue(latest, c.graceDays, now)))
  {
    hide Overdue;
  }

  ghost predicate Ascending(times: seq<int>) {
    forall i, j :: 0 <= i < j < |times| ==> times[i] <= times[j]
  }

  /** The end date is the time of the first sweep that, run on the untouched subscription, would cancel
      it: the sweeps before it do not delay it, those after it do not move it. */
  lemma {:induction false} CanceledAtFirstChance(s: Subscription, latest: Option<Invoice>, c: Config,
                                                 times: seq<int>, k: nat)
    requires s.status != Canceled && Ascending(times) && k < |times|
    requires Sweep(s, latest, c, times[k]).status == Canceled
    requires forall j :: 0 <= j < k ==> Sweep(s, latest, c, times[j]).status != Canceled
    ensures var t := Sweeps(s, latest, c, times);
      t.status == Canceled && t.canceledAt == Some(times[k]) && t.endedAt == Some(times[k])
    decreases k
  {
    var s1 := Sweep(s, latest, c, times[0]);
    if k == 0 {
      CanceledRowIsStamped(s, latest, c, times[0]);
      hide Sweep;
      SweepsMoveForward(s1, latest, c, times[1..]);
    } else {
      forall j | 0 <= j < |times| ensures StandingOf(Sweep(s1, latest, c, times[j])) == StandingOf(Sweep(s, latest, c, times[j])) {
        EarlierSweepAbsorbed(s, latest, c, times[0], times[j]);
      }
      hide Sweep;
      var rest := times[1..];
      assert forall j :: 0 <= j < |rest| ==> rest[j] == times[j + 1];
      CanceledAtFirstChance(s1, latest, c, rest, k - 1);
    }
  }

  lemma CanceledRowIsStamped(s: Subscription, latest: Option<Invoice>, c: Config, now: int)
    requires s.status != Canceled && Sweep(s, latest, c, now).status == Canceled
    ensures var t := Sweep(s, latest, c, now);
      t.canceledAt == Some(now) && t.endedAt == Some(now) && !t.cancelAtPeriodEnd
  {
    hide Overdue;
  }

  // ---- a whole sweep, field by field ----

  // The organisation's latest invoice is sent, and was due that many days ago or more.
  ghost predicate Late(invoices: seq<Invoice>, org: nat, days: int, now: int) {
    exists i :: i in invoices && Some(i) == Latest(invoices, org)
      && i.status == Sent && i.dueDate.Some? && i.dueDate.value + days * 86400 <= now
  }

  ghost predicate Closes(s: Subscription, now: int) {
    s.cancelAtPeriodEnd && s.periodEnd.Some? && s.periodEnd.value <= now
  }

  ghost predicate Marks(s: Subscription, invoices: seq<Invoice>, c: Config, now: int) {
    !Closes(s, now) && s.status == Active && Late(invoices, s.org, c.graceDays, now)
  }

  ghost predicate Terminates(s: Subscription, invoices: seq<Invoice>, c: Config, now: int) {
    !Closes(s, now) && (s.status == PastDue || Marks(s, invoices, c, now)) && Late(invoices, s.org, c.cancelDays, now)
  }

  lemma LateIs(invoices: seq<Invoice>, org: nat, days: int, now: int)
    ensures Overdue(Latest(invoices, org), days, now) <==> Late(invoices, org, days, now)
  {
    hide Latest;
  }

  /** What a sweep does to a row: it ends the subscription now if its period is over under a cancel request, or if it is
      past due, or becomes it in this sweep, and late by the cancel days; it marks an active one that is late by the grace
      days; otherwise it changes nothing. */
  lemma SweepEffect(s: Subscription, invoices: seq<Invoice>, c: Config, now: int)
    ensures Sweep(s, Latest(invoices, s.org), c, now)
         == if Closes(s, now) || Terminates(s, invoices, c, now)
            then Subscription(s.org, Canceled, false, s.periodEnd, Some(now), Some(now), now)
            else if Marks(s, invoices, c, now)
            then Subscription(s.org, PastDue, s.cancelAtPeriodEnd, s.periodEnd, s.canceledAt, s.endedAt, now)
            else s
  {
    LateIs(invoices, s.org, c.graceDays, now);
    LateIs(invoices, s.org, c.cancelDays, now);
    hide Late, Latest, Overdue;
  }

  // How many of the rows a sweep closes, marks and terminates.
  ghost function CloseCount(subs: seq<Subscription>, now: int): nat {
    if subs == [] then 0
    else CloseCount(subs[..|subs| - 1], now) + if Closes(subs[|subs| - 1], now) then 1 else 0
  }

  ghost function MarkCount(subs: seq<Subscription>, invoices: seq<Invoice>, c: Config, now: int): nat {
    if subs == [] then 0
    else MarkCount(subs[..|subs| - 1], invoices, c, now) + if Marks(subs[|subs| - 1], invoices, c, now) then 1 else 0
  }

  ghost function TerminateCount(subs: seq<Subscription>, invoices: seq<Invoice>, c: Config, now: int): nat {
    if subs == [] then 0
    else TerminateCount(subs[..|subs| - 1], invoices, c, now)
         + if Terminates(subs[|subs| - 1], invoices, c, now) then 1 else 0
  }

  lemma RowRulings(s: Subscription, invoices: seq<Invoice>, c: Config, now: int)
    ensures var closed := CloseCanceled(s, now);
      var marked := MarkPastDue(closed, Latest(invoices, closed.org), c, now);
      && (ToClose(s, now) <==> Closes(s, now))
      && (ToMark(closed, Latest(invoices, closed.org), c, now) <==> Marks(s, invoices, c, now))
      && (ToTerminate(marked, Latest(invoices, marked.org), c, now) <==> Terminates(s, invoices, c, now))
  {
    LateIs(invoices, s.org, c.graceDays, now);
    LateIs(invoices, s.org, c.cancelDays, now);
    hide Late, Latest, Overdue;
  }

  /** The three counts a sweep returns are the numbers of rows it closes, marks and terminates, by the rows and invoices
      it started from. */
  lemma {:induction false} CountsAre(subs: seq<Subscription>, invoices: seq<Invoice>, c: Config, now: int)
    ensures Matched(subs, (s: Subscription) => ToClose(s, now)) == CloseCount(subs, now)
    ensures Matched(Closed(subs, now), (s: Subscription) => ToMark(s, Latest(invoices, s.org), c, now))
         == MarkCount(subs, invoices, c, now)
    ensures Matched(Marked(Closed(subs, now), invoices, c, now),
                    (s: Subscription) => ToTerminate(s, Latest(invoices, s.org), c, now))
         == TerminateCount(subs, invoices, c, now)
    decreases |subs|
  {
    if subs != [] {
      var n := |subs| - 1;
      CountsAre(subs[..n], invoices, c, now);
      RowRulings(subs[n], invoices, c, now);
      assert Closed(subs, now)[..n] == Closed(subs[..n], now);
      assert Marked(Closed(subs, now), invoices, c, now)[..n] == Marked(Closed(subs[..n], now), invoices, c, now);
      hide Closes, Marks, Terminates, ToClose, ToMark, ToTerminate, CloseCanceled, MarkPastDue, Latest, Closed, Marked;
    }
  }
}
