/** Exactly when the renewal sweep's invoice numbers are fresh (`_next_invoice_number`, `draft_annual_renewals`).

    A number is the count of the numbers that exist under a prefix, plus one. Nothing is assumed of the
    invoices a run starts from. */
module Numbering {
  import opened Common
  import opened Renewals

  function PrefixFor(s: Subscription): string
    requires HasEnd(s) && RenewalPeriod(s.periodEnd.value).Some?
  {
    PeriodYears(s);
    PrefixOf(RenewalPeriod(s.periodEnd.value).value.start)
  }

  // Whether a subscription's renewal is drafted, if its number can be had.
  predicate Issues(invoices: seq<Invoice>, s: Subscription, priced: string -> bool)
    requires HasEnd(s)
  {
    RenewalPeriod(s.periodEnd.value).Some? && priced(s.sku) && Covered(invoices, s) == 0
  }

  predicate IssuesUnder(invoices: seq<Invoice>, s: Subscription, priced: string -> bool, prefix: string)
    requires HasEnd(s)
  {
    Issues(invoices, s, priced) && PrefixFor(s) == prefix
  }

  // How many of the first `k` subscriptions take a number under the prefix.
  function Earlier(invoices: seq<Invoice>, subs: seq<Subscription>, k: nat, priced: string -> bool, prefix: string): nat
    requires Ready(subs) && k <= |subs|
    decreases k
  {
    if k == 0 then 0
    else (if IssuesUnder(invoices, subs[0], priced, prefix) then 1 else 0)
         + Earlier(invoices, subs[1..], k - 1, priced, prefix)
  }

  // The number after `n` more under a prefix.
  function NumberAfter(invoices: seq<Invoice>, prefix: string, n: nat): string {
    prefix + Padded(CountWith(invoices, prefix) + n + 1, 4)
  }

  // The number the k-th subscription of a run would take is on one of the invoices the run starts from.
  predicate Taken(invoices: seq<Invoice>, subs: seq<Subscription>, k: nat, priced: string -> bool)
    requires Ready(subs) && k < |subs|
  {
    Issues(invoices, subs[k], priced)
    && var prefix := PrefixFor(subs[k]);
       NumberUsed(invoices, NumberAfter(invoices, prefix, Earlier(invoices, subs, k, priced, prefix)))
  }

  // ---- one subscription ----

  function DraftedAnew(invoices: seq<Invoice>, s: Subscription): Drafted
    requires HasEnd(s) && RenewalPeriod(s.periodEnd.value).Some?
  {
    var number := NumberAfter(invoices, PrefixFor(s), 0);
    if NumberUsed(invoices, number) then Aborted
    else Drafted(invoices + [Invoice(s.org, number, true, false, RenewalPeriod(s.periodEnd.value).value)], 1, 0)
  }

  lemma DraftCases(invoices: seq<Invoice>, s: Subscription, priced: string -> bool)
    requires HasEnd(s)
    ensures var d := Draft(invoices, s, priced);
      && (Issues(invoices, s, priced) ==> d == DraftedAnew(invoices, s))
      && (!Issues(invoices, s, priced) ==>
            && (d.Aborted? <==> Blocked(invoices, s, priced))
            && (d.Drafted? ==> d.invoices == invoices))
      && (Issues(invoices, s, priced) ==> !Blocked(invoices, s, priced))
  {
    hide RenewalPeriod, OverlapCount, NumberUsed, Valid, PrefixOf, CountWith, Padded;
    PeriodYears(s);
  }

  lemma SamePrefix(invoices: seq<Invoice>, i: Invoice, p: string, e: nat)
    requires i.number == NumberAfter(invoices, p, 0)
    ensures var n := NumberAfter(invoices, p, 1 + e);
      NumberAfter(invoices + [i], p, e) == n && (NumberUsed(invoices + [i], n) <==> NumberUsed(invoices, n))
  {
    CountAppend(invoices, i, p);
    hide Padded, CountWith, NumberUsed;
    var c := CountWith(invoices, p);
    assert p <= i.number;
    Differ(p, c + 1, c + 1 + e + 1);
    UsedAppend(invoices, i, NumberAfter(invoices, p, 1 + e));
  }

  lemma OtherPrefix(invoices: seq<Invoice>, i: Invoice, p: string, e: nat)
    requires !(p <= i.number)
    ensures var n := NumberAfter(invoices, p, e);
      NumberAfter(invoices + [i], p, e) == n && (NumberUsed(invoices + [i], n) <==> NumberUsed(invoices, n))
  {
    CountAppend(invoices, i, p);
    hide Padded, CountWith, NumberUsed;
    assert p <= NumberAfter(invoices, p, e);
    UsedAppend(invoices, i, NumberAfter(invoices, p, e));
  }

  // The invoices after one issue, seen under a prefix.
  lemma AfterIssue(invoices: seq<Invoice>, i: Invoice, start: DateTime, t: DateTime, e: nat)
    requires InCalendar(start) && InCalendar(t) && i.number == NumberAfter(invoices, PrefixOf(start), 0)
    ensures var p := PrefixOf(t);
      var n := NumberAfter(invoices, p, (if p == PrefixOf(start) then 1 else 0) + e);
      && NumberAfter(invoices + [i], p, e) == n
      && (NumberUsed(invoices + [i], n) <==> NumberUsed(invoices, n))
  {
    hide PrefixOf, Padded, CountWith, NumberUsed;
    var p, q := PrefixOf(t), PrefixOf(start);
    if p == q {
      hide NumberAfter;
      SamePrefix(invoices, i, q, e);
    } else {
      if p <= i.number {
        PrefixesApart(start, t, Padded(CountWith(invoices, q) + 1, 4));
      }
      hide NumberAfter;
      OtherPrefix(invoices, i, p, e);
    }
  }

  lemma Differ(prefix: string, a: nat, b: nat)
    requires a != b
    ensures prefix + Padded(a, 4) != prefix + Padded(b, 4)
  {
    hide Padded;
    if prefix + Padded(a, 4) == prefix + Padded(b, 4) {
      SuffixEqual(prefix, Padded(a, 4), Padded(b, 4));
      PaddedInjective(a, b, 4);
    }
  }

  lemma UsedAppend(invoices: seq<Invoice>, i: Invoice, number: string)
    ensures NumberUsed(invoices + [i], number) <==> NumberUsed(invoices, number) || number == i.number
  {
    var after := invoices + [i];
    if NumberUsed(invoices, number) {
      var k :| 0 <= k < |invoices| && invoices[k].number == number;
      assert after[k].number == number;
    }
    assert after[|invoices|] == i;
  }

  // ---- a run ----

  // Drafting one subscription leaves what the others issue alone.
  lemma IssuesStays(invoices: seq<Invoice>, s: Subscription, other: Subscription, priced: string -> bool)
    requires HasEnd(s) && HasEnd(other) && s.org != other.org && Draft(invoices, s, priced).Drafted?
    ensures Issues(Draft(invoices, s, priced).invoices, other, priced) <==> Issues(invoices, other, priced)
  {
    hide Draft, OverlapCount, RenewalPeriod, Valid;
    var period := RenewalPeriod(other.periodEnd.value);
    if period.Some? {
      DraftCovers(invoices, s, priced, other.org, period.value);
    }
  }

  lemma EarlierFirst(invoices: seq<Invoice>, subs: seq<Subscription>, k: nat, priced: string -> bool, prefix: string)
    requires Ready(subs) && 0 < k <= |subs|
    ensures HasEnd(subs[0]) && Ready(subs[1..])
    ensures Earlier(invoices, subs, k, priced, prefix)
         == (if IssuesUnder(invoices, subs[0], priced, prefix) then 1 else 0)
            + Earlier(invoices, subs[1..], k - 1, priced, prefix)
  {
    hide HasEnd, IssuesUnder;
  }

  lemma UnderStays(invoices: seq<Invoice>, s: Subscription, other: Subscription, priced: string -> bool, prefix: string)
    requires HasEnd(s) && HasEnd(other) && s.org != other.org && Draft(invoices, s, priced).Drafted?
    ensures IssuesUnder(Draft(invoices, s, priced).invoices, other, priced, prefix)
       <==> IssuesUnder(invoices, other, priced, prefix)
  {
    hide Draft, OverlapCount, RenewalPeriod, Valid;
    IssuesStays(invoices, s, other, priced);
    hide PrefixFor;
  }

  lemma {:induction false} EarlierStays(invoices: seq<Invoice>, s: Subscription, subs: seq<Subscription>, k: nat,
                                        priced: string -> bool, prefix: string)
    requires HasEnd(s) && Draft(invoices, s, priced).Drafted? && Ready(subs) && k <= |subs|
    requires forall i :: 0 <= i < |subs| ==> subs[i].org != s.org
    ensures Earlier(Draft(invoices, s, priced).invoices, subs, k, priced, prefix)
         == Earlier(invoices, subs, k, priced, prefix)
    decreases k
  {
    if k > 0 {
      hide *;
      var next := Draft(invoices, s, priced).invoices;
      EarlierFirst(invoices, subs, k, priced, prefix);
      EarlierFirst(next, subs, k, priced, prefix);
      UnderStays(invoices, s, subs[0], priced, prefix);
      EarlierStays(invoices, s, subs[1..], k - 1, priced, prefix);
    } else {
      hide IssuesUnder, HasEnd, Draft;
    }
  }

  // The tail of a run after its first draft.
  lemma TailReady(subs: seq<Subscription>)
    requires Ready(subs) && OnePerOrg(subs) && subs != []
    ensures Ready(subs[1..]) && OnePerOrg(subs[1..]) && HasEnd(subs[0])
    ensures forall i :: 0 <= i < |subs[1..]| ==> subs[1..][i].org != subs[0].org && subs[1..][i] == subs[i + 1]
  {
    hide HasEnd;
  }

  lemma ReadyAt(subs: seq<Subscription>, k: nat)
    requires Ready(subs) && k < |subs|
    ensures HasEnd(subs[k])
  {
  }

  // The number another subscription would take, before and after drafting one.
  lemma CountedStep(invoices: seq<Invoice>, s: Subscription, other: Subscription, e: nat, priced: string -> bool)
    requires HasEnd(s) && HasEnd(other) && Draft(invoices, s, priced).Drafted?
    requires Issues(invoices, other, priced) && RenewalPeriod(other.periodEnd.value).Some?
    ensures var next, p := Draft(invoices, s, priced).invoices, PrefixFor(other);
      var n := NumberAfter(invoices, p, (if IssuesUnder(invoices, s, priced, p) then 1 else 0) + e);
      NumberAfter(next, p, e) == n && (NumberUsed(next, n) <==> NumberUsed(invoices, n))
  {
    DraftCases(invoices, s, priced);
    hide Draft, Issues, HasEnd, RenewalPeriod, NumberUsed, NumberAfter, PrefixFor, Blocked;
    if Issues(invoices, s, priced) {
      IssueHasPeriod(invoices, s, priced);
      var i := Invoice(s.org, NumberAfter(invoices, PrefixFor(s), 0), true, false, RenewalPeriod(s.periodEnd.value).value);
      InvoiceAfter(invoices, s, other, i, e, priced);
    }
  }

  // The number the k-th subscription takes, counted at the start of the run and after its first draft.
  lemma NumberStep(invoices: seq<Invoice>, subs: seq<Subscription>, k: nat, priced: string -> bool)
    requires Ready(subs) && OnePerOrg(subs) && 0 < k < |subs| && Draft(invoices, subs[0], priced).Drafted?
    requires Ready(subs[1..]) && Issues(invoices, subs[k], priced) && RenewalPeriod(subs[k].periodEnd.value).Some?
    ensures var next, prefix := Draft(invoices, subs[0], priced).invoices, PrefixFor(subs[k]);
      var n := NumberAfter(invoices, prefix, Earlier(invoices, subs, k, priced, prefix));
      && n == NumberAfter(next, prefix, Earlier(next, subs[1..], k - 1, priced, prefix))
      && (NumberUsed(next, n) <==> NumberUsed(invoices, n))
  {
    hide *;
    TailReady(subs);
    ReadyAt(subs, k);
    var prefix := PrefixFor(subs[k]);
    EarlierFirst(invoices, subs, k, priced, prefix);
    EarlierStays(invoices, subs[0], subs[1..], k - 1, priced, prefix);
    CountedStep(invoices, subs[0], subs[k], Earlier(invoices, subs[1..], k - 1, priced, prefix), priced);
  }

  lemma InvoiceAfter(invoices: seq<Invoice>, s: Subscription, other: Subscription, i: Invoice, e: nat, priced: string -> bool)
    requires HasEnd(s) && HasEnd(other) && Issues(invoices, s, priced) && Issues(invoices, other, priced)
    requires RenewalPeriod(s.periodEnd.value).Some? && RenewalPeriod(other.periodEnd.value).Some?
    requires i.number == NumberAfter(invoices, PrefixFor(s), 0)
    ensures var p := PrefixFor(other);
      var one := if PrefixFor(s) == p then 1 else 0;
      && NumberAfter(invoices + [i], p, e) == NumberAfter(invoices, p, one + e)
      && (NumberUsed(invoices + [i], NumberAfter(invoices, p, one + e)) <==>
          NumberUsed(invoices, NumberAfter(invoices, p, one + e)))
  {
    hide NumberAfter, NumberUsed, OverlapCount, RenewalPeriod, Valid, PrefixOf;
    PeriodYears(s);
    PeriodYears(other);
    AfterIssue(invoices, i, RenewalPeriod(s.periodEnd.value).value.start, RenewalPeriod(other.periodEnd.value).value.start, e);
  }

  /** The (n+1)-th number a run issues under a prefix is the prefix and the starting count plus n plus 1, and it is
      fresh at that moment if and only if no invoice the run started from carries it. */
  lemma {:induction false} NthNumberFreshIff(invoices: seq<Invoice>, subs: seq<Subscription>, k: nat, priced: string -> bool,
                                             created: nat, skipped: nat)
    requires Ready(subs) && OnePerOrg(subs) && k < |subs| && Ready(subs[..k]) && Issues(invoices, subs[k], priced)
    requires DraftAll(invoices, subs[..k], priced, created, skipped).Drafted?
    ensures var now, prefix := DraftAll(invoices, subs[..k], priced, created, skipped).invoices, PrefixFor(subs[k]);
      var n := NumberAfter(invoices, prefix, Earlier(invoices, subs, k, priced, prefix));
      && NumberAfter(now, prefix, 0) == n
      && (NumberUsed(now, n) <==> NumberUsed(invoices, n))
    decreases k
  {
    if k == 0 {
      assert subs[..0] == [];
    } else {
      hide Draft, NumberUsed, NumberAfter, Issues;
      var front := subs[..k];
      assert front[0] == subs[0] && front[1..] == subs[1..][..k - 1];
      var d, rest := FirstDraft(invoices, front, priced, created, skipped);
      hide DraftAll;
      TailReady(subs);
      NumberStep(invoices, subs, k, priced);
      IssuesStays(invoices, subs[0], subs[k], priced);
      hide PrefixFor, Earlier, OnePerOrg;
      NthNumberFreshIff(d.invoices, subs[1..], k - 1, priced, created + d.created, skipped + d.skipped);
    }
  }

  predicate Fails(invoices: seq<Invoice>, subs: seq<Subscription>, k: nat, priced: string -> bool)
    requires Ready(subs) && k < |subs|
  {
    Blocked(invoices, subs[k], priced) || Taken(invoices, subs, k, priced)
  }

  lemma FailsFirst(invoices: seq<Invoice>, subs: seq<Subscription>, priced: string -> bool)
    requires Ready(subs) && subs != []
    ensures Fails(invoices, subs, 0, priced) <==> Draft(invoices, subs[0], priced).Aborted?
  {
    hide Draft, Blocked, Issues, NumberUsed, NumberAfter;
    DraftCases(invoices, subs[0], priced);
  }

  lemma FailsStep(invoices: seq<Invoice>, subs: seq<Subscription>, k: nat, priced: string -> bool)
    requires Ready(subs) && OnePerOrg(subs) && 0 < k < |subs| && Ready(subs[1..])
    requires Draft(invoices, subs[0], priced).Drafted?
    ensures Fails(Draft(invoices, subs[0], priced).invoices, subs[1..], k - 1, priced) <==> Fails(invoices, subs, k, priced)
  {
    hide Draft, Blocked, Issues, NumberUsed, NumberAfter, PrefixFor, Earlier;
    TailReady(subs);
    BlockedByItsOwn(invoices, subs[0], subs[k], priced);
    IssuesStays(invoices, subs[0], subs[k], priced);
    if Issues(invoices, subs[k], priced) {
      IssueHasPeriod(invoices, subs[k], priced);
      NumberStep(invoices, subs, k, priced);
    }
  }

  /** A run over any table of invoices is aborted if and only if some renewal leaves the calendar, finds several
      overlapping invoices, or would take a number that an invoice already carries: all three read off the
      invoices the run starts from. */
  lemma {:induction false} RunAbortsIff(invoices: seq<Invoice>, subs: seq<Subscription>, priced: string -> bool,
                                        created: nat, skipped: nat)
    requires Ready(subs) && OnePerOrg(subs)
    ensures DraftAll(invoices, subs, priced, created, skipped).Aborted? <==> SomeFails(invoices, subs, priced)
    decreases subs
  {
    hide *;
    if subs == [] {
      EmptyRun(invoices, priced, created, skipped);
    } else {
      TailReady(subs);
      RunFirst(invoices, subs, priced, created, skipped);
      FailsSplit(invoices, subs, priced);
      var d, rest := Draft(invoices, subs[0], priced), subs[1..];
      if d.Drafted? {
        RunAbortsIff(d.invoices, rest, priced, created + d.created, skipped + d.skipped);
      }
    }
  }

  ghost predicate SomeFails(invoices: seq<Invoice>, subs: seq<Subscription>, priced: string -> bool)
    requires Ready(subs)
  {
    exists k :: 0 <= k < |subs| && Fails(invoices, subs, k, priced)
  }

  lemma EmptyRun(invoices: seq<Invoice>, priced: string -> bool, created: nat, skipped: nat)
    ensures DraftAll(invoices, [], priced, created, skipped) == Drafted(invoices, created, skipped)
    ensures !SomeFails(invoices, [], priced)
  {
  }

  lemma RunFirst(invoices: seq<Invoice>, subs: seq<Subscription>, priced: string -> bool, created: nat, skipped: nat)
    requires Ready(subs) && subs != []
    ensures HasEnd(subs[0]) && Ready(subs[1..])
    ensures var d := Draft(invoices, subs[0], priced);
      DraftAll(invoices, subs, priced, created, skipped)
        == if d.Aborted? then d else DraftAll(d.invoices, subs[1..], priced, created + d.created, skipped + d.skipped)
  {
    hide Draft, HasEnd;
  }

  lemma FailsSplit(invoices: seq<Invoice>, subs: seq<Subscription>, priced: string -> bool)
    requires Ready(subs) && OnePerOrg(subs) && subs != []
    ensures HasEnd(subs[0]) && Ready(subs[1..])
    ensures var d := Draft(invoices, subs[0], priced);
      SomeFails(invoices, subs, priced) <==> d.Aborted? || SomeFails(d.invoices, subs[1..], priced)
  {
    TailReady(subs);
    FailsFirst(invoices, subs, priced);
    hide Draft, Fails, HasEnd, OnePerOrg, Ready;
    var d, rest := Draft(invoices, subs[0], priced), subs[1..];
    if d.Drafted? {
      forall k | 1 <= k < |subs| ensures Fails(d.invoices, rest, k - 1, priced) <==> Fails(invoices, subs, k, priced) {
        FailsStep(invoices, subs, k, priced);
      }
      if k :| 0 <= k < |rest| && Fails(d.invoices, rest, k, priced) {
        assert Fails(invoices, subs, k + 1, priced);
      }
    }
  }

  // ---- a prefix whose next number is taken ----

  predicate Stuck(invoices: seq<Invoice>, prefix: string) {
    NumberUsed(invoices, NumberAfter(invoices, prefix, 0))
  }

  predicate Renews(invoices: seq<Invoice>, subs: seq<Subscription>, priced: string -> bool, prefix: string)
    requires Ready(subs)
  {
    exists k :: 0 <= k < |subs| && IssuesUnder(invoices, subs[k], priced, prefix)
  }

  // The prefix of some month.
  ghost predicate MonthPrefix(prefix: string) {
    exists t: DateTime :: InCalendar(t) && PrefixOf(t) == prefix
  }

  lemma DraftWhenStuck(invoices: seq<Invoice>, s: Subscription, priced: string -> bool, prefix: string)
    requires HasEnd(s) && MonthPrefix(prefix) && Stuck(invoices, prefix)
    ensures IssuesUnder(invoices, s, priced, prefix) ==> Draft(invoices, s, priced).Aborted?
    ensures Draft(invoices, s, priced).Drafted? ==> Stuck(Draft(invoices, s, priced).invoices, prefix)
  {
    hide Draft, Issues, NumberUsed, NumberAfter, PrefixOf, RenewalPeriod, Valid;
    var t: DateTime :| InCalendar(t) && PrefixOf(t) == prefix;
    DraftCases(invoices, s, priced);
    if Issues(invoices, s, priced) {
      IssueHasPeriod(invoices, s, priced);
      PeriodYears(s);
      var p := RenewalPeriod(s.periodEnd.value).value;
      AfterIssue(invoices, Invoice(s.org, NumberAfter(invoices, PrefixFor(s), 0), true, false, p), p.start, t, 0);
    }
  }

  lemma IssueHasPeriod(invoices: seq<Invoice>, s: Subscription, priced: string -> bool)
    requires HasEnd(s) && Issues(invoices, s, priced)
    ensures RenewalPeriod(s.periodEnd.value).Some?
  {
  }

  lemma {:induction false} RunWhenStuck(invoices: seq<Invoice>, subs: seq<Subscription>, priced: string -> bool,
                                        created: nat, skipped: nat, prefix: string)
    requires Ready(subs) && OnePerOrg(subs) && MonthPrefix(prefix) && Stuck(invoices, prefix)
    ensures var d := DraftAll(invoices, subs, priced, created, skipped);
      && (Renews(invoices, subs, priced, prefix) ==> d.Aborted?)
      && (d.Drafted? ==> Stuck(d.invoices, prefix))
    decreases subs
  {
    hide *;
    if subs == [] {
      EmptyRun(invoices, priced, created, skipped);
      NothingRenewed(invoices, priced, prefix);
    } else {
      TailReady(subs);
      RunFirst(invoices, subs, priced, created, skipped);
      RenewsSplit(invoices, subs, priced, prefix);
      DraftWhenStuck(invoices, subs[0], priced, prefix);
      var d := Draft(invoices, subs[0], priced);
      if d.Drafted? {
        RunWhenStuck(d.invoices, subs[1..], priced, created + d.created, skipped + d.skipped, prefix);
      }
    }
  }

  lemma NothingRenewed(invoices: seq<Invoice>, priced: string -> bool, prefix: string)
    ensures !Renews(invoices, [], priced, prefix)
  {
  }

  lemma RenewsSplit(invoices: seq<Invoice>, subs: seq<Subscription>, priced: string -> bool, prefix: string)
    requires Ready(subs) && OnePerOrg(subs) && subs != []
    ensures HasEnd(subs[0]) && Ready(subs[1..])
    ensures var d := Draft(invoices, subs[0], priced);
      Renews(invoices, subs, priced, prefix) && d.Drafted? ==>
        IssuesUnder(invoices, subs[0], priced, prefix) || Renews(d.invoices, subs[1..], priced, prefix)
  {
    TailReady(subs);
    hide Draft, IssuesUnder, HasEnd, OnePerOrg, Ready;
    var d, rest := Draft(invoices, subs[0], priced), subs[1..];
    if d.Drafted? && Renews(invoices, subs, priced, prefix) {
      var k :| 0 <= k < |subs| && IssuesUnder(invoices, subs[k], priced, prefix);
      if k > 0 {
        UnderStays(invoices, subs[0], subs[k], priced, prefix);
        assert IssuesUnder(d.invoices, rest[k - 1], priced, prefix);
      }
    }
  }

  // The invoices after a run, and after a number of runs: one that aborts changes nothing.
  function AfterRun(invoices: seq<Invoice>, subs: seq<Subscription>, priced: string -> bool): seq<Invoice>
    requires Ready(subs)
  {
    match DraftAll(invoices, subs, priced, 0, 0)
    case Aborted => invoices
    case Drafted(after, _, _) => after
  }

  // Each run is over subscriptions with end dates, one per organisation.
  predicate Sweepable(subs: seq<Subscription>) {
    Ready(subs) && forall i, j :: 0 <= i < j < |subs| ==> subs[i].org != subs[j].org
  }

  predicate Schedule(runs: seq<seq<Subscription>>) {
    forall k :: 0 <= k < |runs| ==> Sweepable(runs[k])
  }

  function AfterRuns(invoices: seq<Invoice>, runs: seq<seq<Subscription>>, priced: string -> bool): seq<Invoice>
    requires Schedule(runs)
    decreases |runs|
  {
    if runs == [] then invoices
    else AfterRun(AfterRuns(invoices, runs[..|runs| - 1], priced), runs[|runs| - 1], priced)
  }

  lemma StuckAfter(invoices: seq<Invoice>, subs: seq<Subscription>, priced: string -> bool, prefix: string)
    requires Ready(subs) && Stuck(invoices, prefix)
    requires var d := DraftAll(invoices, subs, priced, 0, 0); d.Drafted? ==> Stuck(d.invoices, prefix)
    ensures Stuck(AfterRun(invoices, subs, priced), prefix)
  {
    hide DraftAll, Stuck, Ready;
  }

  /** Once the next number under a prefix is taken it stays taken over any number of runs, and each of them that has
      a renewal to draft under that prefix aborts, while the others may commit. */
  lemma {:induction false} StuckForEver(invoices: seq<Invoice>, runs: seq<seq<Subscription>>, priced: string -> bool,
                                        prefix: string)
    requires Schedule(runs)
    requires MonthPrefix(prefix) && Stuck(invoices, prefix)
    ensures Stuck(AfterRuns(invoices, runs, priced), prefix)
    ensures runs != [] ==>
      var before := AfterRuns(invoices, runs[..|runs| - 1], priced);
      Renews(before, runs[|runs| - 1], priced, prefix) ==>
        DraftAll(before, runs[|runs| - 1], priced, 0, 0).Aborted?
    decreases |runs|
  {
    if runs != [] {
      var front, last := LastRun(invoices, runs, priced);
      hide *;
      StuckForEver(invoices, front, priced, prefix);
      RunWhenStuck(AfterRuns(invoices, front, priced), last, priced, 0, 0, prefix);
      StuckAfter(AfterRuns(invoices, front, priced), last, priced, prefix);
    }
  }

  lemma LastRun(invoices: seq<Invoice>, runs: seq<seq<Subscription>>, priced: string -> bool)
      returns (front: seq<seq<Subscription>>, last: seq<Subscription>)
    requires Schedule(runs) && runs != []
    ensures front == runs[..|runs| - 1] && last == runs[|runs| - 1] && Schedule(front) && Ready(last) && OnePerOrg(last)
    ensures AfterRuns(invoices, runs, priced) == AfterRun(AfterRuns(invoices, front, priced), last, priced)
  {
    hide Ready, AfterRun;
    front, last := runs[..|runs| - 1], runs[|runs| - 1];
    assert forall k :: 0 <= k < |front| ==> front[k] == runs[k];
    assert Sweepable(last);
    hide Sweepable;
  }

  /** A gap is enough: with only number 0002 under a prefix, as when 0001 was deleted, the next number is 0002. */
  lemma GapsCollide(org: nat, start: DateTime, void: bool, scan: bool, period: Period)
    requires InCalendar(start)
    ensures var only := [Invoice(org, PrefixOf(start) + "0002", scan, void, period)];
      NextNumber(only, start) == PrefixOf(start) + "0002" && Stuck(only, PrefixOf(start))
  {
    hide PrefixOf, Padded, CountWith;
    var prefix := PrefixOf(start);
    var i := Invoice(org, prefix + "0002", scan, void, period);
    PaddedTwo();
    CountOne(i, prefix);
    assert [i][0].number == prefix + "0002";
  }

  lemma CountOne(i: Invoice, prefix: string)
    requires prefix <= i.number
    ensures CountWith([i], prefix) == 1
  {
    CountAppend([], i, prefix);
    assert [] + [i] == [i];
  }
}
