/** Annual renewal drafts (`workers/tasks/billing.py`, `backend/app/services/invoice_math.py`). */
module Renewals {
  import opened Common
  import opened Text

  // ---- dates (UTC) ----

  datatype DateTime = DateTime(year: int, month: int, day: int, micros: int)

  const DAY_MICROS: int := 86_400_000_000

  predicate Leap(year: int) {
    year % 4 == 0 && (year % 100 != 0 || year % 400 == 0)
  }

  function DaysIn(year: int, month: int): (d: int)
    ensures 28 <= d <= 31
  {
    if month == 2 then (if Leap(year) then 29 else 28)
    else if month == 4 || month == 6 || month == 9 || month == 11 then 30
    else 31
  }

  predicate Valid(t: DateTime) {
    1 <= t.year <= 9999 && 1 <= t.month <= 12 && 1 <= t.day <= DaysIn(t.year, t.month) && 0 <= t.micros < DAY_MICROS
  }

  // Earlier times have smaller ordinals.
  function Ordinal(t: DateTime): int {
    (((t.year * 12 + t.month) * 31) + t.day) * DAY_MICROS + t.micros
  }

  /** On valid dates the ordinal order is the calendar order. */
  lemma OrdinalIsCalendarOrder(a: DateTime, b: DateTime)
    requires Valid(a) && Valid(b)
    ensures Ordinal(a) < Ordinal(b) <==>
      || a.year < b.year
      || (a.year == b.year && a.month < b.month)
      || (a.year == b.year && a.month == b.month && a.day < b.day)
      || (a.year == b.year && a.month == b.month && a.day == b.day && a.micros < b.micros)
    ensures Ordinal(a) == Ordinal(b) ==> a == b
  {
  }

  // `_next_annual_start`; None where the year passes 9999 and `datetime` raises.
  function NextAnnualStart(end: DateTime): Option<DateTime> {
    var year := end.year + if end.month == 12 then 1 else 0;
    if year > 9999 then None else Some(DateTime(year, end.month % 12 + 1, 1, 0))
  }

  // One microsecond before the first of a month.
  function JustBefore(year: int, month: int): DateTime {
    var y, m := if month == 1 then year - 1 else year, if month == 1 then 12 else month - 1;
    DateTime(y, m, DaysIn(y, m), DAY_MICROS - 1)
  }

  datatype Period = Period(start: DateTime, end: DateTime)

  // `period_bounds_utc(when, "annual")`
  function AnnualBounds(when: DateTime): Option<Period> {
    if when.year + 1 > 9999 then None
    else Some(Period(DateTime(when.year, when.month, 1, 0), JustBefore(when.year + 1, when.month)))
  }

  function MonthIndex(t: DateTime): int {
    t.year * 12 + t.month
  }

  lemma MonthBounds(t: DateTime)
    requires Valid(t)
    ensures 1 <= t.month <= 12
    ensures (MonthIndex(t) * 31 + 1) * DAY_MICROS <= Ordinal(t)
    ensures Ordinal(t) <= (MonthIndex(t) * 31 + DaysIn(t.year, t.month) + 1) * DAY_MICROS - 1
    ensures Ordinal(t) < (MonthIndex(t) * 31 + 32) * DAY_MICROS
  {
    hide DaysIn;
  }

  lemma JustBeforeIsLast(year: int, month: int, t: DateTime)
    requires Valid(t) && 1 <= month <= 12
    ensures Ordinal(t) <= Ordinal(JustBefore(year, month)) <==> Ordinal(t) < Ordinal(DateTime(year, month, 1, 0))
  {
    hide DaysIn, Valid;
    MonthBounds(t);
    var j := JustBefore(year, month);
    assert MonthIndex(j) == year * 12 + month - 1;
    assert Ordinal(j) == (MonthIndex(j) * 31 + DaysIn(j.year, j.month) + 1) * DAY_MICROS - 1;
    assert Ordinal(DateTime(year, month, 1, 0)) == ((MonthIndex(j) + 1) * 31 + 1) * DAY_MICROS;
    if MonthIndex(t) == MonthIndex(j) {
      SameMonth(t, j);
    }
    hide JustBefore, Ordinal, MonthIndex;
  }

  lemma SameMonth(a: DateTime, b: DateTime)
    requires 1 <= a.month <= 12 && 1 <= b.month <= 12 && MonthIndex(a) == MonthIndex(b)
    ensures a.year == b.year && a.month == b.month
  {
  }

  /** The next period starts on the first of a month, strictly after the current period's end, at most a
      month later; it runs twelve months, to the last microsecond before the same day a year on. */
  lemma NextPeriod(end: DateTime)
    requires Valid(end) && NextAnnualStart(end).Some? && AnnualBounds(NextAnnualStart(end).value).Some?
    ensures var start := NextAnnualStart(end).value;
      var p := AnnualBounds(start).value;
      && Valid(start) && start.day == 1 && start.micros == 0 && p.start == start
      && Ordinal(end) < Ordinal(start)
      && (start.year * 12 + start.month) == (end.year * 12 + end.month) + 1
      && Valid(p.end) && Ordinal(p.start) <= Ordinal(p.end)
      && (forall t :: Valid(t) ==>
            (Ordinal(t) <= Ordinal(p.end) <==> Ordinal(t) < Ordinal(start.(year := start.year + 1))))
  {
    var start := NextAnnualStart(end).value;
    var p := AnnualBounds(start).value;
    hide Ordinal;
    OrdinalIsCalendarOrder(end, start);
    OrdinalIsCalendarOrder(p.start, p.end);
    forall t | Valid(t)
      ensures Ordinal(t) <= Ordinal(AnnualBounds(start).value.end) <==> Ordinal(t) < Ordinal(start.(year := start.year + 1))
    {
      JustBeforeIsLast(start.year + 1, start.month, t);
    }
  }

  // ---- invoices and their numbers ----

  datatype Invoice = Invoice(org: nat, number: string, scan: bool, void: bool, period: Period)

  datatype Subscription = Subscription(
    org: nat, sku: string, annual: bool, active: bool, cancelAtPeriodEnd: bool, periodEnd: Option<DateTime>)

  // `f"{n:04d}"`, `f"{n:02d}"`
  function Padded(n: nat, width: nat): string {
    PadLeft(Numeral(n, 10), width)
  }

  function PrefixOf(start: DateTime): string
    requires start.year >= 0 && start.month >= 0
  {
    "SX-" + Padded(start.year, 4) + Padded(start.month, 2) + "-"
  }

  function CountWith(invoices: seq<Invoice>, prefix: string): nat {
    if invoices == [] then 0
    else CountWith(invoices[..|invoices| - 1], prefix) + if prefix <= invoices[|invoices| - 1].number then 1 else 0
  }

  function NextNumber(invoices: seq<Invoice>, start: DateTime): string
    requires start.year >= 0 && start.month >= 0
  {
    PrefixOf(start) + Padded(CountWith(invoices, PrefixOf(start)) + 1, 4)
  }

  // ---- the renewal sweep ----

  predicate Overlaps(i: Invoice, org: nat, p: Period) {
    i.org == org && i.scan && !i.void && Ordinal(i.period.start) <= Ordinal(p.end) && Ordinal(i.period.end) >= Ordinal(p.start)
  }

  function OverlapCount(invoices: seq<Invoice>, org: nat, p: Period): nat {
    if invoices == [] then 0
    else OverlapCount(invoices[..|invoices| - 1], org, p) + if Overlaps(invoices[|invoices| - 1], org, p) then 1 else 0
  }

  predicate NumberUsed(invoices: seq<Invoice>, number: string) {
    exists k :: 0 <= k < |invoices| && invoices[k].number == number
  }

  predicate Due(s: Subscription, now: DateTime, horizon: DateTime) {
    && s.annual && s.active && !s.cancelAtPeriodEnd && s.periodEnd.Some?
    && Ordinal(s.periodEnd.value) <= Ordinal(horizon) && Ordinal(s.periodEnd.value) > Ordinal(now)
  }

  // The period a subscription's renewal covers; None where the dates leave the calendar and it raises.
  function RenewalPeriod(end: DateTime): Option<Period> {
    match NextAnnualStart(end)
    case None => None
    case Some(start) => AnnualBounds(start)
  }

  // `Aborted` is an exception: the whole run is rolled back.
  datatype Drafted = Aborted | Drafted(invoices: seq<Invoice>, created: nat, skipped: nat)

  predicate HasEnd(s: Subscription) {
    s.periodEnd.Some? && Valid(s.periodEnd.value)
  }

  predicate Ready(subs: seq<Subscription>) {
    forall k :: 0 <= k < |subs| ==> HasEnd(subs[k])
  }

  // One subscription. `priced` says whether the catalog has an invoicable scan entry for a SKU. Several
  // overlapping invoices make `scalar_one_or_none` raise; a number already used breaks the unique key.
  function Draft(invoices: seq<Invoice>, s: Subscription, priced: string -> bool): Drafted
    requires HasEnd(s)
  {
    match RenewalPeriod(s.periodEnd.value)
    case None => Aborted
    case Some(p) =>
      if !priced(s.sku) then Drafted(invoices, 0, 1)
      else
        var n := OverlapCount(invoices, s.org, p);
        if n >= 2 then Aborted
        else if n == 1 then Drafted(invoices, 0, 1)
        else if NumberUsed(invoices, NextNumber(invoices, p.start)) then Aborted
        else Drafted(invoices + [Invoice(s.org, NextNumber(invoices, p.start), true, false, p)], 1, 0)
  }

  function DraftAll(invoices: seq<Invoice>, subs: seq<Subscription>, priced: string -> bool, created: nat,
                    skipped: nat): Drafted
    requires Ready(subs)
    decreases subs
  {
    if subs == [] then Drafted(invoices, created, skipped)
    else match Draft(invoices, subs[0], priced)
      case Aborted => Aborted
      case Drafted(next, c, k) => DraftAll(next, subs[1..], priced, created + c, skipped + k)
  }

  // The query: the rows of the subscriptions table that are due, in the table's order.
  function Selected(table: seq<Subscription>, now: DateTime, horizon: DateTime): seq<Subscription> {
    if table == [] then []
    else (if Due(table[0], now, horizon) then [table[0]] else []) + Selected(table[1..], now, horizon)
  }

  lemma {:induction false} SelectedRows(table: seq<Subscription>, now: DateTime, horizon: DateTime, s: Subscription)
    ensures s in Selected(table, now, horizon) <==>
      && s in table && s.annual && s.active && !s.cancelAtPeriodEnd && s.periodEnd.Some?
      && Ordinal(now) < Ordinal(s.periodEnd.value) <= Ordinal(horizon)
  {
    if table != [] {
      SelectedRows(table[1..], now, horizon, s);
      hide Ordinal, Selected;
    }
  }

  // The subscriptions table has one row per organisation, and stores dates.
  ghost predicate SubscriptionTable(table: seq<Subscription>) {
    OnePerOrg(table) && forall k :: 0 <= k < |table| && table[k].periodEnd.Some? ==> HasEnd(table[k])
  }

  ghost predicate OnePerOrg(subs: seq<Subscription>) {
    forall i, j :: 0 <= i < j < |subs| ==> subs[i].org != subs[j].org
  }

  lemma {:induction false} SelectedTable(table: seq<Subscription>, now: DateTime, horizon: DateTime)
    requires SubscriptionTable(table)
    ensures Ready(Selected(table, now, horizon)) && OnePerOrg(Selected(table, now, horizon))
  {
    if table != [] {
      hide HasEnd;
      var rest := Selected(table[1..], now, horizon);
      SelectedTable(table[1..], now, horizon);
      forall k | 0 <= k < |rest| ensures rest[k].org != table[0].org {
        SelectedRows(table[1..], now, horizon, rest[k]);
      }
      hide Ordinal, Selected;
    }
  }

  class RenewalTask {
    var table: seq<Subscription>
    var invoices: seq<Invoice>

    // `draft_annual_renewals`
    method DraftAnnualRenewals(now: DateTime, horizon: DateTime, priced: string -> bool) returns (counts: Option<(nat, nat)>)
      requires SubscriptionTable(table)
      modifies this`invoices
      ensures Ready(Selected(table, now, horizon))
      ensures match DraftAll(old(invoices), Selected(table, now, horizon), priced, 0, 0)
        case Aborted => counts == None && invoices == old(invoices)
        case Drafted(after, created, skipped) => counts == Some((created, skipped)) && invoices == after
    {
      hide RenewalPeriod, OverlapCount, NextNumber, NumberUsed, SubscriptionTable, HasEnd, Selected;
      var subs := Selected(table, now, horizon);
      SelectedTable(table, now, horizon);
      var before := invoices;
      var created: nat, skipped: nat := 0, 0;
      for i := 0 to |subs|
        invariant Ready(subs[i..])
        invariant DraftAll(invoices, subs[i..], priced, created, skipped) == DraftAll(before, subs, priced, 0, 0)
      {
        var s := subs[i];
        assert subs[i..][0] == s && subs[i..][1..] == subs[i + 1..];
        PeriodYears(s);
        var period := RenewalPeriod(s.periodEnd.value);
        if period == None {
          invoices := before;
          return None;
        }
        if !priced(s.sku) {
          skipped := skipped + 1;
          continue;
        }
        var p := period.value;
        var n := OverlapCount(invoices, s.org, p);
        if n >= 2 {
          invoices := before;
          return None;
        }
        if n == 1 {
          skipped := skipped + 1;
          continue;
        }
        var number := NextNumber(invoices, p.start);
        if NumberUsed(invoices, number) {
          invoices := before;
          return None;
        }
        invoices := invoices + [Invoice(s.org, number, true, false, p)];
        created := created + 1;
      }
      counts := Some((created, skipped));
    }
  }

  lemma PeriodYears(s: Subscription)
    requires HasEnd(s)
    ensures s.periodEnd.Some?
    ensures RenewalPeriod(s.periodEnd.value).Some? ==>
      var p := RenewalPeriod(s.periodEnd.value).value;
      1 <= p.start.year <= 9999 && 1 <= p.start.month <= 12 && Ordinal(p.start) <= Ordinal(p.end)
  {
    if RenewalPeriod(s.periodEnd.value).Some? {
      NextPeriod(s.periodEnd.value);
    }
  }

  // ---- periods stay disjoint ----

  predicate Disjoint(a: Invoice, b: Invoice) {
    (a.org == b.org && a.scan && b.scan && !a.void && !b.void) ==>
      Ordinal(a.period.end) < Ordinal(b.period.start) || Ordinal(b.period.end) < Ordinal(a.period.start)
  }

  ghost predicate NonOverlapping(invoices: seq<Invoice>) {
    forall i, j :: 0 <= i < j < |invoices| ==> Disjoint(invoices[i], invoices[j])
  }

  lemma {:induction false} NoneOverlap(invoices: seq<Invoice>, org: nat, p: Period)
    ensures OverlapCount(invoices, org, p) == 0 <==> forall k :: 0 <= k < |invoices| ==> !Overlaps(invoices[k], org, p)
    decreases |invoices|
  {
    if invoices != [] {
      var n := |invoices| - 1;
      NoneOverlap(invoices[..n], org, p);
      hide Overlaps;
      assert forall k :: 0 <= k < n ==> invoices[..n][k] == invoices[k];
    }
  }

  lemma DraftKeepsDisjoint(invoices: seq<Invoice>, s: Subscription, priced: string -> bool)
    requires HasEnd(s) && NonOverlapping(invoices) && Draft(invoices, s, priced).Drafted?
    ensures NonOverlapping(Draft(invoices, s, priced).invoices)
  {
    var p := RenewalPeriod(s.periodEnd.value).value;
    NoneOverlap(invoices, s.org, p);
    hide RenewalPeriod, NextNumber, OverlapCount, Ordinal, NumberUsed;
  }

  // The first step of a run that commits.
  lemma FirstDraft(invoices: seq<Invoice>, subs: seq<Subscription>, priced: string -> bool, created: nat, skipped: nat)
      returns (d: Drafted, rest: seq<Subscription>)
    requires Ready(subs) && subs != [] && DraftAll(invoices, subs, priced, created, skipped).Drafted?
    ensures HasEnd(subs[0]) && d == Draft(invoices, subs[0], priced) && d.Drafted?
    ensures rest == subs[1..] && Ready(rest)
    ensures DraftAll(invoices, subs, priced, created, skipped)
         == DraftAll(d.invoices, rest, priced, created + d.created, skipped + d.skipped)
  {
    hide Draft, HasEnd;
    d, rest := Draft(invoices, subs[0], priced), subs[1..];
  }

  /** A run that commits keeps the live scan invoices of every organisation pairwise non-overlapping. */
  lemma {:induction false} RunKeepsDisjoint(invoices: seq<Invoice>, subs: seq<Subscription>, priced: string -> bool,
                                            created: nat, skipped: nat)
    requires Ready(subs) && NonOverlapping(invoices) && DraftAll(invoices, subs, priced, created, skipped).Drafted?
    ensures NonOverlapping(DraftAll(invoices, subs, priced, created, skipped).invoices)
    decreases subs
  {
    if subs != [] {
      var d, rest := FirstDraft(invoices, subs, priced, created, skipped);
      hide *;
      DraftKeepsDisjoint(invoices, subs[0], priced);
      RunKeepsDisjoint(d.invoices, rest, priced, created + d.created, skipped + d.skipped);
    }
  }

  // ---- a second run ----

  // How the renewal of a subscription stands: what its overlap query finds.
  function Covered(invoices: seq<Invoice>, s: Subscription): nat
    requires HasEnd(s) && RenewalPeriod(s.periodEnd.value).Some?
  {
    OverlapCount(invoices, s.org, RenewalPeriod(s.periodEnd.value).value)
  }

  lemma OverlapAppend(invoices: seq<Invoice>, i: Invoice, org: nat, p: Period)
    ensures OverlapCount(invoices + [i], org, p) == OverlapCount(invoices, org, p) + if Overlaps(i, org, p) then 1 else 0
  {
    assert (invoices + [i])[..|invoices|] == invoices;
  }

  // Processing one subscription covers it, and leaves the others' overlap queries alone.
  lemma DraftCovers(invoices: seq<Invoice>, s: Subscription, priced: string -> bool, org: nat, p: Period)
    requires HasEnd(s) && Draft(invoices, s, priced).Drafted?
    ensures var d := Draft(invoices, s, priced);
      && RenewalPeriod(s.periodEnd.value).Some?
      && (priced(s.sku) ==> Covered(d.invoices, s) == 1)
      && (org != s.org ==> OverlapCount(d.invoices, org, p) == OverlapCount(invoices, org, p))
  {
    var q := RenewalPeriod(s.periodEnd.value).value;
    var i := Invoice(s.org, NextNumber(invoices, q.start), true, false, q);
    PeriodYears(s);
    OverlapAppend(invoices, i, s.org, q);
    OverlapAppend(invoices, i, org, p);
    hide RenewalPeriod, NextNumber, OverlapCount, Ordinal, NumberUsed, Valid;
  }

  lemma {:induction false} RunLeavesOthers(invoices: seq<Invoice>, subs: seq<Subscription>, priced: string -> bool,
                                           created: nat, skipped: nat, org: nat, p: Period)
    requires Ready(subs) && DraftAll(invoices, subs, priced, created, skipped).Drafted?
    requires forall k :: 0 <= k < |subs| ==> subs[k].org != org
    ensures OverlapCount(DraftAll(invoices, subs, priced, created, skipped).invoices, org, p)
         == OverlapCount(invoices, org, p)
    decreases subs
  {
    if subs != [] {
      var d, rest := FirstDraft(invoices, subs, priced, created, skipped);
      hide *;
      DraftCovers(invoices, subs[0], priced, org, p);
      RunLeavesOthers(d.invoices, rest, priced, created + d.created, skipped + d.skipped, org, p);
    }
  }

  // After a run, each of its subscriptions is covered once, or has no catalog entry.
  ghost predicate Settled(invoices: seq<Invoice>, s: Subscription, priced: string -> bool) {
    && HasEnd(s) && RenewalPeriod(s.periodEnd.value).Some?
    && (priced(s.sku) ==> Covered(invoices, s) == 1)
  }

  lemma {:induction false} RunSettles(invoices: seq<Invoice>, subs: seq<Subscription>, priced: string -> bool,
                                      created: nat, skipped: nat, k: nat)
    requires Ready(subs) && DraftAll(invoices, subs, priced, created, skipped).Drafted? && OnePerOrg(subs) && k < |subs|
    ensures Settled(DraftAll(invoices, subs, priced, created, skipped).invoices, subs[k], priced)
    decreases subs
  {
    hide Draft, OverlapCount, RenewalPeriod, Valid, DraftAll;
    var s := subs[0];
    var d, rest := FirstDraft(invoices, subs, priced, created, skipped);
    if k == 0 {
      var p := RenewalPeriod(s.periodEnd.value);
      DraftCovers(invoices, s, priced, s.org, Period(s.periodEnd.value, s.periodEnd.value));
      RunLeavesOthers(d.invoices, rest, priced, created + d.created, skipped + d.skipped, s.org, p.value);
    } else {
      assert rest[k - 1] == subs[k];
      RunSettles(d.invoices, rest, priced, created + d.created, skipped + d.skipped, k - 1);
    }
  }

  lemma {:induction false} NothingLeftToDraft(invoices: seq<Invoice>, subs: seq<Subscription>, priced: string -> bool,
                                              created: nat, skipped: nat)
    requires Ready(subs) && forall k :: 0 <= k < |subs| ==> Settled(invoices, subs[k], priced)
    ensures DraftAll(invoices, subs, priced, created, skipped) == Drafted(invoices, created, skipped + |subs|)
    decreases subs
  {
    if subs != [] {
      hide OverlapCount, RenewalPeriod, HasEnd, NextNumber, NumberUsed;
      assert Draft(invoices, subs[0], priced) == Drafted(invoices, 0, 1);
      hide Draft, Settled;
      NothingLeftToDraft(invoices, subs[1..], priced, created, skipped + 1);
    }
  }

  /** A later run over any of the subscriptions of an earlier one, with its drafts still live, creates
      nothing and skips them all. */
  lemma SecondRunCreatesNothing(invoices: seq<Invoice>, subs: seq<Subscription>, again: seq<Subscription>,
                                priced: string -> bool)
    requires Ready(subs) && OnePerOrg(subs) && DraftAll(invoices, subs, priced, 0, 0).Drafted?
    requires Ready(again) && forall k :: 0 <= k < |again| ==> again[k] in subs
    ensures var after := DraftAll(invoices, subs, priced, 0, 0).invoices;
      DraftAll(after, again, priced, 0, 0) == Drafted(after, 0, |again|)
  {
    hide Settled, DraftAll, Ready;
    var after := DraftAll(invoices, subs, priced, 0, 0).invoices;
    forall k | 0 <= k < |again| ensures Settled(after, again[k], priced) {
      var j :| 0 <= j < |subs| && subs[j] == again[k];
      RunSettles(invoices, subs, priced, 0, 0, j);
    }
    NothingLeftToDraft(after, again, priced, 0, 0);
  }

  // ---- numbers ----

  lemma {:induction false} ReadZeros(s: string, width: nat)
    requires ReadNumeral(s, 10).Some?
    ensures ReadNumeral(PadLeft(s, width), 10) == ReadNumeral(s, 10)
    decreases width - |s|
  {
    if |s| < width {
      ReadZero(s);
      ReadZeros("0" + s, width);
    }
  }

  lemma {:induction false} ReadZero(s: string)
    requires ReadNumeral(s, 10).Some?
    ensures ReadNumeral("0" + s, 10) == ReadNumeral(s, 10)
    decreases |s|
  {
    var t, n := "0" + s, |s| - 1;
    assert t[..|t| - 1] == "0" + s[..n];
    if |s| == 1 {
      assert t[..1] == "0";
      assert ReadNumeral("0", 10) == Some(0);
    } else {
      ReadZero(s[..n]);
    }
  }

  lemma PaddedInjective(a: nat, b: nat, width: nat)
    requires Padded(a, width) == Padded(b, width)
    ensures a == b
  {
    NumeralRoundTrip(a, 10);
    NumeralRoundTrip(b, 10);
    hide Numeral, ReadNumeral;
    ReadZeros(Numeral(a, 10), width);
    ReadZeros(Numeral(b, 10), width);
  }

  // The numbers under a prefix are `prefix` + 1..k, one each.
  ghost predicate Dense(invoices: seq<Invoice>, prefix: string) {
    && (forall i :: 0 <= i < |invoices| && prefix <= invoices[i].number ==>
          Issued(invoices[i].number, prefix, CountWith(invoices, prefix)))
    && (forall i, j :: 0 <= i < j < |invoices| && prefix <= invoices[i].number ==>
          invoices[i].number != invoices[j].number)
  }

  ghost predicate Issued(number: string, prefix: string, upTo: nat) {
    exists n: nat :: 1 <= n <= upTo && number == prefix + Padded(n, 4)
  }

  lemma IssuedMore(number: string, prefix: string, upTo: nat, more: nat)
    requires Issued(number, prefix, upTo) && upTo <= more
    ensures Issued(number, prefix, more)
  {
  }

  lemma NextIsFresh(prefix: string, upTo: nat, number: string)
    requires Issued(number, prefix, upTo)
    ensures number != prefix + Padded(upTo + 1, 4)
  {
    var n: nat :| 1 <= n <= upTo && number == prefix + Padded(n, 4);
    if number == prefix + Padded(upTo + 1, 4) {
      hide Padded;
      SuffixEqual(prefix, Padded(n, 4), Padded(upTo + 1, 4));
      PaddedInjective(n, upTo + 1, 4);
    }
  }

  lemma SuffixEqual(p: string, a: string, b: string)
    requires p + a == p + b
    ensures a == b
  {
    assert (p + a)[|p|..] == a && (p + b)[|p|..] == b;
  }

  lemma CountAppend(invoices: seq<Invoice>, i: Invoice, prefix: string)
    ensures CountWith(invoices + [i], prefix) == CountWith(invoices, prefix) + if prefix <= i.number then 1 else 0
  {
    assert (invoices + [i])[..|invoices|] == invoices;
  }

  // Issuing the next number under one prefix.
  lemma IssueKeepsDense(invoices: seq<Invoice>, i: Invoice, prefix: string)
    requires Dense(invoices, prefix) && i.number == prefix + Padded(CountWith(invoices, prefix) + 1, 4)
    ensures !NumberUsed(invoices, i.number) && Dense(invoices + [i], prefix)
  {
    var k, after := CountWith(invoices, prefix), invoices + [i];
    CountAppend(invoices, i, prefix);
    hide Padded, CountWith;
    forall j | 0 <= j < |invoices| && prefix <= invoices[j].number
      ensures invoices[j].number != i.number && Issued(invoices[j].number, prefix, k + 1)
    {
      NextIsFresh(prefix, k, invoices[j].number);
      IssuedMore(invoices[j].number, prefix, k, k + 1);
    }
    assert prefix <= i.number;
    assert Issued(i.number, prefix, k + 1);
  }

  // A number under one prefix leaves the others alone.
  lemma OtherPrefixKeepsDense(invoices: seq<Invoice>, i: Invoice, prefix: string)
    requires Dense(invoices, prefix) && !(prefix <= i.number)
    ensures Dense(invoices + [i], prefix)
  {
    CountAppend(invoices, i, prefix);
    hide CountWith, Issued;
  }

  // ---- prefixes ----

  lemma {:induction false} NumeralLength(n: nat, width: nat)
    requires width >= 1 && n < Pow10(width)
    ensures |Numeral(n, 10)| <= width
    decreases width
  {
    if n >= 10 {
      if width > 1 {
        NumeralLength(n / 10, width - 1);
      }
    }
  }

  function Pow10(width: nat): nat {
    if width == 0 then 1 else 10 * Pow10(width - 1)
  }

  lemma {:induction false} PadLength(s: string, width: nat)
    requires |s| <= width
    ensures |PadLeft(s, width)| == width
    decreases width - |s|
  {
    if |s| < width {
      PadLength("0" + s, width);
    }
  }

  lemma PaddedLength(n: nat, width: nat)
    requires width >= 1 && n < Pow10(width)
    ensures |Padded(n, width)| == width
  {
    NumeralLength(n, width);
    PadLength(Numeral(n, 10), width);
  }

  lemma Pow10Values()
    ensures Pow10(2) == 100 && Pow10(4) == 10000
  {
    assert Pow10(1) == 10 && Pow10(3) == 1000;
  }

  predicate InCalendar(t: DateTime) {
    1 <= t.year <= 9999 && 1 <= t.month <= 12
  }

  // Prefixes are all ten characters long, so a number has one prefix at most.
  lemma PrefixesApart(a: DateTime, b: DateTime, suffix: string)
    requires InCalendar(a) && InCalendar(b) && PrefixOf(b) <= PrefixOf(a) + suffix
    ensures PrefixOf(a) == PrefixOf(b)
  {
    Pow10Values();
    hide Pow10, Padded;
    PaddedLength(a.year, 4);
    PaddedLength(a.month, 2);
    PaddedLength(b.year, 4);
    PaddedLength(b.month, 2);
    var x, y := PrefixOf(a), PrefixOf(b);
    assert (x + suffix)[..10] == x;
  }

  ghost predicate AllDense(invoices: seq<Invoice>) {
    forall t: DateTime :: InCalendar(t) ==> Dense(invoices, PrefixOf(t))
  }

  // What aborts a run while numbers are dense.
  predicate Blocked(invoices: seq<Invoice>, s: Subscription, priced: string -> bool)
    requires HasEnd(s)
  {
    RenewalPeriod(s.periodEnd.value).None? || (priced(s.sku) && Covered(invoices, s) >= 2)
  }

  lemma DraftKeepsDense(invoices: seq<Invoice>, s: Subscription, priced: string -> bool)
    requires HasEnd(s) && AllDense(invoices)
    ensures var d := Draft(invoices, s, priced);
      (d.Aborted? <==> Blocked(invoices, s, priced)) && (d.Drafted? ==> AllDense(d.invoices))
  {
    hide RenewalPeriod, NextNumber, OverlapCount, NumberUsed, AllDense, Valid, Ordinal;
    var period := RenewalPeriod(s.periodEnd.value);
    if period.Some? {
      PeriodYears(s);
      var start := period.value.start;
      NumberedDraft(invoices, Invoice(s.org, NextNumber(invoices, start), true, false, period.value));
    }
  }

  lemma NumberedDraft(invoices: seq<Invoice>, i: Invoice)
    requires AllDense(invoices) && InCalendar(i.period.start) && i.number == NextNumber(invoices, i.period.start)
    ensures !NumberUsed(invoices, i.number) && AllDense(invoices + [i])
  {
    var start := i.period.start;
    hide PrefixOf, Padded, CountWith, Dense, NumberUsed;
    IssueKeepsDense(invoices, i, PrefixOf(start));
    forall t: DateTime | InCalendar(t) ensures Dense(invoices + [i], PrefixOf(t)) {
      if PrefixOf(t) != PrefixOf(start) {
        if PrefixOf(t) <= i.number {
          PrefixesApart(start, t, Padded(CountWith(invoices, PrefixOf(start)) + 1, 4));
        }
        OtherPrefixKeepsDense(invoices, i, PrefixOf(t));
      }
    }
  }

  lemma BlockedByItsOwn(invoices: seq<Invoice>, s: Subscription, other: Subscription, priced: string -> bool)
    requires HasEnd(s) && HasEnd(other) && s.org != other.org && Draft(invoices, s, priced).Drafted?
    ensures Blocked(Draft(invoices, s, priced).invoices, other, priced) <==> Blocked(invoices, other, priced)
  {
    hide Draft, OverlapCount, RenewalPeriod, Valid;
    var period := RenewalPeriod(other.periodEnd.value);
    if period.Some? {
      DraftCovers(invoices, s, priced, other.org, period.value);
    }
  }

  ghost predicate SomeBlocked(invoices: seq<Invoice>, subs: seq<Subscription>, priced: string -> bool)
    requires Ready(subs)
  {
    exists k :: 0 <= k < |subs| && Blocked(invoices, subs[k], priced)
  }

  // Whether the rest of a run is blocked does not depend on its first draft.
  lemma BlockedStep(invoices: seq<Invoice>, subs: seq<Subscription>, priced: string -> bool)
    requires Ready(subs) && OnePerOrg(subs) && subs != []
    requires Draft(invoices, subs[0], priced).Drafted? && !Blocked(invoices, subs[0], priced)
    ensures OnePerOrg(subs[1..]) && Ready(subs[1..])
    ensures SomeBlocked(invoices, subs, priced) <==>
            SomeBlocked(Draft(invoices, subs[0], priced).invoices, subs[1..], priced)
  {
    hide Draft, Blocked, HasEnd;
    var rest := subs[1..];
    var next := Draft(invoices, subs[0], priced).invoices;
    forall k | 0 <= k < |rest| ensures Blocked(next, rest[k], priced) <==> Blocked(invoices, subs[k + 1], priced) {
      BlockedByItsOwn(invoices, subs[0], rest[k], priced);
    }
    if k :| 0 <= k < |subs| && Blocked(invoices, subs[k], priced) {
      assert Blocked(next, rest[k - 1], priced);
    }
  }

  /** While numbers are dense under every prefix, every number a run issues is fresh and density is
      kept, so a run is aborted exactly when some renewal leaves the calendar or finds several
      overlapping invoices at the start. */
  lemma {:induction false} NumbersStayDense(invoices: seq<Invoice>, subs: seq<Subscription>, priced: string -> bool,
                                            created: nat, skipped: nat)
    requires Ready(subs) && OnePerOrg(subs) && AllDense(invoices)
    ensures var d := DraftAll(invoices, subs, priced, created, skipped);
      && (d.Aborted? <==> SomeBlocked(invoices, subs, priced))
      && (d.Drafted? ==> AllDense(d.invoices))
    decreases subs
  {
    hide Draft, AllDense, HasEnd, Blocked, OnePerOrg;
    if subs != [] {
      DraftKeepsDense(invoices, subs[0], priced);
      var d := Draft(invoices, subs[0], priced);
      if d.Drafted? {
        BlockedStep(invoices, subs, priced);
        hide SomeBlocked;
        NumbersStayDense(d.invoices, subs[1..], priced, created + d.created, skipped + d.skipped);
      }
    }
  }

  lemma PaddedTwo()
    ensures Padded(2, 4) == "0002"
  {
    assert Numeral(2, 10) == "2";
    hide Numeral;
    assert "0" + "2" == "02" && "0" + "02" == "002" && "0" + "002" == "0002";
    assert PadLeft("0002", 4) == "0002";
    assert PadLeft("002", 4) == "0002";
    assert PadLeft("02", 4) == "0002";
  }
}
