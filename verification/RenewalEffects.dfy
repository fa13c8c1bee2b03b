/** What a renewal run drafts, from the dates and the invoices alone. */
module RenewalEffects {
  import opened Common
  import opened Text
  import opened Renewals

  // ---- the period ----

  function LastDay(year: int, month: int): int {
    if month == 2 then
      (if year % 400 == 0 || (year % 4 == 0 && year % 100 != 0) then 29 else 28)
    else if month in {4, 6, 9, 11} then 30
    else 31
  }

  /** The renewal of a period that ends in a month covers the twelve months after that month, to the last microsecond.
      There is none exactly where those months do not fit in the calendar, which ends with the year 9999. */
  lemma PeriodIs(end: DateTime)
    requires Valid(end)
    ensures RenewalPeriod(end).None? <==> end.year == 9999 || (end.year == 9998 && end.month == 12)
    ensures RenewalPeriod(end).Some? ==>
      RenewalPeriod(end).value
      == if end.month == 12
         then Period(DateTime(end.year + 1, 1, 1, 0), DateTime(end.year + 1, 12, 31, 86_400_000_000 - 1))
         else Period(DateTime(end.year, end.month + 1, 1, 0),
                     DateTime(end.year + 1, end.month, LastDay(end.year + 1, end.month), 86_400_000_000 - 1))
  {
  }

  // ---- which renewals are drafted ----

  // A live scan invoice of the organisation shares a moment with the period.
  ghost predicate Clashes(i: Invoice, org: nat, p: Period) {
    && i.org == org && i.scan && !i.void
    && Ordinal(i.period.start) <= Ordinal(p.end) && Ordinal(p.start) <= Ordinal(i.period.end)
  }

  ghost predicate Billed(invoices: seq<Invoice>, org: nat, p: Period) {
    exists k :: 0 <= k < |invoices| && Clashes(invoices[k], org, p)
  }

  ghost predicate BilledTwice(invoices: seq<Invoice>, org: nat, p: Period) {
    exists i, j :: 0 <= i < j < |invoices| && Clashes(invoices[i], org, p) && Clashes(invoices[j], org, p)
  }

  lemma {:induction false} OverlapIs(invoices: seq<Invoice>, org: nat, p: Period)
    ensures OverlapCount(invoices, org, p) >= 1 <==> Billed(invoices, org, p)
    ensures OverlapCount(invoices, org, p) >= 2 <==> BilledTwice(invoices, org, p)
    decreases |invoices|
  {
    if invoices != [] {
      var n := |invoices| - 1;
      var front := invoices[..n];
      OverlapIs(front, org, p);
      assert Overlaps(invoices[n], org, p) <==> Clashes(invoices[n], org, p);
      hide Overlaps, Clashes;
      assert forall i :: 0 <= i < n ==> front[i] == invoices[i];
      if BilledTwice(invoices, org, p) && !BilledTwice(front, org, p) {
        var i, j :| 0 <= i < j < |invoices| && Clashes(invoices[i], org, p) && Clashes(invoices[j], org, p);
        assert j == n && Clashes(front[i], org, p);
      }
      if Clashes(invoices[n], org, p) && Billed(front, org, p) {
        var i :| 0 <= i < n && Clashes(front[i], org, p);
        assert Clashes(invoices[i], org, p) && i < n;
      }
    }
  }

  // The subscription can be renewed, has a price, and is not billed for the period yet.
  ghost predicate Wants(invoices: seq<Invoice>, s: Subscription, priced: string -> bool)
    requires HasEnd(s)
  {
    RenewalPeriod(s.periodEnd.value).Some? && priced(s.sku) && !Billed(invoices, s.org, RenewalPeriod(s.periodEnd.value).value)
  }

  ghost function Wanting(invoices: seq<Invoice>, subs: seq<Subscription>, priced: string -> bool): (r: seq<Subscription>)
    requires Ready(subs)
    ensures forall k :: 0 <= k < |r| ==> HasEnd(r[k]) && RenewalPeriod(r[k].periodEnd.value).Some?
    decreases subs
  {
    if subs == [] then []
    else (if Wants(invoices, subs[0], priced) then [subs[0]] else []) + Wanting(invoices, subs[1..], priced)
  }

  // The drafts of these subscriptions, in order.
  ghost predicate DraftsOf(drafts: seq<Invoice>, subs: seq<Subscription>) {
    && |drafts| == |subs|
    && forall k :: 0 <= k < |drafts| ==>
         && HasEnd(subs[k]) && RenewalPeriod(subs[k].periodEnd.value).Some?
         && drafts[k].org == subs[k].org && drafts[k].scan && !drafts[k].void
         && drafts[k].period == RenewalPeriod(subs[k].periodEnd.value).value
  }

  // A draft of another organisation changes nothing for a subscription.
  lemma WantsStays(invoices: seq<Invoice>, i: Invoice, s: Subscription, priced: string -> bool)
    requires HasEnd(s) && i.org != s.org
    ensures Wants(invoices + [i], s, priced) <==> Wants(invoices, s, priced)
  {
    var after := invoices + [i];
    assert forall k :: 0 <= k < |invoices| ==> after[k] == invoices[k];
    hide RenewalPeriod, HasEnd, Ordinal;
    if RenewalPeriod(s.periodEnd.value).Some? {
      var p := RenewalPeriod(s.periodEnd.value).value;
      if Billed(invoices, s.org, p) {
        var k :| 0 <= k < |invoices| && Clashes(invoices[k], s.org, p);
        assert Clashes(after[k], s.org, p);
      }
    }
  }

  lemma {:induction false} WantingStays(invoices: seq<Invoice>, i: Invoice, subs: seq<Subscription>, priced: string -> bool)
    requires Ready(subs) && forall k :: 0 <= k < |subs| ==> subs[k].org != i.org
    ensures Wanting(invoices + [i], subs, priced) == Wanting(invoices, subs, priced)
    decreases subs
  {
    if subs != [] {
      WantsStays(invoices, i, subs[0], priced);
      hide Wants, HasEnd;
      WantingStays(invoices, i, subs[1..], priced);
    }
  }

  // One subscription of a run that commits.
  lemma DraftIs(invoices: seq<Invoice>, s: Subscription, priced: string -> bool)
    requires HasEnd(s) && Draft(invoices, s, priced).Drafted?
    ensures var d := Draft(invoices, s, priced);
      if Wants(invoices, s, priced)
      then RenewalPeriod(s.periodEnd.value).Some? &&
           d.created == 1 && d.skipped == 0 && |d.invoices| == |invoices| + 1 && d.invoices[..|invoices|] == invoices
           && var i := d.invoices[|invoices|];
              i.org == s.org && i.scan && !i.void && i.period == RenewalPeriod(s.periodEnd.value).value
      else d == Drafted(invoices, 0, 1)
  {
    if RenewalPeriod(s.periodEnd.value).Some? {
      OverlapIs(invoices, s.org, RenewalPeriod(s.periodEnd.value).value);
    }
    hide RenewalPeriod, OverlapCount, Billed, NumberUsed, NextNumber, Ordinal, Valid;
  }

  lemma RestApart(subs: seq<Subscription>)
    requires OnePerOrg(subs) && subs != []
    ensures OnePerOrg(subs[1..]) && forall k :: 0 <= k < |subs[1..]| ==> subs[1..][k].org != subs[0].org
  {
  }

  /** What a run that commits drafts: exactly one invoice for each subscription that has a price and no live scan invoice
      of its organisation sharing a moment with its renewal period, judged on the invoices the run started from; for its
      organisation and that period, in the order of the subscriptions, after the invoices there were. The others are
      counted as skipped. */
  lemma {:induction false} RunDrafts(invoices: seq<Invoice>, subs: seq<Subscription>, priced: string -> bool,
                                     created: nat, skipped: nat)
    requires Ready(subs) && OnePerOrg(subs) && DraftAll(invoices, subs, priced, created, skipped).Drafted?
    ensures var d, wanting := DraftAll(invoices, subs, priced, created, skipped), Wanting(invoices, subs, priced);
      && |invoices| <= |d.invoices| && d.invoices[..|invoices|] == invoices
      && DraftsOf(d.invoices[|invoices|..], wanting)
      && d.created == created + |wanting| && d.skipped == skipped + |subs| - |wanting|
    decreases subs
  {
    hide *;
    if subs == [] {
      NothingDrafted(invoices, priced, created, skipped);
    } else {
      var d, rest := FirstDraft(invoices, subs, priced, created, skipped);
      var s := subs[0];
      DraftIs(invoices, s, priced);
      RestApart(subs);
      RunDrafts(d.invoices, rest, priced, created + d.created, skipped + d.skipped);
      WantingFirst(invoices, subs, priced);
      if Wants(invoices, s, priced) {
        var i := d.invoices[|invoices|];
        OneAppended(d.invoices, invoices, i);
        WantingStays(invoices, i, rest, priced);
        MoreDrafts(invoices, i, DraftAll(d.invoices, rest, priced, created + d.created, skipped + d.skipped).invoices, s,
                   Wanting(invoices, rest, priced));
      }
    }
  }

  lemma NothingDrafted(invoices: seq<Invoice>, priced: string -> bool, created: nat, skipped: nat)
    ensures Ready([]) && Wanting(invoices, [], priced) == []
    ensures DraftAll(invoices, [], priced, created, skipped) == Drafted(invoices, created, skipped)
    ensures invoices[..|invoices|] == invoices && DraftsOf(invoices[|invoices|..], [])
  {
  }

  lemma WantingFirst(invoices: seq<Invoice>, subs: seq<Subscription>, priced: string -> bool)
    requires Ready(subs) && subs != []
    ensures HasEnd(subs[0]) && Ready(subs[1..])
    ensures Wanting(invoices, subs, priced)
         == if Wants(invoices, subs[0], priced) then [subs[0]] + Wanting(invoices, subs[1..], priced)
            else Wanting(invoices, subs[1..], priced)
  {
    hide Wants;
    assert [] + Wanting(invoices, subs[1..], priced) == Wanting(invoices, subs[1..], priced);
  }

  lemma OneAppended(after: seq<Invoice>, before: seq<Invoice>, i: Invoice)
    requires |after| == |before| + 1 && after[..|before|] == before && after[|before|] == i
    ensures after == before + [i]
  {
  }

  lemma MoreDrafts(invoices: seq<Invoice>, i: Invoice, after: seq<Invoice>, s: Subscription, wanting: seq<Subscription>)
    requires HasEnd(s) && RenewalPeriod(s.periodEnd.value).Some?
    requires i.org == s.org && i.scan && !i.void && i.period == RenewalPeriod(s.periodEnd.value).value
    requires |invoices| + 1 <= |after| && after[..|invoices| + 1] == invoices + [i]
    requires DraftsOf(after[|invoices| + 1..], wanting)
    ensures after[..|invoices|] == invoices && DraftsOf(after[|invoices|..], [s] + wanting)
  {
    hide RenewalPeriod, HasEnd;
    var n := |invoices|;
    assert after[..n] == after[..n + 1][..n] && after[n] == after[..n + 1][n];
    assert after[n..] == [i] + after[n + 1..];
  }

  // ---- the number ----

  lemma PaddedReads(n: nat, width: nat)
    ensures ReadNumeral(Padded(n, width), 10) == Some(n)
  {
    NumeralRoundTrip(n, 10);
    hide Numeral, ReadNumeral;
    ReadZeros(Numeral(n, 10), width);
  }

  /** An invoice number spells "SX-", the year in four digits and the month in two, "-", and one more than the number of
      invoices whose number starts that way. */
  lemma NumberSpells(invoices: seq<Invoice>, start: DateTime)
    requires 1 <= start.year <= 9999 && 1 <= start.month <= 12
    ensures var number := NextNumber(invoices, start);
      && |number| >= 10 && number[..3] == "SX-" && number[9] == '-'
      && ReadNumeral(number[3..7], 10) == Some(start.year) && ReadNumeral(number[7..9], 10) == Some(start.month)
      && ReadNumeral(number[10..], 10) == Some(CountWith(invoices, number[..10]) + 1)
  {
    hide *;
    var y, m, prefix := Padded(start.year, 4), Padded(start.month, 2), PrefixOf(start);
    var n := CountWith(invoices, prefix) + 1;
    NumberIs(invoices, start);
    PaddedReads(start.year, 4);
    PaddedReads(start.month, 2);
    PaddedReads(n, 4);
    PrefixParts(y, m, prefix);
    NumberParts(prefix, Padded(n, 4));
  }

  lemma NumberIs(invoices: seq<Invoice>, start: DateTime)
    requires 1 <= start.year <= 9999 && 1 <= start.month <= 12
    ensures |Padded(start.year, 4)| == 4 && |Padded(start.month, 2)| == 2
    ensures PrefixOf(start) == "SX-" + Padded(start.year, 4) + Padded(start.month, 2) + "-"
    ensures NextNumber(invoices, start) == PrefixOf(start) + Padded(CountWith(invoices, PrefixOf(start)) + 1, 4)
  {
    hide *;
    FourAndTwo(start.year, start.month);
    PrefixIs(start);
    NextIs(invoices, start);
  }

  lemma PrefixIs(start: DateTime)
    requires start.year >= 0 && start.month >= 0
    ensures PrefixOf(start) == "SX-" + Padded(start.year, 4) + Padded(start.month, 2) + "-"
  {
    hide Padded;
  }

  lemma NextIs(invoices: seq<Invoice>, start: DateTime)
    requires start.year >= 0 && start.month >= 0
    ensures NextNumber(invoices, start) == PrefixOf(start) + Padded(CountWith(invoices, PrefixOf(start)) + 1, 4)
  {
    hide Padded, CountWith, PrefixOf;
  }

  lemma FourAndTwo(year: nat, month: nat)
    requires year <= 9999 && month <= 12
    ensures |Padded(year, 4)| == 4 && |Padded(month, 2)| == 2
  {
    Pow10Values();
    hide *;
    PaddedLength(year, 4);
    PaddedLength(month, 2);
  }

  lemma PrefixParts(y: string, m: string, prefix: string)
    requires |y| == 4 && |m| == 2 && prefix == "SX-" + y + m + "-"
    ensures |prefix| == 10 && prefix[..3] == "SX-" && prefix[3..7] == y && prefix[7..9] == m && prefix[9] == '-'
  {
  }

  lemma NumberParts(prefix: string, suffix: string)
    requires |prefix| == 10
    ensures var number := prefix + suffix;
      && number[..10] == prefix && number[10..] == suffix && number[..3] == prefix[..3] && number[3..7] == prefix[3..7]
      && number[7..9] == prefix[7..9] && number[9] == prefix[9]
  {
  }
}
