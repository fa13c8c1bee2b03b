/** Invoice reminders: the stage policy (`backend/app/services/billing_reminders.py`) and the hourly
    sweep over the reminder ledger (`workers/tasks/billing.py`). Times are seconds. */
module Reminders {
  import opened Common

  datatype Stage = DueSoon | DueToday | Overdue1 | Overdue2 | Final | SuspendNotice

  const MAX_ATTEMPTS: nat := 3

  // ---- stage policy ----

  datatype Entry = Entry(stage: Stage, offset: int)

  const STAGES: seq<Entry> :=
    [Entry(DueSoon, -3), Entry(DueToday, 0), Entry(Overdue1, 3), Entry(Overdue2, 7), Entry(Final, 14),
     Entry(SuspendNotice, 30)]

  function Rank(s: Stage): (r: nat)
    ensures 1 <= r <= 6 && STAGES[r - 1].stage == s
  {
    match s
    case DueSoon => 1
    case DueToday => 2
    case Overdue1 => 3
    case Overdue2 => 4
    case Final => 5
    case SuspendNotice => 6
  }

  function RankOf(s: Option<Stage>): nat {
    match s case None => 0 case Some(stage) => Rank(stage)
  }

  // `.date()` of a UTC time, as a day number.
  function Day(t: int): int {
    t / 86400
  }

  // The last of the first `n` stages whose offset has been reached.
  function LastReached(n: nat, days: int): Option<Stage>
    requires n <= |STAGES|
  {
    if n == 0 then None
    else if days >= STAGES[n - 1].offset then Some(STAGES[n - 1].stage)
    else LastReached(n - 1, days)
  }

  function DueStage(due: int, now: int): Option<Stage> {
    LastReached(|STAGES|, Day(now) - Day(due))
  }

  method ComputeDueStage(due: int, now: int) returns (candidate: Option<Stage>)
    ensures candidate == DueStage(due, now)
  {
    var days := Day(now) - Day(due);
    candidate := None;
    for i := 0 to |STAGES|
      invariant candidate == LastReached(i, days)
    {
      if days >= STAGES[i].offset {
        candidate := Some(STAGES[i].stage);
      }
    }
  }

  function FirstContactStage(due: int, now: int, sentAt: Option<int>): Option<Stage> {
    var stage := DueStage(due, now);
    if stage.Some? && sentAt.Some? && Day(sentAt.value) > Day(due) && Rank(stage.value) > Rank(Overdue1)
    then Some(Overdue1) else stage
  }

  lemma StageRanks()
    ensures forall i :: 0 <= i < |STAGES| ==> Rank(STAGES[i].stage) == i + 1
    ensures forall i, j :: 0 <= i < j < |STAGES| ==> STAGES[i].offset < STAGES[j].offset
  {
    assert STAGES[0] == Entry(DueSoon, -3) && STAGES[1] == Entry(DueToday, 0) && STAGES[2] == Entry(Overdue1, 3);
    assert STAGES[3] == Entry(Overdue2, 7) && STAGES[4] == Entry(Final, 14) && STAGES[5] == Entry(SuspendNotice, 30);
  }

  // How many stages have come due.
  lemma {:induction false} LastReachedRank(n: nat, days: int)
    requires n <= |STAGES|
    ensures RankOf(LastReached(n, days)) <= n
    ensures forall i :: 0 <= i < n ==> (i < RankOf(LastReached(n, days)) <==> days >= STAGES[i].offset)
  {
    StageRanks();
    hide Rank;
    if n > 0 {
      LastReachedRank(n - 1, days);
    }
  }

  /** The stage due never goes back as time passes. */
  lemma StageAdvances(due: int, t1: int, t2: int)
    requires t1 <= t2
    ensures RankOf(DueStage(due, t1)) <= RankOf(DueStage(due, t2))
  {
    var d1, d2 := Day(t1) - Day(due), Day(t2) - Day(due);
    assert d1 <= d2;
    LastReachedRank(|STAGES|, d1);
    LastReachedRank(|STAGES|, d2);
    var r := RankOf(DueStage(due, t1));
    if r > 0 {
      assert d1 >= STAGES[r - 1].offset;
      assert r - 1 < RankOf(DueStage(due, t2));
    }
  }

  // ---- the ledger and the sweep ----

  datatype Invoice = Invoice(id: nat, due: int, sentAt: Option<int>)

  datatype Row = Row(
    invoice: nat, stage: Stage, rank: nat, attempts: nat, sent: nat, failed: nat,
    lastError: Option<string>, updatedAt: int)

  // One call of `_send_all`.
  datatype Mail = Mail(invoice: nat, stage: Stage, sent: nat)

  datatype State = State(rows: seq<Row>, mails: seq<Mail>)

  datatype Outcome = Outcome(sent: nat, failed: nat, error: string)

  // What one sweep meets outside: who has recipients, and how the mails fare.
  datatype World = World(reachable: nat -> bool, deliver: (nat, Stage) -> Outcome)

  predicate HasRows(rows: seq<Row>, invoice: nat) {
    exists k :: 0 <= k < |rows| && rows[k].invoice == invoice
  }

  // `max(row.stage_rank ..., default=0)`
  function MaxRank(rows: seq<Row>, invoice: nat): (r: nat)
    ensures forall k :: 0 <= k < |rows| && rows[k].invoice == invoice ==> rows[k].rank <= r
    ensures r == 0 || exists k :: 0 <= k < |rows| && rows[k].invoice == invoice && rows[k].rank == r
  {
    if rows == [] then 0
    else
      var n := |rows| - 1;
      var rest := MaxRank(rows[..n], invoice);
      assert forall k :: 0 <= k < n ==> rows[..n][k] == rows[k];
      if rows[n].invoice == invoice && rows[n].rank > rest then rows[n].rank else rest
  }

  // The invoice's row for a stage, by position.
  function Find(rows: seq<Row>, invoice: nat, stage: Stage): (r: Option<nat>)
    ensures r.Some? ==> r.value < |rows| && rows[r.value].invoice == invoice && rows[r.value].stage == stage
    ensures r.None? ==> forall k :: 0 <= k < |rows| ==> !(rows[k].invoice == invoice && rows[k].stage == stage)
  {
    if rows == [] then None
    else
      var n := |rows| - 1;
      assert forall k :: 0 <= k < n ==> rows[..n][k] == rows[k];
      match Find(rows[..n], invoice, stage)
      case Some(k) => Some(k)
      case None => if rows[n].invoice == invoice && rows[n].stage == stage then Some(n) else None
  }

  // `(error or "")[:500] or None`
  function LastError(error: string): Option<string> {
    if error == "" then None else Some(if |error| > 500 then error[..500] else error)
  }

  function Record(rows: seq<Row>, invoice: nat, stage: Stage, o: Outcome, existing: Option<nat>, now: int): seq<Row>
    requires existing.Some? ==> existing.value < |rows|
  {
    match existing
    case None => rows + [Row(invoice, stage, Rank(stage), 1, o.sent, o.failed, LastError(o.error), now)]
    case Some(k) =>
      var r := rows[k];
      rows[k := r.(attempts := r.attempts + 1, sent := r.sent + o.sent, failed := r.failed + o.failed,
                   lastError := LastError(o.error), updatedAt := now)]
  }

  function StageNow(rows: seq<Row>, inv: Invoice, now: int): Option<Stage> {
    if HasRows(rows, inv.id) then DueStage(inv.due, now) else FirstContactStage(inv.due, now, inv.sentAt)
  }

  // A delivered or exhausted stage is left alone; a new one must outrank every stage handled so far.
  predicate Skips(rows: seq<Row>, inv: Invoice, stage: Stage) {
    match Find(rows, inv.id, stage)
    case Some(k) => rows[k].sent > 0 || rows[k].attempts >= MAX_ATTEMPTS
    case None => Rank(stage) <= MaxRank(rows, inv.id)
  }

  const NO_RECIPIENTS: Outcome := Outcome(0, 0, "no recipients")

  function Visit(st: State, inv: Invoice, now: int, w: World): State {
    match StageNow(st.rows, inv, now)
    case None => st
    case Some(stage) =>
      if Skips(st.rows, inv, stage) then st
      else
        var existing := Find(st.rows, inv.id, stage);
        if !w.reachable(inv.id) then
          st.(rows := Record(st.rows, inv.id, stage, NO_RECIPIENTS, existing, now))
        else
          var o := w.deliver(inv.id, stage);
          State(Record(st.rows, inv.id, stage, o, existing, now), st.mails + [Mail(inv.id, stage, o.sent)])
  }

  function Sweep(st: State, invoices: seq<Invoice>, now: int, w: World): State
    decreases invoices
  {
    if invoices == [] then st else Sweep(Visit(st, invoices[0], now, w), invoices[1..], now, w)
  }

  // The three counters a sweep returns.
  datatype Totals = Totals(sent: nat, failed: nat, skipped: nat)

  function Counted(st: State, inv: Invoice, now: int, w: World, t: Totals): Totals {
    match StageNow(st.rows, inv, now)
    case None => t
    case Some(stage) =>
      if Skips(st.rows, inv, stage) || !w.reachable(inv.id) then t.(skipped := t.skipped + 1)
      else
        var o := w.deliver(inv.id, stage);
        t.(sent := t.sent + o.sent, failed := t.failed + o.failed)
  }

  function SweepTotals(st: State, invoices: seq<Invoice>, now: int, w: World, t: Totals): Totals
    decreases invoices
  {
    if invoices == [] then t
    else SweepTotals(Visit(st, invoices[0], now, w), invoices[1..], now, w, Counted(st, invoices[0], now, w, t))
  }

  // How many invoices have a stage when they are visited.
  function DueCount(st: State, invoices: seq<Invoice>, now: int, w: World): nat
    decreases invoices
  {
    if invoices == [] then 0
    else (if StageNow(st.rows, invoices[0], now).Some? then 1 else 0)
         + DueCount(Visit(st, invoices[0], now, w), invoices[1..], now, w)
  }

  function SentTotal(mails: seq<Mail>): nat {
    if mails == [] then 0 else SentTotal(mails[..|mails| - 1]) + mails[|mails| - 1].sent
  }

  class ReminderTask {
    var rows: seq<Row>
    var mails: seq<Mail>

    method RecordRow(invoice: nat, stage: Stage, o: Outcome, existing: Option<nat>, now: int)
      requires existing.Some? ==> existing.value < |rows|
      modifies this`rows
      ensures rows == Record(old(rows), invoice, stage, o, existing, now)
    {
      var k;
      if existing == None {
        k := |rows|;
        rows := rows + [Row(invoice, stage, Rank(stage), 0, 0, 0, None, now)];
      } else {
        k := existing.value;
      }
      var r := rows[k];
      rows := rows[k := r.(attempts := r.attempts + 1, sent := r.sent + o.sent, failed := r.failed + o.failed,
                           lastError := LastError(o.error), updatedAt := now)];
    }

    // `send_due_reminders`, over the sent, unpaid invoices of the hour.
    method SendDueReminders(invoices: seq<Invoice>, now: int, w: World) returns (totals: Totals)
      modifies this
      ensures State(rows, mails) == Sweep(State(old(rows), old(mails)), invoices, now, w)
      ensures totals == SweepTotals(State(old(rows), old(mails)), invoices, now, w, Totals(0, 0, 0))
    {
      hide HasRows, FirstContactStage, Find, MaxRank, Record, Skips;
      var sentTotal: nat, failedTotal: nat, skipped: nat := 0, 0, 0;
      ghost var start := State(rows, mails);
      for i := 0 to |invoices|
        invariant Sweep(State(rows, mails), invoices[i..], now, w) == Sweep(start, invoices, now, w)
        invariant SweepTotals(State(rows, mails), invoices[i..], now, w, Totals(sentTotal, failedTotal, skipped))
               == SweepTotals(start, invoices, now, w, Totals(0, 0, 0))
      {
        var inv := invoices[i];
        ghost var before := State(rows, mails);
        ghost var tally := Totals(sentTotal, failedTotal, skipped);
        var sent, failed, skip := VisitInvoice(inv, now, w);
        sentTotal, failedTotal, skipped := sentTotal + sent, failedTotal + failed, skipped + skip;
        assert invoices[i..][0] == inv && invoices[i..][1..] == invoices[i + 1..];
        SweepFirst(before, invoices[i..], now, w, tally);
        VisitCounts(before, inv, now, w, tally);
        hide Sweep, SweepTotals, Visit, Counted;
      }
      totals := Totals(sentTotal, failedTotal, skipped);
    }

    // The body of the loop.
    method VisitInvoice(inv: Invoice, now: int, w: World) returns (sent: nat, failed: nat, skip: nat)
      modifies this
      ensures State(rows, mails) == Visit(State(old(rows), old(mails)), inv, now, w)
      ensures Totals(sent, failed, skip) == Counted(State(old(rows), old(mails)), inv, now, w, Totals(0, 0, 0))
    {
      hide HasRows, FirstContactStage, Find, MaxRank, Record, Skips;
      sent, failed, skip := 0, 0, 0;
      var candidate := ComputeDueStage(inv.due, now);
      var stage := if HasRows(rows, inv.id) then candidate else FirstContactStage(inv.due, now, inv.sentAt);
      if stage == None {
        return;
      }
      if Skips(rows, inv, stage.value) {
        skip := 1;
        return;
      }
      var existing := Find(rows, inv.id, stage.value);
      FindInRange(rows, inv.id, stage.value);
      if !w.reachable(inv.id) {
        RecordRow(inv.id, stage.value, NO_RECIPIENTS, existing, now);
        skip := 1;
        return;
      }
      var o := w.deliver(inv.id, stage.value);
      RecordRow(inv.id, stage.value, o, existing, now);
      mails := mails + [Mail(inv.id, stage.value, o.sent)];
      sent, failed := o.sent, o.failed;
    }
  }

  lemma SweepFirst(st: State, invoices: seq<Invoice>, now: int, w: World, t: Totals)
    requires invoices != []
    ensures Sweep(st, invoices, now, w) == Sweep(Visit(st, invoices[0], now, w), invoices[1..], now, w)
    ensures SweepTotals(st, invoices, now, w, t)
         == SweepTotals(Visit(st, invoices[0], now, w), invoices[1..], now, w, Counted(st, invoices[0], now, w, t))
  {
    hide Visit, Counted;
  }

  lemma VisitCounts(st: State, inv: Invoice, now: int, w: World, t: Totals)
    ensures var one := Counted(st, inv, now, w, Totals(0, 0, 0));
      Counted(st, inv, now, w, t) == Totals(t.sent + one.sent, t.failed + one.failed, t.skipped + one.skipped)
  {
    hide StageNow, Skips;
  }

  /** A sweep counts every mail it sends, and every invoice that has a stage: it is skipped, or its mails go out. */
  lemma {:induction false} CountersAddUp(st: State, invoices: seq<Invoice>, now: int, w: World, t: Totals)
    ensures var after, totals := Sweep(st, invoices, now, w), SweepTotals(st, invoices, now, w, t);
      && SentTotal(after.mails) - SentTotal(st.mails) == totals.sent - t.sent
      && (totals.skipped - t.skipped) + (|after.mails| - |st.mails|) == DueCount(st, invoices, now, w)
    decreases invoices
  {
    if invoices != [] {
      SweepFirst(st, invoices, now, w, t);
      VisitMails(st, invoices[0], now, w, t);
      hide Visit, Counted, StageNow, SentTotal;
      CountersAddUp(Visit(st, invoices[0], now, w), invoices[1..], now, w, Counted(st, invoices[0], now, w, t));
    }
  }

  lemma VisitMails(st: State, inv: Invoice, now: int, w: World, t: Totals)
    ensures var after, totals := Visit(st, inv, now, w), Counted(st, inv, now, w, t);
      && SentTotal(after.mails) - SentTotal(st.mails) == totals.sent - t.sent
      && (totals.skipped - t.skipped) + (|after.mails| - |st.mails|)
         == if StageNow(st.rows, inv, now).Some? then 1 else 0
  {
    hide StageNow, Skips, Record, Find;
    forall m: Mail ensures SentTotal(st.mails + [m]) == SentTotal(st.mails) + m.sent {
      assert (st.mails + [m])[..|st.mails|] == st.mails;
    }
  }

  lemma FindInRange(rows: seq<Row>, invoice: nat, stage: Stage)
    ensures Find(rows, invoice, stage).Some? ==> Find(rows, invoice, stage).value < |rows|
  {
  }

  lemma {:induction false} SweepSplit(st: State, a: seq<Invoice>, b: seq<Invoice>, now: int, w: World)
    ensures Sweep(st, a + b, now, w) == Sweep(Sweep(st, a, now, w), b, now, w)
    decreases a
  {
    if a == [] {
      assert a + b == b;
    } else {
      assert (a + b)[0] == a[0] && (a + b)[1..] == a[1..] + b;
      hide Visit;
      SweepSplit(Visit(st, a[0], now, w), a[1..], b, now, w);
    }
  }

  // ---- runs of sweeps ----

  datatype SweepCall = SweepCall(invoices: seq<Invoice>, now: int, world: World)

  function Run(st: State, calls: seq<SweepCall>): State
    decreases calls
  {
    if calls == [] then st
    else Run(Sweep(st, calls[0].invoices, calls[0].now, calls[0].world), calls[1..])
  }

  // Mails that reached somebody, for one invoice and stage.
  function Delivered(mails: seq<Mail>, invoice: nat, stage: Stage): nat {
    if mails == [] then 0
    else
      var m := mails[|mails| - 1];
      Delivered(mails[..|mails| - 1], invoice, stage)
      + if m.invoice == invoice && m.stage == stage && m.sent > 0 then 1 else 0
  }

  predicate HasRow(rows: seq<Row>, invoice: nat, stage: Stage) {
    exists k :: 0 <= k < |rows| && rows[k].invoice == invoice && rows[k].stage == stage
  }

  // Rows of an invoice were added in strictly increasing rank.
  ghost predicate RanksRise(rows: seq<Row>) {
    && (forall i, j :: 0 <= i < j < |rows| && rows[i].invoice == rows[j].invoice ==> rows[i].rank < rows[j].rank)
    && (forall k :: 0 <= k < |rows| ==> rows[k].rank == Rank(rows[k].stage))
  }

  // A stage has a delivered mail exactly when its row says so, and then one.
  ghost predicate MailsMatch(st: State) {
    && (forall k :: 0 <= k < |st.rows| ==>
          Delivered(st.mails, st.rows[k].invoice, st.rows[k].stage) == if st.rows[k].sent > 0 then 1 else 0)
    && (forall invoice, stage :: !HasRow(st.rows, invoice, stage) ==> Delivered(st.mails, invoice, stage) == 0)
  }

  ghost predicate Inv(st: State) {
    && RanksRise(st.rows)
    && (forall k :: 0 <= k < |st.rows| ==> 1 <= st.rows[k].attempts <= MAX_ATTEMPTS)
    && MailsMatch(st)
  }

  // What a later state may not take back.
  ghost predicate Extends(st: State, st': State) {
    && |st.rows| <= |st'.rows|
    && (forall k :: 0 <= k < |st.rows| ==>
          && st'.rows[k].invoice == st.rows[k].invoice && st'.rows[k].stage == st.rows[k].stage
          && st'.rows[k].attempts >= st.rows[k].attempts
          && (st.rows[k].sent > 0 ==> st'.rows[k] == st.rows[k]))
    && st.mails <= st'.mails
  }

  lemma RowIsUnique(rows: seq<Row>, i: nat, j: nat)
    requires RanksRise(rows) && i < |rows| && j < |rows|
    requires rows[i].invoice == rows[j].invoice && rows[i].stage == rows[j].stage
    ensures i == j
  {
  }

  lemma DeliveredAppend(mails: seq<Mail>, m: Mail, invoice: nat, stage: Stage)
    ensures Delivered(mails + [m], invoice, stage)
         == Delivered(mails, invoice, stage) + if m.invoice == invoice && m.stage == stage && m.sent > 0 then 1 else 0
  {
    assert (mails + [m])[..|mails|] == mails;
  }

  // The mails after an attempt: none for an unreachable invoice, one otherwise.
  function Mailed(mails: seq<Mail>, invoice: nat, stage: Stage, sent: Option<nat>): seq<Mail> {
    match sent case None => mails case Some(n) => mails + [Mail(invoice, stage, n)]
  }

  lemma MailedCount(mails: seq<Mail>, invoice: nat, stage: Stage, sent: Option<nat>, i: nat, s: Stage)
    ensures Delivered(Mailed(mails, invoice, stage, sent), i, s)
         == Delivered(mails, i, s) + if i == invoice && s == stage && sent.Some? && sent.value > 0 then 1 else 0
  {
    if sent.Some? {
      DeliveredAppend(mails, Mail(invoice, stage, sent.value), i, s);
    }
  }

  lemma HasRowAppend(rows: seq<Row>, row: Row, i: nat, s: Stage)
    ensures HasRow(rows + [row], i, s) <==> HasRow(rows, i, s) || (row.invoice == i && row.stage == s)
  {
    var t := rows + [row];
    assert t[|rows|] == row && forall k :: 0 <= k < |rows| ==> t[k] == rows[k];
  }

  lemma HasRowUpdate(rows: seq<Row>, k: nat, row: Row, i: nat, s: Stage)
    requires k < |rows| && row.invoice == rows[k].invoice && row.stage == rows[k].stage
    ensures HasRow(rows[k := row], i, s) <==> HasRow(rows, i, s)
  {
    var t := rows[k := row];
    assert forall j :: 0 <= j < |rows| ==> t[j].invoice == rows[j].invoice && t[j].stage == rows[j].stage;
  }

  lemma NewRowMails(st: State, row: Row, sent: Option<nat>)
    requires MailsMatch(st) && !HasRow(st.rows, row.invoice, row.stage)
    requires row.sent == if sent.Some? then sent.value else 0
    ensures MailsMatch(State(st.rows + [row], Mailed(st.mails, row.invoice, row.stage, sent)))
  {
    var t := State(st.rows + [row], Mailed(st.mails, row.invoice, row.stage, sent));
    forall k | 0 <= k < |t.rows|
      ensures Delivered(t.mails, t.rows[k].invoice, t.rows[k].stage) == if t.rows[k].sent > 0 then 1 else 0
    {
      MailedCount(st.mails, row.invoice, row.stage, sent, t.rows[k].invoice, t.rows[k].stage);
    }
    forall i: nat, s: Stage | !HasRow(t.rows, i, s) ensures Delivered(t.mails, i, s) == 0 {
      HasRowAppend(st.rows, row, i, s);
      MailedCount(st.mails, row.invoice, row.stage, sent, i, s);
    }
  }

  lemma RetryMails(st: State, k: nat, row: Row, sent: Option<nat>)
    requires MailsMatch(st) && RanksRise(st.rows) && k < |st.rows| && st.rows[k].sent == 0
    requires row.invoice == st.rows[k].invoice && row.stage == st.rows[k].stage
    requires row.sent == if sent.Some? then sent.value else 0
    ensures MailsMatch(State(st.rows[k := row], Mailed(st.mails, row.invoice, row.stage, sent)))
  {
    var t := State(st.rows[k := row], Mailed(st.mails, row.invoice, row.stage, sent));
    forall j | 0 <= j < |t.rows|
      ensures Delivered(t.mails, t.rows[j].invoice, t.rows[j].stage) == if t.rows[j].sent > 0 then 1 else 0
    {
      MailedCount(st.mails, row.invoice, row.stage, sent, t.rows[j].invoice, t.rows[j].stage);
      if t.rows[j].invoice == row.invoice && t.rows[j].stage == row.stage {
        RowIsUnique(st.rows, j, k);
      }
    }
    forall i: nat, s: Stage | !HasRow(t.rows, i, s) ensures Delivered(t.mails, i, s) == 0 {
      HasRowUpdate(st.rows, k, row, i, s);
      MailedCount(st.mails, row.invoice, row.stage, sent, i, s);
    }
  }

  lemma NewRowRanks(rows: seq<Row>, row: Row)
    requires RanksRise(rows) && row.rank == Rank(row.stage) && row.rank > MaxRank(rows, row.invoice)
    ensures RanksRise(rows + [row]) && !HasRow(rows, row.invoice, row.stage)
  {
    hide Rank;
  }

  lemma NewRowKeeps(st: State, row: Row, sent: Option<nat>)
    requires Inv(st) && row.rank == Rank(row.stage) && row.attempts == 1
    requires row.rank > MaxRank(st.rows, row.invoice)
    requires row.sent == if sent.Some? then sent.value else 0
    ensures var t := State(st.rows + [row], Mailed(st.mails, row.invoice, row.stage, sent));
      Inv(t) && Extends(st, t)
  {
    hide Rank, MailsMatch, Delivered, HasRow, RanksRise, MaxRank;
    NewRowRanks(st.rows, row);
    NewRowMails(st, row, sent);
  }

  lemma RetryKeeps(st: State, k: nat, row: Row, sent: Option<nat>)
    requires Inv(st) && k < |st.rows| && st.rows[k].sent == 0 && st.rows[k].attempts < MAX_ATTEMPTS
    requires row.invoice == st.rows[k].invoice && row.stage == st.rows[k].stage && row.rank == st.rows[k].rank
    requires row.attempts == st.rows[k].attempts + 1
    requires row.sent == if sent.Some? then sent.value else 0
    ensures var t := State(st.rows[k := row], Mailed(st.mails, row.invoice, row.stage, sent));
      Inv(t) && Extends(st, t)
  {
    hide Rank, MailsMatch, Delivered;
    RetryMails(st, k, row, sent);
  }

  // What a visit does when it acts, with the outcome made explicit.
  lemma VisitActs(st: State, inv: Invoice, now: int, w: World, stage: Stage)
    requires StageNow(st.rows, inv, now) == Some(stage) && !Skips(st.rows, inv, stage)
    ensures var o := if w.reachable(inv.id) then w.deliver(inv.id, stage) else NO_RECIPIENTS;
      var sent := if w.reachable(inv.id) then Some(o.sent) else None;
      Visit(st, inv, now, w)
      == State(Record(st.rows, inv.id, stage, o, Find(st.rows, inv.id, stage), now),
               Mailed(st.mails, inv.id, stage, sent))
  {
    hide Record, Find, StageNow, Skips;
  }

  lemma AttemptKeeps(st: State, invoice: nat, stage: Stage, o: Outcome, sent: Option<nat>, now: int)
    requires Inv(st) && o.sent == if sent.Some? then sent.value else 0
    requires match Find(st.rows, invoice, stage)
             case Some(k) => !(st.rows[k].sent > 0 || st.rows[k].attempts >= MAX_ATTEMPTS)
             case None => Rank(stage) > MaxRank(st.rows, invoice)
    ensures var t := State(Record(st.rows, invoice, stage, o, Find(st.rows, invoice, stage), now),
                           Mailed(st.mails, invoice, stage, sent));
      Inv(t) && Extends(st, t)
  {
    hide Inv, Extends, Mailed, Rank, MaxRank;
    match Find(st.rows, invoice, stage) {
      case None => NewRowKeeps(st, Row(invoice, stage, Rank(stage), 1, o.sent, o.failed, LastError(o.error), now), sent);
      case Some(k) =>
        var r := st.rows[k];
        RetryKeeps(st, k, r.(attempts := r.attempts + 1, sent := r.sent + o.sent, failed := r.failed + o.failed,
                             lastError := LastError(o.error), updatedAt := now), sent);
    }
  }

  lemma VisitKeeps(st: State, inv: Invoice, now: int, w: World)
    requires Inv(st)
    ensures Inv(Visit(st, inv, now, w)) && Extends(st, Visit(st, inv, now, w))
  {
    hide Inv, StageNow, Mailed, Record, Find;
    var stage := StageNow(st.rows, inv, now);
    if stage.Some? && !Skips(st.rows, inv, stage.value) {
      VisitActs(st, inv, now, w, stage.value);
      var o := if w.reachable(inv.id) then w.deliver(inv.id, stage.value) else NO_RECIPIENTS;
      AttemptKeeps(st, inv.id, stage.value, o, if w.reachable(inv.id) then Some(o.sent) else None, now);
    }
  }

  lemma ExtendsTransitive(a: State, b: State, c: State)
    requires Extends(a, b) && Extends(b, c)
    ensures Extends(a, c)
  {
  }

  lemma {:induction false} SweepKeeps(st: State, invoices: seq<Invoice>, now: int, w: World)
    requires Inv(st)
    ensures Inv(Sweep(st, invoices, now, w)) && Extends(st, Sweep(st, invoices, now, w))
    decreases invoices
  {
    if invoices != [] {
      VisitKeeps(st, invoices[0], now, w);
      hide Inv, Extends, Visit;
      SweepKeeps(Visit(st, invoices[0], now, w), invoices[1..], now, w);
      ExtendsTransitive(st, Visit(st, invoices[0], now, w), Sweep(st, invoices, now, w));
    }
  }

  lemma {:induction false} RunKeeps(st: State, calls: seq<SweepCall>)
    requires Inv(st)
    ensures Inv(Run(st, calls)) && Extends(st, Run(st, calls))
    decreases calls
  {
    if calls != [] {
      var next := Sweep(st, calls[0].invoices, calls[0].now, calls[0].world);
      SweepKeeps(st, calls[0].invoices, calls[0].now, calls[0].world);
      hide Inv, Extends, Sweep;
      RunKeeps(next, calls[1..]);
      ExtendsTransitive(st, next, Run(st, calls));
    }
  }

  /** Over any run of sweeps, whatever the clock, the recipients and the mail server do: a stage of an
      invoice is delivered at most once and tried at most three times, its row is unique, the rows of
      an invoice appear in strictly increasing rank, and a row with a delivery is never touched again. */
  lemma RemindersOnce(st: State, calls: seq<SweepCall>, invoice: nat, stage: Stage)
    requires Inv(st)
    ensures var t := Run(st, calls);
      && Delivered(t.mails, invoice, stage) <= 1
      && RanksRise(t.rows)
      && (forall k :: 0 <= k < |t.rows| ==> t.rows[k].attempts <= MAX_ATTEMPTS)
      && (forall k :: 0 <= k < |st.rows| && st.rows[k].sent > 0 ==> k < |t.rows| && t.rows[k] == st.rows[k])
  {
    RunKeeps(st, calls);
    hide RanksRise, Run, Delivered;
    var t := Run(st, calls);
    if HasRow(t.rows, invoice, stage) {
      var k :| 0 <= k < |t.rows| && t.rows[k].invoice == invoice && t.rows[k].stage == stage;
    }
  }

  lemma EmptyLedger()
    ensures Inv(State([], []))
  {
  }

  // ---- with a clock that does not run backwards ----

  // Every sweep sees the invoices as they are in the book.
  ghost predicate FromBook(invoices: seq<Invoice>, book: nat -> Invoice) {
    forall k :: 0 <= k < |invoices| ==> invoices[k] == book(invoices[k].id)
  }

  ghost predicate Ascending(calls: seq<SweepCall>, from: int, book: nat -> Invoice) {
    && (forall k :: 0 <= k < |calls| ==> from <= calls[k].now && FromBook(calls[k].invoices, book))
    && (forall i, j :: 0 <= i < j < |calls| ==> calls[i].now <= calls[j].now)
  }

  function LastTime(calls: seq<SweepCall>, from: int): int {
    if calls == [] then from else calls[|calls| - 1].now
  }

  predicate SentLate(i: Invoice) {
    i.sentAt.Some? && Day(i.sentAt.value) > Day(i.due)
  }

  // The first row of an invoice sent late is an ordinary overdue notice at most.
  ghost predicate FirstCapped(rows: seq<Row>, book: nat -> Invoice) {
    forall k :: 0 <= k < |rows| ==>
      SentLate(book(rows[k].invoice)) && !HasRows(rows[..k], rows[k].invoice) ==>
      Rank(rows[k].stage) <= Rank(Overdue1)
  }

  // Mails of an invoice escalate; nothing so far is beyond what is due by `now`; an invoice sent after
  // its due date was first contacted with an ordinary overdue notice at most.
  ghost predicate Escalates(st: State, book: nat -> Invoice, now: int) {
    && (forall i, j :: 0 <= i < j < |st.mails| && st.mails[i].invoice == st.mails[j].invoice ==>
          Rank(st.mails[i].stage) <= Rank(st.mails[j].stage))
    && (forall k :: 0 <= k < |st.mails| ==>
          HasRows(st.rows, st.mails[k].invoice)
          && Rank(st.mails[k].stage) <= RankOf(DueStage(book(st.mails[k].invoice).due, now)))
    && FirstCapped(st.rows, book)
  }

  lemma EscalatesLater(st: State, book: nat -> Invoice, now: int, later: int)
    requires Escalates(st, book, now) && now <= later
    ensures Escalates(st, book, later)
  {
    hide DueStage, Rank;
    forall k | 0 <= k < |st.mails|
      ensures Rank(st.mails[k].stage) <= RankOf(DueStage(book(st.mails[k].invoice).due, later))
    {
      StageAdvances(book(st.mails[k].invoice).due, now, later);
    }
  }

  lemma RecordHasRows(rows: seq<Row>, invoice: nat, stage: Stage, o: Outcome, existing: Option<nat>, now: int, i: nat)
    requires existing.Some? ==> existing.value < |rows| && rows[existing.value].invoice == invoice
    ensures HasRows(Record(rows, invoice, stage, o, existing, now), i) <==> HasRows(rows, i) || i == invoice
  {
    var t := Record(rows, invoice, stage, o, existing, now);
    match existing {
      case None =>
        assert t[|rows|].invoice == invoice && forall k :: 0 <= k < |rows| ==> t[k] == rows[k];
      case Some(j) =>
        assert forall k :: 0 <= k < |rows| ==> t[k].invoice == rows[k].invoice;
    }
  }

  // The stage chosen for a visit is no later than what is due, and capped on a first contact.
  lemma StageNowBounds(rows: seq<Row>, inv: Invoice, now: int, stage: Stage)
    requires StageNow(rows, inv, now) == Some(stage)
    ensures Rank(stage) <= RankOf(DueStage(inv.due, now))
    ensures HasRows(rows, inv.id) ==> DueStage(inv.due, now) == Some(stage)
    ensures !HasRows(rows, inv.id) && SentLate(inv) ==> Rank(stage) <= Rank(Overdue1)
  {
    hide DueStage, HasRows;
  }

  lemma MailsEscalate(st: State, rows: seq<Row>, inv: Invoice, stage: Stage, sent: Option<nat>,
                      book: nat -> Invoice, now: int)
    requires Escalates(st, book, now) && inv == book(inv.id) && StageNow(st.rows, inv, now) == Some(stage)
    requires forall i: nat :: HasRows(rows, i) <==> HasRows(st.rows, i) || i == inv.id
    requires FirstCapped(rows, book)
    ensures Escalates(State(rows, Mailed(st.mails, inv.id, stage, sent)), book, now)
  {
    StageNowBounds(st.rows, inv, now, stage);
    hide Rank, DueStage, HasRows, SentLate, StageNow;
  }

  lemma FirstRowsCapped(rows: seq<Row>, inv: Invoice, stage: Stage, o: Outcome, book: nat -> Invoice, now: int)
    requires inv == book(inv.id) && StageNow(rows, inv, now) == Some(stage)
    requires FirstCapped(rows, book)
    ensures var t := Record(rows, inv.id, stage, o, Find(rows, inv.id, stage), now);
      FirstCapped(t, book)
  {
    StageNowBounds(rows, inv, now, stage);
    var t := Record(rows, inv.id, stage, o, Find(rows, inv.id, stage), now);
    hide Rank, SentLate, StageNow, DueStage;
    forall k | 0 <= k < |t| && SentLate(book(t[k].invoice)) && !HasRows(t[..k], t[k].invoice)
      ensures Rank(t[k].stage) <= Rank(Overdue1)
    {
      if k < |rows| {
        SameInvoices(rows, t, k, t[k].invoice);
      } else {
        assert t[..k] == rows;
      }
    }
  }

  lemma SameInvoices(rows: seq<Row>, t: seq<Row>, k: nat, i: nat)
    requires k <= |rows| <= |t| && forall j :: 0 <= j < k ==> t[j].invoice == rows[j].invoice
    ensures HasRows(rows[..k], i) <==> HasRows(t[..k], i)
  {
    if HasRows(rows[..k], i) {
      var j :| 0 <= j < k && rows[..k][j].invoice == i;
      assert t[..k][j].invoice == i;
    }
    if HasRows(t[..k], i) {
      var j :| 0 <= j < k && t[..k][j].invoice == i;
      assert rows[..k][j].invoice == i;
    }
  }

  lemma VisitEscalates(st: State, inv: Invoice, now: int, w: World, book: nat -> Invoice)
    requires Escalates(st, book, now) && inv == book(inv.id)
    ensures Escalates(Visit(st, inv, now, w), book, now)
  {
    var stage := StageNow(st.rows, inv, now);
    if stage.Some? && !Skips(st.rows, inv, stage.value) {
      VisitActs(st, inv, now, w, stage.value);
      var o := if w.reachable(inv.id) then w.deliver(inv.id, stage.value) else NO_RECIPIENTS;
      var sent := if w.reachable(inv.id) then Some(o.sent) else None;
      var existing := Find(st.rows, inv.id, stage.value);
      var rows := Record(st.rows, inv.id, stage.value, o, existing, now);
      FirstRowsCapped(st.rows, inv, stage.value, o, book, now);
      hide Record, Rank, StageNow, SentLate, Mailed, Skips, Visit;
      forall i: nat ensures HasRows(rows, i) <==> HasRows(st.rows, i) || i == inv.id {
        RecordHasRows(st.rows, inv.id, stage.value, o, existing, now, i);
      }
      MailsEscalate(st, rows, inv, stage.value, sent, book, now);
    }
  }

  lemma {:induction false} SweepEscalates(st: State, invoices: seq<Invoice>, now: int, w: World, book: nat -> Invoice)
    requires Escalates(st, book, now) && FromBook(invoices, book)
    ensures Escalates(Sweep(st, invoices, now, w), book, now)
    decreases invoices
  {
    if invoices != [] {
      VisitEscalates(st, invoices[0], now, w, book);
      hide Escalates, Visit;
      SweepEscalates(Visit(st, invoices[0], now, w), invoices[1..], now, w, book);
    }
  }

  /** While the clock does not run backwards, an invoice's mails only escalate, none is ahead of its
      date, and an invoice sent after its due date starts with an ordinary overdue notice at most. */
  lemma {:induction false} RemindersEscalate(st: State, calls: seq<SweepCall>, book: nat -> Invoice, from: int)
    requires Escalates(st, book, from) && Ascending(calls, from, book)
    ensures Escalates(Run(st, calls), book, LastTime(calls, from))
    decreases calls
  {
    if calls == [] {
    } else {
      var c := calls[0];
      EscalatesLater(st, book, from, c.now);
      SweepEscalates(st, c.invoices, c.now, c.world, book);
      hide Escalates, Sweep;
      RemindersEscalate(Sweep(st, c.invoices, c.now, c.world), calls[1..], book, c.now);
    }
  }
}
