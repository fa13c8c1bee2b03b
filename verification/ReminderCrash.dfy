/** Reminder sweeps that die. The task is acknowledged late (`workers/tasks/billing.py`), so a sweep that does not
    reach its commit is delivered again: its rows are rolled back, the mails it sent are not. */
module ReminderCrash {
  import opened Common
  import opened Reminders

  // One execution of the task; a dying one has visited some of its invoices, perhaps all.
  datatype Execution = Commits(call: SweepCall) | Dies(call: SweepCall, visited: nat)

  function Visited(e: Execution): seq<Invoice> {
    match e
    case Commits(c) => c.invoices
    case Dies(c, n) => if n < |c.invoices| then c.invoices[..n] else c.invoices
  }

  function Swept(st: State, e: Execution): State {
    Sweep(st, Visited(e), e.call.now, e.call.world)
  }

  function Execute(st: State, e: Execution): State {
    match e
    case Commits(_) => Swept(st, e)
    case Dies(_, _) => State(st.rows, Swept(st, e).mails)
  }

  function Executed(st: State, es: seq<Execution>): State
    decreases es
  {
    if es == [] then st else Executed(Execute(st, es[0]), es[1..])
  }

  // The execution's mails for this invoice and stage reach somebody.
  predicate Delivers(st: State, e: Execution, invoice: nat, stage: Stage) {
    Delivered(Execute(st, e).mails, invoice, stage) > Delivered(st.mails, invoice, stage)
  }

  // No execution delivers the stage after one whose delivery was rolled back; `lost` says that one was already.
  predicate NeverRepeats(st: State, es: seq<Execution>, lost: bool, invoice: nat, stage: Stage)
    decreases es
  {
    if es == [] then true
    else
      var d := Delivers(st, es[0], invoice, stage);
      !(lost && d) && NeverRepeats(Execute(st, es[0]), es[1..], lost || (d && es[0].Dies?), invoice, stage)
  }

  // ---- one execution ----

  lemma VisitApart(st: State, kept: seq<Mail>, inv: Invoice, now: int, w: World) returns (more: seq<Mail>)
    ensures Visit(State(st.rows, kept), inv, now, w) == State(Visit(st, inv, now, w).rows, kept + more)
    ensures Visit(st, inv, now, w).mails == st.mails + more
  {
    hide StageNow, Skips, Record, Find;
    more := if |Visit(st, inv, now, w).mails| == |st.mails| then [] else [Visit(st, inv, now, w).mails[|st.mails|]];
    assert st.mails + [] == st.mails && kept + [] == kept;
  }

  // A sweep reads the rows only: whatever mails are on the books, it adds the same rows and the same mails.
  lemma {:induction false} SweepApart(st: State, kept: seq<Mail>, invoices: seq<Invoice>, now: int, w: World)
    returns (more: seq<Mail>)
    ensures Sweep(State(st.rows, kept), invoices, now, w) == State(Sweep(st, invoices, now, w).rows, kept + more)
    ensures Sweep(st, invoices, now, w).mails == st.mails + more
    decreases invoices
  {
    if invoices == [] {
      more := [];
      assert st.mails + [] == st.mails && kept + [] == kept;
    } else {
      var first := VisitApart(st, kept, invoices[0], now, w);
      hide Visit;
      var rest := SweepApart(Visit(st, invoices[0], now, w), kept + first, invoices[1..], now, w);
      more := first + rest;
      assert st.mails + first + rest == st.mails + more && kept + first + rest == kept + more;
    }
  }

  lemma {:induction false} DeliveredSplit(mails: seq<Mail>, more: seq<Mail>, invoice: nat, stage: Stage)
    ensures Delivered(mails + more, invoice, stage) == Delivered(mails, invoice, stage) + Delivered(more, invoice, stage)
    decreases more
  {
    if more == [] {
      assert mails + [] == mails;
    } else {
      var n := |more| - 1;
      assert mails + more == (mails + more[..n]) + [more[n]] && more == more[..n] + [more[n]];
      DeliveredAppend(mails + more[..n], more[n], invoice, stage);
      DeliveredAppend(more[..n], more[n], invoice, stage);
      hide Delivered;
      DeliveredSplit(mails, more[..n], invoice, stage);
    }
  }

  lemma AtMostOne(st: State, invoice: nat, stage: Stage)
    requires Inv(st)
    ensures Delivered(st.mails, invoice, stage) <= 1
  {
    hide *;
    NoCalls(st);
    RemindersOnce(st, [], invoice, stage);
  }

  lemma NoCalls(st: State)
    ensures Run(st, []) == st
  {
  }

  // `kept` are the mails whose rows were committed.
  lemma ExecuteKeeps(st: State, kept: seq<Mail>, e: Execution, invoice: nat, stage: Stage) returns (next: seq<Mail>)
    requires Inv(State(st.rows, kept))
    ensures Inv(State(Execute(st, e).rows, next))
    ensures var d := if Delivers(st, e, invoice, stage) then 1 else 0;
      && Delivered(kept, invoice, stage) + d <= 1
      && Delivered(Execute(st, e).mails, invoice, stage) == Delivered(st.mails, invoice, stage) + d
      && Delivered(next, invoice, stage) == Delivered(kept, invoice, stage) + if e.Commits? then d else 0
  {
    hide Inv, Sweep, Delivered, Visited;
    var more := SweepApart(st, kept, Visited(e), e.call.now, e.call.world);
    SweepKeeps(State(st.rows, kept), Visited(e), e.call.now, e.call.world);
    AtMostOne(State(Swept(st, e).rows, kept + more), invoice, stage);
    DeliveredSplit(kept, more, invoice, stage);
    DeliveredSplit(st.mails, more, invoice, stage);
    next := if e.Commits? then kept + more else kept;
  }

  // ---- runs ----

  lemma {:induction false} DeliveredGrows(st: State, kept: seq<Mail>, es: seq<Execution>, invoice: nat, stage: Stage)
    requires Inv(State(st.rows, kept))
    ensures Delivered(Executed(st, es).mails, invoice, stage) >= Delivered(st.mails, invoice, stage)
    decreases es
  {
    if es != [] {
      hide Inv, Execute, Delivered, Delivers;
      var next := ExecuteKeeps(st, kept, es[0], invoice, stage);
      DeliveredGrows(Execute(st, es[0]), next, es[1..], invoice, stage);
    }
  }

  lemma {:induction false} OnceFrom(st: State, kept: seq<Mail>, es: seq<Execution>, lost: bool, invoice: nat, stage: Stage)
    requires Inv(State(st.rows, kept))
    requires Delivered(st.mails, invoice, stage) <= 1
    requires Delivered(st.mails, invoice, stage) == Delivered(kept, invoice, stage) + if lost then 1 else 0
    ensures Delivered(Executed(st, es).mails, invoice, stage) <= 1 <==> NeverRepeats(st, es, lost, invoice, stage)
    decreases es
  {
    if es != [] {
      hide Inv, Execute, Delivered, Delivers;
      var e, after := es[0], Execute(st, es[0]);
      var next := ExecuteKeeps(st, kept, e, invoice, stage);
      if lost && Delivers(st, e, invoice, stage) {
        DeliveredGrows(after, next, es[1..], invoice, stage);
      } else {
        OnceFrom(after, next, es[1..], lost || (Delivers(st, e, invoice, stage) && e.Dies?), invoice, stage);
      }
    }
  }

  /** Over any run of executions, crashed ones included: a stage of an invoice reaches somebody at most once if and
      only if no execution delivers it after one whose delivery was rolled back. */
  lemma RemindersOnceIff(st: State, es: seq<Execution>, invoice: nat, stage: Stage)
    requires Inv(st)
    ensures Delivered(Executed(st, es).mails, invoice, stage) <= 1 <==> NeverRepeats(st, es, false, invoice, stage)
  {
    hide *;
    AtMostOne(st, invoice, stage);
    OnceFrom(st, st.mails, es, false, invoice, stage);
  }

  // ---- a sweep that keeps dying ----

  function Times(e: Execution, n: nat): seq<Execution> {
    if n == 0 then [] else [e] + Times(e, n - 1)
  }

  // Whatever has been mailed so far, a sweep delivers what its rows tell it to.
  lemma DeliversAgain(st: State, mails: seq<Mail>, e: Execution, invoice: nat, stage: Stage)
    requires Inv(st) && Delivers(st, e, invoice, stage)
    ensures Delivered(Execute(State(st.rows, mails), e).mails, invoice, stage) == Delivered(mails, invoice, stage) + 1
  {
    var once := ExecuteKeeps(st, st.mails, e, invoice, stage);
    var more := SweepApart(st, mails, Visited(e), e.call.now, e.call.world);
    hide Inv, Sweep, Delivered, Visited;
    DeliveredSplit(mails, more, invoice, stage);
    DeliveredSplit(st.mails, more, invoice, stage);
  }

  lemma {:induction false} DeathsRepeat(st: State, mails: seq<Mail>, e: Execution, n: nat, invoice: nat, stage: Stage)
    requires Inv(st) && e.Dies? && Delivers(st, e, invoice, stage)
    ensures Executed(State(st.rows, mails), Times(e, n)).rows == st.rows
    ensures Delivered(Executed(State(st.rows, mails), Times(e, n)).mails, invoice, stage)
         == Delivered(mails, invoice, stage) + n
    decreases n
  {
    if n > 0 {
      DeliversAgain(st, mails, e, invoice, stage);
      var after := Execute(State(st.rows, mails), e);
      hide Inv, Delivered, Delivers, Swept;
      assert Times(e, n)[0] == e && Times(e, n)[1..] == Times(e, n - 1);
      DeathsRepeat(st, after.mails, e, n - 1, invoice, stage);
    }
  }

  // A sweep that lives delivers at least what it would have delivered dying.
  lemma LivingDelivers(st: State, call: SweepCall, visited: nat, invoice: nat, stage: Stage)
    requires Inv(st) && Delivers(st, Dies(call, visited), invoice, stage)
    ensures Delivers(st, Commits(call), invoice, stage)
  {
    var front := Visited(Dies(call, visited));
    var back := call.invoices[|front|..];
    assert call.invoices == front + back;
    var mid := Sweep(st, front, call.now, call.world);
    SweepSplit(st, front, back, call.now, call.world);
    SweepKeeps(st, front, call.now, call.world);
    hide Sweep, Delivered, Visited;
    var more := SweepApart(mid, mid.mails, back, call.now, call.world);
    DeliveredSplit(mid.mails, more, invoice, stage);
  }

  lemma {:induction false} ExecutedSplit(st: State, a: seq<Execution>, b: seq<Execution>)
    ensures Executed(st, a + b) == Executed(Executed(st, a), b)
    decreases a
  {
    if a == [] {
      assert a + b == b;
    } else {
      assert (a + b)[0] == a[0] && (a + b)[1..] == a[1..] + b;
      hide Execute;
      ExecutedSplit(Execute(st, a[0]), a[1..], b);
    }
  }

  /** Nothing bounds the repeats: a sweep that delivers a stage and dies n times, and is delivered again until it
      commits, mails the stage n + 1 times. */
  lemma DeathsMailAgain(st: State, call: SweepCall, visited: nat, n: nat, invoice: nat, stage: Stage)
    requires Inv(st) && Delivers(st, Dies(call, visited), invoice, stage)
    ensures Delivered(Executed(st, Times(Dies(call, visited), n) + [Commits(call)]).mails, invoice, stage)
         == Delivered(st.mails, invoice, stage) + n + 1
  {
    hide *;
    var deaths := Times(Dies(call, visited), n);
    DeathsRepeat(st, st.mails, Dies(call, visited), n, invoice, stage);
    ExecutedSplit(st, deaths, [Commits(call)]);
    var mid := Executed(st, deaths);
    LivingDelivers(st, call, visited, invoice, stage);
    DeliversAgain(st, mid.mails, Commits(call), invoice, stage);
    ExecutedOne(mid, Commits(call));
  }

  lemma ExecutedOne(st: State, e: Execution)
    ensures Executed(st, [e]) == Execute(st, e)
  {
    hide Execute;
    assert [e][1..] == [];
  }

  const BILL: Invoice := Invoice(0, 0, None)
  const SENDS: SweepCall := SweepCall([BILL], 0, World(_ => true, (_, _) => Outcome(1, 0, "")))

  /** The smallest failing run: one invoice due today, a sweep that dies after its mail, and the same sweep again. */
  lemma CrashMailsTwice()
    ensures Delivered(Executed(State([], []), [Dies(SENDS, 1), Commits(SENDS)]).mails, 0, DueToday) == 2
  {
    FirstMail();
    EmptyLedger();
    hide Inv, Delivers, Executed, Delivered;
    DeathsMailAgain(State([], []), SENDS, 1, 1, 0, DueToday);
    assert Times(Dies(SENDS, 1), 1) + [Commits(SENDS)] == [Dies(SENDS, 1), Commits(SENDS)] by {
      assert Times(Dies(SENDS, 1), 0) == [];
    }
  }

  // An invoice whose turn has come is delivered by a sweep that gets to it.
  lemma TurnDelivers(st: State, inv: Invoice, now: int, w: World, stage: Stage)
    requires StageNow(st.rows, inv, now) == Some(stage) && !Skips(st.rows, inv, stage)
    requires w.reachable(inv.id) && w.deliver(inv.id, stage).sent > 0
    ensures Delivers(st, Dies(SweepCall([inv], now, w), 1), inv.id, stage)
  {
    hide StageNow, Skips, Delivered, Find, Record;
    var mail := Mail(inv.id, stage, w.deliver(inv.id, stage).sent);
    assert [inv][1..] == [];
    assert Visit(st, inv, now, w).mails == st.mails + [mail];
    assert Swept(st, Dies(SweepCall([inv], now, w), 1)) == Sweep(Visit(st, inv, now, w), [], now, w);
    DeliveredAppend(st.mails, mail, inv.id, stage);
  }

  lemma BillIsDue()
    ensures StageNow([], BILL, 0) == Some(DueToday) && !Skips([], BILL, DueToday)
  {
    assert LastReached(2, 0) == Some(DueToday);
    assert LastReached(4, 0) == Some(DueToday);
    assert LastReached(6, 0) == Some(DueToday);
  }

  lemma FirstMail()
    ensures Delivered([], 0, DueToday) == 0 && Delivers(State([], []), Dies(SENDS, 1), 0, DueToday)
  {
    BillIsDue();
    hide StageNow, Skips, Delivers;
    TurnDelivers(State([], []), BILL, 0, SENDS.world, DueToday);
  }
}
