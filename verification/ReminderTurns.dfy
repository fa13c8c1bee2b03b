/** When a reminder is mailed, read off the ledger and the dates alone, and how often a failing one is tried again. */
module ReminderTurns {
  import opened Common
  import opened Reminders

  // ---- the stage an invoice is at ----

  // Days after the due date.
  function Offset(s: Stage): int {
    match s
    case DueSoon => -3
    case DueToday => 0
    case Overdue1 => 3
    case Overdue2 => 7
    case Final => 14
    case SuspendNotice => 30
  }

  // Places in the order of the stages, from 1.
  function Place(s: Stage): nat {
    match s
    case DueSoon => 1
    case DueToday => 2
    case Overdue1 => 3
    case Overdue2 => 4
    case Final => 5
    case SuspendNotice => 6
  }

  // Whole days, in UTC, from the due date to now.
  function DaysLate(inv: Invoice, now: int): int {
    now / 86400 - inv.due / 86400
  }

  // The stage has been reached and no later one has.
  ghost predicate IsDue(inv: Invoice, now: int, stage: Stage) {
    Offset(stage) <= DaysLate(inv, now) && forall s: Stage :: Offset(s) > Offset(stage) ==> DaysLate(inv, now) < Offset(s)
  }

  predicate IssuedLate(inv: Invoice) {
    inv.sentAt.Some? && inv.sentAt.value / 86400 > inv.due / 86400
  }

  // An invoice that was issued after its due date and has no row yet starts with the first overdue notice at most.
  ghost predicate AtStage(rows: seq<Row>, inv: Invoice, now: int, stage: Stage) {
    if (forall k :: 0 <= k < |rows| ==> rows[k].invoice != inv.id) && IssuedLate(inv) && DaysLate(inv, now) >= 3
    then stage == Overdue1
    else IsDue(inv, now, stage)
  }

  lemma PlacesAndOffsets(a: Stage, b: Stage)
    ensures Offset(a) < Offset(b) <==> Place(a) < Place(b)
    ensures Place(a) == Place(b) <==> a == b
    ensures Rank(a) == Place(a) && 1 <= Place(a) <= 6
  {
  }

  lemma StageOffset(s: Stage)
    ensures STAGES[Place(s) - 1] == Entry(s, Offset(s))
  {
  }

  lemma ReachedIff(inv: Invoice, now: int, s: Stage)
    ensures DaysLate(inv, now) >= Offset(s) <==> Place(s) <= RankOf(DueStage(inv.due, now))
  {
    var days := DaysLate(inv, now);
    assert days == Day(now) - Day(inv.due);
    LastReachedRank(6, days);
    StageOffset(s);
    hide LastReached, Rank, Day;
  }

  lemma DueStageIs(inv: Invoice, now: int, stage: Stage)
    ensures DueStage(inv.due, now) == Some(stage) <==> IsDue(inv, now, stage)
  {
    var due := DueStage(inv.due, now);
    forall s: Stage
      ensures DaysLate(inv, now) >= Offset(s) <==> Place(s) <= RankOf(due)
      ensures Offset(stage) < Offset(s) <==> Place(stage) < Place(s)
    {
      ReachedIff(inv, now, s);
      PlacesAndOffsets(stage, s);
    }
    DueIsPlaced(due, stage);
    hide DueStage, Offset, Place, DaysLate, RankOf;
    if due.Some? {
      PlacesAndOffsets(stage, due.value);
    }
  }

  lemma DueIsPlaced(due: Option<Stage>, stage: Stage)
    ensures RankOf(due) == match due case None => 0 case Some(s) => Place(s)
    ensures Place(stage) >= 1
  {
  }

  lemma HasRowsIs(rows: seq<Row>, id: nat)
    ensures HasRows(rows, id) <==> !(forall k :: 0 <= k < |rows| ==> rows[k].invoice != id)
  {
  }

  lemma FirstContactIs(inv: Invoice, now: int)
    ensures FirstContactStage(inv.due, now, inv.sentAt)
         == if IssuedLate(inv) && DaysLate(inv, now) >= 3 then Some(Overdue1) else DueStage(inv.due, now)
  {
    ReachedIff(inv, now, Overdue1);
    var due := DueStage(inv.due, now);
    DueIsPlaced(due, Overdue1);
    hide DueStage, DaysLate;
    if due.Some? {
      PlacesAndOffsets(due.value, Overdue1);
    }
  }

  lemma StageNowIs(rows: seq<Row>, inv: Invoice, now: int, stage: Stage)
    ensures StageNow(rows, inv, now) == Some(stage) <==> AtStage(rows, inv, now, stage)
  {
    hide DueStage, IsDue, FirstContactStage, HasRows;
    HasRowsIs(rows, inv.id);
    FirstContactIs(inv, now);
    DueStageIs(inv, now, stage);
  }

  // ---- one visit ----

  // The stage has been tried without success, fewer than three times; or not at all, and every stage the invoice has
  // a row for comes before it.
  ghost predicate MayTry(rows: seq<Row>, id: nat, stage: Stage) {
    || (exists k :: 0 <= k < |rows| && rows[k].invoice == id && rows[k].stage == stage && rows[k].sent == 0
                    && rows[k].attempts < 3)
    || forall k :: 0 <= k < |rows| && rows[k].invoice == id ==> Place(rows[k].stage) < Place(stage)
  }

  function CutError(error: string): Option<string> {
    if error == "" then None else Some(error[..if |error| > 500 then 500 else |error|])
  }

  function OneMore(r: Row, o: Outcome, now: int): Row {
    Row(r.invoice, r.stage, r.rank, r.attempts + 1, r.sent + o.sent, r.failed + o.failed, CutError(o.error), now)
  }

  // The row of the stage counts one more attempt, or is there with its first; no other row changes.
  ghost predicate Tried(rows: seq<Row>, after: seq<Row>, id: nat, stage: Stage, o: Outcome, now: int) {
    && |rows| <= |after|
    && (forall k :: 0 <= k < |rows| && rows[k].invoice == id && rows[k].stage == stage ==>
          after[k] == OneMore(rows[k], o, now))
    && (forall k :: 0 <= k < |rows| && !(rows[k].invoice == id && rows[k].stage == stage) ==> after[k] == rows[k])
    && if forall k :: 0 <= k < |rows| ==> !(rows[k].invoice == id && rows[k].stage == stage)
       then |after| == |rows| + 1
            && after[|rows|] == Row(id, stage, Place(stage), 1, o.sent, o.failed, CutError(o.error), now)
       else |after| == |rows|
  }

  lemma SkipsIs(rows: seq<Row>, inv: Invoice, stage: Stage)
    requires RanksRise(rows)
    ensures !Skips(rows, inv, stage) <==> MayTry(rows, inv.id, stage)
  {
    var found := Find(rows, inv.id, stage);
    hide Find;
    match found {
      case Some(k) =>
        forall j | 0 <= j < |rows| && rows[j].invoice == inv.id && rows[j].stage == stage ensures j == k {
          RowIsUnique(rows, j, k);
        }
        assert Place(rows[k].stage) == Place(stage);
        hide RanksRise;
      case None =>
        forall k | 0 <= k < |rows| && rows[k].invoice == inv.id ensures rows[k].rank == Place(rows[k].stage) {
          PlacesAndOffsets(rows[k].stage, stage);
        }
        PlacesAndOffsets(stage, stage);
        hide Rank, Place;
        OutranksAll(rows, inv.id, Rank(stage));
    }
  }

  lemma OutranksAll(rows: seq<Row>, id: nat, r: nat)
    requires r > 0
    ensures r > MaxRank(rows, id) <==> forall k :: 0 <= k < |rows| && rows[k].invoice == id ==> rows[k].rank < r
  {
  }

  lemma RecordIs(rows: seq<Row>, id: nat, stage: Stage, o: Outcome, now: int)
    requires RanksRise(rows)
    ensures Tried(rows, Record(rows, id, stage, o, Find(rows, id, stage), now), id, stage, o, now)
  {
    var found := Find(rows, id, stage);
    PlacesAndOffsets(stage, stage);
    ErrorIs(o.error);
    hide Find, Rank, Place, LastError, CutError;
    if found.Some? {
      forall j | 0 <= j < |rows| && rows[j].invoice == id && rows[j].stage == stage ensures j == found.value {
        RowIsUnique(rows, j, found.value);
      }
      hide RanksRise;
    }
  }

  lemma ErrorIs(error: string)
    ensures LastError(error) == CutError(error)
  {
    assert error[..|error|] == error;
  }

  /** What a visit does, from the ledger and the dates alone. If the invoice is at the stage and may be tried at it, the
      ledger counts the attempt, and exactly one mail goes out if it has recipients; in every other case mails and rows
      stay as they are. */
  lemma VisitIff(st: State, inv: Invoice, now: int, w: World)
    requires RanksRise(st.rows)
    ensures var after := Visit(st, inv, now, w);
      && (forall stage: Stage :: AtStage(st.rows, inv, now, stage) && MayTry(st.rows, inv.id, stage) ==>
            var o := if w.reachable(inv.id) then w.deliver(inv.id, stage) else Outcome(0, 0, "no recipients");
            && Tried(st.rows, after.rows, inv.id, stage, o, now)
            && after.mails == st.mails + if w.reachable(inv.id) then [Mail(inv.id, stage, o.sent)] else [])
      && ((forall stage: Stage :: !(AtStage(st.rows, inv, now, stage) && MayTry(st.rows, inv.id, stage))) ==>
            after == st)
  {
    hide *;
    forall stage: Stage | AtStage(st.rows, inv, now, stage) && MayTry(st.rows, inv.id, stage)
      ensures var o := if w.reachable(inv.id) then w.deliver(inv.id, stage) else Outcome(0, 0, "no recipients");
        && Tried(st.rows, Visit(st, inv, now, w).rows, inv.id, stage, o, now)
        && Visit(st, inv, now, w).mails == st.mails + if w.reachable(inv.id) then [Mail(inv.id, stage, o.sent)] else []
    {
      StageNowIs(st.rows, inv, now, stage);
      SkipsIs(st.rows, inv, stage);
      VisitTries(st, inv, now, w, stage);
      var o := if w.reachable(inv.id) then w.deliver(inv.id, stage) else Outcome(0, 0, "no recipients");
      RecordIs(st.rows, inv.id, stage, o, now);
    }
    if forall stage: Stage :: !(AtStage(st.rows, inv, now, stage) && MayTry(st.rows, inv.id, stage)) {
      VisitRests(st, inv, now, w);
    }
  }

  lemma VisitTries(st: State, inv: Invoice, now: int, w: World, stage: Stage)
    requires StageNow(st.rows, inv, now) == Some(stage) && !Skips(st.rows, inv, stage)
    ensures var o := if w.reachable(inv.id) then w.deliver(inv.id, stage) else Outcome(0, 0, "no recipients");
      Visit(st, inv, now, w)
      == State(Record(st.rows, inv.id, stage, o, Find(st.rows, inv.id, stage), now),
               st.mails + if w.reachable(inv.id) then [Mail(inv.id, stage, o.sent)] else [])
  {
    hide StageNow, Skips, Record, Find;
    assert st.mails + [] == st.mails;
  }

  lemma VisitRests(st: State, inv: Invoice, now: int, w: World)
    requires RanksRise(st.rows)
    requires forall stage: Stage :: !(AtStage(st.rows, inv, now, stage) && MayTry(st.rows, inv.id, stage))
    ensures Visit(st, inv, now, w) == st
  {
    var at := StageNow(st.rows, inv, now);
    if at.Some? {
      StageNowIs(st.rows, inv, now, at.value);
      SkipsIs(st.rows, inv, at.value);
      hide StageNow, Skips, AtStage, MayTry;
      assert AtStage(st.rows, inv, now, at.value);
    }
    hide StageNow, Skips, AtStage, MayTry, Record, Find;
  }

  // ---- runs ----

  // The invoice's stage has had `tries` attempts, the last of which delivered it or not; before the first one every
  // stage the invoice has a row for comes before it.
  ghost predicate Stands(rows: seq<Row>, id: nat, stage: Stage, tries: nat, done: bool) {
    if tries == 0 then !done && forall k :: 0 <= k < |rows| && rows[k].invoice == id ==> Place(rows[k].stage) < Place(stage)
    else exists k :: 0 <= k < |rows| && rows[k].invoice == id && rows[k].stage == stage
                     && rows[k].attempts == tries && (rows[k].sent > 0 <==> done)
  }

  // How many mails were written for the stage, whether anybody got them or not.
  function Written(mails: seq<Mail>, id: nat, stage: Stage): nat {
    if mails == [] then 0
    else
      var m := mails[|mails| - 1];
      Written(mails[..|mails| - 1], id, stage) + if m.invoice == id && m.stage == stage then 1 else 0
  }

  lemma WrittenAppend(mails: seq<Mail>, m: Mail, id: nat, stage: Stage)
    ensures Written(mails + [m], id, stage) == Written(mails, id, stage) + if m.invoice == id && m.stage == stage then 1 else 0
    ensures Written(mails + [], id, stage) == Written(mails, id, stage)
  {
    assert (mails + [m])[..|mails|] == mails && mails + [] == mails;
  }

  // The attempts left to make: until one succeeds, and three at most in all.
  function TriesAhead(outcomes: seq<nat>, tries: nat, done: bool): nat
    decreases outcomes
  {
    if outcomes == [] || done || tries >= 3 then 0 else 1 + TriesAhead(outcomes[1..], tries + 1, outcomes[0] > 0)
  }

  lemma OnlyOneAtOnce(rows: seq<Row>, inv: Invoice, now: int, a: Stage, b: Stage)
    requires AtStage(rows, inv, now, a) && AtStage(rows, inv, now, b)
    ensures a == b
  {
    StageNowIs(rows, inv, now, a);
    StageNowIs(rows, inv, now, b);
    hide StageNow, AtStage;
  }

  lemma StandsMayTry(rows: seq<Row>, id: nat, stage: Stage, tries: nat, done: bool)
    requires RanksRise(rows) && Stands(rows, id, stage, tries, done)
    ensures MayTry(rows, id, stage) <==> !done && tries < 3
  {
    if tries > 0 {
      var k :| 0 <= k < |rows| && rows[k].invoice == id && rows[k].stage == stage
               && rows[k].attempts == tries && (rows[k].sent > 0 <==> done);
      forall j | 0 <= j < |rows| && rows[j].invoice == id && rows[j].stage == stage ensures j == k {
        RowIsUnique(rows, j, k);
      }
      hide RanksRise;
      assert Place(rows[k].stage) == Place(stage);
    }
  }

  lemma TriedStands(rows: seq<Row>, after: seq<Row>, id: nat, stage: Stage, o: Outcome, now: int, tries: nat)
    requires Tried(rows, after, id, stage, o, now) && Stands(rows, id, stage, tries, false)
    ensures Stands(after, id, stage, tries + 1, o.sent > 0)
  {
    if tries > 0 {
      var k :| 0 <= k < |rows| && rows[k].invoice == id && rows[k].stage == stage
               && rows[k].attempts == tries && rows[k].sent == 0;
      hide Place;
      assert after[k].stage == stage;
    } else {
      assert forall k :: 0 <= k < |rows| ==> !(rows[k].invoice == id && rows[k].stage == stage);
      hide Place;
      assert after[|rows|].stage == stage;
    }
  }

  lemma TriedElsewhere(rows: seq<Row>, after: seq<Row>, other: nat, s: Stage, o: Outcome, now: int,
                       id: nat, stage: Stage, tries: nat, done: bool)
    requires Tried(rows, after, other, s, o, now) && other != id && Stands(rows, id, stage, tries, done)
    ensures Stands(after, id, stage, tries, done)
    ensures (forall k :: 0 <= k < |rows| ==> rows[k].invoice != id) <==> forall k :: 0 <= k < |after| ==> after[k].invoice != id
  {
    hide Place;
    if tries > 0 {
      var k :| 0 <= k < |rows| && rows[k].invoice == id && rows[k].stage == stage
               && rows[k].attempts == tries && (rows[k].sent > 0 <==> done);
      assert after[k] == rows[k];
    }
    assert forall k :: 0 <= k < |rows| ==> after[k].invoice == rows[k].invoice;
  }

  // The stage is not held back: the invoice has a row, or was issued in time, or the stage is an early one.
  ghost predicate NotHeld(rows: seq<Row>, inv: Invoice, stage: Stage) {
    !(forall k :: 0 <= k < |rows| ==> rows[k].invoice != inv.id) || !IssuedLate(inv) || Offset(stage) <= 3
  }

  lemma DueIsAtStage(rows: seq<Row>, inv: Invoice, now: int, stage: Stage)
    requires IsDue(inv, now, stage) && NotHeld(rows, inv, stage)
    ensures AtStage(rows, inv, now, stage)
  {
    hide IssuedLate, DaysLate;
    assert Offset(Overdue1) == 3;
  }

  lemma OtherVisit(st: State, other: Invoice, now: int, w: World, inv: Invoice, stage: Stage, tries: nat, done: bool)
    requires RanksRise(st.rows) && other.id != inv.id
    requires Stands(st.rows, inv.id, stage, tries, done) && NotHeld(st.rows, inv, stage)
    ensures var after := Visit(st, other, now, w);
      && Stands(after.rows, inv.id, stage, tries, done) && NotHeld(after.rows, inv, stage)
      && Written(after.mails, inv.id, stage) == Written(st.mails, inv.id, stage)
  {
    VisitIff(st, other, now, w);
    hide Visit, RanksRise, AtStage, MayTry, Tried, Stands, Written, IssuedLate, Offset;
    if s: Stage :| AtStage(st.rows, other, now, s) && MayTry(st.rows, other.id, s) {
      var o := if w.reachable(other.id) then w.deliver(other.id, s) else Outcome(0, 0, "no recipients");
      TriedElsewhere(st.rows, Visit(st, other, now, w).rows, other.id, s, o, now, inv.id, stage, tries, done);
      WrittenAppend(st.mails, Mail(other.id, s, o.sent), inv.id, stage);
    }
  }

  lemma OwnVisit(st: State, inv: Invoice, now: int, w: World, stage: Stage, tries: nat, done: bool)
    requires RanksRise(st.rows) && AtStage(st.rows, inv, now, stage) && w.reachable(inv.id)
    requires Stands(st.rows, inv.id, stage, tries, done)
    ensures var after, o := Visit(st, inv, now, w), w.deliver(inv.id, stage);
      if !done && tries < 3
      then Stands(after.rows, inv.id, stage, tries + 1, o.sent > 0)
           && Written(after.mails, inv.id, stage) == Written(st.mails, inv.id, stage) + 1
      else after == st
  {
    VisitIff(st, inv, now, w);
    StandsMayTry(st.rows, inv.id, stage, tries, done);
    hide Visit, RanksRise, AtStage, MayTry, Tried, Stands, Written;
    var o := w.deliver(inv.id, stage);
    if !done && tries < 3 {
      TriedStands(st.rows, Visit(st, inv, now, w).rows, inv.id, stage, o, now, tries);
      WrittenAppend(st.mails, Mail(inv.id, stage, o.sent), inv.id, stage);
    } else {
      forall s: Stage ensures !(AtStage(st.rows, inv, now, s) && MayTry(st.rows, inv.id, s)) {
        if AtStage(st.rows, inv, now, s) {
          OnlyOneAtOnce(st.rows, inv, now, s, stage);
        }
      }
    }
  }

  lemma InvRanks(st: State)
    requires Inv(st)
    ensures RanksRise(st.rows)
  {
  }

  lemma {:induction false} SweepOthers(st: State, others: seq<Invoice>, now: int, w: World, inv: Invoice, stage: Stage,
                                       tries: nat, done: bool)
    requires Inv(st) && forall k :: 0 <= k < |others| ==> others[k].id != inv.id
    requires Stands(st.rows, inv.id, stage, tries, done) && NotHeld(st.rows, inv, stage)
    ensures var after := Sweep(st, others, now, w);
      && Inv(after) && Stands(after.rows, inv.id, stage, tries, done) && NotHeld(after.rows, inv, stage)
      && Written(after.mails, inv.id, stage) == Written(st.mails, inv.id, stage)
    decreases others
  {
    if others != [] {
      InvRanks(st);
      VisitKeeps(st, others[0], now, w);
      OtherVisit(st, others[0], now, w, inv, stage, tries, done);
      hide Inv, Visit, Stands, NotHeld, Written, Extends;
      SweepOthers(Visit(st, others[0], now, w), others[1..], now, w, inv, stage, tries, done);
    }
  }

  // The sweep comes to the invoice once, at the stage, and it has recipients.
  ghost predicate ComesTo(call: SweepCall, inv: Invoice, stage: Stage) {
    && (exists p :: 0 <= p < |call.invoices| && call.invoices[p] == inv
                    && forall q :: 0 <= q < |call.invoices| && q != p ==> call.invoices[q].id != inv.id)
    && IsDue(inv, call.now, stage) && call.world.reachable(inv.id)
  }

  // Where the invoice stands after a visit at the stage.
  function NextTries(tries: nat, done: bool): nat {
    if !done && tries < 3 then tries + 1 else tries
  }

  function NextDone(tries: nat, done: bool, sent: nat): bool {
    if !done && tries < 3 then sent > 0 else done
  }

  lemma OwnTurn(st: State, inv: Invoice, now: int, w: World, stage: Stage, tries: nat, done: bool)
    requires Inv(st) && IsDue(inv, now, stage) && w.reachable(inv.id)
    requires Stands(st.rows, inv.id, stage, tries, done) && NotHeld(st.rows, inv, stage)
    ensures var after, sent := Visit(st, inv, now, w), w.deliver(inv.id, stage).sent;
      && Inv(after) && NotHeld(after.rows, inv, stage)
      && Stands(after.rows, inv.id, stage, NextTries(tries, done), NextDone(tries, done, sent))
      && Written(after.mails, inv.id, stage)
         == Written(st.mails, inv.id, stage) + if !done && tries < 3 then 1 else 0
  {
    InvRanks(st);
    VisitKeeps(st, inv, now, w);
    DueIsAtStage(st.rows, inv, now, stage);
    OwnVisit(st, inv, now, w, stage, tries, done);
    var after := Visit(st, inv, now, w);
    hide Inv, Visit, Written, Extends, IsDue, AtStage, RanksRise;
    if !done && tries < 3 {
      StandsHasRow(after.rows, inv, stage, tries + 1, NextDone(tries, done, w.deliver(inv.id, stage).sent));
    }
    hide Stands, NotHeld;
  }

  lemma StandsHasRow(rows: seq<Row>, inv: Invoice, stage: Stage, tries: nat, done: bool)
    requires Stands(rows, inv.id, stage, tries, done) && tries > 0
    ensures NotHeld(rows, inv, stage)
  {
  }

  lemma {:induction false} SweepTries(st: State, call: SweepCall, inv: Invoice, stage: Stage, tries: nat, done: bool)
    requires Inv(st) && ComesTo(call, inv, stage)
    requires Stands(st.rows, inv.id, stage, tries, done) && NotHeld(st.rows, inv, stage)
    ensures var after, sent := Sweep(st, call.invoices, call.now, call.world), call.world.deliver(inv.id, stage).sent;
      && Inv(after) && NotHeld(after.rows, inv, stage)
      && Stands(after.rows, inv.id, stage, NextTries(tries, done), NextDone(tries, done, sent))
      && Written(after.mails, inv.id, stage)
         == Written(st.mails, inv.id, stage) + if !done && tries < 3 then 1 else 0
  {
    hide *;
    var pre, post := Around(call, inv, stage);
    var now, w, sent := call.now, call.world, call.world.deliver(inv.id, stage).sent;
    SweepSplit(st, pre, [inv] + post, now, w);
    SweepOthers(st, pre, now, w, inv, stage, tries, done);
    var mid := Sweep(st, pre, now, w);
    SweepOne(mid, inv, post, now, w);
    OwnTurn(mid, inv, now, w, stage, tries, done);
    SweepOthers(Visit(mid, inv, now, w), post, now, w, inv, stage, NextTries(tries, done), NextDone(tries, done, sent));
  }

  lemma Around(call: SweepCall, inv: Invoice, stage: Stage) returns (pre: seq<Invoice>, post: seq<Invoice>)
    requires ComesTo(call, inv, stage)
    ensures call.invoices == pre + ([inv] + post)
    ensures (forall k :: 0 <= k < |pre| ==> pre[k].id != inv.id) && (forall k :: 0 <= k < |post| ==> post[k].id != inv.id)
    ensures IsDue(inv, call.now, stage) && call.world.reachable(inv.id)
  {
    hide IsDue;
    var p :| 0 <= p < |call.invoices| && call.invoices[p] == inv
             && forall q :: 0 <= q < |call.invoices| && q != p ==> call.invoices[q].id != inv.id;
    pre, post := call.invoices[..p], call.invoices[p + 1..];
    CutAround(call.invoices, p, inv, pre, post);
  }

  lemma CutAround(invoices: seq<Invoice>, p: nat, inv: Invoice, pre: seq<Invoice>, post: seq<Invoice>)
    requires p < |invoices| && invoices[p] == inv && pre == invoices[..p] && post == invoices[p + 1..]
    requires forall q :: 0 <= q < |invoices| && q != p ==> invoices[q].id != inv.id
    ensures invoices == pre + ([inv] + post)
    ensures (forall k :: 0 <= k < |pre| ==> pre[k].id != inv.id) && (forall k :: 0 <= k < |post| ==> post[k].id != inv.id)
  {
    CutAt(invoices, p);
    assert forall k :: 0 <= k < |post| ==> post[k] == invoices[p + 1 + k];
  }

  lemma CutAt<T>(s: seq<T>, p: nat)
    requires p < |s|
    ensures s == s[..p] + ([s[p]] + s[p + 1..])
  {
  }

  lemma SweepOne(st: State, inv: Invoice, post: seq<Invoice>, now: int, w: World)
    ensures Sweep(st, [inv] + post, now, w) == Sweep(Visit(st, inv, now, w), post, now, w)
  {
    hide Visit;
    assert ([inv] + post)[0] == inv && ([inv] + post)[1..] == post;
  }

  // How many mails each sweep would get through.
  function Outcomes(calls: seq<SweepCall>, id: nat, stage: Stage): seq<nat> {
    seq<nat>(|calls|, k requires 0 <= k < |calls| => calls[k].world.deliver(id, stage).sent)
  }

  /** A failed reminder is tried again. Over any run of sweeps that come to an invoice at a stage, the stage is mailed in
      each of them until one gets through, and three times at most: exactly as often as the outcomes say. */
  lemma {:induction false} FailedIsTriedAgain(st: State, calls: seq<SweepCall>, inv: Invoice, stage: Stage, tries: nat,
                                              done: bool)
    requires Inv(st) && forall k :: 0 <= k < |calls| ==> ComesTo(calls[k], inv, stage)
    requires Stands(st.rows, inv.id, stage, tries, done) && NotHeld(st.rows, inv, stage)
    ensures Written(Run(st, calls).mails, inv.id, stage)
         == Written(st.mails, inv.id, stage) + TriesAhead(Outcomes(calls, inv.id, stage), tries, done)
    decreases calls
  {
    if calls != [] {
      var c := calls[0];
      var outcomes := Outcomes(calls, inv.id, stage);
      assert outcomes[0] == c.world.deliver(inv.id, stage).sent && |outcomes| == |calls|;
      assert outcomes[1..] == Outcomes(calls[1..], inv.id, stage);
      assert Run(st, calls) == Run(Sweep(st, c.invoices, c.now, c.world), calls[1..]);
      hide *;
      SweepTries(st, c, inv, stage, tries, done);
      FailedIsTriedAgain(Sweep(st, c.invoices, c.now, c.world), calls[1..], inv, stage, NextTries(tries, done),
                         NextDone(tries, done, outcomes[0]));
      OneAhead(outcomes, tries, done);
    } else {
      NothingAhead(tries, done);
    }
  }

  lemma OneAhead(outcomes: seq<nat>, tries: nat, done: bool)
    requires outcomes != []
    ensures TriesAhead(outcomes, tries, done)
         == (if !done && tries < 3 then 1 else 0)
            + TriesAhead(outcomes[1..], NextTries(tries, done), NextDone(tries, done, outcomes[0]))
  {
    if done || tries >= 3 {
      NoneAhead(outcomes[1..], tries, done);
    }
  }

  lemma NothingAhead(tries: nat, done: bool)
    ensures TriesAhead([], tries, done) == 0
    ensures forall st :: Run(st, []) == st
  {
  }

  lemma NoneAhead(outcomes: seq<nat>, tries: nat, done: bool)
    requires done || tries >= 3
    ensures TriesAhead(outcomes, tries, done) == 0
  {
  }
}
