/** What the reaper and the other wallet transactions do, row by row and balance by balance. */
module ReaperEffects {
  import opened Common
  import opened WalletLedger
  import opened ReaperTask
  import P = ReaperProtocol

  // ---- which rows are taken ----

  ghost predicate Waiting(r: Reservation, before: int) {
    r.status == Open && r.createdAt < before
  }

  lemma {:induction false} InsertDistinct(rs: seq<Reservation>, ids: seq<Id>, id: Id)
    requires id < |rs| && Distinct(ids) && id !in ids && forall k :: 0 <= k < |ids| ==> ids[k] < |rs|
    ensures Distinct(Insert(rs, ids, id))
  {
    if ids != [] && rs[id].createdAt >= rs[ids[0]].createdAt {
      var rest := ids[1..];
      assert ids == [ids[0]] + rest;
      assert forall k :: 0 <= k < |rest| ==> rest[k] == ids[k + 1];
      InsertDistinct(rs, rest, id);
      InsertMember(rs, rest, id, ids[0]);
      assert ids[0] !in rest;
      hide Insert;
    }
  }

  lemma {:induction false} StaleDistinct(rs: seq<Reservation>, cutoff: int, n: nat)
    requires n <= |rs|
    ensures Distinct(StaleUpTo(rs, cutoff, n))
  {
    if n > 0 {
      StaleDistinct(rs, cutoff, n - 1);
      hide Insert, Stale, Distinct;
      InsertDistinct(rs, StaleUpTo(rs, cutoff, n - 1), n - 1);
    }
  }

  /** A sweep takes open rows created before the cutoff, each once, oldest first; it leaves such a row only if it has
      taken a hundred that are at least as old. */
  lemma SnapshotIs(rs: seq<Reservation>, cutoff: int)
    ensures var ids := Snapshot(rs, cutoff);
      && Distinct(ids) && |ids| <= 100
      && (forall k :: 0 <= k < |ids| ==> ids[k] < |rs| && Waiting(rs[ids[k]], cutoff))
      && (forall i, j :: 0 <= i < j < |ids| ==>
            ids[i] < |rs| && ids[j] < |rs| && rs[ids[i]].createdAt <= rs[ids[j]].createdAt)
      && (forall x :: 0 <= x < |rs| && Waiting(rs[x], cutoff) && x !in ids ==>
            |ids| == 100 && forall k :: 0 <= k < |ids| ==> ids[k] < |rs| && rs[ids[k]].createdAt <= rs[x].createdAt)
  {
    var ids := Snapshot(rs, cutoff);
    SnapshotDistinct(rs, cutoff);
    SnapshotRight(rs, cutoff);
    hide *;
    TakenWaiting(rs, ids, cutoff);
    LeftWaiting(rs, ids, cutoff);
  }

  lemma SnapshotDistinct(rs: seq<Reservation>, cutoff: int)
    ensures Distinct(Snapshot(rs, cutoff))
  {
    StaleDistinct(rs, cutoff, |rs|);
    hide StaleUpTo;
  }

  lemma TakenWaiting(rs: seq<Reservation>, ids: seq<Id>, cutoff: int)
    requires OldestFirst(rs, ids) && |ids| <= REAP_BATCH && forall x :: x in ids ==> StaleAt(rs, cutoff, x)
    ensures |ids| <= 100
    ensures forall k :: 0 <= k < |ids| ==> ids[k] < |rs| && Waiting(rs[ids[k]], cutoff)
    ensures forall i, j :: 0 <= i < j < |ids| ==>
      ids[i] < |rs| && ids[j] < |rs| && rs[ids[i]].createdAt <= rs[ids[j]].createdAt
  {
    forall k | 0 <= k < |ids| ensures ids[k] < |rs| && Waiting(rs[ids[k]], cutoff) {
      assert StaleAt(rs, cutoff, ids[k]);
    }
    hide Waiting;
  }

  lemma LeftWaiting(rs: seq<Reservation>, ids: seq<Id>, cutoff: int)
    requires forall x :: StaleAt(rs, cutoff, x) && x !in ids ==> |ids| == REAP_BATCH && NoneYounger(rs, ids, x)
    ensures forall x :: 0 <= x < |rs| && Waiting(rs[x], cutoff) && x !in ids ==>
      |ids| == 100 && forall k :: 0 <= k < |ids| ==> ids[k] < |rs| && rs[ids[k]].createdAt <= rs[x].createdAt
  {
    forall x | 0 <= x < |rs| && Waiting(rs[x], cutoff) && x !in ids
      ensures |ids| == 100 && forall k :: 0 <= k < |ids| ==> ids[k] < |rs| && rs[ids[k]].createdAt <= rs[x].createdAt
    {
      assert StaleAt(rs, cutoff, x);
    }
  }

  // ---- what a sweep leaves ----

  // The holds of an organisation's rows among those taken.
  function HoldsOf(rs: seq<Reservation>, ids: seq<Id>, org: Org): nat
    requires forall k :: 0 <= k < |ids| ==> ids[k] < |rs|
  {
    if ids == [] then 0
    else HoldsOf(rs, ids[..|ids| - 1], org) + if rs[ids[|ids| - 1]].org == org then rs[ids[|ids| - 1]].hold else 0
  }

  function AllHolds(rs: seq<Reservation>, ids: seq<Id>): nat
    requires forall k :: 0 <= k < |ids| ==> ids[k] < |rs|
  {
    if ids == [] then 0 else AllHolds(rs, ids[..|ids| - 1]) + rs[ids[|ids| - 1]].hold
  }

  // The tables after the first `n` rows taken were paid back: the reservations, the wallets and the ledger.
  ghost predicate RowsPaid(rs: seq<Reservation>, now: seq<Reservation>, ids: seq<Id>, n: nat)
    requires n <= |ids|
  {
    && |now| == |rs|
    && forall x :: 0 <= x < |rs| ==> now[x] == if x in ids[..n] then rs[x].(status := Released) else rs[x]
  }

  ghost predicate WalletsPaid(db: Db, d: Db, ids: seq<Id>, n: nat)
    requires n <= |ids| && forall k :: 0 <= k < |ids| ==> ids[k] < |db.reservations|
  {
    && d.wallets.Keys == db.wallets.Keys
    && forall o :: o in db.wallets ==> o in d.wallets && d.wallets[o] == db.wallets[o] + HoldsOf(db.reservations, ids[..n], o)
  }

  // The ledger's row for the k-th row taken.
  ghost predicate PaidEntry(db: Db, row: Row, ids: seq<Id>, k: nat)
    requires k < |ids| && forall k :: 0 <= k < |ids| ==> ids[k] < |db.reservations|
  {
    var r := db.reservations[ids[k]];
    && r.org in db.wallets
    && row == Row(r.org, Release, r.hold, db.wallets[r.org] + HoldsOf(db.reservations, ids[..k + 1], r.org), Some(ids[k]))
  }

  ghost predicate LedgerPaid(db: Db, ledger: seq<Row>, ids: seq<Id>, n: nat)
    requires n <= |ids| && forall k :: 0 <= k < |ids| ==> ids[k] < |db.reservations|
  {
    && |ledger| == |db.ledger| + n && ledger[..|db.ledger|] == db.ledger
    && var paid := ledger[|db.ledger|..];
       forall k :: 0 <= k < n ==> PaidEntry(db, paid[k], ids, k)
  }

  ghost predicate PaidBack(db: Db, d: Db, ids: seq<Id>, n: nat)
    requires n <= |ids| && forall k :: 0 <= k < |ids| ==> ids[k] < |db.reservations|
  {
    && RowsPaid(db.reservations, d.reservations, ids, n)
    && WalletsPaid(db, d, ids, n)
    && LedgerPaid(db, d.ledger, ids, n)
  }

  lemma TakeOneMore(ids: seq<Id>, n: nat)
    requires n < |ids|
    ensures ids[..n + 1][..n] == ids[..n] && ids[..n + 1] == ids[..n] + [ids[n]]
    ensures ids[n..] != [] && ids[n..][0] == ids[n] && ids[n..][1..] == ids[n + 1..]
  {
  }

  lemma HoldsStep(rs: seq<Reservation>, ids: seq<Id>, n: nat, org: Org)
    requires n < |ids| && forall k :: 0 <= k < |ids| ==> ids[k] < |rs|
    ensures HoldsOf(rs, ids[..n + 1], org) == HoldsOf(rs, ids[..n], org) + if rs[ids[n]].org == org then rs[ids[n]].hold else 0
    ensures AllHolds(rs, ids[..n + 1]) == AllHolds(rs, ids[..n]) + rs[ids[n]].hold
  {
    TakeOneMore(ids, n);
  }

  lemma NotBefore(ids: seq<Id>, n: nat)
    requires Distinct(ids) && n < |ids|
    ensures ids[n] !in ids[..n]
  {
  }

  lemma RowUntouched(db: Db, d: Db, ids: seq<Id>, n: nat)
    requires Distinct(ids) && n < |ids| && (forall k :: 0 <= k < |ids| ==> ids[k] < |db.reservations|) && PaidBack(db, d, ids, n)
    ensures ids[n] < |d.reservations| && d.reservations[ids[n]] == db.reservations[ids[n]]
    ensures d.reservations[ids[n]].org in d.wallets <==> db.reservations[ids[n]].org in db.wallets
  {
    NotBefore(ids, n);
    hide HoldsOf, Distinct;
  }

  lemma WalletsAfter(db: Db, d: Db, e: Db, ids: seq<Id>, n: nat, r: Reservation, balance: int)
    requires n < |ids| && (forall k :: 0 <= k < |ids| ==> ids[k] < |db.reservations|) && PaidBack(db, d, ids, n)
    requires r == db.reservations[ids[n]] && r.org in d.wallets && balance == d.wallets[r.org] + r.hold
    requires e.wallets == d.wallets[r.org := balance]
    ensures WalletsPaid(db, e, ids, n + 1)
    ensures r.org in db.wallets && balance == db.wallets[r.org] + HoldsOf(db.reservations, ids[..n + 1], r.org)
  {
    forall o | o in db.wallets
      ensures HoldsOf(db.reservations, ids[..n + 1], o)
           == HoldsOf(db.reservations, ids[..n], o) + if r.org == o then r.hold else 0
    {
      HoldsStep(db.reservations, ids, n, o);
    }
    hide HoldsOf;
  }

  lemma PayOne(db: Db, d: Db, ids: seq<Id>, n: nat)
    requires Distinct(ids) && n < |ids| && (forall k :: 0 <= k < |ids| ==> ids[k] < |db.reservations|) && PaidBack(db, d, ids, n)
    requires db.reservations[ids[n]].status == Open && db.reservations[ids[n]].org in db.wallets
    ensures ids[n] < |d.reservations| && d.reservations[ids[n]].status == Open
    ensures PaidBack(db, Refund(d, ids[n]), ids, n + 1)
  {
    RowUntouched(db, d, ids, n);
    var id, r := ids[n], db.reservations[ids[n]];
    var e := RefundIs(d, id);
    var balance := d.wallets[r.org] + r.hold;
    WalletsAfter(db, d, e, ids, n, r, balance);
    TakeOneMore(ids, n);
    hide HoldsOf, Refund, Distinct;
    PaidRows(db, d, e, ids, n, balance);
  }

  lemma PaidRows(db: Db, d: Db, e: Db, ids: seq<Id>, n: nat, balance: int)
    requires n < |ids| && (forall k :: 0 <= k < |ids| ==> ids[k] < |db.reservations|) && PaidBack(db, d, ids, n)
    requires var r := db.reservations[ids[n]];
      && d.reservations[ids[n]] == r && r.org in db.wallets
      && balance == db.wallets[r.org] + HoldsOf(db.reservations, ids[..n + 1], r.org)
      && e.reservations == d.reservations[ids[n] := r.(status := Released)]
      && e.ledger == d.ledger + [Row(r.org, Release, r.hold, balance, Some(ids[n]))]
    requires WalletsPaid(db, e, ids, n + 1)
    ensures PaidBack(db, e, ids, n + 1)
  {
    hide HoldsOf, WalletsPaid, PaidEntry, RowsPaid, LedgerPaid;
    OneReleased(db.reservations, d.reservations, e.reservations, ids, n);
    OneEntered(db, d.ledger, e.ledger, ids, n, balance);
  }

  lemma OneReleased(rs: seq<Reservation>, was: seq<Reservation>, now: seq<Reservation>, ids: seq<Id>, n: nat)
    requires n < |ids| && ids[n] < |rs| && RowsPaid(rs, was, ids, n)
    requires was[ids[n]] == rs[ids[n]] && now == was[ids[n] := rs[ids[n]].(status := Released)]
    ensures RowsPaid(rs, now, ids, n + 1)
  {
    TakeOneMore(ids, n);
    forall x | 0 <= x < |rs|
      ensures now[x] == if x in ids[..n + 1] then rs[x].(status := Released) else rs[x]
    {
      assert x in ids[..n + 1] <==> x in ids[..n] || x == ids[n];
    }
  }

  lemma OneEntered(db: Db, was: seq<Row>, ledger: seq<Row>, ids: seq<Id>, n: nat, balance: int)
    requires n < |ids| && (forall k :: 0 <= k < |ids| ==> ids[k] < |db.reservations|) && LedgerPaid(db, was, ids, n)
    requires var r := db.reservations[ids[n]];
      && r.org in db.wallets && balance == db.wallets[r.org] + HoldsOf(db.reservations, ids[..n + 1], r.org)
      && ledger == was + [Row(r.org, Release, r.hold, balance, Some(ids[n]))]
    ensures LedgerPaid(db, ledger, ids, n + 1)
  {
    hide HoldsOf;
    var m := |db.ledger|;
    assert PaidEntry(db, ledger[m..][n], ids, n);
    hide PaidEntry;
    assert ledger[..m] == was[..m];
    assert ledger[m..] == was[m..] + [ledger[m + n]];
  }

  // From the n-th on, every row taken belongs to a wallet.
  ghost predicate Housed(db: Db, ids: seq<Id>, n: nat) {
    forall k :: n <= k < |ids| ==> ids[k] < |db.reservations| && db.reservations[ids[k]].org in db.wallets
  }

  ghost predicate AllOpen(db: Db, ids: seq<Id>) {
    forall k :: 0 <= k < |ids| ==> ids[k] < |db.reservations| && db.reservations[ids[k]].status == Open
  }

  lemma HousedFirst(db: Db, ids: seq<Id>, n: nat)
    requires AllOpen(db, ids) && n < |ids|
    ensures ids[n] < |db.reservations| && db.reservations[ids[n]].status == Open
    ensures Housed(db, ids, n) <==> db.reservations[ids[n]].org in db.wallets && Housed(db, ids, n + 1)
    ensures forall k :: 0 <= k < |ids| ==> ids[k] < |db.reservations|
  {
  }

  lemma {:induction false} ReapFrom(db: Db, d: Db, ids: seq<Id>, n: nat, released: nat, refunded: int)
    requires Distinct(ids) && n <= |ids| && (forall k :: 0 <= k < |ids| ==> ids[k] < |db.reservations|)
    requires AllOpen(db, ids) && PaidBack(db, d, ids, n)
    requires forall k :: 0 <= k < |ids| ==> ids[k] < |d.reservations|
    ensures var out := Reap(d, ids[n..], released, refunded);
      && (out == Failed <==> !Housed(db, ids, n))
      && (out != Failed ==>
            && out.released == released + |ids| - n
            && out.refunded == refunded + AllHolds(db.reservations, ids) - AllHolds(db.reservations, ids[..n])
            && PaidBack(db, out.db, ids, |ids|))
    decreases |ids| - n
  {
    hide *;
    if n == |ids| {
      ReapNone(db, d, ids, released, refunded);
    } else {
      RowUntouched(db, d, ids, n);
      TakeOneMore(ids, n);
      ReapFirst(d, ids[n..], released, refunded);
      HousedFirst(db, ids, n);
      if db.reservations[ids[n]].org in db.wallets {
        PayOne(db, d, ids, n);
        HoldsStep(db.reservations, ids, n, 0);
        SameTable(d, ids[n]);
        ReapFrom(db, Refund(d, ids[n]), ids, n + 1, released + 1, refunded + db.reservations[ids[n]].hold);
      }
    }
  }

  lemma ReapNone(db: Db, d: Db, ids: seq<Id>, released: nat, refunded: int)
    ensures ids[|ids|..] == [] && ids[..|ids|] == ids && Housed(db, ids, |ids|)
    ensures Reap(d, ids[|ids|..], released, refunded) == Reaped(d, released, refunded)
  {
  }

  lemma SameTable(d: Db, id: Id)
    requires id < |d.reservations| && d.reservations[id].status == Open
    ensures |Refund(d, id).reservations| == |d.reservations|
  {
  }

  lemma ReapFirst(d: Db, ids: seq<Id>, released: nat, refunded: int)
    requires ids != [] && forall k :: 0 <= k < |ids| ==> ids[k] < |d.reservations|
    ensures var r := d.reservations[ids[0]];
      r.status == Open ==>
        Reap(d, ids, released, refunded)
        == if r.org !in d.wallets then Failed else Reap(Refund(d, ids[0]), ids[1..], released + 1, refunded + r.hold)
  {
    hide Refund;
  }

  lemma NothingPaid(db: Db, ids: seq<Id>)
    requires forall k :: 0 <= k < |ids| ==> ids[k] < |db.reservations|
    ensures PaidBack(db, db, ids, 0) && ids[0..] == ids && AllHolds(db.reservations, ids[..0]) == 0
  {
  }

  /** What a sweep leaves, run alone. It fails, and is rolled back, exactly if a row it has taken belongs to no wallet.
      Otherwise exactly the rows taken are released; each organisation's balance grows by its holds among them; the ledger
      gains one row for each, in order, with the balance after it; and the two counters are their number and their
      holds. */
  lemma SweepLeaves(db: Db, cutoff: int)
    ensures var ids := Snapshot(db.reservations, cutoff);
      && (forall k :: 0 <= k < |ids| ==> ids[k] < |db.reservations|)
      && var out := Reap(db, ids, 0, 0);
         && (out == Failed <==> !Housed(db, ids, 0))
         && (out != Failed ==>
               out.released == |ids| && out.refunded == AllHolds(db.reservations, ids) && PaidBack(db, out.db, ids, |ids|))
  {
    var ids := Snapshot(db.reservations, cutoff);
    SnapshotIs(db.reservations, cutoff);
    assert AllOpen(db, ids) by {
      hide Snapshot;
      assert forall k :: 0 <= k < |ids| ==> ids[k] < |db.reservations| && Waiting(db.reservations[ids[k]], cutoff);
    }
    hide *;
    InRange(db, ids);
    NothingPaid(db, ids);
    ReapFrom(db, db, ids, 0, 0, 0);
  }

  lemma InRange(db: Db, ids: seq<Id>)
    requires AllOpen(db, ids)
    ensures forall k :: 0 <= k < |ids| ==> ids[k] < |db.reservations|
  {
  }

  // ---- the other transactions, undisturbed ----

  function MoneyOf(wallets: map<Org, int>, org: Org): int {
    if org in wallets then wallets[org] else 0
  }

  // The tables after an amount was moved and booked.
  function Booked(db: Db, reservations: seq<Reservation>, org: Org, kind: Kind, delta: int, id: Option<Id>): Db {
    Db(db.wallets[org := MoneyOf(db.wallets, org) + delta], reservations,
       db.ledger + [Row(org, kind, delta, MoneyOf(db.wallets, org) + delta, id)])
  }

  /** A top-up of at least one is booked; a smaller one is refused. */
  lemma TopUpIff(s: P.Sys, org: Org, amount: int)
    requires P.Sized(s)
    ensures P.Next(s, P.TopUp(org, amount)).db
         == if amount >= 1 then Booked(s.db, s.db.reservations, org, Topup, amount, None) else s.db
  {
  }

  /** A reservation succeeds if and only if its hold is at least one and the balance covers it; it is then open, under a
      new id, and the hold is off the balance. */
  lemma ReserveIff(s: P.Sys, org: Org, hold: int, createdAt: int)
    requires P.Sized(s)
    ensures P.Next(s, P.Take(org, hold, createdAt)).db
         == if 1 <= hold <= MoneyOf(s.db.wallets, org)
            then Booked(s.db, s.db.reservations + [Reservation(org, hold, Open, createdAt)], org, Reserve, -hold,
                        Some(|s.db.reservations|))
            else s.db
  {
  }

  /** A release pays the hold back if and only if the reservation is open, and closes it. */
  lemma ReleaseIff(s: P.Sys, id: Id)
    requires P.Sized(s) && id < |s.phases| && s.phases[id] == P.Idle
    ensures var r := s.db.reservations[id];
      P.Next(P.Next(s, P.BeginRelease(id)), P.EndRelease(id)).db
      == if r.status == Open
         then Booked(s.db, s.db.reservations[id := r.(status := Released)], r.org, Release, r.hold, Some(id))
         else s.db
  {
  }

  /** A settlement closes an open reservation, and only that. Below the hold it pays the rest back; above, it takes what
      the balance covers of the difference, and books it if it is anything. A negative bill is none. */
  lemma SettleIff(s: P.Sys, id: Id, billed: int)
    requires P.Sized(s) && id < |s.phases| && s.phases[id] == P.Idle
    ensures var r := s.db.reservations[id];
      var bill := if billed < 0 then 0 else billed;
      var money := MoneyOf(s.db.wallets, r.org);
      var closed := s.db.reservations[id := r.(status := Settled)];
      var take := if bill - r.hold <= money then bill - r.hold else money;
      (bill > r.hold ==> money >= 0) ==>
      P.Next(P.Next(s, P.BeginSettle(id, billed)), P.EndSettle(id, take)).db
      == if r.status != Open then s.db
         else if bill < r.hold then Booked(s.db, closed, r.org, SettleAdjust, r.hold - bill, Some(id))
         else if take > 0 then Booked(s.db, closed, r.org, SettleAdjust, -take, Some(id))
         else s.db.(reservations := closed)
  {
  }
}
