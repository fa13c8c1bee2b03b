/** `workers/tasks/ai_reservations.py` as it runs: one session over the tables, row by row. */
module ReaperTask {
  import opened Common
  import opened WalletLedger
  import P = ReaperProtocol

  const REAP_BATCH: nat := 100

  // ---- the snapshot: stale open rows, oldest first, at most a batch ----

  predicate Stale(r: Reservation, cutoff: int) {
    r.status == Open && r.createdAt < cutoff
  }

  predicate StaleAt(rs: seq<Reservation>, cutoff: int, id: int) {
    0 <= id < |rs| && Stale(rs[id], cutoff)
  }

  function Insert(rs: seq<Reservation>, ids: seq<Id>, id: Id): (r: seq<Id>)
    requires id < |rs| && forall k :: 0 <= k < |ids| ==> ids[k] < |rs|
    ensures |r| == |ids| + 1 && forall k :: 0 <= k < |r| ==> r[k] < |rs|
  {
    if ids == [] || rs[id].createdAt < rs[ids[0]].createdAt then [id] + ids
    else [ids[0]] + Insert(rs, ids[1..], id)
  }

  function StaleUpTo(rs: seq<Reservation>, cutoff: int, n: nat): (r: seq<Id>)
    requires n <= |rs|
    ensures forall k :: 0 <= k < |r| ==> r[k] < n
  {
    if n == 0 then []
    else if Stale(rs[n - 1], cutoff) then
      InsertBelow(rs, StaleUpTo(rs, cutoff, n - 1), n - 1, n);
      Insert(rs, StaleUpTo(rs, cutoff, n - 1), n - 1)
    else StaleUpTo(rs, cutoff, n - 1)
  }

  function Snapshot(rs: seq<Reservation>, cutoff: int): seq<Id> {
    var all := StaleUpTo(rs, cutoff, |rs|);
    if |all| <= REAP_BATCH then all else all[..REAP_BATCH]
  }

  ghost predicate OldestFirst(rs: seq<Reservation>, ids: seq<Id>) {
    && (forall k :: 0 <= k < |ids| ==> ids[k] < |rs|)
    && (forall i, j :: 0 <= i < j < |ids| ==> rs[ids[i]].createdAt <= rs[ids[j]].createdAt)
  }

  lemma {:induction false} InsertBelow(rs: seq<Reservation>, ids: seq<Id>, id: Id, n: nat)
    requires id < n <= |rs| && forall k :: 0 <= k < |ids| ==> ids[k] < n
    ensures forall k :: 0 <= k < |Insert(rs, ids, id)| ==> Insert(rs, ids, id)[k] < n
  {
    if ids != [] {
      InsertBelow(rs, ids[1..], id, n);
    }
  }

  lemma {:induction false} InsertMember(rs: seq<Reservation>, ids: seq<Id>, id: Id, x: Id)
    requires id < |rs| && forall k :: 0 <= k < |ids| ==> ids[k] < |rs|
    ensures x in Insert(rs, ids, id) <==> x == id || x in ids
  {
    if ids != [] && rs[id].createdAt >= rs[ids[0]].createdAt {
      InsertMember(rs, ids[1..], id, x);
      assert ids == [ids[0]] + ids[1..];
    }
  }

  lemma {:induction false} InsertSorted(rs: seq<Reservation>, ids: seq<Id>, id: Id)
    requires id < |rs| && OldestFirst(rs, ids)
    ensures OldestFirst(rs, Insert(rs, ids, id))
  {
    if ids != [] && rs[id].createdAt >= rs[ids[0]].createdAt {
      InsertSorted(rs, ids[1..], id);
      var rest := Insert(rs, ids[1..], id);
      forall k | 0 <= k < |rest| ensures rs[ids[0]].createdAt <= rs[rest[k]].createdAt {
        InsertMember(rs, ids[1..], id, rest[k]);
      }
    }
  }

  lemma {:induction false} StaleUpToSorted(rs: seq<Reservation>, cutoff: int, n: nat)
    requires n <= |rs|
    ensures OldestFirst(rs, StaleUpTo(rs, cutoff, n))
  {
    hide Stale;
    if n > 0 {
      StaleUpToSorted(rs, cutoff, n - 1);
      if Stale(rs[n - 1], cutoff) {
        hide OldestFirst, Insert;
        InsertSorted(rs, StaleUpTo(rs, cutoff, n - 1), n - 1);
      }
    }
  }

  lemma {:induction false} StaleUpToMember(rs: seq<Reservation>, cutoff: int, n: nat, x: Id)
    requires n <= |rs|
    ensures x in StaleUpTo(rs, cutoff, n) <==> x < n && StaleAt(rs, cutoff, x)
  {
    hide Stale, Insert;
    if n > 0 {
      StaleUpToMember(rs, cutoff, n - 1, x);
      if Stale(rs[n - 1], cutoff) {
        InsertMember(rs, StaleUpTo(rs, cutoff, n - 1), n - 1, x);
      }
    }
  }

  lemma StaleUpToRight(rs: seq<Reservation>, cutoff: int, n: nat)
    requires n <= |rs|
    ensures OldestFirst(rs, StaleUpTo(rs, cutoff, n))
    ensures forall x: Id :: x in StaleUpTo(rs, cutoff, n) <==> x < n && StaleAt(rs, cutoff, x)
  {
    hide *;
    StaleUpToSorted(rs, cutoff, n);
    forall x: Id ensures x in StaleUpTo(rs, cutoff, n) <==> x < n && StaleAt(rs, cutoff, x) {
      StaleUpToMember(rs, cutoff, n, x);
    }
  }

  /** The snapshot holds stale open rows only, oldest first; a stale row is left out only when the
      batch is full of rows at least as old. */
  lemma SnapshotRight(rs: seq<Reservation>, cutoff: int)
    ensures var ids := Snapshot(rs, cutoff);
      && OldestFirst(rs, ids) && |ids| <= REAP_BATCH
      && (forall x :: x in ids ==> StaleAt(rs, cutoff, x))
      && (forall x :: StaleAt(rs, cutoff, x) && x !in ids ==> |ids| == REAP_BATCH && NoneYounger(rs, ids, x))
  {
    StaleUpToRight(rs, cutoff, |rs|);
    var all, ids := StaleUpTo(rs, cutoff, |rs|), Snapshot(rs, cutoff);
    forall x | StaleAt(rs, cutoff, x) && x !in ids ensures |ids| == REAP_BATCH && NoneYounger(rs, ids, x) {
      LeftOut(rs, all, ids, x);
    }
  }

  ghost predicate NoneYounger(rs: seq<Reservation>, ids: seq<Id>, x: Id)
    requires x < |rs|
  {
    forall k :: 0 <= k < |ids| ==> ids[k] < |rs| && rs[ids[k]].createdAt <= rs[x].createdAt
  }

  lemma LeftOut(rs: seq<Reservation>, all: seq<Id>, ids: seq<Id>, x: Id)
    requires OldestFirst(rs, all) && x in all && x !in ids && x < |rs|
    requires ids == if |all| <= REAP_BATCH then all else all[..REAP_BATCH]
    ensures |ids| == REAP_BATCH && NoneYounger(rs, ids, x)
  {
    assert forall k :: 0 <= k < |ids| ==> ids[k] == all[k];
    var j :| 0 <= j < |all| && all[j] == x;
    assert j >= |ids|;
  }

  // ---- the loop ----

  datatype Reaped = Failed | Reaped(db: Db, released: nat, refunded: int)

  // `released` and `refunded` are the counters so far. Reading back the balance of an organisation
  // without a wallet raises.
  function Reap(db: Db, ids: seq<Id>, released: nat, refunded: int): Reaped
    requires forall k :: 0 <= k < |ids| ==> ids[k] < |db.reservations|
    decreases ids
  {
    if ids == [] then Reaped(db, released, refunded)
    else
      var r := db.reservations[ids[0]];
      if r.status != Open then Reap(db, ids[1..], released, refunded)
      else if r.org !in db.wallets then Failed
      else Reap(Refund(db, ids[0]), ids[1..], released + 1, refunded + r.hold)
  }

  function Refund(db: Db, id: Id): (d: Db)
    requires id < |db.reservations| && db.reservations[id].status == Open
    ensures |d.reservations| == |db.reservations|
  {
    Adjust(Close(db, id, Released), db.reservations[id].org, Release, db.reservations[id].hold, Some(id))
  }

  class Session {
    var wallets: map<Org, int>
    var reservations: seq<Reservation>
    var ledger: seq<Row>

    constructor (db: Db)
      ensures Tables() == db
    {
      wallets, reservations, ledger := db.wallets, db.reservations, db.ledger;
    }

    function Tables(): Db
      reads this
    {
      Db(wallets, reservations, ledger)
    }

    // `reap_stale_reservations`: None where it raises.
    method ReapStale(now: int, staleSeconds: int) returns (result: Option<(nat, int)>)
      modifies this
      ensures var ids := Snapshot(old(reservations), now - staleSeconds);
        (forall k :: 0 <= k < |ids| ==> ids[k] < |old(reservations)|) &&
        match Reap(old(Tables()), ids, 0, 0)
        case Failed => result == None
        case Reaped(db, released, refunded) => result == Some((released, refunded)) && Tables() == db
    {
      var ids := Snapshot(reservations, now - staleSeconds);
      SnapshotRight(reservations, now - staleSeconds);
      assert OldestFirst(reservations, ids);
      hide Snapshot, OldestFirst, Refund;
      ghost var start := Tables();
      var released: nat, refunded: int := 0, 0;
      for i := 0 to |ids|
        invariant |reservations| == |start.reservations|
        invariant forall k :: 0 <= k < |ids| ==> ids[k] < |start.reservations|
        invariant Reap(Tables(), ids[i..], released, refunded) == Reap(start, ids, 0, 0)
      {
        var id := ids[i];
        assert ids[i..][0] == id && ids[i..][1..] == ids[i + 1..];
        var r := reservations[id];
        if r.status == Open {
          ghost var refundedDb := RefundIs(Tables(), id);
          reservations := reservations[id := r.(status := Released)];
          if r.org !in wallets {
            return None;
          }
          var balance := wallets[r.org] + r.hold;
          wallets := wallets[r.org := balance];
          ledger := ledger + [Row(r.org, Release, r.hold, balance, Some(id))];
          released, refunded := released + 1, refunded + r.hold;
          assert Tables() == refundedDb;
        }
      }
      result := Some((released, refunded));
    }

    // `reap_ai_reservations`: commit, or roll everything back.
    method Task(now: int, staleSeconds: int) returns (result: Option<(nat, int)>)
      modifies this
      ensures result == None ==> Tables() == old(Tables())
      ensures result.Some? ==>
        var ids := Snapshot(old(reservations), now - staleSeconds);
        (forall k :: 0 <= k < |ids| ==> ids[k] < |old(reservations)|) &&
        Reap(old(Tables()), ids, 0, 0) == Reaped(Tables(), result.value.0, result.value.1)
    {
      var before := Tables();
      result := ReapStale(now, staleSeconds);
      if result == None {
        wallets, reservations, ledger := before.wallets, before.reservations, before.ledger;
      }
    }
  }

  lemma RefundIs(db: Db, id: Id) returns (d: Db)
    requires id < |db.reservations| && db.reservations[id].status == Open
    ensures d == Refund(db, id)
    ensures db.reservations[id].org in db.wallets ==>
      var r := db.reservations[id];
      var balance := db.wallets[r.org] + r.hold;
      d == Db(db.wallets[r.org := balance], db.reservations[id := r.(status := Released)],
              db.ledger + [Row(r.org, Release, r.hold, balance, Some(id))])
  {
    d := Refund(db, id);
  }

  // ---- the reaper is a run of the protocol ----

  function Steps(n: nat): seq<P.Action> {
    if n == 0 then [] else [P.Claim(0), P.Credit(0)] + Steps(n - 1)
  }

  // One reaper alone on the tables, part way through its queue.
  function Alone(db: Db, r: P.Reaper): (s: P.Sys)
    ensures P.Sized(s)
  {
    P.Sys(db, seq(|db.reservations|, _ => P.Idle), [r])
  }

  lemma OneVisit(db: Db, r: P.Reaper)
    requires r.queue != [] && r.claim == None && r.queue[0] < |db.reservations|
    ensures var id, rest := r.queue[0], r.queue[1..];
      P.Next(P.Next(Alone(db, r), P.Claim(0)), P.Credit(0))
      == if db.reservations[id].status != Open then Alone(db, r.(queue := rest))
         else Alone(Refund(db, id), r.(queue := rest, done := r.done + [id],
                                       refunded := r.refunded + db.reservations[id].hold))
  {
    var s := Alone(db, r);
    var id := r.queue[0];
    if db.reservations[id].status == Open {
      var t := P.Next(s, P.Claim(0));
      assert t.phases == s.phases[id := P.Refunding(Some(0))];
      assert t.phases[id := P.Idle] == s.phases;
    }
  }

  /** The reaper, run on its own, is a run of the interleaving protocol: what that protocol keeps, the
      reaper keeps, and the two counters it returns are the protocol's. */
  lemma {:induction false} TaskIsARun(db: Db, r: P.Reaper)
    requires r.claim == None && forall k :: 0 <= k < |r.queue| ==> r.queue[k] < |db.reservations|
    requires Reap(db, r.queue, |r.done|, r.refunded).Reaped?
    ensures var result := Reap(db, r.queue, |r.done|, r.refunded);
      var t := P.Run(Alone(db, r), Steps(|r.queue|));
      && t.db == result.db && |t.reapers| == 1 && t.reapers[0].queue == []
      && |t.reapers[0].done| == result.released && t.reapers[0].refunded == result.refunded
    decreases |r.queue|
  {
    if r.queue != [] {
      var s, n := Alone(db, r), |r.queue| - 1;
      OneVisit(db, r);
      var id := r.queue[0];
      var r' := r.(queue := r.queue[1..]);
      var steps := Steps(|r.queue|);
      assert steps == [P.Claim(0), P.Credit(0)] + Steps(n);
      assert steps[1..] == [P.Credit(0)] + Steps(n) && steps[1..][1..] == Steps(n);
      hide P.Next, Alone, Steps, Refund;
      if db.reservations[id].status != Open {
        TaskIsARun(db, r');
      } else {
        TaskIsARun(Refund(db, id), r'.(done := r.done + [id], refunded := r.refunded + db.reservations[id].hold));
      }
    }
  }

  /** Run on its own, the reaper leaves every row it selected closed. */
  lemma {:induction false} ReapCloses(db: Db, ids: seq<Id>, released: nat, refunded: int, id: Id)
    requires forall k :: 0 <= k < |ids| ==> ids[k] < |db.reservations|
    requires Reap(db, ids, released, refunded).Reaped? && id < |db.reservations|
    requires id in ids || db.reservations[id].status != Open
    ensures var d := Reap(db, ids, released, refunded).db;
      |d.reservations| == |db.reservations| && d.reservations[id].status != Open
    decreases ids
  {
    if ids != [] {
      assert ids == [ids[0]] + ids[1..];
      if db.reservations[ids[0]].status != Open {
        ReapCloses(db, ids[1..], released, refunded, id);
      } else {
        ReapCloses(Refund(db, ids[0]), ids[1..], released + 1, refunded + db.reservations[ids[0]].hold, id);
      }
    }
  }

  lemma {:induction false} ReapKeeps(db: Db, ids: seq<Id>, released: nat, refunded: int, id: Id)
    requires forall k :: 0 <= k < |ids| ==> ids[k] < |db.reservations|
    requires Reap(db, ids, released, refunded).Reaped? && id < |db.reservations| && id !in ids
    ensures var d := Reap(db, ids, released, refunded).db;
      |d.reservations| == |db.reservations| && d.reservations[id] == db.reservations[id]
    decreases ids
  {
    if ids != [] {
      assert ids == [ids[0]] + ids[1..];
      if db.reservations[ids[0]].status != Open {
        ReapKeeps(db, ids[1..], released, refunded, id);
      } else {
        ReapKeeps(Refund(db, ids[0]), ids[1..], released + 1, refunded + db.reservations[ids[0]].hold, id);
      }
    }
  }

  /** A second sweep at the same time finds nothing, unless the first one filled its batch. */
  lemma SecondSweepIdle(db: Db, cutoff: int)
    requires |Snapshot(db.reservations, cutoff)| < REAP_BATCH
    requires forall k :: 0 <= k < |Snapshot(db.reservations, cutoff)| ==>
               Snapshot(db.reservations, cutoff)[k] < |db.reservations|
    requires Reap(db, Snapshot(db.reservations, cutoff), 0, 0).Reaped?
    ensures Snapshot(Reap(db, Snapshot(db.reservations, cutoff), 0, 0).db.reservations, cutoff) == []
  {
    var ids := Snapshot(db.reservations, cutoff);
    var d := Reap(db, ids, 0, 0).db;
    SnapshotRight(db.reservations, cutoff);
    SnapshotRight(d.reservations, cutoff);
    SameLength(db, ids, 0, 0);
    assert forall y :: StaleAt(db.reservations, cutoff, y) ==> y in ids;
    hide Snapshot, Reap, OldestFirst, NoneYounger;
    var again := Snapshot(d.reservations, cutoff);
    if again != [] {
      var x := again[0];
      assert StaleAt(d.reservations, cutoff, x);
      if x in ids {
        ReapCloses(db, ids, 0, 0, x);
      } else {
        ReapKeeps(db, ids, 0, 0, x);
      }
    }
  }

  lemma {:induction false} SameLength(db: Db, ids: seq<Id>, released: nat, refunded: int)
    requires forall k :: 0 <= k < |ids| ==> ids[k] < |db.reservations|
    requires Reap(db, ids, released, refunded).Reaped?
    ensures |Reap(db, ids, released, refunded).db.reservations| == |db.reservations|
    decreases ids
  {
    if ids != [] {
      if db.reservations[ids[0]].status != Open {
        SameLength(db, ids[1..], released, refunded);
      } else {
        SameLength(Refund(db, ids[0]), ids[1..], released + 1, refunded + db.reservations[ids[0]].hold);
      }
    }
  }
}
