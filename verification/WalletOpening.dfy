/** `backend/alembic/versions/add_ai_wallet_ledger_opening.py`: one opening row per wallet that has
    none, and the drift metric it brings to zero (`backend/app/metrics.py`). */
module WalletOpening {
  import opened Common
  import opened WalletLedger
  import P = ReaperProtocol

  predicate HasOpening(ledger: seq<Row>, org: Org) {
    exists k :: 0 <= k < |ledger| && IsOpening(ledger[k], org)
  }

  predicate IsOpening(row: Row, org: Org) {
    row.kind == Opening && row.org == org
  }

  // `SUM(delta_idr) ... WHERE kind <> 'opening'`
  function NonOpeningSum(ledger: seq<Row>, org: Org): int {
    if ledger == [] then 0
    else
      var last := ledger[|ledger| - 1];
      NonOpeningSum(ledger[..|ledger| - 1], org)
      + if last.org == org && last.kind != Opening then last.delta else 0
  }

  function OpeningRow(db: Db, org: Org): Row
    requires org in db.wallets
  {
    Row(org, Opening, db.wallets[org] - NonOpeningSum(db.ledger, org), db.wallets[org], None)
  }

  // The SELECT: the wallets in whatever order they are scanned, against the ledger as it was.
  function OpeningRows(db: Db, orgs: seq<Org>): seq<Row>
    requires forall o :: o in orgs ==> o in db.wallets
  {
    if orgs == [] then []
    else OpeningRows(db, orgs[..|orgs| - 1])
         + var o := orgs[|orgs| - 1];
           assert o in orgs;
           if HasOpening(db.ledger, o) then [] else [OpeningRow(db, o)]
  }

  // A scan visits every wallet once.
  ghost predicate IsScan(db: Db, orgs: seq<Org>) {
    && (forall o :: o in orgs <==> o in db.wallets)
    && (forall i, j :: 0 <= i < j < |orgs| ==> orgs[i] != orgs[j])
  }

  function Upgraded(db: Db, orgs: seq<Org>): Db
    requires forall o :: o in orgs ==> o in db.wallets
  {
    db.(ledger := db.ledger + OpeningRows(db, orgs))
  }

  class Migration {
    var ledger: seq<Row>

    method Upgrade(wallets: map<Org, int>, orgs: seq<Org>)
      requires forall o :: o in orgs ==> o in wallets
      modifies this
      ensures ledger == old(ledger) + OpeningRows(Db(wallets, [], old(ledger)), orgs)
    {
      var before := Db(wallets, [], ledger);
      for i := 0 to |orgs|
        invariant ledger == before.ledger + OpeningRows(before, orgs[..i])
      {
        assert orgs[..i + 1][..i] == orgs[..i];
        hide HasOpening, NonOpeningSum;
        if !HasOpening(before.ledger, orgs[i]) {
          ledger := ledger + [OpeningRow(before, orgs[i])];
        }
      }
      assert orgs[..|orgs|] == orgs;
    }

    method Downgrade()
      modifies this
      ensures ledger == Downgraded(old(ledger))
    {
      var kept: seq<Row> := [];
      for i := 0 to |ledger|
        invariant ledger == old(ledger) && kept == Downgraded(ledger[..i])
      {
        assert ledger[..i + 1][..i] == ledger[..i];
        if ledger[i].kind != Opening {
          kept := kept + [ledger[i]];
        }
      }
      assert ledger[..|ledger|] == ledger;
      ledger := kept;
    }
  }

  // `DELETE ... WHERE kind = 'opening'`
  function Downgraded(ledger: seq<Row>): seq<Row> {
    if ledger == [] then []
    else
      var last := ledger[|ledger| - 1];
      Downgraded(ledger[..|ledger| - 1]) + if last.kind == Opening then [] else [last]
  }

  lemma {:induction false} NoOpeningSum(ledger: seq<Row>, org: Org)
    requires !HasOpening(ledger, org)
    ensures NonOpeningSum(ledger, org) == LedgerSum(ledger, org)
    decreases |ledger|
  {
    if ledger != [] {
      var n := |ledger| - 1;
      assert !IsOpening(ledger[n], org);
      assert !HasOpening(ledger[..n], org) by {
        assert forall k :: 0 <= k < n ==> ledger[..n][k] == ledger[k];
      }
      NoOpeningSum(ledger[..n], org);
    }
  }

  lemma {:induction false} LedgerSumConcat(a: seq<Row>, b: seq<Row>, org: Org)
    ensures LedgerSum(a + b, org) == LedgerSum(a, org) + LedgerSum(b, org)
    decreases |b|
  {
    if b == [] {
      assert a + b == a;
    } else {
      var n := |b| - 1;
      assert a + b == (a + b[..n]) + [b[n]] && b == b[..n] + [b[n]];
      LedgerSumConcat(a, b[..n], org);
      LedgerSumAppend(a + b[..n], b[n], org);
      LedgerSumAppend(b[..n], b[n], org);
    }
  }

  // The new rows of one organisation add up to its opening delta, or to nothing.
  lemma {:induction false} OpeningRowsSum(db: Db, orgs: seq<Org>, org: Org)
    requires forall o :: o in orgs ==> o in db.wallets
    requires forall i, j :: 0 <= i < j < |orgs| ==> orgs[i] != orgs[j]
    ensures LedgerSum(OpeningRows(db, orgs), org)
         == if org in orgs && !HasOpening(db.ledger, org) then OpeningRow(db, org).delta else 0
    decreases |orgs|
  {
    hide HasOpening, NonOpeningSum;
    if orgs != [] {
      var n := |orgs| - 1;
      var o, before := orgs[n], OpeningRows(db, orgs[..n]);
      assert orgs == orgs[..n] + [o];
      OpeningRowsSum(db, orgs[..n], org);
      if HasOpening(db.ledger, o) {
        assert OpeningRows(db, orgs) == before;
      } else {
        LedgerSumAppend(before, OpeningRow(db, o), org);
      }
    }
  }

  lemma {:induction false} OpeningRowsMember(db: Db, orgs: seq<Org>, org: Org)
    requires forall o :: o in orgs ==> o in db.wallets
    requires org in orgs && !HasOpening(db.ledger, org)
    ensures OpeningRow(db, org) in OpeningRows(db, orgs)
    decreases |orgs|
  {
    hide HasOpening, NonOpeningSum;
    var n := |orgs| - 1;
    assert orgs == orgs[..n] + [orgs[n]];
    if orgs[n] != org {
      OpeningRowsMember(db, orgs[..n], org);
    }
  }

  /** After the upgrade every wallet that had no opening row agrees with its ledger, whose last word
      is the balance; every other wallet's drift is what it was. */
  lemma UpgradeSettles(db: Db, orgs: seq<Org>, org: Org)
    requires IsScan(db, orgs)
    ensures Drift(Upgraded(db, orgs), org)
         == if org in db.wallets && !HasOpening(db.ledger, org) then 0 else Drift(db, org)
    ensures org in db.wallets ==> HasOpening(Upgraded(db, orgs).ledger, org)
  {
    OpeningRowsSum(db, orgs, org);
    LedgerSumConcat(db.ledger, OpeningRows(db, orgs), org);
    if org in db.wallets {
      if HasOpening(db.ledger, org) {
        var k :| 0 <= k < |db.ledger| && IsOpening(db.ledger[k], org);
        assert Upgraded(db, orgs).ledger[k] == db.ledger[k];
      } else {
        NoOpeningSum(db.ledger, org);
        OpeningRowsMember(db, orgs, org);
        assert OpeningRow(db, org) in Upgraded(db, orgs).ledger;
        hide NonOpeningSum;
        assert IsOpening(OpeningRow(db, org), org);
      }
    }
  }

  lemma {:induction false} NothingToOpen(db: Db, orgs: seq<Org>)
    requires forall o :: o in orgs ==> o in db.wallets && HasOpening(db.ledger, o)
    ensures OpeningRows(db, orgs) == []
    decreases |orgs|
  {
    hide HasOpening;
    if orgs != [] {
      assert orgs == orgs[..|orgs| - 1] + [orgs[|orgs| - 1]];
      NothingToOpen(db, orgs[..|orgs| - 1]);
    }
  }

  /** A retried deploy adds nothing, in whatever order it scans. */
  lemma UpgradeIdempotent(db: Db, orgs: seq<Org>, again: seq<Org>)
    requires IsScan(db, orgs) && IsScan(db, again)
    ensures Upgraded(Upgraded(db, orgs), again) == Upgraded(db, orgs)
  {
    forall o | o in again ensures HasOpening(Upgraded(db, orgs).ledger, o) {
      UpgradeSettles(db, orgs, o);
    }
    NothingToOpen(Upgraded(db, orgs), again);
  }

  lemma {:induction false} DowngradedConcat(a: seq<Row>, b: seq<Row>)
    ensures Downgraded(a + b) == Downgraded(a) + Downgraded(b)
    decreases |b|
  {
    if b == [] {
      assert a + b == a;
    } else {
      var n := |b| - 1;
      assert (a + b)[..|a + b| - 1] == a + b[..n];
      DowngradedConcat(a, b[..n]);
    }
  }

  lemma {:induction false} DowngradedOpenings(db: Db, orgs: seq<Org>)
    requires forall o :: o in orgs ==> o in db.wallets
    ensures Downgraded(OpeningRows(db, orgs)) == []
    decreases |orgs|
  {
    hide HasOpening, NonOpeningSum;
    if orgs != [] {
      var n := |orgs| - 1;
      DowngradedOpenings(db, orgs[..n]);
      if !HasOpening(db.ledger, orgs[n]) {
        assert OpeningRows(db, orgs)[..|OpeningRows(db, orgs)| - 1] == OpeningRows(db, orgs[..n]);
      } else {
        assert OpeningRows(db, orgs) == OpeningRows(db, orgs[..n]);
      }
    }
  }

  /** The downgrade undoes the upgrade: what is left is the ledger without opening rows. */
  lemma DowngradeUndoes(db: Db, orgs: seq<Org>)
    requires forall o :: o in orgs ==> o in db.wallets
    ensures Downgraded(Upgraded(db, orgs).ledger) == Downgraded(db.ledger)
  {
    DowngradedConcat(db.ledger, OpeningRows(db, orgs));
    DowngradedOpenings(db, orgs);
  }

  // ---- the rows, field by field ----

  // What the migration writes for a wallet.
  ghost predicate OpensWith(db: Db, row: Row) {
    && row.org in db.wallets && (forall k :: 0 <= k < |db.ledger| && db.ledger[k].org == row.org ==> db.ledger[k].kind != Opening)
    && row.kind == Opening && row.reservation == None
    && row.delta == db.wallets[row.org] - LedgerSum(db.ledger, row.org) && row.balanceAfter == db.wallets[row.org]
  }

  lemma OpeningRowIs(db: Db, org: Org)
    requires org in db.wallets && !HasOpening(db.ledger, org)
    ensures OpensWith(db, OpeningRow(db, org)) && OpeningRow(db, org).org == org
  {
    NoOpeningSum(db.ledger, org);
    forall k | 0 <= k < |db.ledger| && db.ledger[k].org == org ensures db.ledger[k].kind != Opening {
      assert !IsOpening(db.ledger[k], org);
    }
    hide NonOpeningSum, LedgerSum;
  }

  lemma LastIn(orgs: seq<Org>)
    requires orgs != []
    ensures orgs == orgs[..|orgs| - 1] + [orgs[|orgs| - 1]] && orgs[|orgs| - 1] in orgs
  {
  }

  lemma OpeningRowsStep(db: Db, orgs: seq<Org>)
    requires orgs != [] && forall o :: o in orgs ==> o in db.wallets
    ensures var n := |orgs| - 1;
      && orgs == orgs[..n] + [orgs[n]] && orgs[n] in db.wallets && orgs[n] in orgs
      && OpeningRows(db, orgs)
         == if HasOpening(db.ledger, orgs[n]) then OpeningRows(db, orgs[..n])
            else OpeningRows(db, orgs[..n]) + [OpeningRow(db, orgs[n])]
  {
    LastIn(orgs);
    var n := |orgs| - 1;
    var front, rest: seq<Row> := OpeningRows(db, orgs[..n]), if HasOpening(db.ledger, orgs[n]) then [] else [OpeningRow(db, orgs[n])];
    assert OpeningRows(db, orgs) == front + rest;
    hide *;
    assert front + [] == front;
  }

  lemma {:induction false} RowsOpen(db: Db, orgs: seq<Org>)
    requires forall o :: o in orgs ==> o in db.wallets
    requires forall i, j :: 0 <= i < j < |orgs| ==> orgs[i] != orgs[j]
    ensures var rows := OpeningRows(db, orgs);
      && (forall k :: 0 <= k < |rows| ==> OpensWith(db, rows[k]) && rows[k].org in orgs)
      && (forall i, j :: 0 <= i < j < |rows| ==> rows[i].org != rows[j].org)
    decreases |orgs|
  {
    if orgs == [] {
    } else {
      hide *;
      var n := |orgs| - 1;
      OpeningRowsStep(db, orgs);
      RowsOpen(db, orgs[..n]);
      MembersOf(orgs);
      if !HasOpening(db.ledger, orgs[n]) {
        OpeningRowIs(db, orgs[n]);
        OneMoreOpening(db, OpeningRows(db, orgs[..n]), OpeningRow(db, orgs[n]), orgs);
      }
    }
  }

  lemma MembersOf(orgs: seq<Org>)
    requires orgs != [] && forall i, j :: 0 <= i < j < |orgs| ==> orgs[i] != orgs[j]
    ensures forall o :: o in orgs[..|orgs| - 1] ==> o in orgs && o != orgs[|orgs| - 1]
  {
  }

  lemma OneMoreOpening(db: Db, rows: seq<Row>, row: Row, orgs: seq<Org>)
    requires orgs != [] && OpensWith(db, row) && row.org == orgs[|orgs| - 1]
    requires forall k :: 0 <= k < |rows| ==> OpensWith(db, rows[k]) && rows[k].org in orgs && rows[k].org != row.org
    requires forall i, j :: 0 <= i < j < |rows| ==> rows[i].org != rows[j].org
    ensures var t := rows + [row];
      && (forall k :: 0 <= k < |t| ==> OpensWith(db, t[k]) && t[k].org in orgs)
      && (forall i, j :: 0 <= i < j < |t| ==> t[i].org != t[j].org)
  {
    hide OpensWith;
  }

  /** The upgrade appends, for each wallet without an opening row, exactly one: its delta is the balance less the sum of
      the wallet's ledger, its balance is the wallet's. It appends nothing else and changes nothing else. */
  lemma UpgradeRows(db: Db, orgs: seq<Org>)
    requires IsScan(db, orgs)
    ensures var after := Upgraded(db, orgs);
      && after.wallets == db.wallets && after.reservations == db.reservations && db.ledger <= after.ledger
      && (forall k :: |db.ledger| <= k < |after.ledger| ==> OpensWith(db, after.ledger[k]))
      && (forall i, j :: |db.ledger| <= i < j < |after.ledger| ==> after.ledger[i].org != after.ledger[j].org)
      && (forall o :: o in db.wallets && (forall k :: 0 <= k < |db.ledger| && db.ledger[k].org == o ==> db.ledger[k].kind != Opening)
            ==> exists k :: |db.ledger| <= k < |after.ledger| && after.ledger[k].org == o)
  {
    hide *;
    UpgradedIs(db, orgs);
    RowsOpen(db, orgs);
    var n, rows, after := |db.ledger|, OpeningRows(db, orgs), Upgraded(db, orgs);
    AppendedAt(db.ledger, rows);
    forall k | n <= k < |after.ledger| ensures OpensWith(db, after.ledger[k]) {
      assert after.ledger[k] == rows[k - n];
    }
    forall o | o in db.wallets && (forall k :: 0 <= k < n && db.ledger[k].org == o ==> db.ledger[k].kind != Opening)
      ensures exists k :: n <= k < |after.ledger| && after.ledger[k].org == o
    {
      var j := RowAdded(db, orgs, o);
      AppendedOne(db.ledger, rows, j);
    }
  }

  lemma UpgradedIs(db: Db, orgs: seq<Org>)
    requires IsScan(db, orgs)
    ensures (forall o :: o in orgs ==> o in db.wallets) && (forall i, j :: 0 <= i < j < |orgs| ==> orgs[i] != orgs[j])
    ensures Upgraded(db, orgs) == Db(db.wallets, db.reservations, db.ledger + OpeningRows(db, orgs))
  {
    hide OpeningRows;
  }

  lemma RowAdded(db: Db, orgs: seq<Org>, o: Org) returns (j: nat)
    requires IsScan(db, orgs) && o in db.wallets
    requires forall k :: 0 <= k < |db.ledger| && db.ledger[k].org == o ==> db.ledger[k].kind != Opening
    ensures j < |OpeningRows(db, orgs)| && OpeningRows(db, orgs)[j].org == o
  {
    OpeningRowsMember(db, orgs, o);
    var rows := OpeningRows(db, orgs);
    hide OpeningRows;
    j :| 0 <= j < |rows| && rows[j] == OpeningRow(db, o);
  }

  lemma AppendedAt(a: seq<Row>, b: seq<Row>)
    ensures a <= a + b
    ensures forall k :: |a| <= k < |a + b| ==> (a + b)[k] == b[k - |a|]
  {
  }

  lemma AppendedOne(a: seq<Row>, b: seq<Row>, j: nat)
    requires j < |b|
    ensures |a| <= |a| + j < |a + b| && (a + b)[|a| + j] == b[j]
  {
  }

  /** The downgrade removes the opening rows and keeps every other row as often as it was. */
  lemma {:induction false} DowngradeRows(ledger: seq<Row>, row: Row)
    ensures multiset(Downgraded(ledger))[row] == if row.kind == Opening then 0 else multiset(ledger)[row]
    decreases |ledger|
  {
    if ledger != [] {
      var n := |ledger| - 1;
      DowngradeRows(ledger[..n], row);
      assert ledger == ledger[..n] + [ledger[n]];
    }
  }

  // ---- the drift metric ----

  function Abs(x: int): int {
    if x < 0 then -x else x
  }

  // `COALESCE(MAX(ABS(balance - ledger sum)), 0)` over the wallets.
  ghost predicate MetricIs(db: Db, m: int) {
    && (forall o :: o in db.wallets ==> Abs(Drift(db, o)) <= m)
    && ((m == 0 && db.wallets == map[]) || exists o :: o in db.wallets && Abs(Drift(db, o)) == m)
  }

  // The ledger's foreign key: rows belong to wallets.
  ghost predicate RowsHaveWallets(db: Db) {
    forall k :: 0 <= k < |db.ledger| ==> db.ledger[k].org in db.wallets
  }

  lemma {:induction false} NoRowsNoSum(ledger: seq<Row>, org: Org)
    requires forall k :: 0 <= k < |ledger| ==> ledger[k].org != org
    ensures LedgerSum(ledger, org) == 0
    decreases |ledger|
  {
    if ledger != [] {
      NoRowsNoSum(ledger[..|ledger| - 1], org);
    }
  }

  lemma {:induction false} DriftOverRun(s: P.Sys, acts: seq<P.Action>, org: Org)
    requires P.Sized(s)
    ensures Drift(P.Run(s, acts).db, org) == Drift(s.db, org)
    decreases acts
  {
    if acts != [] {
      P.DriftKept(s, acts[0], org);
      hide P.Next, Drift;
      DriftOverRun(P.Next(s, acts[0]), acts[1..], org);
    }
  }

  /** Once the migration has run on a ledger without opening rows, the drift metric reads zero after
      any later interleaving of reapers, top-ups, reservations, settlements and releases, new wallets
      included. */
  lemma MetricStaysZero(db: Db, orgs: seq<Org>, reapers: seq<P.Reaper>, acts: seq<P.Action>, m: int)
    requires IsScan(db, orgs) && RowsHaveWallets(db)
    requires forall o :: o in db.wallets ==> !HasOpening(db.ledger, o)
    requires MetricIs(P.Run(P.Sys(Upgraded(db, orgs), seq(|db.reservations|, _ => P.Idle), reapers), acts).db, m)
    ensures m == 0
  {
    var s := P.Sys(Upgraded(db, orgs), seq(|db.reservations|, _ => P.Idle), reapers);
    var t := P.Run(s, acts);
    forall o ensures Drift(t.db, o) == 0 {
      DriftOverRun(s, acts, o);
      UpgradeSettles(db, orgs, o);
      if o !in db.wallets {
        assert forall k :: 0 <= k < |db.ledger| ==> db.ledger[k].org != o;
        NoRowsNoSum(db.ledger, o);
      }
    }
    hide P.Run, Drift, HasOpening;
  }
}
