/** AI wallets, reservations and the wallet ledger: the tables and the statements that change them
    (`backend/app/services/ai_wallet.py`, `workers/tasks/ai_reservations.py`).

    A reservation's id is its position in the table. Amounts are unbounded integers. */
module WalletLedger {
  import opened Common

  type Org = nat
  type Id = nat

  datatype Status = Open | Settled | Released
  datatype Kind = Topup | Reserve | SettleAdjust | Release | ManualAdjust | Opening

  datatype Reservation = Reservation(org: Org, hold: nat, status: Status, createdAt: int)
  datatype Row = Row(org: Org, kind: Kind, delta: int, balanceAfter: int, reservation: Option<Id>)

  datatype Db = Db(wallets: map<Org, int>, reservations: seq<Reservation>, ledger: seq<Row>)

  // ---- sums over tables ----

  function Balance(db: Db, org: Org): int {
    if org in db.wallets then db.wallets[org] else 0
  }

  function LedgerSum(ledger: seq<Row>, org: Org): int {
    if ledger == [] then 0
    else LedgerSum(ledger[..|ledger| - 1], org)
         + if ledger[|ledger| - 1].org == org then ledger[|ledger| - 1].delta else 0
  }

  function OpenHold(r: Reservation, org: Org): nat {
    if r.org == org && r.status == Open then r.hold else 0
  }

  function OpenHolds(rs: seq<Reservation>, org: Org): nat {
    if rs == [] then 0 else OpenHolds(rs[..|rs| - 1], org) + OpenHold(rs[|rs| - 1], org)
  }

  function RowCount(ledger: seq<Row>, kind: Kind, id: Id): nat {
    if ledger == [] then 0
    else RowCount(ledger[..|ledger| - 1], kind, id)
         + if ledger[|ledger| - 1].kind == kind && ledger[|ledger| - 1].reservation == Some(id) then 1 else 0
  }

  // How far a wallet is from its ledger.
  function Drift(db: Db, org: Org): int {
    Balance(db, org) - LedgerSum(db.ledger, org)
  }

  lemma LedgerSumAppend(ledger: seq<Row>, row: Row, org: Org)
    ensures LedgerSum(ledger + [row], org) == LedgerSum(ledger, org) + if row.org == org then row.delta else 0
  {
    assert (ledger + [row])[..|ledger|] == ledger;
  }

  lemma RowCountAppend(ledger: seq<Row>, row: Row, kind: Kind, id: Id)
    ensures RowCount(ledger + [row], kind, id)
         == RowCount(ledger, kind, id) + if row.kind == kind && row.reservation == Some(id) then 1 else 0
  {
    assert (ledger + [row])[..|ledger|] == ledger;
  }

  // ---- statements ----

  // `UPDATE ... SET balance = balance + delta`, `SELECT balance`, `INSERT` the ledger row.
  function Adjust(db: Db, org: Org, kind: Kind, delta: int, id: Option<Id>): Db {
    var balance := Balance(db, org) + delta;
    db.(wallets := db.wallets[org := balance], ledger := db.ledger + [Row(org, kind, delta, balance, id)])
  }

  // `UPDATE ... SET status = s WHERE id = :id AND status = 'open'`; the caller looks at whether a row matched.
  function Close(db: Db, id: Id, s: Status): Db
    requires id < |db.reservations| && db.reservations[id].status == Open
  {
    db.(reservations := db.reservations[id := db.reservations[id].(status := s)])
  }

  function AddReservation(db: Db, r: Reservation): Db {
    db.(reservations := db.reservations + [r])
  }

  lemma AdjustSums(db: Db, org: Org, kind: Kind, delta: int, id: Option<Id>, o: Org)
    ensures var d := Adjust(db, org, kind, delta, id);
      && Balance(d, o) == Balance(db, o) + (if o == org then delta else 0)
      && LedgerSum(d.ledger, o) == LedgerSum(db.ledger, o) + (if o == org then delta else 0)
      && Drift(d, o) == Drift(db, o)
  {
    var balance := Balance(db, org) + delta;
    LedgerSumAppend(db.ledger, Row(org, kind, delta, balance, id), o);
  }

  // ---- what every table state keeps ----

  // Each ledger row records the balance right after it, counted from what the ledger does not explain.
  ghost predicate RunningBalances(ledger: seq<Row>, drift: Org -> int) {
    forall k :: 0 <= k < |ledger| ==>
      ledger[k].balanceAfter == drift(ledger[k].org) + LedgerSum(ledger[..k + 1], ledger[k].org)
  }

  lemma RunningAppend(db: Db, org: Org, kind: Kind, delta: int, id: Option<Id>, drift: Org -> int)
    requires RunningBalances(db.ledger, drift) && forall o :: Drift(db, o) == drift(o)
    ensures RunningBalances(Adjust(db, org, kind, delta, id).ledger, drift)
  {
    var l := Adjust(db, org, kind, delta, id).ledger;
    var n := |db.ledger|;
    forall k | 0 <= k < |l|
      ensures l[k].balanceAfter == drift(l[k].org) + LedgerSum(l[..k + 1], l[k].org)
    {
      if k < n {
        assert l[..k + 1] == db.ledger[..k + 1];
      } else {
        assert l[..k + 1] == l;
        LedgerSumAppend(db.ledger, l[n], org);
        assert Drift(db, org) == drift(org);
      }
    }
  }
}
