/** Any number of reapers beside top-ups, reservations, settlements and releases, interleaved.

    One action is one indivisible piece of a transaction. Closing a reservation (the compare-and-set
    on its status) and moving the money are separate actions, with anything in between; updating the
    wallet, reading the balance back and inserting the ledger row are one action, because the wallet
    row stays locked from the update to the commit. */
module ReaperProtocol {
  import opened Common
  import opened WalletLedger

  // What a transaction that has closed a reservation still has to do.
  datatype Phase = Idle | Refunding(reaper: Option<nat>) | Charging(billed: nat)

  datatype Reaper = Reaper(
    snapshot: seq<Id>,      // the rows selected at the start
    queue: seq<Id>,         // those not visited yet
    claim: Option<Id>,      // closed by this reaper, not credited yet
    done: seq<Id>,          // credited by this reaper
    refunded: int)          // `refunded_idr`

  datatype Sys = Sys(db: Db, phases: seq<Phase>, reapers: seq<Reaper>)

  datatype Action =
    | TopUp(org: Org, amount: int)
    | Take(org: Org, hold: int, createdAt: int)      // reserve
    | Select(p: nat, ids: seq<Id>)                   // a reaper's snapshot, however stale
    | Claim(p: nat)                                  // the reaper's compare-and-set
    | Credit(p: nat)                                 // the reaper's refund
    | BeginRelease(id: Id)
    | EndRelease(id: Id)
    | BeginSettle(id: Id, billed: int)
    | EndSettle(id: Id, debited: int)

  predicate Sized(s: Sys) {
    |s.phases| == |s.db.reservations|
  }

  predicate IsOpen(s: Sys, id: Id) {
    id < |s.db.reservations| && s.db.reservations[id].status == Open
  }

  function CloseAs(s: Sys, id: Id, status: Status, phase: Phase): Sys
    requires Sized(s) && IsOpen(s, id)
  {
    s.(db := Close(s.db, id, status), phases := s.phases[id := phase])
  }

  // The second half of a closing transaction: move `delta` and write the ledger row.
  function Finish(s: Sys, id: Id, kind: Kind, delta: int): Sys
    requires Sized(s) && id < |s.phases|
  {
    s.(db := Adjust(s.db, s.db.reservations[id].org, kind, delta, Some(id)), phases := s.phases[id := Idle])
  }

  // An action that is not enabled changes nothing: the request is refused.
  function Next(s: Sys, a: Action): Sys
    requires Sized(s)
  {
    match a
    case TopUp(org, amount) =>
      if amount < 1 then s else s.(db := Adjust(s.db, org, Topup, amount, None))
    case Take(org, hold, createdAt) =>
      if hold < 1 || Balance(s.db, org) < hold then s
      else
        var id := |s.db.reservations|;
        var d := AddReservation(s.db, Reservation(org, hold, Open, createdAt));
        s.(db := Adjust(d, org, Reserve, -hold, Some(id)), phases := s.phases + [Idle])
    case Select(p, ids) =>
      if p >= |s.reapers| || s.reapers[p].claim.Some? || exists id :: id in ids && id >= |s.phases| then s
      else s.(reapers := s.reapers[p := Reaper(ids, ids, None, [], 0)])
    case Claim(p) =>
      if p >= |s.reapers| || s.reapers[p].claim.Some? || s.reapers[p].queue == [] then s
      else
        var r := s.reapers[p];
        var id, rest := r.queue[0], r.queue[1..];
        if !IsOpen(s, id) then s.(reapers := s.reapers[p := r.(queue := rest)])
        else CloseAs(s, id, Released, Refunding(Some(p)))
             .(reapers := s.reapers[p := r.(queue := rest, claim := Some(id))])
    case Credit(p) =>
      if p >= |s.reapers| || s.reapers[p].claim.None? || s.reapers[p].claim.value >= |s.phases| then s
      else
        var r := s.reapers[p];
        var id := r.claim.value;
        var hold := s.db.reservations[id].hold;
        Finish(s, id, Release, hold)
        .(reapers := s.reapers[p := r.(claim := None, done := r.done + [id], refunded := r.refunded + hold)])
    case BeginRelease(id) =>
      if !IsOpen(s, id) then s else CloseAs(s, id, Released, Refunding(None))
    case EndRelease(id) =>
      if id >= |s.phases| || s.phases[id] != Refunding(None) then s
      else Finish(s, id, Release, s.db.reservations[id].hold)
    case BeginSettle(id, billed) =>
      if !IsOpen(s, id) then s else CloseAs(s, id, Settled, Charging(if billed < 0 then 0 else billed))
    case EndSettle(id, debited) =>
      if id >= |s.phases| || !s.phases[id].Charging? then s
      else
        var hold, billed := s.db.reservations[id].hold, s.phases[id].billed;
        if billed < hold then Finish(s, id, SettleAdjust, hold - billed)
        else if debited < 0 || debited > billed - hold || debited > Balance(s.db, s.db.reservations[id].org) then s
        else if debited > 0 then Finish(s, id, SettleAdjust, -debited)
        else s.(phases := s.phases[id := Idle])
  }

  function Run(s: Sys, acts: seq<Action>): (r: Sys)
    requires Sized(s)
    ensures Sized(r)
    decreases acts
  {
    if acts == [] then s else Run(Next(s, acts[0]), acts[1..])
  }

  // ---- money in the system ----

  // What reservation `id` holds back from its wallet: open, or closed and not yet paid back or charged.
  function Held(rs: seq<Reservation>, phases: seq<Phase>, id: Id, org: Org): nat
    requires id < |rs| == |phases|
  {
    if rs[id].org == org && (rs[id].status == Open || phases[id] != Idle) then rs[id].hold else 0
  }

  function AllHeld(rs: seq<Reservation>, phases: seq<Phase>, n: nat, org: Org): nat
    requires n <= |rs| == |phases|
  {
    if n == 0 then 0 else AllHeld(rs, phases, n - 1, org) + Held(rs, phases, n - 1, org)
  }

  // Balance plus everything held: the organisation's money.
  function Worth(s: Sys, org: Org): int
    requires Sized(s)
  {
    Balance(s.db, org) + AllHeld(s.db.reservations, s.phases, |s.phases|, org)
  }

  // No transaction is half way.
  ghost predicate AtRest(phases: seq<Phase>) {
    forall k :: 0 <= k < |phases| ==> phases[k] == Idle
  }

  lemma {:induction false} HeldAtRest(rs: seq<Reservation>, phases: seq<Phase>, n: nat, org: Org)
    requires n <= |rs| == |phases| && AtRest(phases)
    ensures AllHeld(rs, phases, n, org) == OpenHolds(rs[..n], org)
  {
    if n > 0 {
      HeldAtRest(rs, phases, n - 1, org);
      assert rs[..n][..n - 1] == rs[..n - 1];
    }
  }

  /** Between transactions an organisation's worth is its balance and its open holds. */
  lemma WorthAtRest(s: Sys, org: Org)
    requires Sized(s) && AtRest(s.phases)
    ensures Worth(s, org) == Balance(s.db, org) + OpenHolds(s.db.reservations, org)
  {
    HeldAtRest(s.db.reservations, s.phases, |s.phases|, org);
    assert s.db.reservations[..|s.phases|] == s.db.reservations;
  }

  lemma {:induction false} AllHeldUpdate(rs: seq<Reservation>, phases: seq<Phase>, n: nat, id: Id,
                                         r: Reservation, phase: Phase, org: Org)
    requires n <= |rs| == |phases| && id < |rs|
    ensures AllHeld(rs[id := r], phases[id := phase], n, org)
         == AllHeld(rs, phases, n, org)
            + if id < n then Held(rs[id := r], phases[id := phase], id, org) - Held(rs, phases, id, org) else 0
  {
    if n > 0 {
      AllHeldUpdate(rs, phases, n - 1, id, r, phase, org);
    }
  }

  lemma {:induction false} AllHeldPrefix(rs: seq<Reservation>, phases: seq<Phase>, n: nat,
                                         r: Reservation, phase: Phase, org: Org)
    requires n <= |rs| == |phases|
    ensures AllHeld(rs + [r], phases + [phase], n, org) == AllHeld(rs, phases, n, org)
  {
    if n > 0 {
      AllHeldPrefix(rs, phases, n - 1, r, phase, org);
    }
  }

  // What the action takes out of the organisation's worth (negative: puts in).
  function Spent(s: Sys, a: Action, org: Org): int
    requires Sized(s)
  {
    match a
    case TopUp(o, amount) => if amount >= 1 && o == org then -amount else 0
    case EndSettle(id, debited) =>
      if id < |s.phases| && s.phases[id].Charging? && s.db.reservations[id].org == org then
        var hold, billed := s.db.reservations[id].hold, s.phases[id].billed;
        if billed < hold then billed
        else if debited < 0 || debited > billed - hold || debited > Balance(s.db, org) then 0
        else hold + debited
      else 0
    case _ => 0
  }

  lemma WorthOfClose(s: Sys, id: Id, status: Status, phase: Phase, org: Org)
    requires Sized(s) && IsOpen(s, id) && phase != Idle
    ensures Worth(CloseAs(s, id, status, phase), org) == Worth(s, org)
  {
    AllHeldUpdate(s.db.reservations, s.phases, |s.phases|, id, s.db.reservations[id].(status := status), phase, org);
  }

  lemma WorthOfFinish(s: Sys, id: Id, kind: Kind, delta: int, org: Org)
    requires Sized(s) && id < |s.phases| && s.phases[id] != Idle && s.db.reservations[id].status != Open
    ensures Worth(Finish(s, id, kind, delta), org)
         == Worth(s, org) + if s.db.reservations[id].org == org then delta - s.db.reservations[id].hold else 0
  {
    var rs := s.db.reservations;
    AllHeldUpdate(rs, s.phases, |s.phases|, id, rs[id], Idle, org);
    assert rs[id := rs[id]] == rs;
    AdjustSums(s.db, rs[id].org, kind, delta, Some(id), org);
  }

  lemma WorthOfTake(s: Sys, org: Org, hold: int, createdAt: int, o: Org)
    requires Sized(s)
    ensures Worth(Next(s, Take(org, hold, createdAt)), o) == Worth(s, o)
  {
    var t := Next(s, Take(org, hold, createdAt));
    var n := |s.phases|;
    if t != s {
      var r := Reservation(org, hold, Open, createdAt);
      var d := AddReservation(s.db, r);
      AllHeldPrefix(s.db.reservations, s.phases, n, r, Idle, o);
      AdjustSums(d, org, Reserve, -hold, Some(n), o);
      assert Held(t.db.reservations, t.phases, n, o) == if org == o then hold else 0;
      assert Balance(d, o) == Balance(s.db, o);
    }
  }

  lemma WorthOfSettle(s: Sys, id: Id, debited: int, org: Org)
    requires Inv(s)
    ensures Worth(Next(s, EndSettle(id, debited)), org) == Worth(s, org) - Spent(s, EndSettle(id, debited), org)
  {
    var t := Next(s, EndSettle(id, debited));
    if t != s {
      StatusInPhase(s, id);
      var rs := s.db.reservations;
      var hold, billed := rs[id].hold, s.phases[id].billed;
      if billed < hold {
        WorthOfFinish(s, id, SettleAdjust, hold - billed, org);
      } else if debited > 0 {
        WorthOfFinish(s, id, SettleAdjust, -debited, org);
      } else {
        AllHeldUpdate(rs, s.phases, |s.phases|, id, rs[id], Idle, org);
        assert rs[id := rs[id]] == rs;
      }
    }
  }

  /** Conservation. Only top-ups and settlements change what an organisation is worth, by exactly the
      amount paid in or charged; reaping, releasing and reserving move money without changing it. */
  lemma WorthMoves(s: Sys, a: Action, org: Org)
    requires Inv(s)
    ensures Worth(Next(s, a), org) == Worth(s, org) - Spent(s, a, org)
  {
    hide AllHeld, RowsMatch, ClaimsMatch;
    match a {
      case TopUp(o, amount) =>
      case Take(o, hold, createdAt) => WorthOfTake(s, o, hold, createdAt, org);
      case Select(_, _) =>
      case Claim(p) =>
        if Next(s, a).phases != s.phases {
          WorthOfClose(s, s.reapers[p].queue[0], Released, Refunding(Some(p)), org);
        }
      case Credit(p) =>
        if Next(s, a) != s {
          ClaimHeld(s, p);
          var id := s.reapers[p].claim.value;
          WorthOfFinish(s, id, Release, s.db.reservations[id].hold, org);
        }
      case BeginRelease(id) =>
        if IsOpen(s, id) { WorthOfClose(s, id, Released, Refunding(None), org); }
      case EndRelease(id) =>
        if Next(s, a) != s {
          StatusInPhase(s, id);
          WorthOfFinish(s, id, Release, s.db.reservations[id].hold, org);
        }
      case BeginSettle(id, billed) =>
        if IsOpen(s, id) { WorthOfClose(s, id, Settled, Charging(if billed < 0 then 0 else billed), org); }
      case EndSettle(id, debited) => WorthOfSettle(s, id, debited, org);
    }
  }

  // ---- invariants ----

  // A claim and the phase of the claimed row name each other.
  ghost predicate ClaimsMatch(s: Sys)
    requires Sized(s)
  {
    && (forall p :: 0 <= p < |s.reapers| && s.reapers[p].claim.Some? ==>
          var id := s.reapers[p].claim.value;
          id < |s.phases| && s.phases[id] == Refunding(Some(p)))
    && (forall id :: 0 <= id < |s.phases| && s.phases[id].Refunding? && s.phases[id].reaper.Some? ==>
          var p := s.phases[id].reaper.value;
          p < |s.reapers| && s.reapers[p].claim == Some(id))
  }

  ghost predicate PhasesMatch(s: Sys)
    requires Sized(s)
  {
    forall id :: 0 <= id < |s.phases| ==> PhaseFits(s.phases[id], s.db.reservations[id].status)
  }

  predicate PhaseFits(phase: Phase, status: Status) {
    match phase
    case Idle => true
    case Refunding(_) => status == Released
    case Charging(_) => status == Settled
  }

  // How many ledger rows of each kind a reservation has.
  ghost predicate RowsMatch(s: Sys)
    requires Sized(s)
  {
    && (forall id :: 0 <= id < |s.phases| ==>
          && RowCount(s.db.ledger, Release, id)
             == (if s.db.reservations[id].status == Released && s.phases[id] == Idle then 1 else 0)
          && RowCount(s.db.ledger, SettleAdjust, id)
             <= (if s.db.reservations[id].status == Settled && s.phases[id] == Idle then 1 else 0)
          && RowCount(s.db.ledger, Reserve, id) <= 1)
    && (forall id, kind :: id >= |s.phases| ==> RowCount(s.db.ledger, kind, id) == 0)
  }

  ghost predicate Inv(s: Sys) {
    Sized(s) && ClaimsMatch(s) && PhasesMatch(s) && RowsMatch(s)
  }

  lemma ClaimHeld(s: Sys, p: nat)
    requires Inv(s) && p < |s.reapers| && s.reapers[p].claim.Some?
    ensures var id := s.reapers[p].claim.value;
      && id < |s.phases| && s.phases[id] == Refunding(Some(p))
      && s.db.reservations[id].status == Released
  {
    assert PhaseFits(s.phases[s.reapers[p].claim.value], s.db.reservations[s.reapers[p].claim.value].status);
  }

  lemma StatusInPhase(s: Sys, id: Id)
    requires Inv(s) && id < |s.phases|
    ensures PhaseFits(s.phases[id], s.db.reservations[id].status)
  {
  }

  // ---- every action keeps the invariant ----

  // Ledger rows of one reservation are counted in the ledger alone.
  lemma RowsOfAdjust(db: Db, org: Org, kind: Kind, delta: int, id: Option<Id>)
    ensures var l := Adjust(db, org, kind, delta, id).ledger;
      forall k: Kind, i: Id :: RowCount(l, k, i) == RowCount(db.ledger, k, i) + if k == kind && Some(i) == id then 1 else 0
  {
    var balance := Balance(db, org) + delta;
    forall k: Kind, i: Id ensures RowCount(Adjust(db, org, kind, delta, id).ledger, k, i)
                     == RowCount(db.ledger, k, i) + if k == kind && Some(i) == id then 1 else 0 {
      RowCountAppend(db.ledger, Row(org, kind, delta, balance, id), k, i);
    }
  }

  lemma CloseKeeps(s: Sys, id: Id, status: Status, phase: Phase)
    requires Inv(s) && IsOpen(s, id) && phase != Idle && status != Open && PhaseFits(phase, status)
    ensures var t := CloseAs(s, id, status, phase);
      PhasesMatch(t) && RowsMatch(t)
  {
    hide RowCount;
  }

  lemma FinishKeeps(s: Sys, id: Id, kind: Kind, delta: int)
    requires Inv(s) && id < |s.phases|
    requires (kind == Release && s.phases[id].Refunding?) || (kind == SettleAdjust && s.phases[id].Charging?)
    ensures PhasesMatch(Finish(s, id, kind, delta)) && RowsMatch(Finish(s, id, kind, delta))
  {
    StatusInPhase(s, id);
    RowsOfAdjust(s.db, s.db.reservations[id].org, kind, delta, Some(id));
    hide RowCount, ClaimsMatch;
  }

  lemma TakeKeeps(s: Sys, org: Org, hold: int, createdAt: int)
    requires Inv(s)
    ensures Inv(Next(s, Take(org, hold, createdAt)))
  {
    var t := Next(s, Take(org, hold, createdAt));
    if t != s {
      var d := AddReservation(s.db, Reservation(org, hold, Open, createdAt));
      RowsOfAdjust(d, org, Reserve, -hold, Some(|s.phases|));
      hide RowCount;
      assert RowsMatch(t);
      assert ClaimsMatch(t);
    }
  }

  lemma ClaimKeeps(s: Sys, p: nat)
    requires Inv(s)
    ensures Inv(Next(s, Claim(p)))
  {
    var t := Next(s, Claim(p));
    if t.phases != s.phases {
      CloseKeeps(s, s.reapers[p].queue[0], Released, Refunding(Some(p)));
      hide RowsMatch, PhasesMatch;
      assert ClaimsMatch(t);
    }
  }

  lemma CreditKeeps(s: Sys, p: nat)
    requires Inv(s)
    ensures Inv(Next(s, Credit(p)))
  {
    var t := Next(s, Credit(p));
    if t != s {
      ClaimHeld(s, p);
      var id := s.reapers[p].claim.value;
      FinishKeeps(s, id, Release, s.db.reservations[id].hold);
      hide RowsMatch, PhasesMatch;
      assert ClaimsMatch(t);
    }
  }

  lemma ClaimsAfterCharge(s: Sys, t: Sys, id: Id)
    requires Inv(s) && Sized(t) && id < |s.phases| && s.phases[id].Charging?
    requires t.phases == s.phases[id := Idle] && t.reapers == s.reapers
    ensures ClaimsMatch(t)
  {
    hide RowsMatch, PhasesMatch;
  }

  lemma ChargeDropped(s: Sys, id: Id)
    requires Inv(s) && id < |s.phases| && s.phases[id].Charging?
    ensures var t := s.(phases := s.phases[id := Idle]); PhasesMatch(t) && RowsMatch(t)
  {
    StatusInPhase(s, id);
    hide RowCount, ClaimsMatch;
  }

  lemma SettleKeeps(s: Sys, id: Id, debited: int)
    requires Inv(s)
    ensures Inv(Next(s, EndSettle(id, debited)))
  {
    var t := Next(s, EndSettle(id, debited));
    if t != s {
      hide RowsMatch, ClaimsMatch, PhasesMatch;
      var hold, billed := s.db.reservations[id].hold, s.phases[id].billed;
      if billed < hold {
        FinishKeeps(s, id, SettleAdjust, hold - billed);
      } else if debited > 0 {
        FinishKeeps(s, id, SettleAdjust, -debited);
      } else {
        ChargeDropped(s, id);
      }
      ClaimsAfterCharge(s, t, id);
    }
  }

  lemma TopUpKeeps(s: Sys, org: Org, amount: int)
    requires Inv(s)
    ensures Inv(Next(s, TopUp(org, amount)))
  {
    RowsOfAdjust(s.db, org, Topup, amount, None);
    hide RowCount;
    assert RowsMatch(Next(s, TopUp(org, amount)));
  }

  lemma BeginReleaseKeeps(s: Sys, id: Id)
    requires Inv(s)
    ensures Inv(Next(s, BeginRelease(id)))
  {
    if IsOpen(s, id) {
      CloseKeeps(s, id, Released, Refunding(None));
      hide RowsMatch, PhasesMatch;
      assert ClaimsMatch(Next(s, BeginRelease(id)));
    }
  }

  lemma BeginSettleKeeps(s: Sys, id: Id, billed: int)
    requires Inv(s)
    ensures Inv(Next(s, BeginSettle(id, billed)))
  {
    if IsOpen(s, id) {
      CloseKeeps(s, id, Settled, Charging(if billed < 0 then 0 else billed));
      hide RowsMatch, PhasesMatch;
      assert ClaimsMatch(Next(s, BeginSettle(id, billed)));
    }
  }

  lemma EndReleaseKeeps(s: Sys, id: Id)
    requires Inv(s)
    ensures Inv(Next(s, EndRelease(id)))
  {
    if Next(s, EndRelease(id)) != s {
      FinishKeeps(s, id, Release, s.db.reservations[id].hold);
      hide RowsMatch, PhasesMatch;
      assert ClaimsMatch(Next(s, EndRelease(id)));
    }
  }

  lemma SelectKeeps(s: Sys, a: Action)
    requires Inv(s) && a.Select?
    ensures Inv(Next(s, a))
  {
  }

  lemma OtherKeeps(s: Sys, a: Action)
    requires Inv(s) && (a.TopUp? || a.Select? || a.BeginRelease? || a.BeginSettle? || a.EndRelease?)
    ensures Inv(Next(s, a))
  {
    hide Inv, Next;
    match a {
      case TopUp(org, amount) => TopUpKeeps(s, org, amount);
      case Select(_, _) => SelectKeeps(s, a);
      case BeginRelease(id) => BeginReleaseKeeps(s, id);
      case BeginSettle(id, billed) => BeginSettleKeeps(s, id, billed);
      case EndRelease(id) => EndReleaseKeeps(s, id);
      case _ => assert false;
    }
  }

  lemma NextKeeps(s: Sys, a: Action)
    requires Inv(s)
    ensures Inv(Next(s, a))
  {
    hide Next, Inv;
    match a {
      case Take(org, hold, createdAt) => TakeKeeps(s, org, hold, createdAt);
      case Claim(p) => ClaimKeeps(s, p);
      case Credit(p) => CreditKeeps(s, p);
      case EndSettle(id, debited) => SettleKeeps(s, id, debited);
      case _ => OtherKeeps(s, a);
    }
  }

  /** Exactly once. However reapers and requests interleave, a reservation never gets a second ledger
      row of a kind (so the table's unique index on kind and reservation cannot fire), and it has its
      one release row exactly when it has been released and the money is back. */
  lemma {:induction false} ExactlyOnce(s: Sys, acts: seq<Action>, id: Id, kind: Kind)
    requires Inv(s) && kind in {Release, SettleAdjust, Reserve}
    ensures var t := Run(s, acts);
      && Inv(t)
      && RowCount(t.db.ledger, kind, id) <= 1
      && (RowCount(t.db.ledger, Release, id) == 1 <==>
            id < |t.phases| && t.db.reservations[id].status == Released && t.phases[id] == Idle)
      && !(RowCount(t.db.ledger, Release, id) == 1 && RowCount(t.db.ledger, SettleAdjust, id) == 1)
    decreases acts
  {
    if acts == [] {
      hide RowCount;
    } else {
      NextKeeps(s, acts[0]);
      hide Inv, Next, RowCount;
      ExactlyOnce(Next(s, acts[0]), acts[1..], id, kind);
    }
  }

  function TotalSpent(s: Sys, acts: seq<Action>, org: Org): int
    requires Sized(s)
    decreases acts
  {
    if acts == [] then 0 else Spent(s, acts[0], org) + TotalSpent(Next(s, acts[0]), acts[1..], org)
  }

  /** Conservation over a run: worth at the end is worth at the start less what was spent. */
  lemma {:induction false} WorthOverRun(s: Sys, acts: seq<Action>, org: Org)
    requires Inv(s)
    ensures Worth(Run(s, acts), org) == Worth(s, org) - TotalSpent(s, acts, org)
    decreases acts
  {
    if acts != [] {
      NextKeeps(s, acts[0]);
      WorthMoves(s, acts[0], org);
      hide Inv, Next, Worth, Spent;
      WorthOverRun(Next(s, acts[0]), acts[1..], org);
    }
  }

  // ---- the ledger explains the balances ----

  lemma DriftKept(s: Sys, a: Action, org: Org)
    requires Sized(s)
    ensures Drift(Next(s, a).db, org) == Drift(s.db, org)
  {
    hide LedgerSum;
    match a {
      case TopUp(o, amount) => AdjustSums(s.db, o, Topup, amount, None, org);
      case Take(o, hold, createdAt) =>
        AdjustSums(AddReservation(s.db, Reservation(o, if hold < 0 then 0 else hold, Open, createdAt)),
                   o, Reserve, -hold, Some(|s.phases|), org);
      case Credit(p) =>
        if Next(s, a) != s {
          var r := s.db.reservations[s.reapers[p].claim.value];
          AdjustSums(s.db, r.org, Release, r.hold, s.reapers[p].claim, org);
        }
      case EndRelease(id) =>
        if Next(s, a) != s {
          var r := s.db.reservations[id];
          AdjustSums(s.db, r.org, Release, r.hold, Some(id), org);
        }
      case EndSettle(id, debited) =>
        if Next(s, a) != s {
          var r, billed := s.db.reservations[id], s.phases[id].billed;
          AdjustSums(s.db, r.org, SettleAdjust, if billed < r.hold then r.hold - billed else -debited, Some(id), org);
        }
      case _ =>
    }
  }

  // The ledger grows by rows that each record the balance they leave, and by nothing else.
  ghost predicate LedgerSound(s: Sys, drift: Org -> int)
  {
    && (forall o :: Drift(s.db, o) == drift(o))
    && RunningBalances(s.db.ledger, drift)
    && (forall o :: Balance(s.db, o) >= 0)
    && (forall k :: 0 <= k < |s.db.ledger| ==> s.db.ledger[k].balanceAfter >= 0)
  }

  lemma AdjustSound(s: Sys, t: Sys, org: Org, kind: Kind, delta: int, id: Option<Id>, drift: Org -> int)
    requires LedgerSound(s, drift) && Balance(s.db, org) + delta >= 0
    requires t.db.wallets == Adjust(s.db, org, kind, delta, id).wallets
    requires t.db.ledger == Adjust(s.db, org, kind, delta, id).ledger
    ensures LedgerSound(t, drift)
  {
    RunningAppend(s.db, org, kind, delta, id, drift);
    forall o ensures Drift(t.db, o) == drift(o) && Balance(t.db, o) >= 0 {
      AdjustSums(s.db, org, kind, delta, id, o);
    }
    hide LedgerSum, RunningBalances;
  }

  lemma NextSound(s: Sys, a: Action, drift: Org -> int)
    requires Sized(s) && LedgerSound(s, drift)
    ensures LedgerSound(Next(s, a), drift)
  {
    var t := Next(s, a);
    if t.db.ledger == s.db.ledger && t.db.wallets == s.db.wallets {
      hide RunningBalances, LedgerSum;
      assert forall o :: Drift(t.db, o) == Drift(s.db, o) && Balance(t.db, o) == Balance(s.db, o);
    } else {
      hide LedgerSound;
      match a {
        case TopUp(o, amount) => SoundBalance(s, o, drift); AdjustSound(s, t, o, Topup, amount, None, drift);
        case Take(o, hold, createdAt) => AdjustSound(s, t, o, Reserve, -hold, Some(|s.phases|), drift);
        case Credit(p) =>
          var r := s.db.reservations[s.reapers[p].claim.value];
          SoundBalance(s, r.org, drift);
          AdjustSound(s, t, r.org, Release, r.hold, s.reapers[p].claim, drift);
        case EndRelease(id) =>
          var r := s.db.reservations[id];
          SoundBalance(s, r.org, drift);
          AdjustSound(s, t, r.org, Release, r.hold, Some(id), drift);
        case EndSettle(id, debited) =>
          var r, billed := s.db.reservations[id], s.phases[id].billed;
          SoundBalance(s, r.org, drift);
          AdjustSound(s, t, r.org, SettleAdjust, if billed < r.hold then r.hold - billed else -debited, Some(id), drift);
        case _ =>
      }
    }
  }

  lemma SoundBalance(s: Sys, org: Org, drift: Org -> int)
    requires LedgerSound(s, drift)
    ensures Balance(s.db, org) >= 0
  {
  }

  /** Over any run no wallet drifts from its ledger, every row carries the running balance, and no
      balance, stored or recorded, goes below zero (so the table's check constraint cannot fire). */
  lemma {:induction false} LedgerExplainsBalances(s: Sys, acts: seq<Action>, drift: Org -> int)
    requires Sized(s) && LedgerSound(s, drift)
    ensures LedgerSound(Run(s, acts), drift)
    decreases acts
  {
    if acts != [] {
      NextSound(s, acts[0], drift);
      hide LedgerSound, Next;
      LedgerExplainsBalances(Next(s, acts[0]), acts[1..], drift);
    }
  }

  // ---- what a reaper returns ----

  function HoldSum(rs: seq<Reservation>, ids: seq<Id>): int
    requires forall k :: 0 <= k < |ids| ==> ids[k] < |rs|
  {
    if ids == [] then 0 else HoldSum(rs, ids[..|ids| - 1]) + rs[ids[|ids| - 1]].hold
  }

  lemma {:induction false} HoldSumKept(rs: seq<Reservation>, rs': seq<Reservation>, ids: seq<Id>)
    requires |rs| <= |rs'| && forall k :: 0 <= k < |ids| ==> ids[k] < |rs| && rs[ids[k]].hold == rs'[ids[k]].hold
    ensures HoldSum(rs', ids) == HoldSum(rs, ids)
    decreases |ids|
  {
    if ids != [] {
      HoldSumKept(rs, rs', ids[..|ids| - 1]);
    }
  }

  predicate PaidBack(s: Sys, id: Id)
    requires Sized(s)
  {
    id < |s.phases| && s.db.reservations[id].status == Released && s.phases[id] == Idle
  }

  // One reaper's books: what it credited is paid back, once each; what it has passed is not open.
  ghost predicate BooksRight(s: Sys, r: Reaper)
    requires Sized(s)
  {
    && (forall id :: id in r.snapshot ==> id < |s.phases| && (id in r.queue || s.db.reservations[id].status != Open))
    && (forall k :: 0 <= k < |r.done| ==> PaidBack(s, r.done[k]))
    && (forall i, j :: 0 <= i < j < |r.done| ==> r.done[i] != r.done[j])
    && r.refunded == HoldSum(s.db.reservations, r.done)
  }

  // ... and no two reapers credited the same reservation.
  ghost predicate ReapersRight(s: Sys)
    requires Sized(s)
  {
    && (forall p :: 0 <= p < |s.reapers| ==> BooksRight(s, s.reapers[p]))
    && (forall p, q, id :: 0 <= p < q < |s.reapers| && id in s.reapers[p].done ==> id !in s.reapers[q].done)
  }

  // Statuses only leave `open`, and money paid back stays paid back.
  ghost predicate Advances(s: Sys, t: Sys)
    requires Sized(s) && Sized(t)
  {
    && |s.phases| <= |t.phases|
    && (forall id :: 0 <= id < |s.phases| ==>
          && t.db.reservations[id].hold == s.db.reservations[id].hold
          && t.db.reservations[id].org == s.db.reservations[id].org
          && (s.db.reservations[id].status != Open ==> t.db.reservations[id].status == s.db.reservations[id].status)
          && (PaidBack(s, id) ==> PaidBack(t, id)))
  }

  lemma NextAdvances(s: Sys, a: Action)
    requires Inv(s)
    ensures Advances(s, Next(s, a))
  {
    hide RowsMatch;
  }

  lemma BooksAdvance(s: Sys, t: Sys, r: Reaper)
    requires Sized(s) && Sized(t) && Advances(s, t) && BooksRight(s, r)
    ensures BooksRight(t, r)
  {
    HoldSumKept(s.db.reservations, t.db.reservations, r.done);
  }

  lemma ReapersAdvance(s: Sys, t: Sys)
    requires Sized(s) && Sized(t) && Advances(s, t) && ReapersRight(s) && t.reapers == s.reapers
    ensures ReapersRight(t)
  {
    hide BooksRight, Advances;
    forall p | 0 <= p < |t.reapers| ensures BooksRight(t, t.reapers[p]) {
      BooksAdvance(s, t, s.reapers[p]);
    }
  }

  // One reaper's record changes; its credited ids are its own.
  lemma ReaperReplaced(s: Sys, t: Sys, p: nat, r: Reaper)
    requires Sized(s) && Sized(t) && Advances(s, t) && ReapersRight(s) && p < |s.reapers|
    requires t.reapers == s.reapers[p := r] && BooksRight(t, r)
    requires forall id :: id in r.done ==> id in s.reapers[p].done || !PaidBack(s, id)
    ensures ReapersRight(t)
  {
    forall q | 0 <= q < |t.reapers| && q != p ensures BooksRight(t, t.reapers[q]) {
      BooksAdvance(s, t, s.reapers[q]);
    }
    forall q, id | 0 <= q < |s.reapers| && q != p && id in s.reapers[q].done ensures PaidBack(s, id) {
      assert BooksRight(s, s.reapers[q]);
    }
    hide Advances;
  }

  lemma NextReapers(s: Sys, a: Action)
    requires Inv(s) && ReapersRight(s)
    ensures ReapersRight(Next(s, a))
  {
    var t := Next(s, a);
    NextAdvances(s, a);
    if t.reapers == s.reapers {
      hide ReapersRight, Advances, Inv;
      ReapersAdvance(s, t);
    } else {
      match a {
        case Select(p, ids) => ReaperReplaced(s, t, p, t.reapers[p]);
        case Claim(p) => ClaimBooks(s, p); ReaperReplaced(s, t, p, t.reapers[p]);
        case Credit(p) => CreditBooks(s, p); ReaperReplaced(s, t, p, t.reapers[p]);
        case _ => assert false;
      }
    }
  }

  lemma ClaimBooks(s: Sys, p: nat)
    requires Inv(s) && ReapersRight(s) && p < |s.reapers| && Next(s, Claim(p)) != s
    ensures BooksRight(Next(s, Claim(p)), Next(s, Claim(p)).reapers[p])
  {
    var t := Next(s, Claim(p));
    NextAdvances(s, Claim(p));
    assert BooksRight(s, s.reapers[p]);
    BooksAdvance(s, t, s.reapers[p]);
    hide Inv, ReapersRight, Advances, HoldSum;
    var q := s.reapers[p].queue;
    assert q == [q[0]] + q[1..];
    assert !IsOpen(t, q[0]);
  }

  lemma CreditBooks(s: Sys, p: nat)
    requires Inv(s) && ReapersRight(s) && p < |s.reapers| && Next(s, Credit(p)) != s
    ensures var t := Next(s, Credit(p));
      && BooksRight(t, t.reapers[p])
      && forall id :: id in t.reapers[p].done ==> id in s.reapers[p].done || !PaidBack(s, id)
  {
    var t, r := Next(s, Credit(p)), s.reapers[p];
    ClaimHeld(s, p);
    var id := r.claim.value;
    NextAdvances(s, Credit(p));
    assert BooksRight(s, r);
    BooksAdvance(s, t, r);
    assert PaidBack(t, id) && !PaidBack(s, id);
    assert t.reapers[p] == Reaper(r.snapshot, r.queue, None, r.done + [id], r.refunded + t.db.reservations[id].hold);
    CreditedBooks(s, t, r, id);
  }

  lemma CreditedBooks(s: Sys, t: Sys, r: Reaper, id: Id)
    requires Sized(s) && Sized(t) && BooksRight(s, r) && BooksRight(t, r)
    requires PaidBack(t, id) && !PaidBack(s, id)
    ensures BooksRight(t, Reaper(r.snapshot, r.queue, None, r.done + [id], r.refunded + t.db.reservations[id].hold))
    ensures forall i :: i in r.done + [id] ==> i in r.done || !PaidBack(s, i)
  {
    hide PaidBack;
    var ids := r.done + [id];
    assert ids[..|r.done|] == r.done;
    assert id !in r.done;
  }

  /** Over any run: what a reaper says it refunded is the sum of the holds it credited, each of them
      once and by no other reaper; and once a reaper has been through its snapshot, every
      reservation in it is closed, by that reaper or by somebody else. */
  lemma {:induction false} ReapersReturnWhatTheyRefunded(s: Sys, acts: seq<Action>)
    requires Inv(s) && ReapersRight(s)
    ensures var t := Run(s, acts);
      && ReapersRight(t)
      && forall p, id :: 0 <= p < |t.reapers| && t.reapers[p].queue == [] && id in t.reapers[p].snapshot ==>
           id < |t.phases| && t.db.reservations[id].status != Open
    decreases acts
  {
    if acts == [] {
      forall p, id | 0 <= p < |s.reapers| && s.reapers[p].queue == [] && id in s.reapers[p].snapshot
        ensures id < |s.phases| && s.db.reservations[id].status != Open
      {
        assert BooksRight(s, s.reapers[p]);
      }
    } else {
      NextKeeps(s, acts[0]);
      NextReapers(s, acts[0]);
      hide Inv, ReapersRight, Next;
      ReapersReturnWhatTheyRefunded(Next(s, acts[0]), acts[1..]);
    }
  }

  // A state every run can start from: wallets with their ledgers, no closing under way, idle reapers.
  lemma FreshStart(wallets: map<Org, int>, drift: Org -> int, n: nat)
    requires forall o :: o in wallets ==> wallets[o] >= 0
    requires forall o :: drift(o) == if o in wallets then wallets[o] else 0
    ensures var s := Sys(Db(wallets, [], []), [], seq(n, _ => Reaper([], [], None, [], 0)));
      Inv(s) && ReapersRight(s) && LedgerSound(s, drift)
  {
  }
}
