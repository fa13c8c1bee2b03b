/** A model's fallback upstreams: the admin handlers of `backend/app/api/admin_ai_routes.py` that
    create, update, move and delete them, and the one that changes the model's own (primary) target. */
module Fallbacks {
  import opened Common
  import opened Ranking

  datatype Target = Target(provider: nat, upstream: string)
  datatype Upstream = Upstream(id: nat, target: Target, rank: int)
  datatype Model = Model(primary: Target, rows: seq<Upstream>)

  datatype Response = Done | NotFound | Conflict | Unprocessable | IntegrityError

  function Ranks(rows: seq<Upstream>): (r: seq<int>)
    ensures |r| == |rows| && forall i :: 0 <= i < |r| ==> r[i] == rows[i].rank
  {
    seq(|rows|, i requires 0 <= i < |rows| => rows[i].rank)
  }

  function WithRanks(rows: seq<Upstream>, ranks: seq<int>): (r: seq<Upstream>)
    requires |ranks| == |rows|
    ensures |r| == |rows| && forall i :: 0 <= i < |r| ==> r[i] == rows[i].(rank := ranks[i])
  {
    seq(|rows|, i requires 0 <= i < |rows| => rows[i].(rank := ranks[i]))
  }

  predicate InUse(rows: seq<Upstream>, row: nat, rank: int) {
    exists j: nat :: j < |rows| && j != row && rows[j].rank == rank
  }

  // ---- rewriting ranks in place ----

  class Table {
    var rows: seq<Upstream>

    constructor (rows: seq<Upstream>)
      ensures this.rows == rows
    {
      this.rows := rows;
    }

    // One single-row UPDATE after another, in the given order; the unique constraint is checked after
    // each. False where it trips; the transaction is then rolled back by the caller.
    method WriteRanks(next: seq<int>, order: seq<nat>) returns (ok: bool)
      requires |next| == |rows| && Distinct(Ranks(rows)) && IsArrangement(order, |rows|)
      modifies this
      ensures SafeInAnyOrder(Ranks(old(rows)), next) ==> ok
      ensures ok ==> rows == WithRanks(old(rows), next) && Distinct(next)
    {
      ghost var was, written: set<nat> := Ranks(rows), {};
      var i := 0;
      assert rows == WithRanks(rows, Mixed(was, next, {}));
      while i < |order|
        invariant 0 <= i <= |order| && |rows| == |old(rows)| == |order|
        invariant forall x: nat :: x in written <==> x in order[..i]
        invariant rows == WithRanks(old(rows), Mixed(was, next, written))
        invariant Distinct(Mixed(was, next, written))
      {
        var row := order[i];
        assert row in order;
        if InUse(rows, row, next[row]) {
          TripMeansUnsafe(old(rows), rows, was, next, written, row);
          return false;
        }
        NoTripKeepsDistinct(old(rows), rows, was, next, written, row);
        rows := rows[row := rows[row].(rank := next[row])];
        assert order[..i + 1] == order[..i] + [row];
        written := written + {row};
        hide Mixed;
        i := i + 1;
      }
      assert order[..i] == order;
      AllWritten(was, next, written);
      ok := true;
    }

    // `_offset_ranks` followed by handing out positions in the order of `list`.
    method Renumber(list: seq<nat>, offsetOrder: seq<nat>, flushOrder: seq<nat>) returns (ok: bool)
      requires Distinct(Ranks(rows)) && (forall i :: 0 <= i < |rows| ==> rows[i].rank >= 1) && |rows| <= 1000
      requires IsArrangement(list, |rows|)
      requires IsArrangement(offsetOrder, |rows|) && IsArrangement(flushOrder, |rows|)
      modifies this
      ensures NoneAThousandApart(Ranks(old(rows))) ==> ok
      ensures ok ==> rows == WithRanks(old(rows), Positions(list))
    {
      ghost var was := Ranks(rows);
      hide SafeInAnyOrder, IsArrangement, Distinct;
      OffsetSafeIff(was);
      ok := WriteRanks(Offset(Ranks(rows)), offsetOrder);
      if !ok {
        return;
      }
      assert Ranks(rows) == Offset(was);
      CompactionSafe(was, list);
      ArrangementCovers(list, |rows|);
      ok := WriteRanks(Positions(list), flushOrder);
    }

    // `_resequence`
    method Resequence(offsetOrder: seq<nat>, flushOrder: seq<nat>) returns (ok: bool)
      requires Distinct(Ranks(rows)) && (forall i :: 0 <= i < |rows| ==> rows[i].rank >= 1) && |rows| <= 1000
      requires IsArrangement(offsetOrder, |rows|) && IsArrangement(flushOrder, |rows|)
      modifies this
      ensures NoneAThousandApart(Ranks(old(rows))) ==> ok
      ensures ok ==> rows == WithRanks(old(rows), Positions(Ordered(Ranks(old(rows)))))
    {
      OrderedIsArrangement(Ranks(rows));
      hide IsArrangement;
      ok := Renumber(Ordered(Ranks(rows)), offsetOrder, flushOrder);
    }

    // `_move_upstream`, for a row of the table.
    method MoveUpstream(row: nat, targetRank: int, offsetOrder: seq<nat>, flushOrder: seq<nat>) returns (ok: bool)
      requires Distinct(Ranks(rows)) && (forall i :: 0 <= i < |rows| ==> rows[i].rank >= 1) && |rows| <= 1000
      requires row < |rows| && IsArrangement(offsetOrder, |rows|) && IsArrangement(flushOrder, |rows|)
      modifies this
      ensures NoneAThousandApart(Ranks(old(rows))) ==> ok
      ensures IsArrangement(Moved(Ordered(Ranks(old(rows))), row, targetRank), |old(rows)|)
      ensures ok ==> rows == WithRanks(old(rows), Positions(Moved(Ordered(Ranks(old(rows))), row, targetRank)))
    {
      MoveOutcome(Ranks(rows), row, targetRank);
      hide IsArrangement, Moved, Ordered;
      ok := Renumber(Moved(Ordered(Ranks(rows)), row, targetRank), offsetOrder, flushOrder);
    }
  }

  lemma MixedStep(was: seq<int>, next: seq<int>, written: set<nat>, row: nat)
    requires |was| == |next| && row < |was|
    ensures Mixed(was, next, written + {row}) == Mixed(was, next, written)[row := next[row]]
  {
  }

  lemma TripMeansUnsafe(rows0: seq<Upstream>, rows: seq<Upstream>, was: seq<int>, next: seq<int>, written: set<nat>,
                        row: nat)
    requires |was| == |next| == |rows0| && row < |was|
    requires rows == WithRanks(rows0, Mixed(was, next, written)) && InUse(rows, row, next[row])
    ensures !SafeInAnyOrder(was, next)
  {
    MixedStep(was, next, written, row);
    var m := Mixed(was, next, written + {row});
    var j: nat :| j < |rows| && j != row && rows[j].rank == next[row];
    assert m[j] == m[row];
    assert !Distinct(m);
  }

  lemma NoTripKeepsDistinct(rows0: seq<Upstream>, rows: seq<Upstream>, was: seq<int>, next: seq<int>,
                            written: set<nat>, row: nat)
    requires |was| == |next| == |rows0| && row < |was| && Distinct(Mixed(was, next, written))
    requires rows == WithRanks(rows0, Mixed(was, next, written)) && !InUse(rows, row, next[row])
    ensures Distinct(Mixed(was, next, written + {row}))
    ensures rows[row := rows[row].(rank := next[row])] == WithRanks(rows0, Mixed(was, next, written + {row}))
  {
    MixedStep(was, next, written, row);
    var m := Mixed(was, next, written + {row});
    forall i, j | 0 <= i < j < |m| ensures m[i] != m[j] {
      assert rows[i].rank == Mixed(was, next, written)[i] && rows[j].rank == Mixed(was, next, written)[j];
    }
  }

  lemma AllWritten(was: seq<int>, next: seq<int>, written: set<nat>)
    requires |was| == |next| && forall x: nat :: x in written <==> x < |was|
    ensures Mixed(was, next, written) == next
  {
  }

  // ---- the handlers, request by request ----

  datatype Request =
    | Create(id: nat, target: Target, rank: Option<int>, usable: bool)
    | Update(id: nat, provider: Option<nat>, upstream: Option<string>, rank: Option<int>, usable: bool, trips: bool)
    | Delete(id: nat, trips: bool)
    | SetPrimary(provider: Option<nat>, upstream: Option<string>, usable: bool)
    | DropProvider(dropped: nat)     // the provider's upstream rows go with it

  // `usable` says whether the named provider exists, is enabled and not disabled. `trips` says whether
  // the offset statement, in the order the database happens to take, meets a rank in use; it can only
  // matter when two ranks are a thousand apart.

  predicate HasTarget(rows: seq<Upstream>, target: Target) {
    exists k :: 0 <= k < |rows| && rows[k].target == target
  }

  predicate HasRank(rows: seq<Upstream>, rank: int) {
    exists k :: 0 <= k < |rows| && rows[k].rank == rank
  }

  // The row with an id, by position; the length when there is none.
  function RowOf(rows: seq<Upstream>, id: nat): (k: nat)
    ensures k <= |rows| && (k < |rows| ==> rows[k].id == id)
    ensures k == |rows| ==> forall i :: 0 <= i < |rows| ==> rows[i].id != id
  {
    if rows == [] then 0
    else if rows[0].id == id then 0
    else
      assert forall i :: 1 <= i < |rows| ==> rows[i] == rows[1..][i - 1];
      1 + RowOf(rows[1..], id)
  }

  function MaxRank(rows: seq<Upstream>): (r: int)
    ensures forall k :: 0 <= k < |rows| ==> rows[k].rank <= r
  {
    if rows == [] then 0
    else
      var n := |rows| - 1;
      var rest := MaxRank(rows[..n]);
      assert forall k :: 0 <= k < n ==> rows[k] == rows[..n][k];
      if rows[n].rank > rest then rows[n].rank else rest
  }

  function NewTarget(t: Target, provider: Option<nat>, upstream: Option<string>): Target {
    Target(if provider.Some? then provider.value else t.provider, if upstream.Some? then upstream.value else t.upstream)
  }

  function Keep(rows: seq<Upstream>, provider: nat): seq<Upstream> {
    if rows == [] then []
    else (if rows[0].target.provider == provider then [] else [rows[0]]) + Keep(rows[1..], provider)
  }

  ghost function Renumbered(rows: seq<Upstream>, list: seq<nat>): seq<Upstream> {
    if IsArrangement(list, |rows|) then WithRanks(rows, Positions(list)) else rows
  }

  ghost function HandleCreate(m: Model, r: Request, maxCandidates: nat): (Response, Model)
    requires r.Create?
  {
    if !r.usable then (Unprocessable, m)
    else if r.target == m.primary || HasTarget(m.rows, r.target) then (Conflict, m)
    else if r.rank.Some? && HasRank(m.rows, r.rank.value) then (Conflict, m)
    else if |m.rows| + 1 >= maxCandidates then (Unprocessable, m)
    else
      var rank := if r.rank.Some? then r.rank.value else MaxRank(m.rows) + 1;
      (Done, m.(rows := m.rows + [Upstream(r.id, r.target, rank)]))
  }

  ghost function HandleUpdate(m: Model, r: Request): (Response, Model)
    requires r.Update?
  {
    var k := RowOf(m.rows, r.id);
    if k == |m.rows| then (NotFound, m)
    else
      var row := m.rows[k];
      var target := NewTarget(row.target, r.provider, r.upstream);
      if target.provider != row.target.provider && !r.usable then (Unprocessable, m)
      else if target != row.target && (target == m.primary || HasTarget(m.rows[..k] + m.rows[k + 1..], target)) then
        (Conflict, m)
      else
        var rows := m.rows[k := row.(target := target)];
        if r.rank.None? || r.rank.value == row.rank then (Done, m.(rows := rows))
        else if r.trips && !NoneAThousandApart(Ranks(rows)) then (IntegrityError, m)
        else (Done, m.(rows := Renumbered(rows, Moved(Ordered(Ranks(rows)), k, r.rank.value))))
  }

  ghost function HandleDelete(m: Model, r: Request): (Response, Model)
    requires r.Delete?
  {
    var k := RowOf(m.rows, r.id);
    if k == |m.rows| then (NotFound, m)
    else
      var rows := m.rows[..k] + m.rows[k + 1..];
      if r.trips && !NoneAThousandApart(Ranks(rows)) then (IntegrityError, m)
      else (Done, m.(rows := Renumbered(rows, Ordered(Ranks(rows)))))
  }

  ghost function HandleSetPrimary(m: Model, r: Request): (Response, Model)
    requires r.SetPrimary?
  {
    var target := NewTarget(m.primary, r.provider, r.upstream);
    if target.provider != m.primary.provider && !r.usable then (Unprocessable, m)
    else if target != m.primary && HasTarget(m.rows, target) then (Conflict, m)
    else (Done, m.(primary := target))
  }

  ghost function Handle(m: Model, r: Request, maxCandidates: nat): (Response, Model) {
    match r
    case Create(_, _, _, _) => HandleCreate(m, r, maxCandidates)
    case Update(_, _, _, _, _, _) => HandleUpdate(m, r)
    case Delete(_, _) => HandleDelete(m, r)
    case SetPrimary(_, _, _) => HandleSetPrimary(m, r)
    case DropProvider(p) => (Done, m.(rows := Keep(m.rows, p)))
  }

  ghost function Run(m: Model, rs: seq<Request>, maxCandidates: nat): Model
    decreases rs
  {
    if rs == [] then m else Run(Handle(m, rs[0], maxCandidates).1, rs[1..], maxCandidates)
  }

  // What the schema demands of a request: ranks from 1 up, and fresh ids for new rows.
  predicate Legal(m: Model, r: Request) {
    match r
    case Create(id, _, rank, _) => (rank.Some? ==> rank.value >= 1) && RowOf(m.rows, id) == |m.rows|
    case _ => true
  }

  ghost predicate LegalRun(m: Model, rs: seq<Request>, maxCandidates: nat)
    decreases rs
  {
    rs != [] ==> Legal(m, rs[0]) && LegalRun(Handle(m, rs[0], maxCandidates).1, rs[1..], maxCandidates)
  }

  ghost predicate TargetsDistinct(rows: seq<Upstream>) {
    forall i, j :: 0 <= i < j < |rows| ==> rows[i].target != rows[j].target
  }

  ghost predicate RanksRight(rows: seq<Upstream>) {
    && (forall i, j :: 0 <= i < j < |rows| ==> rows[i].rank != rows[j].rank)
    && (forall k :: 0 <= k < |rows| ==> rows[k].rank >= 1)
  }

  ghost predicate Inv(m: Model, maxCandidates: nat) {
    && TargetsDistinct(m.rows) && !HasTarget(m.rows, m.primary)
    && RanksRight(m.rows)
    && (m.rows != [] ==> |m.rows| + 1 <= maxCandidates)
  }

  lemma RenumberKeeps(rows: seq<Upstream>, list: seq<nat>, primary: Target)
    requires TargetsDistinct(rows) && !HasTarget(rows, primary) && RanksRight(rows)
    ensures var t := Renumbered(rows, list);
      |t| == |rows| && TargetsDistinct(t) && !HasTarget(t, primary) && RanksRight(t)
  {
    if IsArrangement(list, |rows|) {
      PositionsAreOneToN(list, |rows|);
    }
  }

  lemma CreateKeeps(m: Model, r: Request, maxCandidates: nat)
    requires Inv(m, maxCandidates) && r.Create? && Legal(m, r)
    ensures Inv(HandleCreate(m, r, maxCandidates).1, maxCandidates)
  {
  }

  lemma RetargetKeeps(m: Model, k: nat, target: Target)
    requires TargetsDistinct(m.rows) && !HasTarget(m.rows, m.primary) && RanksRight(m.rows) && k < |m.rows|
    requires target == m.rows[k].target || (target != m.primary && !HasTarget(m.rows[..k] + m.rows[k + 1..], target))
    ensures var t := m.rows[k := m.rows[k].(target := target)];
      TargetsDistinct(t) && !HasTarget(t, m.primary) && RanksRight(t)
  {
    var others := m.rows[..k] + m.rows[k + 1..];
    assert forall i :: 0 <= i < k ==> others[i] == m.rows[i];
    assert forall i :: k < i < |m.rows| ==> others[i - 1] == m.rows[i];
  }

  lemma UpdateKeeps(m: Model, r: Request, maxCandidates: nat)
    requires Inv(m, maxCandidates) && r.Update?
    ensures Inv(HandleUpdate(m, r).1, maxCandidates)
  {
    var k := RowOf(m.rows, r.id);
    if HandleUpdate(m, r).1 != m {
      var target := NewTarget(m.rows[k].target, r.provider, r.upstream);
      RetargetKeeps(m, k, target);
      var rows := m.rows[k := m.rows[k].(target := target)];
      hide TargetsDistinct, HasTarget, RanksRight, Renumbered, RowOf;
      if r.rank.Some? {
        RenumberKeeps(rows, Moved(Ordered(Ranks(rows)), k, r.rank.value), m.primary);
      }
    }
  }

  lemma RemoveKeeps(rows: seq<Upstream>, k: nat, primary: Target)
    requires TargetsDistinct(rows) && !HasTarget(rows, primary) && RanksRight(rows) && k < |rows|
    ensures var t := rows[..k] + rows[k + 1..];
      TargetsDistinct(t) && !HasTarget(t, primary) && RanksRight(t)
  {
    var t := rows[..k] + rows[k + 1..];
    assert forall i :: 0 <= i < k ==> t[i] == rows[i];
    assert forall i :: k <= i < |t| ==> t[i] == rows[i + 1];
  }

  lemma DeleteKeeps(m: Model, r: Request, maxCandidates: nat)
    requires Inv(m, maxCandidates) && r.Delete?
    ensures Inv(HandleDelete(m, r).1, maxCandidates)
  {
    hide TargetsDistinct, HasTarget, RanksRight, Renumbered, RowOf;
    var k := RowOf(m.rows, r.id);
    if k < |m.rows| {
      var rows := m.rows[..k] + m.rows[k + 1..];
      RemoveKeeps(m.rows, k, m.primary);
      RenumberKeeps(rows, Ordered(Ranks(rows)), m.primary);
    }
  }

  // Dropping rows keeps what holds of all rows and of all pairs.
  lemma {:induction false} KeepIsSubsequence(rows: seq<Upstream>, provider: nat)
    ensures |Keep(rows, provider)| <= |rows|
    ensures forall u :: u in Keep(rows, provider) ==> u in rows
    decreases rows
  {
    if rows != [] {
      KeepIsSubsequence(rows[1..], provider);
    }
  }

  lemma {:induction false} DropKeeps(rows: seq<Upstream>, provider: nat, primary: Target)
    requires TargetsDistinct(rows) && !HasTarget(rows, primary) && RanksRight(rows)
    ensures var t := Keep(rows, provider);
      TargetsDistinct(t) && !HasTarget(t, primary) && RanksRight(t)
    decreases rows
  {
    if rows != [] {
      var rest := rows[1..];
      assert forall i :: 0 <= i < |rest| ==> rest[i] == rows[i + 1];
      DropKeeps(rest, provider, primary);
      KeepIsSubsequence(rest, provider);
      var kept := Keep(rest, provider);
      forall i | 0 <= i < |kept| ensures kept[i].target != rows[0].target && kept[i].rank != rows[0].rank {
        assert kept[i] in kept && kept[i] in rest;
      }
    }
  }

  lemma HandleKeeps(m: Model, r: Request, maxCandidates: nat)
    requires Inv(m, maxCandidates) && Legal(m, r)
    ensures Inv(Handle(m, r, maxCandidates).1, maxCandidates)
  {
    match r {
      case Create(_, _, _, _) => CreateKeeps(m, r, maxCandidates);
      case Update(_, _, _, _, _, _) => UpdateKeeps(m, r, maxCandidates);
      case Delete(_, _) => DeleteKeeps(m, r, maxCandidates);
      case SetPrimary(_, _, _) =>
      case DropProvider(p) =>
        DropKeeps(m.rows, p, m.primary);
        KeepIsSubsequence(m.rows, p);
    }
  }

  /** Under any sequence of creates, updates, moves, deletes, primary changes and provider removals,
      fallback targets stay pairwise distinct and different from the primary, ranks stay distinct and
      positive, and fallbacks and primary together stay within the candidate limit. */
  lemma {:induction false} FallbacksStayDistinct(m: Model, rs: seq<Request>, maxCandidates: nat)
    requires Inv(m, maxCandidates) && LegalRun(m, rs, maxCandidates)
    ensures Inv(Run(m, rs, maxCandidates), maxCandidates)
    decreases rs
  {
    if rs != [] {
      HandleKeeps(m, rs[0], maxCandidates);
      hide Inv, Handle, Legal;
      FallbacksStayDistinct(Handle(m, rs[0], maxCandidates).1, rs[1..], maxCandidates);
    }
  }

  /** The candidate limit caps the table far below a thousand rows, so every rewrite a handler starts
      from such a state compacts safely; whether its offset statement can trip is decided by the ranks
      alone, and two creates are enough to reach ranks for which it can. */
  lemma CreatesCanLeaveATrap(primary: Target, a: Target, b: Target, maxCandidates: nat)
    requires primary != a && primary != b && a != b && maxCandidates >= 4
    ensures var rs := [Create(1, a, Some(1), true), Create(2, b, Some(1001), true)];
      var m := Run(Model(primary, []), rs, maxCandidates);
      && LegalRun(Model(primary, []), rs, maxCandidates)
      && Ranks(m.rows) == [1, 1001]
      && !SafeInAnyOrder(Ranks(m.rows), Offset(Ranks(m.rows)))
  {
    var c1, c2 := Create(1, a, Some(1), true), Create(2, b, Some(1001), true);
    var m0 := Model(primary, []);
    var m1 := Model(primary, [Upstream(1, a, 1)]);
    var m2 := Model(primary, [Upstream(1, a, 1), Upstream(2, b, 1001)]);
    assert m0.rows + [Upstream(1, a, 1)] == m1.rows && m1.rows + [Upstream(2, b, 1001)] == m2.rows;
    assert m1.rows[0] == Upstream(1, a, 1);
    assert !HasTarget(m0.rows, a) && !HasRank(m0.rows, 1);
    assert !HasTarget(m1.rows, b) && !HasRank(m1.rows, 1001);
    assert HandleCreate(m0, c1, maxCandidates) == (Done, m1);
    assert HandleCreate(m1, c2, maxCandidates) == (Done, m2);
    var rs := [c1, c2];
    assert rs[1..] == [c2] && [c2][1..] == [];
    assert Run(m0, rs, maxCandidates) == Run(m1, [c2], maxCandidates) == Run(m2, [], maxCandidates) == m2;
    assert LegalRun(m1, [c2], maxCandidates);
    assert Ranks(m2.rows) == [1, 1001];
    ThousandApartBreaks();
  }
}
