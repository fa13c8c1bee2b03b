/** What each admin request does to a model's fallbacks, in terms of the rows and their ids. */
module FallbackEffects {
  import opened Common
  import opened Ranking
  import opened Fallbacks

  ghost predicate HasId(rows: seq<Upstream>, id: nat) {
    exists k :: 0 <= k < |rows| && rows[k].id == id
  }

  ghost predicate IdsDistinct(rows: seq<Upstream>) {
    forall i, j :: 0 <= i < j < |rows| ==> rows[i].id != rows[j].id
  }

  // The rows of `b`, with ranks of their own.
  ghost predicate SameRows(a: seq<Upstream>, b: seq<Upstream>) {
    |a| == |b| && forall i :: 0 <= i < |a| ==> a[i].id == b[i].id && a[i].target == b[i].target
  }

  // The ranks are 1 to n.
  ghost predicate Dense(rows: seq<Upstream>) {
    && (forall i :: 0 <= i < |rows| ==> 1 <= rows[i].rank <= |rows|)
    && (forall i, j :: 0 <= i < j < |rows| ==> rows[i].rank != rows[j].rank)
  }

  // The rows stand in the same order by rank, one of them aside.
  ghost predicate SameOrder(a: seq<Upstream>, b: seq<Upstream>, but: Option<nat>)
    requires |a| == |b|
  {
    forall i: nat, j: nat :: i < |a| && j < |a| && but != Some(i) && but != Some(j) ==>
      (a[i].rank < a[j].rank <==> b[i].rank < b[j].rank)
  }

  // Two rows whose ranks are a thousand apart.
  ghost predicate Trap(rows: seq<Upstream>) {
    exists i, j :: 0 <= i < |rows| && 0 <= j < |rows| && rows[j].rank == rows[i].rank + 1000
  }

  ghost predicate TargetTaken(m: Model, target: Target, but: Option<nat>) {
    target == m.primary || exists k :: 0 <= k < |m.rows| && Some(m.rows[k].id) != but && m.rows[k].target == target
  }

  lemma TrapIs(rows: seq<Upstream>)
    ensures NoneAThousandApart(Ranks(rows)) <==> !Trap(rows)
  {
    var r := Ranks(rows);
    assert forall i :: 0 <= i < |rows| ==> r[i] == rows[i].rank;
    if !NoneAThousandApart(r) {
      var i, j :| 0 <= i < |r| && 0 <= j < |r| && r[j] == r[i] + 1000;
      assert rows[j].rank == rows[i].rank + 1000;
    }
    if Trap(rows) {
      var i, j :| 0 <= i < |rows| && 0 <= j < |rows| && rows[j].rank == rows[i].rank + 1000;
      assert r[j] == r[i] + 1000;
    }
  }

  lemma RanksDistinct(rows: seq<Upstream>)
    requires RanksRight(rows)
    ensures Distinct(Ranks(rows))
  {
  }

  // ---- create ----

  /** A create is refused exactly for its provider, for a target or a rank that is taken, and then for the limit.
      Otherwise the requested target is appended under the new id, at the requested rank or one above all the others;
      the other rows and the primary stay. */
  lemma CreateEffect(m: Model, id: nat, target: Target, rank: Option<int>, usable: bool, maxCandidates: nat)
    requires RanksRight(m.rows)
    ensures var (response, after) := Handle(m, Create(id, target, rank, usable), maxCandidates);
      var rankTaken := rank.Some? && exists k :: 0 <= k < |m.rows| && m.rows[k].rank == rank.value;
      && (if !usable then response == Unprocessable
          else if TargetTaken(m, target, None) || rankTaken then response == Conflict
          else if |m.rows| + 1 >= maxCandidates then response == Unprocessable
          else response == Done)
      && (response != Done ==> after == m)
      && (response == Done ==>
            && after.primary == m.primary && |after.rows| == |m.rows| + 1 && after.rows[..|m.rows|] == m.rows
            && var row := after.rows[|m.rows|];
               && row.id == id && row.target == target
               && (rank.Some? ==> row.rank == rank.value)
               && (rank.None? ==>
                     && (forall k :: 0 <= k < |m.rows| ==> m.rows[k].rank < row.rank)
                     && (row.rank == 1 || exists k :: 0 <= k < |m.rows| && m.rows[k].rank == row.rank - 1)))
  {
    TakenIs(m, target);
    HighestRank(m.rows);
    hide TargetTaken, HasTarget, RanksRight, MaxRank;
  }

  lemma TakenIs(m: Model, target: Target)
    ensures target == m.primary || HasTarget(m.rows, target) <==> TargetTaken(m, target, None)
  {
  }

  lemma {:induction false} HighestRank(rows: seq<Upstream>)
    requires RanksRight(rows)
    ensures MaxRank(rows) == 0 || exists k :: 0 <= k < |rows| && rows[k].rank == MaxRank(rows)
    decreases |rows|
  {
    if rows != [] {
      var n := |rows| - 1;
      assert forall k :: 0 <= k < n ==> rows[..n][k] == rows[k];
      HighestRank(rows[..n]);
    }
  }

  // ---- delete ----

  lemma RowIs(rows: seq<Upstream>, id: nat, k: nat)
    requires IdsDistinct(rows) && k < |rows| && rows[k].id == id
    ensures RowOf(rows, id) == k
  {
  }

  lemma NoRow(rows: seq<Upstream>, id: nat)
    ensures RowOf(rows, id) == |rows| <==> !HasId(rows, id)
  {
  }

  lemma ResequenceEffect(rows: seq<Upstream>)
    requires RanksRight(rows)
    ensures var t := Renumbered(rows, Ordered(Ranks(rows)));
      SameRows(t, rows) && Dense(t) && SameOrder(t, rows, None)
  {
    var ranks := Ranks(rows);
    RanksDistinct(rows);
    OrderedIsArrangement(ranks);
    ResequenceOutcome(ranks);
    hide Ordered, Positions, IsArrangement, RanksRight, Distinct;
    WithRanksEffect(rows, ranks, Positions(Ordered(ranks)), None);
  }

  lemma WithRanksEffect(rows: seq<Upstream>, was: seq<int>, next: seq<int>, but: Option<nat>)
    requires |next| == |rows| && was == Ranks(rows) && Distinct(next) && forall i :: 0 <= i < |next| ==> 1 <= next[i] <= |next|
    requires forall a: nat, b: nat :: a < |next| && b < |next| && but != Some(a) && but != Some(b) ==>
      (next[a] < next[b] <==> was[a] < was[b])
    ensures SameRows(WithRanks(rows, next), rows) && Dense(WithRanks(rows, next))
    ensures SameOrder(WithRanks(rows, next), rows, but)
  {
  }

  /** A delete answers "not found" exactly when no row has the id. Otherwise the row with the id goes, and the others
      stay with their targets and take the ranks 1 to n in their old order; only where two of them are a thousand apart
      can the statement that offsets them trip, and then nothing changes. */
  lemma DeleteEffect(m: Model, id: nat, trips: bool, maxCandidates: nat)
    requires IdsDistinct(m.rows) && RanksRight(m.rows)
    ensures var (response, after) := Handle(m, Delete(id, trips), maxCandidates);
      && (response == NotFound <==> !HasId(m.rows, id))
      && (response != Done ==> after == m)
      && forall k :: 0 <= k < |m.rows| && m.rows[k].id == id ==>
           var others := m.rows[..k] + m.rows[k + 1..];
           && response == (if trips && Trap(others) then IntegrityError else Done)
           && (response == Done ==>
                 && after.primary == m.primary && SameRows(after.rows, others) && Dense(after.rows)
                 && SameOrder(after.rows, others, None))
  {
    NoRow(m.rows, id);
    var (response, after) := Handle(m, Delete(id, trips), maxCandidates);
    if HasId(m.rows, id) {
      var k := RowOf(m.rows, id);
      forall j | 0 <= j < |m.rows| && m.rows[j].id == id ensures j == k {
        RowIs(m.rows, id, j);
      }
      var others := m.rows[..k] + m.rows[k + 1..];
      TrapIs(others);
      RemoveRanks(m.rows, k);
      ResequenceEffect(others);
      hide HasId, IdsDistinct, RanksRight, Trap, SameRows, Dense, SameOrder, NoneAThousandApart, Renumbered, RowOf;
    }
  }

  lemma RemoveRanks(rows: seq<Upstream>, k: nat)
    requires RanksRight(rows) && k < |rows|
    ensures RanksRight(rows[..k] + rows[k + 1..])
  {
    var t := rows[..k] + rows[k + 1..];
    assert forall i :: 0 <= i < k ==> t[i] == rows[i];
    assert forall i :: k <= i < |t| ==> t[i] == rows[i + 1];
  }

  // ---- update ----

  // The requested target: what the request leaves out stays.
  function Wanted(current: Target, provider: Option<nat>, upstream: Option<string>): Target {
    var p := match provider case Some(given) => given case None => current.provider;
    var u := match upstream case Some(given) => given case None => current.upstream;
    Target(p, u)
  }

  // What an update says to the row with the id.
  ghost predicate UpdateRefused(m: Model, k: nat, provider: Option<nat>, upstream: Option<string>, usable: bool,
                                response: Response)
    requires k < |m.rows|
  {
    var target := Wanted(m.rows[k].target, provider, upstream);
    if target.provider != m.rows[k].target.provider && !usable then response == Unprocessable
    else target != m.rows[k].target && TargetTaken(m, target, Some(m.rows[k].id)) && response == Conflict
  }

  lemma MoveEffect(rows: seq<Upstream>, k: nat, rank: int)
    requires RanksRight(rows) && k < |rows|
    ensures var t := Renumbered(rows, Moved(Ordered(Ranks(rows)), k, rank));
      && |t| == |rows| && SameRows(t, rows) && Dense(t) && SameOrder(t, rows, Some(k))
      && t[k].rank == if rank < 1 then 1 else if rank > |rows| then |rows| else rank
  {
    var ranks := Ranks(rows);
    RanksDistinct(rows);
    MoveOutcome(ranks, k, rank);
    hide Ordered, Positions, IsArrangement, RanksRight, Distinct, Moved;
    WithRanksEffect(rows, ranks, Positions(Moved(Ordered(ranks), k, rank)), Some(k));
  }

  lemma OthersHave(m: Model, k: nat, target: Target)
    requires IdsDistinct(m.rows) && k < |m.rows|
    ensures target == m.primary || HasTarget(m.rows[..k] + m.rows[k + 1..], target)
      <==> TargetTaken(m, target, Some(m.rows[k].id))
  {
    var others := m.rows[..k] + m.rows[k + 1..];
    assert forall i :: 0 <= i < k ==> others[i] == m.rows[i];
    assert forall i :: k < i < |m.rows| ==> others[i - 1] == m.rows[i];
    if HasTarget(others, target) {
      var i :| 0 <= i < |others| && others[i].target == target;
      assert m.rows[if i < k then i else i + 1].id != m.rows[k].id;
    }
  }

  lemma RetargetRanks(rows: seq<Upstream>, k: nat, target: Target)
    requires RanksRight(rows) && k < |rows|
    ensures var t := rows[k := rows[k].(target := target)];
      RanksRight(t) && (Trap(t) <==> Trap(rows)) && SameOrder(t, rows, None)
  {
    var t := rows[k := rows[k].(target := target)];
    assert forall i :: 0 <= i < |rows| ==> t[i].rank == rows[i].rank;
  }

  lemma OrderThrough(a: seq<Upstream>, b: seq<Upstream>, c: seq<Upstream>, but: Option<nat>)
    requires |a| == |b| == |c| && SameOrder(a, b, but) && SameOrder(b, c, None)
    ensures SameOrder(a, c, but)
  {
  }

  /** An update answers "not found" exactly when no row has the id, and is refused exactly for an unusable new provider
      or a new target that the primary or another row has. Otherwise the row with the id has the requested target, and
      the others their own; without a new rank all ranks stay, and with one the row stands at it, clamped to 1 to n, the
      ranks are 1 to n, and the others keep their order. */
  lemma UpdateEffect(m: Model, id: nat, provider: Option<nat>, upstream: Option<string>, rank: Option<int>, usable: bool,
                     trips: bool, maxCandidates: nat)
    requires IdsDistinct(m.rows) && RanksRight(m.rows)
    ensures var (response, after) := Handle(m, Update(id, provider, upstream, rank, usable, trips), maxCandidates);
      && (response == NotFound <==> !HasId(m.rows, id))
      && (response != Done ==> after == m)
      && forall k :: 0 <= k < |m.rows| && m.rows[k].id == id ==>
           var moves := rank.Some? && rank.value != m.rows[k].rank;
           var wanted := m.rows[k := m.rows[k].(target := Wanted(m.rows[k].target, provider, upstream))];
           && (UpdateRefused(m, k, provider, upstream, usable, Unprocessable) ==> response == Unprocessable)
           && (UpdateRefused(m, k, provider, upstream, usable, Conflict) ==> response == Conflict)
           && ((forall r :: !UpdateRefused(m, k, provider, upstream, usable, r)) ==>
                 response == (if moves && trips && Trap(m.rows) then IntegrityError else Done))
           && (response == Done ==>
                 && after.primary == m.primary
                 && if !moves then after.rows == wanted
                    else && SameRows(after.rows, wanted) && Dense(after.rows)
                         && SameOrder(after.rows, m.rows, Some(k))
                         && after.rows[k].rank
                            == if rank.value < 1 then 1 else if rank.value > |m.rows| then |m.rows| else rank.value)
  {
    NoRow(m.rows, id);
    if HasId(m.rows, id) {
      var k := RowOf(m.rows, id);
      forall j | 0 <= j < |m.rows| && m.rows[j].id == id ensures j == k {
        RowIs(m.rows, id, j);
      }
      UpdateOf(m, id, k, provider, upstream, rank, usable, trips);
    }
    hide HasId, IdsDistinct, RanksRight, Trap, SameRows, Dense, SameOrder, RowOf, UpdateRefused, Wanted;
    assert Handle(m, Update(id, provider, upstream, rank, usable, trips), maxCandidates)
        == HandleUpdate(m, Update(id, provider, upstream, rank, usable, trips));
    if !HasId(m.rows, id) {
      assert HandleUpdate(m, Update(id, provider, upstream, rank, usable, trips)) == (NotFound, m);
    }
    hide HandleUpdate, Handle;
  }

  lemma UpdateOf(m: Model, id: nat, k: nat, provider: Option<nat>, upstream: Option<string>, rank: Option<int>,
                 usable: bool, trips: bool)
    requires IdsDistinct(m.rows) && RanksRight(m.rows) && k < |m.rows| && m.rows[k].id == id && RowOf(m.rows, id) == k
    ensures var (response, after) := HandleUpdate(m, Update(id, provider, upstream, rank, usable, trips));
      var moves := rank.Some? && rank.value != m.rows[k].rank;
      var wanted := m.rows[k := m.rows[k].(target := Wanted(m.rows[k].target, provider, upstream))];
      && response != NotFound
      && (response != Done ==> after == m)
      && (UpdateRefused(m, k, provider, upstream, usable, Unprocessable) ==> response == Unprocessable)
      && (UpdateRefused(m, k, provider, upstream, usable, Conflict) ==> response == Conflict)
      && ((forall r :: !UpdateRefused(m, k, provider, upstream, usable, r)) ==>
            response == (if moves && trips && Trap(m.rows) then IntegrityError else Done))
      && (response == Done ==>
            && after.primary == m.primary
            && if !moves then after.rows == wanted
               else && SameRows(after.rows, wanted) && Dense(after.rows)
                    && SameOrder(after.rows, m.rows, Some(k))
                    && after.rows[k].rank
                       == if rank.value < 1 then 1 else if rank.value > |m.rows| then |m.rows| else rank.value)
  {
    hide *;
    var target := Wanted(m.rows[k].target, provider, upstream);
    var wanted := m.rows[k := m.rows[k].(target := target)];
    RetargetRanks(m.rows, k, target);
    UpdateIs(m, id, k, provider, upstream, rank, usable, trips, target, wanted);
    RefusedIs(m, k, provider, upstream, usable, target);
    if rank.Some? {
      MoveEffect(wanted, k, rank.value);
      OrderThrough(Renumbered(wanted, Moved(Ordered(Ranks(wanted)), k, rank.value)), wanted, m.rows, Some(k));
    }
  }

  lemma RefusedIs(m: Model, k: nat, provider: Option<nat>, upstream: Option<string>, usable: bool, target: Target)
    requires k < |m.rows| && target == Wanted(m.rows[k].target, provider, upstream)
    ensures var unusable := target.provider != m.rows[k].target.provider && !usable;
      var taken := target != m.rows[k].target && TargetTaken(m, target, Some(m.rows[k].id));
      && (UpdateRefused(m, k, provider, upstream, usable, Unprocessable) <==> unusable)
      && (UpdateRefused(m, k, provider, upstream, usable, Conflict) <==> !unusable && taken)
      && ((forall r :: !UpdateRefused(m, k, provider, upstream, usable, r)) <==> !unusable && !taken)
  {
    hide TargetTaken, Wanted;
  }

  // The handler with its tests in terms of rows and ids.
  lemma UpdateIs(m: Model, id: nat, k: nat, provider: Option<nat>, upstream: Option<string>, rank: Option<int>,
                 usable: bool, trips: bool, target: Target, wanted: seq<Upstream>)
    requires IdsDistinct(m.rows) && k < |m.rows| && m.rows[k].id == id && RowOf(m.rows, id) == k
    requires target == Wanted(m.rows[k].target, provider, upstream)
    requires wanted == m.rows[k := m.rows[k].(target := target)]
    ensures HandleUpdate(m, Update(id, provider, upstream, rank, usable, trips))
         == if target.provider != m.rows[k].target.provider && !usable then (Unprocessable, m)
            else if target != m.rows[k].target && TargetTaken(m, target, Some(m.rows[k].id)) then (Conflict, m)
            else if rank.None? || rank.value == m.rows[k].rank then (Done, m.(rows := wanted))
            else if trips && Trap(wanted) then (IntegrityError, m)
            else (Done, m.(rows := Renumbered(wanted, Moved(Ordered(Ranks(wanted)), k, rank.value))))
  {
    assert NewTarget(m.rows[k].target, provider, upstream) == target;
    OthersHave(m, k, target);
    TrapIs(wanted);
    hide IdsDistinct, Trap, NoneAThousandApart, Renumbered, RowOf, Wanted, NewTarget, HasTarget, TargetTaken, Ordered, Moved,
         Ranks;
  }

  // ---- the primary, and a provider that goes ----

  /** Changing the primary target is refused exactly for an unusable new provider or a new target that a row has;
      otherwise it changes the primary alone. */
  lemma SetPrimaryEffect(m: Model, provider: Option<nat>, upstream: Option<string>, usable: bool, maxCandidates: nat)
    ensures var (response, after) := Handle(m, SetPrimary(provider, upstream, usable), maxCandidates);
      var target := Wanted(m.primary, provider, upstream);
      && response == (if target.provider != m.primary.provider && !usable then Unprocessable
                      else if target != m.primary && exists k :: 0 <= k < |m.rows| && m.rows[k].target == target
                      then Conflict else Done)
      && after == (if response == Done then Model(target, m.rows) else m)
  {
    assert NewTarget(m.primary, provider, upstream) == Wanted(m.primary, provider, upstream);
  }

  /** A provider that goes takes exactly its rows with it. */
  lemma {:induction false} DropEffect(rows: seq<Upstream>, provider: nat)
    ensures var t := Keep(rows, provider);
      forall u :: u in t <==> u in rows && u.target.provider != provider
    decreases rows
  {
    if rows != [] {
      DropEffect(rows[1..], provider);
      assert rows == [rows[0]] + rows[1..];
    }
  }

  // ---- ids over a run ----

  lemma SameIds(a: seq<Upstream>, b: seq<Upstream>)
    requires SameRows(a, b) && IdsDistinct(b)
    ensures IdsDistinct(a)
  {
  }

  lemma RemoveIds(rows: seq<Upstream>, k: nat)
    requires IdsDistinct(rows) && k < |rows|
    ensures IdsDistinct(rows[..k] + rows[k + 1..])
  {
    var t := rows[..k] + rows[k + 1..];
    assert forall i :: 0 <= i < k ==> t[i] == rows[i];
    assert forall i :: k <= i < |t| ==> t[i] == rows[i + 1];
  }

  lemma {:induction false} KeepIds(rows: seq<Upstream>, provider: nat)
    requires IdsDistinct(rows)
    ensures IdsDistinct(Keep(rows, provider))
    decreases rows
  {
    if rows != [] {
      var rest := rows[1..];
      assert forall i :: 0 <= i < |rest| ==> rest[i] == rows[i + 1];
      KeepIds(rest, provider);
      DropEffect(rest, provider);
      var kept := Keep(rest, provider);
      forall i | 0 <= i < |kept| ensures kept[i].id != rows[0].id {
        assert kept[i] in kept && kept[i] in rest;
      }
    }
  }

  lemma CreateKeepsIds(m: Model, r: Request, maxCandidates: nat)
    requires r.Create? && IdsDistinct(m.rows) && RowOf(m.rows, r.id) == |m.rows|
    ensures IdsDistinct(HandleCreate(m, r, maxCandidates).1.rows)
  {
    NoRow(m.rows, r.id);
    hide RowOf, HasTarget, HasRank, MaxRank;
  }

  lemma UpdateKeepsIds(m: Model, id: nat, provider: Option<nat>, upstream: Option<string>, rank: Option<int>, usable: bool,
                       trips: bool, maxCandidates: nat)
    requires IdsDistinct(m.rows) && RanksRight(m.rows)
    ensures IdsDistinct(Handle(m, Update(id, provider, upstream, rank, usable, trips), maxCandidates).1.rows)
  {
    hide *;
    var (response, after) := Handle(m, Update(id, provider, upstream, rank, usable, trips), maxCandidates);
    UpdateEffect(m, id, provider, upstream, rank, usable, trips, maxCandidates);
    if response == Done {
      var k := WithId(m.rows, id);
      var wanted := m.rows[k := m.rows[k].(target := Wanted(m.rows[k].target, provider, upstream))];
      RetargetIds(m.rows, k, Wanted(m.rows[k].target, provider, upstream));
      if rank.Some? && rank.value != m.rows[k].rank {
        SameIds(after.rows, wanted);
      }
    }
  }

  lemma WithId(rows: seq<Upstream>, id: nat) returns (k: nat)
    requires HasId(rows, id)
    ensures k < |rows| && rows[k].id == id
  {
    k :| 0 <= k < |rows| && rows[k].id == id;
  }

  lemma RetargetIds(rows: seq<Upstream>, k: nat, target: Target)
    requires IdsDistinct(rows) && k < |rows|
    ensures IdsDistinct(rows[k := rows[k].(target := target)])
  {
    var t := rows[k := rows[k].(target := target)];
    assert forall i :: 0 <= i < |rows| ==> t[i].id == rows[i].id;
  }

  lemma DeleteKeepsIds(m: Model, id: nat, trips: bool, maxCandidates: nat)
    requires IdsDistinct(m.rows) && RanksRight(m.rows)
    ensures IdsDistinct(Handle(m, Delete(id, trips), maxCandidates).1.rows)
  {
    hide *;
    var (response, after) := Handle(m, Delete(id, trips), maxCandidates);
    DeleteEffect(m, id, trips, maxCandidates);
    if response == Done {
      var k := WithId(m.rows, id);
      RemoveIds(m.rows, k);
      SameIds(after.rows, m.rows[..k] + m.rows[k + 1..]);
    }
  }

  lemma HandleKeepsIds(m: Model, r: Request, maxCandidates: nat)
    requires IdsDistinct(m.rows) && RanksRight(m.rows) && Legal(m, r)
    ensures IdsDistinct(Handle(m, r, maxCandidates).1.rows)
  {
    match r {
      case Create(_, _, _, _) => CreateKeepsIds(m, r, maxCandidates);
      case Update(id, provider, upstream, rank, usable, trips) =>
        UpdateKeepsIds(m, id, provider, upstream, rank, usable, trips, maxCandidates);
      case Delete(id, trips) => DeleteKeepsIds(m, id, trips, maxCandidates);
      case SetPrimary(_, _, _) =>
      case DropProvider(p) => KeepIds(m.rows, p);
    }
    hide HandleCreate, HandleUpdate, HandleDelete, IdsDistinct, RanksRight, RowOf;
  }

  /** Ids stay distinct under any sequence of requests, so what the handlers do to the row with an id holds in every
      state that is reached. */
  lemma {:induction false} IdsStayDistinct(m: Model, rs: seq<Request>, maxCandidates: nat)
    requires IdsDistinct(m.rows) && Inv(m, maxCandidates) && LegalRun(m, rs, maxCandidates)
    ensures IdsDistinct(Run(m, rs, maxCandidates).rows) && RanksRight(Run(m, rs, maxCandidates).rows)
    decreases rs
  {
    InvRanks(m, maxCandidates);
    if rs != [] {
      HandleKeepsIds(m, rs[0], maxCandidates);
      HandleKeeps(m, rs[0], maxCandidates);
      hide Inv, Handle, Legal, IdsDistinct, RanksRight;
      IdsStayDistinct(Handle(m, rs[0], maxCandidates).1, rs[1..], maxCandidates);
    }
  }

  lemma InvRanks(m: Model, maxCandidates: nat)
    requires Inv(m, maxCandidates)
    ensures RanksRight(m.rows)
  {
  }
}
