/** Rewriting fallback ranks under a per-row unique constraint
    (`backend/app/api/admin_ai_routes.py`). A row is its position in the table; each single-row
    write must leave all ranks distinct, because the database checks the constraint row by row. */
module Ranking {
  import opened Common

  const RANK_OFFSET: int := 1000

  // ---- partly written states ----

  // The ranks once the rows in `written` have their new rank and the others still the old one.
  function Mixed(was: seq<int>, next: seq<int>, written: set<nat>): (r: seq<int>)
    requires |was| == |next|
    ensures |r| == |was|
    ensures forall i: nat :: i < |r| ==> r[i] == if i in written then next[i] else was[i]
  {
    seq(|was|, i requires 0 <= i < |was| => if i in written then next[i] else was[i])
  }

  function Below(n: nat): (s: set<nat>)
    ensures forall i: nat :: i in s <==> i < n
  {
    if n == 0 then {} else Below(n - 1) + {n - 1}
  }

  // No new rank is another row's old rank.
  ghost predicate Clear(was: seq<int>, next: seq<int>) {
    |was| == |next| && forall i, j :: 0 <= i < |was| && 0 <= j < |next| && i != j ==> was[i] != next[j]
  }

  ghost predicate SafeInAnyOrder(was: seq<int>, next: seq<int>)
    requires |was| == |next|
  {
    forall written: set<nat> :: Distinct(Mixed(was, next, written))
  }

  /** A rewrite never holds two equal ranks, in whatever order its rows are written, exactly when the
      old ranks are distinct, the new ones are, and no row's new rank is another row's old one. */
  lemma RewriteSafeIff(was: seq<int>, next: seq<int>)
    requires |was| == |next|
    ensures SafeInAnyOrder(was, next) <==> Distinct(was) && Distinct(next) && Clear(was, next)
  {
    if SafeInAnyOrder(was, next) {
      assert Distinct(Mixed(was, next, {}));
      assert Mixed(was, next, {}) == was;
      var all := Below(|was|);
      assert Mixed(was, next, all) == next;
      assert Distinct(Mixed(was, next, all));
      forall i: nat, j: nat | i < |was| && j < |next| && i != j ensures was[i] != next[j] {
        var m := Mixed(was, next, {j});
        assert Distinct(m) && m[i] == was[i] && m[j] == next[j];
      }
    }
    if Distinct(was) && Distinct(next) && Clear(was, next) {
      forall written: set<nat> ensures Distinct(Mixed(was, next, written)) {
        var m := Mixed(was, next, written);
        forall i: nat, j: nat | i < j < |m| ensures m[i] != m[j] {}
      }
    }
  }

  // ---- phase 1: every rank plus a thousand ----

  function Offset(ranks: seq<int>): (r: seq<int>)
    ensures |r| == |ranks| && forall i :: 0 <= i < |r| ==> r[i] == ranks[i] + RANK_OFFSET
  {
    seq(|ranks|, i requires 0 <= i < |ranks| => ranks[i] + RANK_OFFSET)
  }

  ghost predicate NoneAThousandApart(ranks: seq<int>) {
    forall i, j :: 0 <= i < |ranks| && 0 <= j < |ranks| ==> ranks[j] != ranks[i] + RANK_OFFSET
  }

  /** The offset statement cannot trip the constraint, in whatever order the rows are visited, if and
      only if no two ranks differ by exactly a thousand. */
  lemma OffsetSafeIff(ranks: seq<int>)
    requires Distinct(ranks)
    ensures SafeInAnyOrder(ranks, Offset(ranks)) <==> NoneAThousandApart(ranks)
  {
    RewriteSafeIff(ranks, Offset(ranks));
    var next := Offset(ranks);
    hide SafeInAnyOrder;
    if Clear(ranks, next) {
      forall i, j | 0 <= i < |ranks| && 0 <= j < |ranks| ensures ranks[j] != ranks[i] + RANK_OFFSET {
        if i != j {
          assert ranks[j] != next[i];
        }
      }
    }
  }

  /** In particular it is safe for ranks in 1..1000. */
  lemma SmallRanksOffset(ranks: seq<int>)
    requires Distinct(ranks) && forall i :: 0 <= i < |ranks| ==> 1 <= ranks[i] <= 1000
    ensures SafeInAnyOrder(ranks, Offset(ranks))
  {
    OffsetSafeIff(ranks);
  }

  /** ... and it is not safe for every table the create route accepts: that route takes any rank from 1
      up, so ranks 1 and 1001 can stand side by side. */
  lemma ThousandApartBreaks()
    ensures !SafeInAnyOrder([1, 1001], Offset([1, 1001]))
  {
    OffsetSafeIff([1, 1001]);
    assert [1, 1001][1] == [1, 1001][0] + RANK_OFFSET;
  }

  // ---- the order by rank ----

  function Insert(ranks: seq<int>, ordered: seq<nat>, row: nat): (r: seq<nat>)
    requires row < |ranks| && forall k :: 0 <= k < |ordered| ==> ordered[k] < |ranks|
    ensures |r| == |ordered| + 1 && forall k :: 0 <= k < |r| ==> r[k] < |ranks|
    ensures forall x :: x in r <==> x == row || x in ordered
  {
    if ordered == [] || ranks[row] < ranks[ordered[0]] then [row] + ordered
    else
      assert ordered == [ordered[0]] + ordered[1..];
      [ordered[0]] + Insert(ranks, ordered[1..], row)
  }

  // `ORDER BY rank`, over the first `n` rows.
  function OrderedUpTo(ranks: seq<int>, n: nat): (r: seq<nat>)
    requires n <= |ranks|
    ensures |r| == n && forall k :: 0 <= k < n ==> r[k] < |ranks|
    ensures forall x: nat :: x in r <==> x < n
  {
    if n == 0 then [] else Insert(ranks, OrderedUpTo(ranks, n - 1), n - 1)
  }

  function Ordered(ranks: seq<int>): (r: seq<nat>)
    ensures |r| == |ranks| && forall x: nat :: x in r <==> x < |ranks|
  {
    OrderedUpTo(ranks, |ranks|)
  }

  ghost predicate ByRank(ranks: seq<int>, ordered: seq<nat>) {
    && (forall k :: 0 <= k < |ordered| ==> ordered[k] < |ranks|)
    && (forall i, j :: 0 <= i < j < |ordered| ==> ranks[ordered[i]] < ranks[ordered[j]])
  }

  lemma {:induction false} InsertByRank(ranks: seq<int>, ordered: seq<nat>, row: nat)
    requires Distinct(ranks) && row < |ranks| && row !in ordered && ByRank(ranks, ordered)
    ensures ByRank(ranks, Insert(ranks, ordered, row))
    decreases ordered
  {
    hide Distinct;
    if ordered == [] {
    } else if ranks[row] < ranks[ordered[0]] {
      assert Insert(ranks, ordered, row) == [row] + ordered;
    } else {
      var first, rest := ordered[0], ordered[1..];
      assert ordered == [first] + rest;
      assert forall k :: 0 <= k < |rest| ==> rest[k] == ordered[k + 1];
      InsertByRank(ranks, rest, row);
      var r := Insert(ranks, rest, row);
      assert Insert(ranks, ordered, row) == [first] + r;
      RanksDiffer(ranks, first, row);
      hide Insert;
      LowestFirst(ranks, first, rest, row, r);
    }
  }

  lemma RanksDiffer(ranks: seq<int>, a: nat, b: nat)
    requires Distinct(ranks) && a < |ranks| && b < |ranks| && a != b
    ensures ranks[a] != ranks[b]
  {
  }

  lemma LowestFirst(ranks: seq<int>, first: nat, rest: seq<nat>, row: nat, r: seq<nat>)
    requires first < |ranks| && row < |ranks| && ranks[first] < ranks[row] && ByRank(ranks, r)
    requires forall k :: 0 <= k < |rest| ==> rest[k] < |ranks| && ranks[first] < ranks[rest[k]]
    requires forall k :: 0 <= k < |r| ==> r[k] == row || r[k] in rest
    ensures ByRank(ranks, [first] + r)
  {
    var all := [first] + r;
    forall i, j | 0 <= i < j < |all| ensures ranks[all[i]] < ranks[all[j]] {
      assert all[j] == r[j - 1];
      assert r[j - 1] == row || r[j - 1] in rest;
      if i > 0 {
        assert all[i] == r[i - 1];
      }
    }
  }

  lemma {:induction false} OrderedUpToByRank(ranks: seq<int>, n: nat)
    requires Distinct(ranks) && n <= |ranks|
    ensures ByRank(ranks, OrderedUpTo(ranks, n))
    decreases n
  {
    if n > 0 {
      hide Insert, ByRank, Distinct;
      OrderedUpToByRank(ranks, n - 1);
      InsertByRank(ranks, OrderedUpTo(ranks, n - 1), n - 1);
    }
  }

  // ---- phase 2: positions as ranks ----

  // A list of all rows, once each.
  ghost predicate IsArrangement(list: seq<nat>, n: nat) {
    |list| == n && Distinct(list) && forall x: nat :: x in list <==> x < n
  }

  function PositionOf(list: seq<nat>, row: nat): (k: nat)
    requires row in list
    ensures k < |list| && list[k] == row
  {
    if list[0] == row then 0 else 1 + PositionOf(list[1..], row)
  }

  // Every row is listed.
  ghost predicate Covers(list: seq<nat>, n: nat) {
    forall x: nat :: x < n ==> x in list
  }

  // Row `i` gets its 1-based position.
  function Positions(list: seq<nat>): (r: seq<int>)
    requires Covers(list, |list|)
    ensures |r| == |list| && forall i: nat :: i < |r| ==> r[i] == PositionOf(list, i) + 1
  {
    seq(|list|, i requires 0 <= i < |list| => PositionOf(list, i) + 1)
  }

  lemma OrderedIsArrangement(ranks: seq<int>)
    requires Distinct(ranks)
    ensures IsArrangement(Ordered(ranks), |ranks|) && ByRank(ranks, Ordered(ranks))
  {
    OrderedUpToByRank(ranks, |ranks|);
  }

  lemma PositionsAreOneToN(list: seq<nat>, n: nat)
    requires IsArrangement(list, n)
    ensures Distinct(Positions(list))
    ensures forall i :: 0 <= i < n ==> 1 <= Positions(list)[i] <= n && list[Positions(list)[i] - 1] == i
    ensures forall k :: 0 <= k < n ==> list[k] < n && Positions(list)[list[k]] == k + 1
  {
    var p := Positions(list);
    forall i: nat, j: nat | i < j < n ensures p[i] != p[j] {
      assert list[PositionOf(list, i)] == i && list[PositionOf(list, j)] == j;
    }
    forall k | 0 <= k < n ensures list[k] < n && p[list[k]] == k + 1 {
      assert list[k] in list;
      assert list[PositionOf(list, list[k])] == list[k];
    }
  }

  /** Compacting after the offset cannot trip the constraint either: the positions 1..n lie below every
      offset rank, so long as there are at most a thousand rows. */
  lemma CompactionSafe(ranks: seq<int>, list: seq<nat>)
    requires Distinct(ranks) && forall i :: 0 <= i < |ranks| ==> ranks[i] >= 1
    requires |ranks| <= RANK_OFFSET && IsArrangement(list, |ranks|)
    ensures SafeInAnyOrder(Offset(ranks), Positions(list))
  {
    PositionsAreOneToN(list, |ranks|);
    RewriteSafeIff(Offset(ranks), Positions(list));
  }

  // ---- moving one row ----

  function Clamp(x: int, lo: int, hi: int): int {
    if x < lo then lo else if x > hi then hi else x
  }

  function Without(list: seq<nat>, row: nat): seq<nat> {
    if list == [] then []
    else (if list[0] == row then [] else [list[0]]) + Without(list[1..], row)
  }

  // The list of the other rows with `row` inserted at the target, as `list.insert` does.
  function Moved(list: seq<nat>, row: nat, targetRank: int): seq<nat> {
    var others := Without(list, row);
    var at := Clamp(targetRank - 1, 0, |others|);
    others[..at] + [row] + others[at..]
  }

  lemma {:induction false} WithoutRow(list: seq<nat>, p: nat)
    requires p < |list| && Distinct(list)
    ensures Without(list, list[p]) == list[..p] + list[p + 1..]
    decreases |list|
  {
    if p == 0 {
      WithoutAbsent(list[1..], list[0]);
    } else {
      WithoutRow(list[1..], p - 1);
      assert list[1..][p - 1] == list[p] && list[1..][..p - 1] == list[1..p] && list[1..][p..] == list[p + 1..];
      assert [list[0]] + list[1..p] == list[..p];
    }
  }

  lemma {:induction false} WithoutAbsent(list: seq<nat>, row: nat)
    requires row !in list
    ensures Without(list, row) == list
  {
    if list != [] {
      WithoutAbsent(list[1..], row);
    }
  }

  // Where the row at position k of the order ends up, in closed form.
  function Shifted(k: int, p: int, at: int): int {
    if k == p then at
    else
      var k' := if k > p then k - 1 else k;
      if k' >= at then k' + 1 else k'
  }

  lemma MovedAt(list: seq<nat>, p: nat, targetRank: int)
    requires p < |list| && Distinct(list)
    ensures var at := Clamp(targetRank - 1, 0, |list| - 1);
      var m := Moved(list, list[p], targetRank);
      |m| == |list| && forall k :: 0 <= k < |list| ==> 0 <= Shifted(k, p, at) < |m| && m[Shifted(k, p, at)] == list[k]
  {
    WithoutRow(list, p);
    hide Without, Distinct;
    var others, at := list[..p] + list[p + 1..], Clamp(targetRank - 1, 0, |list| - 1);
    var m := Moved(list, list[p], targetRank);
    assert m == others[..at] + [list[p]] + others[at..];
    hide Moved, Clamp;
    forall k | 0 <= k < |list| ensures 0 <= Shifted(k, p, at) < |m| && m[Shifted(k, p, at)] == list[k] {
      InsertedAt(others, at, list[p], if k > p then k - 1 else k);
    }
  }

  lemma InsertedAt(others: seq<nat>, at: nat, row: nat, k: nat)
    requires at <= |others|
    ensures var m := others[..at] + [row] + others[at..];
      m[at] == row && (k < |others| ==> m[if k >= at then k + 1 else k] == others[k])
  {
  }

  lemma MovedIsArrangement(list: seq<nat>, p: nat, targetRank: int, n: nat)
    requires IsArrangement(list, n) && p < n
    ensures IsArrangement(Moved(list, list[p], targetRank), n)
  {
    var m, at := Moved(list, list[p], targetRank), Clamp(targetRank - 1, 0, n - 1);
    MovedAt(list, p, targetRank);
    RearrangedIsArrangement(list, m, p, at, n);
  }

  lemma RearrangedIsArrangement(list: seq<nat>, m: seq<nat>, p: nat, at: int, n: nat)
    requires IsArrangement(list, n) && p < n && 0 <= at < n && |m| == n
    requires forall k :: 0 <= k < n ==> 0 <= Shifted(k, p, at) < n && m[Shifted(k, p, at)] == list[k]
    ensures IsArrangement(m, n)
  {
    forall q | 0 <= q < n ensures 0 <= Unshift(q, p, at) < n && m[q] == list[Unshift(q, p, at)] && list[Unshift(q, p, at)] in list {
      Unshifted(q, p, at, n);
    }
    forall x: nat | x < n ensures x in m {
      var k := PositionOf(list, x);
      assert m[Shifted(k, p, at)] == x;
    }
    forall i, j | 0 <= i < j < n ensures m[i] != m[j] {
      Unshifted(i, p, at, n);
      Unshifted(j, p, at, n);
      assert Unshift(i, p, at) != Unshift(j, p, at);
    }
  }

  // The position a row now at `q` came from.
  function Unshift(q: int, p: int, at: int): int {
    if q == at then p
    else
      var k' := if q > at then q - 1 else q;
      if k' >= p then k' + 1 else k'
  }

  lemma Unshifted(q: int, p: int, at: int, n: int)
    requires 0 <= q < n && 0 <= p < n && 0 <= at < n
    ensures 0 <= Unshift(q, p, at) < n && Shifted(Unshift(q, p, at), p, at) == q
  {
  }

  /** After a move the ranks are 1..n, a rearrangement of the same rows; the moved row is at its target,
      clamped to 1..n; the others keep their order among themselves. */
  lemma MoveOutcome(ranks: seq<int>, row: nat, targetRank: int)
    requires Distinct(ranks) && row < |ranks|
    ensures var list := Moved(Ordered(ranks), row, targetRank);
      IsArrangement(list, |ranks|) &&
      var r := Positions(list);
      && Distinct(r) && (forall i :: 0 <= i < |r| ==> 1 <= r[i] <= |r|)
      && r[row] == Clamp(targetRank, 1, |ranks|)
      && forall a, b :: 0 <= a < |r| && 0 <= b < |r| && a != row && b != row ==> (r[a] < r[b] <==> ranks[a] < ranks[b])
  {
    hide *;
    var n, order, p, at := MoveRanks(ranks, row, targetRank);
    var r := Positions(Moved(Ordered(ranks), row, targetRank));
    forall a: nat, b: nat | a < n && b < n && a != row && b != row ensures r[a] < r[b] <==> ranks[a] < ranks[b] {
      OrderKept(ranks, order, r, p, at, a, b);
    }
  }

  lemma MoveRanks(ranks: seq<int>, row: nat, targetRank: int)
    returns (n: nat, order: seq<nat>, p: nat, at: int)
    requires Distinct(ranks) && row < |ranks|
    ensures n == |ranks| && order == Ordered(ranks) && p < |order| && order[p] == row
    ensures ByRank(ranks, order) && Covers(order, n)
    ensures var list := Moved(order, row, targetRank);
      IsArrangement(list, n) && |list| == n && Covers(list, |list|) &&
      var r := Positions(list);
      && |r| == n && Distinct(r) && (forall i :: 0 <= i < n ==> 1 <= r[i] <= n)
      && r[row] == Clamp(targetRank, 1, n)
      && forall k :: 0 <= k < |order| ==> order[k] < |r| && r[order[k]] == Shifted(k, p, at) + 1
  {
    n, order := |ranks|, Ordered(ranks);
    hide Ordered, Moved, Distinct, IsArrangement, ByRank, Shifted, Clamp;
    OrderedIsArrangement(ranks);
    p := PositionIn(order, row, n);
    at := Clamp(targetRank - 1, 0, n - 1);
    var list := Moved(order, row, targetRank);
    MovedIsArrangement(order, p, targetRank, n);
    ArrangementCovers(list, n);
    ArrangementCovers(order, n);
    MovedAt(order, p, targetRank);
    PositionsAreOneToN(list, n);
    NewRanks(order, list, Positions(list), p, at);
    ClampedPosition(p, targetRank, n);
  }

  lemma ClampedPosition(p: nat, targetRank: int, n: nat)
    requires p < n
    ensures Shifted(p, p, Clamp(targetRank - 1, 0, n - 1)) + 1 == Clamp(targetRank, 1, n)
  {
  }

  lemma ArrangementCovers(list: seq<nat>, n: nat)
    requires IsArrangement(list, n)
    ensures |list| == n && Covers(list, |list|)
  {
  }

  lemma PositionIn(list: seq<nat>, row: nat, n: nat) returns (p: nat)
    requires IsArrangement(list, n) && row < n
    ensures p < n == |list| && list[p] == row
  {
    p := PositionOf(list, row);
  }

  lemma NewRanks(order: seq<nat>, list: seq<nat>, r: seq<int>, p: nat, at: int)
    requires |order| == |list| == |r| && p < |order|
    requires forall k :: 0 <= k < |order| ==> 0 <= Shifted(k, p, at) < |list| && list[Shifted(k, p, at)] == order[k]
    requires forall k :: 0 <= k < |list| ==> list[k] < |r| && r[list[k]] == k + 1
    ensures forall k :: 0 <= k < |order| ==> order[k] < |r| && r[order[k]] == Shifted(k, p, at) + 1
  {
    hide Shifted;
  }

  lemma OrderKept(ranks: seq<int>, order: seq<nat>, r: seq<int>, p: nat, at: int, a: nat, b: nat)
    requires |order| == |ranks| == |r| && ByRank(ranks, order) && p < |order|
    requires Covers(order, |ranks|) && a < |r| && b < |r| && a != order[p] && b != order[p]
    requires forall k :: 0 <= k < |order| ==> order[k] < |r| && r[order[k]] == Shifted(k, p, at) + 1
    ensures r[a] < r[b] <==> ranks[a] < ranks[b]
  {
    assert a in order && b in order;
    var i :| 0 <= i < |order| && order[i] == a;
    var j :| 0 <= j < |order| && order[j] == b;
    assert i < j ==> ranks[a] < ranks[b];
    assert j < i ==> ranks[b] < ranks[a];
  }

  /** Resequencing leaves 1..n in the old order. */
  lemma ResequenceOutcome(ranks: seq<int>)
    requires Distinct(ranks)
    ensures var r := Positions(Ordered(ranks));
      && Distinct(r) && (forall i :: 0 <= i < |r| ==> 1 <= r[i] <= |r|)
      && forall a, b :: 0 <= a < |r| && 0 <= b < |r| ==> (r[a] < r[b] <==> ranks[a] < ranks[b])
  {
    var n, order := |ranks|, Ordered(ranks);
    OrderedIsArrangement(ranks);
    PositionsAreOneToN(order, n);
    var r := Positions(order);
    hide Ordered, Distinct;
    forall a: nat, b: nat | a < n && b < n ensures r[a] < r[b] <==> ranks[a] < ranks[b] {
      var i, j := PositionOf(order, a), PositionOf(order, b);
      assert order[i] == a && order[j] == b;
      assert i < j ==> ranks[a] < ranks[b];
      assert j < i ==> ranks[b] < ranks[a];
    }
  }
}
