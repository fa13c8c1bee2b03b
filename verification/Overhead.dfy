/** The cost report's overhead allocation (`get_hpp_report` in `backend/app/api/admin_routes.py`). */
module Overhead {
  import opened Common
  import opened Percent

  const HPP_KEYS: seq<string> :=
    ["ip", "domain", "apk", "ipa", "statushost", "hostscan", "uptimemonitor", "guardagent"]
  const SCAN_COGS_KEYS: seq<string> := ["ip", "domain", "apk", "ipa", "statushost"]

  // The dictionaries over HPP_KEYS are lists in that order; amounts, counts and rates are never negative.

  function Sum(s: seq<int>): int {
    if s == [] then 0 else Sum(s[..|s| - 1]) + s[|s| - 1]
  }

  function Total(counts: seq<nat>): nat {
    if counts == [] then 0 else Total(counts[..|counts| - 1]) + counts[|counts| - 1]
  }

  // The number of keys with work, and the place of the last one (-1 if none).
  function Positive(counts: seq<nat>): nat {
    if counts == [] then 0 else Positive(counts[..|counts| - 1]) + if counts[|counts| - 1] > 0 then 1 else 0
  }

  function Last(counts: seq<nat>): (k: int)
    ensures -1 <= k < |counts|
    ensures k >= 0 ==> counts[k] > 0
    ensures forall i :: k < i < |counts| ==> counts[i] == 0
  {
    if counts == [] then -1
    else if counts[|counts| - 1] > 0 then |counts| - 1
    else Last(counts[..|counts| - 1])
  }

  // ---- shares ----

  function FloorShare(count: nat, overhead: nat, total: nat): nat
    requires total > 0
  {
    overhead * count / total
  }

  function FloorSum(counts: seq<nat>, overhead: nat, total: nat): nat
    requires total > 0
  {
    if counts == [] then 0
    else FloorSum(counts[..|counts| - 1], overhead, total) + FloorShare(counts[|counts| - 1], overhead, total)
  }

  function ShareAt(counts: seq<nat>, overhead: nat, k: nat): int
    requires k < |counts|
  {
    var total := Total(counts);
    if total == 0 || overhead == 0 || counts[k] == 0 then 0
    else if k == Last(counts) then overhead - FloorSum(counts[..k], overhead, total)
    else FloorShare(counts[k], overhead, total)
  }

  function Shares(counts: seq<nat>, overhead: nat): (s: seq<int>)
    ensures |s| == |counts|
  {
    seq(|counts|, k requires 0 <= k < |counts| => ShareAt(counts, overhead, k))
  }

  method Allocate(counts: seq<nat>, overhead: nat) returns (shares: seq<int>)
    ensures shares == Shares(counts, overhead)
  {
    hide Total, FloorSum, Last, FloorShare;
    var totalCount, last := Total(counts), Last(counts);
    shares := seq(|counts|, _ => 0);
    if totalCount == 0 || overhead == 0 {
      return;
    }
    var spread := 0;
    FloorSumEmpty(overhead, totalCount);
    for key := 0 to |counts|
      invariant |shares| == |counts|
      invariant key <= last ==> spread == FloorSum(counts[..key], overhead, totalCount)
      invariant forall i :: 0 <= i < |counts| ==> shares[i] == if i < key then ShareAt(counts, overhead, i) else 0
    {
      FloorSumStep(counts, key, overhead, totalCount);
      if counts[key] > 0 {
        if key == last {
          shares := shares[key := overhead - spread];
        } else {
          var share := FloorShare(counts[key], overhead, totalCount);
          shares := shares[key := share];
          spread := spread + share;
        }
      }
    }
  }

  lemma FloorSumEmpty(overhead: nat, total: nat)
    requires total > 0
    ensures FloorSum([], overhead, total) == 0
  {
  }

  lemma FloorSumStep(counts: seq<nat>, k: nat, overhead: nat, total: nat)
    requires k < |counts| && total > 0
    ensures FloorSum(counts[..k + 1], overhead, total)
         == FloorSum(counts[..k], overhead, total) + FloorShare(counts[k], overhead, total)
    ensures counts[k] == 0 ==> FloorShare(counts[k], overhead, total) == 0
  {
    hide FloorShare;
    assert counts[..k + 1][..k] == counts[..k];
    FloorOfNothing(overhead, total);
  }

  lemma FloorOfNothing(overhead: nat, total: nat)
    requires total > 0
    ensures FloorShare(0, overhead, total) == 0
  {
    assert overhead * 0 == 0;
  }

  // ---- the shares add up ----

  lemma SumStep(s: seq<int>, k: nat)
    requires k < |s|
    ensures Sum(s[..k + 1]) == Sum(s[..k]) + s[k]
  {
    assert s[..k + 1][..k] == s[..k];
  }

  lemma {:induction false} SharesSoFar(counts: seq<nat>, overhead: nat, k: nat)
    requires k <= |counts| && Total(counts) > 0 && overhead > 0
    ensures Sum(Shares(counts, overhead)[..k])
         == if k <= Last(counts) then FloorSum(counts[..k], overhead, Total(counts)) else overhead
    decreases k
  {
    SomePositive(counts);
    if k > 0 {
      var total, last := Total(counts), Last(counts);
      SharesSoFar(counts, overhead, k - 1);
      SumStep(Shares(counts, overhead), k - 1);
      FloorSumStep(counts, k - 1, overhead, total);
      hide Total, Last, FloorSum, FloorShare, Sum;
    }
  }

  lemma {:induction false} SomePositive(counts: seq<nat>)
    ensures Total(counts) > 0 <==> Last(counts) >= 0
    decreases |counts|
  {
    if counts != [] {
      SomePositive(counts[..|counts| - 1]);
    }
  }

  /** The shares add up to the overhead when there is any work, and to nothing otherwise. */
  lemma SharesAddUp(counts: seq<nat>, overhead: nat)
    ensures Sum(Shares(counts, overhead)) == if Total(counts) > 0 then overhead else 0
  {
    var s := Shares(counts, overhead);
    assert s[..|s|] == s;
    hide Total, Last, FloorSum, FloorShare, Sum;
    if Total(counts) > 0 && overhead > 0 {
      SharesSoFar(counts, overhead, |counts|);
    } else {
      forall k | 0 <= k < |s| ensures s[k] == 0 {
      }
      ZeroSum(s);
    }
  }

  lemma {:induction false} ZeroSum(s: seq<int>)
    requires forall k :: 0 <= k < |s| ==> s[k] == 0
    ensures Sum(s) == 0
    decreases |s|
  {
    if s != [] {
      ZeroSum(s[..|s| - 1]);
    }
  }

  // ---- each share is fair ----

  lemma FloorBounds(count: nat, overhead: nat, total: nat)
    requires total > 0
    ensures var f := FloorShare(count, overhead, total);
      f * total <= overhead * count && overhead * count <= f * total + (if count > 0 then total - 1 else 0)
  {
    var x := overhead * count;
    assert x == x / total * total + x % total;
    if count == 0 {
      assert x == 0;
    }
  }

  // What the floors leave over: nothing is lost beyond total - 1 for each key with work.
  lemma {:induction false} FloorsLeave(counts: seq<nat>, overhead: nat, total: nat)
    requires total > 0
    ensures var left := overhead * Total(counts) - FloorSum(counts, overhead, total) * total;
      0 <= left <= Positive(counts) * (total - 1)
    decreases |counts|
  {
    if counts == [] {
    } else {
      var n := |counts| - 1;
      var front, c := counts[..n], counts[n];
      FloorsLeave(front, overhead, total);
      FloorBounds(c, overhead, total);
      hide FloorShare;
      LeaveStep(overhead, total, Total(front), c, FloorSum(front, overhead, total), FloorShare(c, overhead, total),
                Positive(front), if c > 0 then 1 else 0);
    }
  }

  lemma LeaveStep(overhead: nat, total: nat, sum: nat, c: nat, floors: nat, f: nat, positive: nat, more: nat)
    requires total > 0 && more <= 1
    requires 0 <= overhead * sum - floors * total <= positive * (total - 1)
    requires f * total <= overhead * c <= f * total + (if more > 0 then total - 1 else 0)
    ensures 0 <= overhead * (sum + c) - (floors + f) * total <= (positive + more) * (total - 1)
  {
    assert overhead * (sum + c) == overhead * sum + overhead * c;
    assert (floors + f) * total == floors * total + f * total;
    assert (positive + more) * (total - 1) == positive * (total - 1) + more * (total - 1);
  }

  lemma {:induction false} UpToLast(counts: seq<nat>, k: nat)
    requires k < |counts| && k == Last(counts)
    ensures Total(counts) == Total(counts[..k]) + counts[k] && Positive(counts) == Positive(counts[..k]) + 1
    decreases |counts|
  {
    var n := |counts| - 1;
    if k < n {
      assert counts[..n][..k] == counts[..k];
      assert Last(counts[..n]) == k;
      UpToLast(counts[..n], k);
    }
  }

  /** Every share but the last is the floor of its key's proportion of the overhead; the last is at least its
      proportion, and is more by less than one for each other key with work. */
  lemma SharesAreFair(counts: seq<nat>, overhead: nat, k: nat)
    requires k < |counts| && Total(counts) > 0 && overhead > 0
    ensures var share, total := ShareAt(counts, overhead, k), Total(counts);
      && (k != Last(counts) ==> share * total <= overhead * counts[k] < (share + 1) * total)
      && (k == Last(counts) ==>
            overhead * counts[k] <= share * total <= overhead * counts[k] + (Positive(counts) - 1) * (total - 1))
      && share >= 0
  {
    if k == Last(counts) {
      LastIsFair(counts, overhead, k);
    } else {
      OtherIsFair(counts, overhead, k);
    }
    hide *;
  }

  lemma LastIsFair(counts: seq<nat>, overhead: nat, k: nat)
    requires k < |counts| && Total(counts) > 0 && overhead > 0 && k == Last(counts)
    ensures var share, total := ShareAt(counts, overhead, k), Total(counts);
      && overhead * counts[k] <= share * total <= overhead * counts[k] + (Positive(counts) - 1) * (total - 1)
      && share >= 0
  {
    var before, floors := Total(counts[..k]), FloorSum(counts[..k], overhead, Total(counts));
    assert ShareAt(counts, overhead, k) == overhead - floors;
    UpToLast(counts, k);
    FloorsLeave(counts[..k], overhead, Total(counts));
    hide *;
    var share, total, c := ShareAt(counts, overhead, k), Total(counts), counts[k];
    LastShare(overhead, total, before, c, floors);
    NonNegative(share, total, overhead * c);
  }

  lemma OtherIsFair(counts: seq<nat>, overhead: nat, k: nat)
    requires k < |counts| && Total(counts) > 0 && overhead > 0 && k != Last(counts)
    ensures var share, total := ShareAt(counts, overhead, k), Total(counts);
      share * total <= overhead * counts[k] < (share + 1) * total && share >= 0
  {
    hide Total, Last, FloorSum, FloorShare;
    var f, total, c := FloorShare(counts[k], overhead, Total(counts)), Total(counts), counts[k];
    if c == 0 {
      FloorOfNothing(overhead, total);
    }
    assert ShareAt(counts, overhead, k) == f;
    FloorBounds(c, overhead, total);
    hide ShareAt;
    assert (f + 1) * total == f * total + total;
  }

  lemma LastShare(overhead: nat, total: nat, before: nat, c: nat, floors: nat)
    requires total == before + c
    ensures (overhead - floors) * total - overhead * c == overhead * before - floors * total
  {
    assert (overhead - floors) * total == overhead * total - floors * total;
    assert overhead * total == overhead * before + overhead * c;
  }

  lemma MulMono(a: int, b: int, t: nat)
    requires a <= b
    ensures a * t <= b * t
  {
  }

  lemma NonNegative(share: int, total: nat, least: nat)
    requires total > 0 && least <= share * total
    ensures share >= 0
  {
    if share < 0 {
      MulMono(share, -1, total);
    }
  }

  lemma FloorMonotone(a: nat, b: nat, overhead: nat, total: nat, fa: int, fb: int)
    requires total > 0 && a <= b && fa * total <= overhead * a && overhead * b < (fb + 1) * total
    ensures fa <= fb
  {
    assert overhead * a <= overhead * b;
    if fa >= fb + 1 {
      MulMono(fb + 1, fa, total);
    }
  }

  /** A key with no more work than another bears no larger share, unless it is the last, which also bears the
      remainders. */
  lemma MoreWorkMoreShare(counts: seq<nat>, overhead: nat, i: nat, j: nat)
    requires i < |counts| && j < |counts| && Total(counts) > 0 && overhead > 0
    requires counts[i] <= counts[j] && i != Last(counts)
    ensures ShareAt(counts, overhead, i) <= ShareAt(counts, overhead, j)
  {
    NotMoreThan(counts, overhead, i);
    NotLessThan(counts, overhead, j);
    hide *;
    var total, share := Total(counts), ShareAt(counts, overhead, j);
    FloorMonotone(counts[i], counts[j], overhead, total, ShareAt(counts, overhead, i), share);
  }

  lemma NotMoreThan(counts: seq<nat>, overhead: nat, k: nat)
    requires k < |counts| && Total(counts) > 0 && overhead > 0 && k != Last(counts)
    ensures ShareAt(counts, overhead, k) * Total(counts) <= overhead * counts[k]
  {
    SharesAreFair(counts, overhead, k);
    hide *;
  }

  lemma NotLessThan(counts: seq<nat>, overhead: nat, k: nat)
    requires k < |counts| && Total(counts) > 0 && overhead > 0
    ensures overhead * counts[k] < (ShareAt(counts, overhead, k) + 1) * Total(counts)
  {
    SharesAreFair(counts, overhead, k);
    hide *;
    if k == Last(counts) {
      StrictlyBelow(overhead * counts[k], ShareAt(counts, overhead, k), Total(counts));
    }
  }

  lemma StrictlyBelow(least: nat, share: int, total: nat)
    requires total > 0 && least <= share * total
    ensures least < (share + 1) * total
  {
    assert (share + 1) * total == share * total + total;
  }

  // ---- the report ----

  datatype Line = Line(key: string, count: nat, rate: nat, hpp: int, share: int, fully: int, unit: int)

  datatype Report = Report(lines: seq<Line>, totalCount: nat, totalHpp: int, totalFully: int, unallocated: int)

  function LineAt(counts: seq<nat>, rates: seq<nat>, overhead: nat, k: nat): Line
    requires k < |counts| == |rates| == |HPP_KEYS|
  {
    var hpp, share := counts[k] * rates[k], ShareAt(counts, overhead, k);
    Line(HPP_KEYS[k], counts[k], rates[k], hpp, share, hpp + share, if counts[k] == 0 then 0 else (hpp + share) / counts[k])
  }

  function Lines(counts: seq<nat>, rates: seq<nat>, overhead: nat): (lines: seq<Line>)
    requires |counts| == |rates| == |HPP_KEYS|
    ensures |lines| == |HPP_KEYS|
  {
    seq(|counts|, k requires 0 <= k < |counts| => LineAt(counts, rates, overhead, k))
  }

  function Direct(counts: seq<nat>, rates: seq<nat>): seq<int>
    requires |counts| == |rates|
  {
    seq(|counts|, k requires 0 <= k < |counts| => counts[k] * rates[k])
  }

  function Fully(lines: seq<Line>): seq<int> {
    seq(|lines|, k requires 0 <= k < |lines| => lines[k].fully)
  }

  method BuildReport(counts: seq<nat>, rates: seq<nat>, overhead: nat) returns (r: Report)
    requires |counts| == |rates| == |HPP_KEYS|
    ensures r.lines == Lines(counts, rates, overhead)
    ensures r.totalCount == Total(counts) && r.totalHpp == Sum(Direct(counts, rates))
    ensures r.totalFully == Sum(Fully(r.lines))
    ensures r.unallocated == if Total(counts) == 0 then overhead else 0
  {
    hide Sum, Total, ShareAt, LineAt;
    var totalCount, totalHpp := 0, 0;
    EmptySums();
    for k := 0 to |counts|
      invariant totalCount == Total(counts[..k]) && totalHpp == Sum(Direct(counts, rates)[..k])
    {
      TotalStep(counts, k);
      SumStep(Direct(counts, rates), k);
      totalCount := totalCount + counts[k];
      totalHpp := totalHpp + counts[k] * rates[k];
    }
    var shares := Allocate(counts, overhead);
    var lines, totalFully := [], 0;
    for k := 0 to |counts|
      invariant lines == Lines(counts, rates, overhead)[..k] && totalFully == Sum(Fully(lines))
    {
      var hpp := counts[k] * rates[k];
      var fully := hpp + shares[k];
      var line := Line(HPP_KEYS[k], counts[k], rates[k], hpp, shares[k], fully, if counts[k] == 0 then 0 else fully / counts[k]);
      LineIs(counts, rates, overhead, k, line);
      FullyStep(lines, line);
      lines := lines + [line];
      totalFully := totalFully + fully;
    }
    assert counts[..|counts|] == counts;
    assert Direct(counts, rates)[..|counts|] == Direct(counts, rates);
    assert Lines(counts, rates, overhead)[..|counts|] == Lines(counts, rates, overhead);
    r := Report(lines, totalCount, totalHpp, totalFully, if totalCount == 0 then overhead else 0);
  }

  lemma EmptySums()
    ensures Sum([]) == 0 && Total([]) == 0 && Sum(Fully([])) == 0
  {
  }

  lemma TotalStep(counts: seq<nat>, k: nat)
    requires k < |counts|
    ensures Total(counts[..k + 1]) == Total(counts[..k]) + counts[k]
  {
    assert counts[..k + 1][..k] == counts[..k];
  }

  lemma LineIs(counts: seq<nat>, rates: seq<nat>, overhead: nat, k: nat, line: Line)
    requires k < |counts| == |rates| == |HPP_KEYS|
    requires var hpp, share := counts[k] * rates[k], ShareAt(counts, overhead, k);
      line == Line(HPP_KEYS[k], counts[k], rates[k], hpp, share, hpp + share,
                   if counts[k] == 0 then 0 else (hpp + share) / counts[k])
    ensures line == LineAt(counts, rates, overhead, k) && line.fully == counts[k] * rates[k] + ShareAt(counts, overhead, k)
  {
    hide ShareAt;
  }

  lemma FullyStep(lines: seq<Line>, line: Line)
    ensures Sum(Fully(lines + [line])) == Sum(Fully(lines)) + line.fully
  {
    var s := Fully(lines + [line]);
    assert s[..|lines|] == Fully(lines);
  }

  lemma {:induction false} SumOfSums(a: seq<int>, b: seq<int>, c: seq<int>)
    requires |a| == |b| == |c| && forall k :: 0 <= k < |a| ==> c[k] == a[k] + b[k]
    ensures Sum(c) == Sum(a) + Sum(b)
    decreases |a|
  {
    if a != [] {
      var n := |a| - 1;
      SumOfSums(a[..n], b[..n], c[..n]);
    }
  }

  /** Nothing is lost: the fully loaded total and the unallocated overhead are the direct total and the
      overhead. */
  lemma TotalsAgree(counts: seq<nat>, rates: seq<nat>, overhead: nat)
    requires |counts| == |rates| == |HPP_KEYS|
    ensures Sum(Fully(Lines(counts, rates, overhead))) + (if Total(counts) == 0 then overhead else 0)
         == Sum(Direct(counts, rates)) + overhead
  {
    var direct, shares, fully := Direct(counts, rates), Shares(counts, overhead), Fully(Lines(counts, rates, overhead));
    hide Sum, Total, ShareAt;
    SharesAddUp(counts, overhead);
    SumOfSums(direct, shares, fully);
  }

  /** A key's unit cost is its fully loaded cost per piece of work, rounded down; a key without work costs and
      bears nothing. */
  lemma UnitCost(counts: seq<nat>, rates: seq<nat>, overhead: nat, k: nat)
    requires k < |counts| == |rates| == |HPP_KEYS|
    ensures var l := Lines(counts, rates, overhead)[k];
      && (l.count > 0 ==> l.unit * l.count <= l.fully < (l.unit + 1) * l.count)
      && (l.count == 0 ==> l.fully == 0 && l.unit == 0)
  {
    hide ShareAt;
    if counts[k] > 0 {
      FloorDivision(counts[k] * rates[k] + ShareAt(counts, overhead, k), counts[k]);
    } else {
      NoWorkNoShare(counts, overhead, k);
      assert 0 * rates[k] == 0;
    }
  }

  lemma FloorDivision(x: int, c: nat)
    requires c > 0
    ensures x / c * c <= x < (x / c + 1) * c
  {
    assert x == x / c * c + x % c;
  }

  lemma NoWorkNoShare(counts: seq<nat>, overhead: nat, k: nat)
    requires k < |counts| && counts[k] == 0
    ensures ShareAt(counts, overhead, k) == 0
  {
  }

  // ---- cost of the four products ----

  // `fully_by_key.get(key, 0)`
  function FullyOf(lines: seq<Line>, key: string): int {
    if lines == [] then 0
    else if lines[|lines| - 1].key == key then lines[|lines| - 1].fully
    else FullyOf(lines[..|lines| - 1], key)
  }

  function CogsOf(lines: seq<Line>, keys: seq<string>): int {
    if keys == [] then 0 else CogsOf(lines, keys[..|keys| - 1]) + FullyOf(lines, keys[|keys| - 1])
  }

  lemma KeysDistinct(i: nat, j: nat)
    requires i < j < |HPP_KEYS|
    ensures HPP_KEYS[i] != HPP_KEYS[j]
  {
    assert "domain" != "statushost" && "ip" != "domain";
    assert "ip"[1] == 'p' && "apk"[0] == 'a' && "ipa"[0] == 'i';
    assert "hostscan"[0] == 'h';
  }

  lemma {:induction false} FullyAt(lines: seq<Line>, k: nat)
    requires k < |lines| && forall i, j :: 0 <= i < j < |lines| ==> lines[i].key != lines[j].key
    ensures FullyOf(lines, lines[k].key) == lines[k].fully
    decreases |lines|
  {
    var n := |lines| - 1;
    if k < n {
      FullyAt(lines[..n], k);
      assert lines[..n][k] == lines[k];
    }
  }

  lemma SumOfEight(s: seq<int>)
    requires |s| == 8
    ensures Sum(s) == s[0] + s[1] + s[2] + s[3] + s[4] + s[5] + s[6] + s[7]
  {
    assert s[..8] == s && s[..0] == [];
    hide Sum;
    SumStep(s, 0);
    SumStep(s, 1);
    SumStep(s, 2);
    SumStep(s, 3);
    SumStep(s, 4);
    SumStep(s, 5);
    SumStep(s, 6);
    SumStep(s, 7);
    EmptySums();
  }

  lemma {:induction false} CogsStep(lines: seq<Line>, keys: seq<string>, k: nat)
    requires k < |keys|
    ensures CogsOf(lines, keys[..k + 1]) == CogsOf(lines, keys[..k]) + FullyOf(lines, keys[k])
  {
    assert keys[..k + 1][..k] == keys[..k];
  }

  /** The costs of the four products add up to the fully loaded total. */
  lemma ProductCogsAddUp(counts: seq<nat>, rates: seq<nat>, overhead: nat)
    requires |counts| == |rates| == |HPP_KEYS|
    ensures var lines := Lines(counts, rates, overhead);
      CogsOf(lines, SCAN_COGS_KEYS) + FullyOf(lines, "hostscan") + FullyOf(lines, "uptimemonitor")
        + FullyOf(lines, "guardagent") == Sum(Fully(lines))
  {
    var lines := Lines(counts, rates, overhead);
    hide ShareAt, Sum, CogsOf, FullyOf;
    forall i, j | 0 <= i < j < |lines| ensures lines[i].key != lines[j].key {
      KeysDistinct(i, j);
    }
    SumOfEight(Fully(lines));
    forall k | 0 <= k < 8 ensures FullyOf(lines, HPP_KEYS[k]) == lines[k].fully {
      FullyAt(lines, k);
    }
    hide Lines;
    ScanCogs(lines);
  }

  lemma FiveKeys(lines: seq<Line>, keys: seq<string>)
    requires |keys| == 5
    ensures CogsOf(lines, keys) == FullyOf(lines, keys[0]) + FullyOf(lines, keys[1]) + FullyOf(lines, keys[2])
                                   + FullyOf(lines, keys[3]) + FullyOf(lines, keys[4])
  {
    hide FullyOf;
    assert keys[..5] == keys && keys[..0] == [] && CogsOf(lines, []) == 0;
    hide CogsOf;
    CogsStep(lines, keys, 0);
    CogsStep(lines, keys, 1);
    CogsStep(lines, keys, 2);
    CogsStep(lines, keys, 3);
    CogsStep(lines, keys, 4);
  }

  lemma ScanCogs(lines: seq<Line>)
    requires |lines| == 8 && forall k :: 0 <= k < 8 ==> FullyOf(lines, HPP_KEYS[k]) == lines[k].fully
    ensures CogsOf(lines, SCAN_COGS_KEYS)
         == lines[0].fully + lines[1].fully + lines[2].fully + lines[3].fully + lines[4].fully
    ensures FullyOf(lines, "hostscan") == lines[5].fully && FullyOf(lines, "uptimemonitor") == lines[6].fully
    ensures FullyOf(lines, "guardagent") == lines[7].fully
  {
    hide FullyOf, CogsOf;
    FiveKeys(lines, SCAN_COGS_KEYS);
    assert HPP_KEYS[5] == "hostscan" && HPP_KEYS[6] == "uptimemonitor" && HPP_KEYS[7] == "guardagent";
  }

  // ---- the host product's cap ----

  // `display_cogs` of `_margin_host`; `cap` is the number of scans the schedules could have made.
  function DisplayCogs(cogs: nat, orgs: nat, scans: nat, cap: nat): nat {
    if orgs > 0 && cap > 0 && scans > cap then cogs * cap / scans else cogs
  }

  /** The displayed host cost is never above the real one, and is below it exactly when the cap applies to a
      positive cost; it then is the cap's proportion of the cost, rounded down. */
  lemma CappedCost(cogs: nat, orgs: nat, scans: nat, cap: nat)
    ensures var d := DisplayCogs(cogs, orgs, scans, cap);
      var capped := orgs > 0 && cap > 0 && scans > cap;
      && d <= cogs
      && (d < cogs <==> capped && cogs > 0)
      && (capped ==> d * scans <= cogs * cap < (d + 1) * scans)
  {
    if scans > cap > 0 {
      var x := cogs * cap;
      var d := x / scans;
      assert x == d * scans + x % scans;
      assert (d + 1) * scans == d * scans + scans;
      CapBelow(cogs, cap, scans, d);
    }
  }

  lemma CapBelow(cogs: nat, cap: nat, scans: nat, d: nat)
    requires scans > cap && d * scans <= cogs * cap
    ensures d <= cogs && (cogs > 0 ==> d < cogs)
  {
    if cogs > 0 {
      assert cogs * cap < cogs * scans;
      if d >= cogs {
        MulMono(cogs, d, scans);
      }
    } else if d > 0 {
      MulMono(1, d, scans);
    }
  }

  // ---- margins ----

  // (SKU, number of organisations) rows; `priced` is false where a SKU has no price to show.
  function Priced(rows: seq<(string, nat)>, priced: string -> bool): nat {
    if rows == [] then 0
    else Priced(rows[..|rows| - 1], priced) + if priced(rows[|rows| - 1].0) then rows[|rows| - 1].1 else 0
  }

  function Orgs(rows: seq<(string, nat)>): nat {
    if rows == [] then 0 else Orgs(rows[..|rows| - 1]) + rows[|rows| - 1].1
  }

  function Revenue(rows: seq<(string, nat)>, priced: string -> bool, price: string -> nat): nat {
    if rows == [] then 0
    else
      var (sku, n) := rows[|rows| - 1];
      Revenue(rows[..|rows| - 1], priced, price) + if priced(sku) then n * price(sku) else 0
  }

  // The loop of `_margin` and `_margin_host`: every organisation is counted once, priced or unpriced. `quotient` is
  // the machine's division of integers.
  method Margin(rows: seq<(string, nat)>, priced: string -> bool, price: string -> nat, cogs: int,
                quotient: (int, nat) -> real)
      returns (orgCount: nat, revenue: nat, unpriced: nat, margin: int, percent: Option<int>)
    ensures orgCount == Priced(rows, priced) && orgCount + unpriced == Orgs(rows)
    ensures revenue == Revenue(rows, priced, price) && margin + cogs == revenue
    ensures percent == if revenue == 0 then None else Some(Round(quotient(margin * 100, revenue)))
  {
    hide *;
    orgCount, revenue, unpriced := 0, 0, 0;
    NoRows(priced, price);
    for k := 0 to |rows|
      invariant orgCount == Priced(rows[..k], priced) && orgCount + unpriced == Orgs(rows[..k])
      invariant revenue == Revenue(rows[..k], priced, price)
    {
      NextRow(rows, k, priced, price);
      var (sku, count) := rows[k];
      if !priced(sku) {
        unpriced := unpriced + count;
        continue;
      }
      orgCount := orgCount + count;
      revenue := revenue + count * price(sku);
    }
    assert rows[..|rows|] == rows;
    margin := revenue - cogs;
    percent := if revenue == 0 then None else Some(Round(quotient(margin * 100, revenue)));
  }

  /** Below 2^52 the percentage is the exact quotient rounded to the nearest integer, the even one of two: the division
      in floating point costs nothing. */
  lemma PercentIsExact(margin: int, revenue: nat, quotient: (int, nat) -> real)
    requires CorrectlyRounded(quotient) && revenue > 0 && -TWO_TO_52 < margin * 100 < TWO_TO_52
    ensures Round(quotient(margin * 100, revenue)) == RoundHalfEven(margin * 100, revenue)
  {
    hide Nearest, Round, RoundHalfEven, Quotient;
    RoundedQuotientIsExact(margin * 100, revenue, quotient(margin * 100, revenue));
  }

  lemma NoRows(priced: string -> bool, price: string -> nat)
    ensures Priced([], priced) == 0 && Orgs([]) == 0 && Revenue([], priced, price) == 0
  {
  }

  lemma NextRow(rows: seq<(string, nat)>, k: nat, priced: string -> bool, price: string -> nat)
    requires k < |rows|
    ensures Priced(rows[..k + 1], priced) == Priced(rows[..k], priced) + if priced(rows[k].0) then rows[k].1 else 0
    ensures Orgs(rows[..k + 1]) == Orgs(rows[..k]) + rows[k].1
    ensures Revenue(rows[..k + 1], priced, price)
         == Revenue(rows[..k], priced, price) + if priced(rows[k].0) then rows[k].1 * price(rows[k].0) else 0
  {
    assert rows[..k + 1][..k] == rows[..k];
  }
}
