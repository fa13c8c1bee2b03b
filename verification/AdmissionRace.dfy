/** Several scan sweeps at once (`run_due_host_scans` run again before it ended).

    A sweep counts, compares and inserts in one transaction, which does not keep another one from counting
    in between. Looking at a row and inserting its scan are separate steps here, with anything between. */
module AdmissionRace {
  import opened Common
  import opened Admission

  // A row a sweep has found admissible and not inserted yet.
  datatype Hold = Hold(row: Site, now: int)

  // One place for each sweep that runs.
  datatype Sys = Sys(scans: seq<Scan>, held: seq<Option<Hold>>)

  datatype Move =
    | Look(w: nat, row: Site, now: int)
    | Insert(w: nat)
    | Other(action: Action)        // a scan moving on, or asked for by hand

  function Next(s: Sys, m: Move): Sys {
    match m
    case Look(w, row, now) =>
      if w < |s.held| && s.held[w] == None && Judge(s.scans, row, now) == Admitted
      then s.(held := s.held[w := Some(Hold(row, now))]) else s
    case Insert(w) =>
      if w < |s.held| && s.held[w].Some?
      then Sys(s.scans + [NewScan(s.held[w].value.row, s.held[w].value.now)], s.held[w := None]) else s
    case Other(a) => if a.Examine? then s else s.(scans := Step(s.scans, a))
  }

  function Run(s: Sys, moves: seq<Move>): Sys
    decreases |moves|
  {
    if moves == [] then s else Next(Run(s, moves[..|moves| - 1]), moves[|moves| - 1])
  }

  predicate HoldsFor(h: Option<Hold>, org: nat) {
    h.Some? && h.value.row.org == org
  }

  function HeldFor(held: seq<Option<Hold>>, org: nat): (n: nat)
    ensures n <= |held|
  {
    if held == [] then 0
    else HeldFor(held[..|held| - 1], org) + if HoldsFor(held[|held| - 1], org) then 1 else 0
  }

  lemma {:induction false} HeldUpdate(held: seq<Option<Hold>>, w: nat, h: Option<Hold>, org: nat)
    requires w < |held|
    ensures HeldFor(held[w := h], org)
         == HeldFor(held, org) - (if HoldsFor(held[w], org) then 1 else 0) + if HoldsFor(h, org) then 1 else 0
    decreases |held|
  {
    var n := |held| - 1;
    hide HoldsFor;
    if w == n {
      assert held[w := h][..n] == held[..n];
    } else {
      assert held[w := h][..n] == held[..n][w := h];
      HeldUpdate(held[..n], w, h, org);
    }
  }

  function ByHandMoves(moves: seq<Move>, org: nat): nat
    decreases |moves|
  {
    if moves == [] then 0
    else
      var m := moves[|moves| - 1];
      ByHandMoves(moves[..|moves| - 1], org) + if m.Other? && m.action.ByHand? && m.action.org == org then 1 else 0
  }

  // What an organisation has in flight, or is about to have.
  function Load(s: Sys, org: nat): nat {
    InFlight(s.scans, org) + HeldFor(s.held, org)
  }

  lemma NextLoad(s: Sys, m: Move, org: nat)
    ensures |Next(s, m).held| == |s.held|
    ensures var before, after := Load(s, org), Load(Next(s, m), org);
      after <= before + (if m.Other? && m.action.ByHand? && m.action.org == org then 1 else 0)
      || (m.Look? && after <= CAP - 1 + |s.held|)
  {
    match m
    case Look(w, row, now) =>
      if w < |s.held| && s.held[w] == None && Judge(s.scans, row, now) == Admitted {
        var h := Some(Hold(row, now));
        HeldUpdate(s.held, w, h, org);
        hide HeldFor, InFlight, LastScheduled, Seconds;
        assert HeldFor(s.held[w := h], org) <= |s.held|;
      }
    case Insert(w) =>
      if w < |s.held| && s.held[w].Some? {
        HeldUpdate(s.held, w, None, org);
        InFlightAppend(s.scans, NewScan(s.held[w].value.row, s.held[w].value.now), org);
        hide HeldFor, InFlight;
      }
    case Other(a) =>
      StepInFlight(s.scans, a, org);
      hide HeldFor, InFlight, Step;
  }

  /** With n sweeps at once, however their steps interleave, an organisation never has more than n + 1 scans in
      flight, unless it started with more, or asked for more by hand: one sweep keeps the cap of two, and each
      further one can add one. */
  lemma {:induction false} CapUnderConcurrency(s: Sys, moves: seq<Move>, org: nat)
    ensures |Run(s, moves).held| == |s.held|
    ensures var start := Load(s, org);
      Load(Run(s, moves), org)
        <= (if start > CAP - 1 + |s.held| then start else CAP - 1 + |s.held|) + ByHandMoves(moves, org)
    decreases |moves|
  {
    if moves != [] {
      var n := |moves| - 1;
      CapUnderConcurrency(s, moves[..n], org);
      assert Run(s, moves) == Next(Run(s, moves[..n]), moves[n]);
      hide Run, Next, Load;
      NextLoad(Run(s, moves[..n]), moves[n], org);
    }
  }

  /** The bound is reached, and spacing goes too: two sweeps look at the same site before either inserts, next to a
      scan in flight, and the organisation has three scans in flight, two of the same site at the same time. */
  lemma TwoSweepsExceed(org: nat, site: nat, now: int)
    ensures var row := Site(site, org, true, None);
      var first := Scan(org, site + 1, Running, false, now);
      var s := Sys([first], [None, None]);
      var moves := [Look(0, row, now), Look(1, row, now), Insert(0), Insert(1)];
      Run(s, moves).scans == [first, NewScan(row, now), NewScan(row, now)] && InFlight(Run(s, moves).scans, org) == 3
  {
    var row, first := Site(site, org, true, None), Scan(org, site + 1, Running, false, now);
    var s, h := Sys([first], [None, None]), Some(Hold(row, now));
    var moves := [Look(0, row, now), Look(1, row, now), Insert(0), Insert(1)];
    Admissible(first, row, now);
    var s1, s2 := Sys([first], [h, None]), Sys([first], [h, h]);
    var s3 := Sys([first, NewScan(row, now)], [None, h]);
    var s4 := Sys([first, NewScan(row, now), NewScan(row, now)], [None, None]);
    hide Judge;
    assert Next(s, moves[0]) == s1;
    assert Next(s1, moves[1]) == s2;
    assert Next(s2, moves[2]) == s3;
    assert Next(s3, moves[3]) == s4;
    hide Next;
    FourMoves(s, moves[0], moves[1], moves[2], moves[3]);
    ThreeInFlight(first, NewScan(row, now), org);
  }

  lemma Admissible(first: Scan, row: Site, now: int)
    requires first.org == row.org && first.status == Running && !first.scheduled
    ensures Judge([first], row, now) == Admitted
  {
    assert [first][..0] == [];
    assert InFlight([first], row.org) == 1 && LastScheduled([first], row.id) == None;
  }

  lemma FourMoves(s: Sys, a: Move, b: Move, c: Move, d: Move)
    ensures Run(s, [a, b, c, d]) == Next(Next(Next(Next(s, a), b), c), d)
  {
    hide Next;
    assert [a, b, c, d][..3] == [a, b, c] && [a, b, c][..2] == [a, b] && [a, b][..1] == [a] && [a][..0] == [];
    assert Run(s, [a]) == Next(s, a);
    assert Run(s, [a, b]) == Next(Next(s, a), b);
    assert Run(s, [a, b, c]) == Next(Next(Next(s, a), b), c);
  }

  lemma ThreeInFlight(first: Scan, next: Scan, org: nat)
    requires Counted(first, org) && Counted(next, org)
    ensures InFlight([first, next, next], org) == 3
  {
    InFlightAppend([], first, org);
    InFlightAppend([first], next, org);
    InFlightAppend([first, next], next, org);
    hide Counted;
    assert [] + [first] == [first] && [first] + [next] == [first, next] && [first, next] + [next] == [first, next, next];
  }

  // ---- exactly when spacing is kept ----

  // An insertion that comes too early after the site's last scheduled scan, which another sweep has inserted since
  // this one looked.
  predicate Clashes(s: Sys, m: Move) {
    m.Insert? && m.w < |s.held| && s.held[m.w].Some?
    && var h := s.held[m.w].value;
       var last := LastScheduled(s.scans, h.row.id);
       last.Some? && last.value + Seconds(h.row) > h.now
  }

  predicate NeverClashes(s: Sys, moves: seq<Move>)
    decreases |moves|
  {
    moves != [] ==>
      var n := |moves| - 1;
      NeverClashes(s, moves[..n]) && !Clashes(Run(s, moves[..n]), moves[n])
  }

  // Every row looked at has the interval `gap` gives its site.
  ghost predicate RowAt(row: Site, gap: nat -> int) {
    Seconds(row) == gap(row.id)
  }

  ghost predicate HoldsAt(held: seq<Option<Hold>>, gap: nat -> int) {
    forall w :: 0 <= w < |held| && held[w].Some? ==> RowAt(held[w].value.row, gap)
  }

  ghost predicate LooksAt(moves: seq<Move>, gap: nat -> int) {
    forall k :: 0 <= k < |moves| && moves[k].Look? ==> RowAt(moves[k].row, gap)
  }

  // One more scheduled scan keeps the spacing exactly when it is far enough from the last one.
  lemma InsertSpacedIff(scans: seq<Scan>, row: Site, now: int, gap: nat -> int)
    requires Spaced(scans, gap) && RowAt(row, gap)
    ensures var last := LastScheduled(scans, row.id);
      Spaced(scans + [NewScan(row, now)], gap) <==> !(last.Some? && last.value + Seconds(row) > now)
  {
    var last, next := LastScheduled(scans, row.id), NewScan(row, now);
    var after := scans + [next];
    hide Seconds;
    if last.Some? && last.value + Seconds(row) > now {
      var k := LastIsScan(scans, row.id);
      assert after[k] == scans[k] && after[|scans|] == next && !Apart(after[k], after[|scans|], gap);
    } else {
      forall k | 0 <= k < |scans| ensures Apart(scans[k], next, gap) {
        if ScheduledFor(scans[k], row.id) {
          LastIsLatest(scans, row.id, k);
        }
      }
      hide Apart, LastScheduled;
    }
  }

  lemma NextSpacedIff(s: Sys, m: Move, gap: nat -> int)
    requires Spaced(s.scans, gap) && HoldsAt(s.held, gap) && (m.Look? ==> RowAt(m.row, gap))
    ensures Spaced(Next(s, m).scans, gap) <==> !Clashes(s, m)
    ensures HoldsAt(Next(s, m).held, gap)
  {
    hide Spaced, Judge, LastScheduled, RowAt, Step;
    match m
    case Look(w, row, now) =>
    case Insert(w) =>
      if w < |s.held| && s.held[w].Some? {
        InsertSpacedIff(s.scans, s.held[w].value.row, s.held[w].value.now, gap);
      }
    case Other(a) =>
      if !a.Examine? {
        StepKeepsSpace(s.scans, a, gap);
      }
  }

  lemma NextKeepsClash(s: Sys, m: Move, gap: nat -> int)
    requires !Spaced(s.scans, gap)
    ensures !Spaced(Next(s, m).scans, gap)
  {
    var i, j :| 0 <= i < j < |s.scans| && !Apart(s.scans[i], s.scans[j], gap);
    var after := Next(s, m).scans;
    hide Judge;
    assert after[i].site == s.scans[i].site && after[i].scheduled == s.scans[i].scheduled && after[i].at == s.scans[i].at;
    assert after[j].site == s.scans[j].site && after[j].scheduled == s.scans[j].scheduled && after[j].at == s.scans[j].at;
    assert !Apart(after[i], after[j], gap);
  }

  lemma {:induction false} HoldsStayAt(s: Sys, moves: seq<Move>, gap: nat -> int)
    requires HoldsAt(s.held, gap) && LooksAt(moves, gap)
    ensures HoldsAt(Run(s, moves).held, gap)
    decreases |moves|
  {
    if moves != [] {
      var n := |moves| - 1;
      assert forall k :: 0 <= k < n ==> moves[..n][k] == moves[k];
      HoldsStayAt(s, moves[..n], gap);
      hide Judge, RowAt;
    }
  }

  /** Exactly when scheduled scans stay spaced with any number of sweeps at once: over any run, if and only if no
      sweep inserts a scan closer than its interval to the last one its site has by then. */
  lemma {:induction false} SpacedIffNoClash(s: Sys, moves: seq<Move>, gap: nat -> int)
    requires Spaced(s.scans, gap) && HoldsAt(s.held, gap) && LooksAt(moves, gap)
    ensures Spaced(Run(s, moves).scans, gap) <==> NeverClashes(s, moves)
    decreases |moves|
  {
    if moves != [] {
      var n := |moves| - 1;
      var front, mid := moves[..n], Run(s, moves[..n]);
      assert LooksAt(front, gap) by {
        assert forall k :: 0 <= k < n ==> front[k] == moves[k];
      }
      assert moves[n].Look? ==> RowAt(moves[n].row, gap);
      assert Run(s, moves) == Next(mid, moves[n]);
      HoldsStayAt(s, front, gap);
      hide Spaced, HoldsAt, LooksAt, Next, Run, Clashes, RowAt;
      SpacedIffNoClash(s, front, gap);
      if Spaced(mid.scans, gap) {
        NextSpacedIff(mid, moves[n], gap);
      } else {
        NextKeepsClash(mid, moves[n], gap);
      }
    }
  }

  // ---- exactly when the cap is kept ----

  // At every prefix of the run the organisation has at most the cap in flight.
  predicate WithinCap(s: Sys, moves: seq<Move>, org: nat)
    decreases |moves|
  {
    InFlight(Run(s, moves).scans, org) <= CAP && (moves != [] ==> WithinCap(s, moves[..|moves| - 1], org))
  }

  // An insertion for an organisation that has reached the cap since the sweep looked.
  predicate Exceeds(s: Sys, m: Move, org: nat) {
    m.Insert? && m.w < |s.held| && HoldsFor(s.held[m.w], org) && InFlight(s.scans, org) >= CAP
  }

  predicate NeverExceeds(s: Sys, moves: seq<Move>, org: nat)
    decreases |moves|
  {
    moves != [] ==>
      var n := |moves| - 1;
      NeverExceeds(s, moves[..n], org) && !Exceeds(Run(s, moves[..n]), moves[n], org)
  }

  lemma NextFlight(s: Sys, m: Move, org: nat)
    requires m.Other? && m.action.ByHand? ==> m.action.org != org
    ensures var before, after := InFlight(s.scans, org), InFlight(Next(s, m).scans, org);
      if m.Insert? && m.w < |s.held| && HoldsFor(s.held[m.w], org) then after == before + 1 else after <= before
  {
    match m
    case Look(w, row, now) => hide Judge, InFlight;
    case Insert(w) =>
      if w < |s.held| && s.held[w].Some? {
        InFlightAppend(s.scans, NewScan(s.held[w].value.row, s.held[w].value.now), org);
        hide InFlight;
      }
    case Other(a) =>
      StepInFlight(s.scans, a, org);
      hide InFlight, Step;
  }

  /** Exactly when the cap is kept with any number of sweeps at once: from at most two in flight, and without scans
      by hand, every prefix of a run stays within the cap if and only if no sweep inserts for the organisation
      while it has two in flight. */
  lemma {:induction false} CapIffNoExcess(s: Sys, moves: seq<Move>, org: nat)
    requires InFlight(s.scans, org) <= CAP && ByHandMoves(moves, org) == 0
    ensures WithinCap(s, moves, org) <==> NeverExceeds(s, moves, org)
    decreases |moves|
  {
    if moves != [] {
      var n := |moves| - 1;
      var mid := Run(s, moves[..n]);
      assert Run(s, moves) == Next(mid, moves[n]);
      CapIffNoExcess(s, moves[..n], org);
      WithinNow(s, moves[..n], org);
      hide Next, Run, InFlight;
      NextFlight(mid, moves[n], org);
    }
  }

  lemma WithinNow(s: Sys, moves: seq<Move>, org: nat)
    ensures WithinCap(s, moves, org) ==> InFlight(Run(s, moves).scans, org) <= CAP
  {
  }

  // ---- any number of sweeps ----

  function Looks(n: nat, row: Site, now: int): seq<Move> {
    seq(n, w requires 0 <= w < n => Look(w, row, now))
  }

  function Inserts(n: nat): seq<Move> {
    seq(n, w requires 0 <= w < n => Insert(w))
  }

  lemma {:induction false} RunConcat(s: Sys, a: seq<Move>, b: seq<Move>)
    ensures Run(s, a + b) == Run(Run(s, a), b)
    decreases |b|
  {
    hide Next;
    if b == [] {
      assert a + b == a;
    } else {
      var n := |b| - 1;
      assert (a + b)[..|a + b| - 1] == a + b[..n] && (a + b)[|a + b| - 1] == b[n];
      RunConcat(s, a, b[..n]);
    }
  }

  // After `j` of `n` sweeps have looked, and after `j` of them have inserted.
  function Looked(n: nat, j: nat, h: Hold): seq<Option<Hold>> {
    seq(n, w => if w < j then Some(h) else None)
  }

  function Inserted(n: nat, j: nat, h: Hold): seq<Option<Hold>> {
    seq(n, w => if w < j then None else Some(h))
  }

  lemma {:induction false} LooksRun(scans: seq<Scan>, n: nat, j: nat, row: Site, now: int)
    requires j <= n && Judge(scans, row, now) == Admitted
    ensures Run(Sys(scans, Looked(n, 0, Hold(row, now))), Looks(j, row, now)) == Sys(scans, Looked(n, j, Hold(row, now)))
    decreases j
  {
    hide Judge;
    if j > 0 {
      LooksRun(scans, n, j - 1, row, now);
      assert Looks(j, row, now)[..j - 1] == Looks(j - 1, row, now);
      var held := Looked(n, j - 1, Hold(row, now));
      assert held[j - 1] == None && held[j - 1 := Some(Hold(row, now))] == Looked(n, j, Hold(row, now));
    }
  }

  lemma {:induction false} InsertsRun(scans: seq<Scan>, n: nat, j: nat, h: Hold)
    requires j <= n
    ensures Run(Sys(scans, Inserted(n, 0, h)), Inserts(j))
         == Sys(scans + seq(j, _ => NewScan(h.row, h.now)), Inserted(n, j, h))
    decreases j
  {
    if j > 0 {
      InsertsRun(scans, n, j - 1, h);
      assert Inserts(j)[..j - 1] == Inserts(j - 1);
      var held := Inserted(n, j - 1, h);
      assert held[j - 1] == Some(h) && held[j - 1 := None] == Inserted(n, j, h);
      assert scans + seq(j - 1, _ => NewScan(h.row, h.now)) + [NewScan(h.row, h.now)]
          == scans + seq(j, _ => NewScan(h.row, h.now));
    }
  }

  lemma {:induction false} CopiesInFlight(scans: seq<Scan>, next: Scan, n: nat, org: nat)
    requires Counted(next, org)
    ensures InFlight(scans + seq(n, _ => next), org) == InFlight(scans, org) + n
    decreases n
  {
    hide Counted, InFlight;
    if n == 0 {
      assert scans + seq(0, _ => next) == scans;
    } else {
      CopiesInFlight(scans, next, n - 1, org);
      InFlightAppend(scans + seq(n - 1, _ => next), next, org);
      assert scans + seq(n - 1, _ => next) + [next] == scans + seq(n, _ => next);
    }
  }

  // Sweeps that all look, next to one scan in flight, and then all insert.
  lemma SweepsReach(n: nat, org: nat, site: nat, now: int) returns (s: Sys, moves: seq<Move>)
    ensures s == Sys([Scan(org, site + 1, Running, false, now)], seq(n, _ => None))
    ensures ByHandMoves(moves, org) == 0 && InFlight(Run(s, moves).scans, org) == n + 1
  {
    var row, first := Site(site, org, true, None), Scan(org, site + 1, Running, false, now);
    var h := Hold(row, now);
    s := Sys([first], seq(n, _ => None));
    moves := Looks(n, row, now) + Inserts(n);
    Admissible(first, row, now);
    assert Looked(n, 0, h) == s.held && Looked(n, n, h) == Inserted(n, 0, h);
    LooksRun([first], n, n, row, now);
    InsertsRun([first], n, n, h);
    RunConcat(s, Looks(n, row, now), Inserts(n));
    hide Run, Judge;
    OneInFlight(first, org);
    CopiesInFlight([first], NewScan(row, now), n, org);
    NoneByHand(moves, org);
  }

  lemma OneInFlight(first: Scan, org: nat)
    requires Counted(first, org)
    ensures InFlight([first], org) == 1
  {
    InFlightAppend([], first, org);
    assert [] + [first] == [first];
  }

  lemma {:induction false} NoneByHand(moves: seq<Move>, org: nat)
    requires forall k :: 0 <= k < |moves| ==> !moves[k].Other?
    ensures ByHandMoves(moves, org) == 0
    decreases |moves|
  {
    if moves != [] {
      NoneByHand(moves[..|moves| - 1], org);
    }
  }

  // A run of n sweeps, none of which has looked yet, from at most two in flight and without scans by hand.
  ghost predicate FairRun(s: Sys, moves: seq<Move>, n: nat, org: nat) {
    s.held == seq(n, _ => None) && InFlight(s.scans, org) <= CAP && ByHandMoves(moves, org) == 0
  }

  lemma {:induction false} NobodyHolds(n: nat, org: nat)
    ensures HeldFor(seq(n, _ => None), org) == 0
    decreases n
  {
    if n > 0 {
      NobodyHolds(n - 1, org);
      assert seq<Option<Hold>>(n, _ => None)[..n - 1] == seq(n - 1, _ => None);
    }
  }

  /** For how many sweeps the cap is safe: every run of n sweeps keeps it if and only if n is at most one. */
  lemma CapSafeIff(n: nat, org: nat)
    ensures (forall s, moves :: FairRun(s, moves, n, org) ==> InFlight(Run(s, moves).scans, org) <= CAP) <==> n <= 1
  {
    if n <= 1 {
      forall s, moves | FairRun(s, moves, n, org) ensures InFlight(Run(s, moves).scans, org) <= CAP {
        NobodyHolds(n, org);
        CapUnderConcurrency(s, moves, org);
        hide Run, InFlight, HeldFor;
      }
    } else {
      var s, moves := SweepsReach(n, org, 0, 0);
      hide Run;
      OneInFlight(s.scans[0], org);
      hide InFlight;
      assert FairRun(s, moves, n, org);
    }
  }
}
