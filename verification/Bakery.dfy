/**
 The bakery variant of lock_pool and unlock_pool (MP_Lite/lock.c): n processes, every read
 and write of the shared arrays a step of its own, in any interleaving.

 Note what the code reads more than once: max_number looks at a number to compare it and
 again to take it over, and the waiting loop looks up to three times in one round.
 smp_rank is the identity here, and numbers do not overflow.
 */
module Bakery {

  // Where a process is.  Compare(k) and Assign(k) are the two reads of number[k] in
  // max_number, See(i), Less(i) and Same(i) the three in the condition of the waiting loop.
  datatype Pc = Idle | First | Compare(k: nat) | Assign(k: nat) | SetNumber | Clear
    | Check(i: nat) | See(i: nat) | Less(i: nat) | Same(i: nat) | Critical

  datatype Process = Process(pc: Pc, choosing: bool, number: nat, max: nat)

  // before[j], which is not in the source, are the processes that had their number when j
  // began to choose its own, and still hold it.
  datatype State = State(p: seq<Process>, before: seq<set<nat>>)

  ghost predicate Shaped(n: nat, s: State) { |s.p| == n && |s.before| == n }

  function AfterCompare(n: nat, k: nat): Pc { if k + 1 < n then Compare(k + 1) else SetNumber }

  function Pass(n: nat, i: nat): Pc { if i + 1 < n then Check(i + 1) else Critical }

  // The process has its number.
  predicate Numbered(pc: Pc)
  {
    pc == Clear || pc.Check? || pc.See? || pc.Less? || pc.Same? || pc == Critical
  }

  predicate Choosing(pc: Pc)
  {
    pc == First || pc.Compare? || pc.Assign? || pc == SetNumber
  }

  // What process q does next to its own entry.
  function Do(n: nat, p: seq<Process>, q: nat): Process
    requires |p| == n && q < n && Within(n, p[q].pc)
  {
    var x := p[q];
    match x.pc
    case Idle => x.(choosing := true, pc := First)
    case First => x.(max := p[0].number, pc := if 1 < n then Compare(1) else SetNumber)
    case Compare(k) => x.(pc := if x.max < p[k].number then Assign(k) else AfterCompare(n, k))
    case Assign(k) => x.(max := p[k].number, pc := AfterCompare(n, k))
    case SetNumber => x.(number := x.max + 1, pc := Clear)
    case Clear => x.(choosing := false, pc := Check(0))
    case Check(i) => if p[i].choosing then x else x.(pc := See(i))
    case See(i) => x.(pc := if p[i].number == 0 then Pass(n, i) else Less(i))
    case Less(i) => x.(pc := if p[i].number < x.number then See(i) else Same(i))
    case Same(i) => x.(pc := if p[i].number == x.number && i < q then See(i) else Pass(n, i))
    case Critical => x.(number := 0, pc := Idle)
  }

  predicate Within(n: nat, pc: Pc)
  {
    ((pc.Compare? || pc.Assign?) ==> pc.k < n) && ((pc.Check? || pc.See? || pc.Less? || pc.Same?) ==> pc.i < n)
  }

  ghost function Holders(p: seq<Process>): set<nat>
  {
    set j: nat | j < |p| && Numbered(p[j].pc)
  }

  ghost function Before(s: State, q: nat, j: nat): set<nat>
    requires q < |s.p| && j < |s.before|
  {
    if s.p[q].pc == Critical then s.before[j] - {q}
    else if s.p[q].pc == Idle && j == q then Holders(s.p)
    else s.before[j]
  }

  ghost predicate Step(n: nat, s: State, t: State, q: nat)
  {
    && Shaped(n, s) && Shaped(n, t) && q < n && Within(n, s.p[q].pc)
    && t.p == s.p[q := Do(n, s.p, q)]
    && forall j :: 0 <= j < n ==> t.before[j] == Before(s, q, j)
  }

  // ------------------------------------------------------------------ invariant

  // The order in which processes are let in.
  predicate Ahead(x: Process, p: nat, y: Process, j: nat)
  {
    x.number < y.number || (x.number == y.number && p < j)
  }

  ghost predicate Own(n: nat, x: Process)
  {
    && Within(n, x.pc)
    && (x.choosing <==> Choosing(x.pc) || x.pc == Clear)
    && (x.number > 0 <==> Numbered(x.pc))
  }

  // p has seen that j is not choosing.
  predicate Seen(x: Process, j: nat)
  {
    Passed(x, j) || ((x.pc.See? || x.pc.Less? || x.pc.Same?) && x.pc.i == j)
  }

  // p has gone past j in its waiting loop.
  predicate Passed(x: Process, j: nat)
  {
    x.pc == Critical || ((x.pc.Check? || x.pc.See? || x.pc.Less? || x.pc.Same?) && j < x.pc.i)
  }

  // The maximum that y has found so far takes p's number into account.
  predicate Counted(n: nat, s: seq<Process>, p: nat, y: Process)
    requires p < |s| == n && Own(n, y)
  {
    match y.pc
    case Compare(k) => p < k ==> s[p].number <= y.max
    case Assign(k) => p < k ==> s[p].number <= y.max && s[p].number < s[k].number
    case SetNumber => s[p].number <= y.max
    case _ => true
  }

  ghost predicate Between(n: nat, s: State, p: nat, j: nat)
    requires Shaped(n, s) && p < n && j < n && Own(n, s.p[j])
  {
    var x, y := s.p[p], s.p[j];
    && (p in s.before[j] ==> Numbered(x.pc))
    && (Seen(x, j) || p in s.before[j] ==> Counted(n, s.p, p, y))
    && (p in s.before[j] && Numbered(y.pc) ==> x.number < y.number)
    && (Passed(x, j) && y.number > 0 ==> Ahead(x, p, y, j))
    && (x.pc.Same? && x.pc.i == j && y.number > 0 ==> x.number <= y.number)
  }

  ghost predicate Inv(n: nat, s: State)
  {
    && Shaped(n, s) && (forall p :: 0 <= p < n ==> Own(n, s.p[p]))
    && forall p, j :: 0 <= p < n && 0 <= j < n && p != j ==> Between(n, s, p, j)
  }

  ghost predicate Init(n: nat, s: State)
  {
    && Shaped(n, s)
    && forall p :: 0 <= p < n ==>
         s.p[p].pc == Idle && !s.p[p].choosing && s.p[p].number == 0 && s.before[p] == {}
  }

  lemma InitInv(n: nat, s: State)
    requires Init(n, s)
    ensures Inv(n, s)
  {
  }

  lemma StepOwn(n: nat, s: State, t: State, q: nat, p: nat)
    requires Inv(n, s) && Step(n, s, t, q) && p < n
    ensures Own(n, t.p[p])
  {
  }

  // The step is that of the process in front ...
  lemma FrontSteps(n: nat, s: State, t: State, p: nat, j: nat)
    requires Inv(n, s) && Step(n, s, t, p) && p < n && j < n && p != j && Own(n, t.p[j])
    ensures Between(n, t, p, j)
  {
    assert Between(n, s, p, j) && Between(n, s, j, p);
    if s.p[j].pc.Assign? && s.p[j].pc.k != p {
      assert Between(n, s, s.p[j].pc.k, p);
    }
  }

  // ... of the other one ...
  lemma BackSteps(n: nat, s: State, t: State, p: nat, j: nat)
    requires Inv(n, s) && Step(n, s, t, j) && p < n && j < n && p != j && Own(n, t.p[j])
    ensures Between(n, t, p, j)
  {
    assert Between(n, s, p, j) && Between(n, s, j, p);
  }

  // ... or of a third, whose number j may be about to take over.
  lemma ThirdSteps(n: nat, s: State, t: State, q: nat, p: nat, j: nat)
    requires Inv(n, s) && Step(n, s, t, q) && p < n && j < n && p != j && q != p && q != j && Own(n, t.p[j])
    ensures Between(n, t, p, j)
  {
    assert Between(n, s, p, j);
    if s.p[j].pc.Assign? && s.p[j].pc.k != p {
      assert Between(n, s, s.p[j].pc.k, p);
    }
  }

  lemma StepInv(n: nat, s: State, t: State, q: nat)
    requires Inv(n, s) && Step(n, s, t, q)
    ensures Inv(n, t)
  {
    forall p: nat | p < n ensures Own(n, t.p[p]) { StepOwn(n, s, t, q, p); }
    forall p: nat, j: nat | p < n && j < n && p != j ensures Between(n, t, p, j) {
      if q == p {
        FrontSteps(n, s, t, p, j);
      } else if q == j {
        BackSteps(n, s, t, p, j);
      } else {
        ThirdSteps(n, s, t, q, p, j);
      }
    }
  }

  // ------------------------------------------------------------------ what it gives

  ghost predicate Next(n: nat, s: State, t: State) { exists q :: Step(n, s, t, q) }

  ghost predicate Run(n: nat, run: seq<State>)
  {
    && |run| > 0 && Init(n, run[0])
    && forall i :: 0 <= i < |run| - 1 ==> Next(n, run[i], run[i + 1])
  }

  lemma {:induction false} EveryRunInv(n: nat, run: seq<State>)
    requires Run(n, run)
    ensures Inv(n, run[|run| - 1])
    decreases |run|
  {
    if |run| == 1 {
      InitInv(n, run[0]);
    } else {
      var last := |run| - 1;
      EveryRunInv(n, run[..last]);
      var s, t := run[last - 1], run[last];
      assert Next(n, s, t);
      var q :| Step(n, s, t, q);
      StepInv(n, s, t, q);
    }
  }

  // At most one process is between lock_pool and unlock_pool.
  lemma MutualExclusion(n: nat, run: seq<State>, p: nat, j: nat)
    requires Run(n, run) && p < n && j < n
    requires var s := run[|run| - 1]; Shaped(n, s) && s.p[p].pc == Critical && s.p[j].pc == Critical
    ensures p == j
  {
    EveryRunInv(n, run);
    if p != j { NotBoth(n, run[|run| - 1], p, j); }
  }

  lemma NotBoth(n: nat, s: State, p: nat, j: nat)
    requires Inv(n, s) && p < n && j < n && p != j
    ensures !(s.p[p].pc == Critical && s.p[j].pc == Critical)
  {
    assert Between(n, s, p, j) && Between(n, s, j, p);
  }

  // Who has its number before another begins to choose goes in before that one.
  lemma DoorwayOrder(n: nat, run: seq<State>, p: nat, j: nat)
    requires Run(n, run) && p < n && j < n
    requires var s := run[|run| - 1]; Shaped(n, s) && p in s.before[j] && p != j
    ensures var s := run[|run| - 1]; Numbered(s.p[p].pc) && s.p[j].pc != Critical
  {
    EveryRunInv(n, run);
    var s := run[|run| - 1];
    assert Between(n, s, p, j) && Between(n, s, j, p);
  }

  // ------------------------------------------------------------------ progress

  // How far process at pc is from having unlocked again.
  function ToGo(n: nat, pc: Pc): (d: nat)
    requires Within(n, pc)
    ensures d == 0 <==> pc == Idle
    ensures d == 1 <==> pc == Critical
  {
    match pc
    case Idle => 0
    case Critical => 1
    case See(i) => 2 * (n - i)
    case Less(i) => 2 * (n - i)
    case Same(i) => 2 * (n - i)
    case Check(i) => 2 * (n - i) + 1
    case Clear => 2 * n + 2
    case SetNumber => 2 * n + 3
    case Assign(k) => 2 * n + 2 + 2 * (n - k)
    case Compare(k) => 2 * n + 3 + 2 * (n - k)
    case First => 4 * n + 4
  }

  // The step of process q.
  ghost function After(n: nat, s: State, q: nat): (t: State)
    requires Shaped(n, s) && q < n && Within(n, s.p[q].pc)
    ensures Step(n, s, t, q)
  {
    State(s.p[q := Do(n, s.p, q)], seq(n, j requires 0 <= j < n => Before(s, q, j)))
  }

  // The next m steps are those of q alone, and lead from s to t.
  ghost predicate Alone(n: nat, s: State, t: State, q: nat, m: nat)
    decreases m
  {
    if m == 0 then t == s else exists u :: Step(n, s, u, q) && Alone(n, u, t, q, m - 1)
  }

  lemma AloneMore(n: nat, s: State, u: State, t: State, q: nat, m: nat)
    requires Step(n, s, u, q) && Alone(n, u, t, q, m)
    ensures Alone(n, s, t, q, m + 1)
  {
  }

  lemma {:induction false} AloneTwice(n: nat, s: State, u: State, t: State, q: nat, k: nat, m: nat)
    requires Alone(n, s, u, q, k) && Alone(n, u, t, q, m)
    ensures Alone(n, s, t, q, k + m)
    decreases k
  {
    if k == 0 {
    } else {
      var v :| Step(n, s, v, q) && Alone(n, v, u, q, k - 1);
      AloneTwice(n, v, u, t, q, k - 1, m);
      AloneMore(n, s, v, t, q, k - 1 + m);
    }
  }

  // Nothing sets a process back that is in lock_pool or holds the lock.
  lemma NeverBack(n: nat, s: State, t: State, q: nat, p: nat)
    requires Inv(n, s) && Step(n, s, t, q) && p < n && s.p[p].pc != Idle
    ensures Within(n, t.p[p].pc) && ToGo(n, t.p[p].pc) <= ToGo(n, s.p[p].pc)
  {
    assert Own(n, s.p[p]);
  }

  // Nobody stands in the way of q: no other is choosing, and of those that have a number
  // none comes before q.
  ghost predicate Free(n: nat, s: State, q: nat)
    requires Shaped(n, s) && q < n
  {
    forall j :: 0 <= j < n && j != q ==>
      && !s.p[j].choosing
      && (s.p[j].number > 0 ==> Numbered(s.p[q].pc) && !Ahead(s.p[j], j, s.p[q], q))
  }

  // The steps it takes to get past an entry that is read.
  function Reads(s: State, q: nat): nat
    requires q < |s.p| && Within(|s.p|, s.p[q].pc)
  {
    match s.p[q].pc
    case See(i) => if s.p[i].number > 0 then 3 else 1
    case Less(_) => 2
    case _ => 1
  }

  // One step of such a process leaves it free, and brings it on or to the next read.
  lemma FreeStep(n: nat, s: State, q: nat)
    requires Inv(n, s) && q < n && Free(n, s, q) && s.p[q].pc != Idle && s.p[q].pc != Critical
    ensures var t := After(n, s, q);
      && t.p[q].pc != Idle && ToGo(n, t.p[q].pc) <= ToGo(n, s.p[q].pc)
      && (ToGo(n, t.p[q].pc) == ToGo(n, s.p[q].pc) ==> Reads(t, q) < Reads(s, q) && t.p[q].pc != Critical)
  {
    assert Own(n, s.p[q]);
    if s.p[q].pc.Check? || s.p[q].pc.See? || s.p[q].pc.Less? || s.p[q].pc.Same? {
      assert s.p[q].pc.i != q ==> !s.p[s.p[q].pc.i].choosing;
    }
  }

  lemma StaysFree(n: nat, s: State, q: nat)
    requires Inv(n, s) && q < n && Free(n, s, q) && s.p[q].pc != Idle && s.p[q].pc != Critical
    ensures Inv(n, After(n, s, q)) && Free(n, After(n, s, q), q)
  {
    StepInv(n, s, After(n, s, q), q);
  }

  // At most three steps bring it on.
  lemma {:induction false} FreeAdvances(n: nat, s: State, q: nat) returns (t: State, m: nat)
    requires Inv(n, s) && q < n && Free(n, s, q) && s.p[q].pc != Idle && s.p[q].pc != Critical
    ensures 1 <= m <= Reads(s, q) && Alone(n, s, t, q, m) && Inv(n, t) && Free(n, t, q)
    ensures t.p[q].pc != Idle && ToGo(n, t.p[q].pc) < ToGo(n, s.p[q].pc)
    decreases Reads(s, q)
  {
    var u := After(n, s, q);
    StaysFree(n, s, q);
    FreeStep(n, s, q);
    if ToGo(n, u.p[q].pc) < ToGo(n, s.p[q].pc) {
      t, m := u, 0;
    } else {
      t, m := FreeAdvances(n, u, q);
    }
    AloneMore(n, s, u, t, q, m);
    m := m + 1;
  }

  // ... so that it gets in, without anybody else doing anything.
  lemma {:induction false} FreeGetsIn(n: nat, s: State, q: nat) returns (t: State, m: nat)
    requires Inv(n, s) && q < n && Free(n, s, q) && s.p[q].pc != Idle
    ensures Alone(n, s, t, q, m) && Inv(n, t) && t.p[q].pc == Critical
    decreases ToGo(n, s.p[q].pc)
  {
    if s.p[q].pc == Critical {
      t, m := s, 0;
    } else {
      var u, k := FreeAdvances(n, s, q);
      t, m := FreeGetsIn(n, u, q);
      AloneTwice(n, s, u, t, q, k, m);
      m := k + m;
    }
  }

  // A process that calls lock_pool while all the others are outside gets in.
  lemma OneGetsIn(n: nat, s: State, q: nat) returns (t: State, m: nat)
    requires Inv(n, s) && q < n && s.p[q].pc != Critical && forall j :: 0 <= j < n && j != q ==> s.p[j].pc == Idle
    ensures Alone(n, s, t, q, m) && Inv(n, t) && t.p[q].pc == Critical
  {
    assert forall j :: 0 <= j < n ==> Own(n, s.p[j]);
    if s.p[q].pc == Idle {
      var u := After(n, s, q);
      StepInv(n, s, u, q);
      t, m := FreeGetsIn(n, u, q);
      AloneMore(n, s, u, t, q, m);
      m := m + 1;
    } else {
      t, m := FreeGetsIn(n, s, q);
    }
  }

  lemma {:induction false} FirstInLine(n: nat, s: State, some: nat, m: nat) returns (p: nat)
    requires Inv(n, s) && some < n && s.p[some].number > 0 && m <= n
    ensures p < n && s.p[p].number > 0
    ensures forall j :: 0 <= j < m && s.p[j].number > 0 ==> !Ahead(s.p[j], j, s.p[p], p)
  {
    if m == 0 {
      p := some;
    } else {
      p := FirstInLine(n, s, some, m - 1);
      if s.p[m - 1].number > 0 && Ahead(s.p[m - 1], m - 1, s.p[p], p) {
        p := m - 1;
      }
    }
  }

  // Once nobody is choosing, whoever is first in line gets in by its own steps.
  lemma FirstGetsIn(n: nat, s: State, some: nat) returns (p: nat, t: State, m: nat)
    requires Inv(n, s) && some < n && s.p[some].pc != Idle && forall q :: 0 <= q < n ==> !s.p[q].choosing
    ensures p < n && s.p[p].pc != Idle && Alone(n, s, t, p, m) && Inv(n, t)
    ensures t.p[p].pc == Critical
  {
    assert Own(n, s.p[some]);
    p := FirstInLine(n, s, some, n);
    assert Own(n, s.p[p]);
    t, m := FreeGetsIn(n, s, p);
  }

  // The steps while a process is choosing wait for nobody; neither does the last one.
  lemma AnywaySteps(n: nat, s: State, q: nat)
    requires Inv(n, s) && q < n && (s.p[q].choosing || s.p[q].pc == Critical)
    ensures ToGo(n, After(n, s, q).p[q].pc) < ToGo(n, s.p[q].pc)
  {
    assert Own(n, s.p[q]);
  }

  // As long as anyone is in lock_pool or holds the lock, someone gets further by at most three
  // steps of its own.
  lemma SomeoneAdvances(n: nat, s: State, some: nat) returns (p: nat, t: State, m: nat)
    requires Inv(n, s) && some < n && s.p[some].pc != Idle
    ensures p < n && s.p[p].pc != Idle && 1 <= m <= 3 && Alone(n, s, t, p, m)
    ensures Inv(n, t) && ToGo(n, t.p[p].pc) < ToGo(n, s.p[p].pc)
  {
    assert Own(n, s.p[some]);
    if q: nat :| q < n && s.p[q].choosing {
      p := q;
    } else {
      p := FirstInLine(n, s, some, n);
    }
    assert Own(n, s.p[p]);
    if s.p[p].choosing || s.p[p].pc == Critical {
      t, m := After(n, s, p), 1;
      AnywaySteps(n, s, p);
      StepInv(n, s, t, p);
      AloneMore(n, s, t, t, p, 0);
    } else {
      t, m := FreeAdvances(n, s, p);
    }
  }
}
