/**
 shfs_barrier (MP_Lite/ib.c): every process meets every other one in turn, by a file that
 the lower of the two creates and the higher one removes.  Looking for a file, creating and
 removing it are steps of their own, interleaved in any order.
 */
module FileBarrier {

  // Outside; about to meet i; has created the file for i; has found the file of i.
  datatype Pc = Outside | Meet(i: nat) | Created(i: nat) | Found(i: nat)

  // `passed` counts the barriers the process has returned from.
  datatype Process = Process(pc: Pc, passed: nat)

  datatype State = State(p: seq<Process>, files: set<(nat, nat)>)

  function Past(n: nat, x: Process, i: nat): Process
  {
    if i + 1 < n then x.(pc := Meet(i + 1)) else Process(Outside, x.passed + 1)
  }

  predicate Within(n: nat, pc: Pc) { pc == Outside || pc.i < n }

  // A round of a waiting loop that finds nothing leaves everything as it is.
  ghost function Go(n: nat, s: State, q: nat): State
    requires |s.p| == n && q < n && Within(n, s.p[q].pc)
  {
    var x := s.p[q];
    match x.pc
    case Outside => s.(p := s.p[q := x.(pc := Meet(0))])
    case Meet(i) =>
      if i == q then s.(p := s.p[q := Past(n, x, i)])
      else if q < i then State(s.p[q := x.(pc := Created(i))], s.files + {(q, i)})
      else if (i, q) in s.files then s.(p := s.p[q := x.(pc := Found(i))])
      else s
    case Created(i) => if (q, i) in s.files then s else s.(p := s.p[q := Past(n, x, i)])
    case Found(i) => State(s.p[q := Past(n, x, i)], s.files - {(i, q)})
  }

  ghost predicate Step(n: nat, s: State, t: State, q: nat)
  {
    |s.p| == n && q < n && Within(n, s.p[q].pc) && t == Go(n, s, q)
  }

  // ------------------------------------------------------------------ invariant

  // How often x has met j, and how often a process has begun a barrier.
  function Met(x: Process, j: nat): nat
  {
    x.passed + if x.pc != Outside && j < x.pc.i then 1 else 0
  }

  function Begun(x: Process): nat { if x.pc == Outside then x.passed else x.passed + 1 }

  // Process lo has created its file for hi `Made` times, and hi has removed it Met times.
  function Made(x: Process, hi: nat): nat { Met(x, hi) + if x.pc == Created(hi) then 1 else 0 }

  ghost predicate Own(n: nat, x: Process, q: nat)
  {
    && Within(n, x.pc) && (x.pc.Created? ==> q < x.pc.i) && (x.pc.Found? ==> x.pc.i < q)
  }

  ghost predicate Pair(s: State, lo: nat, hi: nat)
    requires lo < hi < |s.p|
  {
    var x, y := s.p[lo], s.p[hi];
    && Met(x, hi) <= Met(y, lo) <= Made(x, hi)
    && ((lo, hi) in s.files <==> Made(x, hi) == Met(y, lo) + 1)
    && (y.pc == Found(lo) ==> (lo, hi) in s.files)
  }

  ghost predicate Inv(n: nat, s: State)
  {
    && |s.p| == n && (forall q :: 0 <= q < n ==> Own(n, s.p[q], q))
    && forall lo, hi :: 0 <= lo < hi < n ==> Pair(s, lo, hi)
  }

  lemma OwnKept(n: nat, s: State, q: nat, r: nat)
    requires |s.p| == n && q < n && r < n && Own(n, s.p[q], q) && Own(n, s.p[r], r)
    ensures Own(n, Go(n, s, q).p[r], r)
  {
  }

  // What a step does to a pair of processes: the lower one's, the upper one's, and a third's.
  lemma LowerStep(n: nat, s: State, lo: nat, hi: nat)
    requires |s.p| == n && lo < hi < n && Own(n, s.p[lo], lo) && Own(n, s.p[hi], hi) && Pair(s, lo, hi)
    ensures Pair(Go(n, s, lo), lo, hi)
  {
  }

  lemma UpperStep(n: nat, s: State, lo: nat, hi: nat)
    requires |s.p| == n && lo < hi < n && Own(n, s.p[lo], lo) && Own(n, s.p[hi], hi) && Pair(s, lo, hi)
    ensures Pair(Go(n, s, hi), lo, hi)
  {
  }

  lemma OtherStep(n: nat, s: State, q: nat, lo: nat, hi: nat)
    requires |s.p| == n && lo < hi < n && q < n && q != lo && q != hi && Own(n, s.p[q], q) && Pair(s, lo, hi)
    ensures Pair(Go(n, s, q), lo, hi)
  {
  }

  lemma StepInv(n: nat, s: State, t: State, q: nat)
    requires Inv(n, s) && Step(n, s, t, q)
    ensures Inv(n, t)
  {
    forall r: nat | r < n ensures Own(n, t.p[r], r) { OwnKept(n, s, q, r); }
    forall lo: nat, hi: nat | lo < hi < n ensures Pair(t, lo, hi) {
      if q == lo {
        LowerStep(n, s, lo, hi);
      } else if q == hi {
        UpperStep(n, s, lo, hi);
      } else {
        OtherStep(n, s, q, lo, hi);
      }
    }
  }

  ghost predicate Next(n: nat, s: State, t: State) { exists q :: Step(n, s, t, q) }

  ghost predicate Run(n: nat, run: seq<State>)
  {
    && |run| > 0 && |run[0].p| == n && run[0].files == {}
    && (forall q :: 0 <= q < n ==> run[0].p[q] == Process(Outside, 0))
    && forall k :: 0 <= k < |run| - 1 ==> Next(n, run[k], run[k + 1])
  }

  lemma {:induction false} EveryRunInv(n: nat, run: seq<State>, k: nat)
    requires Run(n, run) && k < |run|
    ensures Inv(n, run[k])
  {
    if k == 0 {
    } else {
      EveryRunInv(n, run, k - 1);
      assert Next(n, run[k - 1], run[k - 1 + 1]);
      var q :| Step(n, run[k - 1], run[k], q);
      StepInv(n, run[k - 1], run[k], q);
    }
  }

  // No process returns from a barrier before all the others have begun the same one.
  lemma NobodyLeavesEarly(n: nat, run: seq<State>, q: nat, j: nat)
    requires Run(n, run) && q < n && j < n
    requires |run[|run| - 1].p| == n
    ensures var s := run[|run| - 1]; s.p[q].passed <= Begun(s.p[j])
  {
    EveryRunInv(n, run, |run| - 1);
    var s := run[|run| - 1];
    if q < j {
      assert Pair(s, q, j);
    } else if j < q {
      assert Pair(s, j, q);
    }
  }

  // ------------------------------------------------------------------ no deadlock

  // How far a process at pc is from returning.
  function ToGo(n: nat, pc: Pc): int
  {
    match pc
    case Outside => 0
    case Meet(i) => 2 * (n - i)
    case Created(i) => 2 * (n - i) - 1
    case Found(i) => 2 * (n - i) - 1
  }

  // Nothing sets a process back that is in the barrier.
  lemma NeverBack(n: nat, s: State, t: State, q: nat, p: nat)
    requires Inv(n, s) && Step(n, s, t, q) && p < n && s.p[p].pc != Outside
    ensures 0 <= ToGo(n, t.p[p].pc) <= ToGo(n, s.p[p].pc)
  {
    assert Own(n, s.p[p], p);
  }

  // The process waits for another, and its step changes nothing; that of any other process in
  // the barrier brings it on.
  ghost predicate Blocked(n: nat, s: State, q: nat)
    requires |s.p| == n && q < n
  {
    match s.p[q].pc
    case Meet(i) => i < q && (i, q) !in s.files
    case Created(i) => (q, i) in s.files
    case _ => false
  }

  lemma BlockedExactly(n: nat, s: State, q: nat)
    requires Inv(n, s) && q < n && s.p[q].pc != Outside
    ensures Step(n, s, Go(n, s, q), q)
    ensures Blocked(n, s, q) <==> Go(n, s, q) == s
    ensures !Blocked(n, s, q) <==> ToGo(n, Go(n, s, q).p[q].pc) < ToGo(n, s.p[q].pc)
  {
    assert Own(n, s.p[q], q);
  }

  // Among those that have passed the fewest barriers, a blocked process q waits for another
  // of them, which has not met it yet and, if blocked itself, waits for one below q.
  lemma WaitsFor(n: nat, s: State, q: nat, least: nat)
    requires Inv(n, s) && q < n && Blocked(n, s, q) && s.p[q].passed == least
    requires forall r :: 0 <= r < n ==> least <= s.p[r].passed
    ensures var i := s.p[q].pc.i;
      i < n && i != q && s.p[i].passed == least && (s.p[i].pc != Outside && Blocked(n, s, i) ==> s.p[i].pc.i < q)
  {
    var i := s.p[q].pc.i;
    assert Own(n, s.p[q], q) && Own(n, s.p[i], i);
    if q < i {
      assert Pair(s, q, i);
    } else {
      assert Pair(s, i, q);
    }
  }

  lemma Lowest(n: nat, s: State) returns (q: nat)
    requires |s.p| == n > 0
    ensures q < n && forall r :: 0 <= r < n ==> s.p[q].passed <= s.p[r].passed
    ensures forall r :: 0 <= r < q ==> s.p[q].passed < s.p[r].passed
  {
    q := 0;
    for k := 1 to n
      invariant q < n && (forall r :: 0 <= r < k ==> s.p[q].passed <= s.p[r].passed)
      invariant forall r :: 0 <= r < q ==> s.p[q].passed < s.p[r].passed
    {
      if s.p[k].passed < s.p[q].passed { q := k; }
    }
  }

  // As long as those that have passed the fewest barriers have all begun the next, the
  // step of one of them brings it on: if all were blocked, the one that is waited for by the one that the
  // lowest waits for would be lower still.
  lemma NoDeadlock(n: nat, s: State)
    requires Inv(n, s) && n > 0
    requires forall r :: 0 <= r < n && s.p[r].pc == Outside ==> exists q :: 0 <= q < n && s.p[q].passed < s.p[r].passed
    ensures exists q, t :: 0 <= q < n && s.p[q].pc != Outside && Step(n, s, t, q) && Brings(n, s, t, q)
  {
    var q := Lowest(n, s);
    if Blocked(n, s, q) {
      WaitsFor(n, s, q, s.p[q].passed);
      q := s.p[q].pc.i;
      if Blocked(n, s, q) {
        WaitsFor(n, s, q, s.p[q].passed);
        assert false;
      }
    }
    BlockedExactly(n, s, q);
    assert Brings(n, s, Go(n, s, q), q);
  }

  // q is nearer to its return.
  ghost predicate Brings(n: nat, s: State, t: State, q: nat)
  {
    q < |s.p| && q < |t.p| && ToGo(n, t.p[q].pc) < ToGo(n, s.p[q].pc)
  }
}
