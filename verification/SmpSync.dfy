/**
 smp_sync (MP_Lite/shm.c): n processes with an epoch each, counted modulo ten, in a shared
 array.  The update of the process's own epoch, its write to the array, and the one or two
 reads of another's entry in a round of the loop are steps of their own, interleaved in any
 order.  smp_rank is the identity here.
 */
module SmpSync {

  // Outside; has moved on to the next epoch; about to look at entry i; about to look again.
  datatype Pc = Outside | Writing | Look(i: nat) | Again(i: nat)

  // `entered` counts the calls of smp_sync; `byte` is sync_byte.
  datatype Process = Process(pc: Pc, byte: nat, entered: nat)

  // `written` counts the writes to an entry of `bytes`, which is sync_array.
  datatype State = State(p: seq<Process>, bytes: seq<nat>, written: seq<nat>)

  ghost predicate Shaped(n: nat, s: State) { |s.p| == n && |s.bytes| == n && |s.written| == n }

  function NextByte(b: nat): nat { (b + 1) % 10 }

  function Past(n: nat, i: nat): Pc { if i + 1 < n then Look(i + 1) else Outside }

  ghost function Go(n: nat, s: State, q: nat): State
    requires Shaped(n, s) && q < n && ((s.p[q].pc.Look? || s.p[q].pc.Again?) ==> s.p[q].pc.i < n)
  {
    var x := s.p[q];
    match x.pc
    case Outside => s.(p := s.p[q := Process(Writing, NextByte(x.byte), x.entered + 1)])
    case Writing => State(s.p[q := x.(pc := Look(0))], s.bytes[q := x.byte], s.written[q := s.written[q] + 1])
    case Look(i) => s.(p := s.p[q := x.(pc := if s.bytes[i] == x.byte then Past(n, i) else Again(i))])
    case Again(i) => s.(p := s.p[q := x.(pc := if s.bytes[i] == NextByte(x.byte) then Past(n, i) else Look(i))])
  }

  ghost predicate Step(n: nat, s: State, t: State, q: nat)
  {
    && Shaped(n, s) && q < n && ((s.p[q].pc.Look? || s.p[q].pc.Again?) ==> s.p[q].pc.i < n)
    && t == Go(n, s, q)
  }

  // ------------------------------------------------------------------ invariant

  // How many syncs the process has returned from.
  function Left(x: Process): int { if x.pc == Outside then x.entered else x.entered - 1 }

  ghost predicate Own(n: nat, x: Process, entry: nat, written: nat)
  {
    && ((x.pc.Look? || x.pc.Again?) ==> x.pc.i < n)
    && (x.pc != Outside ==> x.entered > 0)
    && x.byte == x.entered % 10 && entry == written % 10
    && x.entered == if x.pc == Writing then written + 1 else written
  }

  // What process x has seen of an entry j written w times.
  ghost predicate Seen(x: Process, j: nat, w: nat)
  {
    Left(x) <= w && ((x.pc.Look? || x.pc.Again?) && j < x.pc.i ==> x.entered <= w)
  }

  ghost predicate Inv(n: nat, s: State)
  {
    && Shaped(n, s) && (forall q :: 0 <= q < n ==> Own(n, s.p[q], s.bytes[q], s.written[q]))
    && forall q, j :: 0 <= q < n && 0 <= j < n ==> Seen(s.p[q], j, s.written[j])
  }

  // No process is more than one epoch ahead of another.
  lemma WithinOne(n: nat, s: State, q: nat, j: nat)
    requires Inv(n, s) && q < n && j < n
    ensures s.written[q] <= s.written[j] + 1
  {
    assert Seen(s.p[q], j, s.written[j]) && Own(n, s.p[q], s.bytes[q], s.written[q]);
  }

  lemma Modulo(w: nat, k: nat)
    requires k - 1 <= w <= k + 1
    ensures w % 10 == k % 10 <==> w == k
    ensures w % 10 == (k % 10 + 1) % 10 <==> w == k + 1
  {
  }

  // So the test modulo ten is a test whether the other process has come this far.
  lemma TestIsRight(n: nat, s: State, q: nat, i: nat)
    requires Inv(n, s) && q < n && i < n && (s.p[q].pc == Look(i) || s.p[q].pc == Again(i))
    ensures s.bytes[i] == s.p[q].byte <==> s.written[i] == s.p[q].entered
    ensures s.bytes[i] == NextByte(s.p[q].byte) <==> s.written[i] == s.p[q].entered + 1
    ensures s.p[q].entered - 1 <= s.written[i] <= s.p[q].entered + 1
  {
    WithinOne(n, s, q, i);
    WithinOne(n, s, i, q);
    assert Own(n, s.p[q], s.bytes[q], s.written[q]) && Own(n, s.p[i], s.bytes[i], s.written[i]);
    Modulo(s.written[i], s.p[q].entered);
  }

  lemma BytesStep(k: nat)
    ensures (k % 10 + 1) % 10 == (k + 1) % 10
  {
  }

  lemma OwnKept(n: nat, s: State, t: State, q: nat, r: nat)
    requires Inv(n, s) && Step(n, s, t, q) && r < n
    ensures Own(n, t.p[r], t.bytes[r], t.written[r])
  {
    BytesStep(s.p[q].entered);
    assert Own(n, s.p[q], s.bytes[q], s.written[q]) && Own(n, s.p[r], s.bytes[r], s.written[r]);
  }

  lemma SeenKept(n: nat, s: State, t: State, q: nat, r: nat, j: nat)
    requires Inv(n, s) && Step(n, s, t, q) && r < n && j < n
    ensures Seen(t.p[r], j, t.written[j])
  {
    assert Own(n, s.p[r], s.bytes[r], s.written[r]) && Seen(s.p[r], j, s.written[j]);
    if q == r && (s.p[q].pc.Look? || s.p[q].pc.Again?) { TestIsRight(n, s, q, s.p[q].pc.i); }
  }

  lemma StepInv(n: nat, s: State, t: State, q: nat)
    requires Inv(n, s) && Step(n, s, t, q)
    ensures Inv(n, t)
  {
    forall r: nat | r < n ensures Own(n, t.p[r], t.bytes[r], t.written[r]) { OwnKept(n, s, t, q, r); }
    forall r: nat, j: nat | r < n && j < n ensures Seen(t.p[r], j, t.written[j]) { SeenKept(n, s, t, q, r, j); }
  }

  ghost predicate Next(n: nat, s: State, t: State) { exists q :: Step(n, s, t, q) }

  ghost predicate Run(n: nat, run: seq<State>)
  {
    && |run| > 0 && Shaped(n, run[0])
    && (forall q :: 0 <= q < n ==> run[0].p[q] == Process(Outside, 0, 0) && run[0].bytes[q] == run[0].written[q] == 0)
    && forall k :: 0 <= k < |run| - 1 ==> Next(n, run[k], run[k + 1])
  }

  lemma {:induction false} EveryRunInv(n: nat, run: seq<State>, k: nat)
    requires Run(n, run) && k < |run|
    ensures Inv(n, run[k])
  {
    if k == 0 {
    } else {
      EveryRunInv(n, run, k - 1);
      assert Next(n, run[k - 1], run[k - 1 + 1]);
      var q :| Step(n, run[k - 1], run[k], q);
      StepInv(n, run[k - 1], run[k], q);
    }
  }

  // No process returns from a sync before all the others have entered the same one.
  lemma NobodyLeavesEarly(n: nat, run: seq<State>, q: nat, j: nat)
    requires Run(n, run) && q < n && j < n
    requires Shaped(n, run[|run| - 1])
    ensures var s := run[|run| - 1]; Left(s.p[q]) <= s.p[j].entered
  {
    EveryRunInv(n, run, |run| - 1);
    var s := run[|run| - 1];
    assert Seen(s.p[q], j, s.written[j]) && Own(n, s.p[j], s.bytes[j], s.written[j]);
  }

  // ------------------------------------------------------------------ no deadlock

  // How far a process at pc is from returning.
  function ToGo(n: nat, pc: Pc): int
  {
    match pc
    case Outside => 0
    case Writing => n + 1
    case Look(i) => n - i
    case Again(i) => n - i
  }

  // The next m steps are those of q alone, and lead from s to t.
  ghost predicate Alone(n: nat, s: State, t: State, q: nat, m: nat)
    decreases m
  {
    if m == 0 then t == s else exists u :: Step(n, s, u, q) && Alone(n, u, t, q, m - 1)
  }

  lemma AloneOnce(n: nat, s: State, t: State, q: nat)
    requires Step(n, s, t, q)
    ensures Alone(n, s, t, q, 1)
  {
    assert Alone(n, t, t, q, 0);
  }

  lemma {:induction false} AloneTwice(n: nat, s: State, u: State, t: State, q: nat, k: nat, m: nat)
    requires Alone(n, s, u, q, k) && Alone(n, u, t, q, m)
    ensures Alone(n, s, t, q, k + m)
    decreases k
  {
    if k == 0 {
    } else {
      var v :| Step(n, s, v, q) && Alone(n, v, u, q, k - 1);
      AloneTwice(n, v, u, t, q, k - 1, m);
      assert Alone(n, v, t, q, k - 1 + m);
    }
  }

  // Nothing sets a process back that is in the sync.
  lemma NeverBack(n: nat, s: State, t: State, q: nat, p: nat)
    requires Inv(n, s) && Step(n, s, t, q) && p < n && s.p[p].pc != Outside
    ensures 0 <= ToGo(n, t.p[p].pc) <= ToGo(n, s.p[p].pc)
  {
    assert Own(n, s.p[p], s.bytes[p], s.written[p]);
  }

  // All the others have come as far as q.
  ghost predicate Last(n: nat, s: State, q: nat)
    requires Shaped(n, s) && q < n
  {
    s.p[q].pc != Outside && forall j :: 0 <= j < n && j != q ==> s.p[q].entered <= s.written[j]
  }

  // The looks it takes to get past an entry.
  function Looks(s: State, q: nat): nat
    requires q < |s.p| && (s.p[q].pc.Look? || s.p[q].pc.Again? ==> s.p[q].pc.i < |s.bytes|)
  {
    match s.p[q].pc
    case Look(i) => if s.bytes[i] == s.p[q].byte then 1 else 2
    case Again(i) => if s.bytes[i] == s.p[q].byte then 2 else 1
    case _ => 1
  }

  lemma LastStep(n: nat, s: State, q: nat)
    requires Inv(n, s) && q < n && Last(n, s, q)
    ensures Step(n, s, Go(n, s, q), q) && Inv(n, Go(n, s, q))
    ensures var t := Go(n, s, q);
      && (t.p[q].pc != Outside ==> Last(n, t, q))
      && (ToGo(n, t.p[q].pc) < ToGo(n, s.p[q].pc)
          || (ToGo(n, t.p[q].pc) == ToGo(n, s.p[q].pc) && t.p[q].pc != Outside && Looks(t, q) < Looks(s, q)))
  {
    assert Own(n, s.p[q], s.bytes[q], s.written[q]);
    StepInv(n, s, Go(n, s, q), q);
    if s.p[q].pc.Look? || s.p[q].pc.Again? { TestIsRight(n, s, q, s.p[q].pc.i); }
  }

  // At most two steps bring it on ...
  lemma {:induction false} LastAdvances(n: nat, s: State, q: nat) returns (t: State, m: nat)
    requires Inv(n, s) && q < n && Last(n, s, q)
    ensures 1 <= m <= Looks(s, q) && Alone(n, s, t, q, m) && Inv(n, t)
    ensures (t.p[q].pc != Outside ==> Last(n, t, q)) && ToGo(n, t.p[q].pc) < ToGo(n, s.p[q].pc)
    decreases Looks(s, q)
  {
    var u := Go(n, s, q);
    LastStep(n, s, q);
    AloneOnce(n, s, u, q);
    if ToGo(n, u.p[q].pc) < ToGo(n, s.p[q].pc) {
      t, m := u, 1;
    } else {
      t, m := LastAdvances(n, u, q);
      AloneTwice(n, s, u, t, q, 1, m);
      m := m + 1;
    }
  }

  lemma ToGoBounded(n: nat, s: State, q: nat)
    requires Inv(n, s) && q < n
    ensures ToGo(n, s.p[q].pc) >= 0
  {
    assert Own(n, s.p[q], s.bytes[q], s.written[q]);
  }

  // ... so that it returns, without anybody else doing anything.
  lemma {:induction false} LastReturns(n: nat, s: State, q: nat) returns (t: State, m: nat)
    requires Inv(n, s) && q < n && Last(n, s, q)
    ensures Alone(n, s, t, q, m) && Inv(n, t) && t.p[q].pc == Outside
    decreases ToGo(n, s.p[q].pc)
  {
    var u, k := LastAdvances(n, s, q);
    if u.p[q].pc == Outside {
      t, m := u, k;
    } else {
      ToGoBounded(n, u, q);
      t, m := LastReturns(n, u, q);
      AloneTwice(n, s, u, t, q, k, m);
      m := k + m;
    }
  }

  lemma Fewest(w: seq<nat>, m: nat) returns (q: nat)
    requires 0 < m <= |w|
    ensures q < m && forall r :: 0 <= r < m ==> w[q] <= w[r]
  {
    q := 0;
    for k := 1 to m
      invariant q < m && forall r :: 0 <= r < k ==> w[q] <= w[r]
    {
      if w[k] < w[q] { q := k; }
    }
  }

  // As long as those that are furthest behind are all in the sync, one of them gets further
  // by at most two steps of its own.
  lemma NoDeadlock(n: nat, s: State) returns (q: nat, t: State, m: nat)
    requires Inv(n, s) && n > 0
    requires forall r :: 0 <= r < n && s.p[r].pc == Outside ==> exists q :: 0 <= q < n && s.written[q] < s.written[r]
    ensures q < n && s.p[q].pc != Outside && 1 <= m <= 2 && Alone(n, s, t, q, m)
    ensures Inv(n, t) && ToGo(n, t.p[q].pc) < ToGo(n, s.p[q].pc)
  {
    q := Fewest(s.written, n);
    assert Own(n, s.p[q], s.bytes[q], s.written[q]);
    if s.p[q].pc == Writing {
      t, m := Go(n, s, q), 1;
      StepInv(n, s, t, q);
      AloneOnce(n, s, t, q);
    } else {
      t, m := LastAdvances(n, s, q);
    }
  }
}
