/**
 MP_Global (MP_Lite/mpcore.c): a global sum, maximum or minimum over any number of
 participants.
 */
module Allreduce {
  import opened Binary
  import opened Common
  import opened Exchange
  import opened ExchangeRuns

  // ------------------------------------------------------------------ what it computes

  // On the values that satisfy `ok` the operation is closed, commutative and associative.
  ghost predicate Lawful<T(!new)>(op: (T, T) -> T, ok: T -> bool)
  {
    && (forall a, b {:trigger op(a, b)} :: ok(a) && ok(b) ==> ok(op(a, b)) && op(a, b) == op(b, a))
    && (forall a, b, c {:trigger op(op(a, b), c)} :: ok(a) && ok(b) && ok(c) ==> op(op(a, b), c) == op(a, op(b, c)))
  }

  ghost predicate AllOk<T>(ok: T -> bool, x: seq<T>)
  {
    forall i :: 0 <= i < |x| ==> ok(x[i])
  }

  // The inputs lo, ..., hi-1 combined, each once.
  ghost function Fold<T>(op: (T, T) -> T, x: seq<T>, lo: nat, hi: nat): T
    requires lo < hi <= |x|
  {
    if hi == lo + 1 then x[lo] else op(Fold(op, x, lo, hi - 1), x[hi - 1])
  }

  lemma {:induction false} FoldOk<T(!new)>(op: (T, T) -> T, ok: T -> bool, x: seq<T>, lo: nat, hi: nat)
    requires Lawful(op, ok) && AllOk(ok, x) && lo < hi <= |x|
    ensures ok(Fold(op, x, lo, hi))
  {
    if hi == lo + 1 {
    } else {
      FoldOk(op, ok, x, lo, hi - 1);
    }
  }

  lemma {:induction false} FoldSplit<T(!new)>(op: (T, T) -> T, ok: T -> bool, x: seq<T>, lo: nat, mid: nat, hi: nat)
    requires Lawful(op, ok) && AllOk(ok, x) && lo < mid < hi <= |x|
    ensures Fold(op, x, lo, hi) == op(Fold(op, x, lo, mid), Fold(op, x, mid, hi))
  {
    if hi == mid + 1 {
    } else {
      FoldSplit(op, ok, x, lo, mid, hi - 1);
      FoldOk(op, ok, x, lo, mid);
      FoldOk(op, ok, x, mid, hi - 1);
      var a, b, c := Fold(op, x, lo, mid), Fold(op, x, mid, hi - 1), x[hi - 1];
      assert op(op(a, b), c) == op(a, op(b, c));
    }
  }

  // ------------------------------------------------------------------ the rounds

  // A participant sends its vector and combines it with what it receives.
  ghost function Reducing<T>(n: nat, rounds: nat, op: (T, T) -> T): Algo<T, T>
  {
    Algo(n, rounds, (k, r, v) => v, (k, r, v, w) => op(v, w))
  }

  ghost function Hi(r: nat, k: nat, n: nat): nat { Min(Lo(r, k) + Pow2(k), n) }

  ghost function BlockSum<T>(op: (T, T) -> T, x: seq<T>, r: nat, k: nat): T
    requires r < |x|
  {
    InOwnBlock(r, k);
    Fold(op, x, Lo(r, k), Hi(r, k, |x|))
  }

  // After k rounds a participant holds every contribution of its block of 2^k, each once.
  lemma {:induction false} HoldsBlock<T(!new)>(op: (T, T) -> T, ok: T -> bool, x: seq<T>, rounds: nat, k: nat, r: nat)
    requires Lawful(op, ok) && AllOk(ok, x) && r < |x| <= Pow2(rounds)
    ensures InStep(Reducing(|x|, rounds, op), x, k, r) == BlockSum(op, x, r, k)
    decreases k
  {
    if k == 0 {
      HoldsOwn(op, x, rounds, r);
    } else {
      HoldsBlock(op, ok, x, rounds, k - 1, r);
      if Source(r, k - 1, |x|).None? {
        HoldsSame(op, x, rounds, k - 1, r);
      } else {
        var s := Source(r, k - 1, |x|).value;
        HoldsBlock(op, ok, x, rounds, k - 1, s);
        HoldsBoth(op, ok, x, rounds, k - 1, r, s);
      }
    }
  }

  lemma HoldsOwn<T>(op: (T, T) -> T, x: seq<T>, rounds: nat, r: nat)
    requires r < |x| <= Pow2(rounds)
    ensures InStep(Reducing(|x|, rounds, op), x, 0, r) == BlockSum(op, x, r, 0)
  {
  }

  lemma HoldsSame<T>(op: (T, T) -> T, x: seq<T>, rounds: nat, k: nat, r: nat)
    requires r < |x| <= Pow2(rounds) && Source(r, k, |x|) == None
    requires InStep(Reducing(|x|, rounds, op), x, k, r) == BlockSum(op, x, r, k)
    ensures InStep(Reducing(|x|, rounds, op), x, k + 1, r) == BlockSum(op, x, r, k + 1)
  {
    NothingMore(op, x, k, r);
    Keeps(op, x, rounds, k, r);
  }

  lemma HoldsBoth<T(!new)>(op: (T, T) -> T, ok: T -> bool, x: seq<T>, rounds: nat, k: nat, r: nat, s: nat)
    requires Lawful(op, ok) && AllOk(ok, x) && r < |x| <= Pow2(rounds) && Source(r, k, |x|) == Some(s)
    requires InStep(Reducing(|x|, rounds, op), x, k, r) == BlockSum(op, x, r, k)
    requires InStep(Reducing(|x|, rounds, op), x, k, s) == BlockSum(op, x, s, k)
    ensures InStep(Reducing(|x|, rounds, op), x, k + 1, r) == BlockSum(op, x, r, k + 1)
  {
    TwoHalves(op, ok, x, k, r, s);
    Combines(op, x, rounds, k, r, s);
  }

  lemma Keeps<T>(op: (T, T) -> T, x: seq<T>, rounds: nat, k: nat, r: nat)
    requires r < |x| <= Pow2(rounds) && Source(r, k, |x|) == None
    ensures var a := Reducing(|x|, rounds, op); InStep(a, x, k + 1, r) == InStep(a, x, k, r)
  {
  }

  lemma Combines<T>(op: (T, T) -> T, x: seq<T>, rounds: nat, k: nat, r: nat, s: nat)
    requires r < |x| <= Pow2(rounds) && Source(r, k, |x|) == Some(s)
    ensures var a := Reducing(|x|, rounds, op);
      InStep(a, x, k + 1, r) == op(InStep(a, x, k, r), InStep(a, x, k, s))
  {
  }

  // Nobody to wait for: the double block has no more real ranks than the block.
  lemma NoSibling(r: nat, k: nat, n: nat)
    requires r < n && Source(r, k, n).None?
    ensures Lo(r, k + 1) == Lo(r, k) && Hi(r, k + 1, n) == Hi(r, k, n)
  {
    var p := Xor(r, Pow2(k));
    PartnerIs(r, k);
    InOwnBlock(r, k);
    if Lo(p, k) < Lo(r, k) { assert false; }
    Siblings(r, p, k);
  }

  lemma NothingMore<T>(op: (T, T) -> T, x: seq<T>, k: nat, r: nat)
    requires r < |x| && Source(r, k, |x|).None?
    ensures BlockSum(op, x, r, k + 1) == BlockSum(op, x, r, k)
  {
    NoSibling(r, k, |x|);
  }

  // The block of u ends where the block of v starts, and together they make the double block.
  lemma HalfBounds(u: nat, v: nat, k: nat, n: nat)
    requires u < n && v < n && Lo(u, k) < Lo(v, k) && Lo(u, k + 1) == Lo(v, k + 1)
    ensures Lo(u, k) == Lo(u, k + 1) < Hi(u, k, n) == Lo(v, k) < Hi(v, k, n) == Hi(v, k + 1, n) <= n
  {
    InOwnBlock(u, k);
    InOwnBlock(v, k);
    Siblings(u, v, k);
  }

  lemma EitherOrder<T(!new)>(op: (T, T) -> T, ok: T -> bool, x: seq<T>, lo: nat, mid: nat, hi: nat)
    requires Lawful(op, ok) && AllOk(ok, x) && lo < mid < hi <= |x|
    ensures Fold(op, x, lo, hi) == op(Fold(op, x, lo, mid), Fold(op, x, mid, hi))
    ensures Fold(op, x, lo, hi) == op(Fold(op, x, mid, hi), Fold(op, x, lo, mid))
  {
    FoldSplit(op, ok, x, lo, mid, hi);
    FoldOk(op, ok, x, lo, mid);
    FoldOk(op, ok, x, mid, hi);
  }

  lemma TwoHalves<T(!new)>(op: (T, T) -> T, ok: T -> bool, x: seq<T>, k: nat, r: nat, s: nat)
    requires Lawful(op, ok) && AllOk(ok, x) && r < |x| && Source(r, k, |x|) == Some(s)
    ensures BlockSum(op, x, r, k + 1) == op(BlockSum(op, x, r, k), BlockSum(op, x, s, k))
  {
    SourceBlock(r, k, |x|);
    var u, v := if Lo(r, k) < Lo(s, k) then r else s, if Lo(r, k) < Lo(s, k) then s else r;
    HalfBounds(u, v, k, |x|);
    EitherOrder(op, ok, x, Lo(u, k), Lo(v, k), Hi(v, k, |x|));
  }

  // Whatever the interleaving, a participant that is through all rounds holds the
  // combination of all inputs, each counted once.
  lemma AllreduceCorrect<T(!new)>(op: (T, T) -> T, ok: T -> bool, x: seq<T>, rounds: nat, run: seq<State<T, T>>, r: nat)
    requires Lawful(op, ok) && AllOk(ok, x) && 0 < |x| <= Pow2(rounds)
    requires Run(Reducing(|x|, rounds, op), x, run) && r < |x|
    ensures var s := run[|run| - 1]; |s.round| == |x| == |s.local|
    ensures var s := run[|run| - 1]; s.round[r] == rounds ==> s.local[r] == Fold(op, x, 0, |x|)
  {
    EveryRunInStep(Reducing(|x|, rounds, op), x, run);
    HoldsBlock(op, ok, x, rounds, rounds, r);
    WholeBlock(r, rounds);
  }

  // ------------------------------------------------------------------ the trial array

  // trial[i] before round k.
  ghost function Trial(n: nat, k: nat, i: nat): nat
    decreases k
  {
    if k == 0 then if i < n then 1 else 0 else
      var p := Xor(i, Pow2(k - 1));
      // entries are updated in place, so that a higher entry sees the lower one already updated
      if p > i then Trial(n, k - 1, i) + Trial(n, k - 1, p)
      else Trial(n, k - 1, i) + (Trial(n, k - 1, p) + Trial(n, k - 1, i))
  }

  ghost function Pow3(k: nat): nat { if k == 0 then 1 else 3 * Pow3(k - 1) }

  // Despite the in-place update an entry is nonzero exactly when its block holds a real
  // rank; and it stays small.
  lemma {:induction false} TrialMeaning(n: nat, k: nat, i: nat)
    ensures Trial(n, k, i) != 0 <==> Occupied(i, k, n)
    ensures Trial(n, k, i) <= Pow3(k)
    decreases k
  {
    if k == 0 {
    } else {
      var p := Xor(i, Pow2(k - 1));
      TrialMeaning(n, k - 1, i);
      TrialMeaning(n, k - 1, p);
      BothHalves(n, k - 1, i);
    }
  }

  lemma BothHalves(n: nat, k: nat, i: nat)
    ensures Occupied(i, k + 1, n) <==> Occupied(i, k, n) || Occupied(Xor(i, Pow2(k)), k, n)
  {
    var p := Xor(i, Pow2(k));
    PartnerIs(i, k);
    if Lo(i, k) < Lo(p, k) { Siblings(i, p, k); } else { Siblings(p, i, k); }
  }

  // With at most MAX_PROCS = 1024 processes there are at most ten rounds.
  lemma TrialFitsInt(n: nat, k: nat, i: nat)
    requires k <= 10
    ensures Trial(n, k, i) <= 59049 < 0x8000_0000
  {
    TrialMeaning(n, k, i);
    Pow3Mono(k, 10);
    assert Pow3(10) == 59049 by {
      assert Pow3(4) == 81 && Pow3(8) == 81 * 81 && Pow3(10) == 9 * Pow3(8);
    }
  }

  lemma {:induction false} Pow3Mono(a: nat, b: nat)
    requires a <= b
    ensures Pow3(a) <= Pow3(b)
  {
    if a == b {
    } else {
      Pow3Mono(a, b - 1);
    }
  }

  lemma TrialUpdated(n: nat, k: nat, rounds: nat, i: nat)
    requires i < Pow2(rounds) && k < rounds
    ensures var p := Xor(i, Pow2(k));
      && p < Pow2(rounds)
      && Trial(n, k + 1, i) == Trial(n, k, i) + if i <= p then Trial(n, k, p) else Trial(n, k + 1, p)
  {
    PartnerBelow(i, k, rounds);
    PartnerBack(i, k);
    PartnerNear(i, k);
  }

  // The last loop of a round.
  method UpdateTrial(trial: array<int>, ghost n: nat, ghost k: nat, ghost rounds: nat, np: nat)
    requires trial.Length == Pow2(rounds) && k < rounds && np == Pow2(k)
    requires forall i :: 0 <= i < trial.Length ==> trial[i] == Trial(n, k, i)
    modifies trial
    ensures forall i :: 0 <= i < trial.Length ==> trial[i] == Trial(n, k + 1, i)
  {
    var i := 0;
    while i < trial.Length
      invariant 0 <= i <= trial.Length
      invariant forall j :: 0 <= j < i ==> trial[j] == Trial(n, k + 1, j)
      invariant forall j :: i <= j < trial.Length ==> trial[j] == Trial(n, k, j)
    {
      TrialUpdated(n, k, rounds, i);
      var p := Xor(i, np);
      trial[i] := trial[i] + trial[p];
      i := i + 1;
    }
  }

  // ------------------------------------------------------------------ one participant's plan

  // What one participant posts and sends in a round.
  datatype Plan = Plan(source: Option<nat>, dests: seq<nat>)

  method PlanRound(trial: array<int>, me: nat, n: nat, np: nat, ghost k: nat, ghost rounds: nat) returns (p: Plan)
    requires me < n <= trial.Length == Pow2(rounds) && k < rounds && np == Pow2(k)
    requires forall i :: 0 <= i < trial.Length ==> trial[i] == Trial(n, k, i)
    ensures p == Plan(Source(me, k, n), Dests(me, k, n, Pow2(rounds)))
  {
    PartnerBelow(me, k, rounds);
    TrialMeaning(n, k, Xor(me, np));
    var source: Option<nat> := None;
    if trial[Xor(me, np)] != 0 {
      source := Some(if Xor(me, np) >= n then n - 1 else Xor(me, np));
    }
    var dests: seq<nat> := [];
    if Xor(me, np) < n { dests := [Xor(me, np)]; }
    if me == n - 1 {
      var more := PlanSubstitutes(trial, n, np, k, rounds);
      dests := dests + more;
    }
    p := Plan(source, dests);
  }

  lemma SubstitutedNext(dests: seq<nat>, v: nat, k: nat, n: nat, m: nat)
    requires 0 < n && v < m
    ensures var d := Xor(v, Pow2(k));
      dests + Substituted(v, k, n, m)
        == (if Occupied(v, k, n) && d < n - 1 then dests + [d] else dests) + Substituted(v + 1, k, n, m)
  {
    var d, rest := Xor(v, Pow2(k)), Substituted(v + 1, k, n, m);
    assert dests + ([d] + rest) == (dests + [d]) + rest && [] + rest == rest;
  }

  // Participant n-1 also sends for the virtual ranks.
  method PlanSubstitutes(trial: array<int>, n: nat, np: nat, ghost k: nat, ghost rounds: nat) returns (dests: seq<nat>)
    requires 0 < n <= trial.Length == Pow2(rounds) && k < rounds && np == Pow2(k)
    requires forall i :: 0 <= i < trial.Length ==> trial[i] == Trial(n, k, i)
    ensures dests == Substituted(n, k, n, Pow2(rounds))
  {
    dests := [];
    var vp := n;
    while vp < trial.Length
      invariant n <= vp <= trial.Length
      invariant dests + Substituted(vp, k, n, trial.Length) == Substituted(n, k, n, trial.Length)
    {
      TrialMeaning(n, k, vp);
      var dest := Xor(vp, np);
      SubstitutedNext(dests, vp, k, n, trial.Length);
      if trial[vp] != 0 && dest < n - 1 {
        dests := dests + [dest];
      }
      vp := vp + 1;
    }
  }

  // All rounds of participant `me` of n.
  method PlanAll(me: nat, n: nat) returns (plans: seq<Plan>)
    requires me < n
    ensures |plans| == Rounds(n)
    ensures forall k :: 0 <= k < |plans| ==> plans[k] == Plan(Source(me, k, n), Dests(me, k, n, Pow2(Rounds(n))))
  {
    var mxprocs := 1;
    ghost var rounds: nat := 0;
    while mxprocs < n
      invariant mxprocs == Pow2(rounds) && (rounds > 0 ==> Pow2(rounds - 1) < n)
      decreases n - mxprocs
    {
      mxprocs := mxprocs * 2;
      rounds := rounds + 1;
    }
    RoundsIs(n, rounds);
    var trial := new int[mxprocs](i => if i < n then 1 else 0);
    var np := 1;
    ghost var k := 0;
    plans := [];
    while np < mxprocs
      invariant np == Pow2(k) && k <= rounds && |plans| == k
      invariant forall i :: 0 <= i < trial.Length ==> trial[i] == Trial(n, k, i)
      invariant forall j :: 0 <= j < k ==> plans[j] == Plan(Source(me, j, n), Dests(me, j, n, Pow2(rounds)))
      decreases mxprocs - np
    {
      Pow2Strict(k, rounds);
      var p := PlanRound(trial, me, n, np, k, rounds);
      plans := plans + [p];
      UpdateTrial(trial, n, k, rounds, np);
      np := np * 2;
      k := k + 1;
    }
    if k < rounds { Pow2Mono(k + 1, rounds); }
  }

  // ------------------------------------------------------------------ the integer operations

  // op_type 1, 4 and 7; the other types are the same operations on floating-point numbers.
  datatype OpType = ISum | IMax | IMin

  const TWO32 := 0x1_0000_0000

  // A 32-bit sum wraps around.
  function Wrap(x: int): int
  {
    (x + TWO32 / 2) % TWO32 - TWO32 / 2
  }

  predicate Int32(x: int) { -TWO32 / 2 <= x < TWO32 / 2 }

  function Apply(t: OpType, a: int, b: int): int
  {
    match t
    case ISum => Wrap(a + b)
    case IMax => if b > a then b else a
    case IMin => if b < a then b else a
  }

  function Elementwise(t: OpType, v: seq<int>, w: seq<int>): seq<int>
  {
    if |v| != |w| then v else seq(|v|, i requires 0 <= i < |v| => Apply(t, v[i], w[i]))
  }

  ghost predicate Vector(n: nat, v: seq<int>)
  {
    |v| == n && forall i :: 0 <= i < n ==> Int32(v[i])
  }

  lemma ApplyLaws(t: OpType, a: int, b: int, c: int)
    requires Int32(a) && Int32(b) && Int32(c)
    ensures Int32(Apply(t, a, b)) && Apply(t, a, b) == Apply(t, b, a)
    ensures Apply(t, Apply(t, a, b), c) == Apply(t, a, Apply(t, b, c))
  {
    if t == ISum { SumLaws(a, b, c); }
  }

  lemma SumLaws(a: int, b: int, c: int)
    ensures Int32(Wrap(a + b)) && Wrap(Wrap(a + b) + c) == Wrap(a + Wrap(b + c))
  {
    WrapSum(a + b, c);
    WrapSum(b + c, a);
  }

  lemma WrapSum(x: int, c: int)
    ensures Wrap(Wrap(x) + c) == Wrap(x + c)
  {
  }

  // The operation on vectors, and the vectors of length n that it is for.
  ghost function VectorOp(t: OpType): (seq<int>, seq<int>) -> seq<int> { (v, w) => Elementwise(t, v, w) }

  ghost function VectorOk(n: nat): seq<int> -> bool { v => Vector(n, v) }

  lemma VectorsLawful(n: nat, t: OpType)
    ensures Lawful(VectorOp(t), VectorOk(n))
  {
    forall v, w | Vector(n, v) && Vector(n, w)
      ensures Vector(n, Elementwise(t, v, w)) && Elementwise(t, v, w) == Elementwise(t, w, v)
    {
      forall i | 0 <= i < n ensures Int32(Apply(t, v[i], w[i])) && Apply(t, v[i], w[i]) == Apply(t, w[i], v[i]) {
        ApplyLaws(t, v[i], w[i], 0);
      }
    }
    forall u, v, w | Vector(n, u) && Vector(n, v) && Vector(n, w)
      ensures Elementwise(t, Elementwise(t, u, v), w) == Elementwise(t, u, Elementwise(t, v, w))
    {
      forall i | 0 <= i < n ensures Apply(t, Apply(t, u[i], v[i]), w[i]) == Apply(t, u[i], Apply(t, v[i], w[i])) {
        ApplyLaws(t, u[i], v[i], w[i]);
      }
    }
  }

  // ------------------------------------------------------------------ the answers

  // Vectors of length n, one from each participant.
  ghost predicate Inputs(n: nat, x: seq<seq<int>>)
  {
    |x| > 0 && forall q :: 0 <= q < |x| ==> |x[q]| == n && Vector(n, x[q])
  }

  // What the participants put in at position i.
  ghost function Column(n: nat, x: seq<seq<int>>, i: nat): (c: seq<int>)
    requires Inputs(n, x) && i < n
    ensures |c| == |x| && forall q :: 0 <= q < |x| ==> c[q] == x[q][i]
  {
    seq(|x|, q requires 0 <= q < |x| => x[q][i])
  }

  // Added up without wrapping.
  ghost function Sum(c: seq<int>, hi: nat): int
    requires hi <= |c|
  {
    if hi == 0 then 0 else Sum(c, hi - 1) + c[hi - 1]
  }

  // y is the sum, the maximum or the minimum of the first hi of these numbers; a sum in 32
  // bits is right up to multiples of 2^32.
  ghost predicate Answer(t: OpType, c: seq<int>, hi: nat, y: int)
    requires 0 < hi <= |c|
  {
    match t
    case ISum => -0x8000_0000 <= y < 0x8000_0000 && (y - Sum(c, hi)) % 0x1_0000_0000 == 0
    case IMax => (exists q :: 0 <= q < hi && c[q] == y) && forall q :: 0 <= q < hi ==> c[q] <= y
    case IMin => (exists q :: 0 <= q < hi && c[q] == y) && forall q :: 0 <= q < hi ==> y <= c[q]
  }

  lemma WrapCongruent(x: int, y: int)
    requires (x - y) % TWO32 == 0
    ensures Int32(Wrap(x)) && (Wrap(x) - y) % TWO32 == 0
  {
  }

  lemma FirstAnswer(t: OpType, c: seq<int>)
    requires |c| > 0 && Int32(c[0])
    ensures Answer(t, c, 1, c[0])
  {
    assert Sum(c, 1) == Sum(c, 0) + c[0];
  }

  // One number more.
  lemma NextAnswer(t: OpType, c: seq<int>, hi: nat, y: int)
    requires 0 < hi < |c| && Answer(t, c, hi, y)
    ensures Answer(t, c, hi + 1, Apply(t, y, c[hi]))
  {
    match t
    case ISum => WrapCongruent(y + c[hi], Sum(c, hi + 1));
    case _ =>
      var q :| 0 <= q < hi && c[q] == y;
      assert Apply(t, y, c[hi]) == c[if Apply(t, y, c[hi]) == y then q else hi];
  }

  // v holds the answer at every position.
  ghost predicate Answers(t: OpType, n: nat, x: seq<seq<int>>, hi: nat, v: seq<int>)
    requires Inputs(n, x) && 0 < hi <= |x|
  {
    |v| == n && forall i :: 0 <= i < n ==> Answer(t, Column(n, x, i), hi, v[i])
  }

  lemma {:induction false} FoldAnswers(t: OpType, n: nat, x: seq<seq<int>>, hi: nat)
    requires Inputs(n, x) && 0 < hi <= |x|
    ensures Answers(t, n, x, hi, Fold(VectorOp(t), x, 0, hi))
  {
    if hi == 1 {
      forall i: nat | i < n ensures Answer(t, Column(n, x, i), 1, x[0][i]) { FirstAnswer(t, Column(n, x, i)); }
    } else {
      FoldAnswers(t, n, x, hi - 1);
      var v := Fold(VectorOp(t), x, 0, hi - 1);
      var w := Elementwise(t, v, x[hi - 1]);
      assert Fold(VectorOp(t), x, 0, hi) == w;
      forall i: nat | i < n ensures Answer(t, Column(n, x, i), hi, w[i]) {
        NextAnswer(t, Column(n, x, i), hi - 1, v[i]);
      }
    }
  }

  // MP_iSum, MP_iMax and MP_iMin: whatever the interleaving, a participant that is through all
  // rounds holds, at every position, the sum, maximum or minimum of what all have put in.
  lemma GlobalAnswers(t: OpType, n: nat, x: seq<seq<int>>, rounds: nat, run: seq<State<seq<int>, seq<int>>>, r: nat)
    requires Inputs(n, x) && |x| <= Pow2(rounds)
    requires Run(Reducing(|x|, rounds, VectorOp(t)), x, run) && r < |x|
    ensures var s := run[|run| - 1]; |s.round| == |x| == |s.local|
    ensures var s := run[|run| - 1]; s.round[r] == rounds ==> Answers(t, n, x, |x|, s.local[r])
  {
    VectorsLawful(n, t);
    AllreduceCorrect(VectorOp(t), VectorOk(n), x, rounds, run, r);
    FoldAnswers(t, n, x, |x|);
  }

  // The switch over op_type.
  method Combine(vec: array<int>, work: array<int>, t: OpType)
    requires vec != work && vec.Length == work.Length
    modifies vec
    ensures vec[..] == Elementwise(t, old(vec[..]), work[..])
  {
    var i := 0;
    while i < vec.Length
      invariant 0 <= i <= vec.Length
      invariant forall j :: 0 <= j < i ==> vec[j] == Apply(t, old(vec[j]), work[j])
      invariant forall j :: i <= j < vec.Length ==> vec[j] == old(vec[j])
    {
      match t {
        case ISum => vec[i] := Wrap(vec[i] + work[i]);
        case IMax => if work[i] > vec[i] { vec[i] := work[i]; }
        case IMin => if work[i] < vec[i] { vec[i] := work[i]; }
      }
      i := i + 1;
    }
  }
}
