/**
 MP_Global_gather (MP_Lite/mpcore.c): every participant ends up with the slots of all.

 A participant's buffer has one slot for each participant.  Offsets and counts are in slots.
 */
module Allgather {
  import opened Binary
  import opened Common
  import opened Exchange
  import opened ExchangeRuns
  import opened Allreduce

  // How many slots s sends in a round, and from where.
  function SendCount(s: nat, np: nat, n: nat): nat
    requires np > 0
  {
    if s + (np - s % np) > n then n % np else np
  }

  function Offset(s: nat, np: nat): nat
    requires np > 0
  {
    s - s % np
  }

  // Where participant r puts what it receives: the count comes from the rank it would
  // exchange with, the offset from the one that really sends.
  function ReceiveCount(r: nat, np: nat, n: nat): nat
    requires np > 0
  {
    SendCount(Xor(r, np), np, n)
  }

  function ReceiveOffset(r: nat, np: nat, n: nat): nat
    requires np > 0 && n > 0
  {
    var source := Xor(r, np);
    Offset(if source >= n then n - 1 else source, np)
  }

  // A rank with an occupied block sends the real slots of that block.
  lemma CountIsBlock(s: nat, k: nat, n: nat)
    requires Occupied(s, k, n)
    ensures SendCount(s, Pow2(k), n) == Hi(s, k, n) - Lo(s, k) && Offset(s, Pow2(k)) == Lo(s, k)
  {
    LoMod(s, k);
    LoMod(n, k);
    BlockIs(s, n, k);
  }

  // What is sent and what is waited for agree in length and in place, also when n-1 sends
  // for a virtual rank.
  lemma CountsAgree(r: nat, s: nat, k: nat, n: nat)
    requires n > 0 && Source(r, k, n) == Some(s)
    ensures SendCount(s, Pow2(k), n) == ReceiveCount(r, Pow2(k), n)
    ensures Offset(s, Pow2(k)) == ReceiveOffset(r, Pow2(k), n)
    ensures SendCount(s, Pow2(k), n) == Hi(s, k, n) - Lo(s, k) && Offset(s, Pow2(k)) == Lo(s, k)
    ensures Lo(s, k) < Hi(s, k, n) <= n
  {
    SourceBlock(r, k, n);
    InOwnBlock(s, k);
    CountIsBlock(Xor(r, Pow2(k)), k, n);
    CountIsBlock(s, k, n);
  }

  // ------------------------------------------------------------------ the rounds

  ghost function Slots<E>(v: seq<E>, off: nat, count: nat): seq<E>
  {
    if off + count <= |v| then v[off..off + count] else []
  }

  // Receive `w` into the `count` slots from `off` on; a longer message does not fit.
  ghost function Stored<E>(v: seq<E>, off: nat, count: nat, w: seq<E>): seq<E>
  {
    if |w| <= count && off + |w| <= |v| then v[..off] + w + v[off + |w|..] else v
  }

  ghost function Gathering<E>(n: nat, rounds: nat): Algo<seq<E>, seq<E>>
    requires n > 0
  {
    Algo(n, rounds,
      (k: nat, s: nat, v) => Slots(v, Offset(s, Pow2(k)), SendCount(s, Pow2(k), n)),
      (k: nat, r: nat, v, w) => Stored(v, ReceiveOffset(r, Pow2(k), n), ReceiveCount(r, Pow2(k), n), w))
  }

  // The buffers to start with: everyone has its own slot.
  ghost predicate OwnSlots<E>(x: seq<E>, init: seq<seq<E>>)
  {
    |init| == |x| && forall r :: 0 <= r < |x| ==> |init[r]| == |x| && init[r][r] == x[r]
  }

  // `u` is `v` with the slots from lo to hi out of `w`.
  ghost predicate Filled<E>(v: seq<E>, w: seq<E>, u: seq<E>, lo: nat, hi: nat)
  {
    |v| == |w| == |u| && forall i :: 0 <= i < |u| ==> u[i] == if lo <= i < hi then w[i] else v[i]
  }

  ghost predicate TakenOver<E>(v: seq<E>, w: seq<E>, u: seq<E>, lo: nat, hi: nat)
  {
    lo <= hi && u == Stored(v, lo, hi - lo, Slots(w, lo, hi - lo))
  }

  lemma StoredSlots<E>(v: seq<E>, w: seq<E>, u: seq<E>, lo: nat, hi: nat)
    requires TakenOver(v, w, u, lo, hi) && hi <= |v| == |w|
    ensures Filled(v, w, u, lo, hi)
  {
  }

  lemma ReceivedAs<E>(n: nat, rounds: nat, init: seq<seq<E>>, k: nat, r: nat, s: nat)
    requires |init| == n && r < n <= Pow2(rounds) && Source(r, k, n) == Some(s)
    ensures Hi(s, k, n) <= n
    ensures var a := Gathering(n, rounds);
      TakenOver(InStep(a, init, k, r), InStep(a, init, k, s), InStep(a, init, k + 1, r), Lo(s, k), Hi(s, k, n))
  {
    CountsAgree(r, s, k, n);
  }

  // A round changes nothing but the slots of the sender's block, and these are all filled.
  lemma Exchanged<E>(n: nat, rounds: nat, init: seq<seq<E>>, k: nat, r: nat, s: nat)
    requires |init| == n && r < n <= Pow2(rounds) && Source(r, k, n) == Some(s)
    requires |InStep(Gathering(n, rounds), init, k, r)| == n && |InStep(Gathering(n, rounds), init, k, s)| == n
    ensures var a := Gathering(n, rounds);
      Filled(InStep(a, init, k, r), InStep(a, init, k, s), InStep(a, init, k + 1, r), Lo(s, k), Hi(s, k, n))
  {
    ReceivedAs(n, rounds, init, k, r, s);
    var a := Gathering<E>(n, rounds);
    StoredSlots(InStep(a, init, k, r), InStep(a, init, k, s), InStep(a, init, k + 1, r), Lo(s, k), Hi(s, k, n));
  }

  lemma Unchanged<E>(n: nat, rounds: nat, init: seq<seq<E>>, k: nat, r: nat)
    requires |init| == n && r < n <= Pow2(rounds) && Source(r, k, n) == None
    ensures var a := Gathering(n, rounds); InStep(a, init, k + 1, r) == InStep(a, init, k, r)
  {
  }

  ghost predicate Right<E>(x: seq<E>, v: seq<E>, lo: nat, hi: nat)
  {
    |v| == |x| && forall i :: lo <= i < hi && i < |x| ==> v[i] == x[i]
  }

  lemma FilledIn<E>(x: seq<E>, v: seq<E>, w: seq<E>, u: seq<E>, a: nat, b: nat, lo: nat, hi: nat)
    requires Right(x, v, lo, hi) && Right(x, w, a, b) && Filled(v, w, u, a, b) && (b == lo || hi == a)
    ensures Right(x, u, if b == lo then a else lo, if b == lo then hi else b)
  {
  }

  // Before round k a participant has the slots of its block of 2^k.
  lemma {:induction false} HasBlock<E>(x: seq<E>, init: seq<seq<E>>, rounds: nat, k: nat, r: nat)
    requires OwnSlots(x, init) && r < |x| <= Pow2(rounds)
    ensures Right(x, InStep(Gathering(|x|, rounds), init, k, r), Lo(r, k), Hi(r, k, |x|))
    decreases k
  {
    if k == 0 {
      HasOwnSlot(x, init, rounds, r);
    } else {
      var j := k - 1;
      HasBlock(x, init, rounds, j, r);
      if Source(r, j, |x|).Some? {
        HasBlock(x, init, rounds, j, Source(r, j, |x|).value);
      }
      HasNextBlock(x, init, rounds, j, r);
    }
  }

  lemma HasNextBlock<E>(x: seq<E>, init: seq<seq<E>>, rounds: nat, k: nat, r: nat)
    requires |init| == |x| && r < |x| <= Pow2(rounds) && OwnSlots(x, init)
    requires Right(x, InStep(Gathering(|x|, rounds), init, k, r), Lo(r, k), Hi(r, k, |x|))
    requires Source(r, k, |x|).Some? ==> var s := Source(r, k, |x|).value;
      Right(x, InStep(Gathering(|x|, rounds), init, k, s), Lo(s, k), Hi(s, k, |x|))
    ensures Right(x, InStep(Gathering(|x|, rounds), init, k + 1, r), Lo(r, k + 1), Hi(r, k + 1, |x|))
  {
    if Source(r, k, |x|).None? {
      HasSameBlock(x, init, rounds, k, r);
    } else {
      HasDoubleBlock(x, init, rounds, k, r, Source(r, k, |x|).value);
    }
  }

  lemma HasOwnSlot<E>(x: seq<E>, init: seq<seq<E>>, rounds: nat, r: nat)
    requires OwnSlots(x, init) && r < |x| <= Pow2(rounds)
    ensures Right(x, InStep(Gathering(|x|, rounds), init, 0, r), Lo(r, 0), Hi(r, 0, |x|))
  {
  }

  lemma HasSameBlock<E>(x: seq<E>, init: seq<seq<E>>, rounds: nat, k: nat, r: nat)
    requires |init| == |x| && r < |x| <= Pow2(rounds) && Source(r, k, |x|) == None
    requires Right(x, InStep(Gathering(|x|, rounds), init, k, r), Lo(r, k), Hi(r, k, |x|))
    ensures Right(x, InStep(Gathering(|x|, rounds), init, k + 1, r), Lo(r, k + 1), Hi(r, k + 1, |x|))
  {
    NoSibling(r, k, |x|);
    Unchanged(|x|, rounds, init, k, r);
  }

  lemma HasDoubleBlock<E>(x: seq<E>, init: seq<seq<E>>, rounds: nat, k: nat, r: nat, s: nat)
    requires OwnSlots(x, init) && r < |x| <= Pow2(rounds) && Source(r, k, |x|) == Some(s)
    requires Right(x, InStep(Gathering(|x|, rounds), init, k, r), Lo(r, k), Hi(r, k, |x|))
    requires Right(x, InStep(Gathering(|x|, rounds), init, k, s), Lo(s, k), Hi(s, k, |x|))
    ensures Right(x, InStep(Gathering(|x|, rounds), init, k + 1, r), Lo(r, k + 1), Hi(r, k + 1, |x|))
  {
    var n, a := |x|, Gathering<E>(|x|, rounds);
    Exchanged(n, rounds, init, k, r, s);
    SourceBlock(r, k, n);
    if Lo(r, k) < Lo(s, k) { HalfBounds(r, s, k, n); } else { HalfBounds(s, r, k, n); }
    FilledIn(x, InStep(a, init, k, r), InStep(a, init, k, s), InStep(a, init, k + 1, r), Lo(s, k), Hi(s, k, n),
             Lo(r, k), Hi(r, k, n));
  }

  // Whatever the interleaving, a participant that is through all rounds has all slots.
  lemma AllgatherCorrect<E(!new)>(x: seq<E>, init: seq<seq<E>>, rounds: nat, run: seq<State<seq<E>, seq<E>>>, r: nat)
    requires OwnSlots(x, init) && 0 < |x| <= Pow2(rounds)
    requires Run(Gathering(|x|, rounds), init, run) && r < |x|
    ensures var s := run[|run| - 1]; |s.round| == |x| == |s.local|
    ensures var s := run[|run| - 1]; s.round[r] == rounds ==> s.local[r] == x
  {
    EveryRunInStep(Gathering(|x|, rounds), init, run);
    HasBlock(x, init, rounds, rounds, r);
    WholeBlock(r, rounds);
  }

  // ------------------------------------------------------------------ one participant's round

  datatype GatherPlan = GatherPlan(plan: Plan, sendOffset: nat, sendCount: nat, recvOffset: nat, recvCount: nat)

  method PlanGather(trial: array<int>, me: nat, n: nat, np: nat, ghost k: nat, ghost rounds: nat)
    returns (g: GatherPlan)
    requires me < n <= trial.Length == Pow2(rounds) && k < rounds && np == Pow2(k)
    requires forall i :: 0 <= i < trial.Length ==> trial[i] == Trial(n, k, i)
    ensures g.plan == Plan(Source(me, k, n), Dests(me, k, n, Pow2(rounds)))
    ensures g.sendOffset == Lo(me, k) && g.sendCount == Hi(me, k, n) - Lo(me, k)
    ensures g.plan.source.Some? ==>
      var s := g.plan.source.value; g.recvOffset == Lo(s, k) && g.recvCount == Hi(s, k, n) - Lo(s, k)
  {
    var plan := PlanRound(trial, me, n, np, k, rounds);
    g := GatherPlan(plan, Offset(me, np), SendCount(me, np, n), ReceiveOffset(me, np, n), ReceiveCount(me, np, n));
    InOwnBlock(me, k);
    CountIsBlock(me, k, n);
    if plan.source.Some? { CountsAgree(me, plan.source.value, k, n); }
  }
}
