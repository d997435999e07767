/**
 The communication pattern of Exchange.dfy run asynchronously, over every interleaving.

 `pay` is what a participant sends, given its local data; `absorb` is what it makes of what
 it receives.  Messages carry the round they belong to, but a receiver that waits for a
 message takes any message from the right sender.
 */
module ExchangeRuns {
  import opened Binary
  import opened Common
  import opened Exchange

  datatype Algo<!L, !P> = Algo(n: nat, rounds: nat, pay: (nat, nat, L) -> P, absorb: (nat, nat, L, P) -> L)
  {
    ghost predicate Sized() { 0 < n <= Pow2(rounds) }

    ghost function Targets(r: nat, k: nat): seq<nat>
      requires Sized()
    {
      Dests(r, k, n, Pow2(rounds))
    }
  }

  // What participant r holds when everyone has gone through k rounds in step.
  ghost function InStep<L, P>(a: Algo<L, P>, init: seq<L>, k: nat, r: nat): L
    requires a.Sized() && |init| == a.n && r < a.n
    decreases k
  {
    if k == 0 then init[r] else
      match Source(r, k - 1, a.n)
      case None => InStep(a, init, k - 1, r)
      case Some(s) =>
        a.absorb(k - 1, r, InStep(a, init, k - 1, r), a.pay(k - 1, s, InStep(a, init, k - 1, s)))
  }

  // A message in transit, by sender, receiver and round.
  datatype Key = Key(src: nat, dst: nat, round: nat)

  // Participant r is in round round[r], has sent the first sent[r] of its messages of that
  // round, and holds local[r].
  datatype State<L, P> = State(round: seq<nat>, sent: seq<nat>, local: seq<L>, net: map<Key, P>)

  ghost predicate Shaped<L, P>(a: Algo<L, P>, s: State<L, P>)
  {
    |s.round| == a.n && |s.sent| == a.n && |s.local| == a.n
  }

  ghost predicate Init<L, P>(a: Algo<L, P>, init: seq<L>, s: State<L, P>)
  {
    && Shaped(a, s) && s.local == init && s.net == map[]
    && forall r :: 0 <= r < a.n ==> s.round[r] == 0 && s.sent[r] == 0
  }

  ghost predicate Send<L, P>(a: Algo<L, P>, s: State<L, P>, t: State<L, P>, r: nat)
  {
    && a.Sized() && Shaped(a, s) && r < a.n && s.round[r] < a.rounds
    && s.sent[r] < |a.Targets(r, s.round[r])|
    && var k, d := s.round[r], a.Targets(r, s.round[r])[s.sent[r]];
       t == s.(sent := s.sent[r := s.sent[r] + 1], net := s.net[Key(r, d, k) := a.pay(k, r, s.local[r])])
  }

  ghost function Advanced<L, P>(s: State<L, P>, r: nat): State<L, P>
    requires r < |s.round| && r < |s.sent|
  {
    s.(round := s.round[r := s.round[r] + 1], sent := s.sent[r := 0])
  }

  // The end of a round: r has sent everything and takes what it waits for, if anything.
  ghost predicate Receive<L, P>(a: Algo<L, P>, s: State<L, P>, t: State<L, P>, r: nat, m: Key)
  {
    && a.Sized() && Shaped(a, s) && r < a.n && s.round[r] < a.rounds
    && s.sent[r] == |a.Targets(r, s.round[r])|
    && var k := s.round[r];
       match Source(r, k, a.n)
       case None => t == Advanced(s, r)
       case Some(src) =>
         && m in s.net && m.src == src && m.dst == r
         && t == Advanced(s, r).(local := s.local[r := a.absorb(k, r, s.local[r], s.net[m])], net := s.net - {m})
  }

  ghost predicate Next<L(!new), P(!new)>(a: Algo<L, P>, s: State<L, P>, t: State<L, P>)
  {
    (exists r :: Send(a, s, t, r)) || (exists r, m :: Receive(a, s, t, r, m))
  }

  // r has sent its message of round k to d.
  ghost predicate HasSent<L, P>(a: Algo<L, P>, s: State<L, P>, r: nat, d: nat, k: nat)
    requires a.Sized() && Shaped(a, s) && r < a.n
  {
    && k < a.rounds && d in a.Targets(r, k)
    && (k < s.round[r] || (k == s.round[r] && d in a.Targets(r, k)[..Min(s.sent[r], |a.Targets(r, k)|)]))
  }

  ghost function Min(x: nat, y: nat): nat { if x < y then x else y }

  ghost predicate Inv<L, P>(a: Algo<L, P>, init: seq<L>, s: State<L, P>)
  {
    && a.Sized() && |init| == a.n && Shaped(a, s)
    && (forall r :: 0 <= r < a.n ==> RankOk(a, init, s, r))
    && (forall m :: m in s.net ==> MessageOk(a, init, s, m))
    && (forall r, d, k :: 0 <= r < a.n && 0 <= d < a.n && 0 <= k && HasSent(a, s, r, d, k) && s.round[d] <= k
          ==> Key(r, d, k) in s.net)
    && (forall r, k :: 0 <= r < a.n && 0 <= k < s.round[r] && Source(r, k, a.n).Some?
          ==> HasSent(a, s, Source(r, k, a.n).value, r, k))
  }

  ghost predicate RankOk<L, P>(a: Algo<L, P>, init: seq<L>, s: State<L, P>, r: nat)
    requires a.Sized() && |init| == a.n && Shaped(a, s) && r < a.n
  {
    && s.round[r] <= a.rounds
    && s.sent[r] <= (if s.round[r] < a.rounds then |a.Targets(r, s.round[r])| else 0)
    && s.local[r] == InStep(a, init, s.round[r], r)
  }

  ghost predicate MessageOk<L, P>(a: Algo<L, P>, init: seq<L>, s: State<L, P>, m: Key)
    requires a.Sized() && |init| == a.n && Shaped(a, s) && m in s.net
  {
    && m.src < a.n && m.dst < a.n && HasSent(a, s, m.src, m.dst, m.round) && s.round[m.dst] <= m.round
    && s.net[m] == a.pay(m.round, m.src, InStep(a, init, m.round, m.src))
  }

  lemma InitInv<L, P>(a: Algo<L, P>, init: seq<L>, s: State<L, P>)
    requires a.Sized() && |init| == a.n && Init(a, init, s)
    ensures Inv(a, init, s)
  {
  }

  lemma TargetsInRange<L, P>(a: Algo<L, P>, r: nat, k: nat)
    requires a.Sized() && r < a.n
    ensures forall d :: d in a.Targets(r, k) ==> d < a.n
    ensures k < a.rounds ==> NoRepeats(a.Targets(r, k))
  {
    forall d | d in a.Targets(r, k) ensures d < a.n {
      SubstitutedAre(a.n, k, a.n, Pow2(a.rounds), d);
    }
    if k < a.rounds { SendsMatchReceives(r, r, k, a.n, a.rounds); }
  }

  // r is one of src's targets in round k exactly when it waits for src.
  lemma TargetWaits<L, P>(a: Algo<L, P>, src: nat, r: nat, k: nat)
    requires a.Sized() && src < a.n && r < a.n && k < a.rounds
    ensures r in a.Targets(src, k) <==> Source(r, k, a.n) == Some(src)
  {
    SendsMatchReceives(r, src, k, a.n, a.rounds);
  }

  // ------------------------------------------------------------------ sending

  lemma SentOneMore<L, P>(a: Algo<L, P>, s: State<L, P>, t: State<L, P>, r: nat, q: nat, d: nat, k: nat)
    requires Send(a, s, t, r) && q < a.n
    ensures HasSent(a, t, q, d, k) <==>
              HasSent(a, s, q, d, k) || (q == r && k == s.round[r] && d == a.Targets(r, k)[s.sent[r]])
  {
    if q == r && k == s.round[r] {
      var x, i := a.Targets(r, k), s.sent[r];
      assert x[..i + 1] == x[..i] + [x[i]];
    }
  }

  // A message from r to a later target is under way only if it is of the same round.
  lemma SameRound<L, P>(a: Algo<L, P>, init: seq<L>, s: State<L, P>, r: nat, d: nat, k: nat, j: nat)
    requires Inv(a, init, s) && r < a.n && d < a.n && Source(d, k, a.n) == Some(r) && Key(r, d, j) in s.net
    ensures j == k && HasSent(a, s, r, d, j)
  {
    assert MessageOk(a, init, s, Key(r, d, j));
    TargetWaits(a, r, d, j);
    PairMeetsOnce(d, r, j, k, a.n);
  }

  // No message in transit is overwritten or overtaken: nothing at all from r to its target
  // is under way, of whatever round.
  lemma NothingUnderWay<L, P>(a: Algo<L, P>, init: seq<L>, s: State<L, P>, t: State<L, P>, r: nat)
    requires Inv(a, init, s) && Send(a, s, t, r)
    ensures var k, d := s.round[r], a.Targets(r, s.round[r])[s.sent[r]];
      d < a.n && s.round[d] <= k && !HasSent(a, s, r, d, k) && forall j :: Key(r, d, j) !in s.net
  {
    var k, d := s.round[r], a.Targets(r, s.round[r])[s.sent[r]];
    TargetsInRange(a, r, k);
    assert d in a.Targets(r, k);
    TargetWaits(a, r, d, k);
    assert !HasSent(a, s, r, d, k);
    forall j: nat ensures Key(r, d, j) !in s.net {
      if Key(r, d, j) in s.net { SameRound(a, init, s, r, d, k, j); }
    }
  }

  lemma SendInv<L, P>(a: Algo<L, P>, init: seq<L>, s: State<L, P>, t: State<L, P>, r: nat)
    requires Inv(a, init, s) && Send(a, s, t, r)
    ensures Inv(a, init, t)
  {
    var k, d := s.round[r], a.Targets(r, s.round[r])[s.sent[r]];
    NothingUnderWay(a, init, s, t, r);
    assert RankOk(a, init, s, r);
    forall q, e, j | 0 <= q < a.n && 0 <= j
      ensures HasSent(a, t, q, e, j) <==> HasSent(a, s, q, e, j) || (q == r && j == k && e == d)
    {
      SentOneMore(a, s, t, r, q, e, j);
    }
    forall m | m in t.net ensures MessageOk(a, init, t, m) {
      if m != Key(r, d, k) { assert MessageOk(a, init, s, m); }
    }
    forall q | 0 <= q < a.n ensures RankOk(a, init, t, q) {
      assert RankOk(a, init, s, q);
    }
  }

  // ------------------------------------------------------------------ receiving

  lemma SentAfterAdvance<L, P>(a: Algo<L, P>, s: State<L, P>, t: State<L, P>, r: nat, q: nat, d: nat, k: nat)
    requires a.Sized() && Shaped(a, s) && Shaped(a, t) && r < a.n && q < a.n && s.round[r] < a.rounds
    requires s.sent[r] == |a.Targets(r, s.round[r])|
    requires t.round == s.round[r := s.round[r] + 1] && t.sent == s.sent[r := 0]
    ensures HasSent(a, t, q, d, k) <==> HasSent(a, s, q, d, k)
  {
    if q == r && k == s.round[r] {
      var x := a.Targets(r, k);
      assert x[..|x|] == x;
    }
  }

  // Whatever message from the right sender is there, it is the one of this round.
  lemma RightMessage<L, P>(a: Algo<L, P>, init: seq<L>, s: State<L, P>, r: nat, m: Key)
    requires Inv(a, init, s) && r < a.n && s.round[r] < a.rounds && m in s.net && m.dst == r
    requires Source(r, s.round[r], a.n) == Some(m.src)
    ensures m == Key(m.src, r, s.round[r]) && m.src < a.n
    ensures s.net[m] == a.pay(m.round, m.src, InStep(a, init, m.round, m.src))
  {
    assert MessageOk(a, init, s, m);
    TargetWaits(a, m.src, r, m.round);
    PairMeetsOnce(r, m.src, m.round, s.round[r], a.n);
  }

  lemma OtherMessages<L, P>(a: Algo<L, P>, init: seq<L>, s: State<L, P>, r: nat, m: Key)
    requires Inv(a, init, s) && r < a.n && s.round[r] < a.rounds && m in s.net && m.dst == r && m.round <= s.round[r]
    ensures m.round == s.round[r] && Source(r, s.round[r], a.n) == Some(m.src)
  {
    assert MessageOk(a, init, s, m);
    TargetWaits(a, m.src, r, m.round);
  }

  lemma ReceivedInStep<L, P>(a: Algo<L, P>, init: seq<L>, s: State<L, P>, t: State<L, P>, r: nat, m: Key)
    requires Inv(a, init, s) && Receive(a, s, t, r, m)
    ensures |t.local| == a.n && t.local[r] == InStep(a, init, s.round[r] + 1, r)
  {
    assert RankOk(a, init, s, r);
    if Source(r, s.round[r], a.n).Some? { RightMessage(a, init, s, r, m); }
  }

  lemma ReceiveRanks<L, P>(a: Algo<L, P>, init: seq<L>, s: State<L, P>, t: State<L, P>, r: nat, m: Key)
    requires Inv(a, init, s) && Receive(a, s, t, r, m)
    ensures forall q :: 0 <= q < a.n ==> RankOk(a, init, t, q)
  {
    ReceivedInStep(a, init, s, t, r, m);
    assert forall q :: 0 <= q < a.n && q != r ==>
      t.round[q] == s.round[q] && t.sent[q] == s.sent[q] && t.local[q] == s.local[q];
    forall q | 0 <= q < a.n ensures RankOk(a, init, t, q) {
      assert RankOk(a, init, s, q);
    }
  }

  lemma NotTheOneTaken<L, P>(a: Algo<L, P>, init: seq<L>, s: State<L, P>, t: State<L, P>, r: nat, m: Key, x: Key)
    requires Inv(a, init, s) && Receive(a, s, t, r, m) && x in s.net && x.dst == r && x.round <= s.round[r]
    ensures x !in t.net
  {
    OtherMessages(a, init, s, r, x);
    RightMessage(a, init, s, r, m);
    assert x == m;
  }

  lemma StillUnderWay<L, P>(a: Algo<L, P>, init: seq<L>, s: State<L, P>, t: State<L, P>, r: nat, m: Key, x: Key)
    requires |init| == a.n && Receive(a, s, t, r, m) && x in s.net && x in t.net && MessageOk(a, init, s, x)
    requires x.dst == r ==> s.round[r] < x.round
    ensures Shaped(a, t) && MessageOk(a, init, t, x)
  {
    SentAfterAdvance(a, s, t, r, x.src, x.dst, x.round);
  }

  lemma StillThere<L, P>(a: Algo<L, P>, init: seq<L>, s: State<L, P>, t: State<L, P>, r: nat, m: Key, x: Key)
    requires Inv(a, init, s) && Receive(a, s, t, r, m) && x.src < a.n && x.dst < a.n
    requires HasSent(a, s, x.src, x.dst, x.round) && t.round[x.dst] <= x.round
    ensures x in t.net
  {
    assert Key(x.src, x.dst, x.round) == x && x in s.net;
    if Source(r, s.round[r], a.n).Some? { RightMessage(a, init, s, r, m); }
  }

  lemma ReceiveInv<L, P>(a: Algo<L, P>, init: seq<L>, s: State<L, P>, t: State<L, P>, r: nat, m: Key)
    requires Inv(a, init, s) && Receive(a, s, t, r, m)
    ensures Inv(a, init, t)
  {
    ReceiveRanks(a, init, s, t, r, m);
    forall q, d, j | 0 <= q < a.n && 0 <= j ensures HasSent(a, t, q, d, j) <==> HasSent(a, s, q, d, j) {
      SentAfterAdvance(a, s, t, r, q, d, j);
    }
    forall x | x in t.net ensures MessageOk(a, init, t, x) {
      assert x in s.net && MessageOk(a, init, s, x);
      if x.dst == r && x.round <= s.round[r] { NotTheOneTaken(a, init, s, t, r, m, x); }
      StillUnderWay(a, init, s, t, r, m, x);
    }
    forall q, d, j | 0 <= q < a.n && 0 <= d < a.n && 0 <= j && HasSent(a, s, q, d, j) && t.round[d] <= j
      ensures Key(q, d, j) in t.net
    {
      StillThere(a, init, s, t, r, m, Key(q, d, j));
    }
    if Source(r, s.round[r], a.n).Some? { RightMessage(a, init, s, r, m); }
  }

  // ------------------------------------------------------------------ runs

  ghost predicate Run<L(!new), P(!new)>(a: Algo<L, P>, init: seq<L>, run: seq<State<L, P>>)
  {
    && a.Sized() && |init| == a.n && |run| > 0 && Init(a, init, run[0])
    && forall i :: 0 <= i < |run| - 1 ==> Next(a, run[i], run[i + 1])
  }

  ghost predicate AllInStep<L, P>(a: Algo<L, P>, init: seq<L>, s: State<L, P>)
    requires a.Sized() && |init| == a.n && Shaped(a, s)
  {
    forall r :: 0 <= r < a.n ==> s.round[r] <= a.rounds && s.local[r] == InStep(a, init, s.round[r], r)
  }

  lemma {:induction false} RunInv<L(!new), P(!new)>(a: Algo<L, P>, init: seq<L>, run: seq<State<L, P>>)
    requires Run(a, init, run)
    ensures Inv(a, init, run[|run| - 1])
    decreases |run|
  {
    if |run| == 1 {
      InitInv(a, init, run[0]);
    } else {
      var last := |run| - 1;
      RunInv(a, init, run[..last]);
      NextInv(a, init, run[last - 1], run[last]);
    }
  }

  lemma NextInv<L(!new), P(!new)>(a: Algo<L, P>, init: seq<L>, s: State<L, P>, t: State<L, P>)
    requires Inv(a, init, s) && Next(a, s, t)
    ensures Inv(a, init, t)
  {
    if r :| Send(a, s, t, r) {
      SendInv(a, init, s, t, r);
    } else {
      var r, m :| Receive(a, s, t, r, m);
      ReceiveInv(a, init, s, t, r, m);
    }
  }

  // Over every interleaving, what a participant holds in round k is what it would hold if
  // all went through the rounds in step.
  lemma EveryRunInStep<L(!new), P(!new)>(a: Algo<L, P>, init: seq<L>, run: seq<State<L, P>>)
    requires Run(a, init, run)
    ensures Shaped(a, run[|run| - 1]) && AllInStep(a, init, run[|run| - 1])
  {
    RunInv(a, init, run);
    var s := run[|run| - 1];
    forall r | 0 <= r < a.n ensures s.round[r] <= a.rounds && s.local[r] == InStep(a, init, s.round[r], r) {
      assert RankOk(a, init, s, r);
    }
  }

  // ------------------------------------------------------------------ progress

  ghost predicate Finished<L, P>(a: Algo<L, P>, s: State<L, P>)
    requires Shaped(a, s)
  {
    forall r :: 0 <= r < a.n ==> s.round[r] == a.rounds
  }

  lemma LowestRound(round: seq<nat>, r: nat) returns (q: nat)
    requires r < |round|
    ensures q < |round| && (forall i :: 0 <= i < |round| ==> round[q] <= round[i])
  {
    q := 0;
    var i := 1;
    while i < |round|
      invariant 1 <= i <= |round| && q < i
      invariant forall j :: 0 <= j < i ==> round[q] <= round[j]
    {
      if round[i] < round[q] { q := i; }
      i := i + 1;
    }
  }

  lemma CanSend<L(!new), P(!new)>(a: Algo<L, P>, s: State<L, P>, r: nat)
    requires a.Sized() && Shaped(a, s) && r < a.n && s.round[r] < a.rounds && s.sent[r] < |a.Targets(r, s.round[r])|
    ensures exists t :: Next(a, s, t)
  {
    var k, d := s.round[r], a.Targets(r, s.round[r])[s.sent[r]];
    var t := s.(sent := s.sent[r := s.sent[r] + 1], net := s.net[Key(r, d, k) := a.pay(k, r, s.local[r])]);
    assert Send(a, s, t, r);
    assert Next(a, s, t);
  }

  lemma CanReceive<L(!new), P(!new)>(a: Algo<L, P>, s: State<L, P>, r: nat, m: Key)
    requires a.Sized() && Shaped(a, s) && r < a.n && s.round[r] < a.rounds && s.sent[r] == |a.Targets(r, s.round[r])|
    requires Source(r, s.round[r], a.n).Some? ==> m in s.net && m.src == Source(r, s.round[r], a.n).value && m.dst == r
    ensures exists t :: Next(a, s, t)
  {
    var k := s.round[r];
    var t := if Source(r, k, a.n).None? then Advanced(s, r) else
      Advanced(s, r).(local := s.local[r := a.absorb(k, r, s.local[r], s.net[m])], net := s.net - {m});
    assert Receive(a, s, t, r, m);
    assert Next(a, s, t);
  }

  // No run gets stuck before everyone is through all rounds.
  lemma NeverStuck<L(!new), P(!new)>(a: Algo<L, P>, init: seq<L>, s: State<L, P>)
    requires Inv(a, init, s) && !Finished(a, s)
    ensures exists t :: Next(a, s, t)
  {
    var r := LowestRound(s.round, 0);
    var k := s.round[r];
    assert k < a.rounds by {
      var q :| 0 <= q < a.n && s.round[q] != a.rounds;
      assert RankOk(a, init, s, q);
    }
    assert RankOk(a, init, s, r);
    if s.sent[r] < |a.Targets(r, k)| {
      CanSend(a, s, r);
    } else if Source(r, k, a.n).None? {
      CanReceive(a, s, r, Key(r, r, k));
    } else {
      var src := Source(r, k, a.n).value;
      TargetWaits(a, src, r, k);
      assert RankOk(a, init, s, src);
      if s.round[src] == k && s.sent[src] < |a.Targets(src, k)| {
        CanSend(a, s, src);
      } else {
        var x := a.Targets(src, k);
        assert x[..|x|] == x;
        assert HasSent(a, s, src, r, k);
        CanReceive(a, s, r, Key(src, r, k));
      }
    }
  }

  // The steps participant r takes from round k on.
  ghost function Steps<L, P>(a: Algo<L, P>, r: nat, k: nat): nat
    requires a.Sized()
    decreases a.rounds - k
  {
    if k >= a.rounds then 0 else |a.Targets(r, k)| + 1 + Steps(a, r, k + 1)
  }

  // The steps the first m participants have still to take.
  ghost function Todo<L, P>(a: Algo<L, P>, s: State<L, P>, m: nat): int
    requires a.Sized() && Shaped(a, s) && m <= a.n
  {
    if m == 0 then 0 else Todo(a, s, m - 1) + Steps(a, m - 1, s.round[m - 1]) - s.sent[m - 1]
  }

  ghost predicate OneStep<L, P>(a: Algo<L, P>, s: State<L, P>, t: State<L, P>, r: nat)
    requires a.Sized() && Shaped(a, s) && Shaped(a, t)
  {
    && r < a.n && Steps(a, r, t.round[r]) - t.sent[r] == Steps(a, r, s.round[r]) - s.sent[r] - 1
    && forall q :: 0 <= q < a.n && q != r ==> t.round[q] == s.round[q] && t.sent[q] == s.sent[q]
  }

  lemma {:induction false} OneLess<L, P>(a: Algo<L, P>, s: State<L, P>, t: State<L, P>, r: nat, m: nat)
    requires a.Sized() && Shaped(a, s) && Shaped(a, t) && m <= a.n && OneStep(a, s, t, r)
    ensures Todo(a, t, m) == Todo(a, s, m) - if r < m then 1 else 0
  {
    if m == 0 {
    } else {
      OneLess(a, s, t, r, m - 1);
    }
  }

  lemma SendCounts<L, P>(a: Algo<L, P>, s: State<L, P>, t: State<L, P>, r: nat)
    requires Send(a, s, t, r)
    ensures a.Sized() && Shaped(a, s) && Shaped(a, t) && OneStep(a, s, t, r)
  {
  }

  lemma ReceiveCounts<L, P>(a: Algo<L, P>, s: State<L, P>, t: State<L, P>, r: nat, m: Key)
    requires Receive(a, s, t, r, m)
    ensures a.Sized() && Shaped(a, s) && Shaped(a, t) && OneStep(a, s, t, r)
  {
    assert Steps(a, r, s.round[r]) == |a.Targets(r, s.round[r])| + 1 + Steps(a, r, s.round[r] + 1);
  }

  lemma StepCounts<L(!new), P(!new)>(a: Algo<L, P>, s: State<L, P>, t: State<L, P>)
    requires Next(a, s, t)
    ensures a.Sized() && Shaped(a, s) && Shaped(a, t) && Todo(a, t, a.n) == Todo(a, s, a.n) - 1
  {
    if r: nat :| Send(a, s, t, r) {
      SendCounts(a, s, t, r);
      OneLess(a, s, t, r, a.n);
    } else {
      var r: nat, m: Key :| Receive(a, s, t, r, m);
      ReceiveCounts(a, s, t, r, m);
      OneLess(a, s, t, r, a.n);
    }
  }

  lemma {:induction false} TodoNothing<L, P>(a: Algo<L, P>, init: seq<L>, s: State<L, P>, m: nat)
    requires Inv(a, init, s) && m <= a.n
    ensures Todo(a, s, m) >= 0
    ensures Todo(a, s, m) == 0 <==> forall r :: 0 <= r < m ==> s.round[r] == a.rounds
  {
    if m == 0 {
    } else {
      TodoNothing(a, init, s, m - 1);
      assert RankOk(a, init, s, m - 1);
    }
  }

  // Every run comes to an end: it has as many steps as the participants have sends and
  // rounds, and when these are taken, and only then, everyone is through.
  lemma {:induction false} EveryRunEnds<L(!new), P(!new)>(a: Algo<L, P>, init: seq<L>, run: seq<State<L, P>>)
    requires Run(a, init, run)
    ensures Shaped(a, run[0]) && Shaped(a, run[|run| - 1])
    ensures |run| - 1 <= Todo(a, run[0], a.n)
    ensures |run| - 1 == Todo(a, run[0], a.n) <==> Finished(a, run[|run| - 1])
  {
    RunInv(a, init, run);
    TodoNothing(a, init, run[|run| - 1], a.n);
    RunCounts(a, init, run);
  }

  lemma {:induction false} RunCounts<L(!new), P(!new)>(a: Algo<L, P>, init: seq<L>, run: seq<State<L, P>>)
    requires Run(a, init, run)
    ensures Shaped(a, run[0]) && Shaped(a, run[|run| - 1])
    ensures Todo(a, run[|run| - 1], a.n) == Todo(a, run[0], a.n) - (|run| - 1)
    decreases |run|
  {
    if |run| == 1 {
    } else {
      var last := |run| - 1;
      RunCounts(a, init, run[..last]);
      StepCounts(a, run[last - 1], run[last]);
    }
  }
}
