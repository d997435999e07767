/**
 MP_Win_fence (MP_Lite/tcp.c): n processes that put data into each other's windows and
 call fences together.  A fence sends a flag to every other process behind the puts, over
 the same ordered connection, and waits for a flag from each.  Sends, arrivals, looks at a
 flag and resets interleave in any order.
 */
module Fence {

  datatype Item<V> = Put(value: V) | Flag(index: int)

  // Outside a fence; about to put a flag to process i; about to look at the flag of i; has
  // seen it and is about to reset it.
  datatype Pc = Outside | Sending(i: nat) | Waiting(i: nat) | Resetting(i: nat)

  datatype Process = Process(pc: Pc, index: int, fences: nat)

  // What one process has put to another so far, how much of that has arrived, and which of
  // the two cells of procs[i] at the target hold the flag.
  datatype Link<V> = Link(sent: seq<Item<V>>, arrived: nat, cells: set<int>)

  datatype State<V> = State(p: seq<Process>, link: map<(nat, nat), Link<V>>)

  // ------------------------------------------------------------------ steps

  ghost predicate Shaped<V>(n: nat, s: State<V>)
  {
    |s.p| == n && forall i: nat, j: nat :: i < n && j < n && i != j ==> (i, j) in s.link
  }

  ghost predicate PutTo<V>(n: nat, s: State<V>, t: State<V>, q: nat, j: nat, v: V)
  {
    && Shaped(n, s) && q < n && j < n && q != j && s.p[q].pc == Outside
    && t == s.(link := s.link[(q, j) := s.link[(q, j)].(sent := s.link[(q, j)].sent + [Put(v)])])
  }

  ghost predicate Arrive<V>(n: nat, s: State<V>, t: State<V>, i: nat, j: nat)
  {
    && Shaped(n, s) && i < n && j < n && i != j && s.link[(i, j)].arrived < |s.link[(i, j)].sent|
    && t == s.(link := s.link[(i, j) := Arrived(s.link[(i, j)])])
  }

  function Arrived<V>(l: Link<V>): Link<V>
    requires l.arrived < |l.sent|
  {
    var item := l.sent[l.arrived];
    l.(arrived := l.arrived + 1, cells := if item.Flag? then l.cells + {item.index} else l.cells)
  }

  function Next(n: nat, x: Process, pc: Pc): Process
  {
    if pc.Sending? && pc.i == n then x.(pc := Waiting(0))
    else if pc.Waiting? && pc.i == n then Process(Outside, 1 - x.index, x.fences + 1)
    else x.(pc := pc)
  }

  // Process q is not waiting for a flag in vain.
  ghost predicate Ready<V>(n: nat, s: State<V>, q: nat)
  {
    && Shaped(n, s) && q < n
    && match s.p[q].pc
       case Outside => true
       case Sending(i) => i < n
       case Waiting(i) => i < n && (i == q || s.p[q].index in s.link[(i, q)].cells)
       case Resetting(i) => i < n && i != q
  }

  // One step of process q in a fence, or into one.
  ghost function Go<V>(n: nat, s: State<V>, q: nat): State<V>
    requires Ready(n, s, q)
  {
    var x := s.p[q];
    match x.pc
    case Outside => s.(p := s.p[q := x.(pc := Sending(0))])
    case Sending(i) =>
      State(s.p[q := Next(n, x, Sending(i + 1))],
            if i == q then s.link
            else s.link[(q, i) := s.link[(q, i)].(sent := s.link[(q, i)].sent + [Flag(x.index)])])
    case Waiting(i) => s.(p := s.p[q := if i == q then Next(n, x, Waiting(i + 1)) else x.(pc := Resetting(i))])
    case Resetting(i) =>
      State(s.p[q := Next(n, x, Waiting(i + 1))],
            s.link[(i, q) := s.link[(i, q)].(cells := s.link[(i, q)].cells - {x.index})])
  }

  ghost predicate Advance<V>(n: nat, s: State<V>, t: State<V>, q: nat)
  {
    Ready(n, s, q) && t == Go(n, s, q)
  }

  // ------------------------------------------------------------------ counting flags

  function Flags<V>(sent: seq<Item<V>>): (k: nat)
  {
    if sent == [] then 0 else Flags(sent[..|sent| - 1]) + if sent[|sent| - 1].Flag? then 1 else 0
  }

  lemma FlagsAppend<V>(sent: seq<Item<V>>, item: Item<V>)
    ensures Flags(sent + [item]) == Flags(sent) + if item.Flag? then 1 else 0
  {
    assert (sent + [item])[..|sent|] == sent;
  }

  lemma FlagsStep<V>(sent: seq<Item<V>>, m: nat)
    requires m < |sent|
    ensures Flags(sent[..m + 1]) == Flags(sent[..m]) + if sent[m].Flag? then 1 else 0
  {
    assert sent[..m + 1] == sent[..m] + [sent[m]];
    FlagsAppend(sent[..m], sent[m]);
  }

  lemma {:induction false} FlagsMono<V>(sent: seq<Item<V>>, m: nat, k: nat)
    requires m <= k <= |sent|
    ensures Flags(sent[..m]) <= Flags(sent[..k])
    decreases k
  {
    if m == k {
    } else {
      FlagsMono(sent, m, k - 1);
      FlagsStep(sent, k - 1);
    }
  }

  // ------------------------------------------------------------------ invariant

  // How many flags x has put to j, and how many flags of i it has reset.
  function SentTo(x: Process, j: nat): nat
  {
    x.fences + if x.pc.Waiting? || x.pc.Resetting? || (x.pc.Sending? && j < x.pc.i) then 1 else 0
  }

  function TakenFrom(x: Process, i: nat): nat
  {
    x.fences + if (x.pc.Waiting? || x.pc.Resetting?) && i < x.pc.i then 1 else 0
  }

  // With c flags reset out of d that have arrived, these cells hold one.
  ghost predicate CellsOk(cells: set<int>, c: nat, d: nat)
  {
    c <= d <= c + 2 && forall x :: x in cells <==> (c < d && x == c % 2) || (c + 1 < d && x == (c + 1) % 2)
  }

  // The flags put to a process alternate between its two cells.
  ghost predicate Alternate<V>(sent: seq<Item<V>>)
  {
    forall k :: 0 <= k < |sent| && sent[k].Flag? ==> sent[k].index == Flags(sent[..k]) % 2
  }

  ghost predicate Own(n: nat, x: Process)
  {
    x.index == x.fences % 2 && (x.pc.Outside? || x.pc.i < n)
  }

  ghost predicate Pair<V>(l: Link<V>, x: Process, i: nat, y: Process, j: nat)
  {
    && l.arrived <= |l.sent| && Alternate(l.sent) && Flags(l.sent) == SentTo(x, j)
    && CellsOk(l.cells, TakenFrom(y, i), Flags(l.sent[..l.arrived]))
    && (y.pc == Resetting(i) ==> y.index in l.cells)
  }

  ghost predicate Inv<V>(n: nat, s: State<V>)
  {
    && Shaped(n, s) && (forall q :: 0 <= q < n ==> Own(n, s.p[q]))
    && (forall q :: 0 <= q < n ==> s.p[q].pc != Resetting(q))
    && forall i: nat, j: nat :: i < n && j < n && i != j ==> Pair(s.link[(i, j)], s.p[i], i, s.p[j], j)
  }

  // A process is never more than one fence ahead of another, so that the flags on their way
  // to a process and in its cells are at most two.
  lemma AtMostTwo<V>(n: nat, s: State<V>, i: nat, j: nat)
    requires Inv(n, s) && i < n && j < n && i != j
    ensures s.p[i].fences <= s.p[j].fences + 1
    ensures SentTo(s.p[i], j) <= TakenFrom(s.p[j], i) + 2
  {
    var back := s.link[(j, i)];
    assert Pair(back, s.p[j], j, s.p[i], i);
    FlagsBelow(back.sent, back.arrived);
  }

  lemma FlagsBelow<V>(sent: seq<Item<V>>, m: nat)
    requires m <= |sent|
    ensures Flags(sent[..m]) <= Flags(sent)
  {
    FlagsMono(sent, m, |sent|);
    assert sent[..|sent|] == sent;
  }

  lemma CellFree(cells: set<int>, c: nat, d: nat)
    requires CellsOk(cells, c, d) && d < c + 2
    ensures d % 2 !in cells
  {
  }

  // A flag that arrives finds its cell empty: it is the only write until the next reset.
  lemma OneWrite<V>(n: nat, s: State<V>, i: nat, j: nat)
    requires Inv(n, s) && i < n && j < n && i != j
    requires var l := s.link[(i, j)]; l.arrived < |l.sent| && l.sent[l.arrived].Flag?
    ensures var l := s.link[(i, j)]; l.sent[l.arrived].index !in l.cells
    ensures var l := s.link[(i, j)]; Flags(l.sent[..l.arrived + 1]) <= TakenFrom(s.p[j], i) + 2
  {
    var l := s.link[(i, j)];
    AtMostTwo(n, s, i, j);
    FlagsStep(l.sent, l.arrived);
    FlagsBelow(l.sent, l.arrived + 1);
    assert Pair(l, s.p[i], i, s.p[j], j);
    CellFree(l.cells, TakenFrom(s.p[j], i), Flags(l.sent[..l.arrived]));
  }

  // ------------------------------------------------------------------ it is kept

  lemma AlternateAppend<V>(sent: seq<Item<V>>, item: Item<V>)
    requires Alternate(sent) && (item.Flag? ==> item.index == Flags(sent) % 2)
    ensures Alternate(sent + [item])
  {
    var t := sent + [item];
    forall k | 0 <= k < |t| && t[k].Flag? ensures t[k].index == Flags(t[..k]) % 2 {
      assert t[..k] == sent[..k];
      assert sent[..|sent|] == sent;
    }
  }

  lemma PairSends<V>(l: Link<V>, x: Process, x': Process, i: nat, y: Process, j: nat, item: Item<V>)
    requires Pair(l, x, i, y, j) && (item.Flag? ==> item.index == SentTo(x, j) % 2)
    requires SentTo(x', j) == SentTo(x, j) + if item.Flag? then 1 else 0
    ensures Pair(l.(sent := l.sent + [item]), x', i, y, j)
  {
    AlternateAppend(l.sent, item);
    FlagsAppend(l.sent, item);
    assert (l.sent + [item])[..l.arrived] == l.sent[..l.arrived];
  }

  lemma PairArrives<V>(n: nat, s: State<V>, i: nat, j: nat)
    requires Inv(n, s) && i < n && j < n && i != j && s.link[(i, j)].arrived < |s.link[(i, j)].sent|
    ensures Pair(Arrived(s.link[(i, j)]), s.p[i], i, s.p[j], j)
  {
    var l := s.link[(i, j)];
    assert Pair(l, s.p[i], i, s.p[j], j);
    FlagsStep(l.sent, l.arrived);
    if l.sent[l.arrived].Flag? {
      OneWrite(n, s, i, j);
      CellSet(l.cells, TakenFrom(s.p[j], i), Flags(l.sent[..l.arrived]));
    }
  }

  lemma CellSet(cells: set<int>, c: nat, d: nat)
    requires CellsOk(cells, c, d) && d + 1 <= c + 2
    ensures CellsOk(cells + {d % 2}, c, d + 1)
  {
  }

  lemma CellReset(cells: set<int>, c: nat, d: nat)
    requires CellsOk(cells, c, d) && c % 2 in cells
    ensures CellsOk(cells - {c % 2}, c + 1, d)
  {
  }

  lemma PairTakes<V>(l: Link<V>, x: Process, i: nat, y: Process, y': Process, j: nat)
    requires Pair(l, x, i, y, j) && y.pc == Resetting(i) && y.index == TakenFrom(y, i) % 2
    requires TakenFrom(y', i) == TakenFrom(y, i) + 1 && y'.pc != Resetting(i)
    ensures Pair(l.(cells := l.cells - {y.index}), x, i, y', j)
  {
    CellReset(l.cells, TakenFrom(y, i), Flags(l.sent[..l.arrived]));
  }

  lemma PairQuiet<V>(l: Link<V>, x: Process, i: nat, y: Process, y': Process, j: nat)
    requires Pair(l, x, i, y, j) && TakenFrom(y', i) == TakenFrom(y, i)
    requires y'.pc == Resetting(i) ==> y'.index in l.cells
    ensures Pair(l, x, i, y', j)
  {
  }

  lemma PutInv<V>(n: nat, s: State<V>, t: State<V>, q: nat, j: nat, v: V)
    requires Inv(n, s) && PutTo(n, s, t, q, j, v)
    ensures Inv(n, t)
  {
    PairSends(s.link[(q, j)], s.p[q], s.p[q], q, s.p[j], j, Put(v));
  }

  lemma ArriveInv<V>(n: nat, s: State<V>, t: State<V>, i: nat, j: nat)
    requires Inv(n, s) && Arrive(n, s, t, i, j)
    ensures Inv(n, t)
  {
    PairArrives(n, s, i, j);
  }

  lemma AdvanceOwn<V>(n: nat, s: State<V>, t: State<V>, q: nat)
    requires Inv(n, s) && Advance(n, s, t, q)
    ensures Shaped(n, t) && forall r :: 0 <= r < n ==> Own(n, t.p[r]) && t.p[r].pc != Resetting(r)
    ensures forall r :: 0 <= r < n && r != q ==> t.p[r] == s.p[r]
  {
  }

  // q's own side of the link from q to j ...
  lemma AdvanceOut<V>(n: nat, s: State<V>, t: State<V>, q: nat, j: nat)
    requires Inv(n, s) && Advance(n, s, t, q) && j < n && j != q
    ensures (q, j) in t.link && Pair(t.link[(q, j)], t.p[q], q, t.p[j], j)
  {
    AdvanceOwn(n, s, t, q);
    var l := s.link[(q, j)];
    assert Pair(l, s.p[q], q, s.p[j], j);
    if s.p[q].pc == Sending(j) {
      PairSends(l, s.p[q], t.p[q], q, s.p[j], j, Flag(s.p[q].index));
    } else {
      assert t.link[(q, j)] == l;
    }
  }

  // A step of q counts as taking the flag of i only when it resets it.
  lemma TakenStep<V>(n: nat, s: State<V>, q: nat, i: nat)
    requires Ready(n, s, q) && i < n && i != q
    ensures var x, y := s.p[q], Go(n, s, q).p[q];
      && TakenFrom(y, i) == TakenFrom(x, i) + (if x.pc == Resetting(i) then 1 else 0)
      && (y.pc == Resetting(i) ==> x.pc == Waiting(i) && y.index == x.index && x.index in s.link[(i, q)].cells)
  {
  }

  // ... and of the link from i to q.
  lemma AdvanceIn<V>(n: nat, s: State<V>, t: State<V>, i: nat, q: nat)
    requires Inv(n, s) && Advance(n, s, t, q) && i < n && i != q
    ensures (i, q) in t.link && Pair(t.link[(i, q)], t.p[i], i, t.p[q], q)
  {
    AdvanceOwn(n, s, t, q);
    TakenStep(n, s, q, i);
    var l := s.link[(i, q)];
    assert Pair(l, s.p[i], i, s.p[q], q);
    if s.p[q].pc == Resetting(i) {
      PairTakes(l, s.p[i], i, s.p[q], t.p[q], q);
    } else {
      assert t.link[(i, q)] == l;
      PairQuiet(l, s.p[i], i, s.p[q], t.p[q], q);
    }
  }

  lemma AdvanceInv<V>(n: nat, s: State<V>, t: State<V>, q: nat)
    requires Inv(n, s) && Advance(n, s, t, q)
    ensures Inv(n, t)
  {
    AdvanceOwn(n, s, t, q);
    forall i: nat, j: nat | i < n && j < n && i != j ensures Pair(t.link[(i, j)], t.p[i], i, t.p[j], j) {
      if i == q {
        AdvanceOut(n, s, t, q, j);
      } else if j == q {
        AdvanceIn(n, s, t, i, q);
      } else {
        assert t.link[(i, j)] == s.link[(i, j)];
      }
    }
  }

  // ------------------------------------------------------------------ runs

  ghost predicate Init<V>(n: nat, s: State<V>)
  {
    && Shaped(n, s) && (forall q :: 0 <= q < n ==> s.p[q] == Process(Outside, 0, 0))
    && forall i: nat, j: nat :: i < n && j < n && i != j ==> s.link[(i, j)] == Link([], 0, {})
  }

  ghost predicate Puts<V(!new)>(n: nat, s: State<V>, t: State<V>) { exists q, j, v :: PutTo(n, s, t, q, j, v) }

  ghost predicate Arrives<V>(n: nat, s: State<V>, t: State<V>) { exists i, j :: Arrive(n, s, t, i, j) }

  ghost predicate Advances<V>(n: nat, s: State<V>, t: State<V>) { exists q :: Advance(n, s, t, q) }

  ghost predicate Step<V(!new)>(n: nat, s: State<V>, t: State<V>)
  {
    Puts(n, s, t) || Arrives(n, s, t) || Advances(n, s, t)
  }

  ghost predicate Run<V(!new)>(n: nat, run: seq<State<V>>)
  {
    |run| > 0 && Init(n, run[0]) && forall k :: 0 <= k < |run| - 1 ==> Step(n, run[k], run[k + 1])
  }

  lemma InitInv<V>(n: nat, s: State<V>)
    requires Init(n, s)
    ensures Inv(n, s)
  {
  }

  lemma StepInv<V(!new)>(n: nat, s: State<V>, t: State<V>)
    requires Inv(n, s) && Step(n, s, t)
    ensures Inv(n, t)
  {
    if Puts(n, s, t) {
      var q, j, v :| PutTo(n, s, t, q, j, v);
      PutInv(n, s, t, q, j, v);
    } else if Arrives(n, s, t) {
      var i, j :| Arrive(n, s, t, i, j);
      ArriveInv(n, s, t, i, j);
    } else {
      var q :| Advance(n, s, t, q);
      AdvanceInv(n, s, t, q);
    }
  }

  lemma {:induction false} EveryRunInv<V(!new)>(n: nat, run: seq<State<V>>, k: nat)
    requires Run(n, run) && k < |run|
    ensures Inv(n, run[k])
  {
    if k == 0 {
      InitInv(n, run[0]);
    } else {
      EveryRunInv(n, run, k - 1);
      assert Step(n, run[k - 1], run[k - 1 + 1]);
      StepInv(n, run[k - 1], run[k]);
    }
  }

  // Once j has returned from its k-th fence, whatever i put to it before i's own k-th fence
  // has arrived.
  lemma FenceSafe<V(!new)>(n: nat, run: seq<State<V>>, i: nat, j: nat, m: nat)
    requires Run(n, run) && i < n && j < n && i != j
    requires var s := run[|run| - 1]; Shaped(n, s) && m < |s.link[(i, j)].sent|
    requires var s := run[|run| - 1]; Flags(s.link[(i, j)].sent[..m]) < s.p[j].fences
    ensures var s := run[|run| - 1]; m < s.link[(i, j)].arrived
  {
    EveryRunInv(n, run, |run| - 1);
    var s := run[|run| - 1];
    var l := s.link[(i, j)];
    assert Pair(l, s.p[i], i, s.p[j], j);
    if l.arrived <= m {
      FlagsMono(l.sent, l.arrived, m);
    }
  }

  // What is put is put behind the fences of the one who puts it.
  lemma PutBehind<V>(n: nat, s: State<V>, t: State<V>, q: nat, j: nat, v: V)
    requires Inv(n, s) && PutTo(n, s, t, q, j, v)
    ensures var sent := t.link[(q, j)].sent;
      sent[|sent| - 1] == Put(v) && Flags(sent[..|sent| - 1]) == s.p[q].fences
  {
    var l := s.link[(q, j)];
    assert Pair(l, s.p[q], q, s.p[j], j);
    assert t.link[(q, j)].sent[..|l.sent|] == l.sent;
  }

  // ------------------------------------------------------------------ no deadlock

  // How far a process at pc is from returning.
  function ToGo(n: nat, pc: Pc): int
  {
    match pc
    case Outside => 0
    case Sending(i) => 3 * n + 1 - i
    case Waiting(i) => 2 * (n - i)
    case Resetting(i) => 2 * (n - i) - 1
  }

  // q is in a fence, and nearer to its end.
  ghost predicate Brings<V>(n: nat, s: State<V>, t: State<V>, q: nat)
  {
    q < |s.p| && q < |t.p| && s.p[q].pc != Outside && 0 <= ToGo(n, t.p[q].pc) < ToGo(n, s.p[q].pc)
  }

  lemma ReadyBrings<V>(n: nat, s: State<V>, q: nat)
    requires Ready(n, s, q) && s.p[q].pc != Outside
    ensures exists t :: Advance(n, s, t, q) && Brings(n, s, t, q)
  {
    assert Advance(n, s, Go(n, s, q), q) && Brings(n, s, Go(n, s, q), q);
  }

  lemma Fewest<V>(s: State<V>, m: nat) returns (q: nat)
    requires 0 < m <= |s.p|
    ensures q < m && forall r :: 0 <= r < m ==> s.p[q].fences <= s.p[r].fences
  {
    q := 0;
    for k := 1 to m
      invariant q < m && forall r :: 0 <= r < k ==> s.p[q].fences <= s.p[r].fences
    {
      if s.p[k].fences < s.p[q].fences { q := k; }
    }
  }

  // A process that waits for the flag of i, while i is in the same fence or further: the
  // flag is there, or on its way, or about to be sent.
  lemma FlagComes<V>(n: nat, s: State<V>, i: nat, j: nat)
    requires Inv(n, s) && i < n && j < n && i != j && s.p[j].pc == Waiting(i)
    requires SentTo(s.p[i], j) > s.p[j].fences
    ensures s.p[j].index in s.link[(i, j)].cells || s.link[(i, j)].arrived < |s.link[(i, j)].sent|
  {
    var l := s.link[(i, j)];
    assert Pair(l, s.p[i], i, s.p[j], j);
    assert l.sent[..|l.sent|] == l.sent;
  }

  // Nobody is stuck: as long as a process is in a fence, and those that have finished the
  // fewest have all called the next, a message arrives or the step of a process brings it on.
  lemma NoDeadlock<V>(n: nat, s: State<V>, some: nat)
    requires Inv(n, s) && some < n && s.p[some].pc != Outside
    requires forall r :: 0 <= r < n && s.p[r].pc == Outside ==> exists q :: 0 <= q < n && s.p[q].fences < s.p[r].fences
    ensures (exists i, j, t :: Arrive(n, s, t, i, j)) || (exists q, t :: Advance(n, s, t, q) && Brings(n, s, t, q))
  {
    var q := Fewest(s, n);
    if s.p[q].pc.Waiting? && s.p[q].pc.i != q {
      var i := s.p[q].pc.i;
      if s.p[i].pc.Sending? {
        ReadyBrings(n, s, i);
      } else {
        FlagComes(n, s, i, q);
        if s.p[q].index in s.link[(i, q)].cells {
          ReadyBrings(n, s, q);
        } else {
          assert Arrive(n, s, s.(link := s.link[(i, q) := Arrived(s.link[(i, q)])]), i, q);
        }
      }
    } else {
      ReadyBrings(n, s, q);
    }
  }
}
