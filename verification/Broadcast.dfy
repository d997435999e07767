/**
 MP_Bcast_masked (MP_Lite/mpcore.c): a broadcast down a binomial tree.

 Participants are numbered from the root on: the root is 0.
 */
module Broadcast {
  import opened Common
  import opened Binary
  import opened Participants

  // ------------------------------------------------------------------ numbering

  // The participants below n other than the root, in ascending order.
  function Others(mask: seq<int>, root: nat, n: nat): seq<nat>
    requires n <= |mask|
  {
    if n == 0 then [] else
      Others(mask, root, n - 1) + if n - 1 != root && mask[n - 1] == 1 then [n - 1] else []
  }

  lemma {:induction false} OthersAll(mask: seq<int>, root: nat, n: nat, r: nat)
    requires r < n <= |mask| && mask[r] == 1 && r != root
    ensures |Others(mask, root, r)| < |Others(mask, root, n)| && Others(mask, root, n)[|Others(mask, root, r)|] == r
  {
    if r == n - 1 {
    } else {
      OthersAll(mask, root, n - 1, r);
    }
  }

  lemma {:induction false} OthersAscend(mask: seq<int>, root: nat, n: nat)
    requires n <= |mask|
    ensures forall i :: 0 <= i < |Others(mask, root, n)| ==>
      Others(mask, root, n)[i] < n && Others(mask, root, n)[i] != root && mask[Others(mask, root, n)[i]] == 1
    ensures forall i, j :: 0 <= i < j < |Others(mask, root, n)| ==> Others(mask, root, n)[i] < Others(mask, root, n)[j]
  {
    if n == 0 {
    } else {
      OthersAscend(mask, root, n - 1);
    }
  }

  lemma Numbering(mask: seq<int>, root: nat, vproc: seq<nat>)
    requires root < |mask| && vproc == [root] + Others(mask, root, |mask|)
    ensures forall r: nat :: r in vproc <==> r == root || (r < |mask| && mask[r] == 1)
    ensures root !in vproc[1..] && forall i, j :: 0 < i < j < |vproc| ==> vproc[i] < vproc[j]
  {
    var others := Others(mask, root, |mask|);
    OthersAscend(mask, root, |mask|);
    assert vproc[1..] == others;
    forall r: nat ensures r in others <==> r != root && r < |mask| && mask[r] == 1 {
      if r != root && r < |mask| && mask[r] == 1 { OthersAll(mask, root, |mask|, r); }
    }
    forall i, j | 0 < i < j < |vproc| ensures vproc[i] < vproc[j] {
      assert others[i - 1] < others[j - 1];
    }
  }

  method NumberFromRoot(mask: seq<int>, root: nat, myproc: nat) returns (vproc: seq<nat>, myvproc: nat)
    requires myproc < |mask| && mask[myproc] == 1 && root < |mask|
    ensures vproc == [root] + Others(mask, root, |mask|)
    ensures forall r: nat :: r in vproc <==> r == root || (r < |mask| && mask[r] == 1)
    ensures root !in vproc[1..] && forall i, j :: 0 < i < j < |vproc| ==> vproc[i] < vproc[j]
    ensures myvproc < |vproc| && vproc[myvproc] == myproc && (myvproc == 0 <==> myproc == root)
  {
    vproc, myvproc := [root], 0;
    var n := 0;
    while n < |mask|
      invariant 0 <= n <= |mask| && vproc == [root] + Others(mask, root, n)
      invariant myproc == root ==> myvproc == 0
      invariant myproc != root && myproc < n ==> myvproc == 1 + |Others(mask, root, myproc)|
    {
      if n != root {
        if n == myproc { myvproc := |vproc|; }
        if mask[n] == 1 { vproc := vproc + [n]; }
      }
      n := n + 1;
    }
    Numbering(mask, root, vproc);
    if myproc != root { OthersAll(mask, root, |mask|, myproc); }
  }

  // ------------------------------------------------------------------ the tree

  // The position of the lowest set bit.
  function LowExp(v: nat): nat
    requires v > 0
  {
    if v % 2 == 1 then 0 else 1 + LowExp(v / 2)
  }

  lemma {:induction false} LowExpBound(v: nat)
    requires v > 0
    ensures Pow2(LowExp(v)) <= v
  {
    if v % 2 == 1 {
    } else {
      LowExpBound(v / 2);
    }
  }

  // The lowest set bit cleared.
  function Parent(v: nat): (p: nat)
    requires v > 0
    ensures p < v
  {
    LowExpBound(v);
    v - Pow2(LowExp(v))
  }

  // v plus each of 2^(j-1), ..., 2, 1 that stays below n.
  function Kids(v: nat, j: nat, n: nat): seq<nat>
  {
    if j == 0 then [] else (if v + Pow2(j - 1) < n then [v + Pow2(j - 1)] else []) + Kids(v, j - 1, n)
  }

  // How many bits v may add: those below its lowest set bit, or all for the root.
  function Span(v: nat, rounds: nat): nat
  {
    if v == 0 then rounds else LowExp(v)
  }

  function Children(v: nat, n: nat, rounds: nat): seq<nat>
  {
    Kids(v, Span(v, rounds), n)
  }

  lemma {:induction false} LowExpAdd(v: nat, j: nat)
    requires v == 0 || j < LowExp(v)
    ensures LowExp(v + Pow2(j)) == j
    decreases j
  {
    if j == 0 {
    } else {
      LowExpAdd(v / 2, j - 1);
      assert (v + Pow2(j)) / 2 == v / 2 + Pow2(j - 1);
    }
  }

  lemma {:induction false} LowExpClear(c: nat)
    requires c > 0
    ensures Parent(c) == 0 || LowExp(c) < LowExp(Parent(c))
  {
    if c % 2 == 1 {
    } else {
      LowExpClear(c / 2);
      assert Parent(c) == 2 * Parent(c / 2);
    }
  }

  ghost predicate AddsBit(v: nat, j: nat, c: nat)
  {
    exists i :: 0 <= i < j && c == v + Pow2(i)
  }

  lemma AddsBitMore(v: nat, j: nat, c: nat)
    ensures AddsBit(v, j + 1, c) <==> AddsBit(v, j, c) || c == v + Pow2(j)
  {
    if AddsBit(v, j + 1, c) {
      var i :| 0 <= i < j + 1 && c == v + Pow2(i);
      assert i == j || AddsBit(v, j, c);
    }
  }

  lemma {:induction false} KidsAre(v: nat, j: nat, n: nat, c: nat)
    ensures c in Kids(v, j, n) <==> c < n && AddsBit(v, j, c)
  {
    if j == 0 {
    } else {
      KidsAre(v, j - 1, n, c);
      AddsBitMore(v, j - 1, c);
    }
  }

  lemma {:induction false} KidsOnce(v: nat, j: nat, n: nat)
    ensures forall a, b :: 0 <= a < b < |Kids(v, j, n)| ==> Kids(v, j, n)[a] > Kids(v, j, n)[b]
    ensures forall a :: 0 <= a < |Kids(v, j, n)| ==> Kids(v, j, n)[a] < v + Pow2(j)
  {
    if j == 0 {
    } else {
      KidsOnce(v, j - 1, n);
    }
  }

  // The children of v are exactly the participants whose parent is v.
  lemma ChildrenAre(v: nat, c: nat, n: nat, rounds: nat)
    requires v < n <= Pow2(rounds)
    ensures c in Children(v, n, rounds) <==> 0 < c < n && Parent(c) == v
  {
    KidsAre(v, Span(v, rounds), n, c);
    if c in Children(v, n, rounds) {
      var i :| 0 <= i < Span(v, rounds) && c == v + Pow2(i);
      LowExpAdd(v, i);
    }
    if 0 < c < n && Parent(c) == v {
      LowExpClear(c);
      LowExpBound(c);
      Pow2Strict(LowExp(c), rounds);
      assert c == v + Pow2(LowExp(c));
    }
  }

  // In all there are n-1 messages, one to each participant but the root.
  ghost function Edges(n: nat, rounds: nat): set<(nat, nat)>
  {
    set v: nat, c: nat | v < n && c < n && c in Children(v, n, rounds) :: (v, c)
  }

  lemma {:induction false} MessageCount(n: nat, rounds: nat)
    requires 0 < n <= Pow2(rounds)
    ensures |Edges(n, rounds)| == n - 1
  {
    var all := set c: nat | 0 < c < n :: (Parent(c), c);
    forall e ensures e in Edges(n, rounds) <==> e in all {
      if e.0 < n { ChildrenAre(e.0, e.1, n, rounds); }
    }
    assert Edges(n, rounds) == all;
    ParentEdges(n);
  }

  lemma {:induction false} ParentEdges(n: nat)
    requires n > 0
    ensures |set c: nat | 0 < c < n :: (Parent(c), c)| == n - 1
  {
    var all := set c: nat | 0 < c < n :: (Parent(c), c);
    if n == 1 {
      assert all == {};
    } else {
      ParentEdges(n - 1);
      var rest := set c: nat | 0 < c < n - 1 :: (Parent(c), c);
      assert all == rest + {(Parent(n - 1), n - 1)};
    }
  }

  // ------------------------------------------------------------------ one participant

  datatype Op = Await(src: nat) | SendTo(dst: nat)

  function SendsTo(s: seq<nat>): seq<Op>
  {
    if s == [] then [] else [SendTo(s[0])] + SendsTo(s[1..])
  }

  // What participant me does, in order: it waits for its parent, unless it is the root, and
  // then sends to its children.
  ghost function Script(me: nat, n: nat, rounds: nat): seq<Op>
  {
    (if me == 0 then [] else [Await(Parent(me))]) + SendsTo(Children(me, n, rounds))
  }

  lemma {:induction false} SendsToAt(s: seq<nat>)
    ensures |SendsTo(s)| == |s| && forall k :: 0 <= k < |s| ==> SendsTo(s)[k] == SendTo(s[k])
  {
    if s == [] {
    } else {
      SendsToAt(s[1..]);
    }
  }

  lemma {:induction false} SendsToMore(s: seq<nat>, x: nat)
    ensures SendsTo(s + [x]) == SendsTo(s) + [SendTo(x)]
  {
    SendsToAt(s);
    SendsToAt(s + [x]);
  }

  // First a wait for the parent, unless me is the root, and then sends: one to each
  // participant whose parent is me, and no other.
  ghost predicate WaitsThenSends(me: nat, n: nat, ops: seq<Op>)
  {
    && (me != 0 ==> |ops| > 0 && ops[0] == Await(Parent(me)))
    && (forall k :: (if me == 0 then 0 else 1) <= k < |ops| ==> ops[k].SendTo?)
    && (forall c: nat :: SendTo(c) in ops <==> 0 < c < n && Parent(c) == me)
    && (forall j, k :: 0 <= j < k < |ops| ==> ops[j] != ops[k])
  }

  lemma ScriptIs(me: nat, n: nat, rounds: nat)
    requires me < n <= Pow2(rounds)
    ensures WaitsThenSends(me, n, Script(me, n, rounds))
  {
    SendsToAt(Children(me, n, rounds));
    ScriptDistinct(me, n, rounds);
    forall c: nat ensures SendTo(c) in Script(me, n, rounds) <==> 0 < c < n && Parent(c) == me {
      ChildrenAre(me, c, n, rounds);
      InScript(me, n, rounds, c);
    }
  }

  lemma ScriptDistinct(me: nat, n: nat, rounds: nat)
    ensures var ops := Script(me, n, rounds); forall j, k :: 0 <= j < k < |ops| ==> ops[j] != ops[k]
  {
    var ops, kids, first := Script(me, n, rounds), Children(me, n, rounds), if me == 0 then 0 else 1;
    SendsToAt(kids);
    KidsOnce(me, Span(me, rounds), n);
    forall j, k | 0 <= j < k < |ops| ensures ops[j] != ops[k] {
      assert ops[k] == SendTo(kids[k - first]);
      if j >= first { assert ops[j] == SendTo(kids[j - first]); }
    }
  }

  lemma InScript(me: nat, n: nat, rounds: nat, c: nat)
    ensures SendTo(c) in Script(me, n, rounds) <==> c in Children(me, n, rounds)
  {
    var ops, kids, first := Script(me, n, rounds), Children(me, n, rounds), if me == 0 then 0 else 1;
    SendsToAt(kids);
    if c in kids {
      var i :| 0 <= i < |kids| && kids[i] == c;
      assert ops[first + i] == SendTo(c);
    }
    if SendTo(c) in ops {
      var i :| 0 <= i < |ops| && ops[i] == SendTo(c);
      assert kids[i - first] == c;
    }
  }

  // me % 2^j == 0 just when bits 0, ..., j-1 of me are clear.
  lemma {:induction false} DividesLow(me: nat, j: nat)
    ensures me % Pow2(j) == 0 <==> me == 0 || j <= LowExp(me)
    decreases j
  {
    LoMod(me, j);
    if j == 0 {
    } else {
      LoMod(me / 2, j - 1);
      DividesLow(me / 2, j - 1);
    }
  }

  // The sends from Kids(me, j + 1, n) on: one to me + 2^j, if there is such a participant,
  // then those from Kids(me, j, n) on.
  lemma NextKid(ops: seq<Op>, me: nat, j: nat, n: nat)
    ensures me + Pow2(j) < n ==>
      ops + SendsTo(Kids(me, j + 1, n)) == (ops + [SendTo(me + Pow2(j))]) + SendsTo(Kids(me, j, n))
    ensures me + Pow2(j) >= n ==> ops + SendsTo(Kids(me, j + 1, n)) == ops + SendsTo(Kids(me, j, n))
  {
    if me + Pow2(j) < n {
      assert Kids(me, j + 1, n)[1..] == Kids(me, j, n);
      AddFirst(ops, SendTo(me + Pow2(j)), SendsTo(Kids(me, j, n)));
    } else {
      assert Kids(me, j + 1, n) == Kids(me, j, n);
    }
  }

  lemma AddFirst(s: seq<Op>, x: Op, u: seq<Op>)
    ensures s + ([x] + u) == (s + [x]) + u
  {
  }

  lemma Halve(b: nat, j: nat)
    requires b == Pow2(j) && b != 1
    ensures j > 0 && b / 2 == Pow2(j - 1)
  {
  }

  method Follow(me: nat, n: nat) returns (ops: seq<Op>)
    requires me < n
    ensures ops == Script(me, n, Rounds(n))
    ensures WaitsThenSends(me, n, ops)
  {
    var m, rounds := PowerAbove(n);

    // prepost the receive
    var source := PrepostFrom(me, n, m, rounds);

    // now all the sends
    ops := PassOn(me, n, m, rounds, source);
    ScriptIs(me, n, rounds);
  }

  // The second loop: wait for the data, and pass it on.
  method PassOn(me: nat, n: nat, m: nat, ghost rounds: nat, source: nat) returns (ops: seq<Op>)
    requires me < n <= m == Pow2(rounds) && (me != 0 ==> source == Parent(me))
    ensures ops == Script(me, n, rounds)
  {
    ops := [];
    var igot, b := me == 0, m;
    ghost var j: nat := rounds;
    if me != 0 {
      LowExpBound(me);
      Pow2Strict(LowExp(me), rounds);
    }
    while b != 1
      invariant b == Pow2(j) && j <= rounds
      invariant igot ==> ops + SendsTo(Kids(me, j, n)) == Script(me, n, rounds)
      invariant !igot ==> me != 0 && LowExp(me) < j && ops == []
      decreases j
    {
      Halve(b, j);
      b := b / 2;
      j := j - 1;
      if igot {
        NextKid(ops, me, j, n);
        var dest := me + b;
        if dest < n {
          ops := ops + [SendTo(dest)];
        }
      } else if me % b == 0 {
        DividesLow(me, j);
        ops := [Await(source)];
        igot := true;
        assert LowExp(me) == j;
      } else {
        DividesLow(me, j);
      }
    }
  }

  // The power of two that the loops over the bits start from.
  method PowerAbove(n: nat) returns (m: nat, ghost rounds: nat)
    requires n > 0
    ensures rounds == Rounds(n) && n <= m == Pow2(rounds)
  {
    m, rounds := 1, 0;
    while m < n
      invariant m == Pow2(rounds) && (rounds > 0 ==> Pow2(rounds - 1) < n)
      decreases n - m
    {
      m := m * 2;
      rounds := rounds + 1;
    }
    RoundsIs(n, rounds);
  }

  // The first loop: whom to wait for.  The root posts nothing.
  method PrepostFrom(me: nat, n: nat, m: nat, ghost rounds: nat) returns (source: nat)
    requires me < n <= m == Pow2(rounds)
    ensures me != 0 ==> source == Parent(me)
  {
    source := 0;
    var igot, b := me == 0, m;
    ghost var j: nat := rounds;
    if me != 0 {
      LowExpBound(me);
      Pow2Strict(LowExp(me), rounds);
    }
    while b != 1
      invariant b == Pow2(j) && j <= rounds
      invariant igot && me != 0 ==> source == Parent(me)
      invariant !igot ==> me != 0 && LowExp(me) < j
      decreases j
    {
      b := b / 2;
      j := j - 1;
      DividesLow(me, j);
      if !igot && me % b == 0 {
        LowExpBound(me);
        source := me - b;
        igot := true;
      }
    }
  }

  // ------------------------------------------------------------------ all participants

  // v has the data once has[v] is set, and has then sent to the first sent[v] of its
  // children; `net` are the messages in transit.
  datatype State<T> = State(has: seq<Option<T>>, sent: seq<nat>, net: map<(nat, nat), T>)

  ghost predicate Shaped<T>(n: nat, s: State<T>) { |s.has| == n && |s.sent| == n }

  ghost predicate Init<T>(n: nat, data: T, s: State<T>)
  {
    && n > 0 && Shaped(n, s) && s.net == map[]
    && forall v :: 0 <= v < n ==> s.sent[v] == 0 && s.has[v] == if v == 0 then Some(data) else None
  }

  ghost predicate Send<T>(n: nat, rounds: nat, s: State<T>, t: State<T>, v: nat)
  {
    && Shaped(n, s) && v < n && s.has[v].Some? && s.sent[v] < |Children(v, n, rounds)|
    && var c := Children(v, n, rounds)[s.sent[v]];
       t == s.(sent := s.sent[v := s.sent[v] + 1], net := s.net[(v, c) := s.has[v].value])
  }

  ghost predicate Receive<T>(n: nat, s: State<T>, t: State<T>, v: nat)
  {
    && Shaped(n, s) && 0 < v < n && s.has[v].None? && (Parent(v), v) in s.net
    && t == s.(has := s.has[v := Some(s.net[(Parent(v), v)])], net := s.net - {(Parent(v), v)})
  }

  ghost predicate Next<T>(n: nat, rounds: nat, s: State<T>, t: State<T>)
  {
    (exists v :: Send(n, rounds, s, t, v)) || (exists v :: Receive(n, s, t, v))
  }

  ghost predicate SentTo<T>(n: nat, rounds: nat, s: State<T>, v: nat, c: nat)
    requires Shaped(n, s) && v < n
  {
    exists i :: 0 <= i < s.sent[v] && i < |Children(v, n, rounds)| && Children(v, n, rounds)[i] == c
  }

  // Everyone who has anything has the root's data; a message is under way exactly from
  // when a participant's parent has sent it to when the participant has it.
  ghost predicate Inv<T>(n: nat, rounds: nat, data: T, s: State<T>)
  {
    && 0 < n <= Pow2(rounds) && Shaped(n, s) && s.has[0] == Some(data)
    && (forall v :: 0 <= v < n ==> s.sent[v] <= |Children(v, n, rounds)| && (s.has[v].None? ==> s.sent[v] == 0))
    && (forall v :: 0 <= v < n && s.has[v].Some? ==> s.has[v].value == data)
    && (forall m :: m in s.net ==> 0 < m.1 < n && m.0 == Parent(m.1) && s.net[m] == data)
    && (forall v :: 0 < v < n ==>
          ((Parent(v), v) in s.net <==> SentTo(n, rounds, s, Parent(v), v) && s.has[v].None?))
    && (forall v :: 0 < v < n && s.has[v].Some? ==> SentTo(n, rounds, s, Parent(v), v))
  }

  lemma InitInv<T>(n: nat, rounds: nat, data: T, s: State<T>)
    requires Init(n, data, s) && n <= Pow2(rounds)
    ensures Inv(n, rounds, data, s)
  {
  }

  // A message goes to a participant that has not got its data yet, and to no other.
  lemma SentOnce<T>(n: nat, rounds: nat, data: T, s: State<T>, t: State<T>, v: nat)
    requires Inv(n, rounds, data, s) && Send(n, rounds, s, t, v)
    ensures var c := Children(v, n, rounds)[s.sent[v]];
      0 < c < n && Parent(c) == v && !SentTo(n, rounds, s, v, c) && s.has[c].None? && (v, c) !in s.net
  {
    var c := Children(v, n, rounds)[s.sent[v]];
    ChildrenAre(v, c, n, rounds);
    KidsOnce(v, Span(v, rounds), n);
  }

  // What v has sent after a send: one more.
  lemma SentMore<T>(n: nat, rounds: nat, s: State<T>, t: State<T>, v: nat)
    requires Send(n, rounds, s, t, v)
    ensures Shaped(n, t) && forall w, d :: 0 <= w < n ==>
      (SentTo(n, rounds, t, w, d) <==> SentTo(n, rounds, s, w, d) || (w == v && d == Children(v, n, rounds)[s.sent[v]]))
  {
    var c := Children(v, n, rounds)[s.sent[v]];
    forall w, d | 0 <= w < n
      ensures SentTo(n, rounds, t, w, d) <==> SentTo(n, rounds, s, w, d) || (w == v && d == c)
    {
      if w == v && d == c { assert Children(v, n, rounds)[s.sent[v]] == c && s.sent[v] < t.sent[v]; }
      if SentTo(n, rounds, s, w, d) {
        var i :| 0 <= i < s.sent[w] && i < |Children(w, n, rounds)| && Children(w, n, rounds)[i] == d;
        assert i < t.sent[w];
      }
    }
  }

  lemma SendInv<T>(n: nat, rounds: nat, data: T, s: State<T>, t: State<T>, v: nat)
    requires Inv(n, rounds, data, s) && Send(n, rounds, s, t, v)
    ensures Inv(n, rounds, data, t)
  {
    SentOnce(n, rounds, data, s, t, v);
    SentMore(n, rounds, s, t, v);
  }

  // What anyone has sent depends on the counts alone.
  lemma SameSent<T>(n: nat, rounds: nat, s: State<T>, t: State<T>, v: nat, c: nat)
    requires Shaped(n, s) && Shaped(n, t) && t.sent == s.sent && v < n
    ensures SentTo(n, rounds, t, v, c) <==> SentTo(n, rounds, s, v, c)
  {
  }

  lemma ReceiveTakes<T>(n: nat, rounds: nat, data: T, s: State<T>, t: State<T>, v: nat, w: nat)
    requires Inv(n, rounds, data, s) && Receive(n, s, t, v) && 0 < w < n
    ensures (Parent(w), w) in t.net <==> SentTo(n, rounds, t, Parent(w), w) && t.has[w].None?
    ensures t.has[w].Some? ==> SentTo(n, rounds, t, Parent(w), w)
  {
    SameSent(n, rounds, s, t, Parent(w), w);
    assert (Parent(w), w) in s.net <==> SentTo(n, rounds, s, Parent(w), w) && s.has[w].None?;
  }

  lemma ReceiveInv<T>(n: nat, rounds: nat, data: T, s: State<T>, t: State<T>, v: nat)
    requires Inv(n, rounds, data, s) && Receive(n, s, t, v)
    ensures Inv(n, rounds, data, t)
  {
    assert t.has[v] == Some(data);
    forall w | 0 < w < n
      ensures (Parent(w), w) in t.net <==> SentTo(n, rounds, t, Parent(w), w) && t.has[w].None?
      ensures t.has[w].Some? ==> SentTo(n, rounds, t, Parent(w), w)
    {
      ReceiveTakes(n, rounds, data, s, t, v, w);
    }
  }

  ghost predicate Run<T(!new)>(n: nat, rounds: nat, data: T, run: seq<State<T>>)
  {
    && |run| > 0 && Init(n, data, run[0])
    && forall i :: 0 <= i < |run| - 1 ==> Next(n, rounds, run[i], run[i + 1])
  }

  // In every run, whoever has received anything has the root's data.
  lemma NextInv<T(!new)>(n: nat, rounds: nat, data: T, s: State<T>, t: State<T>)
    requires Inv(n, rounds, data, s) && Next(n, rounds, s, t)
    ensures Inv(n, rounds, data, t)
  {
    if v :| Send(n, rounds, s, t, v) {
      SendInv(n, rounds, data, s, t, v);
    } else {
      var v :| Receive(n, s, t, v);
      ReceiveInv(n, rounds, data, s, t, v);
    }
  }

  // In every run, whoever has received anything has the root's data.
  lemma {:induction false} EveryRunDelivers<T(!new)>(n: nat, rounds: nat, data: T, run: seq<State<T>>)
    requires Run(n, rounds, data, run) && n <= Pow2(rounds)
    ensures Inv(n, rounds, data, run[|run| - 1])
    decreases |run|
  {
    if |run| == 1 {
      InitInv(n, rounds, data, run[0]);
    } else {
      var last := |run| - 1;
      EveryRunDelivers(n, rounds, data, run[..last]);
      assert run[..last][last - 1] == run[last - 1] && Next(n, rounds, run[last - 1], run[last]);
      NextInv(n, rounds, data, run[last - 1], run[last]);
    }
  }

  lemma {:induction false} FirstWithout<T>(s: State<T>, v: nat) returns (w: nat)
    requires v < |s.has| && s.has[v].None?
    ensures w <= v && s.has[w].None? && forall i :: 0 <= i < w ==> s.has[i].Some?
  {
    w := 0;
    while s.has[w].Some?
      invariant w <= v && forall i :: 0 <= i < w ==> s.has[i].Some?
      decreases v - w
    {
      w := w + 1;
    }
  }

  // As long as someone lacks the data, something can happen.
  lemma NeverStuck<T(!new)>(n: nat, rounds: nat, data: T, s: State<T>, v: nat)
    requires Inv(n, rounds, data, s) && v < n && s.has[v].None?
    ensures exists t :: Next(n, rounds, s, t)
  {
    var w := FirstWithout(s, v);
    var p := Parent(w);
    if (p, w) in s.net {
      var t := s.(has := s.has[w := Some(s.net[(p, w)])], net := s.net - {(p, w)});
      assert Receive(n, s, t, w);
      assert Next(n, rounds, s, t);
    } else {
      ChildrenAre(p, w, n, rounds);
      var i :| 0 <= i < |Children(p, n, rounds)| && Children(p, n, rounds)[i] == w;
      assert !SentTo(n, rounds, s, p, w);
      assert s.sent[p] <= i;
      var c := Children(p, n, rounds)[s.sent[p]];
      var t := s.(sent := s.sent[p := s.sent[p] + 1], net := s.net[(p, c) := s.has[p].value]);
      assert Send(n, rounds, s, t, p);
      assert Next(n, rounds, s, t);
    }
  }

  // ------------------------------------------------------------------ the end of a run

  // The participants that a message has been sent to, and those that have got theirs.
  ghost function Addressed<T>(n: nat, rounds: nat, s: State<T>): set<nat>
    requires Shaped(n, s)
  {
    set c: nat | 0 < c < n && SentTo(n, rounds, s, Parent(c), c)
  }

  ghost function Reached<T>(n: nat, s: State<T>): set<nat>
    requires Shaped(n, s)
  {
    set c: nat | 0 < c < n && s.has[c].Some?
  }

  lemma {:induction false} Numbers(n: nat, s: set<nat>)
    requires n > 0 && forall c :: c in s ==> 0 < c < n
    ensures |s| <= n - 1
    ensures |s| == n - 1 <==> forall c: nat :: 0 < c < n ==> c in s
    decreases n
  {
    if n == 1 {
      assert s == {};
    } else if n - 1 in s {
      Numbers(n - 1, s - {n - 1});
      assert forall c: nat :: 0 < c < n - 1 ==> (c in s <==> c in s - {n - 1});
    } else {
      Numbers(n - 1, s);
    }
  }

  lemma SendAddresses<T>(n: nat, rounds: nat, data: T, s: State<T>, t: State<T>, v: nat)
    requires Inv(n, rounds, data, s) && Send(n, rounds, s, t, v)
    ensures Shaped(n, t) && |Addressed(n, rounds, t)| == |Addressed(n, rounds, s)| + 1 && Reached(n, t) == Reached(n, s)
  {
    SentOnce(n, rounds, data, s, t, v);
    SentMore(n, rounds, s, t, v);
    AddressedMore(n, rounds, s, t, v, Children(v, n, rounds)[s.sent[v]]);
  }

  lemma AddressedMore<T>(n: nat, rounds: nat, s: State<T>, t: State<T>, v: nat, c: nat)
    requires Shaped(n, s) && Shaped(n, t) && 0 < c < n && Parent(c) == v < n && !SentTo(n, rounds, s, v, c)
    requires forall w, d :: 0 <= w < n ==>
      (SentTo(n, rounds, t, w, d) <==> SentTo(n, rounds, s, w, d) || (w == v && d == c))
    ensures |Addressed(n, rounds, t)| == |Addressed(n, rounds, s)| + 1
  {
    assert c !in Addressed(n, rounds, s);
    assert Addressed(n, rounds, t) == Addressed(n, rounds, s) + {c};
  }

  lemma ReceiveReaches<T>(n: nat, rounds: nat, s: State<T>, t: State<T>, v: nat)
    requires Receive(n, s, t, v)
    ensures Shaped(n, t) && |Reached(n, t)| == |Reached(n, s)| + 1 && Addressed(n, rounds, t) == Addressed(n, rounds, s)
  {
    assert t.sent == s.sent;
    forall c: nat | 0 < c < n ensures c in Addressed(n, rounds, t) <==> c in Addressed(n, rounds, s) {
      SameSent(n, rounds, s, t, Parent(c), c);
    }
    assert v !in Reached(n, s);
    assert Reached(n, t) == Reached(n, s) + {v};
  }

  // The messages sent in the first k steps of a run.
  ghost function Sends<T(!new)>(n: nat, rounds: nat, run: seq<State<T>>, k: nat): nat
    requires k < |run|
  {
    if k == 0 then 0 else
      Sends(n, rounds, run, k - 1) + if IsSend(n, rounds, run[k - 1], run[k]) then 1 else 0
  }

  ghost predicate IsSend<T>(n: nat, rounds: nat, s: State<T>, t: State<T>) { exists v :: Send(n, rounds, s, t, v) }

  lemma SendMoves<T>(n: nat, rounds: nat, s: State<T>, t: State<T>, v: nat)
    requires Send(n, rounds, s, t, v)
    ensures t.sent != s.sent
  {
    assert t.sent[v] != s.sent[v];
  }

  lemma NotBoth<T>(n: nat, rounds: nat, s: State<T>, t: State<T>, v: nat)
    requires Receive(n, s, t, v)
    ensures !IsSend(n, rounds, s, t)
  {
    if w :| Send(n, rounds, s, t, w) { SendMoves(n, rounds, s, t, w); }
  }

  lemma StepCounts<T(!new)>(n: nat, rounds: nat, data: T, s: State<T>, t: State<T>)
    requires Inv(n, rounds, data, s) && Next(n, rounds, s, t)
    ensures Inv(n, rounds, data, t)
    ensures |Addressed(n, rounds, t)| == |Addressed(n, rounds, s)| + if IsSend(n, rounds, s, t) then 1 else 0
    ensures |Addressed(n, rounds, t)| + |Reached(n, t)| == |Addressed(n, rounds, s)| + |Reached(n, s)| + 1
  {
    NextInv(n, rounds, data, s, t);
    if v :| Send(n, rounds, s, t, v) {
      SendAddresses(n, rounds, data, s, t, v);
    } else {
      var v :| Receive(n, s, t, v);
      ReceiveReaches(n, rounds, s, t, v);
      NotBoth(n, rounds, s, t, v);
    }
  }

  lemma NobodyYet<T>(n: nat, rounds: nat, data: T, s: State<T>)
    requires Init(n, data, s)
    ensures Addressed(n, rounds, s) == {} && Reached(n, s) == {}
  {
  }

  // After k steps, so many messages have been sent, and so many sent or received.
  ghost predicate Counted<T(!new)>(n: nat, rounds: nat, run: seq<State<T>>, k: nat)
    requires k < |run|
  {
    && Shaped(n, run[k]) && |Addressed(n, rounds, run[k])| == Sends(n, rounds, run, k)
    && |Addressed(n, rounds, run[k])| + |Reached(n, run[k])| == k
  }

  lemma {:induction false} RunCounts<T(!new)>(n: nat, rounds: nat, data: T, run: seq<State<T>>, k: nat)
    requires Run(n, rounds, data, run) && n <= Pow2(rounds) && k < |run|
    ensures Inv(n, rounds, data, run[k]) && Counted(n, rounds, run, k)
  {
    if k == 0 {
      InitInv(n, rounds, data, run[0]);
      NobodyYet(n, rounds, data, run[0]);
    } else {
      RunCounts(n, rounds, data, run, k - 1);
      NthStep(n, rounds, data, run, k - 1);
      StepCounts(n, rounds, data, run[k - 1], run[k]);
    }
  }

  lemma NthStep<T(!new)>(n: nat, rounds: nat, data: T, run: seq<State<T>>, k: nat)
    requires Run(n, rounds, data, run) && k < |run| - 1
    ensures Next(n, rounds, run[k], run[k + 1])
  {
  }

  lemma AllReached<T>(n: nat, data: T, t: State<T>)
    requires Shaped(n, t) && n > 0 && forall v :: 0 <= v < n && t.has[v].Some? ==> t.has[v].value == data
    requires t.has[0].Some?
    ensures t.has == seq(n, _ => Some(data)) <==> forall c: nat :: 0 < c < n ==> c in Reached(n, t)
  {
    if forall c: nat :: 0 < c < n ==> c in Reached(n, t) {
      forall c | 0 <= c < n ensures t.has[c] == Some(data) {
        if c > 0 { assert c in Reached(n, t); }
      }
    }
  }

  // Whoever has got a message has been sent one.
  lemma ReachedWereSent<T>(n: nat, rounds: nat, data: T, t: State<T>)
    requires Inv(n, rounds, data, t)
    ensures Reached(n, t) <= Addressed(n, rounds, t)
  {
  }

  lemma AllDone<T>(n: nat, rounds: nat, data: T, t: State<T>)
    requires Inv(n, rounds, data, t)
    ensures var all := |Addressed(n, rounds, t)| + |Reached(n, t)|;
      && all <= 2 * (n - 1) && (all == 2 * (n - 1) <==> t.has == seq(n, _ => Some(data)))
      && (all == 2 * (n - 1) ==> |Addressed(n, rounds, t)| == n - 1)
  {
    Numbers(n, Addressed(n, rounds, t));
    Numbers(n, Reached(n, t));
    AllReached(n, data, t);
    ReachedWereSent(n, rounds, data, t);
  }

  // Every run comes to an end after at most 2(n-1) steps; when these are taken, and only
  // then, everyone has the root's data, and exactly n-1 messages have been sent.
  lemma EveryRunEnds<T(!new)>(n: nat, rounds: nat, data: T, run: seq<State<T>>)
    requires Run(n, rounds, data, run) && n <= Pow2(rounds)
    ensures |run| - 1 <= 2 * (n - 1)
    ensures |run| - 1 == 2 * (n - 1) <==> run[|run| - 1].has == seq(n, _ => Some(data))
    ensures |run| - 1 == 2 * (n - 1) ==> Sends(n, rounds, run, |run| - 1) == n - 1
  {
    RunCounts(n, rounds, data, run, |run| - 1);
    AllDone(n, rounds, data, run[|run| - 1]);
  }

  // ------------------------------------------------------------------ what each does in a run

  // What participant me does in a step: a send, a receive, or nothing.
  ghost function Does<T>(n: nat, rounds: nat, s: State<T>, t: State<T>, me: nat): seq<Op>
    requires me < n
  {
    if Send(n, rounds, s, t, me) then [SendTo(Children(me, n, rounds)[s.sent[me]])]
    else if Receive(n, s, t, me) then [Await(Parent(me))]
    else []
  }

  // ... and in the first k steps of a run.
  ghost function Did<T(!new)>(n: nat, rounds: nat, run: seq<State<T>>, me: nat, k: nat): seq<Op>
    requires me < n && k < |run|
  {
    if k == 0 then [] else Did(n, rounds, run, me, k - 1) + Does(n, rounds, run[k - 1], run[k], me)
  }

  // As much of its script as the state shows.
  ghost function SoFar<T>(n: nat, rounds: nat, s: State<T>, me: nat): seq<Op>
    requires Shaped(n, s) && me < n && s.sent[me] <= |Children(me, n, rounds)|
  {
    (if me == 0 || s.has[me].None? then [] else [Await(Parent(me))])
    + SendsTo(Children(me, n, rounds)[..s.sent[me]])
  }

  lemma SendDoes<T>(n: nat, rounds: nat, s: State<T>, t: State<T>, v: nat, me: nat)
    requires Send(n, rounds, s, t, v) && me < n
    ensures Does(n, rounds, s, t, me) == if me == v then [SendTo(Children(me, n, rounds)[s.sent[me]])] else []
  {
    SendMoves(n, rounds, s, t, v);
    if me != v {
      assert t.sent[me] == s.sent[me];
    }
  }

  lemma ReceiveDoes<T>(n: nat, rounds: nat, s: State<T>, t: State<T>, v: nat, me: nat)
    requires Receive(n, s, t, v) && me < n
    ensures Does(n, rounds, s, t, me) == if me == v then [Await(Parent(me))] else []
  {
    NotBoth(n, rounds, s, t, v);
    assert !Send(n, rounds, s, t, me);
    if me != v {
      assert t.has[me] == s.has[me];
    }
  }

  lemma SendSoFar<T>(n: nat, rounds: nat, s: State<T>, t: State<T>, v: nat)
    requires Send(n, rounds, s, t, v)
    ensures SoFar(n, rounds, t, v) == SoFar(n, rounds, s, v) + [SendTo(Children(v, n, rounds)[s.sent[v]])]
  {
    var kids, i := Children(v, n, rounds), s.sent[v];
    assert kids[..i + 1] == kids[..i] + [kids[i]];
    SendsToMore(kids[..i], kids[i]);
  }

  lemma ReceiveSoFar<T>(n: nat, rounds: nat, s: State<T>, t: State<T>, v: nat)
    requires Receive(n, s, t, v) && s.sent[v] == 0
    ensures SoFar(n, rounds, t, v) == SoFar(n, rounds, s, v) + [Await(Parent(v))]
  {
    assert Children(v, n, rounds)[..0] == [];
  }

  // What has happened to others makes no difference.
  lemma OtherSoFar<T>(n: nat, rounds: nat, s: State<T>, t: State<T>, me: nat)
    requires Shaped(n, s) && Shaped(n, t) && me < n && t.sent[me] == s.sent[me] && t.has[me] == s.has[me]
    requires s.sent[me] <= |Children(me, n, rounds)|
    ensures SoFar(n, rounds, t, me) == SoFar(n, rounds, s, me) + []
  {
  }

  lemma StepSoFar<T(!new)>(n: nat, rounds: nat, data: T, s: State<T>, t: State<T>, me: nat)
    requires Inv(n, rounds, data, s) && Next(n, rounds, s, t) && me < n
    ensures Shaped(n, t) && t.sent[me] <= |Children(me, n, rounds)|
    ensures SoFar(n, rounds, t, me) == SoFar(n, rounds, s, me) + Does(n, rounds, s, t, me)
  {
    if v :| Send(n, rounds, s, t, v) {
      SendDoes(n, rounds, s, t, v, me);
      if me == v { SendSoFar(n, rounds, s, t, v); } else { OtherSoFar(n, rounds, s, t, me); }
    } else {
      var v :| Receive(n, s, t, v);
      ReceiveDoes(n, rounds, s, t, v, me);
      if me == v { ReceiveSoFar(n, rounds, s, t, v); } else { OtherSoFar(n, rounds, s, t, me); }
    }
  }

  lemma NothingSoFar<T>(n: nat, rounds: nat, data: T, s: State<T>, me: nat)
    requires Init(n, data, s) && me < n
    ensures SoFar(n, rounds, s, me) == []
  {
    assert Children(me, n, rounds)[..0] == [];
  }

  // At every moment of a run a participant has done the beginning of its script.
  lemma {:induction false} RunFollows<T(!new)>(n: nat, rounds: nat, data: T, run: seq<State<T>>, me: nat, k: nat)
    requires Run(n, rounds, data, run) && n <= Pow2(rounds) && me < n && k < |run|
    ensures Inv(n, rounds, data, run[k]) && Did(n, rounds, run, me, k) == SoFar(n, rounds, run[k], me)
  {
    RunCounts(n, rounds, data, run, k);
    if k == 0 {
      NothingSoFar(n, rounds, data, run[0], me);
    } else {
      RunFollows(n, rounds, data, run, me, k - 1);
      NthStep(n, rounds, data, run, k - 1);
      StepSoFar(n, rounds, data, run[k - 1], run[k], me);
    }
  }

  // When everyone has the data, everyone has sent to all its children.
  lemma AllSent<T>(n: nat, rounds: nat, data: T, t: State<T>, me: nat)
    requires Inv(n, rounds, data, t) && me < n && forall c :: 0 <= c < n ==> t.has[c].Some?
    ensures t.sent[me] == |Children(me, n, rounds)|
  {
    var kids, last := Children(me, n, rounds), |Children(me, n, rounds)| - 1;
    if |kids| > 0 {
      ChildrenAre(me, kids[last], n, rounds);
      assert SentTo(n, rounds, t, me, kids[last]);
      var i :| 0 <= i < t.sent[me] && i < |kids| && kids[i] == kids[last];
      KidsOnce(me, Span(me, rounds), n);
      assert i == last;
    }
  }

  // In every run in which all have got the data, each participant has done just what the
  // method Follow says, in that order.
  lemma EveryoneFollows<T(!new)>(n: nat, data: T, run: seq<State<T>>, me: nat)
    requires n > 0 && Run(n, Rounds(n), data, run) && me < n
    requires run[|run| - 1].has == seq(n, _ => Some(data))
    ensures Did(n, Rounds(n), run, me, |run| - 1) == Script(me, n, Rounds(n))
    ensures WaitsThenSends(me, n, Did(n, Rounds(n), run, me, |run| - 1))
  {
    var rounds, t := Rounds(n), run[|run| - 1];
    RunFollows(n, rounds, data, run, me, |run| - 1);
    assert forall c :: 0 <= c < n ==> t.has[c] == Some(data);
    AllSent(n, rounds, data, t, me);
    assert Children(me, n, rounds)[..t.sent[me]] == Children(me, n, rounds);
    ScriptIs(me, n, rounds);
  }
}
