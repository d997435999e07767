/**
 One eager connection as a whole (MP_Lite/ib.c): the sender with its credits, the adapter
 that carries messages out of the send buffers, and the receiver of module EagerReceiver.

 The counters of the source wrap around at INT_MAX and are only ever compared for equality.
 `work`, `completed` and `seen` are the same counts without wrapping.
 */
module EagerLink {
  import opened Common
  import opened EagerMatching
  import R = EagerReceiver

  const WRAP := R.COUNT_MAX + 1

  // ADD_WITH_WRAP
  function Add(n: int, m: int): int
  {
    if R.COUNT_MAX - n < m then (m - (R.COUNT_MAX - n)) - 1 else n + m
  }

  datatype Stage = PostWait | CompWait | Done

  // An entry of eager_send_q, numbered by the calls of ib_eager_asend.
  datatype Out = Out(id: nat, msg: Msg, stage: Stage)

  // What the adapter was told to send: a send buffer, and what was in it then.
  datatype Work = Work(id: nat, slot: nat, msg: Msg)

  datatype Tx = Tx(queue: seq<Out>, sends: int, locFreed: int, remFreed: int, next: nat, slots: seq<Msg>,
                   work: seq<Work>, asked: seq<Msg>)

  // ------------------------------------------------------------------ operations of the sender

  predicate CanSend(t: Tx)
  {
    t.sends != t.locFreed && t.sends != t.remFreed
  }

  // ib_post_eager_send, for entry i
  function PostSend(t: Tx, i: nat): Tx
    requires i < |t.queue| && t.next < |t.slots|
  {
    var o := t.queue[i];
    t.(queue := t.queue[i := o.(stage := CompWait)],
       slots := t.slots[t.next := o.msg],
       work := t.work + [Work(o.id, t.next, o.msg)],
       next := (t.next + 1) % R.BUFFERS,
       sends := R.Inc(t.sends))
  }

  // ib_eager_check_sends from entry i on; true when nothing is left to post.
  function CheckSends(t: Tx, i: nat): (r: (Tx, bool))
    requires i <= |t.queue| && t.next < |t.slots| == R.BUFFERS
    ensures |r.0.queue| == |t.queue| && r.0.next < |r.0.slots| == R.BUFFERS
    decreases |t.queue| - i
  {
    if i == |t.queue| then (t, true)
    else if !CanSend(t) then (t, false)
    else if t.queue[i].stage == PostWait then CheckSends(PostSend(t, i), i + 1)
    else CheckSends(t, i + 1)
  }

  function Enqueue(t: Tx, msg: Msg): Tx
  {
    t.(queue := t.queue + [Out(|t.asked|, msg, PostWait)], asked := t.asked + [msg])
  }

  // ib_eager_asend
  function Asend(t: Tx, msg: Msg): Tx
    requires t.next < |t.slots| == R.BUFFERS
  {
    var (c, clear) := CheckSends(t, 0);
    var e := Enqueue(c, msg);
    if clear && CanSend(c) then PostSend(e, |c.queue|) else e
  }

  function FindCompWait(q: seq<Out>): (i: nat)
    ensures i <= |q| && (i < |q| ==> q[i].stage == CompWait) && forall j :: 0 <= j < i ==> q[j].stage != CompWait
  {
    if q == [] then 0 else if q[0].stage == CompWait then 0 else 1 + FindCompWait(q[1..])
  }

  // ib_eager_handle_send; None is the error exit.
  function HandleSend(t: Tx): Option<Tx>
  {
    var i := FindCompWait(t.queue);
    if i == |t.queue| then None
    else Some(t.(queue := t.queue[i := t.queue[i].(stage := Done)], locFreed := R.Inc(t.locFreed)))
  }

  // ------------------------------------------------------------------ what the counters mean

  function CompWaits(q: seq<Out>): (n: nat)
  {
    if q == [] then 0 else CompWaits(q[..|q| - 1]) + if q[|q| - 1].stage == CompWait then 1 else 0
  }

  // In no more than four steps a wrapped counter does not come round again.
  lemma SameCount(a: nat, b: nat)
    requires a <= b <= a + R.BUFFERS
    ensures a % WRAP == b % WRAP <==> a == b
  {
  }

  lemma AddWraps(a: nat)
    ensures Add(a % WRAP, R.BUFFERS) == (a + R.BUFFERS) % WRAP
  {
  }

  // The counters are the true counts wrapped; messages the adapter has not reported complete
  // are still in their buffers, at most four of them.
  ghost predicate Counts(t: Tx, completed: nat, seen: nat)
  {
    && t.sends == |t.work| % WRAP && t.locFreed == (R.BUFFERS + completed) % WRAP && t.remFreed == seen % WRAP
    && completed <= |t.work| <= completed + R.BUFFERS && |t.work| <= seen <= |t.work| + R.BUFFERS
  }

  ghost predicate Slots(t: Tx, completed: nat)
  {
    && |t.slots| == R.BUFFERS && t.next == |t.work| % R.BUFFERS
    && (forall k :: 0 <= k < |t.work| ==> t.work[k].slot == k % R.BUFFERS)
    && (forall k :: completed <= k < |t.work| ==> t.slots[k % R.BUFFERS] == t.work[k].msg)
  }

  ghost predicate Queue(t: Tx, completed: nat)
  {
    && (forall i :: 0 <= i < |t.queue| ==> t.queue[i].id < |t.asked| && t.queue[i].msg == t.asked[t.queue[i].id])
    && (forall k :: 0 <= k < |t.work| ==> t.work[k].id < |t.asked| && t.work[k].msg == t.asked[t.work[k].id])
    && (forall i, j :: 0 <= i < j < |t.queue| ==> t.queue[i].id < t.queue[j].id)
    && CompWaits(t.queue) + completed == |t.work|
  }

  ghost predicate TxInv(t: Tx, completed: nat, seen: nat)
  {
    Counts(t, completed, seen) && Slots(t, completed) && Queue(t, completed)
  }

  // The two tests on wrapped counters are tests for credit.
  lemma CreditTest(t: Tx, completed: nat, seen: nat)
    requires Counts(t, completed, seen)
    ensures CanSend(t) <==> |t.work| < completed + R.BUFFERS && |t.work| < seen
  {
    SameCount(|t.work|, R.BUFFERS + completed);
    SameCount(|t.work|, seen);
  }

  lemma {:induction false} CompWaitsUpdate(q: seq<Out>, i: nat, o: Out)
    requires i < |q|
    ensures CompWaits(q[i := o]) + (if q[i].stage == CompWait then 1 else 0)
         == CompWaits(q) + (if o.stage == CompWait then 1 else 0)
  {
    var last := |q| - 1;
    if i == last {
      assert q[i := o][..last] == q[..last];
    } else {
      assert q[i := o][..last] == q[..last][i := o];
      CompWaitsUpdate(q[..last], i, o);
    }
  }

  lemma {:induction false} CompWaitsWithout(q: seq<Out>, i: nat)
    requires i < |q| && q[i].stage != CompWait
    ensures CompWaits(R.Without(q, i)) == CompWaits(q)
  {
    var last := |q| - 1;
    if i == last {
      assert R.Without(q, i) == q[..last];
    } else {
      assert R.Without(q, i)[..last - 1] == R.Without(q[..last], i);
      CompWaitsWithout(q[..last], i);
    }
  }

  lemma {:induction false} SomeCompWait(q: seq<Out>)
    requires CompWaits(q) > 0
    ensures FindCompWait(q) < |q|
  {
    if q[|q| - 1].stage == CompWait {
    } else {
      SomeCompWait(q[..|q| - 1]);
      assert q[..|q| - 1][FindCompWait(q[..|q| - 1])].stage == CompWait;
    }
  }

  lemma CompWaitsAppend(q: seq<Out>, o: Out)
    ensures CompWaits(q + [o]) == CompWaits(q) + if o.stage == CompWait then 1 else 0
  {
    assert (q + [o])[..|q|] == q;
  }

  // Four consecutive messages have four different buffers.
  lemma NextSlotFree(n: nat, k: nat)
    requires k < n < k + R.BUFFERS
    ensures k % R.BUFFERS != n % R.BUFFERS
  {
  }

  lemma NextAfter(n: nat)
    ensures (n % R.BUFFERS + 1) % R.BUFFERS == (n + 1) % R.BUFFERS
  {
  }

  lemma PostSlots(t: Tx, completed: nat, i: nat)
    requires Slots(t, completed) && i < |t.queue| && |t.work| < completed + R.BUFFERS
    ensures Slots(PostSend(t, i), completed)
  {
    var n, u := |t.work|, PostSend(t, i);
    NextAfter(n);
    forall k | 0 <= k < n ensures u.work[k] == t.work[k] {}
    forall k | completed <= k < n + 1 ensures u.slots[k % R.BUFFERS] == u.work[k].msg {
      if k < n { NextSlotFree(n, k); }
    }
  }

  // Posting with credit never touches a buffer that is still being sent.
  lemma PostInv(t: Tx, completed: nat, seen: nat, i: nat)
    requires TxInv(t, completed, seen) && CanSend(t) && i < |t.queue| && t.queue[i].stage == PostWait
    ensures TxInv(PostSend(t, i), completed, seen)
  {
    CreditTest(t, completed, seen);
    R.IncWraps(|t.work|);
    CompWaitsUpdate(t.queue, i, t.queue[i].(stage := CompWait));
    PostSlots(t, completed, i);
  }

  lemma EnqueueInv(t: Tx, completed: nat, seen: nat, msg: Msg)
    requires TxInv(t, completed, seen)
    ensures TxInv(Enqueue(t, msg), completed, seen)
  {
    CompWaitsAppend(t.queue, Out(|t.asked|, msg, PostWait));
  }

  // Nothing that has been posted is taken back.
  ghost predicate Grown(t: Tx, u: Tx, completed: nat, seen: nat)
  {
    TxInv(u, completed, seen) && t.work <= u.work
  }

  lemma GrownOn(t: Tx, u: Tx, v: Tx, completed: nat, seen: nat)
    requires Grown(u, v, completed, seen) && t.work <= u.work
    ensures Grown(t, v, completed, seen)
  {
  }

  lemma {:induction false} CheckSendsInv(t: Tx, completed: nat, seen: nat, i: nat)
    requires TxInv(t, completed, seen) && i <= |t.queue|
    ensures Grown(t, CheckSends(t, i).0, completed, seen)
    decreases |t.queue| - i
  {
    if i == |t.queue| || !CanSend(t) {
    } else if t.queue[i].stage == PostWait {
      PostInv(t, completed, seen, i);
      CheckSendsInv(PostSend(t, i), completed, seen, i + 1);
      GrownOn(t, PostSend(t, i), CheckSends(PostSend(t, i), i + 1).0, completed, seen);
    } else {
      CheckSendsInv(t, completed, seen, i + 1);
    }
  }

  lemma AsendInv(t: Tx, completed: nat, seen: nat, msg: Msg)
    requires TxInv(t, completed, seen)
    ensures Grown(t, Asend(t, msg), completed, seen)
  {
    var (c, clear) := CheckSends(t, 0);
    CheckSendsInv(t, completed, seen, 0);
    EnqueueInv(c, completed, seen, msg);
    var e := Enqueue(c, msg);
    assert CanSend(e) == CanSend(c);
    if clear && CanSend(c) {
      PostInv(e, completed, seen, |c.queue|);
    }
  }

  // The entries from lo up to hi that wait to be posted.
  function PostWaits(q: seq<Out>, lo: nat, hi: nat): nat
    requires lo <= hi <= |q|
    decreases hi - lo
  {
    if lo == hi then 0 else (if q[lo].stage == PostWait then 1 else 0) + PostWaits(q, lo + 1, hi)
  }

  lemma {:induction false} PostWaitsLast(q: seq<Out>, lo: nat, hi: nat)
    requires lo < hi <= |q|
    ensures PostWaits(q, lo, hi) == PostWaits(q, lo, hi - 1) + if q[hi - 1].stage == PostWait then 1 else 0
    decreases hi - lo
  {
    if lo == hi - 1 {
      assert PostWaits(q, hi, hi) == 0;
    } else {
      PostWaitsLast(q, lo + 1, hi);
    }
  }

  lemma {:induction false} SamePostWaits(q: seq<Out>, n: seq<Out>, lo: nat, hi: nat)
    requires lo <= hi <= |q| == |n| && forall j :: lo <= j < hi ==> n[j] == q[j]
    ensures PostWaits(n, lo, hi) == PostWaits(q, lo, hi)
    decreases hi - lo
  {
    if lo == hi {
    } else {
      SamePostWaits(q, n, lo + 1, hi);
    }
  }

  function Least(a: int, b: int): int { if a < b then a else b }

  // How many messages may be posted now: as many as there are free buffers on either side.
  ghost function Credit(t: Tx, completed: nat, seen: nat): int
  {
    Least(completed + R.BUFFERS, seen) - |t.work|
  }

  // The queue check posts as many of the messages that wait as there is credit for, and what
  // it leaves waits for credit.  It reports success exactly if it had credit left each time
  // it came to an entry, that is for the last entry too.
  ghost predicate CheckedFor(t: Tx, r: (Tx, bool), i: nat, credit: int)
    requires i <= |t.queue| == |r.0.queue|
  {
    && |r.0.work| == |t.work| + Least(PostWaits(t.queue, i, |t.queue|), credit)
    && (r.1 <==> i == |t.queue| || PostWaits(t.queue, i, |t.queue| - 1) < credit)
    && (r.1 ==> forall j :: i <= j < |r.0.queue| ==> r.0.queue[j].stage != PostWait)
    && (forall j :: 0 <= j < i ==> r.0.queue[j] == t.queue[j])
  }

  lemma CheckedNothing(t: Tx, i: nat, credit: int)
    requires i <= |t.queue| && credit >= 0 && t.next < |t.slots| == R.BUFFERS && (CanSend(t) <==> credit > 0)
    requires i == |t.queue| || credit == 0
    ensures CheckedFor(t, CheckSends(t, i), i, credit)
  {
  }

  lemma CheckedPost(t: Tx, i: nat, r: (Tx, bool), credit: int)
    requires i < |t.queue| == |r.0.queue| && credit > 0 && t.next < |t.slots| && t.queue[i].stage == PostWait
    requires CheckedFor(PostSend(t, i), r, i + 1, credit - 1)
    ensures CheckedFor(t, r, i, credit)
  {
    var u, n := PostSend(t, i), |t.queue|;
    SamePostWaits(t.queue, u.queue, i + 1, n);
    if i + 1 < n { SamePostWaits(t.queue, u.queue, i + 1, n - 1); }
    assert r.0.queue[i] == u.queue[i];
  }

  lemma CheckedPast(t: Tx, i: nat, r: (Tx, bool), credit: int)
    requires i < |t.queue| == |r.0.queue| && credit > 0 && t.queue[i].stage != PostWait
    requires CheckedFor(t, r, i + 1, credit)
    ensures CheckedFor(t, r, i, credit)
  {
  }

  lemma {:induction false} CheckSendsExactly(t: Tx, completed: nat, seen: nat, i: nat)
    requires TxInv(t, completed, seen) && i <= |t.queue|
    ensures CheckedFor(t, CheckSends(t, i), i, Credit(t, completed, seen))
    ensures !CheckSends(t, i).1 ==> !CanSend(CheckSends(t, i).0)
    decreases |t.queue| - i
  {
    CreditTest(t, completed, seen);
    var credit := Credit(t, completed, seen);
    if i == |t.queue| || !CanSend(t) {
      CheckedNothing(t, i, credit);
    } else if t.queue[i].stage == PostWait {
      PostInv(t, completed, seen, i);
      CheckSendsExactly(PostSend(t, i), completed, seen, i + 1);
      CheckedPost(t, i, CheckSends(PostSend(t, i), i + 1), credit);
    } else {
      CheckSendsExactly(t, completed, seen, i + 1);
      CheckedPast(t, i, CheckSends(t, i + 1), credit);
    }
  }

  // What is queued is so for want of a free buffer on one side or the other.
  ghost predicate NothingHeldBack(t: Tx, completed: nat, seen: nat)
  {
    (exists j :: 0 <= j < |t.queue| && t.queue[j].stage == PostWait) ==>
      |t.work| == completed + R.BUFFERS || |t.work| == seen
  }

  // A call posts all that wait and its own message, as far as there is credit.
  ghost predicate SentAll(t: Tx, u: Tx, completed: nat, seen: nat)
  {
    && |u.work| == |t.work| + Least(PostWaits(t.queue, 0, |t.queue|) + 1, Credit(t, completed, seen))
    && NothingHeldBack(u, completed, seen)
  }

  lemma AsendExactly(t: Tx, completed: nat, seen: nat, msg: Msg)
    requires TxInv(t, completed, seen)
    ensures SentAll(t, Asend(t, msg), completed, seen)
  {
    var (c, clear) := CheckSends(t, 0);
    CheckSendsExactly(t, completed, seen, 0);
    CheckSendsInv(t, completed, seen, 0);
    CreditTest(c, completed, seen);
    if |t.queue| > 0 { PostWaitsLast(t.queue, 0, |t.queue|); }
  }

  // There is an entry waiting for each completion.
  lemma HandleSendInv(t: Tx, completed: nat, seen: nat)
    requires TxInv(t, completed, seen) && completed < |t.work|
    ensures HandleSend(t).Some? && TxInv(HandleSend(t).value, completed + 1, seen)
  {
    SomeCompWait(t.queue);
    var i := FindCompWait(t.queue);
    CompWaitsUpdate(t.queue, i, t.queue[i].(stage := Done));
    R.IncWraps(R.BUFFERS + completed);
  }

  lemma RemoveInv(t: Tx, completed: nat, seen: nat, i: nat)
    requires TxInv(t, completed, seen) && i < |t.queue| && t.queue[i].stage == Done
    ensures TxInv(t.(queue := R.Without(t.queue, i)), completed, seen)
  {
    CompWaitsWithout(t.queue, i);
  }

  // ------------------------------------------------------------------ the whole connection

  // `waiting` is the message that the main thread of the sender has posted in its own wait
  // and now waits for: ib_eager_finish_send does not return before that one is complete.
  datatype Link = Link(tx: Tx, rx: R.Rx, h: R.History, completed: nat, seen: nat, waiting: Option<nat>)

  // What can happen: library calls and the ends of waits on either side, the two completion
  // handlers, and the update of the sender's copy of the receiver's counter.  That each is one
  // step is assumed: on the sending side no mutex is held.
  datatype Act = Send(msg: Msg) | LatePost(i: nat) | Remove(i: nat) | Completion | Arrival | Update(count: nat)
    | Receive(e: R.Event)

  ghost predicate Possible(l: Link, act: Act)
  {
    match act
    case Send(msg) => l.waiting == None
    // in ib_eager_finish_send: the message is not posted yet, and there is credit now
    case LatePost(i) => l.waiting == None && i < |l.tx.queue| && l.tx.queue[i].stage == PostWait && CanSend(l.tx)
    // the end of ib_eager_finish_send
    case Remove(i) =>
      && i < |l.tx.queue| && l.tx.queue[i].stage == Done
      && (l.waiting == None || l.waiting == Some(l.tx.queue[i].id))
    // the adapter reports sends in order, once they have reached the other side
    case Completion => l.completed < |l.h.arrivals|
    case Arrival => |l.h.arrivals| < |l.tx.work|
    // a write carries what the counter holds when the adapter reads it, in order
    case Update(count) => l.seen <= count <= R.BUFFERS + |l.h.pairs|
    case Receive(e) => !e.Arrival? && R.Possible(l.rx, l.h, e)
  }

  // The message that arrives next, out of its send buffer.
  function OnWire(l: Link): Msg
    requires |l.h.arrivals| < |l.tx.work| && l.tx.work[|l.h.arrivals|].slot < |l.tx.slots|
  {
    l.tx.slots[l.tx.work[|l.h.arrivals|].slot]
  }

  // Every buffer named somewhere exists.
  ghost predicate Bounds(l: Link)
  {
    && l.tx.next < |l.tx.slots| == R.BUFFERS && R.BuffersInRange(l.rx)
    && forall k :: 0 <= k < |l.tx.work| ==> l.tx.work[k].slot < R.BUFFERS
  }

  // Some(m) is the state afterwards, None an error exit.
  ghost function Do(l: Link, act: Act): Option<Link>
    requires Possible(l, act) && Bounds(l)
  {
    match act
    case Send(msg) => Some(l.(tx := Asend(l.tx, msg)))
    case LatePost(i) => Some(l.(tx := PostSend(l.tx, i), waiting := Some(l.tx.queue[i].id)))
    case Remove(i) => Some(l.(tx := l.tx.(queue := R.Without(l.tx.queue, i)), waiting := None))
    case Completion =>
      (match HandleSend(l.tx)
       case None => None
       case Some(t) => Some(l.(tx := t, completed := l.completed + 1)))
    case Arrival => Taken(l, R.Arrival(OnWire(l)))
    case Update(count) => Some(l.(tx := l.tx.(remFreed := count % WRAP), seen := count))
    case Receive(e) => Taken(l, e)
  }

  ghost function Taken(l: Link, e: R.Event): Option<Link>
    requires Bounds(l)
  {
    match R.Do(l.rx, e)
    case None => None
    case Some(r) => Some(l.(rx := r, h := R.Then(l.rx, l.h, e)))
  }

  ghost predicate Joint(l: Link)
  {
    && TxInv(l.tx, l.completed, l.seen) && R.Inv(l.rx, l.h)
    && InStep(l.tx.work, l.completed, l.seen, l.h)
  }

  // At most one pair for each arrival, and for each only if all are taken.
  lemma {:induction false} PairsBound(n: nat, m: Pairs)
    requires forall x, y :: x in m && y in m && x.0 == y.0 ==> x == y
    requires forall x :: x in m ==> x.0 < n
    ensures |m| <= n
    ensures |m| == n <==> forall a: nat :: a < n ==> ArrivalTaken(m, a)
    decreases n
  {
    if n == 0 {
      assert m == {} by { forall x | x in m ensures false {} }
    } else if ArrivalTaken(m, n - 1) {
      var x :| x in m && x.0 == n - 1;
      PairsBound(n - 1, m - {x});
      forall a: nat | a < n - 1 ensures ArrivalTaken(m, a) <==> ArrivalTaken(m - {x}, a) {
        if ArrivalTaken(m, a) { var y :| y in m && y.0 == a; assert y in m - {x}; }
      }
    } else {
      PairsBound(n - 1, m);
    }
  }

  lemma PairsOf(l: Link)
    requires Joint(l)
    ensures |l.h.pairs| <= |l.h.arrivals|
    ensures |l.h.pairs| == |l.h.arrivals| <==> forall a: nat :: a < |l.h.arrivals| ==> ArrivalTaken(l.h.pairs, a)
  {
    PairsBound(|l.h.arrivals|, l.h.pairs);
  }

  // What is on the wire is the message as it was when it was posted.
  lemma WireIntact(l: Link)
    requires Joint(l) && |l.h.arrivals| < |l.tx.work|
    ensures var w := l.tx.work[|l.h.arrivals|]; w.slot < |l.tx.slots| && OnWire(l) == w.msg
  {
  }

  lemma InBounds(l: Link)
    requires Joint(l)
    ensures Bounds(l)
  {
    R.InRange(l.rx, l.h);
  }

  lemma ThenGrows(r: R.Rx, h: R.History, e: R.Event)
    ensures |h.pairs| <= |R.Then(r, h, e).pairs|
    ensures R.Then(r, h, e).arrivals == h.arrivals + if e.Arrival? then [e.msg] else []
  {
    assert h.pairs <= R.Then(r, h, e).pairs;
    SubsetSmaller(h.pairs, R.Then(r, h, e).pairs);
  }

  // More arrivals of what was sent.
  lemma ArrivalsMatch(arrivals: seq<Msg>, more: seq<Msg>, work: seq<Work>)
    requires |arrivals| + |more| <= |work| && forall k :: 0 <= k < |arrivals| ==> arrivals[k] == work[k].msg
    requires forall k :: 0 <= k < |more| ==> more[k] == work[|arrivals| + k].msg
    ensures forall k :: 0 <= k < |arrivals + more| ==> (arrivals + more)[k] == work[k].msg
  {
  }

  // The arrivals so far are what was sent first, and the sender has been told of no more
  // free buffers than there are.
  ghost predicate InStep(work: seq<Work>, completed: nat, seen: nat, h: R.History)
  {
    && completed <= |h.arrivals| <= |work| && seen <= R.BUFFERS + |h.pairs|
    && forall k :: 0 <= k < |h.arrivals| ==> h.arrivals[k] == work[k].msg
  }

  lemma StillInStep(work: seq<Work>, completed: nat, seen: nat, r: R.Rx, h: R.History, e: R.Event)
    requires InStep(work, completed, seen, h)
    requires e.Arrival? ==> |h.arrivals| < |work| && e.msg == work[|h.arrivals|].msg
    ensures InStep(work, completed, seen, R.Then(r, h, e))
  {
    ThenGrows(r, h, e);
    ArrivalsMatch(h.arrivals, if e.Arrival? then [e.msg] else [], work);
  }

  lemma ReceiveJoint(l: Link, e: R.Event)
    requires Joint(l) && R.Possible(l.rx, l.h, e)
    requires e.Arrival? ==> |l.h.arrivals| < |l.tx.work| && e.msg == l.tx.work[|l.h.arrivals|].msg
    ensures Bounds(l) && Taken(l, e).Some? && Joint(Taken(l, e).value)
  {
    InBounds(l);
    StillInStep(l.tx.work, l.completed, l.seen, l.rx, l.h, e);
    R.DoInv(l.rx, l.h, e);
  }

  ghost predicate SenderOk(l: Link)
  {
    TxInv(l.tx, l.completed, l.seen) && InStep(l.tx.work, l.completed, l.seen, l.h)
  }

  ghost predicate SameReceiver(l: Link, m: Link) { m.rx == l.rx && m.h == l.h }

  lemma SendJoint(l: Link, msg: Msg)
    requires SenderOk(l) && Possible(l, Send(msg)) && Bounds(l)
    ensures var m := Do(l, Send(msg)).value; SenderOk(m) && SameReceiver(l, m)
  {
    AsendInv(l.tx, l.completed, l.seen, msg);
  }

  lemma LatePostJoint(l: Link, i: nat)
    requires SenderOk(l) && Possible(l, LatePost(i)) && Bounds(l)
    ensures var m := Do(l, LatePost(i)).value; SenderOk(m) && SameReceiver(l, m)
  {
    PostInv(l.tx, l.completed, l.seen, i);
  }

  lemma RemoveJoint(l: Link, i: nat)
    requires SenderOk(l) && Possible(l, Remove(i)) && Bounds(l)
    ensures var m := Do(l, Remove(i)).value; SenderOk(m) && SameReceiver(l, m)
  {
    RemoveInv(l.tx, l.completed, l.seen, i);
  }

  lemma CompletionJoint(l: Link)
    requires SenderOk(l) && Possible(l, Completion) && Bounds(l)
    ensures Do(l, Completion).Some?
    ensures var m := Do(l, Completion).value; SenderOk(m) && SameReceiver(l, m)
  {
    HandleSendInv(l.tx, l.completed, l.seen);
  }

  lemma SenderJoint(l: Link, act: Act)
    requires SenderOk(l)
    requires |l.h.pairs| <= |l.h.arrivals|
    requires Possible(l, act) && !act.Arrival? && !act.Receive? && Bounds(l)
    ensures Do(l, act).Some?
    ensures SenderOk(Do(l, act).value) && SameReceiver(l, Do(l, act).value)
  {
    match act
    case Send(msg) => SendJoint(l, msg);
    case LatePost(i) => LatePostJoint(l, i);
    case Remove(i) => RemoveJoint(l, i);
    case Completion => CompletionJoint(l);
    case Update(count) =>
  }

  // Nothing that can happen leads to an error exit, and everything keeps the protocol intact.
  lemma DoJoint(l: Link, act: Act)
    requires Joint(l) && Possible(l, act)
    ensures Bounds(l) && Do(l, act).Some? && Joint(Do(l, act).value)
  {
    InBounds(l);
    match act
    case Arrival =>
      WireIntact(l);
      ReceiveJoint(l, R.Arrival(OnWire(l)));
    case Receive(e) => ReceiveJoint(l, e);
    case _ =>
      PairsOf(l);
      SenderJoint(l, act);
  }

  // ib_init
  ghost function Start(slots: seq<Msg>): Link
  {
    Link(Tx([], 0, R.BUFFERS, R.BUFFERS, 0, slots, [], []), R.Start(), R.NOTHING, 0, R.BUFFERS, None)
  }

  ghost predicate Leads(slots: seq<Msg>, acts: seq<Act>, l: Link)
  {
    if acts == [] then
      l == Start(slots)
    else
      var last := |acts| - 1;
      exists k :: Leads(slots, acts[..last], k) && Leap(k, acts[last], l)
  }

  ghost predicate Leap(k: Link, act: Act, l: Link)
  {
    Bounds(k) && Possible(k, act) && Do(k, act) == Some(l)
  }

  lemma {:induction false} EveryRunIntact(slots: seq<Msg>, acts: seq<Act>, l: Link)
    requires |slots| == R.BUFFERS && Leads(slots, acts, l)
    ensures Joint(l)
    decreases |acts|
  {
    if acts == [] {
      R.StartInv();
    } else {
      var last := |acts| - 1;
      var k :| Leads(slots, acts[..last], k) && Leap(k, acts[last], l);
      EveryRunIntact(slots, acts[..last], k);
      DoJoint(k, acts[last]);
    }
  }

  // In every run, after a call of ib_eager_asend no message waits that could be posted.
  lemma SendsAllItCan(slots: seq<Msg>, acts: seq<Act>, k: Link, msg: Msg, l: Link)
    requires |slots| == R.BUFFERS && Leads(slots, acts, k) && Leap(k, Send(msg), l)
    ensures SentAll(k.tx, l.tx, l.completed, l.seen)
  {
    EveryRunIntact(slots, acts, k);
    SendIs(k, msg, l);
    AsendExactly(k.tx, k.completed, k.seen, msg);
  }

  lemma SendIs(k: Link, msg: Msg, l: Link)
    requires Leap(k, Send(msg), l)
    ensures l.tx == Asend(k.tx, msg) && l.completed == k.completed && l.seen == k.seen
  {
  }

  // For each message in flight a buffer of its own is waiting at the receiver.
  lemma InFlightHasBuffer(l: Link, k: nat)
    requires Joint(l) && |l.h.arrivals| <= k < |l.tx.work|
    ensures exists i :: 0 <= i < |l.rx.ibq| && l.rx.ibq[i].id == k && l.rx.ibq[i].flag == R.Waiting
  {
    R.TakenInRange(l.h);
    assert R.HasIb(l.rx.ibq, k);
    var i :| 0 <= i < |l.rx.ibq| && l.rx.ibq[i].id == k;
    assert R.IbOk(l.h, l.rx.ibq[i], l.rx.posted);
  }

  // The loop in ib_cleanup ends when, and only when, every message sent has arrived, been
  // matched and had its buffer freed, and the sender's copy of the counter says so.
  lemma CleanupTest(l: Link)
    requires Joint(l)
    ensures Add(l.tx.sends, R.BUFFERS) == l.tx.remFreed <==>
      && |l.h.arrivals| == |l.tx.work| && (forall a: nat :: a < |l.tx.work| ==> ArrivalTaken(l.h.pairs, a))
      && l.seen == R.BUFFERS + |l.h.pairs|
  {
    AddWraps(|l.tx.work|);
    PairsOf(l);
    SameCount(l.seen, |l.tx.work| + R.BUFFERS);
  }

  // ------------------------------------------------------------------ in place

  class Sender {
    var queue: seq<Out>
    var sends: int
    var locFreed: int
    var remFreed: int
    var next: nat
    const slots: array<Msg>
    ghost var work: seq<Work>
    var asked: seq<Msg>  // only to number the entries

    ghost function View(): Tx
      reads this, slots
    {
      Tx(queue, sends, locFreed, remFreed, next, slots[..], work, asked)
    }

    ghost predicate Valid()
      reads this, slots
    {
      next < slots.Length == R.BUFFERS
    }

    constructor ()
      ensures Valid() && fresh(slots) && TxInv(View(), 0, R.BUFFERS) && queue == [] && asked == [] && work == []
    {
      queue, sends, locFreed, remFreed, next, work, asked := [], 0, R.BUFFERS, R.BUFFERS, 0, [], [];
      slots := new Msg[R.BUFFERS](_ => R.NO_MSG);
    }

    // ib_post_eager_send
    method PostEagerSend(i: nat)
      requires Valid() && i < |queue|
      modifies this, slots
      ensures Valid() && View() == PostSend(old(View()), i)
    {
      var o := queue[i];
      ghost var was := slots[..];
      slots[next] := o.msg;
      assert slots[..] == was[next := o.msg];
      work := work + [Work(o.id, next, o.msg)];
      next := (next + 1) % R.BUFFERS;
      queue := queue[i := o.(stage := CompWait)];
      sends := R.Inc(sends);
    }

    // ib_eager_check_sends
    method EagerCheckSends() returns (clear: bool)
      requires Valid()
      modifies this, slots
      ensures Valid() && (View(), clear) == CheckSends(old(View()), 0)
    {
      var i := 0;
      clear := true;
      while i < |queue|
        invariant Valid() && i <= |queue| && CheckSends(View(), i) == CheckSends(old(View()), 0)
        decreases |queue| - i
      {
        if sends == locFreed || sends == remFreed {
          clear := false;
          break;
        }
        if queue[i].stage == PostWait {
          PostEagerSend(i);
        }
        i := i + 1;
      }
    }

    method EagerAsend(msg: Msg)
      requires Valid()
      modifies this, slots
      ensures Valid() && View() == Asend(old(View()), msg)
    {
      var clear := EagerCheckSends();
      var now := clear && sends != locFreed && sends != remFreed;
      queue := queue + [Out(|asked|, msg, PostWait)];
      asked := asked + [msg];
      if now {
        PostEagerSend(|queue| - 1);
      }
    }

    // ib_eager_handle_send; not ok is the error exit.
    method EagerHandleSend() returns (ok: bool)
      modifies this`queue, this`locFreed
      ensures ok <==> HandleSend(old(View())).Some?
      ensures ok ==> View() == HandleSend(old(View())).value
    {
      var i := 0;
      while i < |queue| && queue[i].stage != CompWait
        invariant i <= |queue| && forall k :: 0 <= k < i ==> queue[k].stage != CompWait
      {
        i := i + 1;
      }
      assert i == FindCompWait(queue);
      if i == |queue| { return false; }
      queue := queue[i := queue[i].(stage := Done)];
      locFreed := R.Inc(locFreed);
      ok := true;
    }
  }
}
