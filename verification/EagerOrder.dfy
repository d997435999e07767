/**
 The order of eager messages (MP_Lite/ib.c): in which order they are posted and arrive, and
 which entry of the send queue a completion is counted for.
 */
module EagerOrder {
  import opened Common
  import opened EagerMatching
  import R = EagerReceiver
  import opened EagerLink

  ghost predicate HasOut(q: seq<Out>, id: nat, stage: Stage)
  {
    exists i :: 0 <= i < |q| && q[i].id == id && q[i].stage == stage
  }

  ghost predicate Among(work: seq<Work>, from: nat, id: nat)
  {
    exists k :: from <= k < |work| && work[k].id == id
  }

  // The entries that wait for completion are those of the messages in flight, and in the
  // order in which these were posted.
  ghost predicate Aligned(t: Tx, completed: nat)
  {
    && completed <= |t.work|
    && (forall k, l :: completed <= k < l < |t.work| ==> t.work[k].id < t.work[l].id)
    && (forall k :: completed <= k < |t.work| ==> HasOut(t.queue, t.work[k].id, CompWait))
    && (forall i :: 0 <= i < |t.queue| && t.queue[i].stage == CompWait ==> Among(t.work, completed, t.queue[i].id))
  }

  // An entry waits for completion behind one not posted yet only while the main thread waits
  // for it.
  ghost predicate Behind(q: seq<Out>, waiting: Option<nat>)
  {
    forall i, j :: 0 <= i < j < |q| && q[i].stage == PostWait && q[j].stage == CompWait ==> waiting == Some(q[j].id)
  }

  // Every message is posted, once, or waits to be posted.
  ghost predicate Accounted(t: Tx)
  {
    && (forall k, l :: 0 <= k < l < |t.work| ==> t.work[k].id != t.work[l].id)
    && (forall id: nat :: id < |t.asked| ==> Among(t.work, 0, id) || HasOut(t.queue, id, PostWait))
    && (forall i :: 0 <= i < |t.queue| && t.queue[i].stage == PostWait ==> !Among(t.work, 0, t.queue[i].id))
  }

  // The messages of the calls of ib_eager_asend.
  function Called(acts: seq<Act>): seq<Msg>
  {
    if acts == [] then [] else
      var last := |acts| - 1;
      Called(acts[..last]) + if acts[last].Send? then [acts[last].msg] else []
  }

  ghost predicate Orderly(t: Tx, completed: nat, waiting: Option<nat>)
  {
    Queue(t, completed) && Aligned(t, completed) && Behind(t.queue, waiting) && Accounted(t)
  }

  // ------------------------------------------------------------------ completions

  lemma FirstWaits(q: seq<Out>, id: nat)
    requires HasOut(q, id, CompWait) && forall i, j :: 0 <= i < j < |q| ==> q[i].id < q[j].id
    ensures FindCompWait(q) < |q| && q[FindCompWait(q)].id <= id
  {
    var i := FindCompWait(q);
    var j :| 0 <= j < |q| && q[j].id == id && q[j].stage == CompWait;
    assert i <= j;
    assert i < j ==> q[i].id < q[j].id;
  }

  lemma FirstPosted(work: seq<Work>, from: nat, id: nat)
    requires Among(work, from, id) && forall k, l :: from <= k < l < |work| ==> work[k].id < work[l].id
    ensures from < |work| && work[from].id <= id
  {
    var k :| from <= k < |work| && work[k].id == id;
    assert from < k ==> work[from].id < work[k].id;
  }

  // The same entries wait to be posted.
  ghost predicate SamePostWaits(q: seq<Out>, n: seq<Out>)
  {
    && (forall i :: 0 <= i < |q| && q[i].stage == PostWait ==> q[i] in n)
    && (forall i :: 0 <= i < |n| && n[i].stage == PostWait ==> n[i] in q)
  }

  lemma KeepsPostWaits(t: Tx, u: Tx)
    requires Accounted(t) && u.work == t.work && u.asked == t.asked && SamePostWaits(t.queue, u.queue)
    ensures Accounted(u)
  {
    forall id: nat | id < |u.asked| && !Among(u.work, 0, id) ensures HasOut(u.queue, id, PostWait) {
      assert HasOut(t.queue, id, PostWait);
      var i :| 0 <= i < |t.queue| && t.queue[i].id == id && t.queue[i].stage == PostWait;
      var j :| 0 <= j < |u.queue| && u.queue[j] == t.queue[i];
    }
    forall i | 0 <= i < |u.queue| && u.queue[i].stage == PostWait ensures !Among(u.work, 0, u.queue[i].id) {
      var j :| 0 <= j < |t.queue| && t.queue[j] == u.queue[i];
    }
  }

  // The entry the handler marks is that of the message the adapter has finished.
  lemma MarksItsOwn(t: Tx, completed: nat)
    requires Queue(t, completed) && Aligned(t, completed) && completed < |t.work|
    ensures var i := FindCompWait(t.queue); i < |t.queue| && t.queue[i].id == t.work[completed].id
  {
    FirstWaits(t.queue, t.work[completed].id);
    FirstPosted(t.work, completed, t.queue[FindCompWait(t.queue)].id);
  }

  lemma KeepsOut(q: seq<Out>, i: nat, o: Out, id: nat, stage: Stage)
    requires HasOut(q, id, stage) && i < |q| && q[i].id != id
    ensures HasOut(q[i := o], id, stage)
  {
    var j :| 0 <= j < |q| && q[j].id == id && q[j].stage == stage;
    assert q[i := o][j] == q[j];
  }

  lemma AmongNext(work: seq<Work>, from: nat, id: nat)
    requires Among(work, from, id) && from < |work| && work[from].id != id
    ensures Among(work, from + 1, id)
  {
    var k :| from <= k < |work| && work[k].id == id;
    assert from + 1 <= k;
  }

  lemma HandleAligned(t: Tx, completed: nat)
    requires Queue(t, completed) && Aligned(t, completed) && completed < |t.work|
    ensures HandleSend(t).Some? && Aligned(HandleSend(t).value, completed + 1)
  {
    MarksItsOwn(t, completed);
    var i, u := FindCompWait(t.queue), HandleSend(t).value;
    forall k | completed + 1 <= k < |u.work| ensures HasOut(u.queue, u.work[k].id, CompWait) {
      assert HasOut(t.queue, t.work[k].id, CompWait) && t.work[completed].id < t.work[k].id;
      KeepsOut(t.queue, i, t.queue[i].(stage := Done), t.work[k].id, CompWait);
    }
    forall j | 0 <= j < |u.queue| && u.queue[j].stage == CompWait ensures Among(u.work, completed + 1, u.queue[j].id) {
      assert Among(t.work, completed, t.queue[j].id) && t.queue[j].id != t.queue[i].id;
      AmongNext(t.work, completed, t.queue[j].id);
    }
  }

  lemma DoneBehind(q: seq<Out>, i: nat, waiting: Option<nat>)
    requires i < |q| && Behind(q, waiting)
    ensures Behind(q[i := q[i].(stage := Done)], waiting)
  {
  }

  lemma DoneKeeps(q: seq<Out>, i: nat)
    requires i < |q| && q[i].stage == CompWait
    ensures SamePostWaits(q, q[i := q[i].(stage := Done)])
  {
    var n := q[i := q[i].(stage := Done)];
    forall j | 0 <= j < |q| && q[j].stage == PostWait ensures q[j] in n { assert n[j] == q[j]; }
    forall j | 0 <= j < |n| && n[j].stage == PostWait ensures n[j] in q { assert q[j] == n[j]; }
  }

  lemma HandleOrderly(t: Tx, completed: nat, seen: nat, waiting: Option<nat>)
    requires TxInv(t, completed, seen) && Orderly(t, completed, waiting) && completed < |t.work|
    ensures HandleSend(t).Some? && Orderly(HandleSend(t).value, completed + 1, waiting)
  {
    HandleAligned(t, completed);
    HandleSendInv(t, completed, seen);
    var i, u := FindCompWait(t.queue), HandleSend(t).value;
    DoneBehind(t.queue, i, waiting);
    DoneKeeps(t.queue, i);
    KeepsPostWaits(t, u);
  }

  // ------------------------------------------------------------------ order

  ghost predicate FirstPostWait(q: seq<Out>, i: nat)
  {
    i < |q| && q[i].stage == PostWait && forall j :: 0 <= j < i ==> q[j].stage != PostWait
  }

  // Messages have been posted in the order of the calls.
  ghost predicate InOrder(work: seq<Work>)
  {
    forall k :: 0 <= k < |work| ==> work[k].id == k
  }

  lemma AmongInOrder(work: seq<Work>, id: nat)
    requires InOrder(work)
    ensures Among(work, 0, id) <==> id < |work|
  {
    if id < |work| { assert work[id].id == id; }
  }

  // The first entry not posted yet is the next one in order.
  lemma FirstIsNext(t: Tx, completed: nat, i: nat)
    requires Queue(t, completed) && Accounted(t) && InOrder(t.work) && FirstPostWait(t.queue, i)
    ensures t.queue[i].id == |t.work|
  {
    AmongInOrder(t.work, t.queue[i].id);
    AmongInOrder(t.work, |t.work|);
    assert HasOut(t.queue, |t.work|, PostWait);
    var j :| 0 <= j < |t.queue| && t.queue[j].id == |t.work| && t.queue[j].stage == PostWait;
    assert i <= j;
  }

  // ------------------------------------------------------------------ posting

  lemma AmongMore(work: seq<Work>, from: nat, id: nat, w: Work)
    requires from <= |work|
    ensures Among(work + [w], from, id) <==> Among(work, from, id) || id == w.id
  {
    assert (work + [w])[|work|] == w;
    if Among(work, from, id) {
      var k :| from <= k < |work| && work[k].id == id;
      assert (work + [w])[k].id == id;
    }
  }

  lemma WaitsBefore(q: seq<Out>, i: nat, id: nat)
    requires HasOut(q, id, CompWait) && i < |q| && q[i].stage == PostWait
    requires forall j, k :: 0 <= j < k < |q| ==> q[j].id < q[k].id
    requires forall j :: i < j < |q| ==> q[j].stage != CompWait
    ensures id < q[i].id
  {
    var j :| 0 <= j < |q| && q[j].id == id && q[j].stage == CompWait;
    assert j < i;
  }

  lemma PostAmong(t: Tx, completed: nat, i: nat, j: nat)
    requires Aligned(t, completed) && t.next < |t.slots| && i < |t.queue| && j < |t.queue|
    requires j == i || t.queue[j].stage == CompWait
    ensures Among(PostSend(t, i).work, completed, t.queue[j].id)
  {
    AmongMore(t.work, completed, t.queue[j].id, Work(t.queue[i].id, t.next, t.queue[i].msg));
  }

  lemma PostAligned(t: Tx, completed: nat, i: nat)
    requires Queue(t, completed) && Aligned(t, completed) && t.next < |t.slots|
    requires i < |t.queue| && t.queue[i].stage == PostWait
    requires forall j :: i < j < |t.queue| ==> t.queue[j].stage != CompWait
    ensures Aligned(PostSend(t, i), completed)
  {
    var u, o := PostSend(t, i), t.queue[i];
    forall k | completed <= k < |t.work| ensures t.work[k].id < o.id && HasOut(u.queue, t.work[k].id, CompWait) {
      assert HasOut(t.queue, t.work[k].id, CompWait);
      WaitsBefore(t.queue, i, t.work[k].id);
      KeepsOut(t.queue, i, o.(stage := CompWait), t.work[k].id, CompWait);
    }
    assert u.queue[i].id == o.id && u.queue[i].stage == CompWait;
    assert HasOut(u.queue, o.id, CompWait);
    forall j | 0 <= j < |u.queue| && u.queue[j].stage == CompWait ensures Among(u.work, completed, u.queue[j].id) {
      PostAmong(t, completed, i, j);
    }
  }

  lemma PostAccounted(t: Tx, completed: nat, i: nat)
    requires Queue(t, completed) && Accounted(t) && t.next < |t.slots|
    requires i < |t.queue| && t.queue[i].stage == PostWait
    ensures Accounted(PostSend(t, i))
  {
    var u, o := PostSend(t, i), t.queue[i];
    forall id: nat | id < |u.asked| ensures Among(u.work, 0, id) || HasOut(u.queue, id, PostWait) {
      AmongMore(t.work, 0, id, Work(o.id, t.next, o.msg));
      if !Among(t.work, 0, id) && id != o.id { KeepsOut(t.queue, i, o.(stage := CompWait), id, PostWait); }
    }
    forall j | 0 <= j < |u.queue| && u.queue[j].stage == PostWait ensures !Among(u.work, 0, u.queue[j].id) {
      AmongMore(t.work, 0, u.queue[j].id, Work(o.id, t.next, o.msg));
      assert t.queue[j].id != o.id;
    }
  }

  // Posting any message, when nothing waits for completion behind a message not posted.
  lemma PostOrderly(t: Tx, completed: nat, seen: nat, i: nat)
    requires TxInv(t, completed, seen) && Orderly(t, completed, None) && CanSend(t)
    requires i < |t.queue| && t.queue[i].stage == PostWait
    ensures Orderly(PostSend(t, i), completed, Some(t.queue[i].id))
    ensures FirstPostWait(t.queue, i) ==> Orderly(PostSend(t, i), completed, None)
  {
    PostInv(t, completed, seen, i);
    PostAligned(t, completed, i);
    PostAccounted(t, completed, i);
  }

  ghost predicate NoPostWait(q: seq<Out>, n: nat)
    requires n <= |q|
  {
    forall j :: 0 <= j < n ==> q[j].stage != PostWait
  }

  // How ib_eager_check_sends finds things when it comes to entry i.
  ghost predicate Ready(t: Tx, completed: nat, seen: nat, i: nat)
  {
    TxInv(t, completed, seen) && Orderly(t, completed, None) && i <= |t.queue| && NoPostWait(t.queue, i)
  }

  // It posts the first message that waits for it ...
  lemma CheckStep(t: Tx, completed: nat, seen: nat, i: nat)
    requires Ready(t, completed, seen, i) && CanSend(t) && i < |t.queue| && t.queue[i].stage == PostWait
    ensures var u := PostSend(t, i);
      Ready(u, completed, seen, i + 1) && u.asked == t.asked && (InOrder(t.work) ==> InOrder(u.work))
  {
    PostInv(t, completed, seen, i);
    PostOrderly(t, completed, seen, i);
    if InOrder(t.work) { FirstIsNext(t, completed, i); }
  }

  // ... or goes on.
  lemma CheckSkip(t: Tx, completed: nat, seen: nat, i: nat)
    requires Ready(t, completed, seen, i) && i < |t.queue| && t.queue[i].stage != PostWait
    ensures Ready(t, completed, seen, i + 1)
  {
  }

  // What it makes of t.
  ghost predicate Checked(t: Tx, r: (Tx, bool), completed: nat, seen: nat)
  {
    && TxInv(r.0, completed, seen) && Orderly(r.0, completed, None) && r.0.asked == t.asked
    && (r.1 ==> NoPostWait(r.0.queue, |r.0.queue|)) && (InOrder(t.work) ==> InOrder(r.0.work))
  }

  lemma CheckedOn(t: Tx, u: Tx, r: (Tx, bool), completed: nat, seen: nat)
    requires Checked(u, r, completed, seen) && u.asked == t.asked && (InOrder(t.work) ==> InOrder(u.work))
    ensures Checked(t, r, completed, seen)
  {
  }

  lemma CheckedAfter(t: Tx, completed: nat, seen: nat, i: nat)
    requires t.next < |t.slots| == R.BUFFERS && CanSend(t) && i < |t.queue| && t.queue[i].stage == PostWait
    requires var u := PostSend(t, i);
      Checked(u, CheckSends(u, i + 1), completed, seen) && (InOrder(t.work) ==> InOrder(u.work))
    ensures Checked(t, CheckSends(t, i), completed, seen)
  {
    CheckedOn(t, PostSend(t, i), CheckSends(PostSend(t, i), i + 1), completed, seen);
  }

  lemma CheckedNow(t: Tx, completed: nat, seen: nat, i: nat)
    requires Ready(t, completed, seen, i) && (i == |t.queue| || !CanSend(t))
    ensures Checked(t, CheckSends(t, i), completed, seen)
  {
  }

  lemma {:induction false} CheckSendsOrderly(t: Tx, completed: nat, seen: nat, i: nat)
    requires Ready(t, completed, seen, i)
    ensures Checked(t, CheckSends(t, i), completed, seen)
    decreases |t.queue| - i
  {
    if i == |t.queue| || !CanSend(t) {
      CheckedNow(t, completed, seen, i);
    } else if t.queue[i].stage == PostWait {
      CheckStep(t, completed, seen, i);
      CheckSendsOrderly(PostSend(t, i), completed, seen, i + 1);
      CheckedAfter(t, completed, seen, i);
    } else {
      CheckSkip(t, completed, seen, i);
      CheckSendsOrderly(t, completed, seen, i + 1);
      assert CheckSends(t, i) == CheckSends(t, i + 1);
    }
  }

  lemma EnqueueAligned(t: Tx, completed: nat, msg: Msg)
    requires Aligned(t, completed)
    ensures Aligned(Enqueue(t, msg), completed)
  {
    var u := Enqueue(t, msg);
    forall k | completed <= k < |u.work| ensures HasOut(u.queue, u.work[k].id, CompWait) {
      assert HasOut(t.queue, t.work[k].id, CompWait);
      var j :| 0 <= j < |t.queue| && t.queue[j].id == t.work[k].id && t.queue[j].stage == CompWait;
      assert u.queue[j] == t.queue[j];
    }
  }

  lemma EnqueueAccounted(t: Tx, completed: nat, msg: Msg)
    requires Queue(t, completed) && Accounted(t)
    ensures Accounted(Enqueue(t, msg))
  {
    var u := Enqueue(t, msg);
    forall id: nat | id < |u.asked| && !Among(u.work, 0, id) ensures HasOut(u.queue, id, PostWait) {
      if id == |t.asked| {
        assert u.queue[|t.queue|].id == id && u.queue[|t.queue|].stage == PostWait;
      } else {
        assert HasOut(t.queue, id, PostWait);
        var j :| 0 <= j < |t.queue| && t.queue[j].id == id && t.queue[j].stage == PostWait;
        assert u.queue[j] == t.queue[j];
      }
    }
  }

  lemma EnqueueOrderly(t: Tx, completed: nat, seen: nat, msg: Msg)
    requires TxInv(t, completed, seen) && Orderly(t, completed, None)
    ensures Orderly(Enqueue(t, msg), completed, None)
  {
    EnqueueInv(t, completed, seen, msg);
    EnqueueAligned(t, completed, msg);
    EnqueueAccounted(t, completed, msg);
  }

  lemma AsendOrderly(t: Tx, completed: nat, seen: nat, msg: Msg)
    requires TxInv(t, completed, seen) && Orderly(t, completed, None)
    ensures Orderly(Asend(t, msg), completed, None) && Asend(t, msg).asked == t.asked + [msg]
  {
    var (c, clear) := CheckSends(t, 0);
    CheckSendsOrderly(t, completed, seen, 0);
    EnqueueInv(c, completed, seen, msg);
    EnqueueOrderly(c, completed, seen, msg);
    if clear && CanSend(c) {
      PostOrderly(Enqueue(c, msg), completed, seen, |c.queue|);
    }
  }

  // ------------------------------------------------------------------ removing

  lemma RemoveAligned(t: Tx, completed: nat, i: nat)
    requires Aligned(t, completed) && i < |t.queue| && t.queue[i].stage == Done
    ensures Aligned(t.(queue := R.Without(t.queue, i)), completed)
  {
    var n := R.Without(t.queue, i);
    forall k | completed <= k < |t.work| ensures HasOut(n, t.work[k].id, CompWait) {
      assert HasOut(t.queue, t.work[k].id, CompWait);
      var j :| 0 <= j < |t.queue| && t.queue[j].id == t.work[k].id && t.queue[j].stage == CompWait;
      assert n[if j < i then j else j - 1] == t.queue[j];
    }
  }

  lemma RemoveBehind(q: seq<Out>, i: nat, waiting: Option<nat>)
    requires Behind(q, waiting) && i < |q| && q[i].stage == Done && (waiting == None || waiting == Some(q[i].id))
    requires forall j, k :: 0 <= j < k < |q| ==> q[j].id < q[k].id
    ensures Behind(R.Without(q, i), None)
  {
    var n := R.Without(q, i);
    forall j, k | 0 <= j < k < |n| ensures !(n[j].stage == PostWait && n[k].stage == CompWait) {
      assert n[j] == q[if j < i then j else j + 1] && n[k] == q[if k < i then k else k + 1];
    }
  }

  lemma RemoveKeeps(q: seq<Out>, i: nat)
    requires i < |q| && q[i].stage == Done
    ensures SamePostWaits(q, R.Without(q, i))
  {
    var n := R.Without(q, i);
    forall j | 0 <= j < |q| && q[j].stage == PostWait ensures q[j] in n {
      assert n[if j < i then j else j - 1] == q[j];
    }
    forall j | 0 <= j < |n| && n[j].stage == PostWait ensures n[j] in q {
      assert q[if j < i then j else j + 1] == n[j];
    }
  }

  lemma RemoveOrderly(t: Tx, completed: nat, seen: nat, i: nat, waiting: Option<nat>)
    requires TxInv(t, completed, seen) && Orderly(t, completed, waiting)
    requires i < |t.queue| && t.queue[i].stage == Done && (waiting == None || waiting == Some(t.queue[i].id))
    ensures Orderly(t.(queue := R.Without(t.queue, i)), completed, None)
  {
    var u := t.(queue := R.Without(t.queue, i));
    RemoveInv(t, completed, seen, i);
    RemoveAligned(t, completed, i);
    RemoveBehind(t.queue, i, waiting);
    RemoveKeeps(t.queue, i);
    KeepsPostWaits(t, u);
  }

  // ------------------------------------------------------------------ every run

  lemma Elsewhere(l: Link, act: Act, m: Link)
    requires Leap(l, act, m) && (act.Arrival? || act.Update? || act.Receive?)
    ensures m.tx == l.tx.(remFreed := m.tx.remFreed) && m.completed == l.completed && m.waiting == l.waiting
  {
  }

  lemma SendOrderly(l: Link, msg: Msg, m: Link)
    requires Leap(l, Send(msg), m) && TxInv(l.tx, l.completed, l.seen) && Orderly(l.tx, l.completed, l.waiting)
    ensures Orderly(m.tx, m.completed, m.waiting)
  {
    AsendOrderly(l.tx, l.completed, l.seen, msg);
  }

  lemma LatePostOrderly(l: Link, i: nat, m: Link)
    requires Leap(l, LatePost(i), m) && TxInv(l.tx, l.completed, l.seen) && Orderly(l.tx, l.completed, l.waiting)
    ensures Orderly(m.tx, m.completed, m.waiting)
  {
    PostOrderly(l.tx, l.completed, l.seen, i);
  }

  lemma FinishOrderly(l: Link, i: nat, m: Link)
    requires Leap(l, Remove(i), m) && TxInv(l.tx, l.completed, l.seen) && Orderly(l.tx, l.completed, l.waiting)
    ensures Orderly(m.tx, m.completed, m.waiting)
  {
    RemoveOrderly(l.tx, l.completed, l.seen, i, l.waiting);
  }

  lemma CompletionIs(l: Link, m: Link)
    requires Leap(l, Completion, m) && |l.h.arrivals| <= |l.tx.work|
    ensures l.completed < |l.tx.work| && HandleSend(l.tx) == Some(m.tx)
    ensures m.completed == l.completed + 1 && m.waiting == l.waiting
  {
  }

  lemma CompletionOrderly(l: Link, m: Link)
    requires TxInv(l.tx, l.completed, l.seen) && Orderly(l.tx, l.completed, l.waiting) && l.completed < |l.tx.work|
    requires HandleSend(l.tx) == Some(m.tx) && m.completed == l.completed + 1 && m.waiting == l.waiting
    ensures Orderly(m.tx, m.completed, m.waiting)
  {
    HandleOrderly(l.tx, l.completed, l.seen, l.waiting);
  }

  lemma SameOrderly(t: Tx, completed: nat, waiting: Option<nat>, remFreed: int)
    requires Orderly(t, completed, waiting)
    ensures Orderly(t.(remFreed := remFreed), completed, waiting)
  {
    var u := t.(remFreed := remFreed);
    assert Aligned(u, completed);
    assert Accounted(u);
  }

  lemma StillOrderly(l: Link, act: Act, m: Link)
    requires Joint(l) && Orderly(l.tx, l.completed, l.waiting) && Leap(l, act, m)
    ensures Orderly(m.tx, m.completed, m.waiting)
  {
    match act
    case Send(msg) => SendOrderly(l, msg, m);
    case LatePost(i) => LatePostOrderly(l, i, m);
    case Remove(i) => FinishOrderly(l, i, m);
    case Completion =>
      CompletionIs(l, m);
      CompletionOrderly(l, m);
    case _ =>
      Elsewhere(l, act, m);
      SameOrderly(l.tx, l.completed, l.waiting, m.tx.remFreed);
  }

  lemma StartOrderly(slots: seq<Msg>)
    ensures var l := Start(slots); Orderly(l.tx, l.completed, l.waiting)
  {
  }

  lemma {:induction false} EveryRunOrderly(slots: seq<Msg>, acts: seq<Act>, l: Link)
    requires |slots| == R.BUFFERS && Leads(slots, acts, l)
    ensures Joint(l) && Orderly(l.tx, l.completed, l.waiting)
    decreases |acts|
  {
    EveryRunIntact(slots, acts, l);
    if acts == [] {
      StartOrderly(slots);
    } else {
      var last := |acts| - 1;
      var k :| Leads(slots, acts[..last], k) && Leap(k, acts[last], l);
      EveryRunOrderly(slots, acts[..last], k);
      StillOrderly(k, acts[last], l);
    }
  }

  // In every run, whatever the order of the waits, a completion is counted for the message
  // it is of.
  lemma CompletionsAreRight(slots: seq<Msg>, acts: seq<Act>, l: Link)
    requires |slots| == R.BUFFERS && Leads(slots, acts, l) && l.completed < |l.tx.work|
    ensures var i := FindCompWait(l.tx.queue); i < |l.tx.queue| && l.tx.queue[i].id == l.tx.work[l.completed].id
  {
    EveryRunOrderly(slots, acts, l);
    MarksItsOwn(l.tx, l.completed);
  }

  // ------------------------------------------------------------------ posting late

  // ib_eager_finish_send posts its message at once when there is credit.  That keeps the
  // order exactly when no earlier message is still waiting to be posted.
  lemma LatePostOrder(t: Tx, completed: nat, i: nat)
    requires Queue(t, completed) && Accounted(t) && InOrder(t.work) && t.next < |t.slots|
    requires i < |t.queue| && t.queue[i].stage == PostWait
    ensures InOrder(PostSend(t, i).work) <==> FirstPostWait(t.queue, i)
  {
    var u := PostSend(t, i);
    assert u.work[|t.work|].id == t.queue[i].id;
    if FirstPostWait(t.queue, i) {
      FirstIsNext(t, completed, i);
    } else {
      var j := FirstOf(t.queue, i);
      FirstIsNext(t, completed, j);
    }
  }

  lemma FirstOf(q: seq<Out>, i: nat) returns (j: nat)
    requires i < |q| && q[i].stage == PostWait
    ensures j <= i && FirstPostWait(q, j)
  {
    j := 0;
    while q[j].stage != PostWait
      invariant j <= i && forall k :: 0 <= k < j ==> q[k].stage != PostWait
      decreases i - j
    {
      j := j + 1;
    }
  }

  lemma AsendOrder(t: Tx, completed: nat, seen: nat, msg: Msg)
    requires TxInv(t, completed, seen) && Orderly(t, completed, None) && InOrder(t.work)
    ensures InOrder(Asend(t, msg).work)
  {
    var (c, clear) := CheckSends(t, 0);
    CheckSendsOrderly(t, completed, seen, 0);
    if clear && CanSend(c) {
      EnqueueOrderly(c, completed, seen, msg);
      FirstIsNext(Enqueue(c, msg), completed, |c.queue|);
    }
  }

  ghost predicate InTurn(k: Link, act: Act)
  {
    act.LatePost? ==> FirstPostWait(k.tx.queue, act.i)
  }

  // Every step keeps the order, but for posting late out of turn.
  lemma DoOrder(l: Link, act: Act, m: Link)
    requires TxInv(l.tx, l.completed, l.seen) && Orderly(l.tx, l.completed, l.waiting)
    requires InOrder(l.tx.work) && Leap(l, act, m) && InTurn(l, act)
    ensures InOrder(m.tx.work)
  {
    match act
    case Send(msg) => AsendOrder(l.tx, l.completed, l.seen, msg);
    case LatePost(i) => FirstIsNext(l.tx, l.completed, i);
    case _ =>
  }

  // A run in which waits for messages that are not posted yet come in the order of the sends.
  ghost predicate LeadsInTurn(slots: seq<Msg>, acts: seq<Act>, l: Link)
  {
    if acts == [] then
      l == Start(slots)
    else
      var last := |acts| - 1;
      exists k :: LeadsInTurn(slots, acts[..last], k) && Leap(k, acts[last], l) && InTurn(k, acts[last])
  }

  lemma {:induction false} InTurnLeads(slots: seq<Msg>, acts: seq<Act>, l: Link)
    requires LeadsInTurn(slots, acts, l)
    ensures Leads(slots, acts, l)
    decreases |acts|
  {
    if acts == [] {
    } else {
      var last := |acts| - 1;
      var k :| LeadsInTurn(slots, acts[..last], k) && Leap(k, acts[last], l) && InTurn(k, acts[last]);
      InTurnLeads(slots, acts[..last], k);
    }
  }

  lemma {:induction false} InTurnInOrder(slots: seq<Msg>, acts: seq<Act>, l: Link)
    requires |slots| == R.BUFFERS && LeadsInTurn(slots, acts, l)
    ensures InOrder(l.tx.work)
    decreases |acts|
  {
    if acts == [] {
    } else {
      var last := |acts| - 1;
      var k :| LeadsInTurn(slots, acts[..last], k) && Leap(k, acts[last], l) && InTurn(k, acts[last]);
      InTurnInOrder(slots, acts[..last], k);
      InTurnLeads(slots, acts[..last], k);
      EveryRunOrderly(slots, acts[..last], k);
      DoOrder(k, acts[last], l);
    }
  }

  lemma WorkGrows(l: Link, act: Act, m: Link)
    requires TxInv(l.tx, l.completed, l.seen) && Leap(l, act, m)
    ensures l.tx.work <= m.tx.work
  {
    if act.Send? { AsendInv(l.tx, l.completed, l.seen, act.msg); }
  }

  lemma OnlyInTurn(l: Link, act: Act, m: Link)
    requires TxInv(l.tx, l.completed, l.seen) && Orderly(l.tx, l.completed, l.waiting) && Leap(l, act, m)
    requires InOrder(m.tx.work)
    ensures InOrder(l.tx.work) && InTurn(l, act)
  {
    WorkGrows(l, act, m);
    if act.LatePost? { LatePostOrder(l.tx, l.completed, act.i); }
  }

  // The messages of a run are posted in the order of the calls if and only if no wait has
  // posted its message out of turn.
  lemma {:induction false} InOrderExactly(slots: seq<Msg>, acts: seq<Act>, l: Link)
    requires |slots| == R.BUFFERS && Leads(slots, acts, l)
    ensures InOrder(l.tx.work) <==> LeadsInTurn(slots, acts, l)
    decreases |acts|
  {
    if LeadsInTurn(slots, acts, l) {
      InTurnInOrder(slots, acts, l);
    } else if InOrder(l.tx.work) {
      var last := |acts| - 1;
      var k :| Leads(slots, acts[..last], k) && Leap(k, acts[last], l);
      EveryRunOrderly(slots, acts[..last], k);
      OnlyInTurn(k, acts[last], l);
      InOrderExactly(slots, acts[..last], k);
      assert false;
    }
  }

  lemma AskedSteps(l: Link, act: Act, m: Link)
    requires TxInv(l.tx, l.completed, l.seen) && Orderly(l.tx, l.completed, l.waiting) && Leap(l, act, m)
    ensures m.tx.asked == l.tx.asked + if act.Send? then [act.msg] else []
  {
    if act.Send? { AsendOrderly(l.tx, l.completed, l.seen, act.msg); }
  }

  lemma {:induction false} AskedIsCalled(slots: seq<Msg>, acts: seq<Act>, l: Link)
    requires |slots| == R.BUFFERS && Leads(slots, acts, l)
    ensures l.tx.asked == Called(acts)
    decreases |acts|
  {
    if acts == [] {
    } else {
      var last := |acts| - 1;
      var k :| Leads(slots, acts[..last], k) && Leap(k, acts[last], l);
      AskedIsCalled(slots, acts[..last], k);
      EveryRunOrderly(slots, acts[..last], k);
      AskedSteps(k, acts[last], l);
    }
  }

  // In every run what arrives are the messages of calls, each of at most one arrival, and in
  // the order in which they were posted.
  lemma ArrivalsAreCalled(slots: seq<Msg>, acts: seq<Act>, l: Link)
    requires |slots| == R.BUFFERS && Leads(slots, acts, l)
    ensures |l.h.arrivals| <= |l.tx.work|
    ensures forall k :: 0 <= k < |l.h.arrivals| ==>
      l.tx.work[k].id < |Called(acts)| && l.h.arrivals[k] == Called(acts)[l.tx.work[k].id]
    ensures forall j, k :: 0 <= j < k < |l.h.arrivals| ==> l.tx.work[j].id != l.tx.work[k].id
  {
    EveryRunOrderly(slots, acts, l);
    AskedIsCalled(slots, acts, l);
  }

  // In such a run what arrives is what was sent, in that order.
  lemma SentInOrder(slots: seq<Msg>, acts: seq<Act>, l: Link)
    requires |slots| == R.BUFFERS && LeadsInTurn(slots, acts, l)
    ensures l.h.arrivals <= Called(acts)
  {
    InTurnLeads(slots, acts, l);
    AskedIsCalled(slots, acts, l);
    InTurnInOrder(slots, acts, l);
    EveryRunOrderly(slots, acts, l);
    ArrivedInOrder(l);
  }

  lemma ArrivedInOrder(l: Link)
    requires Queue(l.tx, l.completed) && InStep(l.tx.work, l.completed, l.seen, l.h) && InOrder(l.tx.work)
    ensures l.h.arrivals <= l.tx.asked
  {
    if |l.tx.work| > 0 {
      assert l.tx.work[|l.tx.work| - 1].id < |l.tx.asked|;
    }
  }

  // ------------------------------------------------------------------ overtaking

  lemma RunExtended(slots: seq<Msg>, acts: seq<Act>, l: Link, act: Act, m: Link)
    requires Leads(slots, acts, l) && Leap(l, act, m)
    ensures Leads(slots, acts + [act], m)
  {
    var more := acts + [act];
    assert more[..|more| - 1] == acts && more[|more| - 1] == act;
  }

  // A run that has gone as far as l goes on.
  lemma GoesOn(slots: seq<Msg>, acts: seq<Act>, l: Link, act: Act) returns (m: Link)
    requires |slots| == R.BUFFERS && Leads(slots, acts, l) && Possible(l, act)
    ensures Leap(l, act, m) && Leads(slots, acts + [act], m)
  {
    EveryRunIntact(slots, acts, l);
    DoJoint(l, act);
    m := Do(l, act).value;
    RunExtended(slots, acts, l, act, m);
  }

  lemma {:induction false} NothingToPost(t: Tx, i: nat)
    requires CanSend(t) && i <= |t.queue| && t.next < |t.slots| == R.BUFFERS
    requires forall j :: 0 <= j < |t.queue| ==> t.queue[j].stage != PostWait
    ensures CheckSends(t, i) == (t, true)
    decreases |t.queue| - i
  {
    if i == |t.queue| {
    } else {
      NothingToPost(t, i + 1);
    }
  }

  // With credit and nothing left to post a message is posted at once; without credit it is
  // queued.
  lemma SendNow(t: Tx, completed: nat, seen: nat, msg: Msg)
    requires TxInv(t, completed, seen) && Orderly(t, completed, None) && InOrder(t.work)
    requires CanSend(t) && |t.work| == |t.asked|
    ensures |Asend(t, msg).work| == |t.work| + 1
  {
    forall j | 0 <= j < |t.queue| ensures t.queue[j].stage != PostWait {
      assert t.work[t.queue[j].id].id == t.queue[j].id;
      assert Among(t.work, 0, t.queue[j].id);
    }
    NothingToPost(t, 0);
  }

  lemma SendLater(t: Tx, msg: Msg)
    requires t.next < |t.slots| == R.BUFFERS && !CanSend(t)
    ensures Asend(t, msg) == Enqueue(t, msg)
  {
  }

  // The sender after its first calls, with nothing arrived yet.
  ghost predicate Sent(l: Link, asked: seq<Msg>, posted: nat)
  {
    && l.tx.asked == asked && |l.tx.work| == posted && InOrder(l.tx.work)
    && l.completed == 0 && l.seen == R.BUFFERS && l.h == R.NOTHING && l.waiting == None
  }

  lemma SendOne(slots: seq<Msg>, acts: seq<Act>, l: Link, msg: Msg) returns (m: Link)
    requires |slots| == R.BUFFERS && Leads(slots, acts, l)
    requires Sent(l, l.tx.asked, |l.tx.work|)
    requires |l.tx.work| < R.BUFFERS ==> |l.tx.asked| == |l.tx.work|
    ensures Leads(slots, acts + [Send(msg)], m)
    ensures Sent(m, l.tx.asked + [msg], |l.tx.work| + if |l.tx.work| < R.BUFFERS then 1 else 0)
  {
    EveryRunOrderly(slots, acts, l);
    m := GoesOn(slots, acts, l, Send(msg));
    CreditTest(l.tx, 0, R.BUFFERS);
    AsendOrderly(l.tx, 0, R.BUFFERS, msg);
    AsendOrder(l.tx, 0, R.BUFFERS, msg);
    if |l.tx.work| < R.BUFFERS {
      SendNow(l.tx, 0, R.BUFFERS, msg);
    } else {
      SendLater(l.tx, msg);
    }
  }

  // After the six calls four messages are posted and the last two wait.
  lemma SixCalls(slots: seq<Msg>, a: Msg, b: Msg) returns (acts: seq<Act>, l: Link)
    requires |slots| == R.BUFFERS
    ensures Leads(slots, acts, l) && Sent(l, [a, a, a, a, a, b], 4)
  {
    acts, l := [], Start(slots);
    for n := 0 to 5
      invariant Leads(slots, acts, l) && |l.tx.asked| == n && Sent(l, l.tx.asked, if n < 4 then n else 4)
      invariant forall i :: 0 <= i < n ==> l.tx.asked[i] == a
    {
      l := SendOne(slots, acts, l, a);
      acts := acts + [Send(a)];
    }
    assert l.tx.asked + [b] == [a, a, a, a, a, b];
    l := SendOne(slots, acts, l, b);
    acts := acts + [Send(b)];
  }

  lemma ArrivalsGo(slots: seq<Msg>, acts0: seq<Act>, l0: Link, n: nat) returns (acts: seq<Act>, l: Link)
    requires |slots| == R.BUFFERS && Leads(slots, acts0, l0) && |l0.h.arrivals| <= n <= |l0.tx.work|
    ensures Leads(slots, acts, l) && |l.h.arrivals| == n
    ensures l.tx == l0.tx && l.completed == l0.completed && l.seen == l0.seen && l.waiting == l0.waiting
  {
    acts, l := acts0, l0;
    while |l.h.arrivals| < n
      invariant Leads(slots, acts, l) && |l.h.arrivals| <= n
      invariant l.tx == l0.tx && l.completed == l0.completed && l.seen == l0.seen && l.waiting == l0.waiting
      decreases n - |l.h.arrivals|
    {
      var m := GoesOn(slots, acts, l, Arrival);
      ThenGrows(l.rx, l.h, R.Arrival(OnWire(l)));
      acts, l := acts + [Arrival], m;
    }
  }

  // A receive for a message that has arrived is matched at once, if none was before.
  lemma FirstIsMatched(l: Link, post: Post, m: Link)
    requires Joint(m) && Leap(l, Receive(R.Posting(post)), m)
    requires |l.h.arrivals| > 0 && Accepts(post, l.h.arrivals[0])
    ensures |m.h.pairs| > 0 && m.tx == l.tx && m.completed == l.completed && m.seen == l.seen && m.waiting == l.waiting
    ensures m.h.arrivals == l.h.arrivals
  {
    var p := |l.h.posts|;
    assert m.h.posts == l.h.posts + [post];
    assert !Blocking(m.h.arrivals, m.h.posts, m.h.pairs, 0, p);
    assert m.h.pairs != {};
  }

  lemma FirstCompletes(slots: seq<Msg>, acts0: seq<Act>, l0: Link) returns (acts: seq<Act>, l: Link)
    requires |slots| == R.BUFFERS && Leads(slots, acts0, l0) && Sent(l0, l0.tx.asked, 4)
    ensures Leads(slots, acts, l) && l.completed == 1 && l.seen == 4 && l.waiting == None && |l.h.arrivals| == 1
    ensures l.tx.work == l0.tx.work && l.tx.asked == l0.tx.asked
  {
    acts, l := ArrivalsGo(slots, acts0, l0, 1);
    var m := GoesOn(slots, acts, l, Completion);
    acts, l := acts + [Completion], m;
  }

  lemma FirstIsReceived(slots: seq<Msg>, acts0: seq<Act>, l0: Link) returns (acts: seq<Act>, l: Link)
    requires |slots| == R.BUFFERS && Leads(slots, acts0, l0) && |l0.h.arrivals| > 0
    ensures Leads(slots, acts, l) && |l.h.pairs| > 0 && l.tx == l0.tx && l.completed == l0.completed
    ensures l.seen == l0.seen && l.waiting == l0.waiting && l.h.arrivals == l0.h.arrivals
  {
    var post := Post(-1, l0.h.arrivals[0].nbytes);
    l := GoesOn(slots, acts0, l0, Receive(R.Posting(post)));
    acts := acts0 + [Receive(R.Posting(post))];
    EveryRunIntact(slots, acts, l);
    FirstIsMatched(l0, post, l);
  }

  // One message is complete and one buffer free again: the sender has credit for one more.
  lemma CreditAgain(slots: seq<Msg>, acts0: seq<Act>, l0: Link) returns (acts: seq<Act>, l: Link)
    requires |slots| == R.BUFFERS && Leads(slots, acts0, l0) && Sent(l0, l0.tx.asked, 4)
    ensures Leads(slots, acts, l) && l.completed == 1 && l.seen == 5 && l.waiting == None && |l.h.arrivals| == 1
    ensures l.tx.work == l0.tx.work && l.tx.asked == l0.tx.asked
  {
    acts, l := FirstCompletes(slots, acts0, l0);
    acts, l := FirstIsReceived(slots, acts, l);
    var m := GoesOn(slots, acts, l, Update(5));
    acts, l := acts + [Update(5)], m;
  }

  lemma LastTwoWait(l: Link)
    requires Joint(l) && Orderly(l.tx, l.completed, l.waiting) && InOrder(l.tx.work)
    requires |l.tx.asked| == 6 && |l.tx.work| == 4 && l.completed == 1 && l.seen == 5
    ensures CanSend(l.tx) && HasOut(l.tx.queue, 4, PostWait) && HasOut(l.tx.queue, 5, PostWait)
  {
    CreditTest(l.tx, 1, 5);
    AmongInOrder(l.tx.work, 4);
    AmongInOrder(l.tx.work, 5);
  }

  lemma LastPosted(l: Link, i: nat, m: Link)
    requires Leap(l, LatePost(i), m) && l.tx.queue[i].id == 5 && HasOut(l.tx.queue, 4, PostWait)
    ensures m.h == l.h && m.tx.asked == l.tx.asked && |m.tx.work| == |l.tx.work| + 1
    ensures m.tx.work[|l.tx.work|].id == 5 && HasOut(m.tx.queue, 4, PostWait)
  {
    var j :| 0 <= j < |l.tx.queue| && l.tx.queue[j].id == 4 && l.tx.queue[j].stage == PostWait;
    assert m.tx.queue[j] == l.tx.queue[j];
  }

  // It waits for the last message, which so is posted before the one in front of it.
  lemma PostLast(slots: seq<Msg>, acts0: seq<Act>, l0: Link) returns (acts: seq<Act>, l: Link)
    requires |slots| == R.BUFFERS && Leads(slots, acts0, l0) && |l0.tx.asked| == 6 && |l0.tx.work| == 4
    requires InOrder(l0.tx.work) && l0.completed == 1 && l0.seen == 5 && l0.waiting == None
    ensures Leads(slots, acts, l) && l.h == l0.h && l.tx.asked == l0.tx.asked
    ensures |l.tx.work| == 5 && l.tx.work[4].id == 5 && HasOut(l.tx.queue, 4, PostWait)
  {
    EveryRunOrderly(slots, acts0, l0);
    LastTwoWait(l0);
    var i :| 0 <= i < |l0.tx.queue| && l0.tx.queue[i].id == 5 && l0.tx.queue[i].stage == PostWait;
    l := GoesOn(slots, acts0, l0, LatePost(i));
    acts := acts0 + [LatePost(i)];
    LastPosted(l0, i, l);
  }

  // For any two messages there is a run from the start in which the second, sent last, has
  // arrived while an earlier call's is not even posted.
  lemma Overtaking(slots: seq<Msg>, a: Msg, b: Msg) returns (acts: seq<Act>, l: Link)
    requires |slots| == R.BUFFERS && a != b
    ensures Leads(slots, acts, l) && l.tx.asked == [a, a, a, a, a, b]
    ensures |l.h.arrivals| == 5 && l.h.arrivals[4] == b && !(l.h.arrivals <= l.tx.asked)
    ensures HasOut(l.tx.queue, 4, PostWait)
  {
    acts, l := SixCalls(slots, a, b);
    acts, l := CreditAgain(slots, acts, l);
    acts, l := PostLast(slots, acts, l);
    acts, l := ArrivalsGo(slots, acts, l, 5);
    EveryRunIntact(slots, acts, l);
    assert l.tx.work[4].msg == l.tx.asked[5];
  }
}
