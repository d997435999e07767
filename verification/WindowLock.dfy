/**
 The lock of a one-sided window (MP_Lite/tcp.c): do_lock grants shared and exclusive
 requests or puts them in a circular queue, and works the queue off when an unlock leaves
 the window free.

 `Win` is the state as a value and the functions on it say what a request does; the class
 at the end does the same in place.  (globals.h has the types of lock one lower in one of
 its comments; the code agrees with the other.)
 */
module WindowLock {
  import opened Common

  const LOCK_Q_SIZE := 1000

  // kind 0 is a request to unlock, 1 for a shared lock, anything else for an exclusive one.
  datatype Request = Request(src: nat, kind: nat)

  // `holders` are the processes that have been told they have the lock, and which: a
  // process returns from MP_Win_lock once it has been told.
  datatype Win = Win(locked: nat, count: int, queue: seq<Request>, holders: map<nat, nat>)

  // ------------------------------------------------------------------ operations

  // try_lock with a request to lock: whether it is granted.
  predicate Grantable(w: Win, kind: nat)
  {
    if kind == 1 then w.locked <= 1 else w.locked == 0
  }

  function Granted(w: Win, r: Request): Win
  {
    w.(locked := r.kind, count := w.count + 1, holders := w.holders[r.src := r.kind])
  }

  // The circular array cannot tell a full queue from an empty one.
  function Enqueued(queue: seq<Request>, r: Request): seq<Request>
  {
    if |queue| + 1 == LOCK_Q_SIZE then [] else queue + [r]
  }

  // The loop over the queue.
  function ServeQueue(w: Win): Win
    decreases |w.queue|
  {
    if w.queue != [] && Grantable(w, w.queue[0].kind) then
      ServeQueue(Granted(w, w.queue[0]).(queue := w.queue[1..]))
    else
      w
  }

  // try_lock with a request to unlock; None is the error exit.
  function Unlocked(w: Win, src: nat): Option<Win>
  {
    if w.count - 1 < 0 then None
    else
      Some(w.(count := w.count - 1, locked := if w.count - 1 == 0 then 0 else w.locked, holders := w.holders - {src}))
  }

  function DoLock(w: Win, r: Request): Option<Win>
  {
    if r.kind == 0 then
      match Unlocked(w, r.src)
      case None => None
      case Some(v) => Some(if v.locked == 0 then ServeQueue(v) else v)
    else if Grantable(w, r.kind) then Some(Granted(w, r))
    else Some(w.(queue := Enqueued(w.queue, r)))
  }

  // ------------------------------------------------------------------ invariant

  // With n processes.
  ghost predicate Lock(n: nat, w: Win)
  {
    && w.count == |w.holders|
    && (w.locked == 0 <==> w.holders == map[])
    && (forall p :: p in w.holders ==> p < n && w.holders[p] == w.locked)
    && (w.locked >= 2 ==> w.count == 1)
  }

  ghost predicate Waiting(n: nat, w: Win)
  {
    && (forall i :: 0 <= i < |w.queue| ==> w.queue[i].src < n && w.queue[i].src !in w.holders && w.queue[i].kind > 0)
    && (forall i, j :: 0 <= i < j < |w.queue| ==> w.queue[i].src != w.queue[j].src)
  }

  // No one waits without need: while the window is free no one does, and while it is shared
  // the first in the queue wants it exclusively.
  ghost predicate NoneForgotten(w: Win)
  {
    w.queue != [] ==> !Grantable(w, w.queue[0].kind)
  }

  ghost predicate Inv(n: nat, w: Win)
  {
    Lock(n, w) && Waiting(n, w) && NoneForgotten(w)
  }

  // Processes ask for a lock when they neither have nor await one, and give back what they
  // have.
  ghost predicate WellFormed(n: nat, w: Win, r: Request)
  {
    if r.kind == 0 then r.src in w.holders
    else r.src < n && r.src !in w.holders && forall i :: 0 <= i < |w.queue| ==> w.queue[i].src != r.src
  }

  // ------------------------------------------------------------------ what it gives

  // In terms of who holds the lock: a request is granted if nobody does, or if it is for a
  // shared lock and all who do share it.  Otherwise it goes to the end of the queue.
  lemma GrantedExactly(n: nat, w: Win, r: Request)
    requires Inv(n, w) && WellFormed(n, w, r) && r.kind > 0 && |w.queue| + 1 < LOCK_Q_SIZE
    ensures DoLock(w, r).Some?
    ensures var v := DoLock(w, r).value;
      if w.holders == map[] || (r.kind == 1 && forall p :: p in w.holders ==> w.holders[p] == 1)
      then v.holders == w.holders[r.src := r.kind] && v.queue == w.queue
      else v.holders == w.holders && v.queue == w.queue + [r]
  {
    if w.holders != map[] {
      var p :| p in w.holders;
      assert w.holders[p] == w.locked;
    }
  }

  // Who waits first does so because the lock is held, and by someone who does not share it if
  // it is shared that is asked for.
  lemma WaitsForSomeone(n: nat, w: Win)
    requires Inv(n, w) && w.queue != []
    ensures w.holders != map[]
    ensures w.queue[0].kind == 1 ==> forall p :: p in w.holders ==> w.holders[p] > 1
  {
  }

  // Nobody shares the window with an exclusive holder.
  lemma Exclusive(n: nat, w: Win, p: nat, q: nat)
    requires Inv(n, w) && p in w.holders && q in w.holders && p != q
    ensures w.holders[p] == w.holders[q] == 1
  {
    if w.locked >= 2 {
      OneHolder(w.holders, p, q);
    }
  }

  lemma OneHolder(m: map<nat, nat>, p: nat, q: nat)
    requires p in m && q in m && p != q
    ensures |m| >= 2
  {
    assert |m.Keys| == |m|;
    SubsetSmaller({p, q}, m.Keys);
  }

  // A set of processes that are waiting.
  function Sources(queue: seq<Request>): (s: set<nat>)
  {
    set i | 0 <= i < |queue| :: queue[i].src
  }

  lemma {:induction false} DistinctSources(queue: seq<Request>)
    requires forall i, j :: 0 <= i < j < |queue| ==> queue[i].src != queue[j].src
    ensures |Sources(queue)| == |queue|
  {
    if queue == [] {
    } else {
      var last := |queue| - 1;
      DistinctSources(queue[..last]);
      assert Sources(queue) == Sources(queue[..last]) + {queue[last].src};
      assert queue[last].src !in Sources(queue[..last]);
    }
  }

  lemma {:induction false} BoundedSet(n: nat, s: set<nat>)
    requires forall p :: p in s ==> p < n
    ensures |s| <= n
    decreases n
  {
    if n == 0 {
      assert s == {};
    } else {
      BoundedSet(n - 1, s - {n - 1});
    }
  }

  // Whoever waits is not a holder and there is a holder: so there is room for the rest.
  lemma RoomInQueue(n: nat, w: Win)
    requires Lock(n, w) && Waiting(n, w) && w.locked != 0
    ensures |w.queue| + 1 <= n
  {
    DistinctSources(w.queue);
    var all := Sources(w.queue) + w.holders.Keys;
    assert Sources(w.queue) !! w.holders.Keys;
    assert |all| == |w.queue| + |w.holders.Keys|;
    BoundedSet(n, all);
    assert w.holders.Keys != {};
  }

  // ------------------------------------------------------------------ it is kept

  lemma GrantedLock(n: nat, w: Win, r: Request)
    requires Lock(n, w) && r.kind > 0 && r.src < n && r.src !in w.holders && Grantable(w, r.kind)
    ensures Lock(n, Granted(w, r))
  {
  }

  lemma {:induction false} ServeQueueInv(n: nat, w: Win)
    requires Lock(n, w) && Waiting(n, w)
    ensures Inv(n, ServeQueue(w))
    decreases |w.queue|
  {
    if w.queue == [] || !Grantable(w, w.queue[0].kind) {
    } else {
      GrantedLock(n, w, w.queue[0]);
      ServeQueueInv(n, Granted(w, w.queue[0]).(queue := w.queue[1..]));
    }
  }

  lemma UnlockedLock(n: nat, w: Win, src: nat)
    requires Lock(n, w) && src in w.holders
    ensures Unlocked(w, src).Some? && Lock(n, Unlocked(w, src).value)
  {
    var v := w.holders - {src};
    assert w.holders == v[src := w.holders[src]];
    assert |v| == |w.holders| - 1;
    assert v == map[] <==> |v| == 0;
  }

  // A request that is queued joins the end of the queue, which has room if there are no
  // more processes than places.
  lemma QueuedInv(n: nat, w: Win, r: Request)
    requires Inv(n, w) && WellFormed(n, w, r) && r.kind > 0 && !Grantable(w, r.kind) && n <= LOCK_Q_SIZE
    ensures DoLock(w, r) == Some(w.(queue := w.queue + [r])) && Inv(n, DoLock(w, r).value)
  {
    var v := w.(queue := w.queue + [r]);
    assert Waiting(n, v);
    RoomInQueue(n, v);
  }

  // Every well-formed request is served without error and keeps the invariant.
  lemma DoLockInv(n: nat, w: Win, r: Request)
    requires Inv(n, w) && WellFormed(n, w, r) && n <= LOCK_Q_SIZE
    ensures DoLock(w, r).Some? && Inv(n, DoLock(w, r).value)
  {
    if r.kind == 0 {
      UnlockedLock(n, w, r.src);
      var v := Unlocked(w, r.src).value;
      assert Waiting(n, v);
      if v.locked == 0 { ServeQueueInv(n, v); }
    } else if Grantable(w, r.kind) {
      GrantedLock(n, w, r);
    } else {
      QueuedInv(n, w, r);
    }
  }

  // ------------------------------------------------------------------ order

  // How many are let in from the front of the queue when the window is free: one that wants
  // it exclusively, or all that want to share it up to the first that does not.
  function Batch(queue: seq<Request>): (k: nat)
    ensures k <= |queue|
  {
    if queue == [] then 0 else if queue[0].kind != 1 then 1 else Sharing(queue)
  }

  function Sharing(queue: seq<Request>): (k: nat)
    ensures k <= |queue| && (forall i :: 0 <= i < k ==> queue[i].kind == 1) && (k < |queue| ==> queue[k].kind != 1)
  {
    if queue == [] || queue[0].kind != 1 then 0 else 1 + Sharing(queue[1..])
  }

  // The holders after the requests in q have been told, in this order.
  function Told(m: map<nat, nat>, q: seq<Request>): map<nat, nat>
    decreases |q|
  {
    if q == [] then m else Told(m[q[0].src := q[0].kind], q[1..])
  }

  lemma OneOff(m: map<nat, nat>, q: seq<Request>, k: nat)
    requires 0 < k <= |q|
    ensures q[1..][k - 1..] == q[k..]
    ensures Told(m, q[..k]) == Told(m[q[0].src := q[0].kind], q[1..][..k - 1])
  {
    assert q[..k][1..] == q[1..][..k - 1];
  }

  lemma {:induction false} ServeShared(w: Win, k: nat)
    requires w.locked == 1 && k == Sharing(w.queue)
    requires forall i :: 0 <= i < |w.queue| ==> w.queue[i].kind > 0
    ensures ServeQueue(w) == Win(1, w.count + k, w.queue[k..], Told(w.holders, w.queue[..k]))
    decreases k
  {
    if k == 0 {
    } else {
      var v := Granted(w, w.queue[0]).(queue := w.queue[1..]);
      ServeShared(v, k - 1);
      OneOff(w.holders, w.queue, k);
    }
  }

  // Queued requests are let in in the order of the queue, each once: the batch at its front.
  lemma ServedInOrder(w: Win)
    requires w.locked == 0 && forall i :: 0 <= i < |w.queue| ==> w.queue[i].kind > 0
    ensures var k := Batch(w.queue);
      && ServeQueue(w).queue == w.queue[k..] && ServeQueue(w).count == w.count + k
      && ServeQueue(w).holders == Told(w.holders, w.queue[..k])
  {
    if w.queue != [] {
      var v := Granted(w, w.queue[0]).(queue := w.queue[1..]);
      var k := Batch(w.queue);
      if w.queue[0].kind == 1 {
        ServeShared(v, k - 1);
        OneOff(w.holders, w.queue, k);
      } else {
        assert ServeQueue(v) == v;
        assert w.queue[..1] == [w.queue[0]];
        assert Told(w.holders, [w.queue[0]]) == v.holders;
      }
    }
  }

  // A request is let in ahead of others that wait just when it is for a shared lock and the
  // window is shared: queued requests for an exclusive lock can be overtaken by those only.
  lemma Overtakes(n: nat, w: Win, r: Request)
    requires Inv(n, w) && WellFormed(n, w, r) && r.kind > 0 && w.queue != []
    ensures DoLock(w, r) == Some(Granted(w, r)) <==> r.kind == 1 && w.locked == 1
    ensures r.kind == 1 && w.locked == 1 ==> w.queue[0].kind != 1
  {
    assert r.src in Granted(w, r).holders && r.src !in w.holders;
  }

  // ------------------------------------------------------------------ runs

  ghost predicate Run(n: nat, requests: seq<Request>, w: Win)
  {
    if requests == [] then
      w == Win(0, 0, [], map[])
    else
      var last := |requests| - 1;
      exists v :: Run(n, requests[..last], v) && WellFormed(n, v, requests[last])
        && DoLock(v, requests[last]) == Some(w)
  }

  lemma {:induction false} EveryRunInv(n: nat, requests: seq<Request>, w: Win)
    requires Run(n, requests, w) && n <= LOCK_Q_SIZE
    ensures Inv(n, w)
    decreases |requests|
  {
    if requests == [] {
    } else {
      var last := |requests| - 1;
      var v :| Run(n, requests[..last], v) && WellFormed(n, v, requests[last]) && DoLock(v, requests[last]) == Some(w);
      EveryRunInv(n, requests[..last], v);
      DoLockInv(n, v, requests[last]);
    }
  }

  // A new request that finds others waiting can be granted ahead of them: two share the
  // window while a third waits for it.
  lemma SharedOvertakes(n: nat)
    requires n > 2
    ensures Run(n, [Request(0, 1), Request(1, 2), Request(2, 1)], Win(1, 2, [Request(1, 2)], map[0 := 1, 2 := 1]))
  {
    var a, b, c := Request(0, 1), Request(1, 2), Request(2, 1);
    assert [] + [a] == [a] && [a] + [b] == [a, b] && [a, b] + [c] == [a, b, c] && [] + [b] == [b];
    RunMore(n, [], Win(0, 0, [], map[]), a);
    assert DoLock(Win(1, 1, [], map[0 := 1]), b).value == Win(1, 1, [b], map[0 := 1]);
    RunMore(n, [a], Win(1, 1, [], map[0 := 1]), b);
    RunMore(n, [a, b], Win(1, 1, [b], map[0 := 1]), c);
  }

  lemma RunMore(n: nat, requests: seq<Request>, w: Win, r: Request)
    requires Run(n, requests, w) && WellFormed(n, w, r) && DoLock(w, r).Some?
    ensures Run(n, requests + [r], DoLock(w, r).value)
  {
    assert (requests + [r])[..|requests|] == requests;
  }

  // ------------------------------------------------------------------ no request is lost

  // Whoever was waiting, or now asks, has the lock or waits.
  ghost predicate NobodyLost(v: Win, r: Request, w: Win)
  {
    && (forall i :: 0 <= i < |v.queue| ==> Served(w, v.queue[i]))
    && (r.kind > 0 ==> Served(w, r))
  }

  ghost predicate Served(w: Win, r: Request)
  {
    r.src in w.holders || exists i :: 0 <= i < |w.queue| && w.queue[i] == r
  }

  // In every run of n processes, no request loses anybody.
  ghost predicate LosesNobody(n: nat)
  {
    forall requests, v, r: Request :: Run(n, requests, v) && WellFormed(n, v, r) && DoLock(v, r).Some? ==>
      NobodyLost(v, r, DoLock(v, r).value)
  }

  lemma {:induction false} ServeQueueKeeps(w: Win, r: Request)
    requires Served(w, r)
    ensures Served(ServeQueue(w), r)
    decreases |w.queue|
  {
    if w.queue == [] || !Grantable(w, w.queue[0].kind) {
    } else {
      var v := Granted(w, w.queue[0]).(queue := w.queue[1..]);
      if r.src !in v.holders {
        var i :| 0 <= i < |w.queue| && w.queue[i] == r;
        assert v.queue[i - 1] == r;
      }
      ServeQueueKeeps(v, r);
    }
  }

  lemma DoLockKeeps(n: nat, v: Win, r: Request)
    requires Inv(n, v) && WellFormed(n, v, r) && DoLock(v, r).Some? && n <= LOCK_Q_SIZE
    ensures NobodyLost(v, r, DoLock(v, r).value)
  {
    var w := DoLock(v, r).value;
    if r.kind > 0 && !Grantable(v, r.kind) {
      QueuedInv(n, v, r);
      assert w.queue[|v.queue|] == r;
      forall i | 0 <= i < |v.queue| ensures Served(w, v.queue[i]) { assert w.queue[i] == v.queue[i]; }
    } else if r.kind == 0 {
      var u := Unlocked(v, r.src).value;
      forall i | 0 <= i < |v.queue| ensures Served(w, v.queue[i]) {
        assert u.queue[i] == v.queue[i];
        ServeQueueKeeps(u, v.queue[i]);
      }
    } else {
      forall i | 0 <= i < |v.queue| ensures Served(w, v.queue[i]) { assert w.queue[i] == v.queue[i]; }
    }
  }

  // Process 0 holds the window, and processes 1, ..., k wait for it.
  function Asking(k: nat): seq<Request>
  {
    if k == 0 then [Request(0, 2)] else Asking(k - 1) + [Request(k, 2)]
  }

  function Queued(k: nat): (q: seq<Request>)
    ensures |q| == k && forall i :: 0 <= i < k ==> q[i] == Request(i + 1, 2)
  {
    seq(k, i requires 0 <= i < k => Request(i + 1, 2))
  }

  lemma {:induction false} AllWait(n: nat, k: nat)
    requires k < n && k < LOCK_Q_SIZE
    ensures Run(n, Asking(k), Win(2, 1, Queued(k), map[0 := 2]))
  {
    if k == 0 {
      RunMore(n, [], Win(0, 0, [], map[]), Request(0, 2));
      assert [] + [Request(0, 2)] == Asking(0);
    } else {
      AllWait(n, k - 1);
      var w, r := Win(2, 1, Queued(k - 1), map[0 := 2]), Request(k, 2);
      assert Queued(k - 1) + [r] == Queued(k);
      RunMore(n, Asking(k - 1), w, r);
    }
  }

  // With one process more than there are places the queue fills up: it then looks empty,
  // and all who wait are forgotten.
  lemma Overflow(n: nat)
    requires n > LOCK_Q_SIZE
    ensures Run(n, Asking(LOCK_Q_SIZE), Win(2, 1, [], map[0 := 2])) && !LosesNobody(n)
  {
    var k := LOCK_Q_SIZE - 1;
    AllWait(n, k);
    var w, r := Win(2, 1, Queued(k), map[0 := 2]), Request(LOCK_Q_SIZE, 2);
    RunMore(n, Asking(k), w, r);
    assert !Served(DoLock(w, r).value, r);
  }

  // No request of n processes is lost, in any run, exactly if there are no more processes
  // than places in the queue.
  lemma LosesNobodyExactly(n: nat)
    ensures LosesNobody(n) <==> n <= LOCK_Q_SIZE
  {
    if n <= LOCK_Q_SIZE {
      forall requests, v, r: Request | Run(n, requests, v) && WellFormed(n, v, r) && DoLock(v, r).Some?
        ensures NobodyLost(v, r, DoLock(v, r).value)
      {
        EveryRunInv(n, requests, v);
        DoLockKeeps(n, v, r);
      }
    } else {
      Overflow(n);
    }
  }

  // ------------------------------------------------------------------ in place

  // Place k of a circular queue that starts at head.
  function Slot(head: nat, k: nat): (i: nat)
    requires head < LOCK_Q_SIZE && k < LOCK_Q_SIZE
    ensures i < LOCK_Q_SIZE
  {
    if head + k < LOCK_Q_SIZE then head + k else head + k - LOCK_Q_SIZE
  }

  class Window {
    var locked: nat
    var count: int
    const lockQ: array<Request>
    var head: nat
    var tail: nat
    ghost var queue: seq<Request>
    ghost var holders: map<nat, nat>

    ghost predicate Valid()
      reads this, lockQ
    {
      && lockQ.Length == LOCK_Q_SIZE && head < LOCK_Q_SIZE && |queue| < LOCK_Q_SIZE && tail == Slot(head, |queue|)
      && forall k :: 0 <= k < |queue| ==> lockQ[Slot(head, k)] == queue[k]
    }

    ghost function View(): Win
      reads this
    {
      Win(locked, count, queue, holders)
    }

    constructor ()
      ensures Valid() && fresh(lockQ) && View() == Win(0, 0, [], map[])
    {
      locked, count, head, tail, queue, holders := 0, 0, 0, 0, [], map[];
      lockQ := new Request[LOCK_Q_SIZE](_ => Request(0, 0));
    }

    // try_lock with a request to lock
    method TryLock(r: Request) returns (granted: bool)
      requires r.kind > 0
      modifies this`locked, this`count, this`holders
      ensures granted == Grantable(old(View()), r.kind)
      ensures View() == if granted then Granted(old(View()), r) else old(View())
    {
      if r.kind == 1 {
        granted := locked == 0 || locked == 1;
      } else {
        granted := locked == 0;
      }
      if granted {
        locked := r.kind;
        count := count + 1;
        holders := holders[r.src := r.kind];
      }
    }

    method Enqueue(r: Request)
      requires Valid()
      modifies this`tail, this`queue, lockQ
      ensures Valid() && queue == Enqueued(old(queue), r)
    {
      lockQ[tail] := r;
      tail := (tail + 1) % LOCK_Q_SIZE;
      queue := Enqueued(queue, r);
    }

    // win->lock_q_head moves on
    method DropFirst()
      requires Valid() && queue != []
      modifies this`head, this`queue
      ensures Valid() && queue == old(queue)[1..]
    {
      ghost var was := queue;
      head := (head + 1) % LOCK_Q_SIZE;
      queue := queue[1..];
      assert forall k :: 0 <= k < |queue| ==> queue[k] == was[k + 1];
    }

    method ServeWaiting()
      requires Valid() && forall i :: 0 <= i < |queue| ==> queue[i].kind > 0
      modifies this
      ensures Valid() && View() == ServeQueue(old(View()))
    {
      while head != tail
        invariant Valid() && (forall i :: 0 <= i < |queue| ==> queue[i].kind > 0)
        invariant ServeQueue(View()) == ServeQueue(old(View()))
        decreases |queue|
      {
        assert lockQ[Slot(head, 0)] == queue[0];
        var granted := TryLock(lockQ[head]);
        if !granted { break; }
        DropFirst();
      }
    }

    // do_lock; not ok is the error exit.
    method Do(r: Request) returns (ok: bool)
      requires Valid() && forall i :: 0 <= i < |queue| ==> queue[i].kind > 0
      modifies this, lockQ
      ensures ok <==> DoLock(old(View()), r).Some?
      ensures ok ==> Valid() && View() == DoLock(old(View()), r).value
    {
      ok := true;
      if r.kind == 0 {
        count := count - 1;
        if count < 0 { return false; }
        if count == 0 { locked := 0; }
        holders := holders - {r.src};
        if locked == 0 { ServeWaiting(); }
      } else {
        var granted := TryLock(r);
        if !granted { Enqueue(r); }
      }
    }
  }
}
