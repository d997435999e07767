/**
 The receiving side of an eager connection (MP_Lite/ib.c): the queue of receive buffers
 given to the InfiniBand layer, the queue of receives posted by the user, and the handlers
 that match one against the other.

 `Rx` is the state as a value and the functions on it say what each operation does; the
 class at the end does the same in place, and the lemmas in between are about the functions.
 */
module EagerReceiver {
  import opened Common
  import opened EagerMatching

  const BUFFERS := 4              // EAGER_BUFFERS_PER_NODE
  const COUNT_MAX := 0x7fff_ffff  // INT_MAX

  // INC_WITH_WRAP
  function Inc(n: int): int
  {
    if n == COUNT_MAX then 0 else n + 1
  }

  datatype Flag = Waiting | Complete | Matched

  // An entry of eager_ib_recv_q.  Its number says when it was posted; the adapter fills
  // posted buffers in that order.
  datatype Ib = Ib(id: nat, flag: Flag, buffer: nat, msg: Msg)

  // An entry of eager_user_recv_q; `link` is the ib_ptr of a completed one.
  datatype User = User(id: nat, post: Post, done: bool, link: nat, data: seq<int>)

  datatype Rx = Rx(ibq: seq<Ib>, userq: seq<User>, inUse: seq<bool>, posted: nat, asked: nat, freed: int)

  // ------------------------------------------------------------------ operations

  function FirstFree(inUse: seq<bool>): (b: nat)
    ensures b <= |inUse| && (b < |inUse| ==> !inUse[b]) && forall i :: 0 <= i < b ==> inUse[i]
  {
    if inUse == [] then 0 else if !inUse[0] then 0 else 1 + FirstFree(inUse[1..])
  }

  // The first completed entry the receive accepts, or the length of the queue.
  function FindComplete(q: seq<Ib>, post: Post): (i: nat)
    ensures i <= |q| && (i < |q| ==> q[i].flag == Complete && Accepts(post, q[i].msg))
    ensures forall j :: 0 <= j < i ==> !(q[j].flag == Complete && Accepts(post, q[j].msg))
  {
    if q == [] then 0 else
    if q[0].flag == Complete && Accepts(post, q[0].msg) then 0 else 1 + FindComplete(q[1..], post)
  }

  function FindWaiting(q: seq<Ib>): (i: nat)
    ensures i <= |q| && (i < |q| ==> q[i].flag == Waiting) && forall j :: 0 <= j < i ==> q[j].flag != Waiting
  {
    if q == [] then 0 else if q[0].flag == Waiting then 0 else 1 + FindWaiting(q[1..])
  }

  function FindUser(q: seq<User>, msg: Msg): (i: nat)
    ensures i <= |q| && (i < |q| ==> !q[i].done && Accepts(q[i].post, msg))
    ensures forall j :: 0 <= j < i ==> !(!q[j].done && Accepts(q[j].post, msg))
  {
    if q == [] then 0 else if !q[0].done && Accepts(q[0].post, msg) then 0 else 1 + FindUser(q[1..], msg)
  }

  const NO_MSG := Msg(-1, 0, [])

  // ib_post_eager_recv; None is the error exit "no free eager receive buffers".
  function PostRecv(r: Rx): Option<Rx>
  {
    var b := FirstFree(r.inUse);
    if b == |r.inUse| then None
    else
      Some(r.(inUse := r.inUse[b := true], ibq := r.ibq + [Ib(r.posted, Waiting, b, NO_MSG)],
              posted := r.posted + 1))
  }

  // Entry i has been matched and copied: give its buffer back and post another.
  function Release(r: Rx, i: nat): Option<Rx>
    requires i < |r.ibq| && r.ibq[i].buffer < |r.inUse|
  {
    var r1 := r.(ibq := r.ibq[i := r.ibq[i].(flag := Matched)], inUse := r.inUse[r.ibq[i].buffer := false]);
    match PostRecv(r1)
    case None => None
    case Some(r2) => Some(r2.(freed := Inc(r2.freed)))
  }

  ghost predicate BuffersInRange(r: Rx)
  {
    forall i :: 0 <= i < |r.ibq| ==> r.ibq[i].buffer < |r.inUse|
  }

  // ib_eager_arecv
  function Arecv(r: Rx, post: Post): Option<Rx>
    requires BuffersInRange(r)
  {
    var i := FindComplete(r.ibq, post);
    if i < |r.ibq| then
      match Release(r, i)
      case None => None
      case Some(r1) =>
        Some(r1.(userq := r.userq + [User(r.asked, post, true, r.ibq[i].id, r.ibq[i].msg.data)], asked := r.asked + 1))
    else
      Some(r.(userq := r.userq + [User(r.asked, post, false, 0, [])], asked := r.asked + 1))
  }

  // ib_eager_handle_recv; None is an error exit.
  function HandleRecv(r: Rx, msg: Msg): Option<Rx>
    requires BuffersInRange(r)
  {
    var i := FindWaiting(r.ibq);
    if i == |r.ibq| then None else
      var r1 := r.(ibq := r.ibq[i := r.ibq[i].(flag := Complete, msg := msg)]);
      var j := FindUser(r.userq, msg);
      if j == |r.userq| then Some(r1) else
        match Release(r1, i)
        case None => None
        case Some(r2) =>
          Some(r2.(userq := r.userq[j := r.userq[j].(done := true, link := r.ibq[i].id, data := msg.data)]))
  }

  // Where the entry with a given number is, or the length of the queue.
  function FindIb(q: seq<Ib>, id: nat): (i: nat)
    ensures i <= |q| && (i < |q| ==> q[i].id == id) && forall j :: 0 <= j < i ==> q[j].id != id
  {
    if q == [] then 0 else if q[0].id == id then 0 else 1 + FindIb(q[1..], id)
  }

  function FindAsked(q: seq<User>, id: nat): (i: nat)
    ensures i <= |q| && (i < |q| ==> q[i].id == id) && forall j :: 0 <= j < i ==> q[j].id != id
  {
    if q == [] then 0 else if q[0].id == id then 0 else 1 + FindAsked(q[1..], id)
  }

  function Without<T>(q: seq<T>, i: nat): (r: seq<T>)
    requires i < |q|
    ensures |r| == |q| - 1
    ensures forall k :: 0 <= k < |r| ==> r[k] == q[if k < i then k else k + 1]
  {
    q[..i] + q[i + 1..]
  }

  // ib_eager_finish_recv, once the receive is complete; None is an error exit.
  function FinishRecv(r: Rx, p: nat): Option<Rx>
  {
    var j := FindAsked(r.userq, p);
    if j == |r.userq| then None else
      var i := FindIb(r.ibq, r.userq[j].link);
      if i == |r.ibq| then None else Some(r.(userq := Without(r.userq, j), ibq := Without(r.ibq, i)))
  }

  // ------------------------------------------------------------------ what the state means

  // Everything that has happened: the messages that arrived, the receives that were posted,
  // and which went to which.
  datatype History = History(arrivals: seq<Msg>, posts: seq<Post>, pairs: Pairs)

  ghost predicate IbOk(h: History, e: Ib, posted: nat)
  {
    && e.id < posted && e.buffer < BUFFERS
    && (e.flag == Waiting <==> |h.arrivals| <= e.id)
    && (e.flag == Matched <==> ArrivalTaken(h.pairs, e.id))
    && (e.id < |h.arrivals| ==> e.msg == h.arrivals[e.id])
  }

  ghost predicate UserOk(h: History, u: User)
  {
    && u.id < |h.posts| && u.post == h.posts[u.id]
    && (u.done <==> PostTaken(h.pairs, u.id))
    && (u.done ==> (u.link, u.id) in h.pairs && u.link < |h.arrivals| && u.data == h.arrivals[u.link].data)
  }

  ghost predicate HasIb(q: seq<Ib>, id: nat) { exists i :: 0 <= i < |q| && q[i].id == id }

  ghost predicate HasUser(q: seq<User>, id: nat) { exists i :: 0 <= i < |q| && q[i].id == id }

  // What a completed receive took is still in the queue.
  ghost predicate LinksOk(q: seq<Ib>, users: seq<User>)
  {
    forall j :: 0 <= j < |users| && users[j].done ==> HasIb(q, users[j].link)
  }

  ghost predicate IbQueueOk(h: History, q: seq<Ib>, posted: nat)
  {
    && (forall i :: 0 <= i < |q| ==> IbOk(h, q[i], posted))
    && (forall i, j :: 0 <= i < j < |q| ==> q[i].id < q[j].id)
    && (forall a :: 0 <= a < posted && !ArrivalTaken(h.pairs, a) ==> HasIb(q, a))
  }

  ghost predicate UserQueueOk(h: History, q: seq<User>)
  {
    && (forall i :: 0 <= i < |q| ==> UserOk(h, q[i]))
    && (forall i, j :: 0 <= i < j < |q| ==> q[i].id < q[j].id)
    && (forall p :: 0 <= p < |h.posts| && !PostTaken(h.pairs, p) ==> HasUser(q, p))
  }

  // Every buffer is in use, by exactly one entry that is not matched yet.
  ghost predicate BuffersOk(q: seq<Ib>, inUse: seq<bool>)
  {
    && |inUse| == BUFFERS && (forall b :: 0 <= b < BUFFERS ==> inUse[b] && Owned(q, b))
    && (forall i, j :: 0 <= i < j < |q| && q[i].flag != Matched && q[j].flag != Matched ==> q[i].buffer != q[j].buffer)
  }

  ghost predicate Owned(q: seq<Ib>, b: nat)
  {
    exists i :: 0 <= i < |q| && q[i].flag != Matched && q[i].buffer == b
  }

  ghost predicate Inv(r: Rx, h: History)
  {
    && Stable(h.arrivals, h.posts, h.pairs)
    && r.posted == BUFFERS + |h.pairs| && |h.arrivals| <= r.posted && r.asked == |h.posts|
    && IbQueueOk(h, r.ibq, r.posted) && UserQueueOk(h, r.userq)
    && BuffersOk(r.ibq, r.inUse) && LinksOk(r.ibq, r.userq)
    && r.freed == (BUFFERS + |h.pairs|) % (COUNT_MAX + 1)
  }

  // ------------------------------------------------------------------ every operation keeps it

  ghost predicate AlsoTaken(m: Pairs, n: Pairs, a: nat)
  {
    forall x: nat :: ArrivalTaken(n, x) <==> ArrivalTaken(m, x) || x == a
  }

  // Giving a buffer back and posting it again: there is always a free buffer then.
  lemma ReleaseBuffers(q: seq<Ib>, inUse: seq<bool>, i: nat, id: nat)
    requires BuffersOk(q, inUse) && i < |q| && q[i].flag != Matched && q[i].buffer < BUFFERS
    ensures var b := q[i].buffer;
      && FirstFree(inUse[b := false]) == b
      && BuffersOk(q[i := q[i].(flag := Matched)] + [Ib(id, Waiting, b, NO_MSG)], inUse[b := false][b := true])
  {
    var b := q[i].buffer;
    var n := q[i := q[i].(flag := Matched)] + [Ib(id, Waiting, b, NO_MSG)];
    forall c | 0 <= c < BUFFERS ensures Owned(n, c) {
      if c == b {
        assert n[|q|].flag != Matched && n[|q|].buffer == c;
      } else {
        assert Owned(q, c);
        var j :| 0 <= j < |q| && q[j].flag != Matched && q[j].buffer == c;
        assert n[j] == q[j];
      }
    }
    var u := inUse[b := false];
    assert !u[b] && !u[FirstFree(u)];
  }

  lemma ReleaseQueue(h: History, k: History, q: seq<Ib>, i: nat, b: nat, posted: nat)
    requires IbQueueOk(h, q, posted) && i < |q| && q[i].flag == Complete && b < BUFFERS
    requires k.arrivals == h.arrivals && |h.arrivals| <= posted && AlsoTaken(h.pairs, k.pairs, q[i].id)
    requires forall a: nat :: ArrivalTaken(h.pairs, a) ==> a < |h.arrivals|
    ensures IbQueueOk(k, q[i := q[i].(flag := Matched)] + [Ib(posted, Waiting, b, NO_MSG)], posted + 1)
  {
    var n := q[i := q[i].(flag := Matched)] + [Ib(posted, Waiting, b, NO_MSG)];
    forall j | 0 <= j < |n| ensures IbOk(k, n[j], posted + 1) {
      if j < |q| { assert IbOk(h, q[j], posted); assert IbOk(h, q[i], posted); }
      if j < |q| && j != i { assert q[j].id != q[i].id; }
    }
    forall a: nat | a < posted + 1 && !ArrivalTaken(k.pairs, a) ensures HasIb(n, a) {
      if a == posted {
        assert n[|q|].id == a;
      } else {
        assert HasIb(q, a);
        var j :| 0 <= j < |q| && q[j].id == a;
        assert n[j].id == a;
      }
    }
  }

  lemma ReleaseInv(r: Rx, h: History, k: History, i: nat)
    requires IbQueueOk(h, r.ibq, r.posted) && BuffersOk(r.ibq, r.inUse) && i < |r.ibq| && r.ibq[i].flag == Complete
    requires k.arrivals == h.arrivals && |h.arrivals| <= r.posted && AlsoTaken(h.pairs, k.pairs, r.ibq[i].id)
    requires forall a: nat :: ArrivalTaken(h.pairs, a) ==> a < |h.arrivals|
    ensures r.ibq[i].buffer < |r.inUse| && Release(r, i).Some?
    ensures var t := Release(r, i).value;
      && IbQueueOk(k, t.ibq, t.posted) && BuffersOk(t.ibq, t.inUse)
      && t.posted == r.posted + 1 && t.asked == r.asked && t.userq == r.userq && t.freed == Inc(r.freed)
  {
    assert IbOk(h, r.ibq[i], r.posted);
    ReleaseBuffers(r.ibq, r.inUse, i, r.posted);
    ReleaseQueue(h, k, r.ibq, i, r.ibq[i].buffer, r.posted);
  }

  lemma InRange(r: Rx, h: History)
    requires Inv(r, h)
    ensures BuffersInRange(r)
  {
    forall i | 0 <= i < |r.ibq| ensures r.ibq[i].buffer < |r.inUse| { assert IbOk(h, r.ibq[i], r.posted); }
  }

  lemma TakenInRange(h: History)
    requires Stable(h.arrivals, h.posts, h.pairs)
    ensures forall a: nat :: ArrivalTaken(h.pairs, a) ==> a < |h.arrivals|
    ensures forall p: nat :: PostTaken(h.pairs, p) ==> p < |h.posts|
  {
  }

  // The wrapped counter stays in step with the number of matches.
  lemma IncWraps(x: nat)
    ensures Inc(x % (COUNT_MAX + 1)) == (x + 1) % (COUNT_MAX + 1)
  {
  }

  // ------------------------------------------------------------------ ib_eager_arecv

  lemma FirstCompleteIsFirstFree(h: History, q: seq<Ib>, posted: nat, post: Post, b: nat, i: nat)
    requires IbQueueOk(h, q, posted) && |h.arrivals| <= posted && i <= |q|
    requires forall j :: 0 <= j < i ==> !(q[j].flag == Complete && Accepts(post, q[j].msg))
    requires b < |h.arrivals| && Accepts(post, h.arrivals[b]) && !ArrivalTaken(h.pairs, b)
    ensures i < |q| && q[i].id <= b
  {
    assert HasIb(q, b);
    var j :| 0 <= j < |q| && q[j].id == b;
    assert IbOk(h, q[j], posted);
    assert i <= j;
  }

  // The history after a receive has been posted.
  ghost function Asked(r: Rx, h: History, post: Post): History
  {
    var i := FindComplete(r.ibq, post);
    History(h.arrivals, h.posts + [post], if i < |r.ibq| then h.pairs + {(r.ibq[i].id, |h.posts|)} else h.pairs)
  }

  lemma UsersAfterAsk(h: History, k: History, q: seq<User>, u: User)
    requires UserQueueOk(h, q) && UserOk(k, u) && u.id == |h.posts|
    requires k.arrivals == h.arrivals && |k.posts| == |h.posts| + 1 && k.posts[..|h.posts|] == h.posts
    requires h.pairs <= k.pairs
    requires forall p: nat :: p < |h.posts| ==> (PostTaken(k.pairs, p) <==> PostTaken(h.pairs, p))
    ensures UserQueueOk(k, q + [u])
  {
    var n := q + [u];
    forall j | 0 <= j < |n| ensures UserOk(k, n[j]) {
      if j < |q| { assert UserOk(h, q[j]); }
    }
    forall p: nat | p < |k.posts| && !PostTaken(k.pairs, p) ensures HasUser(n, p) {
      if p == |h.posts| {
        assert n[|q|].id == p;
      } else {
        assert HasUser(q, p);
        var i :| 0 <= i < |q| && q[i].id == p;
        assert n[i].id == p;
      }
    }
    forall i, j | 0 <= i < j < |n| ensures n[i].id < n[j].id {
      assert UserOk(h, q[i]);
    }
  }

  lemma OnePairMore(m: Pairs, a: nat, p: nat)
    ensures AlsoTaken(m, m + {(a, p)}, a)
    ensures forall q: nat :: PostTaken(m + {(a, p)}, q) <==> PostTaken(m, q) || q == p
  {
    var n := m + {(a, p)};
    assert (a, p) in n;
    forall x: nat ensures ArrivalTaken(n, x) <==> ArrivalTaken(m, x) || x == a {
      if ArrivalTaken(m, x) { var y :| y in m && y.0 == x; assert y in n; }
    }
    forall q: nat ensures PostTaken(n, q) <==> PostTaken(m, q) || q == p {
      if PostTaken(m, q) { var y :| y in m && y.1 == q; assert y in n; }
    }
  }

  // A posted receive takes the earliest message it can, and gets that message's data.
  lemma ArecvStable(r: Rx, h: History, post: Post)
    requires Inv(r, h)
    ensures var k := Asked(r, h, post);
      && Stable(k.arrivals, k.posts, k.pairs)
      && (FindComplete(r.ibq, post) < |r.ibq| ==> (r.ibq[FindComplete(r.ibq, post)].id, |h.posts|) !in h.pairs)
  {
    var i := FindComplete(r.ibq, post);
    forall b: nat | b < |h.arrivals| && Accepts(post, h.arrivals[b]) && !ArrivalTaken(h.pairs, b)
      ensures i < |r.ibq| && r.ibq[i].id <= b
    {
      FirstCompleteIsFirstFree(h, r.ibq, r.posted, post, b, i);
    }
    if i < |r.ibq| {
      assert IbOk(h, r.ibq[i], r.posted);
      PostMatched(h.arrivals, h.posts, h.pairs, post, r.ibq[i].id);
    } else {
      PostUnmatched(h.arrivals, h.posts, h.pairs, post);
    }
  }

  lemma SameIds(q: seq<Ib>, n: seq<Ib>, users: seq<User>)
    requires LinksOk(q, users) && |q| <= |n| && forall i :: 0 <= i < |q| ==> n[i].id == q[i].id
    ensures LinksOk(n, users)
  {
    forall j | 0 <= j < |users| && users[j].done ensures HasIb(n, users[j].link) {
      assert HasIb(q, users[j].link);
      var i :| 0 <= i < |q| && q[i].id == users[j].link;
      assert n[i].id == users[j].link;
    }
  }

  lemma ArecvQueued(r: Rx, h: History, post: Post)
    requires Inv(r, h) && FindComplete(r.ibq, post) == |r.ibq|
    ensures BuffersInRange(r) && Arecv(r, post).Some? && Inv(Arecv(r, post).value, Asked(r, h, post))
  {
    InRange(r, h);
    ArecvStable(r, h, post);
    TakenInRange(h);
    UsersAfterAsk(h, Asked(r, h, post), r.userq, User(r.asked, post, false, 0, []));
  }

  lemma ArecvImmediate(r: Rx, h: History, post: Post)
    requires Inv(r, h) && FindComplete(r.ibq, post) < |r.ibq|
    ensures BuffersInRange(r) && Arecv(r, post).Some? && Inv(Arecv(r, post).value, Asked(r, h, post))
  {
    var i, k := FindComplete(r.ibq, post), Asked(r, h, post);
    var u := User(r.asked, post, true, r.ibq[i].id, r.ibq[i].msg.data);
    assert BuffersInRange(r) by { InRange(r, h); }
    ArecvStable(r, h, post);
    assert UserQueueOk(k, r.userq + [u]) by {
      OnePairMore(h.pairs, r.ibq[i].id, |h.posts|);
      TakenInRange(h);
      assert IbOk(h, r.ibq[i], r.posted);
      UsersAfterAsk(h, k, r.userq, u);
    }
    ArecvReleased(r, h, post);
    assert LinksOk(Release(r, i).value.ibq, r.userq + [u]) by {
      LinksAfterAsk(r.ibq, Release(r, i).value.ibq, r.userq, u, i);
    }
  }

  lemma ArecvReleased(r: Rx, h: History, post: Post)
    requires Inv(r, h) && FindComplete(r.ibq, post) < |r.ibq|
    requires (r.ibq[FindComplete(r.ibq, post)].id, |h.posts|) !in h.pairs
    ensures var i, k := FindComplete(r.ibq, post), Asked(r, h, post);
      && r.ibq[i].buffer < |r.inUse| && Release(r, i).Some?
      && var t := Release(r, i).value;
      && IbQueueOk(k, t.ibq, t.posted) && BuffersOk(t.ibq, t.inUse)
      && t.posted == BUFFERS + |k.pairs| && t.asked == r.asked && t.userq == r.userq
      && t.freed == (BUFFERS + |k.pairs|) % (COUNT_MAX + 1)
  {
    var i, k := FindComplete(r.ibq, post), Asked(r, h, post);
    TakenInRange(h);
    OnePairMore(h.pairs, r.ibq[i].id, |h.posts|);
    ReleaseInv(r, h, k, i);
    IncWraps(BUFFERS + |h.pairs|);
  }

  lemma LinksAfterAsk(q: seq<Ib>, n: seq<Ib>, users: seq<User>, u: User, i: nat)
    requires LinksOk(q, users) && |q| <= |n| && forall i :: 0 <= i < |q| ==> n[i].id == q[i].id
    requires i < |q| && u.link == q[i].id
    ensures LinksOk(n, users + [u])
  {
    SameIds(q, n, users);
    assert n[i].id == u.link;
    assert HasIb(n, u.link);
  }

  lemma ArecvInv(r: Rx, h: History, post: Post)
    requires Inv(r, h)
    ensures BuffersInRange(r) && Arecv(r, post).Some? && Inv(Arecv(r, post).value, Asked(r, h, post))
  {
    if FindComplete(r.ibq, post) < |r.ibq| {
      ArecvImmediate(r, h, post);
    } else {
      ArecvQueued(r, h, post);
    }
  }

  // ------------------------------------------------------------------ ib_eager_handle_recv

  lemma EntryOf(q: seq<Ib>, id: nat) returns (j: nat)
    requires HasIb(q, id)
    ensures j < |q| && q[j].id == id
  {
    j :| 0 <= j < |q| && q[j].id == id;
  }

  // Nothing before the entry of the message to come is waiting.
  lemma NoEarlier(h: History, q: seq<Ib>, posted: nat, i: nat, j: nat)
    requires IbQueueOk(h, q, posted) && i <= j < |q| && |h.arrivals| <= q[i].id && q[j].id == |h.arrivals|
    ensures i == j
  {
  }

  // The buffer the adapter filled is the first one still waiting.
  lemma FilledIsFirstWaiting(h: History, q: seq<Ib>, posted: nat)
    requires IbQueueOk(h, q, posted) && |h.arrivals| < posted && !ArrivalTaken(h.pairs, |h.arrivals|)
    ensures var i := FindWaiting(q); i < |q| && q[i].id == |h.arrivals|
  {
    var i := FindWaiting(q);
    assert HasIb(q, |h.arrivals|);
    var j := EntryOf(q, |h.arrivals|);
    assert IbOk(h, q[j], posted) && i <= j;
    assert IbOk(h, q[i], posted) && |h.arrivals| <= q[i].id;
    NoEarlier(h, q, posted, i, j);
  }

  lemma FirstUserIsFirstFree(h: History, q: seq<User>, msg: Msg, p: nat, i: nat)
    requires UserQueueOk(h, q) && p < |h.posts| && Accepts(h.posts[p], msg) && !PostTaken(h.pairs, p)
    requires i <= |q| && forall j :: 0 <= j < i ==> !(!q[j].done && Accepts(q[j].post, msg))
    ensures i < |q| && q[i].id <= p
  {
    assert HasUser(q, p);
    var j :| 0 <= j < |q| && q[j].id == p;
    assert UserOk(h, q[j]);
    assert i <= j;
  }

  ghost function Arrived(r: Rx, h: History, msg: Msg): History
  {
    var j := FindUser(r.userq, msg);
    History(h.arrivals + [msg], h.posts, if j < |r.userq| then h.pairs + {(|h.arrivals|, r.userq[j].id)} else h.pairs)
  }

  lemma HandleStable(r: Rx, h: History, msg: Msg)
    requires Inv(r, h)
    ensures var k := Arrived(r, h, msg); Stable(k.arrivals, k.posts, k.pairs)
    ensures var j := FindUser(r.userq, msg); j < |r.userq| ==>
      !PostTaken(h.pairs, r.userq[j].id) && (|h.arrivals|, r.userq[j].id) !in h.pairs
  {
    var j := FindUser(r.userq, msg);
    forall p: nat | p < |h.posts| && Accepts(h.posts[p], msg) && !PostTaken(h.pairs, p)
      ensures j < |r.userq| && r.userq[j].id <= p
    {
      FirstUserIsFirstFree(h, r.userq, msg, p, j);
    }
    if j < |r.userq| {
      assert UserOk(h, r.userq[j]);
      ArrivalMatched(h.arrivals, h.posts, h.pairs, msg, r.userq[j].id);
    } else {
      ArrivalUnmatched(h.arrivals, h.posts, h.pairs, msg);
    }
  }

  lemma KeepsId(q: seq<Ib>, i: nat, e: Ib, a: nat)
    requires HasIb(q, a) && i < |q| && e.id == q[i].id
    ensures HasIb(q[i := e], a)
  {
    var j :| 0 <= j < |q| && q[j].id == a;
    assert q[i := e][j].id == a;
  }

  lemma KeepsOwner(q: seq<Ib>, i: nat, e: Ib, b: nat)
    requires Owned(q, b) && i < |q| && e.buffer == q[i].buffer && e.flag != Matched
    ensures Owned(q[i := e], b)
  {
    var j :| 0 <= j < |q| && q[j].flag != Matched && q[j].buffer == b;
    assert q[i := e][j].flag != Matched && q[i := e][j].buffer == b;
  }

  lemma NotTheOne(q: seq<Ib>, i: nat, j: nat)
    requires i < |q| && j < |q| && i != j && forall x, y :: 0 <= x < y < |q| ==> q[x].id < q[y].id
    ensures q[j].id != q[i].id
  {
  }

  // For an entry other than that of the new message nothing changes.
  lemma OtherIbOk(h: History, k: History, e: Ib, posted: nat, msg: Msg)
    requires IbOk(h, e, posted) && e.id != |h.arrivals|
    requires k.arrivals == h.arrivals + [msg] && k.pairs == h.pairs
    ensures IbOk(k, e, posted)
  {
  }

  // The entry is completed, before anything is matched.
  lemma CompletedQueue(h: History, q: seq<Ib>, inUse: seq<bool>, posted: nat, i: nat, msg: Msg)
    requires IbQueueOk(h, q, posted) && BuffersOk(q, inUse) && i < |q| && q[i].id == |h.arrivals|
    requires forall a: nat :: ArrivalTaken(h.pairs, a) ==> a < |h.arrivals|
    ensures var n := q[i := q[i].(flag := Complete, msg := msg)];
      IbQueueOk(History(h.arrivals + [msg], h.posts, h.pairs), n, posted) && BuffersOk(n, inUse)
  {
    var e := q[i].(flag := Complete, msg := msg);
    var n, k := q[i := e], History(h.arrivals + [msg], h.posts, h.pairs);
    assert IbOk(h, q[i], posted);
    forall j | 0 <= j < |n| ensures IbOk(k, n[j], posted) {
      assert IbOk(h, q[j], posted);
      if j != i { NotTheOne(q, i, j); OtherIbOk(h, k, q[j], posted, msg); }
    }
    forall a: nat | a < posted && !ArrivalTaken(k.pairs, a) ensures HasIb(n, a) { KeepsId(q, i, e, a); }
    forall b | 0 <= b < BUFFERS ensures Owned(n, b) { KeepsOwner(q, i, e, b); }
  }

  lemma UsersAfterMatch(h: History, k: History, q: seq<User>, j: nat, a: nat, msg: Msg)
    requires UserQueueOk(h, q) && j < |q| && !PostTaken(h.pairs, q[j].id)
    requires k == History(h.arrivals + [msg], h.posts, h.pairs + {(a, q[j].id)}) && a == |h.arrivals|
    ensures UserQueueOk(k, q[j := q[j].(done := true, link := a, data := msg.data)])
  {
    var n := q[j := q[j].(done := true, link := a, data := msg.data)];
    OnePairMore(h.pairs, a, q[j].id);
    forall i | 0 <= i < |n| ensures UserOk(k, n[i]) {
      assert UserOk(h, q[i]) && UserOk(h, q[j]);
      if i != j { assert q[i].id != q[j].id; }
    }
    forall p: nat | p < |k.posts| && !PostTaken(k.pairs, p) ensures HasUser(n, p) {
      assert HasUser(q, p);
      var i :| 0 <= i < |q| && q[i].id == p;
      assert n[i].id == p;
    }
  }

  lemma UsersAfterArrival(h: History, k: History, q: seq<User>, msg: Msg)
    requires UserQueueOk(h, q) && k == History(h.arrivals + [msg], h.posts, h.pairs)
    ensures UserQueueOk(k, q)
  {
    forall i | 0 <= i < |q| ensures UserOk(k, q[i]) { assert UserOk(h, q[i]); }
  }

  lemma LinksAfterMatch(q: seq<Ib>, n: seq<Ib>, users: seq<User>, j: nat, u: User, i: nat)
    requires LinksOk(q, users) && |q| <= |n| && forall i :: 0 <= i < |q| ==> n[i].id == q[i].id
    requires i < |q| && u.link == q[i].id && j < |users|
    ensures LinksOk(n, users[j := u])
  {
    SameIds(q, n, users);
    assert n[i].id == u.link;
    assert HasIb(n, u.link);
  }

  lemma HandleKept(r: Rx, h: History, msg: Msg)
    requires Inv(r, h) && |h.arrivals| < r.posted && FindUser(r.userq, msg) == |r.userq|
    ensures BuffersInRange(r) && HandleRecv(r, msg).Some? && Inv(HandleRecv(r, msg).value, Arrived(r, h, msg))
  {
    var i, k := FindWaiting(r.ibq), Arrived(r, h, msg);
    InRange(r, h);
    TakenInRange(h);
    FilledIsFirstWaiting(h, r.ibq, r.posted);
    HandleStable(r, h, msg);
    CompletedQueue(h, r.ibq, r.inUse, r.posted, i, msg);
    UsersAfterArrival(h, k, r.userq, msg);
    SameIds(r.ibq, r.ibq[i := r.ibq[i].(flag := Complete, msg := msg)], r.userq);
  }

  lemma HandleMatched(r: Rx, h: History, msg: Msg)
    requires Inv(r, h) && |h.arrivals| < r.posted && FindUser(r.userq, msg) < |r.userq|
    ensures BuffersInRange(r) && HandleRecv(r, msg).Some? && Inv(HandleRecv(r, msg).value, Arrived(r, h, msg))
  {
    var i, j, k := FindWaiting(r.ibq), FindUser(r.userq, msg), Arrived(r, h, msg);
    TakenInRange(h);
    FilledIsFirstWaiting(h, r.ibq, r.posted);
    var r1 := r.(ibq := r.ibq[i := r.ibq[i].(flag := Complete, msg := msg)]);
    var u := r.userq[j].(done := true, link := r.ibq[i].id, data := msg.data);
    assert BuffersInRange(r) by { InRange(r, h); }
    HandleStable(r, h, msg);
    assert UserQueueOk(k, r.userq[j := u]) by { UsersAfterMatch(h, k, r.userq, j, |h.arrivals|, msg); }
    HandleReleased(r, h, msg);
    assert LinksOk(Release(r1, i).value.ibq, r.userq[j := u]) by {
      LinksAfterMatch(r.ibq, Release(r1, i).value.ibq, r.userq, j, u, i);
    }
  }

  lemma HandleReleased(r: Rx, h: History, msg: Msg)
    requires Inv(r, h) && |h.arrivals| < r.posted && FindUser(r.userq, msg) < |r.userq|
    requires var i := FindWaiting(r.ibq); i < |r.ibq| && r.ibq[i].id == |h.arrivals|
    requires (|h.arrivals|, r.userq[FindUser(r.userq, msg)].id) !in h.pairs
    ensures var i, k := FindWaiting(r.ibq), Arrived(r, h, msg);
      var r1 := r.(ibq := r.ibq[i := r.ibq[i].(flag := Complete, msg := msg)]);
      && r1.ibq[i].buffer < |r.inUse| && Release(r1, i).Some?
      && var t := Release(r1, i).value;
      && IbQueueOk(k, t.ibq, t.posted) && BuffersOk(t.ibq, t.inUse)
      && t.posted == BUFFERS + |k.pairs| && t.asked == r.asked && t.userq == r.userq
      && t.freed == (BUFFERS + |k.pairs|) % (COUNT_MAX + 1)
  {
    var i, j, k := FindWaiting(r.ibq), FindUser(r.userq, msg), Arrived(r, h, msg);
    var r1 := r.(ibq := r.ibq[i := r.ibq[i].(flag := Complete, msg := msg)]);
    TakenInRange(h);
    CompletedQueue(h, r.ibq, r.inUse, r.posted, i, msg);
    OnePairMore(h.pairs, |h.arrivals|, r.userq[j].id);
    ReleaseInv(r1, History(h.arrivals + [msg], h.posts, h.pairs), k, i);
    IncWraps(BUFFERS + |h.pairs|);
  }

  // As long as a buffer is waiting the handler takes no error exit, and everything stays in
  // order.
  lemma HandleRecvInv(r: Rx, h: History, msg: Msg)
    requires Inv(r, h) && |h.arrivals| < r.posted
    ensures BuffersInRange(r) && HandleRecv(r, msg).Some? && Inv(HandleRecv(r, msg).value, Arrived(r, h, msg))
  {
    if FindUser(r.userq, msg) < |r.userq| {
      HandleMatched(r, h, msg);
    } else {
      HandleKept(r, h, msg);
    }
  }

  // Without a waiting buffer it does take the exit.
  lemma NoBufferWaiting(r: Rx, h: History, msg: Msg)
    requires Inv(r, h) && BuffersInRange(r) && |h.arrivals| == r.posted
    ensures HandleRecv(r, msg).None?
  {
    forall i | 0 <= i < |r.ibq| ensures r.ibq[i].flag != Waiting {
      assert IbOk(h, r.ibq[i], r.posted);
    }
  }

  // ------------------------------------------------------------------ ib_eager_finish_recv

  lemma BuffersWithout(q: seq<Ib>, inUse: seq<bool>, i: nat)
    requires BuffersOk(q, inUse) && i < |q| && q[i].flag == Matched
    ensures BuffersOk(Without(q, i), inUse)
  {
    var n := Without(q, i);
    forall b | 0 <= b < BUFFERS ensures Owned(n, b) {
      assert Owned(q, b);
      var j :| 0 <= j < |q| && q[j].flag != Matched && q[j].buffer == b;
      var k := if j < i then j else j - 1;
      assert n[k].flag != Matched && n[k].buffer == b;
    }
  }

  lemma OthersStay(q: seq<Ib>, i: nat, a: nat)
    requires HasIb(q, a) && i < |q| && q[i].id != a
    ensures HasIb(Without(q, i), a)
  {
    var j :| 0 <= j < |q| && q[j].id == a;
    assert Without(q, i)[if j < i then j else j - 1].id == a;
  }

  lemma IbQueueWithout(h: History, q: seq<Ib>, posted: nat, i: nat)
    requires IbQueueOk(h, q, posted) && i < |q| && q[i].flag == Matched
    ensures IbQueueOk(h, Without(q, i), posted)
  {
    var n := Without(q, i);
    assert IbOk(h, q[i], posted);
    forall j | 0 <= j < |n| ensures IbOk(h, n[j], posted) {
      assert IbOk(h, q[if j < i then j else j + 1], posted);
    }
    forall a: nat | a < posted && !ArrivalTaken(h.pairs, a) ensures HasIb(n, a) { OthersStay(q, i, a); }
  }

  lemma UserQueueWithout(h: History, q: seq<User>, j: nat)
    requires UserQueueOk(h, q) && j < |q| && q[j].done
    ensures UserQueueOk(h, Without(q, j))
  {
    var n := Without(q, j);
    assert UserOk(h, q[j]);
    forall i | 0 <= i < |n| ensures UserOk(h, n[i]) {
      assert UserOk(h, q[if i < j then i else i + 1]);
    }
    forall p: nat | p < |h.posts| && !PostTaken(h.pairs, p) ensures HasUser(n, p) {
      assert HasUser(q, p);
      var i :| 0 <= i < |q| && q[i].id == p;
      assert i != j;
      assert n[if i < j then i else i - 1].id == p;
    }
  }

  lemma LinksWithout(h: History, q: seq<Ib>, users: seq<User>, i: nat, j: nat)
    requires LinksOk(q, users) && UserQueueOk(h, users) && Matching(h.arrivals, h.posts, h.pairs)
    requires i < |q| && j < |users| && users[j].done && q[i].id == users[j].link
    ensures LinksOk(Without(q, i), Without(users, j))
  {
    var n, rest := Without(q, i), Without(users, j);
    forall k | 0 <= k < |rest| && rest[k].done ensures HasIb(n, rest[k].link) {
      var l := if k < j then k else k + 1;
      assert UserOk(h, users[l]) && UserOk(h, users[j]);
      assert users[l].id != users[j].id;
      OthersStay(q, i, users[l].link);
    }
  }

  // A completed receive is found in both queues and leaves nothing behind.
  lemma FinishRecvInv(r: Rx, h: History, j: nat)
    requires Inv(r, h) && j < |r.userq| && r.userq[j].done
    ensures FindAsked(r.userq, r.userq[j].id) == j
    ensures FinishRecv(r, r.userq[j].id).Some? && Inv(FinishRecv(r, r.userq[j].id).value, h)
  {
    var i := FindIb(r.ibq, r.userq[j].link);
    assert HasIb(r.ibq, r.userq[j].link);
    assert UserOk(h, r.userq[j]) && IbOk(h, r.ibq[i], r.posted);
    assert (r.userq[j].link, r.userq[j].id) in h.pairs;
    assert ArrivalTaken(h.pairs, r.userq[j].link);
    IbQueueWithout(h, r.ibq, r.posted, i);
    BuffersWithout(r.ibq, r.inUse, i);
    UserQueueWithout(h, r.userq, j);
    LinksWithout(h, r.ibq, r.userq, i, j);
  }

  // It takes its own entry out of one queue and that of its message out of the other, and
  // nothing else.
  lemma FinishRecvRemoves(r: Rx, h: History, j: nat)
    requires Inv(r, h) && j < |r.userq| && r.userq[j].done
    ensures FinishRecv(r, r.userq[j].id).Some?
    ensures var t := FinishRecv(r, r.userq[j].id).value;
      && t == r.(userq := t.userq, ibq := t.ibq)
      && (forall u :: u in t.userq <==> u in r.userq && u.id != r.userq[j].id)
      && (forall e :: e in t.ibq <==> e in r.ibq && e.id != r.userq[j].link)
  {
    FinishRecvInv(r, h, j);
    var i := FindIb(r.ibq, r.userq[j].link);
    forall u ensures u in Without(r.userq, j) <==> u in r.userq && u.id != r.userq[j].id {
      UserGone(r.userq, j, u);
    }
    forall e ensures e in Without(r.ibq, i) <==> e in r.ibq && e.id != r.ibq[i].id {
      IbGone(r.ibq, i, e);
    }
  }

  lemma UserGone(q: seq<User>, j: nat, u: User)
    requires j < |q| && forall x, y :: 0 <= x < y < |q| ==> q[x].id < q[y].id
    ensures u in Without(q, j) <==> u in q && u.id != q[j].id
  {
    if u in q && u.id != q[j].id {
      var k :| 0 <= k < |q| && q[k] == u;
      assert Without(q, j)[if k < j then k else k - 1] == u;
    }
  }

  lemma IbGone(q: seq<Ib>, i: nat, e: Ib)
    requires i < |q| && forall x, y :: 0 <= x < y < |q| ==> q[x].id < q[y].id
    ensures e in Without(q, i) <==> e in q && e.id != q[i].id
  {
    if e in q && e.id != q[i].id {
      var k :| 0 <= k < |q| && q[k] == e;
      assert Without(q, i)[if k < i then k else k - 1] == e;
    }
  }

  // ------------------------------------------------------------------ runs

  // ib_init: four buffers posted, and the count of freed ones starts at four.
  function Start(): Rx
  {
    var w := seq(BUFFERS, i requires 0 <= i < BUFFERS => Ib(i, Waiting, i, NO_MSG));
    Rx(w, [], seq(BUFFERS, _ => true), BUFFERS, 0, BUFFERS)
  }

  const NOTHING := History([], [], {})

  lemma StartInv()
    ensures Inv(Start(), NOTHING)
  {
    var q := Start().ibq;
    forall a: nat | a < BUFFERS ensures HasIb(q, a) && Owned(q, a) {
      assert q[a].id == a && q[a].flag != Matched && q[a].buffer == a;
    }
  }

  datatype Event = Arrival(msg: Msg) | Posting(post: Post) | Finishing(id: nat)

  // One handler or library call, taken as one step.  ib_eager_handle_recv and ib_eager_arecv
  // exclude each other by hndl_e_recv_mutex; that ib_eager_finish_recv, which holds no mutex,
  // is not interrupted is assumed.
  function Do(r: Rx, e: Event): Option<Rx>
    requires BuffersInRange(r)
  {
    match e
    case Arrival(msg) => HandleRecv(r, msg)
    case Posting(post) => Arecv(r, post)
    case Finishing(id) => FinishRecv(r, id)
  }

  ghost function Then(r: Rx, h: History, e: Event): History
  {
    match e
    case Arrival(msg) => Arrived(r, h, msg)
    case Posting(post) => Asked(r, h, post)
    case Finishing(id) => h
  }

  // The events that can happen: the adapter fills a posted buffer, and the user waits for a
  // receive until it is complete.
  ghost predicate Possible(r: Rx, h: History, e: Event)
  {
    match e
    case Arrival(msg) => |h.arrivals| < r.posted
    case Posting(post) => true
    case Finishing(id) => exists j :: 0 <= j < |r.userq| && r.userq[j].id == id && r.userq[j].done
  }

  // No event leads to an error exit, and each keeps everything in order.
  lemma DoInv(r: Rx, h: History, e: Event)
    requires Inv(r, h) && Possible(r, h, e)
    ensures BuffersInRange(r) && Do(r, e).Some? && Inv(Do(r, e).value, Then(r, h, e))
  {
    InRange(r, h);
    match e
    case Arrival(msg) => HandleRecvInv(r, h, msg);
    case Posting(post) => ArecvInv(r, h, post);
    case Finishing(id) =>
      var j :| 0 <= j < |r.userq| && r.userq[j].id == id && r.userq[j].done;
      FinishRecvInv(r, h, j);
  }

  // The events in `es`, in this order, lead from the start to r with history h.
  ghost predicate Leads(es: seq<Event>, r: Rx, h: History)
  {
    if es == [] then
      r == Start() && h == NOTHING
    else
      var last := |es| - 1;
      exists r0, h0 :: Leads(es[..last], r0, h0) && Leap(r0, h0, es[last], r, h)
  }

  ghost predicate Leap(r0: Rx, h0: History, e: Event, r: Rx, h: History)
  {
    Possible(r0, h0, e) && BuffersInRange(r0) && Do(r0, e) == Some(r) && h == Then(r0, h0, e)
  }

  function Messages(es: seq<Event>): seq<Msg>
  {
    if es == [] then [] else
      var front := Messages(es[..|es| - 1]);
      if es[|es| - 1].Arrival? then front + [es[|es| - 1].msg] else front
  }

  function Receives(es: seq<Event>): seq<Post>
  {
    if es == [] then [] else
      var front := Receives(es[..|es| - 1]);
      if es[|es| - 1].Posting? then front + [es[|es| - 1].post] else front
  }

  lemma {:induction false} LeadsInv(es: seq<Event>, r: Rx, h: History)
    requires Leads(es, r, h)
    ensures Inv(r, h) && h.arrivals == Messages(es) && h.posts == Receives(es)
  {
    if es == [] {
      StartInv();
    } else {
      var last := |es| - 1;
      var r0, h0 :| Leads(es[..last], r0, h0) && Leap(r0, h0, es[last], r, h);
      LeadsInv(es[..last], r0, h0);
      DoInv(r0, h0, es[last]);
    }
  }

  // What goes where, in terms of tags and lengths: a receive takes a message only if this is
  // no longer than it and has its tag, unless it takes any; no such message and receive are
  // left waiting for each other; and a complete receive has got the data of its message.
  lemma MatchedByTagAndLength(es: seq<Event>, r: Rx, h: History)
    requires Leads(es, r, h)
    ensures var (messages, receives) := (Messages(es), Receives(es));
      && (forall x :: x in h.pairs ==>
            && x.0 < |messages| && x.1 < |receives| && messages[x.0].nbytes <= receives[x.1].nbytes
            && (receives[x.1].tag == -1 || receives[x.1].tag == messages[x.0].tag))
      && (forall a: nat, p: nat :: a < |messages| && p < |receives| ==>
            || messages[a].nbytes > receives[p].nbytes
            || (receives[p].tag != -1 && receives[p].tag != messages[a].tag)
            || ArrivalTaken(h.pairs, a) || PostTaken(h.pairs, p))
      && (forall j :: 0 <= j < |r.userq| && r.userq[j].done ==>
            var u := r.userq[j]; (u.link, u.id) in h.pairs && u.data == messages[u.link].data)
  {
    LeadsInv(es, r, h);
    forall a: nat, p: nat | a < |h.arrivals| && p < |h.posts| && Accepts(h.posts[p], h.arrivals[a])
      ensures ArrivalTaken(h.pairs, a) || PostTaken(h.pairs, p)
    {
      assert !Blocking(h.arrivals, h.posts, h.pairs, a, p);
    }
    forall j | 0 <= j < |r.userq| && r.userq[j].done
      ensures var u := r.userq[j]; (u.link, u.id) in h.pairs && u.data == h.arrivals[u.link].data
    {
      assert UserOk(h, r.userq[j]);
    }
  }

  // The pairing does not depend on timing: however the same arrivals and the same receives
  // are interleaved, the same messages go to the same receives.
  lemma TimingDoesNotMatter(es: seq<Event>, fs: seq<Event>, r: Rx, h: History, q: Rx, g: History)
    requires Leads(es, r, h) && Leads(fs, q, g)
    requires Messages(es) == Messages(fs) && Receives(es) == Receives(fs)
    ensures h.pairs == g.pairs && r.freed == q.freed && r.posted == q.posted
    ensures forall i, j :: 0 <= i < |r.userq| && 0 <= j < |q.userq| && r.userq[i].id == q.userq[j].id ==>
      r.userq[i].done == q.userq[j].done && (r.userq[i].done ==> r.userq[i].data == q.userq[j].data)
  {
    LeadsInv(es, r, h);
    LeadsInv(fs, q, g);
    StableUnique(h.arrivals, h.posts, h.pairs, g.pairs);
    forall i, j | 0 <= i < |r.userq| && 0 <= j < |q.userq| && r.userq[i].id == q.userq[j].id
      ensures r.userq[i].done == q.userq[j].done && (r.userq[i].done ==> r.userq[i].data == q.userq[j].data)
    {
      assert UserOk(h, r.userq[i]) && UserOk(g, q.userq[j]);
    }
  }

  // ------------------------------------------------------------------ in place

  class Receiver {
    var ibq: seq<Ib>
    var userq: seq<User>
    const inUse: array<bool>
    var posted: nat
    var asked: nat
    var freed: int

    ghost function View(): Rx
      reads this, inUse
    {
      Rx(ibq, userq, inUse[..], posted, asked, freed)
    }

    constructor ()
      ensures fresh(inUse) && View() == Start()
    {
      ibq, userq, posted, asked, freed := [], [], 0, 0, BUFFERS;
      inUse := new bool[BUFFERS](_ => false);
      new;
      for j := 0 to BUFFERS
        modifies this`ibq, this`posted, inUse
        invariant userq == [] && asked == 0 && freed == BUFFERS && posted == j && inUse.Length == BUFFERS
        invariant |ibq| == j && forall k :: 0 <= k < j ==> ibq[k] == Ib(k, Waiting, k, NO_MSG)
        invariant forall k :: 0 <= k < BUFFERS ==> (inUse[k] <==> k < j)
      {
        ghost var u := inUse[..];
        assert !u[j] && forall k :: 0 <= k < j ==> u[k];
        assert FirstFree(u) == j;
        ghost var r := View();
        var ok := PostEagerRecv();
        assert View() == PostRecv(r).value;
        assert inUse[..] == u[j := true];
      }
      assert inUse[..] == Start().inUse;
      assert ibq == Start().ibq;
    }

    // ib_post_eager_recv; not ok is the error exit.
    method PostEagerRecv() returns (ok: bool)
      modifies this`ibq, this`posted, inUse
      ensures ok <==> PostRecv(old(View())).Some?
      ensures ok ==> View() == PostRecv(old(View())).value
    {
      var b := 0;
      while b < inUse.Length && inUse[b]
        invariant b <= inUse.Length && forall k :: 0 <= k < b ==> inUse[k]
      {
        b := b + 1;
      }
      ghost var u := inUse[..];
      assert b == FirstFree(u) by { assert forall k :: 0 <= k < |u| ==> u[k] == inUse[k]; }
      if b == inUse.Length { return false; }
      inUse[b] := true;
      assert inUse[..] == u[b := true];
      ibq := ibq + [Ib(posted, Waiting, b, NO_MSG)];
      posted := posted + 1;
      ok := true;
    }

    // What both matching handlers do with entry i: give back its buffer and post another.
    method GiveBack(i: nat) returns (ok: bool)
      requires i < |ibq| && ibq[i].buffer < inUse.Length
      modifies this`ibq, this`posted, this`freed, inUse
      ensures ok <==> Release(old(View()), i).Some?
      ensures ok ==> View() == Release(old(View()), i).value
    {
      ghost var u := inUse[..];
      var b := ibq[i].buffer;
      ibq := ibq[i := ibq[i].(flag := Matched)];
      inUse[b] := false;
      assert inUse[..] == u[b := false];
      ok := PostEagerRecv();
      if ok { freed := Inc(freed); }
    }

    method EagerArecv(post: Post) returns (ok: bool)
      requires BuffersInRange(View())
      modifies this, inUse
      ensures ok <==> Arecv(old(View()), post).Some?
      ensures ok ==> View() == Arecv(old(View()), post).value
    {
      var i := 0;
      while i < |ibq| && !(ibq[i].flag == Complete && Accepts(post, ibq[i].msg))
        invariant i <= |ibq| && forall k :: 0 <= k < i ==> !(ibq[k].flag == Complete && Accepts(post, ibq[k].msg))
      {
        i := i + 1;
      }
      assert i == FindComplete(ibq, post);
      if i < |ibq| {
        var u := User(asked, post, true, ibq[i].id, ibq[i].msg.data);
        assert View().ibq[i].buffer < |View().inUse|;
        ok := GiveBack(i);
        if ok { userq := userq + [u]; }
      } else {
        userq := userq + [User(asked, post, false, 0, [])];
        ok := true;
      }
      asked := asked + 1;
    }

    method EagerHandleRecv(msg: Msg) returns (ok: bool)
      requires BuffersInRange(View())
      modifies this, inUse
      ensures ok <==> HandleRecv(old(View()), msg).Some?
      ensures ok ==> View() == HandleRecv(old(View()), msg).value
    {
      var i := 0;
      while i < |ibq| && ibq[i].flag != Waiting
        invariant i <= |ibq| && forall k :: 0 <= k < i ==> ibq[k].flag != Waiting
      {
        i := i + 1;
      }
      assert i == FindWaiting(ibq);
      if i == |ibq| { return false; }
      assert View().ibq[i].buffer < |View().inUse|;
      ibq := ibq[i := ibq[i].(flag := Complete, msg := msg)];
      var j := 0;
      while j < |userq| && !(!userq[j].done && Accepts(userq[j].post, msg))
        invariant j <= |userq| && forall k :: 0 <= k < j ==> !(!userq[k].done && Accepts(userq[k].post, msg))
      {
        j := j + 1;
      }
      assert j == FindUser(userq, msg);
      if j == |userq| { return true; }
      var id := ibq[i].id;
      ok := GiveBack(i);
      if ok { userq := userq[j := userq[j].(done := true, link := id, data := msg.data)]; }
    }

    method EagerFinishRecv(p: nat) returns (ok: bool)
      modifies this`ibq, this`userq
      ensures ok <==> FinishRecv(old(View()), p).Some?
      ensures ok ==> View() == FinishRecv(old(View()), p).value
    {
      var j := 0;
      while j < |userq| && userq[j].id != p
        invariant j <= |userq| && forall k :: 0 <= k < j ==> userq[k].id != p
      {
        j := j + 1;
      }
      assert j == FindAsked(userq, p);
      if j == |userq| { return false; }
      var i, link := 0, userq[j].link;
      while i < |ibq| && ibq[i].id != link
        invariant i <= |ibq| && forall k :: 0 <= k < i ==> ibq[k].id != link
      {
        i := i + 1;
      }
      assert i == FindIb(ibq, link);
      if i == |ibq| { return false; }
      userq, ibq := Without(userq, j), Without(ibq, i);
      ok := true;
    }
  }
}
