/**
 Which eager message goes to which posted receive (MP_Lite/ib.c), for one sending node:
 matchings between messages in the order they arrive and receives in the order they are
 posted, regardless of how the two orders are interleaved in time.
 */
module EagerMatching {

  datatype Msg = Msg(tag: int, nbytes: int, data: seq<int>)

  datatype Post = Post(tag: int, nbytes: int)

  // The test in ib_eager_arecv and ib_eager_handle_recv; tag -1 takes any tag.
  predicate Accepts(p: Post, a: Msg)
  {
    a.nbytes <= p.nbytes && (p.tag == -1 || a.tag == p.tag)
  }

  // Pairs of an arrival and a posted receive, by number.
  type Pairs = set<(nat, nat)>

  ghost predicate Matching(arrivals: seq<Msg>, posts: seq<Post>, m: Pairs)
  {
    && (forall x :: x in m ==> x.0 < |arrivals| && x.1 < |posts| && Accepts(posts[x.1], arrivals[x.0]))
    && (forall x, y :: x in m && y in m ==> (x.0 == y.0 <==> x.1 == y.1))
  }

  // Arrival a and receive p would both rather have each other than what they have got: an
  // earlier one is better, and anything is better than nothing.
  ghost predicate Blocking(arrivals: seq<Msg>, posts: seq<Post>, m: Pairs, a: nat, p: nat)
  {
    && a < |arrivals| && p < |posts| && Accepts(posts[p], arrivals[a])
    && (forall x :: x in m && x.0 == a ==> p < x.1)
    && (forall x :: x in m && x.1 == p ==> a < x.0)
  }

  ghost predicate Stable(arrivals: seq<Msg>, posts: seq<Post>, m: Pairs)
  {
    Matching(arrivals, posts, m) && forall a, p :: !Blocking(arrivals, posts, m, a, p)
  }

  // There is at most one stable matching, so that the order of arrivals and the order of
  // posts decide everything.
  lemma StableUnique(arrivals: seq<Msg>, posts: seq<Post>, m: Pairs, n: Pairs)
    requires Stable(arrivals, posts, m) && Stable(arrivals, posts, n)
    ensures m == n
  {
    forall x | x in m ensures x in n { StableIncluded(arrivals, posts, m, n, x); }
    forall x | x in n ensures x in m { StableIncluded(arrivals, posts, n, m, x); }
  }

  lemma {:induction false} StableIncluded(arrivals: seq<Msg>, posts: seq<Post>, m: Pairs, n: Pairs, x: (nat, nat))
    requires Stable(arrivals, posts, m) && Stable(arrivals, posts, n) && x in m
    ensures x in n
    decreases x.0 + x.1
  {
    if x in n {
    } else {
      assert !Blocking(arrivals, posts, n, x.0, x.1);
      var y :| y in n && ((y.0 == x.0 && y.1 <= x.1) || (y.1 == x.1 && y.0 <= x.0));
      assert y.0 + y.1 < x.0 + x.1 by { assert y != x; }
      StableIncluded(arrivals, posts, n, m, y);
      assert false;
    }
  }

  // The non-overtaking rule of section 3.5 of the MPI-3.1 standard: if a receive takes a
  // message and could have taken an earlier one, an earlier receive has that one ...
  lemma MessagesInOrder(arrivals: seq<Msg>, posts: seq<Post>, m: Pairs, x: (nat, nat), a: nat)
    requires Stable(arrivals, posts, m) && x in m && a < x.0 && Accepts(posts[x.1], arrivals[a])
    ensures exists y :: y in m && y.0 == a && y.1 < x.1
  {
    assert !Blocking(arrivals, posts, m, a, x.1);
    var y :| y in m && y.0 == a && y.1 <= x.1;
  }

  // ... and if a message goes to a receive and would have fitted an earlier one, that one
  // has an earlier message.
  lemma ReceivesInOrder(arrivals: seq<Msg>, posts: seq<Post>, m: Pairs, x: (nat, nat), p: nat)
    requires Stable(arrivals, posts, m) && x in m && p < x.1 && Accepts(posts[p], arrivals[x.0])
    ensures exists y :: y in m && y.1 == p && y.0 < x.0
  {
    assert !Blocking(arrivals, posts, m, x.0, p);
    var y :| y in m && y.1 == p && y.0 <= x.0;
  }

  ghost predicate ArrivalTaken(m: Pairs, a: nat) { exists x :: x in m && x.0 == a }

  ghost predicate PostTaken(m: Pairs, p: nat) { exists x :: x in m && x.1 == p }

  // The pairs after one more arrival, which takes the first free receive p that accepts it.
  lemma ArrivalMatched(arrivals: seq<Msg>, posts: seq<Post>, m: Pairs, msg: Msg, p: nat)
    requires Stable(arrivals, posts, m) && p < |posts| && Accepts(posts[p], msg) && !PostTaken(m, p)
    requires forall q :: 0 <= q < p && Accepts(posts[q], msg) ==> PostTaken(m, q)
    ensures Stable(arrivals + [msg], posts, m + {(|arrivals|, p)}) && (|arrivals|, p) !in m
  {
    var after, n := arrivals + [msg], m + {(|arrivals|, p)};
    forall a: nat, q: nat ensures !Blocking(after, posts, n, a, q) {
      assert (|arrivals|, p) in n;
      if Blocking(after, posts, n, a, q) && a < |arrivals| { assert Blocking(arrivals, posts, m, a, q); }
    }
  }

  lemma ArrivalUnmatched(arrivals: seq<Msg>, posts: seq<Post>, m: Pairs, msg: Msg)
    requires Stable(arrivals, posts, m)
    requires forall q :: 0 <= q < |posts| && Accepts(posts[q], msg) ==> PostTaken(m, q)
    ensures Stable(arrivals + [msg], posts, m)
  {
    var after := arrivals + [msg];
    forall a: nat, q: nat ensures !Blocking(after, posts, m, a, q) {
      if Blocking(after, posts, m, a, q) && a < |arrivals| { assert Blocking(arrivals, posts, m, a, q); }
    }
  }

  // The pairs after one more receive, which takes the first free arrival a it accepts.
  lemma PostMatched(arrivals: seq<Msg>, posts: seq<Post>, m: Pairs, post: Post, a: nat)
    requires Stable(arrivals, posts, m) && a < |arrivals| && Accepts(post, arrivals[a]) && !ArrivalTaken(m, a)
    requires forall b :: 0 <= b < a && Accepts(post, arrivals[b]) ==> ArrivalTaken(m, b)
    ensures Stable(arrivals, posts + [post], m + {(a, |posts|)}) && (a, |posts|) !in m
  {
    var after, n := posts + [post], m + {(a, |posts|)};
    forall b: nat, q: nat ensures !Blocking(arrivals, after, n, b, q) {
      assert (a, |posts|) in n;
      if Blocking(arrivals, after, n, b, q) && q < |posts| { assert Blocking(arrivals, posts, m, b, q); }
    }
  }

  lemma PostUnmatched(arrivals: seq<Msg>, posts: seq<Post>, m: Pairs, post: Post)
    requires Stable(arrivals, posts, m)
    requires forall b :: 0 <= b < |arrivals| && Accepts(post, arrivals[b]) ==> ArrivalTaken(m, b)
    ensures Stable(arrivals, posts + [post], m)
  {
    var after := posts + [post];
    forall b: nat, q: nat ensures !Blocking(arrivals, after, m, b, q) {
      if Blocking(arrivals, after, m, b, q) && q < |posts| { assert Blocking(arrivals, posts, m, b, q); }
    }
  }
}
