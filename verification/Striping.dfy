/**
 via_send and via_recv (MP_Lite/via.c): a buffer is cut into packets that go out over the
 network interfaces in turn, and put together again on the other side.  Each interface
 keeps its packets in order and loses none.

 The functions say what the loops do; the methods at the end are the loops.
 */
module Striping {
  import opened Common

  // ------------------------------------------------------------------ how much goes where

  // nLeftx at the start
  function Share(len: nat, nics: nat, i: nat): int
    requires nics > 0
  {
    len / nics + if i < len % nics then 1 else 0
  }

  function Shares(len: nat, nics: nat): (u: seq<int>)
    requires nics > 0
    ensures |u| == nics
  {
    seq(nics, i requires 0 <= i < nics => Share(len, nics, i))
  }

  function Pos(x: int): nat { if x > 0 then x else 0 }

  function Min(a: int, b: int): int { if a < b then a else b }

  // What is still to be handled, where a negative remainder counts as none.
  function Total(u: seq<int>): nat
  {
    if u == [] then 0 else Total(u[..|u| - 1]) + Pos(u[|u| - 1])
  }

  lemma {:induction false} TotalUpdate(u: seq<int>, i: nat, x: int)
    requires i < |u|
    ensures Total(u[i := x]) + Pos(u[i]) == Total(u) + Pos(x)
    ensures Pos(u[i]) <= Total(u)
  {
    var last := |u| - 1;
    if i == last {
      assert u[i := x][..last] == u[..last];
    } else {
      assert u[i := x][..last] == u[..last][i := x];
      TotalUpdate(u[..last], i, x);
    }
  }

  lemma {:induction false} NothingLeft(u: seq<int>)
    requires forall i :: 0 <= i < |u| ==> u[i] <= 0
    ensures Total(u) == 0
  {
    if u == [] {
    } else {
      NothingLeft(u[..|u| - 1]);
    }
  }

  lemma {:induction false} SharesSum(u: seq<int>, q: nat, m: nat, k: nat)
    requires k <= |u| && forall i :: 0 <= i < |u| ==> u[i] == q + if i < m then 1 else 0
    ensures Total(u[..k]) == k * q + if k < m then k else m
    decreases k
  {
    if k > 0 {
      SharesSum(u, q, m, k - 1);
      assert u[..k][..k - 1] == u[..k - 1];
      assert k * q == (k - 1) * q + q;
    } else {
      assert u[..0] == [];
    }
  }

  // The shares add up to the whole.
  lemma SharesTotal(len: nat, nics: nat)
    requires nics > 0
    ensures Total(Shares(len, nics)) == len
  {
    var u := Shares(len, nics);
    SharesSum(u, len / nics, len % nics, nics);
    assert u[..nics] == u;
  }

  // What is left is level, but for the interfaces before r having had one packet more.
  ghost predicate Level(u: seq<int>, r: nat, size: nat)
  {
    && r < |u| && 0 < size
    && forall i, j :: 0 <= i < j < |u| ==>
         if i < r <= j then u[j] <= u[i] + size <= u[j] + 1 else u[j] <= u[i] <= u[j] + 1
  }

  lemma SharesLevel(len: nat, nics: nat, size: nat)
    requires nics > 0 && size > 0
    ensures Level(Shares(len, nics), 0, size)
  {
  }

  function Succ(i: nat, n: nat): (j: nat)
    requires i < n
    ensures j < n && j == (i + 1) % n
  {
    if i + 1 < n then i + 1 else 0
  }

  lemma LevelStep(u: seq<int>, r: nat, size: nat)
    requires Level(u, r, size)
    ensures Level(u[r := u[r] - size], Succ(r, |u|), size)
  {
  }

  // When the loop comes to an interface that is done, all are.
  lemma AllDone(u: seq<int>, r: nat, size: nat)
    requires Level(u, r, size) && u[r] <= 0
    ensures forall i :: 0 <= i < |u| ==> u[i] <= 0
  {
  }

  // ------------------------------------------------------------------ sending

  // The packets in the order in which they are sent, the first over interface r.
  function Stripe<T>(buf: seq<T>, u: seq<int>, r: nat, size: nat): seq<seq<T>>
    requires r < |u| && size > 0 && Total(u) == |buf|
    decreases |buf|
  {
    if u[r] <= 0 then [] else
      TotalUpdate(u, r, u[r] - size);
      var k := Min(u[r], size);
      [buf[..k]] + Stripe(buf[k..], u[r := u[r] - size], Succ(r, |u|), size)
  }

  function Concat<T>(packets: seq<seq<T>>): seq<T>
  {
    if packets == [] then [] else packets[0] + Concat(packets[1..])
  }

  ghost predicate Fit<T>(packets: seq<seq<T>>, size: nat)
  {
    forall k :: 0 <= k < |packets| ==> 0 < |packets[k]| <= size
  }

  lemma FitFirst<T>(packet: seq<T>, rest: seq<seq<T>>, size: nat)
    requires Fit(rest, size) && 0 < |packet| <= size
    ensures Fit([packet] + rest, size)
  {
  }

  // The packets make up the buffer, and none is empty or too big for its descriptor.
  lemma {:induction false} StripeWhole<T>(buf: seq<T>, u: seq<int>, r: nat, size: nat)
    requires Level(u, r, size) && Total(u) == |buf|
    ensures Concat(Stripe(buf, u, r, size)) == buf
    ensures Fit(Stripe(buf, u, r, size), size)
    decreases |buf|
  {
    if u[r] <= 0 {
      AllDone(u, r, size);
      NothingLeft(u);
    } else {
      TotalUpdate(u, r, u[r] - size);
      LevelStep(u, r, size);
      var k := Min(u[r], size);
      var rest := Stripe(buf[k..], u[r := u[r] - size], Succ(r, |u|), size);
      StripeWhole(buf[k..], u[r := u[r] - size], Succ(r, |u|), size);
      FitFirst(buf[..k], rest, size);
      assert ([buf[..k]] + rest)[1..] == rest;
    }
  }

  // Packets dealt out to n interfaces in turn, starting with r.
  function Deal<T>(packets: seq<T>, r: nat, n: nat): (chans: seq<seq<T>>)
    requires r < n
    ensures |chans| == n
    decreases |packets|
  {
    if packets == [] then seq(n, _ => [])
    else
      var rest := Deal(packets[1..], Succ(r, n), n);
      rest[r := [packets[0]] + rest[r]]
  }

  // The packets an interface is to handle that has x bytes left.
  function Need(x: int, size: nat): nat
    requires size > 0
    decreases Pos(x)
  {
    if x <= 0 then 0 else 1 + Need(x - size, size)
  }

  lemma {:induction false} DealtAsNeeded<T>(buf: seq<T>, u: seq<int>, r: nat, size: nat, j: nat)
    requires Level(u, r, size) && Total(u) == |buf| && j < |u|
    ensures |Deal(Stripe(buf, u, r, size), r, |u|)[j]| == Need(u[j], size)
    decreases |buf|
  {
    if u[r] <= 0 {
      AllDone(u, r, size);
    } else {
      TotalUpdate(u, r, u[r] - size);
      LevelStep(u, r, size);
      var k := Min(u[r], size);
      var rest := Stripe(buf[k..], u[r := u[r] - size], Succ(r, |u|), size);
      DealtAsNeeded(buf[k..], u[r := u[r] - size], Succ(r, |u|), size, j);
      assert ([buf[..k]] + rest)[1..] == rest;
    }
  }

  // ------------------------------------------------------------------ receiving

  // The first loop of via_recv: descriptors are posted in turn, as long as there are any.
  function Posted(u: seq<int>, desc: seq<nat>, avail: seq<nat>, r: nat, size: nat): (p: (seq<int>, seq<nat>))
    requires |u| == |desc| && |u| == |avail| && r < |u| && size > 0
    ensures |p.0| == |u| && |p.1| == |u|
    decreases Total(u)
  {
    if u[r] <= 0 || avail[r] == 0 then (u, desc) else
      TotalUpdate(u, r, u[r] - size);
      Posted(u[r := u[r] - size], desc[r := desc[r] + 1], avail[r := avail[r] - 1], Succ(r, |u|), size)
  }

  function Packets<T>(chans: seq<seq<T>>): nat
  {
    if chans == [] then 0 else Packets(chans[..|chans| - 1]) + |chans[|chans| - 1]|
  }

  lemma {:induction false} OnePacketLess<T>(chans: seq<seq<T>>, i: nat)
    requires i < |chans| && chans[i] != []
    ensures Packets(chans[i := chans[i][1..]]) + 1 == Packets(chans)
  {
    var last := |chans| - 1;
    if i == last {
      assert chans[i := chans[i][1..]][..last] == chans[..last];
    } else {
      assert chans[i := chans[i][1..]][..last] == chans[..last][i := chans[i][1..]];
      OnePacketLess(chans[..last], i);
    }
  }

  // The second loop: what is received, from all that is sent, when interface i is next.
  // None if it waits for a packet that never comes.  Where a descriptor is posted again,
  // the source moves on by two interfaces.
  function Received<T>(u: seq<int>, desc: seq<nat>, chans: seq<seq<T>>, i: nat, size: nat): Option<seq<T>>
    requires |u| == |desc| && |u| == |chans| && i < |u|
    decreases Packets(chans)
  {
    if desc[i] == 0 then Some([])
    else if chans[i] == [] then None
    else
      OnePacketLess(chans, i);
      var rest := chans[i := chans[i][1..]];
      var next := Succ(i, |u|);
      var more := if u[i] > 0 then Received(u[i := u[i] - size], desc, rest, Succ(next, |u|), size)
                  else Received(u, desc[i := desc[i] - 1], rest, next, size);
      if more.None? then None else Some([chans[i][0]] + more.value)
  }

  // On every interface, what is posted and what is still to be posted is what is sent.
  ghost predicate InSync<T>(u: seq<int>, desc: seq<nat>, chans: seq<seq<T>>, size: nat)
  {
    && |u| == |desc| && |u| == |chans| && size > 0
    && forall j :: 0 <= j < |u| ==> desc[j] + Need(u[j], size) == |chans[j]|
  }

  lemma DealFirst<T>(packets: seq<T>, r: nat, n: nat)
    requires r < n && packets != []
    ensures var d := Deal(packets, r, n);
      d[r] != [] && d[r][0] == packets[0] && d[r := d[r][1..]] == Deal(packets[1..], Succ(r, n), n)
  {
    var rest := Deal(packets[1..], Succ(r, n), n);
    assert ([packets[0]] + rest[r])[1..] == rest[r];
  }

  lemma {:induction false} DealIn<T>(packets: seq<T>, r: nat, n: nat, j: nat, x: T)
    requires r < n && j < n && x in Deal(packets, r, n)[j]
    ensures x in packets
    decreases |packets|
  {
    if packets == [] {
    } else {
      if x != packets[0] || j != r { DealIn(packets[1..], Succ(r, n), n, j, x); }
    }
  }

  // With everything posted, the packets come back in the order in which they were sent.
  lemma {:induction false} ReceivedInOrder<T>(packets: seq<T>, u: seq<int>, desc: seq<nat>, i: nat, size: nat)
    requires i < |u| && InSync(u, desc, Deal(packets, i, |u|), size)
    requires forall j :: 0 <= j < |u| ==> u[j] <= 0
    ensures Received(u, desc, Deal(packets, i, |u|), i, size) == Some(packets)
    decreases |packets|
  {
    var chans := Deal(packets, i, |u|);
    if packets == [] {
    } else {
      DealFirst(packets, i, |u|);
      ReceivedInOrder(packets[1..], u, desc[i := desc[i] - 1], Succ(i, |u|), size);
      assert [packets[0]] + packets[1..] == packets;
    }
  }

  // With one interface, one descriptor is enough.
  lemma {:induction false} ReceivedByOne<T>(packets: seq<T>, u: seq<int>, desc: seq<nat>, size: nat)
    requires |u| == 1 && InSync(u, desc, Deal(packets, 0, 1), size) && (packets != [] ==> desc[0] > 0)
    ensures Received(u, desc, Deal(packets, 0, 1), 0, size) == Some(packets)
    decreases |packets|
  {
    var chans := Deal(packets, 0, 1);
    if packets == [] {
    } else {
      DealFirst(packets, 0, 1);
      assert [packets[0]] + packets[1..] == packets;
      if u[0] > 0 {
        ReceivedByOne(packets[1..], u[0 := u[0] - size], desc, size);
      } else {
        if packets[1..] != [] { DealFirst(packets[1..], 0, 1); }
        ReceivedByOne(packets[1..], u, desc[0 := desc[0] - 1], size);
      }
    }
  }

  ghost predicate Distinct<T>(packets: seq<T>)
  {
    forall i, j :: 0 <= i < j < |packets| ==> packets[i] != packets[j]
  }

  // After posting a descriptor again the loop skips an interface: the packet it takes next is
  // not the one sent next.
  lemma SkipsOne<T>(packets: seq<T>, u: seq<int>, desc: seq<nat>, r: nat, size: nat)
    requires |u| >= 2 && r < |u| && |desc| == |u| && packets != [] && Distinct(packets)
    ensures Received(u, desc, Deal(packets, r, |u|), Succ(r, |u|), size) != Some(packets)
  {
    var n, s := |u|, Succ(r, |u|);
    var chans := Deal(packets, r, n);
    DealFirst(packets, r, n);
    assert s != r;
    if chans[s] != [] {
      assert chans[s] == Deal(packets[1..], s, n)[s];
      DealIn(packets[1..], s, n, s, chans[s][0]);
      assert chans[s][0] != packets[0];
    }
  }

  // With several interfaces and something not posted yet, the packets do not come back in
  // order.
  lemma {:induction false} ReceivedOutOfOrder<T>(packets: seq<T>, u: seq<int>, desc: seq<nat>, i: nat, size: nat)
    requires |u| >= 2 && i < |u| && InSync(u, desc, Deal(packets, i, |u|), size) && Distinct(packets)
    requires exists j :: 0 <= j < |u| && u[j] > 0
    ensures Received(u, desc, Deal(packets, i, |u|), i, size) != Some(packets)
    decreases |packets|
  {
    var n := |u|;
    var chans := Deal(packets, i, n);
    var j :| 0 <= j < n && u[j] > 0;
    assert |chans[j]| > 0;
    assert packets != [];
    DealFirst(packets, i, n);
    var rest, next := packets[1..], Succ(i, n);
    assert packets == [packets[0]] + rest;
    if desc[i] == 0 {
    } else {
      if u[i] > 0 {
        assert |chans[i]| >= 2;
        assert rest != [];
        SkipsOne(rest, u[i := u[i] - size], desc, next, size);
      } else {
        ReceivedOutOfOrder(rest, u, desc[i := desc[i] - 1], next, size);
      }
    }
  }

  // ------------------------------------------------------------------ both together

  lemma NeedStep(x: int, size: nat)
    requires size > 0 && x > 0
    ensures Need(x, size) == 1 + Need(x - size, size)
  {
  }

  // Posting moves packets from those still to be posted to those posted ...
  lemma {:induction false} PostedSync(u: seq<int>, desc: seq<nat>, avail: seq<nat>, r: nat, size: nat, j: nat)
    requires |u| == |desc| && |u| == |avail| && r < |u| && size > 0 && j < |u|
    ensures var (v, d) := Posted(u, desc, avail, r, size);
      && d[j] + Need(v[j], size) == desc[j] + Need(u[j], size) && desc[j] <= d[j] <= desc[j] + avail[j]
    decreases Total(u)
  {
    if u[r] <= 0 || avail[r] == 0 {
    } else {
      TotalUpdate(u, r, u[r] - size);
      NeedStep(u[r], size);
      PostedSync(u[r := u[r] - size], desc[r := desc[r] + 1], avail[r := avail[r] - 1], Succ(r, |u|), size, j);
    }
  }

  // ... and posts all of them exactly if there are enough descriptors on every interface.
  lemma {:induction false} PostedEnough(u: seq<int>, desc: seq<nat>, avail: seq<nat>, r: nat, size: nat)
    requires Level(u, r, size) && |u| == |desc| && |u| == |avail|
    requires forall j :: 0 <= j < |u| ==> Need(u[j], size) <= avail[j]
    ensures forall j :: 0 <= j < |u| ==> Posted(u, desc, avail, r, size).0[j] <= 0
    decreases Total(u)
  {
    if u[r] <= 0 {
      AllDone(u, r, size);
    } else {
      TotalUpdate(u, r, u[r] - size);
      NeedStep(u[r], size);
      LevelStep(u, r, size);
      PostedEnough(u[r := u[r] - size], desc[r := desc[r] + 1], avail[r := avail[r] - 1], Succ(r, |u|), size);
    }
  }

  // Every interface has a descriptor for each of its packets.
  ghost predicate Enough(len: nat, nics: nat, size: nat, avail: seq<nat>)
    requires nics > 0 && size > 0 && |avail| == nics
  {
    forall j :: 0 <= j < nics ==> Need(Share(len, nics, j), size) <= avail[j]
  }

  // via_recv as a whole, from what the interfaces bring.
  function Receive<T>(len: nat, nics: nat, size: nat, avail: seq<nat>, chans: seq<seq<T>>): Option<seq<T>>
    requires nics > 0 && size > 0 && |avail| == nics && |chans| == nics
  {
    var (v, d) := Posted(Shares(len, nics), seq(nics, _ => 0), avail, 0, size);
    Received(v, d, chans, 0, size)
  }

  // via_send as a whole: the packets, and what each interface carries.
  function Sent<T>(buf: seq<T>, nics: nat, size: nat): seq<seq<T>>
    requires nics > 0 && size > 0
  {
    SharesTotal(|buf|, nics);
    Stripe(buf, Shares(|buf|, nics), 0, size)
  }

  lemma StartInSync<T>(buf: seq<T>, nics: nat, size: nat, avail: seq<nat>)
    requires nics > 0 && size > 0 && |avail| == nics
    ensures var (v, d) := Posted(Shares(|buf|, nics), seq(nics, _ => 0), avail, 0, size);
      InSync(v, d, Deal(Sent(buf, nics, size), 0, nics), size)
  {
    var u, chans := Shares(|buf|, nics), Deal(Sent(buf, nics, size), 0, nics);
    var (v, d) := Posted(u, seq(nics, _ => 0), avail, 0, size);
    SharesLevel(|buf|, nics, size);
    SharesTotal(|buf|, nics);
    PostedSync(u, seq(nics, _ => 0), avail, 0, size, 0);
    forall j: nat | j < nics ensures d[j] + Need(v[j], size) == |chans[j]| {
      PostedSync(u, seq(nics, _ => 0), avail, 0, size, j);
      DealtAsNeeded(buf, u, 0, size, j);
    }
  }

  // With enough descriptors, or a single interface and any descriptor at all, via_recv
  // rebuilds the buffer given to via_send.
  lemma RoundTrip<T>(buf: seq<T>, nics: nat, size: nat, avail: seq<nat>)
    requires nics > 0 && size > 0 && |avail| == nics
    requires Enough(|buf|, nics, size, avail) || (nics == 1 && avail[0] > 0)
    ensures Receive(|buf|, nics, size, avail, Deal(Sent(buf, nics, size), 0, nics)) == Some(Sent(buf, nics, size))
    ensures Concat(Sent(buf, nics, size)) == buf
  {
    var u, packets := Shares(|buf|, nics), Sent(buf, nics, size);
    var zeros: seq<nat> := seq(nics, _ => 0);
    var (v, d) := Posted(u, zeros, avail, 0, size);
    SharesLevel(|buf|, nics, size);
    SharesTotal(|buf|, nics);
    StripeWhole(buf, u, 0, size);
    StartInSync(buf, nics, size, avail);
    if Enough(|buf|, nics, size, avail) {
      PostedEnough(u, zeros, avail, 0, size);
      ReceivedInOrder(packets, v, d, 0, size);
    } else {
      assert zeros == [0];
      OnePosted(u, avail, size);
      ReceivedByOne(packets, v, d, size);
    }
  }

  lemma OnePosted(u: seq<int>, avail: seq<nat>, size: nat)
    requires |u| == 1 && |avail| == 1 && avail[0] > 0 && size > 0
    ensures u[0] > 0 ==> Posted(u, [0], avail, 0, size).1[0] > 0
  {
    if u[0] > 0 {
      TotalUpdate(u, 0, u[0] - size);
      assert [0 as nat][0 := 0 + 1] == [1];
      PostedSync(u[0 := u[0] - size], [1], avail[0 := avail[0] - 1], 0, size, 0);
    }
  }

  // Otherwise the packets are not all taken in the order in which they were sent.
  lemma OnlyThen<T>(buf: seq<T>, nics: nat, size: nat, avail: seq<nat>)
    requires nics > 0 && size > 0 && |avail| == nics
    requires !Enough(|buf|, nics, size, avail) && !(nics == 1 && avail[0] > 0)
    requires Distinct(Sent(buf, nics, size))
    ensures Receive(|buf|, nics, size, avail, Deal(Sent(buf, nics, size), 0, nics)) != Some(Sent(buf, nics, size))
  {
    var u, packets := Shares(|buf|, nics), Sent(buf, nics, size);
    var zeros: seq<nat> := seq(nics, _ => 0);
    var (v, d) := Posted(u, zeros, avail, 0, size);
    StartInSync(buf, nics, size, avail);
    var j: nat :| j < nics && avail[j] < Need(u[j], size);
    PostedSync(u, zeros, avail, 0, size, j);
    if nics == 1 {
      assert d[0] == 0 && packets != [];
    } else {
      assert v[j] > 0;
      ReceivedOutOfOrder(packets, v, d, 0, size);
    }
  }

  lemma {:induction false} ReceivedIn<T>(u: seq<int>, desc: seq<nat>, packets: seq<T>, chans: seq<seq<T>>, i: nat,
                                         size: nat)
    requires |u| == |desc| && |u| == |chans| && i < |u| && Received(u, desc, chans, i, size).Some?
    requires forall j, k :: 0 <= j < |chans| && 0 <= k < |chans[j]| ==> chans[j][k] in packets
    ensures var got := Received(u, desc, chans, i, size).value; forall k :: 0 <= k < |got| ==> got[k] in packets
    decreases Packets(chans)
  {
    if desc[i] == 0 || chans[i] == [] {
    } else {
      OnePacketLess(chans, i);
      var rest := chans[i := chans[i][1..]];
      var next := Succ(i, |u|);
      if u[i] > 0 {
        ReceivedIn(u[i := u[i] - size], desc, packets, rest, Succ(next, |u|), size);
      } else {
        ReceivedIn(u, desc[i := desc[i] - 1], packets, rest, next, size);
      }
    }
  }

  // Where no two packets begin alike, different packets make up different buffers.
  ghost predicate Headed<T>(packets: seq<seq<T>>)
  {
    && (forall k :: 0 <= k < |packets| ==> packets[k] != [])
    && forall j, k :: 0 <= j < |packets| && 0 <= k < |packets| && packets[j][0] == packets[k][0] ==>
         packets[j] == packets[k]
  }

  lemma {:induction false} ConcatTells<T>(all: seq<seq<T>>, a: seq<seq<T>>, b: seq<seq<T>>)
    requires Headed(all) && (forall k :: 0 <= k < |a| ==> a[k] in all) && (forall k :: 0 <= k < |b| ==> b[k] in all)
    requires Concat(a) == Concat(b)
    ensures a == b
    decreases |a|
  {
    if a == [] || b == [] {
    } else {
      assert Concat(a)[0] == a[0][0] && Concat(b)[0] == b[0][0];
      assert a[0] == b[0];
      assert Concat(a[1..]) == Concat(a)[|a[0]|..] && Concat(b[1..]) == Concat(b)[|b[0]|..];
      ConcatTells(all, a[1..], b[1..]);
      assert a == [a[0]] + a[1..] && b == [b[0]] + b[1..];
    }
  }

  lemma {:induction false} StripeIn<T>(buf: seq<T>, u: seq<int>, r: nat, size: nat, k: nat)
    requires r < |u| && size > 0 && Total(u) == |buf| && k < |Stripe(buf, u, r, size)|
    requires Distinct(buf)
    ensures var p := Stripe(buf, u, r, size);
      p[k] != [] && p[k][0] in buf && p[0] != [] && (k > 0 ==> p[k][0] != p[0][0])
    decreases |buf|
  {
    TotalUpdate(u, r, u[r] - size);
    var m := Min(u[r], size);
    var rest := Stripe(buf[m..], u[r := u[r] - size], Succ(r, |u|), size);
    assert Stripe(buf, u, r, size) == [buf[..m]] + rest;
    if k == 0 {
    } else {
      StripeIn(buf[m..], u[r := u[r] - size], Succ(r, |u|), size, k - 1);
      assert buf[..m][0] == buf[0];
    }
  }

  lemma {:induction false} PacketsHeaded<T>(buf: seq<T>, u: seq<int>, r: nat, size: nat)
    requires r < |u| && size > 0 && Total(u) == |buf| && Distinct(buf)
    ensures Headed(Stripe(buf, u, r, size)) && Distinct(Stripe(buf, u, r, size))
    decreases |buf|
  {
    var p := Stripe(buf, u, r, size);
    forall k | 0 <= k < |p| ensures p[k] != [] && p[0] != [] && (k > 0 ==> p[k][0] != p[0][0]) {
      StripeIn(buf, u, r, size, k);
    }
    if u[r] <= 0 {
    } else {
      TotalUpdate(u, r, u[r] - size);
      PacketsHeaded(buf[Min(u[r], size)..], u[r := u[r] - size], Succ(r, |u|), size);
      assert p == [p[0]] + p[1..];
    }
  }

  lemma DealtOut<T>(packets: seq<T>, n: nat)
    requires n > 0
    ensures var chans := Deal(packets, 0, n);
      forall j, k :: 0 <= j < n && 0 <= k < |chans[j]| ==> chans[j][k] in packets
  {
    var chans := Deal(packets, 0, n);
    forall j, k | 0 <= j < n && 0 <= k < |chans[j]| ensures chans[j][k] in packets {
      DealIn(packets, 0, n, j, chans[j][k]);
    }
  }

  // What via_recv leaves in its buffer, if it comes to an end.
  function Rebuilt<T>(buf: seq<T>, nics: nat, size: nat, avail: seq<nat>): Option<seq<T>>
    requires nics > 0 && size > 0 && |avail| == nics
  {
    match Receive(|buf|, nics, size, avail, Deal(Sent(buf, nics, size), 0, nics))
    case None => None
    case Some(packets) => Some(Concat(packets))
  }

  // For a buffer in which nothing occurs twice, the condition is exact: via_recv rebuilds it
  // if and only if every interface has a descriptor for each of its packets, or there is
  // only one interface and it has one.
  lemma RebuiltExactly<T>(buf: seq<T>, nics: nat, size: nat, avail: seq<nat>)
    requires nics > 0 && size > 0 && |avail| == nics && Distinct(buf)
    ensures Rebuilt(buf, nics, size, avail) == Some(buf) <==>
      Enough(|buf|, nics, size, avail) || (nics == 1 && avail[0] > 0)
  {
    if Enough(|buf|, nics, size, avail) || (nics == 1 && avail[0] > 0) {
      RoundTrip(buf, nics, size, avail);
    } else {
      var u, packets := Shares(|buf|, nics), Sent(buf, nics, size);
      var chans := Deal(packets, 0, nics);
      SharesLevel(|buf|, nics, size);
      SharesTotal(|buf|, nics);
      PacketsHeaded(buf, u, 0, size);
      StripeWhole(buf, u, 0, size);
      OnlyThen(buf, nics, size, avail);
      var got := Receive(|buf|, nics, size, avail, chans);
      if got.Some? && Concat(got.value) == buf {
        var (v, d) := Posted(u, seq(nics, _ => 0), avail, 0, size);
        DealtOut(packets, nics);
        ReceivedIn(v, d, packets, chans, 0, size);
        ConcatTells(packets, got.value, packets);
        assert false;
      }
    }
  }

  // ------------------------------------------------------------------ any buffer

  function Image<S, T>(f: S -> T, s: seq<S>): (r: seq<T>)
    ensures |r| == |s| && forall i :: 0 <= i < |s| ==> r[i] == f(s[i])
  {
    seq(|s|, i requires 0 <= i < |s| => f(s[i]))
  }

  function Lift<S, T>(f: S -> T): seq<S> -> seq<T> { s => Image(f, s) }

  function ImageOf<S, T>(f: S -> T, s: Option<seq<S>>): Option<seq<T>>
  {
    if s.None? then None else Some(Image(f, s.value))
  }

  lemma ImageSplit<S, T>(f: S -> T, s: seq<S>, k: nat)
    requires k <= |s|
    ensures Image(f, s)[..k] == Image(f, s[..k]) && Image(f, s)[k..] == Image(f, s[k..])
  {
  }

  lemma ImageJoin<S, T>(f: S -> T, s: seq<S>, t: seq<S>)
    ensures Image(f, s + t) == Image(f, s) + Image(f, t)
  {
  }

  lemma ImageFirst<S, T>(f: S -> T, x: S, s: seq<S>)
    ensures Image(f, [x] + s) == [f(x)] + Image(f, s)
  {
  }

  lemma ImageUpdate<S, T>(f: S -> T, s: seq<S>, i: nat, x: S)
    requires i < |s|
    ensures Image(f, s[i := x]) == Image(f, s)[i := f(x)]
  {
  }

  lemma {:induction false} StripeImage<S, T>(f: S -> T, buf: seq<S>, u: seq<int>, r: nat, size: nat)
    requires r < |u| && size > 0 && Total(u) == |buf|
    ensures Stripe(Image(f, buf), u, r, size) == Image(Lift(f), Stripe(buf, u, r, size))
    decreases |buf|
  {
    if u[r] <= 0 {
    } else {
      TotalUpdate(u, r, u[r] - size);
      var k, v := Min(u[r], size), u[r := u[r] - size];
      StripeImage(f, buf[k..], v, Succ(r, |u|), size);
      ImageSplit(f, buf, k);
      ImageJoin(Lift(f), [buf[..k]], Stripe(buf[k..], v, Succ(r, |u|), size));
    }
  }

  lemma {:induction false} DealImage<S, T>(f: S -> T, packets: seq<S>, r: nat, n: nat)
    requires r < n
    ensures Deal(Image(f, packets), r, n) == Image(Lift(f), Deal(packets, r, n))
    decreases |packets|
  {
    if packets == [] {
    } else {
      DealImage(f, packets[1..], Succ(r, n), n);
      ImageSplit(f, packets, 1);
      var rest := Deal(packets[1..], Succ(r, n), n);
      ImageFirst(f, packets[0], rest[r]);
      ImageUpdate(Lift(f), rest, r, [packets[0]] + rest[r]);
    }
  }

  lemma {:induction false} ReceivedImage<S, T>(f: S -> T, u: seq<int>, desc: seq<nat>, chans: seq<seq<S>>, i: nat,
                                               size: nat)
    requires |u| == |desc| && |u| == |chans| && i < |u|
    ensures Received(u, desc, Image(Lift(f), chans), i, size) == ImageOf(f, Received(u, desc, chans, i, size))
    decreases Packets(chans)
  {
    if desc[i] == 0 || chans[i] == [] {
    } else {
      OnePacketLess(chans, i);
      var rest := chans[i := chans[i][1..]];
      var next := Succ(i, |u|);
      ImageSplit(f, chans[i], 1);
      ImageUpdate(Lift(f), chans, i, chans[i][1..]);
      var more;
      if u[i] > 0 {
        ReceivedImage(f, u[i := u[i] - size], desc, rest, Succ(next, |u|), size);
        more := Received(u[i := u[i] - size], desc, rest, Succ(next, |u|), size);
      } else {
        ReceivedImage(f, u, desc[i := desc[i] - 1], rest, next, size);
        more := Received(u, desc[i := desc[i] - 1], rest, next, size);
      }
      if more.Some? { ImageFirst(f, chans[i][0], more.value); }
    }
  }

  lemma {:induction false} ConcatImage<S, T>(f: S -> T, packets: seq<seq<S>>)
    ensures Concat(Image(Lift(f), packets)) == Image(f, Concat(packets))
  {
    if packets == [] {
    } else {
      ConcatImage(f, packets[1..]);
      ImageSplit(Lift(f), packets, 1);
      ImageJoin(f, packets[0], Concat(packets[1..]));
    }
  }

  // What is in the buffer has no say in where it goes.
  lemma RebuiltImage<S, T>(f: S -> T, buf: seq<S>, nics: nat, size: nat, avail: seq<nat>)
    requires nics > 0 && size > 0 && |avail| == nics
    ensures Rebuilt(Image(f, buf), nics, size, avail) == ImageOf(f, Rebuilt(buf, nics, size, avail))
  {
    var u, packets := Shares(|buf|, nics), Sent(buf, nics, size);
    var (v, d) := Posted(u, seq(nics, _ => 0), avail, 0, size);
    SharesTotal(|buf|, nics);
    StripeImage(f, buf, u, 0, size);
    DealImage(Lift(f), packets, 0, nics);
    ReceivedImage(Lift(f), v, d, Deal(packets, 0, nics), 0, size);
    var got := Received(v, d, Deal(packets, 0, nics), 0, size);
    if got.Some? { ConcatImage(f, got.value); }
  }

  lemma Misplaced(s: seq<int>) returns (p: nat)
    requires s != seq(|s|, i => i)
    ensures p < |s| && s[p] != p
  {
    var inPlace := seq(|s|, i => i);
    p :| 0 <= p < |s| && s[p] != inPlace[p];
  }

  // If the numbers from 0 on come back out of place, so do an x in place of one of them and
  // a y in place of each other.
  lemma OutOfPlace<T>(x: T, y: T, len: nat, nics: nat, size: nat, avail: seq<nat>) returns (buf: seq<T>)
    requires nics > 0 && size > 0 && |avail| == nics && x != y
    requires !Enough(len, nics, size, avail) && !(nics == 1 && avail[0] > 0)
    ensures |buf| == len && Rebuilt(buf, nics, size, avail) != Some(buf)
  {
    var ids := seq(len, i => i);
    RebuiltExactly(ids, nics, size, avail);
    var back := Rebuilt(ids, nics, size, avail);
    var p: int := -1;
    if back.Some? && |back.value| == len {
      p := Misplaced(back.value);
    }
    var f := (i: int) => if i == p then x else y;
    buf := Image(f, ids);
    RebuiltImage(f, ids, nics, size, avail);
    if p >= 0 { assert buf[p] == x && Image(f, back.value)[p] == y; }
  }

  // Whatever the buffers hold, as long as it is not always the same: via_recv rebuilds all
  // buffers of a length if and only if every interface has a descriptor for each of its
  // packets, or there is only one interface and it has one.
  lemma AllRebuiltExactly<T(!new)>(x: T, y: T, len: nat, nics: nat, size: nat, avail: seq<nat>)
    requires nics > 0 && size > 0 && |avail| == nics && x != y
    ensures (forall buf: seq<T> :: |buf| == len ==> Rebuilt(buf, nics, size, avail) == Some(buf)) <==>
      Enough(len, nics, size, avail) || (nics == 1 && avail[0] > 0)
  {
    if Enough(len, nics, size, avail) || (nics == 1 && avail[0] > 0) {
      forall buf: seq<T> | |buf| == len ensures Rebuilt(buf, nics, size, avail) == Some(buf) {
        RoundTrip(buf, nics, size, avail);
      }
    } else {
      var buf := OutOfPlace(x, y, len, nics, size, avail);
    }
  }

  // ------------------------------------------------------------------ the loops

  // Interface by interface, what has gone out and what is to follow.
  function Join<T>(a: seq<seq<T>>, b: seq<seq<T>>): seq<seq<T>>
    requires |a| == |b|
  {
    seq(|a|, i requires 0 <= i < |a| => a[i] + b[i])
  }

  lemma JoinStep<T>(a: seq<seq<T>>, packets: seq<T>, r: nat, n: nat)
    requires r < n == |a| && packets != []
    ensures Join(a[r := a[r] + [packets[0]]], Deal(packets[1..], Succ(r, n), n)) == Join(a, Deal(packets, r, n))
  {
    var rest := Deal(packets[1..], Succ(r, n), n);
    assert a[r] + [packets[0]] + rest[r] == a[r] + ([packets[0]] + rest[r]);
  }

  lemma JoinNothing<T>(a: seq<seq<T>>, r: nat, n: nat)
    requires r < n == |a|
    ensures Join(a, Deal([], r, n)) == a && Join(seq(n, _ => []), a) == a
  {
    assert forall i :: 0 <= i < n ==> a[i] + [] == a[i] && [] + a[i] == a[i];
  }

  // How often each of n interfaces comes up in m turns that start with j.
  function Turns(m: nat, j: nat, n: nat): (c: seq<nat>)
    requires j < n
    ensures |c| == n
  {
    if m == 0 then seq(n, _ => 0)
    else
      var rest := Turns(m - 1, Succ(j, n), n);
      rest[j := rest[j] + 1]
  }

  function After(m: nat, j: nat, n: nat): (i: nat)
    requires j < n
    ensures i < n
  {
    if m == 0 then j else After(m - 1, Succ(j, n), n)
  }

  lemma {:induction false} OneTurnMore(m: nat, j: nat, n: nat)
    requires j < n
    ensures After(m + 1, j, n) == Succ(After(m, j, n), n)
    ensures var i := After(m, j, n); Turns(m + 1, j, n) == Turns(m, j, n)[i := Turns(m, j, n)[i] + 1]
  {
    if m == 0 {
    } else {
      OneTurnMore(m - 1, Succ(j, n), n);
    }
  }

  // The first loop of both.
  method SplitShares(len: nat, nics: nat) returns (left: array<int>)
    requires nics > 0
    ensures fresh(left) && left[..] == Shares(len, nics)
  {
    left := new int[nics];
    for i := 0 to nics
      invariant forall k :: 0 <= k < i ==> left[k] == Share(len, nics, k)
    {
      left[i] := len / nics;
      if i < len % nics { left[i] := left[i] + 1; }
    }
  }

  // What is still to go out, interface i being next.
  ghost predicate Sending<T>(all: seq<seq<seq<T>>>, chans: seq<seq<seq<T>>>, buf: seq<T>, u: seq<int>, i: nat,
                             size: nat)
  {
    && Level(u, i, size) && |chans| == |u| && Total(u) == |buf|
    && Join(chans, Deal(Stripe(buf, u, i, size), i, |u|)) == all
  }

  lemma Cut<T>(buf: seq<T>, ptr: nat, k: nat)
    requires ptr + k <= |buf|
    ensures buf[ptr..][k..] == buf[ptr + k..] && buf[ptr..][..k] == buf[ptr..ptr + k]
  {
  }

  // One packet over interface i, and what remains is sent as before.
  lemma SendOne<T>(all: seq<seq<seq<T>>>, chans: seq<seq<seq<T>>>, buf: seq<T>, ptr: nat, u: seq<int>, i: nat,
                   size: nat)
    requires ptr <= |buf| && Sending(all, chans, buf[ptr..], u, i, size) && u[i] > 0
    ensures var k := Min(u[i], size);
      && 0 < k && ptr + k <= |buf| && i < |chans|
      && Sending(all, chans[i := chans[i] + [buf[ptr..ptr + k]]], buf[ptr + k..], u[i := u[i] - size],
                 Succ(i, |u|), size)
  {
    var k, n, rest := Min(u[i], size), |u|, buf[ptr..];
    TotalUpdate(u, i, u[i] - size);
    LevelStep(u, i, size);
    Cut(buf, ptr, k);
    var packets, more := Stripe(rest, u, i, size), Stripe(rest[k..], u[i := u[i] - size], Succ(i, n), size);
    assert packets == [rest[..k]] + more && packets[1..] == more;
    JoinStep(chans, packets, i, n);
  }

  lemma StartSending<T>(buf: seq<T>, nics: nat, size: nat)
    requires nics > 0 && size > 0
    ensures Sending(Deal(Sent(buf, nics, size), 0, nics), seq(nics, _ => []), buf[0..], Shares(|buf|, nics), 0, size)
  {
    SharesTotal(|buf|, nics);
    SharesLevel(|buf|, nics, size);
    JoinNothing(Deal(Sent(buf, nics, size), 0, nics), 0, nics);
    assert buf[0..] == buf;
  }

  lemma EndSending<T>(all: seq<seq<seq<T>>>, chans: seq<seq<seq<T>>>, buf: seq<T>, u: seq<int>, i: nat, size: nat)
    requires Sending(all, chans, buf, u, i, size) && u[i] <= 0
    ensures chans == all
  {
    JoinNothing(chans, i, |u|);
  }

  // Descriptors are free or posted, and as many as there were.
  ghost predicate Conserved(free: seq<nat>, posted: seq<nat>, had: seq<nat>)
  {
    |free| == |had| && |posted| == |had| && forall x :: 0 <= x < |had| ==> free[x] + posted[x] == had[x]
  }

  lemma ConservedStep(free: seq<nat>, posted: seq<nat>, had: seq<nat>, i: nat)
    requires Conserved(free, posted, had) && i < |had| && free[i] > 0
    ensures Conserved(free[i := free[i] - 1], posted[i := posted[i] + 1], had)
  {
  }

  // A descriptor is taken for a packet of what is left.
  method TakePacket(left: array<int>, posted: array<nat>, free: array<nat>, i: nat, size: nat) returns (packetSize: int)
    requires posted != free && i < left.Length == posted.Length == free.Length && free[i] > 0
    modifies left, posted, free
    ensures packetSize == Min(old(left[i]), size) && left[..] == old(left[..])[i := old(left[i]) - packetSize]
    ensures posted[..] == old(posted[..])[i := old(posted[i]) + 1]
    ensures free[..] == old(free[..])[i := old(free[i]) - 1]
  {
    packetSize := if left[i] < size then left[i] else size;
    left[i] := left[i] - packetSize;
    posted[i] := posted[i] + 1;
    free[i] := free[i] - 1;
  }

  function Clipped(u: seq<int>): seq<int> { seq(|u|, i requires 0 <= i < |u| => Pos(u[i])) }

  lemma ClippedStep(u: seq<int>, i: nat, size: nat)
    requires i < |u| && u[i] > 0
    ensures Clipped(u)[i := Pos(u[i]) - Min(u[i], size)] == Clipped(u[i := u[i] - size])
  {
  }

  // How things stand after m packets of a burst that began at interface i0.
  ghost predicate Bursting<T>(all: seq<seq<seq<T>>>, chans: seq<seq<seq<T>>>, buf: seq<T>, ptr: nat, u: seq<int>,
                              size: nat, i: nat, i0: nat, m: nat,
                              left: seq<int>, posted: seq<nat>, free: seq<nat>, had: seq<nat>)
  {
    && i0 < |u| == |had| && i == After(m, i0, |u|) && ptr <= |buf|
    && left == Clipped(u) && posted == Turns(m, i0, |u|) && Conserved(free, posted, had)
    && Sending(all, chans, buf[ptr..], u, i, size)
  }

  lemma BurstStep<T>(all: seq<seq<seq<T>>>, chans: seq<seq<seq<T>>>, buf: seq<T>, ptr: nat, u: seq<int>, size: nat,
                     i: nat, i0: nat, m: nat, left: seq<int>, posted: seq<nat>, free: seq<nat>, had: seq<nat>)
    requires Bursting(all, chans, buf, ptr, u, size, i, i0, m, left, posted, free, had)
    requires i < |u| && left[i] > 0 && free[i] > 0
    ensures var k := Min(left[i], size);
      && 0 < k && ptr + k <= |buf| && i < |chans| && left[i] == u[i]
      && Bursting(all, chans[i := chans[i] + [buf[ptr..ptr + k]]], buf, ptr + k, u[i := u[i] - size], size,
                  Succ(i, |u|), i0, m + 1, left[i := left[i] - k], posted[i := posted[i] + 1],
                  free[i := free[i] - 1], had)
  {
    assert left[i] == Pos(u[i]);
    SendOne(all, chans, buf, ptr, u, i, size);
    ClippedStep(u, i, size);
    OneTurnMore(m, i0, |u|);
    ConservedStep(free, posted, had, i);
  }

  // One round of the inner loop.
  method SendPacket<T>(ghost all: seq<seq<seq<T>>>, chans0: seq<seq<seq<T>>>, buf: seq<T>, left: array<int>,
                       posted: array<nat>, free: array<nat>, ptr0: nat, j: nat, size: nat,
                       ghost u0: seq<int>, ghost i0: nat, ghost m: nat, ghost had: seq<nat>)
    returns (chans: seq<seq<seq<T>>>, ptr: nat, i: nat, ghost u: seq<int>)
    requires j < left.Length == posted.Length == free.Length == |u0| && posted != free && left[j] > 0 && free[j] > 0
    requires Bursting(all, chans0, buf, ptr0, u0, size, j, i0, m, left[..], posted[..], free[..], had)
    modifies left, posted, free
    ensures ptr0 < ptr <= |buf| && i < |u| == |u0|
    ensures Bursting(all, chans, buf, ptr, u, size, i, i0, m + 1, left[..], posted[..], free[..], had)
  {
    BurstStep(all, chans0, buf, ptr0, u0, size, j, i0, m, left[..], posted[..], free[..], had);
    var packetSize := TakePacket(left, posted, free, j, size);
    chans := chans0[j := chans0[j] + [buf[ptr0..ptr0 + packetSize]]];
    ptr, i, u := ptr0 + packetSize, (j + 1) % left.Length, u0[j := u0[j] - size];
  }

  // The inner loop: packets go out in turn for as long as there are descriptors.
  method SendBurst<T>(ghost all: seq<seq<seq<T>>>, chans0: seq<seq<seq<T>>>, buf: seq<T>, left: array<int>,
                      posted: array<nat>, free: array<nat>, ptr0: nat, i0: nat, size: nat, ghost u0: seq<int>)
    returns (chans: seq<seq<seq<T>>>, ptr: nat, i: nat, ghost u: seq<int>, ghost m: nat)
    requires left.Length == posted.Length == free.Length == |u0| && posted != free && i0 < |u0|
    requires Bursting(all, chans0, buf, ptr0, u0, size, i0, i0, 0, left[..], posted[..], free[..], free[..])
    requires left[i0] > 0 && free[i0] > 0
    modifies left, posted, free
    ensures ptr0 < ptr && |u| == |u0|
    ensures Bursting(all, chans, buf, ptr, u, size, i, i0, m, left[..], posted[..], free[..], old(free[..]))
  {
    chans, ptr, i, u, m := chans0, ptr0, i0, u0, 0;
    while left[i] > 0
      invariant i < |u| == |u0|
      invariant Bursting(all, chans, buf, ptr, u, size, i, i0, m, left[..], posted[..], free[..], old(free[..]))
      invariant if m == 0 then i == i0 && ptr == ptr0 && left[i] > 0 && free[i] > 0 else ptr0 < ptr
      decreases |buf| - ptr
    {
      if free[i] == 0 { break; }
      chans, ptr, i, u := SendPacket(all, chans, buf, left, posted, free, ptr, i, size, u, i0, m, old(free[..]));
      m := m + 1;
    }
  }

  lemma LastTurn(m: nat, j: nat, n: nat)
    requires j < n
    ensures m > 0 <==> Turns(m, j, n)[j] > 0
    ensures m > 0 ==> Turns(m, j, n)[j := Turns(m, j, n)[j] - 1] == Turns(m - 1, Succ(j, n), n)
    ensures m > 0 ==> After(m, j, n) == After(m - 1, Succ(j, n), n)
  {
  }

  // The loop that waits for the sends to complete.
  method WaitForSends(posted: array<nat>, free: array<nat>, j0: nat, ghost m0: nat, ghost had: seq<nat>)
    returns (j: nat)
    requires posted.Length == free.Length && posted != free && j0 < posted.Length
    requires posted[..] == Turns(m0, j0, posted.Length) && Conserved(free[..], posted[..], had)
    modifies posted, free
    ensures j == After(m0, j0, posted.Length)
    ensures posted[..] == Turns(0, j, posted.Length) && free[..] == had
  {
    j := j0;
    ghost var m := m0;
    LastTurn(m, j, posted.Length);
    while posted[j] > 0
      invariant j < posted.Length && After(m, j, posted.Length) == After(m0, j0, posted.Length)
      invariant posted[..] == Turns(m, j, posted.Length) && Conserved(free[..], posted[..], had)
      invariant m > 0 <==> posted[j] > 0
      decreases m
    {
      LastTurn(m, j, posted.Length);
      posted[j] := posted[j] - 1;
      free[j] := free[j] + 1;
      j := (j + 1) % posted.Length;
      m := m - 1;
      LastTurn(m, j, posted.Length);
    }
  }

  // The outer loop.  When descriptors run short it waits for its own sends to complete.
  method SendAll<T>(ghost all: seq<seq<seq<T>>>, buf: seq<T>, left: array<int>, free: array<nat>, size: nat,
                    ghost u0: seq<int>)
    returns (chans: seq<seq<seq<T>>>)
    requires 0 < left.Length == free.Length == |u0| && forall i :: 0 <= i < free.Length ==> free[i] > 0
    requires Sending(all, seq(|u0|, _ => []), buf[0..], u0, 0, size) && left[..] == Clipped(u0)
    modifies left, free
    ensures chans == all && free[..] == old(free[..])
  {
    var posted := new nat[left.Length](_ => 0);
    ghost var u, had := u0, free[..];
    chans := seq(left.Length, _ => []);
    var ptr: nat, i: nat, j: nat := 0, 0, 0;
    assert posted[..] == Turns(0, 0, |u0|);
    while left[i] > 0
      invariant i == j && |u| == |u0| && ptr <= |buf| && Sending(all, chans, buf[ptr..], u, i, size)
      invariant left[..] == Clipped(u) && posted[..] == Turns(0, i, |u0|) && free[..] == had
      decreases |buf| - ptr
    {
      ghost var m;
      assert left[..][i] == Pos(u[i]) && free[..][i] == had[i];
      chans, ptr, i, u, m := SendBurst(all, chans, buf, left, posted, free, ptr, i, size, u);
      j := WaitForSends(posted, free, j, m, had);
    }
    assert left[..][i] == Pos(u[i]);
    EndSending(all, chans, buf[ptr..], u, i, size);
  }

  // via_send.  `free` are the descriptors of each interface; the call gives back what it
  // takes.
  method ViaSend<T>(buf: seq<T>, nics: nat, size: nat, free: array<nat>) returns (chans: seq<seq<seq<T>>>)
    requires nics > 0 && size > 0 && free.Length == nics && forall i :: 0 <= i < nics ==> free[i] > 0
    modifies free
    ensures chans == Deal(Sent(buf, nics, size), 0, nics) && free[..] == old(free[..])
  {
    var left := SplitShares(|buf|, nics);
    StartSending(buf, nics, size);
    assert left[..] == Clipped(left[..]);
    chans := SendAll(Deal(Sent(buf, nics, size), 0, nics), buf, left, free, size, left[..]);
  }

  // The first loop of via_recv.
  method PostDescriptors(left: array<int>, posted: array<nat>, avail: array<nat>, size: nat)
    requires size > 0 && 0 < left.Length == posted.Length == avail.Length && posted != avail
    modifies left, posted, avail
    ensures (left[..], posted[..]) == Posted(old(left[..]), old(posted[..]), old(avail[..]), 0, size)
  {
    var i: nat := 0;
    while left[i] > 0
      invariant i < left.Length
      invariant Posted(left[..], posted[..], avail[..], i, size)
        == Posted(old(left[..]), old(posted[..]), old(avail[..]), 0, size)
      decreases Total(left[..])
    {
      if avail[i] == 0 { break; }
      ghost var u, d, v := left[..], posted[..], avail[..];
      TotalUpdate(u, i, u[i] - size);
      left[i] := left[i] - size;
      posted[i] := posted[i] + 1;
      avail[i] := avail[i] - 1;
      assert left[..] == u[i := u[i] - size] && posted[..] == d[i := d[i] + 1] && avail[..] == v[i := v[i] - 1];
      i := (i + 1) % left.Length;
    }
  }

  // What has been copied, followed by what the rest of the run brings.
  function Glue<T>(out: seq<T>, more: Option<seq<seq<T>>>): Option<seq<T>>
  {
    if more.None? then None else Some(out + Concat(more.value))
  }

  lemma GlueStep<T>(out: seq<T>, packet: seq<T>, more: Option<seq<seq<T>>>)
    ensures Glue(out + packet, more) == Glue(out, if more.None? then None else Some([packet] + more.value))
  {
    if more.Some? {
      assert ([packet] + more.value)[1..] == more.value;
      assert (out + packet) + Concat(more.value) == out + (packet + Concat(more.value));
    }
  }

  // What the loop of via_recv brings after the next packet.
  function Rest<T>(u: seq<int>, desc: seq<nat>, chans: seq<seq<T>>, i: nat, size: nat): Option<seq<T>>
    requires |u| == |desc| && |u| == |chans| && i < |u| && desc[i] > 0 && chans[i] != []
  {
    var rest := chans[i := chans[i][1..]];
    var next := Succ(i, |u|);
    if u[i] > 0 then Received(u[i := u[i] - size], desc, rest, Succ(next, |u|), size)
    else Received(u, desc[i := desc[i] - 1], rest, next, size)
  }

  // One round of the second loop of via_recv.
  method TakeNext<T>(left: array<int>, posted: array<nat>, chans0: seq<seq<T>>, i0: nat, size: nat)
    returns (packet: T, chans: seq<seq<T>>, i: nat)
    requires i0 < left.Length == posted.Length == |chans0| && posted[i0] > 0 && chans0[i0] != []
    modifies left, posted
    ensures packet == chans0[i0][0] && |chans| == |chans0| && i < |chans| && Packets(chans) + 1 == Packets(chans0)
    ensures Received(left[..], posted[..], chans, i, size) == Rest(old(left[..]), old(posted[..]), chans0, i0, size)
  {
    ghost var u, d := left[..], posted[..];
    OnePacketLess(chans0, i0);
    i := i0;
    packet := chans0[i][0];
    chans := chans0[i := chans0[i][1..]];
    if left[i] > 0 {
      left[i] := left[i] - size;
      assert left[..] == u[i := u[i] - size];
      i := (i + 1) % left.Length;
    } else {
      posted[i] := posted[i] - 1;
      assert posted[..] == d[i := d[i] - 1];
    }
    i := (i + 1) % left.Length;
  }

  // via_recv, given all that the interfaces will bring; not ok means that it waits for ever.
  method ViaRecv<T>(chans0: seq<seq<seq<T>>>, len: nat, nics: nat, size: nat, avail: array<nat>)
    returns (ok: bool, out: seq<T>)
    requires nics > 0 && size > 0 && |chans0| == nics && avail.Length == nics
    modifies avail
    ensures (if ok then Some(out) else None) == Glue([], Receive(len, nics, size, old(avail[..]), chans0))
  {
    ghost var had := avail[..];
    var left := SplitShares(len, nics);
    var posted := new nat[nics](_ => 0);
    assert posted[..] == seq(nics, _ => 0);
    PostDescriptors(left, posted, avail, size);
    var chans, i: nat := chans0, 0;
    out := [];
    while posted[i] > 0
      invariant i < nics && |chans| == nics
      invariant Glue(out, Received(left[..], posted[..], chans, i, size))
        == Glue([], Receive(len, nics, size, had, chans0))
      decreases Packets(chans)
    {
      if chans[i] == [] { return false, out; }
      var packet;
      GlueStep(out, chans[i][0], Rest(left[..], posted[..], chans, i, size));
      packet, chans, i := TakeNext(left, posted, chans, i, size);
      out := out + packet;
    }
    assert out + [] == out;
    ok := true;
  }
}
