/**
 The rendezvous handshake between two nodes (MP_Lite/ib.c): a receiver writes a
 Ready-to-Receive message (RTR) into the one slot it has at the sender, waits for the
 acknowledgement before it writes another, and is sent the data under the transaction id
 named in the RTR.  Both nodes play both parts at once, and share the receives they have
 posted on one queue pair between the two.

 What is under way is a bag: the order the adapter keeps is not needed.
 */
module Rendezvous {
  import opened Common
  import opened TransIds

  datatype Rtr = Rtr(id: int, tag: int, nbytes: int, addr: int)

  // Where an incomplete receive has got to.
  datatype Place = Unsent | OnWay | InSlot | Held | Returning | Landed

  datatype Item = Item(rtr: Rtr, place: Place)

  // Who has the use of the slot.
  datatype Token = Here | Away(id: int) | There(id: int) | Back

  // The receives of one node from the other.  The places in `open`, and `due` and `token`,
  // are not in the source; they are only there to be spoken of.
  datatype Dir = Dir(
    // at the receiver
    ack: bool,                // rndzv_msgs_ack
    pending: Option<int>,     // the receive whose RTR waits for the acknowledgement
    used: seq<bool>, current: nat,
    open: map<int, Item>,     // rndzv_recv_q, incomplete
    done: set<int>,           // rndzv_recv_q, complete but not waited for
    dataIn: multiset<Rtr>,    // data that has arrived and is not handled
    // at the sender
    slot: Rtr,                // rndzv_msgs_in
    rtrIn: nat,               // RTRs that have arrived and are not handled
    held: multiset<Rtr>,      // RTRs copied from the slot whose data has not been sent
    // under way
    rtrs: multiset<Rtr>, acks: nat, data: multiset<Rtr>,
    due: set<int>,            // incomplete, data not arrived
    token: Token)

  datatype Act = Arecv(tag: int, nbytes: int, addr: int) | SendRtr | RtrArrives(rtr: Rtr) | HandleRtr
    | AckArrives | SendData(rtr: Rtr) | DataArrives(rtr: Rtr) | HandleData(rtr: Rtr) | Waited(id: int)

  ghost predicate Possible(d: Dir, act: Act)
  {
    match act
    case Arecv(_, _, _) =>
      // the receiver's main thread; and a completed receive is waited for before its id
      // comes round again
      d.pending == None && NewId(d) !in d.done
    case SendRtr => d.pending.Some? && d.ack
    case RtrArrives(r) => r in d.rtrs
    case HandleRtr => d.rtrIn > 0
    case AckArrives => d.acks > 0
    case SendData(r) => r in d.held
    case DataArrives(r) => r in d.data
    case HandleData(r) => r in d.dataIn
    case Waited(id) => id in d.done
  }

  function NewId(d: Dir): int
  {
    if |d.used| == SPACE && d.current < SPACE then MIN_ID + NextFree(d.used, d.current, 1) else MAX_ID + 1
  }

  function Move(open: map<int, Item>, id: int, place: Place): map<int, Item>
  {
    if id in open then open[id := open[id].(place := place)] else open
  }

  // The step, and the receives the receiver (`mine`) and the sender (`theirs`) then have
  // posted.  None is an error: an exit, or a write that finds no posted receive.
  function Do(d: Dir, mine: int, theirs: int, act: Act): Option<(Dir, int, int)>
  {
    match act
    case Arecv(tag, nbytes, addr) =>
      var id := NewId(d);
      if id > MAX_ID then None else
        var item := Item(Rtr(id, tag, nbytes, addr), Unsent);
        Some((d.(used := d.used[id - MIN_ID := true], current := id - MIN_ID, pending := Some(id),
                 open := d.open[id := item], due := d.due + {id}), mine + 1, theirs))
    case SendRtr =>
      if d.pending == None || d.pending.value !in d.open then None else
        var id := d.pending.value;
        Some((d.(ack := false, pending := None, open := Move(d.open, id, OnWay), token := Away(id),
                 rtrs := d.rtrs + multiset{d.open[id].rtr}), mine, theirs))
    case RtrArrives(r) =>
      if theirs <= 0 then None else
        Some((d.(rtrs := d.rtrs - multiset{r}, slot := r, rtrIn := d.rtrIn + 1,
                 open := Move(d.open, r.id, InSlot), token := There(r.id)), mine, theirs - 1))
    case HandleRtr =>
      if d.rtrIn == 0 then None else
        Some((d.(rtrIn := d.rtrIn - 1, held := d.held + multiset{d.slot}, acks := d.acks + 1,
                 open := Move(d.open, d.slot.id, Held), token := Back), mine, theirs + 1))
    case AckArrives =>
      if d.acks == 0 then None else
        Some((d.(ack := true, acks := d.acks - 1, token := Here), mine, theirs))
    case SendData(r) =>
      Some((d.(held := d.held - multiset{r}, data := d.data + multiset{r}, open := Move(d.open, r.id, Returning)),
            mine, theirs))
    case DataArrives(r) =>
      if mine <= 0 then None else
        Some((d.(data := d.data - multiset{r}, dataIn := d.dataIn + multiset{r}, open := Move(d.open, r.id, Landed),
                 due := d.due - {r.id}), mine - 1, theirs))
    case HandleData(r) =>
      // (the test whether the number is an id holds of every number, so that the branch for
      // others is never taken)
      if r.id !in d.open || !(MIN_ID <= r.id <= MAX_ID) || |d.used| != SPACE then None else
        Some((d.(dataIn := d.dataIn - multiset{r}, used := d.used[r.id - MIN_ID := false], open := d.open - {r.id},
                 done := d.done + {r.id}), mine, theirs))
    case Waited(id) =>
      Some((d.(done := d.done - {id}), mine, theirs))
  }

  // ------------------------------------------------------------------ invariant

  ghost predicate IdsOk(d: Dir)
  {
    && |d.used| == SPACE && d.current < SPACE && d.open.Keys !! d.done
    && (forall id :: id in d.open.Keys <==> MIN_ID <= id <= MAX_ID && d.used[id - MIN_ID])
  }

  ghost predicate Is(open: map<int, Item>, id: int, p: Place) { id in open && open[id].place == p }

  function Count(b: bool): nat { if b then 1 else 0 }

  // `m` holds exactly the RTRs of the receives in place p, each once.
  ghost predicate Tracks(m: multiset<Rtr>, open: map<int, Item>, p: Place)
  {
    forall r :: m[r] == Count(r.id in open && open[r.id] == Item(r, p))
  }

  ghost predicate PlacesOk(d: Dir)
  {
    && (forall id :: id in d.open ==> d.open[id].rtr.id == id)
    && Tracks(d.held, d.open, Held) && Tracks(d.data, d.open, Returning) && Tracks(d.dataIn, d.open, Landed)
    && (forall id :: id in d.due <==> id in d.open && d.open[id].place != Landed)
  }

  // The slot is used by one RTR at a time, from when it is sent to when the acknowledgement
  // has come back.
  ghost predicate TokenOk(d: Dir)
  {
    && (forall id :: d.pending == Some(id) <==> Is(d.open, id, Unsent))
    && (forall id :: d.token == Away(id) <==> Is(d.open, id, OnWay))
    && (forall id :: d.token == There(id) <==> Is(d.open, id, InSlot))
    && SlotOk(d)
  }

  ghost predicate SlotOk(d: Dir)
  {
    && (d.token.Away? ==> d.token.id in d.open && d.rtrs == multiset{d.open[d.token.id].rtr})
    && (!d.token.Away? ==> d.rtrs == multiset{})
    && (d.token.There? ==> d.token.id in d.open && d.slot == d.open[d.token.id].rtr)
    && d.rtrIn == Count(d.token.There?) && d.acks == Count(d.token == Back) && (d.ack <==> d.token == Here)
  }

  ghost predicate DirInv(d: Dir)
  {
    IdsOk(d) && PlacesOk(d) && TokenOk(d)
  }

  // ------------------------------------------------------------------ what it gives

  // The slot is free when an RTR is written into it.
  lemma SlotFree(d: Dir, r: Rtr)
    requires DirInv(d) && r in d.rtrs
    ensures d.rtrIn == 0 && d.token == Away(r.id) && r.id in d.open && d.open[r.id] == Item(r, OnWay)
  {
    assert d.token.Away?;
    assert Is(d.open, d.token.id, OnWay);
  }

  // What is copied out of the slot is the RTR as it was sent.
  lemma SlotIntact(d: Dir)
    requires DirInv(d) && d.rtrIn > 0
    ensures d.slot.id in d.open && d.open[d.slot.id] == Item(d.slot, InSlot) && d.token == There(d.slot.id)
  {
    assert d.token.There?;
    assert Is(d.open, d.token.id, InSlot);
  }

  // Data arrives once for each RTR, at a receive that still waits for it.
  lemma DataExpected(d: Dir, r: Rtr)
    requires PlacesOk(d) && r in d.data
    ensures r.id in d.open && d.open[r.id] == Item(r, Returning) && r.id in d.due && d.data[r] == 1 && r !in d.dataIn
  {
    assert d.data[r] > 0;
    assert d.dataIn[r] == 0;
  }

  lemma DataFindsReceive(d: Dir, r: Rtr)
    requires IdsOk(d) && PlacesOk(d) && r in d.dataIn
    ensures r.id in d.open && d.open[r.id] == Item(r, Landed) && MIN_ID <= r.id <= MAX_ID
  {
    assert d.dataIn[r] > 0;
    assert r.id in d.open.Keys;
  }

  // There is an id unless all the others are taken by incomplete receives.
  lemma IdUnlessFull(d: Dir)
    requires IdsOk(d)
    ensures NewId(d) <= MAX_ID ==> MIN_ID <= NewId(d) && NewId(d) !in d.open
    ensures NewId(d) > MAX_ID <==> forall id :: MIN_ID <= id <= MAX_ID && id != MIN_ID + d.current ==> id in d.open
  {
    FailsOnlyWhenFull(d.used, d.current);
    if NewId(d) > MAX_ID {
      forall id | MIN_ID <= id <= MAX_ID && id != MIN_ID + d.current ensures id in d.open {
        assert d.used[id - MIN_ID];
        assert id in d.open.Keys;
      }
    } else {
      assert NewId(d) !in d.open.Keys;
    }
  }

  // ------------------------------------------------------------------ it is kept

  function Shifted(m: multiset<Rtr>, r: Rtr, out: bool, in_: bool): multiset<Rtr>
  {
    if out then m - multiset{r} else if in_ then m + multiset{r} else m
  }

  lemma TracksMoved(m: multiset<Rtr>, open: map<int, Item>, p: Place, r: Rtr, to: Place)
    requires Tracks(m, open, p) && r.id in open && open[r.id].rtr == r && open[r.id].place != to
    ensures Tracks(Shifted(m, r, open[r.id].place == p, to == p), Move(open, r.id, to), p)
  {
    var from := open[r.id].place;
    var n, o := Shifted(m, r, from == p, to == p), Move(open, r.id, to);
    forall q: Rtr ensures n[q] == Count(q.id in o && o[q.id] == Item(q, p)) {
      assert m[q] == Count(q.id in open && open[q.id] == Item(q, p));
    }
  }

  // A receive moves on from one place to the next.
  lemma PlacesMoved(d: Dir, e: Dir, r: Rtr, to: Place)
    requires PlacesOk(d) && r.id in d.open && d.open[r.id].rtr == r
    requires var from := d.open[r.id].place;
      && from != to && from != Landed && e.open == Move(d.open, r.id, to)
      && e.held == Shifted(d.held, r, from == Held, to == Held)
      && e.data == Shifted(d.data, r, from == Returning, to == Returning)
      && e.dataIn == Shifted(d.dataIn, r, false, to == Landed)
      && e.due == (if to == Landed then d.due - {r.id} else d.due)
    ensures PlacesOk(e)
  {
    TracksMoved(d.held, d.open, Held, r, to);
    TracksMoved(d.data, d.open, Returning, r, to);
    TracksMoved(d.dataIn, d.open, Landed, r, to);
  }

  lemma IdsMoved(d: Dir, e: Dir, id: int, to: Place)
    requires IdsOk(d) && e.open == Move(d.open, id, to)
    requires e.used == d.used && e.current == d.current && e.done == d.done
    ensures IdsOk(e)
  {
    assert e.open.Keys == d.open.Keys;
  }

  // ... and what the slot is concerned with is where it should be.
  lemma TokenMoved(d: Dir, e: Dir, id: int, to: Place)
    requires TokenOk(d) && id in d.open && e.open == Move(d.open, id, to) && SlotOk(e)
    requires to != Unsent
    requires e.pending == if d.open[id].place == Unsent then None else d.pending
    requires if to == OnWay then e.token == Away(id) && !d.token.Away? && !d.token.There?
      else if to == InSlot then e.token == There(id) && d.token == Away(id)
      else if d.open[id].place == InSlot then e.token == Back
      else e.token == d.token && (d.open[id].place in {Unsent, Held, Returning})
    ensures TokenOk(e)
  {
    assert d.pending == Some(id) <==> Is(d.open, id, Unsent);
    forall i ensures e.pending == Some(i) <==> Is(e.open, i, Unsent) {
      assert d.pending == Some(i) <==> Is(d.open, i, Unsent);
    }
    assert d.token == Away(id) <==> Is(d.open, id, OnWay);
    forall i ensures e.token == Away(i) <==> Is(e.open, i, OnWay) {
      assert d.token == Away(i) <==> Is(d.open, i, OnWay);
    }
    assert d.token == There(id) <==> Is(d.open, id, InSlot);
    forall i ensures e.token == There(i) <==> Is(e.open, i, InSlot) {
      assert d.token == There(i) <==> Is(d.open, i, InSlot);
    }
  }

  ghost predicate Keeps(d: Dir, act: Act)
  {
    var r := Do(d, 1, 1, act);
    r.Some? && DirInv(r.value.0)
  }

  lemma ArecvIds(d: Dir, act: Act)
    requires IdsOk(d) && act.Arecv? && Possible(d, act) && NewId(d) <= MAX_ID
    ensures IdsOk(Do(d, 1, 1, act).value.0)
  {
    IdUnlessFull(d);
    var e := Do(d, 1, 1, act).value.0;
    forall id ensures id in e.open.Keys <==> MIN_ID <= id <= MAX_ID && e.used[id - MIN_ID] {
      assert id in d.open.Keys <==> MIN_ID <= id <= MAX_ID && d.used[id - MIN_ID];
    }
  }

  lemma TracksNew(m: multiset<Rtr>, open: map<int, Item>, p: Place, item: Item)
    requires Tracks(m, open, p) && item.rtr.id !in open && item.place != p
    ensures Tracks(m, open[item.rtr.id := item], p)
  {
    var o := open[item.rtr.id := item];
    forall q: Rtr ensures m[q] == Count(q.id in o && o[q.id] == Item(q, p)) {
      assert m[q] == Count(q.id in open && open[q.id] == Item(q, p));
    }
  }

  lemma ArecvPlaces(d: Dir, act: Act)
    requires IdsOk(d) && PlacesOk(d) && act.Arecv? && Possible(d, act) && NewId(d) <= MAX_ID
    ensures PlacesOk(Do(d, 1, 1, act).value.0)
  {
    IdUnlessFull(d);
    var item := Do(d, 1, 1, act).value.0.open[NewId(d)];
    TracksNew(d.held, d.open, Held, item);
    TracksNew(d.data, d.open, Returning, item);
    TracksNew(d.dataIn, d.open, Landed, item);
  }

  lemma ArecvToken(d: Dir, act: Act)
    requires TokenOk(d) && act.Arecv? && Possible(d, act) && MIN_ID <= NewId(d) <= MAX_ID && NewId(d) !in d.open
    requires |d.used| == SPACE
    ensures TokenOk(Do(d, 1, 1, act).value.0)
  {
    var e := Do(d, 1, 1, act).value.0;
    assert d.token != Away(NewId(d)) && d.token != There(NewId(d)) by {
      assert !Is(d.open, NewId(d), OnWay) && !Is(d.open, NewId(d), InSlot);
    }
    forall i ensures e.pending == Some(i) <==> Is(e.open, i, Unsent) {
      assert d.pending == Some(i) <==> Is(d.open, i, Unsent);
    }
    forall i ensures e.token == Away(i) <==> Is(e.open, i, OnWay) {
      assert d.token == Away(i) <==> Is(d.open, i, OnWay);
    }
    forall i ensures e.token == There(i) <==> Is(e.open, i, InSlot) {
      assert d.token == There(i) <==> Is(d.open, i, InSlot);
    }
  }

  lemma ArecvKept(d: Dir, act: Act)
    requires DirInv(d) && act.Arecv? && Possible(d, act) && NewId(d) <= MAX_ID
    ensures Keeps(d, act)
  {
    IdUnlessFull(d);
    ArecvIds(d, act);
    ArecvPlaces(d, act);
    ArecvToken(d, act);
  }

  lemma SendRtrKept(d: Dir)
    requires DirInv(d) && Possible(d, SendRtr)
    ensures Keeps(d, SendRtr)
  {
    var id := d.pending.value;
    assert Is(d.open, id, Unsent);
    var e := Do(d, 1, 1, SendRtr).value.0;
    IdsMoved(d, e, id, OnWay);
    PlacesMoved(d, e, d.open[id].rtr, OnWay);
    TokenMoved(d, e, id, OnWay);
  }

  lemma RtrArrivesKept(d: Dir, r: Rtr)
    requires DirInv(d) && r in d.rtrs
    ensures Keeps(d, RtrArrives(r))
  {
    SlotFree(d, r);
    var e := Do(d, 1, 1, RtrArrives(r)).value.0;
    IdsMoved(d, e, r.id, InSlot);
    PlacesMoved(d, e, r, InSlot);
    TokenMoved(d, e, r.id, InSlot);
  }

  lemma HandleRtrKept(d: Dir)
    requires DirInv(d) && d.rtrIn > 0
    ensures Keeps(d, HandleRtr)
  {
    SlotIntact(d);
    var e := Do(d, 1, 1, HandleRtr).value.0;
    IdsMoved(d, e, d.slot.id, Held);
    PlacesMoved(d, e, d.slot, Held);
    TokenMoved(d, e, d.slot.id, Held);
  }

  lemma AckArrivesKept(d: Dir)
    requires DirInv(d) && d.acks > 0
    ensures Keeps(d, AckArrives)
  {
  }

  lemma HeldIs(d: Dir, r: Rtr)
    requires PlacesOk(d) && r in d.held
    ensures r.id in d.open && d.open[r.id] == Item(r, Held)
  {
    assert d.held[r] > 0;
  }

  lemma SendDataKept(d: Dir, r: Rtr)
    requires DirInv(d) && r in d.held
    ensures Keeps(d, SendData(r))
  {
    HeldIs(d, r);
    var e := Do(d, 1, 1, SendData(r)).value.0;
    IdsMoved(d, e, r.id, Returning);
    PlacesMoved(d, e, r, Returning);
    TokenMoved(d, e, r.id, Returning);
  }

  lemma DataArrivesKept(d: Dir, r: Rtr)
    requires DirInv(d) && r in d.data
    ensures Keeps(d, DataArrives(r))
  {
    DataExpected(d, r);
    var e := Do(d, 1, 1, DataArrives(r)).value.0;
    IdsMoved(d, e, r.id, Landed);
    PlacesMoved(d, e, r, Landed);
    TokenMoved(d, e, r.id, Landed);
  }

  lemma TracksGone(m: multiset<Rtr>, open: map<int, Item>, p: Place, r: Rtr)
    requires Tracks(m, open, p) && r.id in open && open[r.id].rtr == r
    ensures Tracks(Shifted(m, r, open[r.id].place == p, false), open - {r.id}, p)
  {
    var n, o := Shifted(m, r, open[r.id].place == p, false), open - {r.id};
    forall q: Rtr ensures n[q] == Count(q.id in o && o[q.id] == Item(q, p)) {
      assert m[q] == Count(q.id in open && open[q.id] == Item(q, p));
    }
  }

  lemma HandleDataIds(d: Dir, r: Rtr)
    requires IdsOk(d) && r.id in d.open && MIN_ID <= r.id <= MAX_ID
    ensures IdsOk(Do(d, 1, 1, HandleData(r)).value.0)
  {
    var e := Do(d, 1, 1, HandleData(r)).value.0;
    forall id ensures id in e.open.Keys <==> MIN_ID <= id <= MAX_ID && e.used[id - MIN_ID] {
      assert id in d.open.Keys <==> MIN_ID <= id <= MAX_ID && d.used[id - MIN_ID];
    }
  }

  lemma HandleDataPlaces(d: Dir, e: Dir, r: Rtr)
    requires PlacesOk(d) && r.id in d.open && d.open[r.id] == Item(r, Landed)
    requires e.open == d.open - {r.id} && e.held == d.held && e.data == d.data && e.dataIn == d.dataIn - multiset{r}
    requires e.due == d.due
    ensures PlacesOk(e)
  {
    TracksGone(d.held, d.open, Held, r);
    TracksGone(d.data, d.open, Returning, r);
    TracksGone(d.dataIn, d.open, Landed, r);
  }

  lemma HandleDataToken(d: Dir, e: Dir, r: Rtr)
    requires TokenOk(d) && r.id in d.open && d.open[r.id] == Item(r, Landed)
    requires e.open == d.open - {r.id} && e.pending == d.pending && e.token == d.token && e.slot == d.slot
    requires e.rtrs == d.rtrs && e.rtrIn == d.rtrIn && e.acks == d.acks && e.ack == d.ack
    ensures TokenOk(e)
  {
    forall i ensures e.pending == Some(i) <==> Is(e.open, i, Unsent) {
      assert d.pending == Some(i) <==> Is(d.open, i, Unsent);
    }
    forall i ensures e.token == Away(i) <==> Is(e.open, i, OnWay) {
      assert d.token == Away(i) <==> Is(d.open, i, OnWay);
    }
    forall i ensures e.token == There(i) <==> Is(e.open, i, InSlot) {
      assert d.token == There(i) <==> Is(d.open, i, InSlot);
    }
  }

  lemma HandleDataKept(d: Dir, r: Rtr)
    requires DirInv(d) && r in d.dataIn
    ensures Keeps(d, HandleData(r))
  {
    DataFindsReceive(d, r);
    var e := Do(d, 1, 1, HandleData(r)).value.0;
    HandleDataIds(d, r);
    HandleDataPlaces(d, e, r);
    HandleDataToken(d, e, r);
  }

  // ------------------------------------------------------------------ both nodes

  // Node 0's receives from node 1, node 1's from node 0, and the receives each has posted.
  datatype Pair = Pair(d0: Dir, d1: Dir, p0: int, p1: int)

  // One receive is posted for an RTR, and one for each datum still to come.
  ghost predicate PostedOk(mine: Dir, theirs: Dir, posted: int)
  {
    posted + theirs.rtrIn == 1 + |mine.due|
  }

  ghost predicate Inv(s: Pair)
  {
    DirInv(s.d0) && DirInv(s.d1) && PostedOk(s.d0, s.d1, s.p0) && PostedOk(s.d1, s.d0, s.p1)
  }

  // A posted receive is there for everything that arrives.
  lemma ReceivePosted(mine: Dir, theirs: Dir, posted: int, r: Rtr)
    requires DirInv(mine) && DirInv(theirs) && PostedOk(mine, theirs, posted)
    requires r in mine.data || r in theirs.rtrs
    ensures posted > 0
  {
    if r in theirs.rtrs {
      SlotFree(theirs, r);
    } else {
      DataExpected(mine, r);
      assert mine.due != {};
    }
  }

  lemma ActKept(d: Dir, act: Act)
    requires DirInv(d) && Possible(d, act) && (act.Arecv? ==> NewId(d) <= MAX_ID)
    ensures Keeps(d, act)
  {
    match act
    case Arecv(_, _, _) => ArecvKept(d, act);
    case SendRtr => SendRtrKept(d);
    case RtrArrives(r) => RtrArrivesKept(d, r);
    case HandleRtr => HandleRtrKept(d);
    case AckArrives => AckArrivesKept(d);
    case SendData(r) => SendDataKept(d, r);
    case DataArrives(r) => DataArrivesKept(d, r);
    case HandleData(r) => HandleDataKept(d, r);
    case Waited(id) =>
  }

  function Mine(act: Act): int { if act.Arecv? then 1 else if act.DataArrives? then -1 else 0 }

  function Theirs(act: Act): int { if act.HandleRtr? then 1 else if act.RtrArrives? then -1 else 0 }

  lemma DueChanges(d: Dir, act: Act)
    requires IdsOk(d) && PlacesOk(d) && Possible(d, act) && Do(d, 1, 1, act).Some?
    ensures |Do(d, 1, 1, act).value.0.due| == |d.due| + Mine(act)
  {
    match act
    case Arecv(_, _, _) =>
      IdUnlessFull(d);
      assert NewId(d) !in d.due;
    case DataArrives(r) =>
      DataExpected(d, r);
      assert |d.due - {r.id}| == |d.due| - 1;
    case _ =>
  }

  lemma RtrInChanges(d: Dir, act: Act)
    requires Possible(d, act) && Do(d, 1, 1, act).Some?
    ensures Do(d, 1, 1, act).value.0.rtrIn == d.rtrIn - Theirs(act)
  {
  }

  lemma PostedChanges(d: Dir, mine: int, theirs: int, act: Act)
    requires Do(d, 1, 1, act).Some?
    requires (act.RtrArrives? ==> theirs > 0) && (act.DataArrives? ==> mine > 0)
    ensures Do(d, mine, theirs, act) == Some((Do(d, 1, 1, act).value.0, mine + Mine(act), theirs + Theirs(act)))
  {
  }

  // What a step does to the posted receives matches what it does to the receives due.
  lemma PostedKept(d: Dir, other: Dir, mine: int, theirs: int, act: Act)
    requires DirInv(d) && DirInv(other) && PostedOk(d, other, mine) && PostedOk(other, d, theirs)
    requires Possible(d, act) && Keeps(d, act)
    ensures var r := Do(d, mine, theirs, act);
      && r.Some? && r.value.0 == Do(d, 1, 1, act).value.0
      && PostedOk(r.value.0, other, r.value.1) && PostedOk(other, r.value.0, r.value.2)
  {
    if act.RtrArrives? { ReceivePosted(other, d, theirs, act.rtr); }
    if act.DataArrives? { ReceivePosted(d, other, mine, act.rtr); }
    DueChanges(d, act);
    RtrInChanges(d, act);
    PostedChanges(d, mine, theirs, act);
  }

  ghost function Step(s: Pair, node: nat, act: Act): Option<Pair>
  {
    if node == 0 then
      match Do(s.d0, s.p0, s.p1, act)
      case None => None
      case Some(r) => Some(s.(d0 := r.0, p0 := r.1, p1 := r.2))
    else
      match Do(s.d1, s.p1, s.p0, act)
      case None => None
      case Some(r) => Some(s.(d1 := r.0, p1 := r.1, p0 := r.2))
  }

  ghost function Receiver(s: Pair, node: nat): Dir { if node == 0 then s.d0 else s.d1 }

  // What a step of one node comes to, for both.
  lemma NodeStep(d: Dir, other: Dir, mine: int, theirs: int, act: Act)
    requires DirInv(d) && DirInv(other) && PostedOk(d, other, mine) && PostedOk(other, d, theirs)
    requires Possible(d, act)
    ensures var r := Do(d, mine, theirs, act);
      && (r == None <==> act.Arecv? && NewId(d) > MAX_ID)
      && (r.Some? ==>
            DirInv(r.value.0) && PostedOk(r.value.0, other, r.value.1) && PostedOk(other, r.value.0, r.value.2))
  {
    if !(act.Arecv? && NewId(d) > MAX_ID) {
      ActKept(d, act);
      PostedKept(d, other, mine, theirs, act);
    }
  }

  // Everything that can happen is without error and keeps the invariant; only a receive
  // finds no id, and that when all the other ids belong to incomplete receives.
  lemma StepInv(s: Pair, node: nat, act: Act)
    requires Inv(s) && Possible(Receiver(s, node), act)
    ensures Step(s, node, act) == None <==> act.Arecv? && var d := Receiver(s, node);
      forall id :: MIN_ID <= id <= MAX_ID && id != MIN_ID + d.current ==> id in d.open
    ensures Step(s, node, act).Some? ==> Inv(Step(s, node, act).value)
  {
    var d := Receiver(s, node);
    IdUnlessFull(d);
    if node == 0 {
      NodeStep(s.d0, s.d1, s.p0, s.p1, act);
    } else {
      NodeStep(s.d1, s.d0, s.p1, s.p0, act);
    }
  }

  const NO_RTR := Rtr(0, 0, 0, 0)

  ghost function StartDir(): Dir
  {
    Dir(true, None, seq(SPACE, _ => false), 0, map[], {}, multiset{}, NO_RTR, 0, multiset{}, multiset{}, 0,
        multiset{}, {}, Here)
  }

  ghost function Start(): Pair { Pair(StartDir(), StartDir(), 1, 1) }

  ghost predicate Leads(acts: seq<(nat, Act)>, s: Pair)
  {
    if acts == [] then
      s == Start()
    else
      var last := |acts| - 1;
      exists r :: Leads(acts[..last], r) && Leap(r, acts[last].0, acts[last].1, s)
  }

  ghost predicate Leap(r: Pair, node: nat, act: Act, s: Pair)
  {
    Possible(Receiver(r, node), act) && Step(r, node, act) == Some(s)
  }

  lemma {:induction false} EveryRunIntact(acts: seq<(nat, Act)>, s: Pair)
    requires Leads(acts, s)
    ensures Inv(s)
    decreases |acts|
  {
    if acts == [] {
    } else {
      var last := |acts| - 1;
      var r :| Leads(acts[..last], r) && Leap(r, acts[last].0, acts[last].1, s);
      EveryRunIntact(acts[..last], r);
      StepInv(r, acts[last].0, acts[last].1);
    }
  }

  // ------------------------------------------------------------------ progress

  ghost function After(d: Dir, act: Act): Dir
    requires Do(d, 1, 1, act).Some?
  {
    Do(d, 1, 1, act).value.0
  }

  // The steps from a place to the end.
  function Ahead(place: Place): nat
  {
    match place
    case Landed => 1
    case Returning => 2
    case Held => 3
    case InSlot => 4
    case OnWay => 5
    case Unsent => 6
  }

  // Those until the slot is back.
  function Waits(token: Token): nat
  {
    match token
    case Here => 0
    case Back => 1
    case There(_) => 2
    case Away(_) => 3
  }

  // How many steps receive id is from being complete; while its RTR is unsent it also
  // waits for the slot to come back.
  function ToGo(d: Dir, id: int): (k: nat)
    ensures k <= 9
  {
    if id !in d.open then 0 else
      Ahead(d.open[id].place) + if d.open[id].place == Unsent then Waits(d.token) else 0
  }

  ghost predicate SetsBack(d: Dir, act: Act, id: int)
  {
    Do(d, 1, 1, act).Some? && ToGo(After(d, act), id) > ToGo(d, id)
  }

  ghost predicate Furthers(d: Dir, act: Act, id: int)
  {
    && Possible(d, act) && !act.Arecv? && !act.Waited? && Do(d, 1, 1, act).Some?
    && ToGo(After(d, act), id) < ToGo(d, id)
  }

  // Receive j moves on: that is no harm to any other.
  lemma MovedOn(d: Dir, e: Dir, j: int, to: Place, id: int)
    requires j in d.open && e.open == Move(d.open, j, to) && Ahead(to) < Ahead(d.open[j].place) && id in d.open
    requires id != j && d.open[id].place == Unsent ==> Waits(e.token) <= Waits(d.token)
    ensures ToGo(e, id) <= ToGo(d, id)
    ensures id == j || (d.open[id].place == Unsent && Waits(e.token) < Waits(d.token)) ==> ToGo(e, id) < ToGo(d, id)
  {
  }

  lemma SendRtrOn(d: Dir, id: int)
    requires DirInv(d) && Possible(d, SendRtr) && id in d.open
    ensures !SetsBack(d, SendRtr, id) && (d.pending == Some(id) ==> Furthers(d, SendRtr, id))
  {
    var j := d.pending.value;
    assert d.pending == Some(j) <==> Is(d.open, j, Unsent);
    assert d.pending == Some(id) <==> Is(d.open, id, Unsent);
    MovedOn(d, After(d, SendRtr), j, OnWay, id);
  }

  lemma RtrArrivesOn(d: Dir, r: Rtr, id: int)
    requires DirInv(d) && r in d.rtrs && id in d.open
    ensures !SetsBack(d, RtrArrives(r), id)
    ensures id == r.id || d.open[id].place == Unsent ==> Furthers(d, RtrArrives(r), id)
  {
    SlotFree(d, r);
    MovedOn(d, After(d, RtrArrives(r)), r.id, InSlot, id);
  }

  lemma HandleRtrOn(d: Dir, id: int)
    requires DirInv(d) && d.rtrIn > 0 && id in d.open
    ensures !SetsBack(d, HandleRtr, id)
    ensures id == d.slot.id || d.open[id].place == Unsent ==> Furthers(d, HandleRtr, id)
  {
    SlotIntact(d);
    MovedOn(d, After(d, HandleRtr), d.slot.id, Held, id);
  }

  lemma AckArrivesOn(d: Dir, id: int)
    requires DirInv(d) && d.acks > 0 && id in d.open
    ensures !SetsBack(d, AckArrives, id) && (d.open[id].place == Unsent ==> Furthers(d, AckArrives, id))
  {
  }

  lemma SendDataOn(d: Dir, r: Rtr, id: int)
    requires PlacesOk(d) && r in d.held && id in d.open
    ensures !SetsBack(d, SendData(r), id) && (id == r.id ==> Furthers(d, SendData(r), id))
  {
    HeldIs(d, r);
    MovedOn(d, After(d, SendData(r)), r.id, Returning, id);
  }

  lemma DataArrivesOn(d: Dir, r: Rtr, id: int)
    requires PlacesOk(d) && r in d.data && id in d.open
    ensures !SetsBack(d, DataArrives(r), id) && (id == r.id ==> Furthers(d, DataArrives(r), id))
  {
    DataExpected(d, r);
    MovedOn(d, After(d, DataArrives(r)), r.id, Landed, id);
  }

  lemma HandleDataOn(d: Dir, r: Rtr, id: int)
    requires IdsOk(d) && PlacesOk(d) && r in d.dataIn && id in d.open
    ensures !SetsBack(d, HandleData(r), id) && (id == r.id ==> Furthers(d, HandleData(r), id))
  {
    DataFindsReceive(d, r);
  }

  // Nothing that happens to the others sets a receive back.
  lemma NeverBack(d: Dir, act: Act, id: int)
    requires DirInv(d) && id in d.open && Possible(d, act)
    ensures !SetsBack(d, act, id)
  {
    match act
    case Arecv(_, _, _) => IdUnlessFull(d);
    case SendRtr => SendRtrOn(d, id);
    case RtrArrives(r) => RtrArrivesOn(d, r, id);
    case HandleRtr => HandleRtrOn(d, id);
    case AckArrives => AckArrivesOn(d, id);
    case SendData(r) => SendDataOn(d, r, id);
    case DataArrives(r) => DataArrivesOn(d, r, id);
    case HandleData(r) => HandleDataOn(d, r, id);
    case Waited(_) =>
  }

  lemma UnsentFurthered(d: Dir, id: int)
    requires DirInv(d) && Is(d.open, id, Unsent)
    ensures exists act :: Furthers(d, act, id)
  {
    assert d.pending == Some(id);
    match d.token
    case Here => SendRtrOn(d, id);
    case Back => AckArrivesOn(d, id);
    case There(_) => HandleRtrOn(d, id);
    case Away(j) => RtrArrivesOn(d, d.open[j].rtr, id);
  }

  // A receive that is not complete is always on its way: as long as there is one, something
  // can happen that takes it further (if it is Held, once the sender has something to send).
  // So at most nine such steps complete it, since nothing ever sets it back.
  lemma NeverStuck(d: Dir, id: int)
    requires DirInv(d) && id in d.open
    ensures exists act :: Furthers(d, act, id)
  {
    var r := d.open[id].rtr;
    match d.open[id].place
    case Unsent =>
      UnsentFurthered(d, id);
    case OnWay =>
      assert Is(d.open, id, OnWay);
      RtrArrivesOn(d, r, id);
    case InSlot =>
      assert Is(d.open, id, InSlot);
      HandleRtrOn(d, id);
    case Held =>
      assert d.held[r] == 1;
      SendDataOn(d, r, id);
    case Returning =>
      assert d.data[r] == 1;
      DataArrivesOn(d, r, id);
    case Landed =>
      assert d.dataIn[r] == 1;
      HandleDataOn(d, r, id);
  }
}
