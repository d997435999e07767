/**
 What a Ready-to-Receive message says (MP_Lite/ib.c): in every run of the two nodes it is
 traced back to the call of ib_rndzv_arecv that it stands for, and every call is followed
 from the id it is given to its end.
 */
module RendezvousCalls {
  import opened Common
  import T = TransIds
  import opened Rendezvous

  // run[k] is the state before act k.
  ghost predicate Trace(acts: seq<(nat, Act)>, run: seq<Pair>)
  {
    && |run| == |acts| + 1 && run[0] == Start()
    && forall k :: 0 <= k < |acts| ==> Leap(run[k], acts[k].0, acts[k].1, run[k + 1])
  }

  lemma {:induction false} LeadsTrace(acts: seq<(nat, Act)>, s: Pair) returns (run: seq<Pair>)
    requires Leads(acts, s)
    ensures Trace(acts, run) && run[|acts|] == s
    decreases |acts|
  {
    if acts == [] {
      run := [s];
    } else {
      var last := |acts| - 1;
      var r :| Leads(acts[..last], r) && Leap(r, acts[last].0, acts[last].1, s);
      var before := LeadsTrace(acts[..last], r);
      TraceMore(acts, before, s);
      run := before + [s];
    }
  }

  lemma TraceMore(acts: seq<(nat, Act)>, run: seq<Pair>, s: Pair)
    requires acts != [] && Trace(acts[..|acts| - 1], run)
    requires Leap(run[|acts| - 1], acts[|acts| - 1].0, acts[|acts| - 1].1, s)
    ensures Trace(acts, run + [s])
  {
    var last, more := |acts| - 1, run + [s];
    forall k | 0 <= k < |acts| ensures Leap(more[k], acts[k].0, acts[k].1, more[k + 1]) {
      assert more[k] == run[k];
      if k < last { assert acts[..last][k] == acts[k] && more[k + 1] == run[k + 1]; }
    }
  }

  lemma LeapInv(s: Pair, node: nat, act: Act, t: Pair)
    requires Inv(s) && Leap(s, node, act, t)
    ensures Inv(t)
  {
    StepInv(s, node, act);
  }

  lemma TraceInv(acts: seq<(nat, Act)>, run: seq<Pair>, m: nat)
    requires Trace(acts, run) && m <= |acts|
    ensures Inv(run[m])
  {
    for j := 0 to m
      invariant Inv(run[j])
    {
      assert Leap(run[j], acts[j].0, acts[j].1, run[j + 1]);
      LeapInv(run[j], acts[j].0, acts[j].1, run[j + 1]);
    }
  }

  // ------------------------------------------------------------------ calls

  // Act k is of the receives of `node`; node 0 is the one, all other numbers are the other.
  predicate At(acts: seq<(nat, Act)>, node: nat, k: nat)
  {
    k < |acts| && (acts[k].0 == 0 <==> node == 0)
  }

  // Act k is a call at `node` that is given `id`.
  ghost predicate Given(acts: seq<(nat, Act)>, run: seq<Pair>, node: nat, k: nat, id: int)
  {
    && |run| == |acts| + 1 && At(acts, node, k)
    && acts[k].1.Arecv? && NewId(Receiver(run[k], node)) == id
  }

  // ... and none of the acts after it, up to m, is given the same.
  ghost predicate Latest(acts: seq<(nat, Act)>, run: seq<Pair>, node: nat, k: nat, m: nat, id: int)
  {
    k < m && Given(acts, run, node, k, id) && forall j :: k < j < m ==> !Given(acts, run, node, j, id)
  }

  // `act` has happened at `node` after act k and before act m.
  ghost predicate Since(acts: seq<(nat, Act)>, node: nat, k: nat, m: nat, act: Act)
  {
    exists j :: k < j < m && At(acts, node, j) && acts[j].1 == act
  }

  // r asks for what the call asked for.
  predicate AsksFor(r: Rtr, id: int, call: Act)
  {
    r.id == id && call == Arecv(r.tag, r.nbytes, r.addr)
  }

  // The call is incomplete, with its tag, length and address in the RTR; or it is complete
  // since its data has been handled; or it has been waited for as well.
  ghost predicate Followed(d: Dir, acts: seq<(nat, Act)>, node: nat, k: nat, m: nat, id: int)
    requires k < |acts|
  {
    if id in d.open then AsksFor(d.open[id].rtr, id, acts[k].1) && id !in d.done
    else
      && (exists r :: AsksFor(r, id, acts[k].1) && Since(acts, node, k, m, HandleData(r)))
      && (id in d.done || Since(acts, node, k, m, Waited(id)))
  }

  // Every receive there is has been called, and every call is followed.
  ghost predicate Known(acts: seq<(nat, Act)>, run: seq<Pair>, node: nat, m: nat)
    requires Trace(acts, run) && m <= |acts|
  {
    var d := Receiver(run[m], node);
    && (forall id :: id in d.open || id in d.done ==> Called(acts, run, node, m, id))
    && (forall k: nat, id :: Latest(acts, run, node, k, m, id) ==> Followed(d, acts, node, k, m, id))
  }

  ghost predicate Called(acts: seq<(nat, Act)>, run: seq<Pair>, node: nat, m: nat, id: int)
  {
    exists k: nat :: Latest(acts, run, node, k, m, id)
  }

  // ------------------------------------------------------------------ one act more

  lemma SinceMore(acts: seq<(nat, Act)>, node: nat, k: nat, m: nat, act: Act)
    requires Since(acts, node, k, m, act)
    ensures Since(acts, node, k, m + 1, act)
  {
    var j :| k < j < m && At(acts, node, j) && acts[j].1 == act;
    assert k < j < m + 1;
  }

  lemma SinceNow(acts: seq<(nat, Act)>, node: nat, k: nat, m: nat)
    requires k < m && At(acts, node, m)
    ensures Since(acts, node, k, m + 1, acts[m].1)
  {
  }

  // A call that is not touched stays as it is.
  lemma FollowedMore(d: Dir, e: Dir, acts: seq<(nat, Act)>, node: nat, k: nat, m: nat, id: int)
    requires k < |acts| && Followed(d, acts, node, k, m, id)
    requires id in e.open <==> id in d.open
    requires id in d.open ==> e.open[id].rtr == d.open[id].rtr
    requires id in e.done <==> id in d.done
    ensures Followed(e, acts, node, k, m + 1, id)
  {
    if id !in d.open {
      var r :| AsksFor(r, id, acts[k].1) && Since(acts, node, k, m, HandleData(r));
      SinceMore(acts, node, k, m, HandleData(r));
      if id !in d.done { SinceMore(acts, node, k, m, Waited(id)); }
    }
  }

  lemma LatestMore(acts: seq<(nat, Act)>, run: seq<Pair>, node: nat, k: nat, m: nat, id: int)
    requires Latest(acts, run, node, k, m, id) && !Given(acts, run, node, m, id)
    ensures Latest(acts, run, node, k, m + 1, id)
  {
  }

  lemma LatestBefore(acts: seq<(nat, Act)>, run: seq<Pair>, node: nat, k: nat, m: nat, id: int)
    requires Latest(acts, run, node, k, m + 1, id) && k != m
    ensures Latest(acts, run, node, k, m, id) && !Given(acts, run, node, m, id)
  {
  }

  // What an act at a node does to one of its receives.
  ghost predicate Opened(d: Dir, e: Dir, act: Act, id: int)
  {
    act.Arecv? && id == NewId(d) && id in e.open && AsksFor(e.open[id].rtr, id, act) && id !in e.done
  }

  ghost predicate Completed(d: Dir, e: Dir, act: Act, id: int)
  {
    id in d.open && act == HandleData(d.open[id].rtr) && id !in d.done && id !in e.open && id in e.done
  }

  ghost predicate Dropped(d: Dir, e: Dir, act: Act, id: int)
  {
    act == Waited(id) && id !in d.open && id in d.done && id !in e.open && id !in e.done
  }

  ghost predicate Untouched(d: Dir, e: Dir, act: Act, id: int)
  {
    && (act.Arecv? ==> id != NewId(d))
    && (id in e.open <==> id in d.open) && (id in e.done <==> id in d.done)
    && (id in d.open ==> e.open[id].rtr == d.open[id].rtr)
  }

  ghost predicate Touched(d: Dir, e: Dir, act: Act, id: int)
  {
    Opened(d, e, act, id) || Completed(d, e, act, id) || Dropped(d, e, act, id) || Untouched(d, e, act, id)
  }

  lemma ArecvTouches(d: Dir, act: Act, id: int)
    requires IdsOk(d) && act.Arecv? && Possible(d, act) && NewId(d) <= T.MAX_ID
    ensures Touched(d, After(d, act), act, id)
  {
    IdUnlessFull(d);
  }

  lemma HandleDataTouches(d: Dir, r: Rtr, id: int)
    requires DirInv(d) && r in d.dataIn
    ensures Touched(d, After(d, HandleData(r)), HandleData(r), id)
  {
    DataFindsReceive(d, r);
    assert r.id !in d.done by { assert r.id in d.open.Keys; }
  }

  lemma WaitedTouches(d: Dir, w: int, id: int)
    requires IdsOk(d) && w in d.done
    ensures Touched(d, After(d, Waited(w)), Waited(w), id)
  {
    assert w !in d.open.Keys;
  }

  lemma OthersTouchNothing(d: Dir, act: Act, id: int)
    requires Possible(d, act) && !act.Arecv? && !act.HandleData? && !act.Waited? && Do(d, 1, 1, act).Some?
    ensures Untouched(d, After(d, act), act, id)
  {
    match act
    case SendRtr => MoveTouchesNothing(d.open, d.pending.value, OnWay, id);
    case RtrArrives(r) => MoveTouchesNothing(d.open, r.id, InSlot, id);
    case HandleRtr => MoveTouchesNothing(d.open, d.slot.id, Held, id);
    case SendData(r) => MoveTouchesNothing(d.open, r.id, Returning, id);
    case DataArrives(r) => MoveTouchesNothing(d.open, r.id, Landed, id);
    case AckArrives =>
  }

  lemma MoveTouchesNothing(open: map<int, Item>, j: int, place: Place, id: int)
    ensures id in Move(open, j, place) <==> id in open
    ensures id in open ==> Move(open, j, place)[id].rtr == open[id].rtr
  {
  }

  lemma ActTouches(d: Dir, act: Act, id: int)
    requires DirInv(d) && Possible(d, act) && Do(d, 1, 1, act).Some?
    ensures Touched(d, After(d, act), act, id)
  {
    match act
    case Arecv(_, _, _) => ArecvTouches(d, act, id);
    case HandleData(r) => HandleDataTouches(d, r, id);
    case Waited(w) => WaitedTouches(d, w, id);
    case _ => OthersTouchNothing(d, act, id);
  }

  // How many receives are posted matters only for whether there is an error.
  lemma PostedApart(d: Dir, mine: int, theirs: int, act: Act)
    requires Do(d, mine, theirs, act).Some?
    ensures Do(d, 1, 1, act).Some? && Do(d, mine, theirs, act).value.0 == After(d, act)
  {
    PossibleAlone(d, mine, theirs, act);
    PostedChanges(d, mine, theirs, act);
  }

  lemma PossibleAlone(d: Dir, mine: int, theirs: int, act: Act)
    requires Do(d, mine, theirs, act).Some?
    ensures Do(d, 1, 1, act).Some? && (act.RtrArrives? ==> theirs > 0) && (act.DataArrives? ==> mine > 0)
  {
  }

  // How the receives of a node change in a step, and those of the other do not.
  lemma ReceiverSteps(s: Pair, node: nat, act: Act, t: Pair)
    requires Leap(s, node, act, t)
    ensures Do(Receiver(s, node), 1, 1, act).Some? && Receiver(t, node) == After(Receiver(s, node), act)
  {
    if node == 0 {
      PostedApart(s.d0, s.p0, s.p1, act);
    } else {
      PostedApart(s.d1, s.p1, s.p0, act);
    }
  }

  lemma OtherReceiverStays(s: Pair, node: nat, act: Act, t: Pair, other: nat)
    requires Leap(s, node, act, t) && !(node == 0 <==> other == 0)
    ensures Receiver(t, other) == Receiver(s, other)
  {
  }

  // Step m, as the receives of `node` see it.
  lemma StepTouches(acts: seq<(nat, Act)>, run: seq<Pair>, node: nat, m: nat, id: int)
    requires Trace(acts, run) && m < |acts|
    ensures var (d, e) := (Receiver(run[m], node), Receiver(run[m + 1], node));
      if At(acts, node, m) then Touched(d, e, acts[m].1, id) else e == d
  {
    TraceInv(acts, run, m);
    var who, act := acts[m].0, acts[m].1;
    assert Leap(run[m], who, act, run[m + 1]);
    if At(acts, node, m) {
      ReceiverSteps(run[m], who, act, run[m + 1]);
      ActTouches(Receiver(run[m], node), act, id);
    } else {
      OtherReceiverStays(run[m], who, act, run[m + 1], node);
    }
  }

  lemma CompletedFollowed(d: Dir, e: Dir, acts: seq<(nat, Act)>, node: nat, k: nat, m: nat, id: int)
    requires k < m && At(acts, node, m) && Followed(d, acts, node, k, m, id) && Completed(d, e, acts[m].1, id)
    ensures Followed(e, acts, node, k, m + 1, id)
  {
    SinceNow(acts, node, k, m);
    assert AsksFor(d.open[id].rtr, id, acts[k].1);
  }

  lemma DroppedFollowed(d: Dir, e: Dir, acts: seq<(nat, Act)>, node: nat, k: nat, m: nat, id: int)
    requires k < m && At(acts, node, m) && Followed(d, acts, node, k, m, id) && Dropped(d, e, acts[m].1, id)
    ensures Followed(e, acts, node, k, m + 1, id)
  {
    SinceNow(acts, node, k, m);
    var r :| AsksFor(r, id, acts[k].1) && Since(acts, node, k, m, HandleData(r));
    SinceMore(acts, node, k, m, HandleData(r));
  }

  // A call made before act m is followed past it.
  lemma OldCall(acts: seq<(nat, Act)>, run: seq<Pair>, node: nat, k: nat, m: nat, id: int)
    requires Trace(acts, run) && k < m < |acts| && Latest(acts, run, node, k, m + 1, id)
    requires Followed(Receiver(run[m], node), acts, node, k, m, id)
    ensures Followed(Receiver(run[m + 1], node), acts, node, k, m + 1, id)
  {
    var d, e := Receiver(run[m], node), Receiver(run[m + 1], node);
    StepTouches(acts, run, node, m, id);
    LatestBefore(acts, run, node, k, m, id);
    if At(acts, node, m) && Completed(d, e, acts[m].1, id) {
      CompletedFollowed(d, e, acts, node, k, m, id);
    } else if At(acts, node, m) && Dropped(d, e, acts[m].1, id) {
      DroppedFollowed(d, e, acts, node, k, m, id);
    } else {
      FollowedMore(d, e, acts, node, k, m, id);
    }
  }

  // A call that is act m.
  lemma NewCall(acts: seq<(nat, Act)>, run: seq<Pair>, node: nat, m: nat, id: int)
    requires Trace(acts, run) && m < |acts| && Given(acts, run, node, m, id)
    ensures Followed(Receiver(run[m + 1], node), acts, node, m, m + 1, id)
  {
    StepTouches(acts, run, node, m, id);
  }

  // Whatever receive there is after act m has been called.
  lemma HasCall(acts: seq<(nat, Act)>, run: seq<Pair>, node: nat, m: nat, id: int)
    requires Trace(acts, run) && m < |acts|
    requires var d := Receiver(run[m], node); id in d.open || id in d.done ==> Called(acts, run, node, m, id)
    requires var e := Receiver(run[m + 1], node); id in e.open || id in e.done
    ensures Called(acts, run, node, m + 1, id)
  {
    StepTouches(acts, run, node, m, id);
    if Given(acts, run, node, m, id) {
      assert Latest(acts, run, node, m, m + 1, id);
    } else {
      var k: nat :| Latest(acts, run, node, k, m, id);
      LatestMore(acts, run, node, k, m, id);
    }
  }

  lemma AnyCall(acts: seq<(nat, Act)>, run: seq<Pair>, node: nat, k: nat, m: nat, id: int)
    requires Trace(acts, run) && m < |acts| && Latest(acts, run, node, k, m + 1, id)
    requires k < m && Latest(acts, run, node, k, m, id) ==> Followed(Receiver(run[m], node), acts, node, k, m, id)
    ensures Followed(Receiver(run[m + 1], node), acts, node, k, m + 1, id)
  {
    if k == m {
      NewCall(acts, run, node, m, id);
    } else {
      LatestBefore(acts, run, node, k, m, id);
      OldCall(acts, run, node, k, m, id);
    }
  }

  lemma KnownMore(acts: seq<(nat, Act)>, run: seq<Pair>, node: nat, m: nat)
    requires Trace(acts, run) && m < |acts| && Known(acts, run, node, m)
    ensures Known(acts, run, node, m + 1)
  {
    var next := m + 1;
    var e := Receiver(run[next], node);
    forall id | id in e.open || id in e.done ensures Called(acts, run, node, next, id) {
      HasCall(acts, run, node, m, id);
    }
    forall k: nat, id | Latest(acts, run, node, k, next, id) ensures Followed(e, acts, node, k, next, id) {
      AnyCall(acts, run, node, k, m, id);
    }
  }

  lemma NoneAtStart(acts: seq<(nat, Act)>, run: seq<Pair>, node: nat)
    requires Trace(acts, run)
    ensures Known(acts, run, node, 0)
  {
    assert Receiver(run[0], node) == StartDir();
  }

  lemma AllKnown(acts: seq<(nat, Act)>, run: seq<Pair>, node: nat, m: nat)
    requires Trace(acts, run) && m <= |acts|
    ensures Known(acts, run, node, m)
  {
    NoneAtStart(acts, run, node);
    for j := 0 to m
      invariant Known(acts, run, node, j)
    {
      KnownMore(acts, run, node, j);
    }
  }

  // ------------------------------------------------------------------ what it gives

  // In every run a call is followed until its id is given again.
  lemma EveryCallFollowed(acts: seq<(nat, Act)>, run: seq<Pair>, node: nat, k: nat, id: int)
    requires Trace(acts, run) && Latest(acts, run, node, k, |acts|, id)
    ensures Followed(Receiver(run[|acts|], node), acts, node, k, |acts|, id)
  {
    AllKnown(acts, run, node, |acts|);
  }

  // Before act m the search for the next id starts from the one that call k was given.
  ghost predicate LastGiven(run: seq<Pair>, node: nat, k: nat, m: nat)
    requires k < |run| && m < |run|
  {
    T.MIN_ID + Receiver(run[m], node).current == NewId(Receiver(run[k], node))
  }

  ghost predicate Calls(acts: seq<(nat, Act)>, node: nat, j: nat) { At(acts, node, j) && acts[j].1.Arecv? }

  // ids are given in turn: the search starts from the latest.
  lemma SearchStartsAt(acts: seq<(nat, Act)>, run: seq<Pair>, node: nat, k: nat, m: nat)
    requires Trace(acts, run) && k < m <= |acts| && Calls(acts, node, k)
    requires forall j :: k < j < m ==> !Calls(acts, node, j)
    ensures LastGiven(run, node, k, m)
  {
    var currents := Currents(run, node);
    CurrentSteps(acts, run, node, k);
    forall j: nat | k < j < m ensures currents[j + 1] == currents[j] { CurrentSteps(acts, run, node, j); }
    SameAlong(currents, k + 1, m);
    LastGivenMore(run, node, k, m);
  }

  ghost function Currents(run: seq<Pair>, node: nat): (c: seq<nat>)
    ensures |c| == |run| && forall j :: 0 <= j < |run| ==> c[j] == Receiver(run[j], node).current
  {
    seq(|run|, j requires 0 <= j < |run| => Receiver(run[j], node).current)
  }

  lemma {:induction false} SameAlong(c: seq<nat>, k: nat, m: nat)
    requires k <= m < |c| && forall j: nat :: k <= j < m ==> c[j + 1] == c[j]
    ensures c[m] == c[k]
  {
    if k == m {
    } else {
      SameAlong(c, k, m - 1);
      assert c[m - 1 + 1] == c[m - 1];
    }
  }

  lemma LastGivenMore(run: seq<Pair>, node: nat, k: nat, m: nat)
    requires k + 1 < |run| && m < |run| && LastGiven(run, node, k, k + 1)
    requires Receiver(run[m], node).current == Receiver(run[k + 1], node).current
    ensures LastGiven(run, node, k, m)
  {
  }

  lemma CurrentSteps(acts: seq<(nat, Act)>, run: seq<Pair>, node: nat, m: nat)
    requires Trace(acts, run) && m < |acts|
    ensures if Calls(acts, node, m) then LastGiven(run, node, m, m + 1)
      else Receiver(run[m + 1], node).current == Receiver(run[m], node).current
  {
    TraceInv(acts, run, m);
    var s, t, who, act := run[m], run[m + 1], acts[m].0, acts[m].1;
    assert Leap(s, who, act, t);
    if At(acts, node, m) {
      ReceiverSteps(s, who, act, t);
      ActCurrent(Receiver(s, node), act);
    } else {
      OtherReceiverStays(s, who, act, t, node);
    }
  }

  lemma ActCurrent(d: Dir, act: Act)
    requires IdsOk(d) && Do(d, 1, 1, act).Some?
    ensures var e := After(d, act); if act.Arecv? then T.MIN_ID + e.current == NewId(d) else e.current == d.current
  {
    IdUnlessFull(d);
  }

  // An RTR that is waiting to be sent, under way, in the slot, or held by the sender, or
  // that data is under way for or has arrived for.
  ghost predicate Somewhere(d: Dir, r: Rtr)
  {
    || (r.id in d.open && d.open[r.id].rtr == r)
    || r in d.rtrs || (d.rtrIn > 0 && d.slot == r) || r in d.held || r in d.data || r in d.dataIn
  }

  lemma SomewhereIsOpen(d: Dir, r: Rtr)
    requires DirInv(d) && Somewhere(d, r)
    ensures r.id in d.open && d.open[r.id].rtr == r
  {
    if r in d.rtrs {
      SlotFree(d, r);
    } else if d.rtrIn > 0 && d.slot == r {
      SlotIntact(d);
    } else if r in d.held {
      HeldIs(d, r);
    } else if r in d.data {
      DataExpected(d, r);
    } else if r in d.dataIn {
      DataFindsReceive(d, r);
    }
  }

  // In every run, wherever an RTR is, it carries the tag, the length and the address of the
  // latest call that was given its id.
  lemma RtrIsCalled(acts: seq<(nat, Act)>, run: seq<Pair>, node: nat, r: Rtr)
    requires Trace(acts, run) && Somewhere(Receiver(run[|acts|], node), r)
    ensures exists k: nat :: Latest(acts, run, node, k, |acts|, r.id) && acts[k].1 == Arecv(r.tag, r.nbytes, r.addr)
  {
    var m := |acts|;
    TraceInv(acts, run, m);
    SomewhereIsOpen(Receiver(run[m], node), r);
    AllKnown(acts, run, node, m);
    var k: nat :| Latest(acts, run, node, k, m, r.id);
    assert Followed(Receiver(run[m], node), acts, node, k, m, r.id);
  }
}
