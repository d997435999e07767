/**
 register_memory_region and the drain in ib_cleanup (MP_Lite/ib.c): a cache of memory
 registrations in front of the InfiniBand adapter.

 The adapter itself is the map `live` of handles it has given out; which handle it gives
 next, and whether it fails, is up to it and comes in as a parameter.
 */
module RegionCache {
  import opened Common
  import opened RegionTreeShape
  import opened RegionTree

  // One call of register_memory_region.
  datatype Request = Request(addr: Addr, nbytes: int, acl: Rights)

  // The program exits when the adapter reports an error.
  datatype Outcome = Registered(hndl: Handle, prop: Prop) | Exit

  // What the adapter does with a request to register.
  datatype Reply = Granted(hndl: Handle) | Refused

  predicate Covers(p: Prop, q: Request)
  {
    q.acl <= p.acl && q.nbytes <= p.size
  }

  // What an existing registration is widened to.
  function Widened(p: Prop, q: Request): Prop
  {
    var acl := if q.acl <= p.acl then p.acl else p.acl + q.acl;
    var size := if p.size < q.nbytes then q.nbytes else p.size;
    Prop(size, acl)
  }

  // Widening covers the new request and whatever was covered before.
  lemma WidenedCovers(p: Prop, q: Request, r: Request)
    ensures Covers(Widened(p, q), q)
    ensures Covers(p, r) ==> Covers(Widened(p, q), r)
  {
  }

  // Every address in the cache has its own handle, which the adapter knows with the cached
  // properties; and the adapter knows no other.
  ghost predicate Mirrors(m: map<Addr, Entry>, live: map<Handle, Prop>)
  {
    && (forall a :: a in m ==> m[a].hndl in live && live[m[a].hndl] == m[a].prop)
    && (forall a, b :: a in m && b in m && m[a].hndl == m[b].hndl ==> a == b)
    && (forall h :: h in live ==> exists a :: a in m && m[a].hndl == h)
  }

  ghost predicate Served(m: map<Addr, Entry>, requests: set<Request>)
  {
    forall q :: q in requests ==> q.addr in m && Covers(m[q.addr].prop, q)
  }

  lemma MirrorsAdded(m: map<Addr, Entry>, live: map<Handle, Prop>, a: Addr, e: Entry)
    requires Mirrors(m, live) && e.hndl !in live
    requires a !in m
    ensures Mirrors(m[a := e], live[e.hndl := e.prop])
  {
    var n, l := m[a := e], live[e.hndl := e.prop];
    forall h | h in l ensures exists b :: b in n && n[b].hndl == h {
      if h == e.hndl {
        assert n[a].hndl == h;
      } else {
        var b :| b in m && m[b].hndl == h;
        assert n[b].hndl == h;
      }
    }
  }

  lemma MirrorsRemoved(m: map<Addr, Entry>, live: map<Handle, Prop>, a: Addr)
    requires Mirrors(m, live) && a in m
    ensures Mirrors(m - {a}, live - {m[a].hndl})
  {
    var n, l := m - {a}, live - {m[a].hndl};
    forall h | h in l ensures exists b :: b in n && n[b].hndl == h {
      var b :| b in m && m[b].hndl == h;
      assert b in n;
    }
  }

  lemma ServedWidened(m: map<Addr, Entry>, requests: set<Request>, q: Request, h: Handle)
    requires Served(m, requests) && q.addr in m
    ensures Served(m[q.addr := Entry(h, Widened(m[q.addr].prop, q))], requests + {q})
  {
    forall r | r in requests + {q} && r.addr == q.addr
      ensures Covers(Widened(m[q.addr].prop, q), r)
    {
      WidenedCovers(m[q.addr].prop, q, r);
    }
  }

  lemma ServedNew(m: map<Addr, Entry>, requests: set<Request>, q: Request, h: Handle)
    requires Served(m, requests) && q.addr !in m
    ensures Served(m[q.addr := Entry(h, Prop(q.nbytes, q.acl))], requests + {q})
  {
  }

  // Giving a handle back and registering the same address anew, perhaps under the same handle.
  lemma MirrorsReplaced(m: map<Addr, Entry>, live: map<Handle, Prop>, a: Addr, e: Entry)
    requires Mirrors(m, live) && a in m && (e.hndl !in live || e.hndl == m[a].hndl)
    ensures Mirrors(m[a := e], (live - {m[a].hndl})[e.hndl := e.prop])
  {
    MirrorsRemoved(m, live, a);
    MirrorsAdded(m - {a}, live - {m[a].hndl}, a, e);
    assert (m - {a})[a := e] == m[a := e];
  }

  // `freed` lists the lowest part of `all` in order, `rest` is what is still there.
  ghost predicate Draining(all: map<Addr, Entry>, freed: seq<Item>, rest: map<Addr, Entry>)
  {
    && Ascending(freed)
    && (forall i, a :: 0 <= i < |freed| && a in rest ==> freed[i].addr < a)
    && all == MapOf(freed) + rest
  }

  lemma DrainStart(all: map<Addr, Entry>)
    ensures Draining(all, [], all)
  {
    assert MapOf([]) == map[];
  }

  lemma DrainEnd(all: map<Addr, Entry>, freed: seq<Item>, rest: map<Addr, Entry>)
    requires Draining(all, freed, rest) && rest == map[]
    ensures Ascending(freed) && MapOf(freed) == all
  {
    assert MapOf(freed) + map[] == MapOf(freed);
  }

  lemma DrainStep(all: map<Addr, Entry>, freed: seq<Item>, rest: map<Addr, Entry>, a: Addr)
    requires Draining(all, freed, rest)
    requires a in rest && (forall b :: b in rest ==> a <= b)
    ensures Draining(all, freed + [Item(a, rest[a])], rest - {a})
    ensures |rest - {a}| < |rest|
  {
    FreedOneMore(all, freed, rest, a);
    assert (rest - {a}).Keys == rest.Keys - {a};
  }

  lemma FreedOneMore(all: map<Addr, Entry>, freed: seq<Item>, rest: map<Addr, Entry>, a: Addr)
    requires Draining(all, freed, rest)
    requires a in rest && (forall b :: b in rest ==> a <= b)
    ensures Draining(all, freed + [Item(a, rest[a])], rest - {a})
  {
    var x := Item(a, rest[a]);
    Appended(freed, x);
    MapsRegroup(MapOf(freed), rest, a);
  }

  lemma Appended(freed: seq<Item>, x: Item)
    requires Ascending(freed) && AllBelow(freed, x.addr)
    ensures Ascending(freed + [x]) && MapOf(freed + [x]) == MapOf(freed)[x.addr := x.entry]
  {
    assert freed + [] == freed && freed + [x] + [] == freed + [x];
    MapOfInsert(freed, x, []);
  }

  lemma MapsRegroup(m: map<Addr, Entry>, rest: map<Addr, Entry>, a: Addr)
    requires a in rest
    ensures m + rest == m[a := rest[a]] + (rest - {a})
  {
  }

  // The handles the adapter still has after the calls `freed`, when it fails to take back
  // those in `stuck`, which the program reports and otherwise ignores.
  function GivenBack(live: set<Handle>, stuck: set<Handle>, freed: seq<Item>): set<Handle>
  {
    if freed == [] then live else
      var now, h := GivenBack(live, stuck, freed[..|freed| - 1]), freed[|freed| - 1].entry.hndl;
      if h in stuck then now else now - {h}
  }

  lemma {:induction false} GivenBackKeys(live: set<Handle>, stuck: set<Handle>, freed: seq<Item>)
    ensures forall h :: h in GivenBack(live, stuck, freed) <==>
              h in live && (h in stuck || forall i :: 0 <= i < |freed| ==> freed[i].entry.hndl != h)
  {
    if freed == [] {
    } else {
      var k := |freed| - 1;
      GivenBackKeys(live, stuck, freed[..k]);
      assert forall i :: 0 <= i < k ==> freed[..k][i] == freed[i];
    }
  }

  ghost predicate Gives(freed: seq<Item>, h: Handle) { exists i :: 0 <= i < |freed| && freed[i].entry.hndl == h }

  lemma GivesAll(all: map<Addr, Entry>, live: map<Handle, Prop>, freed: seq<Item>, h: Handle)
    requires Mirrors(all, live) && Ascending(freed) && MapOf(freed) == all && h in live
    ensures Gives(freed, h)
  {
    var a :| a in all && all[a].hndl == h;
    assert Holds(freed, a);
    var i :| 0 <= i < |freed| && freed[i].addr == a;
    assert freed[i].entry == all[a];
  }

  // The drain gives back every handle there is.
  lemma AllGivenBack(all: map<Addr, Entry>, live: map<Handle, Prop>, stuck: set<Handle>, freed: seq<Item>)
    requires Mirrors(all, live) && Ascending(freed) && MapOf(freed) == all
    ensures GivenBack(live.Keys, stuck, freed) == live.Keys * stuck
  {
    GivenBackKeys(live.Keys, stuck, freed);
    forall h | h in live ensures Gives(freed, h) {
      GivesAll(all, live, freed, h);
    }
    forall h ensures h in GivenBack(live.Keys, stuck, freed) <==> h in live.Keys * stuck {
      if h in live { assert Gives(freed, h); }
    }
  }

  // What holds between calls: `live` is what the adapter has given out, `requests` are the
  // calls made so far.
  ghost predicate Consistent(m: map<Addr, Entry>, live: map<Handle, Prop>, requests: set<Request>)
  {
    Mirrors(m, live) && Served(m, requests)
  }

  // The call needs the adapter to register something.
  ghost predicate AsksAdapter(m: map<Addr, Entry>, q: Request)
  {
    q.addr !in m || !Covers(m[q.addr].prop, q)
  }

  // The adapter gives out no handle that is in use; one just given back may return.
  ghost predicate MayReply(m: map<Addr, Entry>, live: map<Handle, Prop>, q: Request, reply: Reply)
  {
    reply.Granted? && reply.hndl in live ==> q.addr in m && AsksAdapter(m, q) && m[q.addr].hndl == reply.hndl
  }

  // One call takes the cache from `m` and `live` to `m'` and `live'`.
  ghost predicate Answered(m: map<Addr, Entry>, live: map<Handle, Prop>, q: Request, r: Outcome,
                           m': map<Addr, Entry>, live': map<Handle, Prop>)
  {
    && r.Registered? && Covers(r.prop, q)
    && m' == m[q.addr := Entry(r.hndl, r.prop)]
    && (!AsksAdapter(m, q) ==> m' == m && live' == live)
    && forall requests {:trigger Consistent(m, live, requests)} ::
         Consistent(m, live, requests) ==> Consistent(m', live', requests + {q})
  }

  lemma AnsweredWidened(m: map<Addr, Entry>, live: map<Handle, Prop>, q: Request, h: Handle)
    requires Mirrors(m, live) && q.addr in m && AsksAdapter(m, q) && (h !in live || h == m[q.addr].hndl)
    ensures var wide := Widened(m[q.addr].prop, q);
      Answered(m, live, q, Registered(h, wide), m[q.addr := Entry(h, wide)], (live - {m[q.addr].hndl})[h := wide])
  {
    var wide := Widened(m[q.addr].prop, q);
    WidenedCovers(m[q.addr].prop, q, q);
    MirrorsReplaced(m, live, q.addr, Entry(h, wide));
    forall requests | Consistent(m, live, requests)
      ensures Served(m[q.addr := Entry(h, wide)], requests + {q})
    {
      ServedWidened(m, requests, q, h);
    }
  }

  lemma AnsweredNew(m: map<Addr, Entry>, live: map<Handle, Prop>, q: Request, h: Handle)
    requires Mirrors(m, live) && q.addr !in m && h !in live
    ensures var p := Prop(q.nbytes, q.acl);
      Answered(m, live, q, Registered(h, p), m[q.addr := Entry(h, p)], live[h := p])
  {
    var p := Prop(q.nbytes, q.acl);
    MirrorsAdded(m, live, q.addr, Entry(h, p));
    forall requests | Consistent(m, live, requests)
      ensures Served(m[q.addr := Entry(h, p)], requests + {q})
    {
      ServedNew(m, requests, q, h);
    }
  }

  lemma AnsweredKnown(m: map<Addr, Entry>, live: map<Handle, Prop>, q: Request)
    requires !AsksAdapter(m, q)
    ensures Answered(m, live, q, Registered(m[q.addr].hndl, m[q.addr].prop), m, live)
  {
    assert m == m[q.addr := Entry(m[q.addr].hndl, m[q.addr].prop)];
  }

  // A call, and what the adapter does in it: whether it takes a handle back, and its reply to
  // a registration.
  datatype Call = Call(q: Request, released: bool, reply: Reply)

  // The cache and the adapter after a call; None if the program exits.
  function Registering(m: map<Addr, Entry>, live: map<Handle, Prop>, c: Call):
    Option<(map<Addr, Entry>, map<Handle, Prop>)>
  {
    var a := c.q.addr;
    if a in m && Covers(m[a].prop, c.q) then Some((m, live))
    else if (a in m && !c.released) || c.reply.Refused? then None
    else
      var prop := if a in m then Widened(m[a].prop, c.q) else Prop(c.q.nbytes, c.q.acl);
      var rest := if a in m then live - {m[a].hndl} else live;
      Some((m[a := Entry(c.reply.hndl, prop)], rest[c.reply.hndl := prop]))
  }

  lemma RegisteringAnswered(m: map<Addr, Entry>, live: map<Handle, Prop>, c: Call, r: Outcome)
    requires Mirrors(m, live) && MayReply(m, live, c.q, c.reply) && Registering(m, live, c).Some? && r.Registered?
    requires var n := Registering(m, live, c).value.0; c.q.addr in n && n[c.q.addr] == Entry(r.hndl, r.prop)
    ensures var (n, after) := Registering(m, live, c).value; Answered(m, live, c.q, r, n, after)
  {
    var a := c.q.addr;
    if a in m && Covers(m[a].prop, c.q) {
      AnsweredKnown(m, live, c.q);
    } else if a in m {
      AnsweredWidened(m, live, c.q, c.reply.hndl);
    } else {
      AnsweredNew(m, live, c.q, c.reply.hndl);
    }
  }

  // A registration that does not cover the request is given back and made anew.
  method WidenRegion(tree: RbTree, live: map<Handle, Prop>, c: Call, hndl: Handle, prop: Prop)
    returns (r: Outcome, live': map<Handle, Prop>)
    requires tree.Valid() && c.q.addr in tree.entries && tree.entries[c.q.addr] == Entry(hndl, prop)
    requires !Covers(prop, c.q)
    modifies tree, tree.mem.Keys
    ensures tree.Valid() && tree.mem.Keys == old(tree.mem.Keys)
    ensures r.Exit? ==> tree.entries == old(tree.entries) && Registering(old(tree.entries), live, c) == None
    ensures r.Registered? ==> Some((tree.entries, live')) == Registering(old(tree.entries), live, c)
    ensures r.Registered? ==> tree.entries[c.q.addr] == Entry(r.hndl, r.prop)
  {
    var wide := Widened(prop, c.q);
    if !c.released { return Exit, live; }
    live' := live - {hndl};
    if c.reply.Refused? { return Exit, live'; }
    live' := live'[c.reply.hndl := wide];
    var ok := tree.PersistEdit(c.q.addr, c.reply.hndl, wide);
    r := Registered(c.reply.hndl, wide);
  }

  method RegisterRegion(tree: RbTree, live: map<Handle, Prop>, c: Call) returns (r: Outcome, live': map<Handle, Prop>)
    requires tree.Valid() && c.q.addr !in tree.entries
    modifies tree, tree.mem.Keys
    ensures tree.Valid() && fresh(tree.mem.Keys - old(tree.mem.Keys))
    ensures r.Exit? ==> tree.entries == old(tree.entries) && Registering(old(tree.entries), live, c) == None
    ensures r.Registered? ==> Some((tree.entries, live')) == Registering(old(tree.entries), live, c)
    ensures r.Registered? ==> tree.entries[c.q.addr] == Entry(r.hndl, r.prop)
  {
    if c.reply.Refused? { return Exit, live; }
    var exact := Prop(c.q.nbytes, c.q.acl);
    tree.PersistAdd(c.q.addr, c.reply.hndl, exact);
    r, live' := Registered(c.reply.hndl, exact), live[c.reply.hndl := exact];
  }

  // The program exits exactly when the adapter is asked and fails.
  lemma ExitExactly(m: map<Addr, Entry>, live: map<Handle, Prop>, c: Call)
    ensures Registering(m, live, c) == None <==>
      AsksAdapter(m, c.q) && (c.reply.Refused? || (!c.released && c.q.addr in m))
  {
  }

  method RegisterMemoryRegion(tree: RbTree, live: map<Handle, Prop>, c: Call)
    returns (r: Outcome, live': map<Handle, Prop>)
    requires tree.Valid()
    modifies tree, tree.mem.Keys
    ensures tree.Valid() && fresh(tree.mem.Keys - old(tree.mem.Keys))
    ensures r.Exit? ==> tree.entries == old(tree.entries) && Registering(old(tree.entries), live, c) == None
    ensures r.Registered? ==> Some((tree.entries, live')) == Registering(old(tree.entries), live, c)
    ensures r.Registered? ==> c.q.addr in tree.entries && tree.entries[c.q.addr] == Entry(r.hndl, r.prop)
  {
    var found, hndl, prop := tree.PersistGet(c.q.addr);
    if found {
      if !(c.q.acl <= prop.acl) || prop.size < c.q.nbytes {
        r, live' := WidenRegion(tree, live, c, hndl, prop);
      } else {
        r, live' := Registered(hndl, prop), live;
      }
    } else {
      r, live' := RegisterRegion(tree, live, c);
    }
  }

  // One entry more, or the end.
  method TakeLowest(tree: RbTree, ghost all: map<Addr, Entry>, ghost freed: seq<Item>) returns (ok: bool, item: Item)
    requires tree.Valid() && Draining(all, freed, tree.entries)
    modifies tree, tree.nil, tree.mem.Keys
    ensures tree.Valid() && tree.mem.Keys <= old(tree.mem.Keys)
    ensures ok ==> Draining(all, freed + [item], tree.entries) && |tree.entries| < |old(tree.entries)|
    ensures !ok ==> Ascending(freed) && MapOf(freed) == all && tree.entries == map[]
  {
    ghost var rest := tree.entries;
    var addr, hndl, prop;
    ok, addr, hndl, prop := tree.PersistDelrand();
    item := Item(addr, Entry(hndl, prop));
    if ok { DrainStep(all, freed, rest, addr); } else { DrainEnd(all, freed, rest); }
  }

  // The loop in ib_cleanup; `freed` are the calls to VAPI_deregister_mr it makes, in order.
  method Drain(tree: RbTree) returns (freed: seq<Item>)
    requires tree.Valid()
    modifies tree, tree.nil, tree.mem.Keys
    ensures tree.Valid() && tree.entries == map[]
    ensures Ascending(freed) && MapOf(freed) == old(tree.entries)
  {
    freed := [];
    ghost var all := tree.entries;
    DrainStart(all);
    var ok, item := TakeLowest(tree, all, freed);
    while ok
      invariant tree.Valid() && tree.mem.Keys <= old(tree.mem.Keys)
      invariant ok ==> Draining(all, freed + [item], tree.entries)
      invariant !ok ==> Ascending(freed) && MapOf(freed) == all && tree.entries == map[]
      decreases if ok then |tree.entries| + 1 else 0
    {
      freed := freed + [item];
      ok, item := TakeLowest(tree, all, freed);
    }
  }

  // ------------------------------------------------------------------ from start to end

  // The cache and the adapter after the first k calls of a program, from the empty cache;
  // None if one of these exits.
  ghost function AfterCalls(calls: seq<Call>, k: nat): Option<(map<Addr, Entry>, map<Handle, Prop>)>
    requires k <= |calls|
  {
    if k == 0 then Some((map[], map[])) else
      match AfterCalls(calls, k - 1)
      case None => None
      case Some(s) => Registering(s.0, s.1, calls[k - 1])
  }

  // The adapter never gives out a handle that is in use.
  ghost predicate Honest(calls: seq<Call>)
  {
    forall k :: 0 <= k < |calls| && AfterCalls(calls, k).Some? ==>
      var s := AfterCalls(calls, k).value; MayReply(s.0, s.1, calls[k].q, calls[k].reply)
  }

  ghost function Requests(calls: seq<Call>, k: nat): set<Request>
    requires k <= |calls|
  {
    if k == 0 then {} else Requests(calls, k - 1) + {calls[k - 1].q}
  }

  lemma RegisteringConsistent(m: map<Addr, Entry>, live: map<Handle, Prop>, requests: set<Request>, c: Call)
    requires Consistent(m, live, requests) && MayReply(m, live, c.q, c.reply) && Registering(m, live, c).Some?
    ensures var (m', live') := Registering(m, live, c).value; Consistent(m', live', requests + {c.q})
  {
    var e := Registering(m, live, c).value.0[c.q.addr];
    RegisteringAnswered(m, live, c, Registered(e.hndl, e.prop));
  }

  // After any sequence of calls every address in the cache has a live handle of its own, the
  // adapter knows no other, and every request made so far is covered.
  lemma {:induction false} SessionConsistent(calls: seq<Call>, k: nat)
    requires Honest(calls) && k <= |calls| && AfterCalls(calls, k).Some?
    ensures var s := AfterCalls(calls, k).value; Consistent(s.0, s.1, Requests(calls, k))
  {
    if k == 0 {
    } else {
      var s := AfterCalls(calls, k - 1).value;
      SessionConsistent(calls, k - 1);
      RegisteringConsistent(s.0, s.1, Requests(calls, k - 1), calls[k - 1]);
    }
  }

  // A registration for what has been asked for at address a: the greatest length of all, and
  // all the rights.
  ghost predicate AskedFor(p: Prop, a: Addr, requests: set<Request>)
  {
    && (exists q :: q in requests && q.addr == a && q.nbytes == p.size)
    && (forall q :: q in requests && q.addr == a ==> q.nbytes <= p.size)
    && (forall x :: x in p.acl <==> Asked(x, a, requests))
  }

  ghost predicate Asked(x: int, a: Addr, requests: set<Request>)
  {
    exists q :: q in requests && q.addr == a && x in q.acl
  }

  ghost predicate JustAsked(m: map<Addr, Entry>, requests: set<Request>)
  {
    && (forall q :: q in requests ==> q.addr in m)
    && forall a :: a in m ==> AskedFor(m[a].prop, a, requests)
  }

  lemma AskedMore(x: int, a: Addr, requests: set<Request>, q: Request)
    ensures Asked(x, a, requests + {q}) <==> Asked(x, a, requests) || (q.addr == a && x in q.acl)
  {
    if Asked(x, a, requests) {
      var r :| r in requests && r.addr == a && x in r.acl;
      assert r in requests + {q};
    }
    if q.addr == a && x in q.acl { assert q in requests + {q}; }
  }

  // A request that asks for nothing new, or at another address.
  lemma AskedAgain(p: Prop, a: Addr, requests: set<Request>, q: Request)
    requires AskedFor(p, a, requests) && (q.addr == a ==> Covers(p, q))
    ensures AskedFor(p, a, requests + {q})
  {
    var r :| r in requests && r.addr == a && r.nbytes == p.size;
    assert r in requests + {q};
    forall x ensures x in p.acl <==> Asked(x, a, requests + {q}) { AskedMore(x, a, requests, q); }
  }

  lemma AskedWider(p: Prop, requests: set<Request>, q: Request)
    requires AskedFor(p, q.addr, requests)
    ensures AskedFor(Widened(p, q), q.addr, requests + {q})
  {
    var r :| r in requests && r.addr == q.addr && r.nbytes == p.size;
    assert r in requests + {q} && q in requests + {q};
    forall x ensures x in Widened(p, q).acl <==> Asked(x, q.addr, requests + {q}) {
      AskedMore(x, q.addr, requests, q);
    }
  }

  lemma AskedFirst(requests: set<Request>, q: Request)
    requires forall r :: r in requests ==> r.addr != q.addr
    ensures AskedFor(Prop(q.nbytes, q.acl), q.addr, requests + {q})
  {
    assert q in requests + {q};
    forall x ensures x in q.acl <==> Asked(x, q.addr, requests + {q}) { AskedMore(x, q.addr, requests, q); }
  }

  lemma RegisteringJustAsked(m: map<Addr, Entry>, live: map<Handle, Prop>, requests: set<Request>, c: Call)
    requires JustAsked(m, requests) && Registering(m, live, c).Some?
    ensures JustAsked(Registering(m, live, c).value.0, requests + {c.q})
  {
    var n := Registering(m, live, c).value.0;
    forall a | a in n ensures AskedFor(n[a].prop, a, requests + {c.q}) {
      if a != c.q.addr || (a in m && Covers(m[a].prop, c.q)) {
        AskedAgain(m[a].prop, a, requests, c.q);
      } else if a in m {
        AskedWider(m[a].prop, requests, c.q);
      } else {
        AskedFirst(requests, c.q);
      }
    }
  }

  // What is registered at an address is just what has been asked for there: the greatest
  // length and all the rights, and no more.
  lemma {:induction false} SessionJustAsked(calls: seq<Call>, k: nat)
    requires k <= |calls| && AfterCalls(calls, k).Some?
    ensures JustAsked(AfterCalls(calls, k).value.0, Requests(calls, k))
  {
    if k == 0 {
    } else {
      var s := AfterCalls(calls, k - 1).value;
      SessionJustAsked(calls, k - 1);
      RegisteringJustAsked(s.0, s.1, Requests(calls, k - 1), calls[k - 1]);
    }
  }

  lemma {:induction false} StaysExited(calls: seq<Call>, j: nat, k: nat)
    requires j <= k <= |calls| && AfterCalls(calls, j) == None
    ensures AfterCalls(calls, k) == None
  {
    if j == k {
    } else {
      StaysExited(calls, j, k - 1);
    }
  }

  // The handles given back are those that are live, each once and in the order of the
  // addresses; and what remains is what the adapter does not take back.
  ghost predicate AllReturned(live: map<Handle, Prop>, freed: seq<Item>)
  {
    && Ascending(freed)
    && (forall i :: 0 <= i < |freed| ==> freed[i].entry.hndl in live)
    && (forall h :: h in live ==> Gives(freed, h))
    && (forall i, j :: 0 <= i < j < |freed| ==> freed[i].entry.hndl != freed[j].entry.hndl)
    && (forall stuck :: GivenBack(live.Keys, stuck, freed) == live.Keys * stuck)
  }

  lemma DrainReturnsAll(m: map<Addr, Entry>, live: map<Handle, Prop>, freed: seq<Item>)
    requires Mirrors(m, live) && Ascending(freed) && MapOf(freed) == m
    ensures AllReturned(live, freed)
  {
    forall stuck ensures GivenBack(live.Keys, stuck, freed) == live.Keys * stuck {
      AllGivenBack(m, live, stuck, freed);
    }
    forall i | 0 <= i < |freed| ensures Holds(freed, freed[i].addr) && m[freed[i].addr] == freed[i].entry {
      ItemInMap(freed, i);
    }
    forall h | h in live ensures Gives(freed, h) { GivesAll(m, live, freed, h); }
  }

  lemma ItemInMap(s: seq<Item>, i: nat)
    requires Ascending(s) && i < |s|
    ensures Holds(s, s[i].addr) && s[i].addr in MapOf(s) && MapOf(s)[s[i].addr] == s[i].entry
  {
    assert s == s[..i] + [s[i]] + s[i + 1..];
    MapOfInsert(s[..i], s[i], s[i + 1..]);
  }

  // The first k calls of a program have led here.
  ghost predicate Reached(calls: seq<Call>, k: nat, m: map<Addr, Entry>, live: map<Handle, Prop>)
  {
    k <= |calls| && AfterCalls(calls, k) == Some((m, live))
  }

  // Call number k of a program.
  method ServeCall(tree: RbTree, live: map<Handle, Prop>, calls: seq<Call>, k: nat)
    returns (ok: bool, live': map<Handle, Prop>)
    requires k < |calls| && tree.Valid() && Reached(calls, k, tree.entries, live)
    modifies tree, tree.mem.Keys
    ensures tree.Valid() && fresh(tree.mem.Keys - old(tree.mem.Keys))
    ensures ok ==> Reached(calls, k + 1, tree.entries, live')
    ensures !ok ==> AfterCalls(calls, |calls|) == None
  {
    var r;
    r, live' := RegisterMemoryRegion(tree, live, calls[k]);
    ok := r.Registered?;
    if !ok { StaysExited(calls, k + 1, |calls|); }
  }

  // The calls of a program, up to the first that exits.
  method ServeCalls(tree: RbTree, calls: seq<Call>) returns (ok: bool, live: map<Handle, Prop>)
    requires tree.Valid() && tree.entries == map[]
    modifies tree, tree.mem.Keys
    ensures tree.Valid() && fresh(tree.mem.Keys - old(tree.mem.Keys))
    ensures ok ==> Reached(calls, |calls|, tree.entries, live)
    ensures !ok ==> AfterCalls(calls, |calls|) == None
  {
    ok, live := true, map[];
    var done := 0;
    while ok && done < |calls|
      invariant tree.Valid() && fresh(tree.mem.Keys - old(tree.mem.Keys)) && done <= |calls|
      invariant if ok then Reached(calls, done, tree.entries, live) else AfterCalls(calls, |calls|) == None
    {
      ok, live := ServeCall(tree, live, calls, done);
      done := done + 1;
    }
  }

  // The end of a program: what it has asked for is covered, and everything is given back.
  ghost predicate Ended(calls: seq<Call>, live: map<Handle, Prop>, freed: seq<Item>)
  {
    && AllReturned(live, freed) && Reached(calls, |calls|, MapOf(freed), live)
    && Consistent(MapOf(freed), live, Requests(calls, |calls|))
  }

  method GiveBackAll(tree: RbTree, calls: seq<Call>, ghost live: map<Handle, Prop>) returns (freed: seq<Item>)
    requires Honest(calls) && tree.Valid() && Reached(calls, |calls|, tree.entries, live)
    modifies tree, tree.nil, tree.mem.Keys
    ensures Ended(calls, live, freed)
  {
    ghost var m := tree.entries;
    SessionConsistent(calls, |calls|);
    freed := Drain(tree);
    DrainReturnsAll(m, live, freed);
  }

  // A whole program: its calls, and the drain at the end if none of them exits.
  method ServeAndDrain(calls: seq<Call>) returns (live: map<Handle, Prop>, freed: seq<Item>, done: bool)
    requires Honest(calls)
    ensures done <==> AfterCalls(calls, |calls|).Some?
    ensures done ==> Ended(calls, live, freed)
  {
    var tree := new RbTree();
    done, live := ServeCalls(tree, calls);
    freed := [];
    if done { freed := GiveBackAll(tree, calls, live); }
  }
}
