/**
 What rb_delete (MP_Lite/ib.c) leaves of the tree and of the map it stands for, before any
 repair: values alone, for RegionTree.dfy.
 */
module RegionTreeDeletion {
  import opened RegionTreeShape
  import opened RegionTreeRepair

  // ------------------------------------------------------------------ taking a node out

  // `d` goes down left links from `base`.
  ghost predicate Spine(d: Ctx, base: Ctx)
    decreases d
  {
    d == base || (d.InL? && Spine(d.up, base))
  }

  lemma {:induction false} SpineBefore(d: Ctx, base: Ctx)
    requires Spine(d, base)
    ensures Before(d) == Before(base)
    decreases d
  {
    if d == base {
    } else {
      SpineBefore(d.up, base);
    }
  }

  // The only child of a node that has at most one.
  ghost function OnlyKid(t: Tree): Tree
    requires t.Br?
  {
    if t.l.Br? then t.l else t.r
  }

  lemma PlacedSpliced(m: Mem, c: Ctx, t: Tree, nil: Node)
    requires Placed(m, c, t, nil) && t.Br? && (t.l.Leaf? || t.r.Leaf?)
    ensures (OnlyKid(t).Br? ==> OnlyKid(t).id in m && OnlyKid(t).id != t.id) && (c.Top? || c.id in m)
    ensures Rehung(Reparented(m, OnlyKid(t), ParId(c, nil)), c, TopId(OnlyKid(t), nil)).Keys == m.Keys
    ensures Placed(Rehung(Reparented(m, OnlyKid(t), ParId(c, nil)), c, TopId(OnlyKid(t), nil)) - {t.id},
                   c, OnlyKid(t), nil)
  {
    var s := OnlyKid(t);
    var m1 := Reparented(m, s, ParId(c, nil));
    var n := Rehung(m1, c, TopId(s, nil)) - {t.id};
    HangsReparented(m, s, t.id, ParId(c, nil), nil);
    HangsFrame(m1, n, s, ParId(c, nil), nil);
    SurroundsRehung(m, c, t.id, TopId(s, nil), nil);
    SurroundsFrame(Rehung(m, c, TopId(s, nil)), n, c, TopId(s, nil), nil);
    assert Ids(t) == {t.id} + Ids(s);
  }

  // A node with one child or none has a red child or is red or has none at all; taking it
  // out leaves a shortage exactly when it is black.
  lemma SplicedFits(c: Ctx, t: Tree)
    requires Sub(Plug(c, t)) && !IsRed(Plug(c, t)) && t.Br? && (t.l.Leaf? || t.r.Leaf?)
    ensures t.color.Black? ==> BlackMissing(c, OnlyKid(t))
    ensures t.color.Red? ==> Sub(OnlyKid(t)) && !IsRed(OnlyKid(t)) && CtxFits(c, BlackHeight(OnlyKid(t)), false)
  {
    PlugFits(c, t);
    BlackenedSub(OnlyKid(t));
  }

  // The same context with another item in the node at the top of the spine.
  ghost function Relabelled(d: Ctx, base: Ctx, item: Item): Ctx
    requires Spine(d, base) && base.InR?
    decreases d
  {
    if d == base then InR(base.up, base.id, base.color, item, base.l)
    else InL(Relabelled(d.up, base, item), d.id, d.color, d.item, d.r)
  }

  lemma {:induction false} PlacedRelabelled(m: Mem, d: Ctx, base: Ctx, item: Item, t: Tree, nil: Node)
    requires Placed(m, d, t, nil) && Spine(d, base) && base.InR?
    ensures base.id in m && m[base.id].item == base.item
    ensures Placed(m[base.id := m[base.id].(item := item)], Relabelled(d, base, item), t, nil)
    decreases d
  {
    PlacedJoined(m, d, t, nil);
    var d' := Relabelled(d, base, item);
    if d == base {
      PlacedReplaced(m, d.up, Joined(d, t), item, nil);
      PlacedJoined(m[base.id := m[base.id].(item := item)], d', t, nil);
    } else {
      PlacedRelabelled(m, d.up, base, item, Joined(d, t), nil);
      PlacedJoined(m[base.id := m[base.id].(item := item)], d', t, nil);
    }
  }

  lemma {:induction false} RelabelledKeeps(d: Ctx, base: Ctx, item: Item, h: nat, red: bool)
    requires Spine(d, base) && base.InR?
    ensures CtxFits(Relabelled(d, base, item), h, red) <==> CtxFits(d, h, red)
    ensures Before(Relabelled(d, base, item)) == Before(base.up) + Items(base.l) + [item]
    ensures After(Relabelled(d, base, item)) == After(d)
    decreases d
  {
    if d == base {
    } else {
      RelabelledKeeps(d.up, base, item, h + (if d.color.Black? then 1 else 0), d.color.Red?);
    }
  }

  lemma {:induction false} RelabelledId(d: Ctx, base: Ctx, item: Item, hole: Node)
    requires Spine(d, base) && base.InR?
    ensures RootId(Relabelled(d, base, item), hole) == RootId(d, hole)
    ensures !d.Top? && Relabelled(d, base, item).id == d.id
    decreases d
  {
    if d == base {
    } else {
      RelabelledId(d.up, base, item, d.id);
    }
  }

  // What a deletion leaves: `a` and `z` are the items before and after the deleted one.
  // With two children its node stays, under the address of the next item.
  ghost function AfterDelete(a: seq<Item>, x: Item, z: seq<Item>, two: bool): seq<Item>
    requires two ==> z != []
  {
    if two then a + [Item(z[0].addr, x.entry)] + z[1..] else a + z
  }

  // The map left by a deletion: the deleted address is gone; but with two children the next
  // address now carries the deleted entry.
  lemma MapOfDelete(a: seq<Item>, x: Item, z: seq<Item>, two: bool)
    requires Ascending(a + [x] + z) && (two ==> z != [])
    ensures Ascending(AfterDelete(a, x, z, two))
    ensures var m := MapOf(a + [x] + z);
      && x.addr in m && m[x.addr] == x.entry
      && MapOf(AfterDelete(a, x, z, two)) == if two then (m - {x.addr})[z[0].addr := x.entry] else m - {x.addr}
  {
    AscendingSplit(a, x, z);
    assert (a + [x] + z)[|a|] == x;
    AscendingWithout(a, x, z);
    MapOfInsert(a, x, z);
    if two { MapOfSuccessor(a, x, z); }
  }

  lemma MapOfSuccessor(a: seq<Item>, x: Item, z: seq<Item>)
    requires Ascending(a + z) && z != []
    ensures Ascending(AfterDelete(a, x, z, true))
    ensures MapOf(AfterDelete(a, x, z, true)) == MapOf(a + z)[z[0].addr := x.entry]
  {
    var y, w := z[0], z[1..];
    assert a + z == a + [y] + w;
    MapOfReplace(a, y, Item(y.addr, x.entry), w);
  }

  lemma AscendingWithout(a: seq<Item>, x: Item, z: seq<Item>)
    requires Ascending(a + [x] + z)
    ensures Ascending(a + z)
  {
    AscendingSplit(a, x, z);
    var v := a + z;
    forall i, j | 0 <= i < j < |v| ensures v[i].addr < v[j].addr {
      if i < |a| <= j { assert a[i].addr < x.addr < z[j - |a|].addr; }
    }
  }

  // The items around the top of `t`.
  lemma ItemsAround(c: Ctx, t: Tree)
    requires t.Br?
    ensures Items(Plug(c, t)) == (Before(c) + Items(t.l)) + [t.item] + (Items(t.r) + After(c))
  {
    PlugItems(c, t);
    Widen(Before(c), Items(t.l), [t.item], Items(t.r), After(c));
  }

  // The first item at or after the position `(d, u)` at the end of a spine is the one that
  // follows the item of the node the spine starts below.
  lemma SpineItems(c: Ctx, t: Tree, d: Ctx, u: Tree)
    requires t.Br? && u.Br? && u.l.Leaf? && Spine(d, RightOf(c, t)) && Plug(d, u) == Plug(c, t)
    ensures Before(d) == Before(c) + Items(t.l) + [t.item]
    ensures Items(t.r) + After(c) == [u.item] + (Items(u.r) + After(d))
  {
    SpineBefore(d, RightOf(c, t));
    ItemsAround(c, t);
    ItemsAround(d, u);
    NextInSequence(Before(c) + Items(t.l), t.item, Items(t.r) + After(c), Before(d), u.item, Items(u.r) + After(d));
  }

  lemma NextInSequence(a: seq<Item>, x: Item, r: seq<Item>, p: seq<Item>, y: Item, w: seq<Item>)
    requires p == a + [x] && (p + []) + [y] + w == a + [x] + r
    ensures r == [y] + w
  {
    assert p + [] == p;
    assert p + [y] + w == p + ([y] + w);
    CancelPrefix(p, r, [y] + w);
  }

  lemma CancelPrefix(p: seq<Item>, r: seq<Item>, w: seq<Item>)
    requires p + r == p + w
    ensures r == w
  {
    assert r == (p + r)[|p|..];
    assert w == (p + w)[|p|..];
  }

  lemma SplicedItems(c: Ctx, t: Tree)
    requires t.Br? && (t.l.Leaf? || t.r.Leaf?) && Ascending(Items(Plug(c, t)))
    ensures Before(c) + Items(OnlyKid(t)) + After(c)
         == AfterDelete(Before(c) + Items(t.l), t.item, Items(t.r) + After(c), false)
    ensures Ascending(Before(c) + Items(OnlyKid(t)) + After(c))
  {
    ItemsAround(c, t);
    AscendingWithout(Before(c) + Items(t.l), t.item, Items(t.r) + After(c));
    AfterDeleteOne(Before(c), Items(t.l), t.item, Items(t.r), After(c));
  }

  lemma AfterDeleteOne(b: seq<Item>, l: seq<Item>, x: Item, r: seq<Item>, z: seq<Item>)
    requires l == [] || r == []
    ensures AfterDelete(b + l, x, r + z, false) == b + (if l == [] then r else l) + z
  {
    assert [] + z == z && b + [] == b;
  }

  lemma SuccessorSplicedItems(c: Ctx, t: Tree, d: Ctx, u: Tree)
    requires t.Br? && u.Br? && u.l.Leaf? && Spine(d, RightOf(c, t)) && Plug(d, u) == Plug(c, t)
    requires Ascending(Items(Plug(c, t)))
    ensures Items(t.r) + After(c) != []
    ensures var e := Relabelled(d, RightOf(c, t), Item(u.item.addr, t.item.entry));
      && Before(e) + Items(u.r) + After(e) == AfterDelete(Before(c) + Items(t.l), t.item, Items(t.r) + After(c), true)
      && Ascending(Before(e) + Items(u.r) + After(e))
  {
    SpineItems(c, t, d, u);
    ItemsAround(c, t);
    var x := Item(u.item.addr, t.item.entry);
    RelabelledKeeps(d, RightOf(c, t), x, 0, false);
    AfterDeleteTwo(Before(c) + Items(t.l), t.item, Items(t.r) + After(c), u.item, Items(u.r), After(d));
  }

  lemma AfterDeleteTwo(a: seq<Item>, x: Item, r: seq<Item>, y: Item, v: seq<Item>, z: seq<Item>)
    requires Ascending(a + [x] + r) && r == [y] + (v + z)
    ensures (a + [Item(y.addr, x.entry)]) + v + z == AfterDelete(a, x, r, true)
    ensures Ascending(AfterDelete(a, x, r, true))
  {
    var i := [Item(y.addr, x.entry)];
    assert r[1..] == v + z;
    assert (a + i) + v + z == a + i + (v + z);
    AscendingWithout(a, x, r);
    MapOfSuccessor(a, x, r);
  }

  lemma SuccessorSplicedFits(c: Ctx, t: Tree, d: Ctx, u: Tree, nil: Node)
    requires t.Br? && u.Br? && u.l.Leaf? && Spine(d, RightOf(c, t)) && Plug(d, u) == Plug(c, t)
    requires Sub(Plug(c, t)) && !IsRed(Plug(c, t))
    ensures var e := Relabelled(d, RightOf(c, t), Item(u.item.addr, t.item.entry));
      && ParId(e, nil) == ParId(d, nil)
      && (u.color.Black? ==> BlackMissing(e, u.r))
      && (u.color.Red? ==> Sub(u.r) && !IsRed(u.r) && CtxFits(e, BlackHeight(u.r), false))
  {
    var x := Item(u.item.addr, t.item.entry);
    SplicedFits(d, u);
    RelabelledKeeps(d, RightOf(c, t), x, BlackHeight(u.r), false);
    RelabelledKeeps(d, RightOf(c, t), x, BlackHeight(u.r) + 1, false);
    RelabelledId(d, RightOf(c, t), x, nil);
  }

  // The node that holds address `a` has two children.
  ghost predicate TwoKids(t: Tree, a: Addr)
  {
    t.Br? &&
    if a == t.item.addr then t.l.Br? && t.r.Br?
    else if a < t.item.addr then TwoKids(t.l, a) else TwoKids(t.r, a)
  }

  lemma {:induction false} TwoKidsAt(c: Ctx, t: Tree, a: Addr)
    requires Seeks(c, t, a)
    ensures TwoKids(Plug(c, t), a) <==> TwoKids(t, a)
    decreases c
  {
    if c.Top? {
    } else {
      JoinedItems(c, t);
      SeeksJoined(c, t, a);
      TwoKidsAt(c.up, Joined(c, t), a);
    }
  }

  lemma AboveTail(x: Item, r: seq<Item>, z: seq<Item>, a: Addr)
    requires AllAbove([x] + r + z, a)
    ensures a < x.addr && AllAbove(z, a)
  {
    var w := [x] + r + z;
    assert w[0] == x;
    forall i | 0 <= i < |z| ensures a < z[i].addr { assert w[1 + |r| + i] == z[i]; }
  }

  lemma BelowFront(b: seq<Item>, l: seq<Item>, x: Item, a: Addr)
    requires AllBelow(b + l + [x], a)
    ensures x.addr < a && AllBelow(b, a)
  {
    var w := b + l + [x];
    assert w[|w| - 1] == x;
    forall i | 0 <= i < |b| ensures b[i].addr < a { assert w[i] == b[i]; }
  }

  lemma SeeksJoined(c: Ctx, t: Tree, a: Addr)
    requires Seeks(c, t, a) && !c.Top?
    ensures Seeks(c.up, Joined(c, t), a)
    ensures if c.InL? then a < c.item.addr else c.item.addr < a
  {
    JoinedItems(c, t);
    if c.InL? {
      AboveTail(c.item, Items(c.r), After(c.up), a);
    } else {
      BelowFront(Before(c.up), Items(c.l), c.item, a);
    }
  }

  lemma BelowPrefix(s: seq<Item>, u: seq<Item>, a: Addr)
    requires AllBelow(s + u, a)
    ensures AllBelow(s, a)
  {
    forall i | 0 <= i < |s| ensures s[i].addr < a { assert (s + u)[i] == s[i]; }
  }

  lemma AboveSuffix(s: seq<Item>, u: seq<Item>, a: Addr)
    requires AllAbove(s + u, a)
    ensures AllAbove(u, a)
  {
    forall i | 0 <= i < |u| ensures a < u[i].addr { assert (s + u)[|s| + i] == u[i]; }
  }

  // The item at the top of `t` is where a search for its address leads.
  lemma SeeksItself(c: Ctx, t: Tree)
    requires t.Br? && Ascending(Items(Plug(c, t)))
    ensures Seeks(c, t, t.item.addr)
  {
    PlugItems(c, t);
    SidesOf(Before(c), Items(t.l), t.item, Items(t.r), After(c));
    BelowPrefix(Before(c), Items(t.l), t.item.addr);
    AboveSuffix(Items(t.r), After(c), t.item.addr);
  }

  lemma SeeksFromTop(t: Tree, a: Addr)
    requires Ascending(Items(t))
    ensures Seeks(Top, t, a)
  {
    assert [] + Items(t) + [] == Items(t);
  }

  ghost predicate IsNext(m: map<Addr, Entry>, a: Addr, next: Addr)
  {
    next in m && a < next && forall k :: k in m && a < k ==> next <= k
  }

  // The map after deleting address `a`: with two children the next address inherits the
  // deleted entry.
  ghost predicate Deleted(m: map<Addr, Entry>, n: map<Addr, Entry>, a: Addr, two: bool)
    requires a in m
  {
    if two then exists next :: IsNext(m, a, next) && n == (m - {a})[next := m[a]]
    else n == m - {a}
  }

  lemma DeletedMap(c: Ctx, t: Tree, after: seq<Item>)
    requires t.Br? && Ascending(Items(Plug(c, t)))
    requires t.l.Br? && t.r.Br? ==> Items(t.r) + After(c) != []
    requires after == AfterDelete(Before(c) + Items(t.l), t.item, Items(t.r) + After(c), t.l.Br? && t.r.Br?)
    ensures Ascending(after) && t.item.addr in MapOf(Items(Plug(c, t)))
    ensures Deleted(MapOf(Items(Plug(c, t))), MapOf(after), t.item.addr, TwoKids(Plug(c, t), t.item.addr))
  {
    var a, x, z := Before(c) + Items(t.l), t.item, Items(t.r) + After(c);
    ItemsAround(c, t);
    MapOfDelete(a, x, z, t.l.Br? && t.r.Br?);
    SeeksItself(c, t);
    TwoKidsAt(c, t, x.addr);
    if t.l.Br? && t.r.Br? { NextIsFirst(a, x, z); }
  }

  lemma NextIsFirst(a: seq<Item>, x: Item, z: seq<Item>)
    requires Ascending(a + [x] + z) && z != []
    ensures IsNext(MapOf(a + [x] + z), x.addr, z[0].addr)
  {
    var s := a + [x] + z;
    var m := MapOf(s);
    assert s[|a|] == x && s[|a| + 1] == z[0];
    forall k | k in m && x.addr < k ensures z[0].addr <= k {
      var i :| 0 <= i < |s| && s[i].addr == k;
      if i > |a| + 1 { assert s[|a| + 1].addr < s[i].addr; }
    }
  }

  // Deleting an address leaves the rest of the map alone exactly when its node has at most
  // one child, or the next address happens to carry an equal entry.
  lemma DeletedExactly(m: map<Addr, Entry>, n: map<Addr, Entry>, a: Addr, two: bool)
    requires a in m && Deleted(m, n, a, two)
    ensures n == m - {a} <==> (!two || forall next :: IsNext(m, a, next) ==> m[next] == m[a])
  {
    if two {
      var next :| IsNext(m, a, next) && n == (m - {a})[next := m[a]];
      assert forall b :: IsNext(m, a, b) ==> b == next;
      assert n[next] == m[a] && next in m - {a} && (m - {a})[next] == m[next];
      if m[next] == m[a] {
        assert n == m - {a};
      }
    }
  }

  // Three registrations, the middle one at the root: deleting it leaves its handle and
  // properties under the address of the last one, whose own handle is lost.
  lemma DeletionMixesUpEntries(i: Node, j: Node, k: Node, e: Entry, f: Entry, g: Entry)
    requires f != g
    ensures var t := Br(j, Black, Item(2, f), Br(i, Black, Item(1, e), Leaf, Leaf),
                        Br(k, Black, Item(3, g), Leaf, Leaf));
      && RedBlack(t) && TwoKids(t, 2) && 2 in MapOf(Items(t))
      && forall n :: Deleted(MapOf(Items(t)), n, 2, true) ==> 3 in n && n[3] == f && n != MapOf(Items(t)) - {2}
  {
    var l, r := Br(i, Black, Item(1, e), Leaf, Leaf), Br(k, Black, Item(3, g), Leaf, Leaf);
    var t := Br(j, Black, Item(2, f), l, r);
    assert Items(l) == [] + [Item(1, e)] + [] == [Item(1, e)];
    assert Items(r) == [] + [Item(3, g)] + [] == [Item(3, g)];
    assert Items(t) == [Item(1, e), Item(2, f), Item(3, g)];
    var m := MapOf(Items(t));
    assert Items(t)[1] == Item(2, f) && Items(t)[2] == Item(3, g);
    assert IsNext(m, 2, 3);
    forall n | Deleted(m, n, 2, true) ensures 3 in n && n[3] == f && n != m - {2} {
      var next :| IsNext(m, 2, next) && n == (m - {2})[next := m[2]];
      assert next == 3;
      assert 3 in m - {2} && (m - {2})[3] == g;
    }
  }

  lemma ReplacedMap(c: Ctx, t: Tree, item: Item)
    requires t.Br? && item.addr == t.item.addr && Ascending(Items(Plug(c, t)))
    ensures var u := Br(t.id, t.color, item, t.l, t.r);
      && Ascending(Items(Plug(c, u)))
      && MapOf(Items(Plug(c, u))) == MapOf(Items(Plug(c, t)))[item.addr := item.entry]
  {
    ItemsAround(c, t);
    ItemsAround(c, Br(t.id, t.color, item, t.l, t.r));
    MapOfReplace(Before(c) + Items(t.l), t.item, item, Items(t.r) + After(c));
  }

  lemma ReplacedFits(c: Ctx, t: Tree, item: Item)
    requires t.Br? && Sub(Plug(c, t)) && !IsRed(Plug(c, t))
    ensures var w := Plug(c, Br(t.id, t.color, item, t.l, t.r)); Sub(w) && !IsRed(w)
  {
    PlugFits(c, t);
    PlugFits(c, Br(t.id, t.color, item, t.l, t.r));
  }

  lemma PlacedReplaced(m: Mem, c: Ctx, t: Tree, item: Item, nil: Node)
    requires Placed(m, c, t, nil) && t.Br?
    ensures Placed(m[t.id := m[t.id].(item := item)], c, Br(t.id, t.color, item, t.l, t.r), nil)
  {
    var n := m[t.id := m[t.id].(item := item)];
    HangsFrame(m, n, t.l, t.id, nil);
    HangsFrame(m, n, t.r, t.id, nil);
    SurroundsFrame(m, n, c, t.id, nil);
  }

  lemma LowestAtSpine(c: Ctx, t: Tree)
    requires t.Br? && t.l.Leaf? && Spine(c, Top) && Ascending(Items(Plug(c, t)))
    ensures !TwoKids(Plug(c, t), t.item.addr)
    ensures forall a :: a in MapOf(Items(Plug(c, t))) ==> t.item.addr <= a
  {
    SpineBefore(c, Top);
    ItemsAround(c, t);
    SeeksItself(c, t);
    TwoKidsAt(c, t, t.item.addr);
    var s := Items(Plug(c, t));
    assert s[0] == t.item;
    forall a | a in MapOf(s) ensures t.item.addr <= a {
      var i :| 0 <= i < |s| && s[i].addr == a;
      if i > 0 { assert s[0].addr < s[i].addr; }
    }
  }
}
