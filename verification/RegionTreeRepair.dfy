/**
 What the repair loops of rb_insert and rb_delete (MP_Lite/ib.c) do to the tree, and how a
 search goes down it: values alone, for RegionTree.dfy.
 */
module RegionTreeRepair {
  import opened RegionTreeShape

  // ------------------------------------------------------------------ repairing an insertion

  // `t` is red on top and fine in itself; the only thing that may be wrong with the whole
  // is that the node above it is red too (or missing).
  ghost predicate RedAt(c: Ctx, t: Tree)
  {
    IsRed(t) && Sub(t) && CtxFits(c, BlackHeight(t), false)
  }

  // A position with a red node above it also has a black node above that.
  lemma RedParentHasParent(c: Ctx, t: Tree)
    requires RedAt(c, t) && !c.Top? && c.color.Red?
    ensures !c.up.Top? && c.up.color.Black?
  {
    assert CtxFits(c.up, BlackHeight(t), true);
  }

  // Parent and uncle red: both become black, the grandparent red.
  ghost function Flipped(c: Ctx, t: Tree): Tree
    requires !c.Top? && !c.up.Top?
  {
    var parent := Painted(Joined(c, t), Black);
    Painted(Joined(Across(Across(c.up, parent), Painted(Sib(c.up), Black)), parent), Red)
  }

  ghost function MemPainted(m: Mem, n: Node, k: Color): Mem
    requires n in m
  {
    m[n := m[n].(color := k)]
  }

  // What the nodes around a position hold.
  lemma CellsAround(m: Mem, c: Ctx, t: Tree, nil: Node)
    requires Placed(m, c, t, nil)
    ensures t.Br? ==> t.id in m && m[t.id] == Cell(t.color, t.item, ParId(c, nil), TopId(t.l, nil), TopId(t.r, nil))
    ensures !c.Top? ==> c.id in m && c.id != TopId(t, nil)
    ensures c.InL? ==> m[c.id] == Cell(c.color, c.item, ParId(c.up, nil), TopId(t, nil), TopId(c.r, nil))
    ensures c.InR? ==> m[c.id] == Cell(c.color, c.item, ParId(c.up, nil), TopId(c.l, nil), TopId(t, nil))
    ensures !c.Top? && Sib(c).Br? ==> Sib(c).id in m && Sib(c).id != TopId(t, nil) && m[Sib(c).id].color == Sib(c).color
                                      && Sib(c).id != c.id
  {
    if !c.Top? { assert Hangs(m, Sib(c), c.id, nil); }
  }

  lemma PlacedFlipped(m: Mem, c: Ctx, t: Tree, nil: Node)
    requires Placed(m, c, t, nil) && t.Br? && !c.Top? && !c.up.Top? && Sib(c.up).Br?
    ensures c.id in m && c.up.id in m && Sib(c.up).id in m
    ensures TopId(Flipped(c, t), nil) == c.up.id && RootId(c, t.id) == RootId(c.up.up, c.up.id)
    ensures Placed(MemPainted(MemPainted(MemPainted(m, c.id, Black), Sib(c.up).id, Black), c.up.id, Red),
                   c.up.up, Flipped(c, t), nil)
  {
    PlacedJoined(m, c, t, nil);
    CellsAround(m, c.up, Joined(c, t), nil);
    PlacedPainted(m, c.up, Joined(c, t), Black, nil);
    var m1, parent := MemPainted(m, c.id, Black), Painted(Joined(c, t), Black);
    PlacedAcross(m1, c.up, parent, nil);
    var d, u := Across(c.up, parent), Sib(c.up);
    PlacedPainted(m1, d, u, Black, nil);
    var m2 := MemPainted(m1, u.id, Black);
    u := Painted(u, Black);
    PlacedAcross(m2, d, u, nil);
    d := Across(d, u);
    PlacedJoined(m2, d, parent, nil);
    PlacedPainted(m2, d.up, Joined(d, parent), Red, nil);
  }

  // The memory once the parent is painted black and the grandparent red.
  ghost function MemLifted(m: Mem, c: Ctx): Mem
    requires !c.Top? && !c.up.Top? && c.id in m && c.up.id in m
  {
    MemPainted(MemPainted(m, c.id, Black), c.up.id, Red)
  }

  // The tree at the grandparent once the parent is painted black and the grandparent red.
  ghost function ToLift(c: Ctx, t: Tree): Tree
    requires !c.Top? && !c.up.Top?
  {
    Painted(Joined(c.up, Painted(Joined(c, t), Black)), Red)
  }

  lemma PlacedToLift(m: Mem, c: Ctx, t: Tree, nil: Node)
    requires Placed(m, c, t, nil) && !c.Top? && !c.up.Top?
    ensures c.id in m && c.up.id in m
    ensures TopId(ToLift(c, t), nil) == c.up.id && RootId(c, TopId(t, nil)) == RootId(c.up.up, c.up.id)
    ensures Placed(MemLifted(m, c), c.up.up, ToLift(c, t), nil)
  {
    PlacedJoined(m, c, t, nil);
    CellsAround(m, c.up, Joined(c, t), nil);
    PlacedPainted(m, c.up, Joined(c, t), Black, nil);
    var m1, parent := MemPainted(m, c.id, Black), Painted(Joined(c, t), Black);
    PlacedJoined(m1, c.up, parent, nil);
    PlacedPainted(m1, c.up.up, Joined(c.up, parent), Red, nil);
  }

  lemma FlippedRedAt(c: Ctx, t: Tree)
    requires RedAt(c, t) && !c.Top? && c.color.Red? && !c.up.Top? && IsRed(Sib(c.up))
    ensures RedAt(c.up.up, Flipped(c, t))
    ensures Before(c.up.up) + Items(Flipped(c, t)) + After(c.up.up) == Before(c) + Items(t) + After(c)
  {
    JoinedItems(c, t);
    JoinedItems(c.up, Joined(c, t));
    assert CtxFits(c.up, BlackHeight(t), true);
    BlackenedSub(Sib(c.up));
    var parent, u := Painted(Joined(c, t), Black), Painted(Sib(c.up), Black);
    assert Sub(parent) && BlackHeight(parent) == BlackHeight(t) + 1 == BlackHeight(u);
    assert Items(Flipped(c, t)) == Items(Joined(c.up, Joined(c, t)));
  }

  // Parent red, uncle black, `t` on the inner side: rotating the parent moves the
  // offending pair to the outer side.
  ghost function Straightened(c: Ctx, t: Tree): (Ctx, Tree)
    requires !c.Top? && t.Br?
  {
    if c.InR? then
      (InL(c.up, t.id, t.color, t.item, t.r), Br(c.id, c.color, c.item, c.l, t.l))
    else
      (InR(c.up, t.id, t.color, t.item, t.l), Br(c.id, c.color, c.item, t.r, c.r))
  }

  lemma StraightenedRedAt(c: Ctx, t: Tree)
    requires RedAt(c, t) && !c.Top? && c.color.Red?
    ensures var (d, s) := Straightened(c, t); RedAt(d, s) && d.color.Red? && d.up == c.up && d.InL? == c.InR?
    ensures var (d, s) := Straightened(c, t); Before(d) + Items(s) + After(d) == Before(c) + Items(t) + After(c)
  {
    var (d, s) := Straightened(c, t);
    assert CtxFits(c.up, BlackHeight(t), true);
    assert Sub(t.l) && Sub(t.r);
    if c.InR? {
      Shift(Before(c.up), Items(c.l), [c.item], Items(t.l), [t.item], Items(t.r), After(c.up));
    } else {
      Shift(Before(c.up), Items(t.l), [t.item], Items(t.r), [c.item], Items(c.r), After(c.up));
    }
  }

  lemma Shift(a: seq<Item>, o: seq<Item>, x: seq<Item>, l: seq<Item>, y: seq<Item>, r: seq<Item>, z: seq<Item>)
    ensures a + (o + x + l) + (y + r + z) == (a + o + x) + (l + y + r) + z
  {
  }

  // Parent red, uncle black, `t` on the outer side: the parent takes the place of the
  // grandparent.
  ghost function Lifted(c: Ctx): Ctx
    requires !c.Top? && !c.up.Top?
  {
    var g := c.up;
    if c.InL? then
      InL(g.up, c.id, Black, c.item, Br(g.id, Red, g.item, c.r, Sib(g)))
    else
      InR(g.up, c.id, Black, c.item, Br(g.id, Red, g.item, Sib(g), c.l))
  }

  lemma LiftedRedAt(c: Ctx, t: Tree)
    requires RedAt(c, t) && !c.Top? && c.color.Red? && !c.up.Top? && c.InL? == c.up.InL? && !IsRed(Sib(c.up))
    ensures RedAt(Lifted(c), t)
    ensures Before(Lifted(c)) + Items(t) + After(Lifted(c)) == Before(c) + Items(t) + After(c)
  {
    var g, d := c.up, Lifted(c);
    assert CtxFits(g, BlackHeight(t), true);
    assert Sub(Sib(d)) && BlackHeight(Sib(d)) == BlackHeight(t);
    if c.InL? {
      RegroupIn([c.item], Items(Sib(c)), [g.item], Items(Sib(g)), After(g.up));
    } else {
      RegroupIn(Before(g.up), Items(Sib(g)), [g.item], Items(Sib(c)), [c.item]);
    }
  }

  // With a black node above, or none, the whole tree is in order again.
  lemma RedAtDone(c: Ctx, t: Tree)
    requires RedAt(c, t) && (c.Top? || c.color.Black?)
    ensures Sub(Painted(Plug(c, t), Black))
    ensures Items(Painted(Plug(c, t), Black)) == Before(c) + Items(t) + After(c)
  {
    PlugItems(c, t);
    PlugFits(c, t);
    BlackenedSub(Plug(c, t));
  }

  // ------------------------------------------------------------------ searching

  // Everything left of the position lies below `a`, everything right of it above.
  ghost predicate Seeks(c: Ctx, t: Tree, a: Addr)
  {
    && AllBelow(Before(c), a) && AllAbove(After(c), a)
    && Ascending(Before(c) + Items(t) + After(c))
  }

  lemma SidesOf(b: seq<Item>, l: seq<Item>, x: Item, r: seq<Item>, z: seq<Item>)
    requires Ascending(b + (l + [x] + r) + z)
    ensures AllBelow(b + l, x.addr) && AllAbove(r + z, x.addr)
  {
    Widen(b, l, [x], r, z);
    AscendingSplit(b + l, x, r + z);
  }

  lemma AboveCons(x: Item, r: seq<Item>, z: seq<Item>, a: Addr)
    requires a < x.addr && AllAbove(r + z, x.addr)
    ensures AllAbove([x] + r + z, a)
  {
    var v, w := r + z, [x] + r + z;
    assert w == [x] + v;
    forall i | 0 <= i < |w| ensures a < w[i].addr {
      if i > 0 { assert w[i] == v[i - 1]; }
    }
  }

  lemma BelowSnoc(b: seq<Item>, l: seq<Item>, x: Item, a: Addr)
    requires x.addr < a && AllBelow(b + l, x.addr)
    ensures AllBelow(b + l + [x], a)
  {
    var v, w := b + l, b + l + [x];
    forall i | 0 <= i < |w| ensures w[i].addr < a {
      if i < |v| { assert w[i] == v[i]; }
    }
  }

  lemma SeekLeft(c: Ctx, t: Tree, a: Addr)
    requires Seeks(c, t, a) && t.Br? && a < t.item.addr
    ensures Seeks(LeftOf(c, t), t.l, a)
  {
    JoinedItems(LeftOf(c, t), t.l);
    SidesOf(Before(c), Items(t.l), t.item, Items(t.r), After(c));
    AboveCons(t.item, Items(t.r), After(c), a);
  }

  lemma SeekRight(c: Ctx, t: Tree, a: Addr)
    requires Seeks(c, t, a) && t.Br? && t.item.addr < a
    ensures Seeks(RightOf(c, t), t.r, a)
  {
    JoinedItems(RightOf(c, t), t.r);
    SidesOf(Before(c), Items(t.l), t.item, Items(t.r), After(c));
    BelowSnoc(Before(c), Items(t.l), t.item, a);
  }

  lemma SeekMissed(c: Ctx, a: Addr)
    requires Seeks(c, Leaf, a)
    ensures !Holds(Items(Plug(c, Leaf)), a)
  {
    PlugItems(c, Leaf);
    var s := Before(c) + [] + After(c);
    forall i | 0 <= i < |s| ensures s[i].addr != a {
      if i < |Before(c)| { assert s[i] == Before(c)[i]; } else { assert s[i] == After(c)[i - |Before(c)|]; }
    }
  }

  lemma HasItem(c: Ctx, t: Tree)
    requires t.Br?
    ensures Holds(Items(Plug(c, t)), t.item.addr)
    ensures Ascending(Items(Plug(c, t))) ==> MapOf(Items(Plug(c, t)))[t.item.addr] == t.item.entry
  {
    PlugItems(c, t);
    var s := Items(Plug(c, t));
    assert s[|Before(c)| + |Items(t.l)|] == t.item;
  }

  // A new node hung in place of a missing one.
  lemma PlacedAttached(m: Mem, c: Ctx, n: Node, color: Color, item: Item, nil: Node)
    requires Placed(m, c, Leaf, nil) && n !in m && n != nil
    ensures c.Top? || c.id in m
    ensures Placed(Rehung(m[n := Cell(color, item, ParId(c, nil), nil, nil)], c, n),
                   c, Br(n, color, item, Leaf, Leaf), nil)
  {
    var m1 := m[n := Cell(color, item, ParId(c, nil), nil, nil)];
    SurroundsFrame(m, m1, c, nil, nil);
    SurroundsRehung(m1, c, nil, n, nil);
  }

  lemma {:induction false} RootAbove(c: Ctx, hole: Node)
    requires !c.Top?
    ensures RootId(c, hole) in CtxIds(c)
    decreases c
  {
    if c.up.Top? {
    } else {
      RootAbove(c.up, c.id);
    }
  }

  // A new red node hung in its place in a red-black tree leaves nothing wrong but perhaps a
  // red node above it ...
  lemma NewRedAt(c: Ctx, n: Node, item: Item)
    requires RedBlack(Plug(c, Leaf))
    ensures RedAt(c, Br(n, Red, item, Leaf, Leaf))
    ensures Items(Br(n, Red, item, Leaf, Leaf)) == [item]
  {
    PlugFits(c, Leaf);
  }

  // ... and extends the map by its entry.
  lemma NewItem(c: Ctx, item: Item)
    requires Ascending(Items(Plug(c, Leaf))) && Seeks(c, Leaf, item.addr)
    ensures Ascending(Before(c) + [item] + After(c))
    ensures MapOf(Before(c) + [item] + After(c)) == MapOf(Items(Plug(c, Leaf)))[item.addr := item.entry]
  {
    PlugItems(c, Leaf);
    assert Before(c) + [] + After(c) == Before(c) + After(c);
    MapOfInsert(Before(c), item, After(c));
  }

  // ------------------------------------------------------------------ repairing a deletion

  // The subtree `t` is one black node short of what its surroundings expect; painting it
  // black would make it fine in itself, and would settle everything if it is red.
  ghost predicate BlackMissing(c: Ctx, t: Tree)
  {
    Sub(Painted(t, Black)) && CtxFits(c, BlackHeight(t) + 1, false)
  }

  ghost function NearKid(c: Ctx): Tree
    requires !c.Top? && Sib(c).Br?
  {
    if c.InL? then Sib(c).l else Sib(c).r
  }

  ghost function FarKid(c: Ctx): Tree
    requires !c.Top? && Sib(c).Br?
  {
    if c.InL? then Sib(c).r else Sib(c).l
  }

  ghost function WithSib(c: Ctx, s: Tree): Ctx
    requires !c.Top?
  {
    if c.InL? then InL(c.up, c.id, c.color, c.item, s) else InR(c.up, c.id, c.color, c.item, s)
  }

  ghost function WithColor(c: Ctx, k: Color): Ctx
    requires !c.Top?
  {
    if c.InL? then InL(c.up, c.id, k, c.item, c.r) else InR(c.up, c.id, k, c.item, c.l)
  }

  lemma WithSibItems(c: Ctx, s: Tree)
    requires !c.Top? && Items(s) == Items(Sib(c))
    ensures Before(WithSib(c, s)) == Before(c) && After(WithSib(c, s)) == After(c)
  {
  }

  lemma MissingHasSibling(c: Ctx, t: Tree)
    requires BlackMissing(c, t) && !c.Top?
    ensures Sib(c).Br? && Sub(Sib(c)) && Sub(Sib(c).l) && Sub(Sib(c).r)
    ensures BlackHeight(Sib(c)) == BlackHeight(t) + 1
    ensures IsRed(Sib(c)) ==> NearKid(c).Br? && c.color.Black?
  {
  }

  // The sibling is red: it takes its parent's place, above the now red parent.
  ghost function Raised(c: Ctx): Ctx
    requires !c.Top? && Sib(c).Br?
  {
    var s := Sib(c);
    if c.InL? then
      InL(InL(c.up, s.id, Black, s.item, s.r), c.id, Red, c.item, s.l)
    else
      InR(InR(c.up, s.id, Black, s.item, s.l), c.id, Red, c.item, s.r)
  }

  lemma RaisedMissing(c: Ctx, t: Tree)
    requires BlackMissing(c, t) && !c.Top? && IsRed(Sib(c))
    ensures BlackMissing(Raised(c), t) && Sib(Raised(c)).Br? && !IsRed(Sib(Raised(c)))
    ensures Before(Raised(c)) + Items(t) + After(Raised(c)) == Before(c) + Items(t) + After(c)
  {
    MissingHasSibling(c, t);
    var s, d := Sib(c), Raised(c);
    assert CtxFits(d.up, BlackHeight(t) + 1, true);
    if c.InL? {
      RegroupIn([c.item], Items(s.l), [s.item], Items(s.r), After(c.up));
    } else {
      RegroupIn(Before(c.up), Items(s.l), [s.item], Items(s.r), [c.item]);
    }
  }

  // The sibling and both its children are black: painting it red moves the shortage up.
  lemma PassedUpMissing(c: Ctx, t: Tree)
    requires BlackMissing(c, t) && !IsRed(t) && !c.Top? && Sib(c).Br? && !IsRed(Sib(c))
    requires !IsRed(Sib(c).l) && !IsRed(Sib(c).r)
    ensures BlackMissing(c.up, Joined(WithSib(c, Painted(Sib(c), Red)), t))
    ensures Before(c.up) + Items(Joined(WithSib(c, Painted(Sib(c), Red)), t)) + After(c.up)
         == Before(c) + Items(t) + After(c)
  {
    JoinedItems(c, t);
    var s := Painted(Sib(c), Red);
    assert Sub(s) && BlackHeight(s) == BlackHeight(t) && Items(s) == Items(Sib(c));
    var w := Joined(WithSib(c, s), t);
    assert Sub(Painted(w, Black));
    assert BlackHeight(w) == BlackHeight(t) + if c.color.Black? then 1 else 0;
    assert CtxFits(c.up, BlackHeight(w) + 1, c.color.Red?);
  }

  // Only the sibling's near child is red: it takes the sibling's place.
  ghost function Turned(c: Ctx): Ctx
    requires !c.Top? && Sib(c).Br? && NearKid(c).Br?
  {
    var s, n := Sib(c), NearKid(c);
    if c.InL? then
      WithSib(c, Br(n.id, Black, n.item, n.l, Br(s.id, Red, s.item, n.r, s.r)))
    else
      WithSib(c, Br(n.id, Black, n.item, Br(s.id, Red, s.item, s.l, n.l), n.r))
  }

  lemma TurnedMissing(c: Ctx, t: Tree)
    requires BlackMissing(c, t) && !c.Top? && Sib(c).Br? && !IsRed(Sib(c)) && IsRed(NearKid(c)) && !IsRed(FarKid(c))
    ensures BlackMissing(Turned(c), t) && !IsRed(Sib(Turned(c))) && IsRed(FarKid(Turned(c)))
    ensures Before(Turned(c)) + Items(t) + After(Turned(c)) == Before(c) + Items(t) + After(c)
  {
    MissingHasSibling(c, t);
    var s, n, v := Sib(c), NearKid(c), Sib(Turned(c));
    assert Sub(n.l) && Sub(n.r);
    if c.InL? {
      Regroup(Items(n.l), [n.item], Items(n.r), [s.item], Items(s.r));
    } else {
      Regroup(Items(s.l), [s.item], Items(n.l), [n.item], Items(n.r));
    }
    assert Sub(FarKid(Turned(c))) && BlackHeight(FarKid(Turned(c))) == BlackHeight(NearKid(Turned(c)));
    assert Sub(v) && BlackHeight(v) == BlackHeight(s);
    WithSibItems(c, v);
  }

  // The sibling's far child is red: the sibling takes its parent's place and colour, and
  // the shortage is settled.
  ghost function Settled(c: Ctx, t: Tree): Tree
    requires !c.Top? && Sib(c).Br?
  {
    var s := Sib(c);
    if c.InL? then
      Br(s.id, c.color, s.item, Br(c.id, Black, c.item, t, s.l), Painted(s.r, Black))
    else
      Br(s.id, c.color, s.item, Painted(s.l, Black), Br(c.id, Black, c.item, s.r, t))
  }

  lemma SettledFits(c: Ctx, t: Tree)
    requires BlackMissing(c, t) && !IsRed(t) && !c.Top? && Sib(c).Br? && !IsRed(Sib(c)) && IsRed(FarKid(c))
    ensures Sub(Settled(c, t)) && CtxFits(c.up, BlackHeight(Settled(c, t)), IsRed(Settled(c, t)))
    ensures c.up.Top? ==> !IsRed(Settled(c, t))
  {
    MissingHasSibling(c, t);
    BlackenedSub(FarKid(c));
    var w := Settled(c, t);
    assert w.Br? && w.color == c.color;
    assert Sub(w.l) && Sub(w.r) && BlackHeight(w.l) == BlackHeight(t) + 1 && BlackHeight(w.r) == BlackHeight(t) + 1;
    assert CtxFits(c.up, BlackHeight(w), c.color.Red?);
  }

  lemma SettledItems(c: Ctx, t: Tree)
    requires !c.Top? && Sib(c).Br?
    ensures Before(c.up) + Items(Settled(c, t)) + After(c.up) == Before(c) + Items(t) + After(c)
  {
    JoinedItems(c, t);
    var s, x, y := Sib(c), [c.item], [Sib(c).item];
    if c.InL? {
      Regroup(Items(t), x, Items(s.l), y, Items(s.r));
    } else {
      Regroup(Items(s.l), y, Items(s.r), x, Items(t));
    }
  }

  lemma SettledMissing(c: Ctx, t: Tree)
    requires BlackMissing(c, t) && !IsRed(t) && !c.Top? && Sib(c).Br? && !IsRed(Sib(c)) && IsRed(FarKid(c))
    ensures BlackMissing(Top, Plug(c.up, Settled(c, t)))
    ensures Before(Top) + Items(Plug(c.up, Settled(c, t))) + After(Top) == Before(c) + Items(t) + After(c)
  {
    SettledFits(c, t);
    SettledItems(c, t);
    PlugFits(c.up, Settled(c, t));
    PlugItems(c.up, Settled(c, t));
    Unpadded(Items(Plug(c.up, Settled(c, t))));
  }

  lemma Unpadded(s: seq<Item>)
    ensures [] + s + [] == s
  {
  }

  // A shortage at the root, or at a red node, is settled by painting it black.
  lemma MissingDone(c: Ctx, t: Tree)
    requires BlackMissing(c, t) && (c.Top? || IsRed(t))
    ensures Sub(Plug(c, Painted(t, Black))) && !IsRed(Plug(c, Painted(t, Black)))
    ensures Items(Plug(c, Painted(t, Black))) == Before(c) + Items(t) + After(c)
  {
    PlugFits(c, Painted(t, Black));
    PlugItems(c, Painted(t, Black));
    if IsRed(t) { assert BlackHeight(Painted(t, Black)) == BlackHeight(t) + 1; }
  }

  lemma PlacedSibPainted(m: Mem, c: Ctx, t: Tree, k: Color, nil: Node)
    requires Placed(m, c, t, nil) && !c.Top? && Sib(c).Br?
    ensures Sib(c).id in m && Placed(MemPainted(m, Sib(c).id, k), WithSib(c, Painted(Sib(c), k)), t, nil)
  {
    PlacedAcross(m, c, t, nil);
    PlacedPainted(m, Across(c, t), Sib(c), k, nil);
    PlacedAcross(MemPainted(m, Sib(c).id, k), WithSib(c, Painted(Sib(c), k)), t, nil);
  }

  lemma PlacedParPainted(m: Mem, c: Ctx, t: Tree, k: Color, nil: Node)
    requires Placed(m, c, t, nil) && !c.Top?
    ensures c.id in m && Placed(MemPainted(m, c.id, k), WithColor(c, k), t, nil)
  {
    PlacedJoined(m, c, t, nil);
    PlacedPainted(m, c.up, Joined(c, t), k, nil);
    PlacedJoined(MemPainted(m, c.id, k), WithColor(c, k), t, nil);
  }

  // The sibling with one of its children painted; `near` picks the child.
  ghost function KidPainted(c: Ctx, near: bool, k: Color): Tree
    requires !c.Top? && Sib(c).Br?
  {
    var s := Sib(c);
    if near == c.InL? then Br(s.id, s.color, s.item, Painted(s.l, k), s.r)
    else Br(s.id, s.color, s.item, s.l, Painted(s.r, k))
  }

  ghost function Kid(c: Ctx, near: bool): Tree
    requires !c.Top? && Sib(c).Br?
  {
    if near then NearKid(c) else FarKid(c)
  }

  lemma PlacedKidPainted(m: Mem, c: Ctx, t: Tree, near: bool, k: Color, nil: Node)
    requires Placed(m, c, t, nil) && !c.Top? && Sib(c).Br? && Kid(c, near).Br?
    ensures Kid(c, near).id in m
    ensures Placed(MemPainted(m, Kid(c, near).id, k), WithSib(c, KidPainted(c, near, k)), t, nil)
  {
    PlacedAcross(m, c, t, nil);
    var d, s, kid := Across(c, t), Sib(c), Kid(c, near);
    var e := if near == c.InL? then LeftOf(d, s) else RightOf(d, s);
    PlacedJoined(m, e, kid, nil);
    PlacedPainted(m, e, kid, k, nil);
    var m1 := MemPainted(m, kid.id, k);
    PlacedJoined(m1, e, Painted(kid, k), nil);
    PlacedAcross(m1, WithSib(c, KidPainted(c, near, k)), t, nil);
  }

  lemma CellsOfSibling(m: Mem, c: Ctx, t: Tree, nil: Node)
    requires Placed(m, c, t, nil) && !c.Top? && Sib(c).Br?
    ensures Sib(c).id in m && Sib(c).id != c.id
    ensures m[Sib(c).id] == Cell(Sib(c).color, Sib(c).item, c.id, TopId(Sib(c).l, nil), TopId(Sib(c).r, nil))
    ensures Sib(c).l.Br? ==> Sib(c).l.id in m && m[Sib(c).l.id].color == Sib(c).l.color
    ensures Sib(c).r.Br? ==> Sib(c).r.id in m && m[Sib(c).r.id].color == Sib(c).r.color
  {
    PlacedAcross(m, c, t, nil);
    CellsAround(m, Across(c, t), Sib(c), nil);
    assert Hangs(m, Sib(c).l, Sib(c).id, nil) && Hangs(m, Sib(c).r, Sib(c).id, nil);
  }
}
