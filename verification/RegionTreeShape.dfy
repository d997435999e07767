/**
 The shape of the red-black tree that MP_Lite/ib.c keeps its memory registrations in.

 A `Tree` is the value a linked structure of nodes stands for: it remembers which node
 sits where and what that node holds.  A `Ctx` is a tree with one subtree missing, seen
 from the hole outwards, so that `Plug(c, t)` is the whole tree and the pair `(c, t)`
 is a position in it.  The pointer algorithms in RegionTree.dfy work on such a position;
 everything here is about the values alone.
 */
module RegionTreeShape {
  import opened Binary

  type Addr = int       // void*: only compared
  type Handle = nat     // VAPI_mr_hndl_t
  type Rights = set<nat>    // VAPI_mrw_acl_t, a mask of access rights, as the set of its bits

  // The part of VAPI_mrw_t the library looks at.
  datatype Prop = Prop(size: int, acl: Rights)

  datatype Entry = Entry(hndl: Handle, prop: Prop)

  datatype Item = Item(addr: Addr, entry: Entry)

  datatype Color = Red | Black

  // struct rndzv_mr_tree_node_t
  class Node {
    var color: Color
    var addr: Addr
    var hndl: Handle
    var prop: Prop
    var p: Node?
    var left: Node?
    var right: Node?

    constructor (color: Color, addr: Addr, hndl: Handle, prop: Prop, link: Node?)
      ensures this.color == color && this.addr == addr && this.hndl == hndl && this.prop == prop
      ensures p == link && left == link && right == link
    {
      this.color, this.addr, this.hndl, this.prop := color, addr, hndl, prop;
      p, left, right := link, link, link;
    }
  }

  // What one node holds.
  datatype Cell = Cell(color: Color, item: Item, p: Node?, left: Node?, right: Node?)

  datatype Tree = Leaf | Br(id: Node, color: Color, item: Item, l: Tree, r: Tree)

  datatype Ctx =
    | Top
    | InL(up: Ctx, id: Node, color: Color, item: Item, r: Tree)   // the hole is the left child of id
    | InR(up: Ctx, id: Node, color: Color, item: Item, l: Tree)   // the hole is the right child of id

  // One step outwards.
  ghost function Joined(c: Ctx, t: Tree): Tree
    requires !c.Top?
  {
    if c.InL? then Br(c.id, c.color, c.item, t, c.r) else Br(c.id, c.color, c.item, c.l, t)
  }

  ghost function Plug(c: Ctx, t: Tree): Tree
    decreases c
  {
    if c.Top? then t else Plug(c.up, Joined(c, t))
  }

  // The subtree on the other side of the node above the hole.
  ghost function Sib(c: Ctx): Tree
    requires !c.Top?
  {
    if c.InL? then c.r else c.l
  }

  ghost function Depth(c: Ctx): nat
  {
    if c.Top? then 0 else 1 + Depth(c.up)
  }

  // ------------------------------------------------------------------ node sets

  ghost function Ids(t: Tree): set<Node>
  {
    if t.Leaf? then {} else {t.id} + Ids(t.l) + Ids(t.r)
  }

  ghost function CtxIds(c: Ctx): set<Node>
  {
    match c
    case Top => {}
    case InL(up, id, _, _, r) => {id} + Ids(r) + CtxIds(up)
    case InR(up, id, _, _, l) => {id} + Ids(l) + CtxIds(up)
  }

  // No node occurs twice.
  ghost predicate Distinct(t: Tree)
  {
    t.Br? ==>
      && t.id !in Ids(t.l) && t.id !in Ids(t.r) && Ids(t.l) !! Ids(t.r)
      && Distinct(t.l) && Distinct(t.r)
  }

  ghost predicate CtxDistinct(c: Ctx)
  {
    match c
    case Top => true
    case InL(up, id, _, _, s) =>
      id !in Ids(s) && id !in CtxIds(up) && Ids(s) !! CtxIds(up) && Distinct(s) && CtxDistinct(up)
    case InR(up, id, _, _, s) =>
      id !in Ids(s) && id !in CtxIds(up) && Ids(s) !! CtxIds(up) && Distinct(s) && CtxDistinct(up)
  }

  // ------------------------------------------------------------------ layout in memory

  ghost function TopId(t: Tree, nil: Node): Node { if t.Leaf? then nil else t.id }

  ghost function ParId(c: Ctx, nil: Node): Node { if c.Top? then nil else c.id }

  ghost function RootId(c: Ctx, hole: Node): Node
  {
    if c.Top? then hole else RootId(c.up, c.id)
  }

  type Mem = map<Node, Cell>

  // In memory `m` the tree `t` hangs below `par`: its nodes hold what `t` says and are
  // linked as `t` says.
  ghost predicate Hangs(m: Mem, t: Tree, par: Node, nil: Node)
    decreases t
  {
    t.Br? ==>
      && t.id in m && m[t.id] == Cell(t.color, t.item, par, TopId(t.l, nil), TopId(t.r, nil))
      && Hangs(m, t.l, t.id, nil) && Hangs(m, t.r, t.id, nil)
  }

  // In memory `m` the context `c` surrounds `hole`.
  ghost predicate Surrounds(m: Mem, c: Ctx, hole: Node, nil: Node)
    decreases c
  {
    match c
    case Top => true
    case InL(up, id, color, item, s) =>
      && id in m && m[id] == Cell(color, item, ParId(up, nil), hole, TopId(s, nil))
      && Hangs(m, s, id, nil) && Surrounds(m, up, id, nil)
    case InR(up, id, color, item, s) =>
      && id in m && m[id] == Cell(color, item, ParId(up, nil), TopId(s, nil), hole)
      && Hangs(m, s, id, nil) && Surrounds(m, up, id, nil)
  }

  // Memory `m` holds `t` at position `c`, and no node occurs twice.
  ghost predicate Placed(m: Mem, c: Ctx, t: Tree, nil: Node)
  {
    && Distinct(t) && CtxDistinct(c) && Ids(t) !! CtxIds(c)
    && m.Keys == Ids(t) + CtxIds(c) && nil !in m
    && Hangs(m, t, ParId(c, nil), nil) && Surrounds(m, c, TopId(t, nil), nil)
  }

  // Only what its own nodes hold decides whether a tree hangs somewhere.
  lemma {:induction false} HangsFrame(m: Mem, n: Mem, t: Tree, par: Node, nil: Node)
    requires Hangs(m, t, par, nil)
    requires forall k :: k in Ids(t) ==> k in m && k in n && n[k] == m[k]
    ensures Hangs(n, t, par, nil)
  {
    if t.Leaf? {
    } else {
      HangsFrame(m, n, t.l, t.id, nil);
      HangsFrame(m, n, t.r, t.id, nil);
    }
  }

  lemma {:induction false} SurroundsFrame(m: Mem, n: Mem, c: Ctx, hole: Node, nil: Node)
    requires Surrounds(m, c, hole, nil)
    requires forall k :: k in CtxIds(c) ==> k in m && k in n && n[k] == m[k]
    ensures Surrounds(n, c, hole, nil)
    decreases c
  {
    if c.Top? {
    } else {
      HangsFrame(m, n, Sib(c), c.id, nil);
      SurroundsFrame(m, n, c.up, c.id, nil);
    }
  }

  // Hanging something else in the hole changes one link of the node above it.
  ghost function Rehung(m: Mem, c: Ctx, hole: Node): Mem
    requires c.Top? || c.id in m
  {
    match c
    case Top => m
    case InL(_, id, _, _, _) => m[id := m[id].(left := hole)]
    case InR(_, id, _, _, _) => m[id := m[id].(right := hole)]
  }

  lemma SurroundsRehung(m: Mem, c: Ctx, h: Node, g: Node, nil: Node)
    requires Surrounds(m, c, h, nil) && CtxDistinct(c)
    requires forall k :: k in CtxIds(c) ==> k in m
    ensures Surrounds(Rehung(m, c, g), c, g, nil)
  {
    if !c.Top? {
      var n := Rehung(m, c, g);
      HangsFrame(m, n, Sib(c), c.id, nil);
      SurroundsFrame(m, n, c.up, c.id, nil);
    }
  }

  // Hanging a subtree below another node changes the parent link of its top.
  ghost function Reparented(m: Mem, t: Tree, par: Node): Mem
    requires t.Br? ==> t.id in m
  {
    if t.Leaf? then m else m[t.id := m[t.id].(p := par)]
  }

  lemma HangsReparented(m: Mem, t: Tree, p: Node, q: Node, nil: Node)
    requires Hangs(m, t, p, nil) && Distinct(t)
    requires forall k :: k in Ids(t) ==> k in m
    ensures Hangs(Reparented(m, t, q), t, q, nil)
  {
    if t.Br? {
      var n := Reparented(m, t, q);
      HangsFrame(m, n, t.l, t.id, nil);
      HangsFrame(m, n, t.r, t.id, nil);
    }
  }

  // ------------------------------------------------------------------ rotations

  ghost function RotatedLeft(x: Tree): Tree
    requires x.Br? && x.r.Br?
  {
    Br(x.r.id, x.r.color, x.r.item, Br(x.id, x.color, x.item, x.l, x.r.l), x.r.r)
  }

  lemma RotatedLeftIds(x: Tree)
    requires x.Br? && x.r.Br? && Distinct(x)
    ensures Ids(RotatedLeft(x)) == Ids(x) && Distinct(RotatedLeft(x))
  {
    var y := x.r;
    assert Ids(y) == {y.id} + Ids(y.l) + Ids(y.r);
    assert Distinct(y);
    var i := Br(x.id, x.color, x.item, x.l, y.l);
    assert Ids(i) == {x.id} + Ids(x.l) + Ids(y.l);
    assert Distinct(i);
  }

  // The memory after a left rotation of `x`, one assignment at a time.
  ghost function MemRotatedLeft(m: Mem, c: Ctx, x: Tree, nil: Node): Mem
    requires x.Br? && x.r.Br? && x.id in m && x.r.id in m && (x.r.l.Br? ==> x.r.l.id in m) && (c.Top? || c.id in m)
  {
    var m1 := m[x.id := m[x.id].(right := TopId(x.r.l, nil))];
    var m2 := Reparented(m1, x.r.l, x.id);
    var m3 := m2[x.r.id := m2[x.r.id].(p := ParId(c, nil))];
    var m4 := Rehung(m3, c, x.r.id);
    var m5 := m4[x.r.id := m4[x.r.id].(left := x.id)];
    m5[x.id := m5[x.id].(p := x.r.id)]
  }

  // What the nodes around the top of `x` hold before a left rotation.
  ghost predicate ReadyToRotateLeft(m: Mem, c: Ctx, x: Tree, nil: Node)
    requires x.Br? && x.r.Br?
  {
    && x.id in m
    && (x.r.id in m && (x.r.l.Br? ==> x.r.l.id in m) && (c.Top? || c.id in m))
    && (m[x.id] == Cell(x.color, x.item, ParId(c, nil), TopId(x.l, nil), x.r.id))
    && (m[x.r.id] == Cell(x.r.color, x.r.item, x.id, TopId(x.r.l, nil), TopId(x.r.r, nil)))
    && (x.id != x.r.id && (x.r.l.Br? ==> x.r.l.id != x.id && x.r.l.id != x.r.id))
    && (!c.Top? ==> c.id != x.id && c.id != x.r.id && c.id != TopId(x.r.l, nil))
    && (c.InL? ==> m[c.id].left == x.id)
    && (c.InR? ==> m[c.id].left != x.id)
  }

  lemma CellsRotatedLeft(m: Mem, c: Ctx, x: Tree, nil: Node)
    requires Placed(m, c, x, nil) && x.Br? && x.r.Br?
    ensures ReadyToRotateLeft(m, c, x, nil)
  {
    var y, b := x.r, x.r.l;
    assert Hangs(m, y, x.id, nil) && Distinct(y) && Ids(y) <= Ids(x);
    if b.Br? { assert Hangs(m, b, y.id, nil) && b.id in Ids(y); }
  }

  lemma HangsRotatedLeft(m: Mem, c: Ctx, x: Tree, nil: Node)
    requires Placed(m, c, x, nil) && x.Br? && x.r.Br?
    ensures x.r.id in m && (x.r.l.Br? ==> x.r.l.id in m) && (c.Top? || c.id in m)
    ensures Hangs(MemRotatedLeft(m, c, x, nil), RotatedLeft(x), ParId(c, nil), nil)
  {
    var y, b := x.r, x.r.l;
    CellsRotatedLeft(m, c, x, nil);
    var n := MemRotatedLeft(m, c, x, nil);
    assert Hangs(m, y, x.id, nil) && Distinct(y) && Ids(y) <= Ids(x);
    HangsFrame(m, n, x.l, x.id, nil);
    HangsFrame(m, n, y.r, y.id, nil);
    HangsReparented(m, b, y.id, x.id, nil);
    HangsFrame(Reparented(m, b, x.id), n, b, x.id, nil);
  }

  lemma SurroundsRotatedLeft(m: Mem, c: Ctx, x: Tree, nil: Node)
    requires Placed(m, c, x, nil) && x.Br? && x.r.Br?
    ensures x.r.id in m && (x.r.l.Br? ==> x.r.l.id in m) && (c.Top? || c.id in m)
    ensures Surrounds(MemRotatedLeft(m, c, x, nil), c, x.r.id, nil)
  {
    CellsRotatedLeft(m, c, x, nil);
    var n := MemRotatedLeft(m, c, x, nil);
    assert x.r.id in Ids(x) && (x.r.l.Br? ==> x.r.l.id in Ids(x.r)) && Ids(x.r) <= Ids(x);
    SurroundsRehung(m, c, x.id, x.r.id, nil);
    SurroundsFrame(Rehung(m, c, x.r.id), n, c, x.r.id, nil);
  }

  lemma PlacedRotatedLeft(m: Mem, c: Ctx, x: Tree, nil: Node)
    requires Placed(m, c, x, nil) && x.Br? && x.r.Br?
    ensures x.r.id in m && (x.r.l.Br? ==> x.r.l.id in m) && (c.Top? || c.id in m)
    ensures Placed(MemRotatedLeft(m, c, x, nil), c, RotatedLeft(x), nil)
    ensures MemRotatedLeft(m, c, x, nil).Keys == m.Keys
  {
    CellsRotatedLeft(m, c, x, nil);
    RotatedLeftIds(x);
    HangsRotatedLeft(m, c, x, nil);
    SurroundsRotatedLeft(m, c, x, nil);
  }

  ghost function RotatedRight(x: Tree): Tree
    requires x.Br? && x.l.Br?
  {
    Br(x.l.id, x.l.color, x.l.item, x.l.l, Br(x.id, x.color, x.item, x.l.r, x.r))
  }

  lemma RotatedRightIds(x: Tree)
    requires x.Br? && x.l.Br? && Distinct(x)
    ensures Ids(RotatedRight(x)) == Ids(x) && Distinct(RotatedRight(x))
  {
    var y := x.l;
    assert Ids(y) == {y.id} + Ids(y.r) + Ids(y.l);
    assert Distinct(y);
    var i := Br(x.id, x.color, x.item, y.r, x.r);
    assert Ids(i) == {x.id} + Ids(y.r) + Ids(x.r);
    assert Distinct(i);
  }

  // The memory after a right rotation of `x`, one assignment at a time.
  ghost function MemRotatedRight(m: Mem, c: Ctx, x: Tree, nil: Node): Mem
    requires x.Br? && x.l.Br? && x.id in m && x.l.id in m && (x.l.r.Br? ==> x.l.r.id in m) && (c.Top? || c.id in m)
  {
    var m1 := m[x.id := m[x.id].(left := TopId(x.l.r, nil))];
    var m2 := Reparented(m1, x.l.r, x.id);
    var m3 := m2[x.l.id := m2[x.l.id].(p := ParId(c, nil))];
    var m4 := Rehung(m3, c, x.l.id);
    var m5 := m4[x.l.id := m4[x.l.id].(right := x.id)];
    m5[x.id := m5[x.id].(p := x.l.id)]
  }

  // What the nodes around the top of `x` hold before a right rotation.
  ghost predicate ReadyToRotateRight(m: Mem, c: Ctx, x: Tree, nil: Node)
    requires x.Br? && x.l.Br?
  {
    && x.id in m
    && (x.l.id in m && (x.l.r.Br? ==> x.l.r.id in m) && (c.Top? || c.id in m))
    && (m[x.id] == Cell(x.color, x.item, ParId(c, nil), x.l.id, TopId(x.r, nil)))
    && (m[x.l.id] == Cell(x.l.color, x.l.item, x.id, TopId(x.l.l, nil), TopId(x.l.r, nil)))
    && (x.id != x.l.id && (x.l.r.Br? ==> x.l.r.id != x.id && x.l.r.id != x.l.id))
    && (!c.Top? ==> c.id != x.id && c.id != x.l.id && c.id != TopId(x.l.r, nil))
    && (c.InL? ==> m[c.id].right != x.id)
    && (c.InR? ==> m[c.id].right == x.id)
  }

  lemma CellsRotatedRight(m: Mem, c: Ctx, x: Tree, nil: Node)
    requires Placed(m, c, x, nil) && x.Br? && x.l.Br?
    ensures ReadyToRotateRight(m, c, x, nil)
  {
    var y, b := x.l, x.l.r;
    assert Hangs(m, y, x.id, nil) && Distinct(y) && Ids(y) <= Ids(x);
    if b.Br? { assert Hangs(m, b, y.id, nil) && b.id in Ids(y); }
  }

  lemma HangsRotatedRight(m: Mem, c: Ctx, x: Tree, nil: Node)
    requires Placed(m, c, x, nil) && x.Br? && x.l.Br?
    ensures x.l.id in m && (x.l.r.Br? ==> x.l.r.id in m) && (c.Top? || c.id in m)
    ensures Hangs(MemRotatedRight(m, c, x, nil), RotatedRight(x), ParId(c, nil), nil)
  {
    var y, b := x.l, x.l.r;
    CellsRotatedRight(m, c, x, nil);
    var n := MemRotatedRight(m, c, x, nil);
    assert Hangs(m, y, x.id, nil) && Distinct(y) && Ids(y) <= Ids(x);
    HangsFrame(m, n, x.r, x.id, nil);
    HangsFrame(m, n, y.l, y.id, nil);
    HangsReparented(m, b, y.id, x.id, nil);
    HangsFrame(Reparented(m, b, x.id), n, b, x.id, nil);
  }

  lemma SurroundsRotatedRight(m: Mem, c: Ctx, x: Tree, nil: Node)
    requires Placed(m, c, x, nil) && x.Br? && x.l.Br?
    ensures x.l.id in m && (x.l.r.Br? ==> x.l.r.id in m) && (c.Top? || c.id in m)
    ensures Surrounds(MemRotatedRight(m, c, x, nil), c, x.l.id, nil)
  {
    CellsRotatedRight(m, c, x, nil);
    var n := MemRotatedRight(m, c, x, nil);
    assert x.l.id in Ids(x) && (x.l.r.Br? ==> x.l.r.id in Ids(x.l)) && Ids(x.l) <= Ids(x);
    SurroundsRehung(m, c, x.id, x.l.id, nil);
    SurroundsFrame(Rehung(m, c, x.l.id), n, c, x.l.id, nil);
  }

  lemma PlacedRotatedRight(m: Mem, c: Ctx, x: Tree, nil: Node)
    requires Placed(m, c, x, nil) && x.Br? && x.l.Br?
    ensures x.l.id in m && (x.l.r.Br? ==> x.l.r.id in m) && (c.Top? || c.id in m)
    ensures Placed(MemRotatedRight(m, c, x, nil), c, RotatedRight(x), nil)
    ensures MemRotatedRight(m, c, x, nil).Keys == m.Keys
  {
    CellsRotatedRight(m, c, x, nil);
    RotatedRightIds(x);
    HangsRotatedRight(m, c, x, nil);
    SurroundsRotatedRight(m, c, x, nil);
  }

  // ------------------------------------------------------------------ moving and repainting

  ghost function LeftOf(c: Ctx, t: Tree): Ctx
    requires t.Br?
  {
    InL(c, t.id, t.color, t.item, t.r)
  }

  ghost function RightOf(c: Ctx, t: Tree): Ctx
    requires t.Br?
  {
    InR(c, t.id, t.color, t.item, t.l)
  }

  lemma PlacedJoined(m: Mem, c: Ctx, t: Tree, nil: Node)
    requires !c.Top?
    ensures Placed(m, c, t, nil) <==> Placed(m, c.up, Joined(c, t), nil)
  {
    var s := Sib(c);
    assert Ids(Joined(c, t)) == {c.id} + Ids(t) + Ids(s);
    assert CtxIds(c) == {c.id} + Ids(s) + CtxIds(c.up);
  }

  // The position of the sibling of `t`.
  ghost function Across(c: Ctx, t: Tree): Ctx
    requires !c.Top?
  {
    if c.InL? then InR(c.up, c.id, c.color, c.item, t) else InL(c.up, c.id, c.color, c.item, t)
  }

  lemma PlacedAcross(m: Mem, c: Ctx, t: Tree, nil: Node)
    requires !c.Top?
    ensures Placed(m, c, t, nil) <==> Placed(m, Across(c, t), Sib(c), nil)
  {
    PlacedJoined(m, c, t, nil);
    PlacedJoined(m, Across(c, t), Sib(c), nil);
  }

  ghost function Painted(t: Tree, k: Color): Tree
  {
    if t.Leaf? then t else Br(t.id, k, t.item, t.l, t.r)
  }

  lemma PlacedPainted(m: Mem, c: Ctx, t: Tree, k: Color, nil: Node)
    requires Placed(m, c, t, nil) && t.Br?
    ensures Placed(m[t.id := m[t.id].(color := k)], c, Painted(t, k), nil)
  {
    var n := m[t.id := m[t.id].(color := k)];
    HangsFrame(m, n, t.l, t.id, nil);
    HangsFrame(m, n, t.r, t.id, nil);
    SurroundsFrame(m, n, c, t.id, nil);
  }

  // ------------------------------------------------------------------ contents, in order

  ghost function Items(t: Tree): seq<Item>
  {
    if t.Leaf? then [] else Items(t.l) + [t.item] + Items(t.r)
  }

  ghost function Before(c: Ctx): seq<Item>
  {
    match c
    case Top => []
    case InL(up, _, _, _, _) => Before(up)
    case InR(up, _, _, item, l) => Before(up) + Items(l) + [item]
  }

  ghost function After(c: Ctx): seq<Item>
  {
    match c
    case Top => []
    case InL(up, _, _, item, r) => [item] + Items(r) + After(up)
    case InR(up, _, _, _, _) => After(up)
  }

  lemma Regroup(a: seq<Item>, x: seq<Item>, b: seq<Item>, y: seq<Item>, d: seq<Item>)
    ensures (a + x + b) + y + d == a + x + (b + y + d)
  {
  }

  lemma Widen(b: seq<Item>, l: seq<Item>, x: seq<Item>, r: seq<Item>, z: seq<Item>)
    ensures b + (l + x + r) + z == (b + l) + x + (r + z)
  {
  }

  lemma RegroupIn(a: seq<Item>, l: seq<Item>, x: seq<Item>, r: seq<Item>, z: seq<Item>)
    ensures a + l + (x + r + z) == a + (l + x + r) + z == (a + l + x) + r + z
  {
  }

  lemma JoinedFromLeft(c: Ctx, t: Tree)
    requires c.InR?
    ensures Before(c.up) + Items(Joined(c, t)) == Before(c) + Items(t)
  {
  }

  lemma JoinedItems(c: Ctx, t: Tree)
    requires !c.Top?
    ensures Before(c.up) + Items(Joined(c, t)) + After(c.up) == Before(c) + Items(t) + After(c)
  {
    var a, z, i := Before(c.up), After(c.up), [c.item];
    if c.InL? {
      var r := Items(c.r);
      assert a + (Items(t) + i + r) + z == a + Items(t) + (i + r + z);
    } else {
      var l := Items(c.l);
      assert a + (l + i + Items(t)) + z == (a + l + i) + Items(t) + z;
    }
  }

  lemma {:induction false} PlugItems(c: Ctx, t: Tree)
    ensures Items(Plug(c, t)) == Before(c) + Items(t) + After(c)
    decreases c
  {
    if c.Top? {
    } else {
      PlugItems(c.up, Joined(c, t));
      JoinedItems(c, t);
    }
  }

  // Binary-search-tree order: addresses strictly ascend in the in-order walk.
  ghost predicate Ascending(s: seq<Item>)
  {
    forall i, j :: 0 <= i < j < |s| ==> s[i].addr < s[j].addr
  }

  ghost predicate AllBelow(s: seq<Item>, a: Addr) { forall i :: 0 <= i < |s| ==> s[i].addr < a }

  ghost predicate AllAbove(s: seq<Item>, a: Addr) { forall i :: 0 <= i < |s| ==> a < s[i].addr }

  ghost predicate Holds(s: seq<Item>, a: Addr) { exists i :: 0 <= i < |s| && s[i].addr == a }

  lemma AscendingSplit(s: seq<Item>, x: Item, u: seq<Item>)
    ensures Ascending(s + [x] + u) <==> Ascending(s) && Ascending(u) && AllBelow(s, x.addr) && AllAbove(u, x.addr)
  {
    var w := s + [x] + u;
    if Ascending(w) {
      assert forall i :: 0 <= i < |s| ==> w[i] == s[i];
      assert w[|s|] == x;
      assert forall i :: 0 <= i < |u| ==> w[|s| + 1 + i] == u[i];
    }
    if Ascending(s) && Ascending(u) && AllBelow(s, x.addr) && AllAbove(u, x.addr) {
      forall i, j | 0 <= i < j < |w| ensures w[i].addr < w[j].addr {
      }
    }
  }

  // The map an in-order listing stands for.
  ghost function MapOf(s: seq<Item>): (m: map<Addr, Entry>)
    requires Ascending(s)
    ensures forall a :: a in m <==> Holds(s, a)
    ensures forall i :: 0 <= i < |s| ==> s[i].addr in m && m[s[i].addr] == s[i].entry
  {
    map i | 0 <= i < |s| :: s[i].addr := s[i].entry
  }

  lemma {:induction false} MapOfSize(s: seq<Item>)
    requires Ascending(s)
    ensures |MapOf(s)| == |s|
  {
    if s == [] {
    } else {
      var u, x := s[..|s| - 1], s[|s| - 1];
      assert s == u + [x] + [] && u + [] == u;
      MapOfInsert(u, x, []);
      MapOfSize(u);
    }
  }

  lemma AscendingJoin(s: seq<Item>, x: Item, u: seq<Item>)
    requires Ascending(s + u) && AllBelow(s, x.addr) && AllAbove(u, x.addr)
    ensures Ascending(s + [x] + u)
  {
    var v := s + u;
    assert forall i :: 0 <= i < |s| ==> v[i] == s[i];
    assert forall i :: 0 <= i < |u| ==> v[|s| + i] == u[i];
    AscendingSplit(s, x, u);
  }

  lemma HoldsInsert(s: seq<Item>, x: Item, u: seq<Item>, a: Addr)
    ensures Holds(s + [x] + u, a) <==> Holds(s + u, a) || a == x.addr
  {
    var v, w := s + u, s + [x] + u;
    assert w[|s|] == x;
    if Holds(v, a) {
      var i :| 0 <= i < |v| && v[i].addr == a;
      assert w[if i < |s| then i else i + 1] == v[i];
    }
    if Holds(w, a) && a != x.addr {
      var j :| 0 <= j < |w| && w[j].addr == a;
      assert v[if j < |s| then j else j - 1] == w[j];
    }
  }

  // Adding one entry in its place extends the map by exactly that entry; so read from
  // right to left, dropping the entry removes exactly its address.
  lemma MapOfInsert(s: seq<Item>, x: Item, u: seq<Item>)
    requires Ascending(s + u) && AllBelow(s, x.addr) && AllAbove(u, x.addr)
    ensures Ascending(s + [x] + u)
    ensures x.addr !in MapOf(s + u)
    ensures MapOf(s + [x] + u) == MapOf(s + u)[x.addr := x.entry]
    ensures MapOf(s + u) == MapOf(s + [x] + u) - {x.addr}
  {
    AscendingJoin(s, x, u);
    var v, w := s + u, s + [x] + u;
    assert !Holds(v, x.addr);
    assert w[|s|] == x;
    forall a ensures a in MapOf(w) <==> a in MapOf(v) || a == x.addr {
      HoldsInsert(s, x, u, a);
    }
    forall a | a in MapOf(v) ensures a in MapOf(w) && MapOf(w)[a] == MapOf(v)[a] {
      MapOfInsertAt(s, x, u, a);
    }
    MapExtend(MapOf(v), MapOf(w), x.addr, x.entry);
  }

  lemma MapExtend(m: map<Addr, Entry>, n: map<Addr, Entry>, a: Addr, e: Entry)
    requires a !in m && a in n && n[a] == e
    requires forall b :: b in n <==> b in m || b == a
    requires forall b :: b in m ==> b in n && n[b] == m[b]
    ensures n == m[a := e]
    ensures m == n - {a}
  {
    assert forall b :: b in n - {a} <==> b in m;
    var m' := m[a := e];
    assert forall b :: b in m' <==> b in n;
    assert forall b :: b in m' ==> m'[b] == n[b];
  }

  lemma MapOfInsertAt(s: seq<Item>, x: Item, u: seq<Item>, a: Addr)
    requires Ascending(s + u) && Ascending(s + [x] + u) && Holds(s + u, a)
    ensures Holds(s + [x] + u, a) && MapOf(s + [x] + u)[a] == MapOf(s + u)[a]
  {
    var v, w := s + u, s + [x] + u;
    var i :| 0 <= i < |v| && v[i].addr == a;
    assert w[if i < |s| then i else i + 1] == v[i];
  }

  // Replacing the entry at an address updates exactly that address.
  lemma MapOfReplace(s: seq<Item>, x: Item, y: Item, u: seq<Item>)
    requires Ascending(s + [x] + u) && x.addr == y.addr
    ensures Ascending(s + [y] + u)
    ensures MapOf(s + [y] + u) == MapOf(s + [x] + u)[y.addr := y.entry]
  {
    AscendingSplit(s, x, u);
    AscendingSplit(s, y, u);
    assert Ascending(s + u) by {
      forall i, j | 0 <= i < j < |s + u| ensures (s + u)[i].addr < (s + u)[j].addr {
      }
    }
    MapOfInsert(s, x, u);
    MapOfInsert(s, y, u);
  }

  // ------------------------------------------------------------------ colours and balance

  ghost predicate IsRed(t: Tree) { t.Br? && t.color.Red? }

  // Number of black nodes on the leftmost path.
  ghost function BlackHeight(t: Tree): nat
  {
    if t.Leaf? then 0 else BlackHeight(t.l) + if t.color.Black? then 1 else 0
  }

  // Every path down to a leaf passes the same number of black nodes.
  ghost predicate Balanced(t: Tree)
  {
    t.Br? ==> Balanced(t.l) && Balanced(t.r) && BlackHeight(t.l) == BlackHeight(t.r)
  }

  ghost predicate NoRedRed(t: Tree)
  {
    t.Br? ==> NoRedRed(t.l) && NoRedRed(t.r) && (t.color.Red? ==> !IsRed(t.l) && !IsRed(t.r))
  }

  ghost predicate Sub(t: Tree) { Balanced(t) && NoRedRed(t) }

  ghost predicate RedBlack(t: Tree) { Sub(t) && !IsRed(t) && Ascending(Items(t)) }

  // `c` is what is left of a red-black tree when a subtree of black height `h` whose root
  // is red or not according to `red` is cut out of it.
  ghost predicate CtxFits(c: Ctx, h: nat, red: bool)
    decreases c
  {
    !c.Top? ==>
      && Sub(Sib(c)) && BlackHeight(Sib(c)) == h
      && (c.color.Red? ==> !red && !IsRed(Sib(c)) && !c.up.Top?)
      && CtxFits(c.up, h + (if c.color.Black? then 1 else 0), c.color.Red?)
  }

  // Cutting a red-black tree at any position yields a valid subtree and a context that fits
  // it, and conversely.
  lemma {:induction false} PlugFits(c: Ctx, t: Tree)
    ensures Sub(Plug(c, t)) && !IsRed(Plug(c, t)) <==>
            Sub(t) && CtxFits(c, BlackHeight(t), IsRed(t)) && (c.Top? ==> !IsRed(t))
    decreases c
  {
    if c.Top? {
    } else {
      PlugFits(c.up, Joined(c, t));
    }
  }

  lemma BlackenedSub(t: Tree)
    requires Sub(t)
    ensures Sub(Painted(t, Black)) && Items(Painted(t, Black)) == Items(t)
    ensures BlackHeight(Painted(t, Black)) == BlackHeight(t) + if IsRed(t) then 1 else 0
  {
    if t.Br? { assert Sub(t.l) && Sub(t.r); }
  }

  // ------------------------------------------------------------------ height

  ghost function Height(t: Tree): nat
  {
    if t.Leaf? then 0 else 1 + if Height(t.l) < Height(t.r) then Height(t.r) else Height(t.l)
  }

  lemma {:induction false} BlackHeightBound(t: Tree)
    requires Sub(t)
    ensures Pow2(BlackHeight(t)) <= |Items(t)| + 1
    ensures Height(t) <= 2 * BlackHeight(t) + if IsRed(t) then 1 else 0
  {
    if t.Leaf? {
    } else {
      BlackHeightBound(t.l);
      BlackHeightBound(t.r);
    }
  }

  lemma HeightBound(t: Tree)
    requires Sub(t) && !IsRed(t)
    ensures Height(t) <= 2 * Log2(|Items(t)| + 1)
  {
    BlackHeightBound(t);
    Log2Bound(BlackHeight(t), |Items(t)| + 1);
  }

  // The height of a red-black tree that stands for a map of n entries is at most
  // 2 * log2(n + 1).
  lemma HeightLogarithmic(t: Tree, m: map<Addr, Entry>)
    requires RedBlack(t) && m == MapOf(Items(t))
    ensures Height(t) <= 2 * Log2(|m| + 1)
  {
    HeightBound(t);
    MapOfSize(Items(t));
  }
}
