/**
 The pointer red-black tree of MP_Lite/ib.c: searching, inserting and deleting with parent
 links and one shared sentinel node.

 Every method takes the position it works at as a ghost pair `(c, t)` and says at which
 position the heap is afterwards.
 */
module RegionTree {
  import opened Binary
  import opened RegionTreeShape
  import opened RegionTreeRepair
  import opened RegionTreeDeletion

  // The heap holds what `m` says.
  ghost predicate Stored(m: Mem)
    reads m.Keys
  {
    && (forall n {:trigger n.color} :: n in m ==> n.color == m[n].color)
    && (forall n {:trigger n.p} :: n in m ==> n.p == m[n].p)
    && (forall n {:trigger n.left} :: n in m ==> n.left == m[n].left)
    && (forall n {:trigger n.right} :: n in m ==> n.right == m[n].right)
    && (forall n {:trigger n.addr} :: n in m ==> n.addr == m[n].item.addr)
    && (forall n {:trigger n.hndl} :: n in m ==> n.hndl == m[n].item.entry.hndl)
    && (forall n {:trigger n.prop} :: n in m ==> n.prop == m[n].item.entry.prop)
  }

  class RbTree {
    const nil: Node     // nilnode
    var root: Node      // rndzv_mr_tree_root
    ghost var shape: Tree                  // the tree the nodes form
    ghost var mem: Mem                     // what the nodes hold
    ghost var entries: map<Addr, Entry>    // the map the tree stands for

    ghost predicate At(c: Ctx, t: Tree)
      reads this, nil, mem.Keys
    {
      && nil.color.Black?
      && Placed(mem, c, t, nil)
      && root == RootId(c, TopId(t, nil))
      && Stored(mem)
    }

    ghost predicate Valid()
      reads this, nil, mem.Keys
    {
      At(Top, shape) && RedBlack(shape) && entries == MapOf(Items(shape))
    }

    constructor ()
      ensures Valid() && entries == map[] && mem == map[] && fresh(nil)
    {
      var sentinel := new Node(Black, 0, 0, Prop(0, {}), null);
      nil, root, shape, mem, entries := sentinel, sentinel, Leaf, map[], map[];
    }

    // ---------------------------------------------------------------- single assignments

    // What stays as it is in every step of an algorithm but the ones that say otherwise.
    twostate predicate Kept()
      reads this, nil
    {
      nil.color == old(nil.color) && nil.p == old(nil.p) && mem.Keys == old(mem.Keys)
    }

    method SetLeft(n: Node, v: Node?)
      requires Stored(mem) && n in mem && nil !in mem
      modifies n`left, `mem
      ensures mem == old(mem)[n := old(mem)[n].(left := v)] && Stored(mem) && Kept() && root == old(root)
    {
      n.left := v;
      mem := mem[n := mem[n].(left := v)];
    }

    method SetRight(n: Node, v: Node?)
      requires Stored(mem) && n in mem && nil !in mem
      modifies n`right, `mem
      ensures mem == old(mem)[n := old(mem)[n].(right := v)] && Stored(mem) && Kept() && root == old(root)
    {
      n.right := v;
      mem := mem[n := mem[n].(right := v)];
    }

    method SetParent(n: Node, v: Node?)
      requires Stored(mem) && n in mem && nil !in mem
      modifies n`p, `mem
      ensures mem == old(mem)[n := old(mem)[n].(p := v)] && Stored(mem) && Kept() && root == old(root)
    {
      n.p := v;
      mem := mem[n := mem[n].(p := v)];
    }

    ghost function Above(c: Ctx): set<Node> { if c.Top? then {} else {c.id} }

    // Hang `repl` where `node` hung below `par`.
    method Replace(node: Node, par: Node?, repl: Node, ghost c: Ctx)
      requires Stored(mem) && nil !in mem && par == ParId(c, nil) && (c.Top? || c.id in mem)
      requires c.InL? ==> mem[c.id].left == node
      requires c.InR? ==> mem[c.id].left != node
      modifies `root, `mem, Above(c)`left, Above(c)`right
      ensures Stored(mem) && mem == Rehung(old(mem), c, repl) && Kept()
      ensures root == if c.Top? then repl else old(root)
    {
      if par == nil {
        root := repl;
      } else if node == par.left {
        SetLeft(par, repl);
      } else {
        SetRight(par, repl);
      }
    }

    // node->color = k
    method Paint(node: Node, k: Color, ghost c: Ctx, ghost t: Tree)
      requires At(c, t) && t.Br? && node == t.id
      modifies node`color, `mem
      ensures At(c, Painted(t, k)) && Kept()
    {
      PlacedPainted(mem, c, t, k, nil);
      node.color := k;
      mem := mem[node := mem[node].(color := k)];
    }

    // ---------------------------------------------------------------- moving a position

    lemma Out(c: Ctx, t: Tree)
      requires !c.Top?
      ensures At(c, t) <==> At(c.up, Joined(c, t))
    {
      PlacedJoined(mem, c, t, nil);
    }

    lemma Over(c: Ctx, t: Tree)
      requires !c.Top?
      ensures At(c, t) <==> At(Across(c, t), Sib(c))
    {
      PlacedAcross(mem, c, t, nil);
    }

    lemma {:induction false} AllOut(c: Ctx, t: Tree)
      ensures At(c, t) <==> At(Top, Plug(c, t))
      decreases c
    {
      if c.Top? {
      } else {
        Out(c, t);
        AllOut(c.up, Joined(c, t));
      }
    }

    // ---------------------------------------------------------------- rotations

    method LeftRotate(node: Node, ghost c: Ctx, ghost x: Tree)
      requires At(c, x) && x.Br? && x.r.Br? && node == x.id
      modifies `root, `mem, mem.Keys
      ensures At(c, RotatedLeft(x)) && Kept()
    {
      CellsRotatedLeft(mem, c, x, nil);
      PlacedRotatedLeft(mem, c, x, nil);
      RelinkLeft(node, c, x);
    }

    // The assignments of left_rotate.
    method RelinkLeft(node: Node, ghost c: Ctx, ghost x: Tree)
      requires x.Br? && x.r.Br? && node == x.id && Stored(mem) && nil !in mem
      requires ReadyToRotateLeft(mem, c, x, nil) && root == RootId(c, x.id)
      modifies `root, `mem, mem.Keys
      ensures mem == MemRotatedLeft(old(mem), c, x, nil) && Stored(mem)
      ensures nil.color == old(nil.color) && nil.p == old(nil.p)
      ensures root == RootId(c, x.r.id)
    {
      var rchild := node.right;
      SetRight(node, rchild.left);

      if rchild.left != nil {
        SetParent(rchild.left, node);
      }

      SetParent(rchild, node.p);
      Replace(node, node.p, rchild, c);
      SetLeft(rchild, node);
      SetParent(node, rchild);
    }

    method RightRotate(node: Node, ghost c: Ctx, ghost x: Tree)
      requires At(c, x) && x.Br? && x.l.Br? && node == x.id
      modifies `root, `mem, mem.Keys
      ensures At(c, RotatedRight(x)) && Kept()
    {
      CellsRotatedRight(mem, c, x, nil);
      PlacedRotatedRight(mem, c, x, nil);
      RelinkRight(node, c, x);
    }

    // The assignments of right_rotate.
    method RelinkRight(node: Node, ghost c: Ctx, ghost x: Tree)
      requires x.Br? && x.l.Br? && node == x.id && Stored(mem) && nil !in mem
      requires ReadyToRotateRight(mem, c, x, nil) && root == RootId(c, x.id)
      modifies `root, `mem, mem.Keys
      ensures mem == MemRotatedRight(old(mem), c, x, nil) && Stored(mem)
      ensures nil.color == old(nil.color) && nil.p == old(nil.p)
      ensures root == RootId(c, x.l.id)
    {
      var lchild := node.left;
      SetLeft(node, lchild.right);

      if lchild.right != nil {
        SetParent(lchild.right, node);
      }

      SetParent(lchild, node.p);
      ReplaceR(node, node.p, lchild, c);
      SetRight(lchild, node);
      SetParent(node, lchild);
    }

    // The same with the right link looked at first.
    method ReplaceR(node: Node, par: Node?, repl: Node, ghost c: Ctx)
      requires Stored(mem) && nil !in mem && par == ParId(c, nil) && (c.Top? || c.id in mem)
      requires c.InR? ==> mem[c.id].right == node
      requires c.InL? ==> mem[c.id].right != node
      modifies `root, `mem, Above(c)`left, Above(c)`right
      ensures Stored(mem) && mem == Rehung(old(mem), c, repl) && Kept()
      ensures root == if c.Top? then repl else old(root)
    {
      if par == nil {
        root := repl;
      } else if node == par.right {
        SetRight(par, repl);
      } else {
        SetLeft(par, repl);
      }
    }

    method SetColor(n: Node, v: Color)
      requires Stored(mem) && n in mem && nil !in mem
      modifies n`color, `mem
      ensures mem == MemPainted(old(mem), n, v) && Stored(mem) && Kept() && root == old(root)
    {
      n.color := v;
      mem := mem[n := mem[n].(color := v)];
    }

    // ---------------------------------------------------------------- insertion

    // Parent and uncle are red: paint both black and the grandparent red, and go on there.
    method FlipColors(node: Node, uncle: Node, ghost c: Ctx, ghost t: Tree) returns (next: Node)
      requires At(c, t) && t.Br? && node == t.id && !c.Top? && !c.up.Top?
      requires Sib(c.up).Br? && uncle == Sib(c.up).id
      modifies `mem, mem.Keys
      ensures At(c.up.up, Flipped(c, t)) && next == Flipped(c, t).id && Kept()
    {
      CellsAround(mem, c, t, nil);
      PlacedJoined(mem, c, t, nil);
      CellsAround(mem, c.up, Joined(c, t), nil);
      PlacedFlipped(mem, c, t, nil);
      SetColor(node.p, Black);
      SetColor(uncle, Black);
      SetColor(node.p.p, Red);
      next := node.p.p;
    }

    // Paint the parent black and the grandparent red.
    method PaintToLift(node: Node, ghost c: Ctx, ghost t: Tree)
      requires At(c, t) && t.Br? && node == t.id && !c.Top? && !c.up.Top?
      modifies `mem, mem.Keys
      ensures At(c.up.up, ToLift(c, t)) && Kept()
      ensures node.p == c.id && c.id.p == c.up.id
    {
      CellsAround(mem, c, t, nil);
      PlacedJoined(mem, c, t, nil);
      CellsAround(mem, c.up, Joined(c, t), nil);
      PlacedToLift(mem, c, t, nil);
      SetColor(node.p, Black);
      SetColor(node.p.p, Red);
    }

    // The uncle is black and the parent a left child.
    method SettleLeft(start: Node, ghost c0: Ctx, ghost t0: Tree) returns (node: Node, ghost c: Ctx, ghost t: Tree)
      requires At(c0, t0) && RedAt(c0, t0) && start == t0.id && !c0.Top? && c0.color.Red?
      requires c0.up.InL? && !IsRed(Sib(c0.up))
      modifies `root, `mem, mem.Keys
      ensures At(c, t) && RedAt(c, t) && node == t.id && Kept()
      ensures Before(c) + Items(t) + After(c) == Before(c0) + Items(t0) + After(c0)
      ensures c.InL? && c.color.Black?
    {
      node, c, t := start, c0, t0;
      CellsAround(mem, c, t, nil);
      if node == node.p.right {
        node := node.p;
        StraightenedRedAt(c, t);
        Out(c, t);
        LeftRotate(node, c.up, Joined(c, t));
        ghost var next := Straightened(c, t);
        c, t := next.0, next.1;
        Out(c, t);
      }
      LiftedRedAt(c, t);
      PaintToLift(node, c, t);
      RightRotate(node.p.p, c.up.up, ToLift(c, t));
      c := Lifted(c);
      Out(c, t);
    }

    method SettleRight(start: Node, ghost c0: Ctx, ghost t0: Tree) returns (node: Node, ghost c: Ctx, ghost t: Tree)
      requires At(c0, t0) && RedAt(c0, t0) && start == t0.id && !c0.Top? && c0.color.Red?
      requires c0.up.InR? && !IsRed(Sib(c0.up))
      modifies `root, `mem, mem.Keys
      ensures At(c, t) && RedAt(c, t) && node == t.id && Kept()
      ensures Before(c) + Items(t) + After(c) == Before(c0) + Items(t0) + After(c0)
      ensures c.InR? && c.color.Black?
    {
      node, c, t := start, c0, t0;
      CellsAround(mem, c, t, nil);
      if node == node.p.left {
        node := node.p;
        StraightenedRedAt(c, t);
        Out(c, t);
        RightRotate(node, c.up, Joined(c, t));
        ghost var next := Straightened(c, t);
        c, t := next.0, next.1;
        Out(c, t);
      }
      LiftedRedAt(c, t);
      PaintToLift(node, c, t);
      LeftRotate(node.p.p, c.up.up, ToLift(c, t));
      c := Lifted(c);
      Out(c, t);
    }

    // The node below which `addr` belongs.
    method FindPlace(addr: Addr) returns (par: Node, ghost c: Ctx)
      requires Valid() && !Holds(Items(shape), addr)
      ensures At(c, Leaf) && Seeks(c, Leaf, addr) && Plug(c, Leaf) == shape
      ensures par == ParId(c, nil)
      ensures !c.Top? ==> c.id.addr == c.item.addr && (c.InL? <==> addr < c.item.addr)
    {
      var cur := root;
      par := nil;
      ghost var t := shape;
      c := Top;
      SeeksFromTop(shape, addr);
      while cur != nil
        invariant At(c, t) && cur == TopId(t, nil) && par == ParId(c, nil)
        invariant Seeks(c, t, addr) && Plug(c, t) == shape
        invariant !c.Top? ==> (c.InL? <==> addr < c.item.addr)
        decreases t
      {
        par := cur;
        CellsAround(mem, c, t, nil);
        HasItem(c, t);
        if addr < cur.addr {
          cur := cur.left;
          SeekLeft(c, t, addr);
          c, t := LeftOf(c, t), t.l;
        } else {
          cur := cur.right;
          SeekRight(c, t, addr);
          c, t := RightOf(c, t), t.r;
        }
        Out(c, t);
      }
      CellsAround(mem, c, t, nil);
    }

    method TreeInsert(newnode: Node) returns (ghost c: Ctx)
      requires Valid() && newnode !in mem && newnode != nil
      requires newnode.left == nil && newnode.right == nil
      requires !Holds(Items(shape), newnode.addr)
      modifies `root, `mem, mem.Keys, newnode`p
      ensures nil.color == old(nil.color) && nil.p == old(nil.p) && mem.Keys == old(mem.Keys) + {newnode}
      ensures At(c, Br(newnode, newnode.color, Item(newnode.addr, Entry(newnode.hndl, newnode.prop)), Leaf, Leaf))
      ensures Seeks(c, Leaf, newnode.addr) && Plug(c, Leaf) == shape == old(shape)
    {
      var par;
      par, c := FindPlace(newnode.addr);
      Attach(newnode, par, c);
    }

    // newnode->p = par
    method Enter(newnode: Node, par: Node)
      requires Stored(mem) && nil !in mem && newnode !in mem && newnode != nil
      requires newnode.left == nil && newnode.right == nil
      modifies `mem, newnode`p
      ensures Stored(mem) && nil.color == old(nil.color) && nil.p == old(nil.p) && root == old(root)
      ensures mem == old(mem)[newnode :=
        Cell(newnode.color, Item(newnode.addr, Entry(newnode.hndl, newnode.prop)), par, nil, nil)]
    {
      newnode.p := par;
      mem := mem[newnode := Cell(newnode.color, Item(newnode.addr, Entry(newnode.hndl, newnode.prop)), par, nil, nil)];
    }

    // Hang the new node below `par`.
    method Attach(newnode: Node, par: Node, ghost c: Ctx)
      requires At(c, Leaf) && newnode !in mem && newnode != nil && par == ParId(c, nil)
      requires newnode.left == nil && newnode.right == nil
      requires !c.Top? ==> c.id.addr == c.item.addr && (c.InL? <==> newnode.addr < c.item.addr)
      modifies `root, `mem, mem.Keys, newnode`p
      ensures At(c, Br(newnode, newnode.color, Item(newnode.addr, Entry(newnode.hndl, newnode.prop)), Leaf, Leaf))
      ensures nil.color == old(nil.color) && nil.p == old(nil.p) && mem.Keys == old(mem.Keys) + {newnode}
    {
      ghost var item := Item(newnode.addr, Entry(newnode.hndl, newnode.prop));
      PlacedAttached(mem, c, newnode, newnode.color, item, nil);
      Enter(newnode, par);
      if par == nil {
        root := newnode;
      } else if newnode.addr < par.addr {
        SetLeft(par, newnode);
      } else {
        SetRight(par, newnode);
      }
    }

    // One round of the repair loop of rb_insert.
    method RepairInsert(start: Node, ghost c0: Ctx, ghost t0: Tree) returns (node: Node, ghost c: Ctx, ghost t: Tree)
      requires At(c0, t0) && RedAt(c0, t0) && start == t0.id && !c0.Top? && c0.color.Red?
      modifies `root, `mem, mem.Keys
      ensures At(c, t) && RedAt(c, t) && node == t.id && Kept()
      ensures Before(c) + Items(t) + After(c) == Before(c0) + Items(t0) + After(c0)
      ensures (!c.Top? && c.color.Black?) || Depth(c) < Depth(c0)
    {
      RedParentHasParent(c0, t0);
      node, c, t := start, c0, t0;
      PlacedJoined(mem, c, t, nil);
      CellsAround(mem, c, t, nil);
      CellsAround(mem, c.up, Joined(c, t), nil);
      if node.p == node.p.p.left {
        var uncle := node.p.p.right;
        if uncle.color == Red {
          FlippedRedAt(c, t);
          node := FlipColors(node, uncle, c, t);
          c, t := c.up.up, Flipped(c, t);
        } else {
          node, c, t := SettleLeft(node, c, t);
        }
      } else {
        var uncle := node.p.p.left;
        if uncle.color == Red {
          FlippedRedAt(c, t);
          node := FlipColors(node, uncle, c, t);
          c, t := c.up.up, Flipped(c, t);
        } else {
          node, c, t := SettleRight(node, c, t);
        }
      }
    }

    // The repair loop of rb_insert and the assignment after it.
    method RedFixup(start: Node, ghost c0: Ctx, ghost t0: Tree)
      requires At(c0, t0) && RedAt(c0, t0) && start == t0.id
      requires Ascending(Before(c0) + Items(t0) + After(c0))
      modifies this, mem.Keys
      ensures Valid() && Items(shape) == Before(c0) + Items(t0) + After(c0) && Kept()
    {
      var node := start;
      ghost var c, t := c0, t0;
      while node != root && node.p.color == Red
        invariant At(c, t) && RedAt(c, t) && node == t.id && Kept()
        invariant Before(c) + Items(t) + After(c) == Before(c0) + Items(t0) + After(c0)
        decreases if c.Top? || c.color.Black? then 0 else 1 + Depth(c)
      {
        CellsAround(mem, c, t, nil);
        node, c, t := RepairInsert(node, c, t);
      }
      CellsAround(mem, c, t, nil);
      if !c.Top? { RootAbove(c, t.id); }
      FinishInsert(c, t);
    }

    method RbInsert(newnode: Node)
      requires Valid() && newnode !in mem && newnode != nil
      requires newnode.left == nil && newnode.right == nil
      requires !Holds(Items(shape), newnode.addr)
      modifies this, mem.Keys, newnode
      ensures Valid() && mem.Keys == old(mem.Keys) + {newnode} && nil.p == old(nil.p)
      ensures entries == old(entries[newnode.addr := Entry(newnode.hndl, newnode.prop)])
    {
      ghost var item := Item(newnode.addr, Entry(newnode.hndl, newnode.prop));
      ghost var c := TreeInsert(newnode);
      NewRedAt(c, newnode, item);
      NewItem(c, item);
      ghost var t := Br(newnode, newnode.color, item, Leaf, Leaf);
      Paint(newnode, Red, c, t);
      t := Painted(t, Red);
      RedFixup(newnode, c, t);
    }

    // The last assignment of rb_insert.
    method FinishInsert(ghost c: Ctx, ghost t: Tree)
      requires At(c, t) && RedAt(c, t) && (c.Top? || c.color.Black?)
      requires Ascending(Before(c) + Items(t) + After(c))
      modifies this, mem.Keys
      ensures Valid() && Items(shape) == Before(c) + Items(t) + After(c) && Kept()
    {
      ghost var w := Plug(c, t);
      RedAtDone(c, t);
      AllOut(c, t);
      Paint(root, Black, Top, w);
      Adopt(Painted(w, Black));
    }

    // From here on the tree is `t`.
    ghost method Adopt(t: Tree)
      requires At(Top, t) && RedBlack(t)
      modifies `shape, `entries
      ensures Valid() && shape == t
    {
      shape, entries := t, MapOf(Items(t));
    }

    // ---------------------------------------------------------------- deletion

    // The single assignments of the repair loop, by the place of the node they paint.
    method PaintSibling(s: Node, k: Color, ghost c: Ctx, ghost t: Tree)
      requires At(c, t) && !c.Top? && Sib(c).Br? && s == Sib(c).id
      modifies `mem, mem.Keys
      ensures At(WithSib(c, Painted(Sib(c), k)), t) && Kept()
    {
      PlacedSibPainted(mem, c, t, k, nil);
      SetColor(s, k);
    }

    method PaintParent(par: Node, k: Color, ghost c: Ctx, ghost t: Tree)
      requires At(c, t) && !c.Top? && par == c.id
      modifies `mem, mem.Keys
      ensures At(WithColor(c, k), t) && Kept()
    {
      PlacedParPainted(mem, c, t, k, nil);
      SetColor(par, k);
    }

    method PaintKid(n: Node, near: bool, k: Color, ghost c: Ctx, ghost t: Tree)
      requires At(c, t) && !c.Top? && Sib(c).Br? && Kid(c, near).Br? && n == Kid(c, near).id
      modifies `mem, mem.Keys
      ensures At(WithSib(c, KidPainted(c, near, k)), t) && Kept()
    {
      PlacedKidPainted(mem, c, t, near, k, nil);
      SetColor(n, k);
    }

    // `node` stands for the subtree at a position where a black node is missing; when it is
    // the sentinel, its parent link says where.
    ghost predicate ShortAt(node: Node, c: Ctx, t: Tree)
      reads this, nil, mem.Keys
    {
      At(c, t) && BlackMissing(c, t) && node == TopId(t, nil) && (t.Leaf? && !c.Top? ==> nil.p == c.id)
    }

    method RaiseRight(sibling: Node, par: Node, ghost c: Ctx, ghost t: Tree)
      requires At(c, t) && c.InL? && Sib(c).Br? && NearKid(c).Br? && sibling == Sib(c).id && par == c.id
      modifies `root, `mem, mem.Keys
      ensures At(Raised(c), t) && Kept()
    {
      PaintSibling(sibling, Black, c, t);
      ghost var d := WithSib(c, Painted(Sib(c), Black));
      PaintParent(par, Red, d, t);
      d := WithColor(d, Red);
      Out(d, t);
      LeftRotate(par, d.up, Joined(d, t));
      Out(Raised(c).up, Joined(Raised(c), t));
      Out(Raised(c), t);
    }

    method RaiseLeft(sibling: Node, par: Node, ghost c: Ctx, ghost t: Tree)
      requires At(c, t) && c.InR? && Sib(c).Br? && NearKid(c).Br? && sibling == Sib(c).id && par == c.id
      modifies `root, `mem, mem.Keys
      ensures At(Raised(c), t) && Kept()
    {
      PaintSibling(sibling, Black, c, t);
      ghost var d := WithSib(c, Painted(Sib(c), Black));
      PaintParent(par, Red, d, t);
      d := WithColor(d, Red);
      Out(d, t);
      RightRotate(par, d.up, Joined(d, t));
      Out(Raised(c).up, Joined(Raised(c), t));
      Out(Raised(c), t);
    }

    method TurnRight(sibling: Node, ghost c: Ctx, ghost t: Tree)
      requires At(c, t) && c.InL? && Sib(c).Br? && NearKid(c).Br? && sibling == Sib(c).id
      modifies `root, `mem, mem.Keys
      ensures At(Turned(c), t) && Kept()
    {
      CellsOfSibling(mem, c, t, nil);
      PaintKid(sibling.left, true, Black, c, t);
      ghost var d := WithSib(c, KidPainted(c, true, Black));
      PaintSibling(sibling, Red, d, t);
      d := WithSib(d, Painted(Sib(d), Red));
      Over(d, t);
      RightRotate(sibling, Across(d, t), Sib(d));
      Over(Turned(c), t);
    }

    method TurnLeft(sibling: Node, ghost c: Ctx, ghost t: Tree)
      requires At(c, t) && c.InR? && Sib(c).Br? && NearKid(c).Br? && sibling == Sib(c).id
      modifies `root, `mem, mem.Keys
      ensures At(Turned(c), t) && Kept()
    {
      CellsOfSibling(mem, c, t, nil);
      PaintKid(sibling.right, true, Black, c, t);
      ghost var d := WithSib(c, KidPainted(c, true, Black));
      PaintSibling(sibling, Red, d, t);
      d := WithSib(d, Painted(Sib(d), Red));
      Over(d, t);
      LeftRotate(sibling, Across(d, t), Sib(d));
      Over(Turned(c), t);
    }

    method CloseRight(sibling: Node, par: Node, ghost c: Ctx, ghost t: Tree)
      requires At(c, t) && c.InL? && Sib(c).Br? && FarKid(c).Br? && sibling == Sib(c).id && par == c.id
      modifies `root, `mem, mem.Keys
      ensures At(c.up, Settled(c, t)) && Kept()
    {
      CellsAround(mem, c, t, nil);
      CellsOfSibling(mem, c, t, nil);
      PaintSibling(sibling, par.color, c, t);
      ghost var d := WithSib(c, Painted(Sib(c), c.color));
      PaintParent(par, Black, d, t);
      d := WithColor(d, Black);
      CellsOfSibling(mem, d, t, nil);
      PaintKid(sibling.right, false, Black, d, t);
      d := WithSib(d, KidPainted(d, false, Black));
      Out(d, t);
      LeftRotate(par, d.up, Joined(d, t));
    }

    method CloseLeft(sibling: Node, par: Node, ghost c: Ctx, ghost t: Tree)
      requires At(c, t) && c.InR? && Sib(c).Br? && FarKid(c).Br? && sibling == Sib(c).id && par == c.id
      modifies `root, `mem, mem.Keys
      ensures At(c.up, Settled(c, t)) && Kept()
    {
      CellsAround(mem, c, t, nil);
      CellsOfSibling(mem, c, t, nil);
      PaintSibling(sibling, par.color, c, t);
      ghost var d := WithSib(c, Painted(Sib(c), c.color));
      PaintParent(par, Black, d, t);
      d := WithColor(d, Black);
      CellsOfSibling(mem, d, t, nil);
      PaintKid(sibling.left, false, Black, d, t);
      d := WithSib(d, KidPainted(d, false, Black));
      Out(d, t);
      RightRotate(par, d.up, Joined(d, t));
    }

    // How many more rounds the repair loop can take.
    ghost function Remaining(c: Ctx, t: Tree): nat
    {
      if c.Top? || IsRed(t) then 0 else 1 + Depth(c)
    }

    // One round of the repair loop, the missing black node being on the left.
    method RepairRight(start: Node, ghost c0: Ctx, ghost t0: Tree) returns (node: Node, ghost c: Ctx, ghost t: Tree)
      requires ShortAt(start, c0, t0) && c0.InL? && !IsRed(t0)
      modifies `root, `mem, mem.Keys
      ensures ShortAt(node, c, t) && Kept()
      ensures Before(c) + Items(t) + After(c) == Before(c0) + Items(t0) + After(c0)
      ensures Remaining(c, t) < Remaining(c0, t0)
    {
      node, c, t := start, c0, t0;
      MissingHasSibling(c, t);
      CellsAround(mem, c, t, nil);
      var sibling := node.p.right;
      if sibling.color == Red {
        RaisedMissing(c, t);
        RaiseRight(sibling, node.p, c, t);
        c := Raised(c);
        CellsAround(mem, c, t, nil);
        sibling := node.p.right;
      }
      node, c, t := CloseRightCase(node, sibling, c, t);
    }

    // At least one child of the sibling is red: see to it that the far one is.
    method MakeFarRedRight(node: Node, startSibling: Node, ghost c0: Ctx, ghost t: Tree)
      returns (sibling: Node, ghost c: Ctx)
      requires ShortAt(node, c0, t) && c0.InL? && !IsRed(t)
      requires Sib(c0).Br? && !IsRed(Sib(c0)) && startSibling == Sib(c0).id && (IsRed(Sib(c0).l) || IsRed(Sib(c0).r))
      modifies `root, `mem, mem.Keys
      ensures ShortAt(node, c, t) && c.InL? && Kept()
      ensures Sib(c).Br? && !IsRed(Sib(c)) && sibling == Sib(c).id && IsRed(FarKid(c))
      ensures node.p == c.id
      ensures Before(c) + Items(t) + After(c) == Before(c0) + Items(t) + After(c0)
    {
      c, sibling := c0, startSibling;
      CellsAround(mem, c, t, nil);
      CellsOfSibling(mem, c, t, nil);
      if sibling.right.color == Black {
        TurnedMissing(c, t);
        TurnRight(sibling, c, t);
        c := Turned(c);
        CellsAround(mem, c, t, nil);
        sibling := node.p.right;
      }
    }

    method TurnAndCloseRight(start: Node, startSibling: Node, ghost c0: Ctx, ghost t0: Tree)
        returns (node: Node, ghost c: Ctx, ghost t: Tree)
      requires ShortAt(start, c0, t0) && c0.InL? && !IsRed(t0)
      requires Sib(c0).Br? && !IsRed(Sib(c0)) && startSibling == Sib(c0).id && (IsRed(Sib(c0).l) || IsRed(Sib(c0).r))
      modifies `root, `mem, mem.Keys
      ensures ShortAt(node, c, t) && Kept() && c.Top?
      ensures Before(c) + Items(t) + After(c) == Before(c0) + Items(t0) + After(c0)
    {
      var sibling;
      sibling, c := MakeFarRedRight(start, startSibling, c0, t0);
      SettledMissing(c, t0);
      CloseRight(sibling, start.p, c, t0);
      AllOut(c.up, Settled(c, t0));
      c, t := Top, Plug(c.up, Settled(c, t0));
      node := root;
    }

    method CloseRightCase(start: Node, startSibling: Node, ghost c0: Ctx, ghost t0: Tree)
        returns (node: Node, ghost c: Ctx, ghost t: Tree)
      requires ShortAt(start, c0, t0) && c0.InL? && !IsRed(t0) && !IsRed(Sib(c0)) && startSibling == TopId(Sib(c0), nil)
      modifies `root, `mem, mem.Keys
      ensures ShortAt(node, c, t) && Kept()
      ensures Before(c) + Items(t) + After(c) == Before(c0) + Items(t0) + After(c0)
      ensures c == c0.up || c.Top?
      ensures c == c0.up && c0.color.Red? ==> IsRed(t)
    {
      node, c, t := start, c0, t0;
      var sibling := startSibling;
      MissingHasSibling(c, t);
      CellsAround(mem, c, t, nil);
      CellsOfSibling(mem, c, t, nil);
      if sibling.left.color == Black && sibling.right.color == Black {
        PassedUpMissing(c, t);
        PaintSibling(sibling, Red, c, t);
        node := node.p;
        ghost var d := WithSib(c, Painted(Sib(c), Red));
        Out(d, t);
        c, t := c.up, Joined(d, t);
      } else {
        node, c, t := TurnAndCloseRight(node, sibling, c, t);
      }
    }

    // One round of the repair loop, the missing black node being on the right.
    method RepairLeft(start: Node, ghost c0: Ctx, ghost t0: Tree) returns (node: Node, ghost c: Ctx, ghost t: Tree)
      requires ShortAt(start, c0, t0) && c0.InR? && !IsRed(t0)
      modifies `root, `mem, mem.Keys
      ensures ShortAt(node, c, t) && Kept()
      ensures Before(c) + Items(t) + After(c) == Before(c0) + Items(t0) + After(c0)
      ensures Remaining(c, t) < Remaining(c0, t0)
    {
      node, c, t := start, c0, t0;
      MissingHasSibling(c, t);
      CellsAround(mem, c, t, nil);
      var sibling := node.p.left;
      if sibling.color == Red {
        RaisedMissing(c, t);
        RaiseLeft(sibling, node.p, c, t);
        c := Raised(c);
        CellsAround(mem, c, t, nil);
        sibling := node.p.left;
      }
      node, c, t := CloseLeftCase(node, sibling, c, t);
    }

    // At least one child of the sibling is red: see to it that the far one is.
    method MakeFarRedLeft(node: Node, startSibling: Node, ghost c0: Ctx, ghost t: Tree)
      returns (sibling: Node, ghost c: Ctx)
      requires ShortAt(node, c0, t) && c0.InR? && !IsRed(t)
      requires Sib(c0).Br? && !IsRed(Sib(c0)) && startSibling == Sib(c0).id && (IsRed(Sib(c0).l) || IsRed(Sib(c0).r))
      modifies `root, `mem, mem.Keys
      ensures ShortAt(node, c, t) && c.InR? && Kept()
      ensures Sib(c).Br? && !IsRed(Sib(c)) && sibling == Sib(c).id && IsRed(FarKid(c))
      ensures node.p == c.id
      ensures Before(c) + Items(t) + After(c) == Before(c0) + Items(t) + After(c0)
    {
      c, sibling := c0, startSibling;
      CellsAround(mem, c, t, nil);
      CellsOfSibling(mem, c, t, nil);
      if sibling.left.color == Black {
        TurnedMissing(c, t);
        TurnLeft(sibling, c, t);
        c := Turned(c);
        CellsAround(mem, c, t, nil);
        sibling := node.p.left;
      }
    }

    method TurnAndCloseLeft(start: Node, startSibling: Node, ghost c0: Ctx, ghost t0: Tree)
        returns (node: Node, ghost c: Ctx, ghost t: Tree)
      requires ShortAt(start, c0, t0) && c0.InR? && !IsRed(t0)
      requires Sib(c0).Br? && !IsRed(Sib(c0)) && startSibling == Sib(c0).id && (IsRed(Sib(c0).l) || IsRed(Sib(c0).r))
      modifies `root, `mem, mem.Keys
      ensures ShortAt(node, c, t) && Kept() && c.Top?
      ensures Before(c) + Items(t) + After(c) == Before(c0) + Items(t0) + After(c0)
    {
      var sibling;
      sibling, c := MakeFarRedLeft(start, startSibling, c0, t0);
      SettledMissing(c, t0);
      CloseLeft(sibling, start.p, c, t0);
      AllOut(c.up, Settled(c, t0));
      c, t := Top, Plug(c.up, Settled(c, t0));
      node := root;
    }

    method CloseLeftCase(start: Node, startSibling: Node, ghost c0: Ctx, ghost t0: Tree)
        returns (node: Node, ghost c: Ctx, ghost t: Tree)
      requires ShortAt(start, c0, t0) && c0.InR? && !IsRed(t0) && !IsRed(Sib(c0)) && startSibling == TopId(Sib(c0), nil)
      modifies `root, `mem, mem.Keys
      ensures ShortAt(node, c, t) && Kept()
      ensures Before(c) + Items(t) + After(c) == Before(c0) + Items(t0) + After(c0)
      ensures c == c0.up || c.Top?
      ensures c == c0.up && c0.color.Red? ==> IsRed(t)
    {
      node, c, t := start, c0, t0;
      var sibling := startSibling;
      MissingHasSibling(c, t);
      CellsAround(mem, c, t, nil);
      CellsOfSibling(mem, c, t, nil);
      if sibling.left.color == Black && sibling.right.color == Black {
        PassedUpMissing(c, t);
        PaintSibling(sibling, Red, c, t);
        node := node.p;
        ghost var d := WithSib(c, Painted(Sib(c), Red));
        Out(d, t);
        c, t := c.up, Joined(d, t);
      } else {
        node, c, t := TurnAndCloseLeft(node, sibling, c, t);
      }
    }

    method RbDeleteFixup(start: Node, ghost c0: Ctx, ghost t0: Tree)
      requires ShortAt(start, c0, t0) && Ascending(Before(c0) + Items(t0) + After(c0))
      modifies this, nil`color, mem.Keys
      ensures Valid() && Items(shape) == Before(c0) + Items(t0) + After(c0) && Kept()
    {
      var node := start;
      ghost var c, t := c0, t0;
      while node != root && node.color == Black
        invariant ShortAt(node, c, t) && Kept()
        invariant Before(c) + Items(t) + After(c) == Before(c0) + Items(t0) + After(c0)
        decreases Remaining(c, t)
      {
        SeeShort(node, c, t);
        if node == node.p.left {
          node, c, t := RepairRight(node, c, t);
        } else {
          node, c, t := RepairLeft(node, c, t);
        }
      }
      SeeShort(node, c, t);
      FinishDelete(node, c, t);
    }

    lemma SeeShort(node: Node, c: Ctx, t: Tree)
      requires ShortAt(node, c, t)
      ensures node.color == Red <==> IsRed(t)
      ensures node == root <==> c.Top?
      ensures !c.Top? ==> c.id in mem && node.p == c.id && (node == c.id.left <==> c.InL?)
    {
      CellsAround(mem, c, t, nil);
      if !c.Top? {
        MissingHasSibling(c, t);
        RootAbove(c, node);
      }
    }

    // node->color = BLACK, the last assignment.
    method FinishDelete(node: Node, ghost c: Ctx, ghost t: Tree)
      requires ShortAt(node, c, t) && (c.Top? || IsRed(t))
      requires Ascending(Before(c) + Items(t) + After(c))
      modifies this, nil`color, mem.Keys
      ensures Valid() && Items(shape) == Before(c) + Items(t) + After(c) && Kept()
    {
      MissingDone(c, t);
      if node == nil {
        node.color := Black;
      } else {
        Paint(node, Black, c, t);
      }
      AllOut(c, Painted(t, Black));
      Adopt(Plug(c, Painted(t, Black)));
    }

    method TreeMinimum(start: Node, ghost c: Ctx, ghost t: Tree) returns (node: Node, ghost d: Ctx, ghost u: Tree)
      requires At(c, t) && t.Br? && start == t.id
      ensures At(d, u) && u.Br? && node == u.id && u.l.Leaf?
      ensures Spine(d, c) && Plug(d, u) == Plug(c, t)
    {
      node, d, u := start, c, t;
      CellsAround(mem, d, u, nil);
      while node.left != nil
        invariant At(d, u) && u.Br? && node == u.id && node.left == TopId(u.l, nil)
        invariant Spine(d, c) && Plug(d, u) == Plug(c, t)
        decreases u
      {
        node := node.left;
        Out(LeftOf(d, u), u.l);
        d, u := LeftOf(d, u), u.l;
        CellsAround(mem, d, u, nil);
      }
    }

    // The node holding the next item, or the sentinel.
    method TreeSuccessor(start: Node, ghost c: Ctx, ghost t: Tree) returns (next: Node, ghost d: Ctx, ghost u: Tree)
      requires At(c, t) && t.Br? && start == t.id
      ensures next == nil <==> Items(t.r) + After(c) == []
      ensures next != nil ==>
        && At(d, u) && u.Br? && next == u.id && Plug(d, u) == Plug(c, t)
        && Before(d) + Items(u.l) == Before(c) + Items(t.l) + [t.item]
      ensures t.r.Br? ==> next != nil && u.l.Leaf? && Spine(d, RightOf(c, t))
    {
      CellsAround(mem, c, t, nil);
      if start.right != nil {
        Out(RightOf(c, t), t.r);
        next, d, u := TreeMinimum(start.right, RightOf(c, t), t.r);
        CellsAround(mem, d, u, nil);
        SpineItems(c, t, d, u);
      } else {
        next, d, u := ClimbToNext(start, c, t);
      }
    }

    method ClimbToNext(start: Node, ghost c: Ctx, ghost t: Tree) returns (next: Node, ghost d: Ctx, ghost u: Tree)
      requires At(c, t) && t.Br? && start == t.id && t.r.Leaf?
      ensures next == nil <==> After(c) == []
      ensures next != nil ==>
        && At(d, u) && u.Br? && next == u.id && Plug(d, u) == Plug(c, t)
        && Before(d) + Items(u.l) == Before(c) + Items(t.l) + [t.item]
    {
      CellsAround(mem, c, t, nil);
      var node := start;
      next := node.p;
      d, u := c, t;
      assert Before(c) + Items(t) == Before(c) + Items(t.l) + [t.item];
      while next != nil && node == next.right
        invariant At(d, u) && u.Br? && node == u.id && next == ParId(d, nil) && Plug(d, u) == Plug(c, t)
        invariant Before(d) + Items(u) == Before(c) + Items(t.l) + [t.item]
        invariant After(d) == After(c)
        invariant !d.Top? ==> (node == next.right <==> d.InR?)
        decreases d
      {
        node := next;
        next := next.p;
        JoinedFromLeft(d, u);
        Out(d, u);
        CellsAround(mem, d, u, nil);
        d, u := d.up, Joined(d, u);
        CellsAround(mem, d, u, nil);
      }
      CellsAround(mem, d, u, nil);
      if next != nil {
        Out(d, u);
        d, u := d.up, Joined(d, u);
      }
    }

    // n->p = v, where `n` may be the sentinel: rb_delete leaves a note there.
    method SetParentOrNil(n: Node, v: Node?, ghost t: Tree)
      requires Stored(mem) && nil !in mem && n == TopId(t, nil) && (t.Br? ==> n in mem)
      modifies n`p, `mem
      ensures mem == old(if t.Br? then mem[n := mem[n].(p := v)] else mem) && Stored(mem)
      ensures nil.color == old(nil.color) && root == old(root)
      ensures if n == nil then nil.p == v else nil.p == old(nil.p)
    {
      n.p := v;
      mem := if t.Br? then mem[n := mem[n].(p := v)] else mem;
    }

    method SetAddr(n: Node, a: Addr)
      requires Stored(mem) && n in mem && nil !in mem
      modifies n`addr, `mem
      ensures mem == old(mem)[n := old(mem)[n].(item := Item(a, old(mem)[n].item.entry))] && Stored(mem)
      ensures Kept() && root == old(root)
    {
      n.addr := a;
      mem := mem[n := mem[n].(item := Item(a, mem[n].item.entry))];
    }

    // An unlinked node is no part of the memory any more.
    ghost method Forget(n: Node)
      requires Stored(mem)
      modifies `mem
      ensures mem == old(mem) - {n} && Stored(mem)
    {
      mem := mem - {n};
    }

    // Unlink a node with at most one child; `tmpnode` is what takes its place.
    method SpliceOut(splicenode: Node, ghost d: Ctx, ghost u: Tree) returns (tmpnode: Node)
      requires At(d, u) && u.Br? && (u.l.Leaf? || u.r.Leaf?) && splicenode == u.id
      modifies `root, `mem, nil`p, mem.Keys`p, mem.Keys`left, mem.Keys`right
      ensures At(d, OnlyKid(u)) && mem.Keys == old(mem.Keys) - {splicenode}
      ensures tmpnode == TopId(OnlyKid(u), nil) && (OnlyKid(u).Leaf? ==> nil.p == ParId(d, nil))
      ensures splicenode.color == u.color && splicenode.addr == u.item.addr
    {
      CellsAround(mem, d, u, nil);
      PlacedSpliced(mem, d, u, nil);
      ghost var after := Rehung(Reparented(mem, OnlyKid(u), ParId(d, nil)), d, TopId(OnlyKid(u), nil));
      tmpnode := if splicenode.left != nil then splicenode.left else splicenode.right;
      SetParentOrNil(tmpnode, splicenode.p, OnlyKid(u));
      Replace(splicenode, splicenode.p, tmpnode, d);
      assert mem == after;
      Forget(splicenode);
    }

    // The deleted node goes on under the address of the node unlinked in its stead.  The
    // other two assignments go the other way, to the node that is about to be freed.
    method TakeOver(delnode: Node, splicenode: Node, ghost d: Ctx, ghost s: Tree, ghost base: Ctx)
      requires At(d, s) && Spine(d, base) && base.InR? && delnode == base.id && splicenode !in mem && splicenode != nil
      modifies `mem, delnode`addr, splicenode`hndl, splicenode`prop
      ensures At(Relabelled(d, base, Item(old(splicenode.addr), base.item.entry)), s) && Kept()
      ensures splicenode.color == old(splicenode.color)
    {
      ghost var item := Item(splicenode.addr, base.item.entry);
      PlacedRelabelled(mem, d, base, item, s, nil);
      RelabelledId(d, base, item, TopId(s, nil));
      SetAddr(delnode, splicenode.addr);
      HandOver(delnode, splicenode);
    }

    method HandOver(delnode: Node, splicenode: Node)
      requires Stored(mem) && splicenode !in mem
      modifies splicenode`hndl, splicenode`prop
      ensures Stored(mem)
    {
      splicenode.hndl := delnode.hndl;
      splicenode.prop := delnode.prop;
    }

    // The end of rb_delete: repair the tree if a black node went.
    method EndDelete(splicenode: Node, tmpnode: Node, ghost d: Ctx, ghost s: Tree)
      requires At(d, s) && tmpnode == TopId(s, nil) && (s.Leaf? ==> nil.p == ParId(d, nil))
      requires splicenode.color == Black ==> BlackMissing(d, s)
      requires splicenode.color == Red ==> Sub(s) && !IsRed(s) && CtxFits(d, BlackHeight(s), false)
      requires Ascending(Before(d) + Items(s) + After(d))
      modifies this, nil`color, mem.Keys
      ensures Valid() && mem.Keys == old(mem.Keys) && Items(shape) == Before(d) + Items(s) + After(d)
    {
      if splicenode.color == Black {
        RbDeleteFixup(tmpnode, d, s);
      } else {
        PlugFits(d, s);
        PlugItems(d, s);
        AllOut(d, s);
        Adopt(Plug(d, s));
      }
    }

    method RbDelete(delnode: Node, ghost c: Ctx, ghost t: Tree) returns (splicenode: Node)
      requires Valid() && At(c, t) && t.Br? && delnode == t.id && Plug(c, t) == shape
      modifies this, nil, mem.Keys
      ensures Valid() && splicenode in old(mem) && mem.Keys == old(mem.Keys) - {splicenode}
      ensures t.l.Br? && t.r.Br? ==> Items(t.r) + After(c) != []
      ensures Items(shape) == AfterDelete(Before(c) + Items(t.l), t.item, Items(t.r) + After(c), t.l.Br? && t.r.Br?)
    {
      CellsAround(mem, c, t, nil);
      if delnode.left == nil || delnode.right == nil {
        splicenode := delnode;
        SplicedFits(c, t);
        SplicedItems(c, t);
        var tmpnode := SpliceOut(splicenode, c, t);
        EndDelete(splicenode, tmpnode, c, OnlyKid(t));
      } else {
        splicenode := DeleteSuccessor(delnode, c, t);
      }
    }

    // The case of two children: the successor is unlinked and its address moves.
    method DeleteSuccessor(delnode: Node, ghost c: Ctx, ghost t: Tree) returns (splicenode: Node)
      requires Valid() && At(c, t) && t.Br? && t.r.Br? && delnode == t.id && Plug(c, t) == shape
      modifies this, nil, mem.Keys
      ensures Valid() && splicenode in old(mem) && mem.Keys == old(mem.Keys) - {splicenode}
      ensures Items(t.r) + After(c) != []
      ensures Items(shape) == AfterDelete(Before(c) + Items(t.l), t.item, Items(t.r) + After(c), true)
    {
      ghost var d, u := c, t;
      splicenode, d, u := TreeSuccessor(delnode, c, t);
      CellsAround(mem, d, u, nil);
      SuccessorSplicedFits(c, t, d, u, nil);
      SuccessorSplicedItems(c, t, d, u);
      ghost var e := Relabelled(d, RightOf(c, t), Item(u.item.addr, t.item.entry));
      var tmpnode := SpliceOut(splicenode, d, u);
      TakeOver(delnode, splicenode, d, u.r, RightOf(c, t));
      EndDelete(splicenode, tmpnode, e, u.r);
    }

    // ---------------------------------------------------------------- the cache operations

    lemma NotHigh()
      requires Valid()
      ensures Height(shape) <= 2 * Log2(|entries| + 1)
    {
      HeightLogarithmic(shape, entries);
    }

    // tree_search, in a number of steps logarithmic in the number of entries.
    method TreeSearch(addr: Addr) returns (node: Node, ghost c: Ctx, ghost t: Tree, ghost steps: nat)
      requires Valid()
      ensures node == nil <==> !Holds(Items(shape), addr)
      ensures node != nil ==> At(c, t) && t.Br? && node == t.id && t.item.addr == addr && Plug(c, t) == shape
      ensures steps <= 2 * Log2(|entries| + 1)
    {
      node, c, t, steps := Descend(addr);
      CellsAround(mem, c, t, nil);
      if node == nil {
        SeekMissed(c, addr);
      } else {
        HasItem(c, t);
      }
      NotHigh();
    }

    method Descend(addr: Addr) returns (node: Node, ghost c: Ctx, ghost t: Tree, ghost steps: nat)
      requires Valid()
      ensures At(c, t) && node == TopId(t, nil) && Seeks(c, t, addr) && Plug(c, t) == shape
      ensures t.Br? ==> t.item.addr == addr
      ensures steps <= Height(shape)
    {
      node := root;
      c, t, steps := Top, shape, 0;
      SeeksFromTop(shape, addr);
      CellsAround(mem, c, t, nil);
      while node != nil && node.addr != addr
        invariant At(c, t) && node == TopId(t, nil) && (t.Br? ==> node.addr == t.item.addr)
        invariant Seeks(c, t, addr) && Plug(c, t) == shape
        invariant steps + Height(t) <= Height(shape)
        decreases t
      {
        if addr < node.addr {
          node := node.left;
          SeekLeft(c, t, addr);
          c, t := LeftOf(c, t), t.l;
        } else {
          node := node.right;
          SeekRight(c, t, addr);
          c, t := RightOf(c, t), t.r;
        }
        Out(c, t);
        CellsAround(mem, c, t, nil);
        steps := steps + 1;
      }
      CellsAround(mem, c, t, nil);
    }

    // persist_mr_add; the caller makes sure that the address is new.
    method PersistAdd(addr: Addr, hndl: Handle, prop: Prop)
      requires Valid() && addr !in entries
      modifies this, mem.Keys
      ensures Valid() && fresh(mem.Keys - old(mem.Keys))
      ensures entries == old(entries)[addr := Entry(hndl, prop)]
    {
      var newnode := new Node(Black, addr, hndl, prop, nil);
      RbInsert(newnode);
    }

    method PersistGet(addr: Addr) returns (found: bool, hndl: Handle, prop: Prop)
      requires Valid()
      ensures found <==> addr in entries
      ensures found ==> entries[addr] == Entry(hndl, prop)
    {
      ghost var c, t, steps;
      var node;
      node, c, t, steps := TreeSearch(addr);
      if node == nil { return false, 0, Prop(0, {}); }
      CellsAround(mem, c, t, nil);
      HasItem(c, t);
      return true, node.hndl, node.prop;
    }

    // persist_mr_edit; a missing address is an error.
    method PersistEdit(addr: Addr, hndl: Handle, prop: Prop) returns (ok: bool)
      requires Valid()
      modifies this, mem.Keys
      ensures Valid() && mem.Keys == old(mem.Keys) && ok == old(addr in entries)
      ensures entries == if ok then old(entries)[addr := Entry(hndl, prop)] else old(entries)
    {
      ghost var c, t, steps;
      var node;
      node, c, t, steps := TreeSearch(addr);
      if node == nil { return false; }
      StoreEntry(node, hndl, prop, c, t);
      return true;
    }

    method StoreEntry(node: Node, hndl: Handle, prop: Prop, ghost c: Ctx, ghost t: Tree)
      requires Valid() && At(c, t) && t.Br? && node == t.id && Plug(c, t) == shape
      modifies this, mem.Keys
      ensures Valid() && mem.Keys == old(mem.Keys)
      ensures entries == old(entries)[t.item.addr := Entry(hndl, prop)]
    {
      ghost var item := Item(t.item.addr, Entry(hndl, prop));
      CellsAround(mem, c, t, nil);
      PlacedReplaced(mem, c, t, item, nil);
      ReplacedMap(c, t, item);
      ReplacedFits(c, t, item);
      SetEntry(node, hndl, prop);
      ghost var u := Br(t.id, t.color, item, t.l, t.r);
      AllOut(c, u);
      Adopt(Plug(c, u));
    }

    method SetEntry(n: Node, hndl: Handle, prop: Prop)
      requires Stored(mem) && n in mem && nil !in mem
      modifies n`hndl, n`prop, `mem
      ensures mem == old(mem)[n := old(mem)[n].(item := Item(old(mem)[n].item.addr, Entry(hndl, prop)))] && Stored(mem)
      ensures Kept() && root == old(root)
    {
      n.hndl := hndl;
      n.prop := prop;
      mem := mem[n := mem[n].(item := Item(mem[n].item.addr, Entry(hndl, prop)))];
    }

    // persist_mr_del; a missing address is an error.
    method PersistDel(addr: Addr) returns (ok: bool, hndl: Handle, prop: Prop)
      requires Valid()
      modifies this, nil, mem.Keys
      ensures Valid() && mem.Keys <= old(mem.Keys) && ok == old(addr in entries)
      ensures !ok ==> entries == old(entries)
      ensures ok ==> Entry(hndl, prop) == old(entries)[addr]
      ensures ok ==> Deleted(old(entries), entries, addr, TwoKids(old(shape), addr))
    {
      ghost var c, t, steps;
      var node;
      node, c, t, steps := TreeSearch(addr);
      if node == nil { return false, 0, Prop(0, {}); }
      CellsAround(mem, c, t, nil);
      HasItem(c, t);
      hndl, prop := node.hndl, node.prop;
      var spliced := RbDelete(node, c, t);
      DeletedMap(c, t, Items(shape));
      ok := true;
    }

    // persist_mr_delrand: takes out the entry with the lowest address.
    method PersistDelrand() returns (ok: bool, addr: Addr, hndl: Handle, prop: Prop)
      requires Valid()
      modifies this, nil, mem.Keys
      ensures Valid() && mem.Keys <= old(mem.Keys) && ok == (old(entries) != map[])
      ensures !ok ==> entries == old(entries)
      ensures ok ==> addr in old(entries) && old(entries)[addr] == Entry(hndl, prop) && entries == old(entries) - {addr}
      ensures ok ==> forall a :: a in old(entries) ==> addr <= a
    {
      CellsAround(mem, Top, shape, nil);
      if root == nil { return false, 0, 0, Prop(0, {}); }
      ghost var c, t;
      var node;
      node, c, t := TreeMinimum(root, Top, shape);
      CellsAround(mem, c, t, nil);
      HasItem(c, t);
      LowestAtSpine(c, t);
      addr, hndl, prop := node.addr, node.hndl, node.prop;
      var spliced := RbDelete(node, c, t);
      DeletedMap(c, t, Items(shape));
      ok := true;
    }
  }
}
