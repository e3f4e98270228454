/**
 `struct rb_table` with its searching, inserting and deleting operations (src/rb.c).
 */
module RbTable {
  import opened Options
  import opened RbShape
  import opened RbMoves
  import opened RbOrder
  import opened RbBalance
  import opened RbDelete
  import opened RbRepair

  const RB_MAX_HEIGHT := 48

  lemma {:induction false} Commute<S>(s: seq<S>, i: nat, x: S, j: nat, y: S)
    requires i < |s| && j < |s| && i != j
    ensures s[i := x][j := y] == s[j := y][i := x]
  {
  }

  lemma {:induction false} FindStart<T>(cmp: (T, T) -> int, item: T, mem: Store<T>, tree: Tree<T>)
    requires Zip(mem, Top, tree)
    ensures mem.root == RefOf(tree) && Whole(Top, tree) == Slots(tree)
    ensures Apart<T>(cmp, item, Before<T>(Top), After<T>(Top))
  {
  }

  class Table<T(!new)> {
    const cmp: (T, T) -> int      // rb_compare with rb_param applied
    var mem: Store<T>             // rb_root and every node it reaches
    var count: nat                // rb_count
    var generation: int           // rb_generation
    ghost var tree: Tree<T>

    ghost predicate Valid()
      reads this
    {
      && TotalOrder(cmp)
      && Zip(mem, Top, tree) && mem.nodes.Keys == Ids(tree)
      && RedBlack(tree)
      && Sorted(cmp, Slots(tree))
      && count == |Slots(tree)|
    }

    /** The items of the table with the nodes that hold them, in ascending order. */
    ghost function Items(): seq<Slot<T>>
      reads this
    {
      Slots(tree)
    }

    ghost predicate Has(item: T)
      reads this
    {
      exists x :: x in Items() && cmp(item, x.data) == 0
    }

    /** rb_create */
    constructor (cmp: (T, T) -> int)
      requires TotalOrder(cmp)
      ensures Valid() && Items() == [] && this.cmp == cmp && generation == 0
    {
      this.cmp := cmp;
      mem := Store(NULL, map[]);
      count, generation := 0, 0;
      tree := Leaf;
      new;
      assert RB(tree, 0);
    }

    /** rb_find */
    method Find(item: T) returns (r: Ref)
      requires Valid()
      ensures r == NULL ==> forall x :: x in Items() ==> cmp(item, x.data) != 0
      ensures r != NULL ==> r in mem.nodes && cmp(item, mem.nodes[r].data) == 0 && Slot(r, mem.nodes[r].data) in Items()
    {
      hide Zip, Slots, Sorted, TotalOrder, RedBlack, Before, After, Whole, Apart, Ids, PathIds;
      var p := mem.root;
      ghost var path: Path<T>, t := Top, tree;
      FindStart(cmp, item, mem, tree);
      while p != NULL
        invariant Zip(mem, path, t) && p == RefOf(t)
        invariant Whole(path, t) == Slots(tree)
        invariant Apart(cmp, item, Before(path), After(path))
        decreases t
      {
        Here(mem, path, t);
        var c := cmp(item, mem.nodes[p].data);
        if c < 0 {
          Narrow(cmp, item, path, t, false);
          Descend(mem, path, t, false);
          path, t := Into(path, t, false), t.left;
          p := mem.nodes[p].left;
        } else if c > 0 {
          Narrow(cmp, item, path, t, true);
          Descend(mem, path, t, true);
          path, t := Into(path, t, true), t.right;
          p := mem.nodes[p].right;
        } else {
          Found(path, t);
          return p;
        }
      }
      r := NULL;
      Here(mem, path, t);
      ApartAll(cmp, item, path);
    }

    /** The descent loop of rb_probe: the stack down to an equal item, or to the empty link
        where the item belongs. */
    method Search(item: T) returns (pa: seq<Ref>, da: seq<bool>, k: nat, p: Ref,
                                    ghost path: Path<T>, ghost t: Tree<T>, ghost n: nat)
      requires Valid() && Height(tree) < RB_MAX_HEIGHT
      ensures Descent(mem, tree, pa, da, k, path, t, n) && p == RefOf(t) && |pa| == |da| == RB_MAX_HEIGHT
      ensures if t.Node? then cmp(item, t.data) == 0 else Apart(cmp, item, Before(path), After(path))
    {
      hide Descent, Zip, Ids, PathIds, Whole, Slots, RB, PathRB, OnTop, Sorted, TotalOrder;
      pa, da, k := seq(RB_MAX_HEIGHT, _ => HEAD), seq(RB_MAX_HEIGHT, _ => false), 1;
      path, t := Top, tree;
      n :| RB(tree, n);
      DescentStart(mem, tree, pa, da, n);
      p := mem.root;
      while p != NULL
        invariant Descent(mem, tree, pa, da, k, path, t, n) && p == RefOf(t) && |pa| == |da| == RB_MAX_HEIGHT
        invariant Apart(cmp, item, Before(path), After(path))
        decreases t
      {
        DescentHere(mem, tree, pa, da, k, path, t, n);
        var c := cmp(item, mem.nodes[p].data);
        if c == 0 {
          return;
        }
        var d := c > 0;
        Narrow(cmp, item, path, t, d);
        n := DescentStep(mem, tree, pa, da, k, path, t, n, d);
        pa, da := pa[k := p], da[k := d];
        k := k + 1;
        path, t := Into(path, t, d), t.Child(d);
        p := mem.nodes[p].Link(d);
      }
      DescentHere(mem, tree, pa, da, k, path, t, n);
    }

    /** rb_probe, with the address `malloc` returns passed as `addr` (NULL when it fails).
        Returns the node that holds the item, NULL on allocation failure. */
    method Probe(item: T, addr: Ref) returns (r: Ref)
      requires Valid() && Height(tree) < RB_MAX_HEIGHT
      requires addr == NULL || (addr > HEAD && addr !in mem.nodes)
      modifies this
      ensures Valid()
      // an equal item is present: nothing changes and its node is returned
      ensures old(Has(item)) ==>
                && mem == old(mem) && tree == old(tree) && count == old(count) && generation == old(generation)
                && r != NULL && r in mem.nodes && cmp(item, mem.nodes[r].data) == 0
                && Slot(r, mem.nodes[r].data) in Items()
      // no equal item and no memory: nothing changes
      ensures !old(Has(item)) && addr == NULL ==>
                && mem == old(mem) && tree == old(tree) && count == old(count) && generation == old(generation)
                && r == NULL
      // otherwise exactly the new node joins, at its place in the order
      ensures !old(Has(item)) && addr != NULL ==>
                && r == addr && count == old(count) + 1 && generation == old(generation) + 1
                && exists i :: 0 <= i <= |old(Items())|
                               && Items() == old(Items())[..i] + [Slot(addr, item)] + old(Items())[i..]
    {
      hide Zip, Ids, PathIds, StackIds, StackDirs, PathRB, Sorted, TotalOrder, RedBlack, Slots, Apart, RB, OnTop,
        Descent;
      var pa, da, k, p, path, t, n := Search(item);
      DescentHere(mem, tree, pa, da, k, path, t, n);
      if p != NULL {
        Found(path, t);
        return p;
      }
      ApartAll(cmp, item, path);
      if addr == NULL {
        SameHole(mem, path, t);
        mem := mem.SetLink(pa[k-1], da[k-1], addr);
        return addr;
      }
      r := InsertAt(item, addr, pa, da, k, path, n);
    }

    /** The new node is hung at the end of the descent, and the tree repaired. */
    method InsertAt(item: T, addr: Ref, pa: seq<Ref>, da: seq<bool>, k: nat, ghost path: Path<T>, ghost n: nat)
      returns (r: Ref)
      requires Valid() && |pa| == |da| == RB_MAX_HEIGHT && Descent(mem, tree, pa, da, k, path, Leaf, n)
      requires Apart(cmp, item, Before(path), After(path)) && addr > HEAD && addr !in mem.nodes
      modifies this
      ensures Valid() && r == addr && count == old(count) + 1 && generation == old(generation) + 1
      ensures exists i :: 0 <= i <= |old(Items())|
                          && Items() == old(Items())[..i] + [Slot(addr, item)] + old(Items())[i..]
    {
      hide Zip, Ids, PathIds, StackIds, StackDirs, PathRB, Sorted, TotalOrder, RedBlack, Apart, OnTop, Descent, Slots,
        Whole;
      DescentHere(mem, tree, pa, da, k, path, Leaf, n);
      ghost var mem0, q := mem, Items();
      mem := mem.SetLink(pa[k-1], da[k-1], addr) by {
        SameHole(mem, path, Leaf);
      }
      r := addr;
      mem := mem.(nodes := mem.nodes[addr := Cell(NULL, NULL, item, Red)]);
      count := count + 1;
      generation := generation + 1;
      Attach(mem0, path, addr, item);
      FixInsert(pa, da, k, path, Node(addr, Red, item, Leaf, Leaf), n);
      Inserted(cmp, path, addr, item, q);
    }

    /** The recolouring and rotation loop of rb_probe, ending with the root painted black. */
    method FixInsert(pa: seq<Ref>, da: seq<bool>, k0: nat, ghost path0: Path<T>, ghost t0: Tree<T>, ghost n0: nat)
      requires |pa| == |da| == RB_MAX_HEIGHT && OnTop(pa, da, k0, path0)
      requires Zip(mem, path0, t0) && mem.nodes.Keys == PathIds(path0) + Ids(t0)
      requires RedRoot(t0) && RB(t0, n0) && PathRB(path0, n0)
      modifies this`mem, this`tree
      ensures Zip(mem, Top, tree) && mem.nodes.Keys == old(mem.nodes.Keys) == Ids(tree)
      ensures Slots(tree) == Whole(path0, t0) && RedBlack(tree)
    {
      hide Zip, Whole, Ids, PathIds, StackIds, StackDirs, RB, Slots, RedBlack;
      var k := k0;
      ghost var path, t, n := path0, t0, n0;
      TopCell(mem, path, t);
      while k >= 3 && mem.nodes[pa[k-1]].color == Red
        invariant Zip(mem, path, t) && mem.nodes.Keys == old(mem.nodes.Keys) == PathIds(path) + Ids(t)
        invariant OnTop(pa, da, k, path)
        invariant path.Step? ==> path.id in mem.nodes && mem.nodes[path.id].color == path.color
        invariant Whole(path, t) == Whole(path0, t0)
        invariant RedRoot(t) && RB(t, n) && PathRB(path, n)
      {
        InsertView(mem, pa, da, k, path, t, n);
        ghost var g := path.up;
        var d := da[k-2];
        var y := mem.Link(pa[k-2], !d);
        if mem.IsRed(y) {
          InsertRecolored(mem, path, t, n);
          mem := mem.SetColor(y, Black).SetColor(pa[k-1], Black);
          mem := mem.SetColor(pa[k-2], Red);
          k := k - 2;
          path, t, n := g.up, Recolored(path, t), n + 1;
          TopCell(mem, path, t);
        } else {
          t := InsertRotate(pa[k-1], pa[k-2], pa[k-3], da[k-1], d, da[k-3], path, t, n);
          path, n := g.up, n + 1;
          break;
        }
      }
      TopCell(mem, path, t);
      PaintRoot(path, t, n);
    }

    /** Black uncle: one or two rotations around the grandparent. */
    method InsertRotate(pa1: Ref, pa2: Ref, pa3: Ref, da1: bool, d: bool, da3: bool,
                        ghost path: Path<T>, ghost t: Tree<T>, ghost n: nat) returns (ghost t': Tree<T>)
      requires Zip(mem, path, t) && path.Step? && path.up.Step? && path.color == Red && !RedRoot(path.up.sib)
      requires pa1 == path.id && pa2 == path.up.id && pa3 == TopRef(path.up.up)
      requires da1 == path.dir && d == path.up.dir && da3 == TopDir(path.up.up)
      requires RedRoot(t) && RB(t, n) && PathRB(path, n)
      modifies this`mem
      ensures Zip(mem, path.up.up, t') && mem.nodes.Keys == old(mem.nodes.Keys)
      ensures Whole(path.up.up, t') == Whole(path, t)
      ensures PathIds(path.up.up) + Ids(t') == PathIds(path) + Ids(t)
      ensures !RedRoot(t') && RB(t', n + 1) && PathRB(path.up.up, n + 1)
    {
      ghost var g := path.up;
      Climb(mem, path, t);
      t' := Fill(path, t);
      var y;
      if da1 == d {
        y := pa1;
      } else {
        Rotate(mem, path, t);
        t' := Rotated(path, t);
        var x := pa1;
        y := mem.Link(x, !d);
        mem := mem.SetLink(x, !d, mem.Link(y, d));
        mem := mem.SetLink(y, d, x);
        mem := mem.SetLink(pa2, d, y);
      }
      InsertBalanced(path, t, t', n);
      InsertRotated(mem, g, t');
      var x := pa2;
      mem := mem.SetColor(x, Red);
      mem := mem.SetColor(y, Black);
      mem := mem.SetLink(x, d, mem.Link(y, !d));
      mem := mem.SetLink(y, !d, x);
      mem := mem.SetLink(pa3, da3, y);
      t' := Rotated(g.(color := Red), t'.(color := Black));
    }

    /** `tree->rb_root->rb_color = RB_BLACK` once only the root may be wrong. */
    method PaintRoot(ghost path: Path<T>, ghost t: Tree<T>, ghost n: nat)
      requires Zip(mem, path, t) && mem.nodes.Keys == PathIds(path) + Ids(t) && t.Node?
      requires RB(t, n) && PathRB(path, n) && (RedRoot(t) ==> !RedStep(path))
      modifies this`mem, this`tree
      ensures Zip(mem, Top, tree) && mem.nodes.Keys == old(mem.nodes.Keys) == Ids(tree)
      ensures Slots(tree) == Whole(path, t) && RedBlack(tree)
    {
      ZipUp(mem, path, t);
      PlugSlots(path, t);
      ghost var m := PlugRB(path, t, n);
      tree := Plug(path, t);
      ColorTree(mem, Top, tree, Black);
      mem := mem.SetColor(mem.root, Black);
      m := if tree.color == Red then m + 1 else m;
      tree := Blacken(tree);
      assert RB(tree, m);
    }

    /** rb_delete: removes the node whose item equals `item` and returns that item, which was
        number `i` in order. */
    method Delete(item: T) returns (r: Option<T>, ghost i: nat)
      requires Valid() && Height(tree) < RB_MAX_HEIGHT
      modifies this
      ensures Valid()
      ensures !old(Has(item)) ==>
                && r == None && mem == old(mem) && tree == old(tree)
                && count == old(count) && generation == old(generation)
      ensures old(Has(item)) ==>
                && i < |old(Items())| && cmp(item, old(Items())[i].data) == 0
                && r == Some(old(Items())[i].data)
                && Items() == old(Items())[..i] + old(Items())[i + 1..]
                && mem.nodes.Keys == old(mem.nodes.Keys) - {old(Items())[i].id}
                && count == old(count) - 1 && generation == old(generation) + 1
    {
      hide Zip, Ids, PathIds, PathRB, RB, Descent, OnTop, Slots, Before, After, Whole, RedBlack, Height, Sorted,
        TotalOrder;
      var pa, da, k, p, path, t, n := SearchDelete(item);
      if p == NULL {
        return None, 0;
      }
      DescentHere(mem, tree, pa, da, k, path, t, n);
      i := Deleted(cmp, path, t, Items());
      r := Some(mem.nodes[p].data);
      ghost var path', t', m;
      pa, da, k, path', t', m := Unlink(p, pa, da, k, path, t, n);
      if mem.nodes[p].color == Black {
        path', t', m := Repair(pa, da, k, path', t', m, p);
      }
      Unlinked(mem, p, path', t', m);
      mem := mem.(nodes := mem.nodes - {p});
      count := count - 1;
      generation := generation + 1;
      tree := Plug(path', t');
      assert old(Items())[i].id == p;
    }

    /** The descent loop of rb_delete, which starts at the pseudo-node. */
    method SearchDelete(item: T) returns (pa: seq<Ref>, da: seq<bool>, k: nat, p: Ref,
                                          ghost path: Path<T>, ghost t: Tree<T>, ghost n: nat)
      requires Valid() && Height(tree) < RB_MAX_HEIGHT
      ensures p == NULL ==> !Has(item)
      ensures p != NULL ==>
                && Descent(mem, tree, pa, da, k, path, t, n) && t.Node? && p == t.id && cmp(item, t.data) == 0
                && |pa| == |da| == RB_MAX_HEIGHT && p in mem.nodes && mem.nodes[p].data == t.data
                && Slots(tree) == Whole(path, t)
    {
      hide Descent, Zip, Ids, PathIds, Whole, Slots, RB, PathRB, OnTop, Sorted, TotalOrder;
      pa, da, k := seq(RB_MAX_HEIGHT, _ => HEAD), seq(RB_MAX_HEIGHT, _ => false), 0;
      path, t := Top, tree;
      n :| RB(tree, n);
      DescentStart(mem, tree, pa, da, n);
      p := HEAD;
      var c := -1;
      assert pa[0 := HEAD] == pa && da[0 := false] == da;
      while c != 0
        invariant |pa| == |da| == RB_MAX_HEIGHT
        invariant p == HEAD ==>
                    && k == 0 && c == -1 && Descent(mem, tree, pa[0 := HEAD], da[0 := false], 1, path, t, n)
                    && path == Top && RefOf(t) == mem.root
        invariant p != HEAD ==>
                    && Descent(mem, tree, pa, da, k, path, t, n) && t.Node? && p == t.id && p in mem.nodes
                    && c == cmp(item, t.data)
        invariant Apart(cmp, item, Before(path), After(path))
        decreases t, if p == HEAD then 1 else 0
      {
        var dir := c > 0;
        if p != HEAD {
          DescentHere(mem, tree, pa, da, k, path, t, n);
          Narrow(cmp, item, path, t, dir);
          n := DescentStep(mem, tree, pa, da, k, path, t, n, dir);
          path, t := Into(path, t, dir), t.Child(dir);
        }
        pa, da := pa[k := p], da[k := dir];
        k := k + 1;
        p := mem.Link(p, dir);
        DescentHere(mem, tree, pa, da, k, path, t, n);
        if p == NULL {
          ApartAll(cmp, item, path);
          return;
        }
        c := cmp(item, mem.nodes[p].data);
      }
      DescentHere(mem, tree, pa, da, k, path, t, n);
    }

    /** Takes node `p` out of the tree (src/rb.c:260-305); it stays allocated, with the colour
        of the place that disappeared. */
    method Unlink(p: Ref, pa0: seq<Ref>, da0: seq<bool>, k0: nat, ghost path: Path<T>, ghost t: Tree<T>, ghost n: nat)
      returns (pa: seq<Ref>, da: seq<bool>, k: nat, ghost path': Path<T>, ghost t': Tree<T>, ghost m: nat)
      requires Descent(mem, tree, pa0, da0, k0, path, t, n) && t.Node? && p == t.id
      requires |pa0| == |da0| == RB_MAX_HEIGHT && Height(tree) < RB_MAX_HEIGHT
      modifies this`mem
      ensures |pa| == |da| == RB_MAX_HEIGHT && OnTop(pa, da, k, path') && k < RB_MAX_HEIGHT
      ensures Zip(mem, path', t') && mem.nodes.Keys == old(mem.nodes.Keys) && p in mem.nodes
      ensures p !in PathIds(path') + Ids(t') && PathIds(path) + Ids(t) == PathIds(path') + Ids(t') + {p}
      ensures Whole(path', t') == (Before(path) + Slots(t.left)) + (Slots(t.right) + After(path))
      ensures Gap(path', t', m, mem.nodes[p].color)
    {
      hide Zip, Ids, PathIds, PathRB, Gap, OnTop, Descent;
      DescentHere(mem, tree, pa0, da0, k0, path, t, n);
      Children(mem, path, t);
      if t.right.Node? {
        Descend(mem, path, t, true);
        Children(mem, Into(path, t, true), t.right);
      }
      if mem.nodes[p].right == NULL {
        pa, da, k, path', t' := pa0, da0, k0, path, t.left;
        GapLeft(path, t, n);
        SpliceLeft(mem, path, t);
        mem := mem.SetLink(pa[k-1], da[k-1], mem.nodes[p].left);
        m := if t.color == Red then n else n - 1;
      } else {
        var r := mem.nodes[p].right;
        if mem.nodes[r].left == NULL {
          pa, da, k, path', t', m := UnlinkNear(p, r, pa0, da0, k0, path, t, n);
        } else {
          pa, da, k, path', t', m := UnlinkFar(p, r, pa0, da0, k0, path, t, n);
        }
      }
    }

    /** The right child of `p` has no left child and takes its place. */
    method UnlinkNear(p: Ref, r: Ref, pa0: seq<Ref>, da0: seq<bool>, k0: nat, ghost path: Path<T>, ghost t: Tree<T>,
                      ghost n: nat)
      returns (pa: seq<Ref>, da: seq<bool>, k: nat, ghost path': Path<T>, ghost t': Tree<T>, ghost m: nat)
      requires Descent(mem, tree, pa0, da0, k0, path, t, n) && t.Node? && p == t.id
      requires |pa0| == |da0| == RB_MAX_HEIGHT && Height(tree) < RB_MAX_HEIGHT
      requires t.right.Node? && r == t.right.id && t.right.left.Leaf?
      modifies this`mem
      ensures |pa| == |da| == RB_MAX_HEIGHT && OnTop(pa, da, k, path') && k < RB_MAX_HEIGHT
      ensures Zip(mem, path', t') && mem.nodes.Keys == old(mem.nodes.Keys) && p in mem.nodes
      ensures p !in PathIds(path') + Ids(t') && PathIds(path) + Ids(t) == PathIds(path') + Ids(t') + {p}
      ensures Whole(path', t') == (Before(path) + Slots(t.left)) + (Slots(t.right) + After(path))
      ensures Gap(path', t', m, mem.nodes[p].color)
    {
      hide Zip, Ids, PathIds, PathRB, Gap, OnTop, Descent, Relinked, Whole, Before, After, Slots, Height, Subst, RB;
      pa, da, k := pa0, da0, k0;
      DescentHere(mem, tree, pa, da, k, path, t, n);
      ghost var n' := DescentStep(mem, tree, pa, da, k, path, t, n, true);
      RelinkNear(mem, path, t);
      var c := mem.nodes[r].color;
      mem := mem.SetLink(r, false, mem.Link(p, false));
      mem := mem.SetColor(r, mem.nodes[p].color);
      mem := mem.SetColor(p, c);
      mem := mem.SetLink(pa[k-1], da[k-1], r);
      m := Relocated(old(mem), mem, tree, pa[k := p], da[k := true], k + 1, path, t, Into(path, t, true), t.right, n');
      da := da[k := true];
      pa := pa[k := r];
      k := k + 1;
      path', t' := Subst(Into(path, t, true), p, t.right.id, t.right.data), t.right.right;
      assert pa == pa0[k0 := p][k0 := r];
    }

    /** The successor of `p` is the leftmost node of the subtree at `r0`. */
    method UnlinkFar(p: Ref, r0: Ref, pa0: seq<Ref>, da0: seq<bool>, k0: nat, ghost path: Path<T>, ghost t: Tree<T>,
                     ghost n: nat)
      returns (pa: seq<Ref>, da: seq<bool>, k: nat, ghost path': Path<T>, ghost t': Tree<T>, ghost m: nat)
      requires Descent(mem, tree, pa0, da0, k0, path, t, n) && t.Node? && p == t.id
      requires |pa0| == |da0| == RB_MAX_HEIGHT && Height(tree) < RB_MAX_HEIGHT
      requires t.right.Node? && r0 == t.right.id && t.right.left.Node?
      modifies this`mem
      ensures |pa| == |da| == RB_MAX_HEIGHT && OnTop(pa, da, k, path') && k < RB_MAX_HEIGHT
      ensures Zip(mem, path', t') && mem.nodes.Keys == old(mem.nodes.Keys) && p in mem.nodes
      ensures p !in PathIds(path') + Ids(t') && PathIds(path) + Ids(t) == PathIds(path') + Ids(t') + {p}
      ensures Whole(path', t') == (Before(path) + Slots(t.left)) + (Slots(t.right) + After(path))
      ensures Gap(path', t', m, mem.nodes[p].color)
    {
      hide Zip, Ids, PathIds, PathRB, Gap, OnTop, Descent, Relinked, Whole, Before, After, Spine, Slots, Height, Subst,
        RB;
      DescentHere(mem, tree, pa0, da0, k0, path, t, n);
      var j := k0;
      var r, s;
      ghost var q, u;
      pa, da, k, r, s, q, u, m := FindSuccessor(p, r0, pa0, da0, k0, path, t, n);
      RelinkFar(mem, path, t, q, u);
      ghost var pa1, da1 := pa[j := p], da[j := true];
      da := da[j := true];
      pa := pa[j := s];
      mem := mem.SetLink(pa[j-1], da[j-1], s);

      mem := mem.SetLink(s, false, mem.Link(p, false));
      mem := mem.SetLink(r, false, mem.Link(s, true));
      mem := mem.SetLink(s, true, mem.Link(p, true));

      var c := mem.nodes[s].color;
      mem := mem.SetColor(s, mem.nodes[p].color);
      mem := mem.SetColor(p, c);
      m := Relocated(old(mem), mem, tree, pa1, da1, k, path, t, q, u, m);
      path', t' := Subst(q, p, u.id, u.data), u.right;
      assert pa == pa1[j := s];
    }

    /** Down the left spine from `r0` (src/rb.c:280-291): `s` is the successor, `r` its parent.
        Slot `k0` of the stack is left for the successor. */
    method FindSuccessor(p: Ref, r0: Ref, pa0: seq<Ref>, da0: seq<bool>, k0: nat, ghost path: Path<T>, ghost t: Tree<T>,
                         ghost n: nat)
      returns (pa: seq<Ref>, da: seq<bool>, k: nat, r: Ref, s: Ref, ghost q: Path<T>, ghost u: Tree<T>, ghost m: nat)
      requires Descent(mem, tree, pa0, da0, k0, path, t, n) && t.Node? && p == t.id
      requires |pa0| == |da0| == RB_MAX_HEIGHT && Height(tree) < RB_MAX_HEIGHT
      requires t.right.Node? && r0 == t.right.id && t.right.left.Node?
      ensures |pa| == |da| == RB_MAX_HEIGHT && 1 <= k0 < k && pa[k0-1] == pa0[k0-1] && da[k0-1] == da0[k0-1]
      ensures Descent(mem, tree, pa[k0 := p], da[k0 := true], k, q, u, m)
      ensures Spine(q, Into(path, t, true)) && q != Into(path, t, true) && q.Step? && r == q.id
      ensures Zip(mem, q, u) && u.Node? && u.left.Leaf? && s == u.id
    {
      hide Zip, Ids, PathIds, PathRB, OnTop, Descent, Whole, Slots, RB, Before, After, Spine, Height;
      pa, da := pa0, da0;
      DescentHere(mem, tree, pa, da, k0, path, t, n);
      m := DescentStep(mem, tree, pa, da, k0, path, t, n, true);
      q, u := Into(path, t, true), t.right;
      SpineBase(q);
      k := k0 + 1;
      r, s := r0, NULL;
      while true
        invariant |pa| == |da| == RB_MAX_HEIGHT && k0 < k && pa[k0-1] == pa0[k0-1] && da[k0-1] == da0[k0-1]
        invariant Descent(mem, tree, pa[k0 := p], da[k0 := true], k, q, u, m) && Spine(q, Into(path, t, true))
        invariant u.Node? && r == u.id && u.left.Node? && Depth(q) > Depth(path)
        decreases u
      {
        DescentHere(mem, tree, pa[k0 := p], da[k0 := true], k, q, u, m);
        m := DescentStep(mem, tree, pa[k0 := p], da[k0 := true], k, q, u, m, false);
        Commute(pa, k0, p, k, r);
        Commute(da, k0, true, k, false);
        SpineDown(q, u, Into(path, t, true));
        da := da[k := false];
        pa := pa[k := r];
        k := k + 1;
        s := mem.nodes[r].left;
        q, u := Into(q, u, false), u.left;
        DescentHere(mem, tree, pa[k0 := p], da[k0 := true], k, q, u, m);
        Children(mem, q, u);
        if mem.nodes[s].left == NULL {
          break;
        }
        r := s;
      }
    }

    /** The rebalancing loop (src/rb.c:309-420).  `p` is the unlinked node. */
    method Repair(pa0: seq<Ref>, da0: seq<bool>, k0: nat, ghost path0: Path<T>, ghost t0: Tree<T>, ghost n0: nat,
                  ghost p: Ref)
      returns (ghost path: Path<T>, ghost t: Tree<T>, ghost n: nat)
      requires |pa0| == |da0| == RB_MAX_HEIGHT && OnTop(pa0, da0, k0, path0) && k0 < RB_MAX_HEIGHT
      requires Zip(mem, path0, t0) && RB(t0, n0) && PathRB(path0, n0 + 1)
      modifies this`mem
      ensures Zip(mem, path, t) && mem.nodes.Keys == old(mem.nodes.Keys)
      ensures Whole(path, t) == Whole(path0, t0) && PathIds(path) + Ids(t) == PathIds(path0) + Ids(t0)
      ensures RB(t, n) && PathRB(path, n) && (RedRoot(t) ==> path.Step? && path.color == Black)
    {
      hide Zip, Ids, PathIds, StackIds, StackDirs, Whole, Mk, SiblingReddened;
      var pa, da, k: nat := pa0, da0, k0;
      path, t, n := path0, t0, n0;
      while true
        invariant |pa| == |da| == RB_MAX_HEIGHT && OnTop(pa, da, k, path) && k < RB_MAX_HEIGHT
        invariant Zip(mem, path, t) && mem.nodes.Keys == old(mem.nodes.Keys)
        invariant Whole(path, t) == Whole(path0, t0) && PathIds(path) + Ids(t) == PathIds(path0) + Ids(t0)
        invariant Short(t, n) && PathRB(path, n + 1)
        decreases k, if RedRoot(t) then 0 else 1
      {
        RepairView(mem, path, t);
        var x := mem.Link(pa[k-1], da[k-1]);
        if mem.IsRed(x) {
          ColorTree(mem, path, t, Black);
          mem := mem.SetColor(x, Black);
          t, n := Blacken(t), n + 1;
          break;
        }
        if k < 2 {
          break;
        }
        var done;
        pa, da, k, done, path, t, n := RepairStep(pa, da, k, path, t, n);
        if done {
          break;
        }
      }
    }

    /** One iteration of the loop, for a black or missing node below another one. */
    method RepairStep(pa0: seq<Ref>, da0: seq<bool>, k0: nat, ghost path0: Path<T>, ghost t0: Tree<T>, ghost n0: nat)
      returns (pa: seq<Ref>, da: seq<bool>, k: nat, done: bool, ghost path: Path<T>, ghost t: Tree<T>, ghost n: nat)
      requires |pa0| == |da0| == RB_MAX_HEIGHT && OnTop(pa0, da0, k0, path0) && 2 <= k0 < RB_MAX_HEIGHT
      requires Zip(mem, path0, t0) && RB(t0, n0) && !RedRoot(t0) && PathRB(path0, n0 + 1) && path0.Step?
      modifies this`mem
      ensures Zip(mem, path, t) && mem.nodes.Keys == old(mem.nodes.Keys)
      ensures Whole(path, t) == Whole(path0, t0) && PathIds(path) + Ids(t) == PathIds(path0) + Ids(t0)
      ensures done ==> RB(t, n) && PathRB(path, n) && (RedRoot(t) ==> path.Step? && path.color == Black)
      ensures !done ==> |pa| == |da| == RB_MAX_HEIGHT && OnTop(pa, da, k, path) && Short(t, n) && PathRB(path, n + 1)
      ensures !done ==> k < k0 || (k == k0 && RedRoot(t))
    {
      hide Zip, Ids, PathIds, Whole, Mk, SiblingReddened, StackIds, StackDirs, RB, PathRB, Slots, Short;
      pa, da, k, path, t, n := pa0, da0, k0, path0, t0, n0;
      RepairView(mem, path, t);
      NephewView(mem, path, t, n);
      var d := da[k-1];
      var w := mem.Link(pa[k-1], !d);
      if mem.nodes[w].color == Red {
        pa, da, k := RedSibling(pa, da, k, w, path, t, n);
        path := Lowered(path);
        NephewView(mem, path, t, n);
        w := mem.Link(pa[k-1], !d);
      }
      done, k, t, n := BlackSibling(pa, da, k, w, path, t, n);
      path := path.up;
    }

    /** The sibling is black: it turns red and the shortage moves up, or a red nephew settles it. */
    method BlackSibling(pa: seq<Ref>, da: seq<bool>, k0: nat, w: Ref, ghost path: Path<T>, ghost t0: Tree<T>,
                        ghost n0: nat)
      returns (done: bool, k: nat, ghost t: Tree<T>, ghost n: nat)
      requires |pa| == |da| == RB_MAX_HEIGHT && OnTop(pa, da, k0, path) && 2 <= k0 <= RB_MAX_HEIGHT
      requires Zip(mem, path, t0) && RB(t0, n0) && !RedRoot(t0) && PathRB(path, n0 + 1) && path.Step?
      requires path.sib.Node? && !RedRoot(path.sib) && w == path.sib.id
      modifies this`mem
      ensures Zip(mem, path.up, t) && mem.nodes.Keys == old(mem.nodes.Keys) && k == (if done then k0 else k0 - 1)
      ensures Whole(path.up, t) == Whole(path, t0) && PathIds(path.up) + Ids(t) == PathIds(path) + Ids(t0)
      ensures done ==> RB(t, n) && PathRB(path.up, n) && (RedRoot(t) ==> path.up.Step? && path.up.color == Black)
      ensures !done ==> OnTop(pa, da, k, path.up) && Short(t, n) && PathRB(path.up, n + 1)
      ensures !done ==> (RedRoot(t) <==> path.color == Red)
    {
      hide Zip, Ids, PathIds, Whole, Mk, SiblingReddened, StackIds, StackDirs, RB, PathRB, Slots, Short;
      k := k0;
      NephewView(mem, path, t0, n0);
      Popped(pa, da, k, path);
      if !mem.IsRed(mem.nodes[w].left) && !mem.IsRed(mem.nodes[w].right) {
        SiblingRed(mem, path, t0);
        ReddenedBalance(path, t0, n0);
        mem := mem.SetColor(w, Red);
        t, n := SiblingReddened(path, t0), if path.color == Red then n0 else n0 + 1;
        k := k - 1;
        done := false;
      } else {
        t, n := RedNephew(pa[k-1], pa[k-2], da[k-2], da[k-1], w, path, t0, n0);
        done := true;
      }
    }

    /** Red sibling: it is rotated above the parent, and the hole gets a black sibling. */
    method RedSibling(pa0: seq<Ref>, da0: seq<bool>, k0: nat, w: Ref, ghost path: Path<T>, ghost t: Tree<T>,
                      ghost n: nat)
      returns (pa: seq<Ref>, da: seq<bool>, k: nat)
      requires |pa0| == |da0| == RB_MAX_HEIGHT && OnTop(pa0, da0, k0, path) && 2 <= k0 < RB_MAX_HEIGHT
      requires Zip(mem, path, t) && path.Step? && RedRoot(path.sib) && w == path.sib.id && PathRB(path, n + 1)
      modifies this`mem
      ensures |pa| == |da| == RB_MAX_HEIGHT && k == k0 + 1 && OnTop(pa, da, k, Lowered(path))
      ensures Zip(mem, Lowered(path), t) && mem.nodes.Keys == old(mem.nodes.Keys)
      ensures Whole(Lowered(path), t) == Whole(path, t) && PathIds(Lowered(path)) + Ids(t) == PathIds(path) + Ids(t)
      ensures PathRB(Lowered(path), n + 1) && Lowered(path).sib.Node? && !RedRoot(Lowered(path).sib)
    {
      hide Zip, Ids, PathIds, Whole;
      pa, da, k := pa0, da0, k0;
      Popped(pa, da, k, path);
      SiblingUp(mem, path, t);
      LoweredBalance(path, n);
      var d := da[k-1];
      mem := mem.SetColor(w, Black);
      mem := mem.SetColor(pa[k-1], Red);

      mem := mem.SetLink(pa[k-1], !d, mem.Link(w, d));
      mem := mem.SetLink(w, d, pa[k-1]);
      mem := mem.SetLink(pa[k-2], da[k-2], w);

      pa := pa[k := pa[k-1]];
      da := da[k := d];
      pa := pa[k-1 := w];
      k := k + 1;
      LoweredStack(pa0, da0, pa, da, k0, path);
    }

    /** A red nephew: one or two rotations, after which nothing is missing any more. */
    method RedNephew(pa1: Ref, pa2: Ref, da2: bool, d: bool, w0: Ref, ghost path: Path<T>, ghost t: Tree<T>,
                     ghost n: nat)
      returns (ghost t': Tree<T>, ghost m: nat)
      requires Zip(mem, path, t) && path.Step? && path.sib.Node? && !RedRoot(path.sib) && w0 == path.sib.id
      requires pa1 == path.id && d == path.dir && pa2 == TopRef(path.up) && da2 == TopDir(path.up)
      requires PathRB(path, n + 1) && RB(t, n) && !RedRoot(t)
      requires RedRoot(path.sib.left) || RedRoot(path.sib.right)
      modifies this`mem
      ensures Zip(mem, path.up, t') && mem.nodes.Keys == old(mem.nodes.Keys)
      ensures Whole(path.up, t') == Whole(path, t) && PathIds(path.up) + Ids(t') == PathIds(path) + Ids(t)
      ensures RB(t', m) && PathRB(path.up, m) && (RedRoot(t') ==> path.up.Step? && path.up.color == Black)
    {
      hide Zip, Ids, PathIds, Whole, PathRB, RB, NephewRaised, SiblingRaised;
      ghost var p := path;
      var w := w0;
      NephewView(mem, p, t, n);
      if !mem.IsRed(mem.Link(w, !d)) {
        w := RaiseNephew(pa1, d, w, p, t, n);
        p := p.(sib := NephewRaised(p));
        NephewView(mem, p, t, n);
      }
      SiblingOver(mem, p, t);
      m := RaisedBalance(p, t, n);
      mem := mem.SetColor(w, mem.nodes[pa1].color);
      mem := mem.SetColor(pa1, Black);
      mem := mem.SetColor(mem.Link(w, !d), Black);

      mem := mem.SetLink(pa1, !d, mem.Link(w, d));
      mem := mem.SetLink(w, d, pa1);
      mem := mem.SetLink(pa2, da2, w);
      t' := SiblingRaised(p, t);
    }

    /** The red nephew is on the near side: it is rotated above the sibling first. */
    method RaiseNephew(pa1: Ref, d: bool, w: Ref, ghost p: Path<T>, ghost t: Tree<T>, ghost n: nat) returns (y: Ref)
      requires Zip(mem, p, t) && p.Step? && p.sib.Node? && !RedRoot(p.sib) && w == p.sib.id && pa1 == p.id && d == p.dir
      requires PathRB(p, n + 1) && RedRoot(p.sib.Child(d)) && !RedRoot(p.sib.Child(!d))
      modifies this`mem
      ensures mem.nodes.Keys == old(mem.nodes.Keys)
      ensures var q := p.(sib := NephewRaised(p));
              && Zip(mem, q, t) && Whole(q, t) == Whole(p, t) && PathIds(q) + Ids(t) == PathIds(p) + Ids(t)
              && PathRB(q, n + 1)
              && q.sib.Node? && y == q.sib.id && !RedRoot(q.sib) && RedRoot(q.sib.Child(!d))
    {
      hide Zip, Ids, PathIds, Whole, PathRB, RB;
      NephewView(mem, p, t, n);
      NephewUp(mem, p, t);
      NephewBalance(p, n);
      y := mem.Link(w, d);
      mem := mem.SetColor(y, Black);
      mem := mem.SetColor(w, Red);
      mem := mem.SetLink(w, d, mem.Link(y, !d));
      mem := mem.SetLink(y, !d, w);
      mem := mem.SetLink(pa1, !d, y);
    }
  }
}
