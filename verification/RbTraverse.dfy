/**
 Traversers (src/rb.c:430-726): a current node, the stack of nodes above it, and
 the generation of the table at which that stack was right.
 `d` is the direction: true for rb_t_next/rb_t_first, false for rb_t_prev/rb_t_last.
 */
module RbTraverse {
  import opened Options
  import opened RbShape
  import opened RbMoves
  import opened RbOrder
  import opened RbBalance
  import opened RbTable
  import opened RbHeight

  /** The `r`-th slot of `q` counted in direction `d`. */
  function Nth<T>(q: seq<Slot<T>>, d: bool, r: nat): Slot<T>
    requires r < |q|
  {
    if d then q[r] else q[|q| - 1 - r]
  }

  /** How many nodes lie behind the hole when moving in direction `d`. */
  function Passed<T>(p: Path<T>, d: bool): nat { if d then |Before(p)| else |After(p)| }

  /** The rank of the root of `t` in direction `d`. */
  function Rank<T>(p: Path<T>, t: Tree<T>, d: bool): nat
    requires t.Node?
  {
    Passed(p, d) + |Slots(t.Child(!d))|
  }

  lemma {:induction false} RankIsRank<T>(p: Path<T>, t: Tree<T>, d: bool)
    requires t.Node?
    ensures Rank(p, t, d) < |Whole(p, t)| && Nth(Whole(p, t), d, Rank(p, t, d)) == Slot(t.id, t.data)
  {
  }

  /** The traverser's stack: the path without the pseudo-node. */
  ghost predicate Above<T>(stack: seq<Ref>, h: nat, p: Path<T>) {
    h == Depth(p) && h <= |stack| && StackIds(p) == [HEAD] + stack[..h]
  }

  lemma {:induction false} AbovePush<T>(stack: seq<Ref>, h: nat, p: Path<T>, t: Tree<T>, d: bool)
    requires Above(stack, h, p) && t.Node? && Depth(p) < |stack|
    ensures h < |stack|
    ensures Above(stack[h := t.id], h + 1, Into(p, t, d))
  {
    var s' := stack[h := t.id];
    assert s'[..h + 1] == stack[..h] + [t.id];
  }

  lemma {:induction false} AbovePop<T>(stack: seq<Ref>, h: nat, p: Path<T>)
    requires Above(stack, h, p) && p.Step?
    ensures h > 0 && stack[h - 1] == p.id && Above(stack, h - 1, p.up)
  {
    assert StackIds(p)[h] == p.id;
    assert StackIds(p.up) == StackIds(p)[..h];
    assert StackIds(p)[..h] == [HEAD] + stack[..h - 1];
  }

  lemma {:induction false} PlugHeight<T>(p: Path<T>, t: Tree<T>)
    ensures Depth(p) + Height(t) <= Height(Plug(p, t))
    decreases p
  {
    if p.Step? {
      PlugHeight(p.up, Fill(p, t));
    }
  }

  /** The slots of a tree hold what the store holds. */
  lemma {:induction false} SlotOfId<T>(m: map<Ref, Cell<T>>, t: Tree<T>, r: Ref)
    requires In(m, t) && r in Ids(t)
    ensures r in m && Slot(r, m[r].data) in Slots(t)
  {
    if r != t.id {
      SlotOfId(m, if r in Ids(t.left) then t.left else t.right, r);
    }
  }

  lemma {:induction false} SlotIsHeld<T>(m: map<Ref, Cell<T>>, t: Tree<T>, x: Slot<T>)
    requires In(m, t) && x in Slots(t)
    ensures x.id in Ids(t) && x.id in m && x.data == m[x.id].data
  {
    if x != Slot(t.id, t.data) {
      SlotIsHeld(m, if x in Slots(t.left) then t.left else t.right, x);
    }
  }

  /** An address occurs once in the in-order sequence. */
  lemma {:induction false} OneRank<T(!new)>(cmp: (T, T) -> int, m: map<Ref, Cell<T>>, t: Tree<T>, i: nat, j: nat)
    requires TotalOrder(cmp) && In(m, t) && Sorted(cmp, Slots(t)) && i < |Slots(t)| && j < |Slots(t)|
    requires Slots(t)[i].id == Slots(t)[j].id
    ensures i == j
  {
    SlotIsHeld(m, t, Slots(t)[i]);
    SlotIsHeld(m, t, Slots(t)[j]);
    var x := Slots(t)[i].data;
    Swap(cmp, x, x);
    assert Pair(i, j) && Pair(j, i);
  }

  /** Comparing with the root of a subtree tells on which side another of its nodes is. */
  lemma {:induction false} SideOf<T(!new)>(cmp: (T, T) -> int, p: Path<T>, t: Tree<T>, x: Slot<T>)
    requires TotalOrder(cmp) && Sorted(cmp, Whole(p, t)) && t.Node? && x in Slots(t) && x != Slot(t.id, t.data)
    ensures x in Slots(t.Child(cmp(x.data, t.data) > 0))
  {
    var w, b, l := Whole(p, t), |Before(p)|, |Slots(t.left)|;
    assert w[b + l] == Slot(t.id, t.data);
    if x in Slots(t.left) {
      var i :| 0 <= i < l && Slots(t.left)[i] == x;
      assert w[b + i] == x && Pair(b + i, b + l);
    } else {
      var i :| 0 <= i < |Slots(t.right)| && Slots(t.right)[i] == x;
      assert w[b + l + 1 + i] == x && Pair(b + l, b + l + 1 + i);
      Swap(cmp, t.data, x.data);
    }
  }

  /** The search loop of trav_refresh. */
  method FindNode<T(!new)>(mem: Store<T>, cmp: (T, T) -> int, node: Ref, stack0: seq<Ref>, ghost tree: Tree<T>)
    returns (stack: seq<Ref>, h: nat, ghost q: Path<T>, ghost u: Tree<T>)
    requires TotalOrder(cmp) && Zip(mem, Top, tree) && Sorted(cmp, Slots(tree)) && node in Ids(tree)
    requires node in mem.nodes && |stack0| == RB_MAX_HEIGHT && Height(tree) < RB_MAX_HEIGHT
    ensures Zip(mem, q, u) && Whole(q, u) == Slots(tree) && u.Node? && u.id == node
    ensures |stack| == RB_MAX_HEIGHT && Above(stack, h, q) && Plug(q, u) == tree
  {
    ghost var x := Slot(node, mem.nodes[node].data);
    SlotOfId(mem.nodes, tree, node);
    PlugSlots(Top, tree);
    stack, h, q, u := stack0, 0, Top, tree;
    var i := mem.root;
    while i != node
      invariant Zip(mem, q, u) && Whole(q, u) == Slots(tree) && x in Slots(u) && u.Node? && i == u.id
      invariant |stack| == RB_MAX_HEIGHT && Above(stack, h, q) && Plug(q, u) == tree
      decreases u
    {
      var d := cmp(mem.nodes[node].data, mem.nodes[i].data) > 0;
      SideOf(cmp, q, u, x);
      PlugHeight(q, u);
      AbovePush(stack, h, q, u, d);
      Descend(mem, q, u, d);
      stack := stack[h := i];
      h := h + 1;
      i := mem.Link(i, d);
      q, u := Into(q, u, d), u.Child(d);
    }
  }

  /** From `x0` away from direction `d` to the end: the inner loop of rb_t_next, and rb_t_first
      when it starts at the root. */
  method Outermost<T>(mem: Store<T>, x0: Ref, d: bool, stack0: seq<Ref>, h0: nat, ghost p: Path<T>, ghost t: Tree<T>)
    returns (x: Ref, stack: seq<Ref>, h: nat, ghost q: Path<T>, ghost u: Tree<T>)
    requires Zip(mem, p, t) && t.Node? && x0 == t.id && Above(stack0, h0, p) && Height(Plug(p, t)) <= |stack0|
    ensures Zip(mem, q, u) && Whole(q, u) == Whole(p, t) && u.Node? && x == u.id && Rank(q, u, d) == Passed(p, d)
    ensures |stack| == |stack0| && Above(stack, h, q) && Plug(q, u) == Plug(p, t)
  {
    x, stack, h, q, u := x0, stack0, h0, p, t;
    Here(mem, q, u);
    while mem.Link(x, !d) != NULL
      invariant Zip(mem, q, u) && Whole(q, u) == Whole(p, t) && u.Node? && x == u.id && x in mem.nodes && x > HEAD
      invariant mem.nodes[x] == CellOf(u)
      invariant Passed(q, d) == Passed(p, d)
      invariant |stack| == |stack0| && Above(stack, h, q) && Plug(q, u) == Plug(p, t)
      decreases u
    {
      PlugHeight(q, u);
      AbovePush(stack, h, q, u, !d);
      Descend(mem, q, u, !d);
      stack := stack[h := x];
      h := h + 1;
      x := mem.Link(x, !d);
      q, u := Into(q, u, !d), u.Child(!d);
      Here(mem, q, u);
    }
    Children(mem, q, u);
  }

  /** The do-while loop of rb_t_next: climb while coming from direction `d`.
      `x` is NULL when the stack runs out. */
  method ClimbOut<T>(mem: Store<T>, x0: Ref, d: bool, stack: seq<Ref>, h0: nat, ghost p: Path<T>, ghost t: Tree<T>)
    returns (x: Ref, h: nat, ghost q: Path<T>, ghost u: Tree<T>)
    requires Zip(mem, p, t) && t.Node? && x0 == t.id && Above(stack, h0, p) && t.Child(d).Leaf?
    ensures x == NULL ==> Rank(p, t, d) + 1 == |Whole(p, t)|
    ensures x != NULL ==>
              && Zip(mem, q, u) && Whole(q, u) == Whole(p, t) && u.Node? && x == u.id
              && Rank(q, u, d) == Rank(p, t, d) + 1
              && Above(stack, h, q) && Plug(q, u) == Plug(p, t)
  {
    x, h, q, u := x0, h0, p, t;
    while true
      invariant Zip(mem, q, u) && Whole(q, u) == Whole(p, t) && u.Node? && x == u.id && Above(stack, h, q)
      invariant Passed(q, d) + |Slots(u)| == Rank(p, t, d) + 1 && Plug(q, u) == Plug(p, t)
      decreases h
    {
      if h == 0 {
        return NULL, h, q, u;
      }
      var y := x;
      AbovePop(stack, h, q);
      CameFrom(mem, q, u);
      h := h - 1;
      x := stack[h];
      ghost var dir := q.dir;
      Climb(mem, q, u);
      q, u := q.up, Fill(q, u);
      Here(mem, q, u);
      if y != mem.Link(x, d) {
        break;
      }
    }
  }

  /** The two ways rb_t_next finds the next node. */
  method StepFrom<T>(mem: Store<T>, x0: Ref, d: bool, stack0: seq<Ref>, h0: nat, ghost p: Path<T>, ghost t: Tree<T>)
    returns (x: Ref, stack: seq<Ref>, h: nat, ghost q: Path<T>, ghost u: Tree<T>)
    requires Zip(mem, p, t) && t.Node? && x0 == t.id && Above(stack0, h0, p) && Height(Plug(p, t)) <= |stack0|
    ensures |stack| == |stack0|
    ensures x == NULL ==> Rank(p, t, d) + 1 == |Whole(p, t)|
    ensures x != NULL ==>
              && Zip(mem, q, u) && Whole(q, u) == Whole(p, t) && u.Node? && x == u.id
              && Rank(q, u, d) == Rank(p, t, d) + 1
              && Above(stack, h, q) && Plug(q, u) == Plug(p, t) && x in mem.nodes && mem.nodes[x].data == u.data
  {
    hide Zip, Whole, Slots, Before, After, Rank, Above, StackIds;
    Here(mem, p, t);
    Children(mem, p, t);
    x, stack, h := x0, stack0, h0;
    if mem.Link(x, d) != NULL {
      PlugHeight(p, t);
      AbovePush(stack, h, p, t, d);
      AdvanceDown(mem, p, t, d);
      stack := stack[h := x];
      h := h + 1;
      x := mem.Link(x, d);
      x, stack, h, q, u := Outermost(mem, x, d, stack, h, Into(p, t, d), t.Child(d));
      Here(mem, q, u);
    } else {
      x, h, q, u := ClimbOut(mem, x, d, stack, h, p, t);
      if x != NULL {
        Here(mem, q, u);
      }
    }
  }

  lemma {:induction false} CameFrom<T>(s: Store<T>, p: Path<T>, t: Tree<T>)
    requires Zip(s, p, t) && p.Step? && t.Node?
    ensures p.id in s.nodes && p.id > HEAD && s.Link(p.id, p.dir) == t.id && s.Link(p.id, !p.dir) != t.id
  {
  }

  lemma {:induction false} RootView<T>(s: Store<T>, tree: Tree<T>)
    requires Zip(s, Top, tree)
    ensures s.root == RefOf(tree) && (tree.Node? <==> s.root != NULL) && (tree.Leaf? ==> Slots(tree) == [])
    ensures Passed<T>(Top, true) == Passed<T>(Top, false) == 0 && Whole(Top, tree) == Slots(tree)
    ensures forall stack: seq<Ref> :: Above<T>(stack, 0, Top)
  {
    PlugSlots(Top, tree);
  }

  lemma {:induction false} SlotsHeld<T>(s: Store<T>, tree: Tree<T>)
    requires Zip(s, Top, tree)
    ensures forall x :: x in Slots(tree) ==> x.id > HEAD
  {
    forall x | x in Slots(tree) ensures x.id > HEAD {
      SlotIsHeld(s.nodes, tree, x);
      DistinctIds(tree);
    }
  }

  lemma {:induction false} OnlyRank<T(!new)>(cmp: (T, T) -> int, s: Store<T>, tree: Tree<T>, d: bool, k: nat)
    requires TotalOrder(cmp) && Zip(s, Top, tree) && Sorted(cmp, Slots(tree)) && k < |Slots(tree)|
    ensures forall j: nat :: j < |Slots(tree)| && Nth(Slots(tree), d, j).id == Nth(Slots(tree), d, k).id ==> j == k
  {
    var q := Slots(tree);
    forall j: nat | j < |q| && Nth(q, d, j).id == Nth(q, d, k).id ensures j == k {
      OneRank(cmp, s.nodes, tree, if d then j else |q| - 1 - j, if d then k else |q| - 1 - k);
    }
  }

  lemma {:induction false} AdvanceDown<T>(s: Store<T>, p: Path<T>, t: Tree<T>, d: bool)
    requires Zip(s, p, t) && t.Node?
    ensures Zip(s, Into(p, t, d), t.Child(d)) && Passed(Into(p, t, d), d) == Rank(p, t, d) + 1
    ensures Plug(Into(p, t, d), t.Child(d)) == Plug(p, t) && Whole(Into(p, t, d), t.Child(d)) == Whole(p, t)
  {
    Descend(s, p, t, d);
  }

  class Traverser<T(!new)> {
    var table: Table<T>
    var node: Ref
    var stack: seq<Ref>
    var height: nat
    var generation: int
    ghost var path: Path<T>
    ghost var sub: Tree<T>

    /** The stack leads to the current node in the table as it is now. */
    ghost predicate Placed()
      reads this, table
    {
      && Zip(table.mem, path, sub) && Plug(path, sub) == table.tree
      && sub.Node? && sub.id == node && Above(stack, height, path)
    }

    ghost predicate Valid()
      reads this, table
    {
      && table.Valid() && |stack| == RB_MAX_HEIGHT
      && generation <= table.generation
      && (node != NULL ==> node in table.mem.nodes)
      && (node != NULL && generation == table.generation ==> Placed())
    }

    /** The item of rank `k` in direction `d` is current and was returned; past the end, none is. */
    ghost predicate Selected(d: bool, k: nat, r: Option<T>)
      reads this, table
    {
      var q := table.Items();
      if k < |q| then node == Nth(q, d, k).id && r == Some(Nth(q, d, k).data) else node == NULL && r == None
    }

    /** rb_t_init */
    constructor (table: Table<T>)
      requires table.Valid()
      ensures Valid() && this.table == table && node == NULL
    {
      this.table, node, stack, height := table, NULL, seq(RB_MAX_HEIGHT, _ => HEAD), 0;
      generation := table.generation;
      path, sub := Top, Leaf;
    }

    /** trav_refresh: rebuilds the stack by searching for the current item. */
    method Refresh()
      requires Valid() && Height(table.tree) < RB_MAX_HEIGHT
      modifies this
      ensures Valid() && table == old(table) && node == old(node) && generation == table.generation
    {
      generation := table.generation;
      if node != NULL {
        stack, height, path, sub := FindNode(table.mem, table.cmp, node, stack, table.tree);
      }
    }

    /** rb_t_first (`d`) and rb_t_last (`!d`) on the traverser's own table. */
    method Start(d: bool) returns (r: Option<T>)
      requires Valid() && Height(table.tree) < RB_MAX_HEIGHT
      modifies this
      ensures Valid() && table == old(table) && generation == table.generation && Selected(d, 0, r)
    {
      hide Zip, Whole, Slots, Before, After;
      height := 0;
      generation := table.generation;
      var x := table.mem.root;
      r := None;
      RootView(table.mem, table.tree);
      if x != NULL {
        x, stack, height, path, sub := Outermost(table.mem, x, d, stack, height, Top, table.tree);
        RankIsRank(path, sub, d);
        Here(table.mem, path, sub);
        r := Some(table.mem.nodes[x].data);
      }
      node := x;
    }

    /** rb_t_next (`d`) and rb_t_prev (`!d`): whatever happened to the table since, the current
        item becomes the one next to it in the table as it is now. */
    method Advance(d: bool) returns (r: Option<T>)
      requires Valid() && Height(table.tree) < RB_MAX_HEIGHT
      modifies this
      ensures Valid() && table == old(table) && generation == table.generation
      ensures old(node) == NULL ==> Selected(d, 0, r)
      ensures forall k: nat :: k < |table.Items()| && Nth(table.Items(), d, k).id == old(node) ==> Selected(d, k + 1, r)
    {
      hide Zip, Whole, Slots, Before, After, Rank, Sorted, TotalOrder, RedBlack, Ids, Above, Plug;
      if generation != table.generation {
        Refresh();
      }
      SlotsHeld(table.mem, table.tree);
      var x := node;
      if x == NULL {
        r := Start(d);
        return;
      }
      PlugSlots(path, sub);
      RankIsRank(path, sub, d);
      OnlyRank(table.cmp, table.mem, table.tree, d, Rank(path, sub, d));
      x, stack, height, path, sub := StepFrom(table.mem, x, d, stack, height, path, sub);
      node := x;
      if x == NULL {
        return None;
      }
      RankIsRank(path, sub, d);
      r := Some(table.mem.nodes[x].data);
    }

    /** rb_t_insert: the stale generation makes the next move rebuild the stack. */
    method Insert(item: T, addr: Ref) returns (r: Option<T>)
      requires Valid() && Height(table.tree) < RB_MAX_HEIGHT
      requires addr == NULL || (addr > HEAD && addr !in table.mem.nodes)
      modifies this, table
      ensures Valid() && table == old(table)
      ensures old(table.Has(item)) || addr != NULL ==>
                node in table.mem.nodes && r == Some(table.mem.nodes[node].data) && table.cmp(item, r.value) == 0
      ensures !old(table.Has(item)) && addr == NULL ==> node == NULL && r == None
      // the table changes as rb_probe changes it
      ensures old(table.Has(item)) || addr == NULL ==>
                && table.mem == old(table.mem) && table.tree == old(table.tree)
                && table.generation == old(table.generation)
      ensures !old(table.Has(item)) && addr != NULL ==>
                && node == addr && table.generation == old(table.generation) + 1
                && var q := old(table.Items());
                   exists i :: 0 <= i <= |q| && table.Items() == q[..i] + [Slot(addr, item)] + q[i..]
    {
      hide Slots, Sorted, TotalOrder, RedBlack, Height;
      DistinctIds(table.tree);
      var p := table.Probe(item, addr);
      if p != NULL {
        ProbeHolds(table, p, item, addr, old(table.Items()));
        DistinctIds(table.tree);
        node := p;
        generation := table.generation - 1;
        r := Some(table.mem.nodes[p].data);
      } else {
        node, height, generation, r := NULL, 0, table.generation, None;
      }
    }

    /** rb_t_prev undoes rb_t_next, and the other way round, also across the end of the table. */
    method ThereAndBack(d: bool)
      requires Valid() && Height(table.tree) < RB_MAX_HEIGHT && node != NULL
      modifies this
      ensures Valid() && table == old(table) && node == old(node)
    {
      hide Slots, Placed, Sorted, TotalOrder, RedBlack;
      ghost var q := table.Items();
      SlotOfId(table.mem.nodes, table.tree, node);
      ghost var i :| 0 <= i < |q| && q[i].id == node;
      ghost var k := if d then i else |q| - 1 - i;
      assert Nth(q, d, k).id == node;
      SlotsHeld(table.mem, table.tree);
      var r := Advance(d);
      assert table.Items() == q && Nth(table.Items(), d, k).id == old(node) && Selected(d, k + 1, r);
      ghost var next := node;
      r := Advance(!d);
      assert table.Items() == q && Nth(table.Items(), !d, |q| - 1 - k) == q[i];
      if k + 1 < |q| {
        assert Nth(table.Items(), !d, |q| - 2 - k).id == next;
      }
    }

    /** rb_t_first followed by rb_t_next until it returns nothing visits every item once, in order. */
    method Walk(d: bool) returns (visited: seq<T>)
      requires Valid() && Height(table.tree) < RB_MAX_HEIGHT
      modifies this
      ensures Valid() && table == old(table)
      ensures |visited| == |table.Items()|
      ensures forall k :: 0 <= k < |visited| ==> visited[k] == Nth(table.Items(), d, k).data
    {
      hide Zip, Slots, Placed, Sorted, TotalOrder, RedBlack;
      visited := [];
      var r := Start(d);
      SlotsHeld(table.mem, table.tree);
      while r.Some?
        invariant Valid() && table == old(table) && unchanged(table)
        invariant |visited| <= |table.Items()| && Selected(d, |visited|, r)
        invariant forall k :: 0 <= k < |visited| ==> visited[k] == Nth(table.Items(), d, k).data
        decreases |table.Items()| - |visited|
      {
        ghost var k := |visited|;
        assert Nth(table.Items(), d, k).id == node;
        visited := visited + [r.value];
        r := Advance(d);
      }
    }
  }

  lemma {:induction false} ProbeHolds<T(!new)>(table: Table<T>, p: Ref, item: T, addr: Ref, q: seq<Slot<T>>)
    requires table.Valid()
    requires (p in table.mem.nodes && table.cmp(item, table.mem.nodes[p].data) == 0)
          || (p == addr && exists i :: 0 <= i <= |q| && table.Items() == q[..i] + [Slot(addr, item)] + q[i..])
    ensures p in table.mem.nodes && table.cmp(item, table.mem.nodes[p].data) == 0
  {
    if !(p in table.mem.nodes && table.cmp(item, table.mem.nodes[p].data) == 0) {
      var i :| 0 <= i <= |q| && table.Items() == q[..i] + [Slot(addr, item)] + q[i..];
      assert table.Items()[i] == Slot(addr, item);
      SlotIsHeld(table.mem.nodes, table.tree, Slot(addr, item));
      Swap(table.cmp, item, item);
    }
  }

  /** What other users of a table may do while a traverser stands on an item. */
  datatype Change<T> = Add(item: T, addr: Ref) | Remove(item: T)

  /** Any number of insertions and of deletions of other items, then rb_t_next or rb_t_prev:
      the traverser moves to the neighbour of its item in the table as it has become.  A change
      is skipped where its caller would break the contract of the table: no room on the stack,
      an address in use, or the current item itself. */
  method MoveAfterChanges<T(!new)>(trav: Traverser<T>, changes: seq<Change<T>>, d: bool) returns (r: Option<T>)
    requires trav.Valid() && trav.node != NULL && trav.table.count <= CAPACITY
    modifies trav, trav.table
    ensures trav.Valid() && trav.table == old(trav.table)
    ensures var x := old(Slot(trav.node, trav.table.mem.nodes[trav.node].data));
            && x in trav.table.Items()
            && forall k: nat :: k < |trav.table.Items()| && Nth(trav.table.Items(), d, k) == x ==>
                 trav.Selected(d, k + 1, r)
  {
    var t := trav.table;
    ghost var x := Slot(trav.node, t.mem.nodes[trav.node].data);
    SlotOfId(t.mem.nodes, t.tree, trav.node);
    for i := 0 to |changes|
      invariant trav.Valid() && trav.table == t == old(trav.table) && trav.node == old(trav.node) && t.count <= CAPACITY
      invariant x in t.Items() && t.mem.nodes[trav.node].data == x.data
    {
      StackSuffices(t.tree);
      match changes[i] {
        case Add(item, addr) =>
          if t.count < CAPACITY && (addr == NULL || (addr > HEAD && addr !in t.mem.nodes)) {
            var p := t.Probe(item, addr);
          }
        case Remove(item) =>
          if t.cmp(item, t.mem.nodes[trav.node].data) != 0 {
            var y, k := t.Delete(item);
          }
      }
      assert x in t.Items();
      SlotIsHeld(t.mem.nodes, t.tree, x);
    }
    StackSuffices(t.tree);
    r := trav.Advance(d);
  }
}
