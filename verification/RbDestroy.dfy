/**
 rb_destroy (src/rb.c:858-883): frees a whole tree without recursion or stack by
 rotating left children up until the smallest node has none.
 */
module RbDestroy {
  import opened RbShape
  import opened RbTable

  /** The subtree after its left child has been rotated above it. */
  function RotatedRight<T>(t: Tree<T>): Tree<T>
    requires t.Node? && t.left.Node?
  {
    var q := t.left;
    Node(q.id, q.color, q.data, q.left, Node(t.id, t.color, t.data, q.right, t.right))
  }

  lemma {:induction false} RotateRight<T>(s: Store<T>, t: Tree<T>)
    requires In(s.nodes, t) && Distinct(t) && t.Node? && t.left.Node?
    ensures t.id in s.nodes && t.id > HEAD && s.Link(t.id, false) == t.left.id && t.left.id in s.nodes
    ensures t.left.id > HEAD
    ensures var s' := s.SetLink(t.id, false, s.Link(t.left.id, true)).SetLink(t.left.id, true, t.id);
            In(s'.nodes, RotatedRight(t)) && s'.nodes.Keys == s.nodes.Keys
    ensures Distinct(RotatedRight(t)) && Ids(RotatedRight(t)) == Ids(t)
    ensures Slots(RotatedRight(t)) == Slots(t) && Size(RotatedRight(t)) == Size(t)
    ensures Size(RotatedRight(t).left) < Size(t.left)
  {
    var q := t.left;
    var s' := s.SetLink(t.id, false, s.Link(q.id, true)).SetLink(q.id, true, t.id);
    InFrame(s.nodes, s'.nodes, q.left);
    InFrame(s.nodes, s'.nodes, q.right);
    InFrame(s.nodes, s'.nodes, t.right);
  }

  /** The items the destructor is called with: those that are not null. */
  function NonNull<T>(q: seq<Slot<T>>, isNull: T -> bool): seq<Slot<T>> {
    if q == [] then [] else (if isNull(q[0].data) then [] else [q[0]]) + NonNull(q[1..], isNull)
  }

  lemma {:induction false} NonNullAll<T>(q: seq<Slot<T>>, isNull: T -> bool)
    requires forall x :: x in q ==> !isNull(x.data)
    ensures NonNull(q, isNull) == q
  {
    if q != [] {
      assert q[0] in q;
      NonNullAll(q[1..], isNull);
    }
  }

  lemma {:induction false} NonNullHas<T>(q: seq<Slot<T>>, isNull: T -> bool, x: Slot<T>)
    ensures x in NonNull(q, isNull) <==> x in q && !isNull(x.data)
  {
    if q != [] {
      NonNullHas(q[1..], isNull, x);
    }
  }

  lemma {:induction false} NonNullFirst<T>(x: Slot<T>, q: seq<Slot<T>>, isNull: T -> bool)
    ensures NonNull([x] + q, isNull) == (if isNull(x.data) then [] else [x]) + NonNull(q, isNull)
  {
    assert ([x] + q)[1..] == q;
  }

  /** The addresses of a sequence of slots. */
  function Addresses<T>(q: seq<Slot<T>>): seq<Ref> { if q == [] then [] else [q[0].id] + Addresses(q[1..]) }

  /** The loop of rb_destroy on any tree in memory.  `visited` is what the destructor is called with, in
      order, `freed` the nodes in the order in which they are freed.  Nothing that has been freed is touched
      again. */
  method DestroyNodes<T>(mem0: Store<T>, isNull: T -> bool, ghost t0: Tree<T>)
    returns (visited: seq<Slot<T>>, freed: seq<Ref>, mem: Store<T>)
    requires In(mem0.nodes, t0) && Distinct(t0) && mem0.root == RefOf(t0) && mem0.nodes.Keys == Ids(t0)
    ensures visited == NonNull(Slots(t0), isNull) && freed == Addresses(Slots(t0)) && mem.nodes == map[]
  {
    hide NonNull, Slots, Addresses;
    mem := mem0;
    var p := mem.root;
    ghost var t := t0;
    visited, freed := [], [];
    while p != NULL
      invariant In(mem.nodes, t) && Distinct(t) && p == RefOf(t) && mem.nodes.Keys == Ids(t)
      invariant visited + NonNull(Slots(t), isNull) == NonNull(Slots(t0), isNull)
      invariant freed + Addresses(Slots(t)) == Addresses(Slots(t0))
      decreases Size(t), if t.Node? then Size(t.left) else 0
    {
      var q;
      if mem.Link(p, false) == NULL {
        q := mem.Link(p, true);
        FirstSlot(t);
        NonNullFirst(Slot(t.id, t.data), Slots(t.right), isNull);
        AddressesFirst(Slot(t.id, t.data), Slots(t.right));
        if !isNull(mem.nodes[p].data) {
          visited := visited + [Slot(p, mem.nodes[p].data)];
        }
        freed := freed + [p];
        InFrame(mem.nodes, mem.nodes - {p}, t.right);
        mem := mem.(nodes := mem.nodes - {p});
        t := t.right;
      } else {
        RotateRight(mem, t);
        q := mem.Link(p, false);
        mem := mem.SetLink(p, false, mem.Link(q, true));
        mem := mem.SetLink(q, true, p);
        t := RotatedRight(t);
      }
      p := q;
    }
    NoneLeft(t, isNull);
  }

  lemma {:induction false} AddressesFirst<T>(x: Slot<T>, q: seq<Slot<T>>)
    ensures Addresses([x] + q) == [x.id] + Addresses(q)
  {
    assert ([x] + q)[1..] == q;
  }

  lemma {:induction false} FirstSlot<T>(t: Tree<T>)
    requires t.Node? && t.left.Leaf?
    ensures Slots(t) == [Slot(t.id, t.data)] + Slots(t.right)
  {
    assert [] + [Slot(t.id, t.data)] == [Slot(t.id, t.data)];
  }

  lemma {:induction false} NoneLeft<T>(t: Tree<T>, isNull: T -> bool)
    requires t.Leaf?
    ensures NonNull(Slots(t), isNull) == [] && Addresses(Slots(t)) == []
  {
  }

  /** rb_destroy: every item that is not null once, in ascending order. */
  method Destroy<T(!new)>(table: Table<T>, isNull: T -> bool) returns (visited: seq<Slot<T>>, freed: seq<Ref>)
    requires table.Valid()
    modifies table
    ensures visited == NonNull(old(table.Items()), isNull) && table.mem.nodes == map[]
    ensures freed == Addresses(old(table.Items()))
    ensures (forall x :: x in old(table.Items()) ==> !isNull(x.data)) ==> visited == old(table.Items())
  {
    if forall x :: x in table.Items() ==> !isNull(x.data) {
      NonNullAll(table.Items(), isNull);
    }
    visited, freed, table.mem := DestroyNodes(table.mem, isNull, table.tree);
  }

  lemma {:induction false} AddressesJoin<T>(p: seq<Slot<T>>, q: seq<Slot<T>>)
    ensures Addresses(p + q) == Addresses(p) + Addresses(q)
  {
    if p == [] {
      assert p + q == q;
    } else {
      AddressesJoin(p[1..], q);
      assert (p + q)[1..] == p[1..] + q;
    }
  }

  ghost predicate Once(s: seq<Ref>) { forall i, j :: 0 <= i < j < |s| ==> s[i] != s[j] }

  /** Every node of a tree once. */
  lemma {:induction false} NodesOnce<T>(t: Tree<T>, a: Ref)
    requires Distinct(t)
    ensures Once(Addresses(Slots(t))) && (a in Addresses(Slots(t)) <==> a in Ids(t))
  {
    if t.Node? {
      var l, x, r := Slots(t.left), [Slot(t.id, t.data)], Slots(t.right);
      AddressesJoin(l + x, r);
      AddressesJoin(l, x);
      assert Addresses(x) == [t.id] by { assert x[1..] == []; }
      forall b ensures b in Addresses(l) <==> b in Ids(t.left) ensures b in Addresses(r) <==> b in Ids(t.right)
               ensures Once(Addresses(l)) && Once(Addresses(r))
      {
        NodesOnce(t.left, b);
        NodesOnce(t.right, b);
      }
      JoinOnce(Addresses(l), t.id, Addresses(r));
    }
  }

  lemma {:induction false} JoinOnce(l: seq<Ref>, x: Ref, r: seq<Ref>)
    requires Once(l) && Once(r) && x !in l && x !in r && forall b :: !(b in l && b in r)
    ensures Once(l + [x] + r)
  {
    var s := l + [x] + r;
    forall i, j | 0 <= i < j < |s| ensures s[i] != s[j] {
      assert i < |l| ==> s[i] in l;
      assert j > |l| ==> s[j] in r;
      assert i > |l| ==> s[i] == r[i - |l| - 1] && s[j] == r[j - |l| - 1];
    }
  }
}
