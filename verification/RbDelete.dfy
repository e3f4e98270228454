/**
 Deletion (src/rb.c:232-428): unlinking a node by relinking its in-order
 successor into its place, and one case each of the rebalancing loop.
 */
module RbDelete {
  import opened RbShape
  import opened RbMoves
  import opened RbBalance

  // ---------------------------------------------------------------- unlinking

  /** No right subtree: the left one moves up. */
  lemma {:induction false} SpliceLeft<T>(s: Store<T>, p: Path<T>, t: Tree<T>)
    requires Zip(s, p, t) && t.Node? && t.right.Leaf?
    ensures s.Linkable(TopRef(p), TopDir(p))
    ensures var s' := s.SetLink(TopRef(p), TopDir(p), RefOf(t.left));
            && Zip(s', p, t.left) && s'.nodes.Keys == s.nodes.Keys
            && t.id in s'.nodes && s'.nodes[t.id].color == t.color
    ensures t.id !in PathIds(p) + Ids(t.left) && PathIds(p) + Ids(t) == PathIds(p) + Ids(t.left) + {t.id}
    ensures Whole(p, t) == Before(p) + Slots(t.left) + [Slot(t.id, t.data)] + After(p)
  {
    assert Slots(t) == Slots(t.left) + [Slot(t.id, t.data)];
    SetHole(s, p, t.id, RefOf(t.left));
    var s' := s.SetLink(TopRef(p), TopDir(p), RefOf(t.left));
    InFrame(s.nodes, s'.nodes, t.left);
  }

  /** `q` goes down from `base` by left links only. */
  ghost predicate Spine<T>(q: Path<T>, base: Path<T>) {
    q == base || (q.Step? && !q.dir && Spine(q.up, base))
  }

  lemma {:induction false} SpineBase<T>(q: Path<T>)
    ensures Spine(q, q)
  {
  }

  lemma {:induction false} SpineDown<T>(q: Path<T>, u: Tree<T>, base: Path<T>)
    requires Spine(q, base) && u.Node?
    ensures Spine(Into(q, u, false), base)
  {
  }

  /** The path with node `was` replaced by node `id` holding `x`. */
  function Subst<T>(q: Path<T>, was: Ref, id: Ref, x: T): Path<T> {
    if q.Top? then q else if q.id == was then q.(id := id, data := x) else q.(up := Subst(q.up, was, id, x))
  }

  lemma {:induction false} SubstShape<T>(q: Path<T>, base: Path<T>, id: Ref, x: T)
    requires Spine(q, base) && base.Step? && base.dir && PathDistinct(q) && id !in PathIds(q) && id > HEAD
    ensures var q' := Subst(q, base.id, id, x);
            && PathDistinct(q') && PathIds(q') == PathIds(q) - {base.id} + {id} && base.id in PathIds(q)
            && Depth(q') == Depth(q) >= Depth(base) && StackDirs(q') == StackDirs(q)
            && StackIds(q') == StackIds(q)[Depth(base) := id]
            && Before(q') == Before(base.up) + (Slots(base.sib) + [Slot(id, x)])
            && Before(q) == Before(base.up) + (Slots(base.sib) + [Slot(base.id, base.data)])
            && After(q') == After(q)
  {
    if q != base {
      SubstShape(q.up, base, id, x);
      assert StackIds(q.up)[Depth(base) := id] + [q.id] == (StackIds(q.up) + [q.id])[Depth(base) := id];
    } else {
      assert StackIds(base.up) + [id] == (StackIds(base.up) + [base.id])[Depth(base) := id];
    }
  }

  lemma {:induction false} SubstRB<T>(q: Path<T>, was: Ref, id: Ref, x: T, n: nat)
    requires PathRB(q, n)
    ensures PathRB(Subst(q, was, id, x), n)
    decreases q
  {
    if q.Step? && q.id != was {
      SubstRB(q.up, was, id, x, if q.color == Red then n else n + 1);
    }
  }

  /** Above its last step the spine is untouched, except that `base` is now node `id`. */
  lemma {:induction false} SubstIn<T>(m: map<Ref, Cell<T>>, m': map<Ref, Cell<T>>, q: Path<T>, base: Path<T>,
                                      hole: Ref, id: Ref, x: T, first: Ref)
    requires Spine(q, base) && base.Step? && base.dir && PathDistinct(q) && PathIn(m, q, hole)
    requires Agree(m, m', PathIds(q) - {base.id} - PathIds(base.up))
    requires id in m' && m'[id] == Cell(RefOf(base.sib), first, x, base.color) && PathIn(m', base.up, id)
    requires base.id in m && first == if q == base then hole else m[base.id].right
    ensures PathIn(m', Subst(q, base.id, id, x), hole)
    decreases q
  {
    if q != base {
      SpineIds(q.up, base);
      assert PathIds(q.up) - {base.id} - PathIds(base.up) <= PathIds(q) - {base.id} - PathIds(base.up);
      SubstIn(m, m', q.up, base, q.id, id, x, first);
      assert q.id !in PathIds(base.up);
    }
    SpineIds(q, base);
    InFrame(m, m', q.sib);
  }

  lemma {:induction false} SpineIds<T>(q: Path<T>, base: Path<T>)
    requires Spine(q, base) && base.Step? && PathDistinct(q)
    ensures PathIds(base) <= PathIds(q)
    ensures Ids(q.sib) !! PathIds(base.up) && base.id !in Ids(q.sib)
    ensures q != base ==> q.id != base.id
  {
    if q != base {
      SpineIds(q.up, base);
    }
  }

  /** The successor `u` of `t` stands in `t`'s place, and the hole is where `u` was. */
  ghost predicate Relinked<T>(s: Store<T>, s': Store<T>, p: Path<T>, t: Tree<T>, q: Path<T>, u: Tree<T>)
    requires t.Node? && u.Node?
  {
    && s'.root == Entry(p, u.id) && PathIn(s'.nodes, p, u.id) && s'.nodes.Keys == s.nodes.Keys
    && u.id in s'.nodes
    && s'.nodes[u.id] ==
       Cell(RefOf(t.left), if q == Into(p, t, true) then RefOf(u.right) else RefOf(t.right), u.data, t.color)
    && (q.Step? && q != Into(p, t, true) ==>
          q.id in s.nodes && q.id in s'.nodes && s'.nodes[q.id] == s.nodes[q.id].(left := RefOf(u.right)))
    && (forall r :: r in s.nodes && r !in PathIds(p) && r != t.id && r != u.id && r != TopRef(q) ==>
          s'.nodes[r] == s.nodes[r])
  }

  lemma {:induction false} RelinkedZip<T>(s: Store<T>, s': Store<T>, p: Path<T>, t: Tree<T>, q: Path<T>, u: Tree<T>)
    requires Zip(s, p, t) && t.Node? && Spine(q, Into(p, t, true))
    requires Zip(s, q, u) && u.Node? && u.left.Leaf? && Relinked(s, s', p, t, q, u)
    ensures Zip(s', Subst(q, t.id, u.id, u.data), u.right)
    ensures t.id !in PathIds(Subst(q, t.id, u.id, u.data)) + Ids(u.right)
    ensures PathIds(q) + Ids(u) == PathIds(Subst(q, t.id, u.id, u.data)) + Ids(u.right) + {t.id}
  {
    hide Before, After, Slots, StackIds, StackDirs, Depth;
    var base := Into(p, t, true);
    SpineIds(q, base);
    SubstShape(q, base, u.id, u.data);
    InFrame(s.nodes, s'.nodes, u.right);
    SubstEntry(q, base, u.id, u.data, RefOf(u.right));
    RelinkedPath(s, s', p, t, q, u);
  }

  lemma {:induction false} RelinkedPath<T>(s: Store<T>, s': Store<T>, p: Path<T>, t: Tree<T>, q: Path<T>, u: Tree<T>)
    requires Zip(s, p, t) && t.Node? && Spine(q, Into(p, t, true))
    requires Zip(s, q, u) && u.Node? && u.left.Leaf? && Relinked(s, s', p, t, q, u)
    ensures PathIn(s'.nodes, Subst(q, t.id, u.id, u.data), RefOf(u.right))
  {
    hide Before, After, Slots, StackIds, StackDirs, Depth, RB, PathRB;
    var base := Into(p, t, true);
    if q == base {
      InFrame(s.nodes, s'.nodes, t.left);
    } else {
      SpineIds(q, base);
      SpineIds(q.up, base);
      InFrame(s.nodes, s'.nodes, q.sib);
      SubstIn(s.nodes, s'.nodes, q.up, base, q.id, u.id, u.data, RefOf(t.right));
    }
  }

  lemma {:induction false} SubstEntry<T>(q: Path<T>, base: Path<T>, id: Ref, x: T, hole: Ref)
    requires Spine(q, base) && base.Step? && PathDistinct(q)
    ensures Entry(Subst(q, base.id, id, x), hole) == Entry(base.up, id)
    decreases q
  {
    SpineIds(q, base);
    if q != base {
      SubstEntry(q.up, base, id, x, q.id);
    }
  }

  /** The successor is the right child itself (src/rb.c:269-275). */
  lemma {:induction false} RelinkNear<T>(s: Store<T>, p: Path<T>, t: Tree<T>)
    requires Zip(s, p, t) && t.Node? && t.right.Node? && t.right.left.Leaf?
    ensures var u := t.right;
            && s.Linkable(TopRef(p), TopDir(p)) && u.id in s.nodes && t.id in s.nodes && u.id > HEAD && t.id > HEAD
            && u.id != t.id && s.nodes[t.id] == CellOf(t) && s.nodes[u.id] == CellOf(u)
            && var s1 := s.SetLink(u.id, false, s.Link(t.id, false)).SetColor(u.id, t.color).SetColor(t.id, u.color);
               var s' := s1.SetLink(TopRef(p), TopDir(p), u.id);
               Relinked(s, s', p, t, Into(p, t, true), u) && t.id in s'.nodes && s'.nodes[t.id].color == u.color
  {
    var u := t.right;
    Descend(s, p, t, true);
    SetHole(s, p, t.id, u.id);
    var s1 := s.SetLink(u.id, false, s.Link(t.id, false)).SetColor(u.id, t.color).SetColor(t.id, u.color);
    PathFrame(s.nodes, s1.nodes, p, t.id);
    SetHole(s1, p, t.id, u.id);
  }

  /** The last three link assignments and the colour exchange of src/rb.c:297-303. */
  function RelinkStore<T>(s: Store<T>, t: Ref, r: Ref, u: Ref): Store<T>
    requires t in s.nodes && r in s.nodes && u in s.nodes && t > HEAD && r > HEAD && u > HEAD
  {
    var s2 := s.SetLink(u, false, s.Link(t, false));
    var s3 := s2.SetLink(r, false, s2.Link(u, true));
    var s4 := s3.SetLink(u, true, s3.Link(t, true));
    s4.SetColor(u, s.nodes[t].color).SetColor(t, s.nodes[u].color)
  }

  lemma {:induction false} RelinkCells<T>(s: Store<T>, t: Ref, r: Ref, u: Ref)
    requires t in s.nodes && r in s.nodes && u in s.nodes && t > HEAD && r > HEAD && u > HEAD
    requires t != r && r != u && u != t
    ensures var s' := RelinkStore(s, t, r, u);
            && s'.root == s.root && s'.nodes.Keys == s.nodes.Keys
            && s'.nodes[u] == Cell(s.nodes[t].left, s.nodes[t].right, s.nodes[u].data, s.nodes[t].color)
            && s'.nodes[r] == s.nodes[r].(left := s.nodes[u].right)
            && s'.nodes[t] == s.nodes[t].(color := s.nodes[u].color)
            && forall q :: q in s.nodes && q != t && q != r && q != u ==> s'.nodes[q] == s.nodes[q]
  {
  }

  lemma {:induction false} FarApart<T>(s: Store<T>, p: Path<T>, t: Tree<T>, q: Path<T>, u: Tree<T>)
    requires Zip(s, p, t) && t.Node? && Spine(q, Into(p, t, true)) && q != Into(p, t, true)
    requires Zip(s, q, u) && u.Node? && u.left.Leaf?
    ensures q.Step? && !q.dir && q.id in s.nodes && q.id > HEAD && s.nodes[q.id] == StepCell(q, u.id)
    ensures t.id in s.nodes && t.id > HEAD && s.nodes[t.id] == CellOf(t)
    ensures u.id in s.nodes && u.id > HEAD && s.nodes[u.id] == CellOf(u)
    ensures q.id != t.id && q.id != u.id && t.id != u.id
    ensures q.id !in PathIds(p) && t.id !in PathIds(p) && u.id !in PathIds(p)
  {
    SpineIds(q, Into(p, t, true));
    SpineIds(q.up, Into(p, t, true));
  }

  /** The successor is further down the left spine of the right subtree (src/rb.c:279-303). */
  lemma {:induction false} RelinkFar<T>(s: Store<T>, p: Path<T>, t: Tree<T>, q: Path<T>, u: Tree<T>)
    requires Zip(s, p, t) && t.Node? && Spine(q, Into(p, t, true)) && q != Into(p, t, true)
    requires Zip(s, q, u) && u.Node? && u.left.Leaf?
    ensures s.Linkable(TopRef(p), TopDir(p)) && u.id in s.nodes && t.id in s.nodes && u.id > HEAD && t.id > HEAD
    ensures q.Step? && q.id in s.nodes && q.id > HEAD
    ensures q.id != t.id && q.id != u.id && t.id != u.id && t.id != TopRef(p) && u.id != TopRef(p)
    ensures s.nodes[t.id] == CellOf(t) && s.nodes[u.id] == CellOf(u)
    ensures var s' := RelinkStore(s.SetLink(TopRef(p), TopDir(p), u.id), t.id, q.id, u.id);
            Relinked(s, s', p, t, q, u) && t.id in s'.nodes && s'.nodes[t.id].color == u.color
  {
    FarApart(s, p, t, q, u);
    SetHole(s, p, t.id, u.id);
    var s0 := s.SetLink(TopRef(p), TopDir(p), u.id);
    RelinkCells(s0, t.id, q.id, u.id);
    PathFrame(s0.nodes, RelinkStore(s0, t.id, q.id, u.id).nodes, p, u.id);
  }

  // ---------------------------------------------------------------- what is missing after unlinking

  /** A node of colour `c` was taken out of the hole of `p`: nothing is missing if it was red,
      one black node if it was black. */
  ghost predicate Gap<T>(p: Path<T>, t: Tree<T>, n: nat, c: Color) {
    && RB(t, n)
    && (if c == Red then PathRB(p, n) && (RedRoot(t) ==> p.Step? && p.color == Black) else PathRB(p, n + 1))
  }

  lemma {:induction false} GapLeft<T>(p: Path<T>, t: Tree<T>, n: nat)
    requires t.Node? && t.right.Leaf? && RB(t, n) && PathRB(p, n)
    ensures t.color == Red ==> Gap(p, t.left, n, Red)
    ensures t.color == Black ==> n > 0 && Gap(p, t.left, n - 1, Black)
  {
  }

  lemma {:induction false} GapSuccessor<T>(q: Path<T>, t: Tree<T>, u: Tree<T>, n: nat)
    requires u.Node? && u.left.Leaf? && RB(u, n) && PathRB(q, n) && (RedRoot(u) ==> q.Step? && q.color == Black)
    requires t.Node?
    ensures var q' := Subst(q, t.id, u.id, u.data);
            && (u.color == Red ==> Gap(q', u.right, n, Red))
            && (u.color == Black ==> n > 0 && Gap(q', u.right, n - 1, Black))
  {
    SubstRB(q, t.id, u.id, u.data, n);
  }

  // ---------------------------------------------------------------- stack and contents after unlinking

  lemma {:induction false} SubstStack<T>(pa: seq<Ref>, da: seq<bool>, k: nat, q: Path<T>, base: Path<T>, id: Ref, x: T)
    requires OnTop(pa, da, k, q) && Spine(q, base) && base.Step? && base.dir && PathDistinct(q)
    requires id !in PathIds(q) && id > HEAD
    ensures Depth(base) < k && OnTop(pa[Depth(base) := id], da, k, Subst(q, base.id, id, x))
  {
    SubstShape(q, base, id, x);
    var pa' := pa[Depth(base) := id];
    assert pa'[..k] == pa[..k][Depth(base) := id];
    StackTop(pa', da, k, Subst(q, base.id, id, x));
  }

  lemma {:induction false} SubstWhole<T>(p: Path<T>, t: Tree<T>, q: Path<T>, u: Tree<T>)
    requires t.Node? && Spine(q, Into(p, t, true)) && PathDistinct(q) && u.Node? && u.left.Leaf?
    requires u.id !in PathIds(q) && u.id > HEAD && Whole(q, u) == Whole(p, t)
    ensures Whole(Subst(q, t.id, u.id, u.data), u.right) == (Before(p) + Slots(t.left)) + (Slots(t.right) + After(p))
  {
    hide Ids, PathIds, StackIds, StackDirs, PathDistinct;
    SubstShape(q, Into(p, t, true), u.id, u.data);
    LeftmostSlots(u);
    Shuffle(Before(p), Slots(t.left), [Slot(t.id, t.data)], [Slot(u.id, u.data)], Slots(u.right), After(q),
        Slots(t.right), After(p));
  }

  lemma {:induction false} Shuffle<S>(a: seq<S>, b: seq<S>, y: seq<S>, x: seq<S>, r: seq<S>, e: seq<S>, c: seq<S>,
                                      f: seq<S>)
    requires (a + (b + y)) + (x + r) + e == a + (b + y + c) + f
    ensures (a + (b + x)) + r + e == (a + b) + (c + f)
  {
    var lo := a + (b + y);
    assert (a + (b + y)) + (x + r) + e == lo + (x + r + e);
    assert a + (b + y + c) + f == lo + (c + f);
    Cancel(lo, x + r + e, c + f);
    assert (a + (b + x)) + r + e == (a + b) + (x + r + e);
  }

  lemma {:induction false} LeftmostSlots<T>(u: Tree<T>)
    requires u.Node? && u.left.Leaf?
    ensures Slots(u) == [Slot(u.id, u.data)] + Slots(u.right)
  {
    assert [] + [Slot(u.id, u.data)] == [Slot(u.id, u.data)];
  }

  lemma {:induction false} Cancel<S>(lo: seq<S>, a: seq<S>, b: seq<S>)
    requires lo + a == lo + b
    ensures a == b
  {
    assert a == (lo + a)[|lo|..];
    assert b == (lo + b)[|lo|..];
  }

  /** Everything an unlinked successor owes, from the store fact `Relinked`. */
  lemma {:induction false} Relocated<T>(s: Store<T>, s': Store<T>, tree: Tree<T>, pa: seq<Ref>, da: seq<bool>, k: nat,
                                        p: Path<T>, t: Tree<T>, q: Path<T>, u: Tree<T>, n: nat) returns (m: nat)
    requires Zip(s, p, t) && t.Node? && Whole(p, t) == Slots(tree) && PathIds(p) + Ids(t) == Ids(tree)
    requires Descent(s, tree, pa, da, k, q, u, n) && Spine(q, Into(p, t, true))
    requires u.Node? && u.left.Leaf? && Relinked(s, s', p, t, q, u)
    ensures var q' := Subst(q, t.id, u.id, u.data); var j := Depth(p) + 1;
            && j < k && OnTop(pa[j := u.id], da, k, q') && k <= Height(tree)
            && Zip(s', q', u.right)
            && t.id !in PathIds(q') + Ids(u.right) && PathIds(p) + Ids(t) == PathIds(q') + Ids(u.right) + {t.id}
            && Whole(q', u.right) == (Before(p) + Slots(t.left)) + (Slots(t.right) + After(p))
            && Gap(q', u.right, m, u.color)
  {
    hide Slots, Before, After, Whole, StackIds, StackDirs, RB, PathRB, Relinked, Gap, Subst, Spine, Zip, Ids, PathIds;
    Outside(s, q, u);
    RelinkedZip(s, s', p, t, q, u);
    SubstStack(pa, da, k, q, Into(p, t, true), u.id, u.data);
    SubstWhole(p, t, q, u);
    GapSuccessor(q, t, u, n);
    m := if u.color == Red then n else n - 1;
  }

  lemma {:induction false} Outside<T>(s: Store<T>, q: Path<T>, u: Tree<T>)
    requires Zip(s, q, u) && u.Node?
    ensures u.id !in PathIds(q) && u.id > HEAD && PathDistinct(q)
  {
    assert u.id in Ids(u);
  }

  /** The node that was unlinked can be freed: the rest is a tree of its own. */
  lemma {:induction false} Unlinked<T>(s: Store<T>, r: Ref, p: Path<T>, t: Tree<T>, n: nat)
    requires Zip(s, p, t) && RB(t, n) && PathRB(p, n) && (RedRoot(t) ==> p.Step? && p.color == Black)
    requires s.nodes.Keys == PathIds(p) + Ids(t) + {r} && r !in PathIds(p) + Ids(t)
    ensures var s' := s.(nodes := s.nodes - {r});
            Zip(s', Top, Plug(p, t)) && s'.nodes.Keys == Ids(Plug(p, t)) == PathIds(p) + Ids(t)
    ensures RedBlack(Plug(p, t)) && Slots(Plug(p, t)) == Whole(p, t)
  {
    var s' := s.(nodes := s.nodes - {r});
    PathFrame(s.nodes, s'.nodes, p, RefOf(t));
    InFrame(s.nodes, s'.nodes, t);
    ZipUp(s', p, t);
    PlugSlots(p, t);
    var m := PlugRB(p, t, n);
  }
}
