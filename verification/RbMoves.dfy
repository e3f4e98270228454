/**
 The pointer moves rb.c is made of, each proved once on the zipper view:
 descend, climb, recolour, rotate.  Every fix-up case of insertion and deletion
 is a composition of these.
 */
module RbMoves {
  import opened RbShape

  /** The path after descending from `t` in direction `d`. */
  function Into<T>(p: Path<T>, t: Tree<T>, d: bool): Path<T>
    requires t.Node?
  {
    Step(p, t.id, t.color, t.data, d, t.Child(!d))
  }

  lemma {:induction false} WholeFill<T>(p: Path<T>, t: Tree<T>)
    requires p.Step?
    ensures Whole(p.up, Fill(p, t)) == Whole(p, t)
    ensures Ids(Fill(p, t)) == {p.id} + Ids(t) + Ids(p.sib)
  {
    var b, a, x := Before(p.up), After(p.up), [Slot(p.id, p.data)];
    if p.dir {
      assert b + (Slots(p.sib) + x + Slots(t)) + a == (b + (Slots(p.sib) + x)) + Slots(t) + a;
    } else {
      assert b + (Slots(t) + x + Slots(p.sib)) + a == b + Slots(t) + ((x + Slots(p.sib)) + a);
    }
  }

  lemma {:induction false} Descend<T>(s: Store<T>, p: Path<T>, t: Tree<T>, d: bool)
    requires Zip(s, p, t) && t.Node?
    ensures Zip(s, Into(p, t, d), t.Child(d))
    ensures Whole(Into(p, t, d), t.Child(d)) == Whole(p, t)
    ensures PathIds(Into(p, t, d)) + Ids(t.Child(d)) == PathIds(p) + Ids(t)
    ensures Fill(Into(p, t, d), t.Child(d)) == t
  {
    WholeFill(Into(p, t, d), t.Child(d));
  }

  lemma {:induction false} Climb<T>(s: Store<T>, p: Path<T>, t: Tree<T>)
    requires Zip(s, p, t) && p.Step?
    ensures Zip(s, p.up, Fill(p, t))
    ensures Whole(p.up, Fill(p, t)) == Whole(p, t)
    ensures PathIds(p.up) + Ids(Fill(p, t)) == PathIds(p) + Ids(t)
  {
    WholeFill(p, t);
  }

  lemma {:induction false} ColorTree<T>(s: Store<T>, p: Path<T>, t: Tree<T>, c: Color)
    requires Zip(s, p, t) && t.Node?
    ensures Zip(s.SetColor(t.id, c), p, t.(color := c))
    ensures Whole(p, t.(color := c)) == Whole(p, t) && Ids(t.(color := c)) == Ids(t)
  {
    var n := s.SetColor(t.id, c).nodes;
    InFrame(s.nodes, n, t.left);
    InFrame(s.nodes, n, t.right);
    PathFrame(s.nodes, n, p, t.id);
  }

  lemma {:induction false} ColorStep<T>(s: Store<T>, p: Path<T>, t: Tree<T>, c: Color)
    requires Zip(s, p, t) && p.Step?
    ensures Zip(s.SetColor(p.id, c), p.(color := c), t)
    ensures Whole(p.(color := c), t) == Whole(p, t)
  {
    var n := s.SetColor(p.id, c).nodes;
    InFrame(s.nodes, n, t);
    InFrame(s.nodes, n, p.sib);
    PathFrame(s.nodes, n, p.up, p.id);
  }

  /** Turn the zipper from the hole of `p` to the other child of the same node. */
  function Across<T>(p: Path<T>, t: Tree<T>): Path<T>
    requires p.Step?
  {
    p.(dir := !p.dir, sib := t)
  }

  lemma {:induction false} Turn<T>(s: Store<T>, p: Path<T>, t: Tree<T>)
    requires Zip(s, p, t) && p.Step?
    ensures Zip(s, Across(p, t), p.sib)
    ensures Whole(Across(p, t), p.sib) == Whole(p, t)
    ensures PathIds(Across(p, t)) + Ids(p.sib) == PathIds(p) + Ids(t)
  {
    assert Fill(Across(p, t), p.sib) == Fill(p, t);
    Climb(s, p, t);
    Descend(s, p.up, Fill(p, t), !p.dir);
  }

  lemma {:induction false} ColorSib<T>(s: Store<T>, p: Path<T>, t: Tree<T>, c: Color)
    requires Zip(s, p, t) && p.Step? && p.sib.Node?
    ensures Zip(s.SetColor(p.sib.id, c), p.(sib := p.sib.(color := c)), t)
    ensures Whole(p.(sib := p.sib.(color := c)), t) == Whole(p, t)
  {
    Turn(s, p, t);
    ColorTree(s, Across(p, t), p.sib, c);
    Turn(s.SetColor(p.sib.id, c), Across(p, t), p.sib.(color := c));
  }

  /** The subtree that results from rotating `y` above its parent, the last step of `p`. */
  function Rotated<T>(p: Path<T>, y: Tree<T>): Tree<T>
    requires p.Step? && y.Node?
  {
    Mk(y.id, y.color, y.data, p.dir, y.Child(p.dir), Mk(p.id, p.color, p.data, p.dir, y.Child(!p.dir), p.sib))
  }

  /** The store after the three link assignments of a rotation of `y` above `x`, whose own
      parent is `top`, reached from it in direction `topDir`. */
  function RotateStore<T>(s: Store<T>, top: Ref, topDir: bool, x: Ref, d: bool, y: Ref): Store<T>
    requires s.Linkable(top, topDir) && x in s.nodes && y in s.nodes && x > HEAD && y > HEAD
  {
    var s1 := s.SetLink(x, d, s.Link(y, !d));
    var s2 := s1.SetLink(y, !d, x);
    s2.SetLink(top, topDir, y)
  }

  lemma {:induction false} Rotate<T>(s: Store<T>, p: Path<T>, y: Tree<T>)
    requires Zip(s, p, y) && p.Step? && y.Node?
    ensures s.Linkable(TopRef(p.up), TopDir(p.up))
    ensures var s' := RotateStore(s, TopRef(p.up), TopDir(p.up), p.id, p.dir, y.id);
            Zip(s', p.up, Rotated(p, y)) && s'.nodes.Keys == s.nodes.Keys
    ensures Whole(p.up, Rotated(p, y)) == Whole(p, y)
    ensures PathIds(p.up) + Ids(Rotated(p, y)) == PathIds(p) + Ids(y)
  {
    RotatedSlots(p, y);
    SetHole(s, p.up, p.id, y.id);
    RotatePath(s, p, y);
    RotateTree(s, p, y);
  }

  lemma {:induction false} RotatePath<T>(s: Store<T>, p: Path<T>, y: Tree<T>)
    requires Zip(s, p, y) && p.Step? && y.Node? && s.Linkable(TopRef(p.up), TopDir(p.up))
    ensures var s' := RotateStore(s, TopRef(p.up), TopDir(p.up), p.id, p.dir, y.id);
            && s'.root == Entry(p.up, y.id) && PathIn(s'.nodes, p.up, y.id)
            && s'.nodes.Keys == s.nodes.Keys
            && forall q :: q in s.nodes && q !in PathIds(p.up) && q != p.id && q != y.id ==> s'.nodes[q] == s.nodes[q]
  {
    var s1 := s.SetLink(p.id, p.dir, s.Link(y.id, !p.dir));
    var s2 := s1.SetLink(y.id, !p.dir, p.id);
    PathFrame(s.nodes, s2.nodes, p.up, p.id);
    SetHole(s2, p.up, p.id, y.id);
  }

  lemma {:induction false} RotateTree<T>(s: Store<T>, p: Path<T>, y: Tree<T>)
    requires Zip(s, p, y) && p.Step? && y.Node? && s.Linkable(TopRef(p.up), TopDir(p.up))
    ensures In(RotateStore(s, TopRef(p.up), TopDir(p.up), p.id, p.dir, y.id).nodes, Rotated(p, y))
    ensures Distinct(Rotated(p, y))
  {
    RotatePath(s, p, y);
    var n := RotateStore(s, TopRef(p.up), TopDir(p.up), p.id, p.dir, y.id).nodes;
    InFrame(s.nodes, n, y.left);
    InFrame(s.nodes, n, y.right);
    InFrame(s.nodes, n, p.sib);
  }

  lemma {:induction false} RotatedSlots<T>(p: Path<T>, y: Tree<T>)
    requires p.Step? && y.Node?
    ensures Whole(p.up, Rotated(p, y)) == Whole(p, y)
    ensures Ids(Rotated(p, y)) == Ids(y) + {p.id} + Ids(p.sib)
  {
    assert Slots(Rotated(p, y)) == Slots(Fill(p, y));
    WholeFill(p, y);
  }

  lemma {:induction false} PlugSlots<T>(p: Path<T>, t: Tree<T>)
    ensures Slots(Plug(p, t)) == Whole(p, t)
    decreases p
  {
    if p.Step? {
      PlugSlots(p.up, Fill(p, t));
      WholeFill(p, t);
    } else {
      assert Whole(p, t) == Slots(t);
    }
  }
}
