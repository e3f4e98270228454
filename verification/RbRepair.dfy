/**
 The rebalancing loop of deletion (src/rb.c:307-422), one lemma per case for
 the store and one for the black heights.  The subtree in the hole of the path
 has one black node too few.
 */
module RbRepair {
  import opened RbShape
  import opened RbMoves
  import opened RbBalance

  /** Painting the root of `t` black, if it is red, gives a red-black tree of black height `n + 1`;
      otherwise `t` is one of black height `n`. */
  ghost predicate Short<T>(t: Tree<T>, n: nat) {
    if RedRoot(t) then RB(t.left, n) && RB(t.right, n) else RB(t, n)
  }

  /** What one iteration of the loop reads first. */
  lemma {:induction false} RepairView<T>(s: Store<T>, p: Path<T>, t: Tree<T>)
    requires Zip(s, p, t)
    ensures s.Linkable(TopRef(p), TopDir(p)) && s.Link(TopRef(p), TopDir(p)) == RefOf(t)
    ensures RefOf(t) != NULL ==> RefOf(t) in s.nodes
    ensures s.IsRed(RefOf(t)) == RedRoot(t)
    ensures p.Step? ==> s.Linkable(p.id, !p.dir) && s.Link(p.id, !p.dir) == RefOf(p.sib)
    ensures p.Step? && p.sib.Node? ==> p.sib.id in s.nodes && s.nodes[p.sib.id].color == p.sib.color
  {
  }

  /** A hole that misses a black node has a sibling; its children are the nephews. */
  lemma {:induction false} NephewView<T>(s: Store<T>, p: Path<T>, t: Tree<T>, n: nat)
    requires Zip(s, p, t) && p.Step? && PathRB(p, n + 1)
    ensures p.sib.Node? && p.sib.id in s.nodes && p.sib.id > HEAD && s.nodes[p.sib.id] == CellOf(p.sib)
    ensures p.id in s.nodes && p.id > HEAD && s.nodes[p.id].color == p.color
    ensures s.Link(p.id, !p.dir) == p.sib.id
    ensures var l := p.sib.left; (l.Node? ==> l.id in s.nodes) && s.IsRed(RefOf(l)) == RedRoot(l)
    ensures var r := p.sib.right; (r.Node? ==> r.id in s.nodes) && s.IsRed(RefOf(r)) == RedRoot(r)
  {
    Turn(s, p, t);
    Children(s, Across(p, t), p.sib);
  }

  // ---------------------------------------------------------------- red sibling

  /** The path after the red sibling has been rotated above the parent. */
  function Lowered<T>(p: Path<T>): Path<T>
    requires p.Step? && p.sib.Node?
  {
    var w := p.sib;
    Step(Step(p.up, w.id, Black, w.data, p.dir, w.Child(!p.dir)), p.id, Red, p.data, p.dir, w.Child(p.dir))
  }

  lemma {:induction false} SiblingUp<T>(s: Store<T>, p: Path<T>, t: Tree<T>)
    requires Zip(s, p, t) && p.Step? && p.sib.Node?
    ensures p.id in s.nodes && p.sib.id in s.nodes && p.id > HEAD && p.sib.id > HEAD
    ensures s.Linkable(TopRef(p.up), TopDir(p.up))
    ensures var s1 := s.SetColor(p.sib.id, Black).SetColor(p.id, Red);
            var s' := RotateStore(s1, TopRef(p.up), TopDir(p.up), p.id, !p.dir, p.sib.id);
            Zip(s', Lowered(p), t) && s'.nodes.Keys == s.nodes.Keys
    ensures Whole(Lowered(p), t) == Whole(p, t) && PathIds(Lowered(p)) + Ids(t) == PathIds(p) + Ids(t)
  {
    hide Slots, Before, After;
    var d, w := p.dir, p.sib.(color := Black);
    ColorSib(s, p, t, Black);
    var s1, p1 := s.SetColor(w.id, Black), p.(sib := w);
    ColorStep(s1, p1, t, Red);
    var s2, p2 := s1.SetColor(p.id, Red), p1.(color := Red);
    Turn(s2, p2, t);
    var a := Across(p2, t);
    Rotate(s2, a, w);
    var s3, y := RotateStore(s2, TopRef(p.up), TopDir(p.up), p.id, !d, w.id), Rotated(a, w);
    Descend(s3, p.up, y, d);
    Descend(s3, Into(p.up, y, d), y.Child(d), d);
    assert Into(Into(p.up, y, d), y.Child(d), d) == Lowered(p);
  }

  lemma {:induction false} LoweredStack<T>(pa: seq<Ref>, da: seq<bool>, pa': seq<Ref>, da': seq<bool>, k: nat,
                                           p: Path<T>)
    requires OnTop(pa, da, k, p) && p.Step? && p.sib.Node? && k < |pa| && k < |da|
    requires pa' == pa[k := p.id][k - 1 := p.sib.id] && da' == da[k := p.dir]
    ensures OnTop(pa', da', k + 1, Lowered(p))
  {
    StackTop(pa, da, k, p);
    assert pa'[..k+1] == pa[..k-1] + [p.sib.id] + [p.id];
    assert da'[..k+1] == da[..k-1] + [p.dir] + [p.dir];
  }

  lemma {:induction false} LoweredBalance<T>(p: Path<T>, n: nat)
    requires p.Step? && PathRB(p, n + 1) && RedRoot(p.sib)
    ensures PathRB(Lowered(p), n + 1) && Lowered(p).sib.Node? && !RedRoot(Lowered(p).sib)
  {
  }

  // ---------------------------------------------------------------- black sibling, black nephews

  function SiblingReddened<T>(p: Path<T>, t: Tree<T>): Tree<T>
    requires p.Step? && p.sib.Node?
  {
    Mk(p.id, p.color, p.data, p.dir, t, p.sib.(color := Red))
  }

  lemma {:induction false} SiblingRed<T>(s: Store<T>, p: Path<T>, t: Tree<T>)
    requires Zip(s, p, t) && p.Step? && p.sib.Node?
    ensures p.sib.id in s.nodes
    ensures var s' := s.SetColor(p.sib.id, Red);
            Zip(s', p.up, SiblingReddened(p, t)) && s'.nodes.Keys == s.nodes.Keys
    ensures Whole(p.up, SiblingReddened(p, t)) == Whole(p, t)
    ensures PathIds(p.up) + Ids(SiblingReddened(p, t)) == PathIds(p) + Ids(t)
  {
    ColorSib(s, p, t, Red);
    Climb(s.SetColor(p.sib.id, Red), p.(sib := p.sib.(color := Red)), t);
  }

  lemma {:induction false} ReddenedBalance<T>(p: Path<T>, t: Tree<T>, n: nat)
    requires p.Step? && PathRB(p, n + 1) && RB(t, n) && !RedRoot(t)
    requires p.sib.Node? && !RedRoot(p.sib) && !RedRoot(p.sib.left) && !RedRoot(p.sib.right)
    ensures RedRoot(SiblingReddened(p, t)) <==> p.color == Red
    ensures p.color == Red ==> Short(SiblingReddened(p, t), n) && PathRB(p.up, n + 1)
    ensures p.color == Black ==> Short(SiblingReddened(p, t), n + 1) && PathRB(p.up, n + 2)
  {
  }

  // ---------------------------------------------------------------- black sibling, a red nephew

  /** The sibling subtree after its near red child has been rotated above it. */
  function NephewRaised<T>(p: Path<T>): Tree<T>
    requires p.Step? && p.sib.Node? && p.sib.Child(p.dir).Node?
  {
    var d, w := p.dir, p.sib;
    var y := w.Child(d);
    Mk(y.id, Black, y.data, d, y.Child(d), Mk(w.id, Red, w.data, d, y.Child(!d), w.Child(!d)))
  }

  lemma {:induction false} NephewUp<T>(s: Store<T>, p: Path<T>, t: Tree<T>)
    requires Zip(s, p, t) && p.Step? && p.sib.Node? && p.sib.Child(p.dir).Node?
    ensures var w := p.sib; var y := w.Child(p.dir);
            && p.id in s.nodes && w.id in s.nodes && y.id in s.nodes && w.id > HEAD && y.id > HEAD && p.id > HEAD
            && var s' := RotateStore(s.SetColor(y.id, Black).SetColor(w.id, Red), p.id, !p.dir, w.id, p.dir, y.id);
               Zip(s', p.(sib := NephewRaised(p)), t) && s'.nodes.Keys == s.nodes.Keys
    ensures Whole(p.(sib := NephewRaised(p)), t) == Whole(p, t)
    ensures PathIds(p.(sib := NephewRaised(p))) + Ids(t) == PathIds(p) + Ids(t)
  {
    var d, w := p.dir, p.sib;
    Turn(s, p, t);
    var a := Across(p, t);
    Descend(s, a, w, d);
    var b, y := Into(a, w, d), w.Child(d);
    ColorTree(s, b, y, Black);
    var s1, y1 := s.SetColor(y.id, Black), y.(color := Black);
    ColorStep(s1, b, y1, Red);
    var s2, b2 := s1.SetColor(w.id, Red), b.(color := Red);
    Rotate(s2, b2, y1);
    Climb(s, a, w);
    assert Rotated(b2, y1) == NephewRaised(p);
    var s3 := RotateStore(s2, p.id, !d, w.id, d, y.id);
    Turn(s3, a, NephewRaised(p));
  }

  /** The subtree after the sibling has been rotated above the parent, taking its colour. */
  function SiblingRaised<T>(p: Path<T>, t: Tree<T>): Tree<T>
    requires p.Step? && p.sib.Node?
  {
    var d, w := p.dir, p.sib;
    Mk(w.id, p.color, w.data, !d, Blacken(w.Child(!d)), Mk(p.id, Black, p.data, !d, w.Child(d), t))
  }

  lemma {:induction false} SiblingOver<T>(s: Store<T>, p: Path<T>, t: Tree<T>)
    requires Zip(s, p, t) && p.Step? && p.sib.Node? && p.sib.Child(!p.dir).Node?
    ensures var w := p.sib; var z := w.Child(!p.dir);
            && p.id in s.nodes && w.id in s.nodes && z.id in s.nodes && w.id > HEAD && p.id > HEAD
            && s.Linkable(TopRef(p.up), TopDir(p.up))
            && var s1 := s.SetColor(w.id, p.color).SetColor(p.id, Black).SetColor(z.id, Black);
               var s' := RotateStore(s1, TopRef(p.up), TopDir(p.up), p.id, !p.dir, w.id);
               Zip(s', p.up, SiblingRaised(p, t)) && s'.nodes.Keys == s.nodes.Keys
    ensures Whole(p.up, SiblingRaised(p, t)) == Whole(p, t)
    ensures PathIds(p.up) + Ids(SiblingRaised(p, t)) == PathIds(p) + Ids(t)
  {
    hide Slots, Before, After;
    var d, w := p.dir, p.sib;
    var z := w.Child(!d);
    Turn(s, p, t);
    var a := Across(p, t);
    ColorTree(s, a, w, p.color);
    var s1, w1 := s.SetColor(w.id, p.color), w.(color := p.color);
    ColorStep(s1, a, w1, Black);
    var s2, a2 := s1.SetColor(p.id, Black), a.(color := Black);
    Descend(s2, a2, w1, !d);
    ColorTree(s2, Into(a2, w1, !d), z, Black);
    var s3 := s2.SetColor(z.id, Black);
    Climb(s3, Into(a2, w1, !d), z.(color := Black));
    var w3 := Fill(Into(a2, w1, !d), z.(color := Black));
    Rotate(s3, a2, w3);
    assert Rotated(a2, w3) == SiblingRaised(p, t);
  }

  lemma {:induction false} NephewBalance<T>(p: Path<T>, n: nat)
    requires p.Step? && PathRB(p, n + 1) && p.sib.Node? && !RedRoot(p.sib)
    requires RedRoot(p.sib.Child(p.dir)) && !RedRoot(p.sib.Child(!p.dir))
    ensures PathRB(p.(sib := NephewRaised(p)), n + 1)
    ensures NephewRaised(p).Node? && NephewRaised(p).id == p.sib.Child(p.dir).id && !RedRoot(NephewRaised(p))
    ensures RedRoot(NephewRaised(p).Child(!p.dir))
  {
    var d, w := p.dir, p.sib;
    var y := w.Child(d);
    assert RB(y, n);
    assert RB(Mk(w.id, Red, w.data, d, y.Child(!d), w.Child(!d)), n);
    assert RB(NephewRaised(p), n + 1);
  }

  lemma {:induction false} RaisedBalance<T>(p: Path<T>, t: Tree<T>, n: nat) returns (m: nat)
    requires p.Step? && PathRB(p, n + 1) && RB(t, n) && !RedRoot(t)
    requires p.sib.Node? && !RedRoot(p.sib) && RedRoot(p.sib.Child(!p.dir))
    ensures RB(SiblingRaised(p, t), m) && PathRB(p.up, m)
    ensures RedRoot(SiblingRaised(p, t)) ==> p.up.Step? && p.up.color == Black
  {
    var z := p.sib.Child(!p.dir);
    assert RB(z, n) && RB(Blacken(z), n + 1);
    m := if p.color == Red then n + 1 else n + 2;
  }
}
