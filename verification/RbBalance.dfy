/**
 Balance: what one case of the fix-up loops does to the store and to the
 black heights.
 */
module RbBalance {
  import opened RbShape
  import opened RbMoves

  /** `pa[..k]`/`da[..k]` end in the last step of the path. */
  lemma {:induction false} StackTop<T>(pa: seq<Ref>, da: seq<bool>, k: nat, p: Path<T>)
    requires 1 <= k <= |pa| && k <= |da| && pa[..k] == StackIds(p) && da[..k] == StackDirs(p)
    ensures pa[k-1] == TopRef(p) && da[k-1] == TopDir(p)
    ensures p.Step? ==> k >= 2 && pa[..k-1] == StackIds(p.up) && da[..k-1] == StackDirs(p.up)
  {
    assert pa[k-1] == pa[..k][k-1] && da[k-1] == da[..k][k-1];
    if p.Step? {
      assert pa[..k-1] == pa[..k][..k-1] && da[..k-1] == da[..k][..k-1];
    }
  }

  /** The stack `pa[..k]`/`da[..k]` is the path, last entry included. */
  ghost predicate OnTop<T>(pa: seq<Ref>, da: seq<bool>, k: nat, p: Path<T>) {
    && 1 <= k == Depth(p) + 1 <= |pa| && k <= |da|
    && pa[..k] == StackIds(p) && da[..k] == StackDirs(p)
    && pa[k-1] == TopRef(p) && da[k-1] == TopDir(p)
  }

  lemma {:induction false} Popped<T>(pa: seq<Ref>, da: seq<bool>, k: nat, p: Path<T>)
    requires OnTop(pa, da, k, p) && p.Step?
    ensures k >= 2 && OnTop(pa, da, k - 1, p.up)
  {
    StackTop(pa, da, k, p);
    StackTop(pa, da, k - 1, p.up);
  }

  /** The node in the hole. */
  lemma {:induction false} Here<T>(s: Store<T>, p: Path<T>, t: Tree<T>)
    requires Zip(s, p, t)
    ensures t.Node? ==> t.id in s.nodes && t.id > HEAD && s.nodes[t.id] == CellOf(t)
  {
  }

  lemma {:induction false} Children<T>(s: Store<T>, p: Path<T>, t: Tree<T>)
    requires Zip(s, p, t) && t.Node?
    ensures t.left.Node? ==> t.left.id in s.nodes && t.left.id > HEAD && s.nodes[t.left.id] == CellOf(t.left)
    ensures t.right.Node? ==> t.right.id in s.nodes && t.right.id > HEAD && s.nodes[t.right.id] == CellOf(t.right)
  {
    Descend(s, p, t, false);
    Descend(s, p, t, true);
  }

  /** The node on top of the stack, if it is not the pseudo-node. */
  lemma {:induction false} TopCell<T>(s: Store<T>, p: Path<T>, t: Tree<T>)
    requires Zip(s, p, t)
    ensures p.Step? ==> p.id in s.nodes && p.id > HEAD && s.nodes[p.id].color == p.color && Depth(p) >= 1
    ensures p.Step? && p.up.Step? ==> Depth(p) >= 2
  {
  }

  lemma {:induction false} Pushed<T>(pa: seq<Ref>, da: seq<bool>, k: nat, p: Path<T>, t: Tree<T>, d: bool)
    requires k < |pa| && k < |da| && pa[k] == RefOf(t) && da[k] == d && t.Node?
    requires k == Depth(p) + 1 && pa[..k] == StackIds(p) && da[..k] == StackDirs(p)
    ensures OnTop(pa, da, k + 1, Into(p, t, d))
  {
    assert pa[..k+1] == pa[..k] + [t.id] && da[..k+1] == da[..k] + [d];
  }

  /** A search has come down `path` in a balanced tree and stands at `t`. */
  ghost predicate Descent<T>(s: Store<T>, tree: Tree<T>, pa: seq<Ref>, da: seq<bool>, k: nat,
                             path: Path<T>, t: Tree<T>, n: nat) {
    && Zip(s, path, t) && OnTop(pa, da, k, path)
    && Depth(path) + Height(t) <= Height(tree)
    && Whole(path, t) == Slots(tree) && PathIds(path) + Ids(t) == Ids(tree)
    && RB(t, n) && PathRB(path, n) && (RedRoot(t) ==> path.Step? && path.color == Black)
  }

  lemma {:induction false} DescentStart<T>(s: Store<T>, tree: Tree<T>, pa: seq<Ref>, da: seq<bool>, n: nat)
    requires Zip(s, Top, tree) && RB(tree, n) && !RedRoot(tree) && |pa| > 0 && |da| > 0 && pa[0] == HEAD && !da[0]
    ensures Descent(s, tree, pa, da, 1, Top, tree, n) && s.root == RefOf(tree)
  {
    assert pa[..1] == [HEAD] && da[..1] == [false];
    PlugSlots(Top, tree);
  }

  lemma {:induction false} DescentHere<T>(s: Store<T>, tree: Tree<T>, pa: seq<Ref>, da: seq<bool>, k: nat,
                                          path: Path<T>, t: Tree<T>, n: nat)
    requires Descent(s, tree, pa, da, k, path, t, n)
    ensures t.Node? ==> t.id in s.nodes && t.id > HEAD && s.nodes[t.id] == CellOf(t)
    ensures t.Node? ==> k <= Height(tree)
    ensures Whole(path, t) == Slots(tree) && PathIds(path) + Ids(t) == Ids(tree) && Zip(s, path, t)
    ensures RB(t, n) && PathRB(path, n)
    ensures 1 <= k == Depth(path) + 1 <= |pa| && k <= |da| && pa[k-1] == TopRef(path) && da[k-1] == TopDir(path)
    ensures OnTop(pa, da, k, path)
  {
    Here(s, path, t);
  }

  lemma {:induction false} DescentStep<T>(s: Store<T>, tree: Tree<T>, pa: seq<Ref>, da: seq<bool>, k: nat,
                                          path: Path<T>, t: Tree<T>, n: nat, d: bool) returns (m: nat)
    requires Descent(s, tree, pa, da, k, path, t, n) && t.Node? && k < |pa| && k < |da|
    ensures Descent(s, tree, pa[k := t.id], da[k := d], k + 1, Into(path, t, d), t.Child(d), m)
  {
    Descend(s, path, t, d);
    var pa', da' := pa[k := t.id], da[k := d];
    assert pa'[..k] == pa[..k] && da'[..k] == da[..k];
    Pushed(pa', da', k, path, t, d);
    m := if t.color == Red then n else n - 1;
  }

  /** Writing back what is already there changes nothing. */
  lemma {:induction false} SameHole<T>(s: Store<T>, p: Path<T>, t: Tree<T>)
    requires Zip(s, p, t)
    ensures s.Linkable(TopRef(p), TopDir(p)) && s.SetLink(TopRef(p), TopDir(p), RefOf(t)) == s
  {
  }

  /** A fresh red node is hung in an empty hole. */
  lemma {:induction false} Attach<T>(s: Store<T>, p: Path<T>, addr: Ref, item: T)
    requires Zip(s, p, Leaf) && addr > HEAD && addr !in s.nodes
    ensures s.Linkable(TopRef(p), TopDir(p))
    ensures var s' := s.SetLink(TopRef(p), TopDir(p), addr);
            Zip(s'.(nodes := s'.nodes[addr := Cell(NULL, NULL, item, Red)]), p, Node(addr, Red, item, Leaf, Leaf))
    ensures s.SetLink(TopRef(p), TopDir(p), addr).nodes.Keys == s.nodes.Keys
    ensures PathIds(p) + Ids(Node(addr, Red, item, Leaf, Leaf)) == PathIds(p) + Ids<T>(Leaf) + {addr}
  {
    SetHole(s, p, NULL, addr);
    PathInIds(s.nodes, p, NULL);
    var s' := s.SetLink(TopRef(p), TopDir(p), addr);
    PathFrame(s'.nodes, s'.nodes[addr := Cell(NULL, NULL, item, Red)], p, addr);
  }

  // ---------------------------------------------------------------- insertion

  /** Red uncle: parent and uncle turn black, the grandparent red. */
  function Recolored<T>(p: Path<T>, t: Tree<T>): Tree<T>
    requires p.Step? && p.up.Step? && p.up.sib.Node?
  {
    var g := p.up;
    Mk(g.id, Red, g.data, g.dir, Mk(p.id, Black, p.data, p.dir, t, p.sib), Blacken(g.sib))
  }

  /** The three stack entries and the uncle that one iteration of the insertion loop looks at. */
  lemma {:induction false} InsertView<T>(s: Store<T>, pa: seq<Ref>, da: seq<bool>, k: nat, p: Path<T>, t: Tree<T>,
                                         n: nat)
    requires Zip(s, p, t) && OnTop(pa, da, k, p) && RedStep(p) && PathRB(p, n)
    ensures k >= 3 && p.up.Step? && OnTop(pa, da, k - 1, p.up) && OnTop(pa, da, k - 2, p.up.up)
    ensures s.Linkable(p.up.id, !p.up.dir)
    ensures var y := s.Link(p.up.id, !p.up.dir);
            y == RefOf(p.up.sib) && (y != NULL ==> y in s.nodes) && s.IsRed(y) == RedRoot(p.up.sib)
  {
    Climb(s, p, t);
    Climb(s, p.up, Fill(p, t));
    StackTop(pa, da, k, p);
    StackTop(pa, da, k - 1, p.up);
    StackTop(pa, da, k - 2, p.up.up);
    DistinctIds(p.up.sib);
  }

  lemma {:induction false} InsertRecolored<T>(s: Store<T>, p: Path<T>, t: Tree<T>, n: nat)
    requires Zip(s, p, t) && p.Step? && p.up.Step? && RedRoot(p.up.sib) && p.color == Red
    requires RedRoot(t) && RB(t, n) && PathRB(p, n)
    ensures p.id in s.nodes && p.up.id in s.nodes && p.up.sib.id in s.nodes
    ensures var s' := s.SetColor(p.up.sib.id, Black).SetColor(p.id, Black).SetColor(p.up.id, Red);
            Zip(s', p.up.up, Recolored(p, t)) && s'.nodes.Keys == s.nodes.Keys
    ensures Whole(p.up.up, Recolored(p, t)) == Whole(p, t)
    ensures PathIds(p.up.up) + Ids(Recolored(p, t)) == PathIds(p) + Ids(t)
    ensures RB(Recolored(p, t), n + 1) && PathRB(p.up.up, n + 1)
  {
    hide Slots, Before, After;
    var g, y := p.up, Fill(p, t);
    Climb(s, p, t);
    ColorSib(s, g, y, Black);
    var s1, g1 := s.SetColor(g.sib.id, Black), g.(sib := Blacken(g.sib));
    ColorTree(s1, g1, y, Black);
    var s2, y2 := s1.SetColor(p.id, Black), y.(color := Black);
    ColorStep(s2, g1, y2, Red);
    var s3, g3 := s2.SetColor(g.id, Red), g1.(color := Red);
    Climb(s3, g3, y2);
    assert Fill(g3, y2) == Recolored(p, t);
  }

  /** Black uncle, second half: the grandparent turns red below the black `y`. */
  lemma {:induction false} InsertRotated<T>(s: Store<T>, g: Path<T>, y: Tree<T>)
    requires Zip(s, g, y) && g.Step? && y.Node?
    ensures g.id in s.nodes && y.id in s.nodes && g.id > HEAD && y.id > HEAD
    ensures s.Linkable(TopRef(g.up), TopDir(g.up))
    ensures var s1 := s.SetColor(g.id, Red).SetColor(y.id, Black);
            var s' := RotateStore(s1, TopRef(g.up), TopDir(g.up), g.id, g.dir, y.id);
            Zip(s', g.up, Rotated(g.(color := Red), y.(color := Black))) && s'.nodes.Keys == s.nodes.Keys
    ensures Whole(g.up, Rotated(g.(color := Red), y.(color := Black))) == Whole(g, y)
    ensures PathIds(g.up) + Ids(Rotated(g.(color := Red), y.(color := Black))) == PathIds(g) + Ids(y)
  {
    ColorStep(s, g, y, Red);
    ColorTree(s.SetColor(g.id, Red), g.(color := Red), y, Black);
    Rotate(s.SetColor(g.id, Red).SetColor(y.id, Black), g.(color := Red), y.(color := Black));
  }

  lemma {:induction false} InsertBalanced<T>(p: Path<T>, t: Tree<T>, y: Tree<T>, n: nat)
    requires p.Step? && p.up.Step? && p.color == Red && !RedRoot(p.up.sib)
    requires RedRoot(t) && RB(t, n) && PathRB(p, n)
    requires y == if p.dir == p.up.dir then Fill(p, t) else Rotated(p, t)
    ensures RB(Rotated(p.up.(color := Red), y.(color := Black)), n + 1) && PathRB(p.up.up, n + 1)
  {
  }
}
