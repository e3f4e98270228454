/**
 Memory model and shape vocabulary for the red-black tree of src/rb.c.

 `Store` is what the C code can reach: the `rb_root` link of the table and the
 allocated nodes, addressed by `Ref`.  `Tree` and `Path` are the ghost view: a
 subtree, and everything around it (the `pa`/`da` stack read as a zipper).
 */
module RbShape {

  type Ref = nat

  const NULL: Ref := 0
  /** The pseudo-node `(struct rb_node *) &tree->rb_root`: its only usable field is link 0. */
  const HEAD: Ref := 1

  datatype Color = Black | Red

  datatype Cell<T> = Cell(left: Ref, right: Ref, data: T, color: Color) {
    function Link(d: bool): Ref { if d then right else left }
    function WithLink(d: bool, r: Ref): Cell<T> { if d then this.(right := r) else this.(left := r) }
  }

  datatype Store<T> = Store(root: Ref, nodes: map<Ref, Cell<T>>) {

    predicate Linkable(p: Ref, d: bool) { if p == HEAD then !d else p in nodes }

    /** `p->rb_link[d]` */
    function Link(p: Ref, d: bool): Ref
      requires Linkable(p, d)
    {
      if p == HEAD then root else nodes[p].Link(d)
    }

    /** `p->rb_link[d] = r` */
    function SetLink(p: Ref, d: bool, r: Ref): Store<T>
      requires Linkable(p, d)
    {
      if p == HEAD then this.(root := r) else this.(nodes := nodes[p := nodes[p].WithLink(d, r)])
    }

    /** `p->rb_color = c` */
    function SetColor(p: Ref, c: Color): Store<T>
      requires p in nodes
    {
      this.(nodes := nodes[p := nodes[p].(color := c)])
    }

    /** `x != NULL && x->rb_color == RB_RED` */
    predicate IsRed(x: Ref)
      requires x != NULL ==> x in nodes
    {
      x != NULL && nodes[x].color == Red
    }
  }

  /** One occupied node: its address and the item it holds. */
  datatype Slot<T> = Slot(id: Ref, data: T)

  datatype Tree<T> =
    | Leaf
    | Node(id: Ref, color: Color, data: T, left: Tree<T>, right: Tree<T>)
  {
    function Child(d: bool): Tree<T>
      requires Node?
    {
      if d then right else left
    }
  }

  /** The part of a tree outside a subtree.  `Step` is one stack entry: the node
      `pa[k-1]`, the direction `da[k-1]` taken from it, and its other subtree. */
  datatype Path<T> =
    | Top
    | Step(up: Path<T>, id: Ref, color: Color, data: T, dir: bool, sib: Tree<T>)

  /** The node with subtree `near` in direction `d` and `far` in the other one. */
  function Mk<T>(id: Ref, c: Color, x: T, d: bool, near: Tree<T>, far: Tree<T>): Tree<T> {
    if d then Node(id, c, x, far, near) else Node(id, c, x, near, far)
  }

  function RefOf<T>(t: Tree<T>): Ref { if t.Leaf? then NULL else t.id }

  function CellOf<T>(t: Tree<T>): Cell<T>
    requires t.Node?
  {
    Cell(RefOf(t.left), RefOf(t.right), t.data, t.color)
  }

  predicate RedRoot<T>(t: Tree<T>) { t.Node? && t.color == Red }

  function Blacken<T>(t: Tree<T>): Tree<T> { if t.Leaf? then t else t.(color := Black) }

  /** In-order sequence of occupied nodes. */
  function Slots<T>(t: Tree<T>): seq<Slot<T>> {
    if t.Leaf? then [] else Slots(t.left) + [Slot(t.id, t.data)] + Slots(t.right)
  }

  /** Nodes that come before the hole of a path, in order. */
  function Before<T>(p: Path<T>): seq<Slot<T>> {
    if p.Top? then [] else if p.dir then Before(p.up) + (Slots(p.sib) + [Slot(p.id, p.data)]) else Before(p.up)
  }

  /** Nodes that come after the hole of a path, in order. */
  function After<T>(p: Path<T>): seq<Slot<T>> {
    if p.Top? then [] else if p.dir then After(p.up) else ([Slot(p.id, p.data)] + Slots(p.sib)) + After(p.up)
  }

  function Whole<T>(p: Path<T>, t: Tree<T>): seq<Slot<T>> { Before(p) + Slots(t) + After(p) }

  /** Put subtree `t` in the hole of the last step. */
  function Fill<T>(p: Path<T>, t: Tree<T>): Tree<T>
    requires p.Step?
  {
    Mk(p.id, p.color, p.data, p.dir, t, p.sib)
  }

  function Plug<T>(p: Path<T>, t: Tree<T>): Tree<T>
    decreases p
  {
    if p.Top? then t else Plug(p.up, Fill(p, t))
  }

  function Ids<T>(t: Tree<T>): set<Ref> {
    if t.Leaf? then {} else {t.id} + Ids(t.left) + Ids(t.right)
  }

  function PathIds<T>(p: Path<T>): set<Ref> {
    if p.Top? then {} else {p.id} + Ids(p.sib) + PathIds(p.up)
  }

  /** `pa[0 .. k)` and `da[0 .. k)` for a path. */
  function StackIds<T>(p: Path<T>): (r: seq<Ref>)
    ensures |r| == Depth(p) + 1
  {
    if p.Top? then [HEAD] else StackIds(p.up) + [p.id]
  }

  function StackDirs<T>(p: Path<T>): (r: seq<bool>)
    ensures |r| == Depth(p) + 1
  {
    if p.Top? then [false] else StackDirs(p.up) + [p.dir]
  }

  function Depth<T>(p: Path<T>): nat { if p.Top? then 0 else 1 + Depth(p.up) }

  function Max(a: nat, b: nat): nat { if a < b then b else a }

  function Height<T>(t: Tree<T>): nat {
    if t.Leaf? then 0 else 1 + Max(Height(t.left), Height(t.right))
  }

  function Size<T>(t: Tree<T>): nat {
    if t.Leaf? then 0 else Size(t.left) + 1 + Size(t.right)
  }

  // ---------------------------------------------------------------- store holds a tree

  ghost predicate In<T>(m: map<Ref, Cell<T>>, t: Tree<T>) {
    t.Leaf? || (t.id in m && m[t.id] == CellOf(t) && In(m, t.left) && In(m, t.right))
  }

  ghost predicate Distinct<T>(t: Tree<T>) {
    t.Leaf? || (t.id > HEAD && t.id !in Ids(t.left) && t.id !in Ids(t.right)
                && Ids(t.left) !! Ids(t.right) && Distinct(t.left) && Distinct(t.right))
  }

  function StepCell<T>(p: Path<T>, hole: Ref): Cell<T>
    requires p.Step?
  {
    if p.dir then Cell(RefOf(p.sib), hole, p.data, p.color) else Cell(hole, RefOf(p.sib), p.data, p.color)
  }

  ghost predicate PathIn<T>(m: map<Ref, Cell<T>>, p: Path<T>, hole: Ref) {
    p.Top? || (p.id in m && m[p.id] == StepCell(p, hole) && In(m, p.sib) && PathIn(m, p.up, p.id))
  }

  ghost predicate PathDistinct<T>(p: Path<T>) {
    p.Top? || (p.id > HEAD && p.id !in Ids(p.sib) && p.id !in PathIds(p.up)
               && Ids(p.sib) !! PathIds(p.up) && Distinct(p.sib) && PathDistinct(p.up))
  }

  /** What the root link must be when the hole holds `hole`. */
  function Entry<T>(p: Path<T>, hole: Ref): Ref
    decreases p
  {
    if p.Top? then hole else Entry(p.up, p.id)
  }

  /** The store holds subtree `t` in the hole of path `p`. */
  ghost predicate Zip<T>(s: Store<T>, p: Path<T>, t: Tree<T>) {
    && s.root == Entry(p, RefOf(t))
    && PathIn(s.nodes, p, RefOf(t))
    && In(s.nodes, t)
    && Distinct(t) && PathDistinct(p) && Ids(t) !! PathIds(p)
  }

  ghost predicate Agree<T>(m: map<Ref, Cell<T>>, n: map<Ref, Cell<T>>, ids: set<Ref>) {
    forall r :: r in ids && r in m ==> r in n && n[r] == m[r]
  }

  lemma InFrame<T>(m: map<Ref, Cell<T>>, n: map<Ref, Cell<T>>, t: Tree<T>)
    requires In(m, t) && Agree(m, n, Ids(t))
    ensures In(n, t)
  {
    if t.Node? {
      InFrame(m, n, t.left);
      InFrame(m, n, t.right);
      assert t.id in Ids(t);
    }
  }

  lemma PathFrame<T>(m: map<Ref, Cell<T>>, n: map<Ref, Cell<T>>, p: Path<T>, hole: Ref)
    requires PathIn(m, p, hole) && Agree(m, n, PathIds(p))
    ensures PathIn(n, p, hole)
    decreases p
  {
    if p.Step? {
      InFrame(m, n, p.sib);
      PathFrame(m, n, p.up, p.id);
    }
  }

  lemma InIds<T>(m: map<Ref, Cell<T>>, t: Tree<T>)
    requires In(m, t)
    ensures Ids(t) <= m.Keys
  {
  }

  lemma PathInIds<T>(m: map<Ref, Cell<T>>, p: Path<T>, hole: Ref)
    requires PathIn(m, p, hole)
    ensures PathIds(p) <= m.Keys
    decreases p
  {
    if p.Step? {
      InIds(m, p.sib);
      PathInIds(m, p.up, p.id);
    }
  }

  lemma DistinctIds<T>(t: Tree<T>)
    requires Distinct(t)
    ensures forall r :: r in Ids(t) ==> r > HEAD
  {
  }

  function TopRef<T>(p: Path<T>): Ref { if p.Top? then HEAD else p.id }
  function TopDir<T>(p: Path<T>): bool { if p.Top? then false else p.dir }

  /** `pa[k-1]->rb_link[da[k-1]] = r` replaces what the hole refers to, and nothing else. */
  lemma SetHole<T>(s: Store<T>, p: Path<T>, hole: Ref, r: Ref)
    requires s.root == Entry(p, hole) && PathIn(s.nodes, p, hole) && PathDistinct(p)
    ensures s.Linkable(TopRef(p), TopDir(p))
    ensures var s' := s.SetLink(TopRef(p), TopDir(p), r);
            && s'.root == Entry(p, r) && PathIn(s'.nodes, p, r)
            && s'.nodes.Keys == s.nodes.Keys
            && forall q :: q in s.nodes && q !in PathIds(p) ==> s'.nodes[q] == s.nodes[q]
  {
    if p.Step? {
      var n := s.SetLink(TopRef(p), TopDir(p), r).nodes;
      InFrame(s.nodes, n, p.sib);
      PathFrame(s.nodes, n, p.up, p.id);
    }
  }

  /** Zipping all the way up: a path around a subtree is one tree at the root. */
  lemma ZipUp<T>(s: Store<T>, p: Path<T>, t: Tree<T>)
    requires Zip(s, p, t)
    ensures Zip(s, Top, Plug(p, t))
    ensures Ids(Plug(p, t)) == PathIds(p) + Ids(t)
    decreases p
  {
    if p.Step? {
      ZipUp(s, p.up, Fill(p, t));
      assert Ids(Fill(p, t)) == {p.id} + Ids(t) + Ids(p.sib);
    }
  }

  // ---------------------------------------------------------------- colours and balance

  /** `t` is a red-black tree of black height `n`; only its root may be red under a red parent. */
  ghost predicate RB<T>(t: Tree<T>, n: nat) {
    if t.Leaf? then n == 0
    else if t.color == Red then RB(t.left, n) && RB(t.right, n) && !RedRoot(t.left) && !RedRoot(t.right)
    else n > 0 && RB(t.left, n - 1) && RB(t.right, n - 1)
  }

  ghost predicate RedStep<T>(p: Path<T>) { p.Step? && p.color == Red }

  /** Everything outside the hole is in order for a subtree of black height `n`. */
  ghost predicate PathRB<T>(p: Path<T>, n: nat) {
    p.Top? ||
    (if p.color == Red then RB(p.sib, n) && !RedRoot(p.sib) && p.up.Step? && p.up.color == Black && PathRB(p.up, n)
     else RB(p.sib, n) && PathRB(p.up, n + 1))
  }

  ghost predicate RedBlack<T>(t: Tree<T>) { !RedRoot(t) && exists n: nat :: RB(t, n) }

  /** A balanced hole filled with a balanced subtree gives a balanced tree; its root is red
      only if the subtree was the whole tree and had a red root. */
  lemma {:induction false} PlugRB<T>(p: Path<T>, t: Tree<T>, n: nat) returns (m: nat)
    requires RB(t, n) && PathRB(p, n) && (RedRoot(t) ==> !RedStep(p))
    ensures RB(Plug(p, t), m)
    ensures RedRoot(Plug(p, t)) ==> p.Top? && RedRoot(t)
    decreases p
  {
    m := n;
    if p.Step? {
      m := PlugRB(p.up, Fill(p, t), if p.color == Red then n else n + 1);
    }
  }
}
