/**
 rb_copy (src/rb.c:742-856): copies a tree without recursion. A stack holds the nodes
 whose left subtree is being copied, each with its copy. Every allocation and every call
 of the copying function may fail.
 */
module RbCopy {
  import opened Options
  import opened RbShape
  import opened RbOrder
  import opened RbTable
  import opened RbHeight
  import RbTraverse
  import opened RbDestroy
  import opened RbCopyState
  import opened RbCopyFail
  import opened RbCourse

  /** The tree of the copies. */
  function Mapped<T>(t: Tree<T>, m: map<Ref, Ref>, copy: T -> T): Tree<T> {
    if t.Leaf? then Leaf else
    Node(Img(m, t.id), t.color, copy(t.data), Mapped(t.left, m, copy), Mapped(t.right, m, copy))
  }

  /** Once every node is done, the store holds the mapped tree. */
  lemma {:induction false} Holds<T>(c: Env<T>, out: Cells<T>, m: map<Ref, Ref>, t: Tree<T>, done: set<Ref>)
    requires In(c.org, t) && AllDone(c, out, m, done) && Ids(t) <= done && Injective(m)
    ensures In(out, Mapped(t, m, c.copy)) && RefOf(Mapped(t, m, c.copy)) == Img(m, RefOf(t))
    ensures Ids(t) <= m.Keys
  {
    if t.Node? {
      Holds(c, out, m, t.left, done);
      Holds(c, out, m, t.right, done);
      assert DoneAt(c, out, m, t.id);
    }
  }

  /** Shape, colours and copied items agree, node by node. */
  ghost predicate SameShape<T>(t: Tree<T>, u: Tree<T>, copy: T -> T) {
    if t.Leaf? then u.Leaf? else
    && u.Node? && u.color == t.color && u.data == copy(t.data)
    && SameShape(t.left, u.left, copy) && SameShape(t.right, u.right, copy)
  }

  lemma {:induction false} MappedShape<T>(t: Tree<T>, m: map<Ref, Ref>, copy: T -> T)
    requires Ids(t) <= m.Keys && Distinct(t) && Injective(m)
    ensures SameShape(t, Mapped(t, m, copy), copy) && Distinct(Mapped(t, m, copy))
    ensures forall k :: k in Ids(Mapped(t, m, copy)) <==> exists r :: r in Ids(t) && m[r] == k
  {
    if t.Node? {
      MappedShape(t.left, m, copy);
      MappedShape(t.right, m, copy);
      var u := Mapped(t, m, copy);
      assert t.id in Ids(t);
      forall k | exists r :: r in Ids(t) && m[r] == k ensures k in Ids(u) {
        var r :| r in Ids(t) && m[r] == k;
      }
    }
  }

  /** The same shape and colours are balanced alike. */
  lemma {:induction false} ShapeBalance<T>(t: Tree<T>, u: Tree<T>, copy: T -> T, n: nat)
    requires SameShape(t, u, copy) && RB(t, n)
    ensures RB(u, n) && RedRoot(u) == RedRoot(t)
  {
    if t.Node? {
      var m := if t.color == Red then n else n - 1;
      ShapeBalance(t.left, u.left, copy, m);
      ShapeBalance(t.right, u.right, copy, m);
    }
  }

  /** The items are the copies, in the same order. */
  lemma {:induction false} ShapeItems<T>(t: Tree<T>, u: Tree<T>, copy: T -> T)
    requires SameShape(t, u, copy)
    ensures |Slots(u)| == |Slots(t)| && forall i :: 0 <= i < |Slots(t)| ==> Slots(u)[i].data == copy(Slots(t)[i].data)
  {
    if t.Node? {
      ShapeItems(t.left, u.left, copy);
      ShapeItems(t.right, u.right, copy);
    }
  }

  /** A copying function that keeps the order of items. */
  ghost predicate Keeps<T(!new)>(cmp: (T, T) -> int, copy: T -> T) {
    forall x, y :: cmp(x, y) < 0 ==> cmp(copy(x), copy(y)) < 0
  }

  lemma {:induction false} ShapeOrder<T(!new)>(cmp: (T, T) -> int, t: Tree<T>, u: Tree<T>, copy: T -> T)
    requires SameShape(t, u, copy) && Sorted(cmp, Slots(t)) && Keeps(cmp, copy)
    ensures Sorted(cmp, Slots(u))
  {
    hide Sorted;
    ShapeItems(t, u, copy);
    CopiedOrder(cmp, Slots(t), Slots(u), copy);
  }

  lemma {:induction false} CopiedOrder<T(!new)>(cmp: (T, T) -> int, q: seq<Slot<T>>, r: seq<Slot<T>>, copy: T -> T)
    requires Sorted(cmp, q) && Keeps(cmp, copy) && |r| == |q|
    requires forall i :: 0 <= i < |q| ==> r[i].data == copy(q[i].data)
    ensures Sorted(cmp, r)
  {
    forall i, j | 0 <= i < j < |r| && Pair(i, j) ensures cmp(r[i].data, r[j].data) < 0 {
      assert cmp(q[i].data, q[j].data) < 0;
    }
  }

  // ----- the stack

  const STACK := 2 * (RB_MAX_HEIGHT + 1)

  /** After the pair for the pseudo-root: each pending node with its copy. */
  ghost predicate Stacked<T>(stack: seq<Ref>, height: nat, fs: seq<Tree<T>>, m: map<Ref, Ref>) {
    && |stack| == STACK && height == 2 * (|fs| + 1) <= STACK
    && forall i :: 0 <= i < |fs| ==> stack[2 + 2 * i] == RefOf(fs[i]) && stack[3 + 2 * i] == Img(m, RefOf(fs[i]))
  }

  lemma {:induction false} StackedPush<T>(stack: seq<Ref>, height: nat, fs: seq<Tree<T>>, m: map<Ref, Ref>,
                                          m': map<Ref, Ref>, t: Tree<T>)
    requires Stacked(stack, height, fs, m) && height + 2 <= STACK && t.Node? && t.id in m
    requires Heads(fs) <= m.Keys && forall r :: r in m ==> r in m' && m'[r] == m[r]
    ensures Stacked(stack[height := t.id][height + 1 := m[t.id]], height + 2, fs + [t], m')
  {
    forall i | 0 <= i < |fs| ensures RefOf(fs[i]) in m {
      HeadOf(fs, i);
    }
  }

  lemma {:induction false} StackedPop<T>(stack: seq<Ref>, height: nat, fs: seq<Tree<T>>, m: map<Ref, Ref>)
    requires Stacked(stack, height, fs, m) && fs != []
    ensures height > 2 && Stacked(stack, height - 2, fs[..|fs| - 1], m)
    ensures stack[height - 1] == Img(m, RefOf(fs[|fs| - 1])) && stack[height - 2] == RefOf(fs[|fs| - 1])
  {
  }

  lemma {:induction false} StackedKept<T>(stack: seq<Ref>, height: nat, fs: seq<Tree<T>>, m: map<Ref, Ref>,
                                          m': map<Ref, Ref>)
    requires Stacked(stack, height, fs, m) && Heads(fs) <= m.Keys && forall r :: r in m ==> r in m' && m'[r] == m[r]
    ensures Stacked(stack, height, fs, m')
  {
    forall i | 0 <= i < |fs| ensures RefOf(fs[i]) in m {
      HeadOf(fs, i);
    }
  }

  /** The first `n` addresses of the allocator are the ones in use.  It fails by giving NULL, and gives
      no other address twice. */
  ghost predicate Given<T>(out: Cells<T>, addr: nat -> Ref, n: nat) {
    && (forall i: nat, j: nat :: i < j && addr(i) != NULL ==> addr(i) != addr(j))
    && (forall i: nat :: addr(i) == NULL || addr(i) > HEAD)
    && (forall i: nat :: i < n ==> addr(i) != NULL && addr(i) in out)
    && (forall k :: k in out ==> exists i: nat :: i < n && addr(i) == k)
  }

  lemma {:induction false} GivenNext<T>(out: Cells<T>, addr: nat -> Ref, n: nat, cell: Cell<T>, y: Ref, d: Cell<T>)
    requires Given(out, addr, n) && y in out
    ensures Given(out[y := d], addr, n)
    ensures addr(n) != NULL ==>
              addr(n) !in out && addr(n) > HEAD && Given(out[addr(n) := cell][y := d], addr, n + 1)
  {
  }

  /** What stays in force all along. */
  ghost predicate Setting<T>(c: Env<T>, org: Store<T>, tree: Tree<T>, s: State<T>, out: Store<T>, h: Chances<T>,
                             n: nat)
  {
    && c.org == org.nodes && c.copy == h.copy && c.all == Ids(tree) && In(c.org, tree) && Distinct(tree)
    && s.out == out.nodes && Given(s.out, h.addr, n) && |s.m.Keys| == n && Rooted(s.m, tree)
    && (forall r :: r in s.done ==> r in c.org && c.copy(c.org[r].data) != h.nil)
  }

  /** On the way down and on the way up, what is done and what is left to do make the whole course. */
  ghost predicate OnCourse<T>(h: Chances<T>, s: State<T>, t: Tree<T>, n: nat, o: Outcome) {
    t.Node? && (forall i :: 0 <= i < |s.fs| ==> s.fs[i].Node?) && o == Resume(h, s.fs, Go(h, t, s.m, s.done, n))
  }

  ghost predicate OnCourseUp<T>(h: Chances<T>, s: State<T>, n: nat, o: Outcome) {
    && (forall i :: 0 <= i < |s.fs| ==> s.fs[i].Node?)
    && o == if s.fs == [] then Outcome(true, s.m, s.done, {}, n) else
            Resume(h, s.fs[..|s.fs| - 1], Finish(h, s.fs[|s.fs| - 1], s.m, s.done, n))
  }

  /** An allocation or a call of the copying function failed; `fs` are pending. */
  ghost predicate Stuck<T>(c: Env<T>, tree: Tree<T>, out: Cells<T>, m: map<Ref, Ref>, fs: seq<Tree<T>>,
                           filled: set<Ref>, h: Chances<T>, o: Outcome) {
    && Ragged(c, Cleared(out, m, fs), m, filled, Heads(fs), h.nil) && Rooted(m, tree) && m.Keys <= c.all
    && Heads(fs) <= m.Keys && out.Keys == m.Values && Injective(m) && Given(out, h.addr, o.n)
    && SomeFailure(c, h) && o == Outcome(false, m, filled, Heads(fs), o.n)
  }

  /** Not every node gets memory, or not every item can be copied. */
  ghost predicate SomeFailure<T>(c: Env<T>, h: Chances<T>) {
    || (exists i: nat :: i < |c.all| && h.addr(i) == NULL)
    || (exists r :: r in c.all && r in c.org && c.copy(c.org[r].data) == h.nil)
  }

  lemma {:induction false} Smaller(a: set<Ref>, b: set<Ref>, x: Ref)
    requires a <= b && x in b && x !in a
    ensures |a| < |b|
  {
    assert a <= b - {x};
    SubsetSize(a, b - {x});
  }

  lemma {:induction false} SubsetSize(a: set<Ref>, b: set<Ref>)
    requires a <= b
    ensures |a| <= |b|
  {
    if a != {} {
      var x :| x in a;
      SubsetSize(a - {x}, b - {x});
    }
  }

  // ----- the code

  /** The loop down to the left (src/rb.c:789-813). */
  method DescendLeft<T(==)>(org: Store<T>, out0: Store<T>, h: Chances<T>, junk: Ref -> Cell<T>,
                            stack0: seq<Ref>, height0: nat, x0: Ref, y0: Ref, n0: nat,
                            ghost c: Env<T>, ghost tree: Tree<T>, ghost s0: State<T>, ghost t0: Tree<T>,
                            ghost o: Outcome)
    returns (failed: bool, out: Store<T>, stack: seq<Ref>, height: nat, x: Ref, y: Ref, n: nat, ghost s: State<T>)
    requires Setting(c, org, tree, s0, out0, h, n0) && c.junk == junk && Descending(c, s0, t0)
    requires OnCourse(h, s0, t0, n0, o)
    requires Stacked(stack0, height0, s0.fs, s0.m) && x0 == t0.id && y0 == s0.m[x0]
    ensures out.root == out0.root && forall r :: r in s0.m ==> r in s.m && s.m[r] == s0.m[r]
    ensures failed ==> Stacked(stack, height, s.fs, s.m) && Stuck(c, tree, out.nodes, s.m, s.fs, s.done, h, o)
    ensures !failed ==>
              && Setting(c, org, tree, s, out, h, n) && Processing(c, s) && s.fs != [] && OnCourseUp(h, s, n, o)
              && Stacked(stack, height, s.fs[..|s.fs| - 1], s.m) && x == RefOf(s.fs[|s.fs| - 1]) && y == Img(s.m, x)
              && RestSize(s.fs) == RestSize(s0.fs) + Size(t0)
  {
    hide Stacked, Setting, Descending, Processing, Heads, RestSize, Stuck, Size, OnCourse, OnCourseUp;
    failed, out, stack, height, x, y, n, s := false, out0, stack0, height0, x0, y0, n0, s0;
    ghost var t := t0;
    DescentFacts(c, s, t, stack, height);
    SettingFacts(c, org, tree, s, out, h, n);
    while org.Link(x, false) != NULL
      invariant Setting(c, org, tree, s, out, h, n) && Descending(c, s, t) && OnCourse(h, s, t, n, o)
      invariant t.Node? && x == t.id && x in s.m && y == s.m[x] && x > HEAD && y > HEAD
      invariant Stacked(stack, height, s.fs, s.m)
      invariant x in org.nodes && (org.nodes[x].left == NULL <==> t.left.Leaf?) && org.nodes[x] == CellOf(t)
      invariant y in out.nodes && s.out == out.nodes && c.org == org.nodes
      invariant RestSize(s.fs) + Size(t) == RestSize(s0.fs) + Size(t0) && out.root == out0.root
      invariant forall r :: r in s0.m ==> r in s.m && s.m[r] == s0.m[r]
      decreases t
    {
      DescentFacts(c, s, t, stack, height);
      var a := h.addr(n);
      if a == NULL {
        StuckLeft(c, org, tree, s, out, t, h, n, o);
        out := out.SetLink(y, false, a);
        out := out.(nodes := out.nodes[y := out.nodes[y].(data := h.nil)]);
        out := out.SetLink(y, true, NULL);
        assert out.nodes == s.out[y := Cell(NULL, NULL, h.nil, s.out[y].color)];
        failed := true;
        return;
      }
      SettingLeft(c, org, tree, s, out, h, n, t);
      CourseLeft(c, h, s, t, n, o);
      StackedPush(stack, height, s.fs, s.m, s.m[t.left.id := a], t);
      SizeLeft(s.fs, t);
      out := out.(nodes := out.nodes[a := junk(a)]);
      out := out.SetLink(y, false, a);
      assert out.nodes == WentLeft(c, s, t, a).out;
      stack := stack[height := x][height + 1 := y];
      height := height + 2;
      s, t := WentLeft(c, s, t, a), t.left;
      n := n + 1;
      x := org.Link(x, false);
      y := out.Link(y, false);
      DescentFacts(c, s, t, stack, height);
    }
    SettingStop(c, org, tree, s, out, h, n, t);
    CourseStop(h, s, t, n, o);
    SizeLeft(s.fs, t);
    out := out.SetLink(y, false, NULL);
    s := StoppedLeft(s, t);
  }

  lemma {:induction false} CourseLeft<T>(c: Env<T>, h: Chances<T>, s: State<T>, t: Tree<T>, n: nat, o: Outcome)
    requires OnCourse(h, s, t, n, o) && t.left.Node? && h.addr(n) != NULL && t.id in s.m && s.m[t.id] in s.out
    ensures OnCourse(h, WentLeft(c, s, t, h.addr(n)), t.left, n + 1, o)
  {
    hide Go, Resume;
    ResumeLeft(h, s.fs, t, s.m, s.done, n);
  }

  lemma {:induction false} CourseStop<T>(h: Chances<T>, s: State<T>, t: Tree<T>, n: nat, o: Outcome)
    requires OnCourse(h, s, t, n, o) && t.left.Leaf? && t.id in s.m && s.m[t.id] in s.out
    ensures OnCourseUp(h, StoppedLeft(s, t), n, o)
  {
    hide Resume;
    assert (s.fs + [t])[..|s.fs|] == s.fs;
  }

  lemma {:induction false} CourseRight<T>(c: Env<T>, h: Chances<T>, s: State<T>, n: nat, o: Outcome)
    requires OnCourseUp(h, s, n, o) && s.fs != [] && s.fs[|s.fs| - 1].right.Node? && h.addr(n) != NULL
    requires s.fs[|s.fs| - 1].id in s.m && s.fs[|s.fs| - 1].id in c.org && s.m[s.fs[|s.fs| - 1].id] in s.out
    requires h.copy(s.fs[|s.fs| - 1].data) != h.nil
    ensures OnCourse(h, WentRight(c, s, h.addr(n)), s.fs[|s.fs| - 1].right, n + 1, o)
  {
    hide Resume;
  }

  lemma {:induction false} CourseDone<T>(c: Env<T>, h: Chances<T>, s: State<T>, n: nat, o: Outcome)
    requires OnCourseUp(h, s, n, o) && s.fs != [] && s.fs[|s.fs| - 1].right.Leaf?
    requires s.fs[|s.fs| - 1].id in s.m && s.fs[|s.fs| - 1].id in c.org && s.m[s.fs[|s.fs| - 1].id] in s.out
    requires h.copy(s.fs[|s.fs| - 1].data) != h.nil
    ensures OnCourseUp(h, StoppedRight(c, s), n, o)
  {
  }

  lemma {:induction false} SettingFacts<T>(c: Env<T>, org: Store<T>, tree: Tree<T>, s: State<T>, out: Store<T>,
                                           h: Chances<T>, n: nat)
    requires Setting(c, org, tree, s, out, h, n)
    ensures c.org == org.nodes && s.out == out.nodes
  {
  }

  lemma {:induction false} SizeLeft<T>(fs: seq<Tree<T>>, t: Tree<T>)
    requires t.Node?
    ensures RestSize(fs + [t]) + Size(t.left) == RestSize(fs) + Size(t) && (t.left.Leaf? ==> Size(t.left) == 0)
    ensures (fs + [t])[..|fs|] == fs
  {
    Pushed(fs, t);
  }

  lemma {:induction false} SettingLeft<T>(c: Env<T>, org: Store<T>, tree: Tree<T>, s: State<T>, out: Store<T>,
                                          h: Chances<T>, n: nat, t: Tree<T>)
    requires Setting(c, org, tree, s, out, h, n) && Descending(c, s, t) && t.left.Node? && h.addr(n) != NULL
    requires t.left.id !in s.m && t.left.id > HEAD && t.id in c.org && c.org[t.id] == CellOf(t) && t.id in c.all
    ensures var s' := WentLeft(c, s, t, h.addr(n));
            && Setting(c, org, tree, s', out.(nodes := s'.out), h, n + 1) && Descending(c, s', t.left)
            && h.addr(n) > HEAD && h.addr(n) !in s.out && s'.m == s.m[t.left.id := h.addr(n)]
  {
    hide Given, Rooted, In, Distinct, Base, Parted;
    var y := s.m[t.id];
    GivenNext(s.out, h.addr, n, c.junk(h.addr(n)), y, s.out[y].(left := h.addr(n)));
    GoLeft(c, s, t, h.addr(n));
    RootedChild(c.org, s.m, tree, t.id, t.left.id, h.addr(n));
    assert s.m[t.left.id := h.addr(n)].Keys == s.m.Keys + {t.left.id};
  }

  lemma {:induction false} SettingStop<T>(c: Env<T>, org: Store<T>, tree: Tree<T>, s: State<T>, out: Store<T>,
                                          h: Chances<T>, n: nat, t: Tree<T>)
    requires Setting(c, org, tree, s, out, h, n) && Descending(c, s, t) && t.left.Leaf?
    ensures var s' := StoppedLeft(s, t);
            Setting(c, org, tree, s', out.(nodes := s'.out), h, n) && Processing(c, s')
  {
    hide Given, Rooted, In, Distinct, Base, Parted;
    var y := s.m[t.id];
    GivenNext(s.out, h.addr, n, s.out[y], y, s.out[y].(left := NULL));
    StopLeft(c, s, t);
  }

  lemma {:induction false} DescentFacts<T>(c: Env<T>, s: State<T>, t: Tree<T>, stack: seq<Ref>, height: nat)
    requires Descending(c, s, t) && Stacked(stack, height, s.fs, s.m)
    ensures t.Node? && t.id in c.org && c.org[t.id] == CellOf(t) && t.id > HEAD && t.id in c.all
    ensures s.m[t.id] > HEAD && t.id in s.m && s.m[t.id] in s.out && Heads(s.fs) <= s.m.Keys
    ensures c.org[t.id].left == NULL <==> t.left.Leaf?
    ensures t.left.Node? ==> t.left.id > HEAD && height + 2 <= STACK && t.left.id !in s.m && t.left.id in c.all
    ensures |stack| == STACK && s.m.Keys <= c.all
  {
    PendingNodes(c, s.out, s.m, s.fs);
    DistinctIds(t);
    assert t.id in Ids(t);
    if t.left.Node? {
      assert t.left.id in Ids(t.left);
      assert Height(t) >= 2;
    }
  }

  lemma {:induction false} StuckLeft<T>(c: Env<T>, org: Store<T>, tree: Tree<T>, s: State<T>, out: Store<T>, t: Tree<T>,
                                        h: Chances<T>, n: nat, o: Outcome)
    requires Setting(c, org, tree, s, out, h, n) && Descending(c, s, t) && t.left.Node? && h.addr(n) == NULL
    requires t.left.id !in s.m && t.left.id in c.all && s.m.Keys <= c.all && Heads(s.fs) <= s.m.Keys
    requires OnCourse(h, s, t, n, o)
    ensures var y := s.m[t.id];
            Stuck(c, tree, s.out[y := Cell(NULL, NULL, h.nil, s.out[y].color)], s.m, s.fs, s.done, h, o)
  {
    hide Ragged, Pending, AllDone, Given, Rooted, Parted, In, Distinct, Resume, Heads;
    var y := s.m[t.id];
    FailLeft(c, s, t, h.nil);
    Smaller(s.m.Keys, c.all, t.left.id);
    GivenNext(s.out, h.addr, n, s.out[y], y, Cell(NULL, NULL, h.nil, s.out[y].color));
    ResumeBroken(h, s.fs, Outcome(false, s.m, s.done, {}, n));
    assert {} + Heads(s.fs) == Heads(s.fs);
  }

  /** The inner loop (src/rb.c:815-854): nodes are filled in on the way up, until one has a right subtree or
      none is left. */
  method FillUp<T(==)>(org: Store<T>, out0: Store<T>, h: Chances<T>, junk: Ref -> Cell<T>,
                       stack: seq<Ref>, height0: nat, x0: Ref, y0: Ref, n0: nat,
                       ghost c: Env<T>, ghost tree: Tree<T>, ghost s0: State<T>, ghost o: Outcome)
    returns (end: FillEnd, out: Store<T>, height: nat, x: Ref, y: Ref, n: nat, ghost s: State<T>, ghost t: Tree<T>,
             ghost filled: set<Ref>)
    requires Setting(c, org, tree, s0, out0, h, n0) && c.junk == junk && c.copy == h.copy && Processing(c, s0)
    requires OnCourseUp(h, s0, n0, o)
    requires s0.fs != [] && Stacked(stack, height0, s0.fs[..|s0.fs| - 1], s0.m)
    requires x0 == RefOf(s0.fs[|s0.fs| - 1]) && y0 == Img(s0.m, x0)
    ensures out.root == out0.root && forall r :: r in s0.m ==> r in s.m && s.m[r] == s0.m[r]
    ensures end == Failing ==>
              Stacked(stack, height, s.fs, s.m) && Stuck(c, tree, out.nodes, s.m, s.fs, filled, h, o)
    ensures end == Finished ==>
              Setting(c, org, tree, s, out, h, n) && Processing(c, s) && s.fs == [] && OnCourseUp(h, s, n, o)
    ensures end == Down ==>
              && Setting(c, org, tree, s, out, h, n) && Descending(c, s, t) && t.Node? && OnCourse(h, s, t, n, o)
              && Stacked(stack, height, s.fs, s.m) && x == t.id && x in s.m && y == s.m[x]
              && RestSize(s.fs) + Size(t) < RestSize(s0.fs)
  {
    hide Stacked, Setting, Descending, Processing, Heads, RestSize, Stuck, Size, LeftAt, Pending, In, Distinct,
      OnCourse, OnCourseUp;
    end, out, height, x, y, n, s := Finished, out0, height0, x0, y0, n0, s0;
    while true
      invariant Setting(c, org, tree, s, out, h, n) && Processing(c, s) && s.fs != [] && s.m == s0.m && n == n0
      invariant OnCourseUp(h, s, n, o) && x == RefOf(s.fs[|s.fs| - 1]) && y == Img(s.m, x)
      invariant Stacked(stack, height, s.fs[..|s.fs| - 1], s.m)
      invariant RestSize(s.fs) <= RestSize(s0.fs) && out.root == out0.root
      decreases |s.fs|
    {
      AtHand(c, s);
      ghost var m := s.m;
      end, out, x, y, n, s, t, filled := FillNode(org, out, h, junk, x, y, n, c, tree, s, o);
      StackedKept(stack, height, s.fs, m, s.m);
      if end != Finished {
        return;
      }
      StackedHeight(stack, height, s.fs, s.m);
      if height <= 2 {
        return;
      }
      StackedPop(stack, height, s.fs, s.m);
      height := height - 1;
      y := stack[height];
      height := height - 1;
      x := stack[height];
    }
  }

  /** One turn of that loop for the last of the waiting nodes: its colour, its item, and its right link. */
  method FillNode<T(==)>(org: Store<T>, out0: Store<T>, h: Chances<T>, junk: Ref -> Cell<T>, x0: Ref, y0: Ref, n0: nat,
                         ghost c: Env<T>, ghost tree: Tree<T>, ghost s0: State<T>, ghost o: Outcome)
    returns (end: FillEnd, out: Store<T>, x: Ref, y: Ref, n: nat, ghost s: State<T>, ghost t: Tree<T>,
             ghost filled: set<Ref>)
    requires Setting(c, org, tree, s0, out0, h, n0) && c.junk == junk && c.copy == h.copy && Processing(c, s0)
    requires OnCourseUp(h, s0, n0, o) && s0.fs != [] && x0 == RefOf(s0.fs[|s0.fs| - 1]) && y0 == Img(s0.m, x0)
    ensures out.root == out0.root && s.fs == s0.fs[..|s0.fs| - 1] && RestSize(s.fs) <= RestSize(s0.fs)
    ensures forall r :: r in s0.m ==> r in s.m && s.m[r] == s0.m[r]
    ensures end == Failing ==> Stuck(c, tree, out.nodes, s.m, s.fs, filled, h, o)
    ensures end == Finished ==>
              && s.m == s0.m && n == n0
              && Setting(c, org, tree, s, out, h, n) && Processing(c, s) && OnCourseUp(h, s, n, o)
    ensures end == Down ==>
              && Setting(c, org, tree, s, out, h, n) && Descending(c, s, t) && t.Node? && OnCourse(h, s, t, n, o)
              && x == t.id && x in s.m && y == s.m[x] && RestSize(s.fs) + Size(t) < RestSize(s0.fs)
  {
    hide Setting, Descending, Processing, Heads, RestSize, Stuck, Size, LeftAt, Pending, In, Distinct, OnCourse,
      OnCourseUp;
    end, out, x, y, n, s, t, filled := Finished, out0, x0, y0, n0, s0, Leaf, {};
    ghost var f, rest := s.fs[|s.fs| - 1], s.fs[..|s.fs| - 1];
    AtHand(c, s);
    SettingFacts(c, org, tree, s, out, h, n);
    SizeRight(s.fs);
    out := out.SetColor(y, org.nodes[x].color);
    var item := h.copy(org.nodes[x].data);
    out := out.(nodes := out.nodes[y := out.nodes[y].(data := item)]);
    if item == h.nil {
      out := out.SetLink(y, true, NULL);
      assert out.nodes == s.out[y := Cell(s.out[y].left, NULL, h.nil, org.nodes[x].color)];
      StuckFill(c, org, tree, s, out0, h, n, item, o);
      s, filled, end := s.(fs := rest), s.done, Failing;
      return;
    }
    if org.Link(x, true) != NULL {
      var a := h.addr(n);
      if a == NULL {
        out := out.SetLink(y, true, a);
        assert out.nodes == s.out[y := Cell(s.out[y].left, NULL, item, org.nodes[x].color)];
        StuckFill(c, org, tree, s, out0, h, n, item, o);
        s, filled, end := s.(fs := rest), s.done + {f.id}, Failing;
        return;
      }
      SettingRight(c, org, tree, s, out0, h, n);
      CourseRight(c, h, s, n, o);
      out := out.(nodes := out.nodes[a := junk(a)]);
      out := out.SetLink(y, true, a);
      assert out.nodes == WentRight(c, s, a).out;
      s, t := WentRight(c, s, a), f.right;
      n := n + 1;
      x := org.Link(x, true);
      y := out.Link(y, true);
      end := Down;
      return;
    }
    SettingDone(c, org, tree, s, out0, h, n);
    CourseDone(c, h, s, n, o);
    out := out.SetLink(y, true, NULL);
    assert out.nodes == StoppedRight(c, s).out;
    s := StoppedRight(c, s);
  }

  lemma {:induction false} StackedHeight<T>(stack: seq<Ref>, height: nat, fs: seq<Tree<T>>, m: map<Ref, Ref>)
    requires Stacked(stack, height, fs, m)
    ensures height <= 2 <==> fs == []
    ensures |stack| == STACK && height <= STACK
  {
  }

  /** How the inner loop ends. */
  datatype FillEnd = Finished | Down | Failing

  lemma {:induction false} SizeRight<T>(fs: seq<Tree<T>>)
    requires fs != [] && fs[|fs| - 1].Node?
    ensures RestSize(fs) == RestSize(fs[..|fs| - 1]) + 1 + Size(fs[|fs| - 1].right)
  {
    Popped(fs);
  }

  lemma {:induction false} StuckFill<T>(c: Env<T>, org: Store<T>, tree: Tree<T>, s: State<T>, out: Store<T>,
                                        h: Chances<T>, n: nat, item: T, o: Outcome)
    requires Setting(c, org, tree, s, out, h, n) && Processing(c, s) && s.fs != [] && s.fs[|s.fs| - 1].Node?
    requires s.fs[|s.fs| - 1].id in s.m && s.fs[|s.fs| - 1].id in c.org && s.m[s.fs[|s.fs| - 1].id] in s.out
    requires item == c.copy(c.org[s.fs[|s.fs| - 1].id].data)
    requires item == h.nil || (s.fs[|s.fs| - 1].right.Node? && h.addr(n) == NULL)
    requires OnCourseUp(h, s, n, o) && c.org[s.fs[|s.fs| - 1].id].data == s.fs[|s.fs| - 1].data
    ensures var f := s.fs[|s.fs| - 1]; var y := s.m[f.id];
            Stuck(c, tree, s.out[y := Cell(s.out[y].left, NULL, item, c.org[f.id].color)], s.m, s.fs[..|s.fs| - 1],
                  if item == h.nil then s.done else s.done + {f.id}, h, o)
  {
    hide Ragged, AllDone, Given, Rooted, In, Distinct, LeftAt, Heads, Rest, Pending, Ids, OnCourseUp;
    var f, rest := s.fs[|s.fs| - 1], s.fs[..|s.fs| - 1];
    var y := s.m[f.id];
    AtHand(c, s);
    GivenNext(s.out, h.addr, n, s.out[y], y, Cell(s.out[y].left, NULL, item, c.org[f.id].color));
    CourseBroken(h, s, n, o);
    FailFill(c, s, item, h.nil);
    PendingNodes(c, s.out, s.m, s.fs);
    if f.right.Node? {
      RightIn(f, s.fs);
      Smaller(s.m.Keys, c.all, f.right.id);
    }
    assert s.out[s.m[f.id] := Cell(s.out[s.m[f.id]].left, NULL, item, c.org[f.id].color)].Keys == s.out.Keys;
  }

  lemma {:induction false} CourseBroken<T>(h: Chances<T>, s: State<T>, n: nat, o: Outcome)
    requires OnCourseUp(h, s, n, o) && s.fs != [] && s.fs[|s.fs| - 1].Node?
    requires h.copy(s.fs[|s.fs| - 1].data) == h.nil || (s.fs[|s.fs| - 1].right.Node? && h.addr(n) == NULL)
    ensures var f := s.fs[|s.fs| - 1];
            o == Outcome(false, s.m, if h.copy(f.data) == h.nil then s.done else s.done + {f.id},
                         Heads(s.fs[..|s.fs| - 1]), n)
  {
    hide Resume, Heads;
    var f, rest := s.fs[|s.fs| - 1], s.fs[..|s.fs| - 1];
    ResumeBroken(h, rest, Outcome(false, s.m, if h.copy(f.data) == h.nil then s.done else s.done + {f.id}, {}, n));
    assert {} + Heads(rest) == Heads(rest);
  }

  lemma {:induction false} RightIn<T>(f: Tree<T>, fs: seq<Tree<T>>)
    requires fs != [] && f == fs[|fs| - 1] && f.Node? && f.right.Node?
    ensures f.right.id in Rest(fs)
  {
    assert f.right.id in Ids(f.right);
  }

  lemma {:induction false} SettingRight<T>(c: Env<T>, org: Store<T>, tree: Tree<T>, s: State<T>, out: Store<T>,
                                           h: Chances<T>, n: nat)
    requires Setting(c, org, tree, s, out, h, n) && Processing(c, s) && s.fs != [] && h.addr(n) != NULL
    requires s.fs[|s.fs| - 1].Node? && s.fs[|s.fs| - 1].right.Node?
    requires s.fs[|s.fs| - 1].id in s.m && s.fs[|s.fs| - 1].id in c.org && s.m[s.fs[|s.fs| - 1].id] in s.out
    requires c.copy(c.org[s.fs[|s.fs| - 1].id].data) != h.nil
    ensures var s' := WentRight(c, s, h.addr(n)); var f := s.fs[|s.fs| - 1];
            && Setting(c, org, tree, s', out.(nodes := s'.out), h, n + 1) && Descending(c, s', f.right)
            && h.addr(n) > HEAD && h.addr(n) !in s.out && s'.m == s.m[f.right.id := h.addr(n)]
  {
    hide Given, Rooted, In, Distinct, LeftAt, Pending, Processing, Descending, Heads, Ids;
    var f := s.fs[|s.fs| - 1];
    var y := s.m[f.id];
    AtHand(c, s);
    GivenNext(s.out, h.addr, n, c.junk(h.addr(n)), y, Filled(s.out[y], h.addr(n), c.org[f.id], c.copy));
    GoRight(c, s, h.addr(n));
    RootedChild(c.org, s.m, tree, f.id, f.right.id, h.addr(n));
    assert s.m[f.right.id := h.addr(n)].Keys == s.m.Keys + {f.right.id};
  }

  lemma {:induction false} SettingDone<T>(c: Env<T>, org: Store<T>, tree: Tree<T>, s: State<T>, out: Store<T>,
                                          h: Chances<T>, n: nat)
    requires Setting(c, org, tree, s, out, h, n) && Processing(c, s) && s.fs != []
    requires s.fs[|s.fs| - 1].Node? && s.fs[|s.fs| - 1].right.Leaf?
    requires s.fs[|s.fs| - 1].id in s.m && s.fs[|s.fs| - 1].id in c.org && s.m[s.fs[|s.fs| - 1].id] in s.out
    requires c.copy(c.org[s.fs[|s.fs| - 1].id].data) != h.nil
    ensures var s' := StoppedRight(c, s);
            Setting(c, org, tree, s', out.(nodes := s'.out), h, n) && Processing(c, s')
  {
    hide Given, Rooted, In, Distinct, Base;
    var f := s.fs[|s.fs| - 1];
    var y := s.m[f.id];
    GivenNext(s.out, h.addr, n, s.out[y], y, Filled(s.out[y], NULL, c.org[f.id], c.copy));
    StopRight(c, s);
  }

  /** The loop of copy_error_recovery. */
  method ErrorRecovery<T>(out0: Store<T>, stack: seq<Ref>, height0: nat, ghost m: map<Ref, Ref>,
                          ghost fs0: seq<Tree<T>>)
    returns (out: Store<T>)
    requires Stacked(stack, height0, fs0, m) && Heads(fs0) <= m.Keys && out0.nodes.Keys == m.Values && Injective(m)
    ensures out == out0.(nodes := Cleared(out0.nodes, m, fs0))
  {
    hide Stacked, Injective;
    out := out0;
    var height := height0;
    ghost var fs := fs0;
    while height > 2
      invariant Stacked(stack, height, fs, m) && Heads(fs) <= m.Keys && out.nodes.Keys == m.Values
      invariant out.root == out0.root
      invariant Cleared(out.nodes, m, fs) == Cleared(out0.nodes, m, fs0)
      decreases height
    {
      StackedHeight(stack, height, fs, m);
      StackedPop(stack, height, fs, m);
      LastCopy(m, fs);
      out := out.SetLink(stack[height - 1], true, NULL);
      fs := fs[..|fs| - 1];
      height := height - 2;
    }
    StackedHeight(stack, height, fs, m);
  }

  lemma {:induction false} LastCopy<T>(m: map<Ref, Ref>, fs: seq<Tree<T>>)
    requires fs != [] && Heads(fs) <= m.Keys && Injective(m)
    ensures var r := RefOf(fs[|fs| - 1]); r in m && m[r] in m.Values && m[r] > HEAD && Img(m, r) == m[r]
  {
    HeadOf(fs, |fs| - 1);
    InValues(m);
  }

  /** The loops of rb_copy on a tree that is not empty. The first turn, which copies the root under the
      pseudo-node, is written out. How far it gets is its course; if something fails, the copies made so far are
      left as a tree of their own. */
  method CopyNodes<T(==)>(org: Store<T>, h: Chances<T>, junk: Ref -> Cell<T>, ghost tree: Tree<T>)
    returns (ok: bool, out: Store<T>)
    requires Zip(org, Top, tree) && tree.Node? && Height(tree) <= RB_MAX_HEIGHT && Given<T>(map[], h.addr, 0)
    ensures var o := Course(h, tree); var c := Env(org.nodes, h.copy, junk, Ids(tree));
            && ok == o.ok && (ok <==> !SomeFailure(c, h)) && Given(out.nodes, h.addr, o.n)
            && Injective(o.m) && out.nodes.Keys == o.m.Values && out.root == Img(o.m, tree.id)
            && (ok ==> o.m.Keys == Ids(tree) && o.n == |Ids(tree)| && In(out.nodes, Mapped(tree, o.m, h.copy)))
            && (!ok ==>
                Ragged(c, out.nodes, o.m, o.filled, o.waiting, h.nil) && Rooted(o.m, tree) && o.m.Keys <= Ids(tree))
  {
    hide Descending, Processing, Stacked, Given, Zip, RestSize, In, Distinct, Injective, Mapped, Setting, Stuck,
      Ragged, Rooted, SomeFailure, Heads, Ids, Cleared, Size, OnCourse, OnCourseUp, Go;
    ghost var c, o := Env(org.nodes, h.copy, junk, Ids(tree)), Course(h, tree);
    var stack: seq<Ref> := seq(STACK, _ => NULL);
    ZipRoot(org, tree);
    var a := h.addr(0);
    if a == NULL {
      NothingYet(c, tree, h);
      return false, Store(NULL, map[]);
    }
    Started(c, org, tree, h, stack[0 := HEAD][1 := HEAD]);
    out := Store(NULL, map[a := junk(a)]);
    out := out.SetLink(HEAD, false, a);
    stack := stack[0 := HEAD][1 := HEAD];
    var height, n, x, y := 2, 1, org.Link(HEAD, false), out.Link(HEAD, false);
    ghost var s, t := State(map[a := junk(a)], map[tree.id := a], {}, []), tree;
    ghost var filled: set<Ref> := {};
    CourseStart(h, tree, s);
    var end := Down;
    while end == Down
      invariant end == Down ==>
                  && Setting(c, org, tree, s, out, h, n) && Descending(c, s, t) && OnCourse(h, s, t, n, o)
                  && Stacked(stack, height, s.fs, s.m) && t.Node? && x == t.id && x in s.m && y == s.m[x]
      invariant end == Finished ==>
                  Setting(c, org, tree, s, out, h, n) && Processing(c, s) && s.fs == [] && OnCourseUp(h, s, n, o)
      invariant end == Failing ==>
                  Stacked(stack, height, s.fs, s.m) && Stuck(c, tree, out.nodes, s.m, s.fs, filled, h, o)
      invariant tree.id in s.m && out.root == s.m[tree.id]
      decreases if end == Down then 1 else 0, RestSize(s.fs) + Size(t)
    {
      ghost var s1;
      var failed;
      failed, out, stack, height, x, y, n, s1 :=
        DescendLeft(org, out, h, junk, stack, height, x, y, n, c, tree, s, t, o);
      if failed {
        s, filled, end := s1, s1.done, Failing;
      } else {
        end, out, height, x, y, n, s, t, filled :=
          FillUp(org, out, h, junk, stack, height, x, y, n, c, tree, s1, o);
      }
    }
    if end == Failing {
      StuckFacts(c, tree, out.nodes, s.m, s.fs, filled, h, o);
      out := ErrorRecovery(out, stack, height, s.m, s.fs);
      ok := false;
    } else {
      AllCopied(c, org, tree, s, out, h, n, o);
      ok := true;
    }
  }

  lemma {:induction false} CourseStart<T>(h: Chances<T>, tree: Tree<T>, s: State<T>)
    requires tree.Node? && h.addr(0) != NULL && s.m == map[tree.id := h.addr(0)] && s.done == {} && s.fs == []
    ensures OnCourse(h, s, tree, 1, Course(h, tree))
  {
  }

  lemma {:induction false} StuckFacts<T>(c: Env<T>, tree: Tree<T>, out: Cells<T>, m: map<Ref, Ref>, fs: seq<Tree<T>>,
                                         filled: set<Ref>, h: Chances<T>, o: Outcome)
    requires Stuck(c, tree, out, m, fs, filled, h, o)
    ensures Ragged(c, Cleared(out, m, fs), m, filled, Heads(fs), h.nil) && Rooted(m, tree) && m.Keys <= c.all
    ensures Heads(fs) <= m.Keys && out.Keys == m.Values && Injective(m) && SomeFailure(c, h)
    ensures o == Outcome(false, m, filled, Heads(fs), o.n)
    ensures Given(Cleared(out, m, fs), h.addr, o.n) && Cleared(out, m, fs).Keys == out.Keys
  {
    hide Ragged, Rooted, Injective, Cleared;
    ClearedKeys(out, m, fs);
    GivenSame(out, Cleared(out, m, fs), h.addr, o.n);
  }

  lemma {:induction false} GivenSame<T>(out: Cells<T>, out': Cells<T>, addr: nat -> Ref, n: nat)
    requires Given(out, addr, n) && out'.Keys == out.Keys
    ensures Given(out', addr, n)
  {
    assert forall k :: k in out' <==> k in out'.Keys;
  }

  lemma {:induction false} ZipRoot<T>(org: Store<T>, tree: Tree<T>)
    requires Zip(org, Top, tree) && tree.Node?
    ensures org.root == tree.id && tree.id > HEAD && In(org.nodes, tree) && Distinct(tree)
  {
  }

  lemma {:induction false} NothingYet<T>(c: Env<T>, tree: Tree<T>, h: Chances<T>)
    requires tree.Node? && c.all == Ids(tree) && h.addr(0) == NULL
    ensures Ragged(c, map[], map[], {}, {}, h.nil) && Rooted(map[], tree) && SomeFailure(c, h)
  {
    assert tree.id in Ids(tree);
    assert |Ids(tree)| > 0;
    var none: map<Ref, Ref> := map[];
    assert none.Values == {};
  }

  lemma {:induction false} Started<T>(c: Env<T>, org: Store<T>, tree: Tree<T>, h: Chances<T>,
                                      stack: seq<Ref>)
    requires c.org == org.nodes && c.all == Ids(tree) && In(c.org, tree) && Distinct(tree) && tree.Node?
    requires c.copy == h.copy && Height(tree) <= RB_MAX_HEIGHT && Given<T>(map[], h.addr, 0) && h.addr(0) != NULL
    requires |stack| == STACK
    ensures var a := h.addr(0); var s := State(map[a := c.junk(a)], map[tree.id := a], {}, []);
            && a > HEAD && tree.id > HEAD && Descending(c, s, tree) && Stacked<T>(stack, 2, [], s.m)
            && Setting(c, org, tree, s, Store(a, s.out), h, 1)
  {
    hide In, Height, Rooted, Given, Ids;
    FirstAddress<T>(h.addr, c.junk(h.addr(0)));
    FirstRoot(tree, h.addr(0));
    FirstState(c, tree, h.addr(0));
  }

  lemma {:induction false} FirstAddress<T>(addr: nat -> Ref, cell: Cell<T>)
    requires Given<T>(map[], addr, 0) && addr(0) != NULL
    ensures addr(0) > HEAD && Given(map[addr(0) := cell], addr, 1)
  {
  }

  lemma {:induction false} FirstRoot<T>(tree: Tree<T>, a: Ref)
    requires tree.Node? && Distinct(tree)
    ensures Rooted(map[tree.id := a], tree) && |map[tree.id := a].Keys| == 1
  {
    var none: map<Ref, Ref>, m := map[], map[tree.id := a];
    assert Rooted(none, tree);
    RootedHere(none, tree, a);
    assert none[tree.id := a] == m && m.Keys == {tree.id};
  }

  lemma {:induction false} FirstState<T>(c: Env<T>, tree: Tree<T>, a: Ref)
    requires c.all == Ids(tree) && In(c.org, tree) && Distinct(tree) && tree.Node? && Height(tree) <= RB_MAX_HEIGHT
    requires a > HEAD
    ensures tree.id > HEAD && Descending(c, State(map[a := c.junk(a)], map[tree.id := a], {}, []), tree)
  {
    hide In, Height;
    var m := map[tree.id := a];
    assert m[tree.id] in m.Values;
    assert m.Values == {a} && m.Keys == {tree.id};
    assert tree.id in Ids(tree);
  }

  lemma {:induction false} AllCopied<T>(c: Env<T>, org: Store<T>, tree: Tree<T>, s: State<T>, out: Store<T>,
                                        h: Chances<T>, n: nat, o: Outcome)
    requires Setting(c, org, tree, s, out, h, n) && Processing(c, s) && s.fs == [] && tree.Node?
    requires OnCourseUp(h, s, n, o)
    ensures Injective(s.m) && s.m.Keys == c.all && s.out.Keys == s.m.Values && Given(s.out, h.addr, n) && n == |c.all|
    ensures In(s.out, Mapped(tree, s.m, c.copy)) && tree.id in s.m && RefOf(Mapped(tree, s.m, c.copy)) == s.m[tree.id]
    ensures !SomeFailure(c, h) && s.out == out.nodes && o == Outcome(true, s.m, s.done, {}, n)
  {
    hide In, Mapped, AllDone, Given, Rooted, Distinct, Injective, SomeFailure;
    assert tree.id in Ids(tree);
    Holds(c, s.out, s.m, tree, s.done);
    NothingFailed(c, h, s.out, s.done, n);
  }

  lemma {:induction false} NothingFailed<T>(c: Env<T>, h: Chances<T>, out: Cells<T>, done: set<Ref>, n: nat)
    requires Given(out, h.addr, n) && n == |c.all| && done == c.all && c.copy == h.copy
    requires forall r :: r in done ==> r in c.org && c.copy(c.org[r].data) != h.nil
    ensures !SomeFailure(c, h)
  {
  }

  // ----- rb_copy

  lemma {:induction false} IdsSize<T>(t: Tree<T>)
    requires Distinct(t)
    ensures |Ids(t)| == |Slots(t)|
  {
    if t.Node? {
      IdsSize(t.left);
      IdsSize(t.right);
      assert Ids(t) == {t.id} + (Ids(t.left) + Ids(t.right));
      assert |Ids(t.left) + Ids(t.right)| == |Ids(t.left)| + |Ids(t.right)|;
    }
  }

  /** Nothing fails: memory for every item, and every item can be copied. */
  ghost predicate Lucky<T>(items: seq<Slot<T>>, h: Chances<T>) {
    && (forall i: nat :: i < |items| ==> h.addr(i) != NULL)
    && (forall x :: x in items ==> h.copy(x.data) != h.nil)
  }

  lemma {:induction false} LuckyMeans<T>(org: Store<T>, tree: Tree<T>, h: Chances<T>, junk: Ref -> Cell<T>)
    requires In(org.nodes, tree) && Distinct(tree)
    ensures |Ids(tree)| == |Slots(tree)|
    ensures Lucky(Slots(tree), h) <==> !SomeFailure(Env(org.nodes, h.copy, junk, Ids(tree)), h)
  {
    IdsSize(tree);
    forall r | r in Ids(tree) ensures r in org.nodes && Slot(r, org.nodes[r].data) in Slots(tree) {
      RbTraverse.SlotOfId(org.nodes, tree, r);
    }
    forall x | x in Slots(tree) ensures x.id in Ids(tree) && x.id in org.nodes && x.data == org.nodes[x.id].data {
      RbTraverse.SlotIsHeld(org.nodes, tree, x);
    }
  }

  lemma {:induction false} MappedIds<T>(t: Tree<T>, m: map<Ref, Ref>, copy: T -> T)
    requires Ids(t) == m.Keys && Distinct(t) && Injective(m)
    ensures Ids(Mapped(t, m, copy)) == m.Values
  {
    MappedShape(t, m, copy);
    InValues(m);
  }

  lemma {:induction false} CopiedTree<T(!new)>(cmp: (T, T) -> int, tree: Tree<T>, u: Tree<T>, copy: T -> T)
    requires RedBlack(tree) && Sorted(cmp, Slots(tree)) && SameShape(tree, u, copy)
    ensures RedBlack(u) && |Slots(u)| == |Slots(tree)| && (Keeps(cmp, copy) ==> Sorted(cmp, Slots(u)))
  {
    hide Sorted, Keeps;
    var n: nat :| RB(tree, n);
    ShapeBalance(tree, u, copy, n);
    ShapeItems(tree, u, copy);
    if Keeps(cmp, copy) {
      ShapeOrder(cmp, tree, u, copy);
    }
  }

  /** The tree that copy_error_recovery leaves is what the course says remains. */
  lemma {:induction false} PrunedRemains<T>(c: Env<T>, out: Cells<T>, o: Outcome, nil: T, t: Tree<T>)
    requires Ragged(c, out, o.m, o.filled, o.waiting, nil) && In(c.org, t)
    ensures forall r :: r in o.m ==> o.m[r] in out
    ensures Slots(Pruned(out, o.m, t)) == Remains(t, o, c.copy, c.junk, nil)
  {
    assert forall r :: r in o.m ==> LinksAt(c.org, out, o.m, r);
    if t.Node? && t.id in o.m {
      PrunedRemains(c, out, o, nil, t.left);
      PrunedRemains(c, out, o, nil, t.right);
      assert LinksAt(c.org, out, o.m, t.id);
    }
  }

  /** Which slots remain. */
  lemma {:induction false} RemainsHas<T>(org: Cells<T>, t: Tree<T>, o: Outcome, copy: T -> T,
                                         junk: Ref -> Cell<T>, nil: T, x: Slot<T>)
    requires In(org, t) && Rooted(o.m, t)
    ensures x in Remains(t, o, copy, junk, nil) <==>
            exists r :: r in Ids(t) && r in o.m && r in org
                        && x == Slot(o.m[r], Left(org[r].data, r, o, copy, junk, nil))
  {
    if t.Node? && t.id in o.m {
      assert t.id in Ids(t);
      RemainsHas(org, t.left, o, copy, junk, nil, x);
      RemainsHas(org, t.right, o, copy, junk, nil, x);
      if r :| r in Ids(t) && r in o.m && r in org && x == Slot(o.m[r], Left(org[r].data, r, o, copy, junk, nil)) {
        assert r == t.id || r in Ids(t.left) || r in Ids(t.right);
      }
    } else if t.Node? {
      assert t.id in Ids(t);
    }
  }

  lemma {:induction false} RaggedTree<T>(c: Env<T>, out: Cells<T>, m: map<Ref, Ref>, filled: set<Ref>, blank: set<Ref>,
                                         nil: T, tree: Tree<T>)
    requires Ragged(c, out, m, filled, blank, nil) && Rooted(m, tree) && m.Keys <= Ids(tree)
    requires In(c.org, tree) && Distinct(tree) && tree.Node?
    ensures forall r :: r in m ==> r in c.org && m[r] in out
    ensures var u := Pruned(out, m, tree);
            In(out, u) && Distinct(u) && Ids(u) == out.Keys && RefOf(u) == Img(m, tree.id)
  {
    hide In, Distinct, Rooted, Injective;
    assert forall r :: r in m ==> LinksAt(c.org, out, m, r);
    PrunedHeld(c.org, out, m, tree);
    PrunedDistinct(out, m, tree);
    InValues(m);
    forall k ensures k in Ids(Pruned(out, m, tree)) <==> k in out.Keys {
      PrunedId(out, m, tree, k);
    }
  }

  /** rb_copy.  It succeeds exactly if nothing fails.  Then the copy has the same shape and colours, the
      copied items at the addresses of its course, and is a valid table again if copying keeps the
      order.  If something fails, every node allocated is freed, once, and the destructor is called with
      what remains of the course and is not null: the items copied so far, but also, for each copy that
      waits on the stack for its left subtree, whatever its memory held.  Nothing of the original
      changes. */
  method Copy<T(==, !new)>(org: Table<T>, h: Chances<T>, junk: Ref -> Cell<T>)
    returns (r: Option<Table<T>>, destroyed: seq<Slot<T>>, freed: seq<Ref>)
    requires org.Valid() && org.count <= CAPACITY && Given<T>(map[], h.addr, 0)
    ensures r.Some? <==> Lucky(org.Items(), h)
    ensures r.Some? <==> Course(h, org.tree).ok
    ensures r.Some? ==>
              && fresh(r.value) && r.value.cmp == org.cmp && r.value.count == org.count
              && destroyed == [] && freed == []
              && Zip(r.value.mem, Top, r.value.tree) && r.value.mem.nodes.Keys == Ids(r.value.tree)
              && r.value.tree == Mapped(org.tree, Course(h, org.tree).m, h.copy)
              && SameShape(org.tree, r.value.tree, h.copy) && RedBlack(r.value.tree)
              && Given(r.value.mem.nodes, h.addr, org.count)
              && (Keeps(org.cmp, h.copy) ==> r.value.Valid())
    ensures r == None ==>
              var o := Course(h, org.tree); var q := Remains(org.tree, o, h.copy, junk, h.nil);
              && destroyed == NonNull(q, x => x == h.nil) && freed == Addresses(q)
              && Once(freed) && (forall a :: a in freed <==> exists i: nat :: i < o.n && h.addr(i) == a)
              && ((exists x, w :: x in destroyed && w in o.waiting && w in o.m && x.id == o.m[w]) <==>
                  exists w :: w in o.waiting && w in o.m && junk(o.m[w]).data != h.nil)
  {
    hide RedBlack, Sorted, TotalOrder, Keeps, Given, In, Distinct, Injective, Mapped, SameShape, RB, Rooted, Ragged,
      Lucky, SomeFailure, Ids, Slots, NonNull, Pruned, Remains, Addresses, Go, Once;
    StackSuffices(org.tree);
    LuckyMeans(org.mem, org.tree, h, junk);
    if org.count == 0 {
      var t := EmptyCopy(org, h);
      return Some(t), [], [];
    }
    NotEmpty(org.tree);
    var isNil := x => x == h.nil;
    ghost var o := Course(h, org.tree);
    var ok, out := CopyNodes(org.mem, h, junk, org.tree);
    if !ok {
      ghost var c := Env(org.mem.nodes, h.copy, junk, Ids(org.tree));
      RaggedTree(c, out.nodes, o.m, o.filled, o.waiting, h.nil, org.tree);
      PrunedRemains(c, out.nodes, o, h.nil, org.tree);
      ghost var u := Pruned(out.nodes, o.m, org.tree);
      var left;
      destroyed, freed, left := DestroyNodes(out, isNil, u);
      AllFreed(u, out.nodes, h.addr, o.n);
      Uninitialised(c, out.nodes, org.tree, o, h.nil, isNil);
      r := None;
      return;
    }
    MappedShape(org.tree, o.m, h.copy);
    MappedIds(org.tree, o.m, h.copy);
    CopiedTree(org.cmp, org.tree, Mapped(org.tree, o.m, h.copy), h.copy);
    MappedRoot(org.tree, o.m, h.copy);
    var copied := new Table(org.cmp);
    copied.count := org.count;
    copied.mem := out;
    copied.tree := Mapped(org.tree, o.m, h.copy);
    r, destroyed, freed := Some(copied), [], [];
  }

  lemma {:induction false} MappedRoot<T>(t: Tree<T>, m: map<Ref, Ref>, copy: T -> T)
    requires t.Node?
    ensures RefOf(Mapped(t, m, copy)) == Img(m, t.id)
  {
  }

  /** Everything that was allocated is freed, once. */
  lemma {:induction false} AllFreed<T>(u: Tree<T>, out: Cells<T>, addr: nat -> Ref, n: nat)
    requires Distinct(u) && Ids(u) == out.Keys && Given(out, addr, n)
    ensures Once(Addresses(Slots(u)))
    ensures forall a :: a in Addresses(Slots(u)) <==> exists i: nat :: i < n && addr(i) == a
  {
    hide Addresses, Slots, Once;
    NodesOnce(u, NULL);
    forall a ensures a in Addresses(Slots(u)) <==> exists i: nat :: i < n && addr(i) == a {
      NodesOnce(u, a);
      assert a in Ids(u) <==> a in out;
    }
  }

  method EmptyCopy<T(==, !new)>(org: Table<T>, ghost h: Chances<T>) returns (copied: Table<T>)
    requires org.Valid() && org.count == 0 && Given<T>(map[], h.addr, 0)
    ensures fresh(copied) && copied.cmp == org.cmp && copied.count == org.count && copied.Valid()
    ensures SameShape(org.tree, copied.tree, h.copy) && Given(copied.mem.nodes, h.addr, 0) && Lucky(org.Items(), h)
    ensures Course(h, org.tree).ok && copied.tree == Mapped(org.tree, Course(h, org.tree).m, h.copy)
  {
    copied := new Table(org.cmp);
    NoNodes(org.tree);
    NoNodes(copied.tree);
  }

  /** The destructor is handed uninitialised memory if and only if the course breaks while a copy waits whose
      memory is not null. */
  lemma {:induction false} Uninitialised<T>(c: Env<T>, out: Cells<T>, tree: Tree<T>, o: Outcome, nil: T,
                                            isNil: T -> bool)
    requires Ragged(c, out, o.m, o.filled, o.waiting, nil)
    requires Rooted(o.m, tree) && o.m.Keys <= Ids(tree) && In(c.org, tree)
    requires forall x :: isNil(x) <==> x == nil
    ensures var destroyed := NonNull(Remains(tree, o, c.copy, c.junk, nil), isNil);
            (exists x, w :: x in destroyed && w in o.waiting && w in o.m && x.id == o.m[w]) <==>
            exists w :: w in o.waiting && w in o.m && c.junk(o.m[w]).data != nil
  {
    hide NonNull, Rooted, Remains, AllLinked;
    var q := Remains(tree, o, c.copy, c.junk, nil);
    forall x ensures x in q <==> exists r :: r in Ids(tree) && r in o.m && r in c.org
                                             && x == Slot(o.m[r], Left(c.org[r].data, r, o, c.copy, c.junk, nil))
             ensures x in NonNull(q, isNil) <==> x in q && !isNil(x.data)
    {
      RemainsHas(c.org, tree, o, c.copy, c.junk, nil, x);
      NonNullHas(q, isNil, x);
    }
    AllOriginal(c, out, o, nil);
    if w :| w in o.waiting && w in o.m && c.junk(o.m[w]).data != nil {
      var x := Slot(o.m[w], Left(c.org[w].data, w, o, c.copy, c.junk, nil));
      assert x in q && x in NonNull(q, isNil);
    }
    if x, w :| x in NonNull(q, isNil) && w in o.waiting && w in o.m && x.id == o.m[w] {
      var r :| r in Ids(tree) && r in o.m && r in c.org
               && x == Slot(o.m[r], Left(c.org[r].data, r, o, c.copy, c.junk, nil));
      assert r == w;
    }
  }

  lemma {:induction false} AllOriginal<T>(c: Env<T>, out: Cells<T>, o: Outcome, nil: T)
    requires Ragged(c, out, o.m, o.filled, o.waiting, nil)
    ensures forall r :: r in o.m ==> r in c.org
    ensures forall r, p :: r in o.m && p in o.m && o.m[r] == o.m[p] ==> r == p
    ensures o.filled !! o.waiting
  {
    assert forall r :: r in o.m ==> LinksAt(c.org, out, o.m, r);
  }

  /** A tree of two nodes on which it happens: the item of the left child cannot be copied, and the copy
      of the root waits with what was in its memory. */
  lemma {:induction false} UninitialisedHappens()
    ensures var tree := Node(2, Black, 20, Node(3, Red, 10, Leaf, Leaf), Leaf);
            var h := Chances(x => if x == 10 then 0 else x, i => 100 + i, 0);
            && Course(h, tree) == Outcome(false, map[2 := 100, 3 := 101], {}, {2}, 2)
            && Remains(tree, Course(h, tree), h.copy, _ => Cell(0, 0, 7, Red), 0) == [Slot(101, 0), Slot(100, 7)]
  {
    var child := Node(3, Red, 10, Leaf, Leaf);
    var tree := Node(2, Black, 20, child, Leaf);
    var h := Chances(x => if x == 10 then 0 else x, i => 100 + i, 0);
    var m := map[2 := 100][3 := 101];
    assert Finish(h, child, m, {}, 2) == Outcome(false, m, {}, {}, 2);
    assert Course(h, tree) == Then(h, tree, Outcome(false, m, {}, {}, 2));
    assert m == map[2 := 100, 3 := 101];
  }

  lemma {:induction false} NotEmpty<T>(t: Tree<T>)
    requires |Slots(t)| > 0
    ensures t.Node?
  {
  }

  lemma {:induction false} NoNodes<T>(t: Tree<T>)
    requires Slots(t) == []
    ensures t == Leaf
  {
  }
}
