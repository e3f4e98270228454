/**
 The state of rb_copy (src/rb.c:765-856) between two steps: which nodes have a copy,
 which copies are finished, and which wait on the stack for their left subtree.
 */
module RbCopyState {
  import opened RbShape
  import opened RbTable

  type Cells<T> = map<Ref, Cell<T>>

  /** What does not change: the original, the copying function, what memory holds when it is
      allocated, and the nodes to copy. */
  datatype Env<!T> = Env(org: Cells<T>, copy: T -> T, junk: Ref -> Cell<T>, all: set<Ref>)

  /** The new nodes, where the copy of each original node is, the finished ones, and the pending ones. */
  datatype State<T> = State(out: Cells<T>, m: map<Ref, Ref>, done: set<Ref>, fs: seq<Tree<T>>)

  /** Where the copy of a node is; nothing for an empty link, or without a copy. */
  function Img(m: map<Ref, Ref>, r: Ref): Ref { if r in m then m[r] else NULL }

  ghost predicate Known(m: map<Ref, Ref>, r: Ref) { r == NULL || r in m }

  /** The copy of `r` is finished. */
  ghost predicate DoneAt<T>(c: Env<T>, out: Cells<T>, m: map<Ref, Ref>, r: Ref) {
    && r in c.org && r in m && m[r] in out && Known(m, c.org[r].left) && Known(m, c.org[r].right)
    && out[m[r]] == Cell(Img(m, c.org[r].left), Img(m, c.org[r].right), c.copy(c.org[r].data), c.org[r].color)
  }

  /** The copy of `r` has its left link, and its item is still what was in memory. */
  ghost predicate LeftAt<T>(c: Env<T>, out: Cells<T>, m: map<Ref, Ref>, r: Ref) {
    && r in c.org && r in m && m[r] in out && Known(m, c.org[r].left)
    && out[m[r]].left == Img(m, c.org[r].left) && out[m[r]].data == c.junk(m[r]).data
  }

  ghost predicate Injective(m: map<Ref, Ref>) {
    && (forall r, q :: r in m && q in m && r != q ==> m[r] != m[q])
    && (forall r :: r in m ==> r > HEAD && m[r] > HEAD)
  }

  // ----- the pending nodes

  function Heads<T>(fs: seq<Tree<T>>): set<Ref> {
    if fs == [] then {} else Heads(fs[..|fs| - 1]) + {RefOf(fs[|fs| - 1])}
  }

  /** What is left to do for pending nodes: themselves and their right subtrees. */
  function Rest<T>(fs: seq<Tree<T>>): set<Ref> {
    if fs == [] then {} else
    var f := fs[|fs| - 1];
    Rest(fs[..|fs| - 1]) + if f.Leaf? then {} else {f.id} + Ids(f.right)
  }

  function RestSize<T>(fs: seq<Tree<T>>): nat {
    if fs == [] then 0 else
    var f := fs[|fs| - 1];
    RestSize(fs[..|fs| - 1]) + if f.Leaf? then 0 else 1 + Size(f.right)
  }

  ghost predicate Pending<T>(c: Env<T>, out: Cells<T>, m: map<Ref, Ref>, fs: seq<Tree<T>>) {
    fs == [] ||
    var f := fs[|fs| - 1];
    var rest := fs[..|fs| - 1];
    && f.Node? && In(c.org, f) && Distinct(f) && LeftAt(c, out, m, f.id)
    && f.id !in Rest(rest) && Ids(f.right) !! Rest(rest) && |rest| + Height(f) <= RB_MAX_HEIGHT
    && Pending(c, out, m, rest)
  }

  lemma {:induction false} PendingNodes<T>(c: Env<T>, out: Cells<T>, m: map<Ref, Ref>, fs: seq<Tree<T>>)
    requires Pending(c, out, m, fs)
    ensures (forall i :: 0 <= i < |fs| ==> fs[i].Node?) && Heads(fs) <= Rest(fs)
    ensures forall r :: r in Heads(fs) ==> LeftAt(c, out, m, r)
  {
    if fs != [] {
      PendingNodes(c, out, m, fs[..|fs| - 1]);
    }
  }

  /** The copies of pending nodes keep what they have while others change and more are added. */
  lemma {:induction false} PendingFrame<T>(c: Env<T>, out: Cells<T>, m: map<Ref, Ref>, out': Cells<T>,
                                           m': map<Ref, Ref>,
                                           fs: seq<Tree<T>>)
    requires Pending(c, out, m, fs)
    requires forall r :: r in Heads(fs) && LeftAt(c, out, m, r) ==> LeftAt(c, out', m', r)
    ensures Pending(c, out', m', fs)
  {
    hide LeftAt;
    if fs != [] {
      PendingFrame(c, out, m, out', m', fs[..|fs| - 1]);
    }
  }

  lemma {:induction false} HeadOf<T>(fs: seq<Tree<T>>, i: nat)
    requires i < |fs|
    ensures RefOf(fs[i]) in Heads(fs)
  {
    if i < |fs| - 1 {
      HeadOf(fs[..|fs| - 1], i);
    }
  }

  lemma {:induction false} Pushed<T>(fs: seq<Tree<T>>, t: Tree<T>)
    requires t.Node?
    ensures Heads(fs + [t]) == Heads(fs) + {t.id} && Rest(fs + [t]) == Rest(fs) + ({t.id} + Ids(t.right))
    ensures (fs + [t])[..|fs|] == fs && RestSize(fs + [t]) == RestSize(fs) + 1 + Size(t.right)
  {
    assert (fs + [t])[..|fs|] == fs;
  }

  lemma {:induction false} Popped<T>(fs: seq<Tree<T>>)
    requires fs != [] && fs[|fs| - 1].Node?
    ensures var f := fs[|fs| - 1]; var rest := fs[..|fs| - 1];
            && Heads(fs) == Heads(rest) + {f.id} && Rest(fs) == Rest(rest) + ({f.id} + Ids(f.right))
            && RestSize(fs) == RestSize(rest) + 1 + Size(f.right)
  {
  }

  // ----- the two phases

  ghost predicate AllDone<T>(c: Env<T>, out: Cells<T>, m: map<Ref, Ref>, done: set<Ref>) {
    forall r :: r in done ==> DoneAt(c, out, m, r)
  }

  ghost predicate Base<T>(c: Env<T>, s: State<T>) {
    && Pending(c, s.out, s.m, s.fs) && AllDone(c, s.out, s.m, s.done)
    && Injective(s.m) && s.out.Keys == s.m.Values
  }

  /** The nodes that have a copy, and the three disjoint parts of all nodes: done, left to do for
      pending nodes, and the subtree at hand. */
  ghost predicate Parted(keys: set<Ref>, done: set<Ref>, heads: set<Ref>, rest: set<Ref>, id: Ref,
                         here: set<Ref>, all: set<Ref>) {
    && keys == done + heads + {id}
    && here !! rest && here !! done && rest !! done && done + here + rest == all
  }

  /** The copy of the root of `t` exists and nothing of it is filled in. */
  ghost predicate Descending<T>(c: Env<T>, s: State<T>, t: Tree<T>) {
    && Base(c, s)
    && t.Node? && In(c.org, t) && Distinct(t) && t.id in s.m && s.m[t.id] in s.out
    && s.out[s.m[t.id]].data == c.junk(s.m[t.id]).data
    && Parted(s.m.Keys, s.done, Heads(s.fs), Rest(s.fs), t.id, Ids(t), c.all)
    && |s.fs| + Height(t) <= RB_MAX_HEIGHT
  }

  /** The last of `fs` is being filled in, the others are pending. */
  ghost predicate Processing<T>(c: Env<T>, s: State<T>) {
    && Base(c, s)
    && s.m.Keys == s.done + Heads(s.fs) && Rest(s.fs) !! s.done && s.done + Rest(s.fs) == c.all
  }

  /** The copy of one node changes, and perhaps one more node has a copy. */
  ghost predicate Touched<T>(out: Cells<T>, m: map<Ref, Ref>, out': Cells<T>, m': map<Ref, Ref>, x: Ref) {
    && x in m && Injective(m) && Injective(m')
    && (forall r :: r in m ==> r in m' && m'[r] == m[r])
    && (forall k :: k in out && k != m[x] ==> k in out' && out'[k] == out[k])
  }

  lemma {:induction false} Extends<T>(c: Env<T>, out: Cells<T>, m: map<Ref, Ref>, out': Cells<T>, m': map<Ref, Ref>,
                                      x: Ref, r: Ref)
    requires Touched(out, m, out', m', x) && r != x
    ensures DoneAt(c, out, m, r) ==> DoneAt(c, out', m', r)
    ensures LeftAt(c, out, m, r) ==> LeftAt(c, out', m', r)
  {
  }

  lemma {:induction false} BaseKept<T>(c: Env<T>, out: Cells<T>, m: map<Ref, Ref>, out': Cells<T>, m': map<Ref, Ref>,
                                       done: set<Ref>, fs: seq<Tree<T>>, x: Ref)
    requires Pending(c, out, m, fs) && AllDone(c, out, m, done)
    requires Touched(out, m, out', m', x) && x !in done && x !in Heads(fs)
    ensures Pending(c, out', m', fs) && AllDone(c, out', m', done)
  {
    hide DoneAt, LeftAt, Touched;
    forall r | r in done ensures DoneAt(c, out', m', r) {
      assert DoneAt(c, out, m, r);
      Extends(c, out, m, out', m', x, r);
    }
    forall r | r in Heads(fs) && LeftAt(c, out, m, r) ensures LeftAt(c, out', m', r) {
      Extends(c, out, m, out', m', x, r);
    }
    PendingFrame(c, out, m, out', m', fs);
  }

  /** A copy at a new address. */
  lemma {:induction false} Allocated<T>(out: Cells<T>, m: map<Ref, Ref>, x: Ref, cell: Cell<T>, child: Ref, a: Ref,
                                        junk: Cell<T>)
    requires Injective(m) && out.Keys == m.Values && x in m && child !in m && child > HEAD && a !in out && a > HEAD
    ensures var out' := out[a := junk][m[x] := cell]; var m' := m[child := a];
            && Touched(out, m, out', m', x) && out'.Keys == m'.Values && m'.Keys == m.Keys + {child} && m'[x] == m[x]
            && out'[m[x]] == cell && m'[child] in out' && out'[a] == junk && m[x] in out
  {
    InValues(m);
    ValuesExtended(m, child, a);
    InjectiveExtended(m, child, a);
    assert out[a := junk][m[x] := cell].Keys == out.Keys + {a};
  }

  lemma {:induction false} InValues(m: map<Ref, Ref>)
    ensures forall r :: r in m ==> m[r] in m.Values
  {
  }

  lemma {:induction false} ValuesExtended(m: map<Ref, Ref>, child: Ref, a: Ref)
    requires child !in m
    ensures m[child := a].Values == m.Values + {a}
  {
    var m' := m[child := a];
    forall k | k in m.Values + {a} ensures k in m'.Values {
      if k in m.Values {
        var r :| r in m && m[r] == k;
        assert m'[r] == k;
      } else {
        assert m'[child] == k;
      }
    }
  }

  lemma {:induction false} InjectiveExtended(m: map<Ref, Ref>, child: Ref, a: Ref)
    requires Injective(m) && child !in m && child > HEAD && a !in m.Values && a > HEAD
    ensures Injective(m[child := a])
  {
    InValues(m);
  }

  lemma {:induction false} Rewritten<T>(out: Cells<T>, m: map<Ref, Ref>, x: Ref, cell: Cell<T>)
    requires Injective(m) && out.Keys == m.Values && x in m
    ensures var out' := out[m[x] := cell];
            Touched(out, m, out', m, x) && out'.Keys == m.Values && out'[m[x]] == cell && m[x] in out
  {
    assert m[x] in m.Values;
  }

  lemma {:induction false} TouchedInjective<T>(out: Cells<T>, m: map<Ref, Ref>, out': Cells<T>, m': map<Ref, Ref>,
                                               x: Ref)
    requires Touched(out, m, out', m', x)
    ensures Injective(m')
  {
  }

  lemma {:induction false} Subtrees<T>(org: Cells<T>, t: Tree<T>)
    requires In(org, t) && t.Node?
    ensures t.id in org && org[t.id] == CellOf(t) && In(org, t.left) && In(org, t.right)
  {
  }

  // ----- the four steps

  /** The left child of `t` gets a copy at `a`, and `t` waits. */
  ghost function WentLeft<T>(c: Env<T>, s: State<T>, t: Tree<T>, a: Ref): State<T>
    requires t.Node? && t.left.Node? && t.id in s.m && s.m[t.id] in s.out
  {
    var y := s.m[t.id];
    State(s.out[a := c.junk(a)][y := s.out[y].(left := a)], s.m[t.left.id := a], s.done, s.fs + [t])
  }

  lemma {:induction false} GoLeft<T>(c: Env<T>, s: State<T>, t: Tree<T>, a: Ref)
    requires Descending(c, s, t) && t.left.Node? && a !in s.out && a > HEAD
    ensures Descending(c, WentLeft(c, s, t, a), t.left)
  {
    hide Touched, AllDone, In, Rest, Heads, Injective, Parted;
    var y := s.m[t.id];
    PendingNodes(c, s.out, s.m, s.fs);
    DistinctIds(t);
    assert t.id in Ids(t) && t.left.id in Ids(t.left);
    PartedLeft(s.m.Keys, s.done, Heads(s.fs), Rest(s.fs), t, c.all);
    Allocated(s.out, s.m, t.id, s.out[y].(left := a), t.left.id, a, c.junk(a));
    var s' := WentLeft(c, s, t, a);
    BaseKept(c, s.out, s.m, s'.out, s'.m, s.done, s.fs, t.id);
    Subtrees(c.org, t);
    Pushed(s.fs, t);
    TouchedInjective(s.out, s.m, s'.out, s'.m, t.id);
  }

  lemma {:induction false} PartedLeft<T>(keys: set<Ref>, done: set<Ref>, heads: set<Ref>, rest: set<Ref>, t: Tree<T>,
                                         all: set<Ref>)
    requires t.Node? && t.left.Node? && Distinct(t) && Parted(keys, done, heads, rest, t.id, Ids(t), all)
    requires heads <= rest
    ensures t.left.id !in keys && t.id !in done && t.id !in heads && t.id !in rest && Ids(t.right) !! rest
    ensures Parted(keys + {t.left.id}, done, heads + {t.id}, rest + ({t.id} + Ids(t.right)), t.left.id, Ids(t.left),
                   all)
  {
    assert t.id in Ids(t) && t.left.id in Ids(t.left);
  }

  /** `t` has no left subtree, and is filled in next. */
  ghost function StoppedLeft<T>(s: State<T>, t: Tree<T>): State<T>
    requires t.Node? && t.id in s.m && s.m[t.id] in s.out
  {
    var y := s.m[t.id];
    State(s.out[y := s.out[y].(left := NULL)], s.m, s.done, s.fs + [t])
  }

  lemma {:induction false} StopLeft<T>(c: Env<T>, s: State<T>, t: Tree<T>)
    requires Descending(c, s, t) && t.left.Leaf?
    ensures Processing(c, StoppedLeft(s, t))
  {
    hide Touched, AllDone, In, Rest, Heads;
    var y := s.m[t.id];
    PendingNodes(c, s.out, s.m, s.fs);
    assert t.id in Ids(t);
    Rewritten(s.out, s.m, t.id, s.out[y].(left := NULL));
    BaseKept(c, s.out, s.m, StoppedLeft(s, t).out, s.m, s.done, s.fs, t.id);
    Subtrees(c.org, t);
    Pushed(s.fs, t);
    assert Ids(t) == {t.id} + Ids(t.right);
  }

  /** The node is filled in: one more is done. */
  lemma {:induction false} OneMore<T>(c: Env<T>, out: Cells<T>, m: map<Ref, Ref>, done: set<Ref>, r: Ref)
    requires AllDone(c, out, m, done) && DoneAt(c, out, m, r)
    ensures AllDone(c, out, m, done + {r})
  {
  }

  function Filled<T>(cell: Cell<T>, right: Ref, x: Cell<T>, copy: T -> T): Cell<T> {
    Cell(cell.left, right, copy(x.data), x.color)
  }

  /** The node at hand: the last pending one. */
  lemma {:induction false} AtHand<T>(c: Env<T>, s: State<T>)
    requires Processing(c, s) && s.fs != []
    ensures var f := s.fs[|s.fs| - 1]; var rest := s.fs[..|s.fs| - 1];
            && f.Node? && f.id in c.org && c.org[f.id] == CellOf(f) && f.id in c.all && LeftAt(c, s.out, s.m, f.id)
            && f.id > HEAD && f.id in s.m && s.m[f.id] > HEAD && s.m[f.id] in s.out && In(c.org, f) && Distinct(f)
            && (c.org[f.id].right == NULL <==> f.right.Leaf?)
            && (f.right.Node? ==> f.right.id > HEAD && f.right.id !in s.m)
            && f.id !in s.done && f.id !in Heads(rest) && Heads(rest) <= s.m.Keys && Pending(c, s.out, s.m, rest)
  {
    hide Touched, AllDone, In, Rest, Heads;
    var f, rest := s.fs[|s.fs| - 1], s.fs[..|s.fs| - 1];
    Subtrees(c.org, f);
    Popped(s.fs);
    PendingNodes(c, s.out, s.m, rest);
    if f.right.Node? {
      DistinctIds(f.right);
      assert f.right.id in Ids(f.right);
      PartedRight(s.m.Keys, s.done, Heads(rest), Rest(rest), f, c.all);
    }
  }

  /** The node at hand is filled in and has no right subtree. */
  ghost function StoppedRight<T>(c: Env<T>, s: State<T>): State<T>
    requires s.fs != [] && s.fs[|s.fs| - 1].Node?
    requires s.fs[|s.fs| - 1].id in s.m && s.fs[|s.fs| - 1].id in c.org && s.m[s.fs[|s.fs| - 1].id] in s.out
  {
    var f := s.fs[|s.fs| - 1];
    var y := s.m[f.id];
    State(s.out[y := Filled(s.out[y], NULL, c.org[f.id], c.copy)], s.m, s.done + {f.id}, s.fs[..|s.fs| - 1])
  }

  lemma {:induction false} StopRight<T>(c: Env<T>, s: State<T>)
    requires Processing(c, s) && s.fs != [] && s.fs[|s.fs| - 1].Node? && s.fs[|s.fs| - 1].right.Leaf?
    requires s.fs[|s.fs| - 1].id in s.m && s.fs[|s.fs| - 1].id in c.org && s.m[s.fs[|s.fs| - 1].id] in s.out
    ensures Processing(c, StoppedRight(c, s))
  {
    hide Touched, AllDone, In, Rest, Heads, DoneAt, LeftAt;
    var f, rest := s.fs[|s.fs| - 1], s.fs[..|s.fs| - 1];
    var y := s.m[f.id];
    Subtrees(c.org, f);
    Popped(s.fs);
    PendingNodes(c, s.out, s.m, rest);
    var out' := StoppedRight(c, s).out;
    Rewritten(s.out, s.m, f.id, Filled(s.out[y], NULL, c.org[f.id], c.copy));
    BaseKept(c, s.out, s.m, out', s.m, s.done, rest, f.id);
    LastDone(c, s.out, s.m, out', f.id);
    OneMore(c, out', s.m, s.done, f.id);
  }

  lemma {:induction false} LastDone<T>(c: Env<T>, out: Cells<T>, m: map<Ref, Ref>, out': Cells<T>, r: Ref)
    requires LeftAt(c, out, m, r) && Injective(m) && c.org[r].right == NULL
    requires m[r] in out' && out'[m[r]] == Filled(out[m[r]], NULL, c.org[r], c.copy)
    ensures DoneAt(c, out', m, r)
  {
  }

  /** The node at hand is filled in, and its right child gets a copy at `a`. */
  ghost function WentRight<T>(c: Env<T>, s: State<T>, a: Ref): State<T>
    requires s.fs != [] && s.fs[|s.fs| - 1].Node? && s.fs[|s.fs| - 1].right.Node?
    requires s.fs[|s.fs| - 1].id in s.m && s.fs[|s.fs| - 1].id in c.org && s.m[s.fs[|s.fs| - 1].id] in s.out
  {
    var f := s.fs[|s.fs| - 1];
    var y := s.m[f.id];
    State(s.out[a := c.junk(a)][y := Filled(s.out[y], a, c.org[f.id], c.copy)], s.m[f.right.id := a],
          s.done + {f.id}, s.fs[..|s.fs| - 1])
  }

  lemma {:induction false} GoRight<T>(c: Env<T>, s: State<T>, a: Ref)
    requires Processing(c, s) && s.fs != [] && a !in s.out && a > HEAD
    requires s.fs[|s.fs| - 1].Node? && s.fs[|s.fs| - 1].right.Node?
    requires s.fs[|s.fs| - 1].id in s.m && s.fs[|s.fs| - 1].id in c.org && s.m[s.fs[|s.fs| - 1].id] in s.out
    ensures Descending(c, WentRight(c, s, a), s.fs[|s.fs| - 1].right)
  {
    hide Touched, AllDone, In, Rest, Heads, Injective, Parted, DoneAt, LeftAt;
    var f, rest := s.fs[|s.fs| - 1], s.fs[..|s.fs| - 1];
    var y := s.m[f.id];
    assert f.right.id in Ids(f.right);
    Subtrees(c.org, f);
    Popped(s.fs);
    PendingNodes(c, s.out, s.m, rest);
    DistinctIds(f.right);
    PartedRight(s.m.Keys, s.done, Heads(rest), Rest(rest), f, c.all);
    Allocated(s.out, s.m, f.id, Filled(s.out[y], a, c.org[f.id], c.copy), f.right.id, a, c.junk(a));
    var s' := WentRight(c, s, a);
    BaseKept(c, s.out, s.m, s'.out, s'.m, s.done, rest, f.id);
    TouchedInjective(s.out, s.m, s'.out, s'.m, f.id);
    FilledDone(c, s.out, s.m, s'.out, f.id, f.right.id, a);
    OneMore(c, s'.out, s'.m, s.done, f.id);
  }

  lemma {:induction false} PartedRight<T>(keys: set<Ref>, done: set<Ref>, heads: set<Ref>, rest: set<Ref>, f: Tree<T>,
                                          all: set<Ref>)
    requires f.Node? && f.right.Node? && Distinct(f) && keys == done + (heads + {f.id}) && heads <= rest
    requires f.id !in rest && Ids(f.right) !! rest && (rest + ({f.id} + Ids(f.right))) !! done
    requires done + (rest + ({f.id} + Ids(f.right))) == all
    ensures f.right.id !in keys && f.id !in done && f.id !in heads
    ensures Parted(keys + {f.right.id}, done + {f.id}, heads, rest, f.right.id, Ids(f.right), all)
  {
    assert f.right.id in Ids(f.right);
  }

  lemma {:induction false} FilledDone<T>(c: Env<T>, out: Cells<T>, m: map<Ref, Ref>, out': Cells<T>, r: Ref, child: Ref,
                                         a: Ref)
    requires LeftAt(c, out, m, r) && child !in m && child > HEAD && Injective(m) && c.org[r].right == child
    requires m[r] in out' && out'[m[r]] == Filled(out[m[r]], a, c.org[r], c.copy)
    ensures DoneAt(c, out', m[child := a], r)
  {
    StillKnown(m, m[child := a], c.org[r].left, child, a);
  }

  lemma {:induction false} StillKnown(m: map<Ref, Ref>, m': map<Ref, Ref>, r: Ref, child: Ref, a: Ref)
    requires Known(m, r) && m' == m[child := a] && child !in m && child > HEAD && Injective(m)
    ensures Known(m', r) && Img(m', r) == Img(m, r)
  {
  }
}
