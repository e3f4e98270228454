/**
 What rb_copy leaves behind when an allocation or a call of `copy` fails
 (src/rb.c:742-755, 792-806, 819-829, 834-842): the copies made so far form a tree again,
 but those still on the stack hold whatever was in their memory.
 */
module RbCopyFail {
  import opened RbShape
  import opened RbCopyState

  // ----- copies hang together

  /** Who has a copy has one for each node above it. */
  ghost predicate Rooted<T>(m: map<Ref, Ref>, t: Tree<T>) {
    Ids(t) !! m.Keys || (t.Node? && t.id in m && Rooted(m, t.left) && Rooted(m, t.right))
  }

  lemma {:induction false} RootedMore<T>(m: map<Ref, Ref>, t: Tree<T>, c: Ref, a: Ref)
    requires Rooted(m, t) && c !in Ids(t)
    ensures Rooted(m[c := a], t)
  {
    if !(Ids(t) !! m.Keys) {
      RootedMore(m, t.left, c, a);
      RootedMore(m, t.right, c, a);
    }
  }

  /** The root of a subtree without copies gets one. */
  lemma {:induction false} RootedHere<T>(m: map<Ref, Ref>, t: Tree<T>, a: Ref)
    requires Rooted(m, t) && t.Node? && t.id !in m && Distinct(t)
    ensures Rooted(m[t.id := a], t)
  {
    assert t.id in Ids(t);
    RootedMore(m, t.left, t.id, a);
    RootedMore(m, t.right, t.id, a);
  }

  /** A child of a node that has a copy gets one. */
  lemma {:induction false} RootedChild<T>(org: Cells<T>, m: map<Ref, Ref>, t: Tree<T>, r: Ref, child: Ref, a: Ref)
    requires In(org, t) && Distinct(t) && Rooted(m, t) && r in Ids(t) && r in m && r in org
    requires child != NULL && child !in m && (child == org[r].left || child == org[r].right)
    ensures Rooted(m[child := a], t) && child in Ids(t)
  {
    if r == t.id {
      if t.left.Node? && t.left.id == child {
        assert child in Ids(t.left);
        RootedHere(m, t.left, a);
        RootedMore(m, t.right, child, a);
      } else {
        assert child in Ids(t.right);
        RootedHere(m, t.right, a);
        RootedMore(m, t.left, child, a);
      }
    } else if r in Ids(t.left) {
      RootedChild(org, m, t.left, r, child, a);
      RootedMore(m, t.right, child, a);
    } else {
      RootedChild(org, m, t.right, r, child, a);
      RootedMore(m, t.left, child, a);
    }
  }

  // ----- the tree of the copies made

  ghost predicate LinksAt<T>(org: Cells<T>, out: Cells<T>, m: map<Ref, Ref>, r: Ref) {
    && r in org && r in m && m[r] in out
    && out[m[r]].left == Img(m, org[r].left) && out[m[r]].right == Img(m, org[r].right)
  }

  ghost function Pruned<T>(out: Cells<T>, m: map<Ref, Ref>, t: Tree<T>): Tree<T>
    requires forall r :: r in m ==> m[r] in out
  {
    if t.Leaf? || t.id !in m then Leaf else
    var y := m[t.id];
    Node(y, out[y].color, out[y].data, Pruned(out, m, t.left), Pruned(out, m, t.right))
  }

  ghost predicate AllLinked<T>(org: Cells<T>, out: Cells<T>, m: map<Ref, Ref>) {
    forall r :: r in m ==> LinksAt(org, out, m, r)
  }

  lemma {:induction false} PrunedHeld<T>(org: Cells<T>, out: Cells<T>, m: map<Ref, Ref>, t: Tree<T>)
    requires In(org, t) && AllLinked(org, out, m) && Injective(m)
    ensures In(out, Pruned(out, m, t)) && RefOf(Pruned(out, m, t)) == Img(m, RefOf(t))
  {
    if t.Node? && t.id in m {
      PrunedHeld(org, out, m, t.left);
      PrunedHeld(org, out, m, t.right);
      assert LinksAt(org, out, m, t.id);
    }
  }

  /** Its nodes are the copies of the nodes of `t`. */
  lemma {:induction false} PrunedId<T>(out: Cells<T>, m: map<Ref, Ref>, t: Tree<T>, k: Ref)
    requires (forall r :: r in m ==> m[r] in out) && Rooted(m, t)
    ensures k in Ids(Pruned(out, m, t)) <==> exists r :: r in Ids(t) && r in m && m[r] == k
  {
    if t.Node? && t.id in m {
      assert t.id in Ids(t);
      PrunedId(out, m, t.left, k);
      PrunedId(out, m, t.right, k);
      if r :| r in Ids(t) && r in m && m[r] == k {
        assert r == t.id || r in Ids(t.left) || r in Ids(t.right);
      }
    } else if t.Node? {
      assert t.id in Ids(t);
    }
  }

  lemma {:induction false} PrunedDistinct<T>(out: Cells<T>, m: map<Ref, Ref>, t: Tree<T>)
    requires (forall r :: r in m ==> m[r] in out) && Rooted(m, t) && Distinct(t) && Injective(m)
    ensures Distinct(Pruned(out, m, t))
  {
    if t.Node? && t.id in m {
      assert t.id in Ids(t);
      PrunedDistinct(out, m, t.left);
      PrunedDistinct(out, m, t.right);
      var u := Pruned(out, m, t);
      forall k
        ensures !(k in Ids(u.left) && k in Ids(u.right)) && !(k == u.id && (k in Ids(u.left) || k in Ids(u.right)))
      {
        PrunedId(out, m, t.left, k);
        PrunedId(out, m, t.right, k);
      }
    }
  }

  // ----- copy_error_recovery

  /** The right links of the pending copies are cleared. */
  ghost function Cleared<T>(out: Cells<T>, m: map<Ref, Ref>, fs: seq<Tree<T>>): Cells<T> {
    if fs == [] then out else
    var y := Img(m, RefOf(fs[|fs| - 1]));
    Cleared(if y in out then out[y := out[y].(right := NULL)] else out, m, fs[..|fs| - 1])
  }

  lemma {:induction false} ClearedAt<T>(out: Cells<T>, m: map<Ref, Ref>, fs: seq<Tree<T>>, r: Ref)
    requires Injective(m) && r in m && m[r] in out && Heads(fs) <= m.Keys
    ensures Cleared(out, m, fs).Keys == out.Keys
    ensures Cleared(out, m, fs)[m[r]] == if r in Heads(fs) then out[m[r]].(right := NULL) else out[m[r]]
  {
    if fs != [] {
      var y := Img(m, RefOf(fs[|fs| - 1]));
      var out' := if y in out then out[y := out[y].(right := NULL)] else out;
      ClearedAt(out', m, fs[..|fs| - 1], r);
    }
  }

  lemma {:induction false} ClearedKeys<T>(out: Cells<T>, m: map<Ref, Ref>, fs: seq<Tree<T>>)
    ensures Cleared(out, m, fs).Keys == out.Keys
  {
    if fs != [] {
      var y := Img(m, RefOf(fs[|fs| - 1]));
      ClearedKeys(if y in out then out[y := out[y].(right := NULL)] else out, m, fs[..|fs| - 1]);
    }
  }

  /** After recovery every copy links to the copies of its children, the ones in `filled` have their items,
      the ones in `blank` what was in their memory, and any other has null. */
  ghost predicate Ragged<T>(c: Env<T>, out: Cells<T>, m: map<Ref, Ref>, filled: set<Ref>, blank: set<Ref>, nil: T) {
    && Injective(m) && out.Keys == m.Values && filled !! blank && filled + blank <= m.Keys
    && AllLinked(c.org, out, m)
    && (forall r :: r in m ==> m[r] in out && out[m[r]].data == Item(c, m, filled, blank, nil, r))
  }

  ghost function Item<T>(c: Env<T>, m: map<Ref, Ref>, filled: set<Ref>, blank: set<Ref>, nil: T, r: Ref): T
    requires r in m && r in c.org
  {
    if r in filled then c.copy(c.org[r].data) else if r in blank then c.junk(m[r]).data else nil
  }

  /** The right subtrees of pending nodes have no copies yet. */
  lemma {:induction false} RightOutside<T>(c: Env<T>, out: Cells<T>, m: map<Ref, Ref>, fs: seq<Tree<T>>, r: Ref)
    requires Pending(c, out, m, fs) && r in Heads(fs)
    ensures r in c.org && (c.org[r].right != NULL ==> c.org[r].right in Rest(fs) && c.org[r].right !in Heads(fs))
  {
    var f, rest := fs[|fs| - 1], fs[..|fs| - 1];
    PendingNodes(c, out, m, rest);
    Subtrees(c.org, f);
    if f.right.Node? {
      assert f.right.id in Ids(f.right);
    }
    if r in Heads(rest) {
      RightOutside(c, out, m, rest, r);
    }
  }

  /** What copy_error_recovery makes of pending copies, given that the copy at hand is in order. */
  lemma {:induction false} Recover<T>(c: Env<T>, out: Cells<T>, m: map<Ref, Ref>, done: set<Ref>, fs: seq<Tree<T>>,
                                      cur: Ref,
                                      filled: set<Ref>, nil: T)
    requires Pending(c, out, m, fs) && AllDone(c, out, m, done) && Injective(m) && out.Keys == m.Values
    requires m.Keys == done + Heads(fs) + {cur} && Rest(fs) !! done && cur !in Rest(fs) && cur !in done
    requires Heads(fs) <= Rest(fs)
    requires (filled == done || filled == done + {cur}) && LinksAt(c.org, out, m, cur)
    requires out[m[cur]].data == Item(c, m, filled, Heads(fs), nil, cur)
    ensures Ragged(c, Cleared(out, m, fs), m, filled, Heads(fs), nil)
  {
    hide Pending, AllDone, Injective;
    var out', blank := Cleared(out, m, fs), Heads(fs);
    ClearedKeys(out, m, fs);
    forall r | r in m ensures LinksAt(c.org, out', m, r) && out'[m[r]].data == Item(c, m, filled, blank, nil, r) {
      RecoverOne(c, out, m, done, fs, cur, filled, nil, r);
    }
  }

  lemma {:induction false} RecoverOne<T>(c: Env<T>, out: Cells<T>, m: map<Ref, Ref>, done: set<Ref>, fs: seq<Tree<T>>,
                                         cur: Ref,
                                         filled: set<Ref>, nil: T, r: Ref)
    requires Pending(c, out, m, fs) && AllDone(c, out, m, done) && Injective(m) && out.Keys == m.Values && r in m
    requires m.Keys == done + Heads(fs) + {cur} && Rest(fs) !! done && cur !in Rest(fs) && cur !in done
    requires Heads(fs) <= Rest(fs)
    requires (filled == done || filled == done + {cur}) && LinksAt(c.org, out, m, cur)
    requires out[m[cur]].data == Item(c, m, filled, Heads(fs), nil, cur)
    ensures r in c.org && LinksAt(c.org, Cleared(out, m, fs), m, r)
    ensures Cleared(out, m, fs)[m[r]].data == Item(c, m, filled, Heads(fs), nil, r)
  {
    hide Pending, Rest, Heads, Cleared;
    InValues(m);
    ClearedAt(out, m, fs, r);
    if r in Heads(fs) {
      PendingNodes(c, out, m, fs);
      RightOutside(c, out, m, fs, r);
    } else if r in done {
      assert DoneAt(c, out, m, r);
    }
  }

  /** The allocation for a left child fails. */
  lemma {:induction false} FailLeft<T>(c: Env<T>, s: State<T>, t: Tree<T>, nil: T)
    requires Descending(c, s, t) && t.left.Node?
    ensures var y := s.m[t.id];
            Ragged(c, Cleared(s.out[y := Cell(NULL, NULL, nil, s.out[y].color)], s.m, s.fs), s.m, s.done, Heads(s.fs),
                nil)
  {
    hide Touched, AllDone, In, Rest, Heads, Ragged, Cleared;
    var y := s.m[t.id];
    var out' := s.out[y := Cell(NULL, NULL, nil, s.out[y].color)];
    PendingNodes(c, s.out, s.m, s.fs);
    Subtrees(c.org, t);
    assert t.id in Ids(t) && t.left.id in Ids(t);
    if t.right.Node? {
      assert t.right.id in Ids(t.right);
    }
    Rewritten(s.out, s.m, t.id, Cell(NULL, NULL, nil, s.out[y].color));
    BaseKept(c, s.out, s.m, out', s.m, s.done, s.fs, t.id);
    Recover(c, out', s.m, s.done, s.fs, t.id, s.done, nil);
  }

  /** Filling in the node at hand fails: its item cannot be copied (`item` is null), or its item is
      there and the allocation for its right child fails. */
  lemma {:induction false} FailFill<T>(c: Env<T>, s: State<T>, item: T, nil: T)
    requires Processing(c, s) && s.fs != [] && s.fs[|s.fs| - 1].Node?
    requires s.fs[|s.fs| - 1].id in s.m && s.fs[|s.fs| - 1].id in c.org && s.m[s.fs[|s.fs| - 1].id] in s.out
    requires item == nil || item == c.copy(c.org[s.fs[|s.fs| - 1].id].data)
    ensures var f := s.fs[|s.fs| - 1]; var rest := s.fs[..|s.fs| - 1]; var y := s.m[f.id];
            var filled := if item == nil then s.done else s.done + {f.id};
            Ragged(c, Cleared(s.out[y := Cell(s.out[y].left, NULL, item, c.org[f.id].color)], s.m, rest), s.m, filled,
                Heads(rest), nil)
  {
    hide Touched, AllDone, In, Rest, Heads, Ragged, Cleared;
    var f, rest := s.fs[|s.fs| - 1], s.fs[..|s.fs| - 1];
    var y := s.m[f.id];
    var cell := Cell(s.out[y].left, NULL, item, c.org[f.id].color);
    var out' := s.out[y := cell];
    AtHand(c, s);
    Popped(s.fs);
    PendingNodes(c, s.out, s.m, rest);
    Rewritten(s.out, s.m, f.id, cell);
    BaseKept(c, s.out, s.m, out', s.m, s.done, rest, f.id);
    Recover(c, out', s.m, s.done, rest, f.id, if item == nil then s.done else s.done + {f.id}, nil);
  }
}
