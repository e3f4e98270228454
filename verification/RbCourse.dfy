/**
 What becomes of rb_copy (src/rb.c:742-856), as a function of the tree, the copying function
 and the allocator alone: how far it gets, which copies it makes where, which of them have
 their items, and which wait on the stack when it fails.
 */
module RbCourse {
  import opened RbShape
  import opened RbCopyState

  /** The copying function, what the i-th allocation returns (NULL if it fails), and the null item. */
  datatype Chances<!T> = Chances(copy: T -> T, addr: nat -> Ref, nil: T)

  /** Whether all is copied; where the copies are; which have their items; which wait; how many
      allocations were made. */
  datatype Outcome = Outcome(ok: bool, m: map<Ref, Ref>, filled: set<Ref>, waiting: set<Ref>, n: nat)

  /** A subtree whose root has a copy: the left subtree first, then the root itself, then the right one.
      The root waits while its left subtree is being copied. */
  ghost function Go<T>(h: Chances<T>, t: Tree<T>, m: map<Ref, Ref>, filled: set<Ref>, n: nat): Outcome
    requires t.Node?
    decreases t, 2
  {
    if t.left.Leaf? then Finish(h, t, m, filled, n)
    else if h.addr(n) == NULL then Outcome(false, m, filled, {}, n)
    else Then(h, t, Go(h, t.left, m[t.left.id := h.addr(n)], filled, n + 1))
  }

  /** After the left subtree of `t`. */
  ghost function Then<T>(h: Chances<T>, t: Tree<T>, o: Outcome): Outcome
    requires t.Node?
    decreases t, 1
  {
    if o.ok then Finish(h, t, o.m, o.filled, o.n) else o.(waiting := o.waiting + {t.id})
  }

  /** The root gets its item, and its right subtree is copied. */
  ghost function Finish<T>(h: Chances<T>, t: Tree<T>, m: map<Ref, Ref>, filled: set<Ref>, n: nat): Outcome
    requires t.Node?
    decreases t, 0
  {
    if h.copy(t.data) == h.nil then Outcome(false, m, filled, {}, n)
    else if t.right.Leaf? then Outcome(true, m, filled + {t.id}, {}, n)
    else if h.addr(n) == NULL then Outcome(false, m, filled + {t.id}, {}, n)
    else Go(h, t.right, m[t.right.id := h.addr(n)], filled + {t.id}, n + 1)
  }

  /** The whole tree. */
  ghost function Course<T>(h: Chances<T>, t: Tree<T>): Outcome {
    if t.Leaf? then Outcome(true, map[], {}, {}, 0)
    else if h.addr(0) == NULL then Outcome(false, map[], {}, {}, 0)
    else Go(h, t, map[t.id := h.addr(0)], {}, 1)
  }

  /** With `fs` waiting, the last one first: what becomes of them after `o` in their left subtrees. */
  ghost function Resume<T>(h: Chances<T>, fs: seq<Tree<T>>, o: Outcome): Outcome
    requires forall i :: 0 <= i < |fs| ==> fs[i].Node?
    decreases |fs|
  {
    if fs == [] then o else Resume(h, fs[..|fs| - 1], Then(h, fs[|fs| - 1], o))
  }

  /** One more waits. */
  lemma {:induction false} ResumeLeft<T>(h: Chances<T>, fs: seq<Tree<T>>, t: Tree<T>, m: map<Ref, Ref>,
                                         filled: set<Ref>, n: nat)
    requires (forall i :: 0 <= i < |fs| ==> fs[i].Node?) && t.Node? && t.left.Node? && h.addr(n) != NULL
    ensures Resume(h, fs, Go(h, t, m, filled, n)) ==
            Resume(h, fs + [t], Go(h, t.left, m[t.left.id := h.addr(n)], filled, n + 1))
  {
    assert (fs + [t])[..|fs|] == fs;
  }

  /** A failure leaves all that wait waiting. */
  lemma {:induction false} ResumeBroken<T>(h: Chances<T>, fs: seq<Tree<T>>, o: Outcome)
    requires (forall i :: 0 <= i < |fs| ==> fs[i].Node?) && !o.ok
    ensures Resume(h, fs, o) == o.(waiting := o.waiting + Heads(fs))
    decreases |fs|
  {
    if fs != [] {
      ResumeBroken(h, fs[..|fs| - 1], Then(h, fs[|fs| - 1], o));
      assert o.waiting + {fs[|fs| - 1].id} + Heads(fs[..|fs| - 1]) == o.waiting + Heads(fs);
    } else {
      assert o.waiting + {} == o.waiting;
    }
  }

  /** The copies made, in order, each with what it holds: its item, what was in its memory if it waits,
      or null. */
  ghost function Remains<T>(t: Tree<T>, o: Outcome, copy: T -> T, junk: Ref -> Cell<T>, nil: T): seq<Slot<T>> {
    if t.Leaf? || t.id !in o.m then [] else
    Remains(t.left, o, copy, junk, nil) + [Slot(o.m[t.id], Left(t.data, t.id, o, copy, junk, nil))] +
    Remains(t.right, o, copy, junk, nil)
  }

  ghost function Left<T>(x: T, id: Ref, o: Outcome, copy: T -> T, junk: Ref -> Cell<T>, nil: T): T
    requires id in o.m
  {
    if id in o.filled then copy(x) else if id in o.waiting then junk(o.m[id]).data else nil
  }
}
