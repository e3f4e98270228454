/**
 Search order: the comparison function as a total preorder, and what a descent
 that follows it knows about the nodes it has passed.
 */
module RbOrder {
  import opened RbShape
  import opened RbMoves

  /** Instantiation points for the order laws, so that they are used only where named. */
  predicate At<T>(x: T, y: T, z: T) { true }
  predicate Pair(i: int, j: int) { true }

  /** What every caller of rb_create promises about its comparison function. */
  ghost predicate TotalOrder<T(!new)>(cmp: (T, T) -> int) {
    forall x, y, z {:trigger At(x, y, z)} ::
      && (cmp(x, y) < 0 <==> cmp(y, x) > 0)
      && (cmp(x, y) <= 0 && cmp(y, z) <= 0 ==> cmp(x, z) <= 0)
  }

  ghost predicate Sorted<T>(cmp: (T, T) -> int, q: seq<Slot<T>>) {
    forall i, j {:trigger Pair(i, j)} :: 0 <= i < j < |q| ==> cmp(q[i].data, q[j].data) < 0
  }

  lemma Swap<T(!new)>(cmp: (T, T) -> int, x: T, y: T)
    requires TotalOrder(cmp)
    ensures cmp(x, y) < 0 <==> cmp(y, x) > 0
    ensures cmp(x, y) > 0 <==> cmp(y, x) < 0
  {
    assert At(x, y, y) && At(y, x, x);
  }

  lemma Strict<T(!new)>(cmp: (T, T) -> int, x: T, y: T, z: T)
    requires TotalOrder(cmp) && cmp(x, y) <= 0 && cmp(y, z) <= 0 && (cmp(x, y) < 0 || cmp(y, z) < 0)
    ensures cmp(x, z) < 0 && cmp(z, x) > 0
  {
    Swap(cmp, x, y);
    Swap(cmp, y, z);
    Swap(cmp, x, z);
    assert At(x, y, z) && At(z, x, y) && At(y, z, x);
  }

  /** `item` lies strictly between everything in `lo` and everything in `hi`. */
  ghost predicate Apart<T>(cmp: (T, T) -> int, item: T, lo: seq<Slot<T>>, hi: seq<Slot<T>>) {
    && (forall i :: 0 <= i < |lo| ==> cmp(item, lo[i].data) > 0)
    && (forall i :: 0 <= i < |hi| ==> cmp(item, hi[i].data) < 0)
  }

  /** One comparison decides for a whole subtree. */
  lemma {:induction false} Narrow<T(!new)>(cmp: (T, T) -> int, item: T, p: Path<T>, t: Tree<T>, d: bool)
    requires TotalOrder(cmp) && t.Node? && Sorted(cmp, Whole(p, t)) && Apart(cmp, item, Before(p), After(p))
    requires if d then cmp(item, t.data) > 0 else cmp(item, t.data) < 0
    ensures var q := Into(p, t, d); Apart(cmp, item, Before(q), After(q))
  {
    var l, x, r := Slots(t.left), [Slot(t.id, t.data)], Slots(t.right);
    assert Whole(p, t) == Before(p) + (l + x + r) + After(p);
    NarrowSeq(cmp, item, Before(p), l, Slot(t.id, t.data), r, After(p));
  }

  lemma {:induction false} NarrowSeq<T(!new)>(cmp: (T, T) -> int, item: T, lo: seq<Slot<T>>, l: seq<Slot<T>>,
                                              x: Slot<T>, r: seq<Slot<T>>, hi: seq<Slot<T>>)
    requires TotalOrder(cmp) && Sorted(cmp, lo + (l + [x] + r) + hi) && Apart(cmp, item, lo, hi)
    ensures cmp(item, x.data) > 0 ==> Apart(cmp, item, lo + (l + [x]), hi)
    ensures cmp(item, x.data) < 0 ==> Apart(cmp, item, lo, ([x] + r) + hi)
  {
    var w, m := lo + (l + [x] + r) + hi, |lo| + |l|;
    assert w[m] == x;
    if cmp(item, x.data) > 0 {
      forall i | 0 <= i < |l| ensures cmp(item, l[i].data) > 0 {
        assert w[|lo| + i] == l[i] && Pair(|lo| + i, m);
        Swap(cmp, item, x.data);
        Strict(cmp, l[i].data, x.data, item);
      }
    } else if cmp(item, x.data) < 0 {
      forall i | 0 <= i < |r| ensures cmp(item, r[i].data) < 0 {
        assert w[m + 1 + i] == r[i] && Pair(m, m + 1 + i);
        Strict(cmp, item, x.data, r[i].data);
      }
    }
  }

  lemma {:induction false} Found<T>(p: Path<T>, t: Tree<T>)
    requires t.Node?
    ensures Slot(t.id, t.data) in Whole(p, t)
  {
    assert Whole(p, t)[|Before(p)| + |Slots(t.left)|] == Slot(t.id, t.data);
  }

  lemma {:induction false} ApartAll<T>(cmp: (T, T) -> int, item: T, p: Path<T>)
    requires Apart(cmp, item, Before(p), After(p))
    ensures forall x :: x in Whole(p, Leaf) ==> cmp(item, x.data) != 0
  {
  }

  lemma InsertSorted<T(!new)>(cmp: (T, T) -> int, lo: seq<Slot<T>>, hi: seq<Slot<T>>, s: Slot<T>)
    requires TotalOrder(cmp) && Sorted(cmp, lo + [] + hi) && Apart(cmp, s.data, lo, hi)
    ensures Sorted(cmp, lo + [s] + hi)
  {
    var w, v := lo + [] + hi, lo + [s] + hi;
    forall i, j | 0 <= i < j < |v| ensures cmp(v[i].data, v[j].data) < 0 {
      if i == |lo| {
        assert v[j] == hi[j - |lo| - 1];
      } else if j == |lo| {
        Swap(cmp, s.data, lo[i].data);
      } else {
        var i', j' := if i < |lo| then i else i - 1, if j < |lo| then j else j - 1;
        assert v[i] == w[i'] && v[j] == w[j'] && Pair(i', j');
      }
    }
  }

  /** Hanging one new node in the empty hole inserts it into the sorted sequence. */
  lemma {:induction false} Inserted<T(!new)>(cmp: (T, T) -> int, p: Path<T>, addr: Ref, item: T, q: seq<Slot<T>>)
    requires TotalOrder(cmp) && q == Whole(p, Leaf) && Sorted(cmp, q) && Apart(cmp, item, Before(p), After(p))
    ensures var w := Whole(p, Node(addr, Red, item, Leaf, Leaf));
            && Sorted(cmp, w) && |w| == |q| + 1
            && exists i :: 0 <= i <= |q| && w == q[..i] + [Slot(addr, item)] + q[i..]
  {
    InsertSorted(cmp, Before(p), After(p), Slot(addr, item));
    assert Slots(Node(addr, Red, item, Leaf, Leaf)) == [Slot(addr, item)];
    var i := |Before(p)|;
    assert q[..i] == Before(p) && q[i..] == After(p);
  }

  /** Taking one node out of the tree takes it out of the sorted sequence. */
  lemma {:induction false} Deleted<T>(cmp: (T, T) -> int, p: Path<T>, t: Tree<T>, q: seq<Slot<T>>) returns (i: nat)
    requires t.Node? && q == Whole(p, t) && Sorted(cmp, q)
    ensures var w := (Before(p) + Slots(t.left)) + (Slots(t.right) + After(p));
            && i < |q| && q[i] == Slot(t.id, t.data) && w == q[..i] + q[i + 1..] && Sorted(cmp, w)
  {
    hide Before, After;
    var lo, hi := Before(p) + Slots(t.left), Slots(t.right) + After(p);
    Regroup(Before(p), Slots(t.left), [Slot(t.id, t.data)], Slots(t.right), After(p));
    i := |lo|;
    RemoveSorted(cmp, lo, Slot(t.id, t.data), hi);
    Split(lo, Slot(t.id, t.data), hi);
  }

  lemma {:induction false} Regroup<S>(b: seq<S>, l: seq<S>, x: seq<S>, r: seq<S>, a: seq<S>)
    ensures b + (l + x + r) + a == (b + l) + x + (r + a)
  {
  }

  lemma {:induction false} Split<S>(lo: seq<S>, x: S, hi: seq<S>)
    ensures var q := lo + [x] + hi; q[|lo|] == x && lo + hi == q[..|lo|] + q[|lo| + 1..]
  {
  }

  lemma {:induction false} RemoveSorted<T>(cmp: (T, T) -> int, lo: seq<Slot<T>>, x: Slot<T>, hi: seq<Slot<T>>)
    requires Sorted(cmp, lo + [x] + hi)
    ensures Sorted(cmp, lo + hi)
  {
    var w, q := lo + hi, lo + [x] + hi;
    forall a, b | 0 <= a < b < |w| ensures cmp(w[a].data, w[b].data) < 0 {
      var a', b' := if a < |lo| then a else a + 1, if b < |lo| then b else b + 1;
      assert w[a] == q[a'] && w[b] == q[b'] && Pair(a', b');
    }
  }
}
