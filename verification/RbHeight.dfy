/**
 The stack depth of rb.c: RB_MAX_HEIGHT is large enough because a red-black
 tree of `n` nodes is at most `2 * log2(n + 1)` high.
 */
module RbHeight {
  import opened RbShape
  import opened RbTable

  function Pow2(n: nat): nat { if n == 0 then 1 else 2 * Pow2(n - 1) }

  lemma {:induction false} HeightOfBlackHeight<T>(t: Tree<T>, n: nat)
    requires RB(t, n)
    ensures Pow2(n) <= Size(t) + 1
    ensures Height(t) <= 2 * n + (if RedRoot(t) then 1 else 0)
  {
    if t.Node? {
      var m := if t.color == Red then n else n - 1;
      HeightOfBlackHeight(t.left, m);
      HeightOfBlackHeight(t.right, m);
    }
  }

  lemma {:induction false} SizeSlots<T>(t: Tree<T>)
    ensures |Slots(t)| == Size(t)
  {
    if t.Node? {
      SizeSlots(t.left);
      SizeSlots(t.right);
    }
  }

  lemma {:induction false} Pow2Monotone(m: nat, n: nat)
    requires m <= n
    ensures Pow2(m) <= Pow2(n)
    decreases n
  {
    if m < n {
      Pow2Monotone(m, n - 1);
    }
  }

  /** Height at most `2 * log2(n + 1)` for `n` items. */
  lemma {:induction false} HeightBound<T>(t: Tree<T>)
    requires RedBlack(t)
    ensures Pow2((Height(t) + 1) / 2) <= |Slots(t)| + 1
  {
    var n: nat :| RB(t, n);
    HeightOfBlackHeight(t, n);
    SizeSlots(t);
    Pow2Monotone((Height(t) + 1) / 2, n);
  }

  lemma Pow2Of24()
    ensures Pow2(24) == 0x100_0000
  {
    assert Pow2(6) == 64;
    assert Pow2(12) == 0x1000;
    assert Pow2(18) == 0x4_0000;
  }

  const CAPACITY := 0x100_0000 - 2

  /** Up to 2^24 - 2 items no stack index reaches RB_MAX_HEIGHT. */
  lemma {:induction false} StackSuffices<T>(t: Tree<T>)
    requires RedBlack(t) && |Slots(t)| <= CAPACITY
    ensures Height(t) < RB_MAX_HEIGHT
  {
    HeightBound(t);
    if Height(t) >= RB_MAX_HEIGHT {
      Pow2Monotone(24, (Height(t) + 1) / 2);
      Pow2Of24();
    }
  }
}
