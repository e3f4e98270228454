/**
 The slab of src/mem-pool.c:15-188: chunks of one allocation handed out from a free
 list, and single heap blocks once the list is empty.
 */
module MemPool {
  import opened Lists

  const PAD: nat := 16             // sizeof (struct list_head)
  const WRAP: nat := 0x1_0000_0000_0000_0000

  /** The i-th chunk head of a slab. */
  function HeadAt(pool: nat, padded: nat, i: nat): nat { pool + i * padded }

  ghost predicate IsHead(pool: nat, padded: nat, count: nat, h: int) {
    exists i: nat :: i < count && h == HeadAt(pool, padded, i)
  }

  /** `__is_member`. The difference is taken modulo 2^64, as an unsigned long. */
  function IsMember(pool: nat, padded: nat, count: nat, ptr: nat): int
    requires padded > 0
  {
    if ptr == 0 then -1
    else if ptr < pool || ptr >= HeadAt(pool, padded, count) then 0
    else if (ptr - PAD - pool) % WRAP % padded != 0 then -1
    else 1
  }

  lemma {:induction false} HeadStep(pool: nat, padded: nat, i: nat, j: nat)
    requires i < j
    ensures HeadAt(pool, padded, i) + padded <= HeadAt(pool, padded, j)
  {
    assert (i + 1) * padded <= j * padded by {
      Monotone(i + 1, j, padded);
    }
  }

  lemma {:induction false} Monotone(a: nat, b: nat, c: nat)
    requires a <= b
    ensures a * c <= b * c
  {
    assert b * c == a * c + (b - a) * c;
  }

  lemma {:induction false} Multiple(d: nat, padded: nat)
    requires padded > 0
    ensures d % padded == 0 <==> exists i: nat :: d == i * padded
  {
    if d % padded == 0 {
      assert d == (d / padded) * padded;
    }
    if i: nat :| d == i * padded {
      Remainder(i, padded);
    }
  }

  lemma {:induction false} Remainder(i: nat, n: nat)
    requires n > 0
    ensures (i * n) % n == 0
  {
    if i > 0 {
      Remainder(i - 1, n);
      assert i * n == (i - 1) * n + n;
      AddModulus((i - 1) * n, n);
    }
  }

  lemma {:induction false} AddModulus(x: nat, n: nat)
    requires n > 0
    ensures (x + n) % n == x % n
  {
    var q := x / n;
    assert x == q * n + x % n;
    assert x + n == (q + 1) * n + x % n;
    Quotient(x + n, n, q + 1, x % n);
  }

  lemma {:induction false} Quotient(x: nat, n: nat, q: nat, r: nat)
    requires n > 0 && x == q * n + r && r < n
    ensures x % n == r
  {
    var q', r' := x / n, x % n;
    assert x == q' * n + r';
    if q' < q {
      Monotone(q' + 1, q, n);
    } else if q < q' {
      Monotone(q + 1, q', n);
    }
  }

  /** Inside the slab, a multiple of the chunk size from its start is a chunk head. */
  lemma {:induction false} HeadIffMultiple(pool: nat, padded: nat, count: nat, h: nat)
    requires padded > 0 && pool <= h < HeadAt(pool, padded, count)
    ensures (h - pool) % padded == 0 <==> IsHead(pool, padded, count, h)
  {
    Multiple(h - pool, padded);
    if i: nat :| h - pool == i * padded {
      if count <= i {
        Monotone(count, i, padded);
      } else {
        assert h == HeadAt(pool, padded, i);
      }
    }
    if IsHead(pool, padded, count, h) {
      var i: nat :| i < count && h == HeadAt(pool, padded, i);
      assert h - pool == i * padded;
    }
  }

  /** For an address far enough into the slab to have a header in it, the test is exact. */
  lemma {:induction false} IsMemberExact(pool: nat, padded: nat, count: nat, ptr: nat)
    requires padded > PAD && pool > 0 && HeadAt(pool, padded, count) <= WRAP
    requires ptr >= pool + PAD || ptr < pool
    ensures IsMember(pool, padded, count, ptr) == 1 <==> ptr >= PAD && IsHead(pool, padded, count, ptr - PAD)
    ensures IsMember(pool, padded, count, ptr) == 0 <==> ptr != 0 && (ptr < pool || ptr >= HeadAt(pool, padded, count))
    ensures IsMember(pool, padded, count, ptr) in {-1, 0, 1}
  {
    hide HeadAt, IsHead;
    if ptr >= PAD && IsHead(pool, padded, count, ptr - PAD) {
      HeadInside(pool, padded, count, ptr - PAD);
    }
    if pool + PAD <= ptr < HeadAt(pool, padded, count) {
      SmallModulo(ptr - PAD - pool);
      HeadIffMultiple(pool, padded, count, ptr - PAD);
    }
  }

  lemma {:induction false} SmallModulo(d: nat)
    requires d < WRAP
    ensures d % WRAP == d
  {
  }

  lemma {:induction false} HeadInside(pool: nat, padded: nat, count: nat, h: nat)
    requires IsHead(pool, padded, count, h)
    ensures pool <= h && h + padded <= HeadAt(pool, padded, count)
  {
    var i: nat :| i < count && h == HeadAt(pool, padded, i);
    HeadStep(pool, padded, i, count);
  }

  /** Two blocks of `size` bytes with no byte in common. */
  predicate Apart(x: nat, y: nat, size: nat) { x + size <= y || y + size <= x }

  /** A block outside the slab and apart from the heap blocks that are in use. */
  predicate Fits(pool: nat, end: nat, heap: set<nat>, size: nat, p: nat) {
    p > 0 && (p + size <= pool || p >= end) && forall q :: q in heap ==> Apart(p, q, size)
  }

  ghost predicate HeapOk(pool: nat, end: nat, heap: set<nat>, size: nat) {
    && (forall p :: p in heap ==> p > 0 && (p + size <= pool || p >= end))
    && (forall p, q :: p in heap && q in heap && p != q ==> Apart(p, q, size))
  }

  /** Every chunk is either on the free list, once, or handed out. */
  ghost predicate SlabOk(pool: nat, padded: nat, count: nat, free: seq<nat>, out: set<nat>) {
    && NoDup(free)
    && (forall h :: h in free ==> h !in out && IsHead(pool, padded, count, h))
    && (forall h :: h in out ==> IsHead(pool, padded, count, h))
    && (forall i: nat :: i < count ==> HeadAt(pool, padded, i) in free || HeadAt(pool, padded, i) in out)
  }

  lemma {:induction false} AllFree(pool: nat, padded: nat, count: nat, list: seq<nat>)
    requires padded > 0 && |list| == count && forall j :: 0 <= j < count ==> list[j] == HeadAt(pool, padded, j)
    ensures SlabOk(pool, padded, count, list, {})
  {
    forall i, j | 0 <= i < j < count ensures list[i] != list[j] {
      HeadStep(pool, padded, i, j);
    }
    forall i: nat | i < count ensures HeadAt(pool, padded, i) in list {
      assert list[i] in list;
    }
  }

  lemma {:induction false} Taken(pool: nat, padded: nat, count: nat, free: seq<nat>, out: set<nat>)
    requires SlabOk(pool, padded, count, free, out) && free != []
    ensures SlabOk(pool, padded, count, free[1..], out + {free[0]}) && free[0] !in out
  {
    TailProps(free);
  }

  lemma {:induction false} Returned(pool: nat, padded: nat, count: nat, free: seq<nat>, out: set<nat>, h: nat)
    requires SlabOk(pool, padded, count, free, out) && h in out
    ensures SlabOk(pool, padded, count, [h] + free, out - {h})
  {
    PrependProps(free, h);
  }

  /** A call by a client: an allocation, with the address the heap would offer, or giving back the
      k-th pointer it still holds. */
  datatype Call = Take(offer: nat) | Give(k: nat)

  /** What a client holds after calls of which each allocation returned what `results` says. */
  function Holding(calls: seq<Call>, results: seq<nat>): seq<nat>
    requires |results| == |calls|
  {
    if calls == [] then [] else
    var n := |calls| - 1;
    var held := Holding(calls[..n], results[..n]);
    match calls[n]
    case Take(_) => if results[n] == 0 then held else held + [results[n]]
    case Give(k) => if k < |held| then held[..k] + held[k + 1..] else held
  }

  /** An allocation returns a pointer that is not held, and fails only with as many held as there are
      chunks. */
  ghost predicate TakesRight(calls: seq<Call>, results: seq<nat>, i: nat, count: nat)
    requires |results| == |calls| && i < |calls|
  {
    calls[i].Take? ==>
      var held := Holding(calls[..i], results[..i]);
      if results[i] == 0 then |held| >= count else results[i] !in held
  }

  ghost predicate AllTakesRight(calls: seq<Call>, results: seq<nat>, count: nat)
    requires |results| == |calls|
  {
    forall i :: 0 <= i < |calls| ==> TakesRight(calls, results, i, count)
  }

  lemma {:induction false} HoldingNext(calls: seq<Call>, results: seq<nat>, i: nat, ptr: nat)
    requires i < |calls| && |results| == i
    ensures var held := Holding(calls[..i], results);
            Holding(calls[..i + 1], results + [ptr]) ==
            match calls[i]
            case Take(_) => if ptr == 0 then held else held + [ptr]
            case Give(k) => if k < |held| then held[..k] + held[k + 1..] else held
  {
    assert calls[..i + 1][..i] == calls[..i] && (results + [ptr])[..i] == results;
  }

  lemma {:induction false} TakesOn(calls: seq<Call>, results: seq<nat>, i: nat, ptr: nat, count: nat)
    requires i < |calls| && |results| == i
    requires AllTakesRight(calls[..i], results, count)
    requires calls[i].Take? ==>
               var held := Holding(calls[..i], results); if ptr == 0 then |held| >= count else ptr !in held
    ensures AllTakesRight(calls[..i + 1], results + [ptr], count)
  {
    var calls', results' := calls[..i + 1], results + [ptr];
    forall j | 0 <= j < i + 1 ensures TakesRight(calls', results', j, count) {
      assert calls'[..j] == calls[..i][..j] && results'[..j] == results[..j];
      assert j < i ==> TakesRight(calls[..i], results, j, count);
      assert results[..i] == results && calls[..i][..i] == calls[..i];
    }
  }

  lemma {:induction false} NothingHeld(calls: seq<Call>)
    ensures Holding(calls[..0], []) == []
  {
  }

  /** As many pointers are held as chunks are out, or more. */
  lemma {:induction false} OutHeld(out: set<nat>, held: seq<nat>)
    requires NoDup(held) && forall h :: h in out ==> h + PAD in held
    ensures |out| <= |held|
    decreases |out|
  {
    if h :| h in out {
      DelProps<nat>(held, h + PAD);
      OutHeld(out - {h}, Del<nat>(held, h + PAD));
    }
  }

  lemma {:induction false} DelAt(held: seq<nat>, k: nat)
    requires NoDup(held) && k < |held|
    ensures Del(held, held[k]) == held[..k] + held[k + 1..]
  {
    if k > 0 {
      TailProps(held);
      DelAt(held[1..], k - 1);
      assert held[0] != held[k];
      assert held[..k] == [held[0]] + held[1..][..k - 1] && held[1..][k..] == held[k + 1..];
    } else {
      assert held[..0] + held[1..] == held[1..];
    }
  }

  class Pool {
    const pool: nat
    const count: nat
    const size: nat          // real_sizeof_type
    const padded: nat
    var free: seq<nat>       // the list of chunk heads
    var hot: int
    var cold: int
    ghost var out: set<nat>  // heads of the chunks handed out
    var heap: set<nat>       // blocks from MALLOC that are in use

    ghost predicate Valid()
      reads this
    {
      && pool > 0 && size > 0 && padded == size + PAD && HeadAt(pool, padded, count) <= WRAP
      && SlabOk(pool, padded, count, free, out)
      && cold == |free| && hot == |out| && hot + cold == count
      && HeapOk(pool, HeadAt(pool, padded, count), heap, size)
    }

    /** The heap can return that address: a block apart from all that is in use. */
    predicate Offers(p: nat)
      reads this
    {
      Fits(pool, HeadAt(pool, padded, count), heap, size, p)
    }

    ghost predicate Live(ptr: nat)
      reads this
    {
      (ptr >= PAD && ptr - PAD in out) || ptr in heap
    }

    /** mem_pool_new_fn, on the slab that CALLOC returned */
    constructor (size: nat, count: nat, pool: nat)
      requires size > 0 && count > 0 && pool > 0 && HeadAt(pool, size + PAD, count) <= WRAP
      ensures Valid() && out == {} && heap == {}
      ensures this.size == size && this.count == count && this.pool == pool
    {
      this.size, this.count, this.pool, padded := size, count, pool, size + PAD;
      hot, cold, out, heap := 0, count, {}, {};
      var list: seq<nat> := [];
      for i := 0 to count
        invariant |list| == i && forall j :: 0 <= j < i ==> list[j] == HeadAt(pool, size + PAD, j)
      {
        list := list + [HeadAt(pool, size + PAD, i)];
      }
      free := list;
      AllFree(pool, size + PAD, count, list);
    }

    /** mem_get; `offer` is what MALLOC would return, 0 if it fails */
    method Get(offer: nat) returns (ptr: nat)
      requires Valid() && (offer == 0 || Offers(offer))
      modifies this
      ensures Valid()
      ensures ptr == 0 <==> old(cold) == 0 && offer == 0
      ensures ptr != 0 ==> !old(Live(ptr))
      ensures forall p :: Live(p) <==> old(Live(p)) || (p == ptr && ptr != 0)
      ensures hot == old(hot) + (if old(cold) > 0 then 1 else 0)
    {
      hide SlabOk, IsMember;
      if cold != 0 {
        Taken(pool, padded, count, free, out);
        InSlab(pool, padded, count, free, out, free[0]);
        var list := free[0];
        out := out + {list};
        free := free[1..];
        hot := hot + 1;
        cold := cold - 1;
        ptr := list + PAD;
      } else {
        InSlabAll(pool, padded, count, free, out);
        ptr := offer;
        if ptr != 0 {
          heap := heap + {ptr};
        }
      }
    }

    /** mem_put, given back by the one who holds it. The branch that aborts is never taken. */
    method Put(ptr: nat) returns (aborted: bool)
      requires Valid() && (ptr == 0 || Live(ptr))
      modifies this
      ensures Valid() && !aborted
      ensures forall p :: Live(p) <==> old(Live(p)) && p != ptr
      ensures hot == old(hot) - (if ptr >= PAD && ptr - PAD in old(out) then 1 else 0)
    {
      hide SlabOk, IsMember;
      aborted := false;
      if ptr == 0 {
        return;
      }
      InSlabAll(pool, padded, count, free, out);
      Judged(pool, padded, count, free, out, ptr);
      var m := IsMember(pool, padded, count, ptr);
      if m == 1 {
        var list := ptr - PAD;
        Returned(pool, padded, count, free, out, list);
        out := out - {list};
        hot := hot - 1;
        cold := cold + 1;
        free := [list] + free;
      } else if m == -1 {
        aborted := true;
      } else if m == 0 {
        heap := heap - {ptr};
      }
    }

    /** Every run of matched calls: `held` is what the calls and the pointers they returned leave with
        the client, exactly the live pointers, none of them twice; nothing aborts, and every chunk it does
        not hold is on the free list. */
    method Run(calls: seq<Call>) returns (results: seq<nat>, held: seq<nat>, aborted: bool)
      requires Valid() && out == {} && heap == {}
      modifies this
      ensures Valid() && !aborted && |results| == |calls| && held == Holding(calls, results)
      ensures AllTakesRight(calls, results, count)
      ensures NoDup(held) && forall p: nat :: p in held <==> Live(p)
      ensures forall i: nat :: i < count ==>
                (HeadAt(pool, padded, i) in free <==> HeadAt(pool, padded, i) + PAD !in held)
      ensures hot + cold == count && cold == |free|
    {
      hide SlabOk, IsMember, HeapOk, HeadAt, TakesRight, Holding, Del;
      results, held, aborted := [], [], false;
      NothingHeld(calls);
      for i := 0 to |calls|
        invariant Valid() && !aborted && |results| == i && held == Holding(calls[..i], results)
        invariant AllTakesRight(calls[..i], results, count)
        invariant NoDup(held) && forall p: nat :: p in held <==> Live(p)
      {
        var ptr;
        OutHeld(out, held);
        ptr, aborted := Serve(calls[i], held);
        HoldingNext(calls, results, i, ptr);
        TakesOn(calls, results, i, ptr, count);
        if calls[i].Take? && ptr != 0 {
          AppendProps(held, ptr);
          held := held + [ptr];
        } else if calls[i].Give? && calls[i].k < |held| {
          DelAt(held, calls[i].k);
          DelProps(held, held[calls[i].k]);
          held := held[..calls[i].k] + held[calls[i].k + 1..];
        }
        results := results + [ptr];
      }
      assert calls[..|calls|] == calls;
      forall i: nat | i < count ensures HeadAt(pool, padded, i) in free <==> HeadAt(pool, padded, i) + PAD !in held {
        FreeIsTheRest(i);
      }
    }

    /** One call of a client that holds `held`. */
    method Serve(call: Call, held: seq<nat>) returns (ptr: nat, aborted: bool)
      requires Valid() && forall p: nat :: p in held <==> Live(p)
      modifies this
      ensures Valid() && !aborted
      ensures call.Take? ==>
                && (ptr == 0 ==> old(cold) == 0) && (ptr != 0 ==> !old(Live(ptr)))
                && forall p :: Live(p) <==> old(Live(p)) || (p == ptr && ptr != 0)
      ensures call.Give? ==>
                ptr == 0 && forall p :: Live(p) <==> old(Live(p)) && (call.k < |held| ==> p != held[call.k])
    {
      hide SlabOk, IsMember, HeapOk, HeadAt;
      ptr, aborted := 0, false;
      match call {
        case Take(offer) =>
          var fits := Offers(offer);
          ptr := Get(if fits then offer else 0);
        case Give(k) =>
          if k < |held| {
            NeverNull();
            aborted := Put(held[k]);
          }
      }
    }

    /** The free list is exactly the chunks nobody holds. */
    lemma {:induction false} FreeIsTheRest(i: nat)
      requires Valid() && i < count
      ensures HeadAt(pool, padded, i) in free <==> !Live(HeadAt(pool, padded, i) + PAD)
    {
      HeadStep(pool, padded, i, count);
    }

    lemma {:induction false} NeverNull()
      requires Valid()
      ensures !Live(0)
    {
    }

    /** Live pointers never overlap, wherever they come from. */
    lemma {:induction false} LiveApart(x: nat, y: nat)
      requires Valid() && Live(x) && Live(y) && x != y
      ensures Apart(x, y, size)
    {
      hide IsMember;
      InSlabAll(pool, padded, count, free, out);
      if x !in heap && y !in heap {
        var i: nat :| i < count && x - PAD == HeadAt(pool, padded, i);
        var j: nat :| j < count && y - PAD == HeadAt(pool, padded, j);
        if i < j {
          HeadStep(pool, padded, i, j);
        } else if j < i {
          HeadStep(pool, padded, j, i);
        }
      }
    }
  }

  lemma {:induction false} InSlab(pool: nat, padded: nat, count: nat, free: seq<nat>, out: set<nat>, h: nat)
    requires SlabOk(pool, padded, count, free, out) && (h in free || h in out)
    ensures pool <= h && h + padded <= HeadAt(pool, padded, count)
  {
    HeadInside(pool, padded, count, h);
  }

  lemma {:induction false} InSlabAll(pool: nat, padded: nat, count: nat, free: seq<nat>, out: set<nat>)
    requires SlabOk(pool, padded, count, free, out)
    ensures forall h :: h in out ==> pool <= h && h + padded <= HeadAt(pool, padded, count)
  {
    forall h | h in out ensures pool <= h && h + padded <= HeadAt(pool, padded, count) {
      InSlab(pool, padded, count, free, out, h);
    }
  }

  /** `__is_member` tells slab pointers from heap pointers, and takes neither for a mistake. */
  lemma {:induction false} Judged(pool: nat, padded: nat, count: nat, free: seq<nat>, out: set<nat>, ptr: nat)
    requires SlabOk(pool, padded, count, free, out) && pool > 0 && padded > PAD && HeadAt(pool, padded, count) <= WRAP
    ensures ptr >= PAD && ptr - PAD in out ==> IsMember(pool, padded, count, ptr) == 1
    ensures ptr > 0 && (ptr < pool || ptr >= HeadAt(pool, padded, count)) ==> IsMember(pool, padded, count, ptr) == 0
  {
    if ptr >= PAD && ptr - PAD in out {
      InSlab(pool, padded, count, free, out, ptr - PAD);
    }
    if ptr >= pool + PAD || ptr < pool {
      IsMemberExact(pool, padded, count, ptr);
    }
  }
}
