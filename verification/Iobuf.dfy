/**
 The arena pool of src/iobuf.c.  Each method of `Pool` is one critical section;
 `pending` are the buffers whose last reference has been dropped (under the
 buffer's own lock) by a thread that has not yet taken the pool lock to put them
 back.
 */
module Iobuf {
  import opened Options
  import opened Lists

  type ArenaId = nat
  datatype Buf = Buf(arena: ArenaId, index: nat)

  // ---------------------------------------------------------------- one arena

  datatype Arena = Arena(active: seq<nat>, activeCnt: int, passive: seq<nat>, passiveCnt: int)

  /** Every buffer of the arena is on exactly one of its lists, and the counts are right. */
  ghost predicate ArenaOk(r: Arena, n: nat) {
    && NoDup(r.active) && NoDup(r.passive)
    && r.activeCnt == |r.active| && r.passiveCnt == |r.passive| && r.activeCnt + r.passiveCnt == n
    && (forall i: nat :: i in r.active ==> i < n && i !in r.passive)
    && (forall i: nat :: i in r.passive ==> i < n)
    && (forall i: nat :: i < n ==> i in r.active || i in r.passive)
  }

  /** `__iobuf_arena_init_iobufs`: all buffers passive, the last one first. */
  method NewArena(n: nat) returns (r: Arena)
    ensures ArenaOk(r, n) && r.active == []
  {
    hide ArenaOk;
    r := Arena([], 0, [], 0);
    NoBuffers();
    for i := 0 to n
      invariant ArenaOk(r, i) && r.active == []
    {
      OneMore(r, i);
      r := r.(passive := [i] + r.passive, passiveCnt := r.passiveCnt + 1);
    }
  }

  lemma {:induction false} NoBuffers()
    ensures ArenaOk(Arena([], 0, [], 0), 0)
  {
  }

  lemma {:induction false} OneMore(r: Arena, i: nat)
    requires ArenaOk(r, i) && r.active == []
    ensures ArenaOk(r.(passive := [i] + r.passive, passiveCnt := r.passiveCnt + 1), i + 1)
  {
    assert i !in r.passive;
    PrependProps(r.passive, i);
    forall j: nat | j < i + 1 ensures j in [i] + r.passive {
      if j < i {
        assert j in r.active || j in r.passive;
      }
    }
  }

  /** The record after its first passive buffer has become active. */
  function Taken(r: Arena): Arena
    requires r.passive != []
  {
    Arena([r.passive[0]] + r.active, r.activeCnt + 1, r.passive[1..], r.passiveCnt - 1)
  }

  lemma {:induction false} TakenOk(r: Arena, n: nat)
    requires ArenaOk(r, n) && r.passive != []
    ensures ArenaOk(Taken(r), n) && Taken(r).activeCnt > 0
    ensures forall i: nat :: i in Taken(r).active <==> i in r.active || i == r.passive[0]
  {
    PrependProps(r.active, r.passive[0]);
    TailProps(r.passive);
  }

  /** The record after active buffer `i` has become passive. */
  function Returned(r: Arena, i: nat): Arena {
    Arena(Del(r.active, i), r.activeCnt - 1, [i] + r.passive, r.passiveCnt + 1)
  }

  lemma {:induction false} ReturnedOk(r: Arena, n: nat, i: nat)
    requires ArenaOk(r, n) && i in r.active
    ensures ArenaOk(Returned(r, i), n) && Returned(r, i).passiveCnt > 0
    ensures forall j: nat :: j in Returned(r, i).active <==> j in r.active && j != i
  {
    DelProps(r.active, i);
    PrependProps(r.passive, i);
  }

  // ---------------------------------------------------------------- the three lists

  /** Every arena is on exactly one of three lists. */
  ghost predicate Partition(keys: set<ArenaId>, x: seq<ArenaId>, y: seq<ArenaId>, z: seq<ArenaId>) {
    && NoDup(x) && NoDup(y) && NoDup(z)
    && (forall a: ArenaId :: a in keys <==> a in x || a in y || a in z)
    && (forall a: ArenaId :: a in x ==> a !in y && a !in z)
    && (forall a: ArenaId :: a in y ==> a !in z)
  }

  /** `list_del` and `list_add` (`front`) or `list_add_tail`. */
  lemma {:induction false} Move(keys: set<ArenaId>, x: seq<ArenaId>, y: seq<ArenaId>, z: seq<ArenaId>, a: ArenaId,
                                front: bool)
    requires Partition(keys, x, y, z) && a in x
    ensures var y' := if front then [a] + y else y + [a];
            && Partition(keys, Del(x, a), y', z) && Partition(keys, y', Del(x, a), z)
            && (forall c: ArenaId :: c in y' <==> c == a || c in y) && |y'| == |y| + 1
            && (forall c: ArenaId :: c in Del(x, a) <==> c in x && c != a) && |Del(x, a)| == |x| - 1
  {
    DelProps(x, a);
    PrependProps(y, a);
    AppendProps(y, a);
  }

  /** The four moves the pool makes, on (arenas, filled, purge). */
  lemma {:induction false} ToFilled(keys: set<ArenaId>, x: seq<ArenaId>, y: seq<ArenaId>, z: seq<ArenaId>, a: ArenaId)
    requires Partition(keys, x, y, z) && a in x
    ensures Partition(keys, Del(x, a), [a] + y, z) && |Del(x, a)| == |x| - 1
    ensures forall c: ArenaId :: c in [a] + y <==> c == a || c in y
    ensures a in keys && a !in z
  {
    Move(keys, x, y, z, a, true);
  }

  lemma {:induction false} ToPurge(keys: set<ArenaId>, x: seq<ArenaId>, y: seq<ArenaId>, z: seq<ArenaId>, a: ArenaId)
    requires Partition(keys, x, y, z) && a in x
    ensures Partition(keys, Del(x, a), y, z + [a]) && |Del(x, a)| == |x| - 1
    ensures forall c: ArenaId :: c in z + [a] <==> c == a || c in z
    ensures a in keys && a !in y && a !in z
  {
    Move(keys, x, z, y, a, false);
  }

  lemma {:induction false} FromFilled(keys: set<ArenaId>, x: seq<ArenaId>, y: seq<ArenaId>, z: seq<ArenaId>, a: ArenaId)
    requires Partition(keys, x, y, z) && a in y
    ensures Partition(keys, x + [a], Del(y, a), z) && |Del(y, a)| == |y| - 1
    ensures forall c: ArenaId :: c in Del(y, a) <==> c in y && c != a
    ensures a in keys && a !in z && a in x + [a]
  {
    Move(keys, y, x, z, a, false);
  }

  lemma {:induction false} FromPurge(keys: set<ArenaId>, x: seq<ArenaId>, y: seq<ArenaId>, z: seq<ArenaId>)
    requires Partition(keys, x, y, z) && z != []
    ensures Partition(keys, x + [z[0]], y, z[1..]) && z[0] in keys && z[0] !in y && z[0] in z
    ensures forall c: ArenaId :: c in z[1..] <==> c in z && c != z[0]
  {
    assert Partition(keys, z, x, y);
    Move(keys, z, x, y, z[0], false);
    assert Del(z, z[0]) == z[1..];
  }

  ghost predicate Marks(arena: map<ArenaId, Arena>, filled: seq<ArenaId>, purge: seq<ArenaId>) {
    forall a: ArenaId :: a in arena ==>
      (a in filled <==> arena[a].passiveCnt == 0) && (a in purge ==> arena[a].activeCnt == 0)
  }

  /** Only arena `a` has changed, and it fits the lists. */
  lemma {:induction false} Remark(arena: map<ArenaId, Arena>, filled: seq<ArenaId>, purge: seq<ArenaId>, a: ArenaId,
                                  r: Arena,
                                  filled': seq<ArenaId>, purge': seq<ArenaId>)
    requires Marks(arena, filled, purge) && a in arena
    requires forall c: ArenaId :: c != a ==> (c in filled' <==> c in filled) && (c in purge' ==> c in purge)
    requires (a in filled' <==> r.passiveCnt == 0) && (a in purge' ==> r.activeCnt == 0)
    ensures Marks(arena[a := r], filled', purge') && arena[a := r].Keys == arena.Keys
  {
  }

  // ---------------------------------------------------------------- buffers

  /** References, lists and pending puts of one buffer fit together: referenced means active,
      and an active buffer without references is on its way back. */
  ghost predicate BufOk(arena: map<ArenaId, Arena>, refs: map<Buf, int>, pending: set<Buf>, b: Buf) {
    && b in refs && b.arena in arena
    && (if b.index in arena[b.arena].active then (refs[b] > 0 && b !in pending) || (refs[b] == 0 && b in pending)
        else refs[b] == 0 && b !in pending)
  }

  ghost predicate BufsOk(arena: map<ArenaId, Arena>, refs: map<Buf, int>, pending: set<Buf>, n: nat) {
    && (forall b: Buf :: b.arena in arena && b.index < n ==> BufOk(arena, refs, pending, b))
    && (forall b: Buf :: b in pending || b in refs ==> b.arena in arena && b.index < n)
  }

  ghost predicate ArenasOk(arena: map<ArenaId, Arena>, n: nat) {
    forall a: ArenaId :: a in arena ==> ArenaOk(arena[a], n)
  }

  lemma {:induction false} TakeBuf(arena: map<ArenaId, Arena>, refs: map<Buf, int>, pending: set<Buf>, n: nat,
                                   a: ArenaId)
    requires ArenasOk(arena, n) && BufsOk(arena, refs, pending, n) && a in arena && arena[a].passive != []
    ensures var b := Buf(a, arena[a].passive[0]);
            && b in refs && refs[b] == 0 && b.index < n && b !in pending
            && BufsOk(arena[a := Taken(arena[a])], refs[b := 1], pending, n)
            && ArenasOk(arena[a := Taken(arena[a])], n)
  {
    hide ArenaOk;
    var r := arena[a];
    TakenOk(r, n);
    var b := Buf(a, r.passive[0]);
    PassiveIndex(r, n);
    assert BufOk(arena, refs, pending, b);
    forall c: Buf | c.arena in arena && c.index < n ensures BufOk(arena[a := Taken(r)], refs[b := 1], pending, c) {
      assert BufOk(arena, refs, pending, c);
    }
  }

  lemma {:induction false} PassiveIndex(r: Arena, n: nat)
    requires ArenaOk(r, n) && r.passive != []
    ensures r.passive[0] < n && r.passive[0] !in r.active
  {
    assert r.passive[0] in r.passive;
  }

  lemma {:induction false} PutBuf(arena: map<ArenaId, Arena>, refs: map<Buf, int>, pending: set<Buf>, n: nat, b: Buf)
    requires ArenasOk(arena, n) && BufsOk(arena, refs, pending, n) && b in pending
    ensures b.arena in arena && b.index in arena[b.arena].active
    ensures var arena' := arena[b.arena := Returned(arena[b.arena], b.index)];
            BufsOk(arena', refs, pending - {b}, n) && ArenasOk(arena', n) && arena'[b.arena].passiveCnt > 0
  {
    hide ArenaOk;
    assert BufOk(arena, refs, pending, b);
    var r := arena[b.arena];
    ReturnedOk(r, n, b.index);
    var arena' := arena[b.arena := Returned(r, b.index)];
    forall c: Buf | c.arena in arena && c.index < n ensures BufOk(arena', refs, pending - {b}, c) {
      assert BufOk(arena, refs, pending, c);
    }
  }

  /** Only an arena all of whose buffers are unreferenced and at rest has no active ones. */
  lemma {:induction false} IdleArena(arena: map<ArenaId, Arena>, refs: map<Buf, int>, pending: set<Buf>, n: nat,
                                     a: ArenaId)
    requires ArenasOk(arena, n) && BufsOk(arena, refs, pending, n) && a in arena && arena[a].activeCnt == 0
    ensures forall i: nat :: i < n ==> Buf(a, i) in refs && refs[Buf(a, i)] == 0 && Buf(a, i) !in pending
  {
    assert ArenaOk(arena[a], n) && arena[a].active == [];
    forall i: nat | i < n ensures Buf(a, i) in refs && refs[Buf(a, i)] == 0 && Buf(a, i) !in pending {
      assert BufOk(arena, refs, pending, Buf(a, i));
    }
  }

  /** The references of an arena that is gone are gone with it. */
  function Forget(refs: map<Buf, int>, a: ArenaId): map<Buf, int> {
    map b | b in refs && b.arena != a :: refs[b]
  }

  lemma {:induction false} DropArena(arena: map<ArenaId, Arena>, refs: map<Buf, int>, pending: set<Buf>, n: nat,
                                     a: ArenaId)
    requires ArenasOk(arena, n) && BufsOk(arena, refs, pending, n) && a in arena && arena[a].activeCnt == 0
    ensures BufsOk(arena - {a}, Forget(refs, a), pending, n) && ArenasOk(arena - {a}, n)
  {
    hide ArenaOk;
    IdleArena(arena, refs, pending, n, a);
    forall c: Buf | c.arena in arena - {a} && c.index < n ensures BufOk(arena - {a}, Forget(refs, a), pending, c) {
      assert BufOk(arena, refs, pending, c);
    }
    forall b: Buf | b in pending ensures b.arena in arena - {a} {
      assert b.arena == a ==> Buf(a, b.index) == b;
    }
  }

  /** How often a buffer is referenced; one that is not allocated is not. */
  function Count(refs: map<Buf, int>, b: Buf): int { if b in refs then refs[b] else 0 }

  /** Buffers may have been allocated, but no reference has come or gone. */
  ghost predicate SameRefs(refs: map<Buf, int>, refs': map<Buf, int>) {
    refs.Keys <= refs'.Keys && forall b: Buf :: Count(refs', b) == Count(refs, b)
  }

  function Zeros(a: ArenaId, n: nat): map<Buf, int> {
    map i: nat | 0 <= i < n :: Buf(a, i) := 0
  }

  lemma {:induction false} AddArena(arena: map<ArenaId, Arena>, refs: map<Buf, int>, pending: set<Buf>, n: nat,
                                    a: ArenaId, r: Arena)
    requires ArenasOk(arena, n) && BufsOk(arena, refs, pending, n) && a !in arena && ArenaOk(r, n) && r.active == []
    ensures BufsOk(arena[a := r], refs + Zeros(a, n), pending, n) && ArenasOk(arena[a := r], n)
  {
    hide ArenaOk;
    forall c: Buf | c.arena in arena[a := r] && c.index < n
      ensures BufOk(arena[a := r], refs + Zeros(a, n), pending, c)
    {
      if c.arena != a {
        assert BufOk(arena, refs, pending, c);
      } else {
        assert c == Buf(a, c.index) && c in Zeros(a, n);
        assert c !in pending;
      }
    }
  }

  // ---------------------------------------------------------------- the pool

  class Pool {
    const perArena: nat                  // arena_size / page_size
    var arena: map<ArenaId, Arena>       // the arenas that are allocated
    var arenas: seq<ArenaId>             // pool->arenas
    var filled: seq<ArenaId>             // pool->filled
    var purge: seq<ArenaId>              // pool->purge
    var arenaCnt: int
    var refs: map<Buf, int>              // iobuf->ref
    var pending: set<Buf>                // threads with a put to do, by buffer

    ghost predicate Valid()
      reads this
    {
      && perArena > 0
      && Partition(arena.Keys, arenas, filled, purge) && arenaCnt == |arenas| + |filled| + |purge|
      && Marks(arena, filled, purge)
      && ArenasOk(arena, perArena)
      && BufsOk(arena, refs, pending, perArena)
    }

    /** Between operations that run one at a time: one spare arena at most, and none while there
        are others to take buffers from. */
    ghost predicate Tidy()
      reads this
    {
      |purge| <= 1 && (arenas != [] ==> purge == [])
    }

    /** iobuf_pool_new: `ok` is whether the first arena could be allocated, at address `id`. */
    constructor (perArena: nat, id: ArenaId, ok: bool)
      requires perArena > 0
      ensures Valid() && Tidy() && this.perArena == perArena && arenaCnt == (if ok then 1 else 0) && pending == {}
      ensures arenas == (if ok then [id] else []) && filled == [] && purge == [] && (forall a :: a in arena ==> a == id)
      ensures Shown(Snapshot(multiset{}, {}, if ok then {id} else {}, {}))
    {
      this.perArena := perArena;
      arena, arenas, filled, purge, arenaCnt, refs, pending := map[], [], [], [], 0, map[], {};
      new;
      if ok {
        Grow(id);
      }
    }

    /** `__iobuf_arena_alloc` and appending the arena to the list */
    method Grow(id: ArenaId)
      requires Valid() && id !in arena
      modifies this`arena, this`arenas, this`arenaCnt, this`refs
      ensures Valid() && arenas == old(arenas) + [id] && arenaCnt == old(arenaCnt) + 1
      ensures arena.Keys == old(arena.Keys) + {id} && arena[id].activeCnt == 0 && arena[id].passive != []
      ensures SameRefs(old(refs), refs)
    {
      hide ArenaOk;
      var r := NewArena(perArena);
      Spare(r, perArena);
      AddArena(arena, refs, pending, perArena, id, r);
      AppendProps(arenas, id);
      arena := arena[id := r];
      refs := refs + Zeros(id, perArena);
      arenas := arenas + [id];
      arenaCnt := arenaCnt + 1;
    }

    /** `__iobuf_select_arena`, with allocation succeeding (at address `id`) or not. */
    method SelectArena(id: ArenaId, ok: bool) returns (a: Option<ArenaId>)
      requires Valid() && id !in arena
      modifies this
      ensures Valid() && pending == old(pending) && filled == old(filled)
      ensures a.Some? ==> a.value in arenas && a.value in arena && arena[a.value].passive != []
      ensures a == None ==> arenas == [] == purge && !ok && refs == old(refs)
      ensures SameRefs(old(refs), refs) && arena.Keys == old(arena.Keys) + if a.Some? then {a.value} else {}
      ensures old(Tidy()) ==> Tidy()
      // the head-most arena, then a spare one, then a new one
      ensures a == if old(arenas) != [] then Some(old(arenas)[0]) else if old(purge) != [] then Some(old(purge)[0])
                   else if ok then Some(id) else None
      ensures arenas == if old(arenas) != [] then old(arenas) else if a.Some? then [a.value] else []
      ensures purge == if old(arenas) == [] && old(purge) != [] then old(purge)[1..] else old(purge)
    {
      hide ArenaOk, BufsOk, Partition;
      InKeys(arena.Keys, arenas, filled, purge);
      var i := 0;
      while i < |arenas| && arena[arenas[i]].passiveCnt == 0
        invariant 0 <= i <= |arenas| && forall k :: 0 <= k < i ==> arena[arenas[k]].passiveCnt == 0
      {
        i := i + 1;
      }
      InArenas(arena, arenas, filled, purge, perArena);
      if i < |arenas| {
        return Some(arenas[i]);
      }
      if purge != [] {
        var x := purge[0];
        FromPurge(arena.Keys, arenas, filled, purge);
        Spare(arena[x], perArena);
        Remark(arena, filled, purge, x, arena[x], filled, purge[1..]);
        assert arena[x := arena[x]] == arena;
        purge := purge[1..];
        arenas := arenas + [x];
        return Some(x);
      }
      if !ok {
        return None;
      }
      Grow(id);
      a := Some(id);
    }

    /** iobuf_get: a buffer nobody holds, now held by the caller.  It fails only when every arena
        is full and a new one cannot be had. */
    method Get(id: ArenaId, ok: bool) returns (b: Option<Buf>)
      requires Valid() && id !in arena
      modifies this
      ensures Valid() && pending == old(pending) && (old(Tidy()) ==> Tidy())
      ensures b == None <==> !ok && old(arenas) == [] && old(purge) == []
      ensures b == None ==> arenas == [] && purge == [] && refs == old(refs)
      ensures b.Some? ==>
                && b.value in refs && refs[b.value] == 1
                && Count(old(refs), b.value) == 0 && b.value !in pending
      ensures forall c :: b != Some(c) ==> Count(refs, c) == Count(old(refs), c)
      ensures arena.Keys == old(arena.Keys) + if b.Some? then {b.value.arena} else {}
      // the arena it comes from is the head-most one, and moves to the filled list if that was its last buffer
      ensures b.Some? ==>
                var a := b.value.arena;
                var from := if old(arenas) != [] then old(arenas) else [a];
                && a == from[0] && (old(arenas) == [] ==> a == if old(purge) != [] then old(purge)[0] else id)
                && a in arena && (arena[a].passiveCnt == 0 ==> arenas == from[1..] && filled == [a] + old(filled))
                && (arena[a].passiveCnt != 0 ==> arenas == from && filled == old(filled))
                && purge == if old(arenas) == [] && old(purge) != [] then old(purge)[1..] else old(purge)
    {
      hide ArenaOk, Partition, Marks, BufsOk;
      var sel := SelectArena(id, ok);
      if sel == None {
        return None;
      }
      var a := sel.value;
      var r := arena[a];
      TakeBuf(arena, refs, pending, perArena, a);
      TakenOk(r, perArena);
      ToFilled(arena.Keys, arenas, filled, purge, a);
      InOne(arena.Keys, arenas, filled, purge, a);
      var c := Buf(a, r.passive[0]);
      assert Count(refs, c) == Count(old(refs), c);
      Remark(arena, filled, purge, a, Taken(r), if Taken(r).passiveCnt == 0 then [a] + filled else filled, purge);
      arena := arena[a := Taken(r)];
      if arena[a].passiveCnt == 0 {
        assert Del(arenas, a) == arenas[1..];
        arenas := Del(arenas, a);
        filled := [a] + filled;
      }
      refs := refs[c := refs[c] + 1];
      b := Some(c);
    }

    /** iobuf_ref: one more holder takes a reference from a holder. */
    method Ref(b: Buf)
      requires Valid() && b in refs && refs[b] > 0
      modifies this`refs
      ensures Valid() && refs == old(refs)[b := old(refs[b]) + 1]
    {
      hide Partition, Marks, ArenaOk;
      assert BufOk(arena, refs, pending, b);
      refs := refs[b := refs[b] + 1];
    }

    /** iobuf_unref up to the unlock: the last holder is left with a put to do. */
    method Unref(b: Buf) returns (last: bool)
      requires Valid() && b in refs && refs[b] > 0
      modifies this`refs, this`pending
      ensures Valid() && refs == old(refs)[b := old(refs[b]) - 1] && last == (refs[b] == 0)
      ensures pending == if last then old(pending) + {b} else old(pending)
    {
      hide Partition, Marks, ArenaOk;
      assert BufOk(arena, refs, pending, b);
      refs := refs[b := refs[b] - 1];
      last := refs[b] == 0;
      if last {
        pending := pending + {b};
      }
    }

    /** `__iobuf_put` */
    method Put(b: Buf)
      requires Valid() && b in pending
      modifies this
      ensures Valid() && pending == old(pending) - {b} && refs == old(refs) && arenaCnt == old(arenaCnt)
      ensures var a := b.arena;
              && a in old(arena) && arena == old(arena)[a := Returned(old(arena)[a], b.index)]
              && var full := old(arena)[a].passiveCnt == 0; var idle := old(arena)[a].activeCnt == 1;
                 var arenas1 := if full then old(arenas) + [a] else old(arenas);
                 && filled == (if full then Del(old(filled), a) else old(filled))
                 && arenas == (if idle then Del(arenas1, a) else arenas1)
                 && purge == (if idle then old(purge) + [a] else old(purge))
      ensures perArena >= 2 && old(Tidy()) ==> |purge| <= 1
    {
      hide ArenaOk, Partition, BufsOk, Marks;
      var a := b.arena;
      PutBuf(arena, refs, pending, perArena, b);
      var r := arena[a];
      HomeOf(arena, arenas, filled, purge, perArena, a, b.index);
      ghost var filled0 := filled;
      if r.passiveCnt == 0 {
        FromFilled(arena.Keys, arenas, filled, purge, a);
        filled := Del(filled, a);
        arenas := arenas + [a];
      }
      InOne(arena.Keys, arenas, filled, purge, a);
      r := Returned(r, b.index);
      ToPurge(arena.Keys, arenas, filled, purge, a);
      Remark(arena, filled0, purge, a, r, filled, if r.activeCnt == 0 then purge + [a] else purge);
      arena := arena[a := r];
      pending := pending - {b};
      if r.activeCnt == 0 {
        arenas := Del(arenas, a);
        purge := purge + [a];
      }
    }

    /** `__iobuf_pool_prune`, destroying idle arenas unless there is nothing else to take buffers
        from.  No arena with a referenced buffer, or one on its way back, is destroyed. */
    method Prune()
      requires Valid()
      modifies this`arena, this`purge, this`arenaCnt, this`refs
      ensures Valid() && purge == if arenas == [] then old(purge) else []
      ensures forall b :: b in old(refs) && (old(refs)[b] > 0 || b in pending) ==>
                b in refs && refs[b] == old(refs)[b] && b.arena in arena
      ensures arenas == [] ==> refs == old(refs) && arena == old(arena)
      ensures forall a :: a in arena <==> a in old(arena) && (arenas == [] || a !in old(purge))
      ensures forall a :: a in arena ==> arena[a] == old(arena)[a]
      ensures forall b :: Count(refs, b) == Count(old(refs), b)
    {
      hide ArenaOk, BufOk, Partition, ArenasOk, BufsOk, Marks;
      InPlace(arena, refs, pending, perArena);
      if arenas == [] {
        return;
      }
      while purge != []
        invariant Valid()
        invariant forall a :: a in arena <==> a in old(arena) && (a !in old(purge) || a in purge)
        invariant forall a :: a in arena ==> arena[a] == old(arena)[a]
        invariant forall a :: a in purge ==> a in old(purge)
        invariant forall b :: Count(refs, b) == Count(old(refs), b)
        decreases |purge|
      {
        PruneFirst();
      }
      forall b | b in old(refs) && (old(refs)[b] > 0 || b in pending)
        ensures b in refs && refs[b] == old(refs)[b] && b.arena in arena
      {
        assert Count(refs, b) == Count(old(refs), b);
        Home(arena, refs, pending, perArena, b);
      }
    }

    /** The first spare arena is destroyed. */
    method PruneFirst()
      requires Valid() && purge != []
      modifies this`arena, this`purge, this`arenaCnt, this`refs
      ensures Valid() && purge == old(purge)[1..]
      ensures old(purge)[0] in old(arena) && arena == old(arena) - {old(purge)[0]}
      ensures old(purge)[0] !in purge && forall b :: Count(refs, b) == Count(old(refs), b)
    {
      hide ArenaOk, BufOk, Partition, ArenasOk, BufsOk, Count;
      var a := purge[0];
      FirstPurged(arena.Keys, arenas, filled, purge);
      if arena[a].activeCnt != 0 {
        // list_for_each_entry_safe would skip it: not reached
        assert false;
      }
      DestroyIobufs(a);
      DropArena(arena, refs, pending, perArena, a);
      Forgotten(arena, refs, pending, perArena, a);
      purge := purge[1..];
      arenaCnt := arenaCnt - 1;
      arena := arena - {a};
      refs := Forget(refs, a);
    }

    /** `__iobuf_arena_destroy_iobufs`: its assertion never fails. */
    method DestroyIobufs(a: ArenaId)
      requires Valid() && a in arena && arena[a].activeCnt == 0
    {
      IdleArena(arena, refs, pending, perArena, a);
      for i := 0 to perArena {
        assert refs[Buf(a, i)] == 0;
      }
    }

    /** iobuf_unref from start to end with nothing in between.  With at least two buffers to an
        arena the pool stays tidy. */
    method Release(b: Buf)
      requires Valid() && b in refs && refs[b] > 0
      modifies this
      ensures Valid() && pending == old(pending) && (perArena >= 2 && old(Tidy()) ==> Tidy())
      ensures Count(refs, b) == old(refs)[b] - 1 && forall c :: c != b ==> Count(refs, c) == Count(old(refs), c)
      // somebody else still holds the buffer: nothing moves
      ensures old(refs)[b] > 1 ==>
                arena == old(arena) && arenas == old(arenas) && filled == old(filled) && purge == old(purge)
      // the last reference: the buffer becomes passive, its arena moves, and spare arenas go
      ensures old(refs)[b] == 1 ==>
                var a := b.arena;
                && a in old(arena) && b.index in old(arena)[a].active
                && var full := old(arena)[a].passiveCnt == 0; var idle := old(arena)[a].activeCnt == 1;
                   var arenas1 := if full then old(arenas) + [a] else old(arenas);
                   var purge1 := if idle then old(purge) + [a] else old(purge);
                   && filled == (if full then Del(old(filled), a) else old(filled))
                   && arenas == (if idle then Del(arenas1, a) else arenas1)
                   && purge == (if arenas == [] then purge1 else [])
                   && (forall k :: k in arena <==> k in old(arena) && (arenas == [] || k !in purge1))
                   && forall k :: k in arena ==>
                        arena[k] == if k == a then Returned(old(arena)[a], b.index) else old(arena)[k]
      ensures old(refs)[b] == 1 && old(arenas) == [] && perArena == 1 ==>
                arenas == [] && purge == old(purge) + [b.arena] && refs == old(refs)[b := 0]
    {
      hide ArenaOk, BufsOk, Partition, ArenasOk, Marks;
      if perArena == 1 { OneBuffer(this, b); }
      AtRest(arena, refs, pending, perArena, b);
      Home(arena, refs, pending, perArena, b);
      var last := Unref(b);
      if last {
        Put(b);
        Prune();
      }
    }

    /** One whole operation. */
    method TurnAlone(op: Step, ghost s: Snapshot) returns (got: Option<Buf>, ghost s': Snapshot)
      requires Valid() && Tidy() && perArena >= 2 && Shown(s)
      modifies this
      ensures Valid() && Tidy() && Shown(s') && LeadsAlone(perArena, s, op, got, s')
    {
      hide ArenaOk, BufsOk, Partition, ArenasOk, Marks, Full;
      got, s' := None, s;
      match op {
        case GetStep(id, ok) =>
          if id !in arena {
            got, s' := TurnGet(id, ok, s);
          }
        case RefStep(b) =>
          if b in refs && refs[b] > 0 {
            s' := s.(held := s.held + multiset{b});
            Ref(b);
          }
        case UnrefStep(b) =>
          if b in refs && refs[b] > 0 {
            s' := TurnRelease(b, s);
          }
        case _ =>
      }
    }

    method TurnRelease(b: Buf, ghost s: Snapshot) returns (ghost s': Snapshot)
      requires Valid() && Tidy() && perArena >= 2 && Shown(s) && b in refs && refs[b] > 0
      modifies this
      ensures Valid() && Tidy() && Shown(s') && LeadsAlone(perArena, s, UnrefStep(b), None, s')
    {
      hide ArenaOk, BufsOk, Partition, ArenasOk, Marks, Full, Open;
      assert s.held[b] == Count(refs, b);
      AtRest(arena, refs, pending, perArena, b);
      AloneIs(arena, refs, pending, perArena, purge, s, b);
      Release(b);
      s' := Dropped(s, b);
      if s.held[b] == 1 {
        AloneStill(s, b);
        ghost var s2 := PutBack(Dropped(s, b), b);
        s' := if arenas == [] then s2 else s2.(live := s2.live - s2.spare, spare := {});
        assert Shown(s');
        SomeOpen(arena, arenas, filled, purge, refs, pending, perArena, s');
        OpenMore(s2, perArena);
      }
    }

    /** Whole operations one after the other: gets, references and releases, by those who may. */
    method RunAlone(ops: seq<Step>, ghost start: Snapshot) returns (got: seq<Option<Buf>>, ghost trace: seq<Snapshot>)
      requires Valid() && Tidy() && perArena >= 2 && Shown(start)
      modifies this
      ensures Valid() && Tidy() && |got| == |ops| && |trace| == |ops| + 1 && trace[0] == start && Shown(trace[|ops|])
      ensures forall k :: 0 <= k < |ops| ==> LeadsAlone(perArena, trace[k], ops[k], got[k], trace[k + 1])
      ensures forall b :: b in trace[|ops|].held ==>
                b in refs && refs[b] == trace[|ops|].held[b] && b.arena in arena && b.index in arena[b.arena].active
    {
      hide ArenaOk, BufsOk, Partition, ArenasOk, Marks, LeadsAlone, Shows;
      got, trace := [], [start];
      for k := 0 to |ops|
        invariant Valid() && Tidy()
        invariant |got| == k && |trace| == k + 1 && trace[0] == start && Shown(trace[k])
        invariant forall j :: 0 <= j < k ==> LeadsAlone(perArena, trace[j], ops[j], got[j], trace[j + 1])
      {
        var b;
        ghost var s;
        b, s := TurnAlone(ops[k], trace[k]);
        got, trace := got + [b], trace + [s];
      }
      Homes(arena, refs, pending, perArena, purge, trace[|ops|]);
    }

    /** The snapshot tells who holds what. */
    ghost predicate Shown(s: Snapshot)
      reads this
    {
      Shows(s, refs, pending, arena.Keys, purge)
    }

    /** One critical section, entered by a thread that may. */
    method Turn(step: Step, ghost s: Snapshot) returns (got: Option<Buf>, ghost s': Snapshot)
      requires Valid() && Shown(s)
      modifies this
      ensures Valid() && Shown(s') && Leads(perArena, s, step, got, s')
    {
      hide ArenaOk, BufsOk, Partition, ArenasOk, Marks, Full, PutBack, Pruned, TakenBy;
      got, s' := None, s;
      match step {
        case GetStep(id, ok) =>
          if id !in arena {
            got, s' := TurnGet(id, ok, s);
          }
        case RefStep(b) =>
          if b in refs && refs[b] > 0 {
            s' := s.(held := s.held + multiset{b});
            Ref(b);
          }
        case UnrefStep(b) =>
          if b in refs && refs[b] > 0 {
            s' := Dropped(s, b);
            var last := Unref(b);
          }
        case PutStep(b) =>
          if b in pending {
            s' := TurnPut(b, s);
          }
        case PruneStep =>
          s' := TurnPrune(s);
      }
    }

    method TurnPut(b: Buf, ghost s: Snapshot) returns (ghost s': Snapshot)
      requires Valid() && Shown(s) && b in pending
      modifies this
      ensures Valid() && Shown(s') && s' == PutBack(s, b)
    {
      hide ArenaOk, BufsOk, Partition, ArenasOk, Marks, Alone;
      AloneIs(arena, refs, pending, perArena, purge, s, b);
      s' := PutBack(s, b);
      Put(b);
    }

    method TurnPrune(ghost s: Snapshot) returns (ghost s': Snapshot)
      requires Valid() && Shown(s)
      modifies this
      ensures Valid() && Shown(s') && s' == Pruned(perArena, s)
    {
      hide ArenaOk, BufsOk, Partition, ArenasOk, Marks, Open, Count;
      SomeOpen(arena, arenas, filled, purge, refs, pending, perArena, s);
      s' := Pruned(perArena, s);
      Prune();
    }

    method TurnGet(id: ArenaId, ok: bool, ghost s: Snapshot) returns (got: Option<Buf>, ghost s': Snapshot)
      requires Valid() && Shown(s) && id !in arena
      modifies this
      ensures Valid() && Shown(s') && Leads(perArena, s, GetStep(id, ok), got, s') && (old(Tidy()) ==> Tidy())
    {
      hide ArenaOk, BufsOk, Partition, ArenasOk, Marks, Full;
      if arenas == [] && purge == [] {
        AllFilled(arena, filled, refs, pending, perArena, s);
      }
      ListedArenas(arena.Keys, arenas, filled, purge);
      SomeOpen(arena, arenas, filled, purge, refs, pending, perArena, s);
      got := Get(id, ok);
      s' := s;
      if got.Some? {
        ghost var a := got.value.arena;
        s' := Snapshot(s.held + multiset{got.value}, s.putting, s.live + {a}, s.spare - {a});
        Home(arena, refs, pending, perArena, got.value);
        NotFull(perArena, s, got.value);
      }
    }

    /** Any interleaving of the critical sections, with only holders taking and dropping references and
        only those who dropped the last one putting a buffer back.  Each count is the number of holders
        throughout, and no arena with a buffer that somebody holds is destroyed. */
    method Run(steps: seq<Step>, ghost start: Snapshot) returns (got: seq<Option<Buf>>, ghost trace: seq<Snapshot>)
      requires Valid() && Shown(start)
      modifies this
      ensures Valid() && |got| == |steps| && |trace| == |steps| + 1 && trace[0] == start && Shown(trace[|steps|])
      ensures forall k :: 0 <= k < |steps| ==> Leads(perArena, trace[k], steps[k], got[k], trace[k + 1])
      ensures forall b :: b in trace[|steps|].held || b in pending ==>
                && b in refs && refs[b] == trace[|steps|].held[b]
                && b.arena in arena && b.index in arena[b.arena].active
    {
      hide ArenaOk, BufsOk, Partition, ArenasOk, Marks, Leads, Shows;
      got, trace := [], [start];
      for k := 0 to |steps|
        invariant Valid() && |got| == k && |trace| == k + 1 && trace[0] == start && Shown(trace[k])
        invariant forall j :: 0 <= j < k ==> Leads(perArena, trace[j], steps[j], got[j], trace[j + 1])
      {
        var b;
        ghost var s;
        b, s := Turn(steps[k], trace[k]);
        got, trace := got + [b], trace + [s];
      }
      Homes(arena, refs, pending, perArena, purge, trace[|steps|]);
    }
  }

  // ---------------------------------------------------------------- who holds what

  /** The references that threads hold, the buffers they are about to put back, the arenas, and which of
      them are set aside as spare. */
  datatype Snapshot = Snapshot(held: multiset<Buf>, putting: set<Buf>, live: set<ArenaId>, spare: set<ArenaId>)

  ghost predicate Shows(s: Snapshot, refs: map<Buf, int>, pending: set<Buf>, keys: set<ArenaId>, purge: seq<ArenaId>) {
    && s.putting == pending && s.live == keys && (forall b: Buf :: s.held[b] == Count(refs, b))
    && (forall a: ArenaId :: a in s.spare <==> a in purge)
  }

  /** Somebody holds the buffer or is about to put it back. */
  ghost predicate InUse(s: Snapshot, b: Buf) { b in s.held || b in s.putting }

  /** An arena to take buffers from: not spare, with a buffer that is not in use. */
  ghost predicate Open(s: Snapshot, n: nat, a: ArenaId) {
    a in s.live && a !in s.spare && exists i: nat :: i < n && !InUse(s, Buf(a, i))
  }

  /** Every buffer there is is held or on its way back. */
  ghost predicate Full(s: Snapshot, n: nat) {
    forall b: Buf :: b.arena in s.live && b.index < n ==> InUse(s, b)
  }

  /** One holder less; the last one is left with a put to do. */
  ghost function Dropped(s: Snapshot, b: Buf): Snapshot {
    Snapshot(s.held - multiset{b}, if s.held[b] == 1 then s.putting + {b} else s.putting, s.live, s.spare)
  }

  /** No other buffer of its arena is in use. */
  ghost predicate Alone(s: Snapshot, b: Buf) { forall c: Buf :: c.arena == b.arena && InUse(s, c) ==> c == b }

  /** A buffer is put back; with the last one in use its arena becomes spare. */
  ghost function PutBack(s: Snapshot, b: Buf): Snapshot {
    s.(putting := s.putting - {b}, spare := if Alone(s, b) then s.spare + {b.arena} else s.spare)
  }

  /** Spare arenas go, unless there is no other to take buffers from. */
  ghost function Pruned(n: nat, s: Snapshot): Snapshot {
    if exists a :: Open(s, n, a) then s.(live := s.live - s.spare, spare := {}) else s
  }

  /** What a critical section does to the snapshot.  Getting a buffer fails exactly when all are in use and
      there is no memory for an arena, and needs a new arena exactly when all are in use; what it returns
      was in nobody's hands.  An address in use is never the address of a new arena. */
  ghost predicate Leads(n: nat, s: Snapshot, step: Step, got: Option<Buf>, s': Snapshot) {
    match step
    case GetStep(id, ok) =>
      if id in s.live || (!ok && Full(s, n)) then got == None && s' == s else
      got.Some? && TakenBy(n, s, id, got.value, s')
    case RefStep(b) => got == None && s' == if b in s.held then s.(held := s.held + multiset{b}) else s
    case UnrefStep(b) => got == None && s' == if b in s.held then Dropped(s, b) else s
    case PutStep(b) => got == None && s' == if b in s.putting then PutBack(s, b) else s
    case PruneStep => got == None && s' == Pruned(n, s)
  }

  /** The same for whole operations: a release is an unref, the put that it may leave to do, and a prune. */
  ghost predicate LeadsAlone(n: nat, s: Snapshot, op: Step, got: Option<Buf>, s': Snapshot) {
    match op
    case GetStep(_, _) => Leads(n, s, op, got, s')
    case RefStep(_) => Leads(n, s, op, got, s')
    case UnrefStep(b) => got == None && s' == if b in s.held then Released(n, s, b) else s
    case _ => got == None && s' == s
  }

  ghost function Released(n: nat, s: Snapshot, b: Buf): Snapshot {
    if s.held[b] > 1 then Dropped(s, b) else Pruned(n, PutBack(Dropped(s, b), b))
  }

  ghost predicate TakenBy(n: nat, s: Snapshot, id: ArenaId, b: Buf, s': Snapshot) {
    && b.index < n && !InUse(s, b)
    && (if Full(s, n) then b.arena == id else b.arena in s.live)
    && ((exists a :: Open(s, n, a)) ==> Open(s, n, b.arena))
    && s' == Snapshot(s.held + multiset{b}, s.putting, s.live + {b.arena}, s.spare - {b.arena})
  }

  /** The arenas on the first list are the open ones. */
  lemma {:induction false} OpenAt(arena: map<ArenaId, Arena>, arenas: seq<ArenaId>, filled: seq<ArenaId>,
                                  purge: seq<ArenaId>, refs: map<Buf, int>, pending: set<Buf>, n: nat, s: Snapshot,
                                  a: ArenaId)
    requires Partition(arena.Keys, arenas, filled, purge) && Marks(arena, filled, purge) && ArenasOk(arena, n)
    requires BufsOk(arena, refs, pending, n) && Shows(s, refs, pending, arena.Keys, purge)
    ensures a in arenas <==> Open(s, n, a)
  {
    if a in arena && a !in purge {
      var r := arena[a];
      assert ArenaOk(r, n);
      forall i: nat | i < n ensures i in r.active <==> InUse(s, Buf(a, i)) {
        assert BufOk(arena, refs, pending, Buf(a, i));
        assert s.held[Buf(a, i)] == Count(refs, Buf(a, i));
      }
      if a in arenas {
        assert r.passive[0] in r.passive && !InUse(s, Buf(a, r.passive[0]));
      }
    }
  }

  lemma {:induction false} SomeOpen(arena: map<ArenaId, Arena>, arenas: seq<ArenaId>, filled: seq<ArenaId>,
                                    purge: seq<ArenaId>, refs: map<Buf, int>, pending: set<Buf>, n: nat, s: Snapshot)
    requires Partition(arena.Keys, arenas, filled, purge) && Marks(arena, filled, purge) && ArenasOk(arena, n)
    requires BufsOk(arena, refs, pending, n) && Shows(s, refs, pending, arena.Keys, purge)
    ensures arenas != [] <==> exists a :: Open(s, n, a)
    ensures arenas != [] ==> Open(s, n, arenas[0])
  {
    hide Partition, Marks, ArenasOk, BufsOk, Shows, Open;
    forall a ensures a in arenas <==> Open(s, n, a) {
      OpenAt(arena, arenas, filled, purge, refs, pending, n, s, a);
    }
    assert arenas != [] ==> arenas[0] in arenas;
  }

  /** An arena is about to become idle exactly if no other of its buffers is in use. */
  lemma {:induction false} AloneIs(arena: map<ArenaId, Arena>, refs: map<Buf, int>, pending: set<Buf>, n: nat,
                                   purge: seq<ArenaId>, s: Snapshot, b: Buf)
    requires ArenasOk(arena, n) && BufsOk(arena, refs, pending, n) && Shows(s, refs, pending, arena.Keys, purge)
    requires InUse(s, b)
    ensures b.arena in arena && (arena[b.arena].activeCnt == 1 <==> Alone(s, b))
  {
    hide BufsOk;
    assert s.held[b] == Count(refs, b);
    Home(arena, refs, pending, n, b);
    var r := arena[b.arena];
    assert ArenaOk(r, n);
    if r.activeCnt == 1 {
      forall c: Buf | c.arena == b.arena && InUse(s, c) ensures c == b {
        assert s.held[c] == Count(refs, c);
        Home(arena, refs, pending, n, c);
      }
    } else {
      var i := if r.active[0] == b.index then r.active[1] else r.active[0];
      assert i in r.active;
      ActiveInUse(arena, refs, pending, n, purge, s, Buf(b.arena, i));
    }
  }

  lemma {:induction false} ActiveInUse(arena: map<ArenaId, Arena>, refs: map<Buf, int>, pending: set<Buf>, n: nat,
                                       purge: seq<ArenaId>, s: Snapshot, b: Buf)
    requires ArenasOk(arena, n) && BufsOk(arena, refs, pending, n) && Shows(s, refs, pending, arena.Keys, purge)
    requires b.arena in arena && b.index in arena[b.arena].active
    ensures InUse(s, b)
  {
    assert ArenaOk(arena[b.arena], n);
    assert BufOk(arena, refs, pending, b) && s.held[b] == Count(refs, b);
  }

  /** Without an arena on the first list or a spare one everything is in use. */
  lemma {:induction false} AllFilled(arena: map<ArenaId, Arena>, filled: seq<ArenaId>, refs: map<Buf, int>,
                                     pending: set<Buf>, n: nat, s: Snapshot)
    requires Partition(arena.Keys, [], filled, []) && Marks(arena, filled, []) && ArenasOk(arena, n)
    requires BufsOk(arena, refs, pending, n) && Shows(s, refs, pending, arena.Keys, [])
    ensures Full(s, n)
  {
    forall b: Buf | b.arena in s.live && b.index < n ensures InUse(s, b) {
      assert BufOk(arena, refs, pending, b);
      assert ArenaOk(arena[b.arena], n) && b.arena in filled;
      assert s.held[b] == Count(refs, b);
    }
  }

  lemma {:induction false} ListedArenas(keys: set<ArenaId>, x: seq<ArenaId>, y: seq<ArenaId>, z: seq<ArenaId>)
    requires Partition(keys, x, y, z)
    ensures x != [] ==> x[0] in keys && x[0] !in z
    ensures z != [] ==> z[0] in keys && forall a :: a in z[1..] <==> a in z && a != z[0]
    ensures forall a :: a in z ==> a in keys
  {
    assert x != [] ==> x[0] in x;
    assert z != [] ==> z[0] in z;
    if z != [] {
      TailProps(z);
    }
  }

  /** Whether others are in use does not depend on whether the buffer is held or being put back. */
  lemma {:induction false} AloneStill(s: Snapshot, b: Buf)
    requires s.held[b] == 1
    ensures Alone(Dropped(s, b), b) <==> Alone(s, b)
  {
    forall c: Buf ensures InUse(Dropped(s, b), c) <==> InUse(s, c) {
    }
  }

  /** Dropping spare arenas makes no difference to the open ones. */
  lemma {:induction false} OpenMore(s: Snapshot, n: nat)
    ensures forall a :: Open(s.(live := s.live - s.spare, spare := {}), n, a) <==> Open(s, n, a)
  {
    var t := s.(live := s.live - s.spare, spare := {});
    forall a ensures Open(t, n, a) <==> Open(s, n, a) {
      forall i: nat ensures InUse(t, Buf(a, i)) <==> InUse(s, Buf(a, i)) {
      }
    }
  }

  lemma {:induction false} NotFull(n: nat, s: Snapshot, b: Buf)
    requires b.index < n && !InUse(s, b)
    ensures b.arena in s.live ==> !Full(s, n)
  {
  }

  lemma {:induction false} Home(arena: map<ArenaId, Arena>, refs: map<Buf, int>, pending: set<Buf>, n: nat, b: Buf)
    requires BufsOk(arena, refs, pending, n) && (Count(refs, b) > 0 || b in pending)
    ensures b in refs && b.index < n && b.arena in arena && b.index in arena[b.arena].active
  {
    assert BufOk(arena, refs, pending, b);
  }

  /** A buffer that is held or on its way back is an active one of an arena that is there. */
  lemma {:induction false} Homes(arena: map<ArenaId, Arena>, refs: map<Buf, int>, pending: set<Buf>, n: nat,
                                 purge: seq<ArenaId>, s: Snapshot)
    requires BufsOk(arena, refs, pending, n) && Shows(s, refs, pending, arena.Keys, purge)
    ensures forall b :: b in s.held || b in pending ==>
              && b in refs && refs[b] == s.held[b] && b.arena in arena && b.index in arena[b.arena].active
  {
    hide BufsOk;
    forall b | b in s.held || b in pending
      ensures b in refs && refs[b] == s.held[b] && b.arena in arena && b.index in arena[b.arena].active
    {
      assert s.held[b] == Count(refs, b);
      Home(arena, refs, pending, n, b);
    }
  }

  /** With a single buffer to an arena the pool does not stay tidy: a returned arena goes to the
      spare list without ever being on the first one, so nothing prunes the spare one before it. */
  method Untidy() returns (pool: Pool)
    ensures pool.Valid() && pool.perArena == 1 && |pool.purge| == 2
  {
    hide ArenaOk, BufsOk, Partition, ArenasOk, Marks;
    pool := new Pool(1, 10, true);
    var x := pool.Get(11, true);
    OneBuffer(pool, x.value);
    var y := pool.Get(11, true);
    OneBuffer(pool, x.value);
    OneBuffer(pool, y.value);
    pool.Release(x.value);
    OneBuffer(pool, y.value);
    pool.Release(y.value);
  }

  lemma {:induction false} OneBuffer(pool: Pool, b: Buf)
    requires pool.Valid() && pool.perArena == 1 && b in pool.refs && pool.refs[b] > 0
    ensures b.arena in pool.arena && pool.arena[b.arena].passiveCnt == 0 && pool.arena[b.arena].activeCnt == 1
  {
    assert BufOk(pool.arena, pool.refs, pool.pending, b);
    assert ArenaOk(pool.arena[b.arena], 1);
  }

  datatype Step = GetStep(id: ArenaId, ok: bool) | RefStep(b: Buf) | UnrefStep(b: Buf) | PutStep(b: Buf) | PruneStep

  lemma {:induction false} FirstPurged(keys: set<ArenaId>, x: seq<ArenaId>, y: seq<ArenaId>, z: seq<ArenaId>)
    requires Partition(keys, x, y, z) && z != []
    ensures z[0] in keys && z[0] in z && Partition(keys - {z[0]}, x, y, z[1..])
    ensures z[0] !in z[1..] && forall c: ArenaId :: c in z[1..] ==> c in z
  {
    TailProps(z);
    assert z[0] in z;
  }

  lemma {:induction false} InPlace(arena: map<ArenaId, Arena>, refs: map<Buf, int>, pending: set<Buf>, n: nat)
    requires BufsOk(arena, refs, pending, n)
    ensures forall b :: b in refs ==> b.arena in arena
  {
  }

  lemma {:induction false} Forgotten(arena: map<ArenaId, Arena>, refs: map<Buf, int>, pending: set<Buf>, n: nat,
                                     a: ArenaId)
    requires ArenasOk(arena, n) && BufsOk(arena, refs, pending, n) && a in arena && arena[a].activeCnt == 0
    ensures forall b :: Count(Forget(refs, a), b) == Count(refs, b)
  {
    IdleArena(arena, refs, pending, n, a);
    forall b ensures Count(Forget(refs, a), b) == Count(refs, b) {
      assert b == Buf(b.arena, b.index);
    }
  }

  lemma {:induction false} AtRest(arena: map<ArenaId, Arena>, refs: map<Buf, int>, pending: set<Buf>, n: nat, b: Buf)
    requires BufsOk(arena, refs, pending, n) && b in refs && refs[b] > 0
    ensures b !in pending
  {
    assert BufOk(arena, refs, pending, b);
  }

  /** The arenas on the first list always have something to give, so the search there stops at
      the first one. */
  lemma {:induction false} InArenas(arena: map<ArenaId, Arena>, arenas: seq<ArenaId>, filled: seq<ArenaId>,
                                    purge: seq<ArenaId>, n: nat)
    requires Partition(arena.Keys, arenas, filled, purge) && Marks(arena, filled, purge) && ArenasOk(arena, n)
    ensures forall k :: 0 <= k < |arenas| ==>
              arenas[k] in arena && arena[arenas[k]].passiveCnt > 0 && arena[arenas[k]].passive != []
    ensures arenas != [] ==> arenas[0] in arena && arena[arenas[0]].passiveCnt > 0
  {
    forall k | 0 <= k < |arenas|
      ensures arenas[k] in arena && arena[arenas[k]].passiveCnt > 0 && arena[arenas[k]].passive != []
    {
      assert arenas[k] in arenas;
      assert ArenaOk(arena[arenas[k]], n);
    }
  }

  lemma {:induction false} Spare(r: Arena, n: nat)
    requires ArenaOk(r, n) && n > 0 && (r.active == [] || r.activeCnt == 0)
    ensures r.passive != [] && r.passiveCnt == n && r.activeCnt == 0
  {
  }

  lemma {:induction false} InKeys(keys: set<ArenaId>, x: seq<ArenaId>, y: seq<ArenaId>, z: seq<ArenaId>)
    requires Partition(keys, x, y, z)
    ensures forall k :: 0 <= k < |x| ==> x[k] in keys
  {
  }

  lemma {:induction false} InOne(keys: set<ArenaId>, x: seq<ArenaId>, y: seq<ArenaId>, z: seq<ArenaId>, a: ArenaId)
    requires Partition(keys, x, y, z) && a in x
    ensures a in keys && a !in y && a !in z
  {
  }

  /** An arena with an active buffer is on the first list, or on the second if it is full. */
  lemma {:induction false} HomeOf(arena: map<ArenaId, Arena>, arenas: seq<ArenaId>, filled: seq<ArenaId>,
                                  purge: seq<ArenaId>, n: nat, a: ArenaId, i: nat)
    requires Partition(arena.Keys, arenas, filled, purge) && Marks(arena, filled, purge) && ArenasOk(arena, n)
    requires a in arena && i in arena[a].active
    ensures if arena[a].passiveCnt == 0 then a in filled && arena[a].activeCnt == n else a in arenas
  {
    assert ArenaOk(arena[a], n);
  }
}
