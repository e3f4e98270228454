/**
 `struct iobref` (src/iobuf.c:446-582): up to eight buffers kept referenced
 together.  The occupied slots always come first.
 */
module Iobref {
  import opened Errno
  import opened Options
  import opened Iobuf

  const SLOTS: nat := 8

  class Iobref {
    var slots: seq<Option<Buf>>

    ghost predicate Valid()
      reads this
    {
      |slots| == SLOTS && forall i, j :: 0 <= i < j < SLOTS && slots[j].Some? ==> slots[i].Some?
    }

    /** The buffers held, in slot order. */
    ghost function Held(): seq<Buf>
      reads this
    {
      Values(slots)
    }

    constructor ()
      ensures Valid() && Held() == []
    {
      slots := seq(SLOTS, _ => None);
      new;
      AllEmpty(slots);
    }

    /** iobref_add: the buffer goes to the first free slot and gets one more reference. */
    method Add(pool: Pool, b: Buf) returns (ret: int)
      requires Valid() && pool.Valid() && b in pool.refs && pool.refs[b] > 0
      modifies this, pool`refs
      ensures Valid() && pool.Valid()
      ensures |old(Held())| < SLOTS ==>
                ret == 0 && Held() == old(Held()) + [b] && pool.refs == old(pool.refs)[b := old(pool.refs[b]) + 1]
      ensures |old(Held())| == SLOTS ==> ret == -ENOMEM && Held() == old(Held()) && pool.refs == old(pool.refs)
      ensures |old(Held())| <= SLOTS
    {
      hide ArenasOk, BufsOk, Partition, Marks;
      ret := -ENOMEM;
      for i := 0 to SLOTS
        invariant slots == old(slots) && ret == -ENOMEM && pool.refs == old(pool.refs) && pool.Valid()
        invariant forall k :: 0 <= k < i ==> slots[k].Some?
      {
        if slots[i] == None {
          FirstFree(slots, i, b);
          pool.Ref(b);
          slots := slots[i := Some(b)];
          return 0;
        }
      }
      NoneFree(slots);
    }
  }

  function Values(s: seq<Option<Buf>>): seq<Buf> {
    if s == [] || s[0] == None then [] else [s[0].value] + Values(s[1..])
  }

  lemma {:induction false} AllEmpty(s: seq<Option<Buf>>)
    requires s != [] ==> s[0] == None
    ensures Values(s) == []
  {
  }

  lemma {:induction false} FirstFree(s: seq<Option<Buf>>, i: nat, b: Buf)
    requires i < |s| && s[i] == None && forall k :: 0 <= k < i ==> s[k].Some?
    ensures |Values(s)| == i
    ensures (i + 1 == |s| || s[i + 1] == None) ==> Values(s[i := Some(b)]) == Values(s) + [b]
  {
    if i == 0 {
      assert s[0 := Some(b)][1..] == s[1..];
    } else {
      FirstFree(s[1..], i - 1, b);
      assert s[i := Some(b)][1..] == s[1..][i - 1 := Some(b)];
    }
  }

  lemma {:induction false} NoneFree(s: seq<Option<Buf>>)
    requires forall k :: 0 <= k < |s| ==> s[k].Some?
    ensures |Values(s)| == |s|
  {
    if s != [] {
      NoneFree(s[1..]);
    }
  }

  lemma {:induction false} ValueAt(s: seq<Option<Buf>>, i: nat)
    requires i < |s| && forall k :: 0 <= k < i ==> s[k].Some?
    ensures |Values(s)| >= i && (s[i] == None <==> |Values(s)| == i)
    ensures (s[i].Some? ==> |Values(s)| > i && Values(s)[i] == s[i].value)
  {
    if i > 0 {
      ValueAt(s[1..], i - 1);
    }
  }

  /** Every buffer that `from` holds is referenced, at least once for each slot it is in. */
  ghost predicate Backed(refs: map<Buf, int>, held: seq<Buf>) {
    forall i :: 0 <= i < |held| ==> held[i] in refs && refs[held[i]] > 0
  }

  /** Every buffer has gained one reference for each time it was added. */
  ghost predicate Counted(refs: map<Buf, int>, refs': map<Buf, int>, added: seq<Buf>) {
    refs'.Keys == refs.Keys && forall b :: b in refs ==> refs'[b] == refs[b] + multiset(added)[b]
  }

  lemma {:induction false} CountOne(refs: map<Buf, int>, refs': map<Buf, int>, held: seq<Buf>, i: nat)
    requires i < |held| && Counted(refs, refs', held[..i]) && held[i] in refs'
    ensures Counted(refs, refs'[held[i] := refs'[held[i]] + 1], held[..i + 1])
  {
    assert held[..i + 1] == held[..i] + [held[i]];
  }

  lemma {:induction false} CountNone(refs: map<Buf, int>)
    ensures Counted(refs, refs, [])
  {
  }

  lemma {:induction false} StillBacked(refs: map<Buf, int>, held: seq<Buf>, i: nat)
    requires Backed(refs, held) && i < |held|
    ensures held[i] in refs && refs[held[i]] > 0 && Backed(refs[held[i] := refs[held[i]] + 1], held)
  {
  }

  /** iobref_merge between two distinct collections: everything in `from` is added, or as much
      as fits and -ENOMEM. */
  method Merge(to: Iobref, from: Iobref, pool: Pool) returns (ret: int)
    requires to != from && to.Valid() && from.Valid() && pool.Valid() && Backed(pool.refs, from.Held())
    modifies to, pool`refs
    ensures to.Valid() && pool.Valid()
    ensures var room := SLOTS - |old(to.Held())|;
            && 0 <= room
            && ret == (if |from.Held()| <= room then 0 else -ENOMEM)
            && var added := if |from.Held()| <= room then from.Held() else from.Held()[..room];
            to.Held() == old(to.Held()) + added && Counted(old(pool.refs), pool.refs, added)
  {
    hide ArenasOk, BufsOk, Partition, Marks, Counted, Backed, Values;
    ret := 0;
    ghost var refs0 := pool.refs;
    ghost var held, base := from.Held(), to.Held();
    Bounded(to.slots);
    assert held[..0] == [] && base + [] == base;
    CountNone(refs0);
    var i := 0;
    while i < SLOTS
      invariant i <= SLOTS && ret == 0 && to.Valid() && from.Valid() && pool.Valid()
      invariant from.Held() == held && Backed(pool.refs, held)
      invariant forall k :: 0 <= k < i ==> from.slots[k].Some?
      invariant i <= |held| && |base| + i <= SLOTS && to.Held() == base + held[..i]
      invariant Counted(refs0, pool.refs, held[..i])
    {
      ValueAt(from.slots, i);
      if from.slots[i] == None {
        assert held[..i] == held;
        return;
      }
      StillBacked(pool.refs, held, i);
      CountOne(refs0, pool.refs, held, i);
      ret := to.Add(pool, from.slots[i].value);
      if ret < 0 {
        return;
      }
      assert base + held[..i] + [held[i]] == base + held[..i + 1];
      i := i + 1;
    }
    NoneFree(from.slots);
    assert held[..i] == held;
  }

  lemma {:induction false} Bounded(s: seq<Option<Buf>>)
    ensures |Values(s)| <= |s|
  {
    if s != [] {
      Bounded(s[1..]);
    }
  }
}
