/**
 The dictionary of src/dict.c: pairs on hash chains and on a doubly linked member
 list, holding counted references to values that dictionaries share.
 */
module Dict {
  import opened Options
  import opened ByteOrder
  import opened Lists
  import opened DictEntries
  import opened DictStore

  // ----- the two remainders

  /** C's `%` on signed operands: the result has the sign of the dividend. */
  function TruncRem(a: int, n: nat): int
    requires n > 0
  {
    if a >= 0 then a % n else -((-a) % n)
  }

  /** The slot `_dict_set` stores a new pair in: the hash goes through an `int`. */
  function SetSlot(h: U32, n: nat): int
    requires n > 0
  {
    TruncRem(Signed(h), n)
  }

  /** The slot `_dict_lookup` and `dict_del` search. */
  function LookupSlot(h: U32, n: nat): int
    requires n > 0
  {
    h % n
  }

  /** A caller can tell from the hash and the table size alone whether storing and searching agree. */
  predicate Agreeing(h: U32, n: nat)
    requires n > 0
  {
    h < 0x8000_0000 || (h % n == 0 && (0x1_0000_0000 - h) % n == 0)
  }

  lemma {:induction false} SlotsAgree(h: U32, n: nat)
    requires n > 0
    ensures SetSlot(h, n) == LookupSlot(h, n) <==> Agreeing(h, n)
    ensures n == 1 ==> Agreeing(h, n)
    ensures 0 <= SetSlot(h, n) < n <==> h < 0x8000_0000 || (0x1_0000_0000 - h) % n == 0
  {
    if h >= 0x8000_0000 {
      var a: nat := 0x1_0000_0000 - h;
      assert SetSlot(h, n) == -(a % n);
    }
  }

  /** A hash for which a pair is stored in slot 0 and searched in slot 1. */
  lemma {:induction false} SlotsDiffer()
    ensures SetSlot(0xffff_fffd, 3) == 0 && LookupSlot(0xffff_fffd, 3) == 1
  {
    assert Signed(0xffff_fffd) == -3;
  }

  // ----- reference counts

  type Counts = map<Ref, int>

  /** data_ref, data_unref; a value whose count returns to zero is destroyed. */
  function Up(refs: Counts, v: Ref): Counts
    requires v in refs
  {
    refs[v := refs[v] + 1]
  }

  function Down(refs: Counts, v: Ref): Counts
    requires v in refs
  {
    if refs[v] == 1 then refs - {v} else refs[v := refs[v] - 1]
  }

  /** Every value in an entry is there, with at least one reference for each entry. */
  ghost predicate Backed(es: seq<Entry<Ref>>, refs: Counts) {
    && (forall v: Ref :: Uses(es, v) > 0 ==> v in refs && refs[v] >= Uses(es, v))
    && (forall v: Ref :: v in refs ==> refs[v] >= 0)
  }

  /** Each count has changed by exactly as much as the number of entries that hold the value, and the
      values that are gone are exactly those that lost their last reference. */
  ghost predicate Settled(es: seq<Entry<Ref>>, es': seq<Entry<Ref>>, refs: Counts, refs': Counts) {
    forall v: Ref :: BalancedAt(es, es', refs, refs', v)
  }

  ghost predicate BalancedAt(es: seq<Entry<Ref>>, es': seq<Entry<Ref>>, refs: Counts, refs': Counts, v: Ref) {
    if v !in refs then v !in refs' else
    var balance := refs[v] + Uses(es', v) - Uses(es, v);
    && (v in refs' <==> !(refs[v] > 0 && balance == 0))
    && (v in refs' ==> refs'[v] == balance)
  }

  lemma {:induction false} SettledNew(es: seq<Entry<Ref>>, k: Key, v: Ref, refs: Counts)
    requires Backed(es, refs) && !Has(es, k) && v in refs && refs[v] >= 0
    ensures Settled(es, Put(es, k, v), refs, Up(refs, v)) && Backed(Put(es, k, v), Up(refs, v))
  {
    hide Put, Has, Pos;
    forall w: Ref ensures BalancedAt(es, Put(es, k, v), refs, Up(refs, v), w)
                  ensures Uses(Put(es, k, v), w) > 0 ==> w in Up(refs, v) && Up(refs, v)[w] >= Uses(Put(es, k, v), w)
    {
      UsesPut(es, k, v, w);
    }
  }

  lemma {:induction false} UsesPos(es: seq<Entry<Ref>>, k: Key)
    requires Has(es, k)
    ensures Uses(es, es[Pos(es, k)].value) > 0
  {
    UsesAt(es, Pos(es, k), es[Pos(es, k)].value);
  }

  /** The new reference is taken before the old one is given up, so that a value put where it already
      is survives. */
  lemma {:induction false} SettledAgain(es: seq<Entry<Ref>>, k: Key, v: Ref, refs: Counts)
    requires Backed(es, refs) && Has(es, k) && v in refs && refs[v] >= 0
    ensures var was := es[Pos(es, k)].value; was in Up(refs, v) && Up(refs, v)[was] >= 1
    ensures var refs' := Down(Up(refs, v), es[Pos(es, k)].value);
            Settled(es, Put(es, k, v), refs, refs') && Backed(Put(es, k, v), refs')
  {
    UsesPos(es, k);
    var was := es[Pos(es, k)].value;
    var refs' := Down(Up(refs, v), was);
    forall w: Ref ensures BalancedAt(es, Put(es, k, v), refs, refs', w)
                  ensures Uses(Put(es, k, v), w) > 0 ==> w in refs' && refs'[w] >= Uses(Put(es, k, v), w)
    {
      UsesPut(es, k, v, w);
    }
  }

  lemma {:induction false} SettledGone(es: seq<Entry<Ref>>, k: Key, refs: Counts)
    requires Backed(es, refs) && Has(es, k)
    ensures var was := es[Pos(es, k)].value; was in refs && refs[was] >= 1
    ensures var refs' := Down(refs, es[Pos(es, k)].value);
            Settled(es, Remove(es, k), refs, refs') && Backed(Remove(es, k), refs')
  {
    UsesPos(es, k);
    var was := es[Pos(es, k)].value;
    var refs' := Down(refs, was);
    forall w: Ref ensures BalancedAt(es, Remove(es, k), refs, refs', w)
                  ensures Uses(Remove(es, k), w) > 0 ==> w in refs' && refs'[w] >= Uses(Remove(es, k), w)
    {
      UsesRemove(es, k, w);
    }
  }

  lemma {:induction false} SettledSame(es: seq<Entry<Ref>>, refs: Counts)
    requires Backed(es, refs)
    ensures Settled(es, es, refs, refs)
  {
    forall w: Ref ensures BalancedAt(es, es, refs, refs, w) {
    }
  }

  /** The values in the entries had references before. */
  ghost predicate Sourced(es: seq<Entry<Ref>>, refs: Counts) {
    forall v: Ref :: Uses(es, v) > 0 ==> v in refs && refs[v] > 0
  }

  lemma {:induction false} BackedSourced(es: seq<Entry<Ref>>, refs: Counts)
    requires Backed(es, refs)
    ensures Sourced(es, refs)
  {
  }

  lemma {:induction false} SourcedPut(es: seq<Entry<Ref>>, e: Entry<Ref>, ok: bool, refs: Counts)
    requires Sourced(es, refs) && e.value in refs && refs[e.value] > 0
    ensures Sourced(PutIf(es, e, ok), refs)
  {
    hide Put, Has, Pos, Uses;
    forall v: Ref | Uses(PutIf(es, e, ok), v) > 0 ensures v in refs && refs[v] > 0 {
      UsesPut(es, e.key, e.value, v);
    }
  }

  lemma {:induction false} SettledBoth(es: seq<Entry<Ref>>, es1: seq<Entry<Ref>>, es2: seq<Entry<Ref>>,
                                       refs: Counts, refs1: Counts, refs2: Counts)
    requires Settled(es, es1, refs, refs1) && Settled(es1, es2, refs1, refs2)
    requires Backed(es1, refs1) && Backed(es2, refs2) && Sourced(es, refs) && Sourced(es1, refs)
    ensures Settled(es, es2, refs, refs2)
  {
    forall w: Ref ensures BalancedAt(es, es2, refs, refs2, w) {
      assert BalancedAt(es, es1, refs, refs1, w) && BalancedAt(es1, es2, refs1, refs2, w);
    }
  }

  /** The values in memory. */
  class Values {
    var refs: Counts

    constructor ()
      ensures refs == map[]
    {
      refs := map[];
    }

    method AddRef(v: Ref)
      requires v in refs
      modifies this
      ensures refs == Up(old(refs), v)
    {
      refs := refs[v := refs[v] + 1];
    }

    method Unref(v: Ref)
      requires v in refs
      modifies this
      ensures refs == Down(old(refs), v)
    {
      var ref := refs[v] - 1;
      refs := refs[v := ref];
      if ref == 0 {
        refs := refs - {v};
      }
    }
  }

  class Dictionary {
    const hashSize: nat
    const hash: Key -> U32              // SuperFastHash, any function
    const refName: Ref -> Key           // the text "ref:%p" of a value
    ghost const slot: Key -> nat
    var pairs: Store
    var members: seq<Ref>               // the heads of the hash chains
    var membersList: Ref
    var count: int
    ghost var chains: seq<seq<Ref>>
    ghost var order: seq<Ref>

    ghost predicate Valid()
      reads this
    {
      && hashSize > 0 && |members| == |chains| == hashSize && NULL !in pairs
      && Searches(slot, hash, hashSize)
      && Slots(pairs, members, chains, slot)
      && In(pairs, order) && Listing(pairs, membersList, order) && count == |order| && Valued(pairs)
    }

    /** The pairs in the order of the member list. */
    ghost function Entries(): seq<Entry<Ref>>
      reads this
      requires In(pairs, order)
    {
      Listed(pairs, order)
    }

    /** get_new_dict_full */
    constructor (hashSize: nat, hash: Key -> U32, refName: Ref -> Key)
      requires hashSize > 0
      ensures Valid() && Entries() == [] && pairs == map[]
      ensures this.hashSize == hashSize && this.hash == hash && this.refName == refName
    {
      this.hashSize, this.hash, this.refName := hashSize, hash, refName;
      slot := k => LookupSlot(hash(k), hashSize);
      pairs, members, membersList, count := map[], seq(hashSize, _ => NULL), NULL, 0;
      chains, order := seq(hashSize, _ => []), [];
    }

    /** `_dict_lookup` */
    method Lookup(key: Key) returns (pair: Ref)
      requires Valid()
      ensures pair == NULL <==> !Has(Entries(), key)
      ensures pair != NULL ==> pair in pairs && pairs[pair].key == key
    {
      hide Listing, LookupSlot, Has, Chain, Slotted, Listed, In, NoDup, After;
      SlotRange(hash(key), hashSize);
      var hashval := LookupSlot(hash(key), hashSize);
      assert SlotOk(pairs, members, chains, slot, hashval);
      ghost var c, i := chains[hashval], 0;
      pair := members[hashval];
      ChainStart(pairs, pair, c);
      while pair != NULL
        invariant i <= |c| && pair == After(c, i - 1) && (pair == NULL <==> i == |c|)
        invariant i < |c| ==> pair in pairs && pair == c[i]
        invariant forall j :: 0 <= j < i ==> c[j] in pairs && pairs[c[j]].key != key
        decreases |c| - i
      {
        ChainStep(pairs, members[hashval], c, i);
        if pairs[pair].key == key {
          Found(pairs, membersList, order, pair);
          return;
        }
        pair := pairs[pair].hashNext;
        i := i + 1;
      }
      Missing(pairs, membersList, order, c, slot, hashval, key);
    }

    /** dict_get */
    method Get(key: Key) returns (value: Option<Ref>)
      requires Valid()
      ensures value == if key in AsMap(Entries()) then Some(AsMap(Entries())[key]) else None
    {
      hide Slots, LookupSlot;
      var pair := Lookup(key);
      MapHas(Entries(), key);
      if pair == NULL {
        return None;
      }
      ghost var i := WhereIs(pairs, membersList, order, pair);
      value := Some(pairs[pair].value);
    }

    function Name(key: Option<Key>, value: Ref): Key { if key == None then refName(value) else key.value }

    /** Where `_dict_set` stores a pair is inside the table. */
    predicate Reaches(key: Key)
      requires hashSize > 0
    {
      0 <= SetSlot(hash(key), hashSize) < hashSize
    }

    /** dict_set; `addr` is what allocating the pair returns, `copied` whether its key could be copied.
        A key that is there gets the new value in place, another one goes to the front.  The dictionary
        stays in order unless a new pair is stored in a slot where it is not searched. */
    method Set(values: Values, key: Option<Key>, value: Ref, addr: Ref, copied: bool) returns (ret: int)
      requires Valid() && Backed(Entries(), values.refs) && (value == NULL || value in values.refs)
      requires value != NULL && addr != NULL && copied ==> Has(Entries(), Name(key, value)) || Reaches(Name(key, value))
      requires addr == NULL || addr !in pairs
      modifies this, values
      ensures In(pairs, order) && Backed(Entries(), values.refs) && hashSize > 0
      ensures Valid() <==>
                ret == -1 || Has(old(Entries()), Name(key, value)) || Agreeing(hash(Name(key, value)), hashSize)
      ensures ret ==
              if value != NULL && (Has(old(Entries()), Name(key, value)) || (addr != NULL && copied)) then 0 else -1
      ensures Entries() == if ret == 0 then Put(old(Entries()), Name(key, value), value) else old(Entries())
      ensures Settled(old(Entries()), Entries(), old(values.refs), values.refs) && count == |order|
      ensures pairs.Keys <= old(pairs.Keys) + {addr}
      ensures Has(old(Entries()), Name(key, value)) || ret == -1 ==> order == old(order)
    {
      hide Slots, Listing, Settled, Backed, SetSlot, LookupSlot, Agreeing, Has, Pos, Put, Up, Down, Linked, Revalued,
        Valued;
      ghost var es := Entries();
      if value == NULL {
        SettledSame(es, values.refs);
        return -1;
      }
      var k := Name(key, value);
      var hashval := SetSlot(hash(k), hashSize);
      var pair := Lookup(k);
      CountsUp(es, values.refs);
      if pair != NULL {
        ghost var i := WhereIs(pairs, membersList, order, pair);
        var unref := pairs[pair].value;
        SettledAgain(es, k, value, values.refs);
        RevaluedAll(pairs, members, membersList, chains, order, slot, i, value);
        ValuedSet(pairs, pair, value);
        pairs := Revalue(pairs, pair, value);
        values.AddRef(value);
        values.Unref(unref);
        return 0;
      }
      if addr == NULL || !copied {
        SettledSame(es, values.refs);
        return -1;
      }
      SettledNew(es, k, value, values.refs);
      values.AddRef(value);
      Attach(k, value, addr, hashval);
      ret := 0;
    }

    /** A new pair goes to the front of slot `hashval` and of the member list. */
    method Attach(k: Key, value: Ref, addr: Ref, hashval: nat)
      requires Valid() && !Has(Entries(), k) && addr != NULL && addr !in pairs && value != NULL
      requires hashval < hashSize && hashval == SetSlot(hash(k), hashSize)
      modifies this
      ensures In(pairs, order) && Entries() == Put(old(Entries()), k, value)
      ensures Valid() <==> Agreeing(hash(k), hashSize)
      ensures pairs.Keys == old(pairs.Keys) + {addr} && count == |order|
    {
      hide Slots, Listing, SetSlot, LookupSlot, Agreeing, Has, Pos, Put, Linked, Valued;
      SlotsAgree(hash(k), hashSize);
      SlotRange(hash(k), hashSize);
      LinkedListing(pairs, membersList, order, addr, k, value, members[hashval]);
      LinkedKeys(pairs, addr, k, value, members[hashval], membersList);
      ValuedLink(pairs, addr, k, value, members[hashval], membersList);
      if slot(k) == hashval {
        LinkedSlots(pairs, members, membersList, chains, slot, addr, k, value);
      } else {
        LinkedElsewhere(pairs, members, membersList, chains, slot, addr, k, value, hashval);
      }
      pairs := LinkIn(pairs, addr, k, value, members[hashval], membersList);
      members := members[hashval := addr];
      membersList := addr;
      count := count + 1;
      chains := chains[hashval := [addr] + chains[hashval]];
      order := [addr] + order;
    }

    /** dict_del */
    method Del(values: Values, key: Key)
      requires Valid() && Backed(Entries(), values.refs)
      modifies this, values
      ensures Valid() && Backed(Entries(), values.refs)
      ensures Entries() == Remove(old(Entries()), key)
      ensures Settled(old(Entries()), Entries(), old(values.refs), values.refs)
      ensures pairs.Keys <= old(pairs.Keys)
    {
      hide Slots, Listing, Settled, Backed, LookupSlot, Has, Remove, Listed, In, Before, Searches;
      var hashval, prev, pair, i := SearchChain(key);
      if pair == NULL {
        RemoveNone(Entries(), key);
        SettledSame(Entries(), values.refs);
        return;
      }
      TakeOut(values, hashval, prev, pair, i);
    }

    /** The loop of dict_del: the pair with its predecessor in the chain. */
    method SearchChain(key: Key) returns (hashval: nat, prev: Ref, pair: Ref, ghost i: nat)
      requires Valid()
      ensures pair == NULL ==> !Has(Entries(), key)
      ensures pair != NULL ==>
                && hashval < hashSize && i < |chains[hashval]| && pair == chains[hashval][i]
                && prev == Before(chains[hashval], i) && pair in pairs && pairs[pair].key == key
    {
      hide Listing, LookupSlot, Has, Chain, Slotted, Listed, In, NoDup, After, Before;
      SlotRange(hash(key), hashSize);
      hashval := LookupSlot(hash(key), hashSize);
      assert SlotOk(pairs, members, chains, slot, hashval);
      ghost var c := chains[hashval];
      i := 0;
      pair, prev := members[hashval], NULL;
      ChainStart(pairs, pair, c);
      while pair != NULL && pairs[pair].key != key
        invariant i <= |c| && pair == After(c, i - 1) && prev == Before(c, i) && (pair == NULL <==> i == |c|)
        invariant i < |c| ==> pair in pairs && pair == c[i]
        invariant forall j :: 0 <= j < i ==> c[j] in pairs && pairs[c[j]].key != key
        decreases |c| - i
      {
        ChainStep(pairs, members[hashval], c, i);
        prev := pair;
        pair := pairs[pair].hashNext;
        i := i + 1;
      }
      if pair == NULL {
        Missing(pairs, membersList, order, c, slot, hashval, key);
      }
    }

    /** The body of the loop of dict_del once the pair is found: `pair` is the i-th of its chain. */
    method TakeOut(values: Values, hashval: nat, prev: Ref, pair: Ref, ghost i: nat)
      requires Valid() && Backed(Entries(), values.refs)
      requires hashval < hashSize && i < |chains[hashval]| && pair == chains[hashval][i]
      requires prev == Before(chains[hashval], i)
      requires pair in pairs
      modifies this, values
      ensures Valid() && Backed(Entries(), values.refs)
      ensures Entries() == Remove(old(Entries()), old(pairs[pair].key))
      ensures Settled(old(Entries()), Entries(), old(values.refs), values.refs)
      ensures pairs.Keys <= old(pairs.Keys)
    {
      hide Slots, Listing, Settled, Backed, LookupSlot, Has, Pos, Remove, Down, Cut, Unlinked, Before, Loose, Listed,
        In, Searches, Valued;
      ghost var es, c := Entries(), chains[hashval];
      ghost var at := WhereIs(pairs, membersList, order, pair);
      SettledGone(es, pairs[pair].key, values.refs);
      UnlinkedAll(pairs, members, membersList, chains, order, slot, hashval, i, at);
      ValuedUnlink(pairs, prev, pair);
      values.Unref(pairs[pair].value);
      pairs, members, membersList := UnlinkOut(pairs, members, membersList, hashval, prev, pair);
      count := count - 1;
      chains := chains[hashval := Cut(c, i)];
      order := Cut(order, at);
    }

    /** dict_copy into this dictionary: dict_foreach walks the member list of `from` and `_copy` sets
        each key here.  `addrs` are what the allocations return, NULL for a pair or key that could
        not be had: dict_copy does not notice, and that key is left out. */
    method CopyFrom(values: Values, from: Dictionary, addrs: seq<Ref>)
      requires Valid() && from.Valid() && Backed(Joint(this, from), values.refs)
      requires forall e :: e in from.Entries() ==> Agreeing(hash(e.key), hashSize)
      requires |addrs| >= |from.order| && Unused(pairs, addrs, 0)
      modifies this, values
      ensures Valid() && from.Valid() && Backed(Joint(this, from), values.refs)
      ensures Entries() == PutSome(old(Entries()), old(from.Entries()), Had(addrs))
      ensures from == this ==> Entries() == old(Entries())
      ensures from != this ==> from.Entries() == old(from.Entries())
      ensures Settled(old(Entries()), Entries(), old(values.refs), values.refs)
    {
      hide Slots, Listing, Settled, Backed, LookupSlot, Has, Pos, PutIf, Agreeing, Listed, In, After, Searches, PutSome,
        Unused, Valued, Sourced;
      ghost var es, src, links := Entries(), from.Entries(), from.order;
      ghost var refs0 := values.refs;
      FirstPart(Entries(), if from == this then [] else src, values.refs);
      SettledSame(es, refs0);
      BackedSourced(es, refs0);
      var pair, i := from.membersList, 0;
      FirstMember(from.pairs, pair, links);
      PutSomeNone(es, src, Had(addrs));
      while pair != NULL
        invariant Valid() && from.Valid() && from.order == links && i <= |links| && pair == After(links, i - 1)
        invariant (pair == NULL <==> i == |links|) && |src| == |links|
        invariant from.Entries() == src && Entries() == PutSome(es, src[..i], Had(addrs))
        invariant Backed(Entries(), values.refs) && Backed(Joint(this, from), values.refs)
        invariant Settled(es, Entries(), refs0, values.refs)
        invariant Unused(pairs, addrs, i) && Sourced(Entries(), refs0)
        decreases |links| - i
      {
        Progress(from.pairs, from.membersList, links, src, i, pair);
        ghost var es1, refs1, pairs1 := Entries(), values.refs, pairs;
        assert src[i] in src;
        NextUnused(pairs, addrs, i);
        pair := CopyOne(values, from, pair, i, addrs[i]);
        SettledBoth(es, es1, Entries(), refs0, refs1, values.refs);
        SecondPart(es, src, from == this, refs0, i);
        SourcedPut(es1, src[i], addrs[i] != NULL, refs0);
        StillUnused(pairs1, pairs, addrs, i);
        PutSomeNext(es, src, Had(addrs), i);
        i := i + 1;
      }
      assert src[..i] == src;
    }

    /** One turn of dict_foreach: the pair is set here, and the next one is looked at. */
    method CopyOne(values: Values, from: Dictionary, pair: Ref, ghost i: nat, addr: Ref) returns (next: Ref)
      requires Valid() && from.Valid() && Backed(Joint(this, from), values.refs)
      requires i < |from.order| && pair == from.order[i] && pair in from.pairs
      requires Agreeing(hash(from.pairs[pair].key), hashSize)
      requires addr == NULL || addr !in pairs
      modifies this, values
      ensures Valid() && from.Valid() && Backed(Entries(), values.refs) && Backed(Joint(this, from), values.refs)
      ensures Entries() == PutIf(old(Entries()), old(from.Entries())[i], addr != NULL)
      ensures from.order == old(from.order) && from.Entries() == old(from.Entries()) && next == After(from.order, i)
      ensures Settled(old(Entries()), Entries(), old(values.refs), values.refs)
      ensures pairs.Keys <= old(pairs.Keys) + {addr}
    {
      hide Slots, Listing, Settled, Backed, LookupSlot, Has, Pos, Put, Agreeing, Listed, In, Searches, SetSlot, Valued;
      ghost var es, src, refs := Entries(), from.Entries(), values.refs;
      ghost var more := if from == this then [] else src;
      Progress(from.pairs, from.membersList, from.order, src, i, pair);
      HasValue(from.pairs, pair);
      SlotsAgree(hash(from.pairs[pair].key), hashSize);
      SlotRange(hash(from.pairs[pair].key), hashSize);
      FirstPart(es, more, refs);
      SecondPart(es, src, from == this, refs, i);
      if from == this {
        PutSame(src, i);
      }
      var _ := Set(values, Some(from.pairs[pair].key), from.pairs[pair].value, addr, true);
      JointAfter(es, Entries(), more, refs, values.refs);
      Progress(from.pairs, from.membersList, from.order, src, i, pair);
      next := from.pairs[pair].next;
    }
  }

  lemma {:induction false} HasValue(pairs: Store, r: Ref)
    requires Valued(pairs) && r in pairs
    ensures pairs[r].value != NULL
  {
  }

  /** Which allocations succeed. */
  function Had(addrs: seq<Ref>): (ok: seq<bool>)
    ensures |ok| == |addrs| && forall i :: 0 <= i < |ok| ==> ok[i] == (addrs[i] != NULL)
  {
    seq(|addrs|, i requires 0 <= i < |addrs| => addrs[i] != NULL)
  }

  lemma {:induction false} PutSomeNone(es: seq<Entry<Ref>>, src: seq<Entry<Ref>>, ok: seq<bool>)
    ensures PutSome(es, src[..0], ok) == es
  {
  }

  lemma {:induction false} PutSomeNext(es: seq<Entry<Ref>>, src: seq<Entry<Ref>>, ok: seq<bool>, i: nat)
    requires i < |src| <= |ok|
    ensures PutSome(es, src[..i + 1], ok) == PutIf(PutSome(es, src[..i], ok), src[i], ok[i])
  {
    assert src[..i + 1][..i] == src[..i];
  }

  /** The addresses from the i-th on are not in use, and none comes twice. */
  ghost predicate Unused(pairs: Store, addrs: seq<Ref>, i: nat) {
    && (forall j :: i <= j < |addrs| ==> addrs[j] == NULL || addrs[j] !in pairs)
    && (forall j, k :: i <= j < k < |addrs| && addrs[j] != NULL ==> addrs[j] != addrs[k])
  }

  lemma {:induction false} NextUnused(pairs: Store, addrs: seq<Ref>, i: nat)
    requires Unused(pairs, addrs, i) && i < |addrs|
    ensures addrs[i] == NULL || addrs[i] !in pairs
  {
  }

  lemma {:induction false} StillUnused(pairs: Store, pairs': Store, addrs: seq<Ref>, i: nat)
    requires Unused(pairs, addrs, i) && i < |addrs| && pairs'.Keys <= pairs.Keys + {addrs[i]}
    ensures Unused(pairs', addrs, i + 1)
  {
  }

  ghost function Joint(a: Dictionary, b: Dictionary): seq<Entry<Ref>>
    reads a, b
    requires In(a.pairs, a.order) && In(b.pairs, b.order)
  {
    a.Entries() + if a == b then [] else b.Entries()
  }

  lemma {:induction false} FirstPart(es: seq<Entry<Ref>>, more: seq<Entry<Ref>>, refs: Counts)
    requires Backed(es + more, refs)
    ensures Backed(es, refs)
  {
    forall v: Ref ensures Uses(es, v) <= Uses(es + more, v) {
      UsesSplit(es, more, v);
    }
  }

  lemma {:induction false} SecondPart(es: seq<Entry<Ref>>, src: seq<Entry<Ref>>, same: bool, refs: Counts, i: nat)
    requires Backed(es + if same then [] else src, refs) && (same ==> es == src) && i < |src|
    ensures src[i].value in refs && refs[src[i].value] > 0
  {
    UsesSplit(es, if same then [] else src, src[i].value);
    UsesAt(src, i, src[i].value);
  }

  /** Settling one dictionary leaves the others backed. */
  lemma {:induction false} JointAfter(es: seq<Entry<Ref>>, es': seq<Entry<Ref>>, more: seq<Entry<Ref>>, refs: Counts,
                                      refs': Counts)
    requires Backed(es + more, refs) && Settled(es, es', refs, refs') && Backed(es', refs')
    ensures Backed(es' + more, refs')
  {
    forall v: Ref ensures Uses(es' + more, v) > 0 ==> v in refs' && refs'[v] >= Uses(es' + more, v) {
      UsesSplit(es, more, v);
      UsesSplit(es', more, v);
      assert BalancedAt(es, es', refs, refs', v);
    }
  }

  lemma {:induction false} PutSame(es: seq<Entry<Ref>>, i: nat)
    requires UniqueKeys(es) && i < |es|
    ensures Put(es, es[i].key, es[i].value) == es && Has(es, es[i].key)
  {
    PosOf(es, es[i].key, i);
  }

  lemma {:induction false} FirstMember(pairs: Store, head: Ref, order: seq<Ref>)
    requires Listing(pairs, head, order)
    ensures head == After(order, -1) && (head == NULL <==> order == [])
  {
  }

  lemma {:induction false} Progress(pairs: Store, head: Ref, order: seq<Ref>, src: seq<Entry<Ref>>, i: nat, pair: Ref)
    requires Listing(pairs, head, order) && In(pairs, order) && src == Listed(pairs, order)
    requires i <= |order| && pair == After(order, i - 1) && pair != NULL
    ensures In(pairs, order) && i < |order| && pair == order[i] && pair in pairs && pairs[pair].next == After(order, i)
    ensures After(order, i) == NULL <==> i + 1 == |order|
    ensures src[i] == Entry(pairs[pair].key, pairs[pair].value) && UniqueKeys(src)
  {
  }

  lemma {:induction false} RemoveNone(es: seq<Entry<Ref>>, key: Key)
    requires !Has(es, key)
    ensures Remove(es, key) == es
  {
  }

  /** The assignments of dict_del: around the pair in its chain, around it in the member list, and its
      release. */
  method UnlinkOut(pairs: Store, members: seq<Ref>, list: Ref, hashval: nat, prev: Ref, pair: Ref)
    returns (pairs': Store, members': seq<Ref>, list': Ref)
    requires Loose(pairs, prev, pair) && hashval < |members|
    requires prev == NULL || prev in pairs
    requires pairs[pair].prev == NULL || pairs[pair].prev in pairs
    requires pairs[pair].next == NULL || pairs[pair].next in pairs
    ensures pairs' == Unlinked(pairs, prev, pair)
    ensures members' == if prev == NULL then members[hashval := pairs[pair].hashNext] else members
    ensures list' == if pairs[pair].prev == NULL then pairs[pair].next else list
  {
    pairs', members', list' := pairs, members, list;
    if prev != NULL {
      pairs' := pairs'[prev := pairs'[prev].(hashNext := pairs'[pair].hashNext)];
    } else {
      members' := members'[hashval := pairs'[pair].hashNext];
    }
    if pairs'[pair].prev != NULL {
      var p := pairs'[pair].prev;
      pairs' := pairs'[p := pairs'[p].(next := pairs'[pair].next)];
    } else {
      list' := pairs'[pair].next;
    }
    if pairs'[pair].next != NULL {
      var n := pairs'[pair].next;
      pairs' := pairs'[n := pairs'[n].(prev := pairs'[pair].prev)];
    }
    pairs' := pairs' - {pair};
  }

  lemma {:induction false} UnlinkedAll(pairs: Store, members: seq<Ref>, head: Ref, chains: seq<seq<Ref>>,
                                       order: seq<Ref>,
                                       slot: Key -> nat, b: nat, i: nat, at: nat)
    requires Slots(pairs, members, chains, slot) && Listing(pairs, head, order) && NULL !in pairs
    requires b < |members| == |chains| && i < |chains[b]| && at < |order| && order[at] == chains[b][i]
    requires order[at] in pairs
    ensures var r := order[at]; var prev := Before(chains[b], i);
            && Loose(pairs, prev, r) && (prev == NULL || prev in pairs) && (prev == NULL <==> i == 0)
            && (pairs[r].prev == NULL || pairs[r].prev in pairs) && (pairs[r].next == NULL || pairs[r].next in pairs)
            && var pairs' := Unlinked(pairs, prev, r); var order' := Cut(order, at);
            && Slots(pairs', if prev == NULL then members[b := pairs[r].hashNext] else members,
                chains[b := Cut(chains[b], i)], slot)
            && In(pairs, order) && In(pairs', order') && |order'| == |order| - 1
            && Listing(pairs', if pairs[r].prev == NULL then pairs[r].next else head, order')
            && Listed(pairs', order') == Remove(Listed(pairs, order), pairs[r].key)
            && NULL !in pairs' && pairs'.Keys <= pairs.Keys
  {
    hide Chain, Slotted, Members, Unlinked, Cut, Before, Complete;
    var r, c := order[at], chains[b];
    var prev := Before(c, i);
    assert SlotOk(pairs, members, chains, slot, b);
    LooseThere(pairs, members[b], c, i, head, order, at);
    MembersIn(pairs, head, order);
    CutLength(order, at);
    UnlinkedKeys(pairs, prev, r);
    UnlinkedSlots(pairs, members, chains, slot, b, i);
    UnlinkedMembers(pairs, prev, head, order, at);
    UnlinkedEntries(pairs, prev, head, order, at);
    RemoveUnique(Listed(pairs, order), pairs[r].key);
    UnlinkedComplete(pairs, prev, order, at);
  }

  lemma {:induction false} LooseThere(pairs: Store, h: Ref, c: seq<Ref>, i: nat, head: Ref, order: seq<Ref>, at: nat)
    requires Chain(pairs, h, c) && Members(pairs, head, order) && NULL !in pairs && i < |c| && at < |order|
    requires order[at] == c[i]
    ensures Loose(pairs, Before(c, i), c[i])
    ensures var prev := Before(c, i); (prev == NULL || prev in pairs) && (prev == NULL <==> i == 0)
    ensures var p := pairs[c[i]].prev; (p == NULL || p in pairs) && (p == NULL <==> at == 0)
    ensures var n := pairs[c[i]].next; n == NULL || n in pairs
  {
    Neighbours(pairs, head, order, at);
  }

  lemma {:induction false} UnlinkedComplete(pairs: Store, prev: Ref, order: seq<Ref>, at: nat)
    requires at < |order| && NoDup(order) && Complete(pairs, order) && Loose(pairs, prev, order[at])
    ensures Complete(Unlinked(pairs, prev, order[at]), Cut(order, at))
  {
    hide Unlinked, Cut;
    UnlinkedKeys(pairs, prev, order[at]);
    CutProps(order, at);
  }

  lemma {:induction false} UnlinkedSlots(pairs: Store, members: seq<Ref>, chains: seq<seq<Ref>>, slot: Key -> nat,
                                         b: nat, i: nat)
    requires Slots(pairs, members, chains, slot) && b < |members| && i < |chains[b]|
    requires Loose(pairs, Before(chains[b], i), chains[b][i]) && (Before(chains[b], i) == NULL <==> i == 0)
    ensures var r := chains[b][i]; var prev := Before(chains[b], i);
            Slots(Unlinked(pairs, prev, r), if prev == NULL then members[b := pairs[r].hashNext] else members,
                  chains[b := Cut(chains[b], i)], slot)
  {
    hide Chain, Unlinked, Cut, Slotted, Before;
    var r, c := chains[b][i], chains[b];
    var prev := Before(c, i);
    var pairs' := Unlinked(pairs, prev, r);
    var members', chains' := if prev == NULL then members[b := pairs[r].hashNext] else members, chains[b := Cut(c, i)];
    assert SlotOk(pairs, members, chains, slot, b);
    SlotKeys(pairs, c, slot, b, i);
    forall j | 0 <= j < |members| ensures SlotOk(pairs', members', chains', slot, j) {
      assert SlotOk(pairs, members, chains, slot, j);
      if j == b {
        UnlinkedChain(pairs, members[b], c, i);
        UnlinkedSlotted(pairs, members[b], c, i, slot, b);
      } else {
        UnlinkedOther(pairs, prev, r, members[j], chains[j], slot, j);
      }
    }
  }

  lemma {:induction false} SlotKeys(pairs: Store, c: seq<Ref>, slot: Key -> nat, b: nat, i: nat)
    requires Slotted(pairs, c, slot, b) && i < |c| && NULL !in pairs
    ensures c[i] in pairs && slot(pairs[c[i]].key) == b
    ensures Before(c, i) in pairs ==> slot(pairs[Before(c, i)].key) == b
  {
  }

  /** The assignments of `_dict_set` to a new pair and to the old front of the member list. */
  method LinkIn(pairs: Store, r: Ref, k: Key, v: Ref, hashHead: Ref, head: Ref) returns (pairs': Store)
    requires r !in pairs && (head == NULL || head in pairs) && NULL !in pairs && r != NULL
    ensures pairs' == Linked(pairs, r, k, v, hashHead, head)
  {
    pairs' := pairs[r := Pair(k, v, NULL, NULL, NULL)];
    pairs' := pairs'[r := pairs'[r].(hashNext := hashHead)];
    pairs' := pairs'[r := pairs'[r].(next := head, prev := NULL)];
    if head != NULL {
      pairs' := pairs'[head := pairs'[head].(prev := r)];
    }
  }

  method Revalue(pairs: Store, r: Ref, v: Ref) returns (pairs': Store)
    requires r in pairs
    ensures pairs' == Revalued(pairs, r, v) && pairs'.Keys == pairs.Keys
  {
    pairs' := pairs[r := pairs[r].(value := v)];
  }

  lemma {:induction false} CountsUp(es: seq<Entry<Ref>>, refs: Counts)
    requires Backed(es, refs)
    ensures forall v: Ref :: v in refs ==> refs[v] >= 0
    ensures forall v: Ref, w: Ref :: v in refs ==> (w in Up(refs, v) <==> w in refs)
  {
  }

  lemma {:induction false} SlotRange(h: U32, n: nat)
    requires n > 0
    ensures 0 <= LookupSlot(h, n) < n
  {
  }

  lemma {:induction false} LinkedKeys(pairs: Store, r: Ref, k: Key, v: Ref, hashHead: Ref, head: Ref)
    ensures Linked(pairs, r, k, v, hashHead, head).Keys == pairs.Keys + {r}
  {
  }

  lemma {:induction false} WhereIs(pairs: Store, head: Ref, order: seq<Ref>, r: Ref) returns (i: nat)
    requires Listing(pairs, head, order) && r in pairs
    ensures i < |order| && order[i] == r && In(pairs, order)
    ensures Has(Listed(pairs, order), pairs[r].key) && Pos(Listed(pairs, order), pairs[r].key) == i
  {
    i :| 0 <= i < |order| && order[i] == r;
    PosOf(Listed(pairs, order), pairs[r].key, i);
  }

  lemma {:induction false} RevaluedAll(pairs: Store, members: seq<Ref>, head: Ref, chains: seq<seq<Ref>>,
                                       order: seq<Ref>,
                                       slot: Key -> nat, i: nat, v: Ref)
    requires Slots(pairs, members, chains, slot) && Listing(pairs, head, order) && i < |order| && order[i] in pairs
    ensures var pairs' := Revalued(pairs, order[i], v);
            && Slots(pairs', members, chains, slot) && Listing(pairs', head, order) && In(pairs', order)
            && Listed(pairs', order) == Put(Listed(pairs, order), pairs[order[i]].key, v)
  {
    hide Chain, Members, Slotted;
    var r := order[i];
    RevaluedLinks(pairs, r, v, head, order, slot, 0);
    forall b | 0 <= b < |members| ensures SlotOk(Revalued(pairs, r, v), members, chains, slot, b) {
      assert SlotOk(pairs, members, chains, slot, b);
      RevaluedLinks(pairs, r, v, members[b], chains[b], slot, b);
    }
    MembersIn(pairs, head, order);
    RevaluedEntries(pairs, order, i, v);
    PutUnique(Listed(pairs, order), pairs[r].key, v);
  }

  lemma {:induction false} MembersIn(pairs: Store, head: Ref, order: seq<Ref>)
    requires Members(pairs, head, order)
    ensures In(pairs, order) && NoDup(order)
  {
  }

  lemma {:induction false} LinkedListing(pairs: Store, head: Ref, order: seq<Ref>, r: Ref, k: Key, v: Ref,
                                         hashHead: Ref)
    requires Listing(pairs, head, order) && NULL !in pairs && r != NULL && r !in pairs
    requires In(pairs, order) && !Has(Listed(pairs, order), k)
    ensures head == NULL || head in pairs
    ensures var pairs' := Linked(pairs, r, k, v, hashHead, head);
            && Listing(pairs', r, [r] + order) && In(pairs', [r] + order) && NULL !in pairs'
            && Listed(pairs', [r] + order) == Put(Listed(pairs, order), k, v)
  {
    hide Linked, Put, Has;
    LinkedKeys(pairs, r, k, v, hashHead, head);
    LinkedMembers(pairs, r, k, v, hashHead, head, order);
    PosNone(Listed(pairs, order), k);
    OrderKeys(pairs, order, k);
    LinkedEntries(pairs, r, k, v, hashHead, head, order);
    PutUnique(Listed(pairs, order), k, v);
  }

  lemma {:induction false} LinkedSlots(pairs: Store, members: seq<Ref>, head: Ref, chains: seq<seq<Ref>>,
                                       slot: Key -> nat, r: Ref, k: Key, v: Ref)
    requires Slots(pairs, members, chains, slot) && r != NULL && r !in pairs && slot(k) < |members| && head != r
    ensures var b := slot(k);
            Slots(Linked(pairs, r, k, v, members[b], head), members[b := r], chains[b := [r] + chains[b]], slot)
  {
    hide Chain, Slotted, Linked;
    var b := slot(k);
    var pairs' := Linked(pairs, r, k, v, members[b], head);
    var members', chains' := members[b := r], chains[b := [r] + chains[b]];
    forall i | 0 <= i < |members| ensures SlotOk(pairs', members', chains', slot, i) {
      assert SlotOk(pairs, members, chains, slot, i);
      if i == b {
        LinkedChain(pairs, r, k, v, members[b], head, chains[b], slot);
      } else {
        LinkedOther(pairs, r, k, v, members[b], head, members[i], chains[i], slot, i);
      }
    }
  }

  /** A pair stored in another slot than the one where its key is searched is not on the chain there. */
  lemma {:induction false} LinkedElsewhere(pairs: Store, members: seq<Ref>, head: Ref, chains: seq<seq<Ref>>,
                                           slot: Key -> nat, r: Ref, k: Key, v: Ref, b: nat)
    requires Slots(pairs, members, chains, slot) && r != NULL && r !in pairs && slot(k) < |members| && head != r
    requires b < |members| && b != slot(k)
    ensures r !in chains[slot(k)]
    ensures !Slots(Linked(pairs, r, k, v, members[b], head), members[b := r], chains[b := [r] + chains[b]], slot)
  {
    var s := slot(k);
    var pairs' := Linked(pairs, r, k, v, members[b], head);
    var members', chains' := members[b := r], chains[b := [r] + chains[b]];
    assert SlotOk(pairs, members, chains, slot, s);
    assert r !in chains[s] && chains'[s] == chains[s];
    assert r in pairs' && pairs'[r].key == k;
    assert !SlotOk(pairs', members', chains', slot, s);
  }

  /** No pair has a null value. */
  ghost predicate Valued(pairs: Store) { forall r :: r in pairs ==> pairs[r].value != NULL }

  lemma {:induction false} ValuedSet(pairs: Store, r: Ref, v: Ref)
    requires Valued(pairs) && r in pairs && v != NULL
    ensures Valued(Revalued(pairs, r, v))
  {
  }

  lemma {:induction false} ValuedLink(pairs: Store, r: Ref, k: Key, v: Ref, hashHead: Ref, head: Ref)
    requires Valued(pairs) && v != NULL
    ensures Valued(Linked(pairs, r, k, v, hashHead, head))
  {
  }

  lemma {:induction false} ValuedUnlink(pairs: Store, chainPrev: Ref, r: Ref)
    requires Valued(pairs) && Loose(pairs, chainPrev, r)
    ensures Valued(Unlinked(pairs, chainPrev, r))
  {
    hide Unlinked;
    UnlinkedKeys(pairs, chainPrev, r);
    forall x | x in Unlinked(pairs, chainPrev, r) ensures Unlinked(pairs, chainPrev, r)[x].value != NULL {
      UnlinkedField(pairs, chainPrev, r, x);
    }
  }

  lemma {:induction false} OrderKeys(pairs: Store, order: seq<Ref>, k: Key)
    requires In(pairs, order) && forall i :: 0 <= i < |order| ==> Listed(pairs, order)[i].key != k
    ensures forall i :: 0 <= i < |order| ==> pairs[order[i]].key != k
  {
    forall i | 0 <= i < |order| ensures pairs[order[i]].key != k {
      assert Listed(pairs, order)[i].key != k;
    }
  }

  lemma {:induction false} ChainStart(pairs: Store, head: Ref, c: seq<Ref>)
    requires Chain(pairs, head, c)
    ensures head == After(c, -1) && (head == NULL <==> c == []) && Before(c, 0) == NULL
    ensures c != [] ==> head in pairs && head == c[0]
  {
  }

  lemma {:induction false} ChainStep(pairs: Store, head: Ref, c: seq<Ref>, i: nat)
    requires Chain(pairs, head, c) && i < |c|
    ensures c[i] in pairs && c[i] != NULL && pairs[c[i]].hashNext == After(c, i) && Before(c, i + 1) == c[i]
    ensures After(c, i) == NULL <==> i + 1 == |c|
    ensures i + 1 < |c| ==> After(c, i) in pairs && After(c, i) == c[i + 1]
  {
  }

  ghost predicate Searches(slot: Key -> nat, hash: Key -> U32, n: nat) {
    n > 0 && forall k :: slot(k) == LookupSlot(hash(k), n)
  }

  ghost predicate SlotOk(pairs: Store, members: seq<Ref>, chains: seq<seq<Ref>>, slot: Key -> nat, b: nat)
    requires b < |members| == |chains|
  {
    Chain(pairs, members[b], chains[b]) && Slotted(pairs, chains[b], slot, b)
  }

  ghost predicate Slots(pairs: Store, members: seq<Ref>, chains: seq<seq<Ref>>, slot: Key -> nat) {
    |members| == |chains| && forall b :: 0 <= b < |members| ==> SlotOk(pairs, members, chains, slot, b)
  }

  ghost predicate Listing(pairs: Store, head: Ref, order: seq<Ref>) {
    Members(pairs, head, order) && Complete(pairs, order) && UniqueKeys(Listed(pairs, order))
  }

  lemma {:induction false} Missing(pairs: Store, head: Ref, order: seq<Ref>, c: seq<Ref>, slot: Key -> nat, b: nat,
                                   key: Key)
    requires Listing(pairs, head, order) && Slotted(pairs, c, slot, b) && slot(key) == b
    requires forall j :: 0 <= j < |c| ==> c[j] in pairs && pairs[c[j]].key != key
    ensures !Has(Listed(pairs, order), key)
    ensures forall r :: r in pairs ==> pairs[r].key != key
  {
    PosNone(Listed(pairs, order), key);
  }

  lemma {:induction false} Found(pairs: Store, head: Ref, order: seq<Ref>, r: Ref)
    requires Listing(pairs, head, order) && r in pairs
    ensures Has(Listed(pairs, order), pairs[r].key)
  {
    var i :| 0 <= i < |order| && order[i] == r;
    PosOf(Listed(pairs, order), pairs[r].key, i);
  }
}
