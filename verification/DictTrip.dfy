/**
 Dictionaries written to a buffer and read back into other dictionaries
 (src/dict.c:2090-2441): the serializer walks the member list, the parser sets pairs.
 */
module DictTrip {
  import opened Errno
  import opened Options
  import opened ByteOrder
  import opened DictEntries
  import opened DictStore
  import opened Dict
  import opened DictWire

  /** What the values of a dictionary hold. */
  type Memory = map<Ref, Value>

  ghost predicate AllThere(es: seq<Entry<Ref>>, memory: Memory) { forall i :: 0 <= i < |es| ==> es[i].value in memory }

  ghost predicate AllFlatIn(es: seq<Entry<Ref>>, memory: Memory) {
    AllThere(es, memory) && forall i :: 0 <= i < |es| ==> memory[es[i].value].Flat?
  }

  /** The member list as the serializer sees it. */
  ghost function Seen(es: seq<Entry<Ref>>, memory: Memory): (list: Members)
    requires AllThere(es, memory)
    ensures |list| == |es| && forall i :: 0 <= i < |es| ==> list[i] == Entry(es[i].key, memory[es[i].value])
  {
    seq(|es|, i requires 0 <= i < |es| => Entry(es[i].key, memory[es[i].value]))
  }

  /** The keys and bytes of a dictionary. */
  ghost function Plain(es: seq<Entry<Ref>>, memory: Memory): (r: seq<Entry<Bytes>>)
    requires AllFlatIn(es, memory)
    ensures |r| == |es| && forall i :: 0 <= i < |es| ==> r[i] == Entry(es[i].key, memory[es[i].value].bytes)
  {
    seq(|es|, i requires 0 <= i < |es| => Entry(es[i].key, memory[es[i].value].bytes))
  }

  lemma {:induction false} PlainIsContents(es: seq<Entry<Ref>>, memory: Memory)
    requires AllFlatIn(es, memory)
    ensures AllFlat(Seen(es, memory)) && Contents(Seen(es, memory)) == Plain(es, memory)
  {
  }

  lemma {:induction false} PlainUnique(es: seq<Entry<Ref>>, memory: Memory)
    requires AllFlatIn(es, memory) && UniqueKeys(es)
    ensures UniqueKeys(Plain(es, memory))
  {
  }

  lemma {:induction false} PlainPos(es: seq<Entry<Ref>>, memory: Memory, k: Key)
    requires AllFlatIn(es, memory)
    ensures Pos(Plain(es, memory), k) == Pos(es, k)
  {
    if es != [] && es[0].key != k {
      PlainPos(es[1..], memory, k);
      assert Plain(es, memory)[1..] == Plain(es[1..], memory);
    }
  }

  /** Setting a value sets its bytes. */
  lemma {:induction false} PlainPut(es: seq<Entry<Ref>>, memory: Memory, k: Key, v: Ref, b: Bytes)
    requires AllFlatIn(es, memory) && v !in memory
    ensures AllFlatIn(Put(es, k, v), memory[v := Flat(b)])
    ensures Plain(Put(es, k, v), memory[v := Flat(b)]) == Put(Plain(es, memory), k, b)
  {
    PlainPos(es, memory, k);
    var es' := Put(es, k, v);
    forall i | 0 <= i < |es'| ensures es'[i].value in memory[v := Flat(b)] && memory[v := Flat(b)][es'[i].value].Flat? {
    }
  }

  /** The walk along the member list that the serializer makes. */
  method Collect(dict: Dictionary, memory: Memory) returns (list: Members)
    requires dict.Valid() && AllThere(dict.Entries(), memory)
    ensures list == Seen(dict.Entries(), memory)
  {
    hide Slots, Listing, Searches, Valued, Listed, In, After, AllThere;
    list := [];
    ghost var es, i := dict.Entries(), 0;
    var pair := dict.membersList;
    FirstMember(dict.pairs, pair, dict.order);
    while pair != NULL
      invariant 0 <= i <= |dict.order| && pair == After(dict.order, i - 1) && (pair == NULL <==> i == |dict.order|)
      invariant |es| == |dict.order| && list == Seen(es, memory)[..i]
      decreases |dict.order| - i
    {
      Progress(dict.pairs, dict.membersList, dict.order, es, i, pair);
      There(es, memory, i);
      list := list + [Entry(dict.pairs[pair].key, memory[dict.pairs[pair].value])];
      pair := dict.pairs[pair].next;
      i := i + 1;
    }
  }

  lemma {:induction false} There(es: seq<Entry<Ref>>, memory: Memory, i: nat)
    requires AllThere(es, memory) && i < |es|
    ensures es[i].value in memory && Seen(es, memory)[i] == Entry(es[i].key, memory[es[i].value])
  {
  }

  /** Keys are C strings, and lengths fit an int. */
  ghost predicate Sized(es: seq<Entry<Ref>>, memory: Memory) {
    && AllThere(es, memory) && CStrings(Seen(es, memory)) && Int32s(Seen(es, memory))
    && Room(Seen(es, memory)) <= INT_MAX
  }

  /** The dictionary can be serialized: flat values, C strings as keys, and lengths that fit an int. */
  ghost predicate Writable(es: seq<Entry<Ref>>, memory: Memory) {
    AllFlatIn(es, memory) && CStrings(Seen(es, memory)) && Room(Seen(es, memory)) <= INT_MAX
  }

  /** A value without data whose length is negative. */
  ghost predicate Negative(es: seq<Entry<Ref>>, memory: Memory)
    requires AllThere(es, memory)
  {
    exists i :: 0 <= i < |es| && memory[es[i].value].Hollow? && memory[es[i].value].len < 0
  }

  /** dict_allocate_and_serialize: the length, a buffer of that size if there is one (`ok`), the encoding. */
  method Write(little: bool, dict: Dictionary, memory: Memory, ok: bool) returns (ret: int, bytes: Bytes)
    requires dict.Valid() && Sized(dict.Entries(), memory)
    ensures ret == if Negative(dict.Entries(), memory) then -EINVAL else if !ok then -ENOMEM
                   else if AllFlatIn(dict.Entries(), memory) then 0 else -1
    ensures ret != 0 ==> bytes == []
    ensures ret == 0 ==> AllFit(Plain(dict.Entries(), memory)) && |dict.Entries()| <= INT_MAX
    ensures ret == 0 ==> bytes == Encoded(Plain(dict.Entries(), memory))
  {
    hide Slots, Listing, Searches, Valued, Listed, In, Room, Encoded, CStrings, Body, AllFit;
    ghost var es := dict.Entries();
    CountBound(Seen(es, memory));
    var list := Collect(dict, memory);
    assert list[..dict.count] == list;
    var len := SerializedLength(list, dict.count);
    NoneNegative(es, memory);
    if len < 0 {
      return len, [];
    }
    if !ok {
      return -ENOMEM, [];
    }
    var buf := new Byte[len];
    ghost var was := buf[..];
    ret := Serialize(little, list, dict.count, buf);
    FlatSeen(es, memory);
    if ret < 0 {
      return ret, [];
    }
    bytes := buf[..];
    PlainIsContents(es, memory);
    RoomIsLength(Seen(es, memory));
    WholePatch(was, Encoded(Plain(es, memory)));
  }

  lemma {:induction false} NoneNegative(es: seq<Entry<Ref>>, memory: Memory)
    requires AllThere(es, memory)
    ensures var list := Seen(es, memory);
            Negative(es, memory) <==>
            !forall i :: 0 <= i < |list| && list[i].value.Hollow? ==> list[i].value.len >= 0
  {
    var list := Seen(es, memory);
    forall i | 0 <= i < |es| ensures list[i].value == memory[es[i].value] {
    }
  }

  lemma {:induction false} FlatSeen(es: seq<Entry<Ref>>, memory: Memory)
    requires AllThere(es, memory)
    ensures AllFlat(Seen(es, memory)) <==> AllFlatIn(es, memory)
  {
    forall i | 0 <= i < |es| ensures Seen(es, memory)[i].value == memory[es[i].value] {
    }
  }

  lemma {:induction false} WritableSized(es: seq<Entry<Ref>>, memory: Memory)
    requires Writable(es, memory)
    ensures Sized(es, memory) && !Negative(es, memory)
  {
    Int32Lens(Seen(es, memory));
  }

  lemma {:induction false} WholePatch(was: Bytes, b: Bytes)
    requires |was| == |b|
    ensures Patched(was, 0, b) == b
  {
  }

  lemma {:induction false} Int32Lens(list: Members)
    requires AllFlat(list) && Room(list) <= INT_MAX
    ensures Int32s(list)
  {
    forall i | 0 <= i < |list| ensures Int32(LenField(list[i].value)) {
      RoomGrows(list, i);
    }
  }

  // ----- reading into a dictionary

  /** New values: the i-th allocation of a value returns `vals[i]`, of a pair `addrs[i]`. */
  ghost predicate Spare(pairs: Store, refs: Counts, memory: Memory, vals: seq<Ref>, addrs: seq<Ref>, i: nat) {
    && i <= |vals| == |addrs| && Unused(pairs, addrs, i)
    && (forall j :: i <= j < |vals| ==> addrs[j] != NULL && vals[j] != NULL && vals[j] !in refs && vals[j] !in memory)
    && (forall j, k :: i <= j < k < |vals| ==> vals[j] != vals[k])
  }

  lemma {:induction false} SpareNext(pairs: Store, refs: Counts, memory: Memory, vals: seq<Ref>, addrs: seq<Ref>,
                                     i: nat,
                                     pairs': Store, refs': Counts, b: Bytes)
    requires Spare(pairs, refs, memory, vals, addrs, i) && i < |vals|
    requires pairs'.Keys <= pairs.Keys + {addrs[i]} && refs'.Keys <= refs.Keys + {vals[i]}
    ensures Spare(pairs', refs', memory[vals[i] := Flat(b)], vals, addrs, i + 1)
  {
    StillUnused(pairs, pairs', addrs, i);
  }

  lemma {:induction false} NewValue(es: seq<Entry<Ref>>, refs: Counts, v: Ref)
    requires Backed(es, refs) && v !in refs
    ensures Backed(es, refs[v := 0])
  {
  }

  lemma {:induction false} SettledKeys(es: seq<Entry<Ref>>, es': seq<Entry<Ref>>, refs: Counts, refs': Counts)
    requires Settled(es, es', refs, refs')
    ensures refs'.Keys <= refs.Keys
  {
    forall v | v in refs' ensures v in refs {
      assert BalancedAt(es, es', refs, refs', v);
    }
  }

  /** dict_unserialize into an empty dictionary, with every allocation succeeding. */
  method Read(little: bool, buf: Bytes, fill: Dictionary, values: Values, memory0: Memory,
              vals: seq<Ref>, addrs: seq<Ref>, start: nat) returns (ret: int, memory: Memory, astray: bool)
    requires fill.Valid() && fill.Entries() == [] && Backed([], values.refs)
    requires Spare(fill.pairs, values.refs, memory0, vals, addrs, start)
    requires |addrs| == |vals| >= start + |Unpack(little, buf).es|
    requires forall e :: e in Unpack(little, buf).es ==> Agreeing(fill.hash(e.key), fill.hashSize)
    modifies fill, values
    ensures fill.Valid() && Backed(fill.Entries(), values.refs) && AllFlatIn(fill.Entries(), memory)
    ensures Plain(fill.Entries(), memory) == PutAll([], Unpack(little, buf).es)
    ensures forall v :: v in memory0 ==> v in memory && memory[v] == memory0[v]
    ensures astray == Unpack(little, buf).end.Astray?
    ensures !astray ==> ret == if Unpack(little, buf).end.Complete? then 0 else -1
    ensures Unpack(little, buf).end.Complete? ==>
              Spare(fill.pairs, values.refs, memory, vals, addrs, start + |Unpack(little, buf).es|)
  {
    hide WordAt, Slots, Listing, Searches, Valued, Listed, In, Backed, Spare, Agreeing, PutAll, Parse, Plain, AllFlatIn,
      Unpack;
    UnpackIs(little, buf);
    NothingRead(memory0);
    if |buf| == 0 || 4 > |buf| {
      return -1, memory0, false;
    }
    var count := WordAt(little, buf, 0);
    if count < 0 {
      return -1, memory0, false;
    }
    fill.count := 0;
    ret, memory, astray := ReadPairs(little, buf, count, fill, values, memory0, vals, addrs, start);
  }

  /** Its loop over the pairs. */
  method ReadPairs(little: bool, buf: Bytes, count: nat, fill: Dictionary, values: Values, memory0: Memory,
                   vals: seq<Ref>, addrs: seq<Ref>, start: nat) returns (ret: int, memory: Memory, astray: bool)
    requires fill.Valid() && fill.Entries() == [] && Backed([], values.refs)
    requires Spare(fill.pairs, values.refs, memory0, vals, addrs, start)
    requires |addrs| == |vals| >= start + |Parse(little, buf, 4, count).es|
    requires forall e :: e in Parse(little, buf, 4, count).es ==> Agreeing(fill.hash(e.key), fill.hashSize)
    modifies fill, values
    ensures fill.Valid() && Backed(fill.Entries(), values.refs) && AllFlatIn(fill.Entries(), memory)
    ensures Plain(fill.Entries(), memory) == PutAll([], Parse(little, buf, 4, count).es)
    ensures forall v :: v in memory0 ==> v in memory && memory[v] == memory0[v]
    ensures astray == Parse(little, buf, 4, count).end.Astray?
    ensures !astray ==> ret == if Parse(little, buf, 4, count).end.Complete? then 0 else -1
    ensures Parse(little, buf, 4, count).end.Complete? ==>
              Spare(fill.pairs, values.refs, memory, vals, addrs, start + |Parse(little, buf, 4, count).es|)
  {
    hide ParseEntry, Put, Slots, Listing, Searches, Valued, Listed, In, Backed, Spare, Agreeing, PutAll, Settled,
      Parse, Plain, AllFlatIn;
    memory, astray, ret := memory0, false, -1;
    ghost var o, es := Parse(little, buf, 4, count), [];
    NothingRead(memory0);
    assert o == Outcome([] + o.es, o.end);
    var at, i := 4, 0;
    while i < count
      invariant 0 <= i <= count && |es| == i && fill.Valid() && Backed(fill.Entries(), values.refs)
      invariant AllFlatIn(fill.Entries(), memory) && Plain(fill.Entries(), memory) == PutAll([], es)
      invariant Spare(fill.pairs, values.refs, memory, vals, addrs, start + i)
      invariant o.es == es + Parse(little, buf, at, count - i).es && o.end == Parse(little, buf, at, count - i).end
      invariant forall v :: v in memory0 ==> v in memory && memory[v] == memory0[v]
    {
      var p := ReadEntry(little, buf, at);
      ParseOne(little, buf, at, count - i);
      assert es + [] == es;
      if p.Short? {
        return;
      }
      if p.Wild? {
        astray := true;
        return;
      }
      ghost var rest := Parse(little, buf, p.next, count - i - 1).es;
      NextOne(o.es, es, p.e, rest);
      memory := ReadOne(fill, values, memory, p.e, vals, addrs, start + i);
      PutAllStep([], es, p.e);
      es := es + [p.e];
      at := p.next;
      i := i + 1;
    }
    ParseNone(little, buf, at);
    assert es + [] == es;
    ret := 0;
  }

  lemma {:induction false} NextOne(all: seq<Entry<Bytes>>, es: seq<Entry<Bytes>>, e: Entry<Bytes>,
                                   rest: seq<Entry<Bytes>>)
    requires all == es + ([e] + rest)
    ensures all == es + [e] + rest && e in all && |es| < |all|
  {
    assert all[|es|] == e;
  }

  lemma {:induction false} UnpackIs(little: bool, buf: Bytes)
    ensures |buf| < 4 ==> Unpack(little, buf) == Outcome([], TooShort)
    ensures |buf| >= 4 && WordAt(little, buf, 0) < 0 ==> Unpack(little, buf) == Outcome([], TooShort)
    ensures |buf| >= 4 && WordAt(little, buf, 0) >= 0 ==>
              Unpack(little, buf) == Parse(little, buf, 4, WordAt(little, buf, 0))
  {
    hide WordAt, Parse;
  }

  lemma {:induction false} NothingRead(memory: Memory)
    ensures AllFlatIn([], memory) && Plain([], memory) == PutAll<Bytes>([], [])
  {
  }

  /** One turn of the loop: a new value with its bytes, and dict_set. */
  method ReadOne(fill: Dictionary, values: Values, memory0: Memory, e: Entry<Bytes>, vals: seq<Ref>, addrs: seq<Ref>,
                 i: nat)
    returns (memory: Memory)
    requires fill.Valid() && Backed(fill.Entries(), values.refs) && AllFlatIn(fill.Entries(), memory0)
    requires Spare(fill.pairs, values.refs, memory0, vals, addrs, i) && i < |vals| == |addrs|
    requires Agreeing(fill.hash(e.key), fill.hashSize)
    modifies fill, values
    ensures fill.Valid() && Backed(fill.Entries(), values.refs) && memory == memory0[vals[i] := Flat(e.value)]
    ensures vals[i] !in memory0 && AllFlatIn(fill.Entries(), memory)
    ensures Plain(fill.Entries(), memory) == Put(old(Plain(fill.Entries(), memory0)), e.key, e.value)
    ensures Spare(fill.pairs, values.refs, memory, vals, addrs, i + 1)
  {
    hide Put, Slots, Listing, Searches, Valued, Listed, In, Backed, Agreeing, SetSlot, LookupSlot, Settled, Has;
    ghost var es := fill.Entries();
    var v := vals[i];
    NewValue(es, values.refs, v);
    SlotsAgree(fill.hash(e.key), fill.hashSize);
    SlotRange(fill.hash(e.key), fill.hashSize);
    PlainPut(es, memory0, e.key, v, e.value);
    ghost var refs0, pairs0 := values.refs, fill.pairs;
    values.refs := values.refs[v := 0];
    ghost var refs1 := values.refs;
    memory := memory0[v := Flat(e.value)];
    var _ := fill.Set(values, Some(e.key), v, addrs[i], true);
    SettledKeys(es, fill.Entries(), refs1, values.refs);
    SpareNext(pairs0, refs0, memory0, vals, addrs, i, fill.pairs, values.refs, e.value);
  }

  // ----- whole trips

  lemma {:induction false} RoomSplit(a: Members, b: Members)
    ensures Room(a + b) == Room(a) + Room(b) - 4
    decreases |b|
  {
    if b == [] {
      assert a + b == a;
    } else {
      var n := |b| - 1;
      assert (a + b)[..|a + b| - 1] == a + b[..n];
      RoomSplit(a, b[..n]);
    }
  }

  /** The order of the members does not change the room they need. */
  lemma {:induction false} RoomReversed(list: Members)
    ensures Room(Reversed(list)) == Room(list)
    decreases |list|
  {
    if list != [] {
      var n := |list| - 1;
      RoomReversed(list[..n]);
      RoomSplit([list[n]], Reversed(list[..n]));
      assert Reversed(list) == [list[n]] + Reversed(list[..n]);
      assert [list[n]][..0] == [];
    }
  }

  /** A dictionary that lists the same bytes in opposite order can be written too. */
  lemma {:induction false} StillWritable(es: seq<Entry<Ref>>, memory: Memory, es': seq<Entry<Ref>>, memory': Memory)
    requires Writable(es, memory) && AllFlatIn(es', memory') && Plain(es', memory') == Reversed(Plain(es, memory))
    ensures Writable(es', memory')
  {
    hide Room;
    var list, list' := Seen(es, memory), Seen(es', memory');
    forall i | 0 <= i < |list'| ensures list'[i] == list[|list| - 1 - i] {
      assert Plain(es', memory')[i] == Plain(es, memory)[|es| - 1 - i];
    }
    assert list' == Reversed(list);
    RoomReversed(list);
  }

  lemma {:induction false} EntriesUnique(dict: Dictionary)
    requires dict.Valid()
    ensures UniqueKeys(dict.Entries())
  {
  }

  lemma {:induction false} NoPairs(dict: Dictionary)
    requires dict.Valid() && dict.Entries() == []
    ensures dict.pairs == map[]
  {
    assert |dict.order| == 0;
    NoneListed(dict.pairs, dict.order);
  }

  lemma {:induction false} NoneListed(pairs: Store, order: seq<Ref>)
    requires DictStore.Complete(pairs, order) && order == []
    ensures pairs == map[]
  {
  }

  /** Keys that are stored where they are searched in `to`. */
  ghost predicate Placeable(es: seq<Entry<Ref>>, hash: Key -> U32, n: nat) {
    n > 0 && forall i :: 0 <= i < |es| ==> Agreeing(hash(es[i].key), n)
  }

  lemma {:induction false} PlainPlaceable(es: seq<Entry<Ref>>, memory: Memory, hash: Key -> U32, n: nat)
    requires AllFlatIn(es, memory) && Placeable(es, hash, n)
    ensures forall e :: e in Plain(es, memory) ==> Agreeing(hash(e.key), n)
  {
    hide Agreeing;
  }

  /** Written and read back into an empty dictionary: the same map, listed in opposite order. */
  method Trip(little: bool, from: Dictionary, to: Dictionary, values: Values, memory0: Memory,
              vals: seq<Ref>, addrs: seq<Ref>, start: nat) returns (bytes: Bytes, memory: Memory)
    requires from.Valid() && Writable(from.Entries(), memory0) && from != to && to.Valid() && to.Entries() == []
    requires Placeable(from.Entries(), to.hash, to.hashSize) && Backed([], values.refs)
    requires Spare(map[], values.refs, memory0, vals, addrs, start) && |addrs| == |vals| >= start + |from.Entries()|
    modifies to, values
    ensures to.Valid() && from.Valid() && Backed(to.Entries(), values.refs) && Writable(to.Entries(), memory)
    ensures forall v :: v in memory0 ==> v in memory && memory[v] == memory0[v]
    ensures AllFit(Plain(from.Entries(), memory0)) && |from.Entries()| <= INT_MAX
    ensures bytes == Encoded(Plain(from.Entries(), memory0))
    ensures Plain(to.Entries(), memory) == Reversed(Plain(from.Entries(), memory0))
    ensures AsMap(Plain(to.Entries(), memory)) == AsMap(Plain(from.Entries(), memory0))
    ensures Spare(map[], values.refs, memory, vals, addrs, start + |from.Entries()|)
  {
    hide Slots, Listing, Searches, Valued, Listed, In, Backed, Spare, Encoded, Unpack, AllFlatIn, Plain, PutAll, AsMap,
      AllFit,
      Room, Placeable, Agreeing, UniqueKeys;
    ghost var es := Plain(from.Entries(), memory0);
    WritableSized(from.Entries(), memory0);
    var ret;
    ret, bytes := Write(little, from, memory0, true);
    Unpacked(little, es);
    EntriesUnique(from);
    PlainUnique(from.Entries(), memory0);
    RoundTrip(little, es);
    PlainPlaceable(from.Entries(), memory0, to.hash, to.hashSize);
    NoPairs(to);
    var astray;
    ret, memory, astray := Read(little, bytes, to, values, memory0, vals, addrs, start);
    StillWritable(from.Entries(), memory0, to.Entries(), memory);
    SpareElsewhere(to.pairs, values.refs, memory, vals, addrs, start + |es|);
  }

  lemma {:induction false} SpareElsewhere(pairs: Store, refs: Counts, memory: Memory, vals: seq<Ref>, addrs: seq<Ref>,
                                          i: nat)
    requires Spare(pairs, refs, memory, vals, addrs, i)
    ensures Spare(map[], refs, memory, vals, addrs, i)
  {
  }

  /** Two trips and a third writing: the last dictionary lists what the first one does, and the bytes are
      the same. */
  method TwoTrips(little: bool, a: Dictionary, b: Dictionary, c: Dictionary, values: Values, memory0: Memory,
                  vals: seq<Ref>, addrs: seq<Ref>) returns (first: Bytes, last: Bytes, memory: Memory)
    requires a != b && b != c && a != c && a.Valid() && Writable(a.Entries(), memory0) && Backed([], values.refs)
    requires b.Valid() && b.Entries() == [] && c.Valid() && c.Entries() == []
    requires Placeable(a.Entries(), b.hash, b.hashSize) && Placeable(a.Entries(), c.hash, c.hashSize)
    requires Spare(map[], values.refs, memory0, vals, addrs, 0) && |addrs| == |vals| >= 2 * |a.Entries()|
    modifies b, c, values
    ensures a.Valid() && b.Valid() && c.Valid() && AllFlatIn(c.Entries(), memory)
    ensures Plain(c.Entries(), memory) == Plain(a.Entries(), memory0) && last == first
  {
    hide Slots, Listing, Searches, Valued, Listed, In, Backed, Spare, Encoded, AllFlatIn, Plain, AsMap, AllFit, Room,
      Placeable, Writable,
      Reversed;
    WritableFlat(a.Entries(), memory0);
    ghost var es := Plain(a.Entries(), memory0);
    var memory1, second;
    first, memory1 := Trip(little, a, b, values, memory0, vals, addrs, 0);
    WritableFlat(b.Entries(), memory1);
    PlaceableReversed(a.Entries(), memory0, b.Entries(), memory1, c.hash, c.hashSize);
    CountsFine(b.Entries(), values.refs);
    ghost var eb := Plain(b.Entries(), memory1);
    second, memory := Trip(little, b, c, values, memory1, vals, addrs, a.count);
    WritableFlat(c.Entries(), memory);
    ReversedTwice(es);
    assert Plain(c.Entries(), memory) == Reversed(eb) == es;
    WritableSized(c.Entries(), memory);
    var third;
    third, last := Write(little, c, memory, true);
  }

  lemma {:induction false} WritableFlat(es: seq<Entry<Ref>>, memory: Memory)
    requires Writable(es, memory)
    ensures AllFlatIn(es, memory)
  {
  }

  lemma {:induction false} CountsFine(es: seq<Entry<Ref>>, refs: Counts)
    requires Backed(es, refs)
    ensures Backed([], refs)
  {
  }

  lemma {:induction false} PlaceableReversed(es: seq<Entry<Ref>>, memory: Memory, es': seq<Entry<Ref>>, memory': Memory,
                                             hash: Key -> U32, n: nat)
    requires AllFlatIn(es, memory) && AllFlatIn(es', memory') && Plain(es', memory') == Reversed(Plain(es, memory))
    requires Placeable(es, hash, n)
    ensures Placeable(es', hash, n) && |es'| == |es|
  {
    hide Agreeing;
    forall i | 0 <= i < |es'| ensures Agreeing(hash(es'[i].key), n) {
      assert Plain(es', memory')[i] == Plain(es, memory)[|es| - 1 - i];
    }
  }
}
