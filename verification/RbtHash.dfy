/**
 src/rbthash.c: a hash table whose buckets are red-black trees, as a map from
 byte strings, with its entries in memory taken from a pool (src/mem-pool.c).
 */
module RbtHash {
  import opened Options
  import opened ByteOrder
  import opened RbShape
  import opened RbOrder
  import opened RbTable
  import opened RbHeight
  import MemPool

  type Key = seq<Byte>

  /** `rbthash_entry_t` at address `at`; the key is a private copy. */
  datatype Entry<D> = Entry(data: D, key: Key, keyhash: U32, at: nat)

  /** What the table holds for a key: the data, and where the entry is. */
  datatype Held<D> = Held(data: D, at: nat)

  /** `memcmp` on two blocks of the same length: the first difference decides. */
  function MemCmp(a: Key, b: Key): int
    requires |a| == |b|
  {
    if a == [] then 0 else if a[0] != b[0] then a[0] as int - b[0] as int else MemCmp(a[1..], b[1..])
  }

  function KeyCmp(a: Key, b: Key): int {
    if |a| != |b| then (if |a| < |b| then -1 else 1) else MemCmp(a, b)
  }

  /** `rbthash_comparator` */
  function EntryCmp<D>(x: Entry<D>, y: Entry<D>): int { KeyCmp(x.key, y.key) }

  lemma {:induction false} MemCmpOrder(a: Key, b: Key, c: Key)
    requires |a| == |b| == |c|
    ensures MemCmp(a, b) < 0 <==> MemCmp(b, a) > 0
    ensures MemCmp(a, b) == 0 <==> a == b
    ensures MemCmp(a, b) <= 0 && MemCmp(b, c) <= 0 ==> MemCmp(a, c) <= 0
  {
    if a != [] {
      MemCmpOrder(a[1..], b[1..], c[1..]);
      assert a == [a[0]] + a[1..] && b == [b[0]] + b[1..];
    }
  }

  /** Length first, then bytes: a total order in which only equal keys compare equal. */
  lemma {:induction false} KeyCmpOrder(a: Key, b: Key, c: Key)
    ensures KeyCmp(a, b) < 0 <==> KeyCmp(b, a) > 0
    ensures KeyCmp(a, b) == 0 <==> a == b
    ensures KeyCmp(a, b) <= 0 && KeyCmp(b, c) <= 0 ==> KeyCmp(a, c) <= 0
  {
    if |a| == |b| {
      MemCmpOrder(a, b, if |c| == |a| then c else a);
    }
  }

  /** Which of two keys comes first: the shorter one, and of equally long ones that with the smaller byte
      where they first differ. */
  lemma {:induction false} KeyCmpDirection(a: Key, b: Key, i: nat)
    ensures |a| < |b| ==> KeyCmp(a, b) < 0
    ensures |a| > |b| ==> KeyCmp(a, b) > 0
    ensures i < |a| == |b| && a[..i] == b[..i] && a[i] < b[i] ==> KeyCmp(a, b) < 0
    ensures i < |a| == |b| && a[..i] == b[..i] && a[i] > b[i] ==> KeyCmp(a, b) > 0
  {
    if i < |a| == |b| && a[..i] == b[..i] && i > 0 {
      assert a[0] == a[..i][0] && b[0] == b[..i][0];
      assert a[1..][..i - 1] == a[..i][1..] && b[1..][..i - 1] == b[..i][1..];
      KeyCmpDirection(a[1..], b[1..], i - 1);
    }
  }

  lemma {:induction false} ComparatorOrder<D(!new)>()
    ensures TotalOrder<Entry<D>>(EntryCmp)
  {
    forall x: Entry<D>, y: Entry<D>, z: Entry<D>
      ensures (EntryCmp(x, y) < 0 <==> EntryCmp(y, x) > 0)
      ensures (EntryCmp(x, y) <= 0 && EntryCmp(y, z) <= 0 ==> EntryCmp(x, z) <= 0)
    {
      KeyCmpOrder(x.key, y.key, z.key);
    }
  }

  /** The entries of one bucket are exactly the pairs of the map whose keys belong there. */
  ghost predicate Covers<D>(items: seq<Slot<Entry<D>>>, held: map<Key, Held<D>>, mine: set<Key>) {
    && mine <= held.Keys
    && (forall i :: 0 <= i < |items| ==> items[i].data.key in mine && held[items[i].data.key] == HeldIn(items[i].data))
    && (forall k: Key :: k in mine ==> exists i :: 0 <= i < |items| && items[i].data.key == k)
  }

  function HeldIn<D>(e: Entry<D>): Held<D> { Held(e.data, e.at) }

  ghost function Mine<D>(held: map<Key, Held<D>>, hash: Key -> U32, n: nat, b: nat): set<Key>
    requires n > 0
  {
    set k | k in held && hash(k) % n == b
  }

  lemma {:induction false} CoversInsert<D>(q: seq<Slot<Entry<D>>>, q': seq<Slot<Entry<D>>>, i: nat, x: Slot<Entry<D>>,
                                           held: map<Key, Held<D>>, mine: set<Key>)
    requires Covers(q, held, mine) && i <= |q| && q' == q[..i] + [x] + q[i..] && x.data.key !in held
    ensures Covers(q', held[x.data.key := HeldIn(x.data)], mine + {x.data.key})
  {
    assert q'[i] == x;
    forall k: Key | k in mine + {x.data.key} ensures exists j :: 0 <= j < |q'| && q'[j].data.key == k {
      if k in mine {
        var j :| 0 <= j < |q| && q[j].data.key == k;
        assert q'[if j < i then j else j + 1] == q[j];
      }
    }
  }

  lemma {:induction false} CoversRemove<D>(q: seq<Slot<Entry<D>>>, q': seq<Slot<Entry<D>>>, i: nat,
                                           held: map<Key, Held<D>>, mine: set<Key>)
    requires Covers(q, held, mine) && i < |q| && q' == q[..i] + q[i + 1..]
    requires forall j :: 0 <= j < |q| && j != i ==> q[j].data.key != q[i].data.key
    ensures Covers(q', held - {q[i].data.key}, mine - {q[i].data.key})
  {
    forall j | 0 <= j < |q'| ensures q'[j].data.key in mine - {q[i].data.key} {
      assert q'[j] == q[if j < i then j else j + 1];
    }
    forall k: Key | k in mine - {q[i].data.key} ensures exists j :: 0 <= j < |q'| && q'[j].data.key == k {
      var j :| 0 <= j < |q| && q[j].data.key == k;
      assert q'[if j < i then j else j - 1] == q[j];
    }
  }

  /** In a sorted bucket a key occurs once. */
  lemma {:induction false} OneOfEach<D(!new)>(q: seq<Slot<Entry<D>>>, i: nat)
    requires Sorted<Entry<D>>(EntryCmp, q) && i < |q|
    ensures forall j :: 0 <= j < |q| && j != i ==> q[j].data.key != q[i].data.key
  {
    forall j | 0 <= j < |q| && j != i ensures q[j].data.key != q[i].data.key {
      KeyCmpOrder(q[i].data.key, q[j].data.key, []);
      KeyCmpOrder(q[j].data.key, q[i].data.key, []);
      assert Pair(i, j) && Pair(j, i);
    }
  }

  /** The addresses of the entries in the buckets. */
  ghost function Taken<D>(held: map<Key, Held<D>>): set<nat> { set k | k in held :: held[k].at }

  /** No two entries share an address, and none of them is counted among the others. */
  ghost predicate Separate<D>(held: map<Key, Held<D>>, elsewhere: set<nat>) {
    && (forall j, k :: j in held && k in held && j != k ==> held[j].at != held[k].at)
    && Taken(held) !! elsewhere
  }

  lemma {:induction false} TakenInsert<D>(held: map<Key, Held<D>>, elsewhere: set<nat>, k: Key, h: Held<D>)
    requires Separate(held, elsewhere) && k !in held && h.at !in Taken(held) && h.at !in elsewhere
    ensures Separate(held[k := h], elsewhere) && Taken(held[k := h]) == Taken(held) + {h.at}
  {
    var held' := held[k := h];
    forall p | p in Taken(held) + {h.at} ensures p in Taken(held') {
      if p in Taken(held) {
        var j :| j in held && held[j].at == p;
        assert held'[j].at == p;
      } else {
        assert held'[k].at == p;
      }
    }
  }

  lemma {:induction false} TakenRemove<D>(held: map<Key, Held<D>>, elsewhere: set<nat>, k: Key)
    requires Separate(held, elsewhere) && k in held
    ensures Separate(Dropped(held, k), elsewhere) && Taken(Dropped(held, k)) == Taken(held) - {held[k].at}
    ensures held[k].at in Taken(held) && held[k].at !in elsewhere
  {
    var held' := Dropped(held, k);
    forall p | p in Taken(held) - {held[k].at} ensures p in Taken(held') {
      var j :| j in held && held[j].at == p;
      assert held'[j].at == p;
    }
  }

  lemma {:induction false} DataDropped<D>(held: map<Key, Held<D>>, k: Key)
    ensures Data(Dropped(held, k)) == Dropped(Data(held), k)
  {
  }

  lemma {:induction false} DataInsert<D>(held: map<Key, Held<D>>, k: Key, h: Held<D>)
    ensures Data(held[k := h]) == Data(held)[k := h.data]
  {
  }

  /** The map from keys to data. */
  ghost function Data<D>(held: map<Key, Held<D>>): map<Key, D> { map k | k in held :: held[k].data }

  class HashTable<D(0, !new)> {
    const buckets: seq<Table<Entry<D>>>
    const hash: Key -> U32             // hashfunc, any function
    const pool: MemPool.Pool           // entrypool
    const dfunc: bool                  // is there a function that destroys data?
    var destroyed: seq<D>              // what it has been called with
    ghost var held: map<Key, Held<D>>
    ghost var elsewhere: set<nat>      // pointers of the pool that are live and in no bucket

    ghost predicate Valid()
      reads this, buckets, pool
    {
      && |buckets| > 0 && pool.Valid()
      && (forall i, j :: 0 <= i < j < |buckets| ==> buckets[i] != buckets[j])
      && (forall i :: 0 <= i < |buckets| ==> BucketOk(i))
      && Separate(held, elsewhere)
      && (forall p: nat :: pool.Live(p) <==> p in Taken(held) || p in elsewhere)
    }

    ghost predicate BucketOk(i: nat)
      requires i < |buckets|
      reads this`held, buckets[i]
    {
      && buckets[i].Valid() && buckets[i].cmp == EntryCmp
      && Covers(buckets[i].Items(), held, Mine(held, hash, |buckets|, i))
    }

    ghost function Model(): map<Key, D>
      reads this`held
    {
      Data(held)
    }

    /** rbthash_table_init on freshly created buckets and a pool, which may be in use already */
    constructor (buckets: seq<Table<Entry<D>>>, hash: Key -> U32, pool: MemPool.Pool, dfunc: bool,
                 ghost elsewhere: set<nat>)
      requires |buckets| > 0 && forall i, j :: 0 <= i < j < |buckets| ==> buckets[i] != buckets[j]
      requires forall i :: 0 <= i < |buckets| ==>
                 buckets[i].Valid() && buckets[i].cmp == EntryCmp && buckets[i].Items() == []
      requires pool.Valid() && forall p: nat :: pool.Live(p) <==> p in elsewhere
      ensures Valid() && held == map[] && Model() == map[] && destroyed == [] && this.elsewhere == elsewhere
      ensures this.buckets == buckets && this.hash == hash && this.pool == pool && this.dfunc == dfunc
    {
      this.buckets, this.hash, this.pool, this.dfunc, destroyed := buckets, hash, pool, dfunc, [];
      held, this.elsewhere := map[], elsewhere;
    }

    /** `rbthash_key_bucket`, and `rbthash_entry_bucket` for an entry with that key */
    function BucketOf(key: Key): nat
      requires |buckets| > 0
    {
      hash(key) % |buckets|
    }

    /** rbthash_get */
    method Get(key: Key) returns (r: Option<D>)
      requires Valid()
      ensures r == if key in Model() then Some(Model()[key]) else None
    {
      hide Zip, RedBlack, Sorted, TotalOrder, Separate, Taken;
      var bucket := buckets[BucketOf(key)];
      assert BucketOk(BucketOf(key));
      var blank: D := *;
      var p := bucket.Find(Entry(blank, key, 0, 0));
      ghost var q := bucket.Items();
      if p == NULL {
        Absent(q, held, Mine(held, hash, |buckets|, BucketOf(key)), Entry(blank, key, 0, 0));
        return None;
      }
      ghost var slot := Slot(p, bucket.mem.nodes[p].data);
      Present(q, held, Mine(held, hash, |buckets|, BucketOf(key)), Entry(blank, key, 0, 0), slot);
      r := Some(bucket.mem.nodes[p].data.data);
    }

    /** rbthash_insert_entry: `addr` is what the allocation of the tree node returns. */
    method InsertEntry(entry: Entry<D>, addr: Ref) returns (ret: int)
      requires |buckets| > 0 && (forall i, j :: 0 <= i < j < |buckets| ==> buckets[i] != buckets[j])
      requires forall i :: 0 <= i < |buckets| ==> BucketOk(i)
      requires buckets[BucketOf(entry.key)].count <= CAPACITY
      requires addr == NULL || (addr > HEAD && addr !in buckets[BucketOf(entry.key)].mem.nodes)
      modifies this`held, buckets[BucketOf(entry.key)]
      ensures forall i :: 0 <= i < |buckets| ==> BucketOk(i)
      ensures ret == if entry.key in old(held) || addr != NULL then 0 else -1
      ensures held == if ret == 0 && entry.key !in old(held) then old(held)[entry.key := HeldIn(entry)] else old(held)
    {
      hide Zip, RedBlack, Sorted, TotalOrder, Covers, Mine, Slots, EntryCmp, Height, Ids;
      var b := BucketOf(entry.key);
      var bucket := buckets[b];
      assert BucketOk(b);
      ghost var q, mine := bucket.Items(), Mine(held, hash, |buckets|, b);
      StackSuffices(bucket.tree);
      Decide(q, held, hash, |buckets|, entry);
      var p := bucket.Probe(entry, addr);
      ret := 0;
      if p == NULL {
        ret := -1;
      } else if entry.key !in held {
        ghost var i :| 0 <= i <= |q| && bucket.Items() == q[..i] + [Slot(addr, entry)] + q[i..];
        CoversInsert(q, bucket.Items(), i, Slot(addr, entry), held, mine);
        MineInsert(held, hash, |buckets|, entry.key, HeldIn(entry));
        held := held[entry.key := HeldIn(entry)];
      }
      forall j | 0 <= j < |buckets| ensures BucketOk(j) {
        if j != b {
          assert old(BucketOk(j));
          OtherBucket(buckets[j].Items(), old(held), held, entry.key, hash, |buckets|, j);
        }
      }
    }

    /** rbthash_insert: `offer` is what the heap offers if the slab is used up, `copied` whether the key
        could be copied, `addr` what the allocation of the tree node returns.  A key that is already
        there keeps its data, the call reports success, and the new entry stays taken from the pool
        for good.  If only the tree node cannot be had, the caller's data is destroyed although the
        call reports failure. */
    method Insert(data: D, key: Key, offer: nat, copied: bool, addr: Ref) returns (ret: int, ghost at: nat)
      requires Valid() && buckets[BucketOf(key)].count <= CAPACITY
      requires offer == 0 || pool.Offers(offer)
      requires addr == NULL || (addr > HEAD && addr !in buckets[BucketOf(key)].mem.nodes)
      modifies this, pool, buckets[BucketOf(key)]
      ensures Valid()
      ensures at == 0 <==> old(pool.cold) == 0 && offer == 0
      ensures ret == if at != 0 && copied && (key in old(Model()) || addr != NULL) then 0 else -1
      ensures Model() == if ret == 0 && key !in old(Model()) then old(Model())[key := data] else old(Model())
      ensures held == if ret == 0 && key !in old(held) then old(held)[key := Held(data, at)] else old(held)
      ensures elsewhere == if ret == 0 && key in old(Model()) then old(elsewhere) + {at} else old(elsewhere)
      ensures ret == 0 ==> !old(pool.Live(at))
      ensures destroyed == if dfunc && at != 0 && copied && ret == -1 then old(destroyed) + [data] else old(destroyed)
    {
      hide MemPool.SlabOk, MemPool.HeapOk, Taken, Separate, BucketOk, MemPool.HeadAt, MemPool.Fits, EntryCmp, Covers,
        Data;
      var ptr := pool.Get(offer);
      at := ptr;
      DataInsert(held, key, Held(data, ptr));
      DataKeys(held);
      if ptr == 0 {
        return -1, 0;
      }
      if !copied {
        var _ := pool.Put(ptr);
        return -1, ptr;
      }
      ret := InsertEntry(Entry(data, key, hash(key), ptr), addr);
      if ret == -1 {
        if dfunc {
          destroyed := destroyed + [data];
        }
        var _ := pool.Put(ptr);
      } else if key in old(held) {
        AddElsewhere(held, elsewhere, ptr);
        elsewhere := elsewhere + {ptr};
      } else {
        TakenInsert(old(held), elsewhere, key, Held(data, ptr));
      }
    }

    /** rbthash_remove */
    method Remove(key: Key) returns (r: Option<D>)
      requires Valid() && buckets[BucketOf(key)].count <= CAPACITY
      modifies this`held, pool, buckets[BucketOf(key)]
      ensures Valid()
      ensures r == if key in old(Model()) then Some(old(Model())[key]) else None
      ensures Model() == Dropped(old(Model()), key) && held == Dropped(old(held), key)
    {
      hide MemPool.SlabOk, MemPool.HeapOk, Taken, Separate, BucketOk, MemPool.HeadAt, EntryCmp, Covers, Data, Dropped;
      DataKeys(held);
      DataDropped(held, key);
      var e := DeleteEntry(key);
      if e == None {
        DroppedProps(old(held), key);
        return None;
      }
      TakenRemove(old(held), elsewhere, key);
      var _ := pool.Put(e.value.at);
      r := Some(e.value.data);
    }

    /** The part of rbthash_remove under the bucket's lock. */
    method DeleteEntry(key: Key) returns (e: Option<Entry<D>>)
      requires |buckets| > 0 && (forall i, j :: 0 <= i < j < |buckets| ==> buckets[i] != buckets[j])
      requires forall i :: 0 <= i < |buckets| ==> BucketOk(i)
      requires buckets[BucketOf(key)].count <= CAPACITY
      modifies this`held, buckets[BucketOf(key)]
      ensures forall i :: 0 <= i < |buckets| ==> BucketOk(i)
      ensures held == Dropped(old(held), key)
      ensures e == None <==> key !in old(held)
      ensures e.Some? ==> HeldIn(e.value) == old(held)[key]
    {
      hide Zip, RedBlack, Covers, Mine, Sorted, TotalOrder, Slots, Dropped, Height, Ids;
      var b := BucketOf(key);
      var bucket := buckets[b];
      var blank: D := *;
      var search := Entry(blank, key, 0, 0);
      assert BucketOk(b);
      ghost var q := bucket.Items();
      StackSuffices(bucket.tree);
      Decide(q, held, hash, |buckets|, search);
      ghost var i;
      e, i := bucket.Delete(search);
      DroppedProps(held, key);
      if e != None {
        TakenOut(q, bucket.Items(), i, held, hash, |buckets|, search);
        held := Dropped(held, key);
      }
      forall j | 0 <= j < |buckets| ensures BucketOk(j) {
        if j != b {
          assert old(BucketOk(j));
          OtherBucket(buckets[j].Items(), old(held), held, key, hash, |buckets|, j);
        }
      }
    }

    /** Entries in memory never overlap: neither each other nor anything else taken from the pool. */
    lemma {:induction false} EntriesApart(j: Key, p: nat)
      requires Valid() && j in held && pool.Live(p) && p != held[j].at
      ensures pool.Live(held[j].at) && MemPool.Apart(held[j].at, p, pool.size)
    {
      hide BucketOk, Separate, MemPool.SlabOk, MemPool.HeapOk;
      assert held[j].at in Taken(held);
      pool.LiveApart(held[j].at, p);
    }
  }

  lemma {:induction false} DataKeys<D>(held: map<Key, Held<D>>)
    ensures Data(held).Keys == held.Keys && forall k :: k in held ==> Data(held)[k] == held[k].data
  {
  }

  lemma {:induction false} AddElsewhere<D>(held: map<Key, Held<D>>, elsewhere: set<nat>, p: nat)
    requires Separate(held, elsewhere) && p !in Taken(held)
    ensures Separate(held, elsewhere + {p})
  {
  }

  /** The map without `key`. */
  function Dropped<V>(m: map<Key, V>, key: Key): map<Key, V> { m - {key} }

  lemma {:induction false} DroppedProps<V>(m: map<Key, V>, key: Key)
    ensures forall k: Key :: k != key ==> (k in Dropped(m, key) <==> k in m) && (k in m ==> Dropped(m, key)[k] == m[k])
    ensures key !in m ==> Dropped(m, key) == m
  {
  }

  lemma {:induction false} TakenOut<D(!new)>(q: seq<Slot<Entry<D>>>, q': seq<Slot<Entry<D>>>, i: nat,
                                             held: map<Key, Held<D>>, hash: Key -> U32, n: nat, e: Entry<D>)
    requires n > 0 && Covers(q, held, Mine(held, hash, n, hash(e.key) % n)) && Sorted<Entry<D>>(EntryCmp, q)
    requires i < |q| && EntryCmp(e, q[i].data) == 0 && q' == q[..i] + q[i + 1..]
    ensures e.key in held && held[e.key] == HeldIn(q[i].data)
    ensures Covers(q', Dropped(held, e.key), Mine(Dropped(held, e.key), hash, n, hash(e.key) % n))
  {
    hide Sorted, Covers;
    var mine := Mine(held, hash, n, hash(e.key) % n);
    Present(q, held, mine, e, q[i]);
    OneOfEach(q, i);
    CoversRemove(q, q', i, held, mine);
    MineRemove(held, hash, n, e.key);
  }

  /** A bucket has an entry that compares equal exactly if the key is in the map. */
  lemma {:induction false} Decide<D>(q: seq<Slot<Entry<D>>>, held: map<Key, Held<D>>, hash: Key -> U32, n: nat,
                                     e: Entry<D>)
    requires n > 0 && Covers(q, held, Mine(held, hash, n, hash(e.key) % n))
    ensures e.key in held <==> exists x :: x in q && EntryCmp(e, x.data) == 0
  {
    var mine := Mine(held, hash, n, hash(e.key) % n);
    if e.key in held {
      assert e.key in mine;
      var i :| 0 <= i < |q| && q[i].data.key == e.key;
      KeyCmpOrder(e.key, q[i].data.key, []);
      assert q[i] in q && EntryCmp(e, q[i].data) == 0;
    } else {
      forall x | x in q ensures EntryCmp(e, x.data) != 0 {
        KeyCmpOrder(e.key, x.data.key, []);
      }
    }
  }

  lemma {:induction false} MineInsert<D>(held: map<Key, Held<D>>, hash: Key -> U32, n: nat, key: Key, h: Held<D>)
    requires n > 0 && key !in held
    ensures Mine(held[key := h], hash, n, hash(key) % n) == Mine(held, hash, n, hash(key) % n) + {key}
  {
  }

  lemma {:induction false} MineRemove<D>(held: map<Key, Held<D>>, hash: Key -> U32, n: nat, key: Key)
    requires n > 0 && key in held
    ensures Mine(held - {key}, hash, n, hash(key) % n) == Mine(held, hash, n, hash(key) % n) - {key}
  {
  }

  /** rbthash_table_init: the buckets are created one by one, and the entries come from a new pool. */
  method Create<D(0, !new)>(numbuckets: nat, hash: Key -> U32, dfunc: bool, entrySize: nat, expected: nat, slab: nat)
    returns (t: HashTable<D>)
    requires numbuckets > 0 && entrySize > 0 && expected > 0
    requires slab > 0 && MemPool.HeadAt(slab, entrySize + MemPool.PAD, expected) <= MemPool.WRAP
    ensures fresh(t) && fresh(t.buckets) && fresh(t.pool) && t.Valid() && t.hash == hash && t.dfunc == dfunc
    ensures t.Model() == map[] && t.elsewhere == {} && |t.buckets| == numbuckets && t.pool.cold == expected
    ensures t.pool.size == entrySize && t.pool.count == expected && t.pool.pool == slab
  {
    hide Zip, RedBlack, Sorted, TotalOrder, MemPool.SlabOk, MemPool.HeapOk, MemPool.HeadAt;
    var buckets: seq<Table<Entry<D>>> := [];
    ComparatorOrder<D>();
    for n := 0 to numbuckets
      invariant |buckets| == n && fresh(buckets)
      invariant forall i, j :: 0 <= i < j < n ==> buckets[i] != buckets[j]
      invariant forall i :: 0 <= i < n ==> buckets[i].Valid() && buckets[i].cmp == EntryCmp && buckets[i].Items() == []
    {
      var b := new Table<Entry<D>>(EntryCmp);
      buckets := buckets + [b];
    }
    var pool := new MemPool.Pool(entrySize, expected, slab);
    t := new HashTable(buckets, hash, pool, dfunc, {});
  }

  /** The other buckets are not concerned by a change of the map at `key`. */
  lemma {:induction false} OtherBucket<D>(q: seq<Slot<Entry<D>>>, held: map<Key, Held<D>>, held': map<Key, Held<D>>,
                                          key: Key,
                                          hash: Key -> U32, n: nat, b: nat)
    requires n > 0 && Covers(q, held, Mine(held, hash, n, b)) && hash(key) % n != b
    requires forall k: Key :: k != key ==> (k in held' <==> k in held) && (k in held ==> held'[k] == held[k])
    ensures Covers(q, held', Mine(held', hash, n, b))
  {
    assert Mine(held', hash, n, b) == Mine(held, hash, n, b);
  }

  lemma {:induction false} Absent<D>(q: seq<Slot<Entry<D>>>, held: map<Key, Held<D>>, mine: set<Key>, e: Entry<D>)
    requires Covers(q, held, mine) && forall x :: x in q ==> EntryCmp(e, x.data) != 0
    ensures e.key !in mine
  {
    if e.key in mine {
      var i :| 0 <= i < |q| && q[i].data.key == e.key;
      KeyCmpOrder(e.key, q[i].data.key, []);
    }
  }

  lemma {:induction false} Present<D>(q: seq<Slot<Entry<D>>>, held: map<Key, Held<D>>, mine: set<Key>, e: Entry<D>,
                                      x: Slot<Entry<D>>)
    requires Covers(q, held, mine) && x in q && EntryCmp(e, x.data) == 0
    ensures e.key in mine && x.data.key == e.key && held[e.key] == HeldIn(x.data)
  {
    KeyCmpOrder(e.key, x.data.key, []);
  }
}
