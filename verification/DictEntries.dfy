/**
 What src/dict.c means: an association list with unique keys, newest entry first,
 that behaves as a map; and the references it holds on its values.
 */
module DictEntries {
  import opened Options
  import opened ByteOrder

  type Key = seq<Byte>

  datatype Entry<V> = Entry(key: Key, value: V)

  /** The position of a key, or the length. */
  function Pos<V>(es: seq<Entry<V>>, k: Key): (p: nat)
    ensures p <= |es|
    ensures p < |es| ==> es[p].key == k
  {
    if es == [] || es[0].key == k then 0 else 1 + Pos(es[1..], k)
  }

  predicate Has<V>(es: seq<Entry<V>>, k: Key) { Pos(es, k) < |es| }

  function Put<V>(es: seq<Entry<V>>, k: Key, v: V): seq<Entry<V>> {
    if Has(es, k) then es[Pos(es, k) := Entry(k, v)] else [Entry(k, v)] + es
  }

  function Remove<V>(es: seq<Entry<V>>, k: Key): seq<Entry<V>> {
    if Has(es, k) then es[..Pos(es, k)] + es[Pos(es, k) + 1..] else es
  }

  /** dict_foreach with `_copy`: the entries of `from` are put one by one. */
  function PutAll<V>(es: seq<Entry<V>>, from: seq<Entry<V>>): seq<Entry<V>> {
    if from == [] then es else
    var e := from[|from| - 1];
    Put(PutAll(es, from[..|from| - 1]), e.key, e.value)
  }

  /** The same when some allocations fail: a new key is put only where `ok`. */
  function PutSome<V>(es: seq<Entry<V>>, from: seq<Entry<V>>, ok: seq<bool>): seq<Entry<V>>
    requires |ok| >= |from|
    decreases |from|
  {
    if from == [] then es else
    var n := |from| - 1;
    PutIf(PutSome(es, from[..n], ok), from[n], ok[n])
  }

  function PutIf<V>(es: seq<Entry<V>>, e: Entry<V>, ok: bool): seq<Entry<V>> {
    if ok || Has(es, e.key) then Put(es, e.key, e.value) else es
  }

  lemma {:induction false} PutSomeAll<V>(es: seq<Entry<V>>, from: seq<Entry<V>>, ok: seq<bool>)
    requires |ok| >= |from| && forall i :: 0 <= i < |from| ==> ok[i]
    ensures PutSome(es, from, ok) == PutAll(es, from)
    decreases |from|
  {
    if from != [] {
      PutSomeAll(es, from[..|from| - 1], ok);
    }
  }

  ghost predicate UniqueKeys<V>(es: seq<Entry<V>>) {
    forall i, j :: 0 <= i < j < |es| ==> es[i].key != es[j].key
  }

  ghost function AsMap<V>(es: seq<Entry<V>>): map<Key, V> {
    if es == [] then map[] else AsMap(es[1..])[es[0].key := es[0].value]
  }

  lemma {:induction false} PosOf<V>(es: seq<Entry<V>>, k: Key, i: nat)
    requires UniqueKeys(es) && i < |es| && es[i].key == k
    ensures Pos(es, k) == i
  {
    if i > 0 {
      assert es[0].key != es[i].key;
      PosOf(es[1..], k, i - 1);
    }
  }

  lemma {:induction false} PosNone<V>(es: seq<Entry<V>>, k: Key)
    ensures !Has(es, k) <==> forall i :: 0 <= i < |es| ==> es[i].key != k
  {
    if es != [] {
      PosNone(es[1..], k);
      assert forall i :: 0 <= i < |es| - 1 ==> es[1..][i] == es[i + 1];
      if !Has(es[1..], k) && es[0].key != k {
        forall i | 0 <= i < |es| ensures es[i].key != k {
          if i > 0 {
            assert es[1..][i - 1].key != k;
          }
        }
      }
    }
  }

  lemma {:induction false} MapHas<V>(es: seq<Entry<V>>, k: Key)
    ensures k in AsMap(es) <==> Has(es, k)
    ensures Has(es, k) ==> AsMap(es)[k] == es[Pos(es, k)].value
  {
    if es != [] {
      MapHas(es[1..], k);
    }
  }

  lemma {:induction false} PutUnique<V>(es: seq<Entry<V>>, k: Key, v: V)
    requires UniqueKeys(es)
    ensures UniqueKeys(Put(es, k, v))
  {
    PosNone(es, k);
  }

  /** Putting is the map update. */
  lemma {:induction false} PutMap<V>(es: seq<Entry<V>>, k: Key, v: V)
    requires UniqueKeys(es)
    ensures AsMap(Put(es, k, v)) == AsMap(es)[k := v]
    ensures |Put(es, k, v)| == if Has(es, k) then |es| else |es| + 1
  {
    if Has(es, k) && es[0].key != k {
      PutMap(es[1..], k, v);
      assert Put(es, k, v)[1..] == Put(es[1..], k, v);
    } else if Has(es, k) {
      assert Put(es, k, v)[1..] == es[1..];
    } else {
      assert Put(es, k, v)[1..] == es;
    }
  }

  lemma {:induction false} RemoveUnique<V>(es: seq<Entry<V>>, k: Key)
    requires UniqueKeys(es)
    ensures UniqueKeys(Remove(es, k)) && !Has(Remove(es, k), k)
  {
    PosNone(es, k);
    PosNone(Remove(es, k), k);
  }

  /** What a key means. */
  function Value<V>(es: seq<Entry<V>>, k: Key): Option<V> {
    if Has(es, k) then Some(es[Pos(es, k)].value) else None
  }

  lemma {:induction false} ValueMap<V>(es: seq<Entry<V>>, k: Key)
    ensures Value(es, k).Some? <==> Has(es, k)
    ensures Value(es, k) == if k in AsMap(es) then Some(AsMap(es)[k]) else None
  {
    MapHas(es, k);
  }

  lemma {:induction false} PutValue<V>(es: seq<Entry<V>>, k: Key, v: V, j: Key)
    requires UniqueKeys(es)
    ensures Value(Put(es, k, v), j) == if j == k then Some(v) else Value(es, j)
  {
    hide Put, Has, UniqueKeys, AsMap, Value;
    ValueMap(es, j);
    ValueMap(Put(es, k, v), j);
    PutMap(es, k, v);
  }

  lemma {:induction false} RemoveValue<V>(es: seq<Entry<V>>, k: Key, j: Key)
    requires UniqueKeys(es)
    ensures Value(Remove(es, k), j) == if j == k then None else Value(es, j)
  {
    hide Remove, Has, UniqueKeys, AsMap, Value;
    ValueMap(es, j);
    ValueMap(Remove(es, k), j);
    RemoveMap(es, k);
  }

  /** A copy for which memory runs short takes over the keys that were there and those there was room
      for, and leaves all others alone. */
  lemma {:induction false} PutSomeValue<V>(es: seq<Entry<V>>, from: seq<Entry<V>>, ok: seq<bool>, k: Key)
    requires UniqueKeys(es) && UniqueKeys(from) && |ok| >= |from|
    ensures UniqueKeys(PutSome(es, from, ok))
    ensures Value(PutSome(es, from, ok), k) ==
            if Has(from, k) && (Has(es, k) || ok[Pos(from, k)]) then Value(from, k) else Value(es, k)
    decreases |from|
  {
    hide Put, UniqueKeys, Has, Pos, Value;
    if from == [] {
      ValueMap(from, k);
    } else {
      var n := |from| - 1;
      var some, e := PutSome(es, from[..n], ok), from[n];
      InitUnique(from);
      PutSomeValue(es, from[..n], ok, k);
      LastValue(from, k);
      PutUnique(some, e.key, e.value);
      PutValue(some, e.key, e.value, k);
      ValueMap(es, k);
      ValueMap(some, k);
    }
  }

  lemma {:induction false} LastValue<V>(es: seq<Entry<V>>, k: Key)
    requires UniqueKeys(es) && es != []
    ensures var n := |es| - 1;
            && (es[n].key == k ==> !Has(es[..n], k) && Has(es, k) && Pos(es, k) == n)
            && (es[n].key != k ==> Has(es, k) == Has(es[..n], k) && (Has(es, k) ==> Pos(es, k) == Pos(es[..n], k)))
    ensures Value(es, k) == if es[|es| - 1].key == k then Some(es[|es| - 1].value) else Value(es[..|es| - 1], k)
  {
    var n := |es| - 1;
    PosNone(es[..n], k);
    PosNone(es, k);
    InitUnique(es);
    if es[n].key == k {
      PosOf(es, k, n);
    } else if Has(es, k) {
      assert Pos(es, k) < n && es[..n][Pos(es, k)].key == k;
      PosOf(es[..n], k, Pos(es, k));
    }
  }

  lemma {:induction false} RemoveTail<V>(es: seq<Entry<V>>, k: Key)
    requires es != [] && es[0].key != k
    ensures Has(es, k) == Has(es[1..], k)
    ensures Remove(es, k) == [es[0]] + Remove(es[1..], k)
  {
    var p := Pos(es[1..], k);
    assert Pos(es, k) == 1 + p;
    if p < |es[1..]| {
      assert es[..1 + p] == [es[0]] + es[1..][..p];
      assert es[1 + p + 1..] == es[1..][p + 1..];
    }
  }

  lemma {:induction false} FirstOnly<V>(es: seq<Entry<V>>)
    requires UniqueKeys(es) && es != []
    ensures !Has(es[1..], es[0].key)
  {
    PosNone(es[1..], es[0].key);
  }

  /** The map without a key. */
  ghost function Without<V>(m: map<Key, V>, k: Key): map<Key, V> { m - {k} }

  lemma {:induction false} WithoutProps<V>(m: map<Key, V>, k: Key, j: Key, v: V)
    ensures k !in m ==> Without(m[k := v], k) == m
    ensures j != k ==> Without(m[j := v], k) == Without(m, k)[j := v]
  {
  }

  /** Removing is the removal from the map. */
  lemma {:induction false} RemoveMap<V>(es: seq<Entry<V>>, k: Key)
    requires UniqueKeys(es)
    ensures AsMap(Remove(es, k)) == Without(AsMap(es), k)
    ensures |Remove(es, k)| == if Has(es, k) then |es| - 1 else |es|
  {
    hide UniqueKeys, Without;
    if es == [] {
      NothingWithout<V>(k);
    } else {
      FirstOnly(es);
      TailUnique(es);
      RemoveMap(es[1..], k);
      MapHas(es[1..], k);
      WithoutProps(AsMap(es[1..]), k, es[0].key, es[0].value);
      if es[0].key == k {
        assert Remove(es, k) == es[1..];
      } else {
        RemoveTail(es, k);
        assert ([es[0]] + Remove(es[1..], k))[1..] == Remove(es[1..], k);
      }
    }
  }

  lemma {:induction false} NothingWithout<V>(k: Key)
    ensures Without<V>(map[], k) == map[]
  {
  }

  lemma {:induction false} TailUnique<V>(es: seq<Entry<V>>)
    requires UniqueKeys(es) && es != []
    ensures UniqueKeys(es[1..])
  {
  }

  lemma {:induction false} PutAllUnique<V>(es: seq<Entry<V>>, from: seq<Entry<V>>)
    requires UniqueKeys(es)
    ensures UniqueKeys(PutAll(es, from))
  {
    if from != [] {
      var rest := from[..|from| - 1];
      PutAllUnique(es, rest);
      PutUnique(PutAll(es, rest), from[|from| - 1].key, from[|from| - 1].value);
    }
  }

  lemma {:induction false} MapLast<V>(es: seq<Entry<V>>, e: Entry<V>)
    requires UniqueKeys(es + [e])
    ensures AsMap(es + [e]) == AsMap(es)[e.key := e.value]
  {
    if es == [] {
      assert es + [e] == [e] && [e][1..] == [];
      assert AsMap([e]) == AsMap<V>([])[e.key := e.value];
    } else {
      var all := es + [e];
      assert all[1..] == es[1..] + [e];
      TailUnique(all);
      MapLast(es[1..], e);
      assert all[0] == es[0] && all[|es|] == e && es[0].key != e.key;
      assert AsMap(all) == AsMap(all[1..])[es[0].key := es[0].value];
    }
  }

  /** A copy is the union of the maps, the source's values winning. */
  lemma {:induction false} PutAllMap<V>(es: seq<Entry<V>>, from: seq<Entry<V>>)
    requires UniqueKeys(es) && UniqueKeys(from)
    ensures AsMap(PutAll(es, from)) == AsMap(es) + AsMap(from)
  {
    hide Put, UniqueKeys;
    if from == [] {
      assert AsMap(es) + map[] == AsMap(es);
    } else {
      var rest, e := from[..|from| - 1], from[|from| - 1];
      assert from == rest + [e];
      PutAllUnique(es, rest);
      InitUnique(from);
      PutAllMap(es, rest);
      PutMap(PutAll(es, rest), e.key, e.value);
      MapLast(rest, e);
      UnionUpdate(AsMap(es), AsMap(rest), e.key, e.value);
    }
  }

  lemma {:induction false} UnionUpdate<V>(a: map<Key, V>, b: map<Key, V>, k: Key, v: V)
    ensures (a + b)[k := v] == a + b[k := v]
  {
  }

  lemma {:induction false} InitUnique<V>(es: seq<Entry<V>>)
    requires UniqueKeys(es) && es != []
    ensures UniqueKeys(es[..|es| - 1])
  {
  }

  function Reversed<V>(es: seq<Entry<V>>): (r: seq<Entry<V>>)
    ensures |r| == |es| && forall i :: 0 <= i < |es| ==> r[i] == es[|es| - 1 - i]
  {
    seq(|es|, i requires 0 <= i < |es| => es[|es| - 1 - i])
  }

  /** A copy into an empty dictionary lists the entries in the opposite order. */
  lemma {:induction false} PutAllReversed<V>(from: seq<Entry<V>>)
    requires UniqueKeys(from)
    ensures PutAll([], from) == Reversed(from)
  {
    if from != [] {
      var rest, e := from[..|from| - 1], from[|from| - 1];
      PutAllReversed(rest);
      PosNone(Reversed(rest), e.key);
      assert !Has(Reversed(rest), e.key);
    }
  }

  lemma {:induction false} ReversedTwice<V>(es: seq<Entry<V>>)
    ensures Reversed(Reversed(es)) == es
    ensures UniqueKeys(es) ==> UniqueKeys(Reversed(es))
  {
  }

  /** How many entries hold the value. */
  function Uses<V(==)>(es: seq<Entry<V>>, v: V): nat {
    if es == [] then 0 else (if es[0].value == v then 1 else 0) + Uses(es[1..], v)
  }

  lemma {:induction false} UsesSplit<V>(a: seq<Entry<V>>, b: seq<Entry<V>>, v: V)
    ensures Uses(a + b, v) == Uses(a, v) + Uses(b, v)
  {
    if a == [] {
      assert a + b == b;
    } else {
      UsesSplit(a[1..], b, v);
      assert (a + b)[1..] == a[1..] + b;
    }
  }

  lemma {:induction false} UsesAt<V>(es: seq<Entry<V>>, i: nat, v: V)
    requires i < |es|
    ensures Uses(es, v) == Uses(es[..i], v) + (if es[i].value == v then 1 else 0) + Uses(es[i + 1..], v)
  {
    assert es == es[..i] + ([es[i]] + es[i + 1..]);
    UsesSplit(es[..i], [es[i]] + es[i + 1..], v);
    UsesSplit([es[i]], es[i + 1..], v);
    assert Uses([es[i]], v) == if es[i].value == v then 1 else 0;
  }

  lemma {:induction false} UsesPut<V>(es: seq<Entry<V>>, k: Key, v: V, w: V)
    ensures Uses(Put(es, k, v), w) == Uses(es, w) + (if w == v then 1 else 0)
                                      - (if Has(es, k) && es[Pos(es, k)].value == w then 1 else 0)
  {
    var p, es' := Pos(es, k), Put(es, k, v);
    if Has(es, k) {
      UsesAt(es, p, w);
      UsesAt(es', p, w);
      assert es'[..p] == es[..p] && es'[p + 1..] == es[p + 1..];
    } else {
      assert es'[1..] == es;
    }
  }

  lemma {:induction false} UsesRemove<V>(es: seq<Entry<V>>, k: Key, w: V)
    ensures Uses(Remove(es, k), w) == Uses(es, w) - (if Has(es, k) && es[Pos(es, k)].value == w then 1 else 0)
  {
    var p := Pos(es, k);
    if Has(es, k) {
      UsesAt(es, p, w);
      UsesSplit(es[..p], es[p + 1..], w);
    }
  }
}
