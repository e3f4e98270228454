/**
 Whole runs over any number of dictionaries that share values, src/dict.c:165-344,
 419-457 and 1147-1196.
 */
module DictRun {
  import opened Options
  import opened ByteOrder
  import opened Lists
  import opened DictEntries
  import opened DictStore
  import opened Dict

  type Entries = seq<Entry<Ref>>

  /** All entries of all dictionaries. */
  ghost function Joined(lists: seq<Entries>): Entries {
    if lists == [] then [] else lists[0] + Joined(lists[1..])
  }

  lemma {:induction false} JoinedUpdate(lists: seq<Entries>, d: nat, es: Entries, v: Ref)
    requires d < |lists|
    ensures Uses(Joined(lists[d := es]), v) == Uses(Joined(lists), v) - Uses(lists[d], v) + Uses(es, v)
    ensures Uses(lists[d], v) <= Uses(Joined(lists), v)
  {
    var lists' := lists[d := es];
    UsesSplit(lists[0], Joined(lists[1..]), v);
    UsesSplit(lists'[0], Joined(lists'[1..]), v);
    if d == 0 {
      assert lists'[1..] == lists[1..];
    } else {
      JoinedUpdate(lists[1..], d - 1, es, v);
      assert lists'[1..] == lists[1..][d - 1 := es];
    }
  }

  lemma {:induction false} JoinedTwo(lists: seq<Entries>, d: nat, e: nat, v: Ref)
    requires d < |lists| && e < |lists| && d != e
    ensures Uses(lists[d], v) + Uses(lists[e], v) <= Uses(Joined(lists), v)
  {
    JoinedUpdate(lists, d, [], v);
    JoinedUpdate(lists[d := []], e, [], v);
  }

  function Out(outside: map<Ref, nat>, v: Ref): nat { if v in outside then outside[v] else 0 }

  /** What a process with dictionaries amounts to: the entries of each, how often somebody else holds
      each value, and the values in memory. */
  datatype World = World(lists: seq<Entries>, outside: map<Ref, nat>, alive: set<Ref>)

  /** What stays the same: how keys hash, the text of a value, and the slots of each dictionary. */
  datatype Rules = Rules(hash: Key -> U32, names: Ref -> Key, sizes: seq<nat>) {
    predicate Findable(d: nat, k: Key)
      requires d < |sizes|
    {
      sizes[d] > 0 && Agreeing(hash(k), sizes[d])
    }
  }

  ghost function Held(w: World, v: Ref): nat { Uses(Joined(w.lists), v) + Out(w.outside, v) }

  /** A value goes when its last holder lets go of it; one that was never held stays. */
  ghost function Surviving(w: World, lists: seq<Entries>, outside: map<Ref, nat>): (w': World)
    ensures w'.lists == lists && w'.outside == outside
  {
    World(lists, outside, set v | v in w.alive && (Held(w, v) == 0 || Held(World(lists, outside, {}), v) > 0))
  }

  ghost function Relisted(w: World, d: nat, es: Entries): (w': World)
    requires d < |w.lists|
    ensures w'.lists == w.lists[d := es] && w'.outside == w.outside
  {
    Surviving(w, w.lists[d := es], w.outside)
  }

  // ----- calls

  /** What a program can do. A value starts with no reference; `Hold` and `Release` are data_ref and
      data_unref by somebody other than a dictionary.  `room` tells whether a pair and its key can be
      allocated, `ok` for which members of the source of a copy they can. */
  datatype Call =
    | Create(v: Ref)
    | Hold(v: Ref)
    | Release(v: Ref)
    | SetKey(d: nat, key: Option<Key>, v: Ref, room: bool)
    | DelKey(d: nat, name: Key)
    | CopyAll(d: nat, src: nat, ok: nat -> bool)

  function Name(rules: Rules, key: Option<Key>, v: Ref): Key { if key == None then rules.names(v) else key.value }

  /** Which of the first `n` allocations succeed. */
  ghost function Granted(n: nat, ok: nat -> bool): (r: seq<bool>)
    ensures |r| == n && forall i :: 0 <= i < n ==> r[i] == ok(i)
  {
    seq(n, i requires 0 <= i < n => ok(i))
  }

  /** The call takes effect. */
  ghost predicate Can(rules: Rules, w: World, c: Call)
    requires |rules.sizes| == |w.lists|
  {
    match c
    case Create(v) => v != NULL && v !in w.alive
    case Hold(v) => v in w.alive
    case Release(v) => Out(w.outside, v) > 0
    case SetKey(d, key, v, room) =>
      && d < |w.lists| && v in w.alive && v != NULL
      && (Has(w.lists[d], Name(rules, key, v)) || (room && rules.Findable(d, Name(rules, key, v))))
    case DelKey(d, _) => d < |w.lists|
    case CopyAll(d, e, _) => d < |w.lists| && e < |w.lists| && AllFindable(rules, d, w.lists[e])
  }

  ghost predicate AllFindable(rules: Rules, d: nat, es: Entries)
    requires d < |rules.sizes|
  {
    forall x :: x in es ==> rules.Findable(d, x.key)
  }

  ghost function Next(rules: Rules, w: World, c: Call): (w': World)
    requires |rules.sizes| == |w.lists|
    ensures |w'.lists| == |w.lists|
  {
    if !Can(rules, w, c) then w else
    match c
    case Create(v) => w.(alive := w.alive + {v})
    case Hold(v) => w.(outside := w.outside[v := Out(w.outside, v) + 1])
    case Release(v) => Surviving(w, w.lists, w.outside[v := Out(w.outside, v) - 1])
    case SetKey(d, key, v, _) => Relisted(w, d, Put(w.lists[d], Name(rules, key, v), v))
    case DelKey(d, key) => Relisted(w, d, Remove(w.lists[d], key))
    case CopyAll(d, e, ok) => Relisted(w, d, PutSome(w.lists[d], w.lists[e], Granted(|w.lists[e]|, ok)))
  }

  ghost function AfterAll(rules: Rules, w: World, cs: seq<Call>): (w': World)
    requires |rules.sizes| == |w.lists|
    ensures |w'.lists| == |w.lists|
  {
    if cs == [] then w else Next(rules, AfterAll(rules, w, cs[..|cs| - 1]), cs[|cs| - 1])
  }

  ghost predicate Keyed(w: World) { forall i :: 0 <= i < |w.lists| ==> UniqueKeys(w.lists[i]) }

  /** What a key means after a call: the value set, nothing once deleted, the source's value after a copy
      that had room for it, and what it meant before otherwise. */
  ghost function Means(rules: Rules, w: World, c: Call, i: nat, k: Key): Option<Ref>
    requires |rules.sizes| == |w.lists| && i < |w.lists|
  {
    var was := Value(w.lists[i], k);
    if !Can(rules, w, c) then was else
    match c
    case SetKey(d, key, v, _) => if d == i && k == Name(rules, key, v) then Some(v) else was
    case DelKey(d, key) => if d == i && k == key then None else was
    case CopyAll(d, e, ok) =>
      if d == i && Has(w.lists[e], k) && (was.Some? || ok(Pos(w.lists[e], k))) then Value(w.lists[e], k) else was
    case _ => was
  }

  lemma {:induction false} NextMeans(rules: Rules, w: World, c: Call, i: nat, k: Key)
    requires |rules.sizes| == |w.lists| && Keyed(w) && i < |w.lists|
    ensures UniqueKeys(Next(rules, w, c).lists[i])
    ensures Value(Next(rules, w, c).lists[i], k) == Means(rules, w, c, i, k)
  {
    hide UniqueKeys, Put, Remove, PutSome, Surviving, Value, AllFindable;
    if Can(rules, w, c) {
      match c
      case SetKey(d, key, v, _) =>
        PutUnique(w.lists[d], Name(rules, key, v), v);
        PutValue(w.lists[d], Name(rules, key, v), v, k);
      case DelKey(d, key) =>
        RemoveUnique(w.lists[d], key);
        RemoveValue(w.lists[d], key, k);
      case CopyAll(d, e, ok) =>
        ValueMap(w.lists[d], k);
        PutSomeValue(w.lists[d], w.lists[e], Granted(|w.lists[e]|, ok), k);
      case _ =>
    }
  }

  // ----- counts

  /** Each count is the number of pairs that hold the value plus the number of outside holders, and a
      value that anybody holds is in memory. */
  ghost predicate Ledger(w: World, refs: Counts) { forall v: Ref :: LedgerAt(w, refs, v) }

  ghost predicate LedgerAt(w: World, refs: Counts, v: Ref) {
    && (v in w.alive <==> v in refs)
    && if v in refs then refs[v] == Held(w, v) else Held(w, v) == 0
  }

  lemma {:induction false} LedgerBacks(w: World, refs: Counts, d: nat)
    requires Ledger(w, refs) && d < |w.lists|
    ensures Backed(w.lists[d], refs)
  {
    forall v: Ref ensures Uses(w.lists[d], v) > 0 ==> v in refs && refs[v] >= Uses(w.lists[d], v)
                  ensures v in refs ==> refs[v] >= 0
    {
      assert LedgerAt(w, refs, v);
      JoinedUpdate(w.lists, d, [], v);
    }
  }

  lemma {:induction false} LedgerBacksTwo(w: World, refs: Counts, d: nat, e: nat)
    requires Ledger(w, refs) && d < |w.lists| && e < |w.lists| && d != e
    ensures Backed(w.lists[d] + w.lists[e], refs)
  {
    var both := w.lists[d] + w.lists[e];
    forall v: Ref ensures Uses(both, v) > 0 ==> v in refs && refs[v] >= Uses(both, v)
                  ensures v in refs ==> refs[v] >= 0
    {
      assert LedgerAt(w, refs, v);
      UsesSplit(w.lists[d], w.lists[e], v);
      JoinedTwo(w.lists, d, e, v);
    }
  }

  /** An operation that settles its own dictionary keeps the whole ledger, and exactly the values that
      lost their last holder are gone. */
  lemma {:induction false} LedgerAfter(w: World, refs: Counts, d: nat, es: Entries, refs': Counts)
    requires Ledger(w, refs) && d < |w.lists| && Settled(w.lists[d], es, refs, refs') && Backed(es, refs')
    ensures Ledger(Relisted(w, d, es), refs')
  {
    var w' := Relisted(w, d, es);
    forall v: Ref ensures LedgerAt(w', refs', v) {
      assert LedgerAt(w, refs, v);
      assert BalancedAt(w.lists[d], es, refs, refs', v);
      JoinedUpdate(w.lists, d, es, v);
    }
  }

  lemma {:induction false} LedgerCreate(w: World, refs: Counts, v: Ref)
    requires Ledger(w, refs) && v !in refs
    ensures v !in w.alive && Ledger(w.(alive := w.alive + {v}), refs[v := 0])
  {
    assert LedgerAt(w, refs, v);
    var w', refs' := w.(alive := w.alive + {v}), refs[v := 0];
    forall x: Ref ensures LedgerAt(w', refs', x) {
      assert LedgerAt(w, refs, x);
    }
  }

  lemma {:induction false} LedgerHold(w: World, refs: Counts, v: Ref)
    requires Ledger(w, refs) && v in refs
    ensures v in w.alive && Ledger(w.(outside := w.outside[v := Out(w.outside, v) + 1]), Up(refs, v))
  {
    assert LedgerAt(w, refs, v);
    var w' := w.(outside := w.outside[v := Out(w.outside, v) + 1]);
    forall x: Ref ensures LedgerAt(w', Up(refs, v), x) {
      assert LedgerAt(w, refs, x);
    }
  }

  lemma {:induction false} LedgerRelease(w: World, refs: Counts, v: Ref)
    requires Ledger(w, refs) && Out(w.outside, v) > 0
    ensures v in refs
    ensures Ledger(Surviving(w, w.lists, w.outside[v := Out(w.outside, v) - 1]), Down(refs, v))
  {
    assert LedgerAt(w, refs, v);
    var w' := Surviving(w, w.lists, w.outside[v := Out(w.outside, v) - 1]);
    forall x: Ref ensures LedgerAt(w', Down(refs, v), x) {
      assert LedgerAt(w, refs, x);
    }
  }

  lemma {:induction false} LedgerHas(w: World, refs: Counts, v: Ref)
    requires Ledger(w, refs)
    ensures v in w.alive <==> v in refs
  {
    assert LedgerAt(w, refs, v);
  }

  /** Dictionaries of one process: they share the hash function and the way values are named. */
  class Process {
    const values: Values
    const dicts: seq<Dictionary>
    const rules: Rules
    const malloc: set<Ref> -> Ref       // any choice of an address not in use
    var outside: map<Ref, nat>
    ghost var world: World

    ghost predicate Valid()
      reads this, values, dicts
    {
      && |world.lists| == |rules.sizes| == |dicts| && world.outside == outside && Allocates(malloc)
      && (forall i, j :: 0 <= i < j < |dicts| ==> dicts[i] != dicts[j])
      && (forall i :: 0 <= i < |dicts| ==> DictOk(i))
      && Ledger(world, values.refs)
    }

    ghost predicate DictOk(i: nat)
      reads this, dicts
      requires i < |dicts| == |world.lists| == |rules.sizes|
    {
      && dicts[i].Valid() && dicts[i].Entries() == world.lists[i] && Follows(dicts[i], rules, i)
    }

    /** No dictionary has entries and nothing is in memory yet. */
    constructor (values: Values, dicts: seq<Dictionary>, rules: Rules, malloc: set<Ref> -> Ref)
      requires values.refs == map[] && forall i, j :: 0 <= i < j < |dicts| ==> dicts[i] != dicts[j]
      requires |rules.sizes| == |dicts| && Allocates(malloc)
      requires forall i :: 0 <= i < |dicts| ==>
                 dicts[i].Valid() && dicts[i].Entries() == [] && Follows(dicts[i], rules, i)
      ensures Valid() && this.dicts == dicts && this.values == values && this.rules == rules
      ensures world == World(seq(|dicts|, _ => []), map[], {})
    {
      this.values, this.dicts, this.rules, this.malloc, outside := values, dicts, rules, malloc, map[];
      world := World(seq(|dicts|, _ => []), map[], {});
      Nothing(seq(|dicts|, _ => []));
    }

    /** dict_set, unless it would store a new pair where it is not searched, or the value is not there. */
    method Set(d: nat, key: Option<Key>, v: Ref, room: bool) returns (done: bool)
      requires Valid() && d < |dicts|
      modifies this`world, values, dicts[d]
      ensures Valid() && done == Can(rules, old(world), SetKey(d, key, v, room))
      ensures world == Next(rules, old(world), SetKey(d, key, v, room))
    {
      hide Ledger, Settled, Backed, Put, Agreeing, Uses, Has, SetSlot, Valued, Listed, Slots, Listing, LookupSlot, In,
        Searches, Relisted, Allocates;
      assert DictOk(d);
      var dict, k := dicts[d], Name(rules, key, v);
      LedgerHas(world, values.refs, v);
      if v !in values.refs || v == NULL {
        return false;
      }
      var pair := dict.Lookup(k);
      if pair == NULL && !(room && Agreeing(rules.hash(k), dict.hashSize)) {
        return false;
      }
      Fresh(malloc, dict.pairs.Keys);
      LedgerBacks(world, values.refs, d);
      SlotsAgree(rules.hash(k), dict.hashSize);
      SlotRange(rules.hash(k), dict.hashSize);
      ghost var refs := values.refs;
      var _ := dict.Set(values, key, v, if room then malloc(dict.pairs.Keys) else NULL, true);
      done := true;
      LedgerAfter(world, refs, d, dict.Entries(), values.refs);
      world := Relisted(world, d, dict.Entries());
      forall i | 0 <= i < |dicts| ensures DictOk(i) {
        assert i != d ==> old(DictOk(i));
      }
    }

    /** dict_del */
    method Del(d: nat, key: Key)
      requires Valid() && d < |dicts|
      modifies this`world, values, dicts[d]
      ensures Valid() && world == Next(rules, old(world), DelKey(d, key))
    {
      hide Ledger, Settled, Backed, Remove, Uses, Listed, Slots, Listing, LookupSlot, In, Searches, Relisted;
      assert DictOk(d);
      LedgerBacks(world, values.refs, d);
      ghost var refs := values.refs;
      dicts[d].Del(values, key);
      LedgerAfter(world, refs, d, dicts[d].Entries(), values.refs);
      world := Relisted(world, d, dicts[d].Entries());
      forall i | 0 <= i < |dicts| ensures DictOk(i) {
        assert i != d ==> old(DictOk(i));
      }
    }

    /** The keys of a copy are in slots where they are found again. */
    predicate CanCopy(d: nat, e: nat)
      reads this, dicts
      requires d < |dicts| && e < |dicts| && dicts[d].hashSize > 0
    {
      forall r :: r in dicts[e].pairs ==> Agreeing(rules.hash(dicts[e].pairs[r].key), dicts[d].hashSize)
    }

    /** dict_copy */
    method Copy(d: nat, e: nat, ok: nat -> bool) returns (done: bool)
      requires Valid() && d < |dicts| && e < |dicts|
      modifies this`world, values, dicts[d]
      ensures Valid() && done == Can(rules, old(world), CopyAll(d, e, ok))
      ensures world == Next(rules, old(world), CopyAll(d, e, ok))
    {
      hide Ledger, Settled, Backed, PutSome, Uses, Agreeing, Valued, Listed, Slots, Listing, LookupSlot, In, Searches,
        Relisted, Allocates, Unused, AllFindable;
      assert DictOk(d) && DictOk(e);
      CopyKeys(dicts[e].pairs, dicts[e].membersList, dicts[e].order, rules, d);
      if !CanCopy(d, e) {
        return false;
      }
      done := true;
      var addrs := Allocate(malloc, dicts[d].pairs, dicts[e].count, ok);
      ghost var refs, more := values.refs, if d == e then [] else world.lists[e];
      CopyBacked(world, refs, d, e);
      FindableKeys(rules, d, world.lists[e]);
      dicts[d].CopyFrom(values, dicts[e], addrs);
      FirstPart(dicts[d].Entries(), more, values.refs);
      LedgerAfter(world, refs, d, dicts[d].Entries(), values.refs);
      world := Relisted(world, d, dicts[d].Entries());
      forall i | 0 <= i < |dicts| ensures DictOk(i) {
        assert i != d ==> old(DictOk(i));
      }
    }

    /** data_from_ptr and the like, data_ref, and data_unref of a reference somebody holds. */
    method Outsider(c: Call) returns (done: bool)
      requires Valid() && (c.Create? || c.Hold? || c.Release?)
      modifies this`outside, this`world, values
      ensures Valid() && done == Can(rules, old(world), c) && world == Next(rules, old(world), c)
    {
      hide Ledger, Up, Down, Uses, Surviving, Slots, Listing, Searches, Valued, Listed, In, Put, Remove, PutSome,
        Relisted, Allocates, Has, AllFindable, Held;
      var v := c.v;
      LedgerHas(world, values.refs, v);
      done := false;
      if c.Create? && v != NULL && v !in values.refs {
        LedgerCreate(world, values.refs, v);
        values.refs := values.refs[v := 0];
        done := true;
      } else if c.Hold? && v in values.refs {
        LedgerHold(world, values.refs, v);
        outside := outside[v := Out(outside, v) + 1];
        values.AddRef(v);
        done := true;
      } else if c.Release? && Out(outside, v) > 0 {
        LedgerRelease(world, values.refs, v);
        outside := outside[v := Out(outside, v) - 1];
        values.Unref(v);
        done := true;
      }
      world := Next(rules, world, c);
      forall i | 0 <= i < |dicts| ensures DictOk(i) {
        assert old(DictOk(i));
      }
    }

    /** One call; what the program has no right to do is not done. */
    method Step(c: Call) returns (done: bool)
      requires Valid()
      modifies this, values, dicts
      ensures Valid() && done == Can(rules, old(world), c) && world == Next(rules, old(world), c)
    {
      hide Ledger, Put, Remove, PutSome, CanCopy, Relisted, Surviving, DictOk, AllFindable, Has, Allocates;
      done := false;
      match c {
        case SetKey(d, key, v, room) =>
          if d < |dicts| {
            done := Set(d, key, v, room);
          }
        case DelKey(d, key) =>
          if d < |dicts| {
            Del(d, key);
            done := true;
          }
        case CopyAll(d, e, ok) =>
          if d < |dicts| && e < |dicts| {
            done := Copy(d, e, ok);
          }
        case _ => done := Outsider(c);
      }
    }

    /** Every run: chains, member lists and counts stay consistent, and the dictionaries, the outside
        holders and the values in memory are what the calls amount to. */
    method Run(cs: seq<Call>)
      requires Valid()
      modifies this, values, dicts
      ensures Valid() && world == AfterAll(rules, old(world), cs)
      ensures values.refs.Keys == world.alive && forall v :: v in values.refs ==> values.refs[v] == Held(world, v)
    {
      hide Ledger, Next, DictOk, Held;
      ghost var start := world;
      for n := 0 to |cs|
        invariant Valid() && world == AfterAll(rules, start, cs[..n])
      {
        var _ := Step(cs[n]);
        assert cs[..n + 1][..n] == cs[..n];
      }
      assert cs[..|cs|] == cs;
      LedgerCounts(world, values.refs);
    }
  }

  lemma {:induction false} LedgerCounts(w: World, refs: Counts)
    requires Ledger(w, refs)
    ensures refs.Keys == w.alive && forall v :: v in refs ==> refs[v] == Held(w, v)
  {
    hide Held;
    forall v: Ref ensures (v in w.alive <==> v in refs) && (v in refs ==> refs[v] == Held(w, v)) {
      assert LedgerAt(w, refs, v);
    }
  }

  /** The dictionary hashes and names as the process does and has the slots it says. */
  ghost predicate Follows(dict: Dictionary, rules: Rules, i: nat)
    requires i < |rules.sizes|
  {
    dict.hash == rules.hash && dict.refName == rules.names && dict.hashSize == rules.sizes[i]
  }

  ghost predicate Allocates(malloc: set<Ref> -> Ref) {
    forall used :: malloc(used) != NULL && malloc(used) !in used
  }

  lemma {:induction false} Fresh(malloc: set<Ref> -> Ref, used: set<Ref>)
    requires Allocates(malloc)
    ensures malloc(used) != NULL && malloc(used) !in used
  {
  }

  /** What `n` allocations in a row return. */
  method Allocate(malloc: set<Ref> -> Ref, pairs: Store, n: nat, ok: nat -> bool) returns (addrs: seq<Ref>)
    requires Allocates(malloc)
    ensures |addrs| == n && Had(addrs) == Granted(n, ok) && Unused(pairs, addrs, 0)
  {
    hide Allocates;
    var used: set<Ref> := pairs.Keys;
    addrs := [];
    for i := 0 to n
      invariant |addrs| == i && pairs.Keys <= used && Unused(pairs, addrs, 0)
      invariant forall j :: 0 <= j < i ==> (addrs[j] == NULL || addrs[j] in used) && (addrs[j] != NULL <==> ok(j))
    {
      Fresh(malloc, used);
      var addr := if ok(i) then malloc(used) else NULL;
      addrs := addrs + [addr];
      used := used + {addr};
    }
  }

  lemma {:induction false} CopyBacked(w: World, refs: Counts, d: nat, e: nat)
    requires Ledger(w, refs) && d < |w.lists| && e < |w.lists|
    ensures Backed(w.lists[d] + (if d == e then [] else w.lists[e]), refs)
  {
    hide Ledger, Backed;
    if d == e {
      LedgerBacks(w, refs, d);
      assert w.lists[d] + [] == w.lists[d];
    } else {
      LedgerBacksTwo(w, refs, d, e);
    }
  }

  lemma {:induction false} CopyKeys(pairs: Store, head: Ref, order: seq<Ref>, rules: Rules, d: nat)
    requires In(pairs, order) && Listing(pairs, head, order) && d < |rules.sizes| && rules.sizes[d] > 0
    ensures AllFindable(rules, d, Listed(pairs, order)) <==>
              forall r :: r in pairs ==> Agreeing(rules.hash(pairs[r].key), rules.sizes[d])
  {
    hide Agreeing, Members, UniqueKeys;
    var es := Listed(pairs, order);
    if AllFindable(rules, d, es) {
      forall r | r in pairs ensures Agreeing(rules.hash(pairs[r].key), rules.sizes[d]) {
        var i :| 0 <= i < |order| && order[i] == r;
        assert es[i] in es;
      }
    }
  }

  lemma {:induction false} FindableKeys(rules: Rules, d: nat, es: Entries)
    requires d < |rules.sizes| && AllFindable(rules, d, es)
    ensures forall x :: x in es ==> rules.sizes[d] > 0 && Agreeing(rules.hash(x.key), rules.sizes[d])
  {
    hide Agreeing;
  }

  lemma {:induction false} Nothing(lists: seq<Entries>)
    requires forall i :: 0 <= i < |lists| ==> lists[i] == []
    ensures Ledger(World(lists, map[], {}), map[])
  {
    NothingJoined(lists);
    forall v: Ref ensures LedgerAt(World(lists, map[], {}), map[], v) {
    }
  }

  lemma {:induction false} NothingJoined(lists: seq<Entries>)
    requires forall i :: 0 <= i < |lists| ==> lists[i] == []
    ensures Joined(lists) == []
  {
    if lists != [] {
      NothingJoined(lists[1..]);
    }
  }
}
