/**
 The links of src/dict.c: pairs threaded on a singly linked hash chain and on the
 doubly linked member list, and what linking a pair in and out does to both.
 */
module DictStore {
  import opened Lists
  import opened DictEntries

  type Ref = nat
  const NULL: Ref := 0

  /** `struct _data_pair` */
  datatype Pair = Pair(key: Key, value: Ref, hashNext: Ref, prev: Ref, next: Ref)

  type Store = map<Ref, Pair>

  function After(c: seq<Ref>, i: int): Ref { if 0 <= i + 1 < |c| then c[i + 1] else NULL }

  function Before(c: seq<Ref>, i: int): Ref { if 0 <= i - 1 < |c| then c[i - 1] else NULL }

  ghost predicate In(pairs: Store, c: seq<Ref>) { forall i :: 0 <= i < |c| ==> c[i] in pairs && c[i] != NULL }

  /** `head` starts a chain of `hash_next` links through exactly `c`. */
  ghost predicate Chain(pairs: Store, head: Ref, c: seq<Ref>) {
    && In(pairs, c) && NoDup(c) && head == After(c, -1)
    && forall i :: 0 <= i < |c| ==> pairs[c[i]].hashNext == After(c, i)
  }

  /** `head` starts a list of `next` and `prev` links through exactly `c`. */
  ghost predicate Members(pairs: Store, head: Ref, c: seq<Ref>) {
    && In(pairs, c) && NoDup(c) && head == After(c, -1)
    && forall i :: 0 <= i < |c| ==> pairs[c[i]].next == After(c, i) && pairs[c[i]].prev == Before(c, i)
  }

  /** The chain of slot `b` holds pairs whose keys belong there, and all of them. */
  ghost predicate Slotted(pairs: Store, c: seq<Ref>, slot: Key -> nat, b: nat) {
    && In(pairs, c)
    && (forall i :: 0 <= i < |c| ==> slot(pairs[c[i]].key) == b)
    && (forall r :: r in pairs && slot(pairs[r].key) == b ==> r in c)
  }

  function Listed(pairs: Store, c: seq<Ref>): (es: seq<Entry<Ref>>)
    requires forall i :: 0 <= i < |c| ==> c[i] in pairs
    ensures |es| == |c| && forall i :: 0 <= i < |c| ==> es[i] == Entry(pairs[c[i]].key, pairs[c[i]].value)
  {
    seq(|c|, i requires 0 <= i < |c| => Entry(pairs[c[i]].key, pairs[c[i]].value))
  }

  /** Every pair is on the member list. */
  ghost predicate Complete(pairs: Store, c: seq<Ref>) { forall r :: r in pairs ==> r in c }

  // ----- the value of a pair changes

  function Revalued(pairs: Store, r: Ref, v: Ref): Store
    requires r in pairs
  {
    pairs[r := pairs[r].(value := v)]
  }

  lemma {:induction false} RevaluedLinks(pairs: Store, r: Ref, v: Ref, head: Ref, c: seq<Ref>, slot: Key -> nat, b: nat)
    requires r in pairs
    ensures Chain(pairs, head, c) ==> Chain(Revalued(pairs, r, v), head, c)
    ensures Members(pairs, head, c) ==> Members(Revalued(pairs, r, v), head, c)
    ensures Slotted(pairs, c, slot, b) ==> Slotted(Revalued(pairs, r, v), c, slot, b)
  {
  }

  lemma {:induction false} RevaluedEntries(pairs: Store, order: seq<Ref>, i: nat, v: Ref)
    requires In(pairs, order) && NoDup(order) && i < |order| && UniqueKeys(Listed(pairs, order))
    ensures Listed(Revalued(pairs, order[i], v), order) == Put(Listed(pairs, order), pairs[order[i]].key, v)
    ensures Has(Listed(pairs, order), pairs[order[i]].key)
    ensures Pos(Listed(pairs, order), pairs[order[i]].key) == i
  {
    PosOf(Listed(pairs, order), pairs[order[i]].key, i);
  }

  // ----- a new pair goes to the front of both

  /** The new pair is stored, and the old front of the member list points back at it. */
  function Linked(pairs: Store, r: Ref, k: Key, v: Ref, hashHead: Ref, head: Ref): Store {
    var pairs' := pairs[r := Pair(k, v, hashHead, NULL, head)];
    if head in pairs then pairs'[head := pairs[head].(prev := r)] else pairs'
  }

  lemma {:induction false} LinkedMembers(pairs: Store, r: Ref, k: Key, v: Ref, hashHead: Ref, head: Ref, c: seq<Ref>)
    requires Members(pairs, head, c) && r !in pairs && r != NULL && NULL !in pairs
    ensures Members(Linked(pairs, r, k, v, hashHead, head), r, [r] + c)
  {
    var c', pairs' := [r] + c, Linked(pairs, r, k, v, hashHead, head);
    assert r !in c;
    PrependProps(c, r);
    forall i | 0 <= i < |c'|
      ensures c'[i] in pairs' && c'[i] != NULL
      ensures pairs'[c'[i]].next == After(c', i) && pairs'[c'[i]].prev == Before(c', i)
    {
      if i > 0 {
        assert c'[i] == c[i - 1] && After(c', i) == After(c, i - 1);
        assert i > 1 ==> c[i - 1] != c[0];
      }
    }
  }

  lemma {:induction false} LinkedEntries(pairs: Store, r: Ref, k: Key, v: Ref, hashHead: Ref, head: Ref,
                                         order: seq<Ref>)
    requires In(pairs, order) && r !in pairs && r != NULL && NULL !in pairs
    requires forall i :: 0 <= i < |order| ==> pairs[order[i]].key != k
    ensures In(Linked(pairs, r, k, v, hashHead, head), [r] + order)
    ensures Listed(Linked(pairs, r, k, v, hashHead, head), [r] + order) == Put(Listed(pairs, order), k, v)
    ensures !Has(Listed(pairs, order), k)
  {
    PosNone(Listed(pairs, order), k);
  }

  lemma {:induction false} LinkedField(pairs: Store, r: Ref, k: Key, v: Ref, hashHead: Ref, head: Ref, x: Ref)
    requires head != r && r !in pairs
    ensures x in Linked(pairs, r, k, v, hashHead, head) <==> x == r || x in pairs
    ensures var pairs' := Linked(pairs, r, k, v, hashHead, head);
            && (x == r ==> pairs'[x].key == k && pairs'[x].hashNext == hashHead)
            && (x in pairs ==> pairs'[x].key == pairs[x].key && pairs'[x].hashNext == pairs[x].hashNext)
  {
  }

  lemma {:induction false} AfterPrepend(c: seq<Ref>, r: Ref, i: nat)
    requires i < |c| + 1
    ensures After([r] + c, i) == After(c, i - 1) && After([r] + c, -1) == r
    ensures ([r] + c)[i] == if i == 0 then r else c[i - 1]
  {
  }

  lemma {:induction false} LinkedChain(pairs: Store, r: Ref, k: Key, v: Ref, hashHead: Ref, head: Ref, c: seq<Ref>,
                                       slot: Key -> nat)
    requires Chain(pairs, hashHead, c) && Slotted(pairs, c, slot, slot(k)) && r !in pairs && r != NULL && head != r
    ensures Chain(Linked(pairs, r, k, v, hashHead, head), r, [r] + c)
    ensures Slotted(Linked(pairs, r, k, v, hashHead, head), [r] + c, slot, slot(k))
  {
    hide NoDup, Linked, After;
    assert r !in c;
    PrependProps(c, r);
    AfterPrepend(c, r, 0);
    var c', pairs' := [r] + c, Linked(pairs, r, k, v, hashHead, head);
    forall i | 0 <= i < |c'|
      ensures c'[i] in pairs' && c'[i] != NULL && pairs'[c'[i]].hashNext == After(c', i)
      ensures slot(pairs'[c'[i]].key) == slot(k)
    {
      LinkedLink(pairs, r, k, v, hashHead, head, c, slot, i);
    }
    forall x | x in pairs' && slot(pairs'[x].key) == slot(k) ensures x in c' {
      LinkedField(pairs, r, k, v, hashHead, head, x);
    }
  }

  lemma {:induction false} LinkedLink(pairs: Store, r: Ref, k: Key, v: Ref, hashHead: Ref, head: Ref, c: seq<Ref>,
                                      slot: Key -> nat, i: nat)
    requires Chain(pairs, hashHead, c) && Slotted(pairs, c, slot, slot(k)) && r !in pairs && r != NULL && head != r
    requires i < |[r] + c|
    ensures var c' := [r] + c; var pairs' := Linked(pairs, r, k, v, hashHead, head);
            && c'[i] in pairs' && c'[i] != NULL && pairs'[c'[i]].hashNext == After(c', i)
            && slot(pairs'[c'[i]].key) == slot(k)
  {
    hide NoDup, Linked, After;
    AfterPrepend(c, r, i);
    LinkedField(pairs, r, k, v, hashHead, head, ([r] + c)[i]);
  }

  lemma {:induction false} LinkedOther(pairs: Store, r: Ref, k: Key, v: Ref, hashHead: Ref, head: Ref, h: Ref,
                                       c: seq<Ref>,
                                       slot: Key -> nat, b: nat)
    requires Chain(pairs, h, c) && Slotted(pairs, c, slot, b) && r !in pairs && r != NULL && head != r && slot(k) != b
    ensures Chain(Linked(pairs, r, k, v, hashHead, head), h, c)
    ensures Slotted(Linked(pairs, r, k, v, hashHead, head), c, slot, b)
  {
    assert r !in c;
  }

  // ----- a pair is taken out of both

  function Cut(c: seq<Ref>, i: nat): seq<Ref>
    requires i < |c|
  {
    c[..i] + c[i + 1..]
  }

  function Skip(i: nat, j: nat): nat { if j < i then j else j + 1 }

  lemma {:induction false} CutProps(c: seq<Ref>, i: nat)
    requires i < |c| && NoDup(c)
    ensures NoDup(Cut(c, i)) && forall r :: r in Cut(c, i) <==> r in c && r != c[i]
  {
    forall r | r in c && r != c[i] ensures r in Cut(c, i) {
      var j :| 0 <= j < |c| && c[j] == r;
      assert Cut(c, i)[if j < i then j else j - 1] == r;
    }
  }

  lemma {:induction false} CutLength(c: seq<Ref>, i: nat)
    requires i < |c|
    ensures |Cut(c, i)| == |c| - 1
    ensures After(Cut(c, i), -1) == if i == 0 then After(c, 0) else After(c, -1)
  {
  }

  /** The neighbours in the shorter list, in terms of the longer one. */
  lemma {:induction false} CutAt(c: seq<Ref>, i: nat, j: nat)
    requires i < |c| && j < |Cut(c, i)|
    ensures Skip(i, j) < |c| && Skip(i, j) != i && Cut(c, i)[j] == c[Skip(i, j)]
    ensures After(Cut(c, i), j) == if Skip(i, j) + 1 == i then After(c, i) else After(c, Skip(i, j))
    ensures Before(Cut(c, i), j) == if Skip(i, j) == i + 1 then Before(c, i) else Before(c, Skip(i, j))
  {
  }

  /** What the links of the pair before the one removed become; pairs at NULL do not exist. */
  function Bridged(pairs: Store, chainPrev: Ref, r: Ref): Store
    requires r in pairs
  {
    if chainPrev in pairs then pairs[chainPrev := pairs[chainPrev].(hashNext := pairs[r].hashNext)] else pairs
  }

  function PrevFixed(pairs: Store, r: Ref): Store
    requires r in pairs
  {
    var p := pairs[r].prev;
    if p in pairs then pairs[p := pairs[p].(next := pairs[r].next)] else pairs
  }

  function NextFixed(pairs: Store, r: Ref): Store
    requires r in pairs
  {
    var n := pairs[r].next;
    if n in pairs then pairs[n := pairs[n].(prev := pairs[r].prev)] else pairs
  }

  function Freed(pairs: Store, r: Ref): Store { pairs - {r} }

  function Unlinked(pairs: Store, chainPrev: Ref, r: Ref): Store
    requires r in pairs
  {
    Freed(NextFixed(PrevFixed(Bridged(pairs, chainPrev, r), r), r), r)
  }

  /** The neighbours of the pair that goes are other pairs, or none. */
  ghost predicate Loose(pairs: Store, chainPrev: Ref, r: Ref) {
    r in pairs && NULL !in pairs && chainPrev != r && pairs[r].prev != r && pairs[r].next != r
  }

  lemma {:induction false} UnlinkedKeys(pairs: Store, chainPrev: Ref, r: Ref)
    requires Loose(pairs, chainPrev, r)
    ensures forall x :: x in Unlinked(pairs, chainPrev, r) <==> x in pairs && x != r
  {
  }

  /** Field by field: only the neighbours change, each in one link. */
  lemma {:induction false} UnlinkedField(pairs: Store, chainPrev: Ref, r: Ref, x: Ref)
    requires Loose(pairs, chainPrev, r) && x in pairs && x != r
    ensures x in Unlinked(pairs, chainPrev, r)
    ensures Unlinked(pairs, chainPrev, r)[x] ==
            Pair(pairs[x].key, pairs[x].value,
                 if x == chainPrev then pairs[r].hashNext else pairs[x].hashNext,
                 if x == pairs[r].next then pairs[r].prev else pairs[x].prev,
                 if x == pairs[r].prev then pairs[r].next else pairs[x].next)
  {
  }

  lemma {:induction false} Neighbours(pairs: Store, head: Ref, c: seq<Ref>, i: nat)
    requires Members(pairs, head, c) && i < |c| && NULL !in pairs
    ensures c[i] in pairs && pairs[c[i]].prev == Before(c, i) && pairs[c[i]].next == After(c, i)
    ensures pairs[c[i]].prev != c[i] && pairs[c[i]].next != c[i]
  {
  }

  /** In a list without repetition a neighbour is recognised by its reference. */
  lemma {:induction false} WhoIsWho(c: seq<Ref>, i: nat, o: nat)
    requires NoDup(c) && i < |c| && o < |c| && i != o && c[o] != NULL
    ensures c[o] == Before(c, i) <==> o + 1 == i
    ensures c[o] == After(c, i) <==> o == i + 1
    ensures c[o] != c[i]
  {
  }

  lemma {:induction false} UnlinkedMember(pairs: Store, chainPrev: Ref, head: Ref, c: seq<Ref>, i: nat, j: nat)
    requires Members(pairs, head, c) && i < |c| && Loose(pairs, chainPrev, c[i]) && j < |Cut(c, i)|
    ensures var c' := Cut(c, i); var pairs' := Unlinked(pairs, chainPrev, c[i]);
            && c'[j] in pairs' && c'[j] != NULL
            && pairs'[c'[j]].next == After(c', j) && pairs'[c'[j]].prev == Before(c', j)
            && Skip(i, j) < |c| && c'[j] == c[Skip(i, j)]
            && pairs'[c'[j]].key == pairs[c[Skip(i, j)]].key && pairs'[c'[j]].value == pairs[c[Skip(i, j)]].value
  {
    hide Unlinked, Cut, NoDup, After, Before, Skip;
    CutAt(c, i, j);
    var o := Skip(i, j);
    WhoIsWho(c, i, o);
    UnlinkedField(pairs, chainPrev, c[i], c[o]);
  }

  lemma {:induction false} UnlinkedMembers(pairs: Store, chainPrev: Ref, head: Ref, c: seq<Ref>, i: nat)
    requires Members(pairs, head, c) && i < |c| && Loose(pairs, chainPrev, c[i])
    ensures Members(Unlinked(pairs, chainPrev, c[i]), if i == 0 then pairs[c[i]].next else head, Cut(c, i))
  {
    hide Unlinked, Cut, NoDup, After, Before, Skip;
    var c', pairs' := Cut(c, i), Unlinked(pairs, chainPrev, c[i]);
    CutProps(c, i);
    CutLength(c, i);
    forall j | 0 <= j < |c'|
      ensures c'[j] in pairs' && c'[j] != NULL
      ensures pairs'[c'[j]].next == After(c', j) && pairs'[c'[j]].prev == Before(c', j)
    {
      UnlinkedMember(pairs, chainPrev, head, c, i, j);
    }
  }

  lemma {:induction false} RemoveAt(es: seq<Entry<Ref>>, i: nat)
    requires UniqueKeys(es) && i < |es|
    ensures Has(es, es[i].key) && Pos(es, es[i].key) == i && |Remove(es, es[i].key)| == |es| - 1
    ensures forall j :: 0 <= j < |es| - 1 ==> Remove(es, es[i].key)[j] == es[Skip(i, j)]
  {
    PosOf(es, es[i].key, i);
  }

  lemma {:induction false} UnlinkedEntries(pairs: Store, chainPrev: Ref, head: Ref, c: seq<Ref>, i: nat)
    requires Members(pairs, head, c) && i < |c| && Loose(pairs, chainPrev, c[i])
    requires UniqueKeys(Listed(pairs, c))
    ensures In(Unlinked(pairs, chainPrev, c[i]), Cut(c, i))
    ensures Listed(Unlinked(pairs, chainPrev, c[i]), Cut(c, i)) == Remove(Listed(pairs, c), pairs[c[i]].key)
    ensures Has(Listed(pairs, c), pairs[c[i]].key) && Pos(Listed(pairs, c), pairs[c[i]].key) == i
  {
    hide Unlinked, Cut, NoDup, After, Before, Skip, UniqueKeys, Remove, Has, Pos;
    var es, c', pairs' := Listed(pairs, c), Cut(c, i), Unlinked(pairs, chainPrev, c[i]);
    CutLength(c, i);
    RemoveAt(es, i);
    forall j | 0 <= j < |c'| ensures c'[j] in pairs' && c'[j] != NULL {
      UnlinkedMember(pairs, chainPrev, head, c, i, j);
    }
    var es' := Listed(pairs', c');
    forall j | 0 <= j < |c'| ensures es'[j] == Remove(es, es[i].key)[j] {
      UnlinkedMember(pairs, chainPrev, head, c, i, j);
    }
  }

  lemma {:induction false} UnlinkedLink(pairs: Store, head: Ref, c: seq<Ref>, i: nat, j: nat)
    requires Chain(pairs, head, c) && i < |c| && Loose(pairs, Before(c, i), c[i]) && j < |Cut(c, i)|
    ensures var c' := Cut(c, i); var pairs' := Unlinked(pairs, Before(c, i), c[i]);
            && c'[j] in pairs' && c'[j] != NULL && pairs'[c'[j]].hashNext == After(c', j)
            && Skip(i, j) < |c| && c'[j] == c[Skip(i, j)] && pairs'[c'[j]].key == pairs[c[Skip(i, j)]].key
  {
    hide Unlinked, Cut, NoDup, After, Before, Skip;
    CutAt(c, i, j);
    var o := Skip(i, j);
    WhoIsWho(c, i, o);
    UnlinkedField(pairs, Before(c, i), c[i], c[o]);
  }

  lemma {:induction false} UnlinkedChain(pairs: Store, head: Ref, c: seq<Ref>, i: nat)
    requires Chain(pairs, head, c) && i < |c| && Loose(pairs, Before(c, i), c[i])
    ensures Chain(Unlinked(pairs, Before(c, i), c[i]), if i == 0 then pairs[c[i]].hashNext else head, Cut(c, i))
  {
    hide Unlinked, Cut, NoDup, After, Before, Skip;
    var c', pairs' := Cut(c, i), Unlinked(pairs, Before(c, i), c[i]);
    CutProps(c, i);
    CutLength(c, i);
    forall j | 0 <= j < |c'| ensures c'[j] in pairs' && c'[j] != NULL && pairs'[c'[j]].hashNext == After(c', j) {
      UnlinkedLink(pairs, head, c, i, j);
    }
  }

  lemma {:induction false} UnlinkedSlotted(pairs: Store, head: Ref, c: seq<Ref>, i: nat, slot: Key -> nat, b: nat)
    requires Chain(pairs, head, c) && Slotted(pairs, c, slot, b) && i < |c| && Loose(pairs, Before(c, i), c[i])
    ensures Slotted(Unlinked(pairs, Before(c, i), c[i]), Cut(c, i), slot, b)
  {
    hide Unlinked, Cut, After, Before, Skip, Chain, NoDup;
    var c', pairs' := Cut(c, i), Unlinked(pairs, Before(c, i), c[i]);
    forall j | 0 <= j < |c'| ensures c'[j] in pairs' && c'[j] != NULL && slot(pairs'[c'[j]].key) == b {
      UnlinkedLink(pairs, head, c, i, j);
    }
    forall r | r in pairs' && slot(pairs'[r].key) == b ensures r in c' {
      UnlinkedKeys(pairs, Before(c, i), c[i]);
      UnlinkedField(pairs, Before(c, i), c[i], r);
      Repeats(pairs, head, c);
      CutProps(c, i);
    }
  }

  lemma {:induction false} Repeats(pairs: Store, head: Ref, c: seq<Ref>)
    requires Chain(pairs, head, c)
    ensures NoDup(c)
  {
  }

  lemma {:induction false} UnlinkedOther(pairs: Store, chainPrev: Ref, r: Ref, head: Ref, c: seq<Ref>, slot: Key -> nat,
                                         b: nat)
    requires Chain(pairs, head, c) && Slotted(pairs, c, slot, b) && Loose(pairs, chainPrev, r)
    requires slot(pairs[r].key) != b
    requires chainPrev in pairs ==> slot(pairs[chainPrev].key) != b
    ensures Chain(Unlinked(pairs, chainPrev, r), head, c)
    ensures Slotted(Unlinked(pairs, chainPrev, r), c, slot, b)
  {
    hide Unlinked;
    UnlinkedKeys(pairs, chainPrev, r);
    forall x | x in pairs && x != r
      ensures x in Unlinked(pairs, chainPrev, r) && Unlinked(pairs, chainPrev, r)[x].key == pairs[x].key
      ensures Unlinked(pairs, chainPrev, r)[x].hashNext ==
              if x == chainPrev then pairs[r].hashNext else pairs[x].hashNext
    {
      UnlinkedField(pairs, chainPrev, r, x);
    }
  }
}
