/**
 The binary form of a dictionary, src/dict.c:2090-2441: its length, writing it into
 a buffer and reading it back.
 */
module DictWire {
  import opened Errno
  import opened ByteOrder
  import opened DictEntries

  type Bytes = seq<Byte>
  const INT_MAX: nat := 0x7fff_ffff

  // ----- the format

  function EntryBytes(e: Entry<Bytes>): Bytes
    requires |e.key| <= INT_MAX && |e.value| <= INT_MAX
  {
    BigEndian(|e.key|) + BigEndian(|e.value|) + e.key + [0] + e.value
  }

  /** Keys are C strings, and every length fits an int32. */
  predicate Fits(e: Entry<Bytes>) { |e.key| <= INT_MAX && |e.value| <= INT_MAX && 0 !in e.key }

  ghost predicate AllFit(es: seq<Entry<Bytes>>) { forall i :: 0 <= i < |es| ==> Fits(es[i]) }

  ghost function Body(es: seq<Entry<Bytes>>): Bytes
    requires AllFit(es)
  {
    if es == [] then [] else Body(es[..|es| - 1]) + EntryBytes(es[|es| - 1])
  }

  ghost function Encoded(es: seq<Entry<Bytes>>): Bytes
    requires AllFit(es) && |es| <= INT_MAX
  {
    BigEndian(|es|) + Body(es)
  }

  // ----- values as the serializer sees them

  /** A flat value, a vectored one of which only the lengths matter, or one without data. */
  datatype Value = Flat(bytes: Bytes) | Vectored(lens: seq<nat>) | Hollow(len: int)

  type Members = seq<Entry<Value>>

  function Sum(lens: seq<nat>): nat { if lens == [] then 0 else Sum(lens[..|lens| - 1]) + lens[|lens| - 1] }

  function ValueLength(v: Value): nat {
    match v
    case Flat(b) => |b|
    case Vectored(lens) => Sum(lens)
    case Hollow(n) => if n < 0 then 0 else n
  }

  function Room(list: Members): nat {
    if list == [] then 4 else
    var e := list[|list| - 1];
    Room(list[..|list| - 1]) + 8 + |e.key| + 1 + ValueLength(e.value)
  }

  ghost predicate AllFlat(list: Members) { forall i :: 0 <= i < |list| ==> list[i].value.Flat? }

  ghost predicate CStrings(list: Members) { forall i :: 0 <= i < |list| ==> 0 !in list[i].key }

  function Contents(list: Members): (es: seq<Entry<Bytes>>)
    requires forall i :: 0 <= i < |list| ==> list[i].value.Flat?
    ensures |es| == |list| && forall i :: 0 <= i < |list| ==> es[i] == Entry(list[i].key, list[i].value.bytes)
  {
    seq(|list|, i requires 0 <= i < |list| => Entry(list[i].key, list[i].value.bytes))
  }

  lemma {:induction false} RoomGrows(list: Members, i: nat)
    requires i < |list|
    ensures Room(list[..i + 1]) == Room(list[..i]) + 8 + |list[i].key| + 1 + ValueLength(list[i].value)
    ensures Room(list[..i + 1]) <= Room(list)
  {
    assert list[..i + 1][..i] == list[..i];
    if i + 1 < |list| {
      var rest := list[..|list| - 1];
      assert rest[..i + 1] == list[..i + 1] && rest[..i] == list[..i] && rest[i] == list[i];
      RoomGrows(rest, i);
    } else {
      assert list[..i + 1] == list;
    }
  }

  /** With flat values, the room is the number of bytes that are written. */
  lemma {:induction false} RoomIsLength(list: Members)
    requires AllFlat(list) && CStrings(list) && Room(list) <= INT_MAX
    ensures AllFit(Contents(list)) && |list| <= INT_MAX && |Encoded(Contents(list))| == Room(list)
  {
    hide BigEndian, EntryBytes, Room;
    if list == [] {
      NoRoom();
    } else {
      var n := |list| - 1;
      var rest, es := list[..n], Contents(list);
      LastRoom(list);
      RoomIsLength(rest);
      assert es[..n] == Contents(rest);
      forall i | 0 <= i < |es| ensures Fits(es[i]) {
        assert i < n ==> Fits(Contents(rest)[i]);
      }
      assert Body(es) == Body(Contents(rest)) + EntryBytes(es[n]);
      CountBound(list);
    }
  }

  lemma {:induction false} NoRoom()
    ensures Room([]) == 4
  {
  }

  lemma {:induction false} LastRoom(list: Members)
    requires AllFlat(list) && CStrings(list) && Room(list) <= INT_MAX && list != []
    ensures var e := Contents(list)[|list| - 1];
            && Fits(e) && |EntryBytes(e)| == Room(list) - Room(list[..|list| - 1])
            && Room(list[..|list| - 1]) <= Room(list)
  {
    hide BigEndian;
  }

  lemma {:induction false} CountBound(list: Members)
    ensures |list| <= Room(list)
  {
    if list != [] {
      CountBound(list[..|list| - 1]);
    }
  }

  /** `_dict_serialized_length`; the sum of the lengths fits an int. */
  method SerializedLength(list: Members, count: int) returns (ret: int)
    requires Room(list) <= INT_MAX
    ensures ret ==
            if 0 <= count <= |list| && (forall i :: 0 <= i < count && list[i].value.Hollow? ==> list[i].value.len >= 0)
            then Room(list[..count]) else -EINVAL
  {
    var len := 4;
    if count < 0 {
      return -EINVAL;
    }
    var i := 0;
    while i < count
      invariant 0 <= i <= count && i <= |list| && len == Room(list[..i])
      invariant forall j :: 0 <= j < i ==> list[j].value.Hollow? ==> list[j].value.len >= 0
    {
      if i >= |list| {
        return -EINVAL;
      }
      RoomGrows(list, i);
      len := len + 4 + 4;
      len := len + |list[i].key| + 1;
      match list[i].value {
        case Vectored(lens) =>
          var n := SumUp(lens);
          len := len + n;
        case Flat(b) =>
          len := len + |b|;
        case Hollow(n) =>
          if n < 0 {
            return -EINVAL;
          }
          len := len + n;
      }
      i := i + 1;
    }
    ret := len;
  }

  method SumUp(lens: seq<nat>) returns (n: nat)
    ensures n == Sum(lens)
  {
    n := 0;
    for i := 0 to |lens|
      invariant n == Sum(lens[..i])
    {
      assert lens[..i + 1][..i] == lens[..i];
      n := n + lens[i];
    }
    assert lens[..|lens|] == lens;
  }

  /** A vectored value counts with the lengths of its pieces, one without data with its length field. */
  lemma {:induction false} VectoredRoom(list: Members, key: Bytes, a: seq<nat>, b: seq<nat>, n: nat)
    ensures Room(list + [Entry(key, Vectored(a))]) == Room(list) + 8 + |key| + 1 + Sum(a)
    ensures Room(list + [Entry(key, Hollow(n))]) == Room(list) + 8 + |key| + 1 + n
    ensures Sum(a + b) == Sum(a) + Sum(b) && Sum([n]) == n && Sum([]) == 0
    decreases |b|
  {
    var all, hollow := list + [Entry(key, Vectored(a))], list + [Entry(key, Hollow(n))];
    assert all[..|all| - 1] == list == hollow[..|all| - 1];
    assert [n][..0] == [];
    if b == [] {
      assert a + b == a;
    } else {
      assert (a + b)[..|a + b| - 1] == a + b[..|b| - 1];
      VectoredRoom(list, key, a, b[..|b| - 1], n);
    }
  }

  // ----- writing

  /** `s` with `b` written over it from `at` on. */
  function Patched(s: Bytes, at: nat, b: Bytes): Bytes
    requires at + |b| <= |s|
  {
    s[..at] + b + s[at + |b|..]
  }

  lemma {:induction false} PatchedOn(s: Bytes, a: Bytes, b: Bytes)
    requires |a| + |b| <= |s|
    ensures |Patched(s, 0, a)| == |s| && Patched(Patched(s, 0, a), |a|, b) == Patched(s, 0, a + b)
  {
  }

  method Memcpy(buf: array<Byte>, at: nat, b: Bytes)
    requires at + |b| <= buf.Length
    modifies buf
    ensures buf[..] == Patched(old(buf[..]), at, b)
  {
    for i := 0 to |b|
      invariant forall j :: 0 <= j < buf.Length ==> buf[j] == if at <= j < at + i then b[j - at] else old(buf[j])
    {
      buf[at + i] := b[i];
    }
  }

  /** What `written` and the next piece make: one memcpy at the end of what is there. */
  method Append(buf: array<Byte>, ghost was: Bytes, ghost written: Bytes, at: nat, piece: Bytes)
    requires |was| == buf.Length && at == |written| && at + |piece| <= buf.Length && buf[..] == Patched(was, 0, written)
    modifies buf
    ensures buf[..] == Patched(was, 0, written + piece)
  {
    hide Patched;
    PatchedOn(was, written, piece);
    Memcpy(buf, at, piece);
  }

  lemma {:induction false} BodyGrows(list: Members, i: nat)
    requires i < |list| && AllFlat(list[..i + 1]) && CStrings(list) && Room(list) <= INT_MAX
    ensures AllFlat(list[..i]) && AllFit(Contents(list[..i])) && AllFit(Contents(list[..i + 1]))
    ensures |list[i].key| <= INT_MAX && |list[i].value.bytes| <= INT_MAX
    ensures Body(Contents(list[..i + 1])) ==
            Body(Contents(list[..i])) + EntryBytes(Entry(list[i].key, list[i].value.bytes))
  {
    hide BigEndian, EntryBytes, Room, Encoded;
    var next, now := list[..i + 1], list[..i];
    RoomGrows(list, i);
    assert forall j :: 0 <= j < |now| ==> now[j] == next[j];
    RoomIsLength(next);
    RoomIsLength(now);
    assert Contents(next)[..i] == Contents(now) && Contents(next)[i] == Entry(list[i].key, list[i].value.bytes);
    assert Fits(Contents(next)[i]);
  }

  /** The bytes of the first i members after a count. */
  ghost predicate Upto(list: Members, count: nat, i: nat, written: Bytes) {
    && i <= |list| && count <= INT_MAX && AllFlat(list[..i]) && AllFit(Contents(list[..i]))
    && written == BigEndian(count) + Body(Contents(list[..i]))
    && |written| == Room(list[..i])
  }

  lemma {:induction false} UptoNext(list: Members, count: nat, i: nat, written: Bytes, key: Bytes, value: Bytes)
    requires Upto(list, count, i, written) && i < |list| && CStrings(list) && Room(list) <= INT_MAX
    requires list[i] == Entry(key, Flat(value))
    ensures |key| <= INT_MAX && |value| <= INT_MAX
    ensures Upto(list, count, i + 1, written + BigEndian(|key|) + BigEndian(|value|) + key + [0] + value)
    ensures Room(list[..i + 1]) == Room(list[..i]) + 8 + |key| + 1 + |value| <= Room(list)
  {
    hide Body, Contents;
    RoomGrows(list, i);
    FlatNext(list, i);
    BodyGrows(list, i);
    Regroup(BigEndian(count), Body(Contents(list[..i])), BigEndian(|key|), BigEndian(|value|), key, [0], value);
  }

  lemma {:induction false} FlatNext(list: Members, i: nat)
    requires i < |list| && AllFlat(list[..i]) && list[i].value.Flat?
    ensures AllFlat(list[..i + 1])
  {
    var next := list[..i + 1];
    forall j | 0 <= j < |next| ensures next[j].value.Flat? {
      assert j < i ==> next[j] == list[..i][j];
    }
  }

  lemma {:induction false} Regroup(a: Bytes, b: Bytes, c: Bytes, d: Bytes, e: Bytes, f: Bytes, g: Bytes)
    ensures a + b + c + d + e + f + g == a + (b + (c + d + e + f + g))
  {
  }

  /** `hton32` and the memcpy of the word. */
  function Word(little: bool, x: U32): (b: Bytes)
    ensures |b| == 4
  {
    Store32(little, Hton32(little, x))
  }

  /** `pair->value->len`: bytes, vectors, or whatever a value without data claims. */
  function LenField(v: Value): int {
    match v
    case Flat(b) => |b|
    case Vectored(lens) => |lens|
    case Hollow(n) => n
  }

  /** The field is an int32. */
  predicate Int32(n: int) { -0x8000_0000 <= n <= INT_MAX }

  function Unsigned(n: int): U32
    requires Int32(n)
  {
    if n < 0 then n + 0x1_0000_0000 else n
  }

  /** One pair: both lengths, the key with its terminator, and the value if it is flat. */
  method WriteEntry(little: bool, e: Entry<Value>, buf: array<Byte>, at: nat, ghost was: Bytes, ghost written: Bytes)
    returns (ok: bool, next: nat)
    requires at == |written| <= buf.Length == |was| && buf[..] == Patched(was, 0, written)
    requires at + 8 + |e.key| + 1 + ValueLength(e.value) <= buf.Length && |e.key| <= INT_MAX && Int32(LenField(e.value))
    modifies buf
    ensures ok == e.value.Flat?
    ensures ok ==> next == at + 8 + |e.key| + 1 + |e.value.bytes|
    ensures ok ==> |e.value.bytes| <= INT_MAX
    ensures ok ==>
              buf[..] ==
              Patched(was, 0, written + BigEndian(|e.key|) + BigEndian(|e.value.bytes|) + e.key + [0] + e.value.bytes)
  {
    hide Patched, Hton32, Store32, BigEndian;
    NetworkOrder(little, |e.key|);
    NetworkOrder(little, Unsigned(LenField(e.value)));
    Append(buf, was, written, at, Word(little, |e.key|));
    ghost var w := written + Word(little, |e.key|);
    next := at + 4;
    Append(buf, was, w, next, Word(little, Unsigned(LenField(e.value))));
    w := w + Word(little, Unsigned(LenField(e.value)));
    next := next + 4;
    Append(buf, was, w, next, e.key);
    w := w + e.key;
    next := next + |e.key|;
    Append(buf, was, w, next, [0]);
    w := w + [0];
    next := next + 1;
    if !e.value.Flat? {
      return false, next;
    }
    Append(buf, was, w, next, e.value.bytes);
    next := next + |e.value.bytes|;
    ok := true;
  }

  ghost predicate Int32s(list: Members) { forall i :: 0 <= i < |list| ==> Int32(LenField(list[i].value)) }

  lemma {:induction false} UptoNone(list: Members, count: nat)
    requires count <= INT_MAX
    ensures Upto(list, count, 0, BigEndian(count)) && 4 <= Room(list)
  {
    assert list[..0] == [];
    if list != [] {
      UptoNone(list[..|list| - 1], count);
    }
  }

  lemma {:induction false} UptoAll(list: Members, count: nat, written: Bytes)
    requires Upto(list, count, count, written)
    ensures AllFlat(list[..count]) && AllFit(Contents(list[..count])) && written == Encoded(Contents(list[..count]))
  {
  }

  lemma {:induction false} NotAllFlat(list: Members, i: nat, count: nat)
    requires i < count <= |list| && !list[i].value.Flat?
    ensures !AllFlat(list[..count])
  {
    assert list[..count][i] == list[i];
  }

  /** `_dict_serialize` on a host of either byte order. It succeeds exactly on flat values, and then the
      buffer begins with the encoding and is otherwise untouched. */
  method Serialize(little: bool, list: Members, count: int, buf: array<Byte>) returns (ret: int)
    requires CStrings(list) && Int32s(list) && Int32(count) && Room(list) <= INT_MAX && buf.Length >= Room(list)
    modifies buf
    ensures ret == if 0 <= count <= |list| && AllFlat(list[..count]) then 0 else -1
    ensures ret == 0 ==> AllFit(Contents(list[..count])) && |Encoded(Contents(list[..count]))| <= buf.Length
    ensures ret == 0 ==> buf[..] == Patched(old(buf[..]), 0, Encoded(Contents(list[..count])))
  {
    hide Patched, Contents, Upto, Hton32, Store32, Room, BigEndian, Encoded;
    if count < 0 {
      return -1;
    }
    UptoNone(list, count);
    NetworkOrder(little, count);
    ghost var was, written := buf[..], BigEndian(count);
    Memcpy(buf, 0, Word(little, count));
    var at, i := 4, 0;
    while i < count
      invariant 0 <= i <= count && i <= |list| && Upto(list, count, i, written)
      invariant at == |written| == Room(list[..i]) <= Room(list) && buf[..] == Patched(was, 0, written)
    {
      if i >= |list| {
        return -1;
      }
      RoomGrows(list, i);
      var ok, next := WriteEntry(little, list[i], buf, at, was, written);
      if !ok {
        if count <= |list| {
          NotAllFlat(list, i, count);
        }
        return -1;
      }
      ghost var key, value := list[i].key, list[i].value.bytes;
      UptoNext(list, count, i, written, key, value);
      written := written + BigEndian(|key|) + BigEndian(|value|) + key + [0] + value;
      at := next;
      i := i + 1;
    }
    UptoAll(list, count, written);
    ret := 0;
  }

  // ----- reading

  /** Reading a pair: not enough room for it, a length or a key that leads outside the buffer (what the
      code does from there on is not modelled), or a pair and where the next one starts. */
  datatype Parsed = Short | Wild | Got(e: Entry<Bytes>, next: nat)

  /** memcpy of a word, `ntoh32`, and the conversion to int32_t */
  function WordAt(little: bool, buf: Bytes, at: nat): int
    requires at + 4 <= |buf|
  {
    Signed(Hton32(little, Load32(little, buf[at..at + 4])))
  }

  /** The bytes up to the next terminator, as strlen sees them. */
  function CString(buf: Bytes): (s: Bytes)
    ensures s <= buf && 0 !in s && (|s| < |buf| ==> buf[|s|] == 0)
  {
    if buf == [] || buf[0] == 0 then [] else [buf[0]] + CString(buf[1..])
  }

  /** The two lengths, and as much as they announce, do not go beyond the end of the buffer. */
  ghost predicate Enough(little: bool, buf: Bytes, at: nat) {
    && at + 8 <= |buf|
    && at + 8 + WordAt(little, buf, at) <= |buf|
    && at + 8 + WordAt(little, buf, at) + 1 + WordAt(little, buf, at + 4) <= |buf|
  }

  /** The pair at `at`. */
  ghost function ParseEntry(little: bool, buf: Bytes, at: nat): (p: Parsed)
    ensures p.Got? ==> p.next <= |buf|
  {
    if !Enough(little, buf, at) then Short else
    var keylen, vallen := WordAt(little, buf, at), WordAt(little, buf, at + 4);
    if keylen < 0 || vallen < 0 || 0 !in buf[at + 8..] then Wild else
    var value := at + 8 + keylen + 1;
    Got(Entry(CString(buf[at + 8..]), buf[value..value + vallen]), value + vallen)
  }

  /** The body of the loop of dict_unserialize up to dict_set; `pos` is the source's `buf`. */
  method ReadEntry(little: bool, buf: Bytes, at: nat) returns (p: Parsed)
    ensures p == ParseEntry(little, buf, at)
  {
    hide WordAt;
    var pos := at;
    if pos + 4 > |buf| {
      return Short;
    }
    var keylen := WordAt(little, buf, pos);
    pos := pos + 4;
    if pos + 4 > |buf| {
      return Short;
    }
    var vallen := WordAt(little, buf, pos);
    pos := pos + 4;
    if pos + keylen > |buf| {
      return Short;
    }
    var key := CString(buf[pos..]);
    var value := pos + keylen + 1;
    if value + vallen > |buf| {
      return Short;
    }
    if keylen < 0 || vallen < 0 || |key| == |buf[pos..]| {
      return Wild;
    }
    p := Got(Entry(key, buf[value..value + vallen]), value + vallen);
  }

  /** The whole loop: the pairs that were set, and how it ended. */
  datatype Outcome = Outcome(es: seq<Entry<Bytes>>, end: End)
  datatype End = Complete | TooShort | Astray

  ghost function Parse(little: bool, buf: Bytes, at: nat, n: nat): Outcome
    decreases n
  {
    if n == 0 then Outcome([], Complete) else
    match ParseEntry(little, buf, at)
    case Short => Outcome([], TooShort)
    case Wild => Outcome([], Astray)
    case Got(e, next) => var rest := Parse(little, buf, next, n - 1); Outcome([e] + rest.es, rest.end)
  }

  lemma {:induction false} ParseNone(little: bool, buf: Bytes, at: nat)
    ensures Parse(little, buf, at, 0) == Outcome([], Complete)
  {
  }

  lemma {:induction false} ParseOne(little: bool, buf: Bytes, at: nat, n: nat)
    requires n > 0
    ensures Parse(little, buf, at, n) ==
            match ParseEntry(little, buf, at)
            case Short => Outcome([], TooShort)
            case Wild => Outcome([], Astray)
            case Got(e, next) => Outcome([e] + Parse(little, buf, next, n - 1).es, Parse(little, buf, next, n - 1).end)
  {
    hide ParseEntry;
  }

  /** dict_unserialize with its arguments checked. */
  ghost function Unpack(little: bool, buf: Bytes): Outcome {
    if |buf| < 4 then Outcome([], TooShort) else
    var count := WordAt(little, buf, 0);
    if count < 0 then Outcome([], TooShort) else Parse(little, buf, 4, count)
  }

  /** There is a header, and its count is not negative. */
  predicate HeaderRead(little: bool, buf: Bytes) { |buf| >= 4 && WordAt(little, buf, 0) >= 0 }

  /** dict_unserialize into a dictionary that lists `fill` and counts `|fill|` pairs: once the header is
      read its count is set to zero, and then grows with each new key, so that in the end, however that
      comes about, it is right exactly if the dictionary was empty or the header was refused. */
  method Unserialize(little: bool, buf: Bytes, fill: seq<Entry<Bytes>>)
    returns (ret: int, filled: seq<Entry<Bytes>>, counted: int, astray: bool)
    requires UniqueKeys(fill)
    ensures var o := Unpack(little, buf);
            && filled == PutAll(fill, o.es) && UniqueKeys(filled)
            && astray == o.end.Astray? && (!astray ==> ret == if o.end.Complete? then 0 else -1)
    ensures counted == if HeaderRead(little, buf) then |filled| - |fill| else |fill|
    ensures counted == |filled| <==> fill == [] || !HeaderRead(little, buf)
  {
    hide ParseEntry, WordAt, Put, UniqueKeys;
    filled, astray, counted, ret := fill, false, |fill|, -1;
    if |buf| == 0 || 4 > |buf| {
      return;
    }
    var count := WordAt(little, buf, 0);
    if count < 0 {
      return;
    }
    counted := 0;
    var at, i := 4, 0;
    ghost var es: seq<Entry<Bytes>> := [];
    while i < count
      invariant 0 <= i <= count && filled == PutAll(fill, es) && counted == |filled| - |fill| && UniqueKeys(filled)
      invariant Parse(little, buf, 4, count) ==
                Outcome(es + Parse(little, buf, at, count - i).es, Parse(little, buf, at, count - i).end)
    {
      var p := ReadEntry(little, buf, at);
      if p.Short? {
        assert es + [] == es;
        return;
      }
      if p.Wild? {
        assert es + [] == es;
        astray := true;
        return;
      }
      if !Has(filled, p.e.key) {
        counted := counted + 1;
      }
      PutMap(filled, p.e.key, p.e.value);
      PutUnique(filled, p.e.key, p.e.value);
      filled := Put(filled, p.e.key, p.e.value);
      PutAllStep(fill, es, p.e);
      Shift(es, p.e, Parse(little, buf, p.next, count - i - 1).es);
      es := es + [p.e];
      at := p.next;
      i := i + 1;
    }
    assert es + [] == es;
    ret := 0;
  }

  lemma {:induction false} PutAllStep(fill: seq<Entry<Bytes>>, es: seq<Entry<Bytes>>, e: Entry<Bytes>)
    ensures PutAll(fill, es + [e]) == Put(PutAll(fill, es), e.key, e.value)
  {
    assert (es + [e])[..|es|] == es;
  }

  lemma {:induction false} Shift(a: seq<Entry<Bytes>>, e: Entry<Bytes>, b: seq<Entry<Bytes>>)
    ensures a + ([e] + b) == a + [e] + b
  {
  }

  // ----- round trips

  lemma {:induction false} WordRead(little: bool, buf: Bytes, at: nat, x: nat)
    requires at + 4 <= |buf| && x <= INT_MAX && buf[at..at + 4] == BigEndian(x)
    ensures WordAt(little, buf, at) == x
  {
    hide Hton32, Load32, BigEndian;
    NetworkOrder(little, x);
  }

  lemma {:induction false} CStringRead(key: Bytes, post: Bytes)
    requires 0 !in key
    ensures CString(key + ([0] + post)) == key
  {
    if key != [] {
      CStringRead(key[1..], post);
      assert (key + ([0] + post))[1..] == key[1..] + ([0] + post);
    }
  }

  /** The pieces of a pair, wherever it is. */
  lemma {:induction false} Pieces(pre: Bytes, e: Entry<Bytes>, post: Bytes)
    requires Fits(e)
    ensures var buf := pre + EntryBytes(e) + post; var at := |pre|; var k := |e.key|; var v := |e.value|;
            && |EntryBytes(e)| == 8 + k + 1 + v && |buf| == at + 8 + k + 1 + v + |post|
            && buf[at..at + 4] == BigEndian(k) && buf[at + 4..at + 8] == BigEndian(v)
            && buf[at + 8..] == e.key + ([0] + (e.value + post))
            && buf[at + 8 + k + 1..at + 8 + k + 1 + v] == e.value
  {
    hide BigEndian;
    var buf := pre + EntryBytes(e) + post;
    assert buf == pre + (BigEndian(|e.key|) + (BigEndian(|e.value|) + (e.key + ([0] + (e.value + post)))));
  }

  lemma {:induction false} EntryRead(little: bool, pre: Bytes, e: Entry<Bytes>, post: Bytes)
    requires Fits(e)
    ensures ParseEntry(little, pre + EntryBytes(e) + post, |pre|) == Got(e, |pre| + |EntryBytes(e)|)
  {
    hide WordAt, BigEndian, EntryBytes, CString;
    var buf := pre + EntryBytes(e) + post;
    Pieces(pre, e, post);
    WordRead(little, buf, |pre|, |e.key|);
    WordRead(little, buf, |pre| + 4, |e.value|);
    CStringRead(e.key, e.value + post);
    assert buf[|pre| + 8..][|e.key|] == 0;
  }

  /** A pair that is cut off is not taken for a shorter one. */
  lemma {:induction false} EntryCut(little: bool, pre: Bytes, e: Entry<Bytes>, m: nat)
    requires Fits(e) && m < |EntryBytes(e)|
    ensures ParseEntry(little, pre + EntryBytes(e)[..m], |pre|) == Short
  {
    hide WordAt, BigEndian, EntryBytes, CString;
    var buf, all := pre + EntryBytes(e)[..m], pre + EntryBytes(e) + [];
    assert all == pre + EntryBytes(e) && buf == all[..|pre| + m];
    Pieces(pre, e, []);
    if m >= 4 {
      assert buf[|pre|..|pre| + 4] == all[|pre|..|pre| + 4];
      WordRead(little, buf, |pre|, |e.key|);
    }
    if m >= 8 {
      assert buf[|pre| + 4..|pre| + 8] == all[|pre| + 4..|pre| + 8];
      WordRead(little, buf, |pre| + 4, |e.value|);
    }
  }

  lemma {:induction false} BodyFirst(es: seq<Entry<Bytes>>)
    requires AllFit(es) && es != []
    ensures Fits(es[0]) && AllFit(es[1..]) && Body(es) == EntryBytes(es[0]) + Body(es[1..])
  {
    hide EntryBytes;
    var init := es[..|es| - 1];
    if init != [] {
      BodyFirst(init);
      assert init[1..] == es[1..][..|es| - 2] && es[1..][|es| - 2] == es[|es| - 1];
    } else {
      assert es[1..] == [] && Body(init) == [];
      assert [] + EntryBytes(es[0]) == EntryBytes(es[0]) + [];
    }
  }

  lemma {:induction false} BodySplit(es: seq<Entry<Bytes>>, i: nat)
    requires AllFit(es) && i <= |es|
    ensures AllFit(es[..i]) && AllFit(es[i..]) && Body(es) == Body(es[..i]) + Body(es[i..])
    decreases |es|
  {
    hide EntryBytes;
    if i == |es| {
      assert es[..i] == es && es[i..] == [];
    } else {
      var n := |es| - 1;
      BodySplit(es[..n], i);
      assert es[..n][..i] == es[..i] && es[i..][..n - i] == es[..n][i..] && es[i..][n - i] == es[n];
      assert Body(es[i..]) == Body(es[..n][i..]) + EntryBytes(es[n]);
    }
  }

  /** The encoding around its i-th pair. */
  lemma {:induction false} AroundPair(es: seq<Entry<Bytes>>, i: nat)
    requires AllFit(es) && i < |es| <= INT_MAX
    ensures AllFit(es[..i]) && AllFit(es[..i + 1]) && AllFit(es[i + 1..]) && Fits(es[i])
    ensures Encoded(es) == BigEndian(|es|) + Body(es[..i]) + EntryBytes(es[i]) + Body(es[i + 1..])
    ensures Body(es[..i + 1]) == Body(es[..i]) + EntryBytes(es[i])
  {
    hide BigEndian, EntryBytes, Fits;
    BodySplit(es, i + 1);
    assert es[..i + 1][..i] == es[..i] && es[..i + 1][i] == es[i];
    assert es[..i] == es[..i + 1][..i] && es[i] in es;
  }

  /** The binary form, byte by byte: the count, and behind the first i pairs the two lengths of the next one,
      its key with a null byte, and its value. */
  lemma {:induction false} EncodedLayout(es: seq<Entry<Bytes>>, i: nat)
    requires AllFit(es) && i < |es| <= INT_MAX
    ensures AllFit(es[..i]) && AllFit(es[..i + 1])
    ensures var b := Encoded(es); var at := |Encoded(es[..i])|; var k := |es[i].key|; var v := |es[i].value|;
            && |Encoded([])| == 4 && |Encoded(es[..i + 1])| == at + 8 + k + 1 + v <= |b|
            && b[..4] == BigEndian(|es|) && b[at..at + 4] == BigEndian(k) && b[at + 4..at + 8] == BigEndian(v)
            && b[at + 8..at + 8 + k] == es[i].key && b[at + 8 + k] == 0
            && b[at + 8 + k + 1..at + 8 + k + 1 + v] == es[i].value
  {
    hide BigEndian, EntryBytes, AllFit, Body;
    AroundPair(es, i);
    var pre, post := BigEndian(|es|) + Body(es[..i]), Body(es[i + 1..]);
    Pieces(pre, es[i], post);
    NoBody();
    KeyIn(Encoded(es), |pre| + 8, es[i].key, es[i].value + post);
  }

  lemma {:induction false} NoBody()
    ensures AllFit([]) && Body([]) == []
  {
  }

  lemma {:induction false} KeyIn(b: Bytes, at: nat, key: Bytes, rest: Bytes)
    requires at <= |b| && b[at..] == key + ([0] + rest)
    ensures at + |key| < |b| && b[at..at + |key|] == key && b[at + |key|] == 0
  {
    assert b[at..at + |key|] == b[at..][..|key|] && b[at + |key|] == b[at..][|key|];
  }

  lemma {:induction false} BodyRead(little: bool, pre: Bytes, es: seq<Entry<Bytes>>, post: Bytes)
    requires AllFit(es)
    ensures Parse(little, pre + Body(es) + post, |pre|, |es|) == Outcome(es, Complete)
    decreases |es|
  {
    hide ParseEntry, EntryBytes, AllFit, Body;
    if es != [] {
      BodyFirst(es);
      var first, rest := EntryBytes(es[0]), Body(es[1..]);
      Reassoc(pre, first, rest, post);
      EntryRead(little, pre, es[0], rest + post);
      BodyRead(little, pre + first, es[1..], post);
      assert [es[0]] + es[1..] == es;
    }
  }

  lemma {:induction false} Reassoc(a: Bytes, b: Bytes, c: Bytes, d: Bytes)
    ensures a + (b + c) + d == a + b + (c + d) == (a + b) + c + d
    ensures |a + b| == |a| + |b|
  {
  }

  lemma {:induction false} BodyCut(little: bool, pre: Bytes, es: seq<Entry<Bytes>>, m: nat)
    requires AllFit(es) && m < |Body(es)|
    ensures Parse(little, pre + Body(es)[..m], |pre|, |es|).end == TooShort
    decreases |es|
  {
    hide ParseEntry, EntryBytes, AllFit;
    BodyFirst(es);
    var first, rest := EntryBytes(es[0]), Body(es[1..]);
    if m < |first| {
      assert (first + rest)[..m] == first[..m];
      EntryCut(little, pre, es[0], m);
    } else {
      var k := m - |first|;
      assert (first + rest)[..m] == first + rest[..k];
      Reassoc(pre, first, rest[..k], []);
      assert pre + (first + rest[..k]) == pre + first + rest[..k];
      EntryRead(little, pre, es[0], rest[..k]);
      BodyCut(little, pre + first, es[1..], k);
    }
  }

  /** Reading what was written, on a host of either byte order, sets exactly the entries, in order. */
  lemma {:induction false} Unpacked(little: bool, es: seq<Entry<Bytes>>)
    requires AllFit(es) && |es| <= INT_MAX
    ensures Unpack(little, Encoded(es)) == Outcome(es, Complete)
  {
    hide WordAt, BigEndian, Body, Parse;
    var buf := Encoded(es);
    assert buf[0..4] == BigEndian(|es|);
    WordRead(little, buf, 0, |es|);
    BodyRead(little, BigEndian(|es|), es, []);
    assert BigEndian(|es|) + Body(es) + [] == buf;
  }

  /** Into an empty dictionary: the same map, listed in the opposite order. Writing that and reading it
      once more gives back the list, so the bytes too. */
  lemma {:induction false} RoundTrip(little: bool, es: seq<Entry<Bytes>>)
    requires AllFit(es) && |es| <= INT_MAX && UniqueKeys(es)
    ensures var back := PutAll([], Unpack(little, Encoded(es)).es);
            && back == Reversed(es) && AsMap(back) == AsMap(es) && AllFit(back)
            && var again := PutAll([], Unpack(little, Encoded(back)).es);
            again == es && AllFit(again) && Encoded(again) == Encoded(es)
  {
    hide Encoded, Unpack, PutAll, AsMap;
    Unpacked(little, es);
    PutAllReversed(es);
    ReversedTwice(es);
    PutAllMap([], es);
    EmptyUnion(es);
    Unpacked(little, Reversed(es));
    PutAllReversed(Reversed(es));
  }

  lemma {:induction false} EmptyUnion(es: seq<Entry<Bytes>>)
    ensures AsMap<Bytes>([]) + AsMap(es) == AsMap(es)
  {
  }

  /** Every proper prefix of an encoding is refused. */
  lemma {:induction false} Truncated(little: bool, es: seq<Entry<Bytes>>, n: nat)
    requires AllFit(es) && |es| <= INT_MAX && n < |Encoded(es)|
    ensures Unpack(little, Encoded(es)[..n]).end == TooShort
  {
    hide WordAt, BigEndian, Body, Parse;
    var buf := Encoded(es)[..n];
    if n >= 4 {
      assert buf[0..4] == BigEndian(|es|);
      WordRead(little, buf, 0, |es|);
      assert buf == BigEndian(|es|) + Body(es)[..n - 4];
      BodyCut(little, BigEndian(|es|), es, n - 4);
    }
  }
}
