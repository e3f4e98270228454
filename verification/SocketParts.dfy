/**
 The two ends of a transport as values: queue entries on the sending side, the
 `incoming` record on the receiving side, and what each says about the stream.
 */
module SocketParts {
  import opened Options
  import opened ByteOrder
  import opened Iovec
  import opened Framing

  // ---------------------------------------------------------------- memory under a vector

  ghost predicate Within(cells: seq<nat>, n: nat) { forall i :: 0 <= i < |cells| ==> cells[i] < n }

  /** The bytes a `writev` sends from the given addresses. */
  function Gather(mem: seq<Byte>, cells: seq<nat>): (r: seq<Byte>)
    requires Within(cells, |mem|)
    ensures |r| == |cells| && forall i :: 0 <= i < |r| ==> r[i] == mem[cells[i]]
  {
    if cells == [] then [] else [mem[cells[0]]] + Gather(mem, cells[1..])
  }

  /** The memory after a `readv` has stored `bytes` at the given addresses. */
  function Scatter(mem: seq<Byte>, cells: seq<nat>, bytes: seq<Byte>): (r: seq<Byte>)
    requires |bytes| <= |cells| && Within(cells, |mem|)
    ensures |r| == |mem|
    decreases |bytes|
  {
    if bytes == [] then mem else Scatter(mem[cells[0] := bytes[0]], cells[1..], bytes[1..])
  }

  lemma {:induction false} GatherRange(mem: seq<Byte>, from: nat, to: nat)
    requires from <= to <= |mem|
    ensures Gather(mem, Range(from, to)) == mem[from..to]
  {
  }

  lemma {:induction false} ScatterRange(mem: seq<Byte>, from: nat, to: nat, bytes: seq<Byte>)
    requires from <= to <= |mem| && |bytes| <= to - from
    ensures Scatter(mem, Range(from, to), bytes)[..from + |bytes|] == mem[..from] + bytes
    decreases |bytes|
  {
    if bytes == [] {
      assert mem[..from] + [] == mem[..from];
    } else {
      var mem' := mem[from := bytes[0]];
      assert Range(from, to)[1..] == Range(from + 1, to);
      ScatterRange(mem', from + 1, to, bytes[1..]);
      assert mem'[..from + 1] + bytes[1..] == mem[..from] + bytes;
    }
  }

  // ---------------------------------------------------------------- sending side

  /** `struct ioq`: the frame in memory, the part of it still to be written, and its count. */
  datatype Entry = Entry(frame: seq<Byte>, pending: seq<Iov>, count: int)

  /** What is left of the frame. */
  function Rest(e: Entry): seq<Byte>
    requires |Cells(e.pending)| <= |e.frame|
  {
    e.frame[|e.frame| - |Cells(e.pending)|..]
  }

  ghost predicate EntryOk(e: Entry) {
    && |Cells(e.pending)| <= |e.frame|
    && Cells(e.pending) == Range(|e.frame| - |Cells(e.pending)|, |e.frame|)
    && Lean(e.pending) && e.pending != []
    && (e.count == |e.pending| || e.count == -1)
  }

  ghost predicate QueueOk(q: seq<Entry>) { forall i :: 0 <= i < |q| ==> EntryOk(q[i]) }

  /** The bytes waiting in the queue, in order. */
  ghost function Waiting(q: seq<Entry>): seq<Byte>
    requires QueueOk(q)
  {
    if q == [] then [] else Rest(q[0]) + Waiting(q[1..])
  }

  lemma {:induction false} WaitingAppend(q: seq<Entry>, e: Entry)
    requires QueueOk(q) && EntryOk(e)
    ensures QueueOk(q + [e]) && Waiting(q + [e]) == Waiting(q) + Rest(e)
  {
    if q != [] {
      WaitingAppend(q[1..], e);
      assert (q + [e])[1..] == q[1..] + [e];
    } else {
      assert ([] + [e])[1..] == [];
    }
  }

  /** Vectors for consecutive pieces of memory starting at `base`. */
  function Layout(base: nat, pieces: seq<seq<Byte>>): seq<Iov>
    decreases |pieces|
  {
    if pieces == [] then [] else [Iov(base, |pieces[0]|)] + Layout(base + |pieces[0]|, pieces[1..])
  }

  lemma {:induction false} LayoutCells(base: nat, pieces: seq<seq<Byte>>)
    ensures |Layout(base, pieces)| == |pieces|
    ensures Cells(Layout(base, pieces)) == Range(base, base + |Flat(pieces)|)
    decreases |pieces|
  {
    if pieces != [] {
      LayoutCells(base + |pieces[0]|, pieces[1..]);
      var l := Layout(base, pieces);
      assert l[1..] == Layout(base + |pieces[0]|, pieces[1..]);
      assert Range(base, base + |pieces[0]|) + Range(base + |pieces[0]|, base + |Flat(pieces)|)
          == Range(base, base + |Flat(pieces)|);
    }
  }

  /** `__socket_ioq_new`: the header, the caller's buffer and the caller's vectors, unwritten. */
  function NewEntry(little: bool, m: Message): Entry
    requires Representable(m)
  {
    var v := [Iov(0, HEADER_LEN), Iov(HEADER_LEN, |m.hdr|)] + Layout(HEADER_LEN + |m.hdr|, m.payload);
    Entry(Frame(little, m), v, |v|)
  }

  lemma {:induction false} NewEntryOk(little: bool, m: Message)
    requires Representable(m)
    ensures var e := NewEntry(little, m); EntryOk(e) && e.count == |e.pending| && Rest(e) == Frame(little, m)
  {
    hide Representable, HeaderBytes, Range;
    var pieces := [Head(little, m), m.hdr] + m.payload;
    assert pieces[1..] == [m.hdr] + m.payload && pieces[1..][1..] == m.payload;
    assert Flat(pieces) == Head(little, m) + (m.hdr + Flat(m.payload));
    assert Layout(HEADER_LEN, pieces[1..]) == [Iov(HEADER_LEN, |m.hdr|)] + Layout(HEADER_LEN + |m.hdr|, m.payload);
    assert Layout(0, pieces) == NewEntry(little, m).pending;
    LayoutCells(0, pieces);
  }

  // ---------------------------------------------------------------- receiving side

  datatype ProtoState = Nada | HeaderComing | HeaderCame | DataComing | DataCame | Complete

  /** `priv->incoming`.  `store` is the memory behind `hdr_p` (`hdrlen` bytes) followed by the
      page behind `buf_p`. */
  datatype Incoming = Incoming(
    state: ProtoState, header: seq<Byte>, store: seq<Byte>, hdrlen: nat, buflen: nat,
    pending: seq<Iov>, count: int)

  const Empty := Incoming(Nada, seq(HEADER_LEN, _ => 0), [], 0, 0, [], 0)

  ghost predicate InOk(i: Incoming, little: bool) {
    && |i.header| == HEADER_LEN
    && (i.state == HeaderComing ==> HeaderPart(i))
    && (i.state in {DataComing, DataCame, Complete} ==>
          Validate(little, i.header) == Some((i.hdrlen, i.buflen)) && i.hdrlen + i.buflen <= |i.store|)
    && (i.state == DataComing ==> DataPart(i))
  }

  ghost predicate HeaderPart(i: Incoming) {
    && |i.pending| == 1 && Lean(i.pending) && |Cells(i.pending)| <= HEADER_LEN
    && Cells(i.pending) == Range(HEADER_LEN - |Cells(i.pending)|, HEADER_LEN)
  }

  ghost predicate DataPart(i: Incoming) {
    var n := i.hdrlen + i.buflen;
    && i.pending != [] && Lean(i.pending) && |Cells(i.pending)| <= n
    && Cells(i.pending) == Range(n - |Cells(i.pending)|, n)
    && (i.count == |i.pending| || i.count == -1)
  }

  /** The bytes read so far of the frame in progress. */
  ghost function Part(i: Incoming, little: bool): seq<Byte>
    requires InOk(i, little)
  {
    match i.state
    case Nada => []
    case HeaderComing => i.header[..HEADER_LEN - |Cells(i.pending)|]
    case HeaderCame => i.header
    case DataComing => i.header + i.store[..i.hdrlen + i.buflen - |Cells(i.pending)|]
    case DataCame => i.header + i.store[..i.hdrlen + i.buflen]
    case Complete => i.header + i.store[..i.hdrlen + i.buflen]
  }

  function Content(i: Incoming): Delivered
    requires i.hdrlen + i.buflen <= |i.store|
  {
    Delivered(i.store[..i.hdrlen], i.store[i.hdrlen..i.hdrlen + i.buflen])
  }

  /** Chunking does not matter: where the receive machine stands between two polls, and what
      it has, is a function of the bytes it has read.  Only two differences leave no trace in the bytes:
      whether the first read has been prepared, and whether a header that has come is accepted yet
      (it is not after a failed iobuf_get). */
  lemma {:induction false} PartDetermines(a: Incoming, b: Incoming, little: bool)
    requires InOk(a, little) && InOk(b, little) && Part(a, little) == Part(b, little)
    requires a.state != DataCame && b.state != DataCame
    ensures || a.state == b.state
            || (|Part(a, little)| == 0 && {a.state, b.state} == {Nada, HeaderComing})
            || (|Part(a, little)| == HEADER_LEN && {a.state, b.state} == {HeaderCame, DataComing})
    ensures |Part(a, little)| >= HEADER_LEN ==> a.header == b.header
    ensures a.state == b.state == HeaderComing ==> Cells(a.pending) == Cells(b.pending)
    ensures a.state == b.state == DataComing ==>
              Cells(a.pending) == Cells(b.pending) && a.hdrlen == b.hdrlen && a.buflen == b.buflen
    ensures a.state == b.state == Complete ==> Content(a) == Content(b)
  {
    hide Validate, Cells, Range;
    Known(a, little);
    Known(b, little);
    var p := Part(a, little);
    if |p| >= HEADER_LEN {
      assert p[..HEADER_LEN] == a.header && p[..HEADER_LEN] == b.header;
      if a.state == b.state == Complete {
        assert p[HEADER_LEN..] == a.store[..a.hdrlen + a.buflen] == b.store[..b.hdrlen + b.buflen];
        assert Content(a) == Delivered(p[HEADER_LEN..][..a.hdrlen], p[HEADER_LEN..][a.hdrlen..]);
        assert Content(b) == Delivered(p[HEADER_LEN..][..b.hdrlen], p[HEADER_LEN..][b.hdrlen..]);
      }
    }
  }

  /** How much has been read in each state. */
  lemma {:induction false} Known(i: Incoming, little: bool)
    requires InOk(i, little)
    ensures var n := |Part(i, little)|;
            match i.state
            case Nada => n == 0
            case HeaderComing => n < HEADER_LEN && n == HEADER_LEN - |Cells(i.pending)|
            case HeaderCame => n == HEADER_LEN
            case DataComing =>
              && HEADER_LEN <= n < HEADER_LEN + i.hdrlen + i.buflen
              && n == HEADER_LEN + i.hdrlen + i.buflen - |Cells(i.pending)|
            case _ => HEADER_LEN < n == HEADER_LEN + i.hdrlen + i.buflen
  {
    if i.state in {HeaderComing, DataComing} {
      LeanEmpty(i.pending);
    }
  }
}
