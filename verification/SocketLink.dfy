/**
 A connection: a sending transport, the bytes in flight, a receiving transport.
 Every method is one critical section of src/socket.c; the system calls inside it
 follow an arbitrary script.
 */
module SocketLink {
  import opened Options
  import opened ByteOrder
  import opened Iovec
  import opened Framing
  import opened SocketParts
  import opened SocketMachine
  import opened SocketSender

  /** `__socket_ioq_churn_entry` without the list: writes from the pending part of one entry. */
  method WriteEntry(e0: Entry, script: seq<Outcome>) returns (ret: int, e: Entry, bytes: seq<Byte>)
    requires EntryOk(e0)
    ensures ret >= -1 && e.count == ret
    ensures ret == 0 ==> bytes == Rest(e0)
    ensures ret != 0 ==> EntryOk(e) && bytes + Rest(e) == Rest(e0) && |bytes| < |Rest(e0)|
    ensures |bytes| == if e0.count == -1 then 0 else MovedBy(script, |Rest(e0)|, |Rest(e0)|)
    ensures ret == -1 <==> e0.count == -1 || Errs(script, |Rest(e0)|, |Rest(e0)|)
  {
    hide Gather, Range, MovedBy, Errs;
    LeanEmpty(e0.pending);
    TotalCells(e0.pending);
    var opvector, opcount, moved := Transfer(e0.pending, e0.count, Total(e0.pending), script);
    WriteSome(e0, opvector, moved);
    LeanEmpty(opvector);
    bytes := Gather(e0.frame, Cells(e0.pending)[..moved]);
    ret := opcount;
    e := e0.(pending := opvector, count := opcount);
  }

  lemma {:induction false} WriteSome(e: Entry, opvector: seq<Iov>, moved: nat)
    requires EntryOk(e) && moved <= |Cells(e.pending)| && Cells(opvector) == Cells(e.pending)[moved..]
    ensures Within(Cells(e.pending)[..moved], |e.frame|)
    ensures |Cells(opvector)| <= |e.frame| && Cells(opvector) == Range(|e.frame| - |Cells(opvector)|, |e.frame|)
    ensures Gather(e.frame, Cells(e.pending)[..moved]) + Rest(e.(pending := opvector)) == Rest(e)
    ensures Cells(opvector) == [] ==> Gather(e.frame, Cells(e.pending)[..moved]) == Rest(e)
  {
    hide Gather, Cells;
    var from := |e.frame| - |Cells(e.pending)|;
    assert Cells(e.pending)[..moved] == Range(from, from + moved);
    GatherRange(e.frame, from, from + moved);
  }

  /** Everything but the delivery log and the wake-up flag: the bytes add up. */
  ghost predicate Consistent(writer: bool, reader: bool, sent: seq<Message>, got: nat,
                             i: Incoming, wire: seq<Byte>, q: seq<Entry>) {
    && AllRepresentable(sent) && got <= |sent| && QueueOk(q) && InOk(i, reader)
    && Stream(writer, sent[..got]) + Part(i, reader) + (wire + Waiting(q)) == Stream(writer, sent)
  }

  lemma {:induction false} Assoc<S>(a: seq<S>, b: seq<S>, c: seq<S>)
    ensures a + b + c == a + (b + c)
  {
  }

  lemma {:induction false} Joined(writer: bool, reader: bool, sent: seq<Message>, got: nat, i: Incoming,
                                    wire: seq<Byte>, q: seq<Entry>, m: Message, wire': seq<Byte>, q': seq<Entry>)
    requires Consistent(writer, reader, sent, got, i, wire, q) && Representable(m) && QueueOk(q')
    requires wire' + Waiting(q') == wire + Waiting(q) + Frame(writer, m)
    ensures Consistent(writer, reader, sent + [m], got, i, wire', q')
  {
    hide Stream, Waiting, InOk, Part, Frame, Representable, QueueOk;
    StreamAppend(writer, sent, m);
    assert (sent + [m])[..got] == sent[..got];
    var a, b := Stream(writer, sent[..got]) + Part(i, reader), wire + Waiting(q);
    assert a + (b + Frame(writer, m)) == a + b + Frame(writer, m);
  }

  /** A new message joins the end of the queue, part of it written if the queue was empty. */
  lemma {:induction false} Enqueued(writer: bool, reader: bool, sent: seq<Message>, got: nat, i: Incoming,
                                    wire: seq<Byte>, q: seq<Entry>, m: Message, bytes: seq<Byte>, e: Entry)
    requires Consistent(writer, reader, sent, got, i, wire, q) && Representable(m)
    requires EntryOk(e) && bytes + Rest(e) == Frame(writer, m) && (q == [] || bytes == [])
    ensures Consistent(writer, reader, sent + [m], got, i, wire + bytes, q + [e])
  {
    hide Stream, InOk, Part, Frame, Representable;
    WaitingAppend(q, e);
    var r := Rest(e);
    if q == [] {
      assert Waiting(q) == [] && [] + r == r && wire + [] == wire;
      Assoc(wire, bytes, r);
    } else {
      assert [] + r == r && wire + [] == wire;
      Assoc(wire, Waiting(q), r);
    }
    Joined(writer, reader, sent, got, i, wire, q, m, wire + bytes, q + [e]);
  }

  /** A new message is written at once. */
  lemma {:induction false} Written(writer: bool, reader: bool, sent: seq<Message>, got: nat, i: Incoming,
                                   wire: seq<Byte>, m: Message, bytes: seq<Byte>)
    requires Consistent(writer, reader, sent, got, i, wire, []) && Representable(m) && bytes == Frame(writer, m)
    ensures Consistent(writer, reader, sent + [m], got, i, wire + bytes, [])
  {
    assert wire + bytes + Waiting([]) == wire + Waiting([]) + bytes;
    Joined(writer, reader, sent, got, i, wire, [], m, wire + bytes, []);
  }

  /** Bytes of the first entry move from the queue to the wire. */
  lemma {:induction false} Moved1(writer: bool, reader: bool, sent: seq<Message>, got: nat, i: Incoming,
                                  wire: seq<Byte>, q: seq<Entry>, ret: int, e: Entry, bytes: seq<Byte>)
    requires Consistent(writer, reader, sent, got, i, wire, q) && q != []
    requires if ret == 0 then bytes == Rest(q[0]) else EntryOk(e) && bytes + Rest(e) == Rest(q[0])
    ensures Consistent(writer, reader, sent, got, i, wire + bytes, if ret == 0 then q[1..] else [e] + q[1..])
  {
    hide Stream, InOk, Part, Cells, Range, Lean;
    var w := Waiting(q[1..]);
    if ret == 0 {
      Assoc(wire, bytes, w);
    } else {
      assert ([e] + q[1..])[1..] == q[1..];
      Assoc(wire, bytes, Rest(e) + w);
      Assoc(bytes, Rest(e), w);
    }
  }

  /** Bytes move from the wire to the receiver. */
  lemma {:induction false} Read(writer: bool, reader: bool, sent: seq<Message>, got: nat, i: Incoming,
                                wire: seq<Byte>, q: seq<Entry>, i': Incoming, n: nat)
    requires Consistent(writer, reader, sent, got, i, wire, q) && InOk(i', reader)
    requires n <= |wire| && Part(i', reader) == Part(i, reader) + wire[..n]
    ensures Consistent(writer, reader, sent, got, i', wire[n..], q)
  {
    hide Stream, Waiting, InOk, Part;
    var a, p := Stream(writer, sent[..got]), Part(i, reader);
    assert wire == wire[..n] + wire[n..];
    assert a + (p + wire[..n]) + (wire[n..] + Waiting(q)) == a + p + (wire[..n] + wire[n..] + Waiting(q));
  }

  /** A completed message is handed out. */
  lemma {:induction false} Fetched(writer: bool, reader: bool, sent: seq<Message>, got: nat, i: Incoming,
                                   wire: seq<Byte>, q: seq<Entry>)
    requires Consistent(writer, reader, sent, got, i, wire, q) && i.state == Complete
    ensures Consistent(writer, reader, sent, got + 1, Empty, wire, q)
    ensures i.hdrlen + i.buflen <= |i.store|
    ensures got < |sent| && Content(i) == AsDelivered(sent[got]) && Sendable(sent[got])
  {
    hide Stream, Waiting, Validate, Flat, Cells, Range, Sendable, QueueOk;
    CompleteIsMessage(writer, reader, sent, got, i, wire + Waiting(q));
    assert Part(Empty, reader) == [];
    var a := Stream(writer, sent[..got + 1]);
    assert a + [] + (wire + Waiting(q)) == a + (wire + Waiting(q));
  }

  /** No entry has been hit by a write error. */
  ghost predicate Healthy(q: seq<Entry>) { forall k :: 0 <= k < |q| ==> q[k].count >= 0 }

  /** A payload that the receiver accepts fits a page of its pool, which the code does not check. */
  predicate FitsPage(m: Message, page: nat) {
    Acceptable(|m.hdr|, |Flat(m.payload)|) ==> |Flat(m.payload)| <= page
  }

  ghost predicate AllFit(ms: seq<Message>, page: nat) { forall k :: 0 <= k < |ms| ==> FitsPage(ms[k], page) }

  /** What can be delivered: the first messages, byte for byte. */
  ghost predicate Prefix(got: seq<Delivered>, sent: seq<Message>) {
    |got| <= |sent| && forall k :: 0 <= k < |got| ==> got[k] == AsDelivered(sent[k]) && Sendable(sent[k])
  }

  /** How many bytes each entry has left. */
  ghost function Sizes(q: seq<Entry>): seq<nat>
    requires QueueOk(q)
  {
    if q == [] then [] else [|Rest(q[0])|] + Sizes(q[1..])
  }

  ghost predicate Dead(q: seq<Entry>) { q != [] && q[0].count == -1 }

  /** Only the first entry is ever written to. */
  ghost predicate TailFine(q: seq<Entry>) { forall k :: 0 < k < |q| ==> q[k].count >= 0 }

  lemma {:induction false} SizesAppend(q: seq<Entry>, e: Entry)
    requires QueueOk(q) && EntryOk(e)
    ensures QueueOk(q + [e]) && Sizes(q + [e]) == Sizes(q) + [|Rest(e)|]
  {
    if q != [] {
      assert (q + [e])[1..] == q[1..] + [e];
      SizesAppend(q[1..], e);
    } else {
      assert ([] + [e])[1..] == [];
    }
  }

  lemma {:induction false} SizesFirst(q: seq<Entry>, e: Entry)
    requires QueueOk(q) && q != [] && EntryOk(e)
    ensures QueueOk([e] + q[1..]) && Sizes([e] + q[1..]) == [|Rest(e)|] + Sizes(q)[1..] && Sizes(q)[0] == |Rest(q[0])|
    ensures Sizes(q[1..]) == Sizes(q)[1..] && |Sizes(q)| > 0 && QueueOk(q[1..])
  {
    assert ([e] + q[1..])[1..] == q[1..];
  }

  lemma {:induction false} FrameSize(little: bool, m: Message)
    requires Representable(m)
    ensures |Frame(little, m)| == FrameLength(m)
  {
  }

  lemma {:induction false} Joins(sent: seq<Message>, got: seq<Delivered>, m: Message, page: nat)
    requires AllFit(sent, page) && FitsPage(m, page) && Prefix(got, sent)
    ensures AllFit(sent + [m], page) && Prefix(got, sent + [m])
  {
  }

  /** What one turn of the loop over the queue means for the sizes. */
  lemma {:induction false} ChurnOne(left: seq<nat>, dead: bool, scripts: seq<seq<Outcome>>, n: nat)
    requires n <= |scripts| && left != []
    ensures var script := if n < |scripts| then scripts[n] else [];
            var m := if n < |scripts| then n + 1 else n;
            var r := MovedBy(script, left[0], left[0]);
            var c := Churned(left, dead, scripts[n..]);
            && (dead ==> c == (left, true))
            && (!dead && Errs(script, left[0], left[0]) ==> c == ([left[0] - r] + left[1..], true))
            && (!dead && !Errs(script, left[0], left[0]) && r == left[0] ==>
                  c == Churned(left[1..], false, scripts[m..]))
            && (!dead && !Errs(script, left[0], left[0]) && r != left[0] ==> c == ([left[0] - r] + left[1..], false))
  {
    hide MovedBy, Errs;
    if n < |scripts| {
      assert scripts[n..][1..] == scripts[n + 1..];
    }
  }

  lemma {:induction false} SomeMoves(script: seq<Outcome>, n: nat)
    requires n > 0
    ensures Obliging(script) ==> MovedBy(script, n, n) > 0
  {
    if Obliging(script) {
      ObligingMoves(script, n, n);
    }
  }

  lemma {:induction false} SizesPositive(q: seq<Entry>)
    requires QueueOk(q) && q != []
    ensures |Sizes(q)| > 0 && Sizes(q)[0] > 0
  {
    LeanEmpty(q[0].pending);
  }

  lemma {:induction false} Adding(writer: bool, reader: bool, sent: seq<Message>, got: nat, i: Incoming,
                                  wire: seq<Byte>, q: seq<Entry>)
    requires Consistent(writer, reader, sent, got, i, wire, q)
    ensures AllRepresentable(sent) && got <= |sent| && QueueOk(q) && InOk(i, reader)
  {
  }

  /** The next header announces a payload that fits a page, if all messages do. */
  lemma {:induction false} RoomyNext(writer: bool, reader: bool, sent: seq<Message>, got: nat, i: Incoming,
                                     wire: seq<Byte>, q: seq<Entry>, page: nat)
    requires Consistent(writer, reader, sent, got, i, wire, q) && InOk(i, reader) && AllFit(sent, page)
    ensures Roomy(reader, page, Part(i, reader) + wire)
  {
    hide Stream, Waiting, Validate, HeaderBytes, QueueOk, InOk, Part;
    var a, p := Stream(writer, sent[..got]), Part(i, reader) + wire;
    if |p| >= HEADER_LEN {
      assert a + p + Waiting(q) == a + Part(i, reader) + (wire + Waiting(q));
      NextHeader(writer, sent, got, p, Waiting(q));
      HeaderRoundTrip(writer, reader, |sent[got].hdr|, |Flat(sent[got].payload)|);
    }
  }

  lemma {:induction false} HeaderLength(i: Incoming, little: bool)
    requires InOk(i, little)
    ensures |i.header| == HEADER_LEN
  {
  }

  class Link {
    const writer: bool              // is the sending host little-endian?
    const reader: bool              // is the receiving host little-endian?
    const page: nat                 // bytes in an iobuf page of the receiver

    var connected: int              // sender's priv->connected
    var receiving: int              // receiver's priv->connected
    var ioq: seq<Entry>             // sender's queue
    var pollOut: bool               // is POLLOUT selected for the sender?
    var wire: seq<Byte>             // written and not yet read
    var incoming: Incoming          // receiver's priv->incoming
    var got: seq<Delivered>         // what socket_receive has returned so far
    ghost var sent: seq<Message>    // what socket_submit has accepted so far

    /** The bytes add up. */
    ghost predicate Flow()
      reads this
    {
      && Consistent(writer, reader, sent, |got|, incoming, wire, ioq) && incoming.state != DataCame
      && AllFit(sent, page) && Prefix(got, sent) && QueueOk(ioq) && TailFine(ioq)
    }

    /** While connected, POLLOUT is selected exactly if there is something that can be written. */
    ghost predicate Valid()
      reads this
    {
      Flow() && (connected == 1 ==> (pollOut <==> ioq != [] && !Dead(ioq)))
    }

    ghost function View(): Sender
      reads this
      requires QueueOk(ioq)
    {
      Sender(connected == 1, Sizes(ioq), Dead(ioq))
    }

    constructor (writer: bool, reader: bool, page: nat)
      ensures Valid() && sent == [] && got == [] && connected == 1 && receiving == 1
      ensures ioq == [] && !pollOut && wire == [] && incoming == Empty && this.page == page
      ensures this.writer == writer && this.reader == reader
    {
      this.writer, this.reader, this.page := writer, reader, page;
      connected, receiving, ioq, pollOut, wire, incoming, got := 1, 1, [], false, [], Empty, [];
      sent := [];
    }

    /** socket_submit.  It reports success for every submission while connected; it loses the
        wake-up exactly if the queue is empty and the first write runs into an error. */
    method Submit(m: Message, script: seq<Outcome>) returns (ret: int)
      requires Valid() && Representable(m) && FitsPage(m, page)
      modifies this`ioq, this`wire, this`pollOut, this`sent
      ensures Valid() && ret == if connected == 1 then 0 else -1
      ensures sent == if connected == 1 then old(sent) + [m] else old(sent)
      ensures connected != 1 ==> ioq == old(ioq) && wire == old(wire) && pollOut == old(pollOut)
      ensures View() == AfterEvent(old(View()), SocketSender.Submit(m, script))
      ensures connected == 1 && old(ioq) == [] ==>
                (ioq != [] && !pollOut <==> Errs(script, |Frame(writer, m)|, |Frame(writer, m)|))
    {
      hide Stream, Waiting, InOk, Part, Frame, Representable, QueueOk, EntryOk, Rest, Consistent, MovedBy, Errs, Prefix,
        AllFit;
      if connected != 1 {
        return -1;
      }
      var entry := NewEntry(writer, m);
      NewEntryOk(writer, m);
      FrameSize(writer, m);
      Joins(sent, got, m, page);
      ghost var w0, q0 := wire, ioq;
      ghost var bytes: seq<Byte> := [];
      var needPollOut, needAppend := false, true;
      if ioq == [] {
        var b;
        ret, entry, b := WriteEntry(entry, script);
        wire, bytes := wire + b, b;
        if ret == 0 {
          needAppend := false;
        }
        if ret > 0 {
          needPollOut := true;
        }
      }
      if needAppend {
        Enqueued(writer, reader, sent, |got|, incoming, w0, q0, m, bytes, entry);
        SizesAppend(ioq, entry);
        ioq := ioq + [entry];
        ret := 0;
      } else {
        Written(writer, reader, sent, |got|, incoming, w0, m, bytes);
      }
      if needPollOut {
        pollOut := true;
      }
      sent := sent + [m];
      assert wire == w0 + bytes;
    }

    /** One turn of `__socket_ioq_churn`: the first entry is written, and leaves once nothing is left of it. */
    method WriteFirst(script: seq<Outcome>) returns (ret: int)
      requires Flow() && ioq != []
      modifies this`ioq, this`wire
      ensures Flow() && ret >= -1 && |ioq| == |old(ioq)| - (if ret == 0 then 1 else 0)
      ensures ret == -1 <==> old(Dead(ioq)) || Errs(script, old(Sizes(ioq))[0], old(Sizes(ioq))[0])
      ensures var n := old(Sizes(ioq))[0]; var r := if old(Dead(ioq)) then 0 else MovedBy(script, n, n);
              && r <= n && (ret == 0 ==> r == n) && (ret != 0 ==> r < n) && |wire| == |old(wire)| + r
              && Sizes(ioq) == (if ret == 0 then old(Sizes(ioq))[1..] else [n - r] + old(Sizes(ioq))[1..])
              && Dead(ioq) == (ret == -1)
    {
      hide Stream, Waiting, InOk, Part, EntryOk, Rest, Consistent, MovedBy, Errs, Prefix, AllFit;
      var entry, bytes;
      ret, entry, bytes := WriteEntry(ioq[0], script);
      Moved1(writer, reader, sent, |got|, incoming, wire, ioq, ret, entry, bytes);
      if ret != 0 {
        SizesFirst(ioq, entry);
      } else {
        SizesFirst(ioq, ioq[0]);
      }
      wire := wire + bytes;
      ioq := if ret != 0 then [entry] + ioq[1..] else ioq[1..];
    }

    /** `__socket_ioq_churn` */
    method Churn(scripts: seq<seq<Outcome>>) returns (ret: int)
      requires Flow()
      modifies this`ioq, this`wire, this`pollOut
      ensures Flow() && ret >= -1 && (ret == -1 <==> Dead(ioq)) && (ret == 0 <==> ioq == [])
      ensures (Sizes(ioq), Dead(ioq)) == Churned(old(Sizes(ioq)), old(Dead(ioq)), scripts)
      ensures pollOut == (old(pollOut) && ioq != []) && |ioq| <= |old(ioq)| && (old(Dead(ioq)) ==> ret == -1)
      ensures |wire| >= |old(wire)|
      ensures old(ioq) != [] && !old(Dead(ioq)) && scripts != [] && Obliging(scripts[0]) ==> |wire| > |old(wire)|
    {
      hide Consistent, MovedBy, Errs, Prefix, AllFit, QueueOk, TailFine, Obliging, Rest;
      ret := 0;
      var n := 0;
      ghost var all, dead0 := Sizes(ioq), Dead(ioq);
      assert scripts[0..] == scripts;
      while ioq != []
        invariant Flow() && n <= |scripts| && pollOut == old(pollOut) && ret == 0 && |ioq| <= |old(ioq)|
        invariant ioq == old(ioq) || !dead0
        invariant Churned(all, dead0, scripts) == Churned(Sizes(ioq), Dead(ioq), scripts[n..])
        invariant |wire| >= |old(wire)|
        invariant if ioq == old(ioq) && n == 0 then wire == old(wire) else
                  old(ioq) != [] && !dead0 && scripts != [] && Obliging(scripts[0]) ==> |wire| > |old(wire)|
        decreases |ioq|
      {
        var script := if n < |scripts| then scripts[n] else [];
        SizesPositive(ioq);
        ChurnOne(Sizes(ioq), Dead(ioq), scripts, n);
        SomeMoves(script, Sizes(ioq)[0]);
        ret := WriteFirst(script);
        if ret != 0 {
          break;
        }
        n := if n < |scripts| then n + 1 else n;
      }
      if ioq == [] {
        pollOut := false;
      }
    }

    /** socket_event_poll_out */
    method PollOut(scripts: seq<seq<Outcome>>) returns (ret: int)
      requires Valid()
      modifies this`ioq, this`wire, this`pollOut, this`connected
      ensures Valid() && View() == AfterEvent(old(View()), SocketSender.PollOut(scripts))
      ensures old(connected) != 1 ==> ret == -1 && ioq == old(ioq) && wire == old(wire) && connected == old(connected)
      ensures old(connected) == 1 ==> (ret == 0 <==> ioq == []) && (ret == -1 <==> connected == -1) && ret >= -1
      ensures |wire| >= |old(wire)|
      ensures old(connected) == 1 && old(ioq) != [] && !old(Dead(ioq)) && scripts != [] && Obliging(scripts[0]) ==>
                |wire| > |old(wire)|
    {
      hide Consistent, Prefix, AllFit, QueueOk, TailFine, Sizes;
      ret := -1;
      if connected == 1 {
        ret := Churn(scripts);
        if ret == -1 {
          connected := -1;
        }
      }
    }

    /** There is something to read, and no message waits to be fetched. */
    predicate Readable()
      reads this
    {
      incoming.state != Complete && wire != [] && incoming.count >= 0
    }

    /** socket_event_poll_in */
    method PollIn(hs: seq<Outcome>, ds: seq<Outcome>, haveIobuf: bool) returns (ret: int)
      requires Valid()
      modifies this`incoming, this`wire
      ensures Valid() && incoming.state !in {Nada, DataCame} && View() == old(View())
      ensures old(incoming.state) != Complete ==> (ret == 0 <==> incoming.state == Complete)
      ensures old(incoming.state) == Complete ==> ret == -1 && incoming == old(incoming)
      ensures InOk(old(incoming), reader) && |wire| <= |old(wire)| && wire == old(wire)[|old(wire)| - |wire|..]
      ensures old(incoming.state) != Complete ==>
                Agrees(Polled(old(incoming), reader, old(wire), hs, ds, haveIobuf), ret, |old(wire)| - |wire|, incoming)
      ensures old(incoming.state) != Complete && Failed !in hs && Failed !in ds && old(incoming.count) >= 0 ==>
                (ret > 0 <==> incoming.state in {HeaderComing, DataComing})
      ensures Failed !in ds && old(incoming.count) >= 0 ==> incoming.count >= 0
      ensures incoming.state == HeaderCame && haveIobuf ==>
                |incoming.header| == HEADER_LEN && Validate(reader, incoming.header) == None
      ensures incoming.state != HeaderCame && old(Readable()) && Obliging(hs) && Obliging(ds) ==> |wire| < |old(wire)|
      ensures old(incoming.state) != Complete && incoming.state == Complete ==> |wire| < |old(wire)|
    {
      hide Stream, Waiting, InOk, Part, QueueOk, Obliging, Validate, Consistent, Prefix, AllFit, TailFine, Sizes, Roomy,
        Polled, Agrees, Dead;
      Adding(writer, reader, sent, |got|, incoming, wire, ioq);
      RoomyNext(writer, reader, sent, |got|, incoming, wire, ioq, page);
      var i, n;
      ret, i, n := Machine(incoming, reader, page, wire, hs, ds, haveIobuf);
      Read(writer, reader, sent, |got|, incoming, wire, ioq, i, n);
      HeaderLength(i, reader);
      incoming, wire := i, wire[n..];
    }

    /** socket_receive */
    method Receive() returns (ret: int)
      requires Valid()
      modifies this`incoming, this`got
      ensures Valid()
      ensures receiving == 1 && old(incoming.state) == Complete ==>
                ret == 0 && |got| == |old(got)| + 1 && old(got) < got && incoming == Empty
      ensures receiving != 1 || old(incoming.state) != Complete ==>
                ret == -1 && got == old(got) && incoming == old(incoming)
    {
      hide Stream, Waiting, Part, QueueOk, Sendable, InOk, Consistent, Validate, TailFine, AllFit;
      ret := -1;
      if receiving != 1 {
        return;
      }
      if incoming.state == Complete {
        Fetched(writer, reader, sent, |got|, incoming, wire, ioq);
        got := got + [Content(incoming)];
        incoming := Empty;
        ret := 0;
      }
    }

    /** `__socket_disconnect` on the receiving side: nothing is received any more. */
    method HangUp()
      requires Valid()
      modifies this`receiving
      ensures Valid() && receiving == -1
    {
      receiving := -1;
    }

    /** One event. */
    method Handle(e: Event)
      requires Valid() && (e.Submit? ==> Representable(e.m) && FitsPage(e.m, page))
      modifies this
      ensures Valid() && View() == AfterEvent(old(View()), e)
      ensures sent == old(sent) + (if e.Submit? && old(connected) == 1 then [e.m] else [])
      ensures (e.PollIn? ==> Failed !in e.ds) && old(incoming.count) >= 0 ==> incoming.count >= 0
      ensures receiving == if e.HangUp? then -1 else old(receiving)
    {
      hide Flow;
      match e {
        case Submit(m, script) => var r := Submit(m, script);
        case PollOut(scripts) => var r := PollOut(scripts);
        case PollIn(hs, ds, haveIobuf) => var r := PollIn(hs, ds, haveIobuf);
        case Receive => var r := Receive();
        case HangUp => HangUp();
      }
    }
  }
}
