/**
 The receive state machine `__socket_proto_state_machine` (src/socket.c:496-673)
 and the facts that tie its record to the stream of frames.
 */
module SocketMachine {
  import opened Errno
  import opened Options
  import opened ByteOrder
  import opened Iovec
  import opened Framing
  import opened SocketParts

  function Ord(s: ProtoState): nat {
    match s
    case Nada => 0
    case HeaderComing => 1
    case HeaderCame => 2
    case DataComing => 3
    case DataCame => 4
    case Complete => 5
  }

  /** Storing what a read has moved extends the part that has been read. */
  lemma {:induction false} StoreMore(mem: seq<Byte>, n: nat, pending: seq<Iov>, opvector: seq<Iov>, bytes: seq<Byte>)
    requires |Cells(pending)| <= n <= |mem| && Cells(pending) == Range(n - |Cells(pending)|, n)
    requires |bytes| <= |Cells(pending)| && Cells(opvector) == Cells(pending)[|bytes|..]
    ensures Within(Cells(pending), |mem|)
    ensures |Cells(opvector)| <= n && Cells(opvector) == Range(n - |Cells(opvector)|, n)
    ensures Scatter(mem, Cells(pending), bytes)[..n - |Cells(opvector)|] == mem[..n - |Cells(pending)|] + bytes
  {
    ScatterRange(mem, n - |Cells(pending)|, n, bytes);
  }

  /** Case HEADER_COMING: read what there is of the socket header. */
  method ReadHeader(i0: Incoming, little: bool, wire: seq<Byte>, script: seq<Outcome>)
    returns (ret: int, i: Incoming, n: nat)
    requires InOk(i0, little) && i0.state == HeaderComing
    ensures n <= |wire| && InOk(i, little) && Part(i, little) == Part(i0, little) + wire[..n]
    ensures i.state == (if ret == 0 then HeaderCame else HeaderComing) && i.count == i0.count && ret >= -1
    ensures ret == 0 <==> n == |Cells(i0.pending)|
    ensures ret == -1 <==> Errs(script, |Cells(i0.pending)|, |wire|)
    ensures n == MovedBy(script, |Cells(i0.pending)|, |wire|)
    ensures ret == 0 || (wire != [] && Obliging(script)) ==> n > 0
  {
    hide Validate, Scatter, Cells, Range, Errs, MovedBy;
    LeanEmpty(i0.pending);
    if wire != [] && Obliging(script) {
      ObligingMoves(script, |Cells(i0.pending)|, |wire|);
    }
    var opvector, opcount, moved := Transfer(i0.pending, 1, |wire|, script);
    n := moved;
    StoreMore(i0.header, HEADER_LEN, i0.pending, opvector, wire[..n]);
    LeanEmpty(opvector);
    i := i0.(header := Scatter(i0.header, Cells(i0.pending), wire[..n]), pending := opvector);
    ret := opcount;
    if ret == 0 {
      i := i.(state := HeaderCame);
    }
  }

  /** Case HEADER_CAME: check the header and set up the buffers. */
  method AcceptHeader(i0: Incoming, little: bool, page: nat, haveIobuf: bool) returns (ret: int, i: Incoming)
    requires InOk(i0, little) && i0.state == HeaderCame && Roomy(little, page, i0.header)
    ensures InOk(i, little) && Part(i, little) == Part(i0, little) && i.header == i0.header
    ensures ret == 0 ==> i.state == DataComing && i.count >= 0
    ensures ret != 0 ==> i.state == HeaderCame && i.count == i0.count
    ensures ret == match Validate(little, i0.header)
                   case None => -1
                   case Some(sizes) => if sizes.1 != 0 && !haveIobuf then -ENOMEM else 0
    ensures ret == 0 ==>
              Validate(little, i0.header) == Some((i.hdrlen, i.buflen)) && |Cells(i.pending)| == i.hdrlen + i.buflen
  {
    hide Validate, Cells;
    i := i0;
    match Validate(little, i.header) {
      case None =>
        ret := -1;
      case Some(sizes) =>
        ret := 0;
        ValidSizes(little, i.header);
        assert i0.header[..HEADER_LEN] == i.header;
        i := i.(hdrlen := sizes.0, buflen := sizes.1);
        if sizes.1 != 0 && !haveIobuf {
          ret := -ENOMEM;
          return;
        }
        i := i.(store := seq(sizes.0 + page, _ => 0));
        i := i.(pending := if sizes.1 != 0 then [Iov(0, sizes.0), Iov(sizes.0, sizes.1)] else [Iov(0, sizes.0)]);
        i := i.(count := |i.pending|, state := DataComing);
        FreshData(i);
    }
  }

  /** Case DATA_COMING: read what there is of header and payload. */
  method ReadData(i0: Incoming, little: bool, wire: seq<Byte>, script: seq<Outcome>)
    returns (ret: int, i: Incoming, n: nat)
    requires InOk(i0, little) && i0.state == DataComing
    ensures n <= |wire| && InOk(i, little) && Part(i, little) == Part(i0, little) + wire[..n]
    ensures i.state == (if ret == 0 then DataCame else DataComing) && i.count == ret >= -1
    ensures ret == 0 <==> i0.count != -1 && n == |Cells(i0.pending)|
    ensures ret == -1 <==> i0.count == -1 || Errs(script, |Cells(i0.pending)|, |wire|)
    ensures n == if i0.count == -1 then 0 else MovedBy(script, |Cells(i0.pending)|, |wire|)
    ensures ret == 0 || (wire != [] && i0.count >= 0 && Obliging(script)) ==> n > 0
  {
    hide Validate, Scatter, Cells, Range, Errs, MovedBy, Obliging, InOk, Part, Within;
    DataFacts(i0, little);
    if wire != [] && Obliging(script) {
      ObligingMoves(script, |Cells(i0.pending)|, |wire|);
    }
    var opvector, opcount, moved := Transfer(i0.pending, i0.count, |wire|, script);
    n := moved;
    DataMore(i0, little, opvector, opcount, wire[..n]);
    LeanEmpty(opvector);
    i := i0.(store := Scatter(i0.store, Cells(i0.pending), wire[..n]), pending := opvector, count := opcount);
    ret := opcount;
    if ret == 0 {
      i := i.(state := DataCame);
    }
  }

  lemma {:induction false} DataFacts(i: Incoming, little: bool)
    requires InOk(i, little) && i.state == DataComing
    ensures Lean(i.pending) && i.pending != [] && Cells(i.pending) != [] && (i.count == |i.pending| || i.count == -1)
    ensures Within(Cells(i.pending), |i.store|)
  {
    LeanEmpty(i.pending);
  }

  /** What a read of `bytes` makes of the record. */
  lemma {:induction false} DataMore(i0: Incoming, little: bool, opvector: seq<Iov>, opcount: int, bytes: seq<Byte>)
    requires InOk(i0, little) && i0.state == DataComing && Lean(opvector) && (opcount == |opvector| || opcount == -1)
    requires |bytes| <= |Cells(i0.pending)| && Cells(opvector) == Cells(i0.pending)[|bytes|..]
    requires Within(Cells(i0.pending), |i0.store|) && (opcount != 0 ==> opvector != [])
    ensures var i := i0.(store := Scatter(i0.store, Cells(i0.pending), bytes), pending := opvector, count := opcount);
            var j := if opcount == 0 then i.(state := DataCame) else i;
            InOk(j, little) && Part(j, little) == Part(i0, little) + bytes
  {
    hide Validate, Scatter, Cells, Range;
    StoreMore(i0.store, i0.hdrlen + i0.buflen, i0.pending, opvector, bytes);
    LeanEmpty(opvector);
    Together(i0.header, i0.store[..i0.hdrlen + i0.buflen - |Cells(i0.pending)|], bytes);
  }

  lemma {:induction false} Together(a: seq<Byte>, b: seq<Byte>, c: seq<Byte>)
    ensures a + b + c == a + (b + c)
  {
  }

  // ----- what a poll answers, from what there is to read and what the system calls do

  datatype Verdict = Done | Partial | Broken | Refused | NoBuffer

  /** The verdict, how many bytes are read, and the state in which the machine stops. */
  datatype Answer = Answer(verdict: Verdict, read: nat, state: ProtoState)

  /** The source's three answers, and their two kinds of error. */
  predicate Says(ret: int, v: Verdict) {
    match v
    case Done => ret == 0
    case Partial => ret > 0
    case Broken => ret == -1
    case Refused => ret == -1
    case NoBuffer => ret == -ENOMEM
  }

  /** With `left` bytes of the data to come and `avail` on the wire. */
  function DataAnswer(left: nat, avail: nat, ds: seq<Outcome>): Answer {
    var r := MovedBy(ds, left, avail);
    if r == left then Answer(Done, r, Complete)
    else Answer(if Errs(ds, left, avail) then Broken else Partial, r, DataComing)
  }

  /** With the whole header there and `avail` bytes on the wire after it. */
  function HeaderAnswer(little: bool, header: seq<Byte>, avail: nat, ds: seq<Outcome>, haveIobuf: bool): Answer
    requires |header| == HEADER_LEN
  {
    match Validate(little, header)
    case None => Answer(Refused, 0, HeaderCame)
    case Some(sizes) =>
      if sizes.1 != 0 && !haveIobuf then Answer(NoBuffer, 0, HeaderCame)
      else DataAnswer(sizes.0 + sizes.1, avail, ds)
  }

  ghost function Polled(i: Incoming, little: bool, wire: seq<Byte>, hs: seq<Outcome>, ds: seq<Outcome>,
                        haveIobuf: bool): Answer
    requires InOk(i, little)
  {
    Known(i, little);
    match i.state
    case DataCame => Answer(Done, 0, Complete)
    case Complete => Answer(Done, 0, Complete)
    case DataComing =>
      if i.count == -1 then Answer(Broken, 0, DataComing) else DataAnswer(|Cells(i.pending)|, |wire|, ds)
    case _ =>
      var left := HEADER_LEN - |Part(i, little)|;
      var r := MovedBy(hs, left, |wire|);
      if r < left then Answer(if Errs(hs, left, |wire|) then Broken else Partial, r, HeaderComing)
      else
        Later(left, HeaderAnswer(little, (Part(i, little) + wire)[..HEADER_LEN], |wire| - left, ds, haveIobuf))
  }

  /** After `n` bytes have been read. */
  function Later(n: nat, a: Answer): Answer { a.(read := n + a.read) }

  /** The machine stops as the answer says. */
  ghost predicate Agrees(a: Answer, ret: int, n: nat, i: Incoming) {
    Says(ret, a.verdict) && n == a.read && i.state == a.state
  }

  lemma {:induction false} PolledStart(i: Incoming, little: bool, wire: seq<Byte>, hs: seq<Outcome>, ds: seq<Outcome>,
                                       haveIobuf: bool, i': Incoming)
    requires InOk(i, little) && InOk(i', little) && Part(i', little) == Part(i, little)
    requires i.state == Nada && i'.state == HeaderComing
    ensures Polled(i, little, wire, hs, ds, haveIobuf) == Polled(i', little, wire, hs, ds, haveIobuf)
  {
    hide Validate, MovedBy, Errs, InOk, Part;
  }

  lemma {:induction false} PolledHeader(i: Incoming, little: bool, wire: seq<Byte>, hs: seq<Outcome>, ds: seq<Outcome>,
                                        haveIobuf: bool, ret: int, i': Incoming, n: nat)
    requires InOk(i, little) && InOk(i', little) && i.state == HeaderComing
    requires n == MovedBy(hs, |Cells(i.pending)|, |wire|) && Part(i', little) == Part(i, little) + wire[..n]
    requires (ret == 0 <==> n == |Cells(i.pending)|) && (ret == -1 <==> Errs(hs, |Cells(i.pending)|, |wire|))
    requires i'.state == (if ret == 0 then HeaderCame else HeaderComing) && ret >= -1
    ensures var a := Polled(i, little, wire, hs, ds, haveIobuf);
            if ret == 0 then a == Later(n, Polled(i', little, wire[n..], hs, ds, haveIobuf)) else Agrees(a, ret, n, i')
  {
    hide Validate, MovedBy, Errs, InOk, Part, HeaderAnswer;
    Known(i, little);
    Known(i', little);
    if ret == 0 {
      assert (Part(i', little) + wire[n..]) == Part(i, little) + wire;
    }
  }

  lemma {:induction false} PolledAccept(i: Incoming, little: bool, wire: seq<Byte>, hs: seq<Outcome>, ds: seq<Outcome>,
                                        haveIobuf: bool, ret: int, i': Incoming)
    requires InOk(i, little) && InOk(i', little) && i.state == HeaderCame
    requires ret == match Validate(little, i.header)
                    case None => -1
                    case Some(sizes) => if sizes.1 != 0 && !haveIobuf then -ENOMEM else 0
    requires if ret == 0 then i'.state == DataComing && i'.count >= 0 else i'.state == HeaderCame
    requires ret == 0 ==> Validate(little, i.header) == Some((i'.hdrlen, i'.buflen))
    requires ret == 0 ==> |Cells(i'.pending)| == i'.hdrlen + i'.buflen
    ensures var a := Polled(i, little, wire, hs, ds, haveIobuf);
            if ret == 0 then a == Polled(i', little, wire, hs, ds, haveIobuf) else Agrees(a, ret, 0, i')
  {
    hide Validate, Errs, Cells, DataAnswer;
    assert (Part(i, little) + wire)[..HEADER_LEN] == i.header;
  }

  lemma {:induction false} PolledData(i: Incoming, little: bool, wire: seq<Byte>, hs: seq<Outcome>, ds: seq<Outcome>,
                                      haveIobuf: bool, ret: int, i': Incoming, n: nat)
    requires InOk(i, little) && InOk(i', little) && i.state == DataComing
    requires n == if i.count == -1 then 0 else MovedBy(ds, |Cells(i.pending)|, |wire|)
    requires ret == 0 <==> i.count != -1 && n == |Cells(i.pending)|
    requires ret == -1 <==> i.count == -1 || Errs(ds, |Cells(i.pending)|, |wire|)
    requires i'.state == (if ret == 0 then DataCame else DataComing) && ret >= -1 && n <= |wire|
    ensures var a := Polled(i, little, wire, hs, ds, haveIobuf);
            if ret == 0 then a == Later(n, Polled(i', little, wire[n..], hs, ds, haveIobuf)) else Agrees(a, ret, n, i')
  {
    hide Validate, MovedBy, Errs, InOk, Part;
  }

  lemma {:induction false} PolledEnd(i: Incoming, little: bool, wire: seq<Byte>, hs: seq<Outcome>, ds: seq<Outcome>,
                                     haveIobuf: bool)
    requires InOk(i, little) && i.state in {DataCame, Complete}
    ensures Polled(i, little, wire, hs, ds, haveIobuf) == Answer(Done, 0, Complete)
  {
  }

  /** One turn of the loop over the switch; `ret0` is what `ret` was. */
  method Turn(i0: Incoming, little: bool, page: nat, wire: seq<Byte>, hs: seq<Outcome>, ds: seq<Outcome>,
              haveIobuf: bool, ret0: int)
    returns (ret: int, i: Incoming, n: nat)
    requires InOk(i0, little) && i0.state != Complete && (i0.state == HeaderCame ==> Roomy(little, page, i0.header))
    ensures n <= |wire| && InOk(i, little) && Part(i, little) == Part(i0, little) + wire[..n]
    ensures i0.state == Nada ==> ret == ret0
    ensures i0.state == DataCame ==> ret == ret0 && i.state == Complete
    ensures Ord(i.state) == Ord(i0.state) + if Stops(i0.state, ret) then 0 else 1
    ensures var a := Polled(i0, little, wire, hs, ds, haveIobuf);
            if Stops(i0.state, ret) then Agrees(a, ret, n, i)
            else a == Later(n, Polled(i, little, wire[n..], hs, ds, haveIobuf))
    ensures i0.state == HeaderCame && ret != 0 ==>
              (ret == -1 && Validate(little, i.header) == None) || (ret == -ENOMEM && !haveIobuf)
    ensures i0.state in {HeaderComing, DataComing} ==> ret >= -1
    ensures !Stops(i0.state, ret) && i0.count >= 0 ==> i.count >= 0
    ensures Failed !in ds && i0.count >= 0 ==> i.count >= 0
    ensures Failed !in hs && Failed !in ds && i0.count >= 0 && ret == -1 && i0.state !in {Nada, DataCame} ==>
              i0.state == HeaderCame
    ensures i0.state in {HeaderComing, DataComing} ==>
              (ret == 0 || (wire != [] && i0.count >= 0 && Obliging(hs) && Obliging(ds)) ==> n > 0)
  {
    hide Validate, InOk, Part, Obliging, Roomy, Errs, MovedBy, Polled, Cells;
    NoErrors(hs);
    NoErrors(ds);
    i, n, ret := i0, 0, ret0;
    assert wire[0..] == wire && Part(i0, little) + wire[..0] == Part(i0, little);
    match i.state {
      case Nada =>
        StartHeader(i, little);
        i := i.(pending := [Iov(0, HEADER_LEN)], state := HeaderComing);
        PolledStart(i0, little, wire, hs, ds, haveIobuf, i);
      case HeaderComing =>
        ret, i, n := ReadHeader(i, little, wire, hs);
        PolledHeader(i0, little, wire, hs, ds, haveIobuf, ret, i, n);
      case HeaderCame =>
        ret, i := AcceptHeader(i, little, page, haveIobuf);
        PolledAccept(i0, little, wire, hs, ds, haveIobuf, ret, i);
      case DataComing =>
        ret, i, n := ReadData(i, little, wire, ds);
        PolledData(i0, little, wire, hs, ds, haveIobuf, ret, i, n);
      case DataCame =>
        Finish(i, little);
        i := i.(pending := [], count := 0, state := Complete);
        PolledEnd(i0, little, wire, hs, ds, haveIobuf);
        PolledEnd(i, little, wire, hs, ds, haveIobuf);
    }
  }

  /** The turns after which the machine returns. */
  predicate Stops(state: ProtoState, ret: int) { ret != 0 && state in {HeaderComing, HeaderCame, DataComing} }

  /** One call of the state machine.  `hs` and `ds` are what the kernel does to the reads of the
      socket header and of the data; `haveIobuf` is whether iobuf_get succeeds.  Consumes `n`
      bytes of `wire`. */
  method Machine(i0: Incoming, little: bool, page: nat, wire: seq<Byte>, hs: seq<Outcome>, ds: seq<Outcome>,
                 haveIobuf: bool)
    returns (ret: int, i: Incoming, n: nat)
    requires InOk(i0, little) && i0.state != DataCame && Roomy(little, page, Part(i0, little) + wire)
    ensures n <= |wire| && InOk(i, little) && Part(i, little) == Part(i0, little) + wire[..n]
    ensures i.state !in {Nada, DataCame}
    ensures i0.state == Complete ==> ret == -1 && i == i0
    ensures i0.state != Complete ==> (ret == 0 <==> i.state == Complete)
    ensures i0.state != Complete ==> Agrees(Polled(i0, little, wire, hs, ds, haveIobuf), ret, n, i)
    ensures i.state == HeaderCame ==>
              (ret == -1 && Validate(little, i.header) == None) || (ret == -ENOMEM && !haveIobuf)
    ensures i0.state != Complete && Failed !in hs && Failed !in ds && i0.count >= 0 && ret == -1 ==>
              i.state == HeaderCame && Validate(little, i.header) == None
    ensures i0.state != Complete && Failed !in hs && Failed !in ds && i0.count >= 0 ==>
              (ret > 0 <==> i.state in {HeaderComing, DataComing})
    ensures i0.state != Complete && i.state == Complete ==> n > 0
    // something is read unless nothing is there, or the header is refused
    ensures i0.state != Complete && i0.count >= 0 && wire != [] && Obliging(hs) && Obliging(ds) ==>
              n > 0 || i.state == HeaderCame
    ensures Failed !in ds && i0.count >= 0 ==> i.count >= 0
  {
    hide Validate, InOk, Part, Obliging, Roomy, Errs, MovedBy, Polled, Cells;
    i, n, ret := i0, 0, -1;
    assert wire[0..] == wire;
    var prev: Option<ProtoState> := None;
    while i.state != Complete
      invariant n <= |wire| && InOk(i, little) && Part(i, little) == Part(i0, little) + wire[..n]
      invariant Polled(i0, little, wire, hs, ds, haveIobuf) ==
                Later(n, Polled(i, little, wire[n..], hs, ds, haveIobuf))
      invariant prev.Some? ==> Ord(prev.value) < Ord(i.state)
      invariant prev == None ==> i == i0 && n == 0 && ret == -1
      invariant prev.Some? && i.state in {HeaderCame, DataCame, Complete} ==> ret == 0
      invariant prev.Some? ==> i.state != Nada && i0.state != Complete
      invariant i0.count >= 0 ==> i.count >= 0
      invariant i.state in {DataCame, Complete} && i0.state != Complete ==> n > 0
      decreases 5 - Ord(i.state)
    {
      if prev == Some(i.state) {
        // "state did not change": not reached
        assert false;
      }
      prev := Some(i.state);
      if i.state == HeaderCame {
        RoomyHeader(i, little, page, Part(i0, little), wire, n);
      }
      var moved;
      ret, i, moved := Turn(i, little, page, wire[n..], hs, ds, haveIobuf, ret);
      Extend(Part(i0, little), wire, n, moved);
      assert wire[n..][moved..] == wire[n + moved..];
      n := n + moved;
      if Stops(prev.value, ret) {
        return;
      }
    }
    PolledEnd(i, little, wire[n..], hs, ds, haveIobuf);
  }

  lemma {:induction false} NoErrors(script: seq<Outcome>)
    ensures Failed !in script ==> forall total: nat, avail: nat :: !Errs(script, total, avail)
  {
    forall total: nat, avail: nat ensures Failed !in script ==> !Errs(script, total, avail) {
      ErrsOnly(script, total, avail);
    }
  }

  lemma {:induction false} RoomyHeader(i: Incoming, little: bool, page: nat, part: seq<Byte>, wire: seq<Byte>, n: nat)
    requires InOk(i, little) && i.state == HeaderCame && n <= |wire| && Part(i, little) == part + wire[..n]
    requires Roomy(little, page, part + wire)
    ensures Roomy(little, page, i.header)
  {
    hide Validate;
    assert (part + wire)[..HEADER_LEN] == (part + wire[..n])[..HEADER_LEN] == i.header[..HEADER_LEN];
  }

  lemma {:induction false} Extend(part: seq<Byte>, wire: seq<Byte>, n: nat, moved: nat)
    requires n <= |wire| && moved <= |wire[n..]|
    ensures part + wire[..n] + wire[n..][..moved] == part + wire[..n + moved]
    ensures part + wire[..n] == part + wire[..n] + wire[n..][..0]
  {
    assert wire[..n] + wire[n..][..moved] == wire[..n + moved];
  }

  lemma {:induction false} StartHeader(i: Incoming, little: bool)
    requires InOk(i, little) && i.state == Nada
    ensures var j := i.(pending := [Iov(0, HEADER_LEN)], state := HeaderComing);
            InOk(j, little) && Part(j, little) == Part(i, little)
  {
    FreshHeader(i.(pending := [Iov(0, HEADER_LEN)], state := HeaderComing));
  }

  lemma {:induction false} Finish(i: Incoming, little: bool)
    requires InOk(i, little) && i.state == DataCame
    ensures var j := i.(pending := [], count := 0, state := Complete);
            InOk(j, little) && Part(j, little) == Part(i, little)
  {
  }

  lemma {:induction false} ValidSizes(little: bool, h: seq<Byte>)
    requires |h| == HEADER_LEN && Validate(little, h).Some?
    ensures Acceptable(Validate(little, h).value.0, Validate(little, h).value.1)
  {
  }

  lemma {:induction false} FreshHeader(i: Incoming)
    requires i.pending == [Iov(0, HEADER_LEN)]
    ensures HeaderPart(i) && |Cells(i.pending)| == HEADER_LEN
  {
    assert i.pending[1..] == [];
  }

  lemma {:induction false} FreshData(i: Incoming)
    requires i.hdrlen > 0 && i.count == |i.pending|
    requires i.pending == if i.buflen != 0 then [Iov(0, i.hdrlen), Iov(i.hdrlen, i.buflen)] else [Iov(0, i.hdrlen)]
    ensures DataPart(i) && |Cells(i.pending)| == i.hdrlen + i.buflen
  {
    var v := i.pending;
    if i.buflen != 0 {
      assert v[1..] == [Iov(i.hdrlen, i.buflen)] && v[1..][1..] == [];
      assert Cells(v[1..]) == Range(i.hdrlen, i.hdrlen + i.buflen) + [];
      assert Range(0, i.hdrlen) + (Range(i.hdrlen, i.hdrlen + i.buflen) + []) == Range(0, i.hdrlen + i.buflen);
    } else {
      assert v[1..] == [];
      assert Range(0, i.hdrlen) + [] == Range(0, i.hdrlen);
    }
  }

  /** A completed record holds exactly the next message. */
  lemma {:induction false} CompleteIsMessage(writer: bool, reader: bool, ms: seq<Message>, d: nat, i: Incoming,
                                             tail: seq<Byte>)
    requires AllRepresentable(ms) && d <= |ms| && InOk(i, reader) && i.state == Complete
    requires Stream(writer, ms[..d]) + Part(i, reader) + tail == Stream(writer, ms)
    ensures d < |ms| && Content(i) == AsDelivered(ms[d]) && Sendable(ms[d])
    ensures Stream(writer, ms[..d + 1]) == Stream(writer, ms[..d]) + Part(i, reader)
  {
    hide Validate, HeaderBytes, Flat, Stream;
    var p := Part(i, reader);
    NextHeader(writer, ms, d, p, tail);
    assert p[..HEADER_LEN] == i.header;
    var m := ms[d];
    HeaderRoundTrip(writer, reader, |m.hdr|, |Flat(m.payload)|);
    WholeFrame(writer, ms, d, p, tail);
    assert i.store[..i.hdrlen + i.buflen] == p[HEADER_LEN..] == m.hdr + Flat(m.payload);
    var s := m.hdr + Flat(m.payload);
    assert i.store[..i.hdrlen] == s[..i.hdrlen] && i.store[i.hdrlen..i.hdrlen + i.buflen] == s[i.hdrlen..];
  }

  /** When every byte of the stream has been read and no frame is waiting to be fetched, every
      message has been delivered, provided each one is sendable. */
  lemma {:induction false} NothingLeft(writer: bool, reader: bool, ms: seq<Message>, d: nat, i: Incoming)
    requires AllRepresentable(ms) && d <= |ms| && InOk(i, reader) && i.state !in {DataCame, Complete}
    requires Stream(writer, ms[..d]) + Part(i, reader) == Stream(writer, ms)
    requires d < |ms| ==> Sendable(ms[d])
    ensures d == |ms|
  {
    hide Validate, HeaderBytes, BigEndian, Hton32, Stream;
    if d < |ms| {
      var p, m := Part(i, reader), ms[d];
      assert Stream(writer, ms[..d]) + p + [] == Stream(writer, ms[..d]) + p;
      NextFrame(writer, ms, d, p, []);
      assert |p| >= |Frame(writer, m)| > HEADER_LEN;
      NextHeader(writer, ms, d, p, []);
      assert p[..HEADER_LEN] == i.header;
      HeaderRoundTrip(writer, reader, |m.hdr|, |Flat(m.payload)|);
      LeanEmpty(i.pending);
      assert false;
    }
  }

  /** A message whose lengths the receiver rejects blocks the stream at its header. */
  lemma {:induction false} Blocked(writer: bool, reader: bool, ms: seq<Message>, d: nat, i: Incoming, tail: seq<Byte>)
    requires AllRepresentable(ms) && d < |ms| && InOk(i, reader)
    requires Stream(writer, ms[..d]) + Part(i, reader) + tail == Stream(writer, ms)
    requires !Sendable(ms[d])
    ensures i.state in {Nada, HeaderComing, HeaderCame}
    ensures i.state == HeaderCame ==> Validate(reader, i.header) == None
  {
    var p, m := Part(i, reader), ms[d];
    if i.state !in {Nada, HeaderComing} {
      NextHeader(writer, ms, d, p, tail);
      assert p[..HEADER_LEN] == i.header;
      HeaderRoundTrip(writer, reader, |m.hdr|, |Flat(m.payload)|);
    }
  }
}
