/**
 Whole runs of a connection: what is delivered, when a wake-up is lost, and that nothing
 gets stuck.
 */
module SocketRun {
  import opened Options
  import opened ByteOrder
  import opened Iovec
  import opened Framing
  import opened SocketParts
  import opened SocketMachine
  import opened SocketSender
  import opened SocketLink

  ghost predicate NoFailure(scripts: seq<seq<Outcome>>) { forall k :: 0 <= k < |scripts| ==> Failed !in scripts[k] }

  /** No system call of the event fails for good. */
  ghost predicate Flawless(e: Event) {
    match e
    case Submit(_, script) => Failed !in script
    case PollOut(scripts) => NoFailure(scripts)
    case PollIn(hs, ds, _) => Failed !in hs && Failed !in ds
    case _ => true
  }

  ghost predicate AllFlawless(events: seq<Event>) { forall k :: 0 <= k < |events| ==> Flawless(events[k]) }

  /** Messages that the sender can frame and whose payload, if accepted, fits the receiver's pages. */
  ghost predicate Submittable(events: seq<Event>, page: nat) {
    forall k :: 0 <= k < |events| && events[k].Submit? ==> Representable(events[k].m) && FitsPage(events[k].m, page)
  }

  /** Without errors a connected sender stays connected and its queue alive. */
  lemma {:induction false} FlawlessStep(s: Sender, e: Event)
    requires Flawless(e) && s.up && !s.dead
    ensures AfterEvent(s, e).up && !AfterEvent(s, e).dead
  {
    match e
    case Submit(m, script) => ErrsOnly(script, FrameLength(m), FrameLength(m));
    case PollOut(scripts) => FlawlessChurn(s.left, scripts);
    case _ =>
  }

  lemma {:induction false} FlawlessChurn(left: seq<nat>, scripts: seq<seq<Outcome>>)
    requires NoFailure(scripts)
    ensures !Churned(left, false, scripts).1
  {
    if left != [] {
      ErrsOnly(if scripts == [] then [] else scripts[0], left[0], left[0]);
      FlawlessChurn(left[1..], if scripts == [] then [] else scripts[1..]);
    }
  }

  /** Connected, and no system call has failed for good. */
  ghost predicate Fine(link: Link)
    reads link
  {
    link.connected == 1 && Healthy(link.ioq) && link.incoming.count >= 0
  }

  /** Any interleaving of submissions, polls, receives and a hang-up: what has been delivered is a
      prefix of what was accepted, in order and byte for byte; once the queue, the wire and the
      receiver are empty it is all of it, exactly if every message was sendable; and whether the
      sender is left with a queue that nothing wakes up is decided by the lengths and the scripts. */
  method Run(link: Link, events: seq<Event>)
    requires link.Valid() && Submittable(events, link.page)
    modifies link
    ensures link.Valid() && link.sent == old(link.sent) + Accepted(old(link.View()), events)
    ensures |link.got| <= |link.sent| && forall k :: 0 <= k < |link.got| ==> link.got[k] == AsDelivered(link.sent[k])
    ensures link.ioq == [] && link.wire == [] && link.incoming.state != Complete ==>
              (|link.got| == |link.sent| <==> forall k :: 0 <= k < |link.sent| ==> Sendable(link.sent[k]))
    ensures link.View() == AfterEvents(old(link.View()), events)
    ensures link.connected == 1 && link.ioq != [] && !link.pollOut <==> Lost(AfterEvents(old(link.View()), events))
    ensures AllFlawless(events) && old(Fine(link)) ==> Fine(link)
    ensures (forall e :: e in events ==> !e.HangUp?) ==> link.receiving == old(link.receiving)
  {
    hide Consistent, Sendable, Representable, FitsPage, AfterEvent, Sizes, AsDelivered, Flawless, Healthy, TailFine,
      QueueOk;
    ghost var s0, sent0 := link.View(), link.sent;
    HealthyView(link);
    for k := 0 to |events|
      invariant link.Valid() && link.View() == AfterEvents(s0, events[..k])
      invariant link.sent == sent0 + Accepted(s0, events[..k])
      invariant AllFlawless(events) && old(Fine(link)) ==> Fine(link)
      invariant (forall e :: e in events ==> !e.HangUp?) ==> link.receiving == old(link.receiving)
    {
      HealthyView(link);
      Prolonged(s0, sent0, events, k);
      if Flawless(events[k]) && link.connected == 1 && Healthy(link.ioq) {
        FlawlessStep(link.View(), events[k]);
        ReadsFlawless(events[k]);
      }
      assert events[k] in events;
      link.Handle(events[k]);
      HealthyView(link);
    }
    assert events[..|events|] == events;
    Quiet(link.writer, link.reader, link.sent, |link.got|, link.incoming, link.wire, link.ioq);
    PrefixMeans(link.got, link.sent);
    DeadQueue(link.ioq);
  }

  lemma {:induction false} ReadsFlawless(e: Event)
    requires Flawless(e)
    ensures e.PollIn? ==> Failed !in e.hs && Failed !in e.ds
  {
  }

  lemma {:induction false} DeadQueue(q: seq<Entry>)
    ensures Dead(q) ==> q != []
  {
  }

  lemma {:induction false} PrefixMeans(got: seq<Delivered>, sent: seq<Message>)
    requires Prefix(got, sent)
    ensures |got| <= |sent| && forall k :: 0 <= k < |got| ==> got[k] == AsDelivered(sent[k]) && Sendable(sent[k])
  {
  }

  /** Healthy entries are the ones of a queue that is not dead. */
  lemma {:induction false} HealthyView(link: Link)
    requires link.Valid()
    ensures Healthy(link.ioq) <==> !link.View().dead
  {
    hide Consistent, Prefix, AllFit;
  }

  lemma {:induction false} Prolonged(s: Sender, sent: seq<Message>, events: seq<Event>, k: nat)
    requires k < |events|
    ensures AfterEvents(s, events[..k + 1]) == AfterEvent(AfterEvents(s, events[..k]), events[k])
    ensures sent + Accepted(s, events[..k + 1]) ==
            sent + Accepted(s, events[..k]) +
            if events[k].Submit? && AfterEvents(s, events[..k]).up then [events[k].m] else []
  {
    assert events[..k + 1][..k] == events[..k];
  }

  lemma {:induction false} Quiet(writer: bool, reader: bool, sent: seq<Message>, got: nat, i: Incoming,
                                 wire: seq<Byte>, q: seq<Entry>)
    requires Consistent(writer, reader, sent, got, i, wire, q) && i.state != DataCame
    ensures got <= |sent|
    ensures wire == [] && q == [] && i.state != Complete && got < |sent| ==> !Sendable(sent[got])
  {
    if wire == [] && q == [] && i.state != Complete && got < |sent| && Sendable(sent[got]) {
      var a := Stream(writer, sent[..got]) + Part(i, reader);
      assert a + (wire + Waiting(q)) == a;
      NothingLeft(writer, reader, sent, got, i);
    }
  }

  // ---------------------------------------------------------------- nothing gets stuck

  /** What a connection waits for: its message to be fetched, its bytes to be read, or to be written. */
  datatype Need = Fetching | Reading | Writing

  ghost function Needed(link: Link): Need
    reads link
  {
    if link.incoming.state == Complete then Fetching else if link.wire != [] then Reading else Writing
  }

  /** The event does what is waited for, if only a byte of it. */
  predicate Serves(e: Event, need: Need) {
    match need
    case Fetching => e.Receive?
    case Reading => e.PollIn? && Obliging(e.hs) && Obliging(e.ds) && e.haveIobuf
    case Writing => e.PollOut? && e.scripts != [] && Obliging(e.scripts[0])
  }

  /** Events of a connection in working order to which nothing more is submitted. */
  ghost predicate Calm(e: Event) { Flawless(e) && !e.Submit? && !e.HangUp? }

  ghost predicate Working(link: Link)
    reads link
  {
    && link.Valid() && Fine(link) && link.receiving == 1
    && forall k :: 0 <= k < |link.sent| ==> Sendable(link.sent[k])
  }

  /** How far the bytes have to go: twice for those to be written, once for those to be read. */
  ghost function Distance(link: Link): nat
    reads link
    requires QueueOk(link.ioq)
  {
    2 * |Waiting(link.ioq)| + |link.wire|
  }

  lemma {:induction false} Adds(writer: bool, reader: bool, sent: seq<Message>, got: nat, i: Incoming,
                                wire: seq<Byte>, q: seq<Entry>)
    requires Consistent(writer, reader, sent, got, i, wire, q)
    ensures AllRepresentable(sent) && got <= |sent| && InOk(i, reader) && QueueOk(q)
    ensures |Waiting(q)| + |wire| == |Stream(writer, sent)| - |Stream(writer, sent[..got])| - |Part(i, reader)|
  {
    hide Stream, Waiting, InOk, Part, QueueOk;
  }

  lemma {:induction false} SomethingLeft(writer: bool, reader: bool, sent: seq<Message>, got: nat, i: Incoming,
                                         wire: seq<Byte>, q: seq<Entry>)
    requires Consistent(writer, reader, sent, got, i, wire, q) && wire != []
    ensures got < |sent|
  {
    hide Stream, Waiting, InOk, Part, QueueOk;
    NextFrame(writer, sent, got, Part(i, reader), wire + Waiting(q));
  }

  /** The header of a sendable message is not refused. */
  lemma {:induction false} NotRefused(writer: bool, reader: bool, sent: seq<Message>, got: nat, i: Incoming,
                                      wire: seq<Byte>, q: seq<Entry>)
    requires Consistent(writer, reader, sent, got, i, wire, q) && got < |sent| && Sendable(sent[got])
    ensures i.state == HeaderCame ==> |i.header| == HEADER_LEN && Validate(reader, i.header) != None
  {
    hide Stream, Waiting, Validate, HeaderBytes, QueueOk;
    if i.state == HeaderCame {
      NextHeader(writer, sent, got, Part(i, reader), wire + Waiting(q));
      HeaderRoundTrip(writer, reader, |sent[got].hdr|, |Flat(sent[got].payload)|);
      assert i.header[..HEADER_LEN] == i.header;
    }
  }

  predicate Busy(link: Link)
    reads link
  {
    link.ioq != [] || link.wire != [] || link.incoming.state == Complete
  }

  method WriteTurn(link: Link, scripts: seq<seq<Outcome>>)
    requires Working(link) && Busy(link) && Calm(PollOut(scripts))
    modifies link
    ensures Working(link) && link.sent == old(link.sent) && link.got == old(link.got)
    ensures Distance(link) <= old(Distance(link))
    ensures Distance(link) == old(Distance(link)) ==>
              Needed(link) == old(Needed(link)) && !Serves(PollOut(scripts), old(Needed(link)))
  {
    hide Consistent, Sendable, Waiting, Obliging, Sizes, Prefix, AllFit, TailFine, QueueOk, AfterEvent, Dead, Healthy;
    Adds(link.writer, link.reader, link.sent, |link.got|, link.incoming, link.wire, link.ioq);
    HealthyView(link);
    FlawlessStep(link.View(), PollOut(scripts));
    var _ := link.PollOut(scripts);
    HealthyView(link);
    Adds(link.writer, link.reader, link.sent, |link.got|, link.incoming, link.wire, link.ioq);
  }

  method ReadTurn(link: Link, hs: seq<Outcome>, ds: seq<Outcome>, haveIobuf: bool)
    requires Working(link) && Busy(link) && Calm(PollIn(hs, ds, haveIobuf))
    modifies link
    ensures Working(link) && link.sent == old(link.sent) && link.got == old(link.got)
    ensures Distance(link) <= old(Distance(link))
    ensures Distance(link) == old(Distance(link)) ==>
              Needed(link) == old(Needed(link)) && !Serves(PollIn(hs, ds, haveIobuf), old(Needed(link)))
  {
    hide Consistent, Sendable, Waiting, Obliging, Sizes, Prefix, AllFit, TailFine, QueueOk, Dead, Healthy, Validate;
    if link.wire != [] {
      SomethingLeft(link.writer, link.reader, link.sent, |link.got|, link.incoming, link.wire, link.ioq);
    }
    ghost var some := link.wire != [];
    var _ := link.PollIn(hs, ds, haveIobuf);
    if some {
      NotRefused(link.writer, link.reader, link.sent, |link.got|, link.incoming, link.wire, link.ioq);
    }
  }

  method FetchTurn(link: Link)
    requires Working(link) && Busy(link)
    modifies link
    ensures Working(link) && link.sent == old(link.sent)
    ensures |link.got| == |old(link.got)| + (if old(Needed(link)) == Fetching then 1 else 0)
    ensures old(Needed(link)) != Fetching ==> Distance(link) == old(Distance(link)) && Needed(link) == old(Needed(link))
  {
    hide Consistent, Sendable, Waiting, Sizes, Prefix, AllFit, TailFine, QueueOk, Dead, Healthy;
    var _ := link.Receive();
  }

  /** One event on a connection in working order: something is delivered, or bytes come closer, or
      nothing has changed as far as the need is concerned, which only an event that does not serve it
      can do. */
  method Turn(link: Link, e: Event)
    requires Working(link) && Busy(link) && Calm(e)
    modifies link
    ensures Working(link) && link.sent == old(link.sent) && |link.got| >= |old(link.got)|
    ensures |link.got| == |old(link.got)| ==>
              && Distance(link) <= old(Distance(link))
              && (Distance(link) == old(Distance(link)) ==>
                    Needed(link) == old(Needed(link)) && !Serves(e, old(Needed(link))))
  {
    hide Consistent, Sendable, Waiting, Sizes, Prefix, AllFit, TailFine, QueueOk, Dead, Healthy, Obliging, Flawless;
    match e {
      case PollOut(scripts) => WriteTurn(link, scripts);
      case PollIn(hs, ds, haveIobuf) => ReadTurn(link, hs, ds, haveIobuf);
      case Receive => FetchTurn(link);
    }
  }

  /** Nothing gets stuck.  The events are an endless sequence in any order, with calls that move nothing
      or are interrupted as often as the environment likes; only, whatever a connection waits for, it
      is served at least by a byte again and again (`next` says when).  Then everything that was
      accepted is delivered. */
  method Drain(link: Link, events: nat -> Event, ghost next: (nat, Need) -> nat) returns (turns: nat)
    requires Working(link) && forall n: nat :: Calm(events(n))
    requires forall n: nat, need: Need :: next(n, need) >= n && Serves(events(next(n, need)), need)
    modifies link
    ensures Working(link) && link.sent == old(link.sent) && |link.got| == |link.sent|
    ensures link.ioq == [] && link.wire == []
  {
    hide Consistent, Sendable, Waiting, Sizes, Prefix, AllFit, TailFine, QueueOk, Dead, Healthy, Calm, Serves;
    turns := 0;
    ghost var due := next(0, Needed(link));
    GotBound(link);
    while Busy(link)
      invariant Working(link) && link.sent == old(link.sent) && |link.got| <= |link.sent|
      invariant due >= turns && Serves(events(due), Needed(link))
      decreases |link.sent| - |link.got|, Distance(link), due - turns
    {
      ghost var got, distance := |link.got|, Distance(link);
      Turn(link, events(turns));
      GotBound(link);
      turns := turns + 1;
      if |link.got| != got || Distance(link) != distance {
        due := next(turns, Needed(link));
      }
    }
    Quiet(link.writer, link.reader, link.sent, |link.got|, link.incoming, link.wire, link.ioq);
  }

  lemma {:induction false} GotBound(link: Link)
    requires link.Valid()
    ensures |link.got| <= |link.sent| && QueueOk(link.ioq)
  {
  }

  /** A whole session: submissions in any interleaving with polls and receives, all without errors,
      and then enough polls: every message is delivered. */
  method Session(writer: bool, reader: bool, page: nat, events: seq<Event>, later: nat -> Event,
                 ghost next: (nat, Need) -> nat)
    returns (link: Link)
    requires Submittable(events, page) && AllFlawless(events) && forall e :: e in events ==> !e.HangUp?
    requires forall k :: 0 <= k < |events| && events[k].Submit? ==> Sendable(events[k].m)
    requires forall n: nat :: Calm(later(n))
    requires forall n: nat, need: Need :: next(n, need) >= n && Serves(later(next(n, need)), need)
    ensures fresh(link) && link.Valid()
    ensures link.sent == Submitted(events)
    ensures |link.got| == |link.sent| && forall k :: 0 <= k < |link.got| ==> link.got[k] == AsDelivered(link.sent[k])
  {
    hide Consistent, Sendable, Representable, Sizes, AsDelivered, Flawless, TailFine, QueueOk, FitsPage, Calm, Serves,
      Prefix;
    link := new Link(writer, reader, page);
    ghost var s := link.View();
    Run(link, events);
    AllAccepted(s, events);
    assert [] + Submitted(events) == Submitted(events);
    SubmittedSendable(events);
    var _ := Drain(link, later, next);
    PrefixMeans(link.got, link.sent);
  }

  /** The messages submitted, in order. */
  function Submitted(events: seq<Event>): seq<Message> {
    if events == [] then [] else
    var last := events[|events| - 1];
    Submitted(events[..|events| - 1]) + if last.Submit? then [last.m] else []
  }

  lemma {:induction false} AllAccepted(s: Sender, events: seq<Event>)
    requires AllFlawless(events) && s.up && !s.dead
    ensures Accepted(s, events) == Submitted(events) && AfterEvents(s, events).up && !AfterEvents(s, events).dead
  {
    hide Flawless, AfterEvent;
    if events != [] {
      AllAccepted(s, events[..|events| - 1]);
      FlawlessStep(AfterEvents(s, events[..|events| - 1]), events[|events| - 1]);
    }
  }

  lemma {:induction false} SubmittedSendable(events: seq<Event>)
    requires forall k :: 0 <= k < |events| && events[k].Submit? ==> Sendable(events[k].m)
    ensures forall k :: 0 <= k < |Submitted(events)| ==> Sendable(Submitted(events)[k])
  {
    hide Sendable;
    if events != [] {
      SubmittedSendable(events[..|events| - 1]);
    }
  }

  /** A wake-up that is lost, in every way it can be: one submission on a fresh connection whose
      script runs into its error. */
  method LostWakeup(m: Message, script: seq<Outcome>) returns (link: Link, ret: int)
    requires Representable(m)
    ensures link.Valid() && ret == 0 && link.sent == [m]
    ensures link.connected == 1 && link.ioq != [] && !link.pollOut <==> Errs(script, FrameLength(m), FrameLength(m))
  {
    link := new Link(true, true, |Flat(m.payload)|);
    FrameSize(true, m);
    ret := link.Submit(m, script);
    assert link.sent == [] + [m];
  }
}
