/**
 The sending side of src/socket.c reduced to numbers: how many bytes each queued entry
 has left.  Whether a connection can lose its wake-up is decided here.
 */
module SocketSender {
  import opened Iovec
  import opened Framing

  /** What can happen to a connection. `HangUp` is `__socket_disconnect` on the receiving side. */
  datatype Event =
    | Submit(m: Message, script: seq<Outcome>)
    | PollOut(scripts: seq<seq<Outcome>>)
    | PollIn(hs: seq<Outcome>, ds: seq<Outcome>, haveIobuf: bool)
    | Receive
    | HangUp

  /** How a sender stands: whether it is connected, how many bytes each queued entry has left, and
      whether the first of them has met a write error. */
  datatype Sender = Sender(up: bool, left: seq<nat>, dead: bool)

  function FrameLength(m: Message): nat { HEADER_LEN + |m.hdr| + |Flat(m.payload)| }

  /** A queue after its entries have been written one by one, and whether that met an error. */
  function Churned(left: seq<nat>, dead: bool, scripts: seq<seq<Outcome>>): (seq<nat>, bool) {
    if left == [] then ([], false)
    else if dead then (left, true)
    else
      var script := if scripts == [] then [] else scripts[0];
      var r := MovedBy(script, left[0], left[0]);
      if Errs(script, left[0], left[0]) then ([left[0] - r] + left[1..], true)
      else if r == left[0] then Churned(left[1..], false, if scripts == [] then [] else scripts[1..])
      else ([left[0] - r] + left[1..], false)
  }

  function AfterEvent(s: Sender, e: Event): Sender {
    match e
    case Submit(m, script) =>
      if !s.up then s
      else if s.left != [] then s.(left := s.left + [FrameLength(m)])
      else
        var n := FrameLength(m);
        var r := MovedBy(script, n, n);
        if Errs(script, n, n) then Sender(true, [n - r], true)
        else if r == n then Sender(true, [], false)
        else Sender(true, [n - r], false)
    case PollOut(scripts) =>
      if !s.up then s else
      var c := Churned(s.left, s.dead, scripts);
      Sender(!c.1, c.0, c.1)
    case _ => s
  }

  function AfterEvents(s: Sender, events: seq<Event>): Sender {
    if events == [] then s else
    AfterEvent(AfterEvents(s, events[..|events| - 1]), events[|events| - 1])
  }

  /** The messages accepted, in order: those submitted while the sender is connected. */
  function Accepted(s: Sender, events: seq<Event>): seq<Message> {
    if events == [] then [] else
    var n := |events| - 1;
    Accepted(s, events[..n]) +
    if events[n].Submit? && AfterEvents(s, events[..n]).up then [events[n].m] else []
  }

  /** A queue that nothing will wake up: connected, not empty, POLLOUT not selected. */
  predicate Lost(s: Sender) { s.up && s.dead }

  /** The submission whose first write fails: the queue is empty, and the script runs into its error. */
  predicate Loses(s: Sender, e: Event) {
    e.Submit? && s.up && s.left == [] && Errs(e.script, FrameLength(e.m), FrameLength(e.m))
  }

  /** Event `k` loses the wake-up, and POLLOUT is not handled after it. */
  ghost predicate LostAt(s: Sender, events: seq<Event>, k: nat) {
    && k < |events| && Loses(AfterEvents(s, events[..k]), events[k])
    && forall j :: k < j < |events| ==> !events[j].PollOut?
  }

  /** A wake-up is lost if and only if at some point a submission to an empty queue runs into a write
      error and POLLOUT is never handled after it. */
  lemma {:induction false} LostExactly(s: Sender, events: seq<Event>)
    requires !s.dead
    ensures Lost(AfterEvents(s, events)) <==> exists k: nat :: LostAt(s, events, k)
    ensures AfterEvents(s, events).dead ==> AfterEvents(s, events).left != []
  {
    hide LostAt, Loses, Lost, AfterEvent;
    if events == [] {
      NotYet(s);
    } else {
      var n := |events| - 1;
      var init := events[..n];
      LostExactly(s, init);
      LostStep(AfterEvents(s, init), events[n]);
      LostLast(s, events);
      if k: nat :| LostAt(s, init, k) {
        LostBefore(s, events, k);
      }
      if k: nat :| LostAt(s, events, k) {
        LostBefore(s, events, k);
      }
    }
  }

  lemma {:induction false} NotYet(s: Sender)
    requires !s.dead
    ensures !Lost(s) && forall k: nat :: !LostAt(s, [], k)
  {
  }

  lemma {:induction false} LostStep(s: Sender, e: Event)
    requires s.dead ==> s.left != []
    ensures Lost(AfterEvent(s, e)) <==> Loses(s, e) || (Lost(s) && !e.PollOut?)
    ensures AfterEvent(s, e).dead ==> AfterEvent(s, e).left != []
  {
    if e.PollOut? {
      ChurnedDead(s.left, s.dead, e.scripts);
    }
  }

  lemma {:induction false} LostLast(s: Sender, events: seq<Event>)
    requires events != []
    ensures var n := |events| - 1; LostAt(s, events, n) <==> Loses(AfterEvents(s, events[..n]), events[n])
  {
  }

  lemma {:induction false} LostBefore(s: Sender, events: seq<Event>, k: nat)
    requires events != []
    ensures var n := |events| - 1;
            && (k != n ==> (LostAt(s, events, k) <==> LostAt(s, events[..n], k) && !events[n].PollOut?))
            && (LostAt(s, events[..n], k) ==> k < n)
  {
    var n := |events| - 1;
    if k < n {
      assert events[..n][..k] == events[..k];
    }
  }

  lemma {:induction false} ChurnedDead(left: seq<nat>, dead: bool, scripts: seq<seq<Outcome>>)
    ensures Churned(left, dead, scripts).1 ==> Churned(left, dead, scripts).0 != []
  {
    if left != [] && !dead {
      ChurnedDead(left[1..], false, if scripts == [] then [] else scripts[1..]);
    }
  }
}
