/**
 The epoll registry of src/event.c:47-71 and 497-788: an array of registrations
 kept dense by moving the last one into a gap, and the kernel's own table, which
 remembers for every descriptor its events and its place in the array.
 */
module EventPool {
  import opened Options

  /** The interesting bits of `events`; EPOLLPRI is always set. */
  datatype Events = Events(input: bool, output: bool)

  datatype Reg<D> = Reg(fd: int, events: Events, data: D)

  /** `struct epoll_event` as the kernel keeps it: events, and `event_data` (fd, idx). */
  datatype Kept = Kept(events: Events, fd: int, idx: int)

  /** `case 1`, `case 0`, anything else: set, clear, leave alone. */
  function Choose(poll: int, was: bool): bool { if poll == 1 then true else if poll == 0 then false else was }

  /** What a poll argument asks for: 1 sets, 0 clears, anything else keeps. */
  predicate Wants(poll: int, was: bool, now: bool) {
    (poll == 1 ==> now) && (poll == 0 ==> !now) && (poll != 0 && poll != 1 ==> now == was)
  }

  /** epoll_ctl: the answer and the kernel's table after it. Adding wants a descriptor that is valid
      and absent, changing and deleting want one that is there. */
  function CtlAdd(kernel: map<int, Kept>, fd: int, k: Kept): (int, map<int, Kept>) {
    if fd >= 0 && fd !in kernel then (0, kernel[fd := k]) else (-1, kernel)
  }

  function CtlMod(kernel: map<int, Kept>, fd: int, k: Kept): (int, map<int, Kept>) {
    if fd in kernel then (0, kernel[fd := k]) else (-1, kernel)
  }

  function CtlDel(kernel: map<int, Kept>, fd: int): (int, map<int, Kept>) {
    if fd in kernel then (0, Without(kernel, fd)) else (-1, kernel)
  }

  function Without<V>(m: map<int, V>, fd: int): map<int, V> { m - {fd} }

  lemma {:induction false} Absent<V>(m: map<int, V>, fd: int)
    requires fd !in m
    ensures Without(m, fd) == m
  {
  }

  /** The registered descriptors, as a map. */
  ghost function View<D>(reg: seq<Reg<D>>, used: nat): map<int, Reg<D>>
    requires used <= |reg|
  {
    if used == 0 then map[] else View(reg, used - 1)[reg[used - 1].fd := reg[used - 1]]
  }

  ghost predicate Dense<D>(reg: seq<Reg<D>>, used: nat) {
    && used <= |reg|
    && (forall i :: 0 <= i < used ==> reg[i].fd >= 0)
    && (forall i, j :: 0 <= i < j < used ==> reg[i].fd != reg[j].fd)
  }

  /** The kernel maps exactly the registered descriptors, each to its events and its index. */
  ghost predicate Mirror<D>(reg: seq<Reg<D>>, used: nat, kernel: map<int, Kept>) {
    && used <= |reg|
    && (forall i :: 0 <= i < used ==> reg[i].fd in kernel && kernel[reg[i].fd] == Kept(reg[i].events, reg[i].fd, i))
    && (forall fd :: fd in kernel ==> 0 <= kernel[fd].idx < used && reg[kernel[fd].idx].fd == fd)
  }

  lemma {:induction false} ViewHas<D>(reg: seq<Reg<D>>, used: nat, fd: int)
    requires Dense(reg, used)
    ensures fd in View(reg, used) <==> exists i :: 0 <= i < used && reg[i].fd == fd
    ensures forall i :: 0 <= i < used && reg[i].fd == fd ==> View(reg, used)[fd] == reg[i]
  {
    if used > 0 {
      ViewHas(reg, used - 1, fd);
    }
  }

  /** Two registries with the same registrations are the same map, whatever the order. */
  lemma {:induction false} SameView<D>(a: seq<Reg<D>>, m: nat, b: map<int, Reg<D>>)
    requires Dense(a, m)
    requires forall i :: 0 <= i < m ==> a[i].fd in b && b[a[i].fd] == a[i]
    requires forall fd :: fd in b ==> exists i :: 0 <= i < m && a[i].fd == fd
    ensures View(a, m) == b
  {
    forall fd ensures fd in View(a, m) <==> fd in b
              ensures fd in b ==> fd in View(a, m) && View(a, m)[fd] == b[fd]
    {
      ViewHas(a, m, fd);
    }
  }

  /** One call on the pool. Hints are whatever the caller believes; an event's index is whatever it
      was when the kernel reported it. */
  datatype Call<D> =
    | Registering(fd: int, data: D, pollIn: int, pollOut: int)
    | Selecting(fd: int, hint: int, pollIn: int, pollOut: int)
    | Unregistering(fd: int, hint: int)
    | Dispatching(fd: int, hint: int)

  /** What a call means on the map of registrations: no index appears. */
  function After<D>(m: map<int, Reg<D>>, c: Call<D>): map<int, Reg<D>> {
    match c
    case Registering(fd, data, i, o) => m[fd := Reg(fd, Events(Choose(i, false), Choose(o, false)), data)]
    case Selecting(fd, _, i, o) =>
      if fd !in m then m else
      m[fd := m[fd].(events := Events(Choose(i, m[fd].events.input), Choose(o, m[fd].events.output)))]
    case Unregistering(fd, _) => Without(m, fd)
    case Dispatching(_, _) => m
  }

  /** What becomes of every descriptor. */
  lemma {:induction false} AfterMeans<D>(m: map<int, Reg<D>>, c: Call<D>, fd: int)
    ensures fd != c.fd ==> (fd in After(m, c) <==> fd in m) && (fd in m ==> After(m, c)[fd] == m[fd])
    ensures c.Registering? ==>
              && c.fd in After(m, c) && After(m, c)[c.fd].data == c.data
              && (After(m, c)[c.fd].events.input <==> c.pollIn == 1)
              && (After(m, c)[c.fd].events.output <==> c.pollOut == 1)
    ensures c.Selecting? ==>
              && (c.fd in After(m, c) <==> c.fd in m)
              && (c.fd in m ==>
                    && After(m, c)[c.fd].data == m[c.fd].data
                    && Wants(c.pollIn, m[c.fd].events.input, After(m, c)[c.fd].events.input)
                    && Wants(c.pollOut, m[c.fd].events.output, After(m, c)[c.fd].events.output))
    ensures c.Unregistering? ==> c.fd !in After(m, c)
    ensures c.Dispatching? ==> After(m, c) == m
  {
  }

  function AfterAll<D>(m: map<int, Reg<D>>, calls: seq<Call<D>>): map<int, Reg<D>> {
    if calls == [] then m else After(AfterAll(m, calls[..|calls| - 1]), calls[|calls| - 1])
  }

  /** Whose handler and data each dispatched event ran, if any. */
  function Handled<D>(m: map<int, Reg<D>>, calls: seq<Call<D>>): seq<Option<D>> {
    if calls == [] then [] else
    var before := AfterAll(m, calls[..|calls| - 1]);
    Handled(m, calls[..|calls| - 1]) +
    match calls[|calls| - 1]
    case Dispatching(fd, _) => [if fd in before then Some(before[fd].data) else None]
    case _ => []
  }

  /** Only valid descriptors are registered, and none twice at a time. */
  predicate Orderly<D>(m: map<int, Reg<D>>, calls: seq<Call<D>>) {
    calls == [] ||
    var last := calls[|calls| - 1];
    && Orderly(m, calls[..|calls| - 1])
    && (last.Registering? ==> last.fd >= 0 && last.fd !in AfterAll(m, calls[..|calls| - 1]))
  }

  lemma {:induction false} OrderlyUpTo<D>(m: map<int, Reg<D>>, calls: seq<Call<D>>, i: nat)
    requires Orderly(m, calls) && i <= |calls|
    ensures Orderly(m, calls[..i])
  {
    if i < |calls| {
      assert calls[..|calls| - 1][..i] == calls[..i];
      OrderlyUpTo(m, calls[..|calls| - 1], i);
    } else {
      assert calls[..i] == calls;
    }
  }

  class Pool<D(0)> {
    var reg: seq<Reg<D>>          // |reg| is `count`
    var used: nat
    var kernel: map<int, Kept>    // what epoll_ctl has been told

    ghost predicate Valid()
      reads this
    {
      |reg| > 0 && used <= |reg| && Dense(reg, used) && Mirror(reg, used, kernel)
    }

    ghost function Registered(): map<int, Reg<D>>
      reads this
      requires used <= |reg|
    {
      View(reg, used)
    }

    constructor (count: nat)
      requires count > 0
      ensures Valid() && Registered() == map[]
    {
      var blank: D := *;
      reg := seq(count, _ => Reg(-1, Events(false, false), blank));
      used, kernel := 0, map[];
    }

    /** `__event_getindex`: the hint can only save the search, not change its result. */
    method GetIndex(fd: int, hint: int) returns (r: int)
      requires Valid()
      ensures -1 <= r < used
      ensures r >= 0 ==> reg[r].fd == fd
      ensures r == -1 <==> fd !in Registered()
    {
      r := -1;
      if -1 < hint < used {
        if reg[hint].fd == fd {
          r := hint;
        }
      }
      var i := 0;
      while r == -1 && i < used
        invariant i <= used && -1 <= r < used && (r >= 0 ==> reg[r].fd == fd)
        invariant r == -1 ==> forall k :: 0 <= k < i ==> reg[k].fd != fd
      {
        if reg[i].fd == fd {
          r := i;
          break;
        }
        i := i + 1;
      }
      ViewHas(reg, used, fd);
    }

    /** event_register_epoll. The slot is taken before the kernel is asked, and a refusal leaves it
        behind: the registry stays well formed exactly when the call succeeds, which is exactly when
        the descriptor is valid and not registered yet. */
    method Register(fd: int, data: D, pollIn: int, pollOut: int) returns (ret: int)
      requires Valid()
      modifies this
      ensures ret == 0 || ret == -1
      ensures ret == 0 <==> fd >= 0 && fd !in old(Registered())
      ensures Valid() <==> ret == 0
      ensures ret == 0 ==>
                var events := Events(Choose(pollIn, false), Choose(pollOut, false));
                Registered() == old(Registered())[fd := Reg(fd, events, data)]
      ensures ret == 0 ==>
                && fd in Registered() && Registered()[fd].data == data
                && (Registered()[fd].events.input <==> pollIn == 1)
                && (Registered()[fd].events.output <==> pollOut == 1)
    {
      hide View, Mirror;
      ghost var reg0, kernel0 := reg, kernel;
      if |reg| == used {
        var blank: D := *;
        reg := reg + seq(|reg|, _ => Reg(-1, Events(false, false), blank));
      }
      var idx := used;
      used := used + 1;
      var r := Reg(fd, Events(Choose(pollIn, false), Choose(pollOut, false)), data);
      reg := reg[idx := r];
      var answer := CtlAdd(kernel, fd, Kept(r.events, fd, idx));
      kernel := answer.1;
      ret := answer.0;
      Placed(reg0, idx, kernel0, reg, r);
    }

    /** event_select_on_epoll */
    method SelectOn(fd: int, hint: int, pollIn: int, pollOut: int) returns (ret: int)
      requires Valid()
      modifies this`reg, this`kernel
      ensures Valid() && (ret == 0 || ret == -1)
      ensures ret == 0 <==> fd in old(Registered())
      ensures Registered() == if ret != 0 then old(Registered()) else
                var r := old(Registered())[fd];
                var events := Events(Choose(pollIn, r.events.input), Choose(pollOut, r.events.output));
                old(Registered())[fd := r.(events := events)]
      ensures ret == 0 ==>
                && fd in Registered() && Registered()[fd].data == old(Registered())[fd].data
                && Wants(pollIn, old(Registered())[fd].events.input, Registered()[fd].events.input)
                && Wants(pollOut, old(Registered())[fd].events.output, Registered()[fd].events.output)
    {
      hide View, Mirror, Dense;
      var idx := GetIndex(fd, hint);
      if idx == -1 {
        return -1;
      }
      ghost var reg0, kernel0 := reg, kernel;
      var e := reg[idx].events;
      var r := reg[idx].(events := Events(Choose(pollIn, e.input), Choose(pollOut, e.output)));
      reg := reg[idx := r];
      var answer := CtlMod(kernel, fd, Kept(r.events, fd, idx));
      kernel := answer.1;
      ret := answer.0;
      Changed(reg0, used, kernel0, idx, r.events);
    }

    /** event_unregister_epoll: the last registration moves into the gap, and the kernel is told. */
    method Unregister(fd: int, hint: int) returns (ret: int)
      requires Valid()
      modifies this
      ensures Valid() && (ret == 0 || ret == -1)
      ensures ret == 0 <==> fd in old(Registered())
      ensures Registered() == Without(old(Registered()), fd)
    {
      hide View, Mirror, Dense, Without;
      var idx := GetIndex(fd, hint);
      if idx == -1 {
        Absent(Registered(), fd);
        return -1;
      }
      ghost var reg0, used0, kernel0 := reg, used, kernel;
      Gone(reg0, used0, kernel0, idx);
      var answer := CtlDel(kernel, fd);
      kernel := answer.1;
      ret := answer.0;
      reg := reg[idx := reg[idx].(fd := -1)];
      if ret == -1 {
        return;
      }
      var last := used - 1;
      if last == idx {
        used := used - 1;
        return;
      }
      answer := CtlMod(kernel, reg[last].fd, Kept(reg[last].events, reg[last].fd, idx));
      kernel := answer.1;
      ret := answer.0;
      if ret == -1 {
        return;
      }
      reg := reg[idx := reg[last]];
      used := used - 1;
    }

    /** event_dispatch_epoll_handler: an event that was fetched earlier finds the handler and data
        registered under its own descriptor, or none, wherever they are by now. */
    method Dispatch(fd: int, idx: int) returns (data: Option<D>)
      requires Valid()
      ensures data == if fd in Registered() then Some(Registered()[fd].data) else None
    {
      var i := GetIndex(fd, idx);
      ViewHas(reg, used, fd);
      data := if i == -1 then None else Some(reg[i].data);
    }

    method Step(call: Call<D>) returns (seen: seq<Option<D>>)
      requires Valid() && (call.Registering? ==> call.fd >= 0 && call.fd !in Registered())
      modifies this
      ensures Valid() && Registered() == After(old(Registered()), call)
      ensures seen == if !call.Dispatching? then [] else
                      [if call.fd in old(Registered()) then Some(old(Registered())[call.fd].data) else None]
    {
      hide View, Dense, Mirror, Without;
      seen := [];
      match call {
        case Registering(fd, data, i, o) => var _ := Register(fd, data, i, o);
        case Selecting(fd, hint, i, o) => var _ := SelectOn(fd, hint, i, o);
        case Unregistering(fd, hint) => var _ := Unregister(fd, hint);
        case Dispatching(fd, hint) =>
          var d := Dispatch(fd, hint);
          seen := [d];
      }
    }

    /** Every run of calls, with arbitrary hints and arbitrarily late events: the pool behaves as the
        map does, and every event runs the handler and data of its own descriptor or nothing. */
    method Run(calls: seq<Call<D>>) returns (seen: seq<Option<D>>)
      requires Valid() && Orderly(Registered(), calls)
      modifies this
      ensures Valid()
      ensures Registered() == AfterAll(old(Registered()), calls)
      ensures seen == Handled(old(Registered()), calls)
    {
      hide View, Dense, Mirror, Without, After;
      ghost var m := Registered();
      seen := [];
      for k := 0 to |calls|
        invariant Valid() && Registered() == AfterAll(m, calls[..k]) && seen == Handled(m, calls[..k])
      {
        OrderlyUpTo(m, calls, k + 1);
        assert calls[..k + 1][..k] == calls[..k];
        var more := Step(calls[k]);
        seen := seen + more;
      }
      assert calls[..|calls|] == calls;
    }
  }

  lemma {:induction false} Holds<D>(reg: seq<Reg<D>>, used: nat)
    requires Dense(reg, used)
    ensures forall i :: 0 <= i < used ==> reg[i].fd in View(reg, used) && View(reg, used)[reg[i].fd] == reg[i]
    ensures forall fd :: fd in View(reg, used) ==> exists i :: 0 <= i < used && reg[i].fd == fd
  {
    forall i | 0 <= i < used ensures reg[i].fd in View(reg, used) && View(reg, used)[reg[i].fd] == reg[i] {
      ViewHas(reg, used, reg[i].fd);
    }
    forall fd | fd in View(reg, used) ensures exists i :: 0 <= i < used && reg[i].fd == fd {
      ViewHas(reg, used, fd);
    }
  }

  /** The kernel's table and the registry know the same descriptors. */
  lemma {:induction false} SameKeys<D>(reg: seq<Reg<D>>, used: nat, kernel: map<int, Kept>, fd: int)
    requires Dense(reg, used) && Mirror(reg, used, kernel)
    ensures fd in View(reg, used) <==> fd in kernel
  {
    ViewHas(reg, used, fd);
    if fd in kernel {
      assert reg[kernel[fd].idx].fd == fd;
    }
  }

  /** What registering does. */
  lemma {:induction false} Placed<D>(reg: seq<Reg<D>>, used: nat, kernel: map<int, Kept>, reg': seq<Reg<D>>, r: Reg<D>)
    requires Dense(reg, used) && Mirror(reg, used, kernel) && used < |reg'| && reg'[used] == r
    requires forall i :: 0 <= i < used ==> reg'[i] == reg[i]
    ensures r.fd in kernel <==> r.fd in View(reg, used)
    ensures r.fd >= 0 && r.fd !in kernel <==> Dense(reg', used + 1)
    ensures r.fd >= 0 && r.fd !in kernel ==>
              && Mirror(reg', used + 1, kernel[r.fd := Kept(r.events, r.fd, used)])
              && View(reg', used + 1) == View(reg, used)[r.fd := r]
  {
    SameKeys(reg, used, kernel, r.fd);
    if r.fd in kernel {
      assert reg'[kernel[r.fd].idx].fd == reg'[used].fd;
    } else if r.fd >= 0 {
      SameRegs(reg, reg', used);
    }
  }

  lemma {:induction false} SameRegs<D>(reg: seq<Reg<D>>, reg': seq<Reg<D>>, used: nat)
    requires used <= |reg| && used <= |reg'|
    requires forall i :: 0 <= i < used ==> reg'[i] == reg[i]
    ensures View(reg, used) == View(reg', used)
  {
    if used > 0 {
      SameRegs(reg, reg', used - 1);
    }
  }

  /** What selecting does. */
  lemma {:induction false} Changed<D>(reg: seq<Reg<D>>, used: nat, kernel: map<int, Kept>, idx: nat, e: Events)
    requires Dense(reg, used) && Mirror(reg, used, kernel) && idx < used
    ensures var fd := reg[idx].fd; var r := reg[idx].(events := e); var reg' := reg[idx := r];
            && fd in kernel && fd in View(reg, used) && View(reg, used)[fd] == reg[idx]
            && Dense(reg', used) && Mirror(reg', used, kernel[fd := Kept(e, fd, idx)])
            && View(reg', used) == View(reg, used)[fd := r]
  {
    var r := reg[idx].(events := e);
    var reg' := reg[idx := r];
    ViewHas(reg, used, r.fd);
    Retouched(reg, used, reg', idx);
  }

  lemma {:induction false} Retouched<D>(reg: seq<Reg<D>>, used: nat, reg': seq<Reg<D>>, idx: nat)
    requires Dense(reg, used) && Dense(reg', used) && idx < used && |reg'| == |reg|
    requires forall i :: 0 <= i < used && i != idx ==> reg'[i] == reg[i]
    requires reg'[idx].fd == reg[idx].fd
    ensures View(reg', used) == View(reg, used)[reg[idx].fd := reg'[idx]]
  {
    Holds(reg, used);
    var b := View(reg, used)[reg[idx].fd := reg'[idx]];
    forall fd | fd in b ensures exists i :: 0 <= i < used && reg'[i].fd == fd {
      var i :| 0 <= i < used && reg[i].fd == fd;
      assert reg'[i].fd == fd;
    }
    SameView(reg', used, b);
  }

  /** What unregistering does, the moved registration included. */
  lemma {:induction false} Gone<D>(reg: seq<Reg<D>>, used: nat, kernel: map<int, Kept>, idx: nat)
    requires Dense(reg, used) && Mirror(reg, used, kernel) && idx < used
    ensures var fd := reg[idx].fd; var last := used - 1; var moved := reg[last];
            var reg' := reg[idx := reg[idx].(fd := -1)]; var kernel' := Without(kernel, fd);
            && fd in kernel
            && (idx == last ==>
                  && Dense(reg', last) && Mirror(reg', last, kernel')
                  && View(reg', last) == Without(View(reg, used), fd))
            && (idx != last ==>
                  && moved.fd in kernel'
                  && Dense(reg'[idx := moved], last)
                  && Mirror(reg'[idx := moved], last, kernel'[moved.fd := Kept(moved.events, moved.fd, idx)])
                  && View(reg'[idx := moved], last) == Without(View(reg, used), fd))
  {
    hide View, Mirror;
    var reg' := reg[idx := reg[idx].(fd := -1)];
    GoneMirror(reg, used, kernel, idx);
    if idx == used - 1 {
      Closed(reg, used, reg', idx);
    } else {
      Closed(reg, used, reg'[idx := reg[used - 1]], idx);
    }
  }

  lemma {:induction false} GoneMirror<D>(reg: seq<Reg<D>>, used: nat, kernel: map<int, Kept>, idx: nat)
    requires Dense(reg, used) && Mirror(reg, used, kernel) && idx < used
    ensures var fd := reg[idx].fd; var last := used - 1; var moved := reg[last];
            var reg' := reg[idx := reg[idx].(fd := -1)]; var kernel' := Without(kernel, fd);
            && fd in kernel
            && (idx == last ==> Mirror(reg', last, kernel'))
            && (idx != last ==>
                  && moved.fd in kernel'
                  && Mirror(reg'[idx := moved], last, kernel'[moved.fd := Kept(moved.events, moved.fd, idx)]))
  {
  }

  lemma {:induction false} Closed<D>(reg: seq<Reg<D>>, used: nat, reg': seq<Reg<D>>, idx: nat)
    requires Dense(reg, used) && idx < used && |reg'| == |reg|
    requires forall i :: 0 <= i < used - 1 ==> reg'[i] == if i == idx then reg[used - 1] else reg[i]
    ensures Dense(reg', used - 1) && View(reg', used - 1) == Without(View(reg, used), reg[idx].fd)
  {
    hide View, Without, Dense;
    ClosedDense(reg, used, reg', idx);
    ClosedThere(reg, used, reg', idx);
    StillThere(reg, used, reg', idx);
    SameView(reg', used - 1, Without(View(reg, used), reg[idx].fd));
  }

  lemma {:induction false} ClosedDense<D>(reg: seq<Reg<D>>, used: nat, reg': seq<Reg<D>>, idx: nat)
    requires Dense(reg, used) && idx < used && |reg'| == |reg|
    requires forall i :: 0 <= i < used - 1 ==> reg'[i] == if i == idx then reg[used - 1] else reg[i]
    ensures Dense(reg', used - 1) && used - 1 <= |reg'| && used <= |reg|
  {
  }

  lemma {:induction false} ClosedThere<D>(reg: seq<Reg<D>>, used: nat, reg': seq<Reg<D>>, idx: nat)
    requires Dense(reg, used) && idx < used <= |reg| == |reg'|
    requires forall i :: 0 <= i < used - 1 ==> reg'[i] == if i == idx then reg[used - 1] else reg[i]
    ensures var b := Without(View(reg, used), reg[idx].fd);
            forall i :: 0 <= i < used - 1 ==> reg'[i].fd in b && b[reg'[i].fd] == reg'[i]
  {
    hide View;
    var b := Without(View(reg, used), reg[idx].fd);
    forall i | 0 <= i < used - 1 ensures reg'[i].fd in b && b[reg'[i].fd] == reg'[i] {
      var j := if i == idx then used - 1 else i;
      HoldsAt(reg, used, j);
      assert reg'[i] == reg[j] && reg[j].fd != reg[idx].fd;
    }
  }

  lemma {:induction false} HoldsAt<D>(reg: seq<Reg<D>>, used: nat, j: nat)
    requires Dense(reg, used) && j < used
    ensures reg[j].fd in View(reg, used) && View(reg, used)[reg[j].fd] == reg[j]
  {
    ViewHas(reg, used, reg[j].fd);
  }

  lemma {:induction false} StillThere<D>(reg: seq<Reg<D>>, used: nat, reg': seq<Reg<D>>, idx: nat)
    requires Dense(reg, used) && idx < used && |reg'| == |reg|
    requires forall i :: 0 <= i < used - 1 ==> reg'[i] == if i == idx then reg[used - 1] else reg[i]
    ensures forall f :: f in Without(View(reg, used), reg[idx].fd) ==> exists i :: 0 <= i < used - 1 && reg'[i].fd == f
  {
    hide View;
    Holds(reg, used);
    forall f | f in Without(View(reg, used), reg[idx].fd) ensures exists i :: 0 <= i < used - 1 && reg'[i].fd == f {
      var i :| 0 <= i < used && reg[i].fd == f;
      assert reg'[if i == used - 1 then idx else i].fd == f;
    }
  }
}
