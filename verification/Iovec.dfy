/**
 Scatter/gather vectors and the transfer loop `__socket_rwv` (src/socket.c:28-109).
 The kernel is a script of outcomes, one per system call, that may move any
 number of bytes, be interrupted, ask to try again, or fail.
 */
module Iovec {

  /** `struct iovec`: `len` bytes starting at address `base`. */
  datatype Iov = Iov(base: nat, len: nat)

  /** The addresses `from`, `from + 1`, ... below `to`. */
  function Range(from: nat, to: nat): (r: seq<nat>)
    requires from <= to
    ensures |r| == to - from
    ensures forall i :: 0 <= i < |r| ==> r[i] == from + i
  {
    seq(to - from, i requires 0 <= i => from + i)
  }

  /** The addresses a vector covers, in order. */
  function Cells(v: seq<Iov>): seq<nat> {
    if v == [] then [] else Range(v[0].base, v[0].base + v[0].len) + Cells(v[1..])
  }

  /** The vector is exhausted or starts with something to move. */
  predicate Lean(v: seq<Iov>) { v == [] || v[0].len > 0 }

  lemma {:induction false} LeanEmpty(v: seq<Iov>)
    requires Lean(v)
    ensures v == [] <==> Cells(v) == []
  {
  }

  /** `while (opcount && !opvector[0].iov_len)`: step over exhausted elements. */
  method SkipEmpty(v: seq<Iov>) returns (w: seq<Iov>)
    ensures Cells(w) == Cells(v) && Lean(w) && |w| <= |v|
  {
    w := v;
    while w != [] && w[0].len == 0
      invariant Cells(w) == Cells(v) && |w| <= |v|
      decreases |w|
    {
      DropHead(w);
      w := w[1..];
    }
  }

  /** The inner loop of `__socket_rwv`: step over `ret` bytes that the kernel has moved. */
  method Consume(v: seq<Iov>, ret: nat) returns (w: seq<Iov>)
    requires ret <= |Cells(v)|
    ensures Cells(w) == Cells(v)[ret..] && |w| <= |v|
    ensures ret > 0 || Lean(v) ==> Lean(w)
  {
    hide Cells, Range;
    w := v;
    var moved := 0;
    while moved < ret
      invariant moved <= ret && Cells(w) == Cells(v)[moved..] && |w| <= |v|
      invariant moved > 0 || Lean(v) ==> Lean(w)
      decreases ret - moved, |w|
    {
      NotEmpty(w);
      if ret - moved >= w[0].len {
        DropHead(w);
        DropMore(Cells(v), moved, w[0].len);
        moved := moved + w[0].len;
        w := w[1..];
      } else {
        ShrinkHead(w, ret - moved);
        DropMore(Cells(v), moved, ret - moved);
        w := [Iov(w[0].base + (ret - moved), w[0].len - (ret - moved))] + w[1..];
        moved := ret;
      }
      w := SkipEmpty(w);
    }
  }

  lemma {:induction false} NotEmpty(w: seq<Iov>)
    requires |Cells(w)| > 0
    ensures w != []
  {
  }

  lemma {:induction false} DropMore(s: seq<nat>, a: nat, b: nat)
    requires a <= |s| && b <= |s[a..]|
    ensures s[a..][b..] == s[a + b..]
  {
  }

  lemma {:induction false} DropHead(w: seq<Iov>)
    requires w != []
    ensures w[0].len <= |Cells(w)| && Cells(w[1..]) == Cells(w)[w[0].len..]
  {
  }

  lemma {:induction false} ShrinkHead(w: seq<Iov>, n: nat)
    requires w != [] && n <= w[0].len
    ensures Cells([Iov(w[0].base + n, w[0].len - n)] + w[1..]) == Cells(w)[n..]
  {
    var w' := [Iov(w[0].base + n, w[0].len - n)] + w[1..];
    assert w'[1..] == w[1..];
    assert Range(w[0].base + n, w[0].base + w[0].len) == Range(w[0].base, w[0].base + w[0].len)[n..];
  }

  /** What one `writev` or `readv` comes back with. */
  datatype Outcome =
    | Moved(bytes: nat)   // that many bytes, as far as the vector and the peer allow
    | Again               // EAGAIN
    | Interrupted         // EINTR
    | Failed              // any other error, or end of file when reading

  function Min(a: nat, b: nat): nat { if a < b then a else b }

  /** How many of `total` bytes the calls of a script move when the peer can take or has sent `avail`. */
  function MovedBy(script: seq<Outcome>, total: nat, avail: nat): (r: nat)
    ensures r <= total && r <= avail
  {
    if script == [] || total == 0 then 0 else
    match script[0]
    case Again => 0
    case Failed => 0
    case Interrupted => MovedBy(script[1..], total, avail)
    case Moved(n) =>
      var r := Min(n, Min(total, avail));
      if r == 0 then 0 else r + MovedBy(script[1..], total - r, avail - r)
  }

  /** Whether the transfer runs into the error of a script: a failure behind EAGAIN, or after the last
      byte, is never reached. */
  predicate Errs(script: seq<Outcome>, total: nat, avail: nat) {
    script != [] && total > 0 &&
    match script[0]
    case Again => false
    case Failed => true
    case Interrupted => Errs(script[1..], total, avail)
    case Moved(n) =>
      var r := Min(n, Min(total, avail));
      r > 0 && Errs(script[1..], total - r, avail - r)
  }

  /** Something moves if anything can be moved. */
  predicate Obliging(script: seq<Outcome>) { MovedBy(script, 1, 1) > 0 }

  /** The k-th call moves something, and all before it were interrupted. */
  ghost predicate MovesAt(script: seq<Outcome>, k: nat) {
    && k < |script| && script[k].Moved? && script[k].bytes > 0
    && forall j :: 0 <= j < k ==> script[j].Interrupted?
  }

  /** That is, after interruptions at most, a call moves something. */
  lemma {:induction false} ObligingMeans(script: seq<Outcome>)
    ensures Obliging(script) <==> exists k: nat :: MovesAt(script, k)
  {
    if script != [] && script[0].Interrupted? {
      var rest := script[1..];
      ObligingMeans(rest);
      if k: nat :| MovesAt(rest, k) {
        assert MovesAt(script, k + 1);
      }
      if k: nat :| MovesAt(script, k) {
        assert MovesAt(rest, k - 1);
      }
    } else if script != [] && Obliging(script) {
      assert MovesAt(script, 0);
    }
  }

  lemma {:induction false} ObligingMoves(script: seq<Outcome>, total: nat, avail: nat)
    requires Obliging(script) && total > 0 && avail > 0
    ensures MovedBy(script, total, avail) > 0
  {
    if script[0].Interrupted? {
      ObligingMoves(script[1..], total, avail);
    }
  }

  /** Without a failure in the script there is no error, and an error leaves something unmoved. */
  lemma {:induction false} ErrsOnly(script: seq<Outcome>, total: nat, avail: nat)
    ensures Failed !in script ==> !Errs(script, total, avail)
    ensures Errs(script, total, avail) ==> MovedBy(script, total, avail) < total
  {
    if script != [] && total > 0 {
      match script[0]
      case Interrupted => ErrsOnly(script[1..], total, avail);
      case Moved(n) =>
        var r := Min(n, Min(total, avail));
        ErrsOnly(script[1..], total - r, avail - r);
      case _ =>
    }
  }

  /** `__socket_rwv`.  `count` is the source's `opcount` argument, normally `|vector|`; the
      kernel rejects a negative one.  `avail` is how many bytes the peer can take or has sent.
      Returns the remaining vector, its count (-1 after an error) and how many bytes moved. */
  method Transfer(vector: seq<Iov>, count: int, avail: nat, script: seq<Outcome>)
    returns (opvector: seq<Iov>, opcount: int, moved: nat)
    requires Lean(vector) && (count == |vector| || count == -1)
    ensures moved <= |Cells(vector)| && moved <= avail && Cells(opvector) == Cells(vector)[moved..] && Lean(opvector)
    ensures opcount == |opvector| || opcount == -1
    ensures |opvector| <= |vector| && (opcount == -1 && vector != [] ==> opvector != [])
    ensures moved == if count == -1 then 0 else MovedBy(script, |Cells(vector)|, avail)
    ensures opcount == -1 <==> count == -1 || Errs(script, |Cells(vector)|, avail)
  {
    hide Cells, MovedBy, Errs;
    opvector, opcount, moved := vector, count, 0;
    if count < 0 {
      return;
    }
    ghost var total := |Cells(vector)|;
    var i := 0;
    assert script[0..] == script;
    while opcount != 0 && i < |script|
      invariant i <= |script| && moved <= total && moved <= avail
      invariant Cells(opvector) == Cells(vector)[moved..] && Lean(opvector) && opcount == |opvector| <= |vector|
      invariant MovedBy(script, total, avail) == moved + MovedBy(script[i..], total - moved, avail - moved)
      invariant Errs(script, total, avail) == Errs(script[i..], total - moved, avail - moved)
      decreases |script| - i
    {
      LeanEmpty(opvector);
      OneCall(script, i, total - moved, avail - moved);
      var outcome := script[i];
      i := i + 1;
      match outcome {
        case Again => return;
        case Interrupted =>
        case Failed =>
          opcount := -1;
          return;
        case Moved(n) =>
          TotalCells(opvector);
          var ret := Min(n, Min(Total(opvector), avail - moved));
          if ret == 0 {
            return;
          }
          DropMore(Cells(vector), moved, ret);
          opvector := Consume(opvector, ret);
          moved := moved + ret;
          opcount := |opvector|;
      }
    }
    LeanEmpty(opvector);
    NoCall(script[i..], total - moved, avail - moved);
  }

  lemma {:induction false} OneCall(script: seq<Outcome>, i: nat, total: nat, avail: nat)
    requires i < |script| && total > 0
    ensures var rest := script[i + 1..];
            match script[i]
            case Again => MovedBy(script[i..], total, avail) == 0 && !Errs(script[i..], total, avail)
            case Failed => MovedBy(script[i..], total, avail) == 0 && Errs(script[i..], total, avail)
            case Interrupted =>
              && MovedBy(script[i..], total, avail) == MovedBy(rest, total, avail)
              && Errs(script[i..], total, avail) == Errs(rest, total, avail)
            case Moved(n) =>
              var r := Min(n, Min(total, avail));
              if r == 0 then MovedBy(script[i..], total, avail) == 0 && !Errs(script[i..], total, avail)
              else
                && MovedBy(script[i..], total, avail) == r + MovedBy(rest, total - r, avail - r)
                && Errs(script[i..], total, avail) == Errs(rest, total - r, avail - r)
  {
    assert script[i..][1..] == script[i + 1..];
  }

  lemma {:induction false} NoCall(script: seq<Outcome>, total: nat, avail: nat)
    requires script == [] || total == 0
    ensures MovedBy(script, total, avail) == 0 && !Errs(script, total, avail)
  {
  }

  function Total(v: seq<Iov>): nat { if v == [] then 0 else v[0].len + Total(v[1..]) }

  lemma {:induction false} TotalCells(v: seq<Iov>)
    ensures Total(v) == |Cells(v)|
  {
    if v != [] {
      TotalCells(v[1..]);
    }
  }
}
