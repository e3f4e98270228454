/**
 Streaming MD5 (src/md5.c:12-20, 139-206): however a message is cut into
 `md5_update` calls, the digest is that of sections 3.1 to 3.5 of RFC 1321.
 */
module Md5 {
  import opened Md5Core

  type Byte = bv8
  const CHUNK: nat := 64
  const TWO32 := 0x1_0000_0000

  // ---------------------------------------------------------------- words and bytes

  /** `IVAL`: four bytes, low-order first */
  function Ival(b: seq<Byte>, pos: nat): Word
    requires pos + 4 <= |b|
  {
    ((b[pos] as Word) | ((b[pos + 1] as Word) << 8)) | (((b[pos + 2] as Word) | ((b[pos + 3] as Word) << 8)) << 16)
  }

  /** `SIVAL` of a word */
  function Sival(w: Word): seq<Byte> {
    [(w & 0xFF) as Byte, ((w >> 8) & 0xFF) as Byte, ((w >> 16) & 0xFF) as Byte, ((w >> 24) & 0xFF) as Byte]
  }

  /** `SIVAL` of a number below 2^32 */
  function Bytes32(x: nat): (r: seq<Byte>)
    requires x < TWO32
    ensures |r| == 4
  {
    Sival(x as Word)
  }

  /** The value of four bytes, the first counting least. */
  function LowFirst(a: Byte, b: Byte, c: Byte, d: Byte): Word {
    (a as Word) + 0x100 * (b as Word) + 0x1_0000 * (c as Word) + 0x100_0000 * (d as Word)
  }

  /** `SIVAL` puts the low-order byte first. */
  lemma {:induction false} SivalLowFirst(w: Word)
    ensures var s := Sival(w); |s| == 4 && w == LowFirst(s[0], s[1], s[2], s[3])
  {
  }

  /** `IVAL` takes the first byte as the low-order one. */
  lemma {:induction false} IvalLowFirst(b: seq<Byte>, pos: nat)
    requires pos + 4 <= |b|
    ensures Ival(b, pos) == LowFirst(b[pos], b[pos + 1], b[pos + 2], b[pos + 3])
  {
  }

  function Words(b: seq<Byte>): (X: seq<Word>)
    requires |b| == CHUNK
    ensures |X| == 16
  {
    [Ival(b, 0), Ival(b, 4), Ival(b, 8), Ival(b, 12), Ival(b, 16), Ival(b, 20), Ival(b, 24), Ival(b, 28),
     Ival(b, 32), Ival(b, 36), Ival(b, 40), Ival(b, 44), Ival(b, 48), Ival(b, 52), Ival(b, 56), Ival(b, 60)]
  }

  // ---------------------------------------------------------------- RFC 1321

  const INIT := State(0x67452301, 0xEFCDAB89, 0x98BADCFE, 0x10325476)

  /** Section 3.3 gives the registers byte by byte, low-order bytes first. */
  lemma {:induction false} InitialRegisters()
    ensures Sival(INIT.A) == [0x01, 0x23, 0x45, 0x67] && Sival(INIT.B) == [0x89, 0xab, 0xcd, 0xef]
    ensures Sival(INIT.C) == [0xfe, 0xdc, 0xba, 0x98] && Sival(INIT.D) == [0x76, 0x54, 0x32, 0x10]
  {
  }

  /** Section 3.4: the blocks of a message, one after the other. */
  function Fold(st: State, m: seq<Byte>): State
    requires |m| % CHUNK == 0
    decreases |m|
  {
    if m == [] then st else Fold(RfcBlock(st, Words(m[..CHUNK])), m[CHUNK..])
  }

  /** Section 3.1: one bit and then zeros until the length is 56 bytes modulo 64. */
  function Padding(len: nat): (p: seq<Byte>)
    ensures 1 <= |p| <= CHUNK && (len + |p|) % CHUNK == 56
    ensures p[0] == 0x80 && forall i :: 0 < i < |p| ==> p[i] == 0
  {
    var n := if len % CHUNK < 56 then 56 - len % CHUNK else 120 - len % CHUNK;
    [0x80] + seq(n - 1, _ => 0)
  }

  /** Section 3.2: the length in bits, modulo 2^64, low-order word first. */
  function LengthField(len: nat): (r: seq<Byte>)
    ensures |r| == 8
  {
    var bits := 8 * len;
    Bytes32(bits % TWO32) + Bytes32(bits / TWO32 % TWO32)
  }

  function Padded(m: seq<Byte>): (p: seq<Byte>)
    ensures |p| % CHUNK == 0
  {
    EightMore(|m| + |Padding(|m|)|);
    m + Padding(|m|) + LengthField(|m|)
  }

  lemma EightMore(n: nat)
    requires n % CHUNK == 56
    ensures (n + 8) % CHUNK == 0
  {
    assert n + 8 == (n / CHUNK + 1) * CHUNK;
  }

  /** Section 3.5 */
  function Digest(m: seq<Byte>): seq<Byte> {
    var st := Fold(INIT, Padded(m));
    Sival(st.A) + Sival(st.B) + Sival(st.C) + Sival(st.D)
  }

  lemma {:induction false} FoldMore(st: State, a: seq<Byte>, b: seq<Byte>)
    requires |a| % CHUNK == 0 && |b| == CHUNK
    ensures Fold(st, a + b) == RfcBlock(Fold(st, a), Words(b))
    decreases |a|
  {
    hide RfcBlock, Words;
    if a == [] {
      assert (a + b)[..CHUNK] == b && (a + b)[CHUNK..] == [];
    } else {
      FoldMore(RfcBlock(st, Words(a[..CHUNK])), a[CHUNK..], b);
      assert (a + b)[..CHUNK] == a[..CHUNK] && (a + b)[CHUNK..] == a[CHUNK..] + b;
    }
  }

  // ---------------------------------------------------------------- the running state as values

  /** Bytes of `m` that have been compressed, when all full blocks have been. */
  function Done(m: seq<Byte>): nat { |m| - |m| % CHUNK }

  /** The chaining value and the buffer of a context that has been fed `m`. */
  ghost predicate Fed(st: State, buffer: seq<Byte>, m: seq<Byte>) {
    && |buffer| == CHUNK
    && st == Fold(INIT, m[..Done(m)])
    && buffer[..|m| % CHUNK] == m[Done(m)..]
  }

  ghost predicate Counted(totalN: nat, totalN2: nat, len: nat) {
    totalN == len % TWO32 && totalN2 == len / TWO32 % TWO32
  }

  /** The carry out of the low counter, detected by comparison, and the two-word count. */
  lemma CountMore(totalN: nat, totalN2: nat, len: nat, n: nat)
    requires Counted(totalN, totalN2, len) && n < TWO32
    ensures var low := (totalN + n) % TWO32;
            Counted(low, if low < n then (totalN2 + 1) % TWO32 else totalN2, len + n)
  {
    var q := len / TWO32;
    assert len == q * TWO32 + totalN;
    if totalN + n < TWO32 {
      assert (len + n) / TWO32 == q;
    } else {
      assert len + n == (q + 1) * TWO32 + (totalN + n - TWO32);
      assert (len + n) / TWO32 == q + 1;
    }
  }

  /** `md5_result` computes the bit count from the byte counters: `high` and `low`. */
  lemma BitCount(totalN: nat, totalN2: nat, len: nat)
    requires Counted(totalN, totalN2, len)
    ensures totalN * 8 % TWO32 == 8 * len % TWO32
    ensures totalN / 0x2000_0000 + totalN2 * 8 % TWO32 == 8 * len / TWO32 % TWO32
  {
    var q := len / TWO32;
    var h := totalN / 0x2000_0000;
    var l := totalN % 0x2000_0000;
    assert len == q * TWO32 + totalN && totalN == h * 0x2000_0000 + l && 0 <= h < 8;
    assert 8 * len == (8 * q + h) * TWO32 + 8 * l && 0 <= 8 * l < TWO32;
    DivMod(8 * q + h, 8 * l, 8 * len);
    DivMod(h, 8 * l, 8 * totalN);
    var p := q / TWO32;
    assert q == p * TWO32 + totalN2;
    var u := totalN2 / 0x2000_0000;
    var v := totalN2 % 0x2000_0000;
    assert totalN2 == u * 0x2000_0000 + v;
    assert 8 * q + h == (8 * p + u) * TWO32 + (8 * v + h) && 0 <= 8 * v + h < TWO32;
    DivMod(8 * p + u, 8 * v + h, 8 * q + h);
    DivMod(u, 8 * v, 8 * totalN2);
  }

  lemma DivMod(q: nat, r: nat, x: nat)
    requires x == q * TWO32 + r && r < TWO32
    ensures x / TWO32 == q && x % TWO32 == r
  {
  }

  /** One more block of `w` has been compressed. */
  lemma {:induction false} FoldNext(w: seq<Byte>, d: nat)
    requires d % CHUNK == 0 && d + CHUNK <= |w|
    ensures Fold(INIT, w[..d + CHUNK]) == Process(Fold(INIT, w[..d]), Words(w[d..d + CHUNK]))
  {
    hide RfcBlock, Words, Fold, Process;
    FoldMore(INIT, w[..d], w[d..d + CHUNK]);
    assert w[..d + CHUNK] == w[..d] + w[d..d + CHUNK];
    SameBlock(Fold(INIT, w[..d]), Words(w[d..d + CHUNK]));
  }

  class Context {
    var A: Word
    var B: Word
    var C: Word
    var D: Word
    var totalN: nat
    var totalN2: nat
    const buffer: array<Byte>
    ghost var msg: seq<Byte>          // everything fed so far

    ghost function Chain(): State
      reads this
    {
      State(A, B, C, D)
    }

    ghost predicate Valid()
      reads this, buffer
    {
      buffer.Length == CHUNK && Fed(Chain(), buffer[..], msg) && Counted(totalN, totalN2, |msg|)
    }

    /** md5_begin; the buffer is not touched */
    constructor ()
      ensures Valid() && msg == [] && fresh(buffer)
    {
      A, B, C, D := 0x67452301, 0xEFCDAB89, 0x98BADCFE, 0x10325476;
      totalN, totalN2 := 0, 0;
      buffer := new Byte[CHUNK];
      msg := [];
      new;
      assert msg[..0] == [] && Fold(INIT, []) == INIT;
    }

    /** md5_process */
    method Compress(data: seq<Byte>)
      requires |data| == CHUNK
      modifies this`A, this`B, this`C, this`D
      ensures Chain() == Process(old(Chain()), Words(data))
    {
      hide Process, Words;
      var st := Process(State(A, B, C, D), Words(data));
      A, B, C, D := st.A, st.B, st.C, st.D;
    }

    /** `memcpy (ctx->buffer + at, part, ...)` */
    method CopyIn(at: nat, part: seq<Byte>)
      requires buffer.Length == CHUNK && at + |part| <= CHUNK
      modifies buffer
      ensures buffer[..] == old(buffer[..at]) + part + old(buffer[at + |part|..])
    {
      forall k | 0 <= k < |part| {
        buffer[at + k] := part[k];
      }
    }

    /** The loop over whole blocks of `input` from `i0` on, where `w[d0..]` is what is left of the message. */
    method Blocks(input: seq<Byte>, i0: nat, ghost w: seq<Byte>, ghost d0: nat) returns (i: nat, ghost d: nat)
      requires i0 <= |input| && d0 <= |w| && d0 % CHUNK == 0 && w[d0..] == input[i0..] && Chain() == Fold(INIT, w[..d0])
      modifies this`A, this`B, this`C, this`D
      ensures i0 <= i <= |input| && |input| - i < CHUNK && d == d0 + (i - i0) && d % CHUNK == 0
      ensures Chain() == Fold(INIT, w[..d])
    {
      hide Process, Words, Fold;
      i := i0;
      var length := |input| - i0;
      d := d0;
      while length >= CHUNK
        invariant i0 <= i && length + i == |input| && 0 <= length && d == d0 + (i - i0)
        invariant d % CHUNK == 0 && d <= |w| && Chain() == Fold(INIT, w[..d])
      {
        FoldNext(w, d);
        SameSlice(w, d0, input, i0, i - i0);
        Compress(input[i..i + CHUNK]);
        d := d + CHUNK;
        length := length - CHUNK;
        i := i + CHUNK;
      }
    }

    /** The byte counters of md5_update. */
    method Tally(length: nat)
      requires length < TWO32 && Counted(totalN, totalN2, |msg|)
      modifies this`totalN, this`totalN2
      ensures Counted(totalN, totalN2, |msg| + length)
    {
      CountMore(totalN, totalN2, |msg|, length);
      totalN := (totalN + length) % TWO32;
      if totalN < length {
        totalN2 := (totalN2 + 1) % TWO32;
      }
    }

    /** md5_update */
    method Update(input: seq<Byte>)
      requires Valid() && |input| < TWO32
      modifies this, buffer
      ensures Valid() && msg == old(msg) + input
    {
      hide Process, Words, Fold, Counted, Fed, Done;
      var length := |input|;
      if length == 0 {
        assert msg + input == msg;
        return;
      }
      LeftIs(totalN, totalN2, |msg|);
      var left := totalN % CHUNK;
      var fill := CHUNK - left;
      Tally(length);
      ghost var w := msg + input;
      ghost var d := FedParts(Chain(), buffer[..], msg, input, left);
      msg := w;
      var i := 0;
      if left != 0 && length >= fill {
        CopyIn(left, input[..fill]);
        FillUp(w, d, left, input, buffer[..]);
        Compress(buffer[..]);
        i, left, d := fill, 0, d + CHUNK;
      }
      if left == 0 {
        Aligned(input, i, w, d);
      } else {
        CopyIn(left, input);
        FedIs(Chain(), buffer[..], w, d);
      }
    }

    /** The rest of md5_update once the buffer is empty. */
    method Aligned(input: seq<Byte>, i0: nat, ghost w: seq<Byte>, ghost d0: nat)
      requires buffer.Length == CHUNK
      requires i0 <= |input| && d0 <= |w| && d0 % CHUNK == 0 && w[d0..] == input[i0..] && Chain() == Fold(INIT, w[..d0])
      modifies this`A, this`B, this`C, this`D, buffer
      ensures Fed(Chain(), buffer[..], w)
    {
      hide Process, Words, Fold, Fed;
      var i, d := Blocks(input, i0, w, d0);
      if i < |input| {
        CopyIn(0, input[i..]);
      }
      assert w[d..] == w[d0..][i - i0..] == input[i..];
      FedIs(Chain(), buffer[..], w, d);
    }

    /** md5_result */
    method Result() returns (digest: seq<Byte>)
      requires Valid()
      modifies this, buffer
      ensures digest == Digest(old(msg))
    {
      hide Fold, Sival, Padding, LengthField;
      var high := totalN / 0x2000_0000 + totalN2 * 8 % TWO32;   // the two parts share no bit
      var low := totalN * 8 % TWO32;
      BitCount(totalN, totalN2, |msg|);
      LowBits(|msg|);
      var msglen := Bytes32(low) + Bytes32(high);
      var last := totalN % CHUNK;
      var padn := if last < 56 then 56 - last else 120 - last;
      var padding: seq<Byte> := [0x80] + seq(CHUNK - 1, _ => 0);
      PaddingIs(|msg|, padn);
      assert msglen == LengthField(|msg|) by { LengthIs(|msg|, low, high); }
      Update(padding[..padn]);
      Update(msglen);
      Whole(old(msg), msg);
      digest := Sival(A) + Sival(B) + Sival(C) + Sival(D);
    }
  }

  lemma {:induction false} SameSlice(w: seq<Byte>, d: nat, input: seq<Byte>, i: nat, k: nat)
    requires d <= |w| && i <= |input| && w[d..] == input[i..] && i + k + CHUNK <= |input|
    ensures d + k + CHUNK <= |w| && w[d + k..d + k + CHUNK] == input[i + k..i + k + CHUNK]
  {
    assert |w[d..]| == |input[i..]|;
    var a, b := w[d + k..d + k + CHUNK], input[i + k..i + k + CHUNK];
    forall j | 0 <= j < CHUNK ensures a[j] == b[j] {
      assert a[j] == w[d..][k + j] && b[j] == input[i..][k + j];
    }
  }

  lemma {:induction false} FedIs(st: State, buffer: seq<Byte>, w: seq<Byte>, d: nat)
    requires |buffer| == CHUNK && d <= |w| && d % CHUNK == 0 && |w| - d < CHUNK
    requires st == Fold(INIT, w[..d]) && buffer[..|w| - d] == w[d..]
    ensures Fed(st, buffer, w)
  {
    hide Fold;
    assert |w| % CHUNK == |w| - d;
  }

  lemma {:induction false} FedParts(st: State, buffer: seq<Byte>, m: seq<Byte>, input: seq<Byte>, left: nat)
    returns (d: nat)
    requires Fed(st, buffer, m) && left == |m| % CHUNK
    ensures d % CHUNK == 0 && d + left == |m| && left < CHUNK == |buffer|
    ensures st == Fold(INIT, (m + input)[..d]) && (m + input)[d..] == buffer[..left] + input
  {
    hide Fold;
    d := Done(m);
    assert (m + input)[..d] == m[..d];
  }

  lemma {:induction false} FillUp(w: seq<Byte>, d: nat, left: nat, input: seq<Byte>, buffer: seq<Byte>)
    requires left < CHUNK && d <= |w| && d % CHUNK == 0 && |buffer| == CHUNK && |input| >= CHUNK - left
    requires w[d..] == buffer[..left] + input && buffer[left..] == input[..CHUNK - left]
    ensures d + CHUNK <= |w| && (d + CHUNK) % CHUNK == 0 && w[d + CHUNK..] == input[CHUNK - left..]
    ensures Fold(INIT, w[..d + CHUNK]) == Process(Fold(INIT, w[..d]), Words(buffer))
  {
    hide Fold, Process, Words;
    FoldNext(w, d);
    assert w[d..d + CHUNK] == w[d..][..CHUNK] == buffer[..left] + input[..CHUNK - left] == buffer;
    assert w[d + CHUNK..] == w[d..][CHUNK..];
  }

  lemma LeftIs(totalN: nat, totalN2: nat, len: nat)
    requires Counted(totalN, totalN2, len)
    ensures totalN % CHUNK == len % CHUNK
  {
    LowBits(len);
  }

  lemma LowBits(len: nat)
    ensures len % TWO32 % CHUNK == len % CHUNK
  {
    var q := len / TWO32;
    assert len == CHUNK * (0x400_0000 * q) + len % TWO32;
  }

  lemma {:induction false} PaddingIs(len: nat, n: nat)
    requires n == if len % CHUNK < 56 then 56 - len % CHUNK else 120 - len % CHUNK
    ensures ([0x80] + seq(CHUNK - 1, _ => 0))[..n] == Padding(len)
  {
  }

  lemma {:induction false} LengthIs(len: nat, low: nat, high: nat)
    requires low == 8 * len % TWO32 && high == 8 * len / TWO32 % TWO32
    ensures Bytes32(low) + Bytes32(high) == LengthField(len)
  {
  }

  lemma {:induction false} Whole(m: seq<Byte>, all: seq<Byte>)
    requires all == m + Padding(|m|) + LengthField(|m|)
    ensures Done(all) == |all| && all[..Done(all)] == Padded(m)
  {
    hide Padding, LengthField;
    assert all == Padded(m);
  }

  function Concat(pieces: seq<seq<Byte>>): seq<Byte> {
    if pieces == [] then [] else Concat(pieces[..|pieces| - 1]) + pieces[|pieces| - 1]
  }

  /** md5_begin, any number of md5_update calls, md5_result. */
  method Hash(pieces: seq<seq<Byte>>) returns (digest: seq<Byte>)
    requires forall i :: 0 <= i < |pieces| ==> |pieces[i]| < TWO32
    ensures digest == Digest(Concat(pieces))
  {
    hide Fed, Counted, Digest;
    var ctx := new Context();
    for i := 0 to |pieces|
      invariant ctx.Valid() && fresh(ctx) && fresh(ctx.buffer) && ctx.msg == Concat(pieces[..i])
    {
      ctx.Update(pieces[i]);
      assert pieces[..i + 1][..i] == pieces[..i];
    }
    assert pieces[..|pieces|] == pieces;
    digest := ctx.Result();
  }
}
