/** The block-processing loops of cohpsk_ch.c and c2sim.c, over a whole stream.

    Each loop keeps the tail of what it has seen at the front of a fixed buffer and shifts
    it down in place after every block.  Whatever the number of blocks, the results are those
    of an unbounded stream: a convolution, a pure delay, a sliding window. */
module BlockFilters {

  /** Sample n of stream x; before its start the stream holds `idle`. */
  function Sample<T>(x: seq<T>, n: int, idle: T): T
    requires n < |x|
  {
    if n < 0 then idle else x[n]
  }

  /** The first k taps of the convolution at n: the sum of c[0]*x[n] .. c[k-1]*x[n-k+1]. */
  function Convolve(c: seq<real>, x: seq<real>, n: int, k: nat): real
    requires k <= |c| && n < |x|
  {
    if k == 0 then 0.0 else Convolve(c, x, n, k - 1) + Sample(x, n - (k - 1), 0.0) * c[k - 1]
  }

  function Times(a: real, b: real): real {
    a * b
  }

  /** What the filter makes of a single nonzero sample: the coefficients, one after the other,
      from that sample on. */
  lemma {:induction false} ImpulseResponse(c: seq<real>, x: seq<real>, m: nat, n: int, k: nat)
    requires k <= |c| && m < |x| && n < |x|
    requires forall i :: 0 <= i < |x| && i != m ==> x[i] == 0.0
    ensures Convolve(c, x, n, k) == if 0 <= n - m < k then Times(x[m], c[n - m]) else 0.0
  {
    if k == 0 {
    } else {
      ImpulseResponse(c, x, m, n, k - 1);
    }
  }

  function Mixed(x: seq<real>, y: seq<real>, g: real): seq<real>
    requires |x| == |y|
  {
    seq(|x|, i requires 0 <= i < |x| => x[i] + Times(g, y[i]))
  }

  lemma Distributes(a: real, b: real, g: real, c: real)
    ensures (a + Times(g, b)) * c == a * c + Times(g, b * c)
  {
  }

  lemma Collects(a: real, b: real, g: real, u: real, v: real)
    ensures a + Times(g, b) + (u + Times(g, v)) == a + u + Times(g, b + v)
  {
  }

  /** And the filter is linear, so that this settles it for every stream. */
  lemma {:induction false} ConvolveIsLinear(c: seq<real>, x: seq<real>, y: seq<real>, g: real, n: int, k: nat)
    requires k <= |c| && |x| == |y| && n < |x|
    ensures Convolve(c, Mixed(x, y, g), n, k) == Convolve(c, x, n, k) + Times(g, Convolve(c, y, n, k))
  {
    if k == 0 {
    } else {
      ConvolveIsLinear(c, x, y, g, n, k - 1);
      var p, q, h := Sample(x, n - (k - 1), 0.0), Sample(y, n - (k - 1), 0.0), c[k - 1];
      assert Sample(Mixed(x, y, g), n - (k - 1), 0.0) == p + Times(g, q);
      Distributes(p, q, g, h);
      Collects(Convolve(c, x, n, k - 1), Convolve(c, y, n, k - 1), g, p * h, q * h);
    }
  }

  /** The last samples of stream x. */
  predicate IsTail<T(==)>(tail: seq<T>, x: seq<T>, idle: T) {
    forall i :: 0 <= i < |tail| ==> tail[i] == Sample(x, |x| - |tail| + i, idle)
  }

  /** The outputs are the convolution of stream x, from sample `first` on. */
  predicate IsFiltered(out: seq<real>, c: seq<real>, x: seq<real>, first: nat) {
    first + |out| <= |x| && forall i :: 0 <= i < |out| ==> out[i] == Convolve(c, x, first + i, |c|)
  }

  lemma {:induction false} NextOutput(out: seq<real>, y: real, c: seq<real>, x: seq<real>, first: nat)
    requires IsFiltered(out, c, x, first) && first + |out| < |x| && y == Convolve(c, x, first + |out|, |c|)
    ensures IsFiltered(out + [y], c, x, first)
  {
  }

  lemma {:induction false} ConvolveAppend(c: seq<real>, x: seq<real>, y: seq<real>, n: int, k: nat)
    requires k <= |c| && n < |x|
    ensures Convolve(c, x + y, n, k) == Convolve(c, x, n, k)
  {
    if k == 0 {
    } else {
      ConvolveAppend(c, x, y, n, k - 1);
      assert Sample(x + y, n - (k - 1), 0.0) == Sample(x, n - (k - 1), 0.0);
    }
  }

  /** What was filtered block by block is what the whole stream gives. */
  lemma {:induction false} FilteredAppend(out: seq<real>, more: seq<real>, c: seq<real>, x: seq<real>,
                                          y: seq<real>, first: nat)
    requires IsFiltered(out, c, x, first) && first + |out| == |x| && IsFiltered(more, c, x + y, |x|)
    ensures IsFiltered(out + more, c, x + y, first)
  {
    forall i | 0 <= i < |out + more|
      ensures (out + more)[i] == Convolve(c, x + y, first + i, |c|)
    {
      if i < |out| {
        ConvolveAppend(c, x, y, first + i, |c|);
      } else {
        assert (out + more)[i] == more[i - |out|];
      }
    }
  }

  lemma {:induction false} TailMoves<T>(tail: seq<T>, block: seq<T>, x: seq<T>, idle: T)
    requires IsTail(tail, x, idle)
    ensures IsTail(tail + block, x + block, idle)
    ensures IsTail((tail + block)[|block|..], x + block, idle)
  {
  }

  lemma {:induction false} TailOfTail<T>(tail: seq<T>, x: seq<T>, idle: T, k: nat)
    requires IsTail(tail, x, idle) && k <= |tail|
    ensures IsTail(tail[k..], x, idle)
  {
  }

  /** The in-place shift: for(i=0; i<n; i++) a[i] = a[i+step].  Source and destination overlap
      when step < n, but every element is read before it is overwritten. */
  method ShiftDown<T>(a: array<T>, n: nat, step: nat)
    requires n + step <= a.Length
    modifies a
    ensures a[..n] == old(a[step..step + n])
    ensures a[n..] == old(a[n..])
  {
    for i := 0 to n
      invariant forall j :: 0 <= j < i ==> a[j] == old(a[j + step])
      invariant forall j :: i <= j < a.Length ==> a[j] == old(a[j])
    {
      a[i] := a[i + step];
    }
  }

  // ---- FIR filters ----

  /** The sum of the first k taps read from a buffer, newest sample at j. */
  function Taps(b: seq<real>, c: seq<real>, j: int, k: nat): real
    requires k <= |c| && |c| <= j + 1 <= |b|
  {
    if k == 0 then 0.0 else Taps(b, c, j, k - 1) + b[j - (k - 1)] * c[k - 1]
  }

  lemma {:induction false} TapsAreConvolution(b: seq<real>, c: seq<real>, tail: seq<real>, input: seq<real>,
                                              heard: seq<real>, i: nat, k: nat)
    requires IsTail(tail, heard, 0.0) && |tail| == |c| && i < |input| && k <= |c|
    requires |c| + i < |b| && b[..|c| + i + 1] == tail + input[..i + 1]
    ensures Taps(b, c, |c| + i, k) == Convolve(c, heard + input, |heard| + i, k)
  {
    if k == 0 {
    } else {
      TapsAreConvolution(b, c, tail, input, heard, i, k - 1);
      var j := |c| + i - (k - 1);
      assert b[j] == b[..|c| + i + 1][j] == (tail + input[..i + 1])[j];
      if j < |tail| {
        assert tail[j] == Sample(heard, |heard| - |tail| + j, 0.0);
      }
    }
  }

  /** The buffer with the next sample of the block behind what it holds of the stream. */
  lemma PrefixNext<T>(b: seq<T>, tail: seq<T>, input: seq<T>, i: nat)
    requires i < |input| && |tail| + i < |b| && b[..|tail| + i] == tail + input[..i]
    ensures b[|tail| + i := input[i]][..|tail| + i + 1] == tail + input[..i + 1]
  {
    var j := |tail| + i;
    assert b[j := input[i]][..j + 1] == b[..j] + [input[i]];
    assert input[..i + 1] == input[..i] + [input[i]];
  }

  /** So its taps are the next output. */
  lemma {:induction false} FilterNext(out: seq<real>, b: seq<real>, c: seq<real>, tail: seq<real>, input: seq<real>,
                                      heard: seq<real>, i: nat)
    requires IsTail(tail, heard, 0.0) && |tail| == |c| && i < |input|
    requires |c| + i < |b| && b[..|c| + i + 1] == tail + input[..i + 1]
    requires |out| == i && IsFiltered(out, c, heard + input, |heard|)
    ensures IsFiltered(out + [Taps(b, c, |c| + i, |c|)], c, heard + input, |heard|)
  {
    TapsAreConvolution(b, c, tail, input, heard, i, |c|);
    NextOutput(out, Taps(b, c, |c| + i, |c|), c, heard + input, |heard|);
  }

  function Joined<T>(blocks: seq<seq<T>>, n: nat): seq<T>
    requires n <= |blocks|
  {
    if n == 0 then [] else Joined(blocks, n - 1) + blocks[n - 1]
  }

  /** A tap chain with complex coefficients over a buffer whose first places hold the last
      samples of the stream.  It is the Hilbert stage; with the imaginary part ignored, it is
      the SSB stage. */
  class Fir {
    const re: seq<real>
    const im: seq<real>
    const block: nat
    const buf: array<real>
    ghost var heard: seq<real>

    ghost predicate Valid()
      reads this, buf
    {
      |re| == |im| && buf.Length == |re| + block && IsTail(buf[..|re|], heard, 0.0)
    }

    constructor (re: seq<real>, im: seq<real>, block: nat)
      requires |re| == |im|
      ensures Valid() && fresh(buf) && this.re == re && this.im == im && this.block == block && heard == []
    {
      this.re, this.im, this.block := re, im, block;
      buf := new real[|re| + block](_ => 0.0);
      heard := [];
    }

    method TapSums(j: nat) returns (real': real, imag: real)
      requires |re| == |im| <= j + 1 <= buf.Length
      ensures real' == Taps(buf[..], re, j, |re|) && imag == Taps(buf[..], im, j, |im|)
    {
      real', imag := 0.0, 0.0;
      for k := 0 to |re|
        invariant real' == Taps(buf[..], re, j, k) && imag == Taps(buf[..], im, j, k)
      {
        real' := real' + buf[j - k] * re[k];
        imag := imag + buf[j - k] * im[k];
      }
    }

    method Store(j: nat, x: real)
      requires j < buf.Length
      modifies buf
      ensures buf[..] == old(buf[..])[j := x]
    {
      buf[j] := x;
    }

    /** The overlap of one block with the next. */
    method KeepTail(ghost tail: seq<real>, ghost input: seq<real>)
      requires |re| == |im| == |tail| && buf.Length == |re| + block && |input| == block
      requires buf[..] == tail + input && IsTail(tail, heard, 0.0)
      modifies this`heard, buf
      ensures Valid() && heard == old(heard) + input
    {
      TailMoves(tail, input, heard, 0.0);
      ShiftDown(buf, |re|, block);
      assert buf[..|re|] == (tail + input)[block..];
      heard := heard + input;
    }

    /** Filters one block: output i is the convolution of the whole stream so far. */
    method Process(input: seq<real>) returns (outRe: seq<real>, outIm: seq<real>)
      requires Valid() && |input| == block
      modifies this`heard, buf
      ensures Valid() && heard == old(heard) + input
      ensures |outRe| == |outIm| == block
      ensures IsFiltered(outRe, re, heard, |old(heard)|) && IsFiltered(outIm, im, heard, |old(heard)|)
    {
      ghost var tail, past := buf[..|re|], heard;
      outRe, outIm := [], [];
      var j := |re|;
      assert buf[..][..j] == tail + input[..0];
      for i := 0 to block
        invariant j == |re| + i && heard == past
        invariant buf[..][..j] == tail + input[..i]
        invariant |outRe| == |outIm| == i
        invariant IsFiltered(outRe, re, past + input, |past|) && IsFiltered(outIm, im, past + input, |past|)
      {
        PrefixNext(buf[..], tail, input, i);
        Store(j, input[i]);
        var real', imag := TapSums(j);
        FilterNext(outRe, buf[..], re, tail, input, past, i);
        FilterNext(outIm, buf[..], im, tail, input, past, i);
        outRe, outIm := outRe + [real'], outIm + [imag];
        j := j + 1;
      }
      assert buf[..] == buf[..][..j] && input == input[..block];
      KeepTail(tail, input);
    }

    /** Any number of blocks gives the convolution of the whole stream. */
    method ProcessAll(blocks: seq<seq<real>>) returns (outRe: seq<real>, outIm: seq<real>)
      requires Valid() && forall i :: 0 <= i < |blocks| ==> |blocks[i]| == block
      modifies this`heard, buf
      ensures Valid() && heard == old(heard) + Joined(blocks, |blocks|)
      ensures |old(heard)| + |outRe| == |old(heard)| + |outIm| == |heard|
      ensures IsFiltered(outRe, re, heard, |old(heard)|) && IsFiltered(outIm, im, heard, |old(heard)|)
    {
      ghost var first := |heard|;
      outRe, outIm := [], [];
      for n := 0 to |blocks|
        invariant Valid() && heard == old(heard) + Joined(blocks, n)
        invariant first + |outRe| == first + |outIm| == |heard|
        invariant IsFiltered(outRe, re, heard, first) && IsFiltered(outIm, im, heard, first)
      {
        ghost var past := heard;
        var moreRe, moreIm := Process(blocks[n]);
        FilteredAppend(outRe, moreRe, re, past, blocks[n], first);
        FilteredAppend(outIm, moreIm, im, past, blocks[n], first);
        outRe, outIm := outRe + moreRe, outIm + moreIm;
        assert heard == old(heard) + (Joined(blocks, n) + blocks[n]);
      }
    }
  }

  // ---- Sliding window and delay ----

  /** A buffer that holds the last keep + block samples of a stream.  With block = N_SAMP and
      keep = m_pitch - N_SAMP it is the analysis window Sn; with keep = nhfdelay, its first
      places are the delayed signal of the HF channel. */
  class Window<T(0)> {
    const keep: nat
    const block: nat
    const idle: T
    const buf: array<T>
    ghost var heard: seq<T>

    ghost predicate Valid()
      reads this, buf
    {
      keep + block <= buf.Length && IsTail(buf[..keep + block], heard, idle)
    }

    constructor (keep: nat, block: nat, room: nat, idle: T)
      requires keep + block <= room
      ensures Valid() && fresh(buf) && heard == []
      ensures this.keep == keep && this.block == block && this.idle == idle
    {
      this.keep, this.block, this.idle := keep, block, idle;
      buf := new T[room](_ => idle);
      heard := [];
    }

    /** Takes in one block.  Afterwards the buffer holds the last keep + block samples, and
        its first places the stream as it was keep samples ago. */
    method Process(input: seq<T>)
      requires Valid() && |input| == block
      modifies this`heard, buf
      ensures Valid() && heard == old(heard) + input
      ensures forall i :: 0 <= i < keep + block ==> buf[i] == Sample(heard, |heard| - (keep + block) + i, idle)
      ensures forall i :: 0 <= i < block ==> buf[i] == Sample(heard, |old(heard)| + i - keep, idle)
    {
      ghost var old', past := buf[..keep + block], heard;
      Refill(input);
      TailOfTail(old', past, idle, block);
      TailMoves(old'[block..], input, past, idle);
      heard := past + input;
      assert forall i :: 0 <= i < keep + block ==> buf[i] == buf[..keep + block][i];
    }

    // Shifts the buffer down by a block and puts the new one behind.
    method Refill(input: seq<T>)
      requires |input| == block && keep + block <= buf.Length
      modifies buf
      ensures buf[..keep + block] == old(buf[block..keep + block]) + input
    {
      ghost var kept := buf[block..keep + block];
      ShiftDown(buf, keep, block);
      assert buf[..][..keep] == kept;
      assert kept + input[..0] == kept;
      for j := 0 to block
        invariant buf[..][..keep + j] == kept + input[..j]
      {
        PrefixNext(buf[..], kept, input, j);
        buf[keep + j] := input[j];
        assert buf[..][..keep + (j + 1)] == kept + input[..j + 1];
      }
      assert input[..block] == input;
      assert buf[..][..keep + block] == buf[..keep + block];
    }
  }
}
