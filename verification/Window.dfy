/** The sliding window of inflate (inflate.c, updatewindow): a ring that holds the last
    bytes produced. */
module Window {
  import opened Bits

  /** Where the ring keeps the byte d places back. */
  function RingIndex(wnext: nat, d: nat, wsize: nat): int {
    if d <= wnext then wnext - d else wsize + wnext - d
  }

  /** The ring holds the last min(|hist|, wsize) bytes of hist. */
  ghost predicate RingOk(window: seq<byte>, wsize: nat, whave: nat, wnext: nat, hist: seq<byte>) {
    && wnext < wsize <= |window|
    && whave == (if |hist| < wsize then |hist| else wsize)
    && (whave == wsize || whave == wnext)
    && forall d :: 1 <= d <= whave ==> window[RingIndex(wnext, d, wsize)] == hist[|hist| - d]
  }

  /** Copy n bytes of src, from index from, to dst[at..]. */
  method MemCopy(dst: array<byte>, at: nat, src: seq<byte>, from: nat, n: nat)
    requires at + n <= dst.Length && from + n <= |src|
    modifies dst
    ensures forall k :: 0 <= k < dst.Length ==>
              dst[k] == if at <= k < at + n then src[from + (k - at)] else old(dst[k])
  {
    for i := 0 to n
      invariant forall k :: 0 <= k < dst.Length ==>
                  dst[k] == if at <= k < at + i then src[from + (k - at)] else old(dst[k])
    {
      dst[at + i] := src[from + i];
    }
  }

  /** Copy n bytes from d places back, one at a time: the copy may run into itself. */
  method CopyBack(output: array<byte>, put: nat, d: nat, n: nat)
    requires 1 <= d <= put && put + n <= output.Length
    modifies output
    ensures forall k :: 0 <= k < output.Length && !(put <= k < put + n) ==> output[k] == old(output[k])
    ensures forall k :: put <= k < put + n ==> output[k] == output[k - d]
  {
    for i := 0 to n
      invariant forall k :: 0 <= k < output.Length && !(put <= k < put + i) ==> output[k] == old(output[k])
      invariant forall k :: put <= k < put + i ==> output[k] == output[k - d]
    {
      output[put + i] := output[put + i - d];
    }
  }

  /** A stretch of the ring holds a stretch of the bytes produced. */
  lemma {:induction false} RingBytes(window: seq<byte>, wsize: nat, whave: nat, wnext: nat, hist: seq<byte>, d: nat,
      n: nat)
    requires RingOk(window, wsize, whave, wnext, hist) && 1 <= d <= whave
    requires n <= if d <= wnext then d else d - wnext
    ensures 0 <= RingIndex(wnext, d, wsize) && RingIndex(wnext, d, wsize) + n <= wsize && d <= |hist|
    ensures window[RingIndex(wnext, d, wsize)..RingIndex(wnext, d, wsize) + n] == hist[|hist| - d..|hist| - d + n]
  {
    var from := RingIndex(wnext, d, wsize);
    forall k | from <= k < from + n ensures window[k] == hist[|hist| - d + (k - from)] {
      assert k == RingIndex(wnext, d - (k - from), wsize);
    }
  }

  /** Append the bytes of out to the ring. */
  method UpdateWindow(window: array<byte>, wsize: nat, whave: nat, wnext: nat, out: seq<byte>, ghost hist: seq<byte>)
    returns (have: nat, next: nat)
    requires wsize <= window.Length && RingOk(window[..], wsize, whave, wnext, hist)
    modifies window
    ensures RingOk(window[..], wsize, have, next, hist + out)
  {
    have, next := whave, wnext;
    var copy := |out|;
    if copy >= wsize {
      MemCopy(window, 0, out, copy - wsize, wsize);
      next := 0;
      have := wsize;
    } else {
      var dist := wsize - wnext;
      if dist > copy { dist := copy; }
      MemCopy(window, wnext, out, 0, dist);
      copy := copy - dist;
      if copy != 0 {
        MemCopy(window, 0, out, |out| - copy, copy);
        next := copy;
        have := wsize;
      } else {
        next := wnext + dist;
        if next == wsize { next := 0; }
        if whave < wsize { have := whave + dist; }
      }
    }
    Appended(old(window[..]), window[..], wsize, whave, wnext, have, next, hist, out);
  }

  /** The ring after out was put where it was next, once around at most. */
  lemma {:induction false} Appended(w: seq<byte>, v: seq<byte>, wsize: nat, whave: nat, wnext: nat, have: nat,
      next: nat, hist: seq<byte>, out: seq<byte>)
    requires RingOk(w, wsize, whave, wnext, hist) && |v| == |w| && next < wsize
    requires have == (if |hist + out| < wsize then |hist + out| else wsize) && (have == wsize || have == next)
    requires |out| >= wsize ==> next == 0 && v[..wsize] == out[|out| - wsize..]
    requires |out| < wsize ==> next == (if wnext + |out| >= wsize then wnext + |out| - wsize else wnext + |out|)
    requires |out| < wsize ==> forall k :: 0 <= k < wsize ==>
                 v[k] == if wnext <= k < wnext + |out| then out[k - wnext]
                         else if k < wnext + |out| - wsize then out[k + wsize - wnext] else w[k]
    ensures RingOk(v, wsize, have, next, hist + out)
  {
    var all := hist + out;
    forall d | 1 <= d <= have ensures v[RingIndex(next, d, wsize)] == all[|all| - d] {
      if |out| >= wsize {
        assert v[wsize - d] == v[..wsize][wsize - d];
      } else if d > |out| {
        assert RingIndex(next, d, wsize) == RingIndex(wnext, d - |out|, wsize);
        assert w[RingIndex(wnext, d - |out|, wsize)] == hist[|hist| - (d - |out|)];
      }
    }
  }

  lemma {:induction false} RingLength(window: seq<byte>, wsize: nat, whave: nat, wnext: nat, hist: seq<byte>)
    requires RingOk(window, wsize, whave, wnext, hist)
    ensures whave == (if |hist| < wsize then |hist| else wsize)
  {
  }

  /** Copy the ring to dst, the oldest byte first. */
  method CopyRing(window: array<byte>, wsize: nat, whave: nat, wnext: nat, dst: array<byte>, ghost hist: seq<byte>)
    requires RingOk(window[..], wsize, whave, wnext, hist) && dst != window && whave <= dst.Length
    modifies dst
    ensures whave <= |hist| && dst[..whave] == hist[|hist| - whave..] && dst[whave..] == old(dst[whave..])
  {
    var w := window[..];
    MemCopy(dst, 0, w, wnext, whave - wnext);
    MemCopy(dst, whave - wnext, w, 0, wnext);
    forall k | 0 <= k < whave ensures dst[k] == hist[|hist| - whave + k] {
      assert w[RingIndex(wnext, whave - k, wsize)] == hist[|hist| - (whave - k)];
    }
  }
}
