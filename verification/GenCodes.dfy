/** Code words from code lengths (trees.c): bi_reverse and gen_codes. A tree is two arrays,
    as in the source each entry is two unions: fc is a frequency and later a code word, dl a
    father and later a length. */
module GenCodes {
  import opened Bits
  import opened Canonical

  lemma {:induction false} MsbBitsCons(v: nat, n: nat)
    ensures MsbBits(v, n + 1) == [Shr(v, n) % 2 == 1] + MsbBits(v, n)
  {
    if n > 0 { MsbBitsCons(v / 2, n - 1); }
  }

  lemma {:induction false} ShrStep(v: nat, n: nat)
    ensures Shr(v, n + 1) == Shr(v, n) / 2
  {
    if n > 0 { ShrStep(v / 2, n - 1); }
  }

  /** Reverse the first len bits of code. */
  method BiReverse(code: nat, len: nat) returns (r: nat)
    requires 1 <= len <= MAXBITS
    ensures r < Pow2(len) && ToBits(r, len) == MsbBits(code, len)
  {
    hide MsbBits, ToBits, FromBits, Shr;
    var res, c, left := 0, code, len;
    MsbNone(code);
    while left > 0
      invariant 0 <= left <= len && c == Shr(code, len - left) && res == 2 * FromBits(MsbBits(code, len - left))
      decreases left
    {
      MsbBitsCons(code, len - left);
      ShrStep(code, len - left);
      FromBitsCons(Shr(code, len - left) % 2 == 1, MsbBits(code, len - left));
      res := res + c % 2;
      c := c / 2;
      res := 2 * res;
      left := left - 1;
    }
    r := res / 2;
    ToFromBits(MsbBits(code, len));
  }

  lemma {:induction false} MsbNone(v: nat)
    ensures MsbBits(v, 0) == [] && FromBits(MsbBits(v, 0)) == 0 && Shr(v, 0) == v
  {
  }

  lemma {:induction false} FromBitsCons(x: bool, b: seq<bool>)
    ensures FromBits([x] + b) == (if x then 1 else 0) + 2 * FromBits(b)
  {
    assert ([x] + b)[1..] == b;
  }

  lemma {:induction false} FirstCodeStart(cnt: seq<nat>)
    requires |cnt| == MAXBITS + 1
    ensures FirstCode(cnt, 0) == 0
  {
  }

  lemma {:induction false} FirstCodeStep(cnt: seq<nat>, l: nat)
    requires |cnt| == MAXBITS + 1 && 1 <= l <= MAXBITS
    ensures FirstCode(cnt, l) == 2 * (FirstCode(cnt, l - 1) + (if l == 1 then 0 else cnt[l - 1]))
  {
  }

  /** The smallest code of each length. */
  method NextCodes(bl_count: array<nat>, ghost lens: seq<nat>) returns (next_code: array<nat>)
    requires bl_count.Length == MAXBITS + 1 && bl_count[0] == 0 && forall l :: 1 <= l <= MAXBITS ==>
        bl_count[l] == Count(lens, l)
    ensures fresh(next_code) && next_code.Length == MAXBITS + 1
    ensures forall l: nat :: 1 <= l <= MAXBITS ==> next_code[l] == FirstCode(Counts(lens), l)
  {
    hide Count, FirstCode, Counts;
    FirstCodeStart(Counts(lens));
    next_code := new nat[MAXBITS + 1];
    var code := 0;
    ghost var cnt := Counts(lens);
    for bits := 1 to MAXBITS + 1
      invariant code == FirstCode(cnt, bits - 1) && forall l: nat :: 1 <= l < bits ==> next_code[l] == FirstCode(cnt, l)
    {
      FirstCodeStep(cnt, bits);
      code := 2 * (code + bl_count[bits - 1]);
      next_code[bits] := code;
    }
  }

  /** The code word of every used symbol, first bit lowest. */
  ghost predicate CodesOk(fc: seq<nat>, lens: seq<nat>) {
    |lens| <= |fc| && LensOk(lens) &&
    forall n: nat :: n < |lens| && lens[n] != 0 ==> fc[n] < Pow2(lens[n]) && ToBits(fc[n], lens[n]) == CodeBits(lens, n)
  }

  /** gen_codes: the canonical code words of section 3.2.2 of RFC 1951, bit-reversed. */
  method GenerateCodes(fc: array<nat>, dl: array<nat>, size: nat, bl_count: array<nat>)
    requires size <= fc.Length && size <= dl.Length && fc != dl && bl_count != fc
    requires LensOk(dl[..size]) && NotOver(dl[..size])
    requires bl_count.Length == MAXBITS + 1 && bl_count[0] == 0
    requires forall l :: 1 <= l <= MAXBITS ==> bl_count[l] == Count(dl[..size], l)
    modifies fc
    ensures CodesOk(fc[..], dl[..size])
    ensures forall n :: 0 <= n < fc.Length && (n >= size || dl[n] == 0) ==> fc[n] == old(fc[n])
  {
    hide Count, NotOver, CodeBits, ToBits, Pow2, FirstCode;
    ghost var lens := dl[..size];
    ghost var cnt := Counts(lens);
    var next_code := NextCodes(bl_count, lens);
    NoCounts(lens);
    for n := 0 to size
      invariant dl[..size] == lens
      invariant forall l: nat :: 1 <= l <= MAXBITS ==> next_code[l] == FirstCode(cnt, l) + Count(lens[..n], l)
      invariant forall k: nat :: k < n && lens[k] != 0 ==>
          fc[k] < Pow2(lens[k]) && ToBits(fc[k], lens[k]) == CodeBits(lens, k)
      invariant forall k :: 0 <= k < fc.Length && (k >= n || dl[k] == 0) ==> fc[k] == old(fc[k])
    {
      var len := dl[n];
      CountsTo(lens, n);
      if len != 0 {
        CodeBitsIs(lens, n);
        var r := BiReverse(next_code[len], len);
        next_code[len] := next_code[len] + 1;
        fc[n] := r;
      }
    }
  }

  lemma {:induction false} NoCounts(lens: seq<nat>)
    ensures forall l: nat :: Count(lens[..0], l) == 0
  {
  }

  lemma {:induction false} CountsTo(lens: seq<nat>, n: nat)
    requires n < |lens|
    ensures forall l: nat :: Count(lens[..n + 1], l) == Count(lens[..n], l) + if lens[n] == l then 1 else 0
  {
    forall l: nat ensures Count(lens[..n + 1], l) == Count(lens[..n], l) + if lens[n] == l then 1 else 0 {
      CountPrefix(lens, n, l);
    }
  }

  lemma {:induction false} CodeBitsIs(lens: seq<nat>, n: nat)
    requires n < |lens| && 1 <= lens[n] <= MAXBITS
    ensures CodeBits(lens, n) == MsbBits(FirstCode(Counts(lens), lens[n]) + Count(lens[..n], lens[n]), lens[n])
  {
  }
}
