/** The autoregressive sampling loop of `VAE.sample`. The decoder step, the
    temperature softmax and the multinomial draw are an oracle: `draws[i - 1][k]`
    is the token drawn for row `k` at step `i`, for `i` in `1 .. maxLen - 1`.
    What remains is the token buffer, the end-of-sequence mask and the end
    positions, updated by masked assignment, and the final truncation. */
module Sampler {
  import opened Symbols

  /** The tokens drawn for row `k`, step after step. */
  function Column(draws: seq<seq<int>>, k: nat): (d: seq<int>)
    requires forall i :: 0 <= i < |draws| ==> k < |draws[i]|
    ensures |d| == |draws|
    ensures forall i :: 0 <= i < |draws| ==> d[i] == draws[i][k]
  {
    seq(|draws|, i requires 0 <= i < |draws| => draws[i][k])
  }

  /** The index of the first `eos` among the draws, `|d|` when there is none. */
  function FirstEos(d: seq<int>, eos: int): (f: nat)
    ensures f <= |d|
    ensures forall j :: 0 <= j < f ==> d[j] != eos
    ensures f < |d| ==> d[f] == eos
  {
    if d == [] then 0
    else if d[0] == eos then 0
    else 1 + FirstEos(d[1..], eos)
  }

  /** The drawn tokens up to and including the first `eos`. */
  function UpToEos(d: seq<int>, eos: int): seq<int> {
    if d == [] then []
    else if d[0] == eos then [eos]
    else [d[0]] + UpToEos(d[1..], eos)
  }

  /** What one row yields: `bos`, then its draws through its first `eos`. */
  function SampleRow(bos: int, eos: int, d: seq<int>): seq<int> {
    [bos] + UpToEos(d, eos)
  }

  /** What the whole batch yields, row by row. */
  function Samples(sp: Specials, nBatch: nat, draws: seq<seq<int>>): (r: seq<seq<int>>)
    requires forall i :: 0 <= i < |draws| ==> |draws[i]| == nBatch
    ensures |r| == nBatch
    ensures forall k :: 0 <= k < nBatch ==> r[k] == SampleRow(sp.bos, sp.eos, Column(draws, k))
  {
    seq(nBatch, k requires 0 <= k < nBatch => SampleRow(sp.bos, sp.eos, Column(draws, k)))
  }

  /** `UpToEos` is the prefix of the draws that ends at the first `eos`. */
  lemma {:induction false} UpToEosPrefix(d: seq<int>, eos: int)
    ensures UpToEos(d, eos) == d[..if FirstEos(d, eos) < |d| then FirstEos(d, eos) + 1 else |d|]
  {
    if d != [] && d[0] != eos {
      UpToEosPrefix(d[1..], eos);
      assert d == [d[0]] + d[1..];
    }
  }

  /** A row's output is `bos` followed by a prefix of its draws, so it holds
      nothing drawn after its first `eos` and at most `maxLen` tokens. A row
      that drew `eos` ends with it, holds no earlier `eos` after `bos`, and is
      `i + 1` long when its first `eos` came at step `i`. A row that never
      drew `eos` keeps every draw. */
  lemma SampleRowShape(bos: int, eos: int, d: seq<int>)
    ensures var r := SampleRow(bos, eos, d);
      && 1 <= |r| <= |d| + 1
      && r == ([bos] + d)[..|r|]
      && (eos in d ==> |r| == FirstEos(d, eos) + 2 && r[|r| - 1] == eos)
      && (forall j :: 1 <= j < |r| - 1 ==> r[j] != eos)
      && (eos !in d ==> r == [bos] + d)
  {
    UpToEosPrefix(d, eos);
    var f := FirstEos(d, eos);
    var r := SampleRow(bos, eos, d);
    assert r == [bos] + d[..if f < |d| then f + 1 else |d|];
    assert ([bos] + d)[..|r|] == r;
    if eos in d {
      var j :| 0 <= j < |d| && d[j] == eos;
      assert f < |d|;
    }
    forall j | 1 <= j < |r| - 1 ensures r[j] != eos {
      assert r[j] == d[j - 1];
    }
  }

  /** Sampling is row-independent: sampling two batches together, with the
      same draws per row, gives the two batches' outputs one after the other. */
  lemma SamplesBatchIndependent(sp: Specials, a: seq<seq<int>>, na: nat, b: seq<seq<int>>, nb: nat)
    requires |a| == |b|
    requires forall i :: 0 <= i < |a| ==> |a[i]| == na && |b[i]| == nb
    ensures var ab := seq(|a|, i requires 0 <= i < |a| => a[i] + b[i]);
      Samples(sp, na + nb, ab) == Samples(sp, na, a) + Samples(sp, nb, b)
  {
    var ab := seq(|a|, i requires 0 <= i < |a| => a[i] + b[i]);
    forall k | 0 <= k < na + nb
      ensures Samples(sp, na + nb, ab)[k] == (Samples(sp, na, a) + Samples(sp, nb, b))[k]
    {
      if k < na {
        assert Column(ab, k) == Column(a, k);
      } else {
        assert Column(ab, k) == Column(b, k - na);
      }
    }
  }

  /** The end position recorded for a row after steps `1 .. i - 1`. */
  ghost function EndPadAfter(d: seq<int>, eos: int, i: nat, maxLen: nat): int {
    if FirstEos(d, eos) < i - 1 then FirstEos(d, eos) + 2 else maxLen
  }

  /** A buffer cell `c >= 1` after steps `1 .. i - 1`: the step-`c` draw if
      that step has run and the row had not ended before it, else `pad`. */
  ghost function CellAfter(d: seq<int>, sp: Specials, i: nat, c: nat): int
    requires 1 <= c <= |d|
  {
    if c < i && c - 1 <= FirstEos(d, sp.eos) then d[c - 1] else sp.pad
  }

  /** The recorded end position lies in `1 .. maxLen`; it is at least 2 once
      the row has ended, and for every row when `maxLen >= 2`. */
  lemma EndPadBounds(d: seq<int>, eos: int, i: nat, maxLen: nat)
    requires |d| == maxLen - 1 && 1 <= i <= maxLen
    ensures 1 <= EndPadAfter(d, eos, i, maxLen) <= maxLen
    ensures FirstEos(d, eos) < i - 1 ==> EndPadAfter(d, eos, i, maxLen) >= 2
    ensures maxLen >= 2 ==> EndPadAfter(d, eos, i, maxLen) >= 2
  {
  }

  /** How one step moves a row's specified state from after step `i - 1`
      to after step `i`: the same transition the masked assignments make. */
  lemma StepAdvances(d: seq<int>, sp: Specials, i: nat, maxLen: nat)
    requires |d| == maxLen - 1 && 1 <= i < maxLen
    ensures (FirstEos(d, sp.eos) < i) == (FirstEos(d, sp.eos) < i - 1 || d[i - 1] == sp.eos)
    ensures EndPadAfter(d, sp.eos, i + 1, maxLen)
         == if !(FirstEos(d, sp.eos) < i - 1) && d[i - 1] == sp.eos then i + 1 else EndPadAfter(d, sp.eos, i, maxLen)
    ensures CellAfter(d, sp, i + 1, i) == if !(FirstEos(d, sp.eos) < i - 1) then d[i - 1] else sp.pad
    ensures forall c :: 1 <= c < maxLen && c != i ==> CellAfter(d, sp, i + 1, c) == CellAfter(d, sp, i, c)
  {
  }

  /** A row's buffer cells past its end position hold `pad` at every step:
      nothing is written into a row once it has ended. */
  lemma FrozenAfterEnd(d: seq<int>, sp: Specials, i: nat, maxLen: nat, c: nat)
    requires |d| == maxLen - 1 && 1 <= c < maxLen
    requires c >= EndPadAfter(d, sp.eos, maxLen, maxLen)
    ensures CellAfter(d, sp, i, c) == sp.pad
  {
  }

  /** Lines 216-224: the buffer is `pad` everywhere but for `bos` in column
      0, every end position is `maxLen`, and no row has ended. */
  method Initial(sp: Specials, nBatch: nat, maxLen: nat) returns (x: array2<int>, eosMask: array<bool>, endPads: array<int>)
    requires maxLen >= 1
    ensures fresh(x) && fresh(eosMask) && fresh(endPads)
    ensures x.Length0 == nBatch && x.Length1 == maxLen
    ensures eosMask.Length == nBatch && endPads.Length == nBatch
    ensures forall k, c :: 0 <= k < nBatch && 0 <= c < maxLen ==> x[k, c] == if c == 0 then sp.bos else sp.pad
    ensures forall k :: 0 <= k < nBatch ==> !eosMask[k] && endPads[k] == maxLen
  {
    x := new int[nBatch, maxLen]((_, _) => sp.pad);
    forall k | 0 <= k < nBatch {
      x[k, 0] := sp.bos;
    }
    endPads := new int[nBatch](_ => maxLen);
    eosMask := new bool[nBatch](_ => false);
  }

  /** Lines 236-239 of one generating step: rows not yet ended receive the
      drawn token in column `i`; a row drawing its first `eos` records `i + 1`
      as its end and joins the mask. Ended rows are left untouched. */
  method Step(x: array2<int>, eosMask: array<bool>, endPads: array<int>, i: nat, w: seq<int>, eos: int)
    requires x.Length0 == eosMask.Length == endPads.Length == |w|
    requires 1 <= i < x.Length1
    modifies x, eosMask, endPads
    ensures forall k :: 0 <= k < |w| ==> eosMask[k] == (old(eosMask[k]) || w[k] == eos)
    ensures forall k :: 0 <= k < |w| ==>
      endPads[k] == if !old(eosMask[k]) && w[k] == eos then i + 1 else old(endPads[k])
    ensures forall k, c :: 0 <= k < |w| && 0 <= c < x.Length1 ==>
      x[k, c] == if c == i && !old(eosMask[k]) then w[k] else old(x[k, c])
  {
    forall k | 0 <= k < |w| && !eosMask[k] {
      x[k, i] := w[k];
    }
    var newlyEnded := seq(|w|, k requires 0 <= k < |w| reads eosMask => !eosMask[k] && w[k] == eos);
    forall k | 0 <= k < |w| && newlyEnded[k] {
      endPads[k] := i + 1;
    }
    forall k | 0 <= k < |w| {
      eosMask[k] := eosMask[k] || newlyEnded[k];
    }
  }

  /** Lines 242-244: every row of the buffer cut at its end position. */
  method Truncate(x: array2<int>, endPads: array<int>) returns (rows: seq<seq<int>>)
    requires endPads.Length == x.Length0
    requires forall k :: 0 <= k < endPads.Length ==> 0 <= endPads[k] <= x.Length1
    ensures |rows| == x.Length0
    ensures forall k :: 0 <= k < x.Length0 ==>
      |rows[k]| == endPads[k] && forall c :: 0 <= c < endPads[k] ==> rows[k][c] == x[k, c]
  {
    rows := [];
    var k := 0;
    while k < x.Length0
      invariant 0 <= k <= x.Length0
      invariant |rows| == k
      invariant forall j :: 0 <= j < k ==>
        |rows[j]| == endPads[j] && forall c :: 0 <= c < endPads[j] ==> rows[j][c] == x[j, c]
    {
      var end, row := endPads[k], k;
      rows := rows + [seq(end, c requires 0 <= c < end reads x => x[row, c])];
      k := k + 1;
    }
  }

  /** `VAE.sample` on the drawn tokens: steps `1 .. maxLen - 1`, `nBatch` outputs,
      each equal to its row's specification. */
  method Sample(sp: Specials, nBatch: nat, maxLen: nat, draws: seq<seq<int>>)
      returns (samples: seq<seq<int>>)
    requires maxLen >= 1
    requires |draws| == maxLen - 1
    requires forall i :: 0 <= i < |draws| ==> |draws[i]| == nBatch
    ensures samples == Samples(sp, nBatch, draws)
  {
    var x, eosMask, endPads := Initial(sp, nBatch, maxLen);
    for i := 1 to maxLen
      invariant forall k :: 0 <= k < nBatch ==> x[k, 0] == sp.bos
      invariant forall k, c :: 0 <= k < nBatch && 1 <= c < maxLen ==>
        x[k, c] == CellAfter(Column(draws, k), sp, i, c)
      invariant forall k :: 0 <= k < nBatch ==> eosMask[k] == (FirstEos(Column(draws, k), sp.eos) < i - 1)
      invariant forall k :: 0 <= k < nBatch ==> endPads[k] == EndPadAfter(Column(draws, k), sp.eos, i, maxLen)
    {
      Step(x, eosMask, endPads, i, draws[i - 1], sp.eos);
      forall k | 0 <= k < nBatch {
        StepAdvances(Column(draws, k), sp, i, maxLen);
      }
    }
    forall k | 0 <= k < nBatch ensures 1 <= endPads[k] <= maxLen {
      EndPadBounds(Column(draws, k), sp.eos, maxLen, maxLen);
    }
    samples := Truncate(x, endPads);
    forall k | 0 <= k < nBatch ensures samples[k] == SampleRow(sp.bos, sp.eos, Column(draws, k)) {
      var d := Column(draws, k);
      UpToEosPrefix(d, sp.eos);
      var f := FirstEos(d, sp.eos);
      var expected := SampleRow(sp.bos, sp.eos, d);
      assert |expected| == endPads[k];
      forall c | 0 <= c < endPads[k] ensures samples[k][c] == expected[c] {
        if c > 0 {
          assert x[k, c] == CellAfter(d, sp, maxLen, c);
        }
      }
    }
  }
}
