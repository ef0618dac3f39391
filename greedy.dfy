/** Greedy decoding as `reconstruct` and `decode_smiles` do it once the
    argmax over the vocabulary has been taken: each row keeps its ids up to,
    and excluding, the first `eos` or `pad`. The encoder, the decoder and the
    argmax itself are not modelled; their output is the matrix of ids. */
module GreedyDecode {

  predicate IsStop(v: int, eos: int, pad: int) {
    v == eos || v == pad
  }

  /** The ids before the first stop symbol. */
  function StopFreePrefix(ids: seq<int>, eos: int, pad: int): (r: seq<int>)
    ensures r <= ids
    ensures forall j :: 0 <= j < |r| ==> !IsStop(r[j], eos, pad)
    ensures |r| < |ids| ==> IsStop(ids[|r|], eos, pad)
  {
    if ids == [] || IsStop(ids[0], eos, pad) then []
    else [ids[0]] + StopFreePrefix(ids[1..], eos, pad)
  }

  /** No prefix free of stop symbols is longer. */
  lemma {:induction false} StopFreePrefixLongest(ids: seq<int>, eos: int, pad: int, p: seq<int>)
    requires p <= ids
    requires forall j :: 0 <= j < |p| ==> !IsStop(p[j], eos, pad)
    ensures |p| <= |StopFreePrefix(ids, eos, pad)|
  {
    if p != [] {
      assert p[0] == ids[0];
      assert p[1..] <= ids[1..];
      StopFreePrefixLongest(ids[1..], eos, pad, p[1..]);
    }
  }

  /** A stop-free prefix that is all of the row or is followed by a stop
      symbol is the longest one. */
  lemma {:induction false} StopFreePrefixUnique(ids: seq<int>, eos: int, pad: int, p: seq<int>)
    requires p <= ids
    requires forall j :: 0 <= j < |p| ==> !IsStop(p[j], eos, pad)
    requires |p| < |ids| ==> IsStop(ids[|p|], eos, pad)
    ensures p == StopFreePrefix(ids, eos, pad)
  {
    if p != [] {
      assert p[0] == ids[0];
      assert p[1..] <= ids[1..];
      StopFreePrefixUnique(ids[1..], eos, pad, p[1..]);
      assert p == [p[0]] + p[1..];
    }
  }

  /** The loop over one batch (lines 171-180 and 419-428): for each row,
      append ids until the first `eos` or `pad`, then stop. */
  method DecodeBatch(argmax: seq<seq<int>>, eos: int, pad: int) returns (smiles: seq<seq<int>>)
    ensures |smiles| == |argmax|
    ensures forall s :: 0 <= s < |argmax| ==> smiles[s] == StopFreePrefix(argmax[s], eos, pad)
  {
    smiles := [];
    for s := 0 to |argmax|
      invariant |smiles| == s
      invariant forall j :: 0 <= j < s ==> smiles[j] == StopFreePrefix(argmax[j], eos, pad)
    {
      var row := argmax[s];
      var sample := [];
      var c := 0;
      while c < |row|
        invariant c <= |row|
        invariant sample == row[..c]
        invariant forall j :: 0 <= j < c ==> !IsStop(row[j], eos, pad)
      {
        var v := row[c];
        if v == eos || v == pad {
          break;
        }
        sample := sample + [v];
        c := c + 1;
      }
      StopFreePrefixUnique(row, eos, pad, sample);
      smiles := smiles + [sample];
    }
  }

  /** The samples of several batches, in batch order, as `all_samples.extend`
      accumulates them. */
  function DecodedAll(batches: seq<seq<seq<int>>>, eos: int, pad: int): (r: seq<seq<int>>)
    ensures forall j, t :: 0 <= j < |r| && 0 <= t < |r[j]| ==> !IsStop(r[j][t], eos, pad)
    ensures |r| == Rows(batches)
  {
    if batches == [] then []
    else
      var last := batches[|batches| - 1];
      DecodedAll(batches[..|batches| - 1], eos, pad)
        + seq(|last|, s requires 0 <= s < |last| => StopFreePrefix(last[s], eos, pad))
  }

  /** The number of rows over all batches. */
  function Rows(batches: seq<seq<seq<int>>>): nat {
    if batches == [] then 0 else Rows(batches[..|batches| - 1]) + |batches[|batches| - 1]|
  }

  /** Decoding one more batch appends, in order, the stop-free prefix of
      each of its rows to what the earlier batches gave. */
  lemma DecodedAllAppend(a: seq<seq<seq<int>>>, b: seq<seq<int>>, eos: int, pad: int)
    ensures DecodedAll(a + [b], eos, pad)
         == DecodedAll(a, eos, pad) + seq(|b|, s requires 0 <= s < |b| => StopFreePrefix(b[s], eos, pad))
  {
    assert (a + [b])[..|a + [b]| - 1] == a;
  }

  /** The outer loop of `decode_smiles` (and of `reconstruct`) over batches. */
  method DecodeAll(batches: seq<seq<seq<int>>>, eos: int, pad: int) returns (all: seq<seq<int>>)
    ensures all == DecodedAll(batches, eos, pad)
  {
    all := [];
    for i := 0 to |batches|
      invariant all == DecodedAll(batches[..i], eos, pad)
    {
      var smiles := DecodeBatch(batches[i], eos, pad);
      assert batches[..i + 1][..i] == batches[..i];
      all := all + smiles;
    }
    assert batches[..|batches|] == batches;
  }
}
