/** The discrete part of the teacher-forced decoder pass: right-padding the
    batch, the true lengths handed to the packed recurrent layer, and the
    shift-by-one pairing of predictions with target tokens that the
    reconstruction loss scores, skipping `pad` targets. The recurrent layer
    and the cross-entropy value are not modelled: predictions are opaque
    values of a type parameter. */
module TeacherForcing {
  import opened Symbols

  /** A row of `n` copies of `pad`. */
  function Pads(n: nat, pad: int): (r: seq<int>)
    ensures |r| == n
    ensures forall t :: 0 <= t < n ==> r[t] == pad
  {
    seq(n, _ => pad)
  }

  /** The length of the longest sentence of the batch (0 for no sentence). */
  function MaxLength(xs: seq<seq<int>>): (m: nat)
    ensures forall b :: 0 <= b < |xs| ==> |xs[b]| <= m
    ensures xs != [] ==> exists b :: 0 <= b < |xs| && |xs[b]| == m
    ensures xs == [] ==> m == 0
  {
    if xs == [] then 0
    else
      var rest := MaxLength(xs[1..]);
      if |xs[0]| >= rest then |xs[0]| else rest
  }

  /** Right-pads every sentence with `pad` to width `width`. */
  function PadTo(xs: seq<seq<int>>, width: nat, pad: int): (r: seq<seq<int>>)
    requires forall b :: 0 <= b < |xs| ==> |xs[b]| <= width
    ensures |r| == |xs|
    ensures forall b :: 0 <= b < |xs| ==> |r[b]| == width && r[b][..|xs[b]|] == xs[b]
    ensures forall b, t :: 0 <= b < |xs| && |xs[b]| <= t < width ==> r[b][t] == pad
  {
    seq(|xs|, b requires 0 <= b < |xs| => xs[b] + Pads(width - |xs[b]|, pad))
  }

  /** `pad_sequence(x, batch_first=True, padding_value=pad)`. */
  function PadSequence(xs: seq<seq<int>>, pad: int): (r: seq<seq<int>>)
    ensures |r| == |xs|
    ensures forall b :: 0 <= b < |xs| ==> |r[b]| == MaxLength(xs) && r[b][..|xs[b]|] == xs[b]
    ensures forall b, t :: 0 <= b < |xs| && |xs[b]| <= t < MaxLength(xs) ==> r[b][t] == pad
    ensures xs != [] ==> exists b :: 0 <= b < |xs| && |r[b]| == |xs[b]|
  {
    PadTo(xs, MaxLength(xs), pad)
  }

  /** Why the decoder pass rejects a batch: there is no sentence to pad, or
      the sentences cannot be packed by length. */
  datatype PackError = EmptyBatch | NotPackable

  /** What the decoder pass feeds to its recurrent layer: the padded tokens
      and the true lengths. */
  datatype DecoderBatch = DecoderBatch(tokens: seq<seq<int>>, lengths: seq<nat>)

  predicate LengthsPackable(lengths: seq<nat>) {
    && (forall b :: 0 <= b < |lengths| ==> lengths[b] > 0)
    && (forall b :: 0 <= b < |lengths| - 1 ==> lengths[b] >= lengths[b + 1])
  }

  /** `forward_decoder` up to the recurrent layer: the lengths of the
      sentences, the padded batch, and the packing by true length. Padding
      needs at least one sentence; packing accepts only non-empty sentences
      in non-increasing order of length. */
  function PrepareDecoderInput(xs: seq<seq<int>>, pad: int): (r: Result<DecoderBatch, PackError>)
    ensures r.Ok? <==> xs != [] && LengthsPackable(seq(|xs|, b requires 0 <= b < |xs| => |xs[b]|))
    ensures r.Err? ==> r.error == (if xs == [] then EmptyBatch else NotPackable)
    ensures r.Ok? ==>
      && r.value.tokens == PadSequence(xs, pad)
      && |r.value.lengths| == |xs|
      && (forall b :: 0 <= b < |xs| ==> r.value.lengths[b] == |xs[b]|)
      && |r.value.tokens[0]| == r.value.lengths[0]
  {
    var lengths := seq(|xs|, b requires 0 <= b < |xs| => |xs[b]|);
    var tokens := PadSequence(xs, pad);
    if xs == [] then Err(EmptyBatch)
    else if !LengthsPackable(lengths) then Err(NotPackable)
    else
      assert forall b :: 0 <= b < |xs| - 1 ==> |xs[b]| >= |xs[b + 1]| by {
        forall b | 0 <= b < |xs| - 1 ensures |xs[b]| >= |xs[b + 1]| {
          assert lengths[b] >= lengths[b + 1];
        }
      }
      FirstIsLongest(xs);
      Ok(DecoderBatch(tokens, lengths))
  }

  /** When the sentences come in non-increasing order of length, the first
      is a longest one, so the padded width is its length. */
  lemma FirstIsLongest(xs: seq<seq<int>>)
    requires xs != []
    requires forall b :: 0 <= b < |xs| - 1 ==> |xs[b]| >= |xs[b + 1]|
    ensures MaxLength(xs) == |xs[0]|
  {
  }

  /** One term of the reconstruction loss: a prediction and the token it is
      scored against. */
  datatype Term<P> = Term(pred: P, target: int)

  /** One row of `y[:, :-1]` paired with the same row of `x[:, 1:]` under
      `ignore_index=pad`: the prediction made at position `t` is scored
      against the token at `t + 1`, and a `pad` target contributes no term. */
  function RowTerms<P>(preds: seq<P>, row: seq<int>, pad: int): (r: seq<Term<P>>)
    requires |preds| == |row|
    ensures |r| <= if row == [] then 0 else |row| - 1
    ensures forall j :: 0 <= j < |r| ==> r[j].target != pad
    decreases |row|
  {
    if |row| < 2 then []
    else (if row[1] == pad then [] else [Term(preds[0], row[1])]) + RowTerms(preds[1..], row[1..], pad)
  }

  /** `compute_loss` up to the cross-entropy value: the terms it averages,
      row after row as `.view(-1)` flattens them. */
  function LossTerms<P>(y: seq<seq<P>>, x: seq<seq<int>>, pad: int): (r: seq<Term<P>>)
    requires |y| == |x|
    requires forall b :: 0 <= b < |x| ==> |y[b]| == |x[b]|
    ensures forall j :: 0 <= j < |r| ==> r[j].target != pad
    ensures |x| == 1 ==> r == RowTerms(y[0], x[0], pad)
  {
    if x == [] then [] else RowTerms(y[0], x[0], pad) + LossTerms(y[1..], x[1..], pad)
  }

  /** A term is scored exactly when some position's prediction is paired
      with the next position's token and that token is not `pad`. */
  lemma {:induction false} RowTermsMembers<P>(preds: seq<P>, row: seq<int>, pad: int, q: P, g: int)
    requires |preds| == |row|
    ensures Term(q, g) in RowTerms(preds, row, pad)
        <==> exists t :: 0 <= t < |row| - 1 && row[t + 1] != pad && preds[t] == q && row[t + 1] == g
    decreases |row|
  {
    if |row| >= 2 {
      RowTermsMembers(preds[1..], row[1..], pad, q, g);
      if exists t :: 0 <= t < |row| - 1 && row[t + 1] != pad && preds[t] == q && row[t + 1] == g {
        var t :| 0 <= t < |row| - 1 && row[t + 1] != pad && preds[t] == q && row[t + 1] == g;
        if t > 0 {
          assert preds[1..][t - 1] == q && row[1..][t] == g;
        }
      }
      if Term(q, g) in RowTerms(preds[1..], row[1..], pad) {
        var t :| 0 <= t < |row| - 2 && row[1..][t + 1] != pad && preds[1..][t] == q && row[1..][t + 1] == g;
        assert row[t + 2] != pad && preds[t + 1] == q && row[t + 2] == g;
      }
    }
  }

  /** For a sentence holding no `pad` after its first token, as the
      vocabulary encodes them, every position but the last is scored, in
      order, against its successor. */
  lemma {:induction false} RowTermsAligned<P>(preds: seq<P>, row: seq<int>, pad: int)
    requires |preds| == |row|
    requires forall t :: 1 <= t < |row| ==> row[t] != pad
    ensures |RowTerms(preds, row, pad)| == if row == [] then 0 else |row| - 1
    ensures forall t :: 0 <= t < |row| - 1 ==> RowTerms(preds, row, pad)[t] == Term(preds[t], row[t + 1])
    decreases |row|
  {
    if |row| >= 2 {
      RowTermsAligned(preds[1..], row[1..], pad);
      var rest := RowTerms(preds[1..], row[1..], pad);
      assert RowTerms(preds, row, pad) == [Term(preds[0], row[1])] + rest;
      forall t | 1 <= t < |row| - 1
        ensures RowTerms(preds, row, pad)[t] == Term(preds[t], row[t + 1])
      {
        assert rest[t - 1] == Term(preds[1..][t - 1], row[1..][t]);
      }
    }
  }

  /** A term is scored over the batch exactly when, in some sentence `b`,
      the prediction at position `t` is paired with the non-`pad` token at
      `t + 1`. */
  lemma {:induction false} LossTermsMembers<P>(y: seq<seq<P>>, x: seq<seq<int>>, pad: int, q: P, g: int)
    requires |y| == |x|
    requires forall b :: 0 <= b < |x| ==> |y[b]| == |x[b]|
    ensures Term(q, g) in LossTerms(y, x, pad)
        <==> exists b, t :: 0 <= b < |x| && 0 <= t < |x[b]| - 1 && x[b][t + 1] != pad && y[b][t] == q && x[b][t + 1] == g
    decreases |x|
  {
    if x != [] {
      RowTermsMembers(y[0], x[0], pad, q, g);
      LossTermsMembers(y[1..], x[1..], pad, q, g);
      if exists b, t :: 0 <= b < |x| && 0 <= t < |x[b]| - 1 && x[b][t + 1] != pad && y[b][t] == q && x[b][t + 1] == g {
        var b, t :| 0 <= b < |x| && 0 <= t < |x[b]| - 1 && x[b][t + 1] != pad && y[b][t] == q && x[b][t + 1] == g;
        if b > 0 {
          assert x[1..][b - 1] == x[b] && y[1..][b - 1] == y[b];
        }
      }
      if Term(q, g) in LossTerms(y[1..], x[1..], pad) {
        var b, t :| 0 <= b < |x| - 1 && 0 <= t < |x[1..][b]| - 1 && x[1..][b][t + 1] != pad
                    && y[1..][b][t] == q && x[1..][b][t + 1] == g;
        assert x[b + 1][t + 1] != pad && y[b + 1][t] == q && x[b + 1][t + 1] == g;
      }
    }
  }

  /** One more sentence appends its own terms, in order, after those of the
      earlier sentences: the batch's terms are its rows' terms laid end to
      end, which fixes their number and order. */
  lemma {:induction false} LossTermsAppend<P>(y: seq<seq<P>>, x: seq<seq<int>>, p: seq<P>, row: seq<int>, pad: int)
    requires |y| == |x|
    requires forall b :: 0 <= b < |x| ==> |y[b]| == |x[b]|
    requires |p| == |row|
    ensures LossTerms(y + [p], x + [row], pad) == LossTerms(y, x, pad) + RowTerms(p, row, pad)
    decreases |x|
  {
    if x == [] {
      assert (y + [p])[1..] == [] && (x + [row])[1..] == [];
    } else {
      assert (y + [p])[1..] == y[1..] + [p];
      assert (x + [row])[1..] == x[1..] + [row];
      LossTermsAppend(y[1..], x[1..], p, row, pad);
    }
  }

  /** Trailing `pad` adds no term, whatever is predicted at those positions. */
  lemma {:induction false} RowTermsIgnorePadding<P>(preds: seq<P>, extra: seq<P>, row: seq<int>, pad: int)
    requires |preds| == |row|
    ensures RowTerms(preds + extra, row + Pads(|extra|, pad), pad) == RowTerms(preds, row, pad)
    decreases |row| + |extra|
  {
    var p, r := preds + extra, row + Pads(|extra|, pad);
    if |r| >= 2 {
      if |row| == 0 {
        assert r[1] == pad;
        RowTermsIgnorePadding(preds, extra[1..], row, pad);
        assert p[1..] == preds + extra[1..];
        assert r[1..] == row + Pads(|extra| - 1, pad);
      } else if |row| == 1 {
        assert r[1] == pad;
        RowTermsIgnorePadding([], extra, [], pad);
        assert p[1..] == [] + extra;
        assert r[1..] == [] + Pads(|extra|, pad);
      } else {
        RowTermsIgnorePadding(preds[1..], extra, row[1..], pad);
        assert p[1..] == preds[1..] + extra;
        assert r[1..] == row[1..] + Pads(|extra|, pad);
      }
    }
  }

  /** Each sentence's predictions cut to the sentence's own length. */
  function Trim<P>(y: seq<seq<P>>, xs: seq<seq<int>>): (r: seq<seq<P>>)
    requires |y| == |xs|
    requires forall b :: 0 <= b < |xs| ==> |xs[b]| <= |y[b]|
    ensures |r| == |xs| && forall b :: 0 <= b < |xs| ==> r[b] == y[b][..|xs[b]|]
  {
    seq(|xs|, b requires 0 <= b < |xs| => y[b][..|xs[b]|])
  }

  /** The loss over a batch padded to any width equals the loss over the
      unpadded sentences with the predictions at their real positions. */
  lemma {:induction false} LossTermsUnpadded<P>(y: seq<seq<P>>, xs: seq<seq<int>>, width: nat, pad: int)
    requires |y| == |xs|
    requires forall b :: 0 <= b < |xs| ==> |xs[b]| <= width && |y[b]| == width
    ensures LossTerms(y, PadTo(xs, width, pad), pad) == LossTerms(Trim(y, xs), xs, pad)
    decreases |xs|
  {
    if xs != [] {
      var padded := PadTo(xs, width, pad);
      assert padded[1..] == PadTo(xs[1..], width, pad);
      assert Trim(y, xs)[1..] == Trim(y[1..], xs[1..]);
      LossTermsUnpadded(y[1..], xs[1..], width, pad);
      var n := |xs[0]|;
      assert y[0] == y[0][..n] + y[0][n..];
      assert padded[0] == xs[0] + Pads(width - n, pad);
      RowTermsIgnorePadding(y[0][..n], y[0][n..], xs[0], pad);
    }
  }

  /** Masking is correct: padding the batch to a greater width, with
      arbitrary predictions at the padded positions, leaves the scored terms
      (hence the loss) unchanged. */
  lemma LossTermsPadInvariant<P>(y: seq<seq<P>>, y': seq<seq<P>>, xs: seq<seq<int>>, width: nat, width': nat, pad: int)
    requires |y| == |xs| && |y'| == |xs|
    requires forall b :: 0 <= b < |xs| ==> |xs[b]| <= width && |y[b]| == width
    requires forall b :: 0 <= b < |xs| ==> |xs[b]| <= width' && |y'[b]| == width'
    requires forall b :: 0 <= b < |xs| ==> y[b][..|xs[b]|] == y'[b][..|xs[b]|]
    ensures LossTerms(y, PadTo(xs, width, pad), pad) == LossTerms(y', PadTo(xs, width', pad), pad)
  {
    LossTermsUnpadded(y, xs, width, pad);
    LossTermsUnpadded(y', xs, width', pad);
    assert Trim(y, xs) == Trim(y', xs);
  }
}
