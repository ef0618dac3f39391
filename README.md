# VAE bookkeeping model

A Dafny model of the discrete logic inside the `VAE` class of the MOSES
molecular-generation repository (`moses/vae/model.py`). The VAE encodes token
sequences (SMILES strings turned into vocabulary ids) to a latent vector and
decodes latent vectors back to token sequences. Its neural parts (embedding
lookup, GRU layers, linear layers, softmax, multinomial draws, argmax) are
floating-point calls into PyTorch; the model treats them as oracles and keeps
the exact integer and sequence logic around them:

- **Construction** (`construction.dfy`): `VAE.__init__` rejects an encoder or
  decoder cell type other than `"gru"` (encoder first), sizes every layer
  (embedding `len(vocab)` wide, encoder output `q_d_h * (2 if bidir else 1)`,
  decoder input `d_emb + d_z`), forces dropout to 0 for a single-layer GRU;
  `forward_encoder` keeps the last `1 + bidir` entries of the final hidden
  stack and concatenates them.
- **Teacher forcing** (`teacher_forcing.dfy`): `forward_decoder` right-pads the
  batch with `pad` to its longest sentence and packs it by true length;
  `compute_loss` scores the prediction at position `t` against the token at
  `t + 1`, ignoring `pad` targets. Predictions are values of a type parameter;
  the cross-entropy value is not computed, only the list of scored terms.
- **Sampling** (`sampler.dfy`): `VAE.sample` keeps an `n_batch x max_len`
  token buffer (`array2`), an end-of-sequence mask and end positions
  (`array`s), runs steps `1 .. max_len - 1` writing each drawn token only into
  rows that have not ended, records `i + 1` at a row's first `eos`, and cuts
  each row at its end position. The draws are an input: `draws[i - 1][k]` is
  the token drawn for row `k` at step `i`. The method is proved equal to a
  row-by-row specification (`bos`, then the draws through the first `eos`).
- **Greedy decoding** (`greedy.dfy`): `reconstruct` and `decode_smiles` keep,
  for each row of argmax ids, the ids before the first `eos` or `pad`.

The special symbols (`bos`, `eos`, `unk`, `pad`) and the vocabulary size are
in `symbols.dfy`.

## Model

| member | source | states |
|---|---|---|
| Construction.Build | moses/vae/model.py:10-56 | a non-`gru` encoder cell fails with the encoder error whatever the decoder cell; otherwise a non-`gru` decoder cell fails with the decoder error; a success has consecutive layers whose widths agree (`WellShaped`), the special symbols of the vocabulary, an embedding `len(vocab)` wide with `pad` as padding index and trainable unless frozen, encoder output width `2 * q_d_h` when bidirectional and `q_d_h` otherwise, decoder input width `len(vocab) + d_z`, output layer `len(vocab)` wide, the encoder GRU reading `len(vocab)`-wide input with hidden size `q_d_h`, `q_n_layers` layers and the configured bidirectionality, the latent-to-hidden layer mapping `d_z` to `d_d_h`, and dropout 0 for a single-layer network, the configured rate otherwise |
| Construction.LastLayers | moses/vae/model.py:114 | the slice keeps the last `1 + bidir` entries of the hidden stack, or the whole stack when it is shorter |
| Construction.Concat | moses/vae/model.py:115 | one selected vector is kept as it is; two (forward and backward of the top layer) are placed side by side in that order |
| Construction.ConcatWidth | moses/vae/model.py:115 | concatenating hidden vectors of equal width `w` gives a vector `count * w` wide |
| Construction.PosteriorInputWidth | moses/vae/model.py:112-117 | for a hidden stack of `numLayers * directions` vectors of the encoder's hidden size, the slice `h[-(1 + bidir):]` is exactly the top layer, and its concatenation is as wide as the inputs of the mean and log-variance layers |
| TeacherForcing.MaxLength | moses/vae/model.py:135 | the padded width bounds every sentence's length and is reached by one of them (0 for an empty batch) |
| TeacherForcing.PadTo | moses/vae/model.py:135 | every padded row has the given width, starts with its sentence, and holds `pad` past the sentence |
| TeacherForcing.PadSequence | moses/vae/model.py:135 | every row is padded to the longest sentence's length, keeps its sentence as prefix, holds `pad` after it, and some row needs no padding |
| TeacherForcing.PrepareDecoderInput | moses/vae/model.py:133-140 | the batch is accepted exactly when it holds at least one sentence, every sentence is non-empty and lengths never increase along the batch; an empty batch is reported as such, any other rejection as unpackable; on success the tokens are the padded batch, the lengths are the sentence lengths, and the first row is unpadded |
| TeacherForcing.FirstIsLongest | moses/vae/model.py:135-140 | in a batch ordered by non-increasing length the padded width is the first sentence's length |
| TeacherForcing.RowTerms | moses/vae/model.py:153-157 | a row yields at most one term per position but the last, and no term has a `pad` target |
| TeacherForcing.LossTerms | moses/vae/model.py:151-157 | no term of the batch has a `pad` target, and a one-sentence batch scores that sentence's row terms; with `LossTermsAppend` every batch's terms are its rows' terms in batch order |
| TeacherForcing.LossTermsAppend | moses/vae/model.py:151-157 | the batch's terms are its sentences' row terms laid end to end in batch order: one more sentence appends exactly its own terms, which fixes the number and order of the terms the mean is taken over |
| TeacherForcing.LossTermsMembers | moses/vae/model.py:151-157 | a (prediction, target) pair is scored over the batch exactly when some sentence `b` and position `t` have that prediction at `y[b][t]` and that target at `x[b][t + 1]`, and the target is not `pad` |
| TeacherForcing.RowTermsMembers | moses/vae/model.py:153-157 | a (prediction, target) pair is scored exactly when some position `t` has that prediction, the token at `t + 1` is that target, and the target is not `pad` |
| TeacherForcing.RowTermsAligned | moses/vae/model.py:153-157 | for a sentence with no `pad` after its first token, exactly `len - 1` terms are scored and term `t` pairs prediction `t` with token `t + 1` |
| TeacherForcing.RowTermsIgnorePadding | moses/vae/model.py:153-157 | appending `pad` tokens, with any predictions at those positions, leaves a row's scored terms unchanged |
| TeacherForcing.LossTermsUnpadded | moses/vae/model.py:133-157 | the terms scored over a batch padded to any width equal those of the unpadded sentences with the predictions at their real positions |
| TeacherForcing.LossTermsPadInvariant | moses/vae/model.py:133-157 | two paddings of the same batch to different widths, with predictions that agree on real positions, score identical term lists, so the loss ignores trailing `pad` |
| Sampler.FirstEos | moses/vae/model.py:237-238 | the first-`eos` index is at most the number of draws, no earlier draw is `eos`, and the draw at that index is `eos` when it is in range |
| Sampler.Samples | moses/vae/model.py:199-247 | the batch yields `n_batch` outputs and output `k` depends only on the draws of row `k` |
| Sampler.UpToEosPrefix | moses/vae/model.py:236-244 | a row's kept draws are the prefix of its draws ending at its first `eos`, or all of them when it never draws `eos` |
| Sampler.SampleRowShape | moses/vae/model.py:227-247 | an output starts with `bos`, is a prefix of `bos` followed by the draws (nothing drawn after the first `eos` is kept), is at most `max_len` long, contains no `eos` between `bos` and its last token, ends with `eos` and has length `t + 1` when its first `eos` came at step `t`, and keeps every draw when it never drew `eos` |
| Sampler.SamplesBatchIndependent | moses/vae/model.py:227-247 | sampling two batches together, with the same draws per row, gives the first batch's outputs followed by the second's |
| Sampler.EndPadBounds | moses/vae/model.py:223-238 | a recorded end position lies in `1 .. max_len`; it is at least 2 for a row that has ended, and for every row whenever `max_len >= 2` |
| Sampler.StepAdvances | moses/vae/model.py:236-239 | one step moves a row's specified state forward exactly as the masked assignments do: the row has ended after step `i` iff it had before or draws `eos` at `i`; its end becomes `i + 1` only on its first `eos`; only column `i` changes, and only for a row not yet ended |
| Sampler.FrozenAfterEnd | moses/vae/model.py:236 | every buffer cell at or past a row's end position holds `pad` at every step |
| Sampler.Initial | moses/vae/model.py:216-224 | the new buffer is `n_batch x max_len`, `bos` in column 0 and `pad` elsewhere; every end position is `max_len` and no row has ended |
| Sampler.Step | moses/vae/model.py:236-239 | the mask only grows, by OR with the rows drawing `eos`; a row not yet ended that draws `eos` records `i + 1`, other end positions are unchanged; column `i` of rows not yet ended receives the draw, and no other cell changes |
| Sampler.Truncate | moses/vae/model.py:242-244 | there is one output per buffer row, as long as its end position, equal to the row's first cells |
| Sampler.Sample | moses/vae/model.py:199-247 | the loop over steps `1 .. max_len - 1` returns exactly the row-by-row specification `Samples` for the given draws |
| GreedyDecode.StopFreePrefix | moses/vae/model.py:171-178 | the kept ids are a prefix of the row, contain neither `eos` nor `pad`, and are followed by a stop symbol unless they are the whole row |
| GreedyDecode.StopFreePrefixLongest | moses/vae/model.py:171-178 | no prefix of the row free of `eos` and `pad` is longer than the kept ids |
| GreedyDecode.StopFreePrefixUnique | moses/vae/model.py:171-178 | a stop-free prefix that is the whole row or is followed by a stop symbol is exactly the kept ids |
| GreedyDecode.DecodeBatch | moses/vae/model.py:171-180 | the nested loop with `break` (also lines 419-428 of `decode_smiles`) yields one sample per row, each the longest stop-free prefix of the row |
| GreedyDecode.DecodedAll | moses/vae/model.py:414-430 | there is one decoded sample per row over all batches, and none contains `eos` or `pad` |
| GreedyDecode.DecodedAllAppend | moses/vae/model.py:416-430 | decoding one more batch appends, in row order, the longest stop-free prefix of each of its rows after the samples of the earlier batches |
| GreedyDecode.DecodeAll | moses/vae/model.py:414-430 | the samples of all batches, in batch order, as `all_samples.extend` gathers them |

## Left out

- GRU, linear and embedding layers, softmax with temperature, `torch.multinomial` and `torch.argmax` (moses/vae/model.py:109-119, 136-149, 168, 228-235, 174, 422): floating-point library calls; sampling takes the drawn tokens and greedy decoding the argmax ids as inputs.
- The reparameterisation, the KL term and `sample_z_prior` (lines 117-121, 188-197): real arithmetic and random number generation. `z` and `temp` only influence the draws.
- The cross-entropy value of `compute_loss`: the model gives the list of scored (prediction, target) terms that its mean is taken over.
- `compute_loss` is declared without `self` (line 151) and `forward` passes it the unpadded list of sentences (line 97), so the code as written fails when called; the model pairs predictions with the padded batch, as the decoder pass intends.
- `load_lbann_weights` (lines 249-394): file globbing, text loading and in-place tensor copies, pure I/O.
- `string2tensor`, `tensor2string`, `encode_smiles` and the vocabulary conversions (lines 69-82, 396-412): the vocabulary is not part of this model; sampling and decoding return id sequences rather than strings.
- CSV writing with pandas, tqdm progress bars, device placement and `print` (lines 12, 65-67, 184-185, 432).
- The second result of `decode_smiles` (`latent`, the last batch, line 434), which also makes an empty input fail: the model returns the decoded samples only.
- The packing of `forward_encoder` (line 110) has the same ordering requirement as the decoder's packing, modelled once in `PrepareDecoderInput`.
- `scripts/run.py`: command-line parsing and orchestration of the train, sample and eval programs.
- Construction.Build: the argument checks of PyTorch's layer constructors are not modelled (a dropout rate outside `[0, 1]` for a multi-layer GRU, zero hidden sizes or layer counts, a `pad` index outside the vocabulary in `nn.Embedding`); the model promises success for every configuration whose two cells are `"gru"`, where PyTorch may still raise for such arguments.
- Sampler.Sample: requires `max_len >= 1`, since the buffer write to column 0 fails for an empty buffer.
- Sampler.EndPadBounds: the bound `2 <= end` fails only for `max_len = 1`, where no step runs, every end position stays 1 and every output is `[bos]`.
- Sampler.Sample: the end position of a row is `i + 1` when its first `eos` is drawn at loop step `i`; a row drawing `eos` at the first step (`i = 1`) yields `[bos, eos]` with end position 2 and no content token.
- TeacherForcing.PrepareDecoderInput: the rejections are raised inside PyTorch's `pad_sequence` and `pack_padded_sequence` (default `enforce_sorted=True`), which are not part of this model; the model promises which batches are rejected, and its split into an empty-batch error and a single unpackable error is its own, not PyTorch's message or check order.
