/** Construction of the VAE: the cell-type validation, the width of every
    layer, and the selection of the encoder's final hidden states that feed
    the posterior heads. The layers themselves are shapes here; their weights
    and arithmetic are not modelled. */
module Construction {
  import opened Symbols

  /** The hyperparameters the model reads from its configuration. */
  datatype Config = Config(
    freezeEmbeddings: bool,
    qCell: string, qDH: nat, qNLayers: nat, qDropout: real, qBidir: bool,
    dCell: string, dDH: nat, dNLayers: nat, dDropout: real,
    dZ: nat)

  /** The ValueError raised for an unsupported encoder or decoder cell. */
  datatype ConfigError = InvalidQCell | InvalidDCell

  datatype Embedding = Embedding(numEmbeddings: nat, dim: nat, paddingIdx: int, trainable: bool)
  datatype Gru = Gru(inputSize: nat, hiddenSize: nat, numLayers: nat, dropout: real, bidirectional: bool)
  datatype Linear = Linear(inFeatures: nat, outFeatures: nat)

  /** The shapes of the layers a successfully constructed VAE owns. */
  datatype Architecture = Architecture(
    specials: Specials,
    xEmb: Embedding,
    encoderRnn: Gru, qMu: Linear, qLogvar: Linear,
    decoderRnn: Gru, decoderLat: Linear, decoderFc: Linear)

  /** The only recurrent cell type the model supports. */
  const GruCell: string := "gru"

  function Directions(bidir: bool): nat {
    if bidir then 2 else 1
  }

  /** Each layer consumes exactly the width its predecessor produces. */
  ghost predicate WellShaped(a: Architecture) {
    && a.encoderRnn.inputSize == a.xEmb.dim
    && a.qMu.inFeatures == a.encoderRnn.hiddenSize * Directions(a.encoderRnn.bidirectional)
    && a.qLogvar == a.qMu
    && a.decoderRnn.inputSize == a.xEmb.dim + a.qMu.outFeatures
    && !a.decoderRnn.bidirectional
    && a.decoderLat.inFeatures == a.qMu.outFeatures
    && a.decoderLat.outFeatures == a.decoderRnn.hiddenSize
    && a.decoderFc.inFeatures == a.decoderRnn.hiddenSize
    && a.decoderFc.outFeatures == a.xEmb.numEmbeddings
  }

  /** `VAE.__init__`: the encoder cell is checked first, then the decoder
      cell; the embedding is `len(vocab)` wide; dropout is dropped for a
      single-layer network. */
  function Build(v: Vocabulary, c: Config): (r: Result<Architecture, ConfigError>)
    ensures r == Err(InvalidQCell) <==> c.qCell != GruCell
    ensures r == Err(InvalidDCell) <==> c.qCell == GruCell && c.dCell != GruCell
    ensures r.Ok? ==> WellShaped(r.value)
    ensures r.Ok? ==>
      && r.value.specials == v.specials
      && r.value.xEmb == Embedding(v.size, v.size, v.specials.pad, !c.freezeEmbeddings)
      && r.value.qMu.inFeatures == (if c.qBidir then 2 * c.qDH else c.qDH)
      && r.value.qMu.outFeatures == c.dZ
      && r.value.decoderRnn.inputSize == v.size + c.dZ
      && r.value.decoderRnn.hiddenSize == c.dDH
      && r.value.decoderFc.outFeatures == v.size
    ensures r.Ok? ==>
      && r.value.encoderRnn.inputSize == v.size
      && r.value.encoderRnn.hiddenSize == c.qDH
      && r.value.encoderRnn.bidirectional == c.qBidir
      && r.value.encoderRnn.numLayers == c.qNLayers
      && r.value.decoderRnn.numLayers == c.dNLayers
      && r.value.decoderLat == Linear(c.dZ, c.dDH)
      && (c.qNLayers <= 1 ==> r.value.encoderRnn.dropout == 0.0)
      && (c.qNLayers > 1 ==> r.value.encoderRnn.dropout == c.qDropout)
      && (c.dNLayers <= 1 ==> r.value.decoderRnn.dropout == 0.0)
      && (c.dNLayers > 1 ==> r.value.decoderRnn.dropout == c.dDropout)
  {
    var nVocab, dEmb := v.size, v.size;
    var xEmb := Embedding(nVocab, dEmb, v.specials.pad, !c.freezeEmbeddings);
    if c.qCell != GruCell then Err(InvalidQCell)
    else
      var encoderRnn := Gru(dEmb, c.qDH, c.qNLayers, if c.qNLayers > 1 then c.qDropout else 0.0, c.qBidir);
      var qDLast := c.qDH * Directions(c.qBidir);
      var qMu := Linear(qDLast, c.dZ);
      if c.dCell != GruCell then Err(InvalidDCell)
      else
        var decoderRnn := Gru(dEmb + c.dZ, c.dDH, c.dNLayers, if c.dNLayers > 1 then c.dDropout else 0.0, false);
        Ok(Architecture(v.specials, xEmb, encoderRnn, qMu, qMu, decoderRnn,
                        Linear(c.dZ, c.dDH), Linear(c.dDH, nVocab)))
  }

  /** `h[-(1 + bidir):]`: the last one or two entries of the final hidden
      state stack (a Python negative slice, so the whole stack when shorter). */
  function LastLayers<T>(h: seq<T>, bidir: bool): (r: seq<T>)
    ensures |r| == if |h| < Directions(bidir) then |h| else Directions(bidir)
    ensures r == h[|h| - |r|..]
  {
    var k := Directions(bidir);
    if k <= |h| then h[|h| - k..] else h
  }

  /** `torch.cat(h.split(1), dim=-1)`: the selected hidden vectors side by side. */
  function Concat<T>(hs: seq<seq<T>>): (r: seq<T>)
    ensures |hs| == 1 ==> r == hs[0]
    ensures |hs| == 2 ==> r == hs[0] + hs[1]
  {
    if hs == [] then [] else hs[0] + Concat(hs[1..])
  }

  lemma {:induction false} ConcatWidth<T>(hs: seq<seq<T>>, w: nat)
    requires forall i :: 0 <= i < |hs| ==> |hs[i]| == w
    ensures |Concat(hs)| == |hs| * w
  {
    if hs != [] {
      ConcatWidth(hs[1..], w);
    }
  }

  /** The hidden stack a GRU returns holds `numLayers * directions` vectors,
      layer by layer, both directions of a layer side by side. Selecting its
      last `1 + bidir` entries picks exactly the top layer, and their
      concatenation has the width the posterior heads were built for. */
  lemma PosteriorInputWidth<T>(v: Vocabulary, c: Config, a: Architecture, h: seq<seq<T>>)
    requires Build(v, c) == Ok(a)
    requires a.encoderRnn.numLayers >= 1
    requires |h| == a.encoderRnn.numLayers * Directions(a.encoderRnn.bidirectional)
    requires forall i :: 0 <= i < |h| ==> |h[i]| == a.encoderRnn.hiddenSize
    ensures LastLayers(h, a.encoderRnn.bidirectional)
         == h[(a.encoderRnn.numLayers - 1) * Directions(a.encoderRnn.bidirectional)..]
    ensures |Concat(LastLayers(h, a.encoderRnn.bidirectional))| == a.qMu.inFeatures
    ensures |Concat(LastLayers(h, a.encoderRnn.bidirectional))| == a.qLogvar.inFeatures
  {
    var top := LastLayers(h, a.encoderRnn.bidirectional);
    ConcatWidth(top, a.encoderRnn.hiddenSize);
  }
}
