/** The reserved token ids a VAE copies from its vocabulary at construction,
    and the Result type used for the model's error paths. */
module Symbols {

  /** The four special symbols read from the vocabulary (`bos`, `eos`, `unk`, `pad`). */
  datatype Specials = Specials(bos: int, eos: int, unk: int, pad: int)

  /** The vocabulary as the model sees it: its size and its special symbols. */
  datatype Vocabulary = Vocabulary(size: nat, specials: Specials)

  datatype Result<+T, +E> = Ok(value: T) | Err(error: E)
}
