/** Values shared by the layer indexer and the indexable networks: layers,
    the keys they are addressed by, the items an indexing returns, and the
    Python exceptions the indexer raises, as an error-carrying result. */
module Types {

  datatype Option<+T> = None | Some(value: T)

  /** The exception classes the indexer can raise. */
  datatype PyError = IndexError | ValueError | TypeError

  /** A value, or the exception that was raised instead of producing it. */
  datatype Result<+R> = Ok(value: R) | Err(error: PyError) {
    predicate IsFailure() { Err? }

    function PropagateFailure<U>(): Result<U>
      requires Err?
    {
      Err(error)
    }

    function Extract(): R
      requires Ok?
    {
      value
    }
  }

  /** A Keras output shape: one entry per axis, None where the size is unknown (the batch axis). */
  type Shape = seq<Option<nat>>

  /** A layer: its name inside the owning network, the tensor function it computes
      (the numerics are left uninterpreted) and its declared output shape. */
  datatype Layer<!T> = Layer(name: string, apply: T -> T, outputShape: Shape)

  /** One bound of a slice key: left out (None), an int, or a layer name. */
  datatype Bound = Absent | At(pos: int) | Named(name: string)

  /** The key of a subscript: an int, a layer name, a slice, or a value of any other type. */
  datatype Key =
    | Position(i: int)
    | Name(s: string)
    | Range(start: Bound, stop: Bound)
    | Unsupported

  /** What subscripting a network returns: one layer for an int or a name key; for a
      slice key, the plain list of layers, or that list wrapped into a Keras Sequential. */
  datatype Item<!T> =
    | Single(layer: Layer<T>)
    | Plain(layers: seq<Layer<T>>)
    | Sequential(layers: seq<Layer<T>>)
}
