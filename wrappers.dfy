/** Failure-compatible result types shared by the modules of this model. */
module Wrappers {

  datatype Option<+T> = None | Some(value: T)

  datatype Result<+R, +E> = Success(value: R) | Failure(error: E) {
    predicate IsFailure() { Failure? }

    function PropagateFailure<U>(): Result<U, E>
      requires Failure?
    {
      Failure(error)
    }

    function Extract(): R
      requires Success?
    {
      value
    }
  }

  /** The errors the pair style reports through `error->all` or `sfread`. */
  datatype PairError =
    | IllegalPairStyle      // "Illegal pair_style command"
    | IncorrectCoeffArgs    // "Incorrect args for pair coefficients"
    | RespaCutoffTooSmall   // "Pair cutoff < Respa interior cutoff"
    | UnexpectedEnd         // a restart read that runs past the end of the stream
    | WrongTokenKind        // a restart read that meets a value of the other kind
}
