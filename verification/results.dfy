/** Failure-carrying return types shared by the model.

    The source signals its error cases by raising Python exceptions (an
    `IndexError` from a subscript, a NumPy shape error) or by producing a
    floating-point `nan`/`inf`. The model returns a `Failure` naming the cause. */
module Results {

  datatype Option<+T> = None | Some(value: T)

  datatype Result<+T> = Success(value: T) | Failure(error: Error)

  /** Why an operation of the model has no result. */
  datatype Error =
    | EmptyDepths            // `depths[-1]` on an empty depth list
    | ZeroTotalWeight        // a division by a weight or thickness sum of zero
    | ShapeMismatch          // a data row whose width differs from the weights
    | HeaderRowMissing       // `iloc[1, :]` on a table with fewer than two rows
    | DepthIndexOutOfRange   // more measurement columns than declared depths
}
