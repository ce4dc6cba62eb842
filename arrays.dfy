/** Value types shared by the model: two-dimensional numeric arrays kept row by row,
    and the optional/result wrappers used for numpy's non-finite values and for
    the assertion failures of the weighting code. */
module Arrays {

  /** A T×K array, stored as T rows of K reals. */
  type Matrix = seq<seq<real>>

  datatype Option<T> = None | Some(value: T)

  datatype Result<T, E> = Ok(value: T) | Err(error: E)

  /** `m` has shape (rows, cols). */
  predicate HasShape(m: Matrix, rows: nat, cols: nat)
  {
    |m| == rows && forall t :: 0 <= t < |m| ==> |m[t]| == cols
  }

  /** A row of `n` zeros (numpy's `np.zeros(n)`). */
  function Zeros(n: nat): (r: seq<real>)
    ensures |r| == n && forall i :: 0 <= i < n ==> r[i] == 0.0
  {
    seq(n, _ => 0.0)
  }

  /** numpy's `np.abs` on one entry. */
  function Abs(x: real): (r: real)
    ensures r >= 0.0 && (r == x || r == -x)
  {
    if x < 0.0 then -x else x
  }
}
