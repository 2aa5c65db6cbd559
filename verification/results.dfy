/** Failure-carrying result types shared by the reshaping functions.

    The Python client never catches anything: a malformed response makes
    pandas or the interpreter raise, and the exception reaches the caller.
    Each such exception is named here, so that a reshaping function returns
    either its complete table or the reason the Python code raises.
 */
module Results {

  /** A value that may be absent, as `None` is in Python. */
  datatype Option<+T> = None | Some(value: T)

  /** Either the complete value or the reason the call fails. */
  datatype Result<+T, +E> = Ok(value: T) | Err(error: E)

  /** The exceptions the local post-processing can raise. */
  datatype Failure =
    /** `key.split(":")[1]` on a key without a colon (IndexError). */
    | NoPairInKey(key: string)
    /** Selecting a column of a frame built from an empty result (KeyError). */
    | MissingColumn(column: string)
    /** `int(key)` on text that is not a decimal integer (ValueError). */
    | NotAnInteger(text: string)
    /** `values.index(p)` for a period outside the table (ValueError). */
    | PeriodNotInTable(period: int)
    /** `pd.concat` of an empty list of frames (ValueError). */
    | NothingToConcatenate
}
