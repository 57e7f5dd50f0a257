/** Shared result types: a missing value is `None` (pandas NaN), and every exception the
    analysis classes raise becomes an `Err` carrying one of the `Error` kinds below. */
module Types {

  /** A possibly missing value. */
  datatype Option<+T> = None | Some(value: T)

  /** The failures the analysis classes raise to their callers. */
  datatype Error =
    | NoDataLoaded                          // clean_data without a loaded table
    | ColumnNotFound(name: string)          // a single requested column is absent
    | MissingColumns(names: seq<string>)    // tracked columns absent from the table (pandas KeyError)
    | VariablesNotFound(available: seq<string>)  // pair query naming an absent variable
    | InvalidSegmentLength                  // Welch called with nperseg = 0
    | EmptySignal                           // FFT of a series without any value
    | NoPositiveFrequency                   // no bin above zero to call dominant

  /** The outcome of an operation that may raise. */
  datatype Result<+T> = Ok(value: T) | Err(error: Error)
}
