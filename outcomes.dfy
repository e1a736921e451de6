/** The exceptions the modelled code raises, as values. */
module Outcomes {
  datatype Error =
    | NoSuchElement                      // Iterator.next() past the end
    | IndexOutOfBounds(index: int)       // an array or list lookup outside its range
    | IllegalArgument                    // require(...) or a thrown RuntimeException on bad arguments
    | ShortStream                        // a stream ended before the expected number of bytes
    | NotADirectory                      // the model path exists but is not a directory
    | CannotCreateDirectory              // mkdirs() reported failure
    | NotAFile(name: string)             // a region file name that exists but is not a regular file
    | CannotDelete(name: string)         // File.delete() reported failure
    | NumberFormat(text: string)         // String.toInt() rejected its input
    | UnrecognizedLine(line: string)     // an obj3d line that is neither a layer header nor a row
    | ArithmeticOverflow                 // BigDecimal.intValueExact() out of Int range
    | CanvasSizes                        // two masks with different numbers of rows
    | CanvasRowSizes(row: int)           // two masks whose rows at this index differ in length

  datatype Option<T> = None | Some(value: T)

  datatype Result<T> = Ok(value: T) | Err(error: Error)

  /** The outcome of an operation that returns nothing (`Unit`). */
  datatype Outcome = Pass | Fail(error: Error)
}
