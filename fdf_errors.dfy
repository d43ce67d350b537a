/** The fatal conditions of the FDF parser. Each one ends the run with
    exit status 1 (a `bailout`) or an uncaught exception, before anything
    is written to the output file. */
module FdfErrors {

  datatype Error =
    | StartNotFound(start: string)   // parse_data: no line strips to the start marker
    | EndNotFound(end: string)       // parse_data: no end marker at or after the start
    | NoRows                         // an IndexError: the first row of an empty list
    | ColumnCountMismatch            // pandas: a table whose rows are wider or narrower than its header
    | DuplicateColumns               // pandas: concatenating frames with a repeated column name
    | UnknownGrain(grain: string)    // confirm_grain_is_valid
    | IsinNotFound                   // confirm_valid_isin, an external query
    | DatesDoNotMatch                // confirm_valid_date: zero or several position dates
    | NotADate(value: string)        // confirm_valid_date: strptime raised ValueError
    | OutputMissing                  // the output file cannot be opened for reading
    | DuplicateRows                  // confirm_no_duplicates
}
