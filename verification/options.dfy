/** The optional-value datatype used for fields that a JavaScript object may leave
    `undefined`, and for the results of reads that may throw. */
module Options {

  datatype Option<+T> = None | Some(value: T)
}
