/** The optional value used for missing cells, failed extractions and absent keys. */
module Options {

  datatype Option<+T> = None | Some(value: T)
}
