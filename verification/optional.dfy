/** The Some/None datatype the model uses in place of null, a thrown exception or a rejected promise. */
module Optional {

  datatype Option<+T> = None | Some(value: T)
}
