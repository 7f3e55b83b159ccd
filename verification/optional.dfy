/** A value that may be absent: the model's stand-in for a Java `null` result. */
module Optional {

  datatype Option<+T> = None | Some(value: T)

}
