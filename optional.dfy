/** The conventional optional value, standing for a JavaScript value that may be `undefined`. */
module Optional {

  datatype Option<+T> = None | Some(value: T)

}
