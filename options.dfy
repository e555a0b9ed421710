/** An optional value, shared by the keybus decoder (the fields handed to
    setTime, if any) and the text buffer (a C string that may be null). */
module Options {
  datatype Option<T> = None | Some(value: T)
}
