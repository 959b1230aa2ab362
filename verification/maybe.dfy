/** The optional value used wherever the source returns a card or `None`. */
module Maybe {

  datatype Option<+T> = None | Some(value: T)

}
