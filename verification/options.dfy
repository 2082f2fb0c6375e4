/** The optional value the model uses wherever the game returns `Option`. */
module Options {

  datatype Option<+T> = None | Some(value: T)

}
