// The optional value used for Java's nullable results (getPiece, createPiece)
// and for the parse results of the save format.
module Options {

  datatype Option<+T> = None | Some(value: T)
}
