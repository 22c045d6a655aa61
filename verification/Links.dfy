/** What a caller learns of one command to the shared store. */
module Links {

  /** The command was answered; or the caller saw a failure, and it was applied or not. */
  datatype Link = Answers | Fails(applied: bool)
  {
    predicate Applied() { Answers? || applied }
  }
}
