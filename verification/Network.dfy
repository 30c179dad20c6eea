/** What may become of a call to a remote service. */
module Network {
  /** Done and answered, done with its answer lost, or never done; the caller of the last two sees an error. */
  datatype Fate = Delivered | ReplyLost | NeverApplied
}
