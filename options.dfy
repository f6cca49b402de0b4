/** An optional value: the model's stand-in for the JavaScript `null` the
    source uses for "nothing here" (an empty saved-mode slot, no pending
    clear, no recognised symbol). */
module Options {

  datatype Option<+T> = None | Some(value: T)

}
