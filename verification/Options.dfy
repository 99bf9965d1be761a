/** Values that may be missing. */
module Options {

  datatype Option<+T> = None | Some(value: T)

  /** What is left to do is done and put behind what has been done, unless it fails. */
  function Onto<T>(done: seq<T>, rest: Option<seq<T>>): Option<seq<T>> {
    match rest
    case None => None
    case Some(s) => Some(done + s)
  }

  lemma OntoNothing<T>(rest: Option<seq<T>>)
    ensures Onto([], rest) == rest
  {
    if rest.Some? {
      assert [] + rest.value == rest.value;
    }
  }
}
