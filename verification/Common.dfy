/** What several modules need. */
module Common {

  datatype Option<+T> = None | Some(value: T)

  /** Nothing stands in the sequence twice. */
  ghost predicate NoDup<T>(s: seq<T>) {
    forall i, j | 0 <= i < j < |s| :: s[i] != s[j]
  }
}
