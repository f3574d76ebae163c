/** Small shared vocabulary. */
module Common {
  /** A value that may be absent: the source's `null`, `undefined` or missing document. */
  datatype Option<+T> = None | Some(value: T)

  /** A set of identifiers is empty or has a member to take next. */
  lemma Inhabited(s: set<int>)
    ensures s == {} || exists x :: x in s
  {
    if !exists x :: x in s {
      forall x ensures x !in s {}
      assert s == {};
    }
  }
}
