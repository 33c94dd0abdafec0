/** Small notions that several modules share. */
module Basics {

  datatype Option<+T> = None | Some(value: T)

  /** A truth value as a number, for counting. */
  function One(b: bool): nat {
    if b then 1 else 0
  }

  ghost predicate Distinct(s: seq<nat>) {
    forall i, j | 0 <= i < j < |s| :: s[i] != s[j]
  }
}
