/** Small datatypes shared by every module. */
module Prelude {

  datatype Option<+T> = None | Some(value: T)

  /** The two ways an awaited call ends: it resolves, or it throws. */
  datatype Result<+T> = Ok(value: T) | Err

  /** No element of `s` occurs twice. */
  ghost predicate Distinct<T>(s: seq<T>) {
    forall i, j :: 0 <= i < j < |s| ==> s[i] != s[j]
  }

  lemma AppendNone<T>(s: seq<T>)
    ensures s + [] == s
  {
  }

  /** Adding an element that does not occur yet keeps a sequence free of repetitions. */
  lemma DistinctAppend<T>(s: seq<T>, x: T)
    requires Distinct(s) && x !in s
    ensures Distinct(s + [x])
  {
  }
}
