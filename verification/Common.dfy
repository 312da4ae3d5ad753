/**
 What several units of the kernel share.
 */
module Common {

  datatype Option<T> = None | Some(value: T)

  type Tid = int

  ghost predicate Distinct<T>(s: seq<T>)
  {
    forall i, j :: 0 <= i < j < |s| ==> s[i] != s[j]
  }
}
