/** The optional value, and the place of an element in a list. */
module Wrappers {
  datatype Option<+T> = None | Some(value: T)

  /** The first place of `x`, or the length of the list. */
  function IndexOf<T(==)>(x: T, s: seq<T>): (k: nat)
    ensures k <= |s| && (k < |s| ==> s[k] == x) && forall j :: 0 <= j < k ==> s[j] != x
  {
    if s == [] || s[0] == x then 0 else 1 + IndexOf(x, s[1..])
  }
}
