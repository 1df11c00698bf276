/** Bytes, and sequences without duplicates, with an element more or less. */
module Sequences {
  /** A byte as a number, and strings of bytes as machine words. */
  type byte = x: int | 0 <= x < 256

  type Bytes = seq<bv8>

  ghost predicate Distinct<T>(s: seq<T>) {
    forall i, j :: 0 <= i < j < |s| ==> s[i] != s[j]
  }

  function InsertAt<T>(s: seq<T>, i: nat, x: T): seq<T>
    requires i <= |s|
  {
    s[..i] + [x] + s[i..]
  }

  function RemoveAt<T>(s: seq<T>, i: nat): seq<T>
    requires i < |s|
  {
    s[..i] + s[i + 1..]
  }
}
