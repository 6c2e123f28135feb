/** Sequence operations that several modules use. */
module Sequences {

  function RemoveAt<T>(s: seq<T>, i: nat): seq<T>
    requires i < |s|
  {
    s[..i] + s[i + 1..]
  }

  function InsertAt<T>(s: seq<T>, i: nat, x: T): (r: seq<T>)
    requires i <= |s|
    ensures |r| == |s| + 1 && r[i] == x
    ensures (forall j :: 0 <= j < i ==> r[j] == s[j]) && (forall j :: i <= j < |s| ==> r[j + 1] == s[j])
  {
    s[..i] + [x] + s[i..]
  }
}
