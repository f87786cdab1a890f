/** Small things the other modules share. */
module Wrappers {
  datatype Option<+T> = None | Some(value: T)

  function Min(a: nat, b: nat): nat {
    if a < b then a else b
  }

  predicate Distinct<T(==)>(s: seq<T>) {
    forall i, j :: 0 <= i < j < |s| ==> s[i] != s[j]
  }

  lemma ConcatAssociates<T>(a: seq<T>, b: seq<T>, c: seq<T>)
    ensures a + b + c == a + (b + c)
  {
  }

  lemma TakeOfConcat<T>(a: seq<T>, b: seq<T>, n: nat)
    requires n <= |a| + |b|
    ensures (a + b)[..n] == if n <= |a| then a[..n] else a + b[..n - |a|]
  {
  }
}
