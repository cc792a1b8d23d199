/**
 Sequences without repetition, and facts about sequences that the solver does not look for.
 */
module Sequences {

  predicate Distinct<T(==)>(s: seq<T>) {
    forall i, j :: 0 <= i < j < |s| ==> s[i] != s[j]
  }

  lemma Associates<T>(x: seq<T>, y: seq<T>, z: seq<T>)
    ensures x + y + z == x + (y + z)
  {
  }

  lemma Unpadded<T>(x: seq<T>)
    ensures x + [] == x && [] + x == x
  {
  }

  lemma InsertedBehind<T>(x: T, s: seq<T>, i: nat, y: T)
    requires 0 < i <= |s| + 1
    ensures ([x] + s)[..i] + [y] + ([x] + s)[i..] == [x] + (s[..i - 1] + [y] + s[i - 1..])
  {
    assert ([x] + s)[..i] == [x] + s[..i - 1] && ([x] + s)[i..] == s[i - 1..];
  }
}
