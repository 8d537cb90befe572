/**
  Small facts about sequences, stated generically so that the proofs that
  use them do not have to rediscover them for each element type.
*/
module Sequences {

  lemma ConsAppend<T>(a: seq<T>, b: seq<T>)
    requires a != []
    ensures (a + b)[0] == a[0] && (a + b)[1..] == a[1..] + b
  {
  }

  lemma AppendAssoc<T>(x: seq<T>, y: seq<T>, z: seq<T>)
    ensures x + (y + z) == (x + y) + z
  {
  }

  lemma ConsEqual<T>(a: seq<T>, b: seq<T>)
    requires a != [] && b != [] && a[0] == b[0] && a[1..] == b[1..]
    ensures a == b
  {
    assert a == [a[0]] + a[1..];
    assert b == [b[0]] + b[1..];
  }

  lemma MultisetCons<T>(x: T, s: seq<T>)
    ensures multiset([x] + s) == multiset{x} + multiset(s)
  {
  }

  lemma MultisetSplit<T>(s: seq<T>, m: nat)
    requires m <= |s|
    ensures multiset(s[..m]) + multiset(s[m..]) == multiset(s)
  {
    assert s == s[..m] + s[m..];
  }

  /** Putting the head back in front of a tail split at `m - 1`. */
  lemma ConsSplit<T>(s: seq<T>, m: nat, c: T)
    requires 1 <= m <= |s|
    ensures [s[0]] + (s[1..][..m - 1] + [c] + s[1..][m - 1..]) == s[..m] + [c] + s[m..]
  {
    assert s[1..][..m - 1] == s[1..m] && s[1..][m - 1..] == s[m..];
    assert s[..m] == [s[0]] + s[1..m];
  }
}
