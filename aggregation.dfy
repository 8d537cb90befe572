/**
  The question/answer records and the flattening step that turns a list of
  record lists into the rows of the result table.
*/
module Aggregation {

  /** One question/answer pair as parsed from the language model's reply. */
  datatype QA = QA(question: string, answer: string)

  /** The sum of the lengths of the inner lists. */
  function TotalLength<T>(xss: seq<seq<T>>): nat {
    if xss == [] then 0 else |xss[0]| + TotalLength(xss[1..])
  }

  /** The inner lists, concatenated in order: the rows of the result table. */
  function Flatten<T>(xss: seq<seq<T>>): (r: seq<T>)
    ensures |r| == TotalLength(xss)
  {
    if xss == [] then [] else xss[0] + Flatten(xss[1..])
  }

  /** Flattening distributes over concatenation of the outer list. */
  lemma {:induction false} FlattenAppend<T>(a: seq<seq<T>>, b: seq<seq<T>>)
    ensures Flatten(a + b) == Flatten(a) + Flatten(b)
  {
    if a == [] {
      assert a + b == b;
    } else {
      assert (a + b)[1..] == a[1..] + b;
      FlattenAppend(a[1..], b);
    }
  }

  /** Flattening the one-element wrapper `[xs]` gives back `xs` unchanged. */
  lemma FlattenSingleton<T>(xs: seq<T>)
    ensures Flatten([xs]) == xs
  {
    assert [xs][1..] == [];
  }

  /**
    Order is preserved: item `j` of inner list `i` sits in the flat list right
    after all items of the lists before it.
  */
  lemma {:induction false} FlattenAt<T>(xss: seq<seq<T>>, i: nat, j: nat)
    requires i < |xss| && j < |xss[i]|
    ensures TotalLength(xss[..i]) + j < |Flatten(xss)|
    ensures Flatten(xss)[TotalLength(xss[..i]) + j] == xss[i][j]
  {
    assert xss == xss[..i] + xss[i..];
    FlattenAppend(xss[..i], xss[i..]);
    assert xss[i..] == [xss[i]] + xss[i + 1..];
    FlattenAppend([xss[i]], xss[i + 1..]);
    FlattenSingleton(xss[i]);
  }
}
