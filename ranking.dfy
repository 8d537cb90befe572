/**
  Ranking of a post's comments: a stable sort by score, highest first,
  followed by truncation to the ten best comments.

  The sort is specified by the functional insertion sort `SortDesc`; the
  in-place method `SortByScoreDesc` is proved to produce exactly that
  sequence, and the properties promised by a stable descending sort
  (ordered, a permutation, ties in their original order, and uniquely
  determined by these) are proved about `SortDesc`.
*/
module Ranking {
  import opened Sequences

  /** A comment, reduced to the two attributes the bundle builder reads. */
  datatype Comment = Comment(score: int, body: string)

  /** How many comments a bundle keeps at most. */
  const MaxKept: nat := 10

  function Min(a: nat, b: nat): nat { if a <= b then a else b }

  /** Scores never increase from left to right. */
  ghost predicate SortedDesc(s: seq<Comment>) {
    forall i, j :: 0 <= i < j < |s| ==> s[i].score >= s[j].score
  }

  /** The comments of `s` that score exactly `k`, in the order they appear in `s`. */
  function WithScore(s: seq<Comment>, k: int): seq<Comment> {
    if s == [] then [] else Tie(s[0], k) + WithScore(s[1..], k)
  }

  /** `[c]` when `c` scores `k`, otherwise nothing. */
  function Tie(c: Comment, k: int): seq<Comment> {
    if c.score == k then [c] else []
  }

  /**
    Inserts `c` in front of the first comment that does not score strictly
    more than `c`. In a descending sequence this keeps the order, and `c`
    lands before every comment of equal score.
  */
  function Insert(c: Comment, s: seq<Comment>): (r: seq<Comment>)
    ensures |r| == |s| + 1
  {
    if s == [] || c.score >= s[0].score then [c] + s
    else [s[0]] + Insert(c, s[1..])
  }

  /** Stable sort by descending score: ties keep their input order. */
  function SortDesc(s: seq<Comment>): (r: seq<Comment>)
    ensures |r| == |s|
  {
    if s == [] then [] else Insert(s[0], SortDesc(s[1..]))
  }

  lemma {:induction false} InsertPermutes(c: Comment, s: seq<Comment>)
    ensures multiset(Insert(c, s)) == multiset(s) + multiset{c}
  {
    if s != [] && c.score < s[0].score {
      var t := Insert(c, s[1..]);
      assert Insert(c, s) == [s[0]] + t;
      InsertPermutes(c, s[1..]);
      MultisetCons(s[0], t);
      MultisetCons(s[0], s[1..]);
      assert [s[0]] + s[1..] == s;
    } else {
      assert Insert(c, s) == [c] + s;
      MultisetCons(c, s);
    }
  }

  lemma {:induction false} InsertSorted(c: Comment, s: seq<Comment>)
    requires SortedDesc(s)
    ensures SortedDesc(Insert(c, s))
    ensures Insert(c, s)[0] == c || Insert(c, s)[0] == s[0]
  {
    if s != [] && c.score < s[0].score {
      var t := Insert(c, s[1..]);
      InsertSorted(c, s[1..]);
      var r := [s[0]] + t;
      assert r == Insert(c, s);
      forall i, j | 0 <= i < j < |r| ensures r[i].score >= r[j].score {
        if i == 0 {
          if j == 1 {
            assert t[0] == c || t[0] == s[1];
          } else {
            assert r[1].score >= r[j].score;
            assert t[0] == c || t[0] == s[1];
          }
        }
      }
    }
  }

  /** The sort yields a descending permutation of its input: nothing is lost or invented. */
  lemma {:induction false} SortDescCorrect(s: seq<Comment>)
    ensures SortedDesc(SortDesc(s))
    ensures multiset(SortDesc(s)) == multiset(s)
  {
    if s != [] {
      SortDescCorrect(s[1..]);
      InsertSorted(s[0], SortDesc(s[1..]));
      InsertPermutes(s[0], SortDesc(s[1..]));
      assert s == [s[0]] + s[1..];
    }
  }

  lemma {:induction false} WithScoreAppend(a: seq<Comment>, b: seq<Comment>, k: int)
    ensures WithScore(a + b, k) == WithScore(a, k) + WithScore(b, k)
  {
    if a == [] {
      assert a + b == b;
    } else {
      ConsAppend(a, b);
      WithScoreAppend(a[1..], b, k);
      calc {
        WithScore(a + b, k);
        Tie(a[0], k) + WithScore(a[1..] + b, k);
        Tie(a[0], k) + (WithScore(a[1..], k) + WithScore(b, k));
        { AppendAssoc(Tie(a[0], k), WithScore(a[1..], k), WithScore(b, k)); }
        (Tie(a[0], k) + WithScore(a[1..], k)) + WithScore(b, k);
      }
    }
  }

  /** Inserting `c` changes no per-score subsequence other than by putting `c` first among its ties. */
  lemma {:induction false} InsertKeepsTies(c: Comment, s: seq<Comment>, k: int)
    ensures WithScore(Insert(c, s), k) == WithScore([c] + s, k)
  {
    if s != [] && c.score < s[0].score {
      var t := Insert(c, s[1..]);
      var hs, hc := Tie(s[0], k), Tie(c, k);
      InsertKeepsTies(c, s[1..], k);
      calc {
        WithScore(Insert(c, s), k);
        { assert Insert(c, s) == [s[0]] + t && ([s[0]] + t)[1..] == t; }
        hs + WithScore(t, k);
        { assert ([c] + s[1..])[1..] == s[1..]; }
        hs + (hc + WithScore(s[1..], k));
        { assert hs == [] || hc == []; }
        hc + (hs + WithScore(s[1..], k));
        { assert WithScore(s, k) == hs + WithScore(s[1..], k); }
        hc + WithScore(s, k);
        { assert ([c] + s)[1..] == s; }
        WithScore([c] + s, k);
      }
    }
  }

  /**
    Stability: for every score, the comments with that score appear in the
    sorted sequence in the same relative order as in the input.
  */
  lemma {:induction false} SortStable(s: seq<Comment>, k: int)
    ensures WithScore(SortDesc(s), k) == WithScore(s, k)
  {
    if s != [] {
      SortStable(s[1..], k);
      InsertKeepsTies(s[0], SortDesc(s[1..]), k);
      assert ([s[0]] + SortDesc(s[1..]))[1..] == SortDesc(s[1..]);
    }
  }

  lemma {:induction false} WithScoreFrom(s: seq<Comment>, k: int)
    requires WithScore(s, k) != []
    ensures exists i :: 0 <= i < |s| && s[i] == WithScore(s, k)[0] && s[i].score == k
  {
    if s[0].score != k {
      WithScoreFrom(s[1..], k);
      var i :| 0 <= i < |s| - 1 && s[1..][i] == WithScore(s[1..], k)[0] && s[1..][i].score == k;
      assert s[i + 1] == s[1..][i];
    }
  }

  lemma {:induction false} WithScoreHead(s: seq<Comment>)
    requires s != []
    ensures WithScore(s, s[0].score) != [] && WithScore(s, s[0].score)[0] == s[0]
  {
  }

  /**
    A descending sequence is determined by its per-score subsequences: two
    descending sequences that agree on every score are equal. Together with
    `SortDesc`'s contract and `SortStable`, this says `SortDesc` is the one
    and only stable descending sort of its input.
  */
  lemma {:induction false} SortedUnique(a: seq<Comment>, b: seq<Comment>)
    requires SortedDesc(a) && SortedDesc(b)
    requires forall k :: WithScore(a, k) == WithScore(b, k)
    ensures a == b
  {
    if a == [] {
      if b != [] {
        WithScoreHead(b);
      }
    } else if b == [] {
      WithScoreHead(a);
    } else {
      HeadsAgree(a, b);
      forall k ensures WithScore(a[1..], k) == WithScore(b[1..], k) {
        TailsAgree(a, b, k);
      }
      SortedUnique(a[1..], b[1..]);
      ConsEqual(a, b);
    }
  }

  /** Two descending sequences with the same per-score subsequences start with the same comment. */
  lemma HeadsAgree(a: seq<Comment>, b: seq<Comment>)
    requires a != [] && b != []
    requires SortedDesc(a) && SortedDesc(b)
    requires forall k :: WithScore(a, k) == WithScore(b, k)
    ensures a[0] == b[0]
  {
    WithScoreHead(a);
    WithScoreHead(b);
    // The head of each sequence carries the highest score of both.
    WithScoreFrom(a, b[0].score);
    WithScoreFrom(b, a[0].score);
    var i :| 0 <= i < |a| && a[i].score == b[0].score;
    var j :| 0 <= j < |b| && b[j].score == a[0].score;
    assert a[0].score >= a[i].score;
    assert b[0].score >= b[j].score;
  }

  lemma TailsAgree(a: seq<Comment>, b: seq<Comment>, k: int)
    requires a != [] && b != [] && a[0] == b[0]
    requires WithScore(a, k) == WithScore(b, k)
    ensures WithScore(a[1..], k) == WithScore(b[1..], k)
  {
    var h := Tie(a[0], k);
    assert WithScore(a, k) == h + WithScore(a[1..], k);
    assert WithScore(b, k) == h + WithScore(b[1..], k);
    assert (h + WithScore(a[1..], k))[|h|..] == WithScore(a[1..], k);
    assert (h + WithScore(b[1..], k))[|h|..] == WithScore(b[1..], k);
  }

  /**
    When the first `m` comments of `s` all score strictly more than `c` and
    the next one (if any) does not, `Insert` places `c` at position `m`.
  */
  lemma {:induction false} InsertAt(c: Comment, s: seq<Comment>, m: nat)
    requires m <= |s|
    requires forall k :: 0 <= k < m ==> s[k].score > c.score
    requires m < |s| ==> s[m].score <= c.score
    ensures Insert(c, s) == s[..m] + [c] + s[m..]
  {
    if m == 0 {
      assert s[..0] == [] && s[0..] == s;
    } else {
      var t := s[1..];
      forall k | 0 <= k < m - 1 ensures t[k].score > c.score {
        assert t[k] == s[k + 1];
      }
      assert m - 1 < |t| ==> t[m - 1] == s[m];
      InsertAt(c, t, m - 1);
      assert Insert(c, s) == [s[0]] + Insert(c, t);
      ConsSplit(s, m, c);
    }
  }

  /**
    Shifts the comments after `a[i]` that score strictly more than it one
    place to the left, and returns the position left free for it.
  */
  method ShiftHigher(a: array<Comment>, i: nat) returns (j: nat)
    requires i < a.Length
    modifies a
    ensures i <= j < a.Length
    ensures forall k :: 0 <= k < i ==> a[k] == old(a[k])
    ensures forall k :: i <= k < j ==> a[k] == old(a[k + 1])
    ensures forall k :: j <= k < a.Length ==> a[k] == old(a[k])
    ensures forall k :: i < k <= j ==> old(a[k]).score > old(a[i]).score
    ensures j + 1 < a.Length ==> old(a[j + 1]).score <= old(a[i]).score
  {
    var x := a[i];
    j := i;
    while j + 1 < a.Length && a[j + 1].score > x.score
      invariant i <= j < a.Length
      invariant forall k :: 0 <= k < i ==> a[k] == old(a[k])
      invariant forall k :: i <= k < j ==> a[k] == old(a[k + 1])
      invariant forall k :: j <= k < a.Length ==> a[k] == old(a[k])
      invariant forall k :: i < k <= j ==> old(a[k]).score > x.score
    {
      a[j] := a[j + 1];
      j := j + 1;
    }
  }

  /** The array after a shift, read from position `i`: the shifted comments, the moved one, the rest. */
  lemma ShiftedLayout(before: seq<Comment>, after: seq<Comment>, i: nat, j: nat)
    requires i <= j < |before| == |after|
    requires forall k :: i <= k < j ==> after[k] == before[k + 1]
    requires after[j] == before[i]
    requires forall k :: j < k < |before| ==> after[k] == before[k]
    ensures after[i..] == before[i + 1..][..j - i] + [before[i]] + before[i + 1..][j - i..]
  {
    var rest := before[i + 1..];
    var placed := rest[..j - i] + [before[i]] + rest[j - i..];
    forall k | i <= k < |after| ensures after[k] == placed[k - i] {
      if k < j {
        assert placed[k - i] == rest[k - i];
      } else if k > j {
        assert placed[k - i] == rest[k - i - 1];
      }
    }
  }

  /**
    The effect of one insertion step, stated on sequences: shifting the
    higher-scoring comments after position `i` one place left and dropping
    the comment from `i` into the gap is `Insert`.
  */
  lemma ShiftedIsInsert(before: seq<Comment>, after: seq<Comment>, i: nat, j: nat)
    requires i <= j < |before| == |after|
    requires forall k :: 0 <= k < i ==> after[k] == before[k]
    requires forall k :: i <= k < j ==> after[k] == before[k + 1]
    requires after[j] == before[i]
    requires forall k :: j < k < |before| ==> after[k] == before[k]
    requires forall k :: i < k <= j ==> before[k].score > before[i].score
    requires j + 1 < |before| ==> before[j + 1].score <= before[i].score
    ensures after[..i] == before[..i]
    ensures after[i..] == Insert(before[i], before[i + 1..])
  {
    var x, rest := before[i], before[i + 1..];
    forall k | 0 <= k < j - i ensures rest[k].score > x.score {
      assert rest[k] == before[k + i + 1];
    }
    assert j - i < |rest| ==> rest[j - i] == before[j + 1];
    InsertAt(x, rest, j - i);
    ShiftedLayout(before, after, i, j);
  }

  /**
    One step of the in-place sort: moves `a[i]` rightwards past the comments
    that score strictly more, which shift one place left.
  */
  method InsertInPlace(a: array<Comment>, i: nat)
    requires i < a.Length
    modifies a
    ensures a[..i] == old(a[..i])
    ensures a[i..] == Insert(old(a[i]), old(a[i + 1..]))
  {
    ghost var before := a[..];
    var x := a[i];
    var j := ShiftHigher(a, i);
    a[j] := x;
    ShiftedIsInsert(before, a[..], i, j);
    assert before[..i] == old(a[..i]) && before[i + 1..] == old(a[i + 1..]);
  }

  /** Sorts the array in place, stably, by descending score. */
  method SortByScoreDesc(a: array<Comment>)
    modifies a
    ensures a[..] == SortDesc(old(a[..]))
  {
    ghost var orig := a[..];
    var i := a.Length;
    assert orig[i..] == [];
    while i > 0
      invariant 0 <= i <= a.Length
      invariant a[..i] == orig[..i]
      invariant a[i..] == SortDesc(orig[i..])
    {
      i := i - 1;
      assert a[i] == orig[i] && a[i + 1..] == SortDesc(orig[i + 1..]);
      InsertInPlace(a, i);
      assert orig[i..] == [orig[i]] + orig[i + 1..];
    }
    assert a[..] == a[0..];
  }

  /** The comments a bundle shows: the first `MaxKept` of the stable descending sort. */
  function TopComments(cs: seq<Comment>): (top: seq<Comment>)
    ensures |top| == Min(MaxKept, |cs|)
  {
    SortDesc(cs)[..Min(MaxKept, |cs|)]
  }

  /**
    The kept comments are in descending order; together with the dropped
    ones (the rest of the sorted list) they are exactly the input; and every
    kept comment scores at least as high as every dropped one.
  */
  lemma {:induction false} TopCommentsRanked(cs: seq<Comment>)
    ensures SortedDesc(TopComments(cs))
    ensures multiset(TopComments(cs)) + multiset(SortDesc(cs)[Min(MaxKept, |cs|)..]) == multiset(cs)
    ensures forall i, j :: 0 <= i < Min(MaxKept, |cs|) <= j < |cs| ==>
              TopComments(cs)[i].score >= SortDesc(cs)[j].score
  {
    var sorted, m := SortDesc(cs), Min(MaxKept, |cs|);
    assert TopComments(cs) == sorted[..m];
    SortDescCorrect(cs);
    SortedPrefix(sorted, m);
    MultisetSplit(sorted, m);
  }

  /** A prefix of a descending sequence is descending and dominates the rest. */
  lemma SortedPrefix(s: seq<Comment>, m: nat)
    requires SortedDesc(s) && m <= |s|
    ensures SortedDesc(s[..m])
    ensures forall i, j :: 0 <= i < m <= j < |s| ==> s[..m][i].score >= s[j].score
  {
    forall i, j | 0 <= i < j < m ensures s[..m][i].score >= s[..m][j].score {
      assert s[..m][i] == s[i] && s[..m][j] == s[j];
    }
    forall i, j | 0 <= i < m <= j < |s| ensures s[..m][i].score >= s[j].score {
      assert s[..m][i] == s[i];
    }
  }

  /**
    Among comments of equal score, the kept ones are the earliest in the
    input, in input order: each per-score subsequence of the kept comments is
    a prefix of that of the input.
  */
  lemma TopKeepsEarliestTies(cs: seq<Comment>, k: int)
    ensures WithScore(TopComments(cs), k) <= WithScore(cs, k)
  {
    var sorted := SortDesc(cs);
    var m := Min(MaxKept, |cs|);
    assert sorted == sorted[..m] + sorted[m..];
    WithScoreAppend(sorted[..m], sorted[m..], k);
    SortStable(cs, k);
  }

  /** Copies the comments into an array, sorts it in place and keeps the best `MaxKept`. */
  method RankComments(cs: seq<Comment>) returns (top: seq<Comment>)
    ensures top == TopComments(cs)
  {
    var a := new Comment[|cs|](i requires 0 <= i < |cs| => cs[i]);
    assert a[..] == cs;
    SortByScoreDesc(a);
    top := a[..Min(MaxKept, a.Length)];
  }
}
