/**
  The text bundle built for each trending post: a title line, a body line,
  and the post's best comments as numbered lines.
*/
module Bundles {
  import opened Sequences
  import opened Ranking

  /** A fetched post, reduced to what the bundle builder reads. */
  datatype Post = Post(title: string, selftext: string, comments: seq<Comment>)

  /** What the body line shows for a post without body text. */
  const NoBodyMarker := "[No body text]"

  ghost predicate IsDigits(s: string) {
    forall i :: 0 <= i < |s| ==> '0' <= s[i] <= '9'
  }

  function DigitChar(d: nat): char
    requires d < 10
  {
    "0123456789"[d]
  }

  /** Decimal rendering of a natural number, as Python formats an `int`. */
  function NatToString(n: nat): (s: string)
    ensures |s| >= 1 && IsDigits(s)
    ensures s[0] == '0' ==> n == 0
  {
    if n < 10 then [DigitChar(n)] else NatToString(n / 10) + [DigitChar(n % 10)]
  }

  /** The number a string of decimal digits denotes. */
  function DigitsValue(s: string): nat
    requires IsDigits(s)
  {
    if s == [] then 0 else 10 * DigitsValue(s[..|s| - 1]) + (s[|s| - 1] as int - '0' as int)
  }

  /** The decimal rendering denotes the number it renders, so comment numbers are read back unchanged. */
  lemma {:induction false} NatToStringValue(n: nat)
    ensures DigitsValue(NatToString(n)) == n
  {
    if n >= 10 {
      NatToStringValue(n / 10);
      var s := NatToString(n);
      assert s[..|s| - 1] == NatToString(n / 10);
    }
  }

  /** Different numbers get different renderings. */
  lemma NatToStringInjective(m: nat, n: nat)
    requires NatToString(m) == NatToString(n)
    ensures m == n
  {
    NatToStringValue(m);
    NatToStringValue(n);
  }

  function TitleLine(title: string): string {
    "Title: " + title + "\n"
  }

  function PostLine(selftext: string): string {
    "Post: " + (if selftext != "" then selftext else NoBodyMarker) + "\n"
  }

  /**
    The body line shows the marker exactly when the body is empty, or when
    the body is itself the marker text (the two render alike).
  */
  lemma PostLineMarker(selftext: string)
    ensures PostLine(selftext) == PostLine("") <==> selftext == "" || selftext == NoBodyMarker
  {
    if PostLine(selftext) == PostLine("") && selftext != "" {
      var line := PostLine(selftext);
      assert line[6..|line| - 1] == selftext;
      assert PostLine("")[6..|line| - 1] == NoBodyMarker;
    }
  }

  function CommentLine(number: nat, c: Comment): string {
    "Comment " + NatToString(number) + ": " + c.body + "\n"
  }

  /** The comment lines for `cs`, numbered consecutively from `first`. */
  function CommentLines(cs: seq<Comment>, first: nat): string {
    if cs == [] then "" else CommentLine(first, cs[0]) + CommentLines(cs[1..], first + 1)
  }

  /** The full bundle text for a post whose kept comments are `top`. */
  function BundleText(title: string, selftext: string, top: seq<Comment>): string {
    TitleLine(title) + PostLine(selftext) + CommentLines(top, 1)
  }

  /** The bundle of a fetched post: its title, its body and its ten best comments. */
  function Bundle(p: Post): string {
    BundleText(p.title, p.selftext, TopComments(p.comments))
  }

  /**
    Comment lines split at any point: the lines of `a + b` are those of `a`
    followed by those of `b`, whose numbering continues where `a` stopped.
  */
  lemma {:induction false} CommentLinesAppend(a: seq<Comment>, b: seq<Comment>, first: nat)
    ensures CommentLines(a + b, first) == CommentLines(a, first) + CommentLines(b, first + |a|)
  {
    if a == [] {
      assert a + b == b;
    } else {
      ConsAppend(a, b);
      CommentLinesAppend(a[1..], b, first + 1);
      var line := CommentLine(first, a[0]);
      calc {
        CommentLines(a + b, first);
        line + CommentLines(a[1..] + b, first + 1);
        line + (CommentLines(a[1..], first + 1) + CommentLines(b, first + |a|));
        { AppendAssoc(line, CommentLines(a[1..], first + 1), CommentLines(b, first + |a|)); }
        (line + CommentLines(a[1..], first + 1)) + CommentLines(b, first + |a|);
      }
    }
  }

  /** Adding one comment at the end adds one line, numbered after the others. */
  lemma CommentLinesSnoc(cs: seq<Comment>, c: Comment, first: nat)
    ensures CommentLines(cs + [c], first) == CommentLines(cs, first) + CommentLine(first + |cs|, c)
  {
    CommentLinesAppend(cs, [c], first);
    assert [c][1..] == [];
    assert CommentLines([c], first + |cs|) == CommentLine(first + |cs|, c) + "";
  }

  /** The line of the `i`-th kept comment (0-based) carries number `i + 1` and sits after the lines of those before it. */
  lemma {:induction false} CommentLineAt(cs: seq<Comment>, i: nat)
    requires i < |cs|
    ensures CommentLines(cs, 1)
         == CommentLines(cs[..i], 1) + CommentLine(i + 1, cs[i]) + CommentLines(cs[i + 1..], i + 2)
  {
    assert cs == cs[..i] + cs[i..];
    CommentLinesAppend(cs[..i], cs[i..], 1);
    assert cs[i..][1..] == cs[i + 1..];
  }

  /** Builds one bundle by appending its lines in turn to a string. */
  method RenderBundle(title: string, selftext: string, top: seq<Comment>) returns (text: string)
    ensures text == BundleText(title, selftext, top)
  {
    text := TitleLine(title);
    text := text + PostLine(selftext);
    ghost var head := text;
    for i := 0 to |top|
      invariant text == head + CommentLines(top[..i], 1)
    {
      var line := CommentLine(i + 1, top[i]);
      assert top[..i + 1] == top[..i] + [top[i]];
      CommentLinesSnoc(top[..i], top[i], 1);
      AppendAssoc(head, CommentLines(top[..i], 1), line);
      text := text + line;
    }
    assert top[..|top|] == top;
  }

  /** One bundle per post, in post order. */
  method BuildBundles(posts: seq<Post>) returns (bundles: seq<string>)
    ensures |bundles| == |posts|
    ensures forall i :: 0 <= i < |posts| ==> bundles[i] == Bundle(posts[i])
  {
    bundles := [];
    for i := 0 to |posts|
      invariant |bundles| == i
      invariant forall k :: 0 <= k < i ==> bundles[k] == Bundle(posts[k])
    {
      var top := RankComments(posts[i].comments);
      var text := RenderBundle(posts[i].title, posts[i].selftext, top);
      bundles := bundles + [text];
    }
  }
}
