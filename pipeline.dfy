/**
  The driver of one scraping run: the required-field gate, the framing of
  each bundle into a prompt, the conversion of every bundle in turn with the
  failed ones skipped and reported, and the decision to save the table.

  The Reddit fetch is an input: `None` when the client raised, otherwise the
  fetched posts in trending order. The language model together with the JSON
  parsing of its reply is an arbitrary function from prompt to parsed reply;
  `None` and the empty list stand for every reply the run treats as a
  failure.
*/
module Pipeline {
  import opened Wrappers
  import opened Bundles
  import opened Aggregation

  /** The settings the sidebar collects. */
  datatype Config = Config(
    clientId: string,
    clientSecret: string,
    userAgent: string,
    apiKey: string,
    subreddit: string,
    numPosts: int)

  /** True when no field in the list is empty. */
  predicate AllNonEmpty(fields: seq<string>) {
    forall i :: 0 <= i < |fields| ==> fields[i] != ""
  }

  /** The run may start only when all five text settings are filled in. */
  function Filled(cfg: Config): (ok: bool)
    ensures ok <==> cfg.clientId != "" && cfg.clientSecret != "" && cfg.userAgent != ""
                    && cfg.apiKey != "" && cfg.subreddit != ""
  {
    var fields := [cfg.clientId, cfg.clientSecret, cfg.userAgent, cfg.apiKey, cfg.subreddit];
    assert fields[0] == cfg.clientId && fields[1] == cfg.clientSecret && fields[2] == cfg.userAgent;
    assert fields[3] == cfg.apiKey && fields[4] == cfg.subreddit;
    AllNonEmpty(fields)
  }

  const FrameLine := "===================="
  const PromptHead := "Raw_data : " + FrameLine + "\n "
  const PromptTail := "\n" + FrameLine + "\n"

  /**
    The user content sent to the model: the bundle between two delimiter
    lines. Framing loses nothing: the bundle is recovered intact.
  */
  function Prompt(information: string): (p: string)
    ensures Unframe(p) == Some(information)
  {
    var framed := PromptHead + information + PromptTail;
    assert framed[..|PromptHead|] == PromptHead;
    assert framed[|framed| - |PromptTail|..] == PromptTail;
    assert framed[|PromptHead|..|framed| - |PromptTail|] == information;
    framed
  }

  /** Recovers the bundle from a framed prompt; `None` when the text is not framed. */
  function Unframe(p: string): Option<string> {
    if |p| >= |PromptHead| + |PromptTail|
       && p[..|PromptHead|] == PromptHead
       && p[|p| - |PromptTail|..] == PromptTail
    then Some(p[|PromptHead|..|p| - |PromptTail|])
    else None
  }

  /** Every framed text is the prompt of exactly the bundle it frames. */
  lemma UnframeRoundTrip(p: string, information: string)
    requires Unframe(p) == Some(information)
    ensures Prompt(information) == p
  {
    assert p == p[..|PromptHead|] + p[|PromptHead|..|p| - |PromptTail|] + p[|p| - |PromptTail|..];
  }

  /**
    The model call followed by JSON parsing. `None` and an empty list stand
    for every result the run treats as a failure: a reply that is not JSON,
    or JSON that is null or otherwise empty.
  */
  type Responder = string -> Option<seq<QA>>

  /** Converts one bundle: frames it as a prompt and parses the model's reply. */
  function ConvertToQa(respond: Responder, information: string): Option<seq<QA>> {
    respond(Prompt(information))
  }

  /** A conversion result counts as a success when it is present and non-empty. */
  predicate Truthy(r: Option<seq<QA>>) {
    r.Some? && r.value != []
  }

  /** What one conversion adds to the collected records. */
  function Contribution(r: Option<seq<QA>>): seq<QA> {
    if Truthy(r) then r.value else []
  }

  /** The conversion results of the bundles, in bundle order. */
  function Responses(bundles: seq<string>, respond: Responder): (rs: seq<Option<seq<QA>>>)
    ensures |rs| == |bundles|
    ensures forall i :: 0 <= i < |bundles| ==> rs[i] == ConvertToQa(respond, bundles[i])
  {
    seq(|bundles|, i requires 0 <= i < |bundles| => ConvertToQa(respond, bundles[i]))
  }

  /** The records collected after the given results, appended in turn. */
  function Gathered(rs: seq<Option<seq<QA>>>): seq<QA> {
    if rs == [] then [] else Gathered(rs[..|rs| - 1]) + Contribution(rs[|rs| - 1])
  }

  /** The 1-based numbers of the posts whose conversion failed, in order. */
  function FailedPosts(rs: seq<Option<seq<QA>>>): seq<nat> {
    if rs == [] then []
    else FailedPosts(rs[..|rs| - 1]) + (if Truthy(rs[|rs| - 1]) then [] else [|rs|])
  }

  /** Later results never disturb earlier records: collecting `a + b` extends what `a` collected. */
  lemma {:induction false} GatheredAppend(a: seq<Option<seq<QA>>>, b: seq<Option<seq<QA>>>)
    ensures Gathered(a + b) == Gathered(a) + Gathered(b)
  {
    if b == [] {
      assert a + b == a;
    } else {
      var b' := b[..|b| - 1];
      assert (a + b)[..|a + b| - 1] == a + b';
      GatheredAppend(a, b');
    }
  }

  /** No records are collected exactly when every conversion failed. */
  lemma {:induction false} GatheredEmpty(rs: seq<Option<seq<QA>>>)
    ensures Gathered(rs) == [] <==> forall i :: 0 <= i < |rs| ==> !Truthy(rs[i])
  {
    if rs != [] {
      var init := rs[..|rs| - 1];
      GatheredEmpty(init);
      assert forall i :: 0 <= i < |init| ==> init[i] == rs[i];
      assert Contribution(rs[|rs| - 1]) == [] <==> !Truthy(rs[|rs| - 1]);
    }
  }

  /** The per-post contributions, in post order. */
  function Contributions(rs: seq<Option<seq<QA>>>): (cs: seq<seq<QA>>)
    ensures |cs| == |rs|
    ensures forall i :: 0 <= i < |rs| ==> cs[i] == Contribution(rs[i])
  {
    seq(|rs|, i requires 0 <= i < |rs| => Contribution(rs[i]))
  }

  /**
    The collected list is the in-order flattening of the successful results,
    so its length is the sum of their lengths.
  */
  lemma {:induction false} GatheredIsFlatten(rs: seq<Option<seq<QA>>>)
    ensures Gathered(rs) == Flatten(Contributions(rs))
    ensures |Gathered(rs)| == TotalLength(Contributions(rs))
  {
    if rs != [] {
      var init := rs[..|rs| - 1];
      GatheredIsFlatten(init);
      assert Contributions(rs) == Contributions(init) + [Contribution(rs[|rs| - 1])];
      FlattenAppend(Contributions(init), [Contribution(rs[|rs| - 1])]);
      FlattenSingleton(Contribution(rs[|rs| - 1]));
    }
  }

  /** A post is reported as failed exactly when its conversion was not a success; the reports are in post order. */
  lemma {:induction false} FailedPostsExact(rs: seq<Option<seq<QA>>>)
    ensures forall n :: n in FailedPosts(rs) <==> 1 <= n <= |rs| && !Truthy(rs[n - 1])
    ensures forall i, j :: 0 <= i < j < |FailedPosts(rs)| ==> FailedPosts(rs)[i] < FailedPosts(rs)[j]
  {
    if rs != [] {
      var init := rs[..|rs| - 1];
      FailedPostsExact(init);
      assert forall i :: 0 <= i < |init| ==> init[i] == rs[i];
      var f := FailedPosts(init);
      forall k | 0 <= k < |f| ensures f[k] < |rs| {
        assert f[k] in f;
      }
    }
  }

  /**
    The two-post example: the first post yields three records, the second an
    unparseable reply. The table holds the three records, and post 2 is
    reported as failed.
  */
  lemma TwoPostExample(q1: QA, q2: QA, q3: QA)
    ensures Gathered([Some([q1, q2, q3]), None]) == [q1, q2, q3]
    ensures FailedPosts([Some([q1, q2, q3]), None]) == [2]
  {
    var rs: seq<Option<seq<QA>>> := [Some([q1, q2, q3]), None];
    var first := rs[..1];
    assert first == [Some([q1, q2, q3])] && first[..0] == [];
    assert Gathered(first) == [q1, q2, q3] && FailedPosts(first) == [];
    assert Gathered(rs) == Gathered(first) + Contribution(None);
    assert FailedPosts(rs) == FailedPosts(first) + [2];
  }

  /**
    Converts every bundle in turn, extending the running list with each
    successful result and noting the number of each post that failed.
  */
  method CollectPairs(bundles: seq<string>, respond: Responder) returns (pairs: seq<QA>, failed: seq<nat>)
    ensures pairs == Gathered(Responses(bundles, respond))
    ensures failed == FailedPosts(Responses(bundles, respond))
  {
    ghost var rs := Responses(bundles, respond);
    pairs, failed := [], [];
    for i := 0 to |bundles|
      invariant pairs == Gathered(rs[..i])
      invariant failed == FailedPosts(rs[..i])
    {
      var qa := ConvertToQa(respond, bundles[i]);
      assert rs[..i + 1][..i] == rs[..i] && rs[..i + 1][i] == qa;
      if Truthy(qa) {
        pairs := pairs + qa.value;
      } else {
        failed := failed + [i + 1];
      }
    }
    assert rs[..|bundles|] == rs;
  }

  /** How a run ends. */
  datatype Outcome =
    | MissingFields                                  // a required setting is empty
    | NoPosts                                        // the fetch failed or found no posts
    | NoPairs(failed: seq<nat>)                      // every conversion failed
    | Saved(table: seq<QA>, failed: seq<nat>)        // the table was saved and offered for download

  /** The records a run collects from the given posts. */
  function RunRecords(posts: seq<Post>, respond: Responder): seq<QA> {
    Gathered(Responses(seq(|posts|, i requires 0 <= i < |posts| => Bundle(posts[i])), respond))
  }

  /** The posts a run reports as failed. */
  function RunFailures(posts: seq<Post>, respond: Responder): seq<nat> {
    FailedPosts(Responses(seq(|posts|, i requires 0 <= i < |posts| => Bundle(posts[i])), respond))
  }

  /**
    One press of the start button: check the settings, build the bundles of
    the fetched posts, convert them one by one, and save only a non-empty
    table.
  */
  method Run(cfg: Config, fetched: Option<seq<Post>>, respond: Responder) returns (out: Outcome)
    ensures out.MissingFields? <==> !Filled(cfg)
    ensures out.NoPosts? <==> Filled(cfg) && (fetched == None || fetched == Some([]))
    ensures Filled(cfg) && fetched.Some? && fetched.value != [] ==>
              var records := RunRecords(fetched.value, respond);
              var failures := RunFailures(fetched.value, respond);
              out == if records == [] then NoPairs(failures) else Saved(records, failures)
    ensures out.Saved? ==> out.table != []
  {
    if !Filled(cfg) {
      return MissingFields;
    }
    if fetched == None || fetched.value == [] {
      return NoPosts;
    }
    var posts := fetched.value;
    var bundles := BuildBundles(posts);
    assert bundles == seq(|posts|, i requires 0 <= i < |posts| => Bundle(posts[i]));
    var pairs, failed := CollectPairs(bundles, respond);
    if pairs == [] {
      return NoPairs(failed);
    }
    var table := Flatten([pairs]);
    FlattenSingleton(pairs);
    out := Saved(table, failed);
  }
}
