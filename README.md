# Reddit-to-Q&A scraper: a verified model of its data logic

The program is a single Streamlit script. It fetches the day's top posts
of a subreddit. For each post it builds a text bundle: the title, the body,
and the ten highest-scoring comments. It sends each bundle to a Gemini model
that turns it into question/answer pairs. It collects the pairs of all posts,
saves them as a spreadsheet and offers them as a CSV download.

This project models the sequential data logic inside that script:

- **Ranking** (`ranking.dfy`): the stable sort of a post's comments by
  descending score and the cut to ten. `SortDesc` is a functional insertion
  sort that specifies the sort. `SortByScoreDesc` sorts an array in place, as
  the source sorts its list in place, and is proved to produce exactly
  `SortDesc` of the input. Lemmas about `SortDesc` prove what a stable
  descending sort promises. The output is descending and a permutation of
  the input. For every score, the comments with that score keep their input
  order. These properties determine the output uniquely.
- **Bundles** (`bundles.dfy`): the bundle text of a post, built line by line
  as the source appends to a string, and the loop that builds one bundle per
  post. Comment numbers are rendered in decimal by `NatToString`.
- **Aggregation** (`aggregation.dfy`): the question/answer record and the
  flattening of a list of record lists into table rows.
- **Pipeline** (`pipeline.dfy`): the check that all five required settings
  are filled in, and the framing of a bundle between delimiter lines to form
  the prompt. It also has the loop that converts every bundle in turn. That
  loop appends successful results, skips empty or unparseable ones and
  reports their post numbers. Last comes the driver of one run, which saves
  the table only when it is non-empty.

External effects are parameters. The Reddit fetch is an `Option<seq<Post>>`.
`get_trending_posts_with_comments` catches every exception and returns `None`
(app.py:32-38); otherwise the input holds the posts in trending order. Each
post's comments are the flattened comment list the client returns. The Gemini
call together with the JSON parsing of its reply is an arbitrary function
`Responder` from prompt text to `Option<seq<QA>>`. `None` and `Some([])`
together stand for every falsy result of `convert_to_qa`: a reply that is not
valid JSON, JSON `null`, and an empty list, object or string, `0` or `false`.
The run skips all of these and reports the post (app.py:102-105).

`save_to_excel` is called with the one-element wrapper `[all_qa_pairs]`
(app.py:109). The model flattens that wrapper the same way, and
`FlattenSingleton` proves that flattening it returns the list unchanged.

## Model

| member | source | states |
|---|---|---|
| `Ranking.SortDesc` | app.py:22 | The specification of the sort: each comment is inserted, from the last to the first, before the first comment scoring no higher. The result has as many comments as the input; the lemmas below prove it is the stable descending sort. |
| `Ranking.SortDescCorrect` | app.py:22 | The sorted comments are in non-increasing score order and form a permutation of the input: nothing is lost or invented. |
| `Ranking.SortStable` | app.py:22 | For every score, the comments with that score appear in the sorted list in the same relative order as in the input. This is Python's stability guarantee. |
| `Ranking.SortedUnique` | app.py:22 | Two descending lists that agree on every per-score subsequence are equal. With the two lemmas above, this makes `SortDesc` the only stable descending sort of its input. |
| `Ranking.InsertPermutes` | app.py:22 | Inserting a comment adds exactly that comment to the multiset of comments. |
| `Ranking.InsertSorted` | app.py:22 | Inserting a comment into a descending list keeps it descending. |
| `Ranking.InsertKeepsTies` | app.py:22 | An insertion moves the new comment only past comments of strictly higher score, so no comments with equal scores change order. |
| `Ranking.ShiftHigher` | app.py:22 | One pass of the in-place sort moves every comment right after position `i` that scores strictly higher than the comment at `i` one slot left, stopping at the first comment scoring no higher. Every other slot, including the freed slot `j` that the caller then fills, keeps its old contents. |
| `Ranking.ShiftedIsInsert` | app.py:22 | The array layout that pass leaves, with the saved comment written into the gap, is exactly the insertion of that comment into the rest of the suffix. |
| `Ranking.InsertInPlace` | app.py:22 | One step of the in-place sort leaves the prefix of the array alone and turns the suffix into the insertion of its first element into the rest. |
| `Ranking.SortByScoreDesc` | app.py:22 | After the in-place sort, the array holds exactly the stable descending sort of its old contents. |
| `Ranking.TopComments` | app.py:23 | Exactly `min(10, n)` comments are kept. |
| `Ranking.TopCommentsRanked` | app.py:23 | The kept comments are in non-increasing order. Kept and dropped comments together make up the input multiset. Every kept comment scores at least as high as every dropped one. |
| `Ranking.TopKeepsEarliestTies` | app.py:22-23 | Among comments of one score, the kept ones are the earliest in the input, in input order: a prefix of that score's subsequence. |
| `Ranking.RankComments` | app.py:21-23 | Sorting a copy of the comments in place and slicing it yields exactly the kept comments described above. |
| `Bundles.NatToString` | app.py:28 | A comment number renders as a non-empty string of decimal digits with no leading zero, except for 0 itself. |
| `Bundles.NatToStringValue` | app.py:28 | The rendered digits denote the number rendered. |
| `Bundles.NatToStringInjective` | app.py:27-28 | Different comment numbers render differently. |
| `Bundles.TitleLine` | app.py:25 | The first line of a bundle is `Title: `, the post title, then a newline. |
| `Bundles.PostLine` | app.py:26 | The body line is `Post: `, then the body, or `[No body text]` when the body is empty, then a newline. |
| `Bundles.PostLineMarker` | app.py:26 | The body line is the `[No body text]` line exactly when the body is empty, or when the body is itself that marker text. |
| `Bundles.CommentLine` | app.py:28 | The line of one kept comment is `Comment `, its decimal number, `: `, the comment body, then a newline. |
| `Bundles.CommentLines` | app.py:27-28 | The kept comments, one `CommentLine` each, in kept order, numbered consecutively from the given start (1 in a bundle). |
| `Bundles.CommentLinesAppend` | app.py:27-28 | The comment lines of a concatenation are those of the first part followed by those of the second, numbered on from where the first part stopped. |
| `Bundles.CommentLinesSnoc` | app.py:27-28 | Appending one more kept comment appends one line, numbered one past the comments already there. |
| `Bundles.CommentLineAt` | app.py:27-28 | The i-th kept comment (0-based) appears as line `Comment i+1: body`, after the lines of all kept comments before it. |
| `Bundles.BundleText` | app.py:25-28 | A bundle is the title line, then the body line, then the lines of the kept comments numbered from 1, in kept order. |
| `Bundles.Bundle` | app.py:19-29 | The bundle of a post is that text built from the post's title, its body and its ten best comments (`TopComments`). |
| `Bundles.RenderBundle` | app.py:25-28 | The appended string is the title line, then the body line (with the marker for an empty body), then one numbered line per kept comment, numbered from 1 in kept order. |
| `Bundles.BuildBundles` | app.py:19-31 | There is exactly one bundle per post, in post order. Each bundle is rendered from that post's ten best comments in stable descending order. |
| `Aggregation.Flatten` | app.py:61 | The flattened list's length is the sum of the lengths of the inner lists. |
| `Aggregation.FlattenAppend` | app.py:61 | Flattening distributes over concatenation of the outer list. |
| `Aggregation.FlattenAt` | app.py:61 | Item j of inner list i sits in the flat list right after all items of the earlier lists, so order is preserved. |
| `Aggregation.FlattenSingleton` | app.py:61 | Flattening the one-element wrapper `[pairs]` returns `pairs` unchanged. |
| `Pipeline.Filled` | app.py:85 | A run may start exactly when client id, client secret, user agent, API key and subreddit are all non-empty. |
| `Pipeline.Prompt` | app.py:50 | The prompt is the bundle between the `Raw_data : ====================` header and the closing delimiter line. `Unframe` recovers the bundle intact from it. |
| `Pipeline.UnframeRoundTrip` | app.py:50 | Any text that unframes to a bundle is exactly that bundle's prompt. |
| `Pipeline.ConvertToQa` | app.py:40-58 | Converting a bundle sends its prompt to the model and returns the parsed reply, the `Responder` applied to `Prompt(bundle)`. |
| `Pipeline.Responses` | app.py:99-101 | One conversion per bundle, in bundle order: result i is `ConvertToQa` of bundle i, and there are as many results as bundles. |
| `Pipeline.Truthy` | app.py:102 | A conversion succeeds when its result is present and non-empty, as the truthiness test on `qa_pairs` decides. |
| `Pipeline.Contribution` | app.py:102-103 | What one result adds to the collected records: its records when it is a success, nothing otherwise. |
| `Pipeline.Gathered` | app.py:97-103 | The records collected after a sequence of results: each successful result is appended in turn, failures add nothing. |
| `Pipeline.FailedPosts` | app.py:99-105 | The 1-based numbers of the posts whose result was not a success, in post order. |
| `Pipeline.GatheredAppend` | app.py:102-103 | Collecting results `a + b` gives what `a` collected followed by what `b` collected, so later posts never disturb earlier records. |
| `Pipeline.GatheredEmpty` | app.py:102-108 | The collected list is empty exactly when every conversion returned `None` or an empty list. |
| `Pipeline.GatheredIsFlatten` | app.py:97-105 | The collected list is the in-order concatenation of the successful results only, and its length is the sum of their lengths. |
| `Pipeline.FailedPostsExact` | app.py:104-105 | Post number n (1-based) is warned about exactly when its conversion returned `None` or an empty list. The warnings come in increasing post order, one per failed post. |
| `Pipeline.TwoPostExample` | app.py:99-105 | Two posts, where the first yields three records and the second an unparseable reply, give a table of those three records and one warning, for post 2. |
| `Pipeline.RunRecords` | app.py:97-103 | The records a run collects: `Gathered` of the responses to the bundles of the fetched posts, in post order. |
| `Pipeline.RunFailures` | app.py:99-105 | The posts a run reports as failed: `FailedPosts` of the same responses. |
| `Pipeline.CollectPairs` | app.py:97-105 | The loop ends with the collected records and the failed post numbers that the two specification functions above describe. |
| `Pipeline.Run` | app.py:84-125 | A run is refused exactly when a required setting is empty. It reports "no posts" exactly when the fetch failed or returned nothing. Otherwise it saves the collected records exactly when there are some, and reports that no pairs were generated when there are none. A saved table is never empty. |

## Left out

- Streamlit presentation (page setup, sidebar widgets, spinners, success, error and warning messages, the data frame view, the download button) is not modelled. Warnings are returned as the list of failed post numbers instead.
- The progress-bar value `(i + 1) / len` is left out: it is a floating-point value used only for display.
- The Reddit client (construction, `subreddit.top`, `replace_more`, `comments.list()`) is left out: these are network calls. Their result is the input `Option<seq<Post>>`. The `num_posts` limit is applied by the platform, so `Config.numPosts` is carried but not used.
- The three exception handlers of the fetch are left out, because they differ only in the message they display. All of them map to `None`.
- The Gemini configuration, system instruction and `generate_content` call are left out: they are a remote model call. The `Responder` parameter stands for the call and the parse together.
- The model's reply is treated as determined by the prompt: `Responder` is a function, so two posts with identical bundles get identical results, whereas the remote model may answer identical prompts differently. The accumulation lemmas (`GatheredAppend`, `GatheredEmpty`, `GatheredIsFlatten`, `FailedPostsExact`) hold for any sequence of results, so they do not depend on this.
- An exception raised by `generate_content` itself is not caught in the source and ends the run. The model does not represent this: `Responder` is total.
- `json.loads` is left out as library parsing. A truthy reply that parses to something other than a list of question/answer objects (a non-empty dict, say) is not represented. The parse yields either `None` or a list of records, and falsy replies map to `None` or the empty list.
- The pandas DataFrame, `to_excel`, `to_csv` and UTF-8 encoding are left out as file I/O and foreign serialisation. The model stops at the list of table rows.
- Python's `sort` is modelled by its result, not its algorithm: the in-place method is an insertion sort, not Timsort. Both produce the unique stable descending order that `SortedUnique` characterises.
