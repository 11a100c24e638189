# Reddit scraper core, modelled in Dafny

This project models the logic of the old-Reddit scraper in
`src/webscrapers/reddit/__init__.py` and proves properties of it. It covers
four parts:

- **URL classifier.** `get_reddit_id_from_url` turns a URL into a
  `RedditUrlInfo` locator or raises `RedditScraperError`. It runs a blank
  check, then a host check, then splits the path into segments and tries
  four matchers in a fixed order: shortlink, front page, subreddit path,
  user path. `extract_post_id_from_url` is built on top of it.
- **Field helpers.** These read one element of a parsed page:
  - `_normalize_text` and `_extract_fullname_id`;
  - `_extract_parent_id` and the comment body with its `[deleted]` /
    `[removed]` sentinels;
  - the author fallbacks, the moderator/admin distinction, and the score,
    timestamp and comment-count attributes.
- **Comment builder.** `_parse_comment_node` builds a comment and its
  replies recursively. It uses `_build_comment_context` and
  `_get_direct_comment_children`. `parse_reddit_post_html` drives it: it
  locates the post element and parses the top-level comments.
- **Flat indexer.** `build_comment_tree` groups a flat list of comments by
  parent id.

Modules, one per file:

| file | module | contents |
|---|---|---|
| `wrappers.dfy` | `Wrappers` | `Option` and `Result` |
| `errors.dfy` | `Errors` | the messages `RedditScraperError` is raised with |
| `pystr.dfy` | `PyStr` | the Python `str` operations the scraper uses |
| `markup.dfy` | `Markup` | the parsed page as an element tree |
| `records.dfy` | `Records` | `RedditCommentData`, `RedditPostData`, and the parsers for ints and dates |
| `url_classifier.dfy` | `UrlClassifier` | `get_reddit_id_from_url` and its matchers |
| `classifier_examples.dfy` | `ClassifierExamples` | the URL unit tests, stated as lemmas |
| `fields.dfy` | `Fields` | the scalar field helpers and the two context builders |
| `comment_tree.dfy` | `CommentTree` | the recursive comment builder |
| `post_assembler.dfy` | `PostAssembler` | `parse_reddit_post_html` |
| `flat_index.dfy` | `FlatIndex` | `build_comment_tree` |

**Pure code and its imperative counterparts.** Pure code is modelled as
functions. Where the source loops, the model has a method with the same
loop, proved equal to a specification function:

- `GetRedditIdFromUrl` loops over the matchers and returns on the first
  one that does not decline.
- `DirectCommentChildren` builds a list while iterating a container's
  children.
- `ParseCommentNode` and `ParseComments` accumulate replies, and
  `ParseRedditPostHtml` accumulates top-level comments.
- `BuildCommentTree` fills a map of lists.

**Foreign code is passed in, not modelled.**

- `urlparse` is the parameter `parse`. It is applied to the stripped URL
  only after the blank check, so the order of checks is kept.
- selectolax is modelled as follows:
  - An `Element` has a tag, attributes, text nodes, markup and direct
    child elements.
  - For each CSS selector the scraper queries from an element, the element
    records the matches the engine returns, in document order.
    `CssFirst` is the first match and `CssAll` is all of them.
- `int()` and `datetime.fromisoformat` are the two arrows of a `Codecs`
  value. Each returns `None` where Python raises `ValueError`.

## Model

| member | source | states |
|---|---|---|
| UrlClassifier.NormalizeNetloc | src/webscrapers/reddit/__init__.py:217-218 | the result is the lower-cased network location up to its first ':', or all of it when it has no ':'; it has no ':' and no upper-case letter |
| UrlClassifier.NormalizeNetlocDropsPort | src/webscrapers/reddit/__init__.py:217-218 | a host followed by ':' and a port normalises to the lower-cased host |
| UrlClassifier.SplitPath | src/webscrapers/reddit/__init__.py:221-222 | every segment is non-empty and contains no '/' |
| UrlClassifier.SplitPathOfJoin | src/webscrapers/reddit/__init__.py:221-222 | splitting undoes joining non-empty slash-free segments with '/', with or without a leading slash, a trailing slash, or both |
| UrlClassifier.RedditDomainHosts | src/webscrapers/reddit/__init__.py:217-229 | for a host without ':', the verdict on `host` and on `host:port`, for any port, is the verdict on the lower-cased host |
| UrlClassifier.IsRedditDomain | src/webscrapers/reddit/__init__.py:225-229 | a network location without ':' is accepted iff its lower case is `redd.it`, `www.redd.it`, `reddit.com` or ends in `.reddit.com` |
| PyStr.StripBlank | src/webscrapers/reddit/__init__.py:332-336 | stripping leaves nothing iff the text is empty or all whitespace, and otherwise leaves text that starts and ends with a non-space, so the blank check rejects exactly the blank URLs and `urlparse` never sees surrounding whitespace |
| UrlClassifier.ClassifyErrors | src/webscrapers/reddit/__init__.py:332-340 | the call fails with the empty-URL error iff the URL is blank; it fails with the not-reddit error iff the URL is not blank and the host check fails; no other `RedditScraperError` is raised except the shortlink, invalid-post-id and unsupported-pattern errors |
| UrlClassifier.Classify | src/webscrapers/reddit/__init__.py:319-363 | the empty-URL error comes exactly for blank URLs; every locator returned is well shaped and records the URL as given |
| UrlClassifier.ClassifyParsed | src/webscrapers/reddit/__init__.py:338-363 | once the URL is parsed, the not-reddit error comes exactly when the host check fails; the other errors are only the invalid-id and unsupported ones; every locator is well shaped and keeps the URL |
| UrlClassifier.GetRedditIdFromUrl | src/webscrapers/reddit/__init__.py:319-363 | the loop over the four matchers returns exactly what `Classify` specifies: the first matcher that does not decline decides |
| UrlClassifier.FirstMatchOutcome | src/webscrapers/reddit/__init__.py:357-363 | trying matchers in order gives the answer or error of the first matcher that does not decline, every matcher before it having declined; otherwise every matcher declined and the result is the unsupported error |
| UrlClassifier.FirstMatchShape | src/webscrapers/reddit/__init__.py:232-316 | whatever a sequence of matchers decides is a well-shaped locator for the given URL, or one of the invalid-id errors, or the unsupported error |
| UrlClassifier.ClassifyShortlink | src/webscrapers/reddit/__init__.py:232-249 | for a stripped and parsed URL on a shortlink host, the result is a post with the lower-cased first segment as its id and no subreddit, or the shortlink error when that segment is missing or not 5-8 alphanumerics; no other matcher is consulted |
| UrlClassifier.ParseShortlink | src/webscrapers/reddit/__init__.py:232-249 | declines iff the host is not a shortlink host; raises the shortlink error iff it is and the first segment is missing or not a post id; otherwise answers a post with the lower-cased first segment and no subreddit |
| UrlClassifier.SkipShortlink | src/webscrapers/reddit/__init__.py:345-360 | on a reddit.com host the shortlink matcher declines, so classification continues with the front-page, subreddit and user matchers |
| UrlClassifier.SkipToSubredditPath | src/webscrapers/reddit/__init__.py:345-360 | on a reddit.com host with at least one segment, classification continues with the subreddit and user matchers |
| UrlClassifier.ClassifyFrontpage | src/webscrapers/reddit/__init__.py:252-260 | a reddit.com URL with no path segments is the front page, with no ids |
| UrlClassifier.ParseFrontpage | src/webscrapers/reddit/__init__.py:252-260 | declines iff the path has segments, never raises, and otherwise answers the front page with no post |
| UrlClassifier.ClassifyListingsAndUsers | src/webscrapers/reddit/__init__.py:263-316 | `r/<x>` with x popular or all in any case gives that listing without a subreddit; `user/<x>` or `u/<x>` gives the user x |
| UrlClassifier.ClassifySubredditPaths | src/webscrapers/reddit/__init__.py:278-304 | under `r/<sub>/comments/<pid>`, a pid that is not 5-8 alphanumerics raises; otherwise the result is a comment when a sixth segment is 6-10 alphanumerics and a post otherwise, with lower-cased ids and the subreddit in its original case; without `comments` the result is the subreddit |
| UrlClassifier.ParseSubredditPath | src/webscrapers/reddit/__init__.py:263-304 | declines iff the path is not `r/<x>`; raises the invalid-post-id error iff the path is `r/<x>/comments/<pid>` with x not a listing name and pid not a post id; a subreddit, post or comment answer carries the subreddit segment as given and no username |
| UrlClassifier.ParseUserPath | src/webscrapers/reddit/__init__.py:307-316 | declines iff the path is not `user/<x>` or `u/<x>`, never raises, and otherwise answers the user x |
| UrlClassifier.PathDispatch | src/webscrapers/reddit/__init__.py:357-363 | with a non-empty path, the subreddit matcher decides when it answers or raises; when it declines, the user matcher's answer is the result, and unsupported when it declines too |
| UrlClassifier.PathUnsupported | src/webscrapers/reddit/__init__.py:357-363 | the same unsupported-iff statement, for a non-empty segment list |
| UrlClassifier.ClassifyUnsupported | src/webscrapers/reddit/__init__.py:357-363 | a reddit.com URL is unsupported iff it has segments and they do not start with `r`, `user` or `u` followed by a segment |
| UrlClassifier.RunParserShape | src/webscrapers/reddit/__init__.py:232-316 | every locator a matcher builds fills exactly the fields its kind calls for, keeps the original URL, and stores ids lower-cased and in regex shape; a matcher raises only the two invalid-id errors |
| UrlClassifier.ClassifyWellShaped | src/webscrapers/reddit/__init__.py:84-87 | every locator is well shaped; a comment id implies kind comment and a post id; `has_post` holds iff the kind is post or comment |
| UrlClassifier.UrlInfo.HasPost | src/webscrapers/reddit/__init__.py:84-87 | on a well-shaped locator, `has_post` holds iff the kind is post or comment |
| UrlClassifier.LowerKeepsIdPattern | src/webscrapers/reddit/__init__.py:27-28 | lower-casing an id that matches an id regex gives one that still matches |
| UrlClassifier.LowerIdempotent | src/webscrapers/reddit/__init__.py:288-296 | lower-casing twice is lower-casing once, so stored ids are already lower case |
| UrlClassifier.IdPatternWithoutNewline | src/webscrapers/reddit/__init__.py:27-28 | for text without a newline, the regex (whose `$` also accepts a final newline) is exactly "lo to hi alphanumerics" |
| UrlClassifier.ExtractPostIdCases | src/webscrapers/reddit/__init__.py:902-922 | a missing or empty URL gives no id; classification errors pass through; a post or comment locator gives its post id; any other kind fails with the not-a-post error |
| UrlClassifier.ExtractPostIdFromUrl | src/webscrapers/reddit/__init__.py:902-922 | a missing or empty URL gives no id; a returned id matches the post-id pattern and is lower case; the empty-URL error only comes for a blank URL |
| ClassifierExamples.NamedListing | src/webscrapers/reddit/__init__.py:267-275 | `/r/popular/` and `/r/all/` on a reddit.com host are the popular and all listings |
| ClassifierExamples.NamedSubreddit | src/webscrapers/reddit/__init__.py:267-304 | `/r/<name>/` for any other lower-case name is the subreddit name |
| ClassifierExamples.ClassifyPermalink | src/webscrapers/reddit/__init__.py:278-298 | a `/r/<sub>/comments/<pid>/<slug>/` path is a post, and with a comment id after the slug it is a comment |
| ClassifierExamples.ParsesStandardPostUrl | tests/test_reddit.py:21-31 | the homelab permalink is the post g76orz in subreddit homelab, without a comment id |
| ClassifierExamples.ParsesCommentPermalink | tests/test_reddit.py:34-44 | the nvidia permalink with h1iloux is the comment h1iloux of post npm69h in subreddit nvidia |
| ClassifierExamples.ParsesShortlink | tests/test_reddit.py:47-52 | redd.it/npm69h is the post npm69h with no subreddit |
| ClassifierExamples.ParsesUserProfileUrl | tests/test_reddit.py:55-59 | /user/killyoy is the user killyoy |
| ClassifierExamples.ParsesSubredditRoot | tests/test_reddit.py:62-66 | /r/nvidia/ is the subreddit nvidia |
| ClassifierExamples.ParsesPopularAndAll | tests/test_reddit.py:69-74 | /r/popular/ is the popular listing and /r/all/ is the all listing |
| ClassifierExamples.ParsesFrontpage | tests/test_reddit.py:77-80 | the bare host is the front page |
| ClassifierExamples.RaisesForNonRedditUrl | tests/test_reddit.py:83-85 | a URL on example.com fails with the not-reddit error |
| ClassifierExamples.RaisesForEmptyUrl | tests/test_reddit.py:88-90 | three spaces fail with the empty-URL error, whatever `urlparse` would do |
| ClassifierExamples.UserInfoReadAsHost | src/webscrapers/reddit/__init__.py:217-229 | a network location `x.reddit.com:80@example.com` passes the host check, because everything from the first ':' is dropped |
| ClassifierExamples.UpperCaseHost | src/webscrapers/reddit/__init__.py:217-229 | `OLD.Reddit.COM` passes the host check |
| ClassifierExamples.HostWithPort | src/webscrapers/reddit/__init__.py:217-229 | `www.reddit.com:443` passes the host check |
| ClassifierExamples.LookalikeHost | src/webscrapers/reddit/__init__.py:217-229 | `reddit.com.evil.net` fails the host check |
| Fields.NormalizeText | src/webscrapers/reddit/__init__.py:390-402 | absent stays absent; otherwise the result has no whitespace at either end, no whitespace run and no whitespace other than single spaces, and it splits into the same words as the input |
| Fields.NormalizeTextIdempotent | src/webscrapers/reddit/__init__.py:390-402 | normalising twice is normalising once |
| Fields.FullnameId | src/webscrapers/reddit/__init__.py:405-422 | an id is present iff the fullname is present and contains '_'; it is shorter than the fullname and is the lower-cased tail of it |
| Fields.FullnameIdOfPrefixed | src/webscrapers/reddit/__init__.py:405-422 | a type prefix without '_', then '_', then an id gives back the id, lower-cased |
| Fields.ParentIdFromHref | src/webscrapers/reddit/__init__.py:575-580 | a parent id is present iff the href is present and starts with '#'; the href is then '#' followed by the id |
| Fields.ParentIdOf | src/webscrapers/reddit/__init__.py:567-582 | a parent id exists iff the entry has a parent link whose href starts with '#', and then the href is '#' followed by that id |
| Fields.CommentContent | src/webscrapers/reddit/__init__.py:514-533 | the text is the stripped body text; markup is present iff text is, and is the body element's own markup; `deleted` iff the text is exactly `[deleted]`; `removed` iff it is exactly `[removed]` |
| Fields.ContentNotDeletedAndRemoved | src/webscrapers/reddit/__init__.py:528-531 | no body is both deleted and removed |
| Fields.TaglineSaysDeleted | src/webscrapers/reddit/__init__.py:500-506 | holds iff there is a tagline and `[deleted]` occurs at some position of its text |
| PyStr.ContainsAt | src/webscrapers/reddit/__init__.py:505 | `sub in s` holds iff `sub` occurs in `s` at some position |
| Fields.CommentAuthor | src/webscrapers/reddit/__init__.py:487-511 | the author link's stripped text wins; without a link the author is `[deleted]` exactly when the tagline contains `[deleted]` or the comment is deleted, and absent otherwise |
| Fields.PostAuthor | src/webscrapers/reddit/__init__.py:703-720 | the tagline's author link wins; without one the author is `[deleted]` exactly when the tagline contains `[deleted]`, and absent otherwise |
| Fields.Distinguished | src/webscrapers/reddit/__init__.py:549-555 | moderator iff the class contains "moderator"; admin iff it contains "admin" but not "moderator"; none iff neither |
| Fields.CommentMetadata | src/webscrapers/reddit/__init__.py:536-564 | the distinction is read from the node's class; stickied iff the class contains "stickied"; a permalink exists only with a permalink link and is its href |
| Fields.ParsedAttr | src/webscrapers/reddit/__init__.py:425-466 | a missing element, or an attribute that is missing or empty, gives nothing; otherwise the result is the parser's answer for the attribute |
| Fields.ParseScore | src/webscrapers/reddit/__init__.py:447-466 | no element, or a missing or empty `title`, gives no score; otherwise the score is `int()` of the title, including its failure |
| Fields.ParseTimestamp | src/webscrapers/reddit/__init__.py:425-444 | no element, or a missing or empty `datetime`, gives no date; otherwise the date is `fromisoformat` of it, including its failure |
| Fields.PostNumComments | src/webscrapers/reddit/__init__.py:723-738 | a missing or empty `data-comments-count` gives no count; otherwise the count is `int()` of it, including its failure |
| Fields.BuildCommentContext | src/webscrapers/reddit/__init__.py:585-627 | a context exists iff the fullname yields a non-empty id and the node has an entry; then `deleted` iff the class contains "deleted" or the body is `[deleted]`; `removed` iff the body is `[removed]`; a deleted comment without an author link has author `[deleted]`; `is_submitter` iff the class contains "submitter"; author, score, date, markup, text, permalink, parent id, distinction and stickiness are each the value of its field helper |
| Fields.BuildPostContext | src/webscrapers/reddit/__init__.py:741-775 | the post id comes from the fullname; a title exists iff there is a title link, and it is `NormalizeText` of the link's stripped text: single-spaced, squeezed, trimmed and split into the link text's words; author, subreddit, url, permalink, domain, score, date and comment count are each their attribute or helper; nsfw and spoiler hold only for the value "true"; flair and content exist iff their elements do, and are their text and markup |
| CommentTree.CommentThings | src/webscrapers/reddit/__init__.py:778-796 | only comment things of the input are kept (a `div` whose class contains "thing" and "comment"), and never more than the input |
| CommentTree.CommentThingsComplete | src/webscrapers/reddit/__init__.py:778-796 | every comment thing of the input is kept |
| CommentTree.CommentThingsAppend | src/webscrapers/reddit/__init__.py:778-796 | filtering distributes over concatenation, so document order is kept |
| CommentTree.DirectCommentChildren | src/webscrapers/reddit/__init__.py:778-796 | the loop over the container's direct children returns exactly its comment things, in order |
| CommentTree.CommentOf | src/webscrapers/reddit/__init__.py:630-681 | no comment iff the node is a morechildren placeholder, has no non-empty id, or has no entry; otherwise the comment sits at the given depth with the given post id, and has no replies without a child container |
| CommentTree.CommentOfReplies | src/webscrapers/reddit/__init__.py:649-662 | the replies of a parsed comment with a child container are exactly the comments of that container, one level deeper, in document order |
| CommentTree.CommentOfFields | src/webscrapers/reddit/__init__.py:585-681 | a parsed comment carries the node's comment context; its id is the fullname's; its `removed` and `deleted` flags and `[deleted]` author follow the body sentinels and the class marker; a linked author wins; the distinction is moderator before admin; stickiness, parent id and text come from the node and entry |
| CommentTree.CommentOfThreaded | src/webscrapers/reddit/__init__.py:649-662 | every reply of a parsed comment, at any level, carries the same post id and sits one level deeper than its parent |
| CommentTree.CommentsInThreaded | src/webscrapers/reddit/__init__.py:653-662 | the comments of a container sit at the given depth with the given post id, and so does every level of their replies |
| CommentTree.CommentsIn | src/webscrapers/reddit/__init__.py:653-662 | a container holds no more comments than it has children |
| CommentTree.ReplyResults | src/webscrapers/reddit/__init__.py:654-660 | there is one parse result per direct comment thing, in order, each the thing's parse at the given depth with the given post id |
| CommentTree.Kept | src/webscrapers/reddit/__init__.py:661-662 | keeping the parsed results never yields more comments than results |
| CommentTree.KeptPrefix | src/webscrapers/reddit/__init__.py:661-662 | one more iteration of the loop appends exactly that result's comment, if any |
| CommentTree.KeptAppend | src/webscrapers/reddit/__init__.py:655-662 | keeping distributes over concatenation: document order is kept and results that did not parse leave no holes |
| CommentTree.KeptMembers | src/webscrapers/reddit/__init__.py:661-662 | a comment is kept iff some result is that comment |
| CommentTree.KeptCount | src/webscrapers/reddit/__init__.py:661-662 | the number of comments kept is the number of results that parsed |
| CommentTree.KeptThreaded | src/webscrapers/reddit/__init__.py:655-662 | results that are threaded at one depth keep a forest threaded at that depth |
| CommentTree.ThreadedCons | src/webscrapers/reddit/__init__.py:655-662 | a comment at the right depth with the right post id, before a threaded forest, keeps it threaded |
| CommentTree.CommentsInSound | src/webscrapers/reddit/__init__.py:653-662 | every comment of a container comes from one of its direct comment things |
| CommentTree.CommentsInComplete | src/webscrapers/reddit/__init__.py:653-662 | every direct comment thing of a container that parses has its comment in the list |
| CommentTree.ParseCommentNode | src/webscrapers/reddit/__init__.py:630-681 | the step-by-step parser returns exactly `CommentOf` |
| CommentTree.ParseComments | src/webscrapers/reddit/__init__.py:653-662 | the loop that accumulates replies, or top-level comments, returns exactly the comments of the container |
| PostAssembler.FirstLinkIndex | src/webscrapers/reddit/__init__.py:818-822 | the fallback scan stops at the first element whose class contains "link"; every earlier element lacks it |
| PostAssembler.LocatePost | src/webscrapers/reddit/__init__.py:813-824 | the primary `div.thing.link` lookup wins when it finds something. Otherwise the post is the first `div.thing` whose class contains "link". No post element is found iff neither lookup finds one |
| PostAssembler.TopLevelComments | src/webscrapers/reddit/__init__.py:836-848 | no comment area means no comments; otherwise the comments are those of the comment area at depth 0, threaded from depth 0 |
| PostAssembler.PostOf | src/webscrapers/reddit/__init__.py:799-866 | parsing fails iff no post element is found, and then with the not-found error. Otherwise the post's fields are the located element's post context, and its comments are those of the comment area at depth 0, or none without one. Every comment in the tree carries the post's id and sits at its nesting depth |
| PostAssembler.PostCommentsFromListing | src/webscrapers/reddit/__init__.py:836-848 | every top-level comment of a parsed post is the depth-0 parse of a comment thing directly inside the comment area, and every such thing that parses has its comment there |
| PostAssembler.FirstLink | src/webscrapers/reddit/__init__.py:816-822 | the fallback loop finds an element iff some element's class contains "link", and then it is the first such element |
| PostAssembler.ParseRedditPostHtml | src/webscrapers/reddit/__init__.py:799-866 | the primary lookup, the fallback scan with `break`, and the comment loop together return exactly `PostOf` |
| FlatIndex.WithParent | src/webscrapers/reddit/__init__.py:381-385 | each grouped comment has the requested parent; a group is no longer than the input |
| FlatIndex.WithParentAppend | src/webscrapers/reddit/__init__.py:381-385 | grouping distributes over concatenation, so relative input order is kept within each list |
| FlatIndex.WithParentCount | src/webscrapers/reddit/__init__.py:381-385 | each comment appears in the list of its own parent id exactly as often as in the input, and in no other list |
| FlatIndex.ParentIdsOf | src/webscrapers/reddit/__init__.py:381-385 | a parent id occurs in the input iff its list is non-empty |
| FlatIndex.WithParentSnoc | src/webscrapers/reddit/__init__.py:381-385 | one more comment extends its own parent's list by itself and leaves every other list unchanged |
| FlatIndex.ParentIdsSnoc | src/webscrapers/reddit/__init__.py:381-383 | one more comment adds its parent id to the keys and nothing else |
| FlatIndex.BuildCommentTree | src/webscrapers/reddit/__init__.py:366-387 | the keys are exactly the parent ids that occur, and each key maps to the comments with that parent, in input order |

## Left out

- Network and command-line code is not modelled: `download_page`,
  `scrape_post`, the `__main__` module, and logging (including the debug
  snippet). `scrape_frontpage` and `scrape_user_profile` are empty stubs.
- `urlparse` is not modelled. It is the parameter `parse`, and only the
  network location and path of its result are read.
- `urlparse`'s own `ValueError` is not modelled: `parse` is total. The
  source calls `urlparse` outside any `try`, so a network location with an
  unbalanced `[` or `]` makes `get_reddit_id_from_url` raise `ValueError`
  instead of one of the scraper's errors.
- The selectolax HTML parser and CSS engine are not modelled. The page is
  given already parsed, with each element's selector matches recorded on
  it.
- A selectolax node is taken as truthy whenever it is present.
- `int()` and `datetime.fromisoformat` are opaque parameters (`Codecs`).
  Python's number and date grammars are not restated.
- Python's `str.lower()` is modelled on ASCII letters only.
  - This is exact for the ids the URL matchers return, which must be ASCII
    alphanumerics.
  - It is not exact for other non-ASCII text. The host check and
    `_extract_fullname_id` lower-case arbitrary text, so a non-ASCII
    upper-case letter there is kept as it is.
- FullnameId: not exact for a fullname with non-ASCII upper-case letters
  after the `_`. Python lower-cases those letters, and some of them change
  length (`İ`); the model keeps them unchanged.
- Python dicts keep key insertion order, but `FlatIndex.BuildCommentTree`
  returns a Dafny map, which has no key order. The order of comments
  inside each list is modelled.
- The pydantic `frozen` configuration is not modelled. Records are
  immutable datatypes. Fields the parser never sets (`content_markdown`,
  `edited`) are not part of the records.
- ClassifierExamples.ParsesStandardPostUrl: the unit-test URLs are not
  parsed here. Each test is stated for any non-blank URL that `urlparse`
  splits into the test's network location and path. The title slugs of
  permalinks are left free.
- The HTML unit tests depend on a saved page fixture, which is not part of
  this model. Their properties are stated for every page:
  - depth 0 at the top and depth + 1 below;
  - the post id threaded through the tree;
  - the `[deleted]` author;
  - the not-found error.
- The regex `$` anchor also accepts one trailing newline. This is modelled
  exactly (`IdPattern`), so an id followed by "\n" passes the id check, as
  it does in Python.
- The host check reads the network location up to its first ':'.
  `x.reddit.com:80@example.com` is therefore accepted, as in the source
  (`ClassifierExamples.UserInfoReadAsHost`).
