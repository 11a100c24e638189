/** The records the scraper produces (`RedditCommentData`,
    `RedditPostData`) and the foreign parsers it calls for scalars. */
module Records {
  import opened Wrappers

  /** What `datetime.fromisoformat` returns. */
  datatype DateTime = DateTime(
    year: int, month: int, day: int,
    hour: int, minute: int, second: int, microsecond: int,
    utcOffsetSeconds: Option<int>)

  /** Python's own parsers, taken as given: `datetime.fromisoformat` and
      `int()` on a string, each answering `None` where Python raises
      `ValueError`. */
  datatype Codecs = Codecs(
    fromIsoFormat: string -> Option<DateTime>,
    parseInt: string -> Option<int>)

  /** The values the parser stores in `distinguished`. */
  datatype Distinction = Moderator | Admin

  /** `RedditCommentData` as `_parse_comment_node` fills it in. */
  datatype Comment = Comment(
    commentId: Option<string>,
    postId: Option<string>,
    parentId: Option<string>,
    author: Option<string>,
    datePosted: Option<DateTime>,
    contentHtml: Option<string>,
    contentText: Option<string>,
    score: Option<int>,
    deleted: bool,
    removed: bool,
    isSubmitter: bool,
    distinguished: Option<Distinction>,
    stickied: bool,
    permalink: Option<string>,
    depth: nat,
    children: seq<Comment>)

  /** `RedditPostData` */
  datatype Post = Post(
    postId: Option<string>,
    title: Option<string>,
    author: Option<string>,
    subreddit: Option<string>,
    score: Option<int>,
    url: Option<string>,
    permalink: Option<string>,
    contentHtml: Option<string>,
    datePosted: Option<DateTime>,
    numComments: Option<int>,
    isNsfw: bool,
    isSpoiler: bool,
    domain: Option<string>,
    flair: Option<string>,
    comments: seq<Comment>)
}
