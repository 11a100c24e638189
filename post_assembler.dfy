/** `parse_reddit_post_html`: find the post element of a parsed page, read
    the post's fields from it, and parse the top-level comments of the
    page's comment listing. */
module PostAssembler {
  import opened Wrappers
  import opened PyStr
  import opened Markup
  import opened Records
  import opened Errors
  import opened Fields
  import opened CommentTree

  /** Position of the first element whose class string contains "link",
      or `|es|` when there is none. */
  function FirstLinkIndex(es: seq<Element>): (k: nat)
    ensures k <= |es|
    ensures k < |es| ==> Contains(ClassOf(es[k]), "link")
    ensures forall j :: 0 <= j < k ==> !Contains(ClassOf(es[j]), "link")
  {
    if es == [] then 0
    else if Contains(ClassOf(es[0]), "link") then 0
    else 1 + FirstLinkIndex(es[1..])
  }

  /** The post element: the first `div.thing.link` when there is one,
      otherwise the first `div.thing` whose class string contains "link",
      otherwise nothing. */
  function LocatePost(doc: Element): (r: Option<Element>)
    ensures CssFirst(doc, ThingLinkDiv).Some? ==> r == CssFirst(doc, ThingLinkDiv)
    ensures r.None? <==>
      CssFirst(doc, ThingLinkDiv).None? && forall e :: e in CssAll(doc, ThingDiv) ==> !Contains(ClassOf(e), "link")
    ensures CssFirst(doc, ThingLinkDiv).None? && r.Some? ==>
      r.value in CssAll(doc, ThingDiv) && Contains(ClassOf(r.value), "link")
    ensures CssFirst(doc, ThingLinkDiv).None? && r.Some? ==>
      r.value == CssAll(doc, ThingDiv)[FirstLinkIndex(CssAll(doc, ThingDiv))]
  {
    match CssFirst(doc, ThingLinkDiv)
    case Some(p) => Some(p)
    case None =>
      var things := CssAll(doc, ThingDiv);
      var k := FirstLinkIndex(things);
      if k < |things| then Some(things[k]) else None
  }

  /** The top-level comments: those of the page's nested listing, at
      depth 0; none when the page has no comment listing. */
  function TopLevelComments(doc: Element, postId: Option<string>, codecs: Codecs): (r: seq<Comment>)
    ensures CssFirst(doc, NestedListing).None? ==> r == []
    ensures CssFirst(doc, NestedListing).Some? ==> r == CommentsIn(CssFirst(doc, NestedListing).value, postId, 0, codecs)
    ensures Threaded(r, postId, 0)
  {
    match CssFirst(doc, NestedListing)
    case Some(area) =>
      CommentsInThreaded(area, postId, 0, codecs);
      CommentsIn(area, postId, 0, codecs)
    case None => []
  }

  /** The `RedditPostData` built from a post context and its comments. */
  function AssemblePost(ctx: PostContext, comments: seq<Comment>): Post {
    Post(
      ctx.postId, ctx.title, ctx.author, ctx.subreddit, ctx.score, ctx.url,
      ctx.permalink, ctx.contentHtml, ctx.datePosted, ctx.numComments,
      ctx.isNsfw, ctx.isSpoiler, ctx.domain, ctx.flair, comments)
  }

  /** `parse_reddit_post_html`: fails with "Could not find post element"
      exactly when no post element is found; otherwise the post's fields
      are the located element's post context, its comments are those of
      the page's comment listing, and every comment of the tree carries the
      post's id and sits at its nesting depth, starting from 0. */
  function PostOf(doc: Element, codecs: Codecs): (r: Result<Post, ScraperError>)
    ensures r.Failure? <==> LocatePost(doc).None?
    ensures r.Failure? ==> r.error == PostNotFound
    ensures r.Success? ==> r.value.postId == FullnameId(Attr(LocatePost(doc).value, "data-fullname"))
    ensures r.Success? ==> Threaded(r.value.comments, r.value.postId, 0)
    ensures r.Success? && CssFirst(doc, NestedListing).None? ==> r.value.comments == []
    ensures r.Success? && CssFirst(doc, NestedListing).Some? ==>
      r.value.comments == CommentsIn(CssFirst(doc, NestedListing).value, r.value.postId, 0, codecs)
    ensures r.Success? ==> r.value == AssemblePost(BuildPostContext(LocatePost(doc).value, codecs), r.value.comments)
  {
    match LocatePost(doc)
    case None => Failure(PostNotFound)
    case Some(post) =>
      var ctx := BuildPostContext(post, codecs);
      Success(AssemblePost(ctx, TopLevelComments(doc, ctx.postId, codecs)))
  }

  /** The top-level comments of a parsed post are the parses, at depth 0,
      of the comment things directly inside the page's comment listing:
      every one that parses is there, and nothing else is. */
  lemma PostCommentsFromListing(doc: Element, codecs: Codecs)
    requires PostOf(doc, codecs).Success? && CssFirst(doc, NestedListing).Some?
    ensures var post := PostOf(doc, codecs).value;
      var area := CssFirst(doc, NestedListing).value;
      && (forall c :: c in post.comments ==>
            exists x :: x in area.children && IsCommentThing(x) && CommentOf(x, post.postId, 0, codecs) == Some(c))
      && (forall x :: x in area.children && IsCommentThing(x) && CommentOf(x, post.postId, 0, codecs).Some? ==>
            CommentOf(x, post.postId, 0, codecs).value in post.comments)
  {
    var post := PostOf(doc, codecs).value;
    var area := CssFirst(doc, NestedListing).value;
    forall c | c in post.comments
      ensures exists x :: x in area.children && IsCommentThing(x) && CommentOf(x, post.postId, 0, codecs) == Some(c)
    {
      CommentsInSound(area, post.postId, 0, codecs, c);
    }
    forall x | x in area.children && IsCommentThing(x) && CommentOf(x, post.postId, 0, codecs).Some?
      ensures CommentOf(x, post.postId, 0, codecs).value in post.comments
    {
      CommentsInComplete(area, post.postId, 0, codecs, x);
    }
  }

  /** The fallback scan of `parse_reddit_post_html`: the first element
      whose class string contains "link", stopping there. */
  method FirstLink(things: seq<Element>) returns (post: Option<Element>)
    ensures post.Some? <==> FirstLinkIndex(things) < |things|
    ensures post.Some? ==> post.value == things[FirstLinkIndex(things)]
  {
    post := None;
    var i := 0;
    while i < |things|
      invariant 0 <= i <= |things|
      invariant forall j :: 0 <= j < i ==> !Contains(ClassOf(things[j]), "link")
    {
      var classes := ClassOf(things[i]);
      if Contains(classes, "link") {
        assert i == FirstLinkIndex(things);
        return Some(things[i]);
      }
      i := i + 1;
    }
    assert FirstLinkIndex(things) == |things|;
  }

  /** `parse_reddit_post_html`, step by step: the primary lookup, the
      fallback scan, then the loop over the top-level comments. */
  method ParseRedditPostHtml(doc: Element, codecs: Codecs) returns (r: Result<Post, ScraperError>)
    ensures r == PostOf(doc, codecs)
  {
    var postNode := CssFirst(doc, ThingLinkDiv);
    if postNode.None? {
      postNode := FirstLink(CssAll(doc, ThingDiv));
    }
    if postNode.None? {
      return Failure(PostNotFound);
    }
    var ctx := BuildPostContext(postNode.value, codecs);
    var comments: seq<Comment> := [];
    var commentArea := CssFirst(doc, NestedListing);
    if commentArea.Some? {
      comments := ParseComments(commentArea.value, ctx.postId, 0, codecs);
    }
    r := Success(AssemblePost(ctx, comments));
  }
}
