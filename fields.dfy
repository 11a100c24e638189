/** The scalar helpers that turn one element of the page into the fields of
    a comment or a post: whitespace normalisation, fullname ids, parent
    links, the body and its `[deleted]`/`[removed]` sentinels, the author
    fallbacks, moderator/admin marks and the numeric and date attributes. */
module Fields {
  import opened Wrappers
  import opened PyStr
  import opened Markup
  import opened Records

  /* ---------------------------------------------------------------- text */

  /** `_normalize_text`: `" ".join(text.split())` on a present text. The
      result has no whitespace at either end, no two whitespace characters
      side by side, no whitespace other than single spaces, and keeps every
      other character of the input in order, split into the same words. */
  function NormalizeText(text: Option<string>): (r: Option<string>)
    ensures r.Some? <==> text.Some?
    ensures r.Some? ==> Squeezed(r.value, Whitespace)
    ensures r.Some? ==> forall i :: 0 <= i < |r.value| && r.value[i] in Whitespace ==> r.value[i] == ' '
    ensures r.Some? ==> Drop(r.value, Whitespace) == Drop(text.value, Whitespace)
    ensures r.Some? ==> Tokens(r.value, Whitespace) == Tokens(text.value, Whitespace)
  {
    match text
    case None => None
    case Some(t) =>
      var words := Tokens(t, Whitespace);
      JoinSqueezed(words, ' ', Whitespace);
      FlattenTokens(t, Whitespace);
      DropJoin(words, ' ', Whitespace);
      TokensOfJoin(words, ' ', Whitespace);
      Some(Join(words, ' '))
  }

  /** Normalising twice is normalising once. */
  lemma NormalizeTextIdempotent(text: Option<string>)
    ensures NormalizeText(NormalizeText(text)) == NormalizeText(text)
  {
    if text.Some? {
      TokensOfJoin(Tokens(text.value, Whitespace), ' ', Whitespace);
    }
  }

  /* ------------------------------------------------------------- fullname */

  /** `_extract_fullname_id`: the text after the first `_` of a fullname
      such as `t1_abc123`, lower-cased; absent when the fullname is
      missing, empty or has no `_`. */
  function FullnameId(fullname: Option<string>): (r: Option<string>)
    ensures r.Some? <==> fullname.Some? && '_' in fullname.value
    ensures r.Some? ==> |r.value| < |fullname.value|
    ensures r.Some? ==> r.value == Lower(fullname.value[|fullname.value| - |r.value|..])
  {
    match fullname
    case None => None
    case Some(f) =>
      if f == [] then None
      else
        match AfterFirst(f, '_')
        case None => None
        case Some(rest) =>
          assert f == BeforeFirst(f, '_') + ['_'] + rest;
          assert f[|f| - |rest|..] == rest;
          Some(Lower(rest))
  }

  /** A fullname made of a type prefix without `_`, a `_` and an id gives
      back the id, lower-cased. */
  lemma FullnameIdOfPrefixed(kind: string, id: string)
    requires '_' !in kind
    ensures FullnameId(Some(kind + "_" + id)) == Some(Lower(id))
  {
    var f := kind + "_" + id;
    assert f == kind + ("_" + id);
    BeforeFirstStopsAtSep(kind, "_" + id, '_');
    var rest := AfterFirst(f, '_').value;
    assert f == kind + ['_'] + rest;
    assert rest == f[|kind| + 1..] == id;
  }

  /* ----------------------------------------------------------- parent id */

  /** The parent id carried by the `href` of a comment's parent link: the
      text after a leading `#`, and nothing when the link is missing,
      empty or does not start with `#`. */
  function ParentIdFromHref(href: Option<string>): (r: Option<string>)
    ensures r.Some? <==> href.Some? && StartsWith(href.value, "#")
    ensures r.Some? ==> href.value == "#" + r.value
  {
    match href
    case Some(h) => if h != [] && StartsWith(h, "#") then Some(h[1..]) else None
    case None => None
  }

  /** `_extract_parent_id`: present exactly when the entry has a parent
      link whose `href` starts with `#`, and then the rest of the `href`. */
  function ParentIdOf(entry: Element): (r: Option<string>)
    ensures r.Some? <==>
      CssFirst(entry, ParentLink).Some? && Attr(CssFirst(entry, ParentLink).value, "href").Some? &&
      StartsWith(Attr(CssFirst(entry, ParentLink).value, "href").value, "#")
    ensures r.Some? ==> Attr(CssFirst(entry, ParentLink).value, "href") == Some("#" + r.value)
  {
    match CssFirst(entry, ParentLink)
    case Some(link) => ParentIdFromHref(Attr(link, "href"))
    case None => None
  }

  /* ---------------------------------------------------------------- body */

  /** The stripped text of a comment's markdown body, when it has one. */
  function BodyText(entry: Element): Option<string> {
    match CssFirst(entry, BodyMarkdown)
    case Some(md) => Some(StrippedText(md))
    case None => None
  }

  /** What `_extract_comment_content` returns. */
  datatype Content = Content(html: Option<string>, text: Option<string>, deleted: bool, removed: bool)

  /** `_extract_comment_content`: the body's markup and stripped text, and
      whether the text is exactly one of the two sentinels Reddit leaves in
      place of a deleted or removed body. */
  function CommentContent(entry: Element): (r: Content)
    ensures r.text == BodyText(entry)
    ensures r.html.Some? <==> r.text.Some?
    ensures r.html.Some? ==> r.html.value == CssFirst(entry, BodyMarkdown).value.html
    ensures r.deleted <==> r.text == Some("[deleted]")
    ensures r.removed <==> r.text == Some("[removed]")
  {
    match CssFirst(entry, BodyMarkdown)
    case None => Content(None, None, false, false)
    case Some(md) =>
      var text := StrippedText(md);
      Content(Some(md.html), Some(text), text == "[deleted]", text == "[removed]")
  }

  /** The two sentinels differ, so no body is both deleted and removed. */
  lemma ContentNotDeletedAndRemoved(entry: Element)
    ensures !(CommentContent(entry).deleted && CommentContent(entry).removed)
  {
    var t := BodyText(entry);
    if t.Some? && t.value == "[deleted]" {
      SentinelsDiffer(t.value, "[removed]");
    }
  }

  lemma SentinelsDiffer(deleted: string, removed: string)
    requires deleted == "[deleted]" && removed == "[removed]"
    ensures deleted != removed
  {
    assert deleted[1] == 'd' && removed[1] == 'r';
  }

  /* -------------------------------------------------------------- author */

  /** `tagline and "[deleted]" in tagline.text()`: there is a tagline and
      `[deleted]` occurs at some position of its text. */
  predicate TaglineSaysDeleted(e: Element)
    ensures TaglineSaysDeleted(e) <==>
      CssFirst(e, Tagline).Some? && exists i :: 0 <= i && OccursAt(Text(CssFirst(e, Tagline).value), "[deleted]", i)
  {
    match CssFirst(e, Tagline)
    case Some(tagline) =>
      ContainsAt(Text(tagline), "[deleted]");
      Contains(Text(tagline), "[deleted]")
    case None => false
  }

  /** `_extract_comment_author`: the author link's text when there is one;
      otherwise `[deleted]` when the tagline or the deletion flag says so,
      and nothing else. */
  function CommentAuthor(entry: Element, isDeleted: bool): (r: Option<string>)
    ensures CssFirst(entry, AuthorLink).Some? ==> r == Some(StrippedText(CssFirst(entry, AuthorLink).value))
    ensures CssFirst(entry, AuthorLink).None? ==> (r.Some? <==> TaglineSaysDeleted(entry) || isDeleted)
    ensures CssFirst(entry, AuthorLink).None? && r.Some? ==> r.value == "[deleted]"
  {
    match CssFirst(entry, AuthorLink)
    case Some(link) => Some(StrippedText(link))
    case None => if TaglineSaysDeleted(entry) || isDeleted then Some("[deleted]") else None
  }

  /** `_extract_post_author`: as for a comment, but the author link is
      looked up inside the tagline and there is no deletion flag. */
  function PostAuthor(post: Element): (r: Option<string>)
    ensures CssFirst(post, TaglineAuthor).Some? ==> r == Some(StrippedText(CssFirst(post, TaglineAuthor).value))
    ensures CssFirst(post, TaglineAuthor).None? ==> (r.Some? <==> TaglineSaysDeleted(post))
    ensures CssFirst(post, TaglineAuthor).None? && r.Some? ==> r.value == "[deleted]"
  {
    match CssFirst(post, TaglineAuthor)
    case Some(link) => Some(StrippedText(link))
    case None => if TaglineSaysDeleted(post) then Some("[deleted]") else None
  }

  /* ------------------------------------------------------------ metadata */

  /** The distinction read off a comment's class string: "moderator" is
      looked for before "admin", each as a substring. */
  function Distinguished(cls: string): (r: Option<Distinction>)
    ensures r == Some(Moderator) <==> Contains(cls, "moderator")
    ensures r == Some(Admin) <==> !Contains(cls, "moderator") && Contains(cls, "admin")
    ensures r == None <==> !Contains(cls, "moderator") && !Contains(cls, "admin")
  {
    if Contains(cls, "moderator") then Some(Moderator)
    else if Contains(cls, "admin") then Some(Admin)
    else None
  }

  /** What `_extract_comment_metadata` returns. */
  datatype Metadata = Metadata(distinguished: Option<Distinction>, permalink: Option<string>, stickied: bool)

  /** `_extract_comment_metadata` */
  function CommentMetadata(node: Element, entry: Element): (r: Metadata)
    ensures r.distinguished == Distinguished(ClassOf(node))
    ensures r.stickied <==> Contains(ClassOf(node), "stickied")
    ensures r.permalink.Some? ==> CssFirst(entry, PermalinkLink).Some?
    ensures CssFirst(entry, PermalinkLink).Some? ==> r.permalink == Attr(CssFirst(entry, PermalinkLink).value, "href")
  {
    var cls := ClassOf(node);
    var permalink :=
      match CssFirst(entry, PermalinkLink)
      case Some(link) => Attr(link, "href")
      case None => None;
    Metadata(Distinguished(cls), permalink, Contains(cls, "stickied"))
  }

  /* ------------------------------------------------ numbers and timestamps */

  /** An attribute handed to one of Python's parsers, as `_parse_score`,
      `_parse_timestamp` and `_extract_post_num_comments` do: a missing
      element, a missing or empty attribute and a parser failure all give
      nothing. */
  function ParsedAttr<T>(e: Option<Element>, name: string, parse: string -> Option<T>): (r: Option<T>)
    ensures e.None? || Attr(e.value, name).None? || Attr(e.value, name) == Some("") ==> r.None?
    ensures e.Some? && Attr(e.value, name).Some? && Attr(e.value, name) != Some("") ==> r == parse(Attr(e.value, name).value)
  {
    match e
    case None => None
    case Some(el) =>
      match Attr(el, name)
      case Some(v) => if v != [] then parse(v) else None
      case None => None
  }

  /** `_parse_score`: `int()` of the `title` attribute; nothing without an
      element or with a missing or empty attribute. */
  function ParseScore(e: Option<Element>, codecs: Codecs): (r: Option<int>)
    ensures e.None? || Attr(e.value, "title").None? || Attr(e.value, "title") == Some("") ==> r.None?
    ensures e.Some? && Attr(e.value, "title").Some? && Attr(e.value, "title") != Some("") ==>
      r == codecs.parseInt(Attr(e.value, "title").value)
  {
    ParsedAttr(e, "title", codecs.parseInt)
  }

  /** `_parse_timestamp`: `datetime.fromisoformat` of the `datetime`
      attribute; nothing without an element or with a missing or empty
      attribute. */
  function ParseTimestamp(e: Option<Element>, codecs: Codecs): (r: Option<DateTime>)
    ensures e.None? || Attr(e.value, "datetime").None? || Attr(e.value, "datetime") == Some("") ==> r.None?
    ensures e.Some? && Attr(e.value, "datetime").Some? && Attr(e.value, "datetime") != Some("") ==>
      r == codecs.fromIsoFormat(Attr(e.value, "datetime").value)
  {
    ParsedAttr(e, "datetime", codecs.fromIsoFormat)
  }

  /** `_extract_post_num_comments`: `int()` of `data-comments-count`;
      nothing when the attribute is missing or empty. */
  function PostNumComments(post: Element, codecs: Codecs): (r: Option<int>)
    ensures Attr(post, "data-comments-count").None? || Attr(post, "data-comments-count") == Some("") ==> r.None?
    ensures Attr(post, "data-comments-count").Some? && Attr(post, "data-comments-count") != Some("") ==>
      r == codecs.parseInt(Attr(post, "data-comments-count").value)
  {
    ParsedAttr(Some(post), "data-comments-count", codecs.parseInt)
  }

  /* ------------------------------------------------------ comment context */

  /** `_CommentParseContext` */
  datatype CommentContext = CommentContext(
    commentId: string,
    author: Option<string>,
    score: Option<int>,
    datePosted: Option<DateTime>,
    contentHtml: Option<string>,
    contentText: Option<string>,
    permalink: Option<string>,
    parentId: Option<string>,
    deleted: bool,
    removed: bool,
    isSubmitter: bool,
    distinguished: Option<Distinction>,
    stickied: bool)

  /** The node's `data-fullname` yields a non-empty id. */
  predicate HasCommentId(node: Element) {
    var id := FullnameId(Attr(node, "data-fullname"));
    id.Some? && id.value != []
  }

  /** `_build_comment_context`: nothing for a node without an id or without
      an entry; otherwise the comment's fields, where `deleted` is the
      class marker or the body sentinel, `removed` is the body sentinel, and
      a deleted comment without an author link is credited to `[deleted]`. */
  function BuildCommentContext(node: Element, codecs: Codecs): (r: Option<CommentContext>)
    ensures r.Some? <==> HasCommentId(node) && CssFirst(node, EntryDiv).Some?
    ensures r.Some? ==> Some(r.value.commentId) == FullnameId(Attr(node, "data-fullname"))
    ensures r.Some? ==>
      (r.value.deleted <==> Contains(ClassOf(node), "deleted") || BodyText(CssFirst(node, EntryDiv).value) == Some("[deleted]"))
    ensures r.Some? ==> (r.value.removed <==> BodyText(CssFirst(node, EntryDiv).value) == Some("[removed]"))
    ensures r.Some? && r.value.deleted && CssFirst(CssFirst(node, EntryDiv).value, AuthorLink).None? ==>
      r.value.author == Some("[deleted]")
    ensures r.Some? ==> (r.value.isSubmitter <==> Contains(ClassOf(node), "submitter"))
    ensures r.Some? ==> r.value.contentText == BodyText(CssFirst(node, EntryDiv).value)
    ensures r.Some? ==>
      var entry := CssFirst(node, EntryDiv).value;
      && r.value.author == CommentAuthor(entry, r.value.deleted)
      && r.value.score == ParseScore(CssFirst(entry, CommentScore), codecs)
      && r.value.datePosted == ParseTimestamp(CssFirst(entry, LiveTimestamp), codecs)
      && r.value.contentHtml == CommentContent(entry).html
      && r.value.parentId == ParentIdOf(entry)
      && r.value.permalink == CommentMetadata(node, entry).permalink
      && r.value.distinguished == Distinguished(ClassOf(node))
      && (r.value.stickied <==> Contains(ClassOf(node), "stickied"))
  {
    var commentId := FullnameId(Attr(node, "data-fullname"));
    if commentId.None? || commentId.value == [] then None
    else
      var cls := ClassOf(node);
      match CssFirst(node, EntryDiv)
      case None => None
      case Some(entry) =>
        var content := CommentContent(entry);
        var deleted := Contains(cls, "deleted") || content.deleted;
        var meta := CommentMetadata(node, entry);
        Some(CommentContext(
          commentId.value,
          CommentAuthor(entry, deleted),
          ParseScore(CssFirst(entry, CommentScore), codecs),
          ParseTimestamp(CssFirst(entry, LiveTimestamp), codecs),
          content.html,
          content.text,
          meta.permalink,
          ParentIdOf(entry),
          deleted,
          content.removed,
          Contains(cls, "submitter"),
          meta.distinguished,
          meta.stickied))
  }

  /* --------------------------------------------------------- post context */

  /** `_PostParseContext` */
  datatype PostContext = PostContext(
    postId: Option<string>,
    title: Option<string>,
    author: Option<string>,
    subreddit: Option<string>,
    score: Option<int>,
    url: Option<string>,
    permalink: Option<string>,
    contentHtml: Option<string>,
    datePosted: Option<DateTime>,
    numComments: Option<int>,
    isNsfw: bool,
    isSpoiler: bool,
    domain: Option<string>,
    flair: Option<string>)

  /** `_build_post_context`: the post's id from its fullname, a title with
      normalised whitespace exactly when there is a title link, flags that
      hold only for the attribute value `"true"`, and the remaining
      attributes and sub-elements as they are. */
  function BuildPostContext(post: Element, codecs: Codecs): (r: PostContext)
    ensures r.postId == FullnameId(Attr(post, "data-fullname"))
    ensures r.title.Some? <==> CssFirst(post, TitleLink).Some?
    ensures r.title == NormalizeText(if CssFirst(post, TitleLink).Some? then Some(StrippedText(CssFirst(post, TitleLink).value)) else None)
    ensures r.title.Some? ==> Squeezed(r.title.value, Whitespace)
    ensures r.title.Some? ==>
      forall i :: 0 <= i < |r.title.value| && r.title.value[i] in Whitespace ==> r.title.value[i] == ' '
    ensures r.title.Some? ==>
      Drop(r.title.value, Whitespace) == Drop(StrippedText(CssFirst(post, TitleLink).value), Whitespace)
    ensures r.title.Some? ==>
      Tokens(r.title.value, Whitespace) == Tokens(StrippedText(CssFirst(post, TitleLink).value), Whitespace)
    ensures r.author == PostAuthor(post)
    ensures r.subreddit == Attr(post, "data-subreddit") && r.url == Attr(post, "data-url")
    ensures r.permalink == Attr(post, "data-permalink") && r.domain == Attr(post, "data-domain")
    ensures r.score == ParseScore(CssFirst(post, PostScore), codecs)
    ensures r.datePosted == ParseTimestamp(CssFirst(post, LiveTimestamp), codecs)
    ensures r.numComments == PostNumComments(post, codecs)
    ensures r.isNsfw <==> Attr(post, "data-nsfw") == Some("true")
    ensures r.isSpoiler <==> Attr(post, "data-spoiler") == Some("true")
    ensures r.flair.Some? <==> CssFirst(post, FlairLabel).Some?
    ensures r.flair.Some? ==> r.flair.value == StrippedText(CssFirst(post, FlairLabel).value)
    ensures r.contentHtml.Some? <==> CssFirst(post, ExpandoMarkdown).Some?
    ensures r.contentHtml.Some? ==> r.contentHtml.value == CssFirst(post, ExpandoMarkdown).value.html
  {
    var titleText :=
      match CssFirst(post, TitleLink)
      case Some(t) => Some(StrippedText(t))
      case None => None;
    var flair :=
      match CssFirst(post, FlairLabel)
      case Some(f) => Some(StrippedText(f))
      case None => None;
    var contentHtml :=
      match CssFirst(post, ExpandoMarkdown)
      case Some(x) => Some(x.html)
      case None => None;
    PostContext(
      FullnameId(Attr(post, "data-fullname")),
      NormalizeText(titleText),
      PostAuthor(post),
      Attr(post, "data-subreddit"),
      ParseScore(CssFirst(post, PostScore), codecs),
      Attr(post, "data-url"),
      Attr(post, "data-permalink"),
      contentHtml,
      ParseTimestamp(CssFirst(post, LiveTimestamp), codecs),
      PostNumComments(post, codecs),
      Attr(post, "data-nsfw") == Some("true"),
      Attr(post, "data-spoiler") == Some("true"),
      Attr(post, "data-domain"),
      flair)
  }
}
