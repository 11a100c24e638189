/** The recursive comment builder: `_get_direct_comment_children`,
    `_parse_comment_node` and the record it assembles from a comment
    context. A comment's replies are the direct `thing comment` divs of its
    `div.child div.sitetable`, parsed one level deeper with the same post
    id; replies that do not parse are dropped. */
module CommentTree {
  import opened Wrappers
  import opened PyStr
  import opened Markup
  import opened Records
  import opened Fields

  /* ---------------------------------------------------- direct children */

  /** A `div` whose class string contains both "thing" and "comment". */
  predicate IsCommentThing(e: Element) {
    e.tag == "div" && Contains(ClassOf(e), "thing") && Contains(ClassOf(e), "comment")
  }

  /** The comment things among `es`, in order. */
  function CommentThings(es: seq<Element>): (r: seq<Element>)
    ensures |r| <= |es|
    ensures forall x :: x in r ==> x in es && IsCommentThing(x)
  {
    if es == [] then []
    else (if IsCommentThing(es[0]) then [es[0]] else []) + CommentThings(es[1..])
  }

  /** Every comment thing of `es` is kept. */
  lemma {:induction false} CommentThingsComplete(es: seq<Element>, x: Element)
    requires x in es && IsCommentThing(x)
    ensures x in CommentThings(es)
  {
    if es[0] != x {
      assert x in es[1..];
      CommentThingsComplete(es[1..], x);
    }
  }

  /** Filtering keeps document order: it distributes over concatenation. */
  lemma {:induction false} CommentThingsAppend(a: seq<Element>, b: seq<Element>)
    ensures CommentThings(a + b) == CommentThings(a) + CommentThings(b)
  {
    if a == [] {
      assert a + b == b;
    } else {
      assert (a + b)[1..] == a[1..] + b;
      CommentThingsAppend(a[1..], b);
    }
  }

  /** `_get_direct_comment_children`: walk the container's direct child
      elements and keep the comment things. */
  method DirectCommentChildren(container: Element) returns (kids: seq<Element>)
    ensures kids == CommentThings(container.children)
  {
    var children := container.children;
    kids := [];
    var i := 0;
    while i < |children|
      invariant 0 <= i <= |children|
      invariant kids == CommentThings(children[..i])
    {
      var child := children[i];
      assert children[..i + 1] == children[..i] + [child];
      CommentThingsAppend(children[..i], [child]);
      assert CommentThings([child]) == (if IsCommentThing(child) then [child] else []) by {
        assert [child][1..] == [];
      }
      if child.tag != "div" {
        i := i + 1;
        continue;
      }
      var classes := ClassOf(child);
      if Contains(classes, "thing") && Contains(classes, "comment") {
        kids := kids + [child];
      }
      i := i + 1;
    }
    assert children[..i] == children;
  }

  /* ------------------------------------------------------------- parsing */

  /** `data-type="morechildren"` marks a "load more comments" placeholder. */
  predicate IsMoreChildren(node: Element) {
    Attr(node, "data-type") == Some("morechildren")
  }

  /** The record `_parse_comment_node` returns for a parsed context. */
  function Assemble(ctx: CommentContext, postId: Option<string>, depth: nat, children: seq<Comment>): Comment {
    Comment(
      Some(ctx.commentId), postId, ctx.parentId, ctx.author, ctx.datePosted,
      ctx.contentHtml, ctx.contentText, ctx.score, ctx.deleted, ctx.removed,
      ctx.isSubmitter, ctx.distinguished, ctx.stickied, ctx.permalink,
      depth, children)
  }

  /** Every comment of the forest `cs` belongs to `postId` and sits at its
      nesting depth: `depth` at the top, one more at each level of replies. */
  predicate Threaded(cs: seq<Comment>, postId: Option<string>, depth: nat)
    decreases cs
  {
    forall i :: 0 <= i < |cs| ==>
      cs[i].depth == depth && cs[i].postId == postId && Threaded(cs[i].children, postId, depth + 1)
  }

  /** `_parse_comment_node(node, post_id, depth)`: nothing for a
      placeholder or a node without an id or entry; otherwise a comment at
      `depth` with `post_id`, which has no replies when it has no child
      container. Its fields are stated by `CommentOfFields` and the replies
      of a node with a child container by `CommentOfReplies`. */
  function CommentOf(node: Element, postId: Option<string>, depth: nat, codecs: Codecs): (r: Option<Comment>)
    ensures r.None? <==> IsMoreChildren(node) || !HasCommentId(node) || CssFirst(node, EntryDiv).None?
    ensures r.Some? ==> r.value.depth == depth && r.value.postId == postId
    ensures r.Some? && CssFirst(node, ChildSitetable).None? ==> r.value.children == []
    decreases node, 0
  {
    if IsMoreChildren(node) then None
    else
      match BuildCommentContext(node, codecs)
      case None => None
      case Some(ctx) =>
        var k := MatchIndex(node.matches, ChildSitetable);
        var children :=
          if k < |node.matches| then CommentsIn(node.matches[k].element, postId, depth + 1, codecs) else [];
        Some(Assemble(ctx, postId, depth, children))
  }

  /** The replies of a parsed comment with a child container are the
      comments of that container, one level deeper, in document order. */
  lemma CommentOfReplies(node: Element, postId: Option<string>, depth: nat, codecs: Codecs)
    requires CommentOf(node, postId, depth, codecs).Some? && CssFirst(node, ChildSitetable).Some?
    ensures CommentOf(node, postId, depth, codecs).value.children ==
      CommentsIn(CssFirst(node, ChildSitetable).value, postId, depth + 1, codecs)
  {
  }

  /** The fields of a parsed comment: they are the node's comment context;
      its id is the fullname's; the
      `removed` and `deleted` flags and the `[deleted]` author follow the
      body sentinels and the class marker; the distinction prefers
      moderator to admin; stickiness, the parent id and the linked author
      come from the node and its entry. */
  lemma CommentOfFields(node: Element, postId: Option<string>, depth: nat, codecs: Codecs)
    requires CommentOf(node, postId, depth, codecs).Some?
    ensures var c := CommentOf(node, postId, depth, codecs).value;
      var entry := CssFirst(node, EntryDiv).value;
      && c == Assemble(BuildCommentContext(node, codecs).value, postId, depth, c.children)
      && c.commentId == FullnameId(Attr(node, "data-fullname")) && c.commentId != Some("")
      && (c.removed <==> BodyText(entry) == Some("[removed]"))
      && (c.deleted <==> Contains(ClassOf(node), "deleted") || BodyText(entry) == Some("[deleted]"))
      && (c.deleted && CssFirst(entry, AuthorLink).None? ==> c.author == Some("[deleted]"))
      && (CssFirst(entry, AuthorLink).Some? ==> c.author == Some(StrippedText(CssFirst(entry, AuthorLink).value)))
      && (c.distinguished == Some(Moderator) <==> Contains(ClassOf(node), "moderator"))
      && (c.distinguished == Some(Admin) <==> !Contains(ClassOf(node), "moderator") && Contains(ClassOf(node), "admin"))
      && (c.stickied <==> Contains(ClassOf(node), "stickied"))
      && c.parentId == ParentIdOf(entry)
      && c.contentText == BodyText(entry)
  {
  }

  /** The comments in `container`: those of its direct comment things
      that parse, in document order. */
  function CommentsIn(container: Element, postId: Option<string>, depth: nat, codecs: Codecs): (r: seq<Comment>)
    ensures |r| <= |container.children|
    decreases container, 2
  {
    Kept(ReplyResults(container, postId, depth, codecs))
  }

  /** The parse result of each direct comment thing of `container`, in
      document order. */
  function ReplyResults(container: Element, postId: Option<string>, depth: nat, codecs: Codecs): (rs: seq<Option<Comment>>)
    ensures |rs| == |CommentThings(container.children)|
    ensures forall i :: 0 <= i < |rs| ==>
      var kid := CommentThings(container.children)[i];
      kid in container.children && rs[i] == CommentOf(kid, postId, depth, codecs)
    decreases container, 1
  {
    var kids := CommentThings(container.children);
    seq(|kids|, i requires 0 <= i < |kids| => assert kids[i] in container.children; CommentOf(kids[i], postId, depth, codecs))
  }

  /* ---------------------------------------------------- keeping results */

  /** What a parse result adds to a list: its comment, or nothing. */
  function Listed(r: Option<Comment>): seq<Comment> {
    match r
    case Some(c) => [c]
    case None => []
  }

  /** The comments of the results that parsed, in order: the
      `if comment: comments.append(comment)` of the parsing loops. */
  function Kept(rs: seq<Option<Comment>>): (r: seq<Comment>)
    ensures |r| <= |rs|
  {
    if rs == [] then [] else Listed(rs[0]) + Kept(rs[1..])
  }

  /** Keeping distributes over concatenation: document order is kept and
      dropped results leave no holes. */
  lemma {:induction false} KeptAppend(a: seq<Option<Comment>>, b: seq<Option<Comment>>)
    ensures Kept(a + b) == Kept(a) + Kept(b)
  {
    if a == [] {
      assert a + b == b;
    } else {
      assert (a + b)[0] == a[0];
      assert (a + b)[1..] == a[1..] + b;
      KeptAppend(a[1..], b);
    }
  }

  /** One more result kept: the comments of the first `i + 1` results are
      those of the first `i`, then result `i`'s. */
  lemma KeptPrefix(rs: seq<Option<Comment>>, i: nat)
    requires i < |rs|
    ensures Kept(rs[..i + 1]) == Kept(rs[..i]) + Listed(rs[i])
  {
    assert rs[..i + 1] == rs[..i] + [rs[i]];
    KeptAppend(rs[..i], [rs[i]]);
    assert [rs[i]][1..] == [];
  }

  /** A comment is kept exactly when some result is that comment. */
  lemma {:induction false} KeptMembers(rs: seq<Option<Comment>>, c: Comment)
    ensures c in Kept(rs) <==> exists i :: 0 <= i < |rs| && rs[i] == Some(c)
  {
    if rs != [] {
      KeptMembers(rs[1..], c);
      if c in Kept(rs[1..]) {
        var i :| 0 <= i < |rs[1..]| && rs[1..][i] == Some(c);
        assert rs[i + 1] == Some(c);
      }
      if exists i :: 0 <= i < |rs| && rs[i] == Some(c) {
        var i :| 0 <= i < |rs| && rs[i] == Some(c);
        if i > 0 {
          assert rs[1..][i - 1] == Some(c);
        }
      }
    }
  }

  /** Exactly the results that parsed contribute a comment. */
  lemma {:induction false} KeptCount(rs: seq<Option<Comment>>)
    ensures |Kept(rs)| == |set i | 0 <= i < |rs| && rs[i].Some?|
    decreases |rs|
  {
    if rs != [] {
      var init, last := rs[..|rs| - 1], rs[|rs| - 1];
      KeptCount(init);
      assert rs == init + [last];
      KeptAppend(init, [last]);
      assert Kept([last]) == Listed(last) by {
        assert [last][1..] == [];
      }
      var parsed := set i | 0 <= i < |rs| && rs[i].Some?;
      var before := set i | 0 <= i < |init| && init[i].Some?;
      if last.Some? {
        assert parsed == before + {|init|};
      } else {
        assert parsed == before;
      }
    }
  }

  /** Results all threaded at `depth` keep a threaded forest. */
  lemma {:induction false} KeptThreaded(rs: seq<Option<Comment>>, postId: Option<string>, depth: nat)
    requires forall i :: 0 <= i < |rs| && rs[i].Some? ==>
      rs[i].value.depth == depth && rs[i].value.postId == postId && Threaded(rs[i].value.children, postId, depth + 1)
    ensures Threaded(Kept(rs), postId, depth)
  {
    if rs != [] {
      KeptThreaded(rs[1..], postId, depth);
      var rest := Kept(rs[1..]);
      if rs[0].Some? {
        ThreadedCons(rs[0].value, rest, postId, depth);
      }
    }
  }

  /** A comment in place, followed by a threaded forest, is threaded. */
  lemma ThreadedCons(c: Comment, rest: seq<Comment>, postId: Option<string>, depth: nat)
    requires c.depth == depth && c.postId == postId && Threaded(c.children, postId, depth + 1)
    requires Threaded(rest, postId, depth)
    ensures Threaded([c] + rest, postId, depth)
  {
    var cs := [c] + rest;
    forall i | 0 <= i < |cs|
      ensures cs[i].depth == depth && cs[i].postId == postId && Threaded(cs[i].children, postId, depth + 1)
    {
      if i > 0 {
        assert cs[i] == rest[i - 1];
      }
    }
  }

  /* ----------------------------------------------- properties of parsing */

  /** A parsed comment's replies sit one level deeper than it, with the
      same post id, all the way down. */
  lemma {:induction false} CommentOfThreaded(node: Element, postId: Option<string>, depth: nat, codecs: Codecs)
    requires CommentOf(node, postId, depth, codecs).Some?
    ensures Threaded(CommentOf(node, postId, depth, codecs).value.children, postId, depth + 1)
    decreases node, 0
  {
    var k := MatchIndex(node.matches, ChildSitetable);
    if k < |node.matches| {
      CommentsInThreaded(node.matches[k].element, postId, depth + 1, codecs);
    }
  }

  /** The comments of a container all sit at `depth`, with `postId`, and
      so do their replies one level further down each time. */
  lemma {:induction false} CommentsInThreaded(container: Element, postId: Option<string>, depth: nat, codecs: Codecs)
    ensures Threaded(CommentsIn(container, postId, depth, codecs), postId, depth)
    decreases container, 1
  {
    var kids := CommentThings(container.children);
    var rs := ReplyResults(container, postId, depth, codecs);
    forall i | 0 <= i < |rs| && rs[i].Some?
      ensures Threaded(rs[i].value.children, postId, depth + 1)
    {
      assert kids[i] in container.children;
      CommentOfThreaded(kids[i], postId, depth, codecs);
    }
    KeptThreaded(rs, postId, depth);
  }

  /** Every comment in a container comes from one of its direct comment
      things. */
  lemma CommentsInSound(container: Element, postId: Option<string>, depth: nat, codecs: Codecs, c: Comment)
    requires c in CommentsIn(container, postId, depth, codecs)
    ensures exists x :: x in container.children && IsCommentThing(x) && CommentOf(x, postId, depth, codecs) == Some(c)
  {
    var kids := CommentThings(container.children);
    var rs := ReplyResults(container, postId, depth, codecs);
    KeptMembers(rs, c);
    var i :| 0 <= i < |rs| && rs[i] == Some(c);
    assert kids[i] in kids;
  }

  /** Every direct comment thing of a container that parses has its
      comment in the container's list. */
  lemma CommentsInComplete(container: Element, postId: Option<string>, depth: nat, codecs: Codecs, x: Element)
    requires x in container.children && IsCommentThing(x) && CommentOf(x, postId, depth, codecs).Some?
    ensures CommentOf(x, postId, depth, codecs).value in CommentsIn(container, postId, depth, codecs)
  {
    var kids := CommentThings(container.children);
    var rs := ReplyResults(container, postId, depth, codecs);
    CommentThingsComplete(container.children, x);
    var i :| 0 <= i < |kids| && kids[i] == x;
    KeptMembers(rs, CommentOf(x, postId, depth, codecs).value);
  }

  /* ------------------------------------------------------------- methods */

  /** `_parse_comment_node`: the same decisions, taken step by step. */
  method ParseCommentNode(node: Element, postId: Option<string>, depth: nat, codecs: Codecs) returns (r: Option<Comment>)
    ensures r == CommentOf(node, postId, depth, codecs)
    decreases node, 1
  {
    if IsMoreChildren(node) {
      return None;
    }
    var ctx := BuildCommentContext(node, codecs);
    if ctx.None? {
      return None;
    }
    var children: seq<Comment> := [];
    var k := MatchIndex(node.matches, ChildSitetable);
    if k < |node.matches| {
      children := ParseComments(node.matches[k].element, postId, depth + 1, codecs);
    }
    r := Some(Assemble(ctx.value, postId, depth, children));
  }

  /** The loop over a container's direct comment things that
      `_parse_comment_node` runs for replies and `parse_reddit_post_html`
      for top-level comments, keeping the comments that parse. */
  method ParseComments(container: Element, postId: Option<string>, depth: nat, codecs: Codecs) returns (comments: seq<Comment>)
    ensures comments == CommentsIn(container, postId, depth, codecs)
    decreases container, 0
  {
    var kids := DirectCommentChildren(container);
    ghost var results := ReplyResults(container, postId, depth, codecs);
    comments := [];
    var i := 0;
    while i < |kids|
      invariant 0 <= i <= |kids|
      invariant comments == Kept(results[..i])
    {
      assert kids[i] in container.children;
      var comment := ParseCommentNode(kids[i], postId, depth, codecs);
      KeptPrefix(results, i);
      if comment.Some? {
        comments := comments + [comment.value];
      }
      i := i + 1;
    }
    assert results[..i] == results;
  }
}
