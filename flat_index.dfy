/** `build_comment_tree`: group a flat list of comments by `parent_id`.
    Each key is a parent id that occurs in the input (`None` for top-level
    comments) and maps to the comments with that parent, in input order. */
module FlatIndex {
  import opened Wrappers
  import opened Records

  /** The comments of `cs` whose parent is `p`, in order. */
  function WithParent(cs: seq<Comment>, p: Option<string>): (r: seq<Comment>)
    ensures |r| <= |cs|
    ensures forall i :: 0 <= i < |r| ==> r[i].parentId == p
  {
    if cs == [] then []
    else (if cs[0].parentId == p then [cs[0]] else []) + WithParent(cs[1..], p)
  }

  /** The parent ids that occur in `cs`. */
  function ParentIds(cs: seq<Comment>): set<Option<string>> {
    set c | c in cs :: c.parentId
  }

  /** Grouping keeps input order: it distributes over concatenation, so
      every comment of an earlier part comes before every comment of a
      later part in its list. */
  lemma {:induction false} WithParentAppend(a: seq<Comment>, b: seq<Comment>, p: Option<string>)
    ensures WithParent(a + b, p) == WithParent(a, p) + WithParent(b, p)
  {
    if a == [] {
      assert a + b == b;
    } else {
      assert (a + b)[0] == a[0];
      assert (a + b)[1..] == a[1..] + b;
      WithParentAppend(a[1..], b, p);
    }
  }

  /** Each comment lands in the list of its own parent as often as it
      occurs in the input, and in no other list. */
  lemma {:induction false} WithParentCount(cs: seq<Comment>, p: Option<string>, c: Comment)
    ensures multiset(WithParent(cs, p))[c] == if c.parentId == p then multiset(cs)[c] else 0
  {
    if cs != [] {
      var head := if cs[0].parentId == p then [cs[0]] else [];
      WithParentCount(cs[1..], p, c);
      assert cs == [cs[0]] + cs[1..];
      assert multiset(cs) == multiset([cs[0]]) + multiset(cs[1..]);
      assert multiset(WithParent(cs, p)) == multiset(head) + multiset(WithParent(cs[1..], p));
    }
  }

  /** A comment's own parent id is a key, and only those occur. */
  lemma ParentIdsOf(cs: seq<Comment>, p: Option<string>)
    ensures p in ParentIds(cs) <==> WithParent(cs, p) != []
  {
    if p in ParentIds(cs) {
      var c :| c in cs && c.parentId == p;
      WithParentCount(cs, p, c);
      assert multiset(WithParent(cs, p))[c] > 0;
    }
  }

  /** Appending a comment adds it to its parent's list only. */
  lemma WithParentSnoc(cs: seq<Comment>, c: Comment, p: Option<string>)
    ensures WithParent(cs + [c], p) == WithParent(cs, p) + (if c.parentId == p then [c] else [])
  {
    WithParentAppend(cs, [c], p);
    assert [c][1..] == [];
  }

  /** Appending a comment adds its parent id to the keys. */
  lemma ParentIdsSnoc(cs: seq<Comment>, c: Comment)
    ensures ParentIds(cs + [c]) == ParentIds(cs) + {c.parentId}
  {
    assert c in cs + [c];
    forall q | q in ParentIds(cs + [c]) ensures q in ParentIds(cs) + {c.parentId} {
      var d :| d in cs + [c] && d.parentId == q;
      if d != c {
        assert d in cs;
      }
    }
  }

  /** `build_comment_tree`: one pass over the comments, creating a key on
      its first sight and appending. */
  method BuildCommentTree(comments: seq<Comment>) returns (tree: map<Option<string>, seq<Comment>>)
    ensures tree.Keys == ParentIds(comments)
    ensures forall p :: p in tree ==> tree[p] == WithParent(comments, p)
  {
    tree := map[];
    var i := 0;
    while i < |comments|
      invariant 0 <= i <= |comments|
      invariant tree.Keys == ParentIds(comments[..i])
      invariant forall p :: p in tree ==> tree[p] == WithParent(comments[..i], p)
    {
      var comment := comments[i];
      var parent := comment.parentId;
      ghost var seen := comments[..i];
      assert comments[..i + 1] == seen + [comment];
      ParentIdsSnoc(seen, comment);
      forall p {
        WithParentSnoc(seen, comment, p);
      }
      var siblings: seq<Comment> := [];
      if parent in tree {
        siblings := tree[parent];
      } else {
        ParentIdsOf(seen, parent);
      }
      tree := tree[parent := siblings + [comment]];
      i := i + 1;
    }
    assert comments[..i] == comments;
  }
}
