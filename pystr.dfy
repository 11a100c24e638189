/** The parts of Python's `str` that the scraper relies on: `isspace`,
    `strip`, `lower`, `in`, `startswith`, `endswith`, `split` (with a
    separator and `maxsplit=1`, and without arguments) and `join`. */
module PyStr {
  import opened Wrappers

  /** Characters for which `str.isspace()` holds; `str.split()` and
      `str.strip()` without arguments split and strip at exactly these:
      tab to carriage return, the four information separators, space,
      next line, no-break space, ogham space mark, the en quad to hair
      space block, line and paragraph separators, narrow no-break space,
      medium mathematical space and ideographic space. */
  predicate IsSpace(c: char) {
    || '\t' <= c <= '\r'
    || '\U{1C}' <= c <= ' '
    || c == '\U{85}' || c == '\U{A0}' || c == '\U{1680}'
    || '\U{2000}' <= c <= '\U{200A}'
    || c == '\U{2028}' || c == '\U{2029}' || c == '\U{202F}' || c == '\U{205F}' || c == '\U{3000}'
  }

  /** The same characters as a set, for the splitting functions. */
  const Whitespace: set<char> := set c: char | '\t' <= c <= '\U{3000}' && IsSpace(c)

  /** `not s or not s.strip()`: empty, or nothing but whitespace. */
  predicate IsBlank(s: string) {
    forall i :: 0 <= i < |s| ==> IsSpace(s[i])
  }

  function StripLeft(s: string): (r: string)
    ensures |r| <= |s| && r == s[|s| - |r|..]
    ensures forall i :: 0 <= i < |s| - |r| ==> IsSpace(s[i])
    ensures r != [] ==> !IsSpace(r[0])
  {
    if s != [] && IsSpace(s[0]) then StripLeft(s[1..]) else s
  }

  function StripRight(s: string): (r: string)
    ensures |r| <= |s| && r == s[..|r|]
    ensures forall i :: |r| <= i < |s| ==> IsSpace(s[i])
    ensures r != [] ==> !IsSpace(r[|r| - 1])
  {
    if s != [] && IsSpace(s[|s| - 1]) then StripRight(s[..|s| - 1]) else s
  }

  /** `s.strip()` */
  function Strip(s: string): string {
    StripRight(StripLeft(s))
  }

  /** Stripping leaves nothing exactly when the string is blank, and
      otherwise leaves a string that starts and ends with a non-space. */
  lemma StripBlank(s: string)
    ensures Strip(s) == [] <==> IsBlank(s)
    ensures Strip(s) != [] ==> !IsSpace(Strip(s)[0]) && !IsSpace(Strip(s)[|Strip(s)| - 1])
  {
    var l := StripLeft(s);
    if l != [] {
      StripRightKeepsFirst(l);
      assert l[0] == s[|s| - |l|];
    }
  }

  /** Stripping the right end of a string that starts with a non-space
      keeps that first character. */
  lemma StripRightKeepsFirst(l: string)
    requires l != [] && !IsSpace(l[0])
    ensures StripRight(l) != [] && StripRight(l)[0] == l[0]
  {
  }

  predicate IsUpper(c: char) {
    'A' <= c <= 'Z'
  }

  function LowerChar(c: char): char {
    if IsUpper(c) then (c as int + 32) as char else c
  }

  /** `s.lower()`, on the ASCII letters; see README for the rest of Unicode. */
  function Lower(s: string): (r: string)
    ensures |r| == |s|
    ensures forall i :: 0 <= i < |r| ==> !IsUpper(r[i])
    ensures forall i :: 0 <= i < |s| && !IsUpper(s[i]) ==> r[i] == s[i]
  {
    seq(|s|, i requires 0 <= i < |s| => LowerChar(s[i]))
  }

  /** `s.startswith(p)` */
  predicate StartsWith(s: string, p: string) {
    |p| <= |s| && s[..|p|] == p
  }

  /** `s.endswith(p)` */
  predicate EndsWith(s: string, p: string) {
    |p| <= |s| && s[|s| - |p|..] == p
  }

  /** `sub in s` */
  predicate Contains(s: string, sub: string)
    decreases |s|
  {
    StartsWith(s, sub) || (s != [] && Contains(s[1..], sub))
  }

  /** `sub` occurs in `s` starting at position `i`. */
  predicate OccursAt(s: string, sub: string, i: int) {
    0 <= i && i + |sub| <= |s| && s[i..i + |sub|] == sub
  }

  /** `sub in s` holds exactly when `sub` occurs at some position of `s`. */
  lemma {:induction false} ContainsAt(s: string, sub: string)
    ensures Contains(s, sub) <==> exists i :: 0 <= i && OccursAt(s, sub, i)
    decreases |s|
  {
    if StartsWith(s, sub) {
      assert OccursAt(s, sub, 0);
    } else if s == [] {
      assert forall i :: 0 <= i && OccursAt(s, sub, i) ==> i == 0;
    } else {
      ContainsAt(s[1..], sub);
      forall i | 0 <= i && OccursAt(s[1..], sub, i) ensures OccursAt(s, sub, i + 1) {
        assert s[1..][i..i + |sub|] == s[i + 1..i + 1 + |sub|];
      }
      forall i | 1 <= i && OccursAt(s, sub, i) ensures OccursAt(s[1..], sub, i - 1) {
        assert s[1..][i - 1..i - 1 + |sub|] == s[i..i + |sub|];
      }
      assert !OccursAt(s, sub, 0);
    }
  }

  /** `s.split(c, maxsplit=1)[0]`: everything before the first `c`. */
  function BeforeFirst(s: string, c: char): (r: string)
    ensures |r| <= |s| && r == s[..|r|]
    ensures c !in r
    ensures |r| < |s| ==> s[|r|] == c
  {
    if s == [] || s[0] == c then [] else [s[0]] + BeforeFirst(s[1..], c)
  }

  /** The second part of `s.split(c, maxsplit=1)`, present exactly when the
      split yields two parts. */
  function AfterFirst(s: string, c: char): (r: Option<string>)
    ensures r.Some? <==> c in s
    ensures r.Some? ==> s == BeforeFirst(s, c) + [c] + r.value
  {
    if s == [] then None
    else if s[0] == c then Some(s[1..])
    else
      var r := AfterFirst(s[1..], c);
      assert c in s[1..] <==> c in s;
      r
  }

  /** A piece of a split: non-empty and free of separators. */
  predicate IsToken(w: string, seps: set<char>) {
    |w| > 0 && forall i :: 0 <= i < |w| ==> w[i] !in seps
  }

  /** Length of the run of non-separators that starts `s`. */
  function TokenLen(s: string, seps: set<char>): (n: nat)
    ensures n <= |s|
    ensures forall i :: 0 <= i < n ==> s[i] !in seps
    ensures n < |s| ==> s[n] in seps
  {
    if s == [] || s[0] in seps then 0 else 1 + TokenLen(s[1..], seps)
  }

  /** The non-empty pieces of `s` between separators:
      `[x for x in s.split(sep) if x]` when `seps == {sep}`, and `s.split()`
      when `seps` is `Whitespace`. */
  function Tokens(s: string, seps: set<char>): (ws: seq<string>)
    ensures forall k :: 0 <= k < |ws| ==> IsToken(ws[k], seps)
    decreases |s|
  {
    if s == [] then []
    else if s[0] in seps then Tokens(s[1..], seps)
    else
      var n := TokenLen(s, seps);
      [s[..n]] + Tokens(s[n..], seps)
  }

  /** `sep.join(ws)` */
  function Join(ws: seq<string>, sep: char): (r: string)
    ensures ws != [] ==> |r| >= |ws[0]| && r[..|ws[0]|] == ws[0]
  {
    if ws == [] then []
    else if |ws| == 1 then ws[0]
    else ws[0] + [sep] + Join(ws[1..], sep)
  }

  /** `"".join(ws)` */
  function Flatten(ws: seq<string>): string {
    if ws == [] then [] else ws[0] + Flatten(ws[1..])
  }

  /** The characters of `s` that are not separators, in order. */
  function Drop(s: string, seps: set<char>): (r: string)
    ensures |r| <= |s|
    ensures forall i :: 0 <= i < |r| ==> r[i] !in seps
  {
    if s == [] then [] else (if s[0] in seps then [] else [s[0]]) + Drop(s[1..], seps)
  }

  /** No separator at either end and no two separators side by side. */
  predicate Squeezed(s: string, seps: set<char>) {
    forall i :: 0 <= i < |s| && s[i] in seps ==> 0 < i < |s| - 1 && s[i - 1] !in seps && s[i + 1] !in seps
  }

  lemma {:induction false} DropAppend(a: string, b: string, seps: set<char>)
    ensures Drop(a + b, seps) == Drop(a, seps) + Drop(b, seps)
    decreases |a|
  {
    if a == [] {
      assert a + b == b;
    } else {
      assert (a + b)[0] == a[0];
      assert (a + b)[1..] == a[1..] + b;
      DropAppend(a[1..], b, seps);
    }
  }

  lemma {:induction false} DropNone(s: string, seps: set<char>)
    requires forall i :: 0 <= i < |s| ==> s[i] !in seps
    ensures Drop(s, seps) == s
    decreases |s|
  {
    if s != [] {
      DropNone(s[1..], seps);
    }
  }

  /** A token ends where the first separator after it stands. */
  lemma TokenLenOfTokenThenSep(w: string, rest: string, seps: set<char>)
    requires IsToken(w, seps)
    requires rest == [] || rest[0] in seps
    ensures TokenLen(w + rest, seps) == |w|
  {
    var s := w + rest;
    assert forall i :: 0 <= i < |w| ==> s[i] == w[i];
    assert rest != [] ==> s[|w|] == rest[0];
  }

  lemma {:induction false} TokenLenThenSep(s: string, c: char, seps: set<char>)
    requires c in seps
    ensures TokenLen(s + [c], seps) == TokenLen(s, seps)
  {
    var n := TokenLen(s, seps);
    assert forall i :: 0 <= i < |s| ==> (s + [c])[i] == s[i];
    assert (s + [c])[|s|] == c;
  }

  /** A trailing separator adds no token. */
  lemma {:induction false} TokensTrailingSep(s: string, c: char, seps: set<char>)
    requires c in seps
    ensures Tokens(s + [c], seps) == Tokens(s, seps)
    decreases |s|
  {
    if s == [] {
      assert [c][1..] == [];
    } else if s[0] in seps {
      assert (s + [c])[1..] == s[1..] + [c];
      TokensTrailingSep(s[1..], c, seps);
    } else {
      var n := TokenLen(s, seps);
      TokenLenThenSep(s, c, seps);
      assert (s + [c])[..n] == s[..n];
      assert (s + [c])[n..] == s[n..] + [c];
      TokensTrailingSep(s[n..], c, seps);
    }
  }

  /** The first token of `s` is unchanged by what follows a separator in `s`. */
  lemma TokenLenPrefix(a: string, b: string, seps: set<char>)
    requires TokenLen(a, seps) < |a|
    ensures TokenLen(a + b, seps) == TokenLen(a, seps)
  {
    var n := TokenLen(a, seps);
    assert forall i :: 0 <= i <= n ==> (a + b)[i] == a[i];
  }

  /** Splitting distributes over a concatenation whose seam is a separator. */
  lemma {:induction false} TokensAppend(a: string, b: string, seps: set<char>)
    requires (a != [] && a[|a| - 1] in seps) || (b != [] && b[0] in seps)
    ensures Tokens(a + b, seps) == Tokens(a, seps) + Tokens(b, seps)
    decreases |a|
  {
    if a == [] {
      assert a + b == b;
    } else if a[0] in seps {
      TokensSkipSep(a, b, seps);
      if a[1..] == [] {
        assert a[1..] + b == b;
      } else {
        assert a[1..][|a[1..]| - 1] == a[|a| - 1];
        TokensAppend(a[1..], b, seps);
      }
    } else if TokenLen(a, seps) < |a| {
      var n := TokenLen(a, seps);
      TokensFirstWord(a, b, seps);
      assert a[n..][|a[n..]| - 1] == a[|a| - 1];
      TokensAppend(a[n..], b, seps);
      var w, x, y := [a[..n]], Tokens(a[n..], seps), Tokens(b, seps);
      assert w + (x + y) == (w + x) + y;
    } else {
      TokensWholeWord(a, b, seps);
    }
  }

  /** A leading separator of the left part is skipped on both sides. */
  lemma TokensSkipSep(a: string, b: string, seps: set<char>)
    requires a != [] && a[0] in seps
    ensures Tokens(a + b, seps) == Tokens(a[1..] + b, seps) && Tokens(a, seps) == Tokens(a[1..], seps)
  {
    assert (a + b)[0] == a[0];
    assert (a + b)[1..] == a[1..] + b;
  }

  /** A first word that ends inside the left part is cut the same way with
      or without the right part. */
  lemma TokensFirstWord(a: string, b: string, seps: set<char>)
    requires a != [] && a[0] !in seps && TokenLen(a, seps) < |a|
    ensures var n := TokenLen(a, seps);
      Tokens(a + b, seps) == [a[..n]] + Tokens(a[n..] + b, seps) && Tokens(a, seps) == [a[..n]] + Tokens(a[n..], seps)
  {
    var n := TokenLen(a, seps);
    assert (a + b)[0] == a[0];
    TokenLenPrefix(a, b, seps);
    assert (a + b)[..n] == a[..n];
    assert (a + b)[n..] == a[n..] + b;
  }

  /** A left part that is one word, followed by a separator, contributes
      that word. */
  lemma TokensWholeWord(a: string, b: string, seps: set<char>)
    requires a != [] && a[0] !in seps && TokenLen(a, seps) == |a|
    requires a[|a| - 1] in seps || (b != [] && b[0] in seps)
    ensures Tokens(a + b, seps) == Tokens(a, seps) + Tokens(b, seps)
  {
    var n := TokenLen(a, seps);
    assert (a + b)[0] == a[0];
    assert a[|a| - 1] !in seps;
    assert IsToken(a, seps);
    TokenLenOfTokenThenSep(a, b, seps);
    assert (a + b)[..n] == a;
    assert (a + b)[n..] == b;
    TokensOfToken(a, seps);
    assert Tokens(a + b, seps) == [a] + Tokens(b, seps);
  }

  /** A single token splits to itself. */
  lemma TokensOfToken(w: string, seps: set<char>)
    requires IsToken(w, seps)
    ensures Tokens(w, seps) == [w]
  {
    TokenLenOfTokenThenSep(w, [], seps);
    assert w + [] == w;
    assert w[|w|..] == [];
  }

  lemma LowerWithoutUpper(s: string)
    requires forall i :: 0 <= i < |s| ==> !IsUpper(s[i])
    ensures Lower(s) == s
  {
  }

  /** The part before the first `c` of `a + b`, when `b` starts with `c`
      and `a` has none, is `a`. */
  lemma {:induction false} BeforeFirstStopsAtSep(a: string, b: string, c: char)
    requires c !in a && b != [] && b[0] == c
    ensures BeforeFirst(a + b, c) == a
    decreases |a|
  {
    if a != [] {
      assert (a + b)[1..] == a[1..] + b;
      BeforeFirstStopsAtSep(a[1..], b, c);
    } else {
      assert a + b == b;
    }
  }

  lemma BeforeFirstAbsent(s: string, c: char)
    requires c !in s
    ensures BeforeFirst(s, c) == s
  {
    var r := BeforeFirst(s, c);
    assert forall i :: 0 <= i < |s| ==> s[i] != c;
  }

  /** Splitting undoes joining, as long as the pieces are tokens. */
  lemma {:induction false} TokensOfJoin(ws: seq<string>, sep: char, seps: set<char>)
    requires sep in seps
    requires forall k :: 0 <= k < |ws| ==> IsToken(ws[k], seps)
    ensures Tokens(Join(ws, sep), seps) == ws
    decreases |ws|
  {
    if ws == [] {
    } else if |ws| == 1 {
      var w := ws[0];
      TokenLenOfTokenThenSep(w, [], seps);
      assert w + [] == w;
      assert w[|w|..] == [];
    } else {
      var w := ws[0];
      var rest := Join(ws[1..], sep);
      var s := w + [sep] + rest;
      assert s == w + ([sep] + rest);
      TokenLenOfTokenThenSep(w, [sep] + rest, seps);
      assert s[0] == w[0];
      assert s[..|w|] == w;
      assert s[|w|..] == [sep] + rest;
      assert ([sep] + rest)[1..] == rest;
      TokensOfJoin(ws[1..], sep, seps);
      assert [w] + ws[1..] == ws;
    }
  }

  /** Splitting loses nothing but the separators. */
  lemma {:induction false} FlattenTokens(s: string, seps: set<char>)
    ensures Flatten(Tokens(s, seps)) == Drop(s, seps)
    decreases |s|
  {
    if s == [] {
    } else if s[0] in seps {
      FlattenTokens(s[1..], seps);
    } else {
      var n := TokenLen(s, seps);
      assert s == s[..n] + s[n..];
      DropAppend(s[..n], s[n..], seps);
      DropNone(s[..n], seps);
      FlattenTokens(s[n..], seps);
      assert Tokens(s, seps) == [s[..n]] + Tokens(s[n..], seps);
      assert ([s[..n]] + Tokens(s[n..], seps))[1..] == Tokens(s[n..], seps);
    }
  }

  /** Joining tokens adds nothing but separators. */
  lemma {:induction false} DropJoin(ws: seq<string>, sep: char, seps: set<char>)
    requires sep in seps
    requires forall k :: 0 <= k < |ws| ==> IsToken(ws[k], seps)
    ensures Drop(Join(ws, sep), seps) == Flatten(ws)
    decreases |ws|
  {
    if ws == [] {
    } else if |ws| == 1 {
      DropNone(ws[0], seps);
      assert Flatten(ws) == ws[0] + Flatten([]);
      assert ws[0] + [] == ws[0];
    } else {
      var w, rest := ws[0], Join(ws[1..], sep);
      assert Drop([sep], seps) == [];
      calc {
        Drop(Join(ws, sep), seps);
        Drop((w + [sep]) + rest, seps);
        { DropAppend(w + [sep], rest, seps); }
        Drop(w + [sep], seps) + Drop(rest, seps);
        { DropAppend(w, [sep], seps); DropNone(w, seps); }
        w + Drop(rest, seps);
        { DropJoin(ws[1..], sep, seps); }
        w + Flatten(ws[1..]);
      }
    }
  }

  /** Joining tokens with a separator leaves no separator at the ends and
      none doubled, and the separator is the only one used. */
  lemma {:induction false} JoinSqueezed(ws: seq<string>, sep: char, seps: set<char>)
    requires sep in seps
    requires forall k :: 0 <= k < |ws| ==> IsToken(ws[k], seps)
    ensures Squeezed(Join(ws, sep), seps)
    ensures forall i :: 0 <= i < |Join(ws, sep)| && Join(ws, sep)[i] in seps ==> Join(ws, sep)[i] == sep
    decreases |ws|
  {
    if ws == [] {
    } else if |ws| == 1 {
    } else {
      var w := ws[0];
      var rest := Join(ws[1..], sep);
      JoinSqueezed(ws[1..], sep, seps);
      var r := w + [sep] + rest;
      assert |rest| >= |ws[1]| > 0;
      assert rest[0] == ws[1][0];
      forall i | 0 <= i < |w| ensures r[i] == w[i] {}
      forall i | |w| < i < |r| ensures r[i] == rest[i - |w| - 1] {}
      forall i | 0 <= i < |r| && r[i] in seps
        ensures 0 < i < |r| - 1 && r[i - 1] !in seps && r[i + 1] !in seps && r[i] == sep
      {
        if i == |w| {
          assert r[i - 1] == w[|w| - 1];
        } else {
          assert i > |w|;
          var j := i - |w| - 1;
          assert rest[j] in seps;
          assert r[i - 1] == rest[j - 1];
          assert r[i + 1] == rest[j + 1];
        }
      }
    }
  }
}
