/** The classifier's unit-test cases. Each is stated for any non-blank URL
    that `urlparse` splits into the network location and path of the test's
    URL (which is named in the lemma's comment); the title slugs of
    permalinks are left free. */
module ClassifierExamples {
  import opened Wrappers
  import opened PyStr
  import opened Errors
  import opened UrlClassifier

  /** A host that is already lower case and has no port normalises to itself. */
  lemma PlainHost(host: string)
    requires ':' !in host && forall i :: 0 <= i < |host| ==> !IsUpper(host[i])
    ensures NormalizeNetloc(host) == host
  {
    LowerWithoutUpper(host);
    BeforeFirstAbsent(host, ':');
  }

  /** `old.reddit.com` passes the host check and is not a shortlink host. */
  lemma OldRedditHost(netloc: string)
    requires netloc == "old.reddit.com"
    ensures IsRedditDomain(netloc) && NormalizeNetloc(netloc) !in ShortlinkHosts
  {
    assert netloc[0] == 'o';
    PlainHost(netloc);
    assert netloc[3..] == ".reddit.com";
  }

  /** `redd.it` is a shortlink host. */
  lemma ShortlinkHost(netloc: string)
    requires netloc == "redd.it"
    ensures IsRedditDomain(netloc) && NormalizeNetloc(netloc) in ShortlinkHosts
  {
    PlainHost(netloc);
  }

  /** `example.com` fails the host check. */
  lemma ForeignHost(netloc: string)
    requires netloc == "example.com"
    ensures !IsRedditDomain(netloc)
  {
    PlainHost(netloc);
    assert netloc[0] == 'e';
    assert netloc[0..] != ".reddit.com" by {
      assert netloc[0] != '.';
    }
  }

  /** `old.reddit.com` and `www.reddit.com` are reddit.com subdomains. */
  lemma SubdomainHost(host: string)
    requires host == "old.reddit.com" || host == "www.reddit.com"
    ensures RedditHost(host)
  {
    assert host[3..] == ".reddit.com";
  }

  /** The host check ignores case: `OLD.Reddit.COM` passes. */
  lemma UpperCaseHost(netloc: string)
    requires netloc == "OLD.Reddit.COM"
    ensures IsRedditDomain(netloc)
  {
    assert ':' !in netloc;
    var l := Lower(netloc);
    assert l[3..] == ".reddit.com";
  }

  /** The host check ignores the port: `www.reddit.com:443` passes. */
  lemma HostWithPort(host: string, port: string)
    requires host == "www.reddit.com" && port == "443"
    ensures IsRedditDomain(host + ":" + port)
  {
    LowerWithoutUpper(host);
    SubdomainHost(host);
    RedditDomainHosts(host, port);
  }

  /** A host that only starts like reddit.com fails the host check:
      `reddit.com.evil.net` is rejected. */
  lemma LookalikeHost(netloc: string)
    requires netloc == "reddit.com.evil.net"
    ensures !IsRedditDomain(netloc)
  {
    assert ':' !in netloc;
    var l := Lower(netloc);
    assert |l| == 19 && l[8] == 'o';
  }

  /** A lower-case alphanumeric word is its own lower case and a run of
      alphanumerics. */
  lemma LowerWord(s: string)
    requires forall i :: 0 <= i < |s| ==> 'a' <= s[i] <= 'z' || '0' <= s[i] <= '9'
    ensures Lower(s) == s && AlnumRun(s, |s|, |s|)
  {
    LowerWithoutUpper(s);
  }

  lemma PostIdG76orz(s: string)
    requires s == "g76orz"
    ensures Lower(s) == s && IsPostId(s)
  {
    LowerWord(s);
  }

  lemma PostIdNpm69h(s: string)
    requires s == "npm69h"
    ensures Lower(s) == s && IsPostId(s)
  {
    LowerWord(s);
  }

  lemma CommentIdH1iloux(s: string)
    requires s == "h1iloux"
    ensures Lower(s) == s && IsCommentId(s)
  {
    LowerWord(s);
  }

  /** A lower-case subreddit name other than the two listings. */
  lemma PlainSubreddit(s: string)
    requires s == "homelab" || s == "nvidia"
    ensures Lower(s) == s && s !in {"popular", "all"} && IsToken(s, {'/'})
  {
    LowerWord(s);
    assert s[0] == 'h' || s[0] == 'n';
  }

  lemma OneSegment(s: string)
    requires IsToken(s, {'/'})
    ensures SplitPath(s) == [s]
  {
    TokensOfToken(s, {'/'});
  }

  lemma AfterSlash(a: string, b: string)
    requires a != [] && a[|a| - 1] == '/'
    ensures SplitPath(a + b) == SplitPath(a) + SplitPath(b)
  {
    TokensAppend(a, b, {'/'});
  }

  lemma BeforeSlash(a: string, b: string)
    requires b != [] && b[0] == '/'
    ensures SplitPath(a + b) == SplitPath(a) + SplitPath(b)
  {
    TokensAppend(a, b, {'/'});
  }

  lemma RootPath(path: string)
    requires path == "/"
    ensures SplitPath(path) == []
  {
    assert path == [] + ['/'];
    TokensTrailingSep([], '/', {'/'});
  }

  /** `/w/` is the single segment w. */
  lemma Slashed(path: string, w: string)
    requires IsToken(w, {'/'}) && path == "/" + w + "/"
    ensures SplitPath(path) == [w]
  {
    var slash := "/";
    RootPath(slash);
    OneSegment(w);
    AfterSlash(slash, w);
    BeforeSlash(slash + w, slash);
  }

  /** Appending a segment and a slash to a path that ends in a slash adds
      that segment. */
  lemma AppendSegment(a: string, w: string)
    requires a != [] && a[|a| - 1] == '/' && IsToken(w, {'/'})
    ensures SplitPath(a + w + "/") == SplitPath(a) + [w]
  {
    var slash := "/";
    RootPath(slash);
    OneSegment(w);
    AfterSlash(a, w);
    BeforeSlash(a + w, slash);
  }

  /** The `/r/<sub>/comments/` prefix of a permalink. */
  lemma CommentsPrefix(path: string, sub: string)
    requires IsToken(sub, {'/'}) && path == "/r/" + sub + "/comments/"
    ensures SplitPath(path) == ["r", sub, "comments"]
  {
    var r, c := "r", "comments";
    Slashed("/r/", r);
    AfterSlash("/r/", sub);
    OneSegment(sub);
    assert SplitPath("/r/" + sub) == ["r", sub];
    Slashed("/comments/", c);
    BeforeSlash("/r/" + sub, "/comments/");
  }

  /** `/r/<sub>/comments/<pid>/<slug>/` */
  lemma PostPermalinkPath(path: string, sub: string, pid: string, slug: string)
    requires IsToken(sub, {'/'}) && IsToken(pid, {'/'}) && IsToken(slug, {'/'})
    requires path == "/r/" + sub + "/comments/" + pid + "/" + slug + "/"
    ensures SplitPath(path) == ["r", sub, "comments", pid, slug]
  {
    var prefix := "/r/" + sub + "/comments/";
    CommentsPrefix(prefix, sub);
    AppendSegment(prefix, pid);
    AppendSegment(prefix + pid + "/", slug);
  }

  /** `/r/<sub>/comments/<pid>/<slug>/<cid>/` */
  lemma CommentPermalinkPath(path: string, sub: string, pid: string, slug: string, cid: string)
    requires IsToken(sub, {'/'}) && IsToken(pid, {'/'}) && IsToken(slug, {'/'}) && IsToken(cid, {'/'})
    requires path == "/r/" + sub + "/comments/" + pid + "/" + slug + "/" + cid + "/"
    ensures SplitPath(path) == ["r", sub, "comments", pid, slug, cid]
  {
    var prefix := "/r/" + sub + "/comments/";
    CommentsPrefix(prefix, sub);
    AppendSegment(prefix, pid);
    AppendSegment(prefix + pid + "/", slug);
    AppendSegment(prefix + pid + "/" + slug + "/", cid);
  }

  /** A permalink on a reddit.com host: a post, or a comment when a sixth
      segment is a comment id. */
  lemma ClassifyPermalink(parsed: ParsedUrl, url: string, path: string, sub: string, pid: string, rest: seq<string>)
    requires IsRedditDomain(parsed.netloc) && NormalizeNetloc(parsed.netloc) !in ShortlinkHosts
    requires parsed.path == path
    requires SplitPath(path) == ["r", sub, "comments", pid] + rest
    requires Lower(sub) == sub && sub !in {"popular", "all"}
    requires IsPostId(pid) && Lower(pid) == pid
    requires |rest| == 2 ==> IsCommentId(rest[1]) && Lower(rest[1]) == rest[1]
    ensures |rest| == 2 ==>
      ClassifyParsed(parsed, url) == Success(UrlInfo(Comment, url, Some(sub), None, Some(pid), Some(rest[1])))
    ensures |rest| == 1 ==>
      ClassifyParsed(parsed, url) == Success(UrlInfo(Post, url, Some(sub), None, Some(pid), None))
  {
    ClassifySubredditPaths(parsed, url);
  }

  lemma PostPermalinkFacts(path: string, sub: string, pid: string, slug: string)
    requires sub == "homelab" && pid == "g76orz" && IsToken(slug, {'/'})
    requires path == "/r/" + sub + "/comments/" + pid + "/" + slug + "/"
    ensures SplitPath(path) == ["r", sub, "comments", pid] + [slug]
    ensures Lower(sub) == sub && sub !in {"popular", "all"}
    ensures IsPostId(pid) && Lower(pid) == pid
  {
    PostPermalinkPath(path, sub, pid, slug);
    PostIdG76orz(pid);
    PlainSubreddit(sub);
  }

  /** `https://old.reddit.com/r/homelab/comments/g76orz/<slug>/` is a post. */
  lemma ParsesStandardPostUrl(url: string, path: string, sub: string, pid: string, slug: string, parse: string -> ParsedUrl)
    requires sub == "homelab" && pid == "g76orz" && IsToken(slug, {'/'})
    requires path == "/r/" + sub + "/comments/" + pid + "/" + slug + "/"
    requires !IsBlank(url)
    requires parse(Strip(url)) == ParsedUrl("old.reddit.com", path)
    ensures Classify(url, parse) == Success(UrlInfo(Post, url, Some("homelab"), None, Some("g76orz"), None))
  {
    var parsed := parse(Strip(url));
    OldRedditHost(parsed.netloc);
    PostPermalinkFacts(path, sub, pid, slug);
    ClassifyPermalink(parsed, url, path, sub, pid, [slug]);
  }

  lemma CommentPermalinkFacts(path: string, sub: string, pid: string, slug: string, cid: string)
    requires sub == "nvidia" && pid == "npm69h" && cid == "h1iloux" && IsToken(slug, {'/'})
    requires path == "/r/" + sub + "/comments/" + pid + "/" + slug + "/" + cid + "/"
    ensures SplitPath(path) == ["r", sub, "comments", pid] + [slug, cid]
    ensures Lower(sub) == sub && sub !in {"popular", "all"}
    ensures IsPostId(pid) && Lower(pid) == pid
    ensures IsCommentId(cid) && Lower(cid) == cid
  {
    CommentPermalinkPath(path, sub, pid, slug, cid);
    PostIdNpm69h(pid);
    CommentIdH1iloux(cid);
    PlainSubreddit(sub);
  }

  /** `https://old.reddit.com/r/nvidia/comments/npm69h/<slug>/h1iloux/` is a comment. */
  lemma ParsesCommentPermalink(url: string, path: string, sub: string, pid: string, slug: string, cid: string,
                               parse: string -> ParsedUrl)
    requires sub == "nvidia" && pid == "npm69h" && cid == "h1iloux" && IsToken(slug, {'/'})
    requires path == "/r/" + sub + "/comments/" + pid + "/" + slug + "/" + cid + "/"
    requires !IsBlank(url)
    requires parse(Strip(url)) == ParsedUrl("old.reddit.com", path)
    ensures Classify(url, parse) == Success(UrlInfo(Comment, url, Some("nvidia"), None, Some("npm69h"), Some("h1iloux")))
  {
    var parsed := parse(Strip(url));
    OldRedditHost(parsed.netloc);
    CommentPermalinkFacts(path, sub, pid, slug, cid);
    ClassifyPermalink(parsed, url, path, sub, pid, [slug, cid]);
  }

  lemma ShortlinkPath(path: string)
    requires path == "/npm69h"
    ensures SplitPath(path) == ["npm69h"]
  {
    assert path == "/" + Join(["npm69h"], '/');
    SplitPathOfJoin(["npm69h"]);
  }

  /** `https://redd.it/npm69h` is a post with no subreddit. */
  lemma ParsesShortlink(url: string, parse: string -> ParsedUrl)
    requires !IsBlank(url)
    requires parse(Strip(url)) == ParsedUrl("redd.it", "/npm69h")
    ensures Classify(url, parse) == Success(UrlInfo(Post, url, None, None, Some("npm69h"), None))
  {
    var parsed := parse(Strip(url));
    ShortlinkHost(parsed.netloc);
    ShortlinkPath(parsed.path);
    PostIdNpm69h(SplitPath(parsed.path)[0]);
    ClassifyShortlink(parsed, url);
  }

  lemma UserPath(path: string)
    requires path == "/user/killyoy"
    ensures SplitPath(path) == ["user", "killyoy"]
  {
    assert path == "/" + Join(["user", "killyoy"], '/');
    SplitPathOfJoin(["user", "killyoy"]);
  }

  /** `https://old.reddit.com/user/killyoy` is the user killyoy. */
  lemma ParsesUserProfileUrl(url: string, parse: string -> ParsedUrl)
    requires !IsBlank(url)
    requires parse(Strip(url)) == ParsedUrl("old.reddit.com", "/user/killyoy")
    ensures Classify(url, parse) == Success(UrlInfo(User, url, None, Some("killyoy"), None, None))
  {
    var parsed := parse(Strip(url));
    OldRedditHost(parsed.netloc);
    UserPath(parsed.path);
    ClassifyListingsAndUsers(parsed, url);
  }

  /** `/r/<name>/` */
  lemma ListingPath(path: string, name: string)
    requires IsToken(name, {'/'}) && path == "/r/" + name + "/"
    ensures SplitPath(path) == ["r", name]
  {
    var r := "r";
    Slashed("/r/", r);
    AppendSegment("/r/", name);
  }

  lemma ListingName(s: string)
    requires s == "popular" || s == "all"
    ensures Lower(s) == s && IsToken(s, {'/'})
  {
    LowerWord(s);
    assert s[0] == 'p' || s[0] == 'a';
  }

  /** `/r/<name>/` on a reddit.com host, for one of the two listings. */
  lemma NamedListing(parsed: ParsedUrl, url: string, name: string)
    requires IsRedditDomain(parsed.netloc) && NormalizeNetloc(parsed.netloc) !in ShortlinkHosts
    requires SplitPath(parsed.path) == ["r", name]
    requires (name == "popular" || name == "all") && Lower(name) == name
    ensures ClassifyParsed(parsed, url) == Success(UrlInfo(if name == "all" then All else Popular, url, None, None, None, None))
  {
    ClassifyListingsAndUsers(parsed, url);
  }

  /** `/r/<name>/` on a reddit.com host, for any other lower-case name. */
  lemma NamedSubreddit(parsed: ParsedUrl, url: string, name: string)
    requires IsRedditDomain(parsed.netloc) && NormalizeNetloc(parsed.netloc) !in ShortlinkHosts
    requires SplitPath(parsed.path) == ["r", name]
    requires Lower(name) == name && name !in {"popular", "all"}
    ensures ClassifyParsed(parsed, url) == Success(UrlInfo(Subreddit, url, Some(name), None, None, None))
  {
    ClassifySubredditPaths(parsed, url);
  }

  /** `https://old.reddit.com/r/nvidia/` is the subreddit nvidia. */
  lemma ParsesSubredditRoot(url: string, path: string, name: string, parse: string -> ParsedUrl)
    requires name == "nvidia" && path == "/r/" + name + "/"
    requires !IsBlank(url)
    requires parse(Strip(url)) == ParsedUrl("old.reddit.com", path)
    ensures Classify(url, parse) == Success(UrlInfo(Subreddit, url, Some("nvidia"), None, None, None))
  {
    var parsed := parse(Strip(url));
    OldRedditHost(parsed.netloc);
    PlainSubreddit(name);
    ListingPath(path, name);
    NamedSubreddit(parsed, url, name);
  }

  /** `https://old.reddit.com/r/popular/` and `https://old.reddit.com/r/all/`
      are the two listings. */
  lemma ParsesPopularAndAll(url: string, path: string, name: string, parse: string -> ParsedUrl)
    requires (name == "popular" || name == "all") && path == "/r/" + name + "/"
    requires !IsBlank(url)
    requires parse(Strip(url)) == ParsedUrl("old.reddit.com", path)
    ensures Classify(url, parse) == Success(UrlInfo(if name == "all" then All else Popular, url, None, None, None, None))
  {
    var parsed := parse(Strip(url));
    OldRedditHost(parsed.netloc);
    ListingName(name);
    ListingPath(path, name);
    NamedListing(parsed, url, name);
  }

  /** `https://old.reddit.com/` is the front page. */
  lemma ParsesFrontpage(url: string, parse: string -> ParsedUrl)
    requires !IsBlank(url)
    requires parse(Strip(url)) == ParsedUrl("old.reddit.com", "/")
    ensures Classify(url, parse) == Success(UrlInfo(Frontpage, url, None, None, None, None))
  {
    var parsed := parse(Strip(url));
    OldRedditHost(parsed.netloc);
    RootPath(parsed.path);
    ClassifyFrontpage(parsed, url);
  }

  /** `https://example.com/foo` is not a reddit URL. */
  lemma RaisesForNonRedditUrl(url: string, parse: string -> ParsedUrl)
    requires !IsBlank(url)
    requires parse(Strip(url)) == ParsedUrl("example.com", "/foo")
    ensures Classify(url, parse) == Failure(NotReddit)
  {
    ForeignHost(parse(Strip(url)).netloc);
  }

  /** Three spaces are a blank URL, rejected before `urlparse` is called. */
  lemma RaisesForEmptyUrl(url: string, parse: string -> ParsedUrl)
    requires url == "   "
    ensures Classify(url, parse) == Failure(EmptyUrl)
  {
    assert IsBlank(url);
  }

  /** The host check reads everything before the first ':' of the network
      location, so a user-info part that looks like a reddit host is
      accepted even when the real host is elsewhere. */
  lemma UserInfoReadAsHost(netloc: string)
    requires netloc == "x.reddit.com" + ":" + "80@example.com"
    ensures IsRedditDomain(netloc)
  {
    NormalizeNetlocDropsPort("x.reddit.com", "80@example.com");
    LowerWithoutUpper("x.reddit.com");
    assert "x.reddit.com"[1..] == ".reddit.com";
  }
}
