/** `get_reddit_id_from_url` and its matchers: classify a URL into a
    `RedditUrlInfo` locator, or raise. `urlparse` is the caller-supplied
    `parse`, applied to the stripped URL once the blank check has passed. */
module UrlClassifier {
  import opened Wrappers
  import opened PyStr
  import opened Errors

  datatype Kind = Frontpage | Popular | All | Subreddit | User | Post | Comment

  /** `RedditUrlInfo` */
  datatype UrlInfo = UrlInfo(
    kind: Kind,
    originalUrl: string,
    subreddit: Option<string>,
    username: Option<string>,
    postId: Option<string>,
    commentId: Option<string>)
  {
    /** `has_post`: on a well-shaped locator, true exactly for the post and
        comment kinds. */
    predicate HasPost()
      ensures WellShaped(this) ==> (HasPost() <==> kind in {Post, Comment})
    {
      postId.Some?
    }
  }

  /** The two parts of `urlparse`'s result that the classifier reads. */
  datatype ParsedUrl = ParsedUrl(netloc: string, path: string)

  const ShortlinkHosts: set<string> := {"redd.it", "www.redd.it"}
  const MinSubredditSegments: nat := 2
  const MinPostSegments: nat := 4
  const MinCommentSegments: nat := 6

  predicate IsAlnum(c: char) {
    'a' <= c <= 'z' || 'A' <= c <= 'Z' || '0' <= c <= '9'
  }

  predicate AlnumRun(s: string, lo: nat, hi: nat) {
    lo <= |s| <= hi && forall i :: 0 <= i < |s| ==> IsAlnum(s[i])
  }

  /** `re.match(r"^[a-zA-Z0-9]{lo,hi}$", s)`. Python's `$` also matches just
      before a final newline, so one trailing "\n" is accepted. */
  predicate IdPattern(s: string, lo: nat, hi: nat) {
    AlnumRun(s, lo, hi) || (s != [] && s[|s| - 1] == '\n' && AlnumRun(s[..|s| - 1], lo, hi))
  }

  /** `_POST_ID_RE` */
  predicate IsPostId(s: string) {
    IdPattern(s, 5, 8)
  }

  /** `_COMMENT_ID_RE` */
  predicate IsCommentId(s: string) {
    IdPattern(s, 6, 10)
  }

  /** `_normalize_netloc`: lower-case, then drop everything from the first
      ':'. The result is the lower-cased network location up to its first
      ':', or all of it when there is none. */
  function NormalizeNetloc(netloc: string): (r: string)
    ensures ':' !in r
    ensures forall i :: 0 <= i < |r| ==> !IsUpper(r[i])
    ensures |r| <= |netloc| && r == Lower(netloc)[..|r|]
    ensures ':' !in netloc ==> r == Lower(netloc)
    ensures ':' in netloc ==> |r| < |netloc| && Lower(netloc)[|r|] == ':'
  {
    var l := Lower(netloc);
    LowerKeepsColon(netloc);
    if ':' !in netloc then
      BeforeFirstAbsent(l, ':');
      BeforeFirst(l, ':')
    else
      BeforeFirst(l, ':')
  }

  /** Lower-casing neither adds nor removes a ':'. */
  lemma LowerKeepsColon(s: string)
    ensures ':' in Lower(s) <==> ':' in s
  {
    if ':' in s {
      var k :| 0 <= k < |s| && s[k] == ':';
      assert Lower(s)[k] == ':';
    }
    if ':' in Lower(s) {
      var k :| 0 <= k < |s| && Lower(s)[k] == ':';
      assert s[k] == ':';
    }
  }

  /** `_split_path` */
  function SplitPath(path: string): (segments: seq<string>)
    ensures forall k :: 0 <= k < |segments| ==> segments[k] != [] && '/' !in segments[k]
  {
    Tokens(path, {'/'})
  }

  /** The hosts the scraper accepts: the shortlink hosts, `reddit.com` and
      its subdomains. */
  predicate RedditHost(host: string) {
    host in ShortlinkHosts || host == "reddit.com" || EndsWith(host, ".reddit.com")
  }

  /** `_parse_reddit_domain`: a network location without a port is decided
      on its lower-cased whole. */
  predicate IsRedditDomain(netloc: string)
    ensures ':' !in netloc ==> (IsRedditDomain(netloc) <==> RedditHost(Lower(netloc)))
  {
    RedditHost(NormalizeNetloc(netloc))
  }

  /** What one matcher does: decline (`None`), answer, or raise. */
  datatype MatchOutcome = NoMatch | Matched(info: UrlInfo) | Rejected(error: ScraperError)

  /** `_parse_shortlink`: declines off the shortlink hosts; there, the first
      segment must be a post id. */
  function ParseShortlink(netloc: string, segments: seq<string>, url: string): (r: MatchOutcome)
    ensures r.NoMatch? <==> netloc !in ShortlinkHosts
    ensures r.Rejected? <==> netloc in ShortlinkHosts && !(segments != [] && IsPostId(segments[0]))
    ensures r.Rejected? ==> r.error == InvalidShortlink
    ensures r.Matched? ==> r.info == UrlInfo(Post, url, None, None, Some(Lower(segments[0])), None)
  {
    if netloc !in ShortlinkHosts then NoMatch
    else
      var slug := if segments != [] then segments[0] else "";
      if !IsPostId(slug) then Rejected(InvalidShortlink)
      else Matched(UrlInfo(Post, url, None, None, Some(Lower(slug)), None))
  }

  /** `_parse_frontpage`: answers exactly for an empty path. */
  function ParseFrontpage(netloc: string, segments: seq<string>, url: string): (r: MatchOutcome)
    ensures r.NoMatch? <==> segments != []
    ensures !r.Rejected?
    ensures r.Matched? ==> r.info.kind == Frontpage && r.info.originalUrl == url && !r.info.HasPost()
  {
    if segments != [] then NoMatch
    else Matched(UrlInfo(Frontpage, url, None, None, None, None))
  }

  /** `_parse_subreddit_path`: takes every path `r/<x>/...`; raises only for
      a `comments` path whose post id is malformed. */
  function ParseSubredditPath(netloc: string, segments: seq<string>, url: string): (r: MatchOutcome)
    ensures r.NoMatch? <==> !(|segments| >= 2 && segments[0] == "r")
    ensures r.Rejected? <==>
      |segments| >= 4 && segments[0] == "r" && Lower(segments[1]) !in {"popular", "all"} &&
      segments[2] == "comments" && !IsPostId(segments[3])
    ensures r.Rejected? ==> r.error == InvalidPostId
    ensures r.Matched? ==> r.info.originalUrl == url && r.info.username.None?
    ensures r.Matched? && r.info.kind in {Subreddit, Post, Comment} ==> r.info.subreddit == Some(segments[1])
  {
    if |segments| < MinSubredditSegments || segments[0] != "r" then NoMatch
    else
      var subreddit := segments[1];
      if Lower(subreddit) == "popular" then Matched(UrlInfo(Popular, url, None, None, None, None))
      else if Lower(subreddit) == "all" then Matched(UrlInfo(All, url, None, None, None, None))
      else if |segments| >= MinPostSegments && segments[2] == "comments" then
        var postId := segments[3];
        if !IsPostId(postId) then Rejected(InvalidPostId)
        else
          var commentId :=
            if |segments| >= MinCommentSegments && IsCommentId(segments[5])
            then Some(Lower(segments[5])) else None;
          var kind := if commentId.Some? then Comment else Post;
          Matched(UrlInfo(kind, url, Some(subreddit), None, Some(Lower(postId)), commentId))
      else Matched(UrlInfo(Subreddit, url, Some(subreddit), None, None, None))
  }

  /** `_parse_user_path`: `user/<name>` or `u/<name>` is that user. */
  function ParseUserPath(netloc: string, segments: seq<string>, url: string): (r: MatchOutcome)
    ensures r.NoMatch? <==> !(|segments| >= 2 && segments[0] in {"user", "u"})
    ensures !r.Rejected?
    ensures r.Matched? ==> r.info == UrlInfo(User, url, None, Some(segments[1]), None, None)
  {
    if |segments| < MinSubredditSegments || segments[0] !in {"user", "u"} then NoMatch
    else Matched(UrlInfo(User, url, None, Some(segments[1]), None, None))
  }

  datatype Parser = ShortlinkParser | FrontpageParser | SubredditPathParser | UserPathParser

  /** The matchers in the order `get_reddit_id_from_url` tries them. */
  const Parsers: seq<Parser> := [ShortlinkParser, FrontpageParser, SubredditPathParser, UserPathParser]

  function RunParser(p: Parser, netloc: string, segments: seq<string>, url: string): MatchOutcome {
    match p
    case ShortlinkParser => ParseShortlink(netloc, segments, url)
    case FrontpageParser => ParseFrontpage(netloc, segments, url)
    case SubredditPathParser => ParseSubredditPath(netloc, segments, url)
    case UserPathParser => ParseUserPath(netloc, segments, url)
  }

  /** The first matcher that does not decline decides; if all decline, the
      URL is unsupported. */
  function FirstMatch(ps: seq<Parser>, netloc: string, segments: seq<string>, url: string): Result<UrlInfo, ScraperError> {
    if ps == [] then Failure(UnsupportedUrl)
    else match RunParser(ps[0], netloc, segments, url)
      case NoMatch => FirstMatch(ps[1..], netloc, segments, url)
      case Matched(info) => Success(info)
      case Rejected(e) => Failure(e)
  }

  /** `get_reddit_id_from_url`, as a function of the URL and of `urlparse`:
      blank URLs, and only they, fail with the empty-URL error, and every
      locator is well shaped and records the URL as given. */
  function Classify(url: string, parse: string -> ParsedUrl): (r: Result<UrlInfo, ScraperError>)
    ensures r == Failure(EmptyUrl) <==> IsBlank(url)
    ensures r.Success? ==> WellShaped(r.value) && r.value.originalUrl == url
  {
    if IsBlank(url) then Failure(EmptyUrl)
    else ClassifyParsed(parse(Strip(url)), url)
  }

  /** What `get_reddit_id_from_url` decides once the URL is stripped and
      parsed: the host check, then the matchers in order. A foreign host,
      and only it, fails with the not-reddit error; the matchers raise only
      the invalid-id and unsupported-pattern errors. */
  function ClassifyParsed(parsed: ParsedUrl, url: string): (r: Result<UrlInfo, ScraperError>)
    ensures r == Failure(NotReddit) <==> !IsRedditDomain(parsed.netloc)
    ensures r.Failure? ==> r.error in {NotReddit, InvalidShortlink, InvalidPostId, UnsupportedUrl}
    ensures r.Success? ==> WellShaped(r.value) && r.value.originalUrl == url
  {
    if !IsRedditDomain(parsed.netloc) then Failure(NotReddit)
    else
      var netloc, segments := NormalizeNetloc(parsed.netloc), SplitPath(parsed.path);
      FirstMatchShape(Parsers, netloc, segments, url);
      FirstMatch(Parsers, netloc, segments, url)
  }

  /** `get_reddit_id_from_url`, with its loop over the matchers. */
  method GetRedditIdFromUrl(url: string, parse: string -> ParsedUrl) returns (r: Result<UrlInfo, ScraperError>)
    ensures r == Classify(url, parse)
  {
    var stripped := Strip(url);
    StripBlank(url);
    if url == [] || stripped == [] {
      return Failure(EmptyUrl);
    }
    var parsed := parse(stripped);
    if !IsRedditDomain(parsed.netloc) {
      return Failure(NotReddit);
    }
    var netloc := NormalizeNetloc(parsed.netloc);
    var segments := SplitPath(parsed.path);
    assert Classify(url, parse) == FirstMatch(Parsers, netloc, segments, url);
    var i := 0;
    while i < |Parsers|
      invariant 0 <= i <= |Parsers|
      invariant FirstMatch(Parsers[i..], netloc, segments, url) == FirstMatch(Parsers, netloc, segments, url)
    {
      var outcome := RunParser(Parsers[i], netloc, segments, url);
      match outcome {
        case Matched(info) => return Success(info);
        case Rejected(e) => return Failure(e);
        case NoMatch =>
      }
      assert Parsers[i..][1..] == Parsers[i + 1..];
      i := i + 1;
    }
    return Failure(UnsupportedUrl);
  }

  /** `extract_post_id_from_url`: `None` for a missing or empty URL, the
      locator's post id when it has one, and otherwise an error. A returned
      id matches the post-id pattern and is lower case. */
  function ExtractPostIdFromUrl(postUrl: Option<string>, parse: string -> ParsedUrl): (r: Result<Option<string>, ScraperError>)
    ensures postUrl.None? || postUrl == Some("") ==> r == Success(None)
    ensures r.Success? && r.value.Some? ==> IsPostId(r.value.value) && Lower(r.value.value) == r.value.value
    ensures r.Failure? ==> r.error != EmptyUrl || IsBlank(postUrl.value)
  {
    if postUrl.None? || postUrl.value == [] then Success(None)
    else match Classify(postUrl.value, parse)
      case Failure(e) => Failure(e)
      case Success(info) =>
        if info.postId.None? || info.postId.value == [] then Failure(NotAPost)
        else Success(info.postId)
  }

  // ---------------------------------------------------------------------
  // Properties of the classifier

  /** The kind-dependent shape of a locator: which optional fields each kind
      fills in, and that ids are stored lower-cased in their regex shape. */
  predicate WellShaped(info: UrlInfo) {
    && (info.postId.Some? ==> IsPostId(info.postId.value) && Lower(info.postId.value) == info.postId.value)
    && (info.commentId.Some? ==> IsCommentId(info.commentId.value) && Lower(info.commentId.value) == info.commentId.value)
    && match info.kind
       case Frontpage | Popular | All =>
         info.subreddit.None? && info.username.None? && info.postId.None? && info.commentId.None?
       case Subreddit =>
         info.subreddit.Some? && info.username.None? && info.postId.None? && info.commentId.None?
       case User =>
         info.username.Some? && info.subreddit.None? && info.postId.None? && info.commentId.None?
       case Post =>
         info.postId.Some? && info.username.None? && info.commentId.None?
       case Comment =>
         info.postId.Some? && info.commentId.Some? && info.subreddit.Some? && info.username.None?
  }

  lemma LowerIdempotent(s: string)
    ensures Lower(Lower(s)) == Lower(s)
  {
  }

  /** Lower-casing keeps a string in the id pattern. */
  lemma LowerKeepsIdPattern(s: string, lo: nat, hi: nat)
    requires IdPattern(s, lo, hi)
    ensures IdPattern(Lower(s), lo, hi)
  {
    var l := Lower(s);
    forall i | 0 <= i < |s| && IsAlnum(s[i]) ensures IsAlnum(l[i]) {
    }
    if !AlnumRun(s, lo, hi) {
      assert l[..|l| - 1] == Lower(s[..|s| - 1]);
    }
  }

  /** Without a newline in it, a string matches the id regex exactly when it
      is a run of ASCII letters and digits of the allowed length. */
  lemma IdPatternWithoutNewline(s: string, lo: nat, hi: nat)
    requires '\n' !in s
    ensures IdPattern(s, lo, hi) <==> AlnumRun(s, lo, hi)
  {
  }

  /** Every matcher before position `k` declined. */
  predicate DeclinedBefore(ps: seq<Parser>, k: int, netloc: string, segments: seq<string>, url: string) {
    forall j :: 0 <= j < k && j < |ps| ==> RunParser(ps[j], netloc, segments, url).NoMatch?
  }

  /** Trying matchers in order: the first matcher that does not decline
      decides, and when all decline the URL is unsupported. */
  lemma {:induction false} FirstMatchOutcome(ps: seq<Parser>, netloc: string, segments: seq<string>, url: string)
    ensures match FirstMatch(ps, netloc, segments, url)
      case Success(info) =>
        exists k :: 0 <= k < |ps| && DeclinedBefore(ps, k, netloc, segments, url) &&
          RunParser(ps[k], netloc, segments, url) == Matched(info)
      case Failure(e) =>
        (e == UnsupportedUrl && DeclinedBefore(ps, |ps|, netloc, segments, url)) ||
        exists k :: 0 <= k < |ps| && DeclinedBefore(ps, k, netloc, segments, url) &&
          RunParser(ps[k], netloc, segments, url) == Rejected(e)
  {
    if ps != [] {
      var first := RunParser(ps[0], netloc, segments, url);
      assert DeclinedBefore(ps, 0, netloc, segments, url);
      if first == NoMatch {
        FirstMatchOutcome(ps[1..], netloc, segments, url);
        forall k | 0 <= k <= |ps[1..]| && DeclinedBefore(ps[1..], k, netloc, segments, url)
          ensures DeclinedBefore(ps, k + 1, netloc, segments, url)
        {
          forall j | 0 <= j < k + 1 && j < |ps| ensures RunParser(ps[j], netloc, segments, url).NoMatch? {
            if j > 0 {
              assert ps[j] == ps[1..][j - 1];
            }
          }
        }
        match FirstMatch(ps[1..], netloc, segments, url)
        case Success(info) =>
          var k :| 0 <= k < |ps[1..]| && DeclinedBefore(ps[1..], k, netloc, segments, url) &&
            RunParser(ps[1..][k], netloc, segments, url) == Matched(info);
          assert ps[k + 1] == ps[1..][k];
        case Failure(e) =>
          if e == UnsupportedUrl && DeclinedBefore(ps[1..], |ps[1..]|, netloc, segments, url) {
            assert DeclinedBefore(ps, |ps|, netloc, segments, url);
          } else {
            var k :| 0 <= k < |ps[1..]| && DeclinedBefore(ps[1..], k, netloc, segments, url) &&
              RunParser(ps[1..][k], netloc, segments, url) == Rejected(e);
            assert ps[k + 1] == ps[1..][k];
          }
      }
    }
  }

  /** Whatever decides a sequence of matchers is well shaped: a locator for
      the URL as given, or one of the two invalid-id errors, or unsupported. */
  lemma {:induction false} FirstMatchShape(ps: seq<Parser>, netloc: string, segments: seq<string>, url: string)
    ensures FirstMatch(ps, netloc, segments, url).Success? ==>
      WellShaped(FirstMatch(ps, netloc, segments, url).value) && FirstMatch(ps, netloc, segments, url).value.originalUrl == url
    ensures FirstMatch(ps, netloc, segments, url).Failure? ==>
      FirstMatch(ps, netloc, segments, url).error in {InvalidShortlink, InvalidPostId, UnsupportedUrl}
  {
    if ps != [] {
      RunParserShape(ps[0], netloc, segments, url);
      FirstMatchShape(ps[1..], netloc, segments, url);
    }
  }

  /** Every matcher answers with a well-shaped locator for the URL it was
      given, and raises only the two invalid-id errors. */
  lemma RunParserShape(p: Parser, netloc: string, segments: seq<string>, url: string)
    ensures RunParser(p, netloc, segments, url).Matched? ==>
      WellShaped(RunParser(p, netloc, segments, url).info) && RunParser(p, netloc, segments, url).info.originalUrl == url
    ensures RunParser(p, netloc, segments, url).Rejected? ==>
      RunParser(p, netloc, segments, url).error in {InvalidShortlink, InvalidPostId}
  {
    if |segments| >= 4 && IsPostId(segments[3]) {
      LowerKeepsIdPattern(segments[3], 5, 8);
      LowerIdempotent(segments[3]);
    }
    if |segments| >= 6 && IsCommentId(segments[5]) {
      LowerKeepsIdPattern(segments[5], 6, 10);
      LowerIdempotent(segments[5]);
    }
    if segments != [] && IsPostId(segments[0]) {
      LowerKeepsIdPattern(segments[0], 5, 8);
      LowerIdempotent(segments[0]);
    }
  }

  /** Locator invariant: every locator the classifier produces is well
      shaped and records the URL as given; in particular a comment id comes
      only with kind comment and a post id, and `has_post` holds exactly for
      the post and comment kinds. */
  lemma ClassifyWellShaped(url: string, parse: string -> ParsedUrl)
    requires Classify(url, parse).Success?
    ensures var info := Classify(url, parse).value;
      && WellShaped(info)
      && info.originalUrl == url
      && (info.commentId.Some? ==> info.kind == Comment && info.postId.Some?)
      && (info.HasPost() <==> info.kind in {Post, Comment})
  {
  }

  /** The errors each stage can raise: a blank URL and a foreign host are
      rejected before any matcher runs, and the matchers raise only the
      invalid-id and unsupported-pattern errors. */
  lemma ClassifyErrors(url: string, parse: string -> ParsedUrl)
    ensures Classify(url, parse) == Failure(EmptyUrl) <==> IsBlank(url)
    ensures Classify(url, parse) == Failure(NotReddit) <==>
      !IsBlank(url) && !IsRedditDomain(parse(Strip(url)).netloc)
    ensures Classify(url, parse).Failure? ==> Classify(url, parse).error in {EmptyUrl, NotReddit, InvalidShortlink, InvalidPostId, UnsupportedUrl}
  {
  }

  /** The host check on a raw network location: without a port it is
      decided on the lower-cased location, and with `host:port` on the
      lower-cased host, whatever the port. */
  lemma RedditDomainHosts(host: string, port: string)
    requires ':' !in host
    ensures IsRedditDomain(host) <==> RedditHost(Lower(host))
    ensures IsRedditDomain(host + ":" + port) <==> RedditHost(Lower(host))
  {
    NormalizeNetlocDropsPort(host, port);
  }

  /** `_normalize_netloc` drops a port and lower-cases the host. */
  lemma {:induction false} NormalizeNetlocDropsPort(host: string, port: string)
    requires ':' !in host
    ensures NormalizeNetloc(host + ":" + port) == Lower(host)
  {
    var s := host + ":" + port;
    var l := Lower(s);
    assert l == Lower(host) + Lower(":" + port);
    assert Lower(":" + port)[0] == ':';
    BeforeFirstStopsAtSep(Lower(host), Lower(":" + port), ':');
  }

  /** Splitting a path undoes joining its segments with slashes, with or
      without a leading slash, a trailing slash, or both. */
  lemma SplitPathOfJoin(segments: seq<string>)
    requires forall k :: 0 <= k < |segments| ==> segments[k] != [] && '/' !in segments[k]
    ensures SplitPath(Join(segments, '/')) == segments
    ensures SplitPath("/" + Join(segments, '/')) == segments
    ensures SplitPath("/" + Join(segments, '/') + "/") == segments
    ensures SplitPath(Join(segments, '/') + "/") == segments
  {
    forall k | 0 <= k < |segments| ensures IsToken(segments[k], {'/'}) {
      assert forall i :: 0 <= i < |segments[k]| ==> segments[k][i] in segments[k];
    }
    TokensOfJoin(segments, '/', {'/'});
    assert ("/" + Join(segments, '/'))[1..] == Join(segments, '/');
    TokensTrailingSep("/" + Join(segments, '/'), '/', {'/'});
    TokensTrailingSep(Join(segments, '/'), '/', {'/'});
  }

  /** Shortlinks: on a `redd.it` host only the first segment matters; it
      must be a post id, and the locator is a post with the lower-cased id
      and no subreddit. No other matcher is consulted. */
  lemma ClassifyShortlink(parsed: ParsedUrl, url: string)
    requires NormalizeNetloc(parsed.netloc) in ShortlinkHosts
    ensures var segments := SplitPath(parsed.path);
      ClassifyParsed(parsed, url) ==
        if segments != [] && IsPostId(segments[0])
        then Success(UrlInfo(Post, url, None, None, Some(Lower(segments[0])), None))
        else Failure(InvalidShortlink)
  {
  }

  /** Matcher order on a reddit.com host with at least two segments:
      `r/<x>` with x equal to popular or all (any case) is that listing,
      with no subreddit stored; `user/<x>` or `u/<x>` is a user. */
  lemma ClassifyListingsAndUsers(parsed: ParsedUrl, url: string)
    requires IsRedditDomain(parsed.netloc)
    requires NormalizeNetloc(parsed.netloc) !in ShortlinkHosts
    requires |SplitPath(parsed.path)| >= 2
    ensures var segments := SplitPath(parsed.path);
      && (segments[0] == "r" && Lower(segments[1]) == "popular" ==>
            ClassifyParsed(parsed, url) == Success(UrlInfo(Popular, url, None, None, None, None)))
      && (segments[0] == "r" && Lower(segments[1]) == "all" ==>
            ClassifyParsed(parsed, url) == Success(UrlInfo(All, url, None, None, None, None)))
      && (segments[0] in {"user", "u"} ==>
            ClassifyParsed(parsed, url) == Success(UrlInfo(User, url, None, Some(segments[1]), None, None)))
  {
    SkipToSubredditPath(parsed, url);
    PathDispatch(NormalizeNetloc(parsed.netloc), SplitPath(parsed.path), url);
  }

  /** With a non-empty path on a reddit.com host, the subreddit matcher
      decides unless it declines, and then the user matcher does. */
  lemma PathDispatch(netloc: string, segments: seq<string>, url: string)
    requires segments != []
    ensures FirstMatch([SubredditPathParser, UserPathParser], netloc, segments, url) ==
      match ParseSubredditPath(netloc, segments, url)
      case Matched(info) => Success(info)
      case Rejected(e) => Failure(e)
      case NoMatch =>
        if ParseUserPath(netloc, segments, url).Matched? then Success(ParseUserPath(netloc, segments, url).info)
        else Failure(UnsupportedUrl)
  {
    var user := ParseUserPath(netloc, segments, url);
    assert [UserPathParser][1..] == [];
    assert FirstMatch([UserPathParser], netloc, segments, url) ==
      if user.Matched? then Success(user.info) else Failure(UnsupportedUrl);
    assert [SubredditPathParser, UserPathParser][1..] == [UserPathParser];
  }

  /** On a reddit.com host, a path is rejected as unsupported exactly when
      it is non-empty and does not start with `r`, `user` or `u` followed by
      another segment. */
  lemma ClassifyUnsupported(parsed: ParsedUrl, url: string)
    requires IsRedditDomain(parsed.netloc)
    requires NormalizeNetloc(parsed.netloc) !in ShortlinkHosts
    ensures var segments := SplitPath(parsed.path);
      ClassifyParsed(parsed, url) == Failure(UnsupportedUrl) <==>
        segments != [] && !(|segments| >= 2 && segments[0] in {"r", "user", "u"})
  {
    var netloc, segments := NormalizeNetloc(parsed.netloc), SplitPath(parsed.path);
    if segments == [] {
      ClassifyFrontpage(parsed, url);
    } else {
      SkipToSubredditPath(parsed, url);
      PathUnsupported(netloc, segments, url);
    }
  }

  lemma PathUnsupported(netloc: string, segments: seq<string>, url: string)
    requires segments != []
    ensures FirstMatch([SubredditPathParser, UserPathParser], netloc, segments, url) == Failure(UnsupportedUrl) <==>
      !(|segments| >= 2 && segments[0] in {"r", "user", "u"})
  {
    PathDispatch(netloc, segments, url);
    var sub := ParseSubredditPath(netloc, segments, url);
    assert sub == NoMatch <==> !(|segments| >= 2 && segments[0] == "r");
    assert sub.Rejected? ==> sub.error == InvalidPostId;
    assert ParseUserPath(netloc, segments, url) == NoMatch <==> !(|segments| >= 2 && segments[0] in {"user", "u"});
  }

  /** On a reddit.com host the shortlink matcher declines, so the
      front-page matcher is tried first. */
  lemma SkipShortlink(parsed: ParsedUrl, url: string)
    requires IsRedditDomain(parsed.netloc)
    requires NormalizeNetloc(parsed.netloc) !in ShortlinkHosts
    ensures ClassifyParsed(parsed, url) ==
        FirstMatch([FrontpageParser, SubredditPathParser, UserPathParser],
                   NormalizeNetloc(parsed.netloc), SplitPath(parsed.path), url)
  {
    var netloc, segments := NormalizeNetloc(parsed.netloc), SplitPath(parsed.path);
    assert Parsers[0] == ShortlinkParser;
    assert RunParser(Parsers[0], netloc, segments, url) == NoMatch;
    assert Parsers[1..] == [FrontpageParser, SubredditPathParser, UserPathParser];
    assert ClassifyParsed(parsed, url) == FirstMatch(Parsers, netloc, segments, url);
  }

  /** On a reddit.com host with a non-empty path, the shortlink and
      front-page matchers decline and the subreddit matcher is next. */
  lemma SkipToSubredditPath(parsed: ParsedUrl, url: string)
    requires IsRedditDomain(parsed.netloc)
    requires NormalizeNetloc(parsed.netloc) !in ShortlinkHosts
    requires SplitPath(parsed.path) != []
    ensures ClassifyParsed(parsed, url) ==
        FirstMatch([SubredditPathParser, UserPathParser], NormalizeNetloc(parsed.netloc), SplitPath(parsed.path), url)
  {
    var netloc, segments := NormalizeNetloc(parsed.netloc), SplitPath(parsed.path);
    SkipShortlink(parsed, url);
    var rest := [FrontpageParser, SubredditPathParser, UserPathParser];
    assert RunParser(rest[0], netloc, segments, url) == NoMatch;
    assert rest[1..] == [SubredditPathParser, UserPathParser];
  }

  /** The front page: no path segments at all. */
  lemma ClassifyFrontpage(parsed: ParsedUrl, url: string)
    requires IsRedditDomain(parsed.netloc)
    requires NormalizeNetloc(parsed.netloc) !in ShortlinkHosts
    requires SplitPath(parsed.path) == []
    ensures ClassifyParsed(parsed, url) == Success(UrlInfo(Frontpage, url, None, None, None, None))
  {
    SkipShortlink(parsed, url);
  }

  /** Post and comment permalinks `r/<sub>/comments/<pid>/<slug>/<cid>`: the
      post id must match the post regex or the call raises; a sixth segment
      that matches the comment regex makes it a comment; ids are lower-cased
      and the subreddit keeps its case. Without the `comments` literal the
      locator is the subreddit. */
  lemma ClassifySubredditPaths(parsed: ParsedUrl, url: string)
    requires IsRedditDomain(parsed.netloc)
    requires NormalizeNetloc(parsed.netloc) !in ShortlinkHosts
    requires var segments := SplitPath(parsed.path);
      |segments| >= 2 && segments[0] == "r" && Lower(segments[1]) !in {"popular", "all"}
    ensures var segments := SplitPath(parsed.path);
      && (|segments| >= 4 && segments[2] == "comments" && !IsPostId(segments[3]) ==>
            ClassifyParsed(parsed, url) == Failure(InvalidPostId))
      && (|segments| >= 4 && segments[2] == "comments" && IsPostId(segments[3]) ==>
            var commentId := if |segments| >= 6 && IsCommentId(segments[5]) then Some(Lower(segments[5])) else None;
            ClassifyParsed(parsed, url) ==
              Success(UrlInfo(if commentId.Some? then Comment else Post, url, Some(segments[1]), None,
                              Some(Lower(segments[3])), commentId)))
      && (!(|segments| >= 4 && segments[2] == "comments") ==>
            ClassifyParsed(parsed, url) == Success(UrlInfo(Subreddit, url, Some(segments[1]), None, None, None)))
  {
    SkipToSubredditPath(parsed, url);
    PathDispatch(NormalizeNetloc(parsed.netloc), SplitPath(parsed.path), url);
  }

  /** `extract_post_id_from_url` yields an id exactly for post and comment
      locators, passes classification errors through, and rejects every
      other kind. */
  lemma ExtractPostIdCases(postUrl: Option<string>, parse: string -> ParsedUrl)
    ensures postUrl.None? || postUrl == Some("") ==> ExtractPostIdFromUrl(postUrl, parse) == Success(None)
    ensures postUrl.Some? && postUrl.value != "" ==>
      match Classify(postUrl.value, parse)
      case Failure(e) => ExtractPostIdFromUrl(postUrl, parse) == Failure(e)
      case Success(info) =>
        ExtractPostIdFromUrl(postUrl, parse) ==
          if info.kind in {Post, Comment} then Success(info.postId) else Failure(NotAPost)
  {
    if postUrl.Some? && postUrl.value != "" && Classify(postUrl.value, parse).Success? {
      ClassifyWellShaped(postUrl.value, parse);
    }
  }
}
