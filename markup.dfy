/** The parsed HTML document as the scraper sees it through selectolax.
    An element carries its tag, its attributes, its text nodes, its
    serialised markup and its direct child elements (what `Node.iter()`
    yields). The CSS engine itself is not modelled: `matches` records, for
    each selector the scraper queries from this element, the elements the
    engine returns, in document order. */
module Markup {
  import opened Wrappers
  import opened PyStr

  /** The CSS selectors the scraper uses. */
  datatype Selector =
    | EntryDiv          // div.entry
    | ChildSitetable    // div.child div.sitetable
    | AuthorLink        // a.author
    | Tagline           // p.tagline
    | TaglineAuthor     // p.tagline a.author
    | BodyMarkdown      // div.usertext-body div.md
    | ExpandoMarkdown   // div.expando div.usertext-body div.md
    | PermalinkLink     // a[data-event-action='permalink']
    | ParentLink        // a[data-event-action='parent']
    | CommentScore      // span.score.unvoted
    | PostScore         // div.score.unvoted
    | LiveTimestamp     // time.live-timestamp
    | TitleLink         // a.title
    | FlairLabel        // span.linkflairlabel
    | ThingLinkDiv      // div.thing.link
    | ThingDiv          // div.thing
    | NestedListing     // div.commentarea div.sitetable.nestedlisting

  /** Attributes without a value are left out of `attrs`: `attributes.get`
      answers `None` for them as for missing ones. */
  datatype Element = Element(
    tag: string,
    attrs: map<string, string>,
    textParts: seq<string>,
    html: string,
    children: seq<Element>,
    matches: seq<Match>)

  datatype Match = Match(selector: Selector, element: Element)

  /** `e.attributes.get(name)` */
  function Attr(e: Element, name: string): Option<string> {
    if name in e.attrs then Some(e.attrs[name]) else None
  }

  /** `e.attributes.get("class") or ""` */
  function ClassOf(e: Element): string {
    Attr(e, "class").GetOr("")
  }

  /** Position of the first match of `sel`, or `|ms|` when there is none. */
  function MatchIndex(ms: seq<Match>, sel: Selector): (k: nat)
    ensures k <= |ms|
    ensures k < |ms| ==> ms[k].selector == sel
    ensures forall j :: 0 <= j < k ==> ms[j].selector != sel
  {
    if ms == [] then 0
    else if ms[0].selector == sel then 0
    else 1 + MatchIndex(ms[1..], sel)
  }

  /** `e.css_first(sel)` */
  function CssFirst(e: Element, sel: Selector): Option<Element> {
    var k := MatchIndex(e.matches, sel);
    if k < |e.matches| then Some(e.matches[k].element) else None
  }

  function Selected(ms: seq<Match>, sel: Selector): seq<Element> {
    if ms == [] then []
    else (if ms[0].selector == sel then [ms[0].element] else []) + Selected(ms[1..], sel)
  }

  /** `e.css(sel)` */
  function CssAll(e: Element, sel: Selector): seq<Element> {
    Selected(e.matches, sel)
  }

  /** `e.text()`: the text nodes, concatenated. */
  function Text(e: Element): string {
    Flatten(e.textParts)
  }

  /** `e.text(strip=True)`: each text node stripped, then concatenated. */
  function StrippedText(e: Element): string {
    Flatten(seq(|e.textParts|, i requires 0 <= i < |e.textParts| => Strip(e.textParts[i])))
  }
}
