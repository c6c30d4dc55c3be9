/** The meta data of a page: its `<link>` and `<script>` elements, the
    canonical link that stays reachable through `Canonical`, and the lazily
    created Open Graph and Twitter card values. */
module MetaData {
  import opened Wrappers
  import Requests
  import OpenGraph
  import TwitterCards

  /** A `<link />` element. */
  datatype SpaMetaLink = SpaMetaLink(
    href: Option<string>, rel: Option<string>, linkType: Option<string>,
    media: Option<string>, sizes: Option<string>)

  /** A `<script>` element. */
  datatype SpaMetaScript = SpaMetaScript(source: Option<string>, scriptType: Option<string>)

  /** An entry of the link list: the canonical link object itself, whose
      `href` lives in `SpaMetaData.canonicalHref` so that every place
      holding it sees the same value, or any other link. */
  datatype LinkEntry = CanonicalLink | Plain(link: SpaMetaLink)

  datatype SpaMetaData = SpaMetaData(
    canonicalHref: Option<string>,
    metaTitle: Option<string>,
    metaDescription: Option<string>,
    hideFromSearch: bool,
    robots: Option<string>,
    links: Option<seq<LinkEntry>>,
    scripts: Option<seq<SpaMetaScript>>,
    dangerouslyDisableSanitizers: seq<string>,
    openGraph: Option<OpenGraph.SpaOpenGraphProperties>,
    twitterCard: Option<TwitterCards.TwitterSummaryCard>)

  /** The rel of the canonical link. */
  const CanonicalRel: string := "canonical"

  /** The canonical link as it reads while its `href` is `href`. */
  function CanonicalLinkWith(href: Option<string>): SpaMetaLink {
    SpaMetaLink(href, Some(CanonicalRel), None, None, None)
  }

  /** How one entry reads while the canonical `href` is `href`. */
  function ViewEntry(href: Option<string>, e: LinkEntry): SpaMetaLink {
    if e.CanonicalLink? then CanonicalLinkWith(href) else e.link
  }

  /** The links of the entries, the canonical one reading `href`. */
  function ViewEntries(href: Option<string>, entries: seq<LinkEntry>): (view: seq<SpaMetaLink>)
    ensures |view| == |entries|
    ensures forall k :: 0 <= k < |entries| ==> view[k] == ViewEntry(href, entries[k])
  {
    if |entries| == 0 then [] else [ViewEntry(href, entries[0])] + ViewEntries(href, entries[1..])
  }

  /** `Links` as a caller reads it. */
  function Links(md: SpaMetaData): Option<seq<SpaMetaLink>> {
    match md.links
    case None => None
    case Some(entries) => Some(ViewEntries(md.canonicalHref, entries))
  }

  /** `Canonical`: the canonical link's `href`. */
  function Canonical(md: SpaMetaData): Option<string> {
    md.canonicalHref
  }

  /** The element types whose sanitizers are disabled, given the scripts at
      construction time. */
  function SanitizersFor(scripts: Option<seq<SpaMetaScript>>): (types: seq<string>)
    ensures types == [] <==> scripts.None? || |scripts.value| == 0
    ensures types != [] ==> types == ["script"]
  {
    if scripts.None? || |scripts.value| == 0 then [] else ["script"]
  }

  /** The constructor: empty script list, a link list holding only the
      canonical link, and the sanitizer list computed from the (empty)
      scripts. */
  function New(): (md: SpaMetaData)
    ensures md.links == Some([CanonicalLink])
    ensures Links(md) == Some([SpaMetaLink(None, Some("canonical"), None, None, None)])
    ensures md.scripts == Some([])
    ensures md.dangerouslyDisableSanitizers == []
    ensures Canonical(md).None?
    ensures md.openGraph.None? && md.twitterCard.None?
  {
    var scripts := Some([]);
    var md := SpaMetaData(None, None, None, false, None, Some([CanonicalLink]), scripts, SanitizersFor(scripts), None, None);
    assert Links(md).value[0] == CanonicalLinkWith(None);
    assert Links(md).value == [CanonicalLinkWith(None)];
    md
  }

  /** Setting `Canonical` writes the canonical link's `href`; nothing else
      is touched. */
  function SetCanonical(md: SpaMetaData, href: Option<string>): (r: SpaMetaData)
    ensures Canonical(r) == href
    ensures r.links == md.links && r.scripts == md.scripts
    ensures r.dangerouslyDisableSanitizers == md.dangerouslyDisableSanitizers
  {
    md.(canonicalHref := href)
  }

  /** Writing `Canonical` is seen through every canonical entry of the link
      list, and no other entry changes. */
  lemma {:induction false} CanonicalIsShared(md: SpaMetaData, href: Option<string>)
    requires md.links.Some?
    ensures Links(SetCanonical(md, href)).Some?
    ensures forall k :: 0 <= k < |md.links.value| ==>
      Links(SetCanonical(md, href)).value[k] ==
        if md.links.value[k].CanonicalLink? then SpaMetaLink(href, Some("canonical"), None, None, None)
        else Links(md).value[k]
  {
  }

  /** On a new instance, the first link's `href` is whatever `Canonical` was
      last set to. */
  lemma CanonicalReadsFirstLink(href: Option<string>)
    ensures Links(SetCanonical(New(), href)) == Some([SpaMetaLink(href, Some("canonical"), None, None, None)])
    ensures Canonical(SetCanonical(New(), href)) == href
  {
    var links := Links(SetCanonical(New(), href)).value;
    assert links[0] == CanonicalLinkWith(href);
    assert links == [CanonicalLinkWith(href)];
  }

  /** `AppendLink(link)`: creates the list when it is null, adds the link at
      the end and returns it. The link is an entry, so appending the
      canonical link object read from `links` appends that same object. */
  function AppendLink(md: SpaMetaData, link: LinkEntry): (r: (SpaMetaData, LinkEntry))
    ensures r.1 == link
    ensures r.0.links == Some((if md.links.None? then [] else md.links.value) + [link])
    ensures Links(r.0).Some?
    ensures Links(r.0).value == (if md.links.None? then [] else Links(md).value) + [ViewEntry(md.canonicalHref, link)]
    ensures Canonical(r.0) == Canonical(md) && r.0.scripts == md.scripts
    ensures r.0.dangerouslyDisableSanitizers == md.dangerouslyDisableSanitizers
  {
    var entries := if md.links.None? then [] else md.links.value;
    var r := md.(links := Some(entries + [link]));
    assert Links(r).value == ViewEntries(md.canonicalHref, entries) + [ViewEntry(md.canonicalHref, link)];
    (r, link)
  }

  /** `AppendLink(href, rel, type, media, sizes)`: a new link object, never
      the canonical one. */
  function AppendLinkWith(md: SpaMetaData, href: Option<string>, rel: Option<string>, linkType: Option<string>,
                          media: Option<string>, sizes: Option<string>): (r: (SpaMetaData, LinkEntry))
    ensures r.1 == Plain(SpaMetaLink(href, rel, linkType, media, sizes))
    ensures r == AppendLink(md, r.1)
  {
    AppendLink(md, Plain(SpaMetaLink(href, rel, linkType, media, sizes)))
  }

  /** `AppendScript(script)`: adds the script at the end and returns it; a
      null script list fails with a null reference. */
  function AppendScript(md: SpaMetaData, script: SpaMetaScript): (r: Result<(SpaMetaData, SpaMetaScript), Requests.Exception>)
    ensures md.scripts.None? <==> r.Failure?
    ensures r.Failure? ==> r.error == Requests.NullReferenceException
    ensures r.Success? ==> r.value.1 == script && r.value.0.scripts == Some(md.scripts.value + [script])
    ensures r.Success? ==> Links(r.value.0) == Links(md)
    ensures r.Success? ==> r.value.0.dangerouslyDisableSanitizers == md.dangerouslyDisableSanitizers
  {
    if md.scripts.None? then Failure(Requests.NullReferenceException)
    else Success((md.(scripts := Some(md.scripts.value + [script])), script))
  }

  /** `AppendScript(source, type)`. */
  function AppendScriptWith(md: SpaMetaData, source: Option<string>, scriptType: Option<string>): (r: Result<(SpaMetaData, SpaMetaScript), Requests.Exception>)
    ensures r == AppendScript(md, SpaMetaScript(source, scriptType))
    ensures r.Success? ==> r.value.1.source == source && r.value.1.scriptType == scriptType
  {
    AppendScript(md, SpaMetaScript(source, scriptType))
  }

  /** Assigning `Links`: the new list replaces the old one. `Canonical`
      still reads the canonical link object, and every position of the new
      list that holds that object reads it too. */
  function SetLinks(md: SpaMetaData, links: Option<seq<LinkEntry>>): (r: SpaMetaData)
    ensures r.links == links
    ensures links.None? <==> Links(r).None?
    ensures links.Some? ==> |Links(r).value| == |links.value|
    ensures links.Some? ==> forall k :: 0 <= k < |links.value| ==>
      Links(r).value[k] == ViewEntry(md.canonicalHref, links.value[k])
    ensures Canonical(r) == Canonical(md)
  {
    md.(links := links)
  }

  /** Whether an entry list holds the canonical link object. */
  predicate HoldsCanonical(entries: seq<LinkEntry>) {
    exists k :: 0 <= k < |entries| && entries[k].CanonicalLink?
  }

  /** A new list of other links only no longer shows `Canonical`: whatever
      `Canonical` is set to afterwards, the list reads the same. */
  lemma CanonicalDetachedByNewLinks(md: SpaMetaData, links: seq<LinkEntry>, href: Option<string>, other: Option<string>)
    requires !HoldsCanonical(links)
    ensures Links(SetCanonical(SetLinks(md, Some(links)), href)) == Links(SetCanonical(SetLinks(md, Some(links)), other))
    ensures Canonical(SetCanonical(SetLinks(md, Some(links)), href)) == href
  {
    var a := Links(SetCanonical(SetLinks(md, Some(links)), href)).value;
    var b := Links(SetCanonical(SetLinks(md, Some(links)), other)).value;
    assert |a| == |links| == |b|;
    forall k | 0 <= k < |links| ensures a[k] == b[k] {
      assert !links[k].CanonicalLink?;
    }
    assert a == b;
  }

  /** A new list that still holds the canonical link object keeps following
      `Canonical` at that position: copying the list into a new one and then
      setting `Canonical` shows in the copy. */
  lemma {:induction false} CanonicalFollowsNewLinks(md: SpaMetaData, links: seq<LinkEntry>, k: nat, href: Option<string>)
    requires k < |links| && links[k].CanonicalLink?
    ensures Links(SetCanonical(SetLinks(md, Some(links)), href)).Some?
    ensures Links(SetCanonical(SetLinks(md, Some(links)), href)).value[k].href == href
  {
    CanonicalIsShared(SetLinks(md, Some(links)), href);
  }

  /** Appending the canonical link object read from the list of a new
      instance, then setting `Canonical`, shows the value twice. */
  lemma CanonicalAppendedTwice(href: Option<string>)
    ensures var md := SetCanonical(AppendLink(New(), New().links.value[0]).0, href);
      Links(md) == Some([CanonicalLinkWith(href), CanonicalLinkWith(href)])
  {
    var made := New();
    var appended := AppendLink(made, made.links.value[0]).0;
    assert appended.links == Some([CanonicalLink] + [CanonicalLink]);
    var md := SetCanonical(appended, href);
    assert md.links.value == [CanonicalLink, CanonicalLink];
    assert Links(md).value[0] == CanonicalLinkWith(href);
    assert Links(md).value[1] == CanonicalLinkWith(href);
    assert Links(md).value == [CanonicalLinkWith(href), CanonicalLinkWith(href)];
  }

  /** Assigning `Scripts`. */
  function SetScripts(md: SpaMetaData, scripts: Option<seq<SpaMetaScript>>): (r: SpaMetaData)
    ensures r.scripts == scripts
    ensures r.dangerouslyDisableSanitizers == md.dangerouslyDisableSanitizers
    ensures Links(r) == Links(md) && Canonical(r) == Canonical(md)
  {
    md.(scripts := scripts)
  }

  /** The updates a caller can make. */
  datatype Update =
    | SetCanonicalTo(href: Option<string>)
    | AppendLinkOf(link: LinkEntry)
    | AppendScriptOf(script: SpaMetaScript)
    | SetLinksTo(links: Option<seq<LinkEntry>>)
    | SetScriptsTo(scripts: Option<seq<SpaMetaScript>>)

  function Apply(md: SpaMetaData, u: Update): Result<SpaMetaData, Requests.Exception> {
    match u
    case SetCanonicalTo(href) => Success(SetCanonical(md, href))
    case AppendLinkOf(link) => Success(AppendLink(md, link).0)
    case AppendScriptOf(script) =>
      (match AppendScript(md, script) case Success(p) => Success(p.0) case Failure(e) => Failure(e))
    case SetLinksTo(links) => Success(SetLinks(md, links))
    case SetScriptsTo(scripts) => Success(SetScripts(md, scripts))
  }

  /** Applies the updates in order, stopping at the first that fails. */
  function ApplyAll(md: SpaMetaData, us: seq<Update>): Result<SpaMetaData, Requests.Exception>
    decreases |us|
  {
    if |us| == 0 then Success(md)
    else match Apply(md, us[0])
      case Failure(e) => Failure(e)
      case Success(next) => ApplyAll(next, us[1..])
  }

  /** The sanitizer list is computed once, in the constructor, when there
      are no scripts yet: it stays empty whatever scripts are added later. */
  lemma {:induction false} SanitizersStayEmpty(us: seq<Update>)
    ensures ApplyAll(New(), us).Success? ==> ApplyAll(New(), us).value.dangerouslyDisableSanitizers == []
  {
    SanitizersUnchanged(New(), us);
  }

  lemma {:induction false} SanitizersUnchanged(md: SpaMetaData, us: seq<Update>)
    ensures ApplyAll(md, us).Success? ==>
      ApplyAll(md, us).value.dangerouslyDisableSanitizers == md.dangerouslyDisableSanitizers
    decreases |us|
  {
    if |us| > 0 {
      match Apply(md, us[0])
      case Failure(_) =>
      case Success(next) =>
        SanitizersUnchanged(next, us[1..]);
    }
  }

  /** Scripts can be appended to a new instance. */
  lemma NewAcceptsScripts(script: SpaMetaScript)
    ensures AppendScript(New(), script).Success?
    ensures AppendScript(New(), script).value.0.scripts == Some([script])
    ensures AppendScript(New(), script).value.0.dangerouslyDisableSanitizers == []
  {
    assert [] + [script] == [script];
  }

  /** `OpenGraph`: the memoised value, or else the one the factory makes
      (stored only when not null). */
  function ReadOpenGraph(md: SpaMetaData, made: Option<OpenGraph.SpaOpenGraphProperties>): (r: (SpaMetaData, Option<OpenGraph.SpaOpenGraphProperties>))
    ensures md.openGraph.Some? ==> r == (md, md.openGraph)
    ensures md.openGraph.None? ==> r.1 == made && r.0 == md.(openGraph := made)
  {
    if md.openGraph.Some? then (md, md.openGraph) else (md.(openGraph := made), made)
  }

  /** What `GetOpenGraph` makes by default: properties for the page. */
  function DefaultOpenGraph(contentUrlWithDomain: string): (og: Option<OpenGraph.SpaOpenGraphProperties>)
    ensures og.Some? && og.value.images == []
    ensures og.value.baseUrl == Some(OpenGraph.SiteRoot(contentUrlWithDomain))
  {
    Some(OpenGraph.FromNode(contentUrlWithDomain))
  }

  /** Once `OpenGraph` has yielded a value, every later read yields that
      same value, whatever the factory would make. */
  lemma OpenGraphMemoised(md: SpaMetaData, first: Option<OpenGraph.SpaOpenGraphProperties>, later: Option<OpenGraph.SpaOpenGraphProperties>)
    requires ReadOpenGraph(md, first).1.Some?
    ensures ReadOpenGraph(ReadOpenGraph(md, first).0, later) == ReadOpenGraph(md, first)
  {
  }

  /** `TwitterCard`: the memoised card, or else the one the factory makes. */
  function ReadTwitterCard(md: SpaMetaData, made: Option<TwitterCards.TwitterSummaryCard>): (r: (SpaMetaData, Option<TwitterCards.TwitterSummaryCard>))
    ensures md.twitterCard.Some? ==> r == (md, md.twitterCard)
    ensures md.twitterCard.None? ==> r.1 == made && r.0 == md.(twitterCard := made)
  {
    if md.twitterCard.Some? then (md, md.twitterCard) else (md.(twitterCard := made), made)
  }

  /** What `GetTwitterCard` makes by default: no card. */
  const DefaultTwitterCard: Option<TwitterCards.TwitterSummaryCard> := None

  /** `HasTwitterCard`: whether `TwitterCard` is not null. */
  function HasTwitterCard(md: SpaMetaData, made: Option<TwitterCards.TwitterSummaryCard>): (r: (SpaMetaData, bool))
    ensures r.1 <==> ReadTwitterCard(md, made).1.Some?
    ensures r.0 == ReadTwitterCard(md, made).0
  {
    var (next, card) := ReadTwitterCard(md, made);
    (next, card.Some?)
  }

  /** Once `TwitterCard` has yielded a card, every later read yields it. */
  lemma TwitterCardMemoised(md: SpaMetaData, first: Option<TwitterCards.TwitterSummaryCard>, later: Option<TwitterCards.TwitterSummaryCard>)
    requires ReadTwitterCard(md, first).1.Some?
    ensures ReadTwitterCard(ReadTwitterCard(md, first).0, later) == ReadTwitterCard(md, first)
  {
  }

  /** By default a page has no Twitter card, however often it is asked. */
  lemma {:induction false} NoTwitterCardByDefault(md: SpaMetaData)
    requires md.twitterCard.None?
    ensures !HasTwitterCard(md, DefaultTwitterCard).1
    ensures HasTwitterCard(md, DefaultTwitterCard).0 == md
  {
  }
}
