/** The Twitter summary card and the meta entries it renders to. */
module TwitterCards {
  import opened Wrappers
  import opened Strings

  /** A `<meta>` entry: its name and its content. */
  datatype SpaMetaContent = SpaMetaContent(name: string, content: string)

  /** The card's settable properties; each may be null. */
  datatype TwitterSummaryCard = TwitterSummaryCard(
    site: Option<string>,
    creator: Option<string>,
    title: Option<string>,
    description: Option<string>,
    image: Option<string>,
    imageText: Option<string>)

  /** The type of the card. */
  const SummaryCard: string := "summary"

  /** The entries a card can render, in rendering order. */
  datatype TwitterProperty = CardType | SiteHandle | CreatorHandle | Title | Description | Image | ImageAlt

  const Properties: seq<TwitterProperty> :=
    [CardType, SiteHandle, CreatorHandle, Title, Description, Image, ImageAlt]

  function Name(p: TwitterProperty): string {
    match p
    case CardType => "twitter:card"
    case SiteHandle => "twitter:site"
    case CreatorHandle => "twitter:creator"
    case Title => "twitter:title"
    case Description => "twitter:description"
    case Image => "twitter:image"
    case ImageAlt => "twitter:image:alt"
  }

  /** A user name as a handle: prefixed with `@` unless it already is. */
  function AtHandle(user: string): (handle: string)
    ensures StartsWith(handle, "@")
    ensures StartsWith(user, "@") ==> handle == user
    ensures !StartsWith(user, "@") ==> handle == "@" + user
  {
    if StartsWith(user, "@") then user else "@" + user
  }

  /** Making a handle of a handle changes nothing. */
  lemma AtHandleIdempotent(user: string)
    ensures AtHandle(AtHandle(user)) == AtHandle(user)
  {
  }

  /** The content a property renders with, or `None` when it is left out
      (a null or empty value). */
  function Content(c: TwitterSummaryCard, p: TwitterProperty): (v: Option<string>)
    ensures v.Some? ==> |v.value| > 0
  {
    match p
    case CardType => Some(SummaryCard)
    case SiteHandle => if IsNullOrEmpty(c.site) then None else Some(AtHandle(c.site.value))
    case CreatorHandle => if IsNullOrEmpty(c.creator) then None else Some(AtHandle(c.creator.value))
    case Title => if IsNullOrEmpty(c.title) then None else c.title
    case Description => if IsNullOrEmpty(c.description) then None else c.description
    case Image => if IsNullOrEmpty(c.image) then None else c.image
    case ImageAlt => if IsNullOrEmpty(c.imageText) then None else c.imageText
  }

  /** The entries for the properties `ps`, in order, skipping left-out ones. */
  function Emit(c: TwitterSummaryCard, ps: seq<TwitterProperty>): (meta: seq<SpaMetaContent>)
    ensures |meta| <= |ps|
  {
    if |ps| == 0 then []
    else
      (match Content(c, ps[0]) case Some(v) => [SpaMetaContent(Name(ps[0]), v)] case None => [])
      + Emit(c, ps[1..])
  }

  /** `ToMeta`: the card type first, then site, creator, title, description,
      image and image text, each only when set. */
  function ToMeta(c: TwitterSummaryCard): (meta: seq<SpaMetaContent>)
    ensures 1 <= |meta| <= 7
    ensures meta[0] == SpaMetaContent("twitter:card", SummaryCard)
  {
    Emit(c, Properties)
  }

  /** The content of the first entry named `name`, if any. */
  function Lookup(meta: seq<SpaMetaContent>, name: string): Option<string> {
    if |meta| == 0 then None
    else if meta[0].name == name then Some(meta[0].content)
    else Lookup(meta[1..], name)
  }

  /** The card the entries describe. */
  function FromMeta(meta: seq<SpaMetaContent>): TwitterSummaryCard {
    TwitterSummaryCard(
      Lookup(meta, "twitter:site"), Lookup(meta, "twitter:creator"),
      Lookup(meta, "twitter:title"), Lookup(meta, "twitter:description"),
      Lookup(meta, "twitter:image"), Lookup(meta, "twitter:image:alt"))
  }

  /** The card as it renders: empty values read as null and the two user
      names as handles. */
  function Normalized(c: TwitterSummaryCard): TwitterSummaryCard {
    TwitterSummaryCard(
      if IsNullOrEmpty(c.site) then None else Some(AtHandle(c.site.value)),
      if IsNullOrEmpty(c.creator) then None else Some(AtHandle(c.creator.value)),
      if IsNullOrEmpty(c.title) then None else c.title,
      if IsNullOrEmpty(c.description) then None else c.description,
      if IsNullOrEmpty(c.image) then None else c.image,
      if IsNullOrEmpty(c.imageText) then None else c.imageText)
  }

  lemma NamesDistinct(p: TwitterProperty, q: TwitterProperty)
    requires p != q
    ensures Name(p) != Name(q)
  {
    assert Name(p)[8] != Name(q)[8] || Name(p)[9] != Name(q)[9] || |Name(p)| != |Name(q)|;
  }

  /** Looking a property's name up in the entries finds its content. */
  lemma {:induction false} EmitLookup(c: TwitterSummaryCard, ps: seq<TwitterProperty>, p: TwitterProperty)
    ensures Lookup(Emit(c, ps), Name(p)) == if p in ps then Content(c, p) else None
  {
    if |ps| > 0 {
      EmitLookup(c, ps[1..], p);
      assert ps == [ps[0]] + ps[1..];
      if ps[0] != p {
        NamesDistinct(ps[0], p);
      }
      var out := Emit(c, ps);
      if Content(c, ps[0]).Some? {
        assert out[1..] == Emit(c, ps[1..]);
      } else {
        assert out == Emit(c, ps[1..]);
      }
    }
  }

  /** The entries encode exactly the normalized card: reading the card back
      from them gives the normalized card. */
  lemma ToMetaRoundTrip(c: TwitterSummaryCard)
    ensures FromMeta(ToMeta(c)) == Normalized(c)
  {
    EmitLookup(c, Properties, SiteHandle);
    EmitLookup(c, Properties, CreatorHandle);
    EmitLookup(c, Properties, Title);
    EmitLookup(c, Properties, Description);
    EmitLookup(c, Properties, Image);
    EmitLookup(c, Properties, ImageAlt);
  }

  /** Normalizing is idempotent, and a normalized card renders the same
      entries as the original: handles are never prefixed twice. */
  lemma NormalizeIdempotent(c: TwitterSummaryCard)
    ensures Normalized(Normalized(c)) == Normalized(c)
    ensures ToMeta(Normalized(c)) == ToMeta(c)
  {
    forall p | p in Properties
      ensures Content(Normalized(c), p) == Content(c, p)
    {
    }
    EmitSameContent(Normalized(c), c, Properties);
  }

  lemma {:induction false} EmitSameContent(c: TwitterSummaryCard, d: TwitterSummaryCard, ps: seq<TwitterProperty>)
    requires forall p :: p in ps ==> Content(c, p) == Content(d, p)
    ensures Emit(c, ps) == Emit(d, ps)
  {
    if |ps| > 0 {
      assert ps[0] in ps;
      assert forall p :: p in ps[1..] ==> p in ps;
      EmitSameContent(c, d, ps[1..]);
    }
  }

  /** `xs` can be obtained from `ys` by deleting elements. */
  ghost predicate IsSubsequence<T>(xs: seq<T>, ys: seq<T>)
    decreases |ys|
  {
    if |xs| == 0 then true
    else if |ys| == 0 then false
    else if xs[0] == ys[0] then IsSubsequence(xs[1..], ys[1..])
    else IsSubsequence(xs, ys[1..])
  }

  function Names(meta: seq<SpaMetaContent>): (names: seq<string>)
    ensures |names| == |meta|
    ensures forall i :: 0 <= i < |meta| ==> names[i] == meta[i].name
  {
    if |meta| == 0 then [] else [meta[0].name] + Names(meta[1..])
  }

  function PropertyNames(ps: seq<TwitterProperty>): (names: seq<string>)
    ensures |names| == |ps|
    ensures forall i :: 0 <= i < |ps| ==> names[i] == Name(ps[i])
  {
    if |ps| == 0 then [] else [Name(ps[0])] + PropertyNames(ps[1..])
  }

  /** The entries keep the canonical order: their names are a subsequence of
      card, site, creator, title, description, image, image alt. */
  lemma {:induction false} EmitOrdered(c: TwitterSummaryCard, ps: seq<TwitterProperty>)
    ensures IsSubsequence(Names(Emit(c, ps)), PropertyNames(ps))
  {
    if |ps| > 0 {
      var rest := Names(Emit(c, ps[1..]));
      var all := PropertyNames(ps);
      EmitOrdered(c, ps[1..]);
      EmitNamesStep(c, ps);
      assert all[1..] == PropertyNames(ps[1..]);
      if Content(c, ps[0]).Some? {
        SubsequenceCons(Name(ps[0]), rest, all);
      } else {
        assert Names(Emit(c, ps)) == [] + rest == rest;
        SubsequenceSkip(rest, all);
      }
    }
  }

  /** The names emitted are the first property's when it is set, then the
      names emitted for the rest. */
  lemma EmitNamesStep(c: TwitterSummaryCard, ps: seq<TwitterProperty>)
    requires |ps| > 0
    ensures Names(Emit(c, ps))
         == (if Content(c, ps[0]).Some? then [Name(ps[0])] else []) + Names(Emit(c, ps[1..]))
  {
    var head := match Content(c, ps[0]) case Some(v) => [SpaMetaContent(Name(ps[0]), v)] case None => [];
    assert Emit(c, ps) == head + Emit(c, ps[1..]);
    NamesAppend(head, Emit(c, ps[1..]));
  }

  lemma {:induction false} NamesAppend(a: seq<SpaMetaContent>, b: seq<SpaMetaContent>)
    ensures Names(a + b) == Names(a) + Names(b)
  {
    var na := Names(a);
    var nb := Names(b);
    var nab := Names(a + b);
    assert forall i :: 0 <= i < |a| ==> nab[i] == (a + b)[i].name == na[i];
    assert forall i :: 0 <= i < |b| ==> nab[|a| + i] == (a + b)[|a| + i].name == nb[i];
    assert nab == na + nb;
  }

  /** A matching head extends a subsequence of the tail. */
  lemma SubsequenceCons<T>(x: T, xs: seq<T>, ys: seq<T>)
    requires |ys| > 0 && ys[0] == x && IsSubsequence(xs, ys[1..])
    ensures IsSubsequence([x] + xs, ys)
  {
    assert ([x] + xs)[1..] == xs;
  }

  /** A subsequence of a tail is a subsequence of the whole. */
  lemma {:induction false} SubsequenceSkip<T>(xs: seq<T>, ys: seq<T>)
    requires |ys| > 0 && IsSubsequence(xs, ys[1..])
    ensures IsSubsequence(xs, ys)
    decreases |xs| + |ys|
  {
    if |xs| > 0 && xs[0] == ys[0] {
      SubsequenceDropHead(xs, ys[1..]);
    }
  }

  /** Dropping the head of a subsequence keeps it a subsequence. */
  lemma {:induction false} SubsequenceDropHead<T>(xs: seq<T>, ys: seq<T>)
    requires |xs| > 0 && IsSubsequence(xs, ys)
    ensures IsSubsequence(xs[1..], ys)
    decreases |xs| + |ys|
  {
    if xs[0] == ys[0] {
      SubsequenceSkip(xs[1..], ys);
    } else {
      SubsequenceDropHead(xs, ys[1..]);
      SubsequenceSkip(xs[1..], ys);
    }
  }

  lemma ToMetaOrdered(c: TwitterSummaryCard)
    ensures IsSubsequence(Names(ToMeta(c)), PropertyNames(Properties))
  {
    EmitOrdered(c, Properties);
  }
}
