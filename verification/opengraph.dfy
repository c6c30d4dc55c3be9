/** Open Graph properties: the base URL, the image list and the ordered
    `og:` entries they render to. */
module OpenGraph {
  import opened Wrappers
  import opened Strings
  import Requests

  /** An image; a width or height of 0 means "not given". */
  datatype SpaOpenGraphImage = SpaOpenGraphImage(url: string, width: int, height: int)

  /** The width and height of the cropped images added from content. */
  const CropWidth: int := 1200
  const CropHeight: int := 630

  datatype SpaOpenGraphProperties = SpaOpenGraphProperties(
    baseUrl: Option<string>,
    title: Option<string>,
    description: Option<string>,
    siteName: Option<string>,
    url: Option<string>,
    images: seq<SpaOpenGraphImage>)

  /** A new instance for an explicit base URL. */
  function FromBaseUrl(baseUrl: Option<string>): (og: SpaOpenGraphProperties)
    ensures og.baseUrl == baseUrl && og.images == []
    ensures og.title.None? && og.description.None? && og.siteName.None? && og.url.None?
  {
    SpaOpenGraphProperties(baseUrl, None, None, None, None, [])
  }

  /** The first `n` elements, as LINQ's `Take(n)`. */
  function Take<T>(xs: seq<T>, n: nat): (ys: seq<T>)
    ensures |ys| == if n < |xs| then n else |xs|
  {
    if n < |xs| then xs[..n] else xs
  }

  /** The number of occurrences of `c` in `s`. */
  function Count(s: string, c: char): nat {
    multiset(s)[c]
  }

  lemma CountAbsent(s: string, c: char)
    requires c !in s
    ensures Count(s, c) == 0
  {
    assert c !in multiset(s);
  }

  /** Counting across a first separator. */
  lemma {:induction false} CountAround(p: string, c: char, t: string)
    requires c !in p
    ensures Count(p + [c] + t, c) == 1 + Count(t, c)
  {
    assert multiset(p + [c] + t) == multiset(p) + multiset{c} + multiset(t);
    CountAbsent(p, c);
  }

  lemma {:induction false} TakeCons<T>(x: T, xs: seq<T>, n: nat)
    requires n >= 1
    ensures Take([x] + xs, n) == [x] + Take(xs, n - 1)
  {
  }

  lemma {:induction false} StartsWithAfter(p: string, t: string, r: string)
    requires StartsWith(t, r)
    ensures StartsWith(p + t, p + r)
  {
    assert (p + t)[..|p + r|] == p + t[..|r|];
  }

  /** The first `n` pieces of `s` split at `c`, joined again with `c`. */
  function JoinTake(s: string, c: char, n: nat): string {
    Join(c, Take(Split(s, c), n))
  }

  /** Past a first separator at `i`, the joined prefix is the piece before
      it, the separator, and the joined prefix of the rest with one piece
      fewer. */
  lemma {:induction false} JoinTakeStep(s: string, c: char, n: nat, i: nat)
    requires n >= 2 && i == IndexOf(s, c) && i < |s|
    ensures JoinTake(s, c, n) == s[..i] + [c] + JoinTake(s[i + 1..], c, n - 1)
  {
    var head := s[..i];
    var t := s[i + 1..];
    var rest := Take(Split(t, c), n - 1);
    assert Take(Split(s, c), n) == [head] + rest by {
      SplitStep(s, c, i);
      TakeCons(head, Split(t, c), n);
    }
    assert |rest| >= 1;
    JoinCons(c, head, rest);
  }

  /** Without a separator, the joined prefix is the whole string. */
  lemma {:induction false} JoinTakeWhole(s: string, c: char, n: nat)
    requires n >= 1 && IndexOf(s, c) == |s|
    ensures JoinTake(s, c, n) == s
    ensures Count(s, c) == 0
  {
    assert Split(s, c) == [s];
    TakeCons(s, [], n);
    IndexOfPrefixFree(s, c);
    CountAbsent(s, c);
  }

  /** One piece is the text before the first separator at `i`. */
  lemma {:induction false} JoinTakeFirst(s: string, c: char, i: nat)
    requires i == IndexOf(s, c) && i < |s|
    ensures JoinTake(s, c, 1) == s[..i]
  {
    SplitStep(s, c, i);
    TakeCons(s[..i], Split(s[i + 1..], c), 1);
  }

  /** The first `n` pieces of `s` joined again, computed piece by piece. */
  function Pieces(s: string, c: char, n: nat): string
    decreases |s|
  {
    var i := IndexOf(s, c);
    if n == 0 then ""
    else if i == |s| then s
    else if n == 1 then s[..i]
    else s[..i] + [c] + Pieces(s[i + 1..], c, n - 1)
  }

  lemma {:induction false} PiecesStep(s: string, c: char, n: nat, i: nat)
    requires n >= 2 && i == IndexOf(s, c) && i < |s|
    ensures Pieces(s, c, n) == s[..i] + [c] + Pieces(s[i + 1..], c, n - 1)
  {
  }

  lemma {:induction false} JoinTakePiecesZero(s: string, c: char)
    ensures JoinTake(s, c, 0) == Pieces(s, c, 0)
  {
    assert Take(Split(s, c), 0) == [];
  }

  lemma {:induction false} JoinTakePiecesWhole(s: string, c: char, n: nat)
    requires n >= 1 && IndexOf(s, c) == |s|
    ensures JoinTake(s, c, n) == Pieces(s, c, n)
  {
    JoinTakeWhole(s, c, n);
  }

  lemma {:induction false} JoinTakePiecesOne(s: string, c: char, i: nat)
    requires i == IndexOf(s, c) && i < |s|
    ensures JoinTake(s, c, 1) == Pieces(s, c, 1)
  {
    JoinTakeFirst(s, c, i);
  }

  lemma {:induction false} JoinTakePiecesMore(s: string, c: char, n: nat, i: nat)
    requires n >= 2 && i == IndexOf(s, c) && i < |s|
    requires JoinTake(s[i + 1..], c, n - 1) == Pieces(s[i + 1..], c, n - 1)
    ensures JoinTake(s, c, n) == Pieces(s, c, n)
  {
    JoinTakeStep(s, c, n, i);
    PiecesStep(s, c, n, i);
  }

  /** Joining the first `n` pieces of a split is `Pieces`. */
  lemma {:induction false} JoinTakePieces(s: string, c: char, n: nat)
    ensures JoinTake(s, c, n) == Pieces(s, c, n)
    decreases |s|
  {
    var i := IndexOf(s, c);
    if n == 0 {
      JoinTakePiecesZero(s, c);
    } else if i == |s| {
      JoinTakePiecesWhole(s, c, n);
    } else if n == 1 {
      JoinTakePiecesOne(s, c, i);
    } else {
      JoinTakePieces(s[i + 1..], c, n - 1);
      JoinTakePiecesMore(s, c, n, i);
    }
  }


  /** The inductive step of `JoinTakeSplit`, on plain strings. */
  lemma {:induction false} PrefixAfterSeparator(s: string, p: string, c: char, t: string, r: string, n: nat)
    requires n >= 2 && s == p + [c] + t && c !in p
    requires StartsWith(t, r)
    requires Count(r, c) == (if n - 2 < Count(t, c) then n - 2 else Count(t, c))
    requires r == t || t[|r|] == c
    ensures StartsWith(s, p + [c] + r)
    ensures Count(p + [c] + r, c) == (if n - 1 < Count(s, c) then n - 1 else Count(s, c))
    ensures p + [c] + r == s || s[|p + [c] + r|] == c
  {
    CountAround(p, c, t);
    CountAround(p, c, r);
    StartsWithAfter(p + [c], t, r);
    if r != t {
      assert s[|p + [c] + r|] == t[|r|];
    }
  }

  /** The first `n` pieces of `s` are its longest prefix with fewer than
      `n` separators: a prefix, with `min(n - 1, Count(s, c))` separators,
      that is all of `s` or stops right before a separator. */
  ghost predicate LongestPrefix(s: string, r: string, c: char, n: nat) {
    && StartsWith(s, r)
    && Count(r, c) == (if n - 1 < Count(s, c) then n - 1 else Count(s, c))
    && (r == s || s[|r|] == c)
  }

  /** Any number of pieces of a string without a separator. */
  lemma PiecesWhole(s: string, c: char, n: nat)
    requires n >= 1 && IndexOf(s, c) == |s|
    ensures LongestPrefix(s, Pieces(s, c, n), c, n)
  {
    IndexOfPrefixFree(s, c);
    CountAbsent(s, c);
  }

  /** One piece of a string with a separator. */
  lemma PiecesOne(s: string, c: char)
    requires IndexOf(s, c) < |s|
    ensures LongestPrefix(s, Pieces(s, c, 1), c, 1)
  {
    var i := IndexOf(s, c);
    IndexOfPrefixFree(s, c);
    CountAround(s[..i], c, s[i + 1..]);
    assert s == s[..i] + [c] + s[i + 1..];
    CountAbsent(s[..i], c);
  }

  /** More than one piece of a string with a separator, from the pieces of
      the text after it. */
  lemma PiecesMore(s: string, c: char, n: nat, i: nat)
    requires n >= 2 && i == IndexOf(s, c) && i < |s|
    requires LongestPrefix(s[i + 1..], Pieces(s[i + 1..], c, n - 1), c, n - 1)
    ensures LongestPrefix(s, Pieces(s, c, n), c, n)
  {
    var p := s[..i];
    var t := s[i + 1..];
    var r := Pieces(t, c, n - 1);
    PiecesStep(s, c, n, i);
    SliceAround(s, i);
    IndexOfPrefixFree(s, c);
    PrefixAfterSeparator(s, p, c, t, r, n);
  }

  lemma {:induction false} PiecesPrefix(s: string, c: char, n: nat)
    requires n >= 1
    ensures LongestPrefix(s, Pieces(s, c, n), c, n)
    decreases |s|, 1
  {
    var i := IndexOf(s, c);
    if i == |s| {
      PiecesWhole(s, c, n);
    } else if n == 1 {
      PiecesOne(s, c);
    } else {
      PiecesPrefixAt(s, c, n, i);
    }
  }

  /** `PiecesPrefix` for more than one piece of a string whose first
      separator is at `i`. */
  lemma {:induction false} PiecesPrefixAt(s: string, c: char, n: nat, i: nat)
    requires n >= 2 && i == IndexOf(s, c) && i < |s|
    ensures LongestPrefix(s, Pieces(s, c, n), c, n)
    decreases |s|, 0
  {
    PiecesPrefix(s[i + 1..], c, n - 1);
    PiecesMore(s, c, n, i);
  }

  /** Joining the first `n` pieces of a split gives the longest prefix of
      `s` that holds fewer than `n` separators. */
  lemma {:induction false} JoinTakeSplit(s: string, c: char, n: nat)
    requires n >= 1
    ensures StartsWith(s, JoinTake(s, c, n))
    ensures Count(JoinTake(s, c, n), c) == (if n - 1 < Count(s, c) then n - 1 else Count(s, c))
    ensures JoinTake(s, c, n) == s || s[|JoinTake(s, c, n)|] == c
  {
    JoinTakePieces(s, c, n);
    PiecesPrefix(s, c, n);
  }

  /** The site root of a node URL: its first three `/`-separated pieces
      joined again, as `"https://host"` for `"https://host/a/b"`. */
  function SiteRoot(urlWithDomain: string): string {
    JoinTake(urlWithDomain, '/', 3)
  }

  /** A new instance for a content node whose absolute URL is given. */
  function FromNode(urlWithDomain: string): (og: SpaOpenGraphProperties)
    ensures og.baseUrl == Some(SiteRoot(urlWithDomain)) && og.images == []
    ensures og.title.None? && og.description.None? && og.siteName.None? && og.url.None?
  {
    SpaOpenGraphProperties(Some(SiteRoot(urlWithDomain)), None, None, None, None, [])
  }

  /** The site root is the longest prefix of the node URL with at most two
      slashes: it stops right before the third slash, or is the whole URL. */
  lemma {:induction false} SiteRootIsPrefix(urlWithDomain: string)
    ensures var root := SiteRoot(urlWithDomain);
      StartsWith(urlWithDomain, root)
      && Count(root, '/') == (if 2 < Count(urlWithDomain, '/') then 2 else Count(urlWithDomain, '/'))
      && (root == urlWithDomain || urlWithDomain[|root|] == '/')
  {
    JoinTakeSplit(urlWithDomain, '/', 3);
  }

  /** C#'s `+` on strings, where a null operand reads as empty. */
  function Concat(a: Option<string>, b: string): (s: string)
    ensures EndsWith(s, b)
    ensures a.None? ==> s == b
    ensures a.Some? ==> s == a.value + b
  {
    a.GetOr("") + b
  }

  /** A site-relative URL (one starting with `/`) is prefixed with the base
      URL; any other is kept. */
  function Resolve(baseUrl: Option<string>, image: string): (url: string)
    ensures EndsWith(url, image)
    ensures StartsWith(image, "/") ==> url == baseUrl.GetOr("") + image
    ensures !StartsWith(image, "/") ==> url == image
  {
    if StartsWith(image, "/") then Concat(baseUrl, image) else image
  }

  /** Resolving is idempotent when the base URL is not itself site-relative. */
  lemma {:induction false} ResolveIdempotent(baseUrl: Option<string>, image: string)
    requires baseUrl.None? || |baseUrl.value| == 0 || baseUrl.value[0] != '/'
    ensures Resolve(baseUrl, Resolve(baseUrl, image)) == Resolve(baseUrl, image)
  {
    if StartsWith(image, "/") && baseUrl.Some? && |baseUrl.value| > 0 {
      assert Resolve(baseUrl, image)[0] == baseUrl.value[0];
    }
  }

  /** `AppendImage(image)`: a null or white-space URL changes nothing;
      otherwise one image without dimensions is added at the end. */
  function AppendImage(og: SpaOpenGraphProperties, image: Option<string>): (r: SpaOpenGraphProperties)
    ensures IsNullOrWhiteSpace(image) ==> r == og
    ensures !IsNullOrWhiteSpace(image) ==>
      r == og.(images := og.images + [SpaOpenGraphImage(Resolve(og.baseUrl, image.value), 0, 0)])
  {
    AppendSizedImage(og, image, 0, 0)
  }

  /** `AppendImage(image, width, height)`. */
  function AppendSizedImage(og: SpaOpenGraphProperties, image: Option<string>, width: int, height: int): (r: SpaOpenGraphProperties)
    ensures IsNullOrWhiteSpace(image) ==> r == og
    ensures !IsNullOrWhiteSpace(image) ==>
      && r.baseUrl == og.baseUrl && r.title == og.title && r.description == og.description
      && r.siteName == og.siteName && r.url == og.url
      && |r.images| == |og.images| + 1
      && r.images[..|og.images|] == og.images
      && r.images[|og.images|] == SpaOpenGraphImage(Resolve(og.baseUrl, image.value), width, height)
  {
    if IsNullOrWhiteSpace(image) then og
    else
      og.(images := og.images + [SpaOpenGraphImage(Resolve(og.baseUrl, image.value), width, height)])
  }

  /** The images added from a batch of URLs, one per URL, in order. */
  function ResolveAll(baseUrl: Option<string>, images: seq<string>): (added: seq<SpaOpenGraphImage>)
    ensures |added| == |images|
    ensures forall k :: 0 <= k < |images| ==> added[k] == SpaOpenGraphImage(Resolve(baseUrl, images[k]), 0, 0)
  {
    if |images| == 0 then []
    else [SpaOpenGraphImage(Resolve(baseUrl, images[0]), 0, 0)] + ResolveAll(baseUrl, images[1..])
  }

  /** The URLs of a batch, or `None` if any of them is null. */
  function AllPresent(images: seq<Option<string>>): (urls: Option<seq<string>>)
    ensures urls.Some? <==> forall k :: 0 <= k < |images| ==> images[k].Some?
    ensures urls.Some? ==> |urls.value| == |images|
    ensures urls.Some? ==> forall k :: 0 <= k < |images| ==> urls.value[k] == images[k].value
  {
    if |images| == 0 then Some([])
    else if images[0].None? then None
    else match AllPresent(images[1..])
      case None => None
      case Some(rest) => Some([images[0].value] + rest)
  }

  /** `AppendImages(params string[])`: a null or empty array changes nothing;
      a null URL fails with a null reference before anything is added;
      otherwise every URL, even a blank one, is added in order. */
  function AppendImages(og: SpaOpenGraphProperties, images: Option<seq<Option<string>>>): (r: Result<SpaOpenGraphProperties, Requests.Exception>)
    ensures images.None? || |images.value| == 0 ==> r == Success(og)
    ensures r.Failure? <==> images.Some? && exists k :: 0 <= k < |images.value| && images.value[k].None?
    ensures r.Failure? ==> r.error == Requests.NullReferenceException
    ensures r.Success? && images.Some? ==>
      && r.value.baseUrl == og.baseUrl && r.value.title == og.title
      && r.value.description == og.description && r.value.siteName == og.siteName && r.value.url == og.url
      && |r.value.images| == |og.images| + |images.value|
      && r.value.images[..|og.images|] == og.images
      && forall k :: 0 <= k < |images.value| ==>
           r.value.images[|og.images| + k] == SpaOpenGraphImage(Resolve(og.baseUrl, images.value[k].value), 0, 0)
  {
    if images.None? || |images.value| == 0 then Success(og)
    else match AllPresent(images.value)
      case None => Failure(Requests.NullReferenceException)
      case Some(urls) => Success(og.(images := og.images + ResolveAll(og.baseUrl, urls)))
  }

  /** Unlike `AppendImage`, the batch form does not skip blank URLs. */
  lemma {:induction false} BatchKeepsBlankUrl(og: SpaOpenGraphProperties)
    ensures AppendImage(og, Some("")) == og
    ensures AppendImages(og, Some([Some("")])).Success?
    ensures AppendImages(og, Some([Some("")])).value.images == og.images + [SpaOpenGraphImage("", 0, 0)]
  {
  }

  lemma {:induction false} AllPresentConcat(a: seq<Option<string>>, b: seq<Option<string>>)
    ensures AllPresent(a + b) ==
      if AllPresent(a).Some? && AllPresent(b).Some? then Some(AllPresent(a).value + AllPresent(b).value) else None
  {
    if |a| == 0 {
      assert a + b == b;
      assert AllPresent(b).Some? ==> [] + AllPresent(b).value == AllPresent(b).value;
    } else {
      assert (a + b)[0] == a[0];
      assert (a + b)[1..] == a[1..] + b;
      AllPresentConcat(a[1..], b);
      if a[0].Some? && AllPresent(a[1..]).Some? && AllPresent(b).Some? {
        var ua := AllPresent(a[1..]).value;
        assert [a[0].value] + (ua + AllPresent(b).value) == ([a[0].value] + ua) + AllPresent(b).value;
      }
    }
  }

  lemma {:induction false} ResolveAllConcat(baseUrl: Option<string>, a: seq<string>, b: seq<string>)
    ensures ResolveAll(baseUrl, a + b) == ResolveAll(baseUrl, a) + ResolveAll(baseUrl, b)
  {
    if |a| == 0 {
      assert a + b == b;
    } else {
      assert (a + b)[0] == a[0];
      assert (a + b)[1..] == a[1..] + b;
      ResolveAllConcat(baseUrl, a[1..], b);
    }
  }

  /** A non-empty batch of present URLs appends their resolved images. */
  lemma {:induction false} AppendImagesValue(og: SpaOpenGraphProperties, images: seq<Option<string>>)
    requires |images| > 0 && AllPresent(images).Some?
    ensures AppendImages(og, Some(images))
         == Success(og.(images := og.images + ResolveAll(og.baseUrl, AllPresent(images).value)))
  {
  }

  /** A non-empty batch with a null URL fails. */
  lemma {:induction false} AppendImagesNull(og: SpaOpenGraphProperties, images: seq<Option<string>>)
    requires |images| > 0 && AllPresent(images).None?
    ensures AppendImages(og, Some(images)) == Failure(Requests.NullReferenceException)
  {
  }

  /** Two batches of present URLs in a row add the images of both. */
  lemma {:induction false} AppendPresentBatches(og: SpaOpenGraphProperties, a: seq<Option<string>>, b: seq<Option<string>>)
    requires |a| > 0 && |b| > 0 && AllPresent(a).Some? && AllPresent(b).Some?
    ensures AppendImages(og, Some(a)).Success?
    ensures AppendImages(AppendImages(og, Some(a)).value, Some(b)) == AppendImages(og, Some(a + b))
  {
    var ra := ResolveAll(og.baseUrl, AllPresent(a).value);
    var rb := ResolveAll(og.baseUrl, AllPresent(b).value);
    var og1 := og.(images := og.images + ra);
    AppendedInTurn(og, ra, rb);
    assert AppendImages(og, Some(a)) == Success(og1) by {
      AppendImagesValue(og, a);
    }
    assert AppendImages(og1, Some(b)) == Success(og1.(images := og1.images + rb)) by {
      AppendImagesValue(og1, b);
    }
    assert AppendImages(og, Some(a + b)) == Success(og.(images := og.images + (ra + rb))) by {
      ResolvePresentConcat(og.baseUrl, a, b);
      AppendImagesValue(og, a + b);
    }
  }

  /** Adding two lists of images in turn adds their concatenation. */
  lemma AppendedInTurn(og: SpaOpenGraphProperties, ra: seq<SpaOpenGraphImage>, rb: seq<SpaOpenGraphImage>)
    ensures og.(images := og.images + ra).baseUrl == og.baseUrl
    ensures var og1 := og.(images := og.images + ra);
      og1.(images := og1.images + rb) == og.(images := og.images + (ra + rb))
  {
    assert (og.images + ra) + rb == og.images + (ra + rb);
  }

  /** The resolved images of two batches without nulls are those of their
      concatenation. */
  lemma ResolvePresentConcat(baseUrl: Option<string>, a: seq<Option<string>>, b: seq<Option<string>>)
    requires AllPresent(a).Some? && AllPresent(b).Some?
    ensures AllPresent(a + b).Some?
    ensures ResolveAll(baseUrl, AllPresent(a + b).value)
         == ResolveAll(baseUrl, AllPresent(a).value) + ResolveAll(baseUrl, AllPresent(b).value)
  {
    AllPresentConcat(a, b);
    ResolveAllConcat(baseUrl, AllPresent(a).value, AllPresent(b).value);
  }


  /** A second batch with a null URL fails, and so does the joint batch. */
  lemma {:induction false} AppendNullSecondBatch(og: SpaOpenGraphProperties, a: seq<Option<string>>, b: seq<Option<string>>)
    requires |a| > 0 && |b| > 0 && AllPresent(a).Some? && AllPresent(b).None?
    ensures AppendImages(og, Some(a)).Success?
    ensures AppendImages(AppendImages(og, Some(a)).value, Some(b)) == AppendImages(og, Some(a + b))
  {
    AllPresentConcat(a, b);
    AppendImagesValue(og, a);
    AppendImagesNull(AppendImages(og, Some(a)).value, b);
    AppendImagesNull(og, a + b);
  }

  /** Two batches in a row add the same images as one batch of both. */
  lemma {:induction false} AppendImagesConcat(og: SpaOpenGraphProperties, a: seq<Option<string>>, b: seq<Option<string>>)
    requires AppendImages(og, Some(a)).Success?
    ensures AppendImages(AppendImages(og, Some(a)).value, Some(b)) == AppendImages(og, Some(a + b))
  {
    if |a| == 0 {
      assert a + b == b;
    } else if |b| == 0 {
      assert a + b == a;
    } else if AllPresent(b).Some? {
      AppendPresentBatches(og, a, b);
    } else {
      AppendNullSecondBatch(og, a, b);
    }
  }

  /** The cropped images of a batch of content items, given the crop URLs. */
  function CropImages(baseUrl: Option<string>, cropUrls: seq<string>): (added: seq<SpaOpenGraphImage>)
    ensures |added| == |cropUrls|
    ensures forall k :: 0 <= k < |cropUrls| ==>
      added[k] == SpaOpenGraphImage(Concat(baseUrl, cropUrls[k]), CropWidth, CropHeight)
  {
    if |cropUrls| == 0 then []
    else [SpaOpenGraphImage(Concat(baseUrl, cropUrls[0]), CropWidth, CropHeight)] + CropImages(baseUrl, cropUrls[1..])
  }

  /** `AppendImages(params IPublishedContent[])`: each item adds its
      1200x630 crop, prefixed with the base URL, at the end. */
  function AppendCropImages(og: SpaOpenGraphProperties, cropUrls: Option<seq<string>>): (r: SpaOpenGraphProperties)
    ensures cropUrls.None? ==> r == og
    ensures cropUrls.Some? ==> r == og.(images := og.images + CropImages(og.baseUrl, cropUrls.value))
  {
    if cropUrls.None? || |cropUrls.value| == 0 then og
    else og.(images := og.images + CropImages(og.baseUrl, cropUrls.value))
  }

  /** `PrependImages`: the crops go first, in input order, and the earlier
      list follows unchanged. */
  function PrependImages(og: SpaOpenGraphProperties, cropUrls: Option<seq<string>>): (r: SpaOpenGraphProperties)
    ensures cropUrls.None? ==> r == og
    ensures cropUrls.Some? ==>
      && r.baseUrl == og.baseUrl && r.title == og.title && r.description == og.description
      && r.siteName == og.siteName && r.url == og.url
      && |r.images| == |cropUrls.value| + |og.images|
      && r.images[|cropUrls.value|..] == og.images
      && forall k :: 0 <= k < |cropUrls.value| ==>
           r.images[k] == SpaOpenGraphImage(Concat(og.baseUrl, cropUrls.value[k]), CropWidth, CropHeight)
  {
    if cropUrls.None? || |cropUrls.value| == 0 then og
    else og.(images := CropImages(og.baseUrl, cropUrls.value) + og.images)
  }

  /** Prepending two batches puts the later batch in front of the earlier. */
  lemma {:induction false} PrependImagesTwice(og: SpaOpenGraphProperties, a: seq<string>, b: seq<string>)
    ensures PrependImages(PrependImages(og, Some(a)), Some(b)) == PrependImages(og, Some(b + a))
  {
    var r := PrependImages(PrependImages(og, Some(a)), Some(b));
    var s := PrependImages(og, Some(b + a));
    assert |r.images| == |s.images|;
    forall k | 0 <= k < |r.images|
      ensures r.images[k] == s.images[k]
    {
      if k < |b| {
        assert (b + a)[k] == b[k];
      } else if k < |b| + |a| {
        assert (b + a)[k] == a[k - |b|];
        assert r.images[k] == PrependImages(og, Some(a)).images[k - |b|];
      } else {
        assert r.images[k] == PrependImages(og, Some(a)).images[k - |b|];
      }
    }
  }

  /** An `og:` meta entry; the value may be null. */
  datatype MetaProperty = MetaProperty(name: string, value: Option<string>)

  /** The entries of one image: its URL, then its width and height when
      positive. */
  function ImageEntries(image: SpaOpenGraphImage): seq<MetaProperty> {
    [MetaProperty("og:image", Some(image.url))] + WidthEntries(image) + HeightEntries(image)
  }

  function WidthEntries(image: SpaOpenGraphImage): seq<MetaProperty> {
    if image.width > 0 then [MetaProperty("og:image:width", Some(NatToString(image.width)))] else []
  }

  function HeightEntries(image: SpaOpenGraphImage): seq<MetaProperty> {
    if image.height > 0 then [MetaProperty("og:image:height", Some(NatToString(image.height)))] else []
  }

  function ImagesEntries(images: seq<SpaOpenGraphImage>): (entries: seq<MetaProperty>)
    ensures |images| <= |entries| <= 3 * |images|
    ensures |images| > 0 ==> entries[0] == MetaProperty("og:image", Some(images[0].url))
  {
    if |images| == 0 then [] else ImageEntries(images[0]) + ImagesEntries(images[1..])
  }

  /** `WriteJson`: title, description, site name and URL, then the images
      in list order. */
  function WriteJson(og: SpaOpenGraphProperties): (entries: seq<MetaProperty>)
    ensures 4 + |og.images| <= |entries| <= 4 + 3 * |og.images|
    ensures entries[..4] == [
      MetaProperty("og:title", og.title), MetaProperty("og:description", og.description),
      MetaProperty("og:site_name", og.siteName), MetaProperty("og:url", og.url)]
    ensures entries[4..] == ImagesEntries(og.images)
  {
    Header(og) + ImagesEntries(og.images)
  }

  /** The entries written before the images. */
  function Header(og: SpaOpenGraphProperties): seq<MetaProperty> {
    [MetaProperty("og:title", og.title), MetaProperty("og:description", og.description),
     MetaProperty("og:site_name", og.siteName), MetaProperty("og:url", og.url)]
  }

  /** A dimension as rendered: non-positive values are not written. */
  function ShownSize(n: int): nat {
    if n > 0 then n else 0
  }

  /** A dimension read back from an entry value. */
  function ReadDimension(value: Option<string>): nat {
    if value.Some? && |value.value| >= 1 && AllDigits(value.value) then DigitsValue(value.value) else 0
  }

  /** Whether `entries` starts with an entry named `name`. */
  predicate StartsWithEntry(entries: seq<MetaProperty>, name: string) {
    |entries| > 0 && entries[0].name == name
  }

  /** The size given by a leading entry named `name`, or 0. */
  function SizeAt(entries: seq<MetaProperty>, name: string): nat {
    if StartsWithEntry(entries, name) then ReadDimension(entries[0].value) else 0
  }

  /** The entries after a leading entry named `name`, if there is one. */
  function SkipEntry(entries: seq<MetaProperty>, name: string): (rest: seq<MetaProperty>)
    ensures |rest| <= |entries|
  {
    if StartsWithEntry(entries, name) then entries[1..] else entries
  }

  /** The images the entries describe: each `og:image` starts one, and an
      `og:image:width`/`og:image:height` right after it gives its size;
      other entries are skipped. */
  function ReadImages(entries: seq<MetaProperty>): seq<SpaOpenGraphImage>
    decreases |entries|
  {
    if |entries| == 0 then []
    else if entries[0].name != "og:image" then ReadImages(entries[1..])
    else
      var afterWidth := SkipEntry(entries[1..], "og:image:width");
      var afterHeight := SkipEntry(afterWidth, "og:image:height");
      [SpaOpenGraphImage(entries[0].value.GetOr(""), SizeAt(entries[1..], "og:image:width"), SizeAt(afterWidth, "og:image:height"))]
      + ReadImages(afterHeight)
  }

  /** An image as it renders: dimensions that are not positive read as 0. */
  function ShownImage(image: SpaOpenGraphImage): SpaOpenGraphImage {
    SpaOpenGraphImage(image.url, ShownSize(image.width), ShownSize(image.height))
  }

  lemma {:induction false} ReadDimensionRoundTrip(n: int)
    requires n > 0
    ensures ReadDimension(Some(NatToString(n))) == n
  {
    NatToStringRoundTrip(n);
  }

  /** Reading a size entry written for `n`, or skipping none when `n` is
      not shown. */
  lemma {:induction false} SizeEntryRead(n: nat, name: string, entries: seq<MetaProperty>, tail: seq<MetaProperty>)
    requires n > 0 ==> entries == [MetaProperty(name, Some(NatToString(n)))] + tail
    requires n == 0 ==> entries == tail && !StartsWithEntry(tail, name)
    ensures SizeAt(entries, name) == n && SkipEntry(entries, name) == tail
  {
    if n > 0 {
      ReadDimensionRoundTrip(n);
      assert entries[1..] == tail;
    }
  }

  /** Reading one image's entries, followed by entries that start a new
      image or nothing, gives that image as shown. */
  lemma {:induction false} ReadImagesStep(image: SpaOpenGraphImage, tail: seq<MetaProperty>)
    requires |tail| > 0 ==> tail[0].name == "og:image"
    ensures ReadImages(ImageEntries(image) + tail) == [ShownImage(image)] + ReadImages(tail)
  {
    var h := HeightEntries(image);
    var e := ImageEntries(image) + tail;
    assert e[1..] == WidthEntries(image) + (h + tail);
    SizeEntryRead(ShownSize(image.width), "og:image:width", e[1..], h + tail);
    SizeEntryRead(ShownSize(image.height), "og:image:height", h + tail, tail);
  }

  /** Reading the image entries back gives every image, in order, with its
      shown dimensions. */
  lemma {:induction false} ImagesEntriesRoundTrip(images: seq<SpaOpenGraphImage>)
    ensures ReadImages(ImagesEntries(images)) == Shown(images)
  {
    if |images| > 0 {
      ImagesEntriesRoundTrip(images[1..]);
      ReadImagesStep(images[0], ImagesEntries(images[1..]));
    }
  }

  /** The images as they render. */
  function Shown(images: seq<SpaOpenGraphImage>): (shown: seq<SpaOpenGraphImage>)
    ensures |shown| == |images|
    ensures forall k :: 0 <= k < |images| ==> shown[k] == ShownImage(images[k])
  {
    if |images| == 0 then [] else [ShownImage(images[0])] + Shown(images[1..])
  }

  /** The number of entries named `name`. */
  function NameCount(entries: seq<MetaProperty>, name: string): nat
  {
    if |entries| == 0 then 0
    else (if entries[0].name == name then 1 else 0) + NameCount(entries[1..], name)
  }

  lemma {:induction false} NameCountAppend(a: seq<MetaProperty>, b: seq<MetaProperty>, name: string)
    ensures NameCount(a + b, name) == NameCount(a, name) + NameCount(b, name)
    decreases |a|
  {
    if |a| > 0 {
      assert (a + b)[0] == a[0];
      assert (a + b)[1..] == a[1..] + b;
      NameCountAppend(a[1..], b, name);
    } else {
      assert a + b == b;
    }
  }

  /** The number of images with a positive width (`width`) or a positive
      height (not `width`). */
  function SizedCount(images: seq<SpaOpenGraphImage>, width: bool): nat
  {
    if |images| == 0 then 0
    else (if (if width then images[0].width else images[0].height) > 0 then 1 else 0) + SizedCount(images[1..], width)
  }

  /** Whether an entry gives an image dimension. */
  predicate IsSizeEntry(e: MetaProperty) {
    e.name == "og:image:width" || e.name == "og:image:height"
  }

  /** The image entries hold one `og:image` per image, one width entry per
      image of positive width, one height entry per image of positive
      height, and every dimension they give is positive. */
  lemma {:induction false} ImagesEntriesCounts(images: seq<SpaOpenGraphImage>)
    ensures NameCount(ImagesEntries(images), "og:image") == |images|
    ensures NameCount(ImagesEntries(images), "og:image:width") == SizedCount(images, true)
    ensures NameCount(ImagesEntries(images), "og:image:height") == SizedCount(images, false)
    ensures forall e | e in ImagesEntries(images) && IsSizeEntry(e) :: ReadDimension(e.value) > 0
  {
    if |images| > 0 {
      var first := ImageEntries(images[0]);
      var rest := ImagesEntries(images[1..]);
      ImagesEntriesCounts(images[1..]);
      ImageEntriesCounts(images[0]);
      NameCountAppend(first, rest, "og:image");
      NameCountAppend(first, rest, "og:image:width");
      NameCountAppend(first, rest, "og:image:height");
    }
  }

  /** One image's entries: one `og:image`, a width entry when the width is
      positive, a height entry when the height is positive. */
  lemma ImageEntriesCounts(image: SpaOpenGraphImage)
    ensures NameCount(ImageEntries(image), "og:image") == 1
    ensures NameCount(ImageEntries(image), "og:image:width") == if image.width > 0 then 1 else 0
    ensures NameCount(ImageEntries(image), "og:image:height") == if image.height > 0 then 1 else 0
    ensures forall e | e in ImageEntries(image) && IsSizeEntry(e) :: ReadDimension(e.value) > 0
  {
    var one := [MetaProperty("og:image", Some(image.url))];
    var w := WidthEntries(image);
    var h := HeightEntries(image);
    assert ImageEntries(image) == one + (w + h);
    NameCountAppend(w, h, "og:image");
    NameCountAppend(w, h, "og:image:width");
    NameCountAppend(w, h, "og:image:height");
    NameCountAppend(one, w + h, "og:image");
    NameCountAppend(one, w + h, "og:image:width");
    NameCountAppend(one, w + h, "og:image:height");
    if image.width > 0 {
      ReadDimensionRoundTrip(image.width);
    }
    if image.height > 0 {
      ReadDimensionRoundTrip(image.height);
    }
  }

  /** The entries written for the properties describe exactly their images,
      in order; a width or height entry is written for exactly the images
      whose dimension is positive, and each gives that positive value. */
  lemma {:induction false} WriteJsonImages(og: SpaOpenGraphProperties)
    ensures ReadImages(WriteJson(og)) == Shown(og.images)
    ensures NameCount(WriteJson(og), "og:image:width") == SizedCount(og.images, true)
    ensures NameCount(WriteJson(og), "og:image:height") == SizedCount(og.images, false)
    ensures forall e | e in WriteJson(og) && IsSizeEntry(e) :: ReadDimension(e.value) > 0
  {
    var e := WriteJson(og);
    assert e[0].name != "og:image" by { assert e[0].name[3] != "og:image"[3]; }
    assert ReadImages(e) == ReadImages(e[1..]);
    assert e[1..][0].name != "og:image";
    assert ReadImages(e[1..]) == ReadImages(e[1..][1..]);
    assert e[1..][1..][0].name != "og:image";
    assert ReadImages(e[1..][1..]) == ReadImages(e[1..][1..][1..]);
    assert e[1..][1..][1..][0].name != "og:image";
    assert ReadImages(e[1..][1..][1..]) == ReadImages(e[1..][1..][1..][1..]);
    assert e[1..][1..][1..][1..] == ImagesEntries(og.images);
    ImagesEntriesRoundTrip(og.images);
    HeaderSizes(og);
  }

  /** The entries before the images give no dimension. */
  lemma HeaderHasNoSize(og: SpaOpenGraphProperties)
    ensures forall e | e in Header(og) :: !IsSizeEntry(e)
  {
    var head := Header(og);
    assert !IsSizeEntry(head[1]) by { assert head[1].name[3] != "og:image:width"[3]; }
    assert forall k | 0 <= k < 4 :: !IsSizeEntry(head[k]);
  }

  lemma {:induction false} NameCountAbsent(entries: seq<MetaProperty>, name: string)
    requires forall e | e in entries :: e.name != name
    ensures NameCount(entries, name) == 0
    decreases |entries|
  {
    if |entries| > 0 {
      assert entries[0] in entries;
      NameCountAbsent(entries[1..], name);
    }
  }

  /** The dimension entries of the whole list are those of the images. */
  lemma HeaderSizes(og: SpaOpenGraphProperties)
    ensures NameCount(WriteJson(og), "og:image:width") == SizedCount(og.images, true)
    ensures NameCount(WriteJson(og), "og:image:height") == SizedCount(og.images, false)
    ensures forall e | e in WriteJson(og) && IsSizeEntry(e) :: ReadDimension(e.value) > 0
  {
    var head := Header(og);
    var images := ImagesEntries(og.images);
    HeaderHasNoSize(og);
    NameCountAbsent(head, "og:image:width");
    NameCountAbsent(head, "og:image:height");
    NameCountAppend(head, images, "og:image:width");
    NameCountAppend(head, images, "og:image:height");
    ImagesEntriesCounts(og.images);
  }
}
