/** The URL actions and parsers of the SPA request helper: enforcing or
    removing a trailing slash on the path part of the requested URL, and
    reading an Umbraco preview id out of a URL. */
module RequestUrls {
  import opened Wrappers
  import opened Strings
  import opened Requests

  /** Where the query string starts: the first `?`, or the end. */
  function QueryStart(url: string): (i: nat)
    ensures i <= |url|
  {
    IndexOf(url, '?')
  }

  /** The part of the URL before its first `?`, as `url.Split('?')[0]`. */
  function PathPart(url: string): (p: string)
    ensures p == url[..QueryStart(url)]
    ensures '?' !in p
  {
    IndexOfPrefixFree(url, '?');
    Split(url, '?')[0]
  }

  /** Replacing the first piece of a split changes only the text before the
      first separator. */
  lemma {:induction false} JoinReplaceHead(c: char, parts: seq<string>, x: string)
    requires |parts| >= 1
    requires |parts[0]| <= |Join(c, parts)|
    ensures Join(c, [x] + parts[1..]) == x + Join(c, parts)[|parts[0]|..]
  {
    if |parts| > 1 {
      assert ([x] + parts[1..])[1..] == parts[1..];
      assert Join(c, parts) == parts[0] + ([c] + Join(c, parts[1..]));
    }
  }

  /** The redirect target that enforces a trailing slash on `url`, or `None`
      when the path part already ends with one. */
  function WithTrailingSlash(url: string): (target: Option<string>)
    ensures target.None? <==> EndsWith(PathPart(url), "/")
    ensures target.Some? ==>
      target.value == url[..QueryStart(url)] + "/" + url[QueryStart(url)..]
  {
    var pieces := Split(url, '?');
    if EndsWith(pieces[0], "/") then None
    else
      var target := Join('?', [pieces[0] + "/"] + pieces[1..]);
      JoinSplit(url, '?');
      JoinReplaceHead('?', pieces, pieces[0] + "/");
      Some(target)
  }

  /** The redirect target that removes one trailing slash from the path
      part of `url`, or `None` when it does not end with one. */
  function WithoutTrailingSlash(url: string): (target: Option<string>)
    ensures target.None? <==> !EndsWith(PathPart(url), "/")
    ensures target.Some? ==>
      && QueryStart(url) > 0 && url[QueryStart(url) - 1] == '/'
      && target.value == url[..QueryStart(url) - 1] + url[QueryStart(url)..]
  {
    var pieces := Split(url, '?');
    if !EndsWith(pieces[0], "/") then None
    else
      var p := pieces[0];
      var target := Join('?', [p[..|p| - 1]] + pieces[1..]);
      JoinSplit(url, '?');
      JoinReplaceHead('?', pieces, p[..|p| - 1]);
      assert p[|p| - 1] == url[QueryStart(url) - 1];
      Some(target)
  }

  /** The part before the first `?` of `p + rest`, when `p` has no `?`. */
  lemma QueryStartAfter(p: string, rest: string)
    requires '?' !in p
    ensures QueryStart(p + rest) == |p| + QueryStart(rest)
  {
    IndexOfAfterFreeText(p, rest, '?');
  }

  /** The query part of a URL starts at its own beginning. */
  lemma QueryStartOfQuery(url: string)
    ensures QueryStart(url[QueryStart(url)..]) == 0
  {
    var i := QueryStart(url);
    if i < |url| {
      assert url[i..][0] == '?';
    }
  }

  /** Inserting a slash at the end of the path part moves the query start
      by one and leaves the path ending with that slash. */
  lemma InsertedSlash(url: string)
    ensures var i := QueryStart(url);
      var t := url[..i] + "/" + url[i..];
      && QueryStart(t) == i + 1
      && PathPart(t) == url[..i] + "/"
      && t[..i] == url[..i] && t[i + 1..] == url[i..]
  {
    var i := QueryStart(url);
    var t := url[..i] + "/" + url[i..];
    assert t == (url[..i] + "/") + url[i..];
    assert url[..i] == PathPart(url);
    assert '?' !in url[..i] + "/";
    QueryStartAfter(url[..i] + "/", url[i..]);
    QueryStartOfQuery(url);
  }

  /** Removing the slash that was just added gives back the original URL. */
  lemma {:induction false} RemoveUndoesAdd(url: string)
    requires WithTrailingSlash(url).Some?
    ensures WithoutTrailingSlash(WithTrailingSlash(url).value) == Some(url)
  {
    var i := QueryStart(url);
    var t := WithTrailingSlash(url).value;
    InsertedSlash(url);
    assert EndsWith(PathPart(t), "/");
    var back := WithoutTrailingSlash(t).value;
    assert back == t[..i] + t[i + 1..];
    assert url[..i] + url[i..] == url;
  }

  /** Removing the character right before the query start moves the query
      start back by one and leaves the path without that character. */
  lemma RemovedSlash(url: string)
    requires QueryStart(url) > 0
    ensures var i := QueryStart(url);
      var t := url[..i - 1] + url[i..];
      && QueryStart(t) == i - 1
      && PathPart(t) == url[..i - 1]
      && t[..i - 1] == url[..i - 1] && t[i - 1..] == url[i..]
  {
    var i := QueryStart(url);
    var t := url[..i - 1] + url[i..];
    assert '?' !in url[..i - 1] by {
      assert url[..i] == PathPart(url);
      assert url[..i - 1] == url[..i][..i - 1];
    }
    QueryStartAfter(url[..i - 1], url[i..]);
    QueryStartOfQuery(url);
  }

  /** A path ending in exactly one slash no longer ends in one once that
      slash is dropped. */
  lemma SingleSlashDropped(p: string)
    requires EndsWith(p, "/") && !EndsWith(p, "//")
    ensures !EndsWith(p[..|p| - 1], "/")
  {
    if |p| >= 2 {
      assert p[|p| - 2..] == [p[|p| - 2], p[|p| - 1]];
      assert p[..|p| - 1][|p| - 2..] == [p[|p| - 2]];
    }
  }

  /** A URL whose path lost its one trailing slash gets it back. */
  lemma {:induction false} SlashRestored(url: string, t: string)
    requires QueryStart(url) > 0 && url[QueryStart(url) - 1] == '/'
    requires !EndsWith(PathPart(url), "//")
    requires t == url[..QueryStart(url) - 1] + url[QueryStart(url)..]
    ensures WithTrailingSlash(t) == Some(url)
  {
    var i := QueryStart(url);
    RemovedSlash(url);
    SingleSlashDropped(url[..i]);
    assert url[..i][..i - 1] == url[..i - 1];
    assert url == url[..i - 1] + "/" + url[i..];
  }

  /** Adding back the slash that was just removed gives back the original
      URL, when the path ended with exactly one slash. */
  lemma {:induction false} AddUndoesRemove(url: string)
    requires WithoutTrailingSlash(url).Some?
    requires !EndsWith(PathPart(url), "//")
    ensures WithTrailingSlash(WithoutTrailingSlash(url).value) == Some(url)
  {
    SlashRestored(url, WithoutTrailingSlash(url).value);
  }

  /** The redirect target already ends its path with a slash, so enforcing
      the slash again does not redirect. */
  lemma AddIsIdempotent(url: string)
    requires WithTrailingSlash(url).Some?
    ensures WithTrailingSlash(WithTrailingSlash(url).value).None?
  {
    var i := QueryStart(url);
    var t := WithTrailingSlash(url).value;
    assert t == (url[..i] + "/") + url[i..];
    QueryStartAfter(url[..i] + "/", url[i..]);
    assert QueryStart(url[i..]) == 0;
  }

  /** The trailing-slash action: nothing for a null URL, in preview mode, or
      when the path already ends with a slash; otherwise a redirect to the
      URL with the slash inserted before the query. */
  function AddTrailingSlash(r: SpaRequest): (res: ActionResult)
    ensures res.Returned?
    ensures r.url.None? || r.isPreview || EndsWith(PathPart(r.url.value), "/") ==> res.request == r
    ensures r.url.Some? && !r.isPreview && !EndsWith(PathPart(r.url.value), "/") ==>
      var u := r.url.value;
      res.request == r.(response := Some(RedirectResponse(u[..QueryStart(u)] + "/" + u[QueryStart(u)..])))
  {
    if r.url.None? || r.isPreview then Returned(r)
    else match WithTrailingSlash(r.url.value)
      case None => Returned(r)
      case Some(target) => Returned(r.(response := Some(RedirectResponse(target))))
  }

  /** The slash-removing action: nothing in preview mode or when the path
      does not end with a slash; a null URL throws; otherwise a redirect to
      the URL with exactly one trailing slash removed from its path. */
  function RemoveTrailingSlash(r: SpaRequest): (res: ActionResult)
    ensures r.isPreview ==> res == Returned(r)
    ensures !r.isPreview && r.url.None? ==> res == Threw(r, NullReferenceException)
    ensures r.url.Some? && !r.isPreview && !EndsWith(PathPart(r.url.value), "/") ==> res == Returned(r)
    ensures r.url.Some? && !r.isPreview && EndsWith(PathPart(r.url.value), "/") ==>
      var u := r.url.value;
      res == Returned(r.(response := Some(RedirectResponse(u[..QueryStart(u) - 1] + u[QueryStart(u)..]))))
  {
    if r.isPreview then Returned(r)
    else if r.url.None? then Threw(r, NullReferenceException)
    else match WithoutTrailingSlash(r.url.value)
      case None => Returned(r)
      case Some(target) => Returned(r.(response := Some(RedirectResponse(target))))
  }

  // ---------------------------------------------------------------------
  // Preview ids
  // ---------------------------------------------------------------------

  /** The white space `Int32.TryParse` skips around a number. */
  predicate IsParseWhite(c: char) {
    c == ' ' || ('\t' <= c <= '\r')
  }

  function TrimParseWhite(s: string): (t: string)
    ensures |t| <= |s|
  {
    if |s| > 0 && IsParseWhite(s[0]) then TrimParseWhite(s[1..])
    else if |s| > 0 && IsParseWhite(s[|s| - 1]) then TrimParseWhite(s[..|s| - 1])
    else s
  }

  /** `Int32.TryParse(s, out n)` in the integer style: optional white space,
      an optional sign, decimal digits, optional white space. */
  function TryParseInt(s: string): Option<int>
  {
    var t := TrimParseWhite(s);
    var negative := |t| > 0 && t[0] == '-';
    var digits := if |t| > 0 && (t[0] == '-' || t[0] == '+') then t[1..] else t;
    if |digits| >= 1 && AllDigits(digits) then
      Some(if negative then -(DigitsValue(digits) as int) else DigitsValue(digits))
    else None
  }

  /** `n.ToString()` for an `int`. */
  function IntToString(n: int): string {
    if n < 0 then "-" + NatToString(-n) else NatToString(n)
  }

  /** Parsing a written integer gives that integer back. */
  lemma IntRoundTrip(n: int)
    ensures TryParseInt(IntToString(n)) == Some(n)
  {
    var s := IntToString(n);
    var digits := NatToString(if n < 0 then -n else n);
    assert !IsParseWhite(digits[0]) && !IsParseWhite(digits[|digits| - 1]);
    if n < 0 {
      assert s == "-" + digits && s[1..] == digits;
      assert !IsParseWhite(s[0]) && s[|s| - 1] == digits[|digits| - 1];
    }
    assert TrimParseWhite(s) == s;
    NatToStringRoundTrip(if n < 0 then -n else n);
  }

  /** `p` is `/`, the digits `d` and `.aspx`, optionally followed by a
      line feed: the paths `^/([0-9]+)\.aspx$` matches, `$` also matching
      right before a final line feed. */
  predicate PreviewShape(p: string, d: string) {
    |d| >= 1 && AllDigits(d) && (p == "/" + d + ".aspx" || p == "/" + d + ".aspx\n")
  }

  /** The digits of `^/([0-9]+)\.aspx$` in `p`. */
  function MatchPreviewPath(p: string): (digits: Option<string>)
    ensures digits.Some? ==> PreviewShape(p, digits.value)
  {
    var q := if |p| > 0 && p[|p| - 1] == '\n' then p[..|p| - 1] else p;
    if |q| >= 7 && q[0] == '/' && EndsWith(q, ".aspx") && AllDigits(q[1..|q| - 5]) then
      var d := q[1..|q| - 5];
      assert q == "/" + d + ".aspx";
      Some(d)
    else None
  }

  /** Every path of the pattern's shape matches, with its own digits. */
  lemma MatchPreviewPathComplete(p: string, d: string)
    requires PreviewShape(p, d)
    ensures MatchPreviewPath(p) == Some(d)
  {
    var q := "/" + d + ".aspx";
    if p == q + "\n" {
      assert p[..|p| - 1] == q;
    } else {
      assert p[|p| - 1] == 'x';
    }
    assert q[1..|q| - 5] == d;
    assert EndsWith(q, ".aspx");
  }

  /** The pattern matches `p` with the digits `d` exactly when `p` has the
      shape with `d`. */
  lemma MatchPreviewPathExact(p: string)
    ensures forall d :: PreviewShape(p, d) <==> MatchPreviewPath(p) == Some(d)
  {
    forall d | PreviewShape(p, d)
      ensures MatchPreviewPath(p) == Some(d)
    {
      MatchPreviewPathComplete(p, d);
    }
  }

  /** The id the preview-path pattern reads from the path part of `url`
      (trailing slashes trimmed): the value of the digits when that part is
      `/<digits>.aspx`, and 0 when it has no such shape. */
  function PreviewIdFromPath(url: string): (id: nat)
    ensures var p := TrimEnd(PathPart(url), '/');
      && (forall d | PreviewShape(p, d) :: id == DigitsValue(d))
      && (id > 0 ==> exists d :: PreviewShape(p, d) && DigitsValue(d) == id)
      && ((forall d :: !PreviewShape(p, d)) ==> id == 0)
  {
    var p := TrimEnd(PathPart(url), '/');
    MatchPreviewPathExact(p);
    match MatchPreviewPath(p)
    case Some(d) => DigitsValue(d)
    case None => 0
  }

  /** `TryGetPreviewId`: the flag and the id, or the exception thrown when a
      dialog URL has no `=`. */
  function TryGetPreviewId(url: Option<string>): (res: Result<(bool, int), Exception>)
    ensures url.None? ==> res == Success((false, 0))
    ensures url.Some? && !Contains(url.value, "/umbraco/dialogs") ==>
      var id := PreviewIdFromPath(url.value);
      res == Success((id > 0, id))
    ensures url.Some? && Contains(url.value, "/umbraco/dialogs") && '=' !in url.value ==>
      res == Failure(IndexOutOfRangeException)
    ensures url.Some? && Contains(url.value, "/umbraco/dialogs") && '=' in url.value ==>
      var pieces := Split(url.value, '=');
      var id := PreviewIdFromPath(url.value);
      && |pieces| >= 2
      && (TryParseInt(pieces[1]).Some? ==> res == Success((true, TryParseInt(pieces[1]).value)))
      && (TryParseInt(pieces[1]).None? ==> res == Success((id > 0, id)))
    ensures res.Success? && !res.value.0 ==> res.value.1 == 0
  {
    if url.None? then Success((false, 0))
    else
      var u := url.value;
      var fromPath := PreviewIdFromPath(u);
      if Contains(u, "/umbraco/dialogs") then
        var pieces := Split(u, '=');
        IndexOfPrefixFree(u, '=');
        if |pieces| < 2 then
          Failure(IndexOutOfRangeException)
        else
          match TryParseInt(pieces[1])
          case Some(n) => Success((true, n))
          case None => Success((fromPath > 0, fromPath))
      else Success((fromPath > 0, fromPath))
  }

  /** The preview URL of a node id. */
  function PreviewUrl(id: nat): string {
    "/" + NatToString(id) + ".aspx"
  }

  /** A string lacking one of the characters of `sub` does not contain it. */
  lemma {:induction false} NotContainsMissingChar(s: string, sub: string, c: char)
    requires c in sub && c !in s
    ensures !Contains(s, sub)
    decreases |s|
  {
    if |s| > 0 {
      NotContainsMissingChar(s[1..], sub, c);
    }
  }

  /** Reading the preview id of a node's preview URL, with any number of
      trailing slashes and any query string free of the dialog marker, gives
      back the id. */
  lemma PreviewIdRoundTrip(id: nat, slashes: nat, query: string)
    requires id > 0
    requires !Contains(query, "/umbraco/dialogs")
    ensures var url := PreviewUrl(id) + seq(slashes, _ => '/') + "?" + query;
      TryGetPreviewId(Some(url)) == Success((true, id))
  {
    var path := PreviewUrl(id) + seq(slashes, _ => '/');
    var url := path + "?" + query;
    PreviewPathParts(id, slashes);
    assert url == path + ("?" + query);
    QueryStartAfter(path, "?" + query);
    assert PathPart(url) == path;
    TrimSlashes(PreviewUrl(id), slashes);
    MatchPreviewPathComplete(PreviewUrl(id), NatToString(id));
    NatToStringRoundTrip(id);
    NoDialogMarker(path, query);
  }

  /** A preview path is made of `/`, digits and `.aspx`. */
  lemma PreviewPathParts(id: nat, slashes: nat)
    ensures var path := PreviewUrl(id) + seq(slashes, _ => '/');
      && '?' !in path && 'u' !in path
      && PreviewUrl(id)[|PreviewUrl(id)| - 1] == 'x'
  {
    var d := NatToString(id);
    var path := PreviewUrl(id) + seq(slashes, _ => '/');
    forall i | 0 <= i < |path|
      ensures path[i] != '?' && path[i] != 'u'
    {
      if 1 <= i < 1 + |d| {
        assert path[i] == d[i - 1];
      }
    }
  }

  /** Trimming trailing slashes removes exactly the ones appended to a
      path that does not end in one. */
  lemma {:induction false} TrimSlashes(p: string, slashes: nat)
    requires |p| > 0 && p[|p| - 1] != '/'
    ensures TrimEnd(p + seq(slashes, _ => '/'), '/') == p
    decreases slashes
  {
    if slashes > 0 {
      assert (p + seq(slashes, _ => '/'))[..|p| + slashes - 1] == p + seq(slashes - 1, _ => '/');
      TrimSlashes(p, slashes - 1);
    } else {
      assert p + seq(0, _ => '/') == p;
    }
  }

  /** The dialog marker cannot start inside a path without a `u`, so a URL
      made of such a path and a query contains it only if the query does. */
  lemma {:induction false} NoDialogMarker(path: string, query: string)
    requires 'u' !in path
    requires !Contains(query, "/umbraco/dialogs")
    ensures !Contains(path + "?" + query, "/umbraco/dialogs")
    decreases |path|
  {
    var s := path + "?" + query;
    if |path| == 0 {
      assert s[0] == '?';
      assert s[1..] == query;
    } else {
      assert |path| == 1 ==> s[1] == '?';
      assert |path| > 1 ==> s[1] == path[1];
      assert s[1..] == path[1..] + "?" + query;
      NoDialogMarker(path[1..], query);
    }
  }
}
