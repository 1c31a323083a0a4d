/** The shortener's service logic: building the short links for a fresh
    code, the store of code-to-URL rows, the shorten request and the
    redirect lookup. The URL parser is a parameter of the operations that
    use it, and the store is an in-memory map standing for the `urls`
    table. */
module Shortener {
  import opened Results
  import opened Constants
  import opened CodeGen

  // ---------------------------------------------------------------------
  // Short links

  /** The reply to a shorten request: the code and its two links. */
  datatype ShortenURL = ShortenURL(uri: string, shortenURL: string, shortenLongURL: string)

  /** The links for a code: the bare domain form and the form with the
      protocol, each followed by `/` and the code. */
  function MakeShortenURL(uri: string): (r: ShortenURL)
    ensures r.uri == uri
    ensures r.shortenLongURL == "https://" + r.shortenURL
    ensures |r.shortenURL| == |DomainName| + 1 + |uri|
    ensures r.shortenURL[..|DomainName| + 1] == DomainName + "/"
    ensures r.shortenURL[|DomainName| + 1..] == uri
  {
    DomainsAgree();
    var short := DomainName + "/" + uri;
    assert short[..|DomainName| + 1] == DomainName + "/";
    assert LongDomainName + "/" + uri == "https://" + short;
    ShortenURL(uri, short, LongDomainName + "/" + uri)
  }

  /** A string the single-segment route `/:short_uri` can receive as its
      parameter: non-empty, with no `/` and no query or fragment mark. */
  predicate IsPathSegment(s: string) {
    |s| > 0 && forall k :: 0 <= k < |s| ==> s[k] != '/' && s[k] != '?' && s[k] != '#'
  }

  /** The code the redirect route receives when a short link with no
      query or fragment is fetched: the path after the domain, when it is
      a single segment. */
  function CodeOfLink(link: string): (r: Option<string>)
    ensures r.Some? <==>
      && |link| > |DomainName| + 1
      && link[..|DomainName| + 1] == DomainName + "/"
      && IsPathSegment(link[|DomainName| + 1..])
    ensures r.Some? ==> link == DomainName + "/" + r.value && IsPathSegment(r.value)
  {
    var k := |DomainName| + 1;
    if |link| > k && link[..k] == DomainName + "/" && IsPathSegment(link[k..]) then
      assert link == link[..k] + link[k..];
      Some(link[k..])
    else None
  }

  /** The short link of a code the route can carry leads back to that code. */
  lemma ShortLinkRoundTrip(uri: string)
    requires IsPathSegment(uri)
    ensures CodeOfLink(MakeShortenURL(uri).shortenURL) == Some(uri)
  {
    var link := MakeShortenURL(uri).shortenURL;
    assert link[..|DomainName| + 1] == DomainName + "/";
  }

  /** Different codes get different links. */
  lemma {:induction false} ShortLinksDistinct(a: string, b: string)
    requires a != b
    ensures MakeShortenURL(a).shortenURL != MakeShortenURL(b).shortenURL
    ensures MakeShortenURL(a).shortenLongURL != MakeShortenURL(b).shortenLongURL
  {
    var sa, sb := MakeShortenURL(a).shortenURL, MakeShortenURL(b).shortenURL;
    assert sa[|DomainName| + 1..] == a && sb[|DomainName| + 1..] == b;
    assert ("https://" + sa)[8..] == sa && ("https://" + sb)[8..] == sb;
  }

  // ---------------------------------------------------------------------
  // Reserved codes

  /** A code is reserved when the reserved list holds it with the value
      true; those codes are exactly the two route names. */
  function IsReserved(code: string): (b: bool)
    ensures b <==> code == "ping" || code == "error"
  {
    code in DefaultReservedList && DefaultReservedList[code]
  }

  /** A generated code has UriStringCnt letters, which no reserved name
      has, so it is never reserved. */
  lemma GeneratedNeverReserved(code: string)
    requires |code| == UriStringCnt
    ensures !IsReserved(code)
  {
  }

  // ---------------------------------------------------------------------
  // Generating a short URL

  /** Parses the submitted URL and, when it is a request URI, draws a
      fresh code of UriStringCnt letters and builds its links. A rejected
      URL draws nothing. */
  method GenerateURL(src: Source, parseRequestURI: string -> bool, originalURL: string)
    returns (r: Result<ShortenURL>)
    requires src.Valid()
    requires parseRequestURI(originalURL) ==> src.CanGenerate(UriStringCnt)
    modifies src
    ensures src.Valid()
    ensures !parseRequestURI(originalURL) ==> r == Err(InvalidURL) && src.pos == old(src.pos)
    ensures parseRequestURI(originalURL) ==>
      && r == Ok(MakeShortenURL(Generated(old(src.Upcoming()), UriStringCnt)))
      && src.pos == old(src.pos) + DrawsUsed(old(src.Upcoming()), UriStringCnt)
  {
    if !parseRequestURI(originalURL) {
      return Err(InvalidURL);
    }
    var uri := RandStringBytesMaskImprSrcSB(src, UriStringCnt);
    return Ok(MakeShortenURL(uri));
  }

  /** What a successful GenerateURL promises about its code: eight
      letters of the alphabet, never a reserved name, and a path segment
      whose short link leads back to it. */
  lemma GeneratedCode(cs: seq<nat>)
    requires UriStringCnt <= |Accepted(cs)|
    ensures |MakeShortenURL(Generated(cs, UriStringCnt)).uri| == UriStringCnt
    ensures forall k :: 0 <= k < UriStringCnt ==> IsLetter(Generated(cs, UriStringCnt)[k])
    ensures !IsReserved(Generated(cs, UriStringCnt))
    ensures IsPathSegment(Generated(cs, UriStringCnt))
    ensures CodeOfLink(MakeShortenURL(Generated(cs, UriStringCnt)).shortenURL) == Some(Generated(cs, UriStringCnt))
  {
    var code := Generated(cs, UriStringCnt);
    GeneratedNeverReserved(code);
    assert IsPathSegment(code);
    ShortLinkRoundTrip(code);
  }

  // ---------------------------------------------------------------------
  // The store

  /** The `urls` table: short code to original URL. `queries` counts the
      lookups made, so that a caller can be shown not to consult it. */
  class URLStore {
    var urls: map<string, string>
    ghost var queries: nat

    constructor ()
      ensures urls == map[] && queries == 0
    {
      urls := map[];
      queries := 0;
    }

    /** Stores a row. Nothing checks whether the code is already taken;
        in this map model a second row for a code replaces the first. */
    method Insert(originalURL: string, uri: string)
      modifies this
      ensures urls == old(urls)[uri := originalURL]
      ensures queries == old(queries)
    {
      urls := urls[uri := originalURL];
    }

    /** Looks up the URL stored for a code. */
    method Query(uri: string) returns (r: Option<string>)
      modifies this
      ensures urls == old(urls) && queries == old(queries) + 1
      ensures r.Some? <==> uri in urls
      ensures r.Some? ==> r.value == urls[uri]
    {
      queries := queries + 1;
      if uri in urls {
        r := Some(urls[uri]);
      } else {
        r := None;
      }
    }
  }

  // ---------------------------------------------------------------------
  // Redirect lookup

  /** The outcome of fetching a short code: a reserved name is refused, a
      code without a row is an error, and otherwise the stored URL is the
      redirect target. */
  function Resolve(urls: map<string, string>, code: string): (r: Result<string>)
    ensures r.Ok? <==> !IsReserved(code) && code in urls
    ensures r.Ok? ==> r.value == urls[code]
    ensures IsReserved(code) ==> r == Err(ReservedWord)
    ensures !IsReserved(code) && code !in urls ==> r == Err(NotFound)
  {
    if IsReserved(code) then Err(ReservedWord)
    else if code in urls then Ok(urls[code])
    else Err(NotFound)
  }

  /** The redirect handler: the reserved check comes first and a reserved
      code never reaches the store. */
  method ResolveShortURI(store: URLStore, code: string) returns (r: Result<string>)
    modifies store
    ensures r == Resolve(old(store.urls), code)
    ensures store.urls == old(store.urls)
    ensures store.queries == old(store.queries) + (if IsReserved(code) then 0 else 1)
  {
    if code in DefaultReservedList && DefaultReservedList[code] {
      return Err(ReservedWord);
    }
    var found := store.Query(code);
    if found.None? {
      return Err(NotFound);
    }
    return Ok(found.value);
  }

  /** A reserved code resolves the same way whatever the store holds. */
  lemma ReservedIgnoresStore(a: map<string, string>, b: map<string, string>, code: string)
    requires IsReserved(code)
    ensures Resolve(a, code) == Resolve(b, code) == Err(ReservedWord)
  {
  }

  /** After a row is stored under a generated code, fetching that code
      redirects to the stored URL. */
  lemma ResolveAfterInsert(urls: map<string, string>, code: string, url: string)
    requires |code| == UriStringCnt
    ensures Resolve(urls[code := url], code) == Ok(url)
  {
    GeneratedNeverReserved(code);
  }

  /** Storing a row changes the outcome for no other code. */
  lemma ResolveOtherCode(urls: map<string, string>, code: string, url: string, other: string)
    requires other != code
    ensures Resolve(urls[code := url], other) == Resolve(urls, other)
  {
  }

  // ---------------------------------------------------------------------
  // Shorten request

  /** The shorten handler: reads the request body (None when it does not
      bind), generates the code and links, and stores the submitted URL
      under the code. Every failure leaves the store as it was. */
  method Shorten(src: Source, store: URLStore, parseRequestURI: string -> bool, body: Option<string>)
    returns (r: Result<ShortenURL>)
    requires src.Valid()
    requires body.Some? && parseRequestURI(body.value) ==> src.CanGenerate(UriStringCnt)
    modifies src, store
    ensures src.Valid()
    ensures body.None? ==> r == Err(UnreadableRequest) && src.pos == old(src.pos)
    ensures body.Some? && !parseRequestURI(body.value) ==> r == Err(InvalidURL) && src.pos == old(src.pos)
    ensures r.Err? ==> store.urls == old(store.urls)
    ensures body.Some? && parseRequestURI(body.value) ==>
      && r == Ok(MakeShortenURL(Generated(old(src.Upcoming()), UriStringCnt)))
      && src.pos == old(src.pos) + DrawsUsed(old(src.Upcoming()), UriStringCnt)
      && store.urls == old(store.urls)[r.value.uri := body.value]
      && Resolve(store.urls, r.value.uri) == Ok(body.value)
    ensures store.queries == old(store.queries)
  {
    if body.None? {
      return Err(UnreadableRequest);
    }
    var generated := GenerateURL(src, parseRequestURI, body.value);
    if generated.Err? {
      return generated;
    }
    store.Insert(body.value, generated.value.uri);
    GeneratedCode(old(src.Upcoming()));
    ResolveAfterInsert(old(store.urls), generated.value.uri, body.value);
    return generated;
  }
}
