/**
  What the search backend hands the pipeline, with the JSON navigation
  already done: a hit is the list of its `httpRequest.headers` entries, and
  a response is a page of hits with its `_scroll_id`, `took` and total-hit
  count, or an error.
 */
module Backend {

  /** One entry of `httpRequest.headers`. */
  datatype Header = Header(name: string, value: string)

  /** One search hit: the headers under its `_source`. */
  type Hit = seq<Header>

  /** One search or scroll response. */
  datatype Response =
    | Page(hits: seq<Hit>, scrollId: string, took: int, total: int)
    | Failed

  /** Why a whole run ends without a result. */
  datatype Cause = BackendFailure | Base64Failure | JsonFailure | SlicePanic

  datatype Result<T> = Ok(value: T) | Err(cause: Cause)

  /** Only a header whose name is exactly `cookie` is read. */
  const CookieName: string := "cookie"

  /** The values of the `cookie` headers of one hit, in header order. */
  function HeaderCookies(headers: seq<Header>): (r: seq<string>)
    ensures |r| <= |headers|
  {
    if |headers| == 0 then []
    else if headers[0].name == CookieName then [headers[0].value] + HeaderCookies(headers[1..])
    else HeaderCookies(headers[1..])
  }

  /** The `cookie` header values of a list of hits, in hit-then-header order. */
  function CookieValues(hits: seq<Hit>): seq<string>
  {
    if |hits| == 0 then [] else HeaderCookies(hits[0]) + CookieValues(hits[1..])
  }

  /** The values a hit yields are exactly the values of its headers named `cookie`. */
  lemma {:induction false} HeaderCookiesMembers(headers: seq<Header>)
    ensures forall v :: v in HeaderCookies(headers) <==>
      exists h :: h in headers && h.name == CookieName && h.value == v
  {
    if |headers| > 0 {
      HeaderCookiesMembers(headers[1..]);
      assert headers == [headers[0]] + headers[1..];
    }
  }

  lemma {:induction false} HeaderCookiesAppend(a: seq<Header>, b: seq<Header>)
    ensures HeaderCookies(a + b) == HeaderCookies(a) + HeaderCookies(b)
  {
    if |a| > 0 {
      HeaderCookiesAppend(a[1..], b);
      assert (a + b)[1..] == a[1..] + b;
    } else {
      assert a + b == b;
    }
  }

  lemma {:induction false} CookieValuesAppend(a: seq<Hit>, b: seq<Hit>)
    ensures CookieValues(a + b) == CookieValues(a) + CookieValues(b)
  {
    if |a| > 0 {
      CookieValuesAppend(a[1..], b);
      assert (a + b)[1..] == a[1..] + b;
    } else {
      assert a + b == b;
    }
  }

  /**
    A header not named exactly `cookie` (say `Cookie`) contributes nothing,
    wherever it stands.
   */
  lemma OtherHeadersIgnored(a: seq<Header>, h: Header, b: seq<Header>)
    requires h.name != CookieName
    ensures HeaderCookies(a + [h] + b) == HeaderCookies(a + b)
  {
    HeaderCookiesAppend(a + [h], b);
    HeaderCookiesAppend(a, [h]);
    HeaderCookiesAppend(a, b);
  }

  /** The hits of the first `n` scroll pages, in order (a failed response has none). */
  function ScrollHits(pages: seq<Response>, n: nat): seq<Hit>
    requires n <= |pages|
  {
    if n == 0 then []
    else ScrollHits(pages, n - 1) + (if pages[n - 1].Page? then pages[n - 1].hits else [])
  }

  /** The `took` values of the first `n` scroll pages, summed. */
  function TookSum(pages: seq<Response>, n: nat): int
    requires n <= |pages|
  {
    if n == 0 then 0
    else TookSum(pages, n - 1) + (if pages[n - 1].Page? then pages[n - 1].took else 0)
  }

  /** The hits of the first page followed by those of the first `n` scroll pages. */
  function AllHits(first: Response, pages: seq<Response>, n: nat): seq<Hit>
    requires first.Page? && n <= |pages|
  {
    first.hits + ScrollHits(pages, n)
  }

  /** The response the k-th scroll request follows: the search response, then each scroll response in turn. */
  function Previous(first: Response, scrolls: seq<Response>, k: nat): Response
    requires k <= |scrolls|
  {
    if k == 0 then first else scrolls[k - 1]
  }

  /** A response that ends a scroll: an error, or a page with no hits. */
  predicate Stops(r: Response)
  {
    r.Failed? || |r.hits| == 0
  }

  /** The backend eventually answers a scroll request with an empty page or an error. */
  predicate EventuallyStops(scrolls: seq<Response>)
  {
    exists k :: 0 <= k < |scrolls| && Stops(scrolls[k])
  }

  /**
    When the backend eventually stops and none of the first `k` answers
    stopped the scroll, there is a `k`-th answer to come.
   */
  lemma MoreResponses(first: Response, scrolls: seq<Response>, k: nat)
    requires EventuallyStops(scrolls) && k <= |scrolls|
    requires forall j :: 1 <= j <= k ==> !Stops(Previous(first, scrolls, j))
    ensures k < |scrolls|
  {
    assert forall j :: 0 <= j < k ==> Previous(first, scrolls, j + 1) == scrolls[j];
  }
}
