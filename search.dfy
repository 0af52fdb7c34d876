/**
  The strict pipeline of the `search` command: `cookieToAmplitudeID`, which
  decodes every marked segment of one cookie into a single record and gives
  up on the first bad segment, and the harvesting loop, which decodes the
  cookies of the first search page and of every scroll page until a page
  comes back empty.
 */
module Search {
  import opened Wrappers
  import opened Strings
  import Base64
  import opened Identity
  import opened Cookies
  import opened Backend
  import Summary

  /** What `cookieToAmplitudeID` does with one cookie: return (a record and maybe an error) or panic. */
  datatype CookieOutcome = Returned(id: AmplitudeID, err: Option<Cause>) | Panicked

  /**
    Decodes the remaining segments of one cookie into the record `acc`,
    which every marked segment updates in turn. Failing to decode a marked
    segment returns the zero record with the cause; a marked segment without
    '=' panics.
   */
  function DecodeSegments(segments: seq<string>, acc: AmplitudeID, parse: Parser): (r: CookieOutcome)
    ensures r.Returned? && r.err.Some? ==>
      r.id == Zero && (r.err.value == Base64Failure || r.err.value == JsonFailure)
    decreases |segments|
  {
    if |segments| == 0 then Returned(acc, None)
    else if !Contains(segments[0], Marker) then DecodeSegments(segments[1..], acc, parse)
    else match AfterFirstEqual(segments[0])
      case None => Panicked
      case Some(enc) =>
        var dec := Base64.DecodeString(enc);
        if !dec.ok then Returned(Zero, Some(Base64Failure))
        else
          var u := Unmarshal(parse, dec.bytes, acc);
          if u.failed then Returned(Zero, Some(JsonFailure))
          else DecodeSegments(segments[1..], u.id, parse)
  }

  /** The outcome of `cookieToAmplitudeID(cookie)`: a fresh zero record, then every segment. */
  function DecodeCookie(cookie: string, parse: Parser): CookieOutcome
  {
    DecodeSegments(Split(cookie, ';'), Zero, parse)
  }

  /** `cookieToAmplitudeID`: the segment loop, with `trimNextEqual` called on each marked segment. */
  method CookieToAmplitudeID(cookie: string, parse: Parser) returns (r: CookieOutcome)
    ensures r == DecodeCookie(cookie, parse)
  {
    var segments := Split(cookie, ';');
    var id := Zero;
    var i := 0;
    while i < |segments|
      invariant 0 <= i <= |segments|
      invariant DecodeSegments(segments[i..], id, parse) == DecodeCookie(cookie, parse)
    {
      var values := segments[i];
      assert segments[i..][1..] == segments[i + 1..];
      if Contains(values, Marker) {
        var enc := TrimNextEqual(values);
        if enc.None? {
          return Panicked;
        }
        var dec := Base64.DecodeString(enc.value);
        if !dec.ok {
          return Returned(Zero, Some(Base64Failure));
        }
        var u := Unmarshal(parse, dec.bytes, id);
        if u.failed {
          return Returned(Zero, Some(JsonFailure));
        }
        id := u.id;
      }
      i := i + 1;
    }
    r := Returned(id, None);
  }

  lemma {:induction false} UnmarkedSegments(segments: seq<string>, acc: AmplitudeID, parse: Parser)
    requires forall i :: 0 <= i < |segments| ==> !Contains(segments[i], Marker)
    ensures DecodeSegments(segments, acc, parse) == Returned(acc, None)
    decreases |segments|
  {
    if |segments| > 0 {
      UnmarkedSegments(segments[1..], acc, parse);
    }
  }

  /** Segments split from text that never mentions `amplitude_id` leave the record as it is. */
  lemma UnmarkedText(text: string, acc: AmplitudeID, parse: Parser)
    requires !Contains(text, Marker)
    ensures DecodeSegments(Split(text, ';'), acc, parse) == Returned(acc, None)
  {
    var segments := Split(text, ';');
    SplitJoin(text, ';');
    forall i | 0 <= i < |segments|
      ensures !Contains(segments[i], Marker)
    {
      ContainsJoin(segments, ';', i, Marker);
    }
    UnmarkedSegments(segments, acc, parse);
  }

  /** A cookie that never mentions `amplitude_id` yields the zero record and no error. */
  lemma UnmarkedCookie(cookie: string, parse: Parser)
    requires !Contains(cookie, Marker)
    ensures DecodeCookie(cookie, parse) == Returned(Zero, None)
  {
    UnmarkedText(cookie, Zero, parse);
  }

  /** The empty cookie yields the zero record and no error. */
  lemma EmptyCookie(parse: Parser)
    ensures DecodeCookie("", parse) == Returned(Zero, None)
  {
    UnmarkedCookie("", parse);
  }

  /** A segment key that selects the identity: it carries the marker, and neither '=' nor ';'. */
  predicate MarkedKey(key: string)
  {
    Contains(key, Marker) && '=' !in key && ';' !in key
  }

  /** One marked `key=value` segment, followed by further segments, decoded into `acc`. */
  lemma KeySegment(key: string, value: string, tail: seq<string>, acc: AmplitudeID, parse: Parser)
    requires MarkedKey(key)
    ensures var dec := Base64.DecodeString(value);
      DecodeSegments([key + "=" + value] + tail, acc, parse) ==
        if !dec.ok then Returned(Zero, Some(Base64Failure))
        else if Unmarshal(parse, dec.bytes, acc).failed then Returned(Zero, Some(JsonFailure))
        else DecodeSegments(tail, Apply(parse(dec.bytes).members, acc), parse)
  {
    var segment := key + "=" + value;
    ContainsInfix([], key, "=" + value, Marker);
    assert [] + key + ("=" + value) == segment;
    AfterKey(key, value);
    var segments := [segment] + tail;
    assert segments[0] == segment && segments[1..] == tail;
    MarkedStep(segments, value, acc, parse);
  }

  /** One marked segment whose text after the first '=' is `value`, then the rest. */
  lemma MarkedStep(segments: seq<string>, value: string, acc: AmplitudeID, parse: Parser)
    requires |segments| > 0 && Contains(segments[0], Marker)
    requires AfterFirstEqual(segments[0]) == Some(value)
    ensures var dec := Base64.DecodeString(value);
      DecodeSegments(segments, acc, parse) ==
        if !dec.ok then Returned(Zero, Some(Base64Failure))
        else if Unmarshal(parse, dec.bytes, acc).failed then Returned(Zero, Some(JsonFailure))
        else DecodeSegments(segments[1..], Apply(parse(dec.bytes).members, acc), parse)
  {
  }

  /**
    A cookie whose first segment is `key=value` with a marked key, followed
    by segments that carry no marker: the value is base64-decoded and
    unmarshalled into the zero record; either step failing is reported, and
    a type mismatch is reported even though the other members were stored.
   */
  lemma {:induction false} MarkedFirstSegment(key: string, value: string, rest: string, parse: Parser)
    requires MarkedKey(key) && ';' !in value && !Contains(rest, Marker)
    ensures var dec := Base64.DecodeString(value);
      DecodeCookie(key + "=" + value + ";" + rest, parse) ==
        if !dec.ok then Returned(Zero, Some(Base64Failure))
        else if parse(dec.bytes).SyntaxError? || parse(dec.bytes).typeMismatch then Returned(Zero, Some(JsonFailure))
        else Returned(Apply(parse(dec.bytes).members, Zero), None)
  {
    var segment := key + "=" + value;
    assert ';' !in segment;
    SplitFirst(segment, ';', rest);
    assert key + "=" + value + ";" + rest == segment + [';'] + rest;
    var tail := Split(rest, ';');
    KeySegment(key, value, tail, Zero, parse);
    var dec := Base64.DecodeString(value);
    if dec.ok && parse(dec.bytes).Parsed? {
      UnmarkedText(rest, Apply(parse(dec.bytes).members, Zero), parse);
    }
  }

  /**
    Round trip: a marked segment whose value is the standard base64 encoding
    of a JSON text decodes to exactly the members that text supplies.
   */
  lemma RoundTrip(key: string, json: seq<Base64.byte>, m: Members, rest: string, parse: Parser)
    requires MarkedKey(key) && !Contains(rest, Marker)
    requires parse(json) == Parsed(m, false)
    ensures DecodeCookie(key + "=" + Base64.Encode(json) + ";" + rest, parse) == Returned(Apply(m, Zero), None)
  {
    var value := Base64.Encode(json);
    Base64.EncodeShape(json);
    assert ';' !in value;
    Base64.DecodeEncode(json);
    MarkedFirstSegment(key, value, rest, parse);
  }

  /**
    A marked value whose length (line breaks aside) is not a multiple of
    four is rejected by the padded decoder, whatever it holds.
   */
  lemma MissingPadding(key: string, value: string, rest: string, parse: Parser)
    requires MarkedKey(key) && !Contains(rest, Marker)
    requires ';' !in value && '\r' !in value && '\n' !in value && |value| % 4 != 0
    ensures DecodeCookie(key + "=" + value + ";" + rest, parse) == Returned(Zero, Some(Base64Failure))
  {
    Base64.NoNewlinesUnchanged(value);
    Base64.MissingPaddingFails(value);
    MarkedFirstSegment(key, value, rest, parse);
  }

  /** A marked segment with no '=' at all makes the decoder panic. */
  lemma {:induction false} MarkedWithoutEqual(segment: string, rest: string, parse: Parser)
    requires Contains(segment, Marker) && '=' !in segment && ';' !in segment
    ensures DecodeCookie(segment + ";" + rest, parse) == Panicked
  {
    SplitFirst(segment, ';', rest);
    assert segment + ";" + rest == segment + [';'] + rest;
  }

  /**
    Within one cookie the record is shared: a second marked segment is
    unmarshalled on top of the first, so a field the second JSON text omits
    keeps the first text's value.
   */
  lemma {:induction false} SegmentsShareRecord(
    key1: string, value1: string, key2: string, value2: string, parse: Parser)
    requires MarkedKey(key1) && MarkedKey(key2) && ';' !in value1 && ';' !in value2
    requires Base64.DecodeString(value1).ok && Base64.DecodeString(value2).ok
    requires parse(Base64.DecodeString(value1).bytes).Parsed? && !parse(Base64.DecodeString(value1).bytes).typeMismatch
    requires parse(Base64.DecodeString(value2).bytes).Parsed? && !parse(Base64.DecodeString(value2).bytes).typeMismatch
    ensures DecodeCookie(key1 + "=" + value1 + ";" + key2 + "=" + value2, parse) ==
      Returned(Apply(parse(Base64.DecodeString(value2).bytes).members,
                     Apply(parse(Base64.DecodeString(value1).bytes).members, Zero)), None)
  {
    var s1 := key1 + "=" + value1;
    var s2 := key2 + "=" + value2;
    assert ';' !in s1 && ';' !in s2;
    SplitFirst(s1, ';', s2);
    SplitWithoutSeparator(s2, ';');
    assert key1 + "=" + value1 + ";" + key2 + "=" + value2 == s1 + [';'] + s2;
    var m1 := parse(Base64.DecodeString(value1).bytes).members;
    KeySegment(key1, value1, [s2], Zero, parse);
    KeySegment(key2, value2, [], Apply(m1, Zero), parse);
    assert [s2] + [] == [s2];
  }

  /**
    Decodes the cookie header values of a run in order, appending each
    non-zero record to `acc`; the first cookie that fails ends the run with
    its cause (a panic becomes `SlicePanic`).
   */
  function DecodeAll(values: seq<string>, acc: seq<AmplitudeID>, parse: Parser): (r: Result<seq<AmplitudeID>>)
    ensures r.Err? ==> r.cause != BackendFailure
    decreases |values|
  {
    if |values| == 0 then Ok(acc)
    else
      var d := DecodeCookie(values[0], parse);
      if d.Panicked? then Err(SlicePanic)
      else if d.err.Some? then Err(d.err.value)
      else DecodeAll(values[1..], if d.id != Zero then acc + [d.id] else acc, parse)
  }

  /** Decoding a run that starts with `cookie`: its outcome decides whether and how the run goes on. */
  lemma DecodeAllFirst(cookie: string, tail: seq<string>, acc: seq<AmplitudeID>, parse: Parser)
    ensures var d := DecodeCookie(cookie, parse);
      DecodeAll([cookie] + tail, acc, parse) ==
        if d.Panicked? then Err(SlicePanic)
        else if d.err.Some? then Err(d.err.value)
        else DecodeAll(tail, if d.id != Zero then acc + [d.id] else acc, parse)
  {
    assert ([cookie] + tail)[0] == cookie;
    assert ([cookie] + tail)[1..] == tail;
  }

  /** Whether one cookie decodes without error. */
  predicate Decodes(cookie: string, parse: Parser)
  {
    DecodeCookie(cookie, parse).Returned? && DecodeCookie(cookie, parse).err.None?
  }

  /** The non-zero records of the cookies that decode without error, in order; an independent reference for `DecodeAll`. */
  function Kept(values: seq<string>, parse: Parser): (r: seq<AmplitudeID>)
    ensures forall i :: 0 <= i < |r| ==> r[i] != Zero
    ensures |r| <= |values|
  {
    if |values| == 0 then []
    else
      var d := DecodeCookie(values[0], parse);
      (if Decodes(values[0], parse) && d.id != Zero then [d.id] else []) + Kept(values[1..], parse)
  }

  /**
    The run succeeds exactly when every cookie decodes, and then it has
    appended precisely the non-zero records, each decoded from a fresh zero
    record, in cookie order.
   */
  lemma {:induction false} DecodeAllMeaning(values: seq<string>, acc: seq<AmplitudeID>, parse: Parser)
    ensures DecodeAll(values, acc, parse).Ok? <==> forall i :: 0 <= i < |values| ==> Decodes(values[i], parse)
    ensures DecodeAll(values, acc, parse).Ok? ==> DecodeAll(values, acc, parse).value == acc + Kept(values, parse)
    decreases |values|
  {
    if |values| > 0 {
      var d := DecodeCookie(values[0], parse);
      var next := if d.Returned? && d.id != Zero then acc + [d.id] else acc;
      DecodeAllMeaning(values[1..], next, parse);
      assert forall i :: 1 <= i < |values| ==> values[i] == values[1..][i - 1];
      if Decodes(values[0], parse) {
        assert acc + Kept(values, parse) == next + Kept(values[1..], parse);
      }
    }
  }

  /** Decoding a concatenation is decoding the first part, then the second from where it ended. */
  lemma {:induction false} DecodeAllAppend(a: seq<string>, b: seq<string>, acc: seq<AmplitudeID>, parse: Parser)
    ensures DecodeAll(a + b, acc, parse) ==
      match DecodeAll(a, acc, parse)
      case Ok(mid) => DecodeAll(b, mid, parse)
      case Err(cause) => Err(cause)
    decreases |a|
  {
    if |a| == 0 {
      assert a + b == b;
    } else {
      assert (a + b)[0] == a[0];
      assert (a + b)[1..] == a[1..] + b;
      var d := DecodeCookie(a[0], parse);
      if d.Returned? && d.err.None? {
        DecodeAllAppend(a[1..], b, if d.id != Zero then acc + [d.id] else acc, parse);
      }
    }
  }

  /**
    The extraction loop over one page's hits (search.go lines 104-118, and
    the same loop at 145-159): every `cookie` header is decoded, the first
    failure ends the whole command, and non-zero records are appended.
   */
  method ExtractPage(hits: seq<Hit>, acc: seq<AmplitudeID>, parse: Parser) returns (r: Result<seq<AmplitudeID>>)
    ensures r == DecodeAll(CookieValues(hits), acc, parse)
  {
    var ids := acc;
    var i := 0;
    while i < |hits|
      invariant 0 <= i <= |hits|
      invariant DecodeAll(CookieValues(hits[i..]), ids, parse) == DecodeAll(CookieValues(hits), acc, parse)
    {
      var headers := hits[i];
      assert hits[i..][1..] == hits[i + 1..];
      var later := CookieValues(hits[i + 1..]);
      assert headers[0..] == headers;
      var j := 0;
      while j < |headers|
        invariant 0 <= j <= |headers|
        invariant DecodeAll(HeaderCookies(headers[j..]) + later, ids, parse) == DecodeAll(CookieValues(hits), acc, parse)
      {
        var header := headers[j];
        assert headers[j..][1..] == headers[j + 1..];
        if header.name == CookieName {
          var cookie := header.value;
          assert HeaderCookies(headers[j..]) + later == [cookie] + (HeaderCookies(headers[j + 1..]) + later);
          DecodeAllFirst(cookie, HeaderCookies(headers[j + 1..]) + later, ids, parse);
          var d := CookieToAmplitudeID(cookie, parse);
          match d
          case Panicked =>
            return Err(SlicePanic);
          case Returned(id, Some(cause)) =>
            return Err(cause);
          case Returned(id, None) =>
            if id != Zero {
              ids := ids + [id];
            }
        }
        j := j + 1;
      }
      assert HeaderCookies(headers[j..]) + later == later;
      i := i + 1;
    }
    assert hits[i..] == [];
    r := Ok(ids);
  }

  /**
    The records of the search response and of the first `n` scroll
    responses, decoded page by page as the scroll loop does: each page's
    cookies are decoded on top of the records gathered so far, and the first
    failure is final. A failed response has no hits.
   */
  function Harvested(first: Response, pages: seq<Response>, n: nat, parse: Parser): Result<seq<AmplitudeID>>
    requires first.Page? && n <= |pages|
  {
    if n == 0 then DecodeAll(CookieValues(first.hits), [], parse)
    else
      var before := Harvested(first, pages, n - 1, parse);
      if before.Err? then before
      else DecodeAll(CookieValues(if pages[n - 1].Page? then pages[n - 1].hits else []), before.value, parse)
  }

  /**
    Decoding page by page is decoding every cookie of every page received,
    in order, in one pass.
   */
  lemma {:induction false} HarvestedAllHits(first: Response, pages: seq<Response>, n: nat, parse: Parser)
    requires first.Page? && n <= |pages|
    ensures Harvested(first, pages, n, parse) == DecodeAll(CookieValues(AllHits(first, pages, n)), [], parse)
  {
    if n == 0 {
      assert AllHits(first, pages, 0) == first.hits;
    } else {
      var h := Harvested(first, pages, n - 1, parse);
      var page := if pages[n - 1].Page? then pages[n - 1].hits else [];
      HarvestedAllHits(first, pages, n - 1, parse);
      AllHitsStep(first, pages, n, parse);
      assert Harvested(first, pages, n, parse) ==
        if h.Err? then h else DecodeAll(CookieValues(page), h.value, parse);
    }
  }

  /** When the first `n` pages decoded without failure, so did the first `n - 1`. */
  lemma HarvestedEarlier(first: Response, pages: seq<Response>, n: nat, parse: Parser)
    requires first.Page? && 0 < n <= |pages| && Harvested(first, pages, n, parse).Ok?
    ensures Harvested(first, pages, n - 1, parse).Ok?
  {
  }

  /** The pages before the `n`-th scroll answer decoded without failure, in one pass. */
  lemma DecodedBefore(first: Response, pages: seq<Response>, n: nat, parse: Parser)
    requires first.Page? && n <= |pages| && (0 < n ==> Harvested(first, pages, n - 1, parse).Ok?)
    ensures 0 < n ==> DecodeAll(CookieValues(AllHits(first, pages, n - 1)), [], parse).Ok?
  {
    if 0 < n {
      HarvestedAllHits(first, pages, n - 1, parse);
    }
  }

  /** Decoding the hits of one more page continues where decoding the earlier hits stopped. */
  lemma AllHitsStep(first: Response, pages: seq<Response>, n: nat, parse: Parser)
    requires first.Page? && 0 < n <= |pages|
    ensures var page := if pages[n - 1].Page? then pages[n - 1].hits else [];
      var before := DecodeAll(CookieValues(AllHits(first, pages, n - 1)), [], parse);
      DecodeAll(CookieValues(AllHits(first, pages, n)), [], parse) ==
      if before.Err? then before else DecodeAll(CookieValues(page), before.value, parse)
  {
    var before := AllHits(first, pages, n - 1);
    var page := if pages[n - 1].Page? then pages[n - 1].hits else [];
    assert AllHits(first, pages, n) == before + page;
    CookieValuesAppend(before, page);
    DecodeAllAppend(CookieValues(before), CookieValues(page), [], parse);
  }

  /** The records and the summed `took` gathered by the scroll loop. */
  datatype Harvest = Harvest(ids: seq<AmplitudeID>, took: int)

  /**
    The scroll loop of `searchAction` (search.go lines 120-168), entered with
    the records of the first page: while the last page had hits, request the
    next page with the most recent scroll id, decode its cookies, add its
    `took`. `scrolls[k]` is the answer to the k-th request and `sent` records
    the scroll id each request carried.
   */
  method Scroll(first: Response, scrolls: seq<Response>, firstIds: seq<AmplitudeID>, parse: Parser)
    returns (out: Result<Harvest>, sent: seq<string>)
    requires first.Page? && EventuallyStops(scrolls)
    requires DecodeAll(CookieValues(first.hits), [], parse) == Ok(firstIds)
    ensures |sent| <= |scrolls|
    // a request is made only after a page that had hits, and carries that page's scroll id
    ensures forall k :: 0 <= k < |sent| ==>
      Previous(first, scrolls, k).Page? && |Previous(first, scrolls, k).hits| > 0 &&
      sent[k] == Previous(first, scrolls, k).scrollId
    // success once a page comes back empty, with every page's records and `took`
    ensures out.Ok? ==> Previous(first, scrolls, |sent|).Page? && |Previous(first, scrolls, |sent|).hits| == 0
    ensures out.Ok? ==> out.value.took == first.took + TookSum(scrolls, |sent|)
    ensures out.Ok? ==> Harvested(first, scrolls, |sent|, parse) == Ok(out.value.ids)
    ensures out == Err(BackendFailure) ==> Previous(first, scrolls, |sent|).Failed?
    // a decoding failure is the first failure among the cookies of the pages received
    ensures out.Err? && out.cause != BackendFailure ==>
      Harvested(first, scrolls, |sent|, parse) == Err(out.cause)
    // every request follows pages that all decoded: the first failure ends the loop
    ensures 0 < |sent| ==> Harvested(first, scrolls, |sent| - 1, parse).Ok?
  {
    sent := [];
    var hits := |first.hits|;
    var took := first.took;
    var sid := first.scrollId;
    var ids := firstIds;
    var k := 0;
    while hits > 0
      invariant 0 <= k <= |scrolls| && |sent| == k
      invariant Previous(first, scrolls, k).Page?
      invariant hits == |Previous(first, scrolls, k).hits| && sid == Previous(first, scrolls, k).scrollId
      invariant forall j :: 0 <= j < k ==>
        Previous(first, scrolls, j).Page? && |Previous(first, scrolls, j).hits| > 0 &&
        sent[j] == Previous(first, scrolls, j).scrollId
      invariant took == first.took + TookSum(scrolls, k)
      invariant Harvested(first, scrolls, k, parse) == Ok(ids)
      decreases |scrolls| - k
    {
      MoreResponses(first, scrolls, k);
      var res := scrolls[k];
      sent := sent + [sid];
      assert |sent| - 1 == k;
      assert forall j :: 0 <= j < |sent| ==>
        Previous(first, scrolls, j).Page? && |Previous(first, scrolls, j).hits| > 0 &&
        sent[j] == Previous(first, scrolls, j).scrollId;
      if res.Failed? {
        out := Err(BackendFailure);
        return;
      }
      var extracted := ExtractPage(res.hits, ids, parse);
      if extracted.Err? {
        out := Err(extracted.cause);
        return;
      }
      ids := extracted.value;
      hits := |res.hits|;
      took := took + res.took;
      sid := res.scrollId;
      k := k + 1;
    }
    if 0 < k {
      HarvestedEarlier(first, scrolls, k, parse);
    }
    out := Ok(Harvest(ids, took));
  }

  /**
    The search response and the scroll loop of `searchAction` (search.go
    lines 79-168): a failed search ends the command, then the first page's
    cookies are decoded and the scroll loop goes on from there.
   */
  method Collect(first: Response, scrolls: seq<Response>, parse: Parser)
    returns (out: Result<Harvest>, sent: seq<string>)
    requires EventuallyStops(scrolls)
    ensures |sent| <= |scrolls|
    ensures first.Failed? ==> out == Err(BackendFailure) && sent == []
    // a request is made only after a page that had hits, and carries that page's scroll id
    ensures forall k :: 0 <= k < |sent| ==>
      Previous(first, scrolls, k).Page? && |Previous(first, scrolls, k).hits| > 0 &&
      sent[k] == Previous(first, scrolls, k).scrollId
    // success once a page comes back empty, with every page's records and `took`
    ensures out.Ok? ==> Previous(first, scrolls, |sent|).Page? && |Previous(first, scrolls, |sent|).hits| == 0
    ensures out.Ok? ==> out.value.took == first.took + TookSum(scrolls, |sent|)
    ensures out.Ok? ==> DecodeAll(CookieValues(AllHits(first, scrolls, |sent|)), [], parse) == Ok(out.value.ids)
    ensures out == Err(BackendFailure) ==> Previous(first, scrolls, |sent|).Failed?
    // a decoding failure is the first failure among the cookies of the pages received
    ensures out.Err? && out.cause != BackendFailure ==>
      first.Page? && DecodeAll(CookieValues(AllHits(first, scrolls, |sent|)), [], parse) == Err(out.cause)
    // every request follows pages that all decoded: the first failure ends the command
    ensures 0 < |sent| ==>
      first.Page? && DecodeAll(CookieValues(AllHits(first, scrolls, |sent| - 1)), [], parse).Ok?
  {
    sent := [];
    if first.Failed? {
      out := Err(BackendFailure);
      return;
    }
    var extracted := ExtractPage(first.hits, [], parse);
    if extracted.Err? {
      HarvestedAllHits(first, scrolls, 0, parse);
      out := Err(extracted.cause);
      return;
    }
    var harvest;
    harvest, sent := Scroll(first, scrolls, extracted.value, parse);
    HarvestedAllHits(first, scrolls, |sent|, parse);
    DecodedBefore(first, scrolls, |sent|, parse);
    out := harvest;
  }

  /**
    The body of `searchAction` once the search has been sent (search.go
    lines 79-168, with the summary of line 182). `first` is the search
    response; the rest is the scroll loop. The backend is assumed to end the
    scroll eventually with an empty page or an error.
   */
  method SearchAction(first: Response, scrolls: seq<Response>, parse: Parser)
    returns (out: Result<Summary.Report>, sent: seq<string>)
    requires EventuallyStops(scrolls)
    ensures |sent| <= |scrolls|
    ensures first.Failed? ==> out == Err(BackendFailure) && sent == []
    // a request is made only after a page that had hits, and carries that page's scroll id
    ensures forall k :: 0 <= k < |sent| ==>
      Previous(first, scrolls, k).Page? && |Previous(first, scrolls, k).hits| > 0 &&
      sent[k] == Previous(first, scrolls, k).scrollId
    // success once a page comes back empty, with every page's records and `took`
    ensures out.Ok? ==> Previous(first, scrolls, |sent|).Page? && |Previous(first, scrolls, |sent|).hits| == 0
    ensures out.Ok? ==> out.value.took == first.took + TookSum(scrolls, |sent|)
    ensures out.Ok? ==> DecodeAll(CookieValues(AllHits(first, scrolls, |sent|)), [], parse) == Ok(out.value.ids)
    ensures out.Ok? ==> Summary.IsSummaryOf(out.value.summary, out.value.ids)
    ensures out == Err(BackendFailure) ==> Previous(first, scrolls, |sent|).Failed?
    // a decoding failure is the first failure among the cookies of the pages received
    ensures out.Err? && out.cause != BackendFailure ==>
      first.Page? && DecodeAll(CookieValues(AllHits(first, scrolls, |sent|)), [], parse) == Err(out.cause)
    // every request follows pages that all decoded: the first failure ends the command
    ensures 0 < |sent| ==>
      first.Page? && DecodeAll(CookieValues(AllHits(first, scrolls, |sent| - 1)), [], parse).Ok?
  {
    var harvest;
    harvest, sent := Collect(first, scrolls, parse);
    if harvest.Err? {
      out := Err(harvest.cause);
      return;
    }
    var summary := Summary.Summarize(harvest.value.ids);
    out := Ok(Summary.Report(harvest.value.ids, harvest.value.took, summary));
  }
}
