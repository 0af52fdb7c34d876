/**
  The older, lenient pipeline of `ecc.go`'s `run`: every marked cookie
  segment is base64-decoded and unmarshalled into one record variable that
  lives for the whole run, decoding errors are only logged, and a copy of
  that record is appended for every marked segment. The scroll loop is
  entered on the total-hit count and always sends the first scroll id.
 */
module Ecc {
  import opened Wrappers
  import opened Strings
  import Base64
  import opened Identity
  import opened Cookies
  import opened Backend
  import Summary

  /** The appended records and the shared record variable. */
  datatype Lenient = Lenient(ids: seq<AmplitudeID>, cur: AmplitudeID)

  /** Before the first page: no records, and the zero record. */
  const Start := Lenient([], Zero)

  /**
    One marked segment: the text after its first '=' (no '=' panics:
    `None`) is base64-decoded, keeping whatever bytes came out even on an
    error, and unmarshalled into the shared record, whatever the outcome.
   */
  function LenientSegment(segment: string, cur: AmplitudeID, parse: Parser): (r: Option<AmplitudeID>)
    ensures r.None? <==> '=' !in segment
  {
    match AfterFirstEqual(segment)
    case None => None
    case Some(enc) => Some(Unmarshal(parse, Base64.DecodeString(enc).bytes, cur).id)
  }

  /** The marked segments of a run, one after another, each appending the record as it then stands. */
  function LenientFrom(segments: seq<string>, st: Lenient, parse: Parser): (r: Option<Lenient>)
    decreases |segments|
  {
    if |segments| == 0 then Some(st)
    else match LenientSegment(segments[0], st.cur, parse)
      case None => None
      case Some(id) => LenientFrom(segments[1..], Lenient(st.ids + [id], id), parse)
  }

  /** The cookie header values of a run, one after another: the marked segments of each, in order. */
  function LenientValues(values: seq<string>, st: Lenient, parse: Parser): (r: Option<Lenient>)
    decreases |values|
  {
    if |values| == 0 then Some(st)
    else match LenientCookie(values[0], st, parse)
      case None => None
      case Some(next) => LenientValues(values[1..], next, parse)
  }

  /**
    The segments of one cookie as the source loop meets them: a segment
    without `amplitude_id` is skipped, a marked one is run.
   */
  function LenientSegments(segments: seq<string>, st: Lenient, parse: Parser): Option<Lenient>
    decreases |segments|
  {
    if |segments| == 0 then Some(st)
    else if !Contains(segments[0], Marker) then LenientSegments(segments[1..], st, parse)
    else match LenientSegment(segments[0], st.cur, parse)
      case None => None
      case Some(id) => LenientSegments(segments[1..], Lenient(st.ids + [id], id), parse)
  }

  /** One cookie header value: its segments, in order. */
  function LenientCookie(cookie: string, st: Lenient, parse: Parser): Option<Lenient>
  {
    LenientSegments(Split(cookie, ';'), st, parse)
  }

  /** Skipping the unmarked segments on the way is running the marked ones alone. */
  lemma {:induction false} LenientSegmentsFilter(segments: seq<string>, st: Lenient, parse: Parser)
    ensures LenientSegments(segments, st, parse) == LenientFrom(MarkedSegments(segments), st, parse)
    decreases |segments|
  {
    if |segments| > 0 {
      var rest := MarkedSegments(segments[1..]);
      if !Contains(segments[0], Marker) {
        LenientSegmentsFilter(segments[1..], st, parse);
      } else {
        assert ([segments[0]] + rest)[1..] == rest;
        var id := LenientSegment(segments[0], st.cur, parse);
        if id.Some? {
          LenientSegmentsFilter(segments[1..], Lenient(st.ids + [id.value], id.value), parse);
        }
      }
    }
  }

  /** The marked segments of all the cookie values, in order. */
  function AmpSegments(values: seq<string>): seq<string>
  {
    if |values| == 0 then [] else MarkedSegments(Split(values[0], ';')) + AmpSegments(values[1..])
  }

  /**
    The lenient loop panics exactly when some marked segment has no '=';
    otherwise it appends exactly one record per marked segment and keeps
    what was appended before.
   */
  lemma {:induction false} LenientFromMeaning(segments: seq<string>, st: Lenient, parse: Parser)
    ensures LenientFrom(segments, st, parse).None? <==> exists i :: 0 <= i < |segments| && '=' !in segments[i]
    ensures LenientFrom(segments, st, parse).Some? ==>
      var ids := LenientFrom(segments, st, parse).value.ids;
      |ids| == |st.ids| + |segments| && ids[..|st.ids|] == st.ids
    decreases |segments|
  {
    if |segments| > 0 {
      var id := LenientSegment(segments[0], st.cur, parse);
      if id.Some? {
        var next := Lenient(st.ids + [id.value], id.value);
        LenientFromMeaning(segments[1..], next, parse);
        assert forall i :: 1 <= i < |segments| ==> segments[i] == segments[1..][i - 1];
        if LenientFrom(segments, st, parse).Some? {
          var ids := LenientFrom(segments, st, parse).value.ids;
          assert ids[..|st.ids|] == ids[..|next.ids|][..|st.ids|];
        }
      }
    }
  }

  /** Running the segments of a concatenation is running the first part, then the second. */
  lemma {:induction false} LenientFromAppend(a: seq<string>, b: seq<string>, st: Lenient, parse: Parser)
    ensures LenientFrom(a + b, st, parse) ==
      match LenientFrom(a, st, parse)
      case None => None
      case Some(mid) => LenientFrom(b, mid, parse)
    decreases |a|
  {
    if |a| == 0 {
      assert a + b == b;
    } else {
      assert (a + b)[0] == a[0];
      assert (a + b)[1..] == a[1..] + b;
      var id := LenientSegment(a[0], st.cur, parse);
      if id.Some? {
        LenientFromAppend(a[1..], b, Lenient(st.ids + [id.value], id.value), parse);
      }
    }
  }

  /** Running the cookies one by one is running all their marked segments in one go. */
  lemma {:induction false} LenientValuesFlatten(values: seq<string>, st: Lenient, parse: Parser)
    ensures LenientValues(values, st, parse) == LenientFrom(AmpSegments(values), st, parse)
    decreases |values|
  {
    if |values| > 0 {
      var first := MarkedSegments(Split(values[0], ';'));
      LenientSegmentsFilter(Split(values[0], ';'), st, parse);
      LenientFromAppend(first, AmpSegments(values[1..]), st, parse);
      var next := LenientFrom(first, st, parse);
      if next.Some? {
        LenientValuesFlatten(values[1..], next.value, parse);
      }
    }
  }

  /**
    Every marked segment appends exactly one record, whether or not its
    base64 or JSON decodes: a run that does not panic has as many records as
    its cookies have marked segments.
   */
  lemma OneRecordPerMarkedSegment(values: seq<string>, parse: Parser)
    requires LenientValues(values, Start, parse).Some?
    ensures |LenientValues(values, Start, parse).value.ids| == |AmpSegments(values)|
  {
    LenientValuesFlatten(values, Start, parse);
    LenientFromMeaning(AmpSegments(values), Start, parse);
  }

  /** A segment whose decoded bytes are not JSON appends the shared record unchanged: the previous one again. */
  lemma StaleRecordOnSyntaxError(key: string, value: string, cur: AmplitudeID, parse: Parser)
    requires '=' !in key && parse(Base64.DecodeString(value).bytes).SyntaxError?
    ensures LenientSegment(key + "=" + value, cur, parse) == Some(cur)
  {
    AfterKey(key, value);
  }

  /**
    Broken base64 is not fatal: when whole quanta are followed by a stray
    character, decoding reports an error, yet the bytes of those quanta are
    still unmarshalled and a record is appended.
   */
  lemma Base64ErrorStillAppends(key: string, b: seq<Base64.byte>, cur: AmplitudeID, parse: Parser)
    requires '=' !in key && |b| % 3 == 0
    ensures var value := Base64.Encode(b) + "!";
      !Base64.DecodeString(value).ok &&
      LenientSegment(key + "=" + value, cur, parse) == Some(Unmarshal(parse, b, cur).id)
  {
    var value := Base64.Encode(b) + "!";
    AfterKey(key, value);
    Base64.TrailingGarbage(b);
  }

  /**
    The record is shared across cookies: when a later cookie's JSON omits a
    member, the record appended for it keeps the value the earlier cookie
    stored, here its UserID.
   */
  lemma StaleFieldsAcrossCookies(
    key1: string, value1: string, key2: string, value2: string, parse: Parser)
    requires Contains(key1, Marker) && '=' !in key1 && ';' !in key1 && ';' !in value1
    requires Contains(key2, Marker) && '=' !in key2 && ';' !in key2 && ';' !in value2
    requires parse(Base64.DecodeString(value1).bytes).Parsed?
    requires parse(Base64.DecodeString(value2).bytes).Parsed?
    requires parse(Base64.DecodeString(value2).bytes).members.userId.None?
    ensures var r := LenientValues([key1 + "=" + value1, key2 + "=" + value2], Start, parse);
      r.Some? && |r.value.ids| == 2 && r.value.ids[1].userId == r.value.ids[0].userId
  {
    var c1 := key1 + "=" + value1;
    var c2 := key2 + "=" + value2;
    var id1 := LenientSegment(c1, Zero, parse).value;
    var id2 := LenientSegment(c2, id1, parse).value;
    LenientAlone(key1, value1, Start, parse);
    assert Start.ids + [id1] == [id1];
    LenientAlone(key2, value2, Lenient([id1], id1), parse);
    assert [id1] + [id2] == [id1, id2];
    TwoCookies(c1, c2, Lenient([id1], id1), Lenient([id1, id2], id2), parse);
    UserIdKept(key2, value2, id1, parse);
  }

  /** Two cookies run one after the other. */
  lemma TwoCookies(c1: string, c2: string, st1: Lenient, st2: Lenient, parse: Parser)
    requires LenientCookie(c1, Start, parse) == Some(st1) && LenientCookie(c2, st1, parse) == Some(st2)
    ensures LenientValues([c1, c2], Start, parse) == Some(st2)
  {
    LenientValuesFirst(c1, [c2], Start, parse);
    assert [c1] + [c2] == [c1, c2];
    LenientValuesFirst(c2, [], st1, parse);
    assert [c2] + [] == [c2];
  }

  /** JSON without a `userId` member leaves the shared record's UserID as it was. */
  lemma UserIdKept(key: string, value: string, cur: AmplitudeID, parse: Parser)
    requires '=' !in key
    requires parse(Base64.DecodeString(value).bytes).Parsed?
    requires parse(Base64.DecodeString(value).bytes).members.userId.None?
    ensures LenientSegment(key + "=" + value, cur, parse).Some?
    ensures LenientSegment(key + "=" + value, cur, parse).value.userId == cur.userId
  {
    AfterKey(key, value);
  }

  /** A cookie made of one marked `key=value` segment appends one record. */
  lemma LenientAlone(key: string, value: string, st: Lenient, parse: Parser)
    requires Contains(key, Marker) && '=' !in key && ';' !in key && ';' !in value
    ensures var id := LenientSegment(key + "=" + value, st.cur, parse).value;
      LenientCookie(key + "=" + value, st, parse) == Some(Lenient(st.ids + [id], id))
  {
    var c := key + "=" + value;
    assert c[|key|] == '=';
    assert ';' !in c;
    MarkedKeyValue(key, value);
    LenientOne(c, st, parse);
  }

  /** A cookie that is a single marked segment with an '=' appends one record. */
  lemma LenientOne(c: string, st: Lenient, parse: Parser)
    requires Contains(c, Marker) && '=' in c && ';' !in c
    ensures var id := LenientSegment(c, st.cur, parse).value;
      LenientCookie(c, st, parse) == Some(Lenient(st.ids + [id], id))
  {
    SplitWithoutSeparator(c, ';');
    var id := LenientSegment(c, st.cur, parse);
    assert id.Some?;
    assert [c][1..] == [];
    assert LenientSegments([c], st, parse) == LenientSegments([], Lenient(st.ids + [id.value], id.value), parse);
  }

  lemma MarkedKeyValue(key: string, value: string)
    requires Contains(key, Marker)
    ensures Contains(key + "=" + value, Marker)
  {
    ContainsInfix([], key, "=" + value, Marker);
    assert [] + key + ("=" + value) == key + "=" + value;
  }

  /** The lenient loop over one cookie's segments (ecc.go lines 238-251, and 291-304). */
  method ExtractCookie(cookie: string, st: Lenient, parse: Parser) returns (r: Option<Lenient>)
    ensures r == LenientCookie(cookie, st, parse)
  {
    var segments := Split(cookie, ';');
    var ids := st.ids;
    var amplitudeID := st.cur;
    var i := 0;
    while i < |segments|
      invariant 0 <= i <= |segments|
      invariant LenientSegments(segments[i..], Lenient(ids, amplitudeID), parse) == LenientCookie(cookie, st, parse)
    {
      var values := segments[i];
      assert segments[i..][1..] == segments[i + 1..];
      if Contains(values, Marker) {
        var enc := TrimNextEqual(values);
        if enc.None? {
          return None;
        }
        var dec := Base64.DecodeString(enc.value);
        var u := Unmarshal(parse, dec.bytes, amplitudeID);
        amplitudeID := u.id;
        ids := ids + [amplitudeID];
      }
      i := i + 1;
    }
    r := Some(Lenient(ids, amplitudeID));
  }

  /** Running cookies that start with `cookie`: its segments first, then the rest. */
  lemma LenientValuesFirst(cookie: string, tail: seq<string>, st: Lenient, parse: Parser)
    ensures LenientValues([cookie] + tail, st, parse) ==
      match LenientCookie(cookie, st, parse)
      case None => None
      case Some(next) => LenientValues(tail, next, parse)
  {
    assert ([cookie] + tail)[0] == cookie;
    assert ([cookie] + tail)[1..] == tail;
  }

  /** The lenient extraction over one page's hits (ecc.go lines 231-256, and 284-309). */
  method ExtractPage(hits: seq<Hit>, st: Lenient, parse: Parser) returns (r: Option<Lenient>)
    ensures r == LenientValues(CookieValues(hits), st, parse)
  {
    var cur := st;
    var i := 0;
    while i < |hits|
      invariant 0 <= i <= |hits|
      invariant LenientValues(CookieValues(hits[i..]), cur, parse) == LenientValues(CookieValues(hits), st, parse)
    {
      var headers := hits[i];
      assert hits[i..][1..] == hits[i + 1..];
      var later := CookieValues(hits[i + 1..]);
      assert headers[0..] == headers;
      var j := 0;
      while j < |headers|
        invariant 0 <= j <= |headers|
        invariant LenientValues(HeaderCookies(headers[j..]) + later, cur, parse) ==
          LenientValues(CookieValues(hits), st, parse)
      {
        var header := headers[j];
        assert headers[j..][1..] == headers[j + 1..];
        if header.name == CookieName {
          var cookie := header.value;
          assert HeaderCookies(headers[j..]) + later == [cookie] + (HeaderCookies(headers[j + 1..]) + later);
          LenientValuesFirst(cookie, HeaderCookies(headers[j + 1..]) + later, cur, parse);
          var next := ExtractCookie(cookie, cur, parse);
          if next.None? {
            return None;
          }
          cur := next.value;
        }
        j := j + 1;
      }
      assert HeaderCookies(headers[j..]) + later == later;
      i := i + 1;
    }
    assert hits[i..] == [];
    r := Some(cur);
  }

  /** Running the cookies of a concatenation is running the first part, then the second. */
  lemma {:induction false} LenientValuesAppend(a: seq<string>, b: seq<string>, st: Lenient, parse: Parser)
    ensures LenientValues(a + b, st, parse) ==
      match LenientValues(a, st, parse)
      case None => None
      case Some(mid) => LenientValues(b, mid, parse)
    decreases |a|
  {
    if |a| == 0 {
      assert a + b == b;
    } else {
      assert (a + b)[0] == a[0];
      assert (a + b)[1..] == a[1..] + b;
      var next := LenientCookie(a[0], st, parse);
      if next.Some? {
        LenientValuesAppend(a[1..], b, next.value, parse);
      }
    }
  }

  /**
    The lenient run over the search response and the first `n` scroll
    responses, page by page as the scroll loop goes: each page's cookies
    continue the run where the previous page left it. A failed response has
    no hits.
   */
  function Harvested(first: Response, pages: seq<Response>, n: nat, parse: Parser): Option<Lenient>
    requires first.Page? && n <= |pages|
  {
    if n == 0 then LenientValues(CookieValues(first.hits), Start, parse)
    else
      var before := Harvested(first, pages, n - 1, parse);
      if before.None? then None
      else LenientValues(CookieValues(if pages[n - 1].Page? then pages[n - 1].hits else []), before.value, parse)
  }

  /** Running page by page is running every cookie of every page received, in order, in one go. */
  lemma {:induction false} HarvestedAllHits(first: Response, pages: seq<Response>, n: nat, parse: Parser)
    requires first.Page? && n <= |pages|
    ensures Harvested(first, pages, n, parse) == LenientValues(CookieValues(AllHits(first, pages, n)), Start, parse)
  {
    if n == 0 {
      assert AllHits(first, pages, 0) == first.hits;
    } else {
      var h := Harvested(first, pages, n - 1, parse);
      var page := if pages[n - 1].Page? then pages[n - 1].hits else [];
      HarvestedAllHits(first, pages, n - 1, parse);
      AllHitsStep(first, pages, n, parse);
      assert Harvested(first, pages, n, parse) ==
        if h.None? then None else LenientValues(CookieValues(page), h.value, parse);
    }
  }

  /** When the first `n` pages ran without a panic, so did the first `n - 1`. */
  lemma HarvestedEarlier(first: Response, pages: seq<Response>, n: nat, parse: Parser)
    requires first.Page? && 0 < n <= |pages| && Harvested(first, pages, n, parse).Some?
    ensures Harvested(first, pages, n - 1, parse).Some?
  {
  }

  /** The pages before the `n`-th scroll answer ran without a panic, in one go. */
  lemma RanBefore(first: Response, pages: seq<Response>, n: nat, parse: Parser)
    requires first.Page? && n <= |pages| && (0 < n ==> Harvested(first, pages, n - 1, parse).Some?)
    ensures 0 < n ==> LenientValues(CookieValues(AllHits(first, pages, n - 1)), Start, parse).Some?
  {
    if 0 < n {
      HarvestedAllHits(first, pages, n - 1, parse);
    }
  }

  /** Running the hits of one more page continues where running the earlier hits stopped. */
  lemma AllHitsStep(first: Response, pages: seq<Response>, n: nat, parse: Parser)
    requires first.Page? && 0 < n <= |pages|
    ensures var page := if pages[n - 1].Page? then pages[n - 1].hits else [];
      var before := LenientValues(CookieValues(AllHits(first, pages, n - 1)), Start, parse);
      LenientValues(CookieValues(AllHits(first, pages, n)), Start, parse) ==
      if before.None? then None else LenientValues(CookieValues(page), before.value, parse)
  {
    var before := AllHits(first, pages, n - 1);
    var page := if pages[n - 1].Page? then pages[n - 1].hits else [];
    assert AllHits(first, pages, n) == before + page;
    CookieValuesAppend(before, page);
    LenientValuesAppend(CookieValues(before), CookieValues(page), Start, parse);
  }

  /**
    The value the loop test `scrollSize > 0` reads before the k-th request:
    the total-hit count of the search, then the hit count of the last page.
   */
  function ScrollSize(first: Response, scrolls: seq<Response>, k: nat): int
    requires k <= |scrolls|
  {
    var r := Previous(first, scrolls, k);
    if r.Failed? then 0 else if k == 0 then r.total else |r.hits|
  }

  /** The records and the summed `took` gathered by the scroll loop. */
  datatype Harvest = Harvest(run: Lenient, took: int)

  /**
    The scroll loop of `run` (ecc.go lines 258-314), entered with the state
    after the first page: while `scrollSize` is positive, request the next
    page with the first scroll id, run its cookies, add its `took`.
   */
  method Scroll(first: Response, scrolls: seq<Response>, st: Lenient, parse: Parser)
    returns (out: Result<Harvest>, sent: seq<string>)
    requires first.Page? && EventuallyStops(scrolls)
    requires Harvested(first, scrolls, 0, parse) == Some(st)
    ensures |sent| <= |scrolls|
    // every request repeats the first scroll id, and follows a positive scroll size
    ensures forall k :: 0 <= k < |sent| ==>
      Previous(first, scrolls, k).Page? && ScrollSize(first, scrolls, k) > 0 && sent[k] == first.scrollId
    ensures out.Ok? ==> Previous(first, scrolls, |sent|).Page? && ScrollSize(first, scrolls, |sent|) <= 0
    ensures out.Ok? ==> out.value.took == first.took + TookSum(scrolls, |sent|)
    ensures out.Ok? ==> Harvested(first, scrolls, |sent|, parse) == Some(out.value.run)
    ensures out == Err(BackendFailure) ==> Previous(first, scrolls, |sent|).Failed?
    ensures out.Err? && out.cause != BackendFailure ==>
      out.cause == SlicePanic && Harvested(first, scrolls, |sent|, parse).None?
    // every request follows pages that ran without a panic: a panic ends the loop
    ensures 0 < |sent| ==> Harvested(first, scrolls, |sent| - 1, parse).Some?
  {
    sent := [];
    var scrollSize := first.total;
    var took := first.took;
    var sid := first.scrollId;
    var cur := st;
    var k := 0;
    while scrollSize > 0
      invariant 0 <= k <= |scrolls| && |sent| == k
      invariant Previous(first, scrolls, k).Page? && scrollSize == ScrollSize(first, scrolls, k)
      invariant sid == first.scrollId
      invariant forall j :: 0 <= j < k ==>
        Previous(first, scrolls, j).Page? && ScrollSize(first, scrolls, j) > 0 && sent[j] == first.scrollId
      invariant took == first.took + TookSum(scrolls, k)
      invariant Harvested(first, scrolls, k, parse) == Some(cur)
      decreases |scrolls| - k
    {
      MoreResponses(first, scrolls, k);
      var res := scrolls[k];
      sent := sent + [sid];
      assert |sent| - 1 == k;
      assert forall j :: 0 <= j < |sent| ==>
        Previous(first, scrolls, j).Page? && ScrollSize(first, scrolls, j) > 0 && sent[j] == first.scrollId;
      if res.Failed? {
        out := Err(BackendFailure);
        return;
      }
      var next := ExtractPage(res.hits, cur, parse);
      if next.None? {
        out := Err(SlicePanic);
        return;
      }
      cur := next.value;
      scrollSize := |res.hits|;
      took := took + res.took;
      k := k + 1;
    }
    if 0 < k {
      HarvestedEarlier(first, scrolls, k, parse);
    }
    out := Ok(Harvest(cur, took));
  }

  /**
    The body of `run` once the search has been sent (ecc.go lines 205-314,
    with the aggregation of lines 330-350). A backend error, fatal in the
    source, and a panic are the only ways to fail.
   */
  method Run(first: Response, scrolls: seq<Response>, parse: Parser)
    returns (out: Result<Summary.Report>, sent: seq<string>)
    requires EventuallyStops(scrolls)
    ensures |sent| <= |scrolls|
    ensures first.Failed? ==> out == Err(BackendFailure) && sent == []
    // every request repeats the first scroll id, and follows a positive scroll size
    ensures forall k :: 0 <= k < |sent| ==>
      Previous(first, scrolls, k).Page? && ScrollSize(first, scrolls, k) > 0 && sent[k] == first.scrollId
    ensures out.Ok? ==> Previous(first, scrolls, |sent|).Page? && ScrollSize(first, scrolls, |sent|) <= 0
    ensures out.Ok? ==> out.value.took == first.took + TookSum(scrolls, |sent|)
    ensures out.Ok? ==>
      var run := LenientValues(CookieValues(AllHits(first, scrolls, |sent|)), Start, parse);
      run.Some? && run.value.ids == out.value.ids
    ensures out.Ok? ==> Summary.IsSummaryOf(out.value.summary, out.value.ids)
    ensures out == Err(BackendFailure) ==> Previous(first, scrolls, |sent|).Failed?
    ensures out.Err? && out.cause != BackendFailure ==>
      out.cause == SlicePanic && first.Page? &&
      LenientValues(CookieValues(AllHits(first, scrolls, |sent|)), Start, parse).None?
    // every request follows pages that ran without a panic: a panic ends the run
    ensures 0 < |sent| ==>
      first.Page? && LenientValues(CookieValues(AllHits(first, scrolls, |sent| - 1)), Start, parse).Some?
  {
    sent := [];
    if first.Failed? {
      out := Err(BackendFailure);
      return;
    }
    var st := ExtractPage(first.hits, Start, parse);
    if st.None? {
      HarvestedAllHits(first, scrolls, 0, parse);
      out := Err(SlicePanic);
      return;
    }
    var harvest;
    harvest, sent := Scroll(first, scrolls, st.value, parse);
    HarvestedAllHits(first, scrolls, |sent|, parse);
    RanBefore(first, scrolls, |sent|, parse);
    if harvest.Err? {
      out := Err(harvest.cause);
      return;
    }
    var summary := Summary.Summarize(harvest.value.run.ids);
    out := Ok(Summary.Report(harvest.value.run.ids, harvest.value.took, summary));
  }
}
