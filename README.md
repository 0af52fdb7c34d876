# escli cookie-to-identity pipeline, modelled in Dafny

`escli` searches the WAF request logs held in Elasticsearch. It reads the
`cookie` request headers of every hit and decodes the Amplitude analytics
identity (`AmplitudeID`) carried in each `amplitude_id…=<base64 JSON>`
cookie segment. It then counts the identities per `UserID`. This project
models that pipeline in both of its variants:

- the `search` command (`search.go`). It is strict. `cookieToAmplitudeID`
  splits a cookie on `;`. It runs every segment that mentions
  `amplitude_id` through `trimNextEqual`, the standard padded base64
  decoder and `json.Unmarshal`. The first error aborts the whole command.
  The extraction loop keeps only non-zero records. The scroll loop asks for
  the next page with the most recent `_scroll_id` until a page comes back
  empty, and it adds up `took`. `printAmplitudeIDSummary` counts records
  per `UserID` and sorts the counts.
- the older `run` of `ecc.go`. It is lenient. Decoding errors are only
  logged. One record variable is shared by the whole run and a copy is
  appended for every marked segment. The scroll loop's first test reads the
  total-hit count, and every request resends the first scroll id.

The model is organised by file:

- `strings.dfy`: the parts of Go's `strings` package the pipeline uses
  (`Split`, `Contains`) and Go's byte-wise `<` on strings.
- `base64.dfy`: `StdEncoding.DecodeString`, which skips `\r` and `\n`,
  returns the bytes decoded before an error, and returns an error on
  missing padding. Its partner is the standard encoder, and the round trip
  is proved.
- `identity.dfy`: the `AmplitudeID` record and `json.Unmarshal` into it.
  JSON parsing is a function-typed parameter (`Parser`). It reports
  either a syntax error, which leaves the target untouched, or the
  members found together with whether one of them had the wrong type.
  Go stores the other members even in the wrong-type case.
- `cookies.dfy`: the `amplitude_id` marker and `trimNextEqual`, an index
  scan proved against `AfterFirstEqual`.
- `backend.dfy`: search and scroll responses, with the JSON navigation
  already done. A hit is the list of its `httpRequest.headers`.
- `search.dfy`: `cookieToAmplitudeID`, the per-page extraction loop, the
  scroll loop and `searchAction`. Each is a method proved against a
  function that specifies it.
- `ecc.dfy`: the lenient variant, built the same way.
- `summary.dfy`: the per-user report. Counting happens in a map. The map is
  listed in any order, and the listing is sorted by count and then by
  UserID.

The search backend, the clock and the JSON parser are inputs:

- the backend is the first response plus the sequence of answers to
  successive scroll requests;
- the methods return the scroll ids they would have sent;
- `EventuallyStops` states the assumption that the backend ends the scroll
  with an empty page or an error.

Behaviours of the code worth knowing, which the model keeps:

- A marked segment with no `=` makes `trimNextEqual` slice past the end of
  the string. That is a run-time panic, not an empty value. It is modelled
  as `None` from `AfterFirstEqual`: `Panicked` in the search variant and a
  `None` run in the lenient one (`Search.MarkedWithoutEqual`).
- In `search.go`, all marked segments of one cookie are unmarshalled into
  the same record, so a member that a later segment omits keeps the earlier
  value (`Search.SegmentsShareRecord`). `ecc.go` shares one record across
  the whole run (`Ecc.StaleFieldsAcrossCookies`).
- `search.go` sends the most recent scroll id and stops on an empty page.
  `ecc.go` reuses the first id and enters the loop on the total-hit count
  (`Ecc.Scroll`).
- The first failure ends the scroll: a cookie that does not decode in
  `search.go`, or a panic in `ecc.go`, stops the loop before the next
  request.

## Model

| member | source | states |
|---|---|---|
| Strings.SplitJoin | search.go:213 | no piece of `strings.Split(s, ";")` holds a `;`, and joining the pieces with `;` gives `s` back |
| Strings.SplitWithoutSeparator | search.go:213 | text without the separator splits into exactly itself |
| Strings.SplitFirst | search.go:213 | a separator-free first piece followed by the separator splits off as the first piece, and the rest splits on its own |
| Strings.ContainsInfix | search.go:214 | an `amplitude_id` occurrence inside a piece is an occurrence in any text built around it |
| Strings.ContainsJoin | search.go:213-214 | a piece of a split that contains the marker means the whole cookie contains it, so a cookie without the marker has no marked segment |
| Strings.LessTotal | search.go:199-204 | Go's `<` on strings holds one way or the other exactly for distinct strings, and never both ways |
| Strings.LessIrreflexive | search.go:201 | no string sorts before itself |
| Strings.LessTransitive | search.go:201 | the uuid order is transitive |
| Base64.Value | search.go:216 | every alphabet character has a six-bit value |
| Base64.Symbol | search.go:216 | every six-bit value has an alphabet character, and decoding that character gives the value back |
| Base64.StripNewlines | search.go:216 | the decoder's view of its input has no `\r` or `\n` and is no longer than the input |
| Base64.DecodeQuantaBounds | search.go:216 | decoding succeeds only on a length that is a multiple of four, and yields at most three bytes per four characters |
| Base64.MissingPaddingFails | search.go:216-219 | text whose length, line breaks aside, is not a multiple of four is rejected |
| Base64.QuantumRoundTrip | search.go:216 | three bytes split into four six-bit values and assembled again are the same three bytes |
| Base64.EncodeShape | search.go:216 | the encoding of `n` bytes has `4·⌈n/3⌉` characters, all from the alphabet or `=` |
| Base64.DecodeFullQuantum | search.go:216 | four alphabet characters decode to their three bytes, then decoding continues on the rest |
| Base64.DecodeOneByteTail | search.go:216 | a final `xx==` quantum decodes to its one byte, without error |
| Base64.DecodeTwoByteTail | search.go:216 | a final `xxx=` quantum decodes to its two bytes, without error |
| Base64.DecodeFirstQuantum | search.go:216 | the four characters that encode three bytes decode to those bytes, then decoding continues |
| Base64.DecodeQuantaEncode | search.go:216 | decoding the encoder's output (no line breaks) gives the bytes back, without error |
| Base64.DecodeEncode | search.go:216 | `DecodeString(EncodeToString(b))` is `b` with no error |
| Base64.DecodeWholeQuanta | search.go:216 | whole quanta decode to their bytes, and decoding goes on with whatever follows them |
| Base64.TrailingGarbage | ecc.go:241-244 | a stray character after whole quanta is an error, but the bytes of the quanta before it are still returned |
| Base64.NoNewlinesUnchanged | search.go:216 | text without line breaks is decoded as it stands |
| Base64.StripNewlinesAppend | search.go:216 | line breaks are dropped and nothing else: stripping concatenated text is stripping each part, so every other character is kept in order |
| Identity.Apply | search.go:220 | each member the JSON supplies is stored in its field and each absent member leaves its field as it was, so JSON with no member leaves the record unchanged |
| Identity.Unmarshal | search.go:220-223 | `json.Unmarshal` reports no error exactly when the text parses and no member had the wrong type; a syntax error leaves the record untouched |
| Cookies.MarkedSegmentsFilter | search.go:213-214 | the segments kept are exactly those that contain `amplitude_id`, and there are no more of them than segments |
| Cookies.AfterFirstEqual | search.go:230-238 | with no `=`, a panic (`None`); otherwise exactly the suffix after the first `=`, which contains every later `=` |
| Cookies.TrimNextEqual | search.go:230-238 | the index scan returns `AfterFirstEqual(s)`: the suffix after the first `=`, or the out-of-range panic when there is none (the copy at ecc.go:354-362 is the same) |
| Cookies.AfterKey | search_test.go:21-22 | `key=value` with an `=`-free key yields `value` whole, trailing `==` included |
| Backend.HeaderCookies | search.go:106-108 | a hit yields at most one cookie value per header |
| Backend.HeaderCookiesMembers | search.go:106-108 | the values a hit yields are exactly the values of its headers named `cookie` |
| Backend.HeaderCookiesAppend | search.go:106-108 | the cookie values of concatenated headers are the values of each part, in order |
| Backend.CookieValuesAppend | search.go:104-108 | the cookie values of concatenated hits are the values of each part, in hit-then-header order |
| Backend.OtherHeadersIgnored | search.go:107 | a header not named exactly `cookie` contributes nothing, wherever it stands |
| Search.DecodeSegments | search.go:211-227 | a returned error always comes with the zero record, never a partly filled one, and its cause is base64 or JSON |
| Search.CookieToAmplitudeID | search.go:211-227 | the segment loop, with `trimNextEqual`, base64 and unmarshal into one record, returns exactly `DecodeCookie(cookie)` |
| Search.UnmarkedSegments | search.go:213-214 | segments none of which is marked leave the record as it was, with no error |
| Search.UnmarkedText | search.go:213-214 | text that never mentions `amplitude_id` leaves the record as it was, with no error |
| Search.UnmarkedCookie | search_test.go:92 | a cookie without `amplitude_id` yields the zero record and no error |
| Search.EmptyCookie | search_test.go:91 | the empty cookie yields the zero record and no error |
| Search.KeySegment | search.go:214-223 | one marked `key=value` segment: a base64 error or a JSON error returns the zero record with that cause; otherwise the members are stored and decoding goes on |
| Search.MarkedFirstSegment | search.go:213-226 | a cookie with one marked segment yields the unmarshalled record, or the zero record with a base64 or JSON error; a type mismatch is an error even though Go stored the other members |
| Search.RoundTrip | search_test.go:93 | a marked segment holding the base64 encoding of well-typed JSON decodes to exactly the members that JSON supplies |
| Search.MissingPadding | search_test.go:94 | a marked value of the wrong length for padded base64 yields the zero record and a base64 error |
| Search.MarkedWithoutEqual | search.go:232-237 | a marked segment without `=` makes the decoder panic |
| Search.SegmentsShareRecord | search.go:212-220 | two marked segments in one cookie are unmarshalled into the same record, the second on top of the first |
| Search.DecodeAll | search.go:109-111 | a failing run fails with a decoding cause (base64, JSON or the panic), never a backend one |
| Search.Kept | search.go:113-115 | the reference list holds only non-zero records and at most one per cookie |
| Search.DecodeAllMeaning | search.go:104-118 | the run succeeds exactly when every cookie decodes, and then appends exactly the non-zero records in cookie order |
| Search.DecodeAllAppend | search.go:104-159 | decoding two runs of cookies in sequence is decoding them concatenated; the first failure is final |
| Search.ExtractPage | search.go:104-159 | the hit and header loops (first page, and again for each scroll page) decode every `cookie` header in hit-then-header order, abort on the first failure and append non-zero records: `DecodeAll(CookieValues(hits))` |
| Search.HarvestedAllHits | search.go:120-159 | decoding page by page is decoding every cookie of every page received, in order |
| Search.AllHitsStep | search.go:145-159 | one more page continues the decoding where the earlier pages left it |
| Search.Scroll | search.go:120-168 | each request follows a page with hits and carries that page's scroll id; success comes on an empty page with every page's records and `took` summed; a backend error or the first decoding failure ends the loop, so every page before the last request decoded without failure |
| Search.Collect | search.go:79-168 | a failed search sends nothing; each request follows a page with hits and carries its scroll id; on success the records are exactly those decoded from every hit received up to the empty page and `took` is the sum over every response; a decoding error is the first failure among the cookies received, and every request follows pages whose cookies all decoded |
| Search.SearchAction | search.go:79-182 | on success the records are exactly those decoded from every hit received up to the empty page, `took` is the sum over every response, and the summary is the per-user report of the records; the first decoding failure ends the command before another request is sent |
| Ecc.LenientSegment | ecc.go:240-249 | a marked segment panics exactly when it has no `=`; otherwise it always yields a record, whatever the base64 or JSON outcome |
| Ecc.LenientSegmentsFilter | ecc.go:238-239 | skipping the unmarked segments as the loop meets them is running the marked segments alone |
| Ecc.LenientFromMeaning | ecc.go:238-250 | the run panics exactly when some marked segment has no `=`; otherwise it appends exactly one record per marked segment after those already there |
| Ecc.LenientFromAppend | ecc.go:238-250 | running two lists of segments in sequence is running them concatenated |
| Ecc.LenientValuesFlatten | ecc.go:231-256 | running cookie by cookie is running all their marked segments in one go |
| Ecc.OneRecordPerMarkedSegment | ecc.go:238-249 | a run that does not panic has exactly as many records as its cookies have marked segments |
| Ecc.StaleRecordOnSyntaxError | ecc.go:245-249 | a segment whose bytes are not JSON appends the shared record unchanged: the previous record again |
| Ecc.Base64ErrorStillAppends | ecc.go:241-249 | whole base64 quanta followed by a stray character decode with an error, yet the segment still appends the record unmarshalled from the bytes of those quanta |
| Ecc.StaleFieldsAcrossCookies | ecc.go:228-249 | when a later cookie's JSON omits `userId`, the record appended for it carries the earlier cookie's UserID |
| Ecc.TwoCookies | ecc.go:235-251 | two cookies are run one after the other, the second from the state the first left |
| Ecc.UserIdKept | ecc.go:245 | JSON without `userId` leaves the shared record's UserID as it was |
| Ecc.LenientAlone | ecc.go:238-250 | a cookie that is one marked `key=value` segment appends one record and makes it the shared record |
| Ecc.LenientOne | ecc.go:238-250 | a cookie that is one marked segment with an `=` appends one record |
| Ecc.MarkedKeyValue | ecc.go:239 | a marked key keeps its segment marked whatever value follows |
| Ecc.ExtractCookie | ecc.go:238-304 | the segment loop, with `trimNextEqual`, base64 and unmarshal into the shared record, returns exactly `LenientCookie` (first page, and again for each scroll page) |
| Ecc.ExtractPage | ecc.go:231-309 | the hit and header loops (first page, and again for each scroll page) run every `cookie` header's segments in order: `LenientValues(CookieValues(hits))` |
| Ecc.LenientValuesAppend | ecc.go:231-309 | running two runs of cookies in sequence is running them concatenated |
| Ecc.HarvestedAllHits | ecc.go:258-309 | running page by page is running every cookie of every page received, in order |
| Ecc.AllHitsStep | ecc.go:284-309 | one more page continues the run where the earlier pages left it |
| Ecc.Scroll | ecc.go:258-314 | every request resends the first scroll id and follows a positive scroll size (the total-hit count first, then the last page's hit count); success comes once that size is not positive, with every page's records and `took` summed; a panic ends the loop, so every page before the last request was run without one |
| Ecc.Run | ecc.go:219-314 | on success the records are exactly the lenient run over every hit received, `took` is the sum over every response, and the summary is the per-user report; the only failures are a backend error and the panic, and the panic ends the run before another request is sent |
| Summary.Insert | search.go:199-204 | inserting adds exactly that entry |
| Summary.InsertSorted | search.go:199-204 | inserting a new entry into a list sorted by (count, uuid) without ties keeps it so |
| Summary.SortEntries | search.go:199 | the sort is a permutation of its input |
| Summary.SortEntriesSorted | search.go:199-204 | distinct entries come out ordered by count ascending, then uuid ascending, with no ties |
| Summary.BeforeIsStrictTotal | search.go:199-204 | the comparison is irreflexive, asymmetric, transitive and total on distinct entries |
| Summary.CountByUser | search.go:187-190 | the map has a key for every UserID of the records, the empty one included, and no other key; each key maps to the number of records carrying it (the inline loop at ecc.go:330-333 is the same) |
| Summary.ListCounts | search.go:195-198 | the list has one entry per map key, in any order, each with the key's count (the inline loop at ecc.go:338-341 is the same) |
| Summary.Summarize | search.go:186-204 | the report is sorted by count then uuid, has exactly one entry per distinct UserID with its number of records, every count is at least one, and the counts sum to the number of records (the inline aggregation at ecc.go:330-347 is the same) |
| Summary.OccurrencesPositive | search.go:188-190 | a UserID is counted at least once exactly when some record carries it |
| Summary.KeyHitsOne | search.go:196-197 | with unique keys, a key occurs in exactly one entry |
| Summary.KeyHitsZero | search.go:196-197 | a key no entry has occurs in none |
| Summary.SumOccurrencesSnoc | search.go:188-190 | one more record adds one to the summed occurrences for each entry with its UserID |
| Summary.SumOccurrencesAll | search.go:188-197 | entries with unique keys that cover every UserID account for every record exactly once |
| Summary.SumCountsIsSumOccurrences | search.go:196-197 | when every entry's count is its UserID's occurrences, the counts sum to the summed occurrences |
| Summary.SummaryFacts | search.go:186-204 | any report of the records has unique keys, positive counts, and counts summing to the number of records |
| Summary.StrictlySortedUnique | search.go:199-204 | two lists sorted without ties that hold the same entries are equal |
| Summary.SummaryUnique | search.go:196-204 | the report depends on the records alone, not on the order in which Go ranges over the map |
| Summary.ExampleReport | search.go:186-204 | UserIDs b, a, a, c, c, c give exactly (b,1), (a,2), (c,3) |

## Left out

- `client.go`, `main.go`, `info.go` and `version.go` (client construction,
  TLS, command-line wiring, version output) are not part of this model.
- `buildQuery` and the query constants of `search.go` (file reading and a
  static payload) are not part of this model, and neither is the
  environment and TLS setup at the top of `ecc.go`'s `run`.
- The Elasticsearch `Search` and `Scroll` calls, `IsError`, the decoding of
  error envelopes and `Body.Close` are replaced by a sequence of responses.
  Every backend error is the single outcome `BackendFailure`. In `ecc.go`
  that outcome is `log.Fatalf`, which ends the process.
- gjson navigation is not modelled: a hit is already its list of
  `httpRequest.headers` entries. `ecc.go` ranges over `hit.Map()` and uses
  only the `_source` key, so the same list stands for it.
- JSON parsing is a parameter (`Parser`), not an implementation. The
  marshalling of the output array and all logging are not modelled;
  the summary is returned instead of logged.
- `Search.Scroll`, `Ecc.Scroll`, `Search.Collect`, `Search.SearchAction` and `Ecc.Run`:
  termination rests on the requirement `EventuallyStops` (the backend ends
  the scroll with an empty page or an error), not on anything the source
  guarantees.
- `took` is an unbounded integer: the `int64` overflow of the sum is not
  modelled. Neither is the `int` and `int64` width of the record's numeric
  fields: those widths are the JSON parser's concern, which reports them
  as type mismatches.
- `Base64.DecodeString`: Go's error value also carries the offset of the
  bad character. The model keeps only whether there was an error and the
  bytes returned.
- `Summary.SortEntries`: `sort.SliceStable` is a library routine that sorts
  the slice in place. It is modelled as an insertion sort on a sequence,
  proved to be a permutation that comes out sorted. The in-place update
  and the stability guarantee are not modelled. With unique keys there are
  no ties for stability to order.
- `Summary.ListCounts`: Go's random map iteration order is modelled as an
  arbitrary choice of the next key. `Summary.SummaryUnique` shows that the
  sorted report does not depend on that choice.
