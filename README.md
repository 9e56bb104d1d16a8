# Lucid email analyzer: a verified model of its core

The analyzer fetches the newest unread message from an IMAP inbox. It
extracts the message's relay chain, which is the `Received` trace fields of
section 3.6.7 of RFC 5322, and labels the sender's email service provider
(ESP) from the `From` text. It then stores the result and shows it in a
browser UI. This project models the logic of that pipeline in Dafny:

- `text.dfy` (module `Text`) models the JavaScript string primitives the
  code relies on: the regex class `\s`, ASCII lower-casing, `includes`,
  `trim` and `|| ''`.
- `schema.dfy` (module `Schema`) holds the data shapes:
  - the MIME parser's output;
  - the stored mail record and its invariant (`hops` is the chain length,
    the snippet is at most 200 characters, and `esp` is one of five labels);
  - the loosely typed mail object the HTTP layer reads.
- `service.dfy` (module `Service`) models `backend/src/mail.service.ts`:
  - the Received-header filter loop and the ESP if/else chain, each proved
    against a specification function;
  - the chunk accumulation loop, the record construction and the snippet;
  - the class `MailService`. Its `store` field stands for the document
    store. `GetLatestEmail` goes through the session outcomes (open error,
    nothing unseen, fetch error, empty fetch, parse error, success), and `GetHistory`
    returns the 20 newest records.
- `history.dfy` (module `History`) models the store query
  `sort({ createdAt: -1 }).limit(20)` as an insertion sort followed by a
  prefix.
- `controller.dfy` (module `Controller`) models `backend/src/mail.controller.ts`:
  - the `latest` route: `null` becomes a message body, a mail is shaped,
    and a failure becomes an internal server error;
  - the `history` route, which shapes every item.
- `app.dfy` (module `App`) models the pure parts of `frontend/src/App.tsx`:
  - `summarizeReceived`: line normalisation and leftmost matching of the
    four regular expressions, under JavaScript `exec` semantics;
  - the ten-entry history truncation, the subject fallback and the hops
    column.

The IMAP session, the MIME parser and the store's clock are inputs:
- a `Mailbox` value gives the open error, the `SEARCH UNSEEN` answer, and
  what fetching each UID streams;
- a function `string -> ParseOutcome` stands for `simpleParser`;
- `now` and `savedAt` are the current time and the save timestamp.

Behaviour of the code worth knowing:
- A failed `SEARCH` resolves to `null`, the same as an empty result. It is
  not reported as an error.
- The connection is not ended when `openBox` fails. It is ended when
  nothing is unseen and when the fetch emits `end`. The model takes a
  fetch error to come before, and instead of, that `end` (see
  `Service.MailService.GetLatestEmail` under "## Left out").
- The message fetched is the last element of the search result, not
  necessarily the highest UID.
- A fetch that ends without delivering any message (a UID expunged after
  the search) ends the connection, but the promise never settles, so the
  `latest` request gets no answer.
- The inbox is opened with `readOnly = false`.
- The snippet is a slice of the first 200 string elements. JavaScript
  counts those in UTF-16 code units; the model counts characters (see
  `Service.Snippet` under "## Left out").
- The `latest` route declares a `subject` query parameter and never reads
  it. The subject the UI computes (`App.SubjectQuery`) is sent but has no
  effect on which mail the backend returns.

## Model

| member | source | states |
|---|---|---|
| Service.ExtractReceivingChain | backend/src/mail.service.ts:56-63 | The loop's result is the Received filter of the header list; a missing list gives an empty chain |
| Service.ReceivedChainIsSubsequence | backend/src/mail.service.ts:56-63 | The chain is exactly the subsequence of header lines whose key lower-cases to `received`: k-th entry is the k-th such line, copied unchanged, positions strictly increasing, none skipped |
| Service.NoReceivedMeansEmptyChain | backend/src/mail.service.ts:56-63 | Without a Received header the chain is empty |
| Service.ReceivedChainAppend | backend/src/mail.service.ts:58-62 | Filtering is compositional: the chain of a concatenation is the concatenation of the chains (order is kept) |
| Service.EspPriority | backend/src/mail.service.ts:66-72 | Each label holds iff its domain occurs and no higher-priority domain does; `Unknown` iff none of the four occurs |
| Service.EspOfEmptyIsUnknown | backend/src/mail.service.ts:66-67 | An absent sender (`''`) is `Unknown` |
| Service.DetectEsp | backend/src/mail.service.ts:66-72 | The if/else chain computes the rule table's label |
| Text.Contains | backend/src/mail.service.ts:68-71 | `includes`: nothing longer than the text is found in it, and the empty string is always found |
| Schema.Esp.Label | backend/src/mail.service.ts:66-72 | Every stored label is a non-empty string |
| Service.AccumulateBody | backend/src/mail.service.ts:42-47 | The `+=` loop yields the chunks joined in arrival order |
| Service.ConcatAppend | backend/src/mail.service.ts:44-47 | Joining a stream in two parts equals joining it whole |
| Service.ConcatChunkAt | backend/src/mail.service.ts:44-47 | Every chunk appears in the body, right after the chunks that arrived before it |
| Service.Snippet | backend/src/mail.service.ts:81 | At most 200 characters; the first min(200, len) characters of the text; empty without a text part |
| Text.OrEmpty | backend/src/mail.service.ts:77-79 | A present string is kept, an absent one becomes `''` |
| Service.NewRecord | backend/src/mail.service.ts:76-86 | The record is well formed; subject, from and to are the parsed values or `''`; the date is the parsed one or now; it carries the given chain with `hops` equal to its length, the label's string, the raw body verbatim, the snippet and the save time |
| Service.Ingest | backend/src/mail.service.ts:56-86 | The record of a fetched message is well formed and holds its Received lines in header order (the filter), the label its sender text earns, the raw body and the save time |
| Service.IngestWithoutRelays | backend/src/mail.service.ts:56-84 | A message without Received headers (or without a header list) is stored with an empty chain and `hops = 0` |
| Service.IngestDefaults | backend/src/mail.service.ts:66-80 | Missing subject, from and to are stored as `''`; a missing date becomes the ingestion time, a present one is kept; no sender means `Unknown`; a gmail.com sender means `Gmail` |
| Service.IngestTwoRelaysFromGmail | backend/src/mail.service.ts:56-86 | Two Received headers and a gmail.com sender give two hops, label Gmail and both lines in header order |
| Service.MailService.constructor | backend/src/mail.service.ts:12 | The service starts from the collection as it stands, which holds only well-formed records, so the store is valid |
| Service.MailService.GetLatestEmail | backend/src/mail.service.ts:25-118 | Open error: rejected, nothing fetched, not ended, store unchanged. Failed or empty search: `null`, ended, nothing fetched or saved. Otherwise only the last result is fetched; a fetch error rejects without ending; a fetch that delivers no message ends the connection and leaves the promise pending with the store unchanged; a stream is joined, the connection is ended; a parse error rejects and saves nothing; a parsed message is appended to the store as its ingested record, and the result is that record without `hops`, `raw`, `createdAt`. The store's invariant is kept |
| Service.MailService.GetHistory | backend/src/mail.service.ts:120-122 | min(20, stored) records, newest first, all from the store and each well formed (so `hops` is its chain's length), and no record left out is newer than a returned one |
| History.Insert | backend/src/mail.service.ts:121 | Inserting into a newest-first list keeps it newest first and adds exactly the one record |
| History.SortNewestFirst | backend/src/mail.service.ts:121 | The sort is a permutation of the store ordered by descending `createdAt` |
| History.SplitNewestFirst | backend/src/mail.service.ts:121 | Cutting a newest-first list keeps the prefix newest first, and everything cut off is no newer than anything kept |
| History.MostRecentSpec | backend/src/mail.service.ts:121 | The limited query has min(limit, n) records, sorted, from the store, and only records no newer than every returned one are dropped |
| Controller.StringOr | backend/src/mail.controller.ts:40-46 | `value \|\| fallback`: a present non-empty value passes, an absent or empty one gives the fallback |
| Controller.Shape | backend/src/mail.controller.ts:39-47 | subject, from, to and snippet follow `\|\| ''`, `esp` follows `\|\| 'Unknown'` and is never empty; the chain defaults to `[]`; the date falls back to now; present values pass through |
| Controller.ShapeEspLabel | backend/src/mail.controller.ts:46 | A present non-empty `esp` passes through; a missing or empty one becomes `Unknown` |
| Controller.ShapeIdempotent | backend/src/mail.controller.ts:39-47 | Shaping an already shaped mail changes nothing, at any time |
| Controller.ShapeOfStoredRecord | backend/src/mail.controller.ts:39-47 | A stored record comes out with exactly its seven values; `hops` and `raw` are not exposed |
| Controller.GetLatest | backend/src/mail.controller.ts:31-52 | Success iff the service resolved; no answer iff its promise stays pending; the message-only body iff it resolved `null`; a mail is shaped; an error carries the failure's message, or `IMAP processing failed` when that is empty |
| Controller.GetHistory | backend/src/mail.controller.ts:58-67 | Same length and order as the service's list, each item shaped by the same rule |
| App.ReplaceNewlines | frontend/src/App.tsx:17 | No LF remains and the line does not grow |
| App.CollapseShape | frontend/src/App.tsx:17 | Collapsing leaves the plain space as the only whitespace, no two whitespace characters are adjacent, the line does not grow |
| App.NormalizeLine | frontend/src/App.tsx:17 | The normalised `raw` has no CR or LF, only plain spaces, no two adjacent whitespace characters, and is never longer than the line |
| App.CollapseAbsorbsNewlines | frontend/src/App.tsx:17 | Replacing line breaks before collapsing changes nothing, since CR and LF are whitespace |
| App.NormalizeIsCollapse | frontend/src/App.tsx:17 | Normalisation equals collapsing whitespace runs alone |
| App.NormalizeIdempotent | frontend/src/App.tsx:17 | Normalising twice is normalising once |
| App.WhitespaceRunBecomesOneSpace | frontend/src/App.tsx:17 | Any whitespace run between non-whitespace text becomes exactly one space |
| App.Leftmost | frontend/src/App.tsx:18-21 | The first position at which a match starts; none before it; none at all when absent |
| App.Exec | frontend/src/App.tsx:18-21 | `exec(...)?.[1]`: undefined iff no position matches; otherwise the capture at the leftmost matching position, well shaped |
| App.KeywordCaptureSound | frontend/src/App.tsx:18-20 | A keyword capture is a non-empty whitespace-free token: the maximal run after the keyword (any case) and at least one whitespace |
| App.KeywordCaptureComplete | frontend/src/App.tsx:18-20 | Conversely every such keyword, whitespace, token layout is a match capturing that token |
| App.KeywordUndefinedIffNoMatch | frontend/src/App.tsx:18-20 | A keyword field is undefined iff the keyword never appears followed by whitespace and a token |
| App.ByMatchesInsideWord | frontend/src/App.tsx:19 | Matching ignores word boundaries: `by` is found inside `standby` |
| App.IpCaptureSound | frontend/src/App.tsx:21 | An address capture is four groups of 1 to 3 digits joined by dots, sitting between `[` and `]` at the matched position |
| App.IpCaptureComplete | frontend/src/App.tsx:21 | Conversely every bracketed dotted quad is a match capturing the quad |
| App.IpUndefinedIffNoMatch | frontend/src/App.tsx:21 | The address field is undefined iff no bracketed dotted quad occurs |
| App.SummarizeReceived | frontend/src/App.tsx:16-23 | `raw` is the normalised line; each field is the leftmost match on it; from, by and with are non-empty and whitespace-free; ip is a dotted quad |
| App.LoadHistory | frontend/src/App.tsx:102 | At most 10 entries, the first ones in server order; `[]` when the body is not an array |
| Text.TrimSpec | frontend/src/App.tsx:78 | `trim` is a slice of the input with only whitespace cut on each side; it is empty iff the input is all whitespace |
| Text.Trim | frontend/src/App.tsx:78 | `trim()` never lengthens the text and leaves no whitespace at either end |
| App.SubjectQuery | frontend/src/App.tsx:78 | The trimmed input when it has a non-whitespace character, otherwise the example subject |
| App.HopsColumn | frontend/src/App.tsx:383 | The chain length, or 0 when the chain is missing |
| App.HopsColumnShowsStoredHops | frontend/src/App.tsx:383 | A history row shows the hop count the ingestion stored |

## Left out

- The IMAP client: its events, connection, TLS options, environment variables and `openBox`. It is a foreign library driven by callbacks. A `Mailbox` value stands in for what the server answers.
- `simpleParser`: a MIME library whose code is not part of this model. Its result (or failure) is an input function.
- The document store: `save` and `find` are modelled as an in-memory sequence held by `MailService`, and `createdAt` is passed in as `savedAt`. A failing `save` is not modelled.
- History.SortNewestFirst: the store does not promise an order for records with equal `createdAt`. This model keeps insertion order among them.
- Service.MailService.GetLatestEmail: a fetch error and the stream's end are modelled as exclusive. A fetch error is taken to come before the stream ends, so `ended` is false on that path.
- Service.Snippet: JavaScript strings are sequences of UTF-16 code units; the model's characters are Unicode scalar values, so a text with characters outside the Basic Multilingual Plane is cut at a different place.
- Service.AccumulateBody: chunks are taken as already decoded strings; per-chunk UTF-8 decoding (`chunk.toString('utf8')`), where a character split across two chunks is mangled, is not modelled.
- Service.IsReceivedKey and App.KeywordAt: only ASCII letters are folded. This gives the same answer as full Unicode case folding for these ASCII keywords.
- Controller.GetHistory: every item's missing date falls back to one `now`, whereas the code builds a new `Date` per item.
- `meta()` (random example subject) and `health()` (wall clock) in the controller: they read a random source and the clock and hold no logic.
- Logging, `Date` construction, `toLocaleString` and `encodeURIComponent`.
- React state, effects, `fetch` and rendering in the UI. The `!data` branch after fetching the latest mail cannot be reached, because the `latest` route never answers with a falsy body (every `Ok` answer of `Controller.GetLatest` holds a `NoMessage` or `Mail` object; its other results are an error status or no answer at all).
- Concurrency between simultaneous requests: the code does nothing to coordinate them.
- NestJS module wiring, CORS and the server's start-up.
