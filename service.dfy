/** The mail service (backend/src/mail.service.ts): one fetch-and-analyze
    pass over the newest unread message, and the history query. The IMAP
    session, the MIME parser and the document store are inputs: a `Mailbox`
    value says what the server answers, a function stands for the parser, and
    the store is a sequence of records held by the service object. */
module Service {
  import opened Text
  import opened Schema
  import History

  // ---------------------------------------------------------------------
  // The relay chain: the Received trace fields, in header order.
  // ---------------------------------------------------------------------

  /** `key.toLowerCase() === 'received'`. Only ASCII letters are folded: no
      other character lower-cases to a letter of "received", so full Unicode
      lower-casing would give the same answer. */
  predicate IsReceivedKey(key: string) {
    ToLowerAscii(key) == "received"
  }

  /** `parsed.headerLines`, with a missing list read as no headers. */
  function LinesOf(headerLines: Option<seq<HeaderLine>>): seq<HeaderLine> {
    match headerLines
    case Some(lines) => lines
    case None => []
  }

  /** The `line` of every header whose key is `Received`, in header order. */
  function ReceivedChain(lines: seq<HeaderLine>): (chain: seq<string>)
    ensures |chain| <= |lines|
  {
    if lines == [] then []
    else
      var last := lines[|lines| - 1];
      ReceivedChain(lines[..|lines| - 1]) + (if IsReceivedKey(last.key) then [last.line] else [])
  }

  /** The positions of the Received headers, in increasing order. */
  function ReceivedIndices(lines: seq<HeaderLine>): seq<nat> {
    if lines == [] then []
    else
      var n := |lines| - 1;
      ReceivedIndices(lines[..n]) + (if IsReceivedKey(lines[n].key) then [n] else [])
  }

  /** The chain is exactly the subsequence of Received lines: its k-th entry
      is the line of the k-th Received header, the positions increase, and
      no Received header is skipped. */
  lemma {:induction false} ReceivedChainIsSubsequence(lines: seq<HeaderLine>)
    ensures var idx, chain := ReceivedIndices(lines), ReceivedChain(lines);
      |idx| == |chain|
      && (forall k :: 0 <= k < |idx| ==>
            idx[k] < |lines| && IsReceivedKey(lines[idx[k]].key) && chain[k] == lines[idx[k]].line)
      && (forall k, m :: 0 <= k < m < |idx| ==> idx[k] < idx[m])
      && (forall i :: 0 <= i < |lines| && IsReceivedKey(lines[i].key) ==> i in idx)
  {
    if lines != [] {
      var n := |lines| - 1;
      var init := lines[..n];
      ReceivedChainIsSubsequence(init);
      var idx0 := ReceivedIndices(init);
      forall k | 0 <= k < |idx0| ensures idx0[k] < n && lines[idx0[k]] == init[idx0[k]] { }
    }
  }

  /** Without a Received header the chain is empty. */
  lemma {:induction false} NoReceivedMeansEmptyChain(lines: seq<HeaderLine>)
    requires forall i :: 0 <= i < |lines| ==> !IsReceivedKey(lines[i].key)
    ensures ReceivedChain(lines) == []
  {
    if lines != [] {
      var n := |lines| - 1;
      assert forall i :: 0 <= i < n ==> lines[..n][i] == lines[i];
      NoReceivedMeansEmptyChain(lines[..n]);
    }
  }

  /** Filtering a header block piece by piece gives the same chain. */
  lemma {:induction false} ReceivedChainAppend(a: seq<HeaderLine>, b: seq<HeaderLine>)
    ensures ReceivedChain(a + b) == ReceivedChain(a) + ReceivedChain(b)
  {
    if b != [] {
      var n := |b| - 1;
      assert (a + b)[..|a + b| - 1] == a + b[..n];
      assert (a + b)[|a + b| - 1] == b[n];
      ReceivedChainAppend(a, b[..n]);
    } else {
      assert a + b == a;
    }
  }

  /** Lines 56-63: the loop that pushes the line of every Received header. */
  method ExtractReceivingChain(headerLines: Option<seq<HeaderLine>>) returns (chain: seq<string>)
    ensures chain == ReceivedChain(LinesOf(headerLines))
  {
    chain := [];
    if headerLines.Some? && |headerLines.value| > 0 {
      var lines := headerLines.value;
      for i := 0 to |lines|
        invariant chain == ReceivedChain(lines[..i])
      {
        assert lines[..i + 1][..i] == lines[..i];
        if ToLowerAscii(lines[i].key) == "received" {
          chain := chain + [lines[i].line];
        }
      }
      assert lines[..|lines|] == lines;
    }
  }

  // ---------------------------------------------------------------------
  // ESP classification of the sender text.
  // ---------------------------------------------------------------------

  /** The provider rules in priority order: the first domain that occurs in
      the sender text decides the label. */
  const EspRules: seq<(string, Esp)> :=
    [("gmail.com", Gmail), ("outlook.com", Outlook), ("zoho.com", Zoho), ("amazonses.com", AmazonSes)]

  function FirstMatchingRule(rules: seq<(string, Esp)>, fromText: string): Esp {
    if rules == [] then Unknown
    else if Contains(fromText, rules[0].0) then rules[0].1
    else FirstMatchingRule(rules[1..], fromText)
  }

  /** The label the rule table assigns to a sender text. */
  function EspOf(fromText: string): Esp {
    FirstMatchingRule(EspRules, fromText)
  }

  /** Each label holds exactly when its domain occurs and no domain of higher
      priority does; `Unknown` exactly when none of the four occurs. */
  lemma EspPriority(t: string)
    ensures EspOf(t) == Gmail <==> Contains(t, "gmail.com")
    ensures EspOf(t) == Outlook <==> !Contains(t, "gmail.com") && Contains(t, "outlook.com")
    ensures EspOf(t) == Zoho <==>
      !Contains(t, "gmail.com") && !Contains(t, "outlook.com") && Contains(t, "zoho.com")
    ensures EspOf(t) == AmazonSes <==>
      !Contains(t, "gmail.com") && !Contains(t, "outlook.com") && !Contains(t, "zoho.com")
      && Contains(t, "amazonses.com")
    ensures EspOf(t) == Unknown <==>
      !Contains(t, "gmail.com") && !Contains(t, "outlook.com") && !Contains(t, "zoho.com")
      && !Contains(t, "amazonses.com")
  {
    var r1 := EspRules[1..];
    var r2 := r1[1..];
    var r3 := r2[1..];
    assert r1 == [("outlook.com", Outlook), ("zoho.com", Zoho), ("amazonses.com", AmazonSes)];
    assert r2 == [("zoho.com", Zoho), ("amazonses.com", AmazonSes)];
    assert r3 == [("amazonses.com", AmazonSes)];
    assert r3[1..] == [];
    assert FirstMatchingRule(r3, t) == if Contains(t, "amazonses.com") then AmazonSes else Unknown;
    assert FirstMatchingRule(r2, t) == if Contains(t, "zoho.com") then Zoho else FirstMatchingRule(r3, t);
    assert FirstMatchingRule(r1, t) == if Contains(t, "outlook.com") then Outlook else FirstMatchingRule(r2, t);
    assert EspOf(t) == if Contains(t, "gmail.com") then Gmail else FirstMatchingRule(r1, t);
  }

  /** A sender with no text is classified `Unknown`. */
  lemma EspOfEmptyIsUnknown()
    ensures EspOf("") == Unknown
  {
    EspPriority("");
  }

  /** Lines 66-72: `esp` starts as `Unknown` and an if/else chain on
      `includes` overwrites it. */
  method DetectEsp(fromText: string) returns (esp: Esp)
    ensures esp == EspOf(fromText)
  {
    EspPriority(fromText);
    esp := Unknown;
    if Contains(fromText, "gmail.com") {
      esp := Gmail;
    } else if Contains(fromText, "outlook.com") {
      esp := Outlook;
    } else if Contains(fromText, "zoho.com") {
      esp := Zoho;
    } else if Contains(fromText, "amazonses.com") {
      esp := AmazonSes;
    }
  }

  // ---------------------------------------------------------------------
  // The raw body, the snippet and the record.
  // ---------------------------------------------------------------------

  /** The body chunks joined in arrival order. */
  function Concat(chunks: seq<string>): string {
    if chunks == [] then ""
    else Concat(chunks[..|chunks| - 1]) + chunks[|chunks| - 1]
  }

  /** Joining a stream in two parts gives the same body as joining it whole. */
  lemma {:induction false} ConcatAppend(a: seq<string>, b: seq<string>)
    ensures Concat(a + b) == Concat(a) + Concat(b)
  {
    if b != [] {
      var n := |b| - 1;
      assert (a + b)[..|a + b| - 1] == a + b[..n];
      assert (a + b)[|a + b| - 1] == b[n];
      ConcatAppend(a, b[..n]);
    } else {
      assert a + b == a;
    }
  }

  /** Chunk `i` sits in the body right after the chunks that arrived before it. */
  lemma ConcatChunkAt(chunks: seq<string>, i: nat)
    requires i < |chunks|
    ensures var start := |Concat(chunks[..i])|;
      start + |chunks[i]| <= |Concat(chunks)|
      && Concat(chunks)[start..start + |chunks[i]|] == chunks[i]
  {
    assert chunks == chunks[..i] + [chunks[i]] + chunks[i + 1..];
    ConcatAppend(chunks[..i] + [chunks[i]], chunks[i + 1..]);
    ConcatAppend(chunks[..i], [chunks[i]]);
    assert Concat([chunks[i]]) == chunks[i] by { assert [chunks[i]][..0] == []; }
  }

  /** Lines 42-47: `rawData += chunk` for every chunk of the body stream. */
  method AccumulateBody(chunks: seq<string>) returns (rawData: string)
    ensures rawData == Concat(chunks)
  {
    rawData := "";
    for i := 0 to |chunks|
      invariant rawData == Concat(chunks[..i])
    {
      assert chunks[..i + 1][..i] == chunks[..i];
      rawData := rawData + chunks[i];
    }
    assert chunks[..|chunks|] == chunks;
  }

  const SnippetLength := 200

  /** `parsed.text?.slice(0, 200) || ''`: the first 200 characters of the
      body text, or all of it when shorter, and empty without a text part. */
  function Snippet(text: Option<string>): (r: string)
    ensures |r| <= SnippetLength
    ensures text.None? ==> r == ""
    ensures text.Some? ==> |r| == Min(SnippetLength, |text.value|) && r == text.value[..|r|]
  {
    match text
    case Some(t) => t[..Min(SnippetLength, |t|)]
    case None => ""
  }

  /** Lines 76-86: the document built from a parsed message, its relay chain
      and its label; `now` is the time a missing date falls back to, and
      `savedAt` the `createdAt` the store adds on save. */
  function NewRecord(p: ParsedMessage, chain: seq<string>, esp: Esp, raw: string, now: int, savedAt: int)
    : (r: MailRecord)
    ensures WellFormed(r)
    ensures r.receivingChain == chain && r.hops == |chain| && r.esp == esp.Label()
    ensures r.raw == raw && r.snippet == Snippet(p.text)
    ensures r.subject == OrEmpty(p.subject) && r.from == OrEmpty(p.from) && r.to == OrEmpty(p.to)
    ensures r.date == (if p.date.Some? then p.date.value else now)
    ensures r.createdAt == savedAt
  {
    MailRecord(
      OrEmpty(p.subject), OrEmpty(p.from), OrEmpty(p.to),
      match p.date case Some(d) => d case None => now,
      Snippet(p.text), chain, esp.Label(), |chain|, raw, savedAt)
  }

  /** The record one fetched message yields: well formed, holding the
      message's Received lines in header order, the label its sender text
      earns, the raw body and the save time. */
  function Ingest(p: ParsedMessage, raw: string, now: int, savedAt: int): (r: MailRecord)
    ensures WellFormed(r)
    ensures r.receivingChain == ReceivedChain(LinesOf(p.headerLines)) && r.hops == |r.receivingChain|
    ensures r.esp == EspOf(OrEmpty(p.from)).Label()
    ensures r.raw == raw && r.createdAt == savedAt
  {
    NewRecord(p, ReceivedChain(LinesOf(p.headerLines)), EspOf(OrEmpty(p.from)), raw, now, savedAt)
  }

  /** A message without Received headers, or without a header list at all,
      is stored with an empty chain and no hops. */
  lemma IngestWithoutRelays(p: ParsedMessage, raw: string, now: int, savedAt: int)
    requires forall i :: 0 <= i < |LinesOf(p.headerLines)| ==> !IsReceivedKey(LinesOf(p.headerLines)[i].key)
    ensures Ingest(p, raw, now, savedAt).receivingChain == []
    ensures Ingest(p, raw, now, savedAt).hops == 0
  {
    NoReceivedMeansEmptyChain(LinesOf(p.headerLines));
  }

  /** Missing subject, sender and recipient are stored as `''`, a missing date
      as the ingestion time, and the stored label follows the sender text. */
  lemma IngestDefaults(p: ParsedMessage, raw: string, now: int, savedAt: int)
    ensures var r := Ingest(p, raw, now, savedAt);
      (p.subject.None? ==> r.subject == "")
      && (p.from.None? ==> r.from == "" && r.esp == "Unknown")
      && (p.to.None? ==> r.to == "")
      && (p.date.None? ==> r.date == now)
      && (p.date.Some? ==> r.date == p.date.value)
      && (Contains(r.from, "gmail.com") ==> r.esp == "Gmail")
  {
    EspOfEmptyIsUnknown();
    EspPriority(OrEmpty(p.from));
  }

  /** Two relay headers and a Gmail sender: two hops, label Gmail, and the
      chain lists both Received lines in header order. */
  lemma IngestTwoRelaysFromGmail(raw: string, now: int, savedAt: int)
    ensures var p := ParsedMessage(
        Some([HeaderLine("Received", "Received: from a.test by b.test"),
              HeaderLine("Received", "Received: from c.test by d.test"),
              HeaderLine("From", "From: user@gmail.com")]),
        None, Some("user@gmail.com"), None, None, None);
      var r := Ingest(p, raw, now, savedAt);
      r.hops == 2 && r.esp == "Gmail"
      && r.receivingChain == ["Received: from a.test by b.test", "Received: from c.test by d.test"]
  {
    var lines := [HeaderLine("Received", "Received: from a.test by b.test"),
                  HeaderLine("Received", "Received: from c.test by d.test"),
                  HeaderLine("From", "From: user@gmail.com")];
    assert IsReceivedKey("Received");
    assert !IsReceivedKey("From") by { assert |ToLowerAscii("From")| == 4; }
    assert lines[..2][..1][..0] == [];
    assert ReceivedChain(lines[..1]) == ["Received: from a.test by b.test"];
    assert ReceivedChain(lines[..2]) == ["Received: from a.test by b.test", "Received: from c.test by d.test"];
    assert ReceivedChain(lines) == ReceivedChain(lines[..2]);
    assert OccursAt("user@gmail.com", "gmail.com", 5);
    EspPriority("user@gmail.com");
  }

  // ---------------------------------------------------------------------
  // The session and the store.
  // ---------------------------------------------------------------------

  /** The answer to `SEARCH UNSEEN`: an error, or the UIDs of the matching messages. */
  datatype SearchOutcome = SearchFailed(message: string) | SearchResults(uids: seq<nat>)

  /** What fetching one UID delivers: its body stream, an error, or an `end`
      with no message at all (the UID was expunged after the search, and
      section 6.4.8 of RFC 3501 lets `UID FETCH` answer OK with no data). */
  datatype FetchOutcome =
    | Streamed(chunks: seq<string>)
    | FetchFailed(message: string)
    | FetchedNothing

  datatype ParseOutcome = Parsed(msg: ParsedMessage) | ParseFailed(message: string)

  /** One IMAP session as the service meets it: the error the connection or
      `openBox` reports, if any; the search answer; and what a fetch of each
      UID streams. */
  datatype Mailbox = Mailbox(openError: Option<string>, search: SearchOutcome, fetch: nat -> FetchOutcome)

  /** How the promise of `getLatestEmail` settles; `Resolved(None)` is
      `null`, and `Pending` is a promise that never settles. */
  datatype Outcome = Resolved(value: Option<MailView>) | Rejected(message: string) | Pending

  /** Line 34: a failed search and an empty result are both "nothing unseen". */
  predicate NothingUnseen(search: SearchOutcome) {
    search.SearchFailed? || search.uids == []
  }

  const HistoryLimit := 20

  class MailService {
    /** The stored documents, in insertion order. */
    var store: seq<MailRecord>

    ghost predicate Valid()
      reads this
    {
      forall r :: r in store ==> WellFormed(r)
    }

    /** Line 12: the service is handed the collection as it stands, which
        holds only documents earlier ingestions wrote. */
    constructor (documents: seq<MailRecord>)
      requires forall r :: r in documents ==> WellFormed(r)
      ensures Valid() && store == documents
    {
      store := documents;
    }

    /** Lines 25-118. `fetched` is the list of UIDs handed to `fetch`,
        `ended` whether the connection was ended. A failed open rejects
        without ending the connection; nothing unseen (or a failed search)
        ends it and resolves to `null`; otherwise only the last search result
        is fetched. A fetch error rejects; a fetch that ends without a
        message ends the connection and leaves the promise pending; a
        streamed message is joined, parsed, analyzed, stored and returned
        without `hops` and `raw`. */
    method GetLatestEmail(box: Mailbox, parse: string -> ParseOutcome, now: int, savedAt: int)
      returns (outcome: Outcome, fetched: seq<nat>, ended: bool)
      requires Valid()
      modifies this
      ensures Valid()
      ensures box.openError.Some? ==>
        outcome == Rejected(box.openError.value) && fetched == [] && !ended && store == old(store)
      ensures box.openError.None? && NothingUnseen(box.search) ==>
        outcome == Resolved(None) && fetched == [] && ended && store == old(store)
      ensures box.openError.None? && !NothingUnseen(box.search) ==>
        var n := box.search.uids[|box.search.uids| - 1];
        fetched == [n]
        && match box.fetch(n)
           case FetchFailed(m) => outcome == Rejected(m) && !ended && store == old(store)
           case FetchedNothing => outcome == Pending && ended && store == old(store)
           case Streamed(chunks) =>
             var raw := Concat(chunks);
             ended
             && match parse(raw)
                case ParseFailed(m) => outcome == Rejected(m) && store == old(store)
                case Parsed(p) =>
                  var rec := Ingest(p, raw, now, savedAt);
                  store == old(store) + [rec] && outcome == Resolved(Some(ViewOf(rec)))
    {
      fetched, ended := [], false;
      if box.openError.Some? {
        outcome := Rejected(box.openError.value);
        return;
      }
      if NothingUnseen(box.search) {
        ended := true;
        outcome := Resolved(None);
        return;
      }
      var results := box.search.uids;
      fetched := results[|results| - 1..];
      match box.fetch(fetched[0]) {
        case FetchFailed(m) =>
          outcome := Rejected(m);
        case FetchedNothing =>
          ended := true;
          outcome := Pending;
        case Streamed(chunks) =>
          var rawData := AccumulateBody(chunks);
          ended := true;
          match parse(rawData) {
            case ParseFailed(m) =>
              outcome := Rejected(m);
            case Parsed(p) =>
              var chain := ExtractReceivingChain(p.headerLines);
              var esp := DetectEsp(OrEmpty(p.from));
              var rec := NewRecord(p, chain, esp, rawData, now, savedAt);
              store := store + [rec];
              outcome := Resolved(Some(ViewOf(rec)));
          }
      }
    }

    /** Lines 120-122: at most 20 stored records, newest first, each one as
        well formed as the store keeps it, and none of the records left out is
        newer than a returned one. */
    method GetHistory() returns (items: seq<MailRecord>)
      requires Valid()
      ensures |items| == Min(HistoryLimit, |store|)
      ensures History.NewestFirst(items)
      ensures multiset(items) <= multiset(store)
      ensures forall x, k :: x in multiset(store) - multiset(items) && 0 <= k < |items| ==>
        x.createdAt <= items[k].createdAt
      ensures forall r :: r in items ==> WellFormed(r)
    {
      items := History.MostRecent(store, HistoryLimit);
      History.MostRecentSpec(store, HistoryLimit);
      forall r | r in items
        ensures WellFormed(r)
      {
        assert r in multiset(items);
        assert r in multiset(store);
      }
    }
  }
}
