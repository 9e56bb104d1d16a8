/** The shapes of the data the analyzer handles: the parser's output, the
    stored mail record (backend/src/mail.schema.ts) and the loosely typed
    object the HTTP layer reads back from the service or the store. */
module Schema {
  import opened Text

  /** Provider labels the classifier can assign. */
  datatype Esp = Gmail | Outlook | Zoho | AmazonSes | Unknown {
    /** The string stored in the record's `esp` field. */
    function Label(): (s: string)
      ensures s != ""
    {
      match this
      case Gmail => "Gmail"
      case Outlook => "Outlook"
      case Zoho => "Zoho"
      case AmazonSes => "Amazon SES"
      case Unknown => "Unknown"
    }
  }

  predicate IsEspLabel(s: string) {
    s == "Gmail" || s == "Outlook" || s == "Zoho" || s == "Amazon SES" || s == "Unknown"
  }

  /** One entry of the parser's `headerLines`: the header's name and its
      complete raw line (name, colon and value, with the folding line breaks
      the parser keeps). */
  datatype HeaderLine = HeaderLine(key: string, line: string)

  /** What the MIME parser yields for one message; every field may be missing.
      `from` and `to` stand for the address objects' `text`, and a date is a
      number of milliseconds since the epoch. */
  datatype ParsedMessage = ParsedMessage(
    headerLines: Option<seq<HeaderLine>>,
    subject: Option<string>,
    from: Option<string>,
    to: Option<string>,
    text: Option<string>,
    date: Option<int>)

  /** A stored mail document; `createdAt` is the timestamp the store adds on save. */
  datatype MailRecord = MailRecord(
    subject: string,
    from: string,
    to: string,
    date: int,
    snippet: string,
    receivingChain: seq<string>,
    esp: string,
    hops: int,
    raw: string,
    createdAt: int)

  /** The invariants every record written by the ingestion keeps. */
  predicate WellFormed(r: MailRecord) {
    r.hops == |r.receivingChain| && |r.snippet| <= 200 && IsEspLabel(r.esp)
  }

  /** A mail object as the HTTP layer sees it: any of its seven fields may be
      missing (or, for strings, empty). */
  datatype MailView = MailView(
    subject: Option<string>,
    from: Option<string>,
    to: Option<string>,
    date: Option<int>,
    snippet: Option<string>,
    receivingChain: Option<seq<string>>,
    esp: Option<string>)

  /** The document fields the service and the store hand to the HTTP layer:
      all seven present, `hops`, `raw` and `createdAt` not among them. */
  function ViewOf(r: MailRecord): MailView {
    MailView(Some(r.subject), Some(r.from), Some(r.to), Some(r.date), Some(r.snippet),
             Some(r.receivingChain), Some(r.esp))
  }
}
