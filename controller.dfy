/** The HTTP controller (backend/src/mail.controller.ts): the `latest` and
    `history` routes turn what the service returns into response bodies. */
module Controller {
  import opened Text
  import opened Schema
  import Service

  /** A mail as the routes send it: seven fields, never `hops` or `raw`. */
  datatype MailResponse = MailResponse(
    subject: string,
    from: string,
    to: string,
    date: int,
    snippet: string,
    receivingChain: seq<string>,
    esp: string)

  /** The body of a successful `latest` response. */
  datatype LatestBody = NoMessage(message: string) | Mail(mail: MailResponse)

  /** What the client gets: a body, an internal server error, or no answer at
      all while the awaited promise stays pending. */
  datatype HttpResult = Ok(body: LatestBody) | InternalServerError(message: string) | NoResponse

  const NoUnreadMessage := "No matching unread email found. Send a new test email and keep it unread."

  const FallbackError := "IMAP processing failed"

  /** `value || fallback` for a string field: a missing or empty value gives
      the fallback, any other value is kept. */
  function StringOr(o: Option<string>, fallback: string): (r: string)
    ensures o.Some? && o.value != "" ==> r == o.value
    ensures o.None? || o.value == "" ==> r == fallback
  {
    if o.Some? && o.value != "" then o.value else fallback
  }

  /** The object literal of lines 39-47 and 59-67; `now` is the time a
      missing date falls back to. */
  function Shape(v: MailView, now: int): (r: MailResponse)
    ensures r.subject == StringOr(v.subject, "") && r.from == StringOr(v.from, "")
    ensures r.to == StringOr(v.to, "") && r.snippet == StringOr(v.snippet, "")
    ensures r.esp == StringOr(v.esp, "Unknown") && r.esp != ""
    ensures v.receivingChain.Some? ==> r.receivingChain == v.receivingChain.value
    ensures v.receivingChain.None? ==> r.receivingChain == []
    ensures v.date.Some? ==> r.date == v.date.value
    ensures v.date.None? ==> r.date == now
  {
    MailResponse(
      StringOr(v.subject, ""), StringOr(v.from, ""), StringOr(v.to, ""),
      match v.date case Some(d) => d case None => now,
      StringOr(v.snippet, ""),
      match v.receivingChain case Some(c) => c case None => [],
      StringOr(v.esp, "Unknown"))
  }

  /** A response read back as a mail object. */
  function ViewOfResponse(r: MailResponse): MailView {
    MailView(Some(r.subject), Some(r.from), Some(r.to), Some(r.date), Some(r.snippet),
             Some(r.receivingChain), Some(r.esp))
  }

  /** A present, non-empty label passes through and any other becomes
      `Unknown`, so every response names a provider. */
  lemma ShapeEspLabel(v: MailView, now: int)
    ensures v.esp.Some? && v.esp.value != "" ==> Shape(v, now).esp == v.esp.value
    ensures v.esp.None? || v.esp.value == "" ==> Shape(v, now).esp == "Unknown"
  {
  }

  /** Shaping an already shaped mail changes nothing, whatever the clock says. */
  lemma ShapeIdempotent(v: MailView, now: int, later: int)
    ensures Shape(ViewOfResponse(Shape(v, now)), later) == Shape(v, now)
  {
  }

  /** A record the ingestion wrote comes out with its own seven values:
      shaping only drops `hops`, `raw` and `createdAt`. */
  lemma ShapeOfStoredRecord(rec: MailRecord, now: int)
    requires WellFormed(rec)
    ensures Shape(ViewOf(rec), now)
      == MailResponse(rec.subject, rec.from, rec.to, rec.date, rec.snippet, rec.receivingChain, rec.esp)
  {
  }

  /** Lines 31-52: `null` from the service becomes a body holding only a
      message, a mail is shaped, and a failure becomes an internal server
      error carrying the failure's message, or a fixed one when that is empty;
      while the promise stays pending the request gets no answer. */
  function GetLatest(outcome: Service.Outcome, now: int): (r: HttpResult)
    ensures r.Ok? <==> outcome.Resolved?
    ensures r.NoResponse? <==> outcome.Pending?
    ensures r == Ok(NoMessage(NoUnreadMessage)) <==> outcome == Service.Resolved(None)
    ensures outcome.Resolved? && outcome.value.Some? ==> r == Ok(Mail(Shape(outcome.value.value, now)))
    ensures r.InternalServerError? ==>
      r.message != "" && (outcome.message != "" ==> r.message == outcome.message)
    ensures outcome.Rejected? && outcome.message == "" ==> r == InternalServerError(FallbackError)
  {
    match outcome
    case Resolved(None) => Ok(NoMessage(NoUnreadMessage))
    case Resolved(Some(result)) => Ok(Mail(Shape(result, now)))
    case Rejected(m) => InternalServerError(if m != "" then m else FallbackError)
    case Pending => NoResponse
  }

  /** Lines 58-67: every stored item is shaped by the same rule, in the
      store's order. */
  function GetHistory(items: seq<MailView>, now: int): (r: seq<MailResponse>)
    ensures |r| == |items|
    ensures forall k :: 0 <= k < |items| ==> r[k] == Shape(items[k], now)
  {
    if items == [] then []
    else [Shape(items[0], now)] + GetHistory(items[1..], now)
  }
}
