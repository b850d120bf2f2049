/** The `/whatsapp-webhook` handler (api/index.ts:192-219): classify the inbound
    event, then start a summary, store the message, or do nothing. */
module Webhook {
  import opened Wrappers
  import opened Text
  import opened Protocol
  import opened MessageStore
  import opened Pipeline

  /** The `data` object of the gateway's event. */
  datatype Payload = Payload(body: string, from: string, to: string, pushname: string, fromMe: bool)

  /** An inbound request: its `content-type` header, the top-level `from` and `data`. */
  datatype Request = Request(contentType: string, from: string, data: Payload)

  /** The one disposition each request receives. */
  datatype Action =
    | NoAction
    | Summarize(expedition: string, destination: string, fromMe: bool)
    | Ignore
    | Store(message: string, author: string, expedition: string, destination: string)

  /** Priority-ordered classification: content type, then the sentinel, then the
      echo and newsletter filters, then storage. */
  function Classify(req: Request): (a: Action)
    ensures a.NoAction? <==> req.contentType != JsonContentType
    ensures a.Summarize? <==> req.contentType == JsonContentType && req.data.body == Sentinel
    ensures a.Ignore? <==>
      && req.contentType == JsonContentType
      && req.data.body != Sentinel
      && (StartsWith(req.data.body, SummaryHeader) || EndsWith(req.from, NewsletterSuffix))
    ensures a.Summarize? ==> a == Summarize(req.data.from, req.data.to, req.data.fromMe)
    ensures a.Store? ==> a == Store(req.data.body, req.data.pushname, req.data.from, req.data.to)
  {
    if req.contentType != JsonContentType then NoAction
    else if req.data.body == Sentinel then Summarize(req.data.from, req.data.to, req.data.fromMe)
    else if StartsWith(req.data.body, SummaryHeader) || EndsWith(req.from, NewsletterSuffix) then Ignore
    else Store(req.data.body, req.data.pushname, req.data.from, req.data.to)
  }

  /** The handler's effect on the table: `storeUp` and `now` feed `saveMessage`,
      `w` is what a summary run observes. */
  function Handle(t: Table, req: Request, storeUp: bool, now: nat, w: World): (run: Run)
    ensures !Classify(req).Summarize? ==> run.sent.None?
    ensures Classify(req).NoAction? || Classify(req).Ignore? ==> run.table == t
    ensures Classify(req).Summarize? ==>
      run == SendSummary(t, w, req.data.from, req.data.to, req.data.fromMe)
    ensures Classify(req).Store? && storeUp ==>
      run.table == t + [Row(req.data.body, req.data.pushname, req.data.from, req.data.to, now)]
    ensures Classify(req).Store? && !storeUp ==> run.table == t
  {
    match Classify(req)
    case NoAction => Run(None, t)
    case Ignore => Run(None, t)
    case Store(message, author, expedition, destination) =>
      Run(None, SaveMessage(t, storeUp, now, message, author, expedition, destination))
    case Summarize(expedition, destination, fromMe) =>
      SendSummary(t, w, expedition, destination, fromMe)
  }

  /** A delivered summary that the gateway echoes back to the webhook is ignored:
      it is neither stored nor taken for a new request, whoever appears as sender. */
  lemma {:induction false} EchoIgnored(t: Table, w: World, expedition: string, destination: string, fromMe: bool,
                                       req: Request, t': Table, storeUp: bool, now: nat, w': World)
    requires SendSummary(t, w, expedition, destination, fromMe).sent.Some?
    requires req.contentType == JsonContentType
    requires req.data.body == SendSummary(t, w, expedition, destination, fromMe).sent.value.body
    ensures Classify(req) == Ignore
    ensures Handle(t', req, storeUp, now, w') == Run(None, t')
  {
    var body := req.data.body;
    assert StartsWith(body, SummaryHeader);
    assert body != Sentinel by {
      assert body[0] == SummaryHeader[0] != Sentinel[0];
    }
  }

  /** A stored message, stamped later than every row of its conversation, becomes the last message of
      its conversation's next query. */
  lemma {:induction false} HandleStoreThenQuery(t: Table, req: Request, now: nat, w: World)
    requires Classify(req).Store?
    requires StrictlySorted(PairRows(t, req.data.from, req.data.to))
    requires StampedBefore(PairRows(t, req.data.from, req.data.to), now)
    ensures var after := Handle(t, req, true, now, w).table;
      GetMessages(after, true, req.data.from, req.data.to)
      == Some(GetMessages(t, true, req.data.from, req.data.to).value
              + [Row(req.data.body, req.data.pushname, req.data.from, req.data.to, now)])
  {
    assert Handle(t, req, true, now, w).table
        == SaveMessage(t, true, now, req.data.body, req.data.pushname, req.data.from, req.data.to);
    SaveThenQuery(t, now, req.data.body, req.data.pushname, req.data.from, req.data.to);
  }
}
