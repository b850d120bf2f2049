/** `sendSummary` (api/index.ts:85-135): fetch the conversation window, compose and
    deliver its summary, then prune the window from the table. The services it
    awaits are parameters; every failure they raise is caught at api/index.ts:132
    and ends the run with no further effect. */
module Pipeline {
  import opened Wrappers
  import opened Text
  import opened Protocol
  import opened MessageStore
  import Markdown

  /** Outcome of the text-generation call: the awaited call rejects, or it
      resolves with a response whose `text` may be absent. */
  datatype Reply = CallFailed | Response(text: Option<string>)

  /** What one run observes of the world outside the process. */
  datatype World = World(
    queryUp: bool,               // the SELECT of `getMessages` succeeds
    reply: Reply,                // the text-generation service's answer to its fixed prompt
    formatDate: nat -> string,   // `new Date(ts).toLocaleString("fr-FR")`
    sendUp: bool,                // the outbound POST to the gateway resolves
    pruneUp: bool,               // the DELETE of `cleanDatabase` succeeds
    arrivals: seq<Row>)          // rows other requests append after the fetch, before the prune

  /** The message posted to the gateway. */
  datatype Delivery = Delivery(to: string, body: string)

  /** What a run leaves behind: at most one delivery and the resulting table. */
  datatype Run = Run(sent: Option<Delivery>, table: Table)

  const CountLabel: string := "\n*Nombre de messages*: "

  /** The summary text: the service's output through the reformatter (api/index.ts:164).
      An absent text gives the empty summary; otherwise only markup changes. */
  function Summary(reply: Reply): (summary: string)
    requires reply.Response?
    ensures reply.text.None? ==> summary == ""
    ensures reply.text.Some? ==>
      Markdown.Strip(summary, Markdown.Markup) == Markdown.Strip(reply.text.value, Markdown.Markup)
  {
    match reply.text
    case None => Markdown.Convert(None)
    case Some(text) =>
      Markdown.ConvertKeepsText(text);
      Markdown.Convert(Some(text))
  }

  /** The two date lines of the body. */
  function DateLines(debut: string, fin: string): string {
    "\n*De*: " + debut + "\n*À*: " + fin
  }

  /** The delivered text (api/index.ts:106-111): the header line, the first and last
      dates, the message count, a blank line, the summary and a final newline. */
  function ComposeBody(debut: string, fin: string, count: nat, summary: string): (body: string)
    ensures StartsWith(body, SummaryHeader)
    ensures body != Sentinel
    ensures OccursAt(body, DateLines(debut, fin), |SummaryHeader|)
    ensures OccursAt(body, CountLabel + Decimal(count), |SummaryHeader| + |DateLines(debut, fin)|)
    ensures EndsWith(body, "\n\n" + summary + "\n")
    ensures |body| == |SummaryHeader| + |DateLines(debut, fin)| + |CountLabel + Decimal(count)| + |summary| + 3
  {
    var dates, counted, tail := DateLines(debut, fin), CountLabel + Decimal(count), "\n\n" + summary + "\n";
    FourParts(SummaryHeader, dates, counted, tail);
    assert (SummaryHeader + dates + counted + tail)[0] == '*' != Sentinel[0];
    SummaryHeader + dates + counted + tail
  }

  /** The recipient chosen at api/index.ts:102: one of the conversation's two numbers. */
  function Target(expedition: string, destination: string, fromMe: bool): (to: string)
    ensures to == expedition || to == destination
  {
    if fromMe then destination else expedition
  }

  /** The gateway reports the account's own messages with `fromMe`, sent from the
      account to the peer; the peer's messages come from the peer to the account.
      Either way the summary goes to the peer, into the chat of the trigger. */
  lemma {:induction false} TargetIsPeer(account: string, peer: string, fromMe: bool)
    ensures var expedition := if fromMe then account else peer;
      var destination := if fromMe then peer else account;
      Target(expedition, destination, fromMe) == peer
  {
  }

  /** One run of `sendSummary` on the table `t` as it stands when the window is fetched. */
  function SendSummary(t: Table, w: World, expedition: string, destination: string, fromMe: bool): (run: Run)
    ensures var rows := GetMessages(t, w.queryUp, expedition, destination);
      && (rows.None? || |rows.value| == 0 ==> run == Run(None, t + w.arrivals))
      && (run.sent.None? ==> run.table == t + w.arrivals)
      && (run.sent.Some? ==>
            && rows.Some? && |rows.value| > 0
            && w.sendUp && w.reply.Response?
            && run.sent.value.to == Target(expedition, destination, fromMe)
            && StartsWith(run.sent.value.body, SummaryHeader)
            && OccursAt(run.sent.value.body, CountLabel + Decimal(|rows.value|),
                        |SummaryHeader| + |DateLines(w.formatDate(rows.value[0].timestamp),
                                                     w.formatDate(rows.value[|rows.value| - 1].timestamp))|)
            && run.table == CleanDatabase(t + w.arrivals, w.pruneUp, expedition, destination,
                                          rows.value[0].timestamp, rows.value[|rows.value| - 1].timestamp))
  {
    var later := t + w.arrivals;
    match GetMessages(t, w.queryUp, expedition, destination)
    case None => Run(None, later)
    case Some(window) =>
      if |window| == 0 then Run(None, later)
      else
        var first, last := window[0].timestamp, window[|window| - 1].timestamp;
        var debut, fin := w.formatDate(first), w.formatDate(last);
        var reply := w.reply;
        if reply.CallFailed? then Run(None, later)
        else
          var body := ComposeBody(debut, fin, |window|, Summary(reply));
          if !w.sendUp then Run(None, later)
          else
            Run(Some(Delivery(Target(expedition, destination, fromMe), body)),
                CleanDatabase(later, w.pruneUp, expedition, destination, first, last))
  }

  // ---- Delivery ----

  /** A non-empty window with working services yields exactly one delivery, to the
      chosen recipient, whose body counts every row of the conversation. */
  lemma {:induction false} SummaryDelivered(t: Table, w: World, expedition: string, destination: string, fromMe: bool)
    requires w.queryUp && w.sendUp
    requires |PairRows(t, expedition, destination)| > 0
    requires w.reply.Response?
    ensures var window := GetMessages(t, w.queryUp, expedition, destination).value;
      && |window| == |PairRows(t, expedition, destination)|
      && SendSummary(t, w, expedition, destination, fromMe).sent
         == Some(Delivery(Target(expedition, destination, fromMe),
                          ComposeBody(w.formatDate(window[0].timestamp),
                                      w.formatDate(window[|window| - 1].timestamp),
                                      |window|,
                                      Summary(w.reply))))
  {
    var window := GetMessages(t, w.queryUp, expedition, destination).value;
    var p := PairRows(t, expedition, destination);
    forall x
      ensures multiset(window)[x] == multiset(p)[x]
    {
    }
    assert multiset(window) == multiset(p);
    assert |window| == |multiset(window)| == |multiset(p)| == |p|;
  }

  // ---- Pruning ----

  /** After a delivery, the table loses exactly the conversation's rows strictly
      between the window's first and last timestamps: the window's inner rows go,
      the boundary rows, other conversations and later arrivals stay. */
  lemma {:induction false} PruneAfterDelivery(t: Table, w: World, expedition: string, destination: string, fromMe: bool)
    requires w.pruneUp
    requires SendSummary(t, w, expedition, destination, fromMe).sent.Some?
    ensures var window := GetMessages(t, w.queryUp, expedition, destination).value;
      var first, last := window[0].timestamp, window[|window| - 1].timestamp;
      var after := SendSummary(t, w, expedition, destination, fromMe).table;
      && (forall r :: r in t + w.arrivals ==>
            (r in after <==> !(InPair(r, expedition, destination) && first < r.timestamp < last)))
      && (forall r :: r in window && first < r.timestamp < last ==> r !in after)
      && (forall r :: r in t + w.arrivals && (r.timestamp == first || r.timestamp == last) ==> r in after)
      && (forall r :: r in w.arrivals && r.timestamp >= last ==> r in after)
  {
    var window := GetMessages(t, w.queryUp, expedition, destination).value;
    var later := t + w.arrivals;
    forall r | r in window
      ensures r in later && InPair(r, expedition, destination)
    {
      assert r in multiset(window);
    }
    PruneFacts(later, window, expedition, destination, w.arrivals);
  }

  /** The prune of `sendSummary`, stated for any window drawn from the table. */
  lemma {:induction false} PruneFacts(later: Table, window: seq<Row>, expedition: string, destination: string,
                                      arrivals: seq<Row>)
    requires |window| > 0
    requires forall r :: r in window ==> r in later && InPair(r, expedition, destination)
    requires forall r :: r in arrivals ==> r in later
    ensures var first, last := window[0].timestamp, window[|window| - 1].timestamp;
      var after := CleanDatabase(later, true, expedition, destination, first, last);
      && (forall r :: r in later ==>
            (r in after <==> !(InPair(r, expedition, destination) && first < r.timestamp < last)))
      && (forall r :: r in window && first < r.timestamp < last ==> r !in after)
      && (forall r :: r in later && (r.timestamp == first || r.timestamp == last) ==> r in after)
      && (forall r :: r in arrivals && r.timestamp >= last ==> r in after)
  {
    var first, last := window[0].timestamp, window[|window| - 1].timestamp;
    forall r | r in later
      ensures r in CleanDatabase(later, true, expedition, destination, first, last)
          <==> !(InPair(r, expedition, destination) && first < r.timestamp < last)
    {
      CleanDatabaseExact(later, expedition, destination, first, last, r);
    }
  }

  /** The rows carrying the window's first and last timestamps survive every run:
      the strict bounds of the prune never delete them. */
  lemma {:induction false} BoundaryRowsPersist(t: Table, w: World, expedition: string, destination: string, fromMe: bool)
    requires w.queryUp && |PairRows(t, expedition, destination)| > 0
    ensures var window := GetMessages(t, w.queryUp, expedition, destination).value;
      && window[0] in SendSummary(t, w, expedition, destination, fromMe).table
      && window[|window| - 1] in SendSummary(t, w, expedition, destination, fromMe).table
  {
    var window := GetMessages(t, w.queryUp, expedition, destination).value;
    var p := PairRows(t, expedition, destination);
    assert p[0] in multiset(p);
    assert |window| > 0;
    var run := SendSummary(t, w, expedition, destination, fromMe);
    assert window[0] in multiset(window) && window[|window| - 1] in multiset(window);
    if run.sent.Some? && w.pruneUp {
      PruneAfterDelivery(t, w, expedition, destination, fromMe);
    }
  }

  /** Rows stamped by a clock that never goes back, after every row of the table,
      survive the run whatever its outcome. */
  lemma {:induction false} LaterArrivalsSurvive(t: Table, w: World, expedition: string, destination: string,
                                                fromMe: bool, clock: nat)
    requires StampedBy(t, clock)
    requires forall i :: 0 <= i < |w.arrivals| ==> w.arrivals[i].timestamp >= clock
    ensures forall r :: r in w.arrivals ==> r in SendSummary(t, w, expedition, destination, fromMe).table
  {
    var run := SendSummary(t, w, expedition, destination, fromMe);
    if run.sent.Some? && w.pruneUp {
      var window := GetMessages(t, w.queryUp, expedition, destination).value;
      var last := window[|window| - 1];
      assert last in multiset(window);
      assert last in t;
      PruneAfterDelivery(t, w, expedition, destination, fromMe);
    }
  }

  /** The accepted race: a row of the conversation that arrives after the fetch
      with a timestamp strictly inside the window (a clock that went back) was
      never summarized, yet the prune deletes it. */
  lemma {:induction false} InnerArrivalLost(t: Table, w: World, expedition: string, destination: string,
                                            fromMe: bool, r: Row)
    requires w.pruneUp
    requires SendSummary(t, w, expedition, destination, fromMe).sent.Some?
    requires r in w.arrivals && r !in t && InPair(r, expedition, destination)
    requires var window := GetMessages(t, w.queryUp, expedition, destination).value;
      window[0].timestamp < r.timestamp < window[|window| - 1].timestamp
    ensures r !in GetMessages(t, w.queryUp, expedition, destination).value
    ensures r !in SendSummary(t, w, expedition, destination, fromMe).table
  {
    var window := GetMessages(t, w.queryUp, expedition, destination).value;
    assert multiset(window)[r] == 0;
    PruneAfterDelivery(t, w, expedition, destination, fromMe);
  }
}
