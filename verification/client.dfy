/** `TogetherClient.send`: reject on a non-OK HTTP status before any
    callback, otherwise decode the body as a stream of server-sent events or
    as one JSON document, as the request's `stream` flag says. */
module Client {
  import opened Wrappers
  import opened Framing
  import opened Events
  import opened LineParser
  import opened Stream

  /** What `fetch` resolves to, as far as `send` looks at it. */
  datatype Response = Response(ok: bool, status: int, body: Transport)

  /** The two foreign parsers: the delta lookup applied to every `data: `
      payload, and `json.choices[0].message.content` applied to a whole
      non-streaming body (`None` when `response.json()` or the property path
      throws). */
  datatype Parsers = Parsers(delta: string -> DeltaLookup, message: string -> Option<string>)

  /** `handleNormalResponse`: `response.json()` reads the whole body; the
      message content is dispatched as it is, with no truthiness check, and
      `onDone` follows. Any failure on the way rejects before a callback. */
  function HandleNormal(body: Transport, message: string -> Option<string>): (o: Outcome)
    ensures o.completion.Resolved? <==>
              body.end == Closed && message(Concat(body.chunks)).Some?
    ensures o.completion.Resolved? ==>
              o.trace == [Text(message(Concat(body.chunks)).value), Done]
    ensures o.completion.Rejected? ==> o.trace == []
  {
    if body.end == Broken then Outcome([], Rejected(ReadFailure))
    else
      assert body.end == Closed;
      var json := message(Concat(body.chunks));
      if json.None? then Outcome([], Rejected(MalformedBody))
      else Outcome([Text(json.value), Done], Resolved)
  }

  /** `send(body, callbacks)` once `fetch` has produced `response`. */
  function Send(stream: bool, response: Response, parsers: Parsers): (o: Outcome)
    ensures !response.ok ==> o == Outcome([], Rejected(HttpStatus(response.status)))
    ensures o.completion.Resolved? <==>
              && response.ok
              && response.body.end == Closed
              && (stream || parsers.message(Concat(response.body.chunks)).Some?)
    ensures Done in o.trace <==> o.completion.Resolved?
    ensures o.completion.Resolved? ==> DoneOnceLast(o.trace)
    ensures response.ok && !stream && o.completion.Resolved? ==>
              |o.trace| == 2 && o.trace[0].Text?
    ensures response.ok && stream ==>
              forall i :: 0 <= i < |o.trace| && o.trace[i].Text? ==> o.trace[i].content != ""
  {
    if !response.ok then
      Outcome([], Rejected(HttpStatus(response.status)))
    else if stream then
      StreamTextsNonEmpty(response.body, parsers.delta);
      StreamDone(response.body, parsers.delta);
      HandleStream(response.body, parsers.delta)
    else
      var o := HandleNormal(response.body, parsers.message);
      assert o.completion.Resolved? ==> o.trace[..1] == [o.trace[0]];
      o
  }

  /** Where the transport cuts the body into chunks never changes what
      `send` reports, in either mode. */
  lemma SendSplitInvariant(stream: bool, ok: bool, status: int, a: seq<string>,
                           b: seq<string>, end: StreamEnd, parsers: Parsers)
    requires Concat(a) == Concat(b)
    ensures Send(stream, Response(ok, status, Transport(a, end)), parsers) ==
              Send(stream, Response(ok, status, Transport(b, end)), parsers)
  {
    if ok && stream {
      SplitInvariant(a, b, end, Handler(parsers.delta));
    }
  }
}
