/** `handleStreamResponse`: the read loop that pulls decoded chunks, frames
    them into lines, hands every complete line to `processLine`, and at
    end-of-stream processes a non-empty leftover line and calls `onDone`. */
module Stream {
  import opened Wrappers
  import opened Framing
  import opened Events
  import opened LineParser

  /** How the reader's sequence of chunks ends: `reader.read()` reports
      `done`, or it throws. */
  datatype StreamEnd = Closed | Broken

  /** The response body as the reader delivers it, each chunk already
      decoded to text. */
  datatype Transport = Transport(chunks: seq<string>, end: StreamEnd)

  /** The callback one processed line makes: `onTextReceived` with the text
      the line handler dispatches, if any. */
  function Emit(text: Option<string>): seq<Event>
  {
    match text
    case Some(t) => [Text(t)]
    case None => []
  }

  /** `for (const line of lines) this.processLine(line)`, for any line
      handler `process` that says what text, if any, a line dispatches. */
  function Dispatch(lines: seq<string>, process: string -> Option<string>): (r: seq<Event>)
    ensures |r| <= |lines|
  {
    if |lines| == 0 then []
    else Emit(process(lines[0])) + Dispatch(lines[1..], process)
  }

  /** Processing lines never calls `onDone`. */
  lemma {:induction false} DispatchNoDone(lines: seq<string>, process: string -> Option<string>)
    ensures Done !in Dispatch(lines, process)
    decreases |lines|
  {
    if |lines| > 0 {
      DispatchNoDone(lines[1..], process);
      assert Done !in Emit(process(lines[0]));
    }
  }

  /** The leftover line processed at end-of-stream: `if (buffer)` is false
      exactly for the empty string. */
  function Flush(buffer: string): (lines: seq<string>)
    ensures |lines| <= 1
    ensures lines == [] <==> buffer == ""
    ensures forall line :: line in lines ==> line == buffer
  {
    if buffer != "" then [buffer] else []
  }

  /** The callbacks made once the reader stops: when it reports `done`, the
      non-empty leftover is processed and `onDone` follows; when it throws,
      none. */
  function Finish(buffer: string, end: StreamEnd, process: string -> Option<string>): seq<Event>
  {
    match end
    case Closed => Dispatch(Flush(buffer), process) + [Done]
    case Broken => []
  }

  /** When the reader is done, the end-of-stream callbacks end with exactly
      one `onDone`; when it throws, there are none. */
  lemma FinishDone(buffer: string, end: StreamEnd, process: string -> Option<string>)
    ensures end == Closed ==> DoneOnceLast(Finish(buffer, end, process))
    ensures end == Broken ==> Finish(buffer, end, process) == []
  {
    if end == Closed {
      var texts := Dispatch(Flush(buffer), process);
      DispatchNoDone(Flush(buffer), process);
      assert (texts + [Done])[..|texts|] == texts;
    }
  }

  /** The `while (true)` loop, entered with `buffer` and the chunks still to
      be read. Each chunk dispatches the lines it completes before the next
      read; when the reader is done the leftover is flushed and `onDone` is
      called once; when the reader throws, the error propagates, the leftover
      is dropped and `onDone` is not called. */
  function Loop(buffer: string, chunks: seq<string>, end: StreamEnd,
                process: string -> Option<string>): (o: Outcome)
    ensures o.completion == (if end == Closed then Resolved else Rejected(ReadFailure))
    decreases |chunks|
  {
    if |chunks| == 0 then
      Outcome(Finish(buffer, end, process),
              if end == Closed then Resolved else Rejected(ReadFailure))
    else
      var step := Feed(buffer, chunks[0]);
      var later := Loop(step.rest, chunks[1..], end, process);
      Outcome(Dispatch(step.lines, process) + later.trace, later.completion)
  }

  /** The loop calls `onDone` once, last, when the reader finishes normally,
      and never when it throws. */
  lemma {:induction false} LoopDone(buffer: string, chunks: seq<string>, end: StreamEnd,
                                    process: string -> Option<string>)
    ensures end == Closed ==> DoneOnceLast(Loop(buffer, chunks, end, process).trace)
    ensures end == Broken ==> Done !in Loop(buffer, chunks, end, process).trace
    decreases |chunks|
  {
    if |chunks| == 0 {
      FinishDone(buffer, end, process);
    } else {
      var step := Feed(buffer, chunks[0]);
      var texts := Dispatch(step.lines, process);
      var later := Loop(step.rest, chunks[1..], end, process);
      assert Loop(buffer, chunks, end, process).trace == texts + later.trace;
      LoopDone(step.rest, chunks[1..], end, process);
      DispatchNoDone(step.lines, process);
      if end == Closed {
        DoneAfterTexts(texts, later.trace);
      }
    }
  }

  /** The client's line handler: `this.processLine`. */
  function Handler(parse: string -> DeltaLookup): string -> Option<string>
  {
    line => ProcessLine(line, parse)
  }

  /** `handleStreamResponse(response)` on a fresh, empty buffer. */
  function HandleStream(body: Transport, parse: string -> DeltaLookup): (o: Outcome)
    ensures o.completion.Resolved? <==> body.end == Closed
    ensures o.completion.Rejected? ==> o.completion.failure == ReadFailure
  {
    Loop("", body.chunks, body.end, Handler(parse))
  }

  /** `onDone` is called, once and as the last callback, exactly when the
      reader reports `done`. */
  lemma StreamDone(body: Transport, parse: string -> DeltaLookup)
    ensures Done in HandleStream(body, parse).trace <==> body.end == Closed
    ensures body.end == Closed ==> DoneOnceLast(HandleStream(body, parse).trace)
  {
    LoopDone("", body.chunks, body.end, Handler(parse));
    var trace := HandleStream(body, parse).trace;
    if body.end == Closed {
      assert trace[|trace| - 1] == Done;
    }
  }

  /** Every line `processLine` receives over the whole stream, in order: the
      newline-separated lines of the concatenated body except the last, then
      the last one if the reader finished normally and it is non-empty. */
  function ProcessedLines(body: Transport): seq<string>
  {
    var text := Concat(body.chunks);
    CompleteLines(text) + (if body.end == Closed then Flush(Pending(text)) else [])
  }

  /** Processing lines one list after another is processing the joined list. */
  lemma {:induction false} DispatchAppend(a: seq<string>, b: seq<string>,
                                          process: string -> Option<string>)
    ensures Dispatch(a + b, process) == Dispatch(a, process) + Dispatch(b, process)
    decreases |a|
  {
    if |a| > 0 {
      assert (a + b)[1..] == a[1..] + b;
      DispatchAppend(a[1..], b, process);
    } else {
      assert a + b == b;
    }
  }

  /** The loop's callbacks are `processLine` applied to the lines the framing
      releases, then the end-of-stream callbacks on the buffer it leaves. */
  lemma {:induction false} LoopMatchesFrame(buffer: string, chunks: seq<string>,
                                            end: StreamEnd, process: string -> Option<string>)
    ensures Loop(buffer, chunks, end, process).trace ==
              Dispatch(Frame(buffer, chunks).lines, process) +
              Finish(Frame(buffer, chunks).rest, end, process)
    decreases |chunks|
  {
    if |chunks| > 0 {
      var step := Feed(buffer, chunks[0]);
      var later := Frame(step.rest, chunks[1..]);
      var texts := Dispatch(step.lines, process);
      LoopStep(buffer, chunks, end, process);
      LoopMatchesFrame(step.rest, chunks[1..], end, process);
      DispatchAppend(step.lines, later.lines, process);
      assert texts + (Dispatch(later.lines, process) + Finish(later.rest, end, process)) ==
             (texts + Dispatch(later.lines, process)) + Finish(later.rest, end, process);
    }
  }

  /** One turn of the loop: the lines the chunk completes are processed
      before anything the later chunks cause. */
  lemma LoopStep(buffer: string, chunks: seq<string>, end: StreamEnd,
                 process: string -> Option<string>)
    requires |chunks| > 0
    ensures Loop(buffer, chunks, end, process).trace ==
              Dispatch(Feed(buffer, chunks[0]).lines, process) +
              Loop(Feed(buffer, chunks[0]).rest, chunks[1..], end, process).trace
    ensures Frame(buffer, chunks) ==
              Framed(Feed(buffer, chunks[0]).lines + Frame(Feed(buffer, chunks[0]).rest, chunks[1..]).lines,
                     Frame(Feed(buffer, chunks[0]).rest, chunks[1..]).rest)
  {
  }

  /** The callbacks of the loop on a fresh buffer are the line handler over
      `ProcessedLines`, followed by a single `onDone` exactly when the reader
      finished normally. */
  lemma StreamMatchesSplit(body: Transport, process: string -> Option<string>)
    ensures Loop("", body.chunks, body.end, process).trace ==
              Dispatch(ProcessedLines(body), process) +
              (if body.end == Closed then [Done] else [])
  {
    var text := Concat(body.chunks);
    var lines := CompleteLines(text);
    var rest := Pending(text);
    assert Frame("", body.chunks) == Framed(lines, rest) by {
      FrameMatchesSplit("", body.chunks);
      assert "" + text == text;
    }
    var trace := Loop("", body.chunks, body.end, process).trace;
    assert trace == Dispatch(lines, process) + Finish(rest, body.end, process) by {
      LoopMatchesFrame("", body.chunks, body.end, process);
    }
    if body.end == Closed {
      var last := Dispatch(Flush(rest), process);
      calc {
        trace;
      ==
        Dispatch(lines, process) + (last + [Done]);
      ==
        (Dispatch(lines, process) + last) + [Done];
      == { DispatchAppend(lines, Flush(rest), process); }
        Dispatch(lines + Flush(rest), process) + [Done];
      == { assert ProcessedLines(body) == lines + Flush(rest); }
        Dispatch(ProcessedLines(body), process) + [Done];
      }
    } else {
      assert ProcessedLines(body) == lines by {
        assert lines + [] == lines;
      }
      assert Dispatch(lines, process) + [] == Dispatch(lines, process);
    }
  }

  /** Every line `processLine` handles dispatches non-empty text, if any:
      empty delta content is falsy. */
  lemma {:induction false} HandlerTextsNonEmpty(lines: seq<string>, parse: string -> DeltaLookup)
    ensures NonEmptyTexts(Dispatch(lines, Handler(parse)))
    decreases |lines|
  {
    if |lines| > 0 {
      var first := Emit(ProcessLine(lines[0], parse));
      assert NonEmptyTexts(first);
      HandlerTextsNonEmpty(lines[1..], parse);
      NonEmptyTextsAppend(first, Dispatch(lines[1..], Handler(parse)));
    }
  }

  /** Every `onTextReceived` of a stream carries non-empty text. */
  lemma StreamTextsNonEmpty(body: Transport, parse: string -> DeltaLookup)
    ensures forall i :: 0 <= i < |HandleStream(body, parse).trace| &&
                        HandleStream(body, parse).trace[i].Text? ==>
              HandleStream(body, parse).trace[i].content != ""
  {
    StreamMatchesSplit(body, Handler(parse));
    HandlerTextsNonEmpty(ProcessedLines(body), parse);
    var texts := Dispatch(ProcessedLines(body), Handler(parse));
    var trace := HandleStream(body, parse).trace;
    forall i | 0 <= i < |trace| && trace[i].Text?
      ensures trace[i].content != ""
    {
      if i < |texts| {
        assert trace[i] == texts[i];
      }
    }
  }

  /** Split invariance: two chunkings of the same body text, ending the same
      way, make the same line handler calls and so the same callbacks. */
  lemma SplitInvariant(a: seq<string>, b: seq<string>, end: StreamEnd,
                       process: string -> Option<string>)
    requires Concat(a) == Concat(b)
    ensures ProcessedLines(Transport(a, end)) == ProcessedLines(Transport(b, end))
    ensures Loop("", a, end, process) == Loop("", b, end, process)
  {
    StreamMatchesSplit(Transport(a, end), process);
    StreamMatchesSplit(Transport(b, end), process);
  }

  /** A line that makes no callback is skipped and the lines after it are
      still processed: nothing stops the loop but the reader. */
  lemma SilentLineSkipped(before: seq<string>, line: string, after: seq<string>,
                          process: string -> Option<string>)
    requires process(line) == None
    ensures Dispatch(before + [line] + after, process) ==
              Dispatch(before, process) + Dispatch(after, process)
  {
    calc {
      Dispatch(before + [line] + after, process);
    == { DispatchAppend(before + [line], after, process); }
      Dispatch(before + [line], process) + Dispatch(after, process);
    == { DispatchAppend(before, [line], process);
         assert Dispatch([line], process) == [] by {
           assert [line][1..] == [];
         }
         assert Dispatch(before, process) + [] == Dispatch(before, process); }
      Dispatch(before, process) + Dispatch(after, process);
    }
  }

  /** The bare sentinel line `data: [DONE]` dispatches nothing. */
  lemma BareSentinelSilent(parse: string -> DeltaLookup)
    ensures Handler(parse)(DataPrefix + DoneSentinel) == None
  {
    LabelledPayload(DoneSentinel);
  }

  /** `data: [DONE]` in the middle of a body does not end the stream: the
      deltas after it are still dispatched and `onDone` still comes last,
      once, when the reader is done. */
  lemma SentinelDoesNotStop(body: Transport, before: seq<string>, after: seq<string>,
                            parse: string -> DeltaLookup)
    requires body.end == Closed
    requires ProcessedLines(body) == before + [DataPrefix + DoneSentinel] + after
    ensures HandleStream(body, parse).trace ==
              Dispatch(before, Handler(parse)) + Dispatch(after, Handler(parse)) + [Done]
  {
    BareSentinelSilent(parse);
    SilentLineSkipped(before, DataPrefix + DoneSentinel, after, Handler(parse));
    StreamMatchesSplit(body, Handler(parse));
  }

  /** A body holding one delta line, a blank line and the sentinel line,
      each ended by a newline and cut into chunks anywhere, makes exactly
      one `onTextReceived` with the delta's content and then `onDone`. This
      covers the OpenAI-style example where the JSON of the delta is split
      between two chunks in the middle of its content string. */
  lemma DeltaThenSentinel(chunks: seq<string>, json: string, content: string,
                          parse: string -> DeltaLookup)
    requires Newline !in json
    requires json != "" && !IsSpace(json[0]) && !IsSpace(json[|json| - 1])
    requires json != DoneSentinel
    requires parse(json) == Delta(content) && content != ""
    requires Concat(chunks) == DataPrefix + json + "\n\n" + DataPrefix + DoneSentinel + "\n"
    ensures HandleStream(Transport(chunks, Closed), parse).trace == [Text(content), Done]
  {
    ThreeLines(json, chunks);
    ThreeLineEvents(json, content, parse);
    StreamMatchesSplit(Transport(chunks, Closed), Handler(parse));
  }

  /** The callbacks of a delta line, a blank line and the sentinel line. */
  lemma ThreeLineEvents(json: string, content: string, parse: string -> DeltaLookup)
    requires json != "" && !IsSpace(json[0]) && !IsSpace(json[|json| - 1])
    requires json != DoneSentinel
    requires parse(json) == Delta(content) && content != ""
    ensures Dispatch([DataPrefix + json, "", DataPrefix + DoneSentinel], Handler(parse)) ==
              [Text(content)]
  {
    var process := Handler(parse);
    DispatchThree(DataPrefix + json, "", DataPrefix + DoneSentinel, process);
    LabelledDelta(json, content, parse);
    assert process("") == None by {
      assert !StartsWith("", DataPrefix);
    }
    BareSentinelSilent(parse);
  }

  /** `data: ` followed by a delta document without surrounding white space
      dispatches the delta's content. */
  lemma LabelledDelta(json: string, content: string, parse: string -> DeltaLookup)
    requires json != "" && !IsSpace(json[0]) && !IsSpace(json[|json| - 1])
    requires json != DoneSentinel
    requires parse(json) == Delta(content) && content != ""
    ensures Handler(parse)(DataPrefix + json) == Some(content)
  {
    LabelledPayload(json);
    DeltaDispatched(DataPrefix + json, parse, content);
  }

  /** The lines of a delta line, a blank line and the sentinel line. */
  lemma ThreeLines(json: string, chunks: seq<string>)
    requires Newline !in json
    requires Concat(chunks) == DataPrefix + json + "\n\n" + DataPrefix + DoneSentinel + "\n"
    ensures ProcessedLines(Transport(chunks, Closed)) ==
              [DataPrefix + json, "", DataPrefix + DoneSentinel]
  {
    var first := DataPrefix + json;
    var sentinel := DataPrefix + DoneSentinel;
    var parts := [first, "", sentinel, ""];
    assert Join(parts) == Concat(chunks) by {
      assert parts[1..] == ["", sentinel, ""];
      assert parts[2..] == [sentinel, ""];
      assert parts[3..] == [""];
      assert Join(parts[2..]) == sentinel + "\n";
      assert Join(parts[1..]) == "\n" + sentinel + "\n";
    }
    assert NoNewlines(parts) by {
      assert Newline !in DataPrefix && Newline !in DoneSentinel;
    }
    SplitJoin(parts);
    assert Flush("") == [];
    assert parts[..3] + [] == [first, "", sentinel];
  }

  /** Three lines are processed one after the other. */
  lemma DispatchThree(a: string, b: string, c: string, process: string -> Option<string>)
    ensures Dispatch([a, b, c], process) ==
              Emit(process(a)) + Emit(process(b)) + Emit(process(c))
  {
    assert Dispatch([c], process) == Emit(process(c)) by {
      assert [c][1..] == [];
    }
    assert Dispatch([b, c], process) == Emit(process(b)) + Emit(process(c)) by {
      assert [b, c][1..] == [c];
    }
    assert [a, b, c][1..] == [b, c];
  }
}
