/** What a caller of `TogetherClient.send` observes: the callbacks it receives,
    in order, and whether the returned promise resolves or rejects. */
module Events {

  /** One callback: `onTextReceived(content)` or `onDone()`. */
  datatype Event = Text(content: string) | Done

  /** Why `send` rejects. */
  datatype Failure =
    | HttpStatus(status: int)   // `response.ok` was false
    | ReadFailure               // the body reader threw
    | MalformedBody             // `response.json()` or `json.choices[0].message` threw

  datatype Completion = Resolved | Rejected(failure: Failure)

  /** The callback trace of one `send` and how it ended. */
  datatype Outcome = Outcome(trace: seq<Event>, completion: Completion)

  /** Only `onTextReceived` calls, each with non-empty text. */
  predicate NonEmptyTexts(trace: seq<Event>)
  {
    forall i :: 0 <= i < |trace| ==> trace[i].Text? && trace[i].content != ""
  }

  /** `onDone` is called exactly once, as the last callback. */
  predicate DoneOnceLast(trace: seq<Event>)
  {
    && |trace| >= 1
    && trace[|trace| - 1] == Done
    && Done !in trace[..|trace| - 1]
  }

  /** Two traces of non-empty texts make one. */
  lemma NonEmptyTextsAppend(a: seq<Event>, b: seq<Event>)
    requires NonEmptyTexts(a) && NonEmptyTexts(b)
    ensures NonEmptyTexts(a + b)
  {
    forall i | 0 <= i < |a + b|
      ensures (a + b)[i].Text? && (a + b)[i].content != ""
    {
      if i >= |a| {
        assert (a + b)[i] == b[i - |a|];
      }
    }
  }

  /** A text-only prefix followed by one `onDone` ends with `onDone` once. */
  lemma DoneAfterTexts(texts: seq<Event>, last: seq<Event>)
    requires Done !in texts
    requires DoneOnceLast(last)
    ensures DoneOnceLast(texts + last)
  {
    assert (texts + last)[..|texts + last| - 1] == texts + last[..|last| - 1];
  }
}
