/** `processLine`: one logical line of the server-sent-events body becomes at
    most one `onTextReceived` call. Only `data: ` lines matter; their payload
    is trimmed, the `[DONE]` sentinel is dropped, and anything else goes to
    `JSON.parse`, whose failures are caught and logged. */
module LineParser {
  import opened Wrappers

  /** The label a significant line starts with (`line.startsWith("data: ")`,
      `line.slice(6)`). */
  const DataPrefix: string := "data: "

  /** The payload that ends an OpenAI-style stream. */
  const DoneSentinel: string := "[DONE]"

  /** What `JSON.parse(payload)` followed by `parsed.choices?.[0]?.delta?.content`
      yields: a thrown exception (a syntax error, or a `TypeError` when the
      document is `null`), no value at that path, or the content string. */
  datatype DeltaLookup = Malformed | NoDelta | Delta(content: string)

  /** The characters `String.prototype.trim` removes: the ECMAScript
      WhiteSpace characters (tab, vertical tab, form feed, space, no-break
      space, byte order mark and the other Unicode space separators) and the
      LineTerminator characters (line feed, carriage return, line and
      paragraph separators). */
  predicate IsSpace(c: char)
  {
    || c == '\t' || c == '\U{000B}' || c == '\U{000C}' || c == ' '
    || c == '\U{00A0}' || c == '\U{FEFF}' || c == '\U{1680}'
    || ('\U{2000}' <= c <= '\U{200A}')
    || c == '\U{202F}' || c == '\U{205F}' || c == '\U{3000}'
    || c == '\n' || c == '\r' || c == '\U{2028}' || c == '\U{2029}'
  }

  predicate AllSpace(s: string)
  {
    forall i :: 0 <= i < |s| ==> IsSpace(s[i])
  }

  predicate StartsWith(s: string, prefix: string)
  {
    |prefix| <= |s| && s[..|prefix|] == prefix
  }

  /** The number of white-space characters `s` starts with. */
  function LeadingSpace(s: string): (n: nat)
    ensures n <= |s|
    ensures forall i :: 0 <= i < n ==> IsSpace(s[i])
    ensures n < |s| ==> !IsSpace(s[n])
  {
    if |s| > 0 && IsSpace(s[0]) then 1 + LeadingSpace(s[1..]) else 0
  }

  /** The number of white-space characters `s` ends with. */
  function TrailingSpace(s: string): (n: nat)
    ensures n <= |s|
    ensures forall i :: |s| - n <= i < |s| ==> IsSpace(s[i])
    ensures n < |s| ==> !IsSpace(s[|s| - n - 1])
  {
    if |s| > 0 && IsSpace(s[|s| - 1]) then 1 + TrailingSpace(s[..|s| - 1]) else 0
  }

  /** `s.trim()`: `s` without its leading and its trailing white space. */
  function Trim(s: string): string
  {
    var t := s[LeadingSpace(s)..];
    t[..|t| - TrailingSpace(t)]
  }

  /** The trimmed text after the `data: ` label. */
  function Payload(line: string): string
    requires StartsWith(line, DataPrefix)
  {
    Trim(line[|DataPrefix|..])
  }

  /** `processLine(line)`: the text it passes to `onTextReceived`, if it
      calls it at all. Nothing escapes it: a malformed payload is logged and
      yields no call. Only a `data: ` line whose trimmed payload is not the
      sentinel and holds non-empty delta content makes a call, with exactly
      that content. */
  function ProcessLine(line: string, parse: string -> DeltaLookup): (r: Option<string>)
    ensures r.Some? ==>
              && r.value != ""
              && StartsWith(line, DataPrefix)
              && Payload(line) != DoneSentinel
              && parse(Payload(line)) == Delta(r.value)
  {
    if !StartsWith(line, DataPrefix) then None
    else
      var json := Payload(line);
      if json == DoneSentinel then None
      else
        match parse(json)
        case Delta(content) => if content != "" then Some(content) else None
        case _ => None
  }

  /** A `data: ` line whose payload holds non-empty delta content dispatches
      exactly that content. With the contract of `ProcessLine` this is an
      if-and-only-if. */
  lemma DeltaDispatched(line: string, parse: string -> DeltaLookup, content: string)
    requires StartsWith(line, DataPrefix)
    requires Payload(line) != DoneSentinel
    requires parse(Payload(line)) == Delta(content)
    requires content != ""
    ensures ProcessLine(line, parse) == Some(content)
  {
  }

  /** The leading white space is determined by where the first non-space
      character sits. */
  lemma LeadingSpaceIs(s: string, n: nat)
    requires n <= |s|
    requires forall i :: 0 <= i < n ==> IsSpace(s[i])
    requires n < |s| ==> !IsSpace(s[n])
    ensures LeadingSpace(s) == n
  {
  }

  /** The trailing white space is determined by where the last non-space
      character sits. */
  lemma TrailingSpaceIs(s: string, n: nat)
    requires n <= |s|
    requires forall i :: |s| - n <= i < |s| ==> IsSpace(s[i])
    requires n < |s| ==> !IsSpace(s[|s| - n - 1])
    ensures TrailingSpace(s) == n
  {
  }

  /** `trim` removes any white space around a text that neither starts nor
      ends with white space, and nothing else. */
  lemma TrimPadded(u: string, x: string, v: string)
    requires AllSpace(u) && AllSpace(v)
    requires x == "" || (!IsSpace(x[0]) && !IsSpace(x[|x| - 1]))
    ensures Trim(u + x + v) == x
  {
    var s := u + x + v;
    if x == "" {
      assert s == u + v;
      LeadingSpaceIs(s, |s|);
      assert s[|s|..] == "";
      TrailingSpaceIs("", 0);
    } else {
      assert s[|u|] == x[0];
      LeadingSpaceIs(s, |u|);
      var t := s[|u|..];
      assert t == x + v;
      assert t[|x| - 1] == x[|x| - 1];
      TrailingSpaceIs(t, |v|);
      assert t[..|x|] == x;
    }
  }

  /** Appending white space leaves the leading white space alone, unless
      the text was white space throughout. */
  lemma LeadingSpaceAppend(s: string, w: string)
    requires AllSpace(w)
    ensures LeadingSpace(s) < |s| ==> LeadingSpace(s + w) == LeadingSpace(s)
    ensures LeadingSpace(s) == |s| ==> LeadingSpace(s + w) == |s + w|
  {
    var a := LeadingSpace(s);
    if a < |s| {
      assert (s + w)[a] == s[a];
      LeadingSpaceIs(s + w, a);
    } else {
      LeadingSpaceIs(s + w, |s + w|);
    }
  }

  /** Appending white space to a text that is not all white space adds
      exactly that much trailing white space. */
  lemma TrailingSpaceAppend(t: string, w: string)
    requires AllSpace(w)
    requires TrailingSpace(t) < |t|
    ensures TrailingSpace(t + w) == TrailingSpace(t) + |w|
  {
    var b := TrailingSpace(t);
    var tw := t + w;
    assert tw[|tw| - (b + |w|) - 1] == t[|t| - b - 1];
    TrailingSpaceIs(tw, b + |w|);
  }

  /** White space appended to a text that does not start with white space
      does not change its trim. */
  lemma TrimStartedIgnoresTrailingSpace(t: string, w: string)
    requires AllSpace(w)
    requires |t| > 0 && !IsSpace(t[0])
    ensures (t + w)[..|t + w| - TrailingSpace(t + w)] == t[..|t| - TrailingSpace(t)]
  {
    TrailingSpaceAppend(t, w);
    assert (t + w)[..|t| - TrailingSpace(t)] == t[..|t| - TrailingSpace(t)];
  }

  /** White space appended to a text does not change its trim. */
  lemma TrimIgnoresTrailingSpace(s: string, w: string)
    requires AllSpace(w)
    ensures Trim(s + w) == Trim(s)
  {
    var a := LeadingSpace(s);
    LeadingSpaceAppend(s, w);
    if a == |s| {
      assert (s + w)[|s + w|..] == "" && s[|s|..] == "";
      TrailingSpaceIs("", 0);
    } else {
      var t := s[a..];
      assert (s + w)[a..] == t + w;
      assert t[0] == s[a];
      TrimStartedIgnoresTrailingSpace(t, w);
    }
  }

  /** A `data: [DONE]` line is swallowed whatever white space surrounds the
      sentinel, and whatever the JSON parser would make of it. */
  lemma SentinelSilent(u: string, v: string, parse: string -> DeltaLookup)
    requires AllSpace(u) && AllSpace(v)
    ensures ProcessLine(DataPrefix + u + DoneSentinel + v, parse) == None
  {
    var line := DataPrefix + u + DoneSentinel + v;
    assert line[..|DataPrefix|] == DataPrefix;
    assert line[|DataPrefix|..] == u + DoneSentinel + v;
    TrimPadded(u, DoneSentinel, v);
  }

  /** The label followed by a payload without surrounding white space
      carries exactly that payload. */
  lemma LabelledPayload(json: string)
    requires json == "" || (!IsSpace(json[0]) && !IsSpace(json[|json| - 1]))
    ensures StartsWith(DataPrefix + json, DataPrefix)
    ensures Payload(DataPrefix + json) == json
  {
    var line := DataPrefix + json;
    assert line[..|DataPrefix|] == DataPrefix;
    assert line[|DataPrefix|..] == "" + json + "";
    TrimPadded("", json, "");
  }

  /** A line without the `data: ` label is ignored, whatever it holds. */
  lemma UnlabelledSilent(line: string, parse: string -> DeltaLookup)
    requires !StartsWith(line, DataPrefix)
    ensures ProcessLine(line, parse) == None
  {
  }

  /** A payload `JSON.parse` rejects, or one without delta content, is
      dropped without a callback. */
  lemma MalformedSilent(line: string, parse: string -> DeltaLookup)
    requires StartsWith(line, DataPrefix)
    requires parse(Payload(line)) == Malformed || parse(Payload(line)) == NoDelta
      || parse(Payload(line)) == Delta("")
    ensures ProcessLine(line, parse) == None
  {
  }

  /** A `data: ` line with nothing but white space after the label trims to
      the empty payload, which `JSON.parse` rejects; such a line makes no
      callback. */
  lemma BlankPayloadSilent(w: string, parse: string -> DeltaLookup)
    requires AllSpace(w)
    requires parse("") == Malformed
    ensures ProcessLine(DataPrefix + w, parse) == None
  {
    var line := DataPrefix + w;
    assert line[..|DataPrefix|] == DataPrefix;
    assert line[|DataPrefix|..] == w + "" + "";
    TrimPadded(w, "", "");
  }

  /** A carriage return left at the end of a line by CRLF framing changes
      nothing: it never completes the `data: ` label and `trim` removes it. */
  lemma CarriageReturnIgnored(line: string, parse: string -> DeltaLookup)
    ensures ProcessLine(line + "\r", parse) == ProcessLine(line, parse)
  {
    var crlf := line + "\r";
    if |line| >= |DataPrefix| {
      assert crlf[..|DataPrefix|] == line[..|DataPrefix|];
      if StartsWith(line, DataPrefix) {
        assert crlf[|DataPrefix|..] == line[|DataPrefix|..] + "\r";
        TrimIgnoresTrailingSpace(line[|DataPrefix|..], "\r");
      }
    } else {
      assert !StartsWith(crlf, DataPrefix) by {
        if |crlf| == |DataPrefix| {
          assert crlf[|DataPrefix| - 1] == '\r';
        }
      }
    }
  }
}
