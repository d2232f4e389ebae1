/** The frame buffer of `handleStreamResponse`: decoded text is appended to a
    string buffer, the buffer is cut at every newline, the complete lines are
    handed on and the trailing partial line is kept for the next chunk. */
module Framing {

  /** The only line separator the client splits on. A carriage return is an
      ordinary character here; it is removed later, by `trim`. */
  const Newline: char := '\n'

  /** The separator as a one-character string. */
  const NewlineText: string := [Newline]

  /** The concatenation of the chunks read so far. */
  function Concat(chunks: seq<string>): string
  {
    if |chunks| == 0 then "" else chunks[0] + Concat(chunks[1..])
  }

  /** `parts.join("\n")`. */
  function Join(parts: seq<string>): string
  {
    if |parts| == 0 then ""
    else if |parts| == 1 then parts[0]
    else parts[0] + NewlineText + Join(parts[1..])
  }

  /** No piece contains a separator. */
  predicate NoNewlines(parts: seq<string>)
  {
    forall i :: 0 <= i < |parts| ==> Newline !in parts[i]
  }

  /** `s.split("\n")`: the maximal separator-free runs of `s`, in order. There
      is always at least one piece, and an empty string splits into `[""]`. */
  function Split(s: string): (pieces: seq<string>)
    ensures |pieces| >= 1
    decreases |s|
  {
    if |s| == 0 then [""]
    else
      var tail := Split(s[1..]);
      if s[0] == Newline then [""] + tail
      else [[s[0]] + tail[0]] + tail[1..]
  }

  /** The pieces of `s` hold no separator and join back to `s`. */
  lemma {:induction false} SplitSound(s: string)
    ensures NoNewlines(Split(s))
    ensures Join(Split(s)) == s
    decreases |s|
  {
    if |s| > 0 {
      var tail := Split(s[1..]);
      SplitSound(s[1..]);
      assert s == [s[0]] + s[1..];
      if s[0] == Newline {
        assert Split(s) == [""] + tail;
        assert Join(Split(s)) == "" + NewlineText + Join(tail);
        NoNewlinesAppend([""], tail);
      } else {
        assert Split(s) == [[s[0]] + tail[0]] + tail[1..];
        JoinGlue(s[0], tail);
        NoNewlinesGlue(s[0], tail);
      }
    }
  }

  /** Gluing a character onto the first piece prepends it to the join. */
  lemma JoinGlue(c: char, tail: seq<string>)
    requires |tail| >= 1
    ensures Join([[c] + tail[0]] + tail[1..]) == [c] + Join(tail)
  {
    if |tail| == 1 {
      assert [[c] + tail[0]] + tail[1..] == [[c] + tail[0]];
    } else {
      JoinGlueLong(c, tail);
    }
  }

  /** `JoinGlue` when there is more than one piece. */
  lemma JoinGlueLong(c: char, tail: seq<string>)
    requires |tail| >= 2
    ensures Join([[c] + tail[0]] + tail[1..]) == [c] + Join(tail)
  {
    var head := tail[0];
    var later := Join(tail[1..]);
    calc {
      Join([[c] + head] + tail[1..]);
    == { JoinCons([c] + head, tail[1..]); }
      ([c] + head) + NewlineText + later;
    ==
      [c] + (head + NewlineText + later);
    ==
      [c] + Join(tail);
    }
  }

  /** A piece in front of at least one more is followed by a separator. */
  lemma JoinCons(p: string, rest: seq<string>)
    requires |rest| >= 1
    ensures Join([p] + rest) == p + NewlineText + Join(rest)
  {
    assert ([p] + rest)[1..] == rest;
  }

  /** Gluing a character other than the separator onto the first piece
      keeps the pieces separator-free. */
  lemma NoNewlinesGlue(c: char, tail: seq<string>)
    requires c != Newline
    requires |tail| >= 1 && NoNewlines(tail)
    ensures NoNewlines([[c] + tail[0]] + tail[1..])
  {
    var parts := [[c] + tail[0]] + tail[1..];
    forall i | 0 <= i < |parts|
      ensures Newline !in parts[i]
    {
      if i == 0 {
        assert forall k :: 1 <= k < |parts[0]| ==> parts[0][k] == tail[0][k - 1];
      } else {
        assert parts[i] == tail[i];
      }
    }
  }

  /** The complete lines of `s`: every piece but the last. */
  function CompleteLines(s: string): seq<string>
  {
    var pieces := Split(s);
    pieces[..|pieces| - 1]
  }

  /** The trailing, possibly partial, line of `s`: the last piece. */
  function Pending(s: string): string
  {
    var pieces := Split(s);
    pieces[|pieces| - 1]
  }

  /** The buffer and the lines produced by one turn of the read loop. */
  datatype Framed = Framed(lines: seq<string>, rest: string)

  /** One chunk arrives: `buffer += chunk; lines = buffer.split("\n");
      buffer = lines.pop() || ""`. The `|| ""` never changes the popped
      string, since an empty string is already `""`. The new buffer is the
      text after the last newline of `buffer + chunk` and never contains a
      newline; the lines handed on, rejoined with the new buffer, give back
      exactly `buffer + chunk`. */
  function Feed(buffer: string, chunk: string): Framed
  {
    var text := buffer + chunk;
    Framed(CompleteLines(text), Pending(text))
  }

  /** After a chunk, the new buffer is the text after the last newline of
      `buffer + chunk` and never contains a newline; the lines handed on hold
      no newline and, rejoined with the new buffer, give back exactly
      `buffer + chunk`. */
  lemma FeedSound(buffer: string, chunk: string)
    ensures Newline !in Feed(buffer, chunk).rest
    ensures NoNewlines(Feed(buffer, chunk).lines)
    ensures Join(Feed(buffer, chunk).lines + [Feed(buffer, chunk).rest]) == buffer + chunk
    ensures |Feed(buffer, chunk).rest| <= |buffer + chunk|
    ensures Feed(buffer, chunk).rest ==
              (buffer + chunk)[|buffer + chunk| - |Feed(buffer, chunk).rest|..]
    ensures |Feed(buffer, chunk).rest| < |buffer + chunk| ==>
              (buffer + chunk)[|buffer + chunk| - |Feed(buffer, chunk).rest| - 1] == Newline
  {
    var text := buffer + chunk;
    var pieces := Split(text);
    var init := pieces[..|pieces| - 1];
    var last := pieces[|pieces| - 1];
    assert pieces == init + [last];
    assert NoNewlines(pieces) && Join(pieces) == text by {
      SplitSound(text);
    }
    assert NoNewlines(init) by {
      assert forall i :: 0 <= i < |init| ==> init[i] == pieces[i];
    }
    JoinLast(init, last);
  }

  /** The lines a sequence of chunks releases before end-of-stream, starting
      from `buffer`, and the buffer left over afterwards. */
  function Frame(buffer: string, chunks: seq<string>): (f: Framed)
    decreases |chunks|
  {
    if |chunks| == 0 then Framed([], buffer)
    else
      var step := Feed(buffer, chunks[0]);
      var later := Frame(step.rest, chunks[1..]);
      Framed(step.lines + later.lines, later.rest)
  }

  /** Joining appended lists puts one separator between the two joins. */
  lemma {:induction false} JoinAppend(a: seq<string>, b: seq<string>)
    requires |a| >= 1 && |b| >= 1
    ensures Join(a + b) == Join(a) + NewlineText + Join(b)
    decreases |a|
  {
    if |a| == 1 {
      assert (a + b)[1..] == b;
    } else {
      assert (a + b)[1..] == a[1..] + b;
      JoinAppend(a[1..], b);
    }
  }

  /** The last piece of a join ends the joined text, right after a separator
      when there are earlier pieces. */
  lemma JoinLast(init: seq<string>, last: string)
    ensures |last| <= |Join(init + [last])|
    ensures last == Join(init + [last])[|Join(init + [last])| - |last|..]
    ensures |init| >= 1 ==>
              (|last| < |Join(init + [last])| &&
               Join(init + [last])[|Join(init + [last])| - |last| - 1] == Newline)
  {
    if |init| == 0 {
      assert init + [last] == [last];
    } else {
      JoinAppend(init, [last]);
    }
  }

  /** A separator-free prefix glues onto the first piece. */
  lemma {:induction false} SplitPrefix(p: string, s: string)
    requires Newline !in p
    ensures Split(p + s) == [p + Split(s)[0]] + Split(s)[1..]
    decreases |p|
  {
    if |p| > 0 {
      assert (p + s)[1..] == p[1..] + s;
      SplitPrefix(p[1..], s);
      assert [p[0]] + (p[1..] + Split(s)[0]) == p + Split(s)[0];
    } else {
      assert p + s == s;
      assert p + Split(s)[0] == Split(s)[0];
      assert Split(s) == [Split(s)[0]] + Split(s)[1..];
    }
  }

  /** Splitting undoes joining: separator-free pieces are recovered exactly. */
  lemma {:induction false} SplitJoin(parts: seq<string>)
    requires |parts| >= 1
    requires NoNewlines(parts)
    ensures Split(Join(parts)) == parts
    decreases |parts|
  {
    if |parts| == 1 {
      SplitPrefix(parts[0], "");
      assert parts[0] + "" == parts[0];
    } else {
      var rest := Join(parts[1..]);
      assert Join(parts) == parts[0] + (NewlineText + rest);
      SplitPrefix(parts[0], NewlineText + rest);
      assert (NewlineText + rest)[1..] == rest;
      assert Split(NewlineText + rest) == [""] + Split(rest);
      assert parts[0] + "" == parts[0];
      SplitJoin(parts[1..]);
      assert parts == [parts[0]] + parts[1..];
    }
  }

  /** Separator-free lists stay separator-free when appended. */
  lemma NoNewlinesAppend(a: seq<string>, b: seq<string>)
    requires NoNewlines(a) && NoNewlines(b)
    ensures NoNewlines(a + b)
  {
    forall i | 0 <= i < |a + b|
      ensures Newline !in (a + b)[i]
    {
      if i < |a| {
        assert (a + b)[i] == a[i];
      } else {
        assert (a + b)[i] == b[i - |a|];
      }
    }
  }

  /** Replacing the last piece of a join by pieces that join to that piece
      followed by `y` appends `y` to the join. */
  lemma JoinReplaceLast(init: seq<string>, last: string, q: seq<string>, y: string)
    requires |q| >= 1
    requires Join(q) == last + y
    ensures Join(init + q) == Join(init + [last]) + y
  {
    if |init| == 0 {
      assert init + q == q;
      assert init + [last] == [last];
    } else {
      JoinAppend(init, q);
      JoinAppend(init, [last]);
    }
  }

  /** The pieces of `x + y` are the complete lines of `x` followed by the
      pieces of the pending line of `x` continued with `y`. */
  lemma SplitAppend(x: string, y: string)
    ensures Split(x + y) == CompleteLines(x) + Split(Pending(x) + y)
  {
    var init := CompleteLines(x);
    var q := Split(Pending(x) + y);
    assert Join(init + q) == x + y by {
      SplitSound(x);
      SplitSound(Pending(x) + y);
      assert Split(x) == init + [Pending(x)];
      JoinReplaceLast(init, Pending(x), q, y);
    }
    assert NoNewlines(init + q) by {
      SplitSound(x);
      SplitSound(Pending(x) + y);
      assert NoNewlines(init) by {
        assert forall i :: 0 <= i < |init| ==> init[i] == Split(x)[i];
      }
      NoNewlinesAppend(init, q);
    }
    SplitJoin(init + q);
  }

  /** Feeding `x` and then `y` releases the same lines as feeding `x + y` at
      once, and leaves the same buffer: where the chunk boundary falls does
      not matter. */
  lemma FeedCompose(x: string, y: string)
    ensures CompleteLines(x + y) == CompleteLines(x) + CompleteLines(Pending(x) + y)
    ensures Pending(x + y) == Pending(Pending(x) + y)
  {
    var init := CompleteLines(x);
    var q := Split(Pending(x) + y);
    SplitAppend(x, y);
    assert (init + q)[..|init + q| - 1] == init + q[..|q| - 1];
    assert (init + q)[|init + q| - 1] == q[|q| - 1];
  }

  /** Reading a sequence of chunks from `buffer` releases the complete lines
      of `buffer` followed by all the chunks, and keeps the trailing partial
      line. */
  lemma {:induction false} FrameMatchesSplit(buffer: string, chunks: seq<string>)
    requires Newline !in buffer
    ensures Frame(buffer, chunks) ==
              Framed(CompleteLines(buffer + Concat(chunks)), Pending(buffer + Concat(chunks)))
    decreases |chunks|
  {
    if |chunks| == 0 {
      assert buffer + Concat(chunks) == buffer;
      SplitJoin([buffer]);
    } else {
      var x := buffer + chunks[0];
      assert Newline !in Pending(x) by {
        FeedSound(buffer, chunks[0]);
      }
      var r := Concat(chunks[1..]);
      FrameMatchesSplit(Pending(x), chunks[1..]);
      assert buffer + Concat(chunks) == x + r;
      FeedCompose(x, r);
    }
  }

  /** Split invariance of the framing: two chunkings of the same text release
      the same lines and leave the same buffer. */
  lemma FrameSplitInvariant(a: seq<string>, b: seq<string>)
    requires Concat(a) == Concat(b)
    ensures Frame("", a) == Frame("", b)
  {
    FrameMatchesSplit("", a);
    FrameMatchesSplit("", b);
  }
}
