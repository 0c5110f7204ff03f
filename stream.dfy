/** Reading the model's streamed answer (`streamUtils.ts`): the error branches of opening
    the stream and the line-buffering loop of `processStream` over the event-stream body.
    The network call is a `Response` value; the decoded reads are given as strings; what
    `JSON.parse` and the `choices?.[0]?.delta?.content` lookup give for one payload is a
    `parse` function handed in. */
module Stream {
  import opened Types
  import opened Text
  import opened Errors

  /** The outcome of parsing one payload: not JSON at all, or JSON whose
      `choices[0].delta.content` is the given string or absent. */
  datatype Payload = Unparseable | Parsed(content: Option<string>)

  /** The HTTP answer: an ok response whose reader delivers the decoded reads `body`, a response
      whose status is not ok with its body text, or an ok response without a body. */
  datatype Response = Ok(body: seq<string>) | Status(code: int, text: string) | NoBody

  datatype Opened = Opened(body: seq<string>) | Failed(error: Thrown)

  /** `createOpenAIStream` after the request: the status check first, then the body. */
  function OpenStream(response: Response): (o: Opened)
    ensures response.Ok? <==> o.Opened?
  {
    match response
    case Status(code, text) => Failed(CreateApiError(code, text))
    case NoBody => Failed(PlainError(StreamErrorMessage))
    case Ok(body) => Opened(body)
  }

  /** A status that is not ok gives an `APIError` with that status and body; a missing
      body gives the stream error. */
  lemma OpenStreamErrors(response: Response)
    ensures response.Status? ==>
      OpenStream(response).error.ApiError?
      && OpenStream(response).error.statusCode == Some(response.code)
      && OpenStream(response).error.response == Some(response.text)
    ensures response.NoBody? ==> HandleApiError(OpenStream(response).error) == StreamErrorMessage
  {
  }

  const DataPrefix: string := "data: "
  const DoneMarker: string := "[DONE]"

  /** What one complete line yields: the content of a `data: ` line whose payload is not
      `[DONE]`, parses, and carries a non-empty content string. */
  function LineContent(line: string, parse: string -> Payload): Option<string> {
    if !StartsWith(line, DataPrefix) then None
    else
      var data := line[|DataPrefix|..];
      if data == DoneMarker then None
      else
        match parse(data)
        case Unparseable => None
        case Parsed(content) => if content.Some? && content.value != "" then content else None
  }

  /** The chunks a list of complete lines yields, in order. */
  function LinesContent(lines: seq<string>, parse: string -> Payload): seq<string>
    decreases |lines|
  {
    if |lines| == 0 then []
    else
      var c := LineContent(lines[|lines| - 1], parse);
      LinesContent(lines[..|lines| - 1], parse) + (if c.Some? then [c.value] else [])
  }

  /** The `\n`-terminated lines of a text. */
  function CompleteLines(text: string): seq<string> {
    var pieces := Split(text, '\n');
    pieces[..|pieces| - 1]
  }

  /** The text after the last `\n`, which waits in the buffer for the next read. */
  function Pending(text: string): string {
    Last(Split(text, '\n'))
  }

  /** The chunks a whole stream body yields. */
  function StreamChunks(text: string, parse: string -> Payload): seq<string> {
    LinesContent(CompleteLines(text), parse)
  }

  /** `processStream`: takes the decoded reads of `body` in order, keeping the unterminated tail in
      `buffer`, and yields the content of each complete line. It returns the yielded
      chunks and `fullContent`. */
  method ProcessStream(body: seq<string>, parse: string -> Payload)
    returns (yielded: seq<string>, fullContent: string)
    ensures yielded == StreamChunks(Concat(body), parse)
    ensures fullContent == Concat(yielded)
  {
    var buffer := "";
    fullContent := "";
    yielded := [];
    var i := 0;
    assert body[..0] == [];
    while i < |body|
      invariant 0 <= i <= |body|
      invariant buffer == Pending(Concat(body[..i]))
      invariant '\n' !in buffer
      invariant yielded == StreamChunks(Concat(body[..i]), parse)
      invariant fullContent == Concat(yielded)
    {
      buffer := buffer + body[i];
      var lines := Split(buffer, '\n');
      ReadStep(body, i, parse);
      buffer := Last(lines);
      yielded, fullContent := ProcessLines(lines[..|lines| - 1], parse, yielded, fullContent);
      i := i + 1;
    }
    assert body[..i] == body;
  }

  /** The `for` loop over the complete lines of one read: each `data: ` line whose
      payload is not `[DONE]` and parses to a non-empty content is added to the result and
      yielded. */
  method ProcessLines(lines: seq<string>, parse: string -> Payload, yielded0: seq<string>, full0: string)
    returns (yielded: seq<string>, fullContent: string)
    requires full0 == Concat(yielded0)
    ensures yielded == yielded0 + LinesContent(lines, parse)
    ensures fullContent == Concat(yielded)
  {
    yielded, fullContent := yielded0, full0;
    var j := 0;
    while j < |lines|
      invariant 0 <= j <= |lines|
      invariant yielded == yielded0 + LinesContent(lines[..j], parse)
      invariant fullContent == Concat(yielded)
    {
      var line := lines[j];
      LinesStep(lines, j, parse);
      if StartsWith(line, DataPrefix) {
        var data := line[6..];
        if data != DoneMarker {
          match parse(data)
          case Unparseable =>
          case Parsed(content) =>
            if content.Some? && content.value != "" {
              ConcatAppend(yielded, [content.value]);
              fullContent := fullContent + content.value;
              yielded := yielded + [content.value];
            }
        }
      }
      j := j + 1;
    }
    assert lines[..j] == lines;
  }

  lemma LinesStep(lines: seq<string>, j: nat, parse: string -> Payload)
    requires j < |lines|
    ensures var c := LineContent(lines[j], parse);
      LinesContent(lines[..j + 1], parse)
        == LinesContent(lines[..j], parse) + (if c.Some? then [c.value] else [])
  {
    assert lines[..j + 1][..j] == lines[..j];
  }

  /** One read: the lines completed by `body[i]` follow the lines completed before, and
      the new buffer is what follows the last `\n`. */
  lemma ReadStep(body: seq<string>, i: nat, parse: string -> Payload)
    requires i < |body|
    ensures var t := Concat(body[..i]);
      var pieces := Split(Pending(t) + body[i], '\n');
      StreamChunks(Concat(body[..i + 1]), parse)
        == StreamChunks(t, parse) + LinesContent(pieces[..|pieces| - 1], parse)
      && Pending(Concat(body[..i + 1])) == Last(pieces)
      && '\n' !in Last(pieces)
  {
    var t := Concat(body[..i]);
    assert body[..i + 1][..i] == body[..i];
    assert Concat(body[..i + 1]) == t + body[i];
    CarryOver(t, body[i], parse);
    var pieces := Split(Pending(t) + body[i], '\n');
    SplitNoSep(Pending(t) + body[i], '\n');
  }

  /** Buffer carry-over: the chunks of `t + r` are the chunks of `t` followed by the
      chunks of what was pending after `t` continued by `r`; what is pending after
      `t + r` is what is pending after that continuation. */
  lemma CarryOver(t: string, r: string, parse: string -> Payload)
    ensures StreamChunks(t + r, parse) == StreamChunks(t, parse) + StreamChunks(Pending(t) + r, parse)
    ensures Pending(t + r) == Pending(Pending(t) + r)
  {
    SplitAppend(t, r, '\n');
    var st := Split(t, '\n');
    var x := Split(Pending(t) + r, '\n');
    assert Split(t + r, '\n') == st[..|st| - 1] + x;
    assert CompleteLines(t + r) == CompleteLines(t) + x[..|x| - 1];
    LinesContentAppend(CompleteLines(t), x[..|x| - 1], parse);
  }

  lemma {:induction false} LinesContentAppend(a: seq<string>, b: seq<string>, parse: string -> Payload)
    ensures LinesContent(a + b, parse) == LinesContent(a, parse) + LinesContent(b, parse)
    decreases |b|
  {
    if |b| == 0 {
      assert a + b == a;
    } else {
      assert (a + b)[..|a + b| - 1] == a + b[..|b| - 1];
      LinesContentAppend(a, b[..|b| - 1], parse);
    }
  }

  /** A yielded chunk comes from a `data: ` line: the payload is the text after those six
      characters, it is not `[DONE]`, it parses and its content is that non-empty chunk;
      and every such line yields its content. */
  lemma LineContentIff(line: string, parse: string -> Payload, c: string)
    ensures LineContent(line, parse) == Some(c)
        <==> StartsWith(line, "data: ") && line[6..] != "[DONE]"
             && parse(line[6..]) == Parsed(Some(c)) && c != ""
  {
  }

  /** A text ending in a line break (or empty) has nothing pending. */
  lemma NothingPending(t: string)
    requires t == [] || t[|t| - 1] == '\n'
    ensures Pending(t) == ""
  {
    if t != [] {
      var p := t[..|t| - 1];
      assert t == p + ['\n'];
      SplitAppend(p, ['\n'], '\n');
      var sp := Split(p, '\n');
      SplitNoSep(p, '\n');
      assert '\n' !in Last(sp) by {
        assert '\n' !in sp[|sp| - 1];
      }
      SplitPieceThenSep(Last(sp), '\n', "");
      assert Last(sp) + ['\n'] + "" == Last(sp) + ['\n'];
    }
  }

  /** An unterminated final line yields nothing. */
  lemma UnterminatedTailDropped(t: string, u: string, parse: string -> Payload)
    requires t == [] || t[|t| - 1] == '\n'
    requires '\n' !in u
    ensures StreamChunks(t + u, parse) == StreamChunks(t, parse)
  {
    CarryOver(t, u, parse);
    NothingPending(t);
    assert Pending(t) + u == u;
    SplitNoSepPiece(u, '\n');
    assert StreamChunks(t, parse) + [] == StreamChunks(t, parse);
  }

  /** A `[DONE]` line is skipped and the lines after it are still read. */
  lemma DoneDoesNotEnd(t: string, u: string, parse: string -> Payload)
    requires t == [] || t[|t| - 1] == '\n'
    ensures StreamChunks(t + ("data: [DONE]\n" + u), parse) == StreamChunks(t + u, parse)
  {
    var d := "data: [DONE]";
    NothingPending(t);
    CarryOver(t, d + "\n" + u, parse);
    CarryOver(t, u, parse);
    assert Pending(t) + (d + "\n" + u) == d + ['\n'] + u;
    assert Pending(t) + u == u;
    assert "data: [DONE]\n" + u == d + "\n" + u;
    DoneLine(d, u, parse);
  }

  lemma DoneLine(d: string, u: string, parse: string -> Payload)
    requires d == "data: [DONE]"
    ensures StreamChunks(d + ['\n'] + u, parse) == StreamChunks(u, parse)
  {
    assert '\n' !in d;
    SplitPieceThenSep(d, '\n', u);
    var su := Split(u, '\n');
    assert CompleteLines(d + ['\n'] + u) == [d] + su[..|su| - 1];
    LinesContentAppend([d], su[..|su| - 1], parse);
    DoneLineSkipped(d, parse);
  }

  lemma DoneLineSkipped(d: string, parse: string -> Payload)
    requires d == "data: [DONE]"
    ensures LinesContent([d], parse) == []
  {
    assert [d][..0] == [];
    assert StartsWith(d, DataPrefix);
    assert d[|DataPrefix|..] == DoneMarker;
  }
}
