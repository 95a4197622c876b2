/**
 * The transport client, `sendMessage` (src/utils/api.ts): it formats the
 * conversation, builds the completion request, turns a non-ok response into an
 * error, decodes a streamed body into text deltas handed to a callback, and maps
 * a cancelled request to its own error.
 *
 * The network is not modelled: the whole exchange is given as an `Exchange`,
 * each read of the body as an already decoded string (a chunk), `JSON.parse` of one event
 * payload as the function `parse`, and the callback as the returned list
 * `emitted` of the strings it was called with, in call order.
 */
module Api {
  import opened Types
  import opened Text

  /** A message as sent on the wire: only `role` and `content`. */
  datatype FormattedMessage = FormattedMessage(role: Role, content: string)

  /** `messages.map(({ role, content }) => ({ role, content }))`. */
  function FormatMessages(ms: seq<Message>): (r: seq<FormattedMessage>)
    ensures |r| == |ms|
    ensures forall i :: 0 <= i < |ms| ==> r[i].role == ms[i].role && r[i].content == ms[i].content
  {
    if ms == [] then [] else [FormattedMessage(ms[0].role, ms[0].content)] + FormatMessages(ms[1..])
  }

  /** Formatting depends on nothing but the roles and contents: ids and timestamps are dropped. */
  lemma {:induction false} FormatIgnoresIdAndTimestamp(ms: seq<Message>, ns: seq<Message>)
    requires |ms| == |ns|
    requires forall i :: 0 <= i < |ms| ==> ms[i].role == ns[i].role && ms[i].content == ns[i].content
    ensures FormatMessages(ms) == FormatMessages(ns)
  {
    var a, b := FormatMessages(ms), FormatMessages(ns);
    forall i | 0 <= i < |a| ensures a[i] == b[i] {
      assert a[i] == FormattedMessage(a[i].role, a[i].content);
      assert b[i] == FormattedMessage(b[i].role, b[i].content);
    }
  }

  /** The POST request: endpoint, and the JSON body `{model, messages, stream}`. */
  datatype Request = Request(url: string, model: string, messages: seq<FormattedMessage>, stream: bool)

  /** The request for `messages`; `hasCallback` says whether an `onStream` callback was supplied. */
  function BuildRequest(messages: seq<Message>, settings: ChatSettings, hasCallback: bool): (r: Request)
    ensures r.url == settings.baseUrl && r.model == settings.modelId
    ensures r.messages == FormatMessages(messages)
    ensures r.stream <==> hasCallback
  {
    Request(settings.baseUrl, settings.modelId, FormatMessages(messages), hasCallback)
  }

  const StatusMessagePrefix: string := "API request failed with status "

  /**
   * The `error.message` of a non-ok response's body, as `||` and `new Error`
   * see it: absent (the body is not JSON, or has no `error` or `message`), a
   * string, or some other JSON value, given by its truthiness and its string form.
   */
  datatype BodyMessage = NoMessage | StringMessage(text: string) | OtherMessage(truthy: bool, rendered: string)

  /** Whether `errorData.error?.message` is truthy, so that `||` keeps it. */
  predicate Truthy(m: BodyMessage) {
    (m.StringMessage? && m.text != "") || (m.OtherMessage? && m.truthy)
  }

  /**
   * The message of the error thrown for a non-ok response: the body's
   * `error.message` when it is truthy (in its string form), otherwise a
   * message naming the status.
   */
  function RemoteErrorMessage(bodyMessage: BodyMessage, status: nat): (r: string)
    ensures bodyMessage.StringMessage? && bodyMessage.text != "" ==> r == bodyMessage.text
    ensures bodyMessage.OtherMessage? && bodyMessage.truthy ==> r == bodyMessage.rendered
    ensures !Truthy(bodyMessage) ==> r == StatusMessagePrefix + NatToString(status)
    ensures !bodyMessage.OtherMessage? ==> r != ""
  {
    match bodyMessage
    case StringMessage(m) => if m != "" then m else StatusMessagePrefix + NatToString(status)
    case OtherMessage(truthy, rendered) => if truthy then rendered else StatusMessagePrefix + NatToString(status)
    case NoMessage => StatusMessagePrefix + NatToString(status)
  }

  /** The fallback message carries the status: the digits after the fixed prefix read back as it. */
  lemma FallbackNamesStatus(status: nat)
    ensures StartsWith(RemoteErrorMessage(NoMessage, status), StatusMessagePrefix)
    ensures var tail := RemoteErrorMessage(NoMessage, status)[|StatusMessagePrefix|..];
            (forall i :: 0 <= i < |tail| ==> '0' <= tail[i] <= '9') && DecimalValue(tail) == status
  {
    var r := RemoteErrorMessage(NoMessage, status);
    assert r[..|StatusMessagePrefix|] == StatusMessagePrefix;
    assert r[|StatusMessagePrefix|..] == NatToString(status);
    NatToStringValue(status);
  }

  predicate IsAbortError(e: Thrown) {
    e.JsError? && e.name == "AbortError"
  }

  const CancelledMessage: string := "Request was cancelled"

  /** The catch clause of sendMessage: an abort becomes a plain Error saying so; anything else is rethrown as it is. */
  function MapAbort(e: Thrown): (r: Thrown)
    ensures IsAbortError(e) ==> r == JsError("Error", CancelledMessage)
    ensures !IsAbortError(e) ==> r == e
    ensures !IsAbortError(r)
  {
    if IsAbortError(e) then JsError("Error", CancelledMessage) else e
  }

  /**
   * What parsing an event payload can give: a failure (JSON.parse throws, or the
   * value has no `choices` array), or a chunk whose `choices[0].delta.content`
   * may be absent.
   */
  datatype Payload = Malformed | Chunk(delta: Option<string>)

  const DataPrefix: string := "data: "
  const DoneSentinel: string := "[DONE]"

  /**
   * The string the callback receives for one line of a read, or None when the
   * line causes no callback: it does not start with the data prefix, its payload
   * is the sentinel, or the payload does not parse. An absent delta gives "".
   */
  function LineText(line: string, parse: string -> Payload): (r: Option<string>)
    ensures r.Some? ==> StartsWith(line, DataPrefix) && line[6..] != DoneSentinel
  {
    if StartsWith(line, DataPrefix) then
      var data := line[6..];
      if data == DoneSentinel then None
      else match parse(data)
        case Malformed => None
        case Chunk(delta) => Some(delta.GetOr(""))
    else None
  }

  /** A line yields a callback exactly for a data line whose payload is not the sentinel and parses. */
  lemma LineTextSpec(line: string, parse: string -> Payload)
    ensures LineText(line, parse).Some? <==>
              StartsWith(line, DataPrefix) && line[6..] != DoneSentinel && parse(line[6..]).Chunk?
    ensures LineText(line, parse).Some? ==> LineText(line, parse).value == parse(line[6..]).delta.GetOr("")
  {
  }

  function OptionToSeq<T>(o: Option<T>): seq<T> {
    match o
    case Some(v) => [v]
    case None => []
  }

  /** The callback arguments for a list of lines, in order. */
  function LinesTexts(lines: seq<string>, parse: string -> Payload): seq<string>
    decreases |lines|
  {
    if lines == [] then [] else LinesTexts(DropLast(lines), parse) + OptionToSeq(LineText(Last(lines), parse))
  }

  /** The callback arguments for one chunk as the source decodes it: split on '\n' by itself. */
  function ChunkTexts(chunk: string, parse: string -> Payload): seq<string> {
    LinesTexts(Split(chunk, '\n'), parse)
  }

  /** The callback arguments for a list of chunks as the source decodes them, in order. */
  function ReadsTexts(chunks: seq<string>, parse: string -> Payload): seq<string>
    decreases |chunks|
  {
    if chunks == [] then [] else ReadsTexts(DropLast(chunks), parse) + ChunkTexts(Last(chunks), parse)
  }

  lemma {:induction false} LinesTextsAppend(a: seq<string>, b: seq<string>, parse: string -> Payload)
    ensures LinesTexts(a + b, parse) == LinesTexts(a, parse) + LinesTexts(b, parse)
    decreases |b|
  {
    if b == [] {
      assert a + b == a;
    } else {
      assert DropLast(a + b) == a + DropLast(b);
      assert Last(a + b) == Last(b);
      LinesTextsAppend(a, DropLast(b), parse);
    }
  }

  /**
   * A line that causes no callback (not a data line, the sentinel, or a bad
   * payload) contributes nothing, and the lines after it are still decoded.
   */
  lemma SkippedLineContributesNothing(before: seq<string>, line: string, after: seq<string>, parse: string -> Payload)
    requires LineText(line, parse).None?
    ensures LinesTexts(before + [line] + after, parse) == LinesTexts(before, parse) + LinesTexts(after, parse)
  {
    var front := before + [line];
    assert DropLast(front) == before && Last(front) == line;
    assert LinesTexts(front, parse) == LinesTexts(before, parse) + [];
    assert LinesTexts(before, parse) + [] == LinesTexts(before, parse);
    LinesTextsAppend(front, after, parse);
  }

  /** Chunks are decoded independently: a later chunk is decoded the same whatever came before it. */
  lemma {:induction false} ReadsTextsAppend(a: seq<string>, b: seq<string>, parse: string -> Payload)
    ensures ReadsTexts(a + b, parse) == ReadsTexts(a, parse) + ReadsTexts(b, parse)
    decreases |b|
  {
    if b == [] {
      assert a + b == a;
    } else {
      var front := DropLast(b);
      ReadsTextsUnfold(a, b, parse);
      ReadsTextsAppend(a, front, parse);
      AppendAssoc(ReadsTexts(a, parse), ReadsTexts(front, parse), ChunkTexts(Last(b), parse));
    }
  }

  lemma ReadsTextsUnfold(a: seq<string>, b: seq<string>, parse: string -> Payload)
    requires b != []
    ensures ReadsTexts(a + b, parse) == ReadsTexts(a + DropLast(b), parse) + ChunkTexts(Last(b), parse)
  {
    assert DropLast(a + b) == a + DropLast(b);
    assert Last(a + b) == Last(b);
  }

  /**
   * The streaming loop as the source writes it: every read is split on '\n'
   * by itself, with nothing carried over to the next read. The callback
   * receives exactly `emitted`, and the accumulated content is their
   * concatenation in order.
   */
  method DecodeStream(chunks: seq<string>, parse: string -> Payload) returns (content: string, emitted: seq<string>)
    ensures emitted == ReadsTexts(chunks, parse)
    ensures content == Concat(emitted)
  {
    content, emitted := "", [];
    var i := 0;
    while i < |chunks|
      invariant 0 <= i <= |chunks|
      invariant emitted == ReadsTexts(chunks[..i], parse)
      invariant content == Concat(emitted)
    {
      var lines := Split(chunks[i], '\n');
      var more, texts := DecodeLines(lines, parse);
      ConcatAppend(emitted, texts);
      content, emitted := content + more, emitted + texts;
      ReadsTextsPrefixStep(chunks, i, parse);
      i := i + 1;
    }
    assert chunks[..i] == chunks;
  }

  /** What the corrected decoder hands to the callback: the lines of the whole body, the last one only once the body is complete. */
  function BufferedTexts(chunks: seq<string>, finished: bool, parse: string -> Payload): seq<string> {
    var lines := Split(Concat(chunks), '\n');
    if finished then LinesTexts(lines, parse) else LinesTexts(DropLast(lines), parse)
  }

  /**
   * The corrected streaming loop: the unterminated tail of each read is kept in
   * a buffer and completed by the next read, so a line split across chunks is
   * decoded as one line. When the body ends (`finished`), the remaining buffer
   * is decoded too; when reading fails, it is dropped.
   */
  method DecodeStreamBuffered(chunks: seq<string>, finished: bool, parse: string -> Payload)
    returns (content: string, emitted: seq<string>)
    ensures emitted == BufferedTexts(chunks, finished, parse)
    ensures content == Concat(emitted)
  {
    content, emitted := "", [];
    var buffer := "";
    var i := 0;
    while i < |chunks|
      invariant 0 <= i <= |chunks|
      invariant emitted == LinesTexts(DropLast(Split(Concat(chunks[..i]), '\n')), parse)
      invariant buffer == Last(Split(Concat(chunks[..i]), '\n'))
      invariant content == Concat(emitted)
    {
      ghost var sofar := Concat(chunks[..i]);
      var lines := Split(buffer + chunks[i], '\n');
      var more, texts := DecodeLines(DropLast(lines), parse);
      ConcatAppend(emitted, texts);
      BufferedStep(sofar, chunks[i], emitted, parse);
      content, emitted := content + more, emitted + texts;
      ConcatPrefixStep(chunks, i);
      buffer := Last(lines);
      i := i + 1;
    }
    assert chunks[..i] == chunks;
    if finished {
      var text := DecodeLine(buffer, parse);
      ghost var lines := Split(Concat(chunks), '\n');
      assert LinesTexts(lines, parse) == emitted + OptionToSeq(text);
      if text.Some? {
        ConcatSnoc(emitted, text.value);
        content := content + text.value;
        emitted := emitted + [text.value];
      } else {
        assert emitted + [] == emitted;
      }
    }
  }

  /** One read of the corrected loop: the complete lines grow by the complete lines of buffer + read. */
  lemma BufferedStep(sofar: string, read: string, before: seq<string>, parse: string -> Payload)
    requires before == LinesTexts(DropLast(Split(sofar, '\n')), parse)
    ensures var lines := Split(Last(Split(sofar, '\n')) + read, '\n');
            && LinesTexts(DropLast(Split(sofar + read, '\n')), parse) == before + LinesTexts(DropLast(lines), parse)
            && Last(Split(sofar + read, '\n')) == Last(lines)
  {
    var lines := Split(Last(Split(sofar, '\n')) + read, '\n');
    SplitAppend(sofar, read, '\n');
    var whole := Split(sofar + read, '\n');
    assert whole == DropLast(Split(sofar, '\n')) + lines;
    assert DropLast(whole) == DropLast(Split(sofar, '\n')) + DropLast(lines);
    LinesTextsAppend(DropLast(Split(sofar, '\n')), DropLast(lines), parse);
  }

  lemma ReadsTextsPrefixStep(chunks: seq<string>, i: nat, parse: string -> Payload)
    requires i < |chunks|
    ensures ReadsTexts(chunks[..i + 1], parse) == ReadsTexts(chunks[..i], parse) + LinesTexts(Split(chunks[i], '\n'), parse)
  {
    assert DropLast(chunks[..i + 1]) == chunks[..i];
  }

  lemma ConcatPrefixStep(chunks: seq<string>, i: nat)
    requires i < |chunks|
    ensures Concat(chunks[..i + 1]) == Concat(chunks[..i]) + chunks[i]
  {
    assert DropLast(chunks[..i + 1]) == chunks[..i];
  }

  /** The loop over the lines of one read: the callback texts of `lines`, in order, and their concatenation. */
  method DecodeLines(lines: seq<string>, parse: string -> Payload) returns (content: string, emitted: seq<string>)
    ensures emitted == LinesTexts(lines, parse)
    ensures content == Concat(emitted)
  {
    content, emitted := "", [];
    var j := 0;
    while j < |lines|
      invariant 0 <= j <= |lines|
      invariant emitted == LinesTexts(lines[..j], parse)
      invariant content == Concat(emitted)
    {
      var text := DecodeLine(lines[j], parse);
      LinesTextsPrefixStep(lines, j, parse);
      if text.Some? {
        ConcatSnoc(emitted, text.value);
        content := content + text.value;
        emitted := emitted + [text.value];
      } else {
        assert emitted + [] == emitted;
      }
      j := j + 1;
    }
    assert lines[..j] == lines;
  }

  /** The body of the loop over lines: the text handed to the callback for `line`, if any. */
  method DecodeLine(line: string, parse: string -> Payload) returns (text: Option<string>)
    ensures text == LineText(line, parse)
  {
    text := None;
    if StartsWith(line, DataPrefix) {
      var data := line[6..];
      if data != DoneSentinel {
        match parse(data) {
          case Malformed =>
          case Chunk(delta) =>
            text := Some(delta.GetOr(""));
        }
      }
    }
  }

  lemma ConcatSnoc(texts: seq<string>, text: string)
    ensures Concat(texts + [text]) == Concat(texts) + text
  {
    assert DropLast(texts + [text]) == texts;
  }

  lemma LinesTextsPrefixStep(lines: seq<string>, j: nat, parse: string -> Payload)
    requires j < |lines|
    ensures LinesTexts(lines[..j + 1], parse) == LinesTexts(lines[..j], parse) + OptionToSeq(LineText(lines[j], parse))
  {
    assert DropLast(lines[..j + 1]) == lines[..j];
  }

  /**
   * When every chunk but the last ends with a line break, no line is split
   * across reads, and the corrected decoder gives exactly what the source's does.
   */
  lemma {:induction false} LineAlignedChunksAgree(chunks: seq<string>, parse: string -> Payload)
    requires forall i :: 0 <= i < |chunks| - 1 ==> |chunks[i]| >= 1 && chunks[i][|chunks[i]| - 1] == '\n'
    ensures ReadsTexts(chunks, parse) == BufferedTexts(chunks, true, parse)
    decreases |chunks|
  {
    if chunks == [] {
      EmptyBodyTexts(parse);
    } else {
      var front := DropLast(chunks);
      LineAlignedChunksAgree(front, parse);
      if front != [] {
        assert Last(front) == chunks[|chunks| - 2];
        ConcatEndsWithLast(front);
      }
      BufferedAfterAligned(chunks, parse);
    }
  }

  /** An empty body has the single empty line, which causes no callback. */
  lemma EmptyBodyTexts(parse: string -> Payload)
    ensures LinesTexts(Split("", '\n'), parse) == []
  {
    assert Split("", '\n') == [""];
    assert DropLast([""]) == [];
  }

  /** The concatenated reads end the way the last read ends. */
  lemma ConcatEndsWithLast(texts: seq<string>)
    requires texts != [] && |Last(texts)| >= 1
    ensures var whole := Concat(texts); |whole| >= 1 && whole[|whole| - 1] == Last(texts)[|Last(texts)| - 1]
  {
  }

  /** One more read after a body that is empty or ends on a line break: the corrected decoder adds exactly the read's own lines. */
  lemma BufferedAfterAligned(chunks: seq<string>, parse: string -> Payload)
    requires chunks != []
    requires var whole := Concat(DropLast(chunks)); whole == "" || whole[|whole| - 1] == '\n'
    ensures BufferedTexts(chunks, true, parse) == BufferedTexts(DropLast(chunks), true, parse) + ChunkTexts(Last(chunks), parse)
  {
    var whole, c := Concat(DropLast(chunks)), Last(chunks);
    assert Concat(chunks) == whole + c;
    if whole == "" {
      assert whole + c == c;
      EmptyBodyTexts(parse);
    } else {
      AlignedAppendTexts(whole, c, parse);
    }
  }

  /** A body that ends on a line break, followed by one more read: the read's lines come after the body's. */
  lemma AlignedAppendTexts(whole: string, c: string, parse: string -> Payload)
    requires |whole| >= 1 && whole[|whole| - 1] == '\n'
    ensures LinesTexts(Split(whole + c, '\n'), parse) == LinesTexts(Split(whole, '\n'), parse) + ChunkTexts(c, parse)
  {
    var parts := Split(whole, '\n');
    SplitEndsWithSep(whole, '\n');
    SplitAppend(whole, c, '\n');
    assert Last(parts) + c == c;
    var tail := Split(c, '\n');
    assert Split(whole + c, '\n') == DropLast(parts) + tail;
    LinesTextsAppend(DropLast(parts), tail, parse);
    TrailingEmptyLine(parts, parse);
  }

  /** A final empty line, as after a closing line break, causes no callback. */
  lemma TrailingEmptyLine(lines: seq<string>, parse: string -> Payload)
    requires |lines| >= 1 && Last(lines) == ""
    ensures LinesTexts(lines, parse) == LinesTexts(DropLast(lines), parse)
  {
    assert OptionToSeq(LineText(Last(lines), parse)) == [];
  }

  /** A payload parser for the example below: `{}` carries the delta "4"; anything else is malformed. */
  function ExampleParse(payload: string): Payload {
    if payload == "{}" then Chunk(Some("4")) else Malformed
  }

  const ExampleChunks: seq<string> := ["data: {", "}\n"]

  /** The event `data: {}` arriving in two reads, "data: {" and "}\n": the source decodes each half as a line of its own and emits nothing. */
  lemma AsWrittenLosesSplitLine()
    ensures ReadsTexts(ExampleChunks, ExampleParse) == []
  {
    var first, second := "data: {", "}\n";
    FirstHalfEmitsNothing();
    SecondHalfEmitsNothing();
    assert ReadsTexts([first], ExampleParse) == [] by {
      assert DropLast([first]) == [];
    }
    assert DropLast([first, second]) == [first];
  }

  /** The read "data: {" is one line whose payload does not parse. */
  lemma FirstHalfEmitsNothing()
    ensures ChunkTexts("data: {", ExampleParse) == []
  {
    var first := "data: {";
    SplitGluedPrefix(first, "", '\n');
    assert first + "" == first;
    assert Split("", '\n') == [""];
    assert Split(first, '\n') == [first];
    assert LineText(first, ExampleParse).None? by {
      assert first[6..] == "{";
    }
    assert DropLast([first]) == [];
  }

  /** The read "}\n" is the line "}" and an empty line, neither of them data. */
  lemma SecondHalfEmitsNothing()
    ensures ChunkTexts("}\n", ExampleParse) == []
  {
    assert Split("", '\n') == [""];
    assert Split("\n", '\n') == ["", ""];
    SplitGluedPrefix("}", "\n", '\n');
    assert "}" + "\n" == "}\n";
    assert "}" + "" == "}";
    assert ["", ""][1..] == [""];
    assert Split("}\n", '\n') == ["}", ""];
    assert DropLast(["}", ""]) == ["}"];
    assert DropLast(["}"]) == [];
  }

  /** The same two reads through the corrected decoder: the joined line is decoded and its delta emitted. */
  lemma BufferedKeepsSplitLine()
    ensures BufferedTexts(ExampleChunks, true, ExampleParse) == ["4"]
  {
    ExampleChunksJoin();
    ExampleBodySplit();
    ExampleBodyTexts();
  }

  /** The lines "data: {}" and "" of the joined body: the first carries "4", the second nothing. */
  lemma ExampleBodyTexts()
    ensures LinesTexts(["data: {}", ""], ExampleParse) == ["4"]
  {
    assert LineText("data: {}", ExampleParse) == Some("4") by {
      assert "data: {}"[6..] == "{}";
    }
    assert LineText("", ExampleParse).None?;
    assert DropLast(["data: {}", ""]) == ["data: {}"];
    assert DropLast(["data: {}"]) == [];
    assert LinesTexts(["data: {}"], ExampleParse) == ["4"];
  }

  lemma ExampleChunksJoin()
    ensures Concat(ExampleChunks) == "data: {}\n"
  {
    var first, second := "data: {", "}\n";
    assert DropLast([first, second]) == [first];
    assert Concat([first]) == first by { assert DropLast([first]) == []; }
  }

  lemma ExampleBodySplit()
    ensures Split("data: {}\n", '\n') == ["data: {}", ""]
  {
    assert Split("", '\n') == [""];
    assert Split("\n", '\n') == ["", ""];
    SplitGluedPrefix("data: {}", "\n", '\n');
    assert "data: {}" + "\n" == "data: {}\n";
    assert "data: {}" + "" == "data: {}";
    assert ["", ""][1..] == [""];
  }

  /** How reading a streamed body stopped: it completed, or a read threw (an abort, a network failure). */
  datatype ReadEnd = Done | ReadFailed(err: Thrown)

  /**
   * Everything the network does during one call: `fetch` throws, or a response
   * arrives with its `ok` flag, its status, the `error.message` of its body
   * (read only when not ok), the chunks of its streamed body and how reading
   * ended (read only with a callback), and `choices[0].message.content` of its
   * JSON body or what reading that throws (read only without a callback).
   */
  datatype Exchange =
    | FetchFailed(err: Thrown)
    | Responded(ok: bool, status: nat, errorMessage: BodyMessage,
                chunks: seq<string>, end: ReadEnd, json: Result<string, Thrown>)

  /** Whether the call decodes a streamed body: the response is ok and a callback was given. */
  predicate Streams(exchange: Exchange, hasCallback: bool) {
    exchange.Responded? && exchange.ok && hasCallback
  }

  /** The callbacks the source makes during one call: the reads it got, each decoded by itself. */
  function StreamTrace(exchange: Exchange, hasCallback: bool, parse: string -> Payload): seq<string> {
    if Streams(exchange, hasCallback) then ReadsTexts(exchange.chunks, parse) else []
  }

  /**
   * What one call settles to, given the callbacks `emitted` it made: the
   * content, or the error it throws. Only an ok response that streamed to its
   * end, or whose JSON body was read, succeeds; a streamed success is the
   * concatenation of the callbacks; an abort is never thrown as it is.
   */
  function Outcome(exchange: Exchange, hasCallback: bool, emitted: seq<string>): (r: Result<string, Thrown>)
    ensures r.Success? <==>
              exchange.Responded? && exchange.ok && (if hasCallback then exchange.end.Done? else exchange.json.Success?)
    ensures r.Success? ==> r.value == if hasCallback then Concat(emitted) else exchange.json.value
    ensures r.Failure? ==> !IsAbortError(r.error)
    ensures exchange.FetchFailed? ==> r == Failure(MapAbort(exchange.err))
    ensures exchange.Responded? && !exchange.ok ==>
              r == Failure(JsError("Error", RemoteErrorMessage(exchange.errorMessage, exchange.status)))
    ensures Streams(exchange, hasCallback) && exchange.end.ReadFailed? ==> r == Failure(MapAbort(exchange.end.err))
    ensures exchange.Responded? && exchange.ok && !hasCallback && exchange.json.Failure? ==>
              r == Failure(MapAbort(exchange.json.error))
  {
    match exchange
    case FetchFailed(err) => Failure(MapAbort(err))
    case Responded(ok, status, errorMessage, _, end, json) =>
      if !ok then Failure(MapAbort(JsError("Error", RemoteErrorMessage(errorMessage, status))))
      else if hasCallback then
        match end
        case Done => Success(Concat(emitted))
        case ReadFailed(err) => Failure(MapAbort(err))
      else
        match json
        case Success(c) => Success(c)
        case Failure(e) => Failure(MapAbort(e))
  }

  /**
   * `sendMessage(messages, settings, signal, onStream)` as written.
   * `hasCallback` says whether `onStream` was supplied; `emitted` lists its
   * calls, made by the source's decoder DecodeStream.
   */
  method SendMessage(messages: seq<Message>, settings: ChatSettings, hasCallback: bool,
                     exchange: Exchange, parse: string -> Payload)
    returns (request: Request, result: Result<string, Thrown>, emitted: seq<string>)
    ensures request == BuildRequest(messages, settings, hasCallback)
    ensures emitted == StreamTrace(exchange, hasCallback, parse)
    ensures result == Outcome(exchange, hasCallback, emitted)
  {
    request := BuildRequest(messages, settings, hasCallback);
    emitted := [];
    match exchange
    case FetchFailed(err) =>
      result := Failure(MapAbort(err));
    case Responded(ok, status, errorMessage, chunks, end, json) =>
      if !ok {
        result := Failure(MapAbort(JsError("Error", RemoteErrorMessage(errorMessage, status))));
      } else if hasCallback {
        var content;
        content, emitted := DecodeStream(chunks, parse);
        if end.Done? {
          result := Success(content);
        } else {
          result := Failure(MapAbort(end.err));
        }
      } else {
        match json
        case Success(c) =>
          result := Success(c);
        case Failure(e) =>
          result := Failure(MapAbort(e));
      }
  }

  /**
   * The call with the corrected decoder DecodeStreamBuffered: it differs from
   * SendMessage only in the callbacks of a streamed body, which are the
   * complete lines of the whole body, and its last partial line once the body
   * has ended.
   */
  method SendMessageBuffered(messages: seq<Message>, settings: ChatSettings, hasCallback: bool,
                             exchange: Exchange, parse: string -> Payload)
    returns (request: Request, result: Result<string, Thrown>, emitted: seq<string>)
    ensures request == BuildRequest(messages, settings, hasCallback)
    ensures emitted == if Streams(exchange, hasCallback) then BufferedTexts(exchange.chunks, exchange.end.Done?, parse) else []
    ensures result == Outcome(exchange, hasCallback, emitted)
  {
    request := BuildRequest(messages, settings, hasCallback);
    emitted := [];
    if Streams(exchange, hasCallback) {
      var content;
      content, emitted := DecodeStreamBuffered(exchange.chunks, exchange.end.Done?, parse);
      if exchange.end.Done? {
        result := Success(content);
      } else {
        result := Failure(MapAbort(exchange.end.err));
      }
    } else {
      result := Outcome(exchange, hasCallback, emitted);
    }
  }
}
