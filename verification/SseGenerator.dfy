/** The server-sent-event printer: services/ai/agent/streaming.py. */
module SseGenerator {
  import opened Common
  import opened Decimal
  import opened EventStream
  import Json
  import opened JsonDumps

  // ---------------------------------------------------------------- str.splitlines and str.join

  /** The characters at which Python's `splitlines` breaks a line. */
  predicate IsBreak(c: char) {
    || '\n' <= c <= '\r' || '\U{001C}' <= c <= '\U{001E}' || c == '\U{0085}' || c == '\U{2028}' || c == '\U{2029}'
  }

  function FirstBreak(s: string): (n: nat)
    ensures n <= |s| && (n < |s| ==> IsBreak(s[n]))
  {
    if s == "" || IsBreak(s[0]) then 0 else 1 + FirstBreak(s[1..])
  }

  lemma {:induction false} UnbrokenUpToBreak(s: string)
    ensures Unbroken(s[..FirstBreak(s)])
  {
    if s != "" && !IsBreak(s[0]) {
      UnbrokenUpToBreak(s[1..]);
      assert s[..FirstBreak(s)] == [s[0]] + s[1..][..FirstBreak(s[1..])];
    }
  }

  /** The text after the first break; CRLF counts as one break. */
  function AfterBreak(s: string): (rest: string)
    requires FirstBreak(s) < |s|
    ensures |rest| < |s|
  {
    var n := FirstBreak(s);
    if s[n] == '\r' && n + 1 < |s| && s[n + 1] == '\n' then s[n + 2..] else s[n + 1..]
  }

  ghost predicate Unbroken(s: string) {
    forall c :: c in s ==> !IsBreak(c)
  }

  /** A break at the very end starts no further line. */
  function SplitLines(s: string): (lines: seq<string>)
    ensures lines == [] <==> s == ""
    decreases |s|
  {
    if s == "" then []
    else if FirstBreak(s) == |s| then [s]
    else [s[..FirstBreak(s)]] + SplitLines(AfterBreak(s))
  }

  ghost predicate AllUnbroken(lines: seq<string>) {
    forall i {:trigger Unbroken(lines[i])} :: 0 <= i < |lines| ==> Unbroken(lines[i])
  }

  lemma {:induction false} LinesAreUnbroken(s: string)
    ensures AllUnbroken(SplitLines(s))
    decreases |s|
  {
    if s != "" {
      UnbrokenUpToBreak(s);
      if FirstBreak(s) < |s| {
        LinesAreUnbroken(AfterBreak(s));
        var more := SplitLines(AfterBreak(s));
        forall i | 0 <= i < |SplitLines(s)|
          ensures Unbroken(SplitLines(s)[i])
        {
          assert i > 0 ==> Unbroken(more[i - 1]);
        }
      } else {
        assert s[..FirstBreak(s)] == s;
      }
    }
  }

  /** "\n".join(lines) */
  function JoinLF(lines: seq<string>): string {
    if lines == [] then "" else if |lines| == 1 then lines[0] else lines[0] + "\n" + JoinLF(lines[1..])
  }

  // ---------------------------------------------------------------- the dictionaries that `generate` sends

  function DoneData(streamId: string): string {
    "{\"stream_id\": " + JsonString(streamId) + ", \"status\": \"complete\"}"
  }

  function ErrorData(message: string, streamId: string): string {
    "{\"message\": " + JsonString(message) + ", \"stream_id\": " + JsonString(streamId) + "}"
  }

  lemma KeysArePrintable()
    ensures Printable("{\"stream_id\": ") && Printable(", \"status\": \"complete\"}")
    ensures Printable("{\"message\": ") && Printable(", \"stream_id\": ") && Printable("}")
  {
  }

  lemma DoneIsPrintable(streamId: string)
    ensures Printable(DoneData(streamId)) && DoneData(streamId) != ""
  {
    StringIsPrintable(streamId);
    KeysArePrintable();
    PrintableConcat("{\"stream_id\": ", JsonString(streamId));
    PrintableConcat("{\"stream_id\": " + JsonString(streamId), ", \"status\": \"complete\"}");
  }

  lemma ErrorIsPrintable(message: string, streamId: string)
    ensures Printable(ErrorData(message, streamId)) && ErrorData(message, streamId) != ""
  {
    StringIsPrintable(message);
    StringIsPrintable(streamId);
    KeysArePrintable();
    PrintableConcat("{\"message\": ", JsonString(message));
    PrintableConcat("{\"message\": " + JsonString(message), ", \"stream_id\": ");
    PrintableConcat("{\"message\": " + JsonString(message) + ", \"stream_id\": ", JsonString(streamId));
    PrintableConcat("{\"message\": " + JsonString(message) + ", \"stream_id\": " + JsonString(streamId), "}");
  }

  /** The data of the last events, read as JSON. */
  lemma DoneIsJson(streamId: string)
    ensures Json.ReadObject(DoneData(streamId)) == Some([("stream_id", streamId), ("status", "complete")])
  {
    DoneLiterals();
    TwoWithPlainAreRead("{\"stream_id\": ", streamId, ", \"status\": \"complete\"}", "stream_id", "status", "complete");
  }

  lemma DoneLiterals()
    ensures "{\"stream_id\": " == "{" + ("\"" + "stream_id" + "\": ")
    ensures ", \"status\": \"complete\"}" == ", " + ("\"" + "status" + "\": ") + ("\"" + "complete" + "\"") + "}"
  {
  }

  lemma ErrorIsJson(message: string, streamId: string)
    ensures Json.ReadObject(ErrorData(message, streamId)) == Some([("message", message), ("stream_id", streamId)])
  {
    ErrorLiterals();
    TwoAreRead("{\"message\": ", message, ", \"stream_id\": ", streamId, "message", "stream_id");
  }

  lemma ErrorLiterals()
    ensures "{\"message\": " == "{" + ("\"" + "message" + "\": ")
    ensures ", \"stream_id\": " == ", " + ("\"" + "stream_id" + "\": ")
  {
  }

  /** Printable text is a single line. */
  lemma PrintableIsOneLine(s: string)
    requires Printable(s) && s != ""
    ensures SplitLines(s) == [s]
  {
    assert FirstBreak(s) == |s| by {
      assert forall i :: 0 <= i < |s| ==> !IsBreak(s[i]);
    }
  }

  // ---------------------------------------------------------------- the printer

  function DataLine(line: string): string {
    "data: " + line
  }

  function DataLines(lines: seq<string>): seq<string> {
    if lines == [] then [] else DataLines(lines[..|lines| - 1]) + [DataLine(lines[|lines| - 1])]
  }

  function HeadLines(event: string, id: string, retry: Option<int>): seq<string> {
    (if id != "" then ["id: " + id] else [])
    + (if retry.Some? then ["retry: " + OfInt(retry.value)] else [])
    + ["event: " + event]
  }

  /** The lines of one event before the two empty strings that close it. */
  function FieldLines(event: string, data: string, id: string, retry: Option<int>): seq<string> {
    HeadLines(event, id, retry) + DataLines(SplitLines(data))
  }

  function EventText(event: string, data: string, id: string, retry: Option<int>): string {
    JoinLF(FieldLines(event, data, id, retry) + ["", ""])
  }

  /** `_sse_event`. */
  method SseEvent(event: string, data: string, id: string, retry: Option<int>) returns (text: string)
    ensures text == EventText(event, data, id, retry)
  {
    var lines: seq<string> := [];
    if id != "" {
      lines := lines + ["id: " + id];
    }
    if retry.Some? {
      lines := lines + ["retry: " + OfInt(retry.value)];
    }
    lines := lines + ["event: " + event];
    assert lines == HeadLines(event, id, retry);
    lines := AppendData(lines, data);
    lines := lines + [""];
    lines := lines + [""];
    assert lines == FieldLines(event, data, id, retry) + ["", ""];
    text := JoinLF(lines);
  }

  lemma DataLinesStep(parts: seq<string>, i: nat)
    requires i < |parts|
    ensures DataLines(parts[..i + 1]) == DataLines(parts[..i]) + [DataLine(parts[i])]
  {
    assert parts[..i + 1][..i] == parts[..i];
  }

  /** The data loop of `_sse_event`. */
  method AppendData(before: seq<string>, data: string) returns (lines: seq<string>)
    ensures lines == before + DataLines(SplitLines(data))
  {
    lines := before;
    var parts := SplitLines(data);
    for i := 0 to |parts|
      invariant lines == before + DataLines(parts[..i])
    {
      DataLinesStep(parts, i);
      ConcatAssociates(before, DataLines(parts[..i]), [DataLine(parts[i])]);
      lines := lines + [DataLine(parts[i])];
    }
    assert parts[..|parts|] == parts;
  }

  function EventId(streamId: string, n: nat): string {
    streamId + "-" + OfInt(n)
  }

  /** The identifier is the stream's, a dash, and a text that reads as the number n. */
  ghost predicate NumberedAs(id: string, streamId: string, n: int) {
    && |id| > |streamId| && id[..|streamId|] == streamId && id[|streamId|] == '-'
    && ParseInt(id[|streamId| + 1..]) == Some(n)
  }

  lemma EventIdIsNumbered(streamId: string, n: nat)
    ensures NumberedAs(EventId(streamId, n), streamId, n)
  {
    OfIntParses(n);
    assert EventId(streamId, n)[|streamId| + 1..] == OfInt(n);
  }

  function TokenText(streamId: string, retryMs: int, n: nat, chunk: string): string {
    EventText("token", chunk, EventId(streamId, n), Some(retryMs))
  }

  function ErrorText(streamId: string, n: nat, message: string): string {
    EventText("error", ErrorData(message, streamId), EventId(streamId, n), None)
  }

  function DoneText(streamId: string, n: nat): string {
    EventText("done", DoneData(streamId), EventId(streamId, n), None)
  }

  /** The tokens of `chunks`, numbered from n + 1. */
  function TokenTexts(streamId: string, retryMs: int, n: nat, chunks: seq<string>): seq<string> {
    if chunks == [] then []
    else
      var k := |chunks| - 1;
      TokenTexts(streamId, retryMs, n, chunks[..k]) + [TokenText(streamId, retryMs, n + k + 1, chunks[k])]
  }

  function EndTexts(streamId: string, n: nat, failure: Option<string>): seq<string> {
    if failure.Some? then [ErrorText(streamId, n + 1, failure.value)] + [DoneText(streamId, n + 2)]
    else [DoneText(streamId, n + 1)]
  }

  class SSEStreamGenerator {
    const streamId: string
    const retryMs: int
    var eventCounter: nat

    constructor (streamId: string, retryMs: int)
      ensures this.streamId == streamId && this.retryMs == retryMs && eventCounter == 0
    {
      this.streamId := streamId;
      this.retryMs := retryMs;
      eventCounter := 0;
    }

    method NextId() returns (id: string)
      modifies this
      ensures eventCounter == old(eventCounter) + 1 && id == EventId(streamId, eventCounter)
      ensures NumberedAs(id, streamId, eventCounter)
    {
      EventIdIsNumbered(streamId, eventCounter + 1);
      eventCounter := eventCounter + 1;
      id := streamId + "-" + OfInt(eventCounter);
    }

    /** `generate` over an iterator that yields `chunks` and then ends, or raises with message `failure`. */
    method Generate(chunks: seq<string>, failure: Option<string>) returns (texts: seq<string>)
      modifies this
      ensures texts == TokenTexts(streamId, retryMs, old(eventCounter), chunks)
                       + EndTexts(streamId, old(eventCounter) + |chunks|, failure)
    {
      texts := YieldTokens(chunks);
      var ends := YieldEnd(failure);
      texts := texts + ends;
    }

    /** The handler of an exception, if there is one, and the final event. */
    method YieldEnd(failure: Option<string>) returns (texts: seq<string>)
      modifies this
      ensures texts == EndTexts(streamId, old(eventCounter), failure)
    {
      if failure.Some? {
        var error := YieldError(failure.value);
        var done := YieldDone();
        texts := [error] + [done];
      } else {
        var done := YieldDone();
        texts := [done];
      }
    }

    method YieldError(message: string) returns (text: string)
      modifies this
      ensures eventCounter == old(eventCounter) + 1 && text == ErrorText(streamId, eventCounter, message)
    {
      var id := NextId();
      text := SseEvent("error", ErrorData(message, streamId), id, None);
    }

    method YieldDone() returns (text: string)
      modifies this
      ensures eventCounter == old(eventCounter) + 1 && text == DoneText(streamId, eventCounter)
    {
      var id := NextId();
      text := SseEvent("done", DoneData(streamId), id, None);
    }

    method YieldTokens(chunks: seq<string>) returns (texts: seq<string>)
      modifies this
      ensures eventCounter == old(eventCounter) + |chunks|
      ensures texts == TokenTexts(streamId, retryMs, old(eventCounter), chunks)
    {
      texts := [];
      for i := 0 to |chunks|
        invariant eventCounter == old(eventCounter) + i
        invariant texts == TokenTexts(streamId, retryMs, old(eventCounter), chunks[..i])
      {
        var id := NextId();
        var text := SseEvent("token", chunks[i], id, Some(retryMs));
        assert chunks[..i + 1][..i] == chunks[..i];
        texts := texts + [text];
      }
      assert chunks[..|chunks|] == chunks;
    }
  }

  // ---------------------------------------------------------------- reading one event back

  lemma {:induction false} JoinedIsTerminated(lines: seq<string>)
    requires lines != []
    ensures JoinLF(lines + [""]) == Terminated(lines)
  {
    var all := lines + [""];
    assert all[1..] == lines[1..] + [""];
    if |lines| > 1 {
      JoinedIsTerminated(lines[1..]);
    } else {
      assert JoinLF(all[1..]) == "";
      assert Terminated(lines[1..]) == "";
    }
  }

  lemma LineRead(b: Buffers, name: string, value: string)
    requires name != "" && ':' !in name
    ensures ProcessLines(b, [name + ": " + value]) == ([], ProcessField(b, name, value))
  {
    FieldLine(b, name, value);
    ProcessOneLine(b, name + ": " + value);
  }

  lemma ReadOn(b: Buffers, xs: seq<string>, b1: Buffers, ys: seq<string>, b2: Buffers)
    requires ProcessLines(b, xs) == ([], b1) && ProcessLines(b1, ys) == ([], b2)
    ensures ProcessLines(b, xs + ys) == ([], b2)
  {
    ProcessLinesAppend(b, xs, ys);
  }

  lemma DataLineRead(b: Buffers, line: string)
    ensures ProcessLines(b, [DataLine(line)]) == ([], b.(data := b.data + line + "\n"))
  {
    LineRead(b, "data", line);
    assert "data" + ": " == "data: ";
  }

  lemma {:induction false} DataLinesRead(b: Buffers, lines: seq<string>)
    ensures ProcessLines(b, DataLines(lines)) == ([], b.(data := b.data + Terminated(lines)))
  {
    if lines == [] {
      assert b.data + "" == b.data;
    } else {
      var front, last := lines[..|lines| - 1], lines[|lines| - 1];
      var b1 := b.(data := b.data + Terminated(front));
      DataLinesRead(b, front);
      DataLineRead(b1, last);
      assert front + [last] == lines;
      var b2 := b.(data := b.data + Terminated(lines));
      DataGrows(b.data, front, last);
      ReadOn(b, DataLines(front), b1, [DataLine(last)], b2);
    }
  }

  lemma DataGrows(data: string, front: seq<string>, last: string)
    ensures data + Terminated(front + [last]) == data + Terminated(front) + last + "\n"
  {
    TerminatedAppend(front, last);
    ConcatAssociates(data, Terminated(front), last + "\n");
    ConcatAssociates(data + Terminated(front), last, "\n");
  }

  lemma {:induction false} TerminatedAppend(lines: seq<string>, last: string)
    ensures Terminated(lines + [last]) == Terminated(lines) + (last + "\n")
  {
    if lines != [] {
      assert (lines + [last])[1..] == lines[1..] + [last];
      TerminatedAppend(lines[1..], last);
    }
  }

  lemma {:induction false} TerminatedIsJoined(lines: seq<string>)
    requires lines != []
    ensures Terminated(lines) == JoinLF(lines) + "\n"
  {
    if |lines| > 1 {
      TerminatedIsJoined(lines[1..]);
      assert lines[0] + "\n" + (JoinLF(lines[1..]) + "\n") == lines[0] + "\n" + JoinLF(lines[1..]) + "\n";
    } else {
      assert Terminated(lines[1..]) == "";
    }
  }

  function Reconnection(retry: Option<int>, before: Option<nat>): Option<nat> {
    if retry.Some? && retry.value >= 0 then Some(retry.value) else before
  }

  lemma RetryRead(b: Buffers, retry: int)
    ensures ProcessField(b, "retry", OfInt(retry)) == b.(reconnection := Reconnection(Some(retry), b.reconnection))
  {
    if retry >= 0 {
      OfNatParses(retry);
    } else {
      assert !IsDigit(OfInt(retry)[0]);
    }
  }

  lemma HeadRead(b: Buffers, event: string, id: string, retry: Option<int>)
    requires id != "" && NUL !in id
    ensures ProcessLines(b, HeadLines(event, id, retry)) ==
              ([], b.(lastId := id, kind := event, reconnection := Reconnection(retry, b.reconnection)))
  {
    var b1 := b.(lastId := id);
    var b2 := b1.(reconnection := Reconnection(retry, b.reconnection));
    var b3 := b2.(kind := event);
    var first := ["id: " + id];
    var second := if retry.Some? then ["retry: " + OfInt(retry.value)] else [];
    LineRead(b, "id", id);
    assert "id" + ": " == "id: " && "retry" + ": " == "retry: " && "event" + ": " == "event: ";
    assert ProcessField(b, "id", id) == b1;
    if retry.Some? {
      LineRead(b1, "retry", OfInt(retry.value));
      RetryRead(b1, retry.value);
    }
    ReadOn(b, first, b1, second, b2);
    LineRead(b2, "event", event);
    assert ProcessField(b2, "event", event) == b3;
    ReadOn(b, first + second, b2, ["event: " + event], b3);
    assert HeadLines(event, id, retry) == first + second + ["event: " + event];
  }

  /** The lines of an event fill the buffers with its fields. */
  lemma FieldsRead(b: Buffers, event: string, data: string, id: string, retry: Option<int>)
    requires id != "" && NUL !in id && b.data == ""
    ensures ProcessLines(b, FieldLines(event, data, id, retry)) ==
              ([], Buffers(Terminated(SplitLines(data)), event, id, Reconnection(retry, b.reconnection)))
  {
    HeadRead(b, event, id, retry);
    var b' := b.(lastId := id, kind := event, reconnection := Reconnection(retry, b.reconnection));
    DataLinesRead(b', SplitLines(data));
    ProcessLinesAppend(b, HeadLines(event, id, retry), DataLines(SplitLines(data)));
    assert "" + Terminated(SplitLines(data)) == Terminated(SplitLines(data));
  }

  /** What the blank line dispatches: nothing for empty data, else the data with every line break as LF. */
  function ReadEvent(event: string, data: string, id: string): seq<Event> {
    if data == "" then [] else [Event(event, JoinLF(SplitLines(data)), id)]
  }

  lemma BlankLineDispatches(event: string, data: string, id: string, reconnection: Option<nat>)
    requires event != ""
    ensures ProcessLines(Buffers(Terminated(SplitLines(data)), event, id, reconnection), [""]) ==
              (ReadEvent(event, data, id), Buffers("", "", id, reconnection))
  {
    var b := Buffers(Terminated(SplitLines(data)), event, id, reconnection);
    if data != "" {
      TerminatedIsJoined(SplitLines(data));
      var joined := JoinLF(SplitLines(data));
      assert b.data[..|b.data| - 1] == joined && b.data[|b.data| - 1] == '\n';
    }
    ProcessOneLine(b, "");
  }

  lemma HeadLinesAreLines(event: string, id: string, retry: Option<int>)
    requires OneLine(event) && OneLine(id)
    ensures AllOneLine(HeadLines(event, id, retry))
  {
    if retry.Some? {
      OfIntIsLine(retry.value);
      assert OneLine("retry: " + OfInt(retry.value));
    }
    assert OneLine("id: " + id);
    assert OneLine("event: " + event);
  }

  lemma FieldLinesAreLines(event: string, data: string, id: string, retry: Option<int>)
    requires OneLine(event) && OneLine(id)
    ensures AllOneLine(FieldLines(event, data, id, retry) + [""])
  {
    HeadLinesAreLines(event, id, retry);
    LinesAreUnbroken(data);
    DataLinesAreLines(SplitLines(data));
    AllOneLineParts(HeadLines(event, id, retry), DataLines(SplitLines(data)));
    AllOneLineParts(FieldLines(event, data, id, retry), [""]);
  }

  lemma OfIntIsLine(n: int)
    ensures OneLine(OfInt(n)) && NUL !in OfInt(n)
  {
    OfIntParses(n);
    assert forall i :: 0 <= i < |OfInt(n)| ==> OfInt(n)[i] in OfInt(n);
  }

  lemma {:induction false} DataLinesAreLines(lines: seq<string>)
    requires AllUnbroken(lines)
    ensures AllOneLine(DataLines(lines))
  {
    if lines != [] {
      var front, last := lines[..|lines| - 1], lines[|lines| - 1];
      forall i | 0 <= i < |front|
        ensures Unbroken(front[i])
      {
        assert Unbroken(lines[i]);
      }
      DataLinesAreLines(front);
      assert Unbroken(lines[|lines| - 1]);
      forall i | 0 <= i < |DataLine(last)|
        ensures !IsEol(DataLine(last)[i])
      {
        assert i >= 6 ==> DataLine(last)[i] in last;
      }
    }
  }

  /** One printed event is read as itself and leaves its identifier behind. */
  lemma EventRead(b: Buffers, event: string, data: string, id: string, retry: Option<int>, rest: string)
    requires b.data == "" && event != "" && OneLine(event) && id != "" && CleanId(id)
    ensures Interpret(b, EventText(event, data, id, retry) + rest) ==
              ReadEvent(event, data, id) + Interpret(Buffers("", "", id, Reconnection(retry, b.reconnection)), rest)
  {
    var fields := FieldLines(event, data, id, retry);
    var lines := fields + [""];
    assert fields + ["", ""] == lines + [""];
    JoinedIsTerminated(lines);
    FieldLinesAreLines(event, data, id, retry);
    InterpretLines(b, lines, rest);
    FieldsRead(b, event, data, id, retry);
    BlankLineDispatches(event, data, id, Reconnection(retry, b.reconnection));
    ProcessLinesAppend(b, fields, [""]);
    assert [] + ReadEvent(event, data, id) == ReadEvent(event, data, id);
  }
}
