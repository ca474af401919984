/** What a client that follows the event-stream standard reads from the streams of services/ai/agent/streaming.py. */
module SseRoundTrip {
  import opened Common
  import opened EventStream
  import opened SseGenerator
  import opened JsonDumps
  import Json

  function Concat(texts: seq<string>): string {
    if texts == [] then "" else texts[0] + Concat(texts[1..])
  }

  lemma {:induction false} ConcatAppend(xs: seq<string>, ys: seq<string>)
    ensures Concat(xs + ys) == Concat(xs) + Concat(ys)
  {
    if xs == [] {
      assert xs + ys == ys;
    } else {
      assert (xs + ys)[1..] == xs[1..] + ys;
      ConcatAppend(xs[1..], ys);
      assert xs[0] + (Concat(xs[1..]) + Concat(ys)) == xs[0] + Concat(xs[1..]) + Concat(ys);
    }
  }

  lemma ConcatOne(x: string)
    ensures Concat([x]) == x
  {
    assert Concat([x][1..]) == "";
  }

  // ---------------------------------------------------------------- chunks that survive

  /** Non-empty, with LF as the only line break and not at the end. */
  ghost predicate Survives(chunk: string) {
    && chunk != ""
    && (forall c :: c in chunk && IsBreak(c) ==> c == '\n')
    && chunk[|chunk| - 1] != '\n'
  }

  lemma JoinedFromFirstBreak(s: string)
    requires FirstBreak(s) < |s|
    ensures JoinLF(SplitLines(s)) ==
              if AfterBreak(s) == "" then s[..FirstBreak(s)]
              else s[..FirstBreak(s)] + "\n" + JoinLF(SplitLines(AfterBreak(s)))
  {
    var first, more := s[..FirstBreak(s)], SplitLines(AfterBreak(s));
    assert SplitLines(s) == [first] + more;
    assert ([first] + more)[1..] == more;
  }

  lemma SuffixSurvives(chunk: string, k: nat)
    requires Survives(chunk) && k < |chunk|
    ensures Survives(chunk[k..])
  {
    assert forall c :: c in chunk[k..] ==> c in chunk;
  }

  lemma RestSurvives(chunk: string)
    requires Survives(chunk) && FirstBreak(chunk) < |chunk|
    ensures Survives(AfterBreak(chunk))
    ensures AfterBreak(chunk) == chunk[FirstBreak(chunk) + 1..] && chunk[FirstBreak(chunk)] == '\n'
  {
    var n := FirstBreak(chunk);
    assert chunk[n] in chunk;
    SuffixSurvives(chunk, n + 1);
  }

  lemma CutAtLF(s: string, n: nat)
    requires n < |s| && s[n] == '\n'
    ensures s == s[..n] + "\n" + s[n + 1..]
  {
  }

  lemma {:induction false} SurvivorsAreRejoined(chunk: string)
    requires Survives(chunk)
    ensures JoinLF(SplitLines(chunk)) == chunk
    decreases |chunk|
  {
    var n := FirstBreak(chunk);
    if n < |chunk| {
      var rest := AfterBreak(chunk);
      RestSurvives(chunk);
      SurvivorsAreRejoined(rest);
      JoinedFromFirstBreak(chunk);
      CutAtLF(chunk, n);
    } else {
      assert SplitLines(chunk) == [chunk];
    }
  }

  lemma {:induction false} JoinBreaksOnlyAtLF(lines: seq<string>)
    requires AllUnbroken(lines)
    ensures forall c :: c in JoinLF(lines) && IsBreak(c) ==> c == '\n'
  {
    if lines != [] {
      assert Unbroken(lines[0]);
    }
    if |lines| > 1 {
      var more := lines[1..];
      forall i | 0 <= i < |more|
        ensures Unbroken(more[i])
      {
        assert Unbroken(lines[i + 1]);
      }
      JoinBreaksOnlyAtLF(more);
      forall c | c in JoinLF(lines) && IsBreak(c)
        ensures c == '\n'
      {
        assert c in lines[0] || c in "\n" || c in JoinLF(more);
      }
    }
  }

  lemma RestIsShorter(chunk: string)
    requires FirstBreak(chunk) < |chunk|
    ensures |AfterBreak(chunk)| <= |chunk| - FirstBreak(chunk) - 1
    ensures AfterBreak(chunk) != "" ==> AfterBreak(chunk)[|AfterBreak(chunk)| - 1] == chunk[|chunk| - 1]
  {
  }

  lemma {:induction false} JoinIsNoLonger(chunk: string)
    ensures |JoinLF(SplitLines(chunk))| <= |chunk|
    ensures chunk != "" && IsBreak(chunk[|chunk| - 1]) ==> |JoinLF(SplitLines(chunk))| < |chunk|
    decreases |chunk|
  {
    if FirstBreak(chunk) < |chunk| {
      JoinedLength(chunk);
      RestIsShorter(chunk);
      JoinIsNoLonger(AfterBreak(chunk));
    } else if chunk != "" {
      WithoutBreak(chunk);
    }
  }

  lemma JoinedLength(chunk: string)
    requires FirstBreak(chunk) < |chunk|
    ensures |JoinLF(SplitLines(chunk))| ==
              FirstBreak(chunk) + if AfterBreak(chunk) == "" then 0 else 1 + |JoinLF(SplitLines(AfterBreak(chunk)))|
  {
    JoinedFromFirstBreak(chunk);
  }

  lemma WithoutBreak(chunk: string)
    requires chunk != "" && FirstBreak(chunk) == |chunk|
    ensures JoinLF(SplitLines(chunk)) == chunk && !IsBreak(chunk[|chunk| - 1])
  {
    UnbrokenUpToBreak(chunk);
    assert chunk[..|chunk|] == chunk;
    assert chunk[|chunk| - 1] in chunk;
  }

  /** A non-empty chunk is read as itself exactly when it survives. */
  lemma RejoinedIsSurvivor(chunk: string)
    requires chunk != ""
    ensures JoinLF(SplitLines(chunk)) == chunk <==> Survives(chunk)
  {
    if Survives(chunk) {
      SurvivorsAreRejoined(chunk);
    }
    if JoinLF(SplitLines(chunk)) == chunk {
      LinesAreUnbroken(chunk);
      JoinBreaksOnlyAtLF(SplitLines(chunk));
      JoinIsNoLonger(chunk);
    }
  }

  // ---------------------------------------------------------------- the whole stream

  /** What is read for the tokens: empty chunks are lost and line breaks become LF. */
  function TokensRead(streamId: string, n: nat, chunks: seq<string>): seq<Event> {
    if chunks == [] then []
    else
      var k := |chunks| - 1;
      TokensRead(streamId, n, chunks[..k]) + ReadEvent("token", chunks[k], EventId(streamId, n + k + 1))
  }

  /** What the printer means: one event per chunk, numbered consecutively. */
  function TokensMeant(streamId: string, n: nat, chunks: seq<string>): seq<Event> {
    seq(|chunks|, i requires 0 <= i < |chunks| => Event("token", chunks[i], EventId(streamId, n + i + 1)))
  }

  function EndMeant(streamId: string, n: nat, failure: Option<string>): seq<Event> {
    if failure.Some? then
      [Event("error", ErrorData(failure.value, streamId), EventId(streamId, n + 1)),
       Event("done", DoneData(streamId), EventId(streamId, n + 2))]
    else
      [Event("done", DoneData(streamId), EventId(streamId, n + 1))]
  }

  lemma EventIdIsClean(streamId: string, n: nat)
    ensures CleanId(EventId(streamId, n)) <==> CleanId(streamId)
    ensures EventId(streamId, n) != ""
  {
    OfIntIsLine(n);
    var id := EventId(streamId, n);
    if CleanId(id) {
      assert forall i :: 0 <= i < |streamId| ==> streamId[i] == id[i];
    }
  }

  ghost function After(b: Buffers, streamId: string, retryMs: int, n: nat, count: nat): (r: Buffers)
    ensures b.data == "" ==> r.data == ""
  {
    if count == 0 then b
    else Buffers("", "", EventId(streamId, n + count), Reconnection(Some(retryMs), b.reconnection))
  }

  lemma AfterOneMore(b: Buffers, streamId: string, retryMs: int, n: nat, k: nat)
    ensures After(b, streamId, retryMs, n, k + 1) ==
              Buffers("", "", EventId(streamId, n + k + 1),
                      Reconnection(Some(retryMs), After(b, streamId, retryMs, n, k).reconnection))
  {
  }

  /** After the tokens the client waits the time they asked for before it reconnects. */
  lemma RetryIsRemembered(b: Buffers, streamId: string, retryMs: int, n: nat, count: nat)
    requires retryMs >= 0 && count > 0
    ensures After(b, streamId, retryMs, n, count).reconnection == Some(retryMs)
  {
  }

  lemma TokenIsRead(b: Buffers, streamId: string, retryMs: int, m: nat, chunk: string, rest: string)
    requires b.data == "" && CleanId(streamId)
    ensures Interpret(b, TokenText(streamId, retryMs, m, chunk) + rest) ==
              ReadEvent("token", chunk, EventId(streamId, m))
              + Interpret(Buffers("", "", EventId(streamId, m), Reconnection(Some(retryMs), b.reconnection)), rest)
  {
    EventIdIsClean(streamId, m);
    EventRead(b, "token", chunk, EventId(streamId, m), Some(retryMs), rest);
  }

  lemma LastThenRest(before: seq<string>, last: string, rest: string)
    ensures Concat(before + [last]) + rest == Concat(before) + (last + rest)
  {
    ConcatAppend(before, [last]);
    ConcatOne(last);
    ConcatAssociates(Concat(before), last, rest);
  }

  lemma {:induction false} TokensAreRead(b: Buffers, streamId: string, retryMs: int, n: nat, chunks: seq<string>,
                                         rest: string)
    requires b.data == "" && CleanId(streamId)
    ensures Interpret(b, Concat(TokenTexts(streamId, retryMs, n, chunks)) + rest) ==
              TokensRead(streamId, n, chunks) + Interpret(After(b, streamId, retryMs, n, |chunks|), rest)
    decreases |chunks|
  {
    if chunks == [] {
      assert "" + rest == rest;
    } else {
      var k := |chunks| - 1;
      var front, last := chunks[..k], TokenText(streamId, retryMs, n + k + 1, chunks[k]);
      var b' := After(b, streamId, retryMs, n, k);
      LastThenRest(TokenTexts(streamId, retryMs, n, front), last, rest);
      TokensAreRead(b, streamId, retryMs, n, front, last + rest);
      TokenIsRead(b', streamId, retryMs, n + k + 1, chunks[k], rest);
      AfterOneMore(b, streamId, retryMs, n, k);
      ConcatAssociates(TokensRead(streamId, n, front), ReadEvent("token", chunks[k], EventId(streamId, n + k + 1)),
                       Interpret(After(b, streamId, retryMs, n, k + 1), rest));
    }
  }

  lemma DoneIsRead(b: Buffers, streamId: string, m: nat)
    requires b.data == "" && CleanId(streamId)
    ensures Interpret(b, DoneText(streamId, m)) == [Event("done", DoneData(streamId), EventId(streamId, m))]
  {
    EventIdIsClean(streamId, m);
    DoneIsPrintable(streamId);
    PrintableIsOneLine(DoneData(streamId));
    assert DoneText(streamId, m) + "" == DoneText(streamId, m);
    EventRead(b, "done", DoneData(streamId), EventId(streamId, m), None, "");
  }

  lemma ErrorIsRead(b: Buffers, streamId: string, m: nat, message: string, rest: string)
    requires b.data == "" && CleanId(streamId)
    ensures Interpret(b, ErrorText(streamId, m, message) + rest) ==
              [Event("error", ErrorData(message, streamId), EventId(streamId, m))]
              + Interpret(Buffers("", "", EventId(streamId, m), b.reconnection), rest)
  {
    EventIdIsClean(streamId, m);
    ErrorIsPrintable(message, streamId);
    PrintableIsOneLine(ErrorData(message, streamId));
    EventRead(b, "error", ErrorData(message, streamId), EventId(streamId, m), None, rest);
  }

  lemma EndIsRead(b: Buffers, streamId: string, n: nat, failure: Option<string>)
    requires b.data == "" && CleanId(streamId)
    ensures Interpret(b, Concat(EndTexts(streamId, n, failure))) == EndMeant(streamId, n, failure)
  {
    if failure.Some? {
      var error, done := ErrorText(streamId, n + 1, failure.value), DoneText(streamId, n + 2);
      assert EndTexts(streamId, n, failure) == [error] + [done];
      ConcatAppend([error], [done]);
      ConcatOne(error);
      ConcatOne(done);
      ErrorIsRead(b, streamId, n + 1, failure.value, done);
      DoneIsRead(Buffers("", "", EventId(streamId, n + 1), b.reconnection), streamId, n + 2);
    } else {
      ConcatOne(DoneText(streamId, n + 1));
      DoneIsRead(b, streamId, n + 1);
    }
  }

  /** The texts that `generate` yields from counter n on. */
  function StreamTexts(streamId: string, retryMs: int, n: nat, chunks: seq<string>, failure: Option<string>)
    : seq<string>
  {
    TokenTexts(streamId, retryMs, n, chunks) + EndTexts(streamId, n + |chunks|, failure)
  }

  lemma TokensThenEnd(streamId: string, retryMs: int, n: nat, chunks: seq<string>, failure: Option<string>)
    ensures Concat(StreamTexts(streamId, retryMs, n, chunks, failure)) ==
              Concat(TokenTexts(streamId, retryMs, n, chunks)) + Concat(EndTexts(streamId, n + |chunks|, failure))
  {
    ConcatAppend(TokenTexts(streamId, retryMs, n, chunks), EndTexts(streamId, n + |chunks|, failure));
  }

  lemma PartsAreRead(b: Buffers, streamId: string, retryMs: int, n: nat, chunks: seq<string>, failure: Option<string>)
    requires b.data == "" && CleanId(streamId)
    ensures Interpret(b, Concat(TokenTexts(streamId, retryMs, n, chunks))
                         + Concat(EndTexts(streamId, n + |chunks|, failure))) ==
              TokensRead(streamId, n, chunks) + EndMeant(streamId, n + |chunks|, failure)
  {
    TokensAreRead(b, streamId, retryMs, n, chunks, Concat(EndTexts(streamId, n + |chunks|, failure)));
    EndIsRead(After(b, streamId, retryMs, n, |chunks|), streamId, n + |chunks|, failure);
  }

  lemma StreamIsRead(streamId: string, retryMs: int, n: nat, chunks: seq<string>, failure: Option<string>)
    requires CleanId(streamId)
    ensures Interpret(START, Concat(StreamTexts(streamId, retryMs, n, chunks, failure))) ==
              TokensRead(streamId, n, chunks) + EndMeant(streamId, n + |chunks|, failure)
  {
    TokensThenEnd(streamId, retryMs, n, chunks, failure);
    PartsAreRead(START, streamId, retryMs, n, chunks, failure);
  }

  ghost predicate AllSurvive(chunks: seq<string>) {
    forall i {:trigger Survives(chunks[i])} :: 0 <= i < |chunks| ==> Survives(chunks[i])
  }

  lemma AllSurviveLast(front: seq<string>, last: string)
    ensures AllSurvive(front + [last]) <==> AllSurvive(front) && Survives(last)
  {
    var all := front + [last];
    if AllSurvive(all) {
      assert Survives(all[|front|]);
      forall i | 0 <= i < |front|
        ensures Survives(front[i])
      {
        assert Survives(all[i]);
      }
    }
  }

  ghost predicate ReadAsMeant(streamId: string, n: nat, chunks: seq<string>) {
    && |TokensRead(streamId, n, chunks)| <= |chunks|
    && (TokensRead(streamId, n, chunks) == TokensMeant(streamId, n, chunks) <==> AllSurvive(chunks))
  }

  lemma {:induction false} TokensReadAreMeant(streamId: string, n: nat, chunks: seq<string>)
    ensures ReadAsMeant(streamId, n, chunks)
    decreases |chunks|
  {
    if chunks == [] {
      NoTokensRead(streamId, n);
    } else {
      var front, last := chunks[..|chunks| - 1], chunks[|chunks| - 1];
      assert chunks == front + [last];
      TokensReadAreMeant(streamId, n, front);
      OneTokenMore(streamId, n, front, last);
    }
  }

  lemma NoTokensRead(streamId: string, n: nat)
    ensures ReadAsMeant(streamId, n, [])
  {
    assert TokensMeant(streamId, n, []) == [];
  }

  lemma OneTokenMore(streamId: string, n: nat, front: seq<string>, last: string)
    requires ReadAsMeant(streamId, n, front)
    ensures ReadAsMeant(streamId, n, front + [last])
  {
    AllSurviveLast(front, last);
    TokensMeantAppend(streamId, n, front, last);
    TokensReadAppend(streamId, n, front, last);
    LastTokenDecides(TokensRead(streamId, n, front), TokensMeant(streamId, n, front), last,
                     EventId(streamId, n + |front| + 1));
  }

  lemma TokensMeantAppend(streamId: string, n: nat, front: seq<string>, last: string)
    ensures TokensMeant(streamId, n, front + [last]) ==
              TokensMeant(streamId, n, front) + [Event("token", last, EventId(streamId, n + |front| + 1))]
  {
  }

  lemma TokensReadAppend(streamId: string, n: nat, front: seq<string>, last: string)
    ensures TokensRead(streamId, n, front + [last]) ==
              TokensRead(streamId, n, front) + ReadEvent("token", last, EventId(streamId, n + |front| + 1))
  {
    assert (front + [last])[..|front|] == front;
  }

  lemma LastTokenDecides(read: seq<Event>, meant: seq<Event>, last: string, id: string)
    requires |read| <= |meant|
    ensures read + ReadEvent("token", last, id) == meant + [Event("token", last, id)] <==>
              read == meant && Survives(last)
    ensures |ReadEvent("token", last, id)| <= 1
  {
    if last != "" {
      RejoinedIsSurvivor(last);
      LastDecides(read, Event("token", JoinLF(SplitLines(last)), id), meant, Event("token", last, id));
    } else {
      assert |read + ReadEvent("token", last, id)| < |meant + [Event("token", last, id)]|;
    }
  }

  lemma LastDecides(xs: seq<Event>, x: Event, ys: seq<Event>, y: Event)
    ensures xs + [x] == ys + [y] <==> xs == ys && x == y
  {
    if xs + [x] == ys + [y] {
      assert |xs| == |ys|;
      assert (xs + [x])[|xs|] == x && (ys + [y])[|ys|] == y;
      assert (xs + [x])[..|xs|] == xs && (ys + [y])[..|ys|] == ys;
    }
  }

  ghost predicate StartsPlainly(text: string) {
    text != "" && text[0] == 'i'
  }

  ghost predicate AllStartPlainly(texts: seq<string>) {
    forall i {:trigger StartsPlainly(texts[i])} :: 0 <= i < |texts| ==> StartsPlainly(texts[i])
  }

  lemma StartsWithId(texts: seq<string>)
    requires AllStartPlainly(texts)
    ensures Parse(Concat(texts)) == Interpret(START, Concat(texts))
  {
    if texts != [] {
      assert StartsPlainly(texts[0]);
    }
  }

  lemma EventTextStart(event: string, data: string, id: string, retry: Option<int>)
    requires id != ""
    ensures StartsPlainly(EventText(event, data, id, retry))
  {
    var lines := FieldLines(event, data, id, retry) + ["", ""];
    assert lines[0] == "id: " + id;
  }

  lemma AllStartAppend(xs: seq<string>, ys: seq<string>)
    requires AllStartPlainly(xs) && AllStartPlainly(ys)
    ensures AllStartPlainly(xs + ys)
  {
    var all := xs + ys;
    forall i | 0 <= i < |all|
      ensures StartsPlainly(all[i])
    {
      assert if i < |xs| then StartsPlainly(xs[i]) else StartsPlainly(ys[i - |xs|]);
    }
  }

  lemma {:induction false} TokenTextsStart(streamId: string, retryMs: int, n: nat, chunks: seq<string>)
    ensures AllStartPlainly(TokenTexts(streamId, retryMs, n, chunks))
    decreases |chunks|
  {
    if chunks != [] {
      var k := |chunks| - 1;
      TokenTextsStart(streamId, retryMs, n, chunks[..k]);
      EventIdIsClean(streamId, n + k + 1);
      EventTextStart("token", chunks[k], EventId(streamId, n + k + 1), Some(retryMs));
      AllStartAppend(TokenTexts(streamId, retryMs, n, chunks[..k]),
                     [TokenText(streamId, retryMs, n + k + 1, chunks[k])]);
    }
  }

  lemma DoneTextStarts(streamId: string, n: nat)
    ensures StartsPlainly(DoneText(streamId, n))
  {
    EventTextStart("done", DoneData(streamId), EventId(streamId, n), None);
  }

  lemma ErrorTextStarts(streamId: string, n: nat, message: string)
    ensures StartsPlainly(ErrorText(streamId, n, message))
  {
    EventTextStart("error", ErrorData(message, streamId), EventId(streamId, n), None);
  }

  lemma EndTextsStart(streamId: string, n: nat, failure: Option<string>)
    ensures AllStartPlainly(EndTexts(streamId, n, failure))
  {
    DoneTextStarts(streamId, n + 1);
    DoneTextStarts(streamId, n + 2);
    if failure.Some? {
      ErrorTextStarts(streamId, n + 1, failure.value);
    }
  }

  lemma ParsedFromStart(streamId: string, retryMs: int, n: nat, chunks: seq<string>, failure: Option<string>)
    ensures var texts := StreamTexts(streamId, retryMs, n, chunks, failure);
            Parse(Concat(texts)) == Interpret(START, Concat(texts))
  {
    TokenTextsStart(streamId, retryMs, n, chunks);
    EndTextsStart(streamId, n + |chunks|, failure);
    AllStartAppend(TokenTexts(streamId, retryMs, n, chunks), EndTexts(streamId, n + |chunks|, failure));
    StartsWithId(StreamTexts(streamId, retryMs, n, chunks, failure));
  }

  /** A standard client reads the stream of any chunks as exactly the events meant -- every chunk as a token with
      its own data, consecutive identifiers, then the closing events -- if and only if the stream identifier has no
      line end or NUL and every chunk is non-empty, breaks lines only with LF and does not end in LF. */
  lemma RoundTrip(streamId: string, retryMs: int, n: nat, chunks: seq<string>, failure: Option<string>)
    ensures Parse(Concat(StreamTexts(streamId, retryMs, n, chunks, failure)))
              == TokensMeant(streamId, n, chunks) + EndMeant(streamId, n + |chunks|, failure)
            <==> CleanId(streamId) && AllSurvive(chunks)
  {
    ParsedFromStart(streamId, retryMs, n, chunks, failure);
    if CleanId(streamId) {
      StreamIsRead(streamId, retryMs, n, chunks, failure);
      TokensReadAreMeant(streamId, n, chunks);
      SameTail(TokensRead(streamId, n, chunks), TokensMeant(streamId, n, chunks),
               EndMeant(streamId, n + |chunks|, failure));
    } else {
      UncleanIsNotMeant(streamId, n, chunks, failure, Concat(StreamTexts(streamId, retryMs, n, chunks, failure)));
    }
  }

  /** The k-th event of a stream, counted from 0, carries the number that follows the counter n by k + 1. */
  ghost predicate NumberedAt(events: seq<Event>, streamId: string, n: nat, k: int) {
    0 <= k < |events| && NumberedAs(events[k].lastEventId, streamId, n + k + 1)
  }

  ghost predicate Numbered(events: seq<Event>, streamId: string, n: nat) {
    forall k {:trigger NumberedAt(events, streamId, n, k)} :: 0 <= k < |events| ==> NumberedAt(events, streamId, n, k)
  }

  lemma MeantIsNumbered(streamId: string, n: nat, chunks: seq<string>, failure: Option<string>)
    ensures Numbered(TokensMeant(streamId, n, chunks) + EndMeant(streamId, n + |chunks|, failure), streamId, n)
  {
    var events := TokensMeant(streamId, n, chunks) + EndMeant(streamId, n + |chunks|, failure);
    forall k | 0 <= k < |events|
      ensures NumberedAt(events, streamId, n, k)
    {
      MeantId(streamId, n, chunks, failure, k);
      EventIdIsNumbered(streamId, n + k + 1);
    }
  }

  lemma MeantId(streamId: string, n: nat, chunks: seq<string>, failure: Option<string>, k: nat)
    requires k < |chunks| + |EndMeant(streamId, n + |chunks|, failure)|
    ensures (TokensMeant(streamId, n, chunks) + EndMeant(streamId, n + |chunks|, failure))[k].lastEventId ==
            EventId(streamId, n + k + 1)
  {
    if k >= |chunks| {
      EndMeantId(streamId, n + |chunks|, failure, k - |chunks|);
    }
  }

  lemma EndMeantId(streamId: string, n: nat, failure: Option<string>, k: nat)
    requires k < |EndMeant(streamId, n, failure)|
    ensures EndMeant(streamId, n, failure)[k].lastEventId == EventId(streamId, n + k + 1)
  {
  }

  /** For a failure an error event whose JSON carries the message; then the closing event. */
  ghost predicate EndIs(events: seq<Event>, streamId: string, failure: Option<string>) {
    && |events| == (if failure.Some? then 2 else 1)
    && (failure.Some? ==>
          && events[0].kind == "error"
          && Json.ReadObject(events[0].data) == Some([("message", failure.value), ("stream_id", streamId)]))
    && var last := events[|events| - 1];
       last.kind == "done" && Json.ReadObject(last.data) == Some([("stream_id", streamId), ("status", "complete")])
  }

  ghost predicate AllDiffer(events: seq<Event>) {
    forall i, j :: 0 <= i < j < |events| ==> events[i].lastEventId != events[j].lastEventId
  }

  /** As many events as are meant, numbered from the counter on and all different, the chunks first. */
  ghost predicate IsNumberedStream(events: seq<Event>, streamId: string, n: nat, chunks: seq<string>,
                                   failure: Option<string>) {
    && |events| == |chunks| + (if failure.Some? then 2 else 1)
    && Numbered(events, streamId, n)
    && AllDiffer(events)
    && (forall i :: 0 <= i < |chunks| ==> events[i].kind == "token" && events[i].data == chunks[i])
    && EndIs(events[|chunks|..], streamId, failure)
  }

  /** What a standard client reads of a clean stream, event by event: the chunks as tokens, then for a failure an
      error whose JSON carries the message, then the closing event, all with consecutive numbers from the counter on,
      so no two with the same identifier. */
  lemma StreamIsNumbered(streamId: string, retryMs: int, n: nat, chunks: seq<string>, failure: Option<string>)
    requires CleanId(streamId) && AllSurvive(chunks)
    ensures IsNumberedStream(Parse(Concat(StreamTexts(streamId, retryMs, n, chunks, failure))), streamId, n, chunks,
                             failure)
  {
    RoundTrip(streamId, retryMs, n, chunks, failure);
    MeantIsNumberedStream(streamId, n, chunks, failure);
  }

  lemma MeantIsNumberedStream(streamId: string, n: nat, chunks: seq<string>, failure: Option<string>)
    ensures IsNumberedStream(TokensMeant(streamId, n, chunks) + EndMeant(streamId, n + |chunks|, failure), streamId, n,
                             chunks, failure)
  {
    var tokens, ends := TokensMeant(streamId, n, chunks), EndMeant(streamId, n + |chunks|, failure);
    MeantIsNumbered(streamId, n, chunks, failure);
    NumbersDiffer(tokens + ends, streamId, n);
    EndIsJson(streamId, n + |chunks|, failure);
    Joined(tokens, ends, streamId, n, chunks, failure);
  }

  lemma Joined(tokens: seq<Event>, ends: seq<Event>, streamId: string, n: nat, chunks: seq<string>,
               failure: Option<string>)
    requires |tokens| == |chunks|
    requires forall i :: 0 <= i < |chunks| ==> tokens[i].kind == "token" && tokens[i].data == chunks[i]
    requires Numbered(tokens + ends, streamId, n) && AllDiffer(tokens + ends)
    requires EndIs(ends, streamId, failure)
    ensures IsNumberedStream(tokens + ends, streamId, n, chunks, failure)
  {
    assert (tokens + ends)[|chunks|..] == ends;
  }

  lemma EndIsJson(streamId: string, n: nat, failure: Option<string>)
    ensures EndIs(EndMeant(streamId, n, failure), streamId, failure)
  {
    DoneIsJson(streamId);
    if failure.Some? {
      ErrorIsJson(failure.value, streamId);
    }
  }

  lemma NumbersDiffer(events: seq<Event>, streamId: string, n: nat)
    requires Numbered(events, streamId, n)
    ensures AllDiffer(events)
  {
    forall i, j | 0 <= i < j < |events|
      ensures events[i].lastEventId != events[j].lastEventId
    {
      assert NumberedAt(events, streamId, n, i) && NumberedAt(events, streamId, n, j);
    }
  }

  lemma UncleanIsNotMeant(streamId: string, n: nat, chunks: seq<string>, failure: Option<string>, text: string)
    requires !CleanId(streamId)
    ensures Interpret(START, text) != TokensMeant(streamId, n, chunks) + EndMeant(streamId, n + |chunks|, failure)
  {
    var ends := EndMeant(streamId, n + |chunks|, failure);
    IdsAreClean(START, text);
    EventIdIsClean(streamId, n + |chunks| + 1);
    assert ends[0] in TokensMeant(streamId, n, chunks) + ends;
  }

  lemma SameTail(xs: seq<Event>, ys: seq<Event>, tail: seq<Event>)
    ensures xs + tail == ys + tail <==> xs == ys
  {
    if xs + tail == ys + tail {
      assert |xs| == |ys|;
      assert (xs + tail)[..|xs|] == xs && (ys + tail)[..|ys|] == ys;
    }
  }
}
