/** The event-stream interpreter of section 9.2.6 of the WHATWG HTML Living Standard, on decoded text. */
module EventStream {
  import opened Common
  import opened Decimal

  /** The buffers of the interpreter and its reconnection time, where one has been received. */
  datatype Buffers = Buffers(data: string, kind: string, lastId: string, reconnection: Option<nat>)

  datatype Event = Event(kind: string, data: string, lastEventId: string)

  const NUL := '\0'

  predicate IsEol(c: char) {
    c == '\r' || c == '\n'
  }

  /** Characters before the first line end. */
  function LineLength(s: string): (n: nat)
    ensures n <= |s| && (n < |s| ==> IsEol(s[n]))
  {
    if s == "" || IsEol(s[0]) then 0 else 1 + LineLength(s[1..])
  }

  /** The text after the first line end, where CRLF counts as one. */
  function AfterEol(s: string): (rest: string)
    requires LineLength(s) < |s|
    ensures |rest| < |s|
  {
    var n := LineLength(s);
    if s[n] == '\r' && n + 1 < |s| && s[n + 1] == '\n' then s[n + 2..] else s[n + 1..]
  }

  lemma {:induction false} OneLineUpToEol(s: string)
    ensures OneLine(s[..LineLength(s)])
  {
    if s != "" && !IsEol(s[0]) {
      OneLineUpToEol(s[1..]);
      assert s[..LineLength(s)] == [s[0]] + s[1..][..LineLength(s[1..])];
    }
  }

  function IndexOf(c: char, s: string): (n: nat)
    ensures n <= |s| && (n < |s| ==> s[n] == c)
  {
    if s == "" || s[0] == c then 0 else 1 + IndexOf(c, s[1..])
  }

  function ProcessField(b: Buffers, name: string, value: string): Buffers {
    if name == "event" then b.(kind := value)
    else if name == "data" then b.(data := b.data + value + "\n")
    else if name == "id" then if NUL in value then b else b.(lastId := value)
    else if name == "retry" then
      if value != "" && forall i :: 0 <= i < |value| ==> IsDigit(value[i])
      then b.(reconnection := ParseDigits(value)) else b
    else b
  }

  /** Dispatching resets the buffers; nothing is dispatched when no data arrived. */
  function Dispatch(b: Buffers): (seq<Event>, Buffers) {
    var reset := b.(data := "", kind := "");
    if b.data == "" then ([], reset)
    else
      var data := if b.data[|b.data| - 1] == '\n' then b.data[..|b.data| - 1] else b.data;
      ([Event(if b.kind == "" then "message" else b.kind, data, b.lastId)], reset)
  }

  function ProcessLine(b: Buffers, line: string): (seq<Event>, Buffers) {
    if line == "" then Dispatch(b)
    else
      var colon := IndexOf(':', line);
      if colon == 0 then ([], b)
      else if colon == |line| then ([], ProcessField(b, line, ""))
      else
        var value := line[colon + 1..];
        ([], ProcessField(b, line[..colon], if value != "" && value[0] == ' ' then value[1..] else value))
  }

  /** Lines end in CRLF, LF or CR; an unfinished line or event at the end is discarded. */
  function Interpret(b: Buffers, text: string): seq<Event>
    decreases |text|
  {
    if LineLength(text) == |text| then []
    else
      var (events, b') := ProcessLine(b, text[..LineLength(text)]);
      events + Interpret(b', AfterEol(text))
  }

  const START := Buffers("", "", "", None)

  function Parse(stream: string): seq<Event> {
    Interpret(START, if stream != "" && stream[0] == '\U{FEFF}' then stream[1..] else stream)
  }

  // ---------------------------------------------------------------- whole lines

  ghost predicate OneLine(s: string) {
    forall i :: 0 <= i < |s| ==> !IsEol(s[i])
  }

  ghost predicate AllOneLine(lines: seq<string>) {
    forall i {:trigger OneLine(lines[i])} :: 0 <= i < |lines| ==> OneLine(lines[i])
  }

  lemma AllOneLineParts(xs: seq<string>, ys: seq<string>)
    ensures AllOneLine(xs + ys) <==> AllOneLine(xs) && AllOneLine(ys)
  {
    var all := xs + ys;
    if AllOneLine(all) {
      forall i | 0 <= i < |xs|
        ensures OneLine(xs[i])
      {
        assert OneLine(all[i]);
      }
      forall i | 0 <= i < |ys|
        ensures OneLine(ys[i])
      {
        assert OneLine(all[|xs| + i]);
      }
    }
  }

  /** The lines, each ended by LF. */
  function Terminated(lines: seq<string>): string {
    if lines == [] then "" else lines[0] + "\n" + Terminated(lines[1..])
  }

  function ProcessLines(b: Buffers, lines: seq<string>): (seq<Event>, Buffers)
    decreases lines
  {
    if lines == [] then ([], b)
    else
      var (events, b') := ProcessLine(b, lines[0]);
      var (more, b'') := ProcessLines(b', lines[1..]);
      (events + more, b'')
  }

  lemma {:induction false} LineLengthIs(line: string, rest: string)
    requires OneLine(line)
    ensures LineLength(line + "\n" + rest) == |line|
  {
    if line != "" {
      assert (line + "\n" + rest)[1..] == line[1..] + "\n" + rest;
      LineLengthIs(line[1..], rest);
    }
  }

  lemma InterpretLine(b: Buffers, line: string, tail: string)
    requires OneLine(line)
    ensures Interpret(b, line + "\n" + tail) == ProcessLine(b, line).0 + Interpret(ProcessLine(b, line).1, tail)
  {
    FirstLineOf(line, tail);
  }

  lemma {:induction false} InterpretLines(b: Buffers, lines: seq<string>, rest: string)
    requires AllOneLine(lines)
    ensures Interpret(b, Terminated(lines) + rest) ==
              ProcessLines(b, lines).0 + Interpret(ProcessLines(b, lines).1, rest)
    decreases lines
  {
    if lines == [] {
      assert Terminated(lines) + rest == rest;
    } else {
      var tail := Terminated(lines[1..]) + rest;
      assert lines[..1] + lines[1..] == lines;
      AllOneLineParts(lines[..1], lines[1..]);
      assert OneLine(lines[0]);
      ConcatAssociates(lines[0] + "\n", Terminated(lines[1..]), rest);
      InterpretLine(b, lines[0], tail);
      var (events, b') := ProcessLine(b, lines[0]);
      InterpretLines(b', lines[1..], rest);
      var (more, b'') := ProcessLines(b', lines[1..]);
      ConcatAssociates(events, more, Interpret(b'', rest));
    }
  }

  lemma FirstLineOf(line: string, tail: string)
    requires OneLine(line)
    ensures var text := line + "\n" + tail;
            LineLength(text) == |line| && text[..|line|] == line && AfterEol(text) == tail
  {
    LineLengthIs(line, tail);
  }

  lemma ProcessOneLine(b: Buffers, line: string)
    ensures ProcessLines(b, [line]) == ProcessLine(b, line)
  {
    var (events, b') := ProcessLine(b, line);
    assert [line][1..] == [];
    assert ProcessLines(b', [line][1..]) == ([], b');
    assert events + [] == events;
  }

  lemma {:induction false} ProcessLinesAppend(b: Buffers, xs: seq<string>, ys: seq<string>)
    ensures ProcessLines(b, xs + ys) ==
              (ProcessLines(b, xs).0 + ProcessLines(ProcessLines(b, xs).1, ys).0,
               ProcessLines(ProcessLines(b, xs).1, ys).1)
    decreases xs
  {
    if xs == [] {
      assert xs + ys == ys;
      assert [] + ProcessLines(b, ys).0 == ProcessLines(b, ys).0;
    } else {
      assert (xs + ys)[0] == xs[0] && (xs + ys)[1..] == xs[1..] + ys;
      var (events, b1) := ProcessLine(b, xs[0]);
      ProcessLinesAppend(b1, xs[1..], ys);
      var (more, b2) := ProcessLines(b1, xs[1..]);
      assert events + (more + ProcessLines(b2, ys).0) == events + more + ProcessLines(b2, ys).0;
    }
  }

  lemma {:induction false} IndexOfIs(c: char, name: string, rest: string)
    requires c !in name
    ensures IndexOf(c, name + [c] + rest) == |name|
  {
    if name != "" {
      assert name == [name[0]] + name[1..];
      assert (name + [c] + rest)[1..] == name[1..] + [c] + rest;
      IndexOfIs(c, name[1..], rest);
    }
  }

  /** A line "name: value" is read as that field with that value. */
  lemma FieldLine(b: Buffers, name: string, value: string)
    requires name != "" && ':' !in name
    ensures ProcessLine(b, name + ": " + value) == ([], ProcessField(b, name, value))
  {
    var line := name + ": " + value;
    assert line == name + [':'] + (" " + value);
    IndexOfIs(':', name, " " + value);
    assert line[..|name|] == name && line[|name| + 1..] == " " + value;
    assert (" " + value)[1..] == value;
  }

  // ---------------------------------------------------------------- event identifiers

  ghost predicate CleanId(id: string) {
    OneLine(id) && NUL !in id
  }

  lemma ProcessLineKeepsCleanId(b: Buffers, line: string)
    requires CleanId(b.lastId) && OneLine(line)
    ensures CleanId(ProcessLine(b, line).1.lastId)
    ensures forall e :: e in ProcessLine(b, line).0 ==> CleanId(e.lastEventId)
  {
  }

  /** Whatever the text, no event carries an identifier with a line end or a NUL. */
  lemma {:induction false} IdsAreClean(b: Buffers, text: string)
    requires CleanId(b.lastId)
    ensures forall e :: e in Interpret(b, text) ==> CleanId(e.lastEventId)
    decreases |text|
  {
    if LineLength(text) < |text| {
      var line := text[..LineLength(text)];
      OneLineUpToEol(text);
      ProcessLineKeepsCleanId(b, line);
      IdsAreClean(ProcessLine(b, line).1, AfterEol(text));
    }
  }
}
