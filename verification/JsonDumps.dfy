/** `json.dumps` of dictionaries from strings to strings, with its default settings, and reading it back. */
module JsonDumps {
  import opened Common
  import Json

  // ---------------------------------------------------------------- printing

  function Hex(d: nat): char
    requires d < 16
  {
    if d < 10 then '0' + d as char else 'a' + (d - 10) as char
  }

  function Escape16(n: nat): string
    requires n < 0x1_0000
  {
    ['\\', 'u', Hex(n / 4096), Hex(n / 256 % 16), Hex(n / 16 % 16), Hex(n % 16)]
  }

  function JsonChar(c: char): string {
    if c == '"' then "\\\"" else if c == '\\' then "\\\\"
    else if c == '\n' then "\\n" else if c == '\r' then "\\r" else if c == '\t' then "\\t"
    else if c == '\U{000C}' then "\\f" else if c == '\U{0008}' then "\\b"
    else if ' ' <= c <= '~' then [c]
    else
      var n := c as int;
      if n < 0x1_0000 then Escape16(n)
      else Escape16(0xD800 + (n - 0x1_0000) / 1024 % 1024) + Escape16(0xDC00 + (n - 0x1_0000) % 1024)
  }

  function JsonChars(s: string): string {
    if s == "" then "" else JsonChar(s[0]) + JsonChars(s[1..])
  }

  function JsonString(s: string): string {
    "\"" + JsonChars(s) + "\""
  }

  function Member(name: string, value: string): string {
    JsonString(name) + (": " + JsonString(value))
  }

  function JsonMembers(members: Json.Members): string {
    if members == [] then ""
    else if |members| == 1 then Member(members[0].0, members[0].1)
    else Member(members[0].0, members[0].1) + (", " + JsonMembers(members[1..]))
  }

  function JsonObject(members: Json.Members): string {
    "{" + (JsonMembers(members) + "}")
  }

  // ---------------------------------------------------------------- printable ASCII only

  ghost predicate Printable(s: string) {
    forall i :: 0 <= i < |s| ==> ' ' <= s[i] <= '~'
  }

  lemma EscapeIsPrintable(n: nat)
    requires n < 0x1_0000
    ensures Printable(Escape16(n))
  {
    assert forall d: nat :: d < 16 ==> ' ' <= Hex(d) <= '~';
  }

  lemma CharIsPrintable(c: char)
    ensures Printable(JsonChar(c))
  {
    var n := c as int;
    if n < 0x1_0000 {
      EscapeIsPrintable(n);
    } else {
      EscapeIsPrintable(0xD800 + (n - 0x1_0000) / 1024 % 1024);
      EscapeIsPrintable(0xDC00 + (n - 0x1_0000) % 1024);
    }
  }

  lemma PrintableConcat(a: string, b: string)
    requires Printable(a) && Printable(b)
    ensures Printable(a + b)
  {
  }

  lemma {:induction false} CharsArePrintable(s: string)
    ensures Printable(JsonChars(s))
  {
    if s != "" {
      CharIsPrintable(s[0]);
      CharsArePrintable(s[1..]);
      PrintableConcat(JsonChar(s[0]), JsonChars(s[1..]));
    }
  }

  lemma StringIsPrintable(s: string)
    ensures Printable(JsonString(s))
  {
    CharsArePrintable(s);
    PrintableConcat("\"", JsonChars(s));
    PrintableConcat("\"" + JsonChars(s), "\"");
  }

  lemma MemberIsPrintable(name: string, value: string)
    ensures Printable(Member(name, value))
  {
    StringIsPrintable(name);
    StringIsPrintable(value);
    PrintableConcat(": ", JsonString(value));
    PrintableConcat(JsonString(name), ": " + JsonString(value));
  }

  lemma {:induction false} MembersArePrintable(members: Json.Members)
    ensures Printable(JsonMembers(members))
  {
    if members != [] {
      MemberIsPrintable(members[0].0, members[0].1);
      MembersArePrintable(members[1..]);
      PrintableConcat(", ", JsonMembers(members[1..]));
      PrintableConcat(Member(members[0].0, members[0].1), ", " + JsonMembers(members[1..]));
    }
  }

  /** The JSON of an object is printable ASCII, so it has no line break. */
  lemma ObjectIsPrintable(members: Json.Members)
    ensures Printable(JsonObject(members)) && JsonObject(members) != ""
  {
    MembersArePrintable(members);
    PrintableConcat(JsonMembers(members), "}");
    PrintableConcat("{", JsonMembers(members) + "}");
  }

  // ---------------------------------------------------------------- reading it back

  lemma HexIsRead(d: nat)
    requires d < 16
    ensures Json.HexValue(Hex(d)) == Some(d)
  {
  }

  lemma HexDigits(n: nat)
    requires n < 0x1_0000
    ensures 4096 * (n / 4096) + 256 * (n / 256 % 16) + 16 * (n / 16 % 16) + n % 16 == n
  {
    assert n / 16 == 16 * (n / 256) + n / 16 % 16;
    assert n / 256 == 16 * (n / 4096) + n / 256 % 16;
  }

  lemma EscapeIsRead(n: nat, tail: string)
    requires n < 0x1_0000
    ensures Json.CodeUnit(Escape16(n) + tail) == Some(n)
    ensures (Escape16(n) + tail)[6..] == tail
  {
    HexIsRead(n / 4096);
    HexIsRead(n / 256 % 16);
    HexIsRead(n / 16 % 16);
    HexIsRead(n % 16);
    HexDigits(n);
  }

  lemma Surrogates(v: nat)
    requires v < 0x10_0000
    ensures v / 1024 % 1024 == v / 1024 < 1024
    ensures v / 1024 * 1024 + v % 1024 == v
  {
  }

  ghost predicate ArePairOf(high: nat, low: nat, c: char) {
    && 0xD800 <= high < 0xDC00 <= low < 0xE000
    && c as int == 0x1_0000 + (high - 0xD800) * 1024 + (low - 0xDC00)
  }

  lemma ReadOnPair(text: string, high: nat, low: nat, c: char)
    requires Json.CodeUnit(text) == Some(high) && Json.CodeUnit(text[6..]) == Some(low)
    requires ArePairOf(high, low, c)
    ensures Json.ReadEscape(text) == Some((c, 12))
  {
  }

  lemma PairOf(c: char) returns (high: nat, low: nat)
    requires c as int >= 0x1_0000
    ensures ArePairOf(high, low, c) && JsonChar(c) == Escape16(high) + Escape16(low)
  {
    var v := c as int - 0x1_0000;
    Surrogates(v);
    high, low := 0xD800 + v / 1024, 0xDC00 + v % 1024;
  }

  /** A character beyond U+FFFF is escaped as a surrogate pair and read back from it. */
  lemma PairIsRead(c: char, tail: string)
    requires c as int >= 0x1_0000
    ensures Json.ReadEscape(JsonChar(c) + tail) == Some((c, 12))
  {
    var high, low := PairOf(c);
    ConcatAssociates(Escape16(high), Escape16(low), tail);
    EscapeIsRead(high, Escape16(low) + tail);
    EscapeIsRead(low, tail);
    ReadOnPair(JsonChar(c) + tail, high, low, c);
  }

  lemma UnitIsRead(c: char, tail: string)
    requires c as int < 0x1_0000 && !(' ' <= c <= '~')
    ensures Json.ReadEscape(Escape16(c as int) + tail) == Some((c, 6))
  {
    EscapeIsRead(c as int, tail);
  }

  lemma ShortIsRead(c: char, tail: string)
    requires ' ' <= c <= '~' || |JsonChar(c)| == 2
    ensures JsonChar(c)[0] != '"'
    ensures Json.ReadChar(JsonChar(c) + tail) == Some((c, |JsonChar(c)|))
  {
  }

  lemma ReadOnEscape(text: string)
    requires |text| >= 2 && text[0] == '\\' && text[1] == 'u'
    ensures Json.ReadChar(text) == Json.ReadEscape(text)
  {
  }

  lemma LongStarts(c: char)
    requires !(' ' <= c <= '~') && |JsonChar(c)| != 2
    ensures |JsonChar(c)| == if c as int < 0x1_0000 then 6 else 12
    ensures JsonChar(c)[0] == '\\' && JsonChar(c)[1] == 'u'
    ensures c as int < 0x1_0000 ==> JsonChar(c) == Escape16(c as int)
  {
  }

  lemma LongIsRead(c: char, tail: string)
    requires !(' ' <= c <= '~') && |JsonChar(c)| != 2
    ensures JsonChar(c)[0] != '"'
    ensures Json.ReadChar(JsonChar(c) + tail) == Some((c, |JsonChar(c)|))
  {
    LongStarts(c);
    ReadOnEscape(JsonChar(c) + tail);
    if c as int >= 0x1_0000 {
      PairIsRead(c, tail);
    } else {
      UnitIsRead(c, tail);
    }
  }

  lemma CharIsRead(c: char, tail: string)
    ensures JsonChar(c)[0] != '"'
    ensures Json.ReadChar(JsonChar(c) + tail) == Some((c, |JsonChar(c)|))
  {
    if ' ' <= c <= '~' || |JsonChar(c)| == 2 {
      ShortIsRead(c, tail);
    } else {
      LongIsRead(c, tail);
    }
  }

  lemma FirstThenRest(c: char, tail: string)
    ensures Json.ReadChars(JsonChar(c) + tail) ==
            var more := Json.ReadChars(tail);
            if more.None? then None else Some(([c] + more.value.0, more.value.1))
  {
    CharIsRead(c, tail);
    assert (JsonChar(c) + tail)[|JsonChar(c)|..] == tail;
  }

  lemma {:induction false} CharsAreRead(s: string, rest: string)
    ensures Json.ReadChars(JsonChars(s) + ("\"" + rest)) == Some((s, rest))
  {
    var close := "\"" + rest;
    if s == "" {
      assert JsonChars(s) + close == close && close[1..] == rest;
    } else {
      CharsAreRead(s[1..], rest);
      FirstThenRest(s[0], JsonChars(s[1..]) + close);
      ConcatAssociates(JsonChar(s[0]), JsonChars(s[1..]), close);
      assert [s[0]] + s[1..] == s;
    }
  }

  /** A JSON string is read back as itself, whatever follows. */
  lemma StringIsRead(s: string, rest: string)
    ensures Json.ReadString(JsonString(s) + rest) == Some((s, rest))
    ensures Json.SkipBlanks(JsonString(s) + rest) == JsonString(s) + rest
  {
    var text := JsonString(s) + rest;
    assert text[1..] == JsonChars(s) + ("\"" + rest);
    CharsAreRead(s, rest);
  }

  lemma OneBlankIsSkipped(text: string)
    ensures Json.SkipBlanks(" " + text) == Json.SkipBlanks(text)
  {
    assert (" " + text)[1..] == text;
  }

  lemma ValueIsRead(value: string, rest: string)
    requires rest != "" && rest[0] in [',', '}']
    ensures Json.ReadValue(": " + (JsonString(value) + rest)) == Some((value, rest))
  {
    var second := JsonString(value) + rest;
    var text := ": " + second;
    assert text[1..] == " " + second;
    OneBlankIsSkipped(second);
    StringIsRead(value, rest);
  }

  lemma ReadOnMember(text: string, name: string, after: string, value: string, rest: string)
    requires Json.SkipBlanks(text) == text && Json.ReadString(text) == Some((name, after))
    requires Json.ReadValue(after) == Some((value, rest))
    ensures Json.ReadMember(text) == Some(((name, value), rest))
  {
  }

  lemma MemberIsRead(name: string, value: string, rest: string)
    requires rest != "" && rest[0] in [',', '}']
    ensures Json.ReadMember(Member(name, value) + rest) == Some(((name, value), rest))
    ensures Json.SkipBlanks(Member(name, value) + rest) == Member(name, value) + rest
  {
    var after := ": " + (JsonString(value) + rest);
    MemberSplits(name, value, rest);
    StringIsRead(name, after);
    ValueIsRead(value, rest);
    ReadOnMember(JsonString(name) + after, name, after, value, rest);
  }

  lemma MemberSplits(name: string, value: string, rest: string)
    ensures Member(name, value) + rest == JsonString(name) + (": " + (JsonString(value) + rest))
  {
    ConcatAssociates(JsonString(name), ": " + JsonString(value), rest);
    ConcatAssociates(": ", JsonString(value), rest);
  }

  lemma BlankBeforeMembers(text: string)
    ensures Json.ReadMembers(" " + text) == Json.ReadMembers(text)
  {
    OneBlankIsSkipped(text);
    assert Json.ReadMember(" " + text) == Json.ReadMember(text);
  }

  lemma {:induction false} MembersAreRead(members: Json.Members)
    requires members != []
    ensures Json.ReadMembers(JsonMembers(members) + "}") == Some(members)
    decreases |members|
  {
    if |members| == 1 {
      LastIsRead(members);
    } else {
      MembersAreRead(members[1..]);
      FirstIsRead(members);
      MoreIsRead(JsonMembers(members) + "}", members[0], JsonMembers(members[1..]) + "}", members[1..]);
      assert [members[0]] + members[1..] == members;
    }
  }

  lemma LastIsRead(members: Json.Members)
    requires |members| == 1
    ensures Json.ReadMembers(JsonMembers(members) + "}") == Some(members)
  {
    MemberIsRead(members[0].0, members[0].1, "}");
    assert "}"[1..] == "" && members == [(members[0].0, members[0].1)];
  }

  lemma MembersOpen(members: Json.Members)
    requires |members| > 1
    ensures JsonMembers(members) + "}" ==
            Member(members[0].0, members[0].1) + (", " + (JsonMembers(members[1..]) + "}"))
  {
    var first, more := Member(members[0].0, members[0].1), JsonMembers(members[1..]);
    ConcatAssociates(first, ", " + more, "}");
    ConcatAssociates(", ", more, "}");
  }

  lemma ReadOnMembers(text: string, first: (string, string), rest: string, more: Json.Members)
    requires rest != "" && rest[0] == ',' && Json.ReadMember(text) == Some((first, rest))
    requires Json.ReadMembers(rest[1..]) == Some(more)
    ensures Json.ReadMembers(text) == Some([first] + more)
  {
  }

  lemma MoreIsRead(text: string, first: (string, string), tail: string, more: Json.Members)
    requires Json.ReadMember(text) == Some((first, ", " + tail)) && Json.ReadMembers(tail) == Some(more)
    ensures Json.ReadMembers(text) == Some([first] + more)
  {
    assert (", " + tail)[1..] == " " + tail;
    BlankBeforeMembers(tail);
    ReadOnMembers(text, first, ", " + tail, more);
  }

  lemma FirstIsRead(members: Json.Members)
    requires |members| > 1
    ensures Json.ReadMember(JsonMembers(members) + "}") == Some((members[0], ", " + (JsonMembers(members[1..]) + "}")))
  {
    MembersOpen(members);
    MemberIsRead(members[0].0, members[0].1, ", " + (JsonMembers(members[1..]) + "}"));
  }

  // ---------------------------------------------------------------- objects of two members

  /** Text without quotation marks, backslashes and special characters, which is its own JSON. */
  ghost predicate Plain(s: string) {
    forall i :: 0 <= i < |s| ==> ' ' <= s[i] <= '~' && s[i] != '"' && s[i] != '\\'
  }

  lemma {:induction false} PlainIsUnchanged(s: string)
    requires Plain(s)
    ensures JsonChars(s) == s
  {
    if s != "" {
      PlainIsUnchanged(s[1..]);
      assert [s[0]] + s[1..] == s;
    }
  }

  lemma PlainMember(name: string, value: string)
    requires Plain(name)
    ensures Member(name, value) == "\"" + name + "\": " + JsonString(value)
  {
    PlainIsUnchanged(name);
    assert "\"" + name + "\"" + (": " + JsonString(value)) == "\"" + name + "\": " + JsonString(value);
  }

  lemma Flatten(a: string, b: string, c: string, d: string, e: string, f: string, g: string)
    ensures a + ((b + c + (d + (e + f))) + g) == (a + b) + c + (d + e) + f + g
  {
  }

  /** What `open` and `middle` have to be for the text around two values to be an object. */
  lemma TwoAreRead(open: string, x: string, middle: string, y: string, a: string, b: string)
    requires Plain(a) && Plain(b)
    requires open == "{" + ("\"" + a + "\": ") && middle == ", " + ("\"" + b + "\": ")
    ensures Json.ReadObject(open + JsonString(x) + middle + JsonString(y) + "}") == Some([(a, x), (b, y)])
  {
    var members := [(a, x), (b, y)];
    assert members[1..] == [(b, y)];
    PlainMember(a, x);
    PlainMember(b, y);
    assert JsonMembers(members) == Member(a, x) + (", " + JsonMembers(members[1..]));
    assert JsonMembers([(b, y)]) == Member(b, y);
    Flatten("{", "\"" + a + "\": ", JsonString(x), ", ", "\"" + b + "\": ", JsonString(y), "}");
    assert JsonObject(members) == open + JsonString(x) + middle + JsonString(y) + "}";
    ObjectIsRead(members);
  }

  lemma TwoWithPlainAreRead(open: string, x: string, close: string, a: string, b: string, y: string)
    requires Plain(a) && Plain(b) && Plain(y)
    requires open == "{" + ("\"" + a + "\": ") && close == ", " + ("\"" + b + "\": ") + ("\"" + y + "\"") + "}"
    ensures Json.ReadObject(open + JsonString(x) + close) == Some([(a, x), (b, y)])
  {
    PlainIsUnchanged(y);
    var middle := ", " + ("\"" + b + "\": ");
    TwoAreRead(open, x, middle, y, a, b);
    assert open + JsonString(x) + close == open + JsonString(x) + middle + JsonString(y) + "}";
  }

  lemma ReadOnObject(text: string, members: Json.Members)
    requires text != "" && text[0] == '{' && Json.ReadMembers(text[1..]) == Some(members)
    ensures Json.ReadObject(text) == Some(members)
  {
  }

  /** Any dictionary of strings is read back from its JSON. */
  lemma ObjectIsRead(members: Json.Members)
    requires members != []
    ensures Json.ReadObject(JsonObject(members)) == Some(members)
  {
    var text := JsonObject(members);
    assert text[1..] == JsonMembers(members) + "}";
    MembersAreRead(members);
    ReadOnObject(text, members);
  }
}
