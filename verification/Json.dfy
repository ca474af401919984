/** Reading JSON text, after RFC 8259: objects whose values are strings. */
module Json {
  import opened Common

  // ---------------------------------------------------------------- strings, section 7

  function HexValue(c: char): Option<nat> {
    if '0' <= c <= '9' then Some(c as int - '0' as int)
    else if 'a' <= c <= 'f' then Some(10 + (c as int - 'a' as int))
    else if 'A' <= c <= 'F' then Some(10 + (c as int - 'A' as int))
    else None
  }

  /** The code unit of an escape \uXXXX at the start of the text. */
  function CodeUnit(text: string): (r: Option<nat>)
    ensures r.Some? ==> |text| >= 6 && r.value < 0x1_0000
  {
    if |text| < 6 || text[0] != '\\' || text[1] != 'u' then None
    else
      var a, b, c, d := HexValue(text[2]), HexValue(text[3]), HexValue(text[4]), HexValue(text[5]);
      if a.None? || b.None? || c.None? || d.None? then None
      else Some(4096 * a.value + 256 * b.value + 16 * c.value + d.value)
  }

  /** A character and how much of the text it takes; a character beyond U+FFFF takes a pair of escapes. */
  function ReadEscape(text: string): (r: Option<(char, nat)>)
    ensures r.Some? ==> 0 < r.value.1 <= |text|
  {
    var unit := CodeUnit(text);
    if unit.None? then None
    else if unit.value < 0xD800 || 0xE000 <= unit.value then Some((unit.value as char, 6))
    else
      var low := CodeUnit(text[6..]);
      if unit.value >= 0xDC00 || low.None? || !(0xDC00 <= low.value < 0xE000) then None
      else Some(((0x1_0000 + (unit.value - 0xD800) * 1024 + (low.value - 0xDC00)) as char, 12))
  }

  function ReadChar(text: string): (r: Option<(char, nat)>)
    ensures r.Some? ==> 0 < r.value.1 <= |text|
  {
    if text == "" || text[0] == '"' || text[0] < ' ' then None
    else if text[0] != '\\' then Some((text[0], 1))
    else if |text| < 2 then None
    else if text[1] == '"' || text[1] == '\\' || text[1] == '/' then Some((text[1], 2))
    else if text[1] == 'b' then Some(('\U{0008}', 2))
    else if text[1] == 'f' then Some(('\U{000C}', 2))
    else if text[1] == 'n' then Some(('\n', 2))
    else if text[1] == 'r' then Some(('\r', 2))
    else if text[1] == 't' then Some(('\t', 2))
    else ReadEscape(text)
  }

  /** The characters up to the closing quotation mark, and the text after it. */
  function ReadChars(text: string): (r: Option<(string, string)>)
    ensures r.Some? ==> |r.value.1| < |text|
    decreases |text|
  {
    if text != "" && text[0] == '"' then Some(("", text[1..]))
    else
      var first := ReadChar(text);
      if first.None? then None
      else
        var more := ReadChars(text[first.value.1..]);
        if more.None? then None else Some(([first.value.0] + more.value.0, more.value.1))
  }

  function ReadString(text: string): (r: Option<(string, string)>)
    ensures r.Some? ==> |r.value.1| < |text|
  {
    if text == "" || text[0] != '"' then None else ReadChars(text[1..])
  }

  // ---------------------------------------------------------------- objects, section 4

  function SkipBlanks(text: string): (rest: string)
    ensures |rest| <= |text|
  {
    if text != ""
      && (text[0] == ' ' || text[0] == '\t' || text[0] == '\n' || text[0] == '\r') then SkipBlanks(text[1..])
    else text
  }

  type Members = seq<(string, string)>

  /** What follows the name of a member: a colon and the value; also the text after it. */
  function ReadValue(text: string): (r: Option<(string, string)>)
    ensures r.Some? ==> |r.value.1| < |text|
  {
    var separator := SkipBlanks(text);
    if separator == "" || separator[0] != ':' then None
    else
      var value := ReadString(SkipBlanks(separator[1..]));
      if value.None? then None else Some((value.value.0, SkipBlanks(value.value.1)))
  }

  /** One member "name": "value", and the text after it. */
  function ReadMember(text: string): (r: Option<((string, string), string)>)
    ensures r.Some? ==> |r.value.1| < |text|
  {
    var name := ReadString(SkipBlanks(text));
    if name.None? then None
    else
      var value := ReadValue(name.value.1);
      if value.None? then None else Some(((name.value.0, value.value.0), value.value.1))
  }

  function ReadMembers(text: string): Option<Members>
    decreases |text|
  {
    var first := ReadMember(text);
    if first.None? || first.value.1 == "" then None
    else if first.value.1[0] == '}' then
      if SkipBlanks(first.value.1[1..]) == "" then Some([first.value.0]) else None
    else if first.value.1[0] == ',' then
      var more := ReadMembers(first.value.1[1..]);
      if more.None? then None else Some([first.value.0] + more.value)
    else None
  }

  /** An object with at least one member, all of them strings. */
  function ReadObject(text: string): Option<Members> {
    var start := SkipBlanks(text);
    if start == "" || start[0] != '{' then None else ReadMembers(start[1..])
  }
}
