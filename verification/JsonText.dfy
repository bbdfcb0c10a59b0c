/** JSON strings written byte by byte, and read back by section 7 of RFC 8259. */
module JsonText {
  import opened Wrappers

  /** A byte stands as the character of its value. */
  predicate IsByte(c: char) {
    c as int < 256
  }

  predicate AllBytes(s: string) {
    forall i :: 0 <= i < |s| ==> IsByte(s[i])
  }

  function HexDigit(d: nat): char
    requires d < 16
  {
    if d < 10 then (d + '0' as int) as char else (d - 10 + 'a' as int) as char
  }

  function Escaped(c: char): string
    requires IsByte(c)
  {
    match c as int
    case 0x22 => "\\\""
    case 0x5c => "\\\\"
    case 0x08 => "\\b"
    case 0x0c => "\\f"
    case 0x0a => "\\n"
    case 0x0d => "\\r"
    case 0x09 => "\\t"
    case n => if n < 0x20 || n >= 0x7f then "\\u00" + [HexDigit(n / 16), HexDigit(n % 16)] else [c]
  }

  function EscapeAll(v: string): string
    requires AllBytes(v)
  {
    if v == "" then "" else EscapeAll(v[..|v| - 1]) + Escaped(v[|v| - 1])
  }

  function JsonString(v: string): string
    requires AllBytes(v)
  {
    "\"" + EscapeAll(v) + "\""
  }

  // ---------------------------------------------------------------- reading

  datatype Read<+T> = Read(value: T, rest: string)

  function HexValue(c: char): Option<nat> {
    if '0' <= c <= '9' then Some(c as int - '0' as int)
    else if 'a' <= c <= 'f' then Some(c as int - 'a' as int + 10)
    else if 'A' <= c <= 'F' then Some(c as int - 'A' as int + 10)
    else None
  }

  function ReadHex(s: string): Option<nat>
    requires |s| == 4
  {
    var (a, b, c, d) := (HexValue(s[0]), HexValue(s[1]), HexValue(s[2]), HexValue(s[3]));
    if a.None? || b.None? || c.None? || d.None? then None
    else Some(((a.value * 16 + b.value) * 16 + c.value) * 16 + d.value)
  }

  /** The code point a two-character escape stands for. */
  function ShortEscape(c: char): Option<nat> {
    match c
    case '\"' => Some(0x22)
    case '\\' => Some(0x5c)
    case '/' => Some(0x2f)
    case 'b' => Some(0x08)
    case 'f' => Some(0x0c)
    case 'n' => Some(0x0a)
    case 'r' => Some(0x0d)
    case 't' => Some(0x09)
    case _ => None
  }

  /** One character of a string: itself, or an escape. Only ASCII text is read. */
  function ReadChar(s: string): (r: Option<Read<nat>>)
    requires s != ""
    ensures r.Some? ==> |r.value.rest| < |s|
  {
    if s[0] == '\\' then
      if |s| < 2 then None
      else if s[1] == 'u' then
        if |s| < 6 then None
        else
          match ReadHex(s[2..6])
          case None => None
          case Some(n) => Some(Read(n, s[6..]))
      else
        match ShortEscape(s[1])
        case None => None
        case Some(n) => Some(Read(n, s[2..]))
    else if 0x20 <= s[0] as int < 0x80 then Some(Read(s[0] as int, s[1..]))
    else None
  }

  /** The characters up to the closing quotation mark. */
  function ReadChars(s: string): (r: Option<Read<seq<nat>>>)
    ensures r.Some? ==> |r.value.rest| < |s|
    decreases |s|
  {
    if s == "" then None
    else if s[0] == '\"' then Some(Read([], s[1..]))
    else
      match ReadChar(s)
      case None => None
      case Some(first) =>
        match ReadChars(first.rest)
        case None => None
        case Some(others) => Some(Read([first.value] + others.value, others.rest))
  }

  function ReadString(s: string): (r: Option<Read<seq<nat>>>)
    ensures r.Some? ==> |r.value.rest| < |s|
  {
    if s == "" || s[0] != '\"' then None else ReadChars(s[1..])
  }

  // ---------------------------------------------------------------- reading undoes escaping

  function CodePoints(v: string): seq<nat> {
    seq(|v|, i requires 0 <= i < |v| => v[i] as int)
  }

  lemma HexReadsBack(d: nat)
    requires d < 16
    ensures HexValue(HexDigit(d)) == Some(d)
  {
  }

  lemma EscapeReadsBack(c: char, rest: string)
    requires IsByte(c)
    ensures var s := Escaped(c) + rest;
      s[0] != '\"' && ReadChar(s) == Some(Read(c as int, rest))
  {
    var n, s := c as int, Escaped(c) + rest;
    if n in {0x22, 0x5c, 0x08, 0x0c, 0x0a, 0x0d, 0x09} {
      assert |Escaped(c)| == 2 && s[2..] == rest;
    } else if n < 0x20 || n >= 0x7f {
      HexReadsBack(n / 16);
      HexReadsBack(n % 16);
      assert s[..6] == Escaped(c) && s[6..] == rest;
      assert s[2..6] == ['0', '0', HexDigit(n / 16), HexDigit(n % 16)];
      assert HexValue('0') == Some(0);
    } else {
      assert s[1..] == rest;
    }
  }

  lemma Associate(a: string, b: string, c: string)
    ensures (a + b) + c == a + (b + c)
  {
  }

  lemma {:induction false} EscapeFromFront(v: string)
    requires AllBytes(v) && v != ""
    ensures EscapeAll(v) == Escaped(v[0]) + EscapeAll(v[1..])
  {
    hide Escaped, IsByte;
    var front, last := v[..|v| - 1], Escaped(v[|v| - 1]);
    if |v| == 1 {
      assert front == "" && v[1..] == "";
      assert "" + last == last && last + "" == last;
    } else {
      EscapeFromFront(front);
      assert v[1..][..|v| - 2] == front[1..] && v[1..][|v| - 2] == v[|v| - 1];
      Associate(Escaped(v[0]), EscapeAll(front[1..]), last);
    }
  }

  lemma {:induction false} CharsReadBack(v: string, rest: string)
    requires AllBytes(v)
    ensures ReadChars(EscapeAll(v) + "\"" + rest) == Some(Read(CodePoints(v), rest))
    decreases |v|
  {
    hide Escaped, ReadChar;
    if v == "" {
      assert EscapeAll(v) + "\"" + rest == "\"" + rest;
      assert ("\"" + rest)[1..] == rest;
      assert CodePoints(v) == [];
    } else {
      var tail := EscapeAll(v[1..]) + "\"" + rest;
      EscapeFromFront(v);
      assert EscapeAll(v) + "\"" + rest == Escaped(v[0]) + tail;
      EscapeReadsBack(v[0], tail);
      CharsReadBack(v[1..], rest);
      assert CodePoints(v) == [v[0] as int] + CodePoints(v[1..]);
    }
  }

  /** Reading a written string gives its bytes as code points and leaves what followed it. */
  lemma StringReadsBack(v: string, rest: string)
    requires AllBytes(v)
    ensures ReadString(JsonString(v) + rest) == Some(Read(CodePoints(v), rest))
  {
    hide EscapeAll, ReadChars, CodePoints;
    var s := JsonString(v) + rest;
    CharsReadBack(v, rest);
    assert s[1..] == EscapeAll(v) + "\"" + rest;
  }

  predicate Printable(c: char) {
    0x20 <= c as int < 0x7f
  }

  lemma {:induction false} EscapedIsPrintable(v: string)
    requires AllBytes(v)
    ensures forall c :: c in EscapeAll(v) ==> Printable(c)
  {
    if v != "" { EscapedIsPrintable(v[..|v| - 1]); }
  }
}
