/** The lines of a strict INI text and what each line says. */
module IniText {
  import opened Wrappers

  datatype Item =
    | Noise
    | Header(name: string)
    | Pair(key: string, value: string)
    | Malformed(emptyKey: bool)

  predicate IsBlank(c: char) {
    c == ' ' || c == '\t'
  }

  predicate AllBlank(s: string) {
    forall i :: 0 <= i < |s| ==> IsBlank(s[i])
  }

  /** No horizontal whitespace at either end. */
  predicate Trimmed(s: string) {
    s != "" ==> !IsBlank(s[0]) && !IsBlank(s[|s| - 1])
  }

  function TrimFront(s: string): string {
    if s != "" && IsBlank(s[0]) then TrimFront(s[1..]) else s
  }

  function TrimBack(s: string): string {
    if s != "" && IsBlank(s[|s| - 1]) then TrimBack(s[..|s| - 1]) else s
  }

  function Trim(s: string): string {
    TrimBack(TrimFront(s))
  }

  method TrimHorizontalWhitespace(s: string) returns (r: string)
    ensures r == Trim(s)
  {
    r := s;
    while r != "" && IsBlank(r[0])
      invariant TrimFront(r) == TrimFront(s)
      decreases |r|
    {
      r := r[1..];
    }
    while r != "" && IsBlank(r[|r| - 1])
      invariant TrimBack(r) == Trim(s)
      decreases |r|
    {
      r := r[..|r| - 1];
    }
  }

  /** Where a character first occurs, or the length when it does not. */
  function IndexOf(s: string, c: char): (i: nat)
    ensures i <= |s| && (i < |s| ==> s[i] == c)
    ensures forall k :: 0 <= k < i ==> s[k] != c
  {
    if s == "" || s[0] == c then 0
    else
      assert forall k :: 0 < k < |s| ==> s[k] == s[1..][k - 1];
      1 + IndexOf(s[1..], c)
  }

  predicate Has(s: string, c: char) {
    IndexOf(s, c) < |s|
  }

  lemma IndexIsFirst(s: string, c: char, i: nat)
    requires i < |s| && s[i] == c && forall k :: 0 <= k < i ==> s[k] != c
    ensures IndexOf(s, c) == i
  {
  }

  /** What one line says, once trimmed: nothing, a section, a key and its value, or nothing legal. */
  function ItemOf(line: string): Item {
    var t := Trim(line);
    if t == "" || t[0] == '#' || t[0] == ';' then Noise
    else if t[0] == '[' then
      if |t| < 3 || t[|t| - 1] != ']' || IndexOf(t, ']') != |t| - 1 then Malformed(false) else Header(t[1..|t| - 1])
    else
      var d := IndexOf(t, '=');
      if d == |t| || Has(t[d + 1..], '=') then Malformed(false)
      else
        var key := Trim(t[..d]);
        if key == "" then Malformed(true) else Pair(key, Trim(t[d + 1..]))
  }

  function StripReturn(line: string): string {
    if line != "" && line[|line| - 1] == '\r' then line[..|line| - 1] else line
  }

  /** The lines of a text: a last line without its newline counts when it is not empty. */
  function SplitLines(contents: string): seq<string> {
    if contents == "" then []
    else
      var end := IndexOf(contents, '\n');
      [StripReturn(contents[..end])] + if end == |contents| then [] else SplitLines(contents[end + 1..])
  }

  function ItemsOf(lines: seq<string>): seq<Item> {
    if lines == [] then [] else [ItemOf(lines[0])] + ItemsOf(lines[1..])
  }

  /** The items that say something. */
  function Significant(items: seq<Item>): seq<Item> {
    if items == [] then [] else (if items[0].Noise? then [] else [items[0]]) + Significant(items[1..])
  }

  // ---------------------------------------------------------------- what each line says

  /** This text is these two around a mark, and the mark stands nowhere else in it. */
  predicate IsSplitBy(t: string, mark: char, left: string, right: string) {
    t == left + [mark] + right && mark !in left && mark !in right
  }

  /** A line that starts with none of the marks of a comment or a header. */
  predicate IsPlain(t: string) {
    t != "" && t[0] != '#' && t[0] != ';' && t[0] != '['
  }

  lemma SplitIsFirst(t: string, mark: char, left: string, right: string)
    requires IsSplitBy(t, mark, left, right)
    ensures |left| < |t| && IndexOf(t, mark) == |left| && left == t[..|left|] && right == t[|left| + 1..]
    ensures !Has(right, mark)
  {
    hide IndexOf, Has;
    IndexIsFirst(t, mark, |left|);
    HasOf(right, mark);
  }

  lemma FirstIsSplit(t: string, mark: char)
    requires IndexOf(t, mark) < |t| && !Has(t[IndexOf(t, mark) + 1..], mark)
    ensures IsSplitBy(t, mark, t[..IndexOf(t, mark)], t[IndexOf(t, mark) + 1..])
  {
    hide Has;
    var d := IndexOf(t, mark);
    HasOf(t[d + 1..], mark);
    assert t == t[..d] + [mark] + t[d + 1..];
  }

  lemma SplitIsExact(t: string, mark: char)
    ensures var d := IndexOf(t, mark);
      if d == |t| || Has(t[d + 1..], mark) then forall left, right :: !IsSplitBy(t, mark, left, right)
      else forall left, right :: IsSplitBy(t, mark, left, right) <==> left == t[..d] && right == t[d + 1..]
  {
    hide IndexOf, Has, IsSplitBy;
    var d := IndexOf(t, mark);
    forall left, right | IsSplitBy(t, mark, left, right)
      ensures d < |t| && left == t[..d] && right == t[d + 1..] && !Has(t[d + 1..], mark)
    {
      SplitIsFirst(t, mark, left, right);
    }
    if d < |t| && !Has(t[d + 1..], mark) { FirstIsSplit(t, mark); }
  }

  predicate IsHeader(t: string) {
    |t| >= 3 && t[|t| - 1] == ']' && IndexOf(t, ']') == |t| - 1
  }

  lemma BracketedIsHeader(t: string, name: string)
    requires name != "" && ']' !in name && t == "[" + name + "]"
    ensures IsHeader(t)
  {
    hide IndexOf;
    assert |t| == |name| + 2 && t[|t| - 1] == ']';
    forall k | 0 <= k < |t| - 1 ensures t[k] != ']' { assert k > 0 ==> t[k] == name[k - 1]; }
    IndexIsFirst(t, ']', |t| - 1);
  }

  lemma HeaderIsBracketed(t: string)
    requires t != "" && t[0] == '[' && IsHeader(t)
    ensures t == "[" + t[1..|t| - 1] + "]" && ']' !in t[1..|t| - 1]
  {
    var name := t[1..|t| - 1];
    forall i | 0 <= i < |name| ensures name[i] != ']' { assert name[i] == t[i + 1]; }
  }

  lemma BracketedNameIs(t: string, name: string)
    requires t == "[" + name + "]"
    ensures |t| >= 2 && name == t[1..|t| - 1]
  {
  }

  lemma HeaderIsExact(t: string)
    requires t != "" && t[0] == '['
    ensures IsHeader(t) <==> exists name :: name != "" && ']' !in name && t == "[" + name + "]"
    ensures forall name :: t == "[" + name + "]" ==> name == t[1..|t| - 1]
  {
    hide IsHeader;
    forall name | t == "[" + name + "]" ensures name == t[1..|t| - 1] { BracketedNameIs(t, name); }
    forall name | name != "" && ']' !in name && t == "[" + name + "]"
      ensures IsHeader(t)
    {
      BracketedIsHeader(t, name);
    }
    if IsHeader(t) { HeaderHasAName(t); }
  }

  lemma HeaderHasAName(t: string)
    requires t != "" && t[0] == '[' && IsHeader(t)
    ensures exists name :: name != "" && ']' !in name && t == "[" + name + "]"
  {
    HeaderIsBracketed(t);
    assert t[1..|t| - 1] != "";
  }

  /** What a line says, trimmed: nothing when it is blank or a comment; a section when it is a name without
      brackets in brackets; a pair when exactly one equals sign stands in it, with something before it; and
      anything else is malformed, an empty key apart from the rest. */
  lemma ItemIsExact(line: string)
    ensures var t, item := Trim(line), ItemOf(line);
      && (item == Noise <==> t == "" || t[0] == '#' || t[0] == ';')
      && (forall name :: item == Header(name) <==> name != "" && ']' !in name && t == "[" + name + "]")
      && (forall key, value :: item == Pair(key, value) <==>
            IsPlain(t) && key != "" &&
            exists left, right :: IsSplitBy(t, '=', left, right) && Trim(left) == key && Trim(right) == value)
      && (item == Malformed(true) <==>
            IsPlain(t) && exists left, right :: IsSplitBy(t, '=', left, right) && Trim(left) == "")
  {
    hide Trim, Has, IndexOf;
    var t := Trim(line);
    if t != "" && t[0] == '[' {
      HeaderIsExact(t);
    } else if IsPlain(t) {
      SplitIsExact(t, '=');
      var d := IndexOf(t, '=');
      if d < |t| && !Has(t[d + 1..], '=') { assert IsSplitBy(t, '=', t[..d], t[d + 1..]); }
    }
  }

  // ---------------------------------------------------------------- padding, comments and line ends

  lemma {:induction false} TrimFrontDropsPadding(pad: string, s: string)
    requires AllBlank(pad) && (s != "" ==> !IsBlank(s[0]))
    ensures TrimFront(pad + s) == s
  {
    if pad == "" {
      assert pad + s == s;
    } else {
      assert (pad + s)[1..] == pad[1..] + s;
      TrimFrontDropsPadding(pad[1..], s);
    }
  }

  lemma {:induction false} TrimBackDropsPadding(s: string, pad: string)
    requires AllBlank(pad) && (s != "" ==> !IsBlank(s[|s| - 1]))
    ensures TrimBack(s + pad) == s
  {
    if pad == "" {
      assert s + pad == s;
    } else {
      assert (s + pad)[..|s + pad| - 1] == s + pad[..|pad| - 1];
      TrimBackDropsPadding(s, pad[..|pad| - 1]);
    }
  }

  lemma {:induction false} TrimFrontOfBlank(pad: string)
    requires AllBlank(pad)
    ensures TrimFront(pad) == ""
  {
    if pad != "" { TrimFrontOfBlank(pad[1..]); }
  }

  /** Whatever whitespace surrounds it, a trimmed text is what trimming gives back. */
  lemma TrimDropsPadding(before: string, s: string, after: string)
    requires AllBlank(before) && AllBlank(after) && Trimmed(s)
    ensures Trim(before + s + after) == s
  {
    if s == "" {
      assert before + s + after == before + after;
      assert AllBlank(before + after);
      TrimFrontOfBlank(before + after);
    } else {
      assert before + s + after == before + (s + after);
      TrimFrontDropsPadding(before, s + after);
      TrimBackDropsPadding(s, after);
    }
  }

  /** A key as the schema may hold it: trimmed, and nothing in it a line could be misread by. */
  predicate LegalKey(key: string) {
    key != "" && Trimmed(key) && !Has(key, '=') && !Has(key, '\n') && key[0] != '#' && key[0] != ';' && key[0] != '['
  }

  predicate LegalValue(value: string) {
    Trimmed(value) && !Has(value, '=') && !Has(value, '\n') && (value != "" ==> value[|value| - 1] != '\r')
  }

  predicate LegalName(name: string) {
    name != "" && !Has(name, ']') && !Has(name, '\n')
  }

  predicate LegalItem(item: Item) {
    match item
    case Header(name) => LegalName(name)
    case Pair(key, value) => LegalKey(key) && LegalValue(value)
    case _ => false
  }

  /** The whitespace a writer may put around the parts of one line. */
  datatype Padding = Padding(before: string, aroundKey: string, aroundValue: string, after: string)

  predicate Blank(p: Padding) {
    AllBlank(p.before) && AllBlank(p.aroundKey) && AllBlank(p.aroundValue) && AllBlank(p.after)
  }

  function LineOf(item: Item, p: Padding): string
    requires LegalItem(item)
  {
    match item
    case Header(name) => p.before + ("[" + name + "]") + p.after
    case Pair(key, value) => p.before + (key + p.aroundKey) + "=" + (p.aroundValue + value) + p.after
  }

  lemma HasOf(s: string, c: char)
    ensures Has(s, c) <==> c in s
  {
    if c in s {
      var i :| 0 <= i < |s| && s[i] == c;
      assert IndexOf(s, c) <= i;
    }
  }

  /** Horizontal padding never changes what a line says. */
  lemma PaddingIsIgnored(item: Item, p: Padding)
    requires LegalItem(item) && Blank(p)
    ensures ItemOf(LineOf(item, p)) == item
  {
    match item
    case Header(name) =>
      var t := "[" + name + "]";
      TrimDropsPadding(p.before, t, p.after);
      HasOf(name, ']');
      IndexIsFirst(t, ']', |t| - 1);
      assert t[1..|t| - 1] == name;
    case Pair(key, value) => PairIgnoresPadding(key, value, p);
  }

  lemma PairIgnoresPadding(key: string, value: string, p: Padding)
    requires LegalKey(key) && LegalValue(value) && Blank(p)
    ensures ItemOf(LineOf(Pair(key, value), p)) == Pair(key, value)
  {
    hide Has, Trim, LineOf, Trimmed;
    var left, tail := key + p.aroundKey, PairTail(value, p);
    var t := left + "=" + tail;
    PairTrims(key, value, p);
    PairSplits(key, value, p);
    assert t[0] == key[0] && t[..|left|] == left && t[|left| + 1..] == tail;
  }

  /** What follows the equals sign once the line is trimmed. */
  function PairTail(value: string, p: Padding): string {
    if value == "" then "" else p.aroundValue + value
  }

  lemma PairTrims(key: string, value: string, p: Padding)
    requires LegalKey(key) && LegalValue(value) && Blank(p)
    ensures Trim(LineOf(Pair(key, value), p)) == key + p.aroundKey + "=" + PairTail(value, p)
    ensures Trim(key + p.aroundKey) == key && Trim(PairTail(value, p)) == value
  {
    hide Has, Trim;
    var t := key + p.aroundKey + "=" + PairTail(value, p);
    var after := if value == "" then p.aroundValue + value + p.after else p.after;
    assert AllBlank(after);
    assert LineOf(Pair(key, value), p) == p.before + t + after;
    TrimDropsPadding(p.before, t, after);
    assert key + p.aroundKey == "" + key + p.aroundKey;
    TrimDropsPadding("", key, p.aroundKey);
    var around := if value == "" then "" else p.aroundValue;
    assert PairTail(value, p) == around + value + "";
    TrimDropsPadding(around, value, "");
  }

  lemma PairSplits(key: string, value: string, p: Padding)
    requires LegalKey(key) && LegalValue(value) && Blank(p)
    ensures var left := key + p.aroundKey;
      IndexOf(left + "=" + PairTail(value, p), '=') == |left| && !Has(PairTail(value, p), '=')
  {
    hide IndexOf, Trimmed;
    HasOf(key, '=');
    HasOf(value, '=');
    HasOf(PairTail(value, p), '=');
    IndexIsFirst(key + p.aroundKey + "=" + PairTail(value, p), '=', |key + p.aroundKey|);
  }

  /** Blank lines and comment lines say nothing, whatever whitespace surrounds them. */
  lemma CommentsSayNothing(before: string, comment: string, after: string)
    requires AllBlank(before) && AllBlank(after)
    requires comment != "" ==> !IsBlank(comment[|comment| - 1]) && (comment[0] == '#' || comment[0] == ';')
    ensures ItemOf(before + comment + after) == Noise
  {
    TrimDropsPadding(before, comment, after);
  }

  /** Lines put together with either line end. */
  function JoinLines(lines: seq<string>, crs: seq<bool>): string
    requires |lines| == |crs|
  {
    if lines == [] then "" else lines[0] + (if crs[0] then "\r\n" else "\n") + JoinLines(lines[1..], crs[1..])
  }

  predicate OneLine(line: string) {
    !Has(line, '\n') && (line != "" ==> line[|line| - 1] != '\r')
  }

  lemma OneLineSplits(line: string, rest: string)
    requires !Has(line, '\n')
    ensures SplitLines(line + "\n" + rest) == [StripReturn(line)] + SplitLines(rest)
  {
    hide StripReturn;
    var text := line + "\n" + rest;
    HasOf(line, '\n');
    IndexIsFirst(text, '\n', |line|);
    assert text[..|line|] == line && text[|line| + 1..] == rest;
  }

  lemma ReturnIsStripped(line: string, cr: bool)
    requires OneLine(line)
    ensures StripReturn(line + if cr then "\r" else "") == line && !Has(line + if cr then "\r" else "", '\n')
  {
    HasOf(line, '\n');
    HasOf(line + if cr then "\r" else "", '\n');
    if !cr { assert line + "" == line; }
  }

  lemma {:induction false} SplitEndedLines(lines: seq<string>, crs: seq<bool>, last: string)
    requires |lines| == |crs| && (forall i :: 0 <= i < |lines| ==> OneLine(lines[i])) && OneLine(last)
    ensures SplitLines(JoinLines(lines, crs) + last) == lines + if last == "" then [] else [last]
  {
    hide OneLine, StripReturn, Has;
    if lines == [] {
      assert JoinLines(lines, crs) + last == last;
      LastLineSplits(last);
    } else {
      var line := lines[0] + if crs[0] then "\r" else "";
      var rest := JoinLines(lines[1..], crs[1..]);
      assert JoinLines(lines, crs) + last == line + "\n" + (rest + last);
      ReturnIsStripped(lines[0], crs[0]);
      OneLineSplits(line, rest + last);
      SplitEndedLines(lines[1..], crs[1..], last);
    }
  }

  lemma LastLineSplits(last: string)
    requires OneLine(last)
    ensures SplitLines(last) == if last == "" then [] else [last]
  {
    HasOf(last, '\n');
    assert IndexOf(last, '\n') == |last| && last[..|last|] == last;
  }

  /** A text of these lines; its last line may come without its line end. */
  function TextOf(lines: seq<string>, crs: seq<bool>, closed: bool): string
    requires |lines| == |crs|
  {
    var n := |lines| - 1;
    if closed || lines == [] then JoinLines(lines, crs) else JoinLines(lines[..n], crs[..n]) + lines[n]
  }

  /** Splitting undoes joining, whichever line ends were used; an empty last line without its line end is
      no line. */
  lemma SplitUndoesJoin(lines: seq<string>, crs: seq<bool>, closed: bool)
    requires |lines| == |crs| && forall i :: 0 <= i < |lines| ==> OneLine(lines[i])
    ensures SplitLines(TextOf(lines, crs, closed)) ==
      if !closed && lines != [] && lines[|lines| - 1] == "" then lines[..|lines| - 1] else lines
  {
    hide OneLine, SplitLines, JoinLines;
    var n := |lines| - 1;
    if closed || lines == [] {
      assert OneLine("") by { NothingIsOneLine(); }
      SplitEndedLines(lines, crs, "");
      assert JoinLines(lines, crs) + "" == JoinLines(lines, crs);
    } else {
      SplitEndedLines(lines[..n], crs[..n], lines[n]);
      assert lines[..n] + [lines[n]] == lines;
    }
  }

  lemma NothingIsOneLine()
    ensures OneLine("")
  {
  }
}
