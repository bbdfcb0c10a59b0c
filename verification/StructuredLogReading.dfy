/** A reader of log lines, and what it gets back from a written one. */
module StructuredLogReading {
  import opened Wrappers
  import opened Decimals
  import opened JsonText
  import opened StructuredLogs

  datatype Value = Points(points: seq<nat>) | Integer(n: nat) | True
  datatype Member = Member(name: seq<nat>, value: Value)

  function ReadValue(s: string): (r: Option<Read<Value>>)
    ensures r.Some? ==> |r.value.rest| < |s|
  {
    if s == "" then None
    else if s[0] == '\"' then
      match ReadString(s)
      case None => None
      case Some(text) => Some(Read(Points(text.value), text.rest))
    else if IsDigit(s[0]) then
      var n := DigitRun(s);
      match DecimalValue(s[..n])
      case None => None
      case Some(value) => Some(Read(Integer(value), s[n..]))
    else if |s| >= 4 && s[..4] == "true" then Some(Read(True, s[4..]))
    else None
  }

  function ReadMember(s: string): (r: Option<Read<Member>>)
    ensures r.Some? ==> |r.value.rest| < |s|
  {
    match ReadString(s)
    case None => None
    case Some(name) =>
      if name.rest == "" || name.rest[0] != ':' then None
      else
        match ReadValue(name.rest[1..])
        case None => None
        case Some(value) => Some(Read(Member(name.value, value.value), value.rest))
  }

  /** The members up to the closing brace. */
  function ReadMembers(s: string): Option<Read<seq<Member>>>
    decreases |s|
  {
    match ReadMember(s)
    case None => None
    case Some(first) =>
      if first.rest == "" then None
      else if first.rest[0] == '}' then Some(Read([first.value], first.rest[1..]))
      else if first.rest[0] != ',' then None
      else
        match ReadMembers(first.rest[1..])
        case None => None
        case Some(others) => Some(Read([first.value] + others.value, others.rest))
  }

  /** One object and the newline that ends it, and nothing after. */
  function ReadLine(s: string): Option<seq<Member>> {
    if s == "" || s[0] != '{' then None
    else
      match ReadMembers(s[1..])
      case None => None
      case Some(members) => if members.rest == "\n" then Some(members.value) else None
  }

  // ---------------------------------------------------------------- reading undoes writing

  /** A text the escaper leaves alone. */
  predicate PlainText(s: string) {
    forall i :: 0 <= i < |s| ==> Printable(s[i]) && s[i] != '\"' && s[i] != '\\'
  }

  lemma {:induction false} PlainTextIsNotEscaped(s: string)
    requires PlainText(s)
    ensures AllBytes(s) && EscapeAll(s) == s
  {
    if s != "" { PlainTextIsNotEscaped(s[..|s| - 1]); }
  }

  /** What a line keeps of a string: at most its first 4096 bytes. */
  function Kept(bytes: string): string {
    if |bytes| <= 4096 then bytes else bytes[..4096]
  }

  function MemberOf(f: Field): Member {
    Member(CodePoints(f.name), match f.content
      case Text(bytes) => Points(CodePoints(Kept(bytes)))
      case Number(n) => Integer(n))
  }

  /** Some string is longer than a line keeps. */
  predicate SomeIsCut(fields: seq<Field>) {
    exists f :: f in fields && f.content.Text? && |f.content.bytes| > 4096
  }

  function MembersOf(fields: seq<Field>): seq<Member> {
    seq(|fields|, i requires 0 <= i < |fields| => MemberOf(fields[i]))
  }

  const MARKER := Member(CodePoints("truncated"), True)

  ghost predicate Writable(f: Field) {
    ValidContent(f.content) && PlainText(f.name)
  }

  ghost predicate AllWritable(fields: seq<Field>) {
    (forall f :: f in fields ==> ValidContent(f.content)) && (forall f :: f in fields ==> PlainText(f.name))
  }

  lemma NumberReadsBack(n: nat, rest: string)
    requires rest != "" && !IsDigit(rest[0])
    ensures ReadValue(PrintDecimal(n) + rest) == Some(Read(Integer(n), rest))
  {
    hide ReadString, DecimalValue, PrintDecimal, DigitRun;
    var digits := PrintDecimal(n);
    RunStopsAfterDigits(digits, rest);
    ReadUndoesPrint(n);
    assert (digits + rest)[..|digits|] == digits && (digits + rest)[|digits|..] == rest;
  }

  lemma TextReadsBack(bytes: string, rest: string)
    requires AllBytes(bytes)
    ensures ReadValue(JsonString(bytes) + rest) == Some(Read(Points(CodePoints(bytes)), rest))
  {
    hide ReadString, EscapeAll, CodePoints, DigitRun, DecimalValue;
    StringReadsBack(bytes, rest);
  }

  lemma ContentReadsBack(c: Content, rest: string)
    requires ValidContent(c) && rest != "" && !IsDigit(rest[0])
    ensures ReadValue(ContentText(c) + rest) ==
      Some(Read(match c case Text(bytes) => Points(CodePoints(Kept(bytes))) case Number(n) => Integer(n), rest))
  {
    hide ReadValue, JsonString, CodePoints, PrintDecimal;
    match c
    case Text(bytes) => TextReadsBack(Retained(bytes), rest);
    case Number(n) => NumberReadsBack(n, rest);
  }

  lemma FieldReadsBack(f: Field, rest: string)
    requires Writable(f) && rest != "" && !IsDigit(rest[0])
    ensures ReadMember(FieldText(f) + rest) == Some(Read(MemberOf(f), rest))
  {
    hide ReadString, ReadValue, ContentText, EscapeAll, CodePoints;
    var value := ContentText(f.content) + rest;
    PlainTextIsNotEscaped(f.name);
    StringReadsBack(f.name, ":" + value);
    assert FieldText(f) + rest == JsonString(f.name) + (":" + value);
    assert (":" + value)[1..] == value;
    ContentReadsBack(f.content, rest);
  }

  lemma {:induction false} FieldsFromFront(fields: seq<Field>)
    requires fields != [] && forall f :: f in fields ==> ValidContent(f.content)
    ensures FieldsText(fields) == "," + FieldText(fields[0]) + FieldsText(fields[1..])
  {
    hide FieldText, ValidContent;
    var front, last := fields[..|fields| - 1], "," + FieldText(fields[|fields| - 1]);
    if |fields| == 1 {
      assert front == [] && fields[1..] == [];
      assert "" + last == last && last + "" == last;
    } else {
      FieldsFromFront(front);
      assert fields[1..][..|fields| - 2] == front[1..] && fields[1..][|fields| - 2] == fields[|fields| - 1];
      Associate("," + FieldText(fields[0]), FieldsText(front[1..]), last);
    }
  }

  function Tail(others: seq<Field>, cut: bool): string
    requires forall f :: f in others ==> ValidContent(f.content)
  {
    FieldsText(others) + (if cut then TRUNCATED_MARKER else "") + "}\n"
  }

  function MarkerMembers(cut: bool): seq<Member> {
    if cut then [MARKER] else []
  }

  lemma TrueReadsBack(rest: string)
    ensures ReadValue("true" + rest) == Some(Read(True, rest))
  {
    var s := "true" + rest;
    assert s[..4] == "true" && s[4..] == rest;
  }

  lemma MarkerReadsBack()
    ensures ReadMembers(TRUNCATED_MARKER[1..] + "}\n") == Some(Read([MARKER], "\n"))
  {
    hide ReadString, ReadValue, CodePoints;
    var name, rest := "truncated", "true" + "}\n";
    PlainTextIsNotEscaped(name);
    StringReadsBack(name, ":" + rest);
    TrueReadsBack("}\n");
    assert TRUNCATED_MARKER[1..] + "}\n" == JsonString(name) + (":" + rest) by { MarkerText(); }
    assert (":" + rest)[1..] == rest;
    assert "}\n"[1..] == "\n";
  }

  lemma MarkerText()
    ensures TRUNCATED_MARKER[1..] + "}\n" == ("\"" + "truncated" + "\"") + (":" + ("true" + "}\n"))
  {
  }

  lemma LastMemberReadsBack(last: Field, cut: bool)
    requires Writable(last)
    ensures ReadMembers(FieldText(last) + Tail([], cut)) == Some(Read([MemberOf(last)] + MarkerMembers(cut), "\n"))
  {
    hide ReadMember, FieldText, MemberOf, CodePoints;
    var tail := Tail([], cut);
    assert tail == (if cut then TRUNCATED_MARKER else "") + "}\n";
    FieldReadsBack(last, tail);
    if cut {
      assert tail[1..] == TRUNCATED_MARKER[1..] + "}\n";
      MarkerReadsBack();
    } else {
      assert tail[1..] == "\n";
    }
    assert [MemberOf(last)] + [] == [MemberOf(last)];
    assert tail[0] == if cut then ',' else '}';
  }

  lemma NextMemberReadsBack(first: Field, rest: string, members: seq<Member>)
    requires Writable(first) && ReadMembers(rest) == Some(Read(members, "\n"))
    ensures ReadMembers(FieldText(first) + ("," + rest)) == Some(Read([MemberOf(first)] + members, "\n"))
  {
    hide ReadMember, FieldText, MemberOf, CodePoints;
    FieldReadsBack(first, "," + rest);
    assert ("," + rest)[1..] == rest;
  }

  lemma {:induction false} MembersReadBack(first: Field, others: seq<Field>, cut: bool)
    requires Writable(first) && AllWritable(others)
    ensures ReadMembers(FieldText(first) + Tail(others, cut)) ==
      Some(Read(MembersOf([first] + others) + MarkerMembers(cut), "\n"))
    decreases |others|
  {
    hide ReadMembers, FieldText, MemberOf, CodePoints, Tail;
    if others == [] {
      LastMemberReadsBack(first, cut);
      assert [first] + others == [first] && MembersOf([first]) == [MemberOf(first)];
    } else {
      var rest := FieldText(others[0]) + Tail(others[1..], cut);
      TailFromFront(others, cut);
      MembersReadBack(others[0], others[1..], cut);
      assert [others[0]] + others[1..] == others;
      NextMemberReadsBack(first, rest, MembersOf(others) + MarkerMembers(cut));
      MembersFromFront(first, others, MarkerMembers(cut));
    }
  }

  lemma TailFromFront(others: seq<Field>, cut: bool)
    requires others != [] && AllWritable(others)
    ensures Tail(others, cut) == "," + (FieldText(others[0]) + Tail(others[1..], cut))
  {
    hide FieldText;
    FieldsFromFront(others);
  }

  lemma MembersFromFront(first: Field, others: seq<Field>, m: seq<Member>)
    ensures [MemberOf(first)] + (MembersOf(others) + m) == MembersOf([first] + others) + m
  {
    assert MembersOf([first] + others) == [MemberOf(first)] + MembersOf(others);
  }

  /** Reading a line back gives every field, a string as the code points of the bytes it kept, and the
      truncated marker exactly when some string field was longer than is kept. */
  lemma LineReadsBack(first: Field, others: seq<Field>)
    requires Writable(first) && AllWritable(others)
    ensures ReadLine(Line(first, others)) ==
      Some(MembersOf([first] + others) + MarkerMembers(SomeIsCut([first] + others)))
  {
    hide FieldText, ReadMembers, MembersOf, FieldsText;
    var cut := AnyTruncated([first] + others);
    MembersReadBack(first, others, cut);
    assert Line(first, others)[1..] == FieldText(first) + Tail(others, cut);
  }

  // ---------------------------------------------------------------- one ASCII line

  predicate AllPrintable(s: string) {
    forall i :: 0 <= i < |s| ==> Printable(s[i])
  }

  lemma FieldIsPrintable(f: Field)
    requires Writable(f)
    ensures AllPrintable(FieldText(f))
  {
    match f.content
    case Text(bytes) => EscapedIsPrintable(Retained(bytes));
    case Number(n) =>
  }

  lemma {:induction false} FieldsArePrintable(fields: seq<Field>)
    requires AllWritable(fields)
    ensures AllPrintable(FieldsText(fields))
  {
    hide FieldText, Writable;
    if fields != [] {
      FieldsArePrintable(fields[..|fields| - 1]);
      FieldIsPrintable(fields[|fields| - 1]);
    }
  }

  /** A line is printable ASCII with its one newline at the end. */
  lemma LineIsOneAsciiLine(first: Field, others: seq<Field>)
    requires Writable(first) && AllWritable(others)
    ensures var line := Line(first, others);
      line != "" && line[|line| - 1] == '\n' && AllPrintable(line[..|line| - 1])
  {
    hide FieldText, FieldsText, AnyTruncated;
    FieldIsPrintable(first);
    FieldsArePrintable(others);
    var line := Line(first, others);
    assert line[..|line| - 1] ==
      "{" + FieldText(first) + FieldsText(others) + (if AnyTruncated([first] + others) then TRUNCATED_MARKER else "") +
        "}";
  }

  // ---------------------------------------------------------------- every event

  function IfText(name: string, s: Option<string>): seq<Field> {
    match s case None => [] case Some(bytes) => [Field(name, Text(bytes))]
  }

  function IfNumber(name: string, n: Option<nat>): seq<Field> {
    match n case None => [] case Some(value) => [Field(name, Number(value))]
  }

  /** What an event carries after its timestamp: its severity by name, its own name, and each of the others it
      has, under these names and in this order. */
  lemma EventCarriesItsFields(e: Event)
    ensures var severity := match e.severity
        case Debug => "debug" case Info => "info" case Warning => "warning" case Error => "error";
      FieldsOf(e) ==
        [Field("severity", Text(severity)), Field("event", Text(e.name))] +
        IfText("lifecycle_state", e.lifecycleState) + IfText("request_id", e.requestId) +
        IfText("connection_id", e.connectionId) + IfNumber("lobby_id", e.lobbyId) +
        IfNumber("tick_sequence", e.tickSequence) + IfNumber("http_status", e.httpStatus) +
        IfNumber("close_code", e.closeCode) + IfText("error_code", e.errorCode) + IfText("context", e.context) +
        IfText("detail", e.detail)
  {
    hide OptionalText, OptionalNumber, IfText, IfNumber;
    forall name, s ensures OptionalText(name, s) == IfText(name, s) { TextsAgree(name, s); }
    forall name, n ensures OptionalNumber(name, n) == IfNumber(name, n) { NumbersAgree(name, n); }
  }

  lemma TextsAgree(name: string, s: Option<string>)
    ensures OptionalText(name, s) == IfText(name, s)
  {
  }

  lemma NumbersAgree(name: string, n: Option<nat>)
    ensures OptionalNumber(name, n) == IfNumber(name, n)
  {
  }

  lemma HeadIsPlain(e: Event)
    ensures PlainText("timestamp_utc") && forall f :: f in HeadFields(e) ==> PlainText(f.name)
  {
    hide SeverityName;
  }

  lemma IdentitiesArePlain(e: Event)
    ensures forall f :: f in IdentityFields(e) ==> PlainText(f.name)
  {
    assert PlainText("lifecycle_state") && PlainText("request_id") && PlainText("connection_id");
  }

  lemma NumbersArePlain(e: Event)
    ensures forall f :: f in NumberFields(e) ==> PlainText(f.name)
  {
    assert PlainText("lobby_id") && PlainText("tick_sequence") && PlainText("http_status") && PlainText("close_code");
  }

  lemma ErrorsArePlain(e: Event)
    ensures forall f :: f in ErrorFields(e) ==> PlainText(f.name)
  {
    assert PlainText("error_code") && PlainText("context") && PlainText("detail");
  }

  lemma EventIsWritable(e: Event, timestamp: string)
    requires ValidEvent(e) && AllBytes(timestamp)
    ensures Writable(TimestampField(timestamp)) && AllWritable(FieldsOf(e))
  {
    hide HeadFields, IdentityFields, NumberFields, ErrorFields, PlainText, AllBytes, ValidEvent;
    FieldsAreValid(e);
    HeadIsPlain(e);
    IdentitiesArePlain(e);
    NumbersArePlain(e);
    ErrorsArePlain(e);
  }

  /** Every encoded event is one ASCII line that reads back as its fields, each string field as its first
      4096 bytes, with the truncated marker exactly when one of them was longer. */
  lemma EventReadsBack(e: Event, timestamp: string)
    requires ValidEvent(e) && AllBytes(timestamp)
    ensures forall f :: f in FieldsOf(e) ==> ValidContent(f.content)
    ensures var fields := [TimestampField(timestamp)] + FieldsOf(e);
      var line := Line(TimestampField(timestamp), FieldsOf(e));
      && ReadLine(line) == Some(MembersOf(fields) + if SomeIsCut(fields) then [MARKER] else [])
      && line != "" && line[|line| - 1] == '\n' && AllPrintable(line[..|line| - 1])
  {
    hide FieldsOf, ReadLine, Line, MembersOf, SomeIsCut, AllPrintable, ValidEvent, AllBytes, PlainText;
    EventIsWritable(e, timestamp);
    LineReadsBack(TimestampField(timestamp), FieldsOf(e));
    LineIsOneAsciiLine(TimestampField(timestamp), FieldsOf(e));
  }
}
