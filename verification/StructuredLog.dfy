/** One structured event as one line of JSON, and what a reader of the line gets back. */
module StructuredLogs {
  import opened Wrappers
  import opened Decimals
  import opened JsonText

  const MAXIMUM_STRING_FIELD_BYTE_COUNT: nat := 4096

  datatype Severity = Debug | Info | Warning | Error

  function SeverityName(s: Severity): string {
    match s
    case Debug => "debug"
    case Info => "info"
    case Warning => "warning"
    case Error => "error"
  }

  datatype Event = Event(
    severity: Severity,
    name: string,
    lifecycleState: Option<string>,
    requestId: Option<string>,
    connectionId: Option<string>,
    lobbyId: Option<nat>,
    tickSequence: Option<nat>,
    httpStatus: Option<nat>,
    closeCode: Option<nat>,
    errorCode: Option<string>,
    context: Option<string>,
    detail: Option<string>)

  datatype Content = Text(bytes: string) | Number(n: nat)
  datatype Field = Field(name: string, content: Content)

  ghost predicate BytesOrNone(s: Option<string>) {
    s.Some? ==> AllBytes(s.value)
  }

  ghost predicate ValidEvent(e: Event) {
    && AllBytes(e.name) && BytesOrNone(e.lifecycleState) && BytesOrNone(e.requestId) && BytesOrNone(e.connectionId)
    && BytesOrNone(e.errorCode) && BytesOrNone(e.context) && BytesOrNone(e.detail)
  }

  // ---------------------------------------------------------------- the line

  /** The part of a string field that is kept. */
  function Retained(v: string): string {
    if |v| <= MAXIMUM_STRING_FIELD_BYTE_COUNT then v else v[..MAXIMUM_STRING_FIELD_BYTE_COUNT]
  }

  predicate IsTruncated(c: Content) {
    c.Text? && |c.bytes| > MAXIMUM_STRING_FIELD_BYTE_COUNT
  }

  predicate ValidContent(c: Content) {
    c.Text? ==> AllBytes(c.bytes)
  }

  function ContentText(c: Content): string
    requires ValidContent(c)
  {
    match c
    case Text(bytes) => JsonString(Retained(bytes))
    case Number(n) => PrintDecimal(n)
  }

  function FieldText(f: Field): string
    requires ValidContent(f.content)
  {
    "\"" + f.name + "\":" + ContentText(f.content)
  }

  /** Fields after the first, each behind its comma. */
  function FieldsText(fields: seq<Field>): string
    requires forall f :: f in fields ==> ValidContent(f.content)
  {
    if fields == [] then ""
    else FieldsText(fields[..|fields| - 1]) + ("," + FieldText(fields[|fields| - 1]))
  }

  predicate AnyTruncated(fields: seq<Field>) {
    exists f :: f in fields && IsTruncated(f.content)
  }

  const TRUNCATED_MARKER: string := ",\"truncated\":true"

  function Line(first: Field, others: seq<Field>): string
    requires ValidContent(first.content) && forall f :: f in others ==> ValidContent(f.content)
  {
    "{" + FieldText(first) + FieldsText(others) + (if AnyTruncated([first] + others) then TRUNCATED_MARKER else "") +
      "}\n"
  }

  function OptionalText(name: string, s: Option<string>): seq<Field> {
    if s.Some? then [Field(name, Text(s.value))] else []
  }

  function OptionalNumber(name: string, n: Option<nat>): seq<Field> {
    if n.Some? then [Field(name, Number(n.value))] else []
  }

  function TimestampField(timestamp: string): Field {
    Field("timestamp_utc", Text(timestamp))
  }

  function HeadFields(e: Event): seq<Field> {
    [Field("severity", Text(SeverityName(e.severity)))] + [Field("event", Text(e.name))]
  }

  function IdentityFields(e: Event): seq<Field> {
    OptionalText("lifecycle_state", e.lifecycleState) + OptionalText("request_id", e.requestId) +
      OptionalText("connection_id", e.connectionId)
  }

  function NumberFields(e: Event): seq<Field> {
    OptionalNumber("lobby_id", e.lobbyId) + OptionalNumber("tick_sequence", e.tickSequence) +
    OptionalNumber("http_status", e.httpStatus) + OptionalNumber("close_code", e.closeCode)
  }

  function ErrorFields(e: Event): seq<Field> {
    OptionalText("error_code", e.errorCode) + OptionalText("context", e.context) + OptionalText("detail", e.detail)
  }

  /** What an event carries after its timestamp, in the order it is written. */
  function FieldsOf(e: Event): seq<Field> {
    HeadFields(e) + IdentityFields(e) + NumberFields(e) + ErrorFields(e)
  }

  lemma SeverityIsBytes(s: Severity)
    ensures AllBytes(SeverityName(s)) && |SeverityName(s)| <= 7
  {
  }

  lemma FieldsAreValid(e: Event)
    requires ValidEvent(e)
    ensures forall f :: f in FieldsOf(e) ==> ValidContent(f.content)
  {
    hide AllBytes, SeverityName;
    SeverityIsBytes(e.severity);
  }

  // ---------------------------------------------------------------- the writer

  class LineWriter {
    var output: string
    var truncated: bool

    constructor ()
      ensures output == "" && !truncated
    {
      output := "";
      truncated := false;
    }

    method AppendJsonString(value: string)
      requires AllBytes(value)
      modifies this
      ensures output == old(output) + ContentText(Text(value))
      ensures truncated == (old(truncated) || IsTruncated(Text(value)))
    {
      hide EscapeAll;
      var retained := if |value| <= MAXIMUM_STRING_FIELD_BYTE_COUNT then |value| else MAXIMUM_STRING_FIELD_BYTE_COUNT;
      truncated := truncated || retained != |value|;
      output := output + "\"";
      AppendEscaped(value[..retained]);
      output := output + "\"";
      assert value[..retained] == Retained(value);
    }

    method AppendEscaped(kept: string)
      requires AllBytes(kept)
      modifies `output
      ensures output == old(output) + EscapeAll(kept)
    {
      hide Escaped;
      for i := 0 to |kept|
        invariant output == old(output) + EscapeAll(kept[..i])
      {
        assert kept[..i + 1][..i] == kept[..i];
        output := output + Escaped(kept[i]);
      }
      assert kept[..|kept|] == kept;
    }

    method AppendField(f: Field)
      requires ValidContent(f.content)
      modifies this
      ensures output == old(output) + ("," + FieldText(f)) && truncated == (old(truncated) || IsTruncated(f.content))
    {
      output := output + ",\"" + f.name + "\":";
      match f.content {
        case Text(bytes) => AppendJsonString(bytes);
        case Number(n) => output := output + PrintDecimal(n);
      }
    }

    method AppendOptionalText(name: string, s: Option<string>, ghost fields: seq<Field>, ghost start: string,
                              ghost first: Field)
      requires BytesOrNone(s) && Written(fields, start, first)
      modifies this
      ensures Written(fields + OptionalText(name, s), start, first)
    {
      hide FieldsText, FieldText, AnyTruncated, ValidContent, AllBytes;
      if s.Some? {
        AppendField(Field(name, Text(s.value)));
        FieldsGrow(fields, Field(name, Text(s.value)));
      } else {
        assert fields + [] == fields;
      }
    }

    method AppendOptionalNumber(name: string, n: Option<nat>, ghost fields: seq<Field>, ghost start: string,
                                ghost first: Field)
      requires Written(fields, start, first)
      modifies this
      ensures Written(fields + OptionalNumber(name, n), start, first)
    {
      hide FieldsText, FieldText, AnyTruncated, ValidContent, AllBytes;
      if n.Some? {
        AppendField(Field(name, Number(n.value)));
        FieldsGrow(fields, Field(name, Number(n.value)));
      } else {
        assert fields + [] == fields;
      }
    }

    /** So far the output is the start and these fields, and the flag says whether any was cut. */
    ghost predicate Written(fields: seq<Field>, start: string, first: Field)
      reads this
    {
      && (forall f :: f in fields ==> ValidContent(f.content))
      && output == start + FieldsText(fields) && truncated == AnyTruncated([first] + fields)
    }
  }

  lemma FieldsGrow(fields: seq<Field>, f: Field)
    requires (forall x :: x in fields ==> ValidContent(x.content)) && ValidContent(f.content)
    ensures forall x :: x in fields + [f] ==> ValidContent(x.content)
    ensures FieldsText(fields + [f]) == FieldsText(fields) + ("," + FieldText(f))
    ensures forall first: Field :: AnyTruncated([first] + (fields + [f])) <==>
      AnyTruncated([first] + fields) || IsTruncated(f.content)
  {
    assert (fields + [f])[..|fields|] == fields;
    forall first: Field
      ensures AnyTruncated([first] + (fields + [f])) <==> AnyTruncated([first] + fields) || IsTruncated(f.content)
    {
      assert [first] + (fields + [f]) == [first] + fields + [f];
    }
  }

  /** The whole line, field by field. */
  method EncodeEvent(e: Event, timestamp: string) returns (line: string)
    requires ValidEvent(e) && AllBytes(timestamp)
    ensures forall f :: f in FieldsOf(e) ==> ValidContent(f.content)
    ensures line == Line(TimestampField(timestamp), FieldsOf(e))
  {
    hide AllBytes, FieldsText, FieldText, AnyTruncated, HeadFields, IdentityFields, NumberFields, ErrorFields,
      ValidEvent;
    ghost var first := TimestampField(timestamp);
    ghost var start := "{" + FieldText(first);
    var writer := StartLine(timestamp);
    AppendHead(writer, e, start, first);
    AppendIdentities(writer, e, HeadFields(e), start, first);
    AppendNumbers(writer, e, HeadFields(e) + IdentityFields(e), start, first);
    AppendErrors(writer, e, HeadFields(e) + IdentityFields(e) + NumberFields(e), start, first);
    if writer.truncated { writer.output := writer.output + TRUNCATED_MARKER; }
    line := writer.output + "}\n";
  }

  method StartLine(timestamp: string) returns (writer: LineWriter)
    requires AllBytes(timestamp)
    ensures fresh(writer) && writer.Written([], "{" + FieldText(TimestampField(timestamp)), TimestampField(timestamp))
  {
    hide AllBytes, ContentText;
    writer := new LineWriter();
    writer.output := "{\"timestamp_utc\":";
    writer.AppendJsonString(timestamp);
    StartIsWritten(timestamp);
  }

  lemma StartIsWritten(timestamp: string)
    requires AllBytes(timestamp)
    ensures "{\"timestamp_utc\":" + ContentText(Text(timestamp)) ==
      "{" + FieldText(TimestampField(timestamp)) + FieldsText([])
    ensures AnyTruncated([TimestampField(timestamp)] + []) <==> IsTruncated(Text(timestamp))
  {
    hide AllBytes, ContentText;
    var first := TimestampField(timestamp);
    assert [first] + [] == [first];
    assert "\"timestamp_utc\":" == "\"" + "timestamp_utc" + "\":";
    assert "{\"timestamp_utc\":" == "{" + "\"timestamp_utc\":";
  }

  method AppendHead(writer: LineWriter, e: Event, ghost start: string, ghost first: Field)
    requires ValidEvent(e) && writer.Written([], start, first)
    modifies writer
    ensures writer.Written(HeadFields(e), start, first)
  {
    hide AllBytes, FieldsText, FieldText, AnyTruncated, SeverityName;
    SeverityIsBytes(e.severity);
    var severity, name := Field("severity", Text(SeverityName(e.severity))), Field("event", Text(e.name));
    writer.AppendField(severity);
    FieldsGrow([], severity);
    assert [] + [severity] == [severity];
    writer.AppendField(name);
    FieldsGrow([severity], name);
  }

  method AppendIdentities(writer: LineWriter, e: Event, ghost fields: seq<Field>, ghost start: string,
                          ghost first: Field)
    requires ValidEvent(e) && writer.Written(fields, start, first)
    modifies writer
    ensures writer.Written(fields + IdentityFields(e), start, first)
  {
    hide AllBytes, FieldsText, FieldText, AnyTruncated, OptionalText;
    writer.AppendOptionalText("lifecycle_state", e.lifecycleState, fields, start, first);
    ghost var grown := fields + OptionalText("lifecycle_state", e.lifecycleState);
    writer.AppendOptionalText("request_id", e.requestId, grown, start, first);
    grown := grown + OptionalText("request_id", e.requestId);
    writer.AppendOptionalText("connection_id", e.connectionId, grown, start, first);
    grown := grown + OptionalText("connection_id", e.connectionId);
    assert grown == fields + IdentityFields(e);
  }

  method AppendNumbers(writer: LineWriter, e: Event, ghost fields: seq<Field>, ghost start: string, ghost first: Field)
    requires writer.Written(fields, start, first)
    modifies writer
    ensures writer.Written(fields + NumberFields(e), start, first)
  {
    hide AllBytes, FieldsText, FieldText, AnyTruncated, OptionalNumber;
    writer.AppendOptionalNumber("lobby_id", e.lobbyId, fields, start, first);
    ghost var grown := fields + OptionalNumber("lobby_id", e.lobbyId);
    writer.AppendOptionalNumber("tick_sequence", e.tickSequence, grown, start, first);
    grown := grown + OptionalNumber("tick_sequence", e.tickSequence);
    writer.AppendOptionalNumber("http_status", e.httpStatus, grown, start, first);
    grown := grown + OptionalNumber("http_status", e.httpStatus);
    writer.AppendOptionalNumber("close_code", e.closeCode, grown, start, first);
    grown := grown + OptionalNumber("close_code", e.closeCode);
    assert grown == fields + NumberFields(e);
  }

  method AppendErrors(writer: LineWriter, e: Event, ghost fields: seq<Field>, ghost start: string, ghost first: Field)
    requires ValidEvent(e) && writer.Written(fields, start, first)
    modifies writer
    ensures writer.Written(fields + ErrorFields(e), start, first)
  {
    hide AllBytes, FieldsText, FieldText, AnyTruncated, OptionalText;
    writer.AppendOptionalText("error_code", e.errorCode, fields, start, first);
    ghost var grown := fields + OptionalText("error_code", e.errorCode);
    writer.AppendOptionalText("context", e.context, grown, start, first);
    grown := grown + OptionalText("context", e.context);
    writer.AppendOptionalText("detail", e.detail, grown, start, first);
    grown := grown + OptionalText("detail", e.detail);
    assert grown == fields + ErrorFields(e);
  }
}
