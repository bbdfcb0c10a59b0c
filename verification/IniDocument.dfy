/** The strict INI document: fixed sections, open section families, and one slot per declared key. */
module IniDocuments {
  import opened Wrappers
  import opened IniText

  const FAMILY_SEPARATOR: char := '.'
  const MAXIMUM_FAMILY_INSTANCE_COUNT: nat := 64

  datatype Field = Field(section: string, key: string, isList: bool)
  datatype FamilyField = FamilyField(family: nat, key: string, isList: bool)

  /** A closed schema: its sections and their keys, its families and the keys every instance answers to. */
  datatype Schema = Schema(sections: seq<string>, fields: seq<Field>, families: seq<string>,
                           familyFields: seq<FamilyField>)

  ghost predicate ValidSchema(s: Schema) {
    && (forall i, j :: 0 <= i < j < |s.sections| ==> s.sections[i] != s.sections[j])
    && (forall i :: 0 <= i < |s.sections| ==> LegalName(s.sections[i]) && !Has(s.sections[i], FAMILY_SEPARATOR))
    && (forall i, j :: 0 <= i < j < |s.fields| ==>
          s.fields[i].section != s.fields[j].section || s.fields[i].key != s.fields[j].key)
    && (forall i :: 0 <= i < |s.fields| ==> s.fields[i].section in s.sections && LegalKey(s.fields[i].key))
    && (forall i, j :: 0 <= i < j < |s.families| ==> s.families[i] != s.families[j])
    && (forall i :: 0 <= i < |s.families| ==> LegalName(s.families[i]) && !Has(s.families[i], FAMILY_SEPARATOR))
    && (forall i, j :: 0 <= i < j < |s.familyFields| ==>
          s.familyFields[i].family != s.familyFields[j].family || s.familyFields[i].key != s.familyFields[j].key)
    && (forall i :: 0 <= i < |s.familyFields| ==>
          s.familyFields[i].family < |s.families| && LegalKey(s.familyFields[i].key))
  }

  /** Stored values by the slot of their field. */
  type Slots = map<nat, string>

  datatype Instance = Instance(family: nat, name: string, values: Slots)

  datatype Cursor = InSection(section: nat) | InInstance(instance: nat)

  datatype Document = Document(seen: set<nat>, values: Slots, instances: seq<Instance>, cursor: Option<Cursor>)

  const EMPTY_DOCUMENT := Document({}, map[], [], None)

  datatype MissingKey = MissingField(field: nat) | MissingFamilyField(instance: nat, familyField: nat)

  datatype IniError =
    | SyntaxInvalid | ValueInvalid | KeyUnknown | KeyDuplicate | SectionUnknown | SectionDuplicate
    | SectionLimitExceeded
    | KeyMissing(missing: seq<MissingKey>)

  // ---------------------------------------------------------------- lookups

  function FindName(names: seq<string>, name: string): (r: Option<nat>)
    ensures r.Some? ==> r.value < |names| && names[r.value] == name
    ensures r.None? ==> name !in names
  {
    if names == [] then None
    else if names[|names| - 1] == name && FindName(names[..|names| - 1], name).None? then Some(|names| - 1)
    else FindName(names[..|names| - 1], name)
  }

  function FindField(fields: seq<Field>, section: string, key: string): (r: Option<nat>)
    ensures r.Some? ==> r.value < |fields| && fields[r.value].section == section && fields[r.value].key == key
    ensures r.None? ==> forall f :: f in fields ==> f.section != section || f.key != key
  {
    if fields == [] then None
    else
      var n := |fields| - 1;
      var earlier := FindField(fields[..n], section, key);
      if earlier.None? && fields[n].section == section && fields[n].key == key then Some(n) else earlier
  }

  function FindFamilyField(fields: seq<FamilyField>, family: nat, key: string): (r: Option<nat>)
    ensures r.Some? ==> r.value < |fields| && fields[r.value].family == family && fields[r.value].key == key
    ensures r.None? ==> forall f :: f in fields ==> f.family != family || f.key != key
  {
    if fields == [] then None
    else
      var n := |fields| - 1;
      var earlier := FindFamilyField(fields[..n], family, key);
      if earlier.None? && fields[n].family == family && fields[n].key == key then Some(n) else earlier
  }

  /** A family header split at its first separator: the declared family and the open instance name. */
  function FindFamily(s: Schema, name: string): (r: Option<(nat, string)>)
    ensures r.Some? ==>
      r.value.0 < |s.families| && r.value.1 != "" && name == s.families[r.value.0] + [FAMILY_SEPARATOR] + r.value.1
  {
    var i := IndexOf(name, FAMILY_SEPARATOR);
    if i == |name| || i + 1 == |name| then None
    else
      match FindName(s.families, name[..i])
      case None => None
      case Some(f) =>
        assert name == name[..i] + [name[i]] + name[i + 1..];
        Some((f, name[i + 1..]))
  }

  function FindInstance(instances: seq<Instance>, family: nat, name: string): (r: Option<nat>)
    ensures r.Some? ==> r.value < |instances| && instances[r.value].family == family && instances[r.value].name == name
    ensures r.None? ==> forall i :: i in instances ==> i.family != family || i.name != name
  {
    if instances == [] then None
    else
      var n := |instances| - 1;
      var earlier := FindInstance(instances[..n], family, name);
      if earlier.None? && instances[n].family == family && instances[n].name == name then Some(n) else earlier
  }

  // ---------------------------------------------------------------- one line's effect

  /** A key may occur once, and only a list may be explicitly empty. */
  function Store(slots: Slots, slot: nat, isList: bool, value: string): Result<Slots, IniError> {
    if slot in slots then Failure(KeyDuplicate)
    else if value == "" && !isList then Failure(ValueInvalid)
    else Success(slots[slot := value])
  }

  function OpenSection(s: Schema, d: Document, name: string): Result<Document, IniError> {
    match FindName(s.sections, name)
    case Some(i) =>
      if i in d.seen then Failure(SectionDuplicate)
      else Success(d.(seen := d.seen + {i}, cursor := Some(InSection(i))))
    case None =>
      match FindFamily(s, name)
      case None => Failure(SectionUnknown)
      case Some(header) =>
        if FindInstance(d.instances, header.0, header.1).Some? then Failure(SectionDuplicate)
        else if |d.instances| >= MAXIMUM_FAMILY_INSTANCE_COUNT then Failure(SectionLimitExceeded)
        else
          Success(d.(instances := d.instances + [Instance(header.0, header.1, map[])],
                     cursor := Some(InInstance(|d.instances|))))
  }

  ghost predicate CursorInRange(s: Schema, d: Document) {
    match d.cursor
    case None => true
    case Some(InSection(i)) => i < |s.sections|
    case Some(InInstance(i)) => i < |d.instances|
  }

  function StorePair(s: Schema, d: Document, key: string, value: string): Result<Document, IniError>
    requires d.cursor.Some? && CursorInRange(s, d)
  {
    match d.cursor.value
    case InInstance(i) =>
      var instance := d.instances[i];
      (match FindFamilyField(s.familyFields, instance.family, key)
       case None => Failure(KeyUnknown)
       case Some(slot) =>
         match Store(instance.values, slot, s.familyFields[slot].isList, value)
         case Failure(e) => Failure(e)
         case Success(values) => Success(d.(instances := d.instances[i := instance.(values := values)])))
    case InSection(i) =>
      match FindField(s.fields, s.sections[i], key)
      case None => Failure(KeyUnknown)
      case Some(slot) =>
        match Store(d.values, slot, s.fields[slot].isList, value)
        case Failure(e) => Failure(e)
        case Success(values) => Success(d.(values := values))
  }

  function Apply(s: Schema, d: Document, item: Item): Result<Document, IniError>
    requires CursorInRange(s, d)
  {
    match item
    case Noise => Success(d)
    case Header(name) => OpenSection(s, d, name)
    case Pair(key, value) => if d.cursor.None? then Failure(SyntaxInvalid) else StorePair(s, d, key, value)
    case Malformed(emptyKey) => Failure(if emptyKey && d.cursor.Some? then ValueInvalid else SyntaxInvalid)
  }

  lemma ApplyKeepsCursor(s: Schema, d: Document, item: Item)
    requires CursorInRange(s, d)
    ensures Apply(s, d, item).Success? ==> CursorInRange(s, Apply(s, d, item).value)
  {
  }

  function ApplyAll(s: Schema, d: Document, items: seq<Item>): (r: Result<Document, IniError>)
    requires CursorInRange(s, d)
    ensures r.Success? ==> CursorInRange(s, r.value)
    decreases |items|
  {
    if items == [] then Success(d)
    else
      ApplyKeepsCursor(s, d, items[0]);
      match Apply(s, d, items[0])
      case Failure(e) => Failure(e)
      case Success(next) => ApplyAll(s, next, items[1..])
  }

  // ---------------------------------------------------------------- the whole document

  /** The fixed keys nobody set, among the first n. */
  function MissingFields(s: Schema, values: Slots, n: nat): seq<MissingKey> {
    if n == 0 then [] else MissingFields(s, values, n - 1) + if n - 1 in values then [] else [MissingField(n - 1)]
  }

  function MissingInInstance(s: Schema, instances: seq<Instance>, i: nat, n: nat): seq<MissingKey>
    requires i < |instances| && n <= |s.familyFields|
  {
    if n == 0 then []
    else
      MissingInInstance(s, instances, i, n - 1) +
      if s.familyFields[n - 1].family != instances[i].family || n - 1 in instances[i].values then []
      else [MissingFamilyField(i, n - 1)]
  }

  function MissingInInstances(s: Schema, instances: seq<Instance>, n: nat): seq<MissingKey>
    requires n <= |instances|
  {
    if n == 0 then []
    else MissingInInstances(s, instances, n - 1) + MissingInInstance(s, instances, n - 1, |s.familyFields|)
  }

  function Missing(s: Schema, d: Document): seq<MissingKey> {
    MissingFields(s, d.values, |s.fields|) + MissingInInstances(s, d.instances, |d.instances|)
  }

  datatype Table = Table(values: Slots, instances: seq<Instance>)

  function RequireAll(s: Schema, d: Document): Result<Table, IniError> {
    if Missing(s, d) != [] then Failure(KeyMissing(Missing(s, d))) else Success(Table(d.values, d.instances))
  }

  /** The table a text declares, or the first thing wrong with it. */
  function Parse(s: Schema, contents: string): Result<Table, IniError> {
    match ApplyAll(s, EMPTY_DOCUMENT, ItemsOf(SplitLines(contents)))
    case Failure(e) => Failure(e)
    case Success(d) => RequireAll(s, d)
  }

  /** A text's effect is its first line's, then the rest's. */
  lemma LineThenRest(s: Schema, d: Document, text: string)
    requires CursorInRange(s, d) && text != ""
    ensures var end := IndexOf(text, '\n');
      var applied := Apply(s, d, ItemOf(StripReturn(text[..end])));
      var rest := if end == |text| then "" else text[end + 1..];
      && (applied.Failure? ==> ApplyAll(s, d, ItemsOf(SplitLines(text))) == Failure(applied.error))
      && (applied.Success? ==> CursorInRange(s, applied.value))
      && (applied.Success? ==>
            ApplyAll(s, d, ItemsOf(SplitLines(text))) == ApplyAll(s, applied.value, ItemsOf(SplitLines(rest))))
  {
    hide ItemOf, Apply, CursorInRange, StripReturn, IndexOf, SplitLines, ItemsOf;
    var end := IndexOf(text, '\n');
    var line, rest := StripReturn(text[..end]), if end == |text| then "" else text[end + 1..];
    FirstLine(text);
    var items := ItemsOf(SplitLines(text));
    assert items[0] == ItemOf(line) && items[1..] == ItemsOf(SplitLines(rest));
    ApplyKeepsCursor(s, d, items[0]);
  }

  lemma FirstLine(text: string)
    requires text != ""
    ensures var end := IndexOf(text, '\n');
      var rest := if end == |text| then "" else text[end + 1..];
      ItemsOf(SplitLines(text)) == [ItemOf(StripReturn(text[..end]))] + ItemsOf(SplitLines(rest))
  {
    hide ItemOf, StripReturn, IndexOf;
    var end := IndexOf(text, '\n');
    var line, rest := StripReturn(text[..end]), if end == |text| then "" else text[end + 1..];
    var lines := SplitLines(text);
    assert lines == [line] + SplitLines(rest);
    assert lines[0] == line && lines[1..] == SplitLines(rest);
  }

  lemma NothingLeft(s: Schema, d: Document)
    requires CursorInRange(s, d)
    ensures ApplyAll(s, d, ItemsOf(SplitLines(""))) == Success(d)
  {
  }

  // ---------------------------------------------------------------- the parser

  class StrictIniDocument {
    const schema: Schema
    var seen: set<nat>
    var values: Slots
    var instances: seq<Instance>
    var cursor: Option<Cursor>

    function Now(): Document
      reads this
    {
      Document(seen, values, instances, cursor)
    }

    ghost predicate Valid()
      reads this
    {
      CursorInRange(schema, Now())
    }

    constructor (schema: Schema)
      ensures Valid() && this.schema == schema && Now() == EMPTY_DOCUMENT
    {
      this.schema := schema;
      seen := {};
      values := map[];
      instances := [];
      cursor := None;
    }

    /** A whole file, or its first error. */
    method ParseDocument(contents: string) returns (r: Result<Table, IniError>)
      requires Valid() && Now() == EMPTY_DOCUMENT
      modifies this
      ensures r == Parse(schema, contents)
    {
      var parsed := ParseLines(contents);
      if parsed.Some? { return Failure(parsed.value); }
      var missing := FindMissing();
      r := if missing != [] then Failure(KeyMissing(missing)) else Success(Table(values, instances));
    }

    method ParseLines(contents: string) returns (failed: Option<IniError>)
      requires Valid()
      modifies this
      ensures Valid()
      ensures match ApplyAll(schema, old(Now()), ItemsOf(SplitLines(contents)))
        case Failure(e) => failed == Some(e)
        case Success(d) => failed == None && Now() == d
    {
      hide SplitLines, ItemsOf, ApplyAll, Apply, ItemOf, IndexOf, CursorInRange;
      var start := 0;
      while start < |contents|
        invariant start <= |contents| && Valid()
        invariant ApplyAll(schema, old(Now()), ItemsOf(SplitLines(contents))) ==
          ApplyAll(schema, Now(), ItemsOf(SplitLines(contents[start..])))
      {
        var rest := contents[start..];
        LineThenRest(schema, Now(), rest);
        var length := IndexOf(rest, '\n');
        var line := rest[..length];
        if line != "" && line[|line| - 1] == '\r' { line := line[..|line| - 1]; }
        failed := ParseLine(line);
        if failed.Some? { return; }
        if length == |rest| {
          NothingLeft(schema, Now());
          return;
        }
        assert contents[start + length + 1..] == rest[length + 1..];
        start := start + length + 1;
      }
      NothingLeft(schema, Now());
      assert contents[start..] == "";
      failed := None;
    }

    method ParseLine(line: string) returns (failed: Option<IniError>)
      requires Valid()
      modifies this
      ensures Valid()
      ensures match Apply(schema, old(Now()), ItemOf(line))
        case Failure(e) => failed == Some(e)
        case Success(d) => failed == None && Now() == d
    {
      failed := None;
      var t := TrimHorizontalWhitespace(line);
      if t == "" || t[0] == '#' || t[0] == ';' { return; }
      if t[0] == '[' {
        if |t| < 3 || t[|t| - 1] != ']' || IndexOf(t, ']') != |t| - 1 { return Some(SyntaxInvalid); }
        failed := Open(t[1..|t| - 1]);
        return;
      }
      if cursor.None? { return Some(SyntaxInvalid); }
      var delimiter := IndexOf(t, '=');
      if delimiter == |t| || Has(t[delimiter + 1..], '=') { return Some(SyntaxInvalid); }
      var key := TrimHorizontalWhitespace(t[..delimiter]);
      if key == "" { return Some(ValueInvalid); }
      var value := TrimHorizontalWhitespace(t[delimiter + 1..]);
      match cursor.value {
        case InInstance(i) =>
          var instance := instances[i];
          var slot := FindFamilyField(schema.familyFields, instance.family, key);
          if slot.None? { return Some(KeyUnknown); }
          match Store(instance.values, slot.value, schema.familyFields[slot.value].isList, value) {
            case Failure(e) => failed := Some(e);
            case Success(stored) => instances := instances[i := instance.(values := stored)];
          }
        case InSection(i) =>
          var slot := FindField(schema.fields, schema.sections[i], key);
          if slot.None? { return Some(KeyUnknown); }
          match Store(values, slot.value, schema.fields[slot.value].isList, value) {
            case Failure(e) => failed := Some(e);
            case Success(stored) => values := stored;
          }
      }
    }

    method Open(name: string) returns (failed: Option<IniError>)
      requires Valid()
      modifies this
      ensures Valid()
      ensures match OpenSection(schema, old(Now()), name)
        case Failure(e) => failed == Some(e)
        case Success(d) => failed == None && Now() == d
    {
      failed := None;
      var section := FindName(schema.sections, name);
      if section.Some? {
        if section.value in seen { return Some(SectionDuplicate); }
        seen := seen + {section.value};
        cursor := Some(InSection(section.value));
        return;
      }
      var header := FindFamily(schema, name);
      if header.None? { return Some(SectionUnknown); }
      var (family, instanceName) := header.value;
      for i := 0 to |instances|
        invariant FindInstance(instances[..i], family, instanceName).None? && Now() == old(Now())
      {
        assert instances[..i + 1][..i] == instances[..i];
        if instances[i].family == family && instances[i].name == instanceName { return Some(SectionDuplicate); }
      }
      assert instances[..|instances|] == instances;
      if |instances| >= MAXIMUM_FAMILY_INSTANCE_COUNT { return Some(SectionLimitExceeded); }
      instances := instances + [Instance(family, instanceName, map[])];
      cursor := Some(InInstance(|instances| - 1));
    }

    method FindMissing() returns (missing: seq<MissingKey>)
      ensures missing == Missing(schema, Now())
    {
      missing := [];
      for n := 0 to |schema.fields|
        invariant missing == MissingFields(schema, values, n)
      {
        if n !in values { missing := missing + [MissingField(n)]; }
      }
      ghost var fixed := missing;
      for i := 0 to |instances|
        invariant missing == fixed + MissingInInstances(schema, instances, i)
      {
        ghost var before := MissingInInstances(schema, instances, i);
        for n := 0 to |schema.familyFields|
          invariant missing == fixed + (before + MissingInInstance(schema, instances, i, n))
        {
          if schema.familyFields[n].family == instances[i].family && n !in instances[i].values {
            missing := missing + [MissingFamilyField(i, n)];
          }
        }
      }
    }
  }
}
