/** Which texts the strict document accepts, said without its state: by what stands before each line. */
module IniAcceptance {
  import opened Wrappers
  import opened IniText
  import opened IniDocuments

  // ---------------------------------------------------------------- the reference reading

  /** The section a line standing here belongs to: the last header above it. */
  function SectionAt(above: seq<Item>): Option<string> {
    if above == [] then None
    else if above[|above| - 1].Header? then Some(above[|above| - 1].name)
    else SectionAt(above[..|above| - 1])
  }

  predicate Declared(items: seq<Item>, name: string) {
    Header(name) in items
  }

  /** The value a key was last given in a section. */
  function Lookup(items: seq<Item>, section: string, key: string): Option<string> {
    if items == [] then None
    else
      var above, last := items[..|items| - 1], items[|items| - 1];
      if last.Pair? && last.key == key && SectionAt(above) == Some(section) then Some(last.value)
      else Lookup(above, section, key)
  }

  /** How often a key occurs in a section. */
  function Occurrences(items: seq<Item>, section: string, key: string): nat {
    if items == [] then 0
    else
      var above, last := items[..|items| - 1], items[|items| - 1];
      Occurrences(above, section, key) +
        if last.Pair? && last.key == key && SectionAt(above) == Some(section) then 1 else 0
  }

  /** The headers that open a family instance, in order. */
  function FamilyHeaders(s: Schema, items: seq<Item>): seq<string> {
    if items == [] then []
    else
      var above, last := items[..|items| - 1], items[|items| - 1];
      FamilyHeaders(s, above) + if last.Header? && last.name !in s.sections then [last.name] else []
  }

  /** The schema has this key in this section, and lets it hold this value. */
  predicate Allows(s: Schema, section: string, key: string, value: string) {
    if section in s.sections then
      exists f :: f in s.fields && f.section == section && f.key == key && (value != "" || f.isList)
    else
      FindFamily(s, section).Some? &&
      exists f ::
        f in s.familyFields && f.family == FindFamily(s, section).value.0 && f.key == key && (value != "" || f.isList)
  }

  /** A line that may stand below these. */
  predicate LegalBelow(s: Schema, above: seq<Item>, item: Item) {
    match item
    case Noise => true
    case Malformed(_) => false
    case Header(name) =>
      && !Declared(above, name)
      && (name in s.sections
          || (FindFamily(s, name).Some? && |FamilyHeaders(s, above)| < 64))
    case Pair(key, value) =>
      && SectionAt(above).Some? && Lookup(above, SectionAt(above).value, key).None?
      && Allows(s, SectionAt(above).value, key, value)
  }

  /** Every section once, every key once and in a section that has it, every value allowed, and no more
      instances than fit. */
  predicate Legal(s: Schema, items: seq<Item>) {
    items == [] || (Legal(s, items[..|items| - 1]) && LegalBelow(s, items[..|items| - 1], items[|items| - 1]))
  }

  /** Every required key is given. */
  predicate Complete(s: Schema, items: seq<Item>) {
    && (forall f :: f in s.fields ==> Lookup(items, f.section, f.key).Some?)
    && (forall name, f ::
          && name in FamilyHeaders(s, items) && f in s.familyFields && FindFamily(s, name).Some?
          && f.family == FindFamily(s, name).value.0 ==>
          Lookup(items, name, f.key).Some?)
  }

  // ---------------------------------------------------------------- what the document's state records

  function Slot(values: Slots, f: nat): Option<string> {
    if f in values then Some(values[f]) else None
  }

  function FullName(s: Schema, i: Instance): string
    requires i.family < |s.families|
  {
    s.families[i.family] + [FAMILY_SEPARATOR] + i.name
  }

  ghost predicate FieldsRecorded(s: Schema, items: seq<Item>, values: Slots) {
    && (forall f :: f in values ==> f < |s.fields|)
    && (forall f :: 0 <= f < |s.fields| ==> Slot(values, f) == Lookup(items, s.fields[f].section, s.fields[f].key))
  }

  ghost predicate InstanceRecorded(s: Schema, items: seq<Item>, header: string, i: Instance) {
    && i.family < |s.families| && FullName(s, i) == header && FindFamily(s, header) == Some((i.family, i.name))
    && header !in s.sections
    && (forall f :: f in i.values ==> f < |s.familyFields|)
    && (forall f :: 0 <= f < |s.familyFields| ==>
          Slot(i.values, f) ==
            if s.familyFields[f].family == i.family then Lookup(items, header, s.familyFields[f].key) else None)
  }

  ghost predicate DistinctNames(names: seq<string>) {
    forall i, j :: 0 <= i < j < |names| ==> names[i] != names[j]
  }

  ghost predicate InstancesRecorded(s: Schema, items: seq<Item>, headers: seq<string>, instances: seq<Instance>) {
    && |headers| == |instances| && DistinctNames(headers)
    && forall i :: 0 <= i < |instances| ==> InstanceRecorded(s, items, headers[i], instances[i])
  }

  ghost predicate SectionsRecorded(s: Schema, items: seq<Item>, seen: set<nat>) {
    forall i :: 0 <= i < |s.sections| ==> (i in seen <==> Declared(items, s.sections[i]))
  }

  ghost predicate CursorRecorded(s: Schema, items: seq<Item>, headers: seq<string>, cursor: Option<Cursor>) {
    match cursor
    case None => SectionAt(items) == None
    case Some(InSection(i)) => i < |s.sections| && SectionAt(items) == Some(s.sections[i])
    case Some(InInstance(i)) => i < |headers| && SectionAt(items) == Some(headers[i])
  }

  ghost predicate Recorded(s: Schema, items: seq<Item>, d: Document) {
    && FieldsRecorded(s, items, d.values) && SectionsRecorded(s, items, d.seen)
    && InstancesRecorded(s, items, FamilyHeaders(s, items), d.instances)
    && CursorRecorded(s, items, FamilyHeaders(s, items), d.cursor)
  }

  // ---------------------------------------------------------------- small facts about the reference

  lemma {:induction false} UndeclaredHoldsNothing(items: seq<Item>, section: string, key: string)
    requires !Declared(items, section)
    ensures Lookup(items, section, key).None? && SectionAt(items) != Some(section)
  {
    if items != [] {
      var above := items[..|items| - 1];
      assert items == above + [items[|items| - 1]];
      UndeclaredHoldsNothing(above, section, key);
    }
  }

  lemma {:induction false} FamilyHeadersAreDeclared(s: Schema, items: seq<Item>, name: string)
    ensures name in FamilyHeaders(s, items) <==> Declared(items, name) && name !in s.sections
  {
    if items != [] {
      var above := items[..|items| - 1];
      assert items == above + [items[|items| - 1]];
      FamilyHeadersAreDeclared(s, above, name);
    }
  }

  lemma Below(above: seq<Item>, item: Item)
    ensures (above + [item])[..|above|] == above && (above + [item])[|above|] == item && |above + [item]| == |above| + 1
  {
  }

  /** A family header reads back as the family and the name it was made of. */
  lemma FullNameIsFound(s: Schema, family: nat, name: string)
    requires ValidSchema(s) && family < |s.families| && name != ""
    ensures FindFamily(s, s.families[family] + [FAMILY_SEPARATOR] + name) == Some((family, name))
    ensures s.families[family] + [FAMILY_SEPARATOR] + name !in s.sections
  {
    var prefix := s.families[family];
    var full := prefix + [FAMILY_SEPARATOR] + name;
    HasOf(prefix, FAMILY_SEPARATOR);
    IndexIsFirst(full, FAMILY_SEPARATOR, |prefix|);
    assert full[..|prefix|] == prefix && full[|prefix| + 1..] == name;
    assert Has(full, FAMILY_SEPARATOR);
  }

  lemma FieldIsFound(s: Schema, f: nat)
    requires ValidSchema(s) && f < |s.fields|
    ensures FindField(s.fields, s.fields[f].section, s.fields[f].key) == Some(f)
  {
    assert s.fields[f] in s.fields;
  }

  lemma FamilyFieldIsFound(s: Schema, f: nat)
    requires ValidSchema(s) && f < |s.familyFields|
    ensures FindFamilyField(s.familyFields, s.familyFields[f].family, s.familyFields[f].key) == Some(f)
  {
    assert s.familyFields[f] in s.familyFields;
  }

  lemma SectionIsFound(s: Schema, i: nat)
    requires ValidSchema(s) && i < |s.sections|
    ensures FindName(s.sections, s.sections[i]) == Some(i)
  {
    assert s.sections[i] in s.sections;
  }

  // ---------------------------------------------------------------- one line below the others

  lemma NoiseIsRecorded(s: Schema, items: seq<Item>, d: Document)
    requires Recorded(s, items, d)
    ensures Recorded(s, items + [Noise], d)
  {
    hide Lookup, SectionAt, FamilyHeaders;
    Below(items, Noise);
    QuietLine(s, items, Noise);
  }

  /** A line that is no pair gives no key a value, and one that is no header opens nothing. */
  lemma QuietLine(s: Schema, items: seq<Item>, item: Item)
    ensures !item.Pair? ==> forall section, key :: Lookup(items + [item], section, key) == Lookup(items, section, key)
    ensures !item.Header? ==>
      SectionAt(items + [item]) == SectionAt(items) && FamilyHeaders(s, items + [item]) == FamilyHeaders(s, items)
    ensures item.Header? ==> SectionAt(items + [item]) == Some(item.name)
    ensures item.Header? && item.name in s.sections ==> FamilyHeaders(s, items + [item]) == FamilyHeaders(s, items)
    ensures item.Header? && item.name !in s.sections ==>
      FamilyHeaders(s, items + [item]) == FamilyHeaders(s, items) + [item.name]
  {
    Below(items, item);
  }

  lemma PairLine(items: seq<Item>, key: string, value: string, section: string, k: string)
    ensures Lookup(items + [Pair(key, value)], section, k) ==
      if k == key && SectionAt(items) == Some(section) then Some(value) else Lookup(items, section, k)
  {
    Below(items, Pair(key, value));
  }

  lemma SectionHeaderIsRecorded(s: Schema, items: seq<Item>, d: Document, name: string)
    requires ValidSchema(s) && Recorded(s, items, d) && CursorInRange(s, d) && name in s.sections
    ensures var r := OpenSection(s, d, name);
      && (r.Success? <==> LegalBelow(s, items, Header(name)))
      && (r.Success? ==> Recorded(s, items + [Header(name)], r.value))
  {
    hide Lookup, SectionAt, FamilyHeaders, FindFamily;
    QuietLine(s, items, Header(name));
    var i := FindName(s.sections, name).value;
    forall j | 0 <= j < |s.sections| && j != i ensures s.sections[j] != name {}
  }

  lemma FamilyHeaderIsRecorded(s: Schema, items: seq<Item>, d: Document, name: string)
    requires ValidSchema(s) && Recorded(s, items, d) && CursorInRange(s, d) && name !in s.sections
    ensures var r := OpenSection(s, d, name);
      && (r.Success? <==> LegalBelow(s, items, Header(name)))
      && (r.Success? ==> Recorded(s, items + [Header(name)], r.value))
  {
    hide Lookup, SectionAt, FamilyHeaders, FindFamily, FindName, ValidSchema;
    assert FindName(s.sections, name).None?;
    QuietLine(s, items, Header(name));
    var headers := FamilyHeaders(s, items);
    if FindFamily(s, name).Some? {
      var (family, instanceName) := FindFamily(s, name).value;
      InstanceIsDeclared(s, items, d, name, family, instanceName);
      FamilyHeadersAreDeclared(s, items, name);
      if !Declared(items, name) {
        forall key ensures Lookup(items, name, key).None? { UndeclaredHoldsNothing(items, name, key); }
        var added := Instance(family, instanceName, map[]);
        assert InstanceRecorded(s, items + [Header(name)], name, added);
        forall i | 0 <= i < |d.instances|
          ensures InstanceRecorded(s, items + [Header(name)], headers[i], d.instances[i])
        {
          assert InstanceRecorded(s, items, headers[i], d.instances[i]);
        }
      }
    }
  }

  lemma InstanceIsDeclared(s: Schema, items: seq<Item>, d: Document, name: string, family: nat, instanceName: string)
    requires Recorded(s, items, d) && name !in s.sections && FindFamily(s, name) == Some((family, instanceName))
    ensures FindInstance(d.instances, family, instanceName).Some? <==> Declared(items, name)
  {
    hide Lookup, SectionAt, FamilyHeaders, FindFamily;
    var headers := FamilyHeaders(s, items);
    FamilyHeadersAreDeclared(s, items, name);
    if FindInstance(d.instances, family, instanceName).Some? {
      var i := FindInstance(d.instances, family, instanceName).value;
      assert InstanceRecorded(s, items, headers[i], d.instances[i]);
      assert headers[i] == name;
    }
    if Declared(items, name) {
      var i :| 0 <= i < |headers| && headers[i] == name;
      assert InstanceRecorded(s, items, headers[i], d.instances[i]);
      assert d.instances[i] in d.instances;
    }
  }

  lemma SectionPairIsRecorded(s: Schema, items: seq<Item>, d: Document, i: nat, key: string, value: string)
    requires ValidSchema(s) && Recorded(s, items, d) && CursorInRange(s, d) && d.cursor == Some(InSection(i))
    ensures var r := StorePair(s, d, key, value);
      && (r.Success? <==> LegalBelow(s, items, Pair(key, value)))
      && (r.Success? ==> Recorded(s, items + [Pair(key, value)], r.value))
  {
    hide Lookup, SectionAt, FamilyHeaders, FindFamily, FindField;
    var section, grown := s.sections[i], items + [Pair(key, value)];
    QuietLine(s, items, Pair(key, value));
    forall name, k
      ensures Lookup(grown, name, k) == if k == key && name == section then Some(value) else Lookup(items, name, k)
    {
      PairLine(items, key, value, name, k);
    }
    var slot := FindField(s.fields, section, key);
    if slot.Some? {
      OneField(s, slot.value);
      assert s.fields[slot.value] in s.fields;
    }
    InstancesOutlive(s, items, grown, d, section);
  }

  lemma OneField(s: Schema, slot: nat)
    requires ValidSchema(s) && slot < |s.fields|
    ensures forall f ::
      && 0 <= f < |s.fields|
      && s.fields[f].section == s.fields[slot].section && s.fields[f].key == s.fields[slot].key ==>
        f == slot
  {
  }

  /** A line in a fixed section changes no instance. */
  lemma InstancesOutlive(s: Schema, items: seq<Item>, grown: seq<Item>, d: Document, section: string)
    requires InstancesRecorded(s, items, FamilyHeaders(s, items), d.instances)
    requires FamilyHeaders(s, grown) == FamilyHeaders(s, items)
    requires section in s.sections && forall name, k :: name != section ==>
      Lookup(grown, name, k) == Lookup(items, name, k)
    ensures InstancesRecorded(s, grown, FamilyHeaders(s, grown), d.instances)
  {
    hide Lookup, FamilyHeaders, FindFamily, FullName;
    var headers := FamilyHeaders(s, items);
    forall i | 0 <= i < |d.instances| ensures InstanceRecorded(s, grown, headers[i], d.instances[i]) {
      assert InstanceRecorded(s, items, headers[i], d.instances[i]);
    }
  }

  lemma InstancePairIsRecorded(s: Schema, items: seq<Item>, d: Document, i: nat, key: string, value: string)
    requires ValidSchema(s) && Recorded(s, items, d) && CursorInRange(s, d) && d.cursor == Some(InInstance(i))
    ensures var r := StorePair(s, d, key, value);
      && (r.Success? <==> LegalBelow(s, items, Pair(key, value)))
      && (r.Success? ==> Recorded(s, items + [Pair(key, value)], r.value))
  {
    hide Lookup, SectionAt, FamilyHeaders, FindFamily, FindFamilyField, FullName;
    var headers, grown := FamilyHeaders(s, items), items + [Pair(key, value)];
    var header, instance := headers[i], d.instances[i];
    assert InstanceRecorded(s, items, header, instance);
    QuietLine(s, items, Pair(key, value));
    forall name, k
      ensures Lookup(grown, name, k) == if k == key && name == header then Some(value) else Lookup(items, name, k)
    {
      PairLine(items, key, value, name, k);
    }
    var slot := FindFamilyField(s.familyFields, instance.family, key);
    if slot.Some? {
      OneFamilyField(s, slot.value);
      assert s.familyFields[slot.value] in s.familyFields;
    }
    var r := StorePair(s, d, key, value);
    if r.Success? {
      InstanceGrows(s, items, grown, header, instance, slot.value, value);
      forall j | 0 <= j < |d.instances| ensures InstanceRecorded(s, grown, headers[j], r.value.instances[j]) {
        assert InstanceRecorded(s, items, headers[j], d.instances[j]);
      }
    }
  }

  lemma OneFamilyField(s: Schema, slot: nat)
    requires ValidSchema(s) && slot < |s.familyFields|
    ensures forall f ::
      && 0 <= f < |s.familyFields|
      && s.familyFields[f].family == s.familyFields[slot].family
      && s.familyFields[f].key == s.familyFields[slot].key ==>
        f == slot
  {
  }

  lemma InstanceGrows(s: Schema, items: seq<Item>, grown: seq<Item>, header: string, i: Instance, slot: nat,
                      value: string)
    requires ValidSchema(s) && InstanceRecorded(s, items, header, i) && slot < |s.familyFields|
    requires s.familyFields[slot].family == i.family
    requires forall k ::
      Lookup(grown, header, k) ==
      if k == s.familyFields[slot].key then Some(value) else Lookup(items, header, k)
    ensures InstanceRecorded(s, grown, header, i.(values := i.values[slot := value]))
  {
    hide Lookup, FindFamily;
    OneFamilyField(s, slot);
    assert FullName(s, i.(values := i.values[slot := value])) == FullName(s, i);
  }

  // ---------------------------------------------------------------- every text

  lemma {:induction false} ApplyOneMore(s: Schema, d: Document, items: seq<Item>, item: Item)
    requires CursorInRange(s, d)
    ensures var before := ApplyAll(s, d, items);
      ApplyAll(s, d, items + [item]) == if before.Failure? then before else Apply(s, before.value, item)
    decreases |items|
  {
    var all := items + [item];
    if items != [] {
      assert all[0] == items[0] && all[1..] == items[1..] + [item];
      ApplyKeepsCursor(s, d, items[0]);
      var first := Apply(s, d, items[0]);
      if first.Success? { ApplyOneMore(s, first.value, items[1..], item); }
    } else {
      assert all[1..] == [];
      ApplyKeepsCursor(s, d, item);
    }
  }

  /** One line is accepted exactly when it may stand below the others, and then the state records it. */
  lemma LineIsRecorded(s: Schema, items: seq<Item>, d: Document, item: Item)
    requires ValidSchema(s) && Recorded(s, items, d) && CursorInRange(s, d)
    ensures var r := Apply(s, d, item);
      && (r.Success? <==> LegalBelow(s, items, item))
      && (r.Success? ==> Recorded(s, items + [item], r.value))
  {
    hide Recorded, Lookup, SectionAt, OpenSection, StorePair, Allows, ValidSchema, CursorInRange;
    match item
    case Noise => NoiseIsRecorded(s, items, d);
    case Malformed(_) =>
    case Header(name) =>
      if name in s.sections {
        SectionHeaderIsRecorded(s, items, d, name);
      } else {
        FamilyHeaderIsRecorded(s, items, d, name);
      }
    case Pair(key, value) =>
      NoSectionNoCursor(s, items, d);
      match d.cursor {
        case None =>
        case Some(InSection(i)) => SectionPairIsRecorded(s, items, d, i, key, value);
        case Some(InInstance(i)) => InstancePairIsRecorded(s, items, d, i, key, value);
      }
  }

  lemma NoSectionNoCursor(s: Schema, items: seq<Item>, d: Document)
    requires Recorded(s, items, d)
    ensures d.cursor.None? <==> SectionAt(items).None?
  {
  }

  /** The state after any lines exists exactly when they are legal, and records every key as it was
      last given. */
  lemma {:induction false} StateRecordsLegalLines(s: Schema, items: seq<Item>)
    requires ValidSchema(s)
    ensures var r := ApplyAll(s, EMPTY_DOCUMENT, items);
      && (r.Success? <==> Legal(s, items))
      && (r.Success? ==> Recorded(s, items, r.value))
  {
    hide Recorded, LegalBelow, ValidSchema, Apply;
    if items == [] {
      NothingIsRecorded(s);
    } else {
      var above, last := items[..|items| - 1], items[|items| - 1];
      assert items == above + [last];
      StateRecordsLegalLines(s, above);
      ApplyOneMore(s, EMPTY_DOCUMENT, above, last);
      var before := ApplyAll(s, EMPTY_DOCUMENT, above);
      if before.Success? { LineIsRecorded(s, above, before.value, last); }
    }
  }

  lemma NothingIsRecorded(s: Schema)
    ensures Recorded(s, [], EMPTY_DOCUMENT)
  {
  }

  lemma {:induction false} NothingMissing(s: Schema, values: Slots, n: nat)
    ensures MissingFields(s, values, n) == [] <==> forall f: nat :: f < n ==> f in values
  {
    if n > 0 { NothingMissing(s, values, n - 1); }
  }

  lemma {:induction false} NothingMissingInInstance(s: Schema, instances: seq<Instance>, i: nat, n: nat)
    requires i < |instances| && n <= |s.familyFields|
    ensures MissingInInstance(s, instances, i, n) == [] <==>
      forall f: nat :: f < n && s.familyFields[f].family == instances[i].family ==> f in instances[i].values
  {
    if n > 0 { NothingMissingInInstance(s, instances, i, n - 1); }
  }

  ghost predicate InstanceComplete(s: Schema, i: Instance) {
    forall f: nat :: f < |s.familyFields| && s.familyFields[f].family == i.family ==> f in i.values
  }

  lemma {:induction false} NothingMissingInInstances(s: Schema, instances: seq<Instance>, n: nat)
    requires n <= |instances|
    ensures MissingInInstances(s, instances, n) == [] <==> forall i :: 0 <= i < n ==> InstanceComplete(s, instances[i])
  {
    if n > 0 {
      NothingMissingInInstances(s, instances, n - 1);
      NothingMissingInInstance(s, instances, n - 1, |s.familyFields|);
    }
  }

  lemma NothingMissingIsComplete(s: Schema, items: seq<Item>, d: Document)
    requires FieldsRecorded(s, items, d.values) && InstancesRecorded(s, items, FamilyHeaders(s, items), d.instances)
    requires Missing(s, d) == []
    ensures Complete(s, items)
  {
    hide Lookup, FamilyHeaders, FindFamily, Missing, FullName, DistinctNames;
    AcceptedFieldsAreWhole(s, d);
    var headers := FamilyHeaders(s, items);
    forall f | f in s.fields ensures Lookup(items, f.section, f.key).Some? {
      var i :| 0 <= i < |s.fields| && s.fields[i] == f;
      assert Slot(d.values, i).Some?;
    }
    forall name, f | name in headers && f in s.familyFields && FindFamily(s, name).Some?
      && f.family == FindFamily(s, name).value.0
      ensures Lookup(items, name, f.key).Some?
    {
      var i :| 0 <= i < |headers| && headers[i] == name;
      assert InstanceRecorded(s, items, headers[i], d.instances[i]) && InstanceComplete(s, d.instances[i]);
      var j :| 0 <= j < |s.familyFields| && s.familyFields[j] == f;
      assert Slot(d.instances[i].values, j).Some?;
    }
  }

  lemma CompleteIsNothingMissing(s: Schema, items: seq<Item>, d: Document)
    requires FieldsRecorded(s, items, d.values) && InstancesRecorded(s, items, FamilyHeaders(s, items), d.instances)
    requires Complete(s, items)
    ensures Missing(s, d) == []
  {
    hide Lookup, FamilyHeaders, FindFamily, MissingFields, MissingInInstances, FullName, DistinctNames;
    var headers := FamilyHeaders(s, items);
    forall f: nat | f < |s.fields| ensures f in d.values { assert s.fields[f] in s.fields && Slot(d.values, f).Some?; }
    forall i | 0 <= i < |d.instances| ensures InstanceComplete(s, d.instances[i]) {
      assert InstanceRecorded(s, items, headers[i], d.instances[i]) && headers[i] in headers;
      forall f: nat | f < |s.familyFields| && s.familyFields[f].family == d.instances[i].family
        ensures f in d.instances[i].values
      {
        assert s.familyFields[f] in s.familyFields && Slot(d.instances[i].values, f).Some?;
      }
    }
    NothingMissing(s, d.values, |s.fields|);
    NothingMissingInInstances(s, d.instances, |d.instances|);
  }

  lemma CompleteMeansNothingMissing(s: Schema, items: seq<Item>, d: Document)
    requires Recorded(s, items, d)
    ensures Missing(s, d) == [] <==> Complete(s, items)
  {
    hide FieldsRecorded, InstancesRecorded, Missing, Complete;
    if Missing(s, d) == [] { NothingMissingIsComplete(s, items, d); }
    if Complete(s, items) { CompleteIsNothingMissing(s, items, d); }
  }

  lemma {:induction false} LegalGivesEachKeyOnce(s: Schema, items: seq<Item>, section: string, key: string)
    requires Legal(s, items)
    ensures Occurrences(items, section, key) == if Lookup(items, section, key).Some? then 1 else 0
  {
    if items != [] { LegalGivesEachKeyOnce(s, items[..|items| - 1], section, key); }
  }

  /** A text is accepted exactly when its lines are legal and complete. */
  lemma AcceptsExactlyLegalAndComplete(s: Schema, contents: string)
    requires ValidSchema(s)
    ensures var items := ItemsOf(SplitLines(contents));
      Parse(s, contents).Success? <==> Legal(s, items) && Complete(s, items)
  {
    hide Recorded, Legal, Complete, ValidSchema, Missing, ApplyAll;
    var items := ItemsOf(SplitLines(contents));
    StateRecordsLegalLines(s, items);
    if Legal(s, items) { CompleteMeansNothingMissing(s, items, ApplyAll(s, EMPTY_DOCUMENT, items).value); }
  }

  /** An accepted text sets each required key exactly once and no other key anywhere, and the table holds
      what it set. */
  lemma AcceptedSetsEachKeyExactlyOnce(s: Schema, contents: string)
    requires ValidSchema(s) && Parse(s, contents).Success?
    ensures var items := ItemsOf(SplitLines(contents));
      var t := Parse(s, contents).value;
      && (forall f :: f in t.values <==> 0 <= f < |s.fields|)
      && (forall f :: 0 <= f < |s.fields| ==>
            && Occurrences(items, s.fields[f].section, s.fields[f].key) == 1
            && Lookup(items, s.fields[f].section, s.fields[f].key) == Some(t.values[f]))
      && (forall i :: 0 <= i < |items| && items[i].Pair? ==>
            SectionAt(items[..i]).Some? && Allows(s, SectionAt(items[..i]).value, items[i].key, items[i].value))
      && InstancesRecorded(s, items, FamilyHeaders(s, items), t.instances)
      && |t.instances| <= 64
      && (forall i, f ::
            0 <= i < |t.instances| && 0 <= f < |s.familyFields| && s.familyFields[f].family == t.instances[i].family ==>
            Occurrences(items, FamilyHeaders(s, items)[i], s.familyFields[f].key) == 1)
  {
    hide Legal, Complete, Missing, MissingFields, ApplyAll, InstanceRecorded, Lookup, Occurrences, FamilyHeaders,
      SectionAt, Allows, FindFamily;
    var items := ItemsOf(SplitLines(contents));
    var t := Parse(s, contents).value;
    StateRecordsLegalLines(s, items);
    var d := ApplyAll(s, EMPTY_DOCUMENT, items).value;
    AcceptsExactlyLegalAndComplete(s, contents);
    AcceptedFieldsAreWhole(s, d);
    forall f | 0 <= f < |s.fields| ensures Occurrences(items, s.fields[f].section, s.fields[f].key) == 1 {
      LegalGivesEachKeyOnce(s, items, s.fields[f].section, s.fields[f].key);
    }
    forall i | 0 <= i < |items| && items[i].Pair?
      ensures SectionAt(items[..i]).Some? && Allows(s, SectionAt(items[..i]).value, items[i].key, items[i].value)
    {
      LegalPairIsAllowed(s, items, i);
    }
    LegalInstancesFit(s, items);
    forall i, f | 0 <= i < |t.instances| && 0 <= f < |s.familyFields|
      && s.familyFields[f].family == t.instances[i].family
      ensures Occurrences(items, FamilyHeaders(s, items)[i], s.familyFields[f].key) == 1
    {
      LegalGivesEachKeyOnce(s, items, FamilyHeaders(s, items)[i], s.familyFields[f].key);
      AcceptedInstanceIsWhole(s, items, d, i, f);
    }
  }

  lemma AcceptedFieldsAreWhole(s: Schema, d: Document)
    requires Missing(s, d) == []
    ensures forall f: nat :: f < |s.fields| ==> f in d.values
    ensures forall i :: 0 <= i < |d.instances| ==> InstanceComplete(s, d.instances[i])
  {
    NothingMissing(s, d.values, |s.fields|);
    NothingMissingInInstances(s, d.instances, |d.instances|);
  }

  lemma AcceptedInstanceIsWhole(s: Schema, items: seq<Item>, d: Document, i: nat, f: nat)
    requires Recorded(s, items, d) && Missing(s, d) == [] && i < |d.instances| && f < |s.familyFields|
    requires s.familyFields[f].family == d.instances[i].family
    ensures i < |FamilyHeaders(s, items)| && Lookup(items, FamilyHeaders(s, items)[i], s.familyFields[f].key).Some?
  {
    hide Lookup, FamilyHeaders, FindFamily, Missing;
    AcceptedFieldsAreWhole(s, d);
    assert InstanceRecorded(s, items, FamilyHeaders(s, items)[i], d.instances[i]);
    assert InstanceComplete(s, d.instances[i]);
  }

  lemma {:induction false} LegalPairIsAllowed(s: Schema, items: seq<Item>, i: nat)
    requires Legal(s, items) && i < |items| && items[i].Pair?
    ensures SectionAt(items[..i]).Some? && Allows(s, SectionAt(items[..i]).value, items[i].key, items[i].value)
  {
    if i < |items| - 1 {
      LegalPairIsAllowed(s, items[..|items| - 1], i);
      assert items[..|items| - 1][..i] == items[..i];
    }
  }

  lemma {:induction false} LegalInstancesFit(s: Schema, items: seq<Item>)
    requires Legal(s, items)
    ensures |FamilyHeaders(s, items)| <= 64
  {
    if items != [] { LegalInstancesFit(s, items[..|items| - 1]); }
  }
}
