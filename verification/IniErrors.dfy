/** Which error a refused text is refused with, said by the lines above its first bad one. */
module IniErrors {
  import opened Wrappers
  import opened IniText
  import opened IniDocuments
  import opened IniAcceptance

  /** A header that names an instance of a declared family: the family, a full stop, and the rest. */
  ghost predicate NamesAFamily(s: Schema, header: string) {
    exists f, rest :: f in s.families && rest != "" && header == f + "." + rest
  }

  lemma FamilyIsNamed(s: Schema, header: string)
    requires ValidSchema(s)
    ensures FindFamily(s, header).Some? <==> NamesAFamily(s, header)
  {
    if FindFamily(s, header).Some? {
      var (f, rest) := FindFamily(s, header).value;
      assert s.families[f] in s.families && header == s.families[f] + "." + rest;
    }
    if f, rest :| f in s.families && rest != "" && header == f + "." + rest {
      var i :| 0 <= i < |s.families| && s.families[i] == f;
      FullNameIsFound(s, i, rest);
    }
  }

  /** The schema has this key in this section, whatever it may hold. */
  ghost predicate HasKey(s: Schema, section: string, key: string) {
    if section in s.sections then exists f :: f in s.fields && f.section == section && f.key == key
    else
      FindFamily(s, section).Some? &&
      exists f :: f in s.familyFields && f.family == FindFamily(s, section).value.0 && f.key == key
  }

  /** The error of a line that may not stand below these. A key without a section is no line; a key with
      nothing before the equals sign is a value gone wrong once there is a section. A section may be unknown,
      repeated, or one instance too many; a key unknown, repeated, or empty without being a list. */
  ghost function ErrorBelow(s: Schema, above: seq<Item>, item: Item): IniError {
    var section := SectionAt(above);
    match item
    case Noise | Malformed(false) => SyntaxInvalid
    case Malformed(true) => if section.None? then SyntaxInvalid else ValueInvalid
    case Header(name) =>
      if name !in s.sections && !NamesAFamily(s, name) then SectionUnknown
      else if Header(name) in above then SectionDuplicate
      else SectionLimitExceeded
    case Pair(key, value) =>
      if section.None? then SyntaxInvalid
      else if !HasKey(s, section.value, key) then KeyUnknown
      else if Lookup(above, section.value, key).Some? then KeyDuplicate
      else ValueInvalid
  }

  lemma HeaderIsRefused(s: Schema, items: seq<Item>, d: Document, name: string)
    requires ValidSchema(s) && Recorded(s, items, d) && CursorInRange(s, d) && !LegalBelow(s, items, Header(name))
    ensures OpenSection(s, d, name) == Failure(ErrorBelow(s, items, Header(name)))
  {
    hide Lookup, SectionAt, FamilyHeaders, FindFamily, FindName, ValidSchema, FieldsRecorded, CursorRecorded,
      InstanceRecorded, NamesAFamily;
    FamilyIsNamed(s, name);
    if name in s.sections {
      SectionHeaderIsRecorded(s, items, d, name);
      assert FindName(s.sections, name).Some?;
    } else {
      FamilyHeaderIsRecorded(s, items, d, name);
      assert FindName(s.sections, name).None?;
      if FindFamily(s, name).Some? {
        InstanceIsDeclared(s, items, d, name, FindFamily(s, name).value.0, FindFamily(s, name).value.1);
      }
    }
  }

  lemma SectionPairIsRefused(s: Schema, items: seq<Item>, d: Document, i: nat, key: string, value: string)
    requires ValidSchema(s) && Recorded(s, items, d) && CursorInRange(s, d) && d.cursor == Some(InSection(i))
    requires !LegalBelow(s, items, Pair(key, value))
    ensures StorePair(s, d, key, value) == Failure(ErrorBelow(s, items, Pair(key, value)))
  {
    hide Lookup, SectionAt, FamilyHeaders, FindFamily, FindField, InstancesRecorded, SectionsRecorded;
    var section := s.sections[i];
    var slot := FindField(s.fields, section, key);
    if slot.Some? {
      assert s.fields[slot.value] in s.fields;
      OneField(s, slot.value);
      assert Slot(d.values, slot.value) == Lookup(items, section, key);
    }
  }

  lemma InstancePairIsRefused(s: Schema, items: seq<Item>, d: Document, i: nat, key: string, value: string)
    requires ValidSchema(s) && Recorded(s, items, d) && CursorInRange(s, d) && d.cursor == Some(InInstance(i))
    requires !LegalBelow(s, items, Pair(key, value))
    ensures StorePair(s, d, key, value) == Failure(ErrorBelow(s, items, Pair(key, value)))
  {
    hide Lookup, SectionAt, FamilyHeaders, FindFamily, FindFamilyField, FullName, FieldsRecorded, SectionsRecorded;
    var header, instance := FamilyHeaders(s, items)[i], d.instances[i];
    assert InstanceRecorded(s, items, header, instance);
    var slot := FindFamilyField(s.familyFields, instance.family, key);
    if slot.Some? {
      assert s.familyFields[slot.value] in s.familyFields;
      OneFamilyField(s, slot.value);
      assert Slot(instance.values, slot.value) == Lookup(items, header, key);
    }
  }

  lemma LineIsRefused(s: Schema, items: seq<Item>, d: Document, item: Item)
    requires ValidSchema(s) && Recorded(s, items, d) && CursorInRange(s, d) && !LegalBelow(s, items, item)
    ensures Apply(s, d, item) == Failure(ErrorBelow(s, items, item))
  {
    hide Recorded, Lookup, OpenSection, StorePair, Allows, ValidSchema, CursorInRange, NamesAFamily, HasKey;
    NoSectionNoCursor(s, items, d);
    match item
    case Noise =>
    case Malformed(_) =>
    case Header(name) => HeaderIsRefused(s, items, d, name);
    case Pair(key, value) =>
      match d.cursor {
        case None =>
        case Some(InSection(i)) => SectionPairIsRefused(s, items, d, i, key, value);
        case Some(InInstance(i)) => InstancePairIsRefused(s, items, d, i, key, value);
      }
  }

  lemma {:induction false} FirstFailureStays(s: Schema, d: Document, items: seq<Item>, n: nat)
    requires CursorInRange(s, d) && n <= |items| && ApplyAll(s, d, items[..n]).Failure?
    ensures ApplyAll(s, d, items) == ApplyAll(s, d, items[..n])
    decreases |items| - n
  {
    if n == |items| {
      assert items[..n] == items;
    } else {
      assert items[..n + 1] == items[..n] + [items[n]];
      ApplyOneMore(s, d, items[..n], items[n]);
      FirstFailureStays(s, d, items, n + 1);
    }
  }

  /** A text is refused for its first line that may not stand below the others, whatever follows it. */
  lemma TextIsRefusedForItsFirstBadLine(s: Schema, contents: string, i: nat)
    requires ValidSchema(s) && i < |ItemsOf(SplitLines(contents))|
    requires var items := ItemsOf(SplitLines(contents));
      Legal(s, items[..i]) && !LegalBelow(s, items[..i], items[i])
    ensures var items := ItemsOf(SplitLines(contents));
      Parse(s, contents) == Failure(ErrorBelow(s, items[..i], items[i]))
  {
    hide Recorded, Legal, LegalBelow, ValidSchema, ApplyAll, Apply, ErrorBelow, SplitLines, ItemsOf;
    var items := ItemsOf(SplitLines(contents));
    StateRecordsLegalLines(s, items[..i]);
    LineIsRefused(s, items[..i], ApplyAll(s, EMPTY_DOCUMENT, items[..i]).value, items[i]);
    ApplyOneMore(s, EMPTY_DOCUMENT, items[..i], items[i]);
    assert items[..i + 1] == items[..i] + [items[i]];
    FirstFailureStays(s, EMPTY_DOCUMENT, items, i + 1);
  }

  // ---------------------------------------------------------------- keys nobody gave

  lemma {:induction false} MissingFieldsAre(s: Schema, values: Slots, n: nat, m: MissingKey)
    ensures m in MissingFields(s, values, n) <==> m.MissingField? && m.field < n && m.field !in values
  {
    if n > 0 { MissingFieldsAre(s, values, n - 1, m); }
  }

  lemma {:induction false} MissingInInstanceAre(s: Schema, instances: seq<Instance>, i: nat, n: nat, m: MissingKey)
    requires i < |instances| && n <= |s.familyFields|
    ensures m in MissingInInstance(s, instances, i, n) <==>
      && m.MissingFamilyField? && m.instance == i && m.familyField < n
      && s.familyFields[m.familyField].family == instances[i].family && m.familyField !in instances[i].values
  {
    if n > 0 { MissingInInstanceAre(s, instances, i, n - 1, m); }
  }

  lemma {:induction false} MissingInInstancesAre(s: Schema, instances: seq<Instance>, n: nat, m: MissingKey)
    requires n <= |instances|
    ensures m in MissingInInstances(s, instances, n) <==>
      && m.MissingFamilyField? && m.instance < n && m.familyField < |s.familyFields|
      && s.familyFields[m.familyField].family == instances[m.instance].family
      && m.familyField !in instances[m.instance].values
  {
    if n > 0 {
      MissingInInstancesAre(s, instances, n - 1, m);
      MissingInInstanceAre(s, instances, n - 1, |s.familyFields|, m);
    }
  }

  /** This key of the schema, in its section or in this open instance, is given nowhere in these lines. */
  ghost predicate GivenNowhere(s: Schema, items: seq<Item>, m: MissingKey) {
    match m
    case MissingField(f) => f < |s.fields| && Lookup(items, s.fields[f].section, s.fields[f].key).None?
    case MissingFamilyField(i, f) =>
      var headers := FamilyHeaders(s, items);
      && i < |headers| && f < |s.familyFields| && FindFamily(s, headers[i]).Some?
      && s.familyFields[f].family == FindFamily(s, headers[i]).value.0
      && Lookup(items, headers[i], s.familyFields[f].key).None?
  }

  lemma MissingIsGivenNowhere(s: Schema, items: seq<Item>, d: Document, m: MissingKey)
    requires Recorded(s, items, d)
    ensures m in Missing(s, d) <==> GivenNowhere(s, items, m)
  {
    hide Lookup, FamilyHeaders, FindFamily, MissingFields, MissingInInstances, FullName, DistinctNames,
      SectionsRecorded,
      CursorRecorded;
    MissingFieldsAre(s, d.values, |s.fields|, m);
    MissingInInstancesAre(s, d.instances, |d.instances|, m);
    match m
    case MissingField(f) =>
      if f < |s.fields| { assert Slot(d.values, f) == Lookup(items, s.fields[f].section, s.fields[f].key); }
    case MissingFamilyField(i, f) =>
      if i < |d.instances| {
        assert InstanceRecorded(s, items, FamilyHeaders(s, items)[i], d.instances[i]);
        if f < |s.familyFields| {
          assert Slot(d.instances[i].values, f) ==
            if s.familyFields[f].family == d.instances[i].family
            then Lookup(items, FamilyHeaders(s, items)[i], s.familyFields[f].key) else None;
        }
      }
  }

  // ---------------------------------------------------------------- in which order they are named

  /** Keys of sections come first, in the schema's order; then those of instances, instance by instance in the
      text's order. */
  predicate NamedBefore(a: MissingKey, b: MissingKey) {
    match (a, b)
    case (MissingField(f), MissingField(g)) => f < g
    case (MissingField(_), MissingFamilyField(_, _)) => true
    case (MissingFamilyField(i, f), MissingFamilyField(j, g)) => i < j || (i == j && f < g)
    case (MissingFamilyField(_, _), MissingField(_)) => false
  }

  ghost predicate InOrder(keys: seq<MissingKey>) {
    forall i, j :: 0 <= i < j < |keys| ==> NamedBefore(keys[i], keys[j])
  }

  lemma OrderedParts(a: seq<MissingKey>, b: seq<MissingKey>)
    requires InOrder(a) && InOrder(b) && forall x, y :: x in a && y in b ==> NamedBefore(x, y)
    ensures InOrder(a + b)
  {
    hide NamedBefore;
    forall i, j | 0 <= i < j < |a + b| ensures NamedBefore((a + b)[i], (a + b)[j]) {
      if i < |a| <= j { assert a[i] in a && b[j - |a|] in b; }
    }
  }

  lemma {:induction false} FieldsInOrder(s: Schema, values: Slots, n: nat)
    ensures InOrder(MissingFields(s, values, n))
  {
    if n > 0 {
      FieldsInOrder(s, values, n - 1);
      forall m | m in MissingFields(s, values, n - 1) ensures m.MissingField? && m.field < n - 1 {
        MissingFieldsAre(s, values, n - 1, m);
      }
      OrderedParts(MissingFields(s, values, n - 1), if n - 1 in values then [] else [MissingField(n - 1)]);
    }
  }

  lemma {:induction false} InstanceInOrder(s: Schema, instances: seq<Instance>, i: nat, n: nat)
    requires i < |instances| && n <= |s.familyFields|
    ensures InOrder(MissingInInstance(s, instances, i, n))
  {
    if n > 0 {
      InstanceInOrder(s, instances, i, n - 1);
      var before := MissingInInstance(s, instances, i, n - 1);
      forall m | m in before ensures m.MissingFamilyField? && m.instance == i && m.familyField < n - 1 {
        MissingInInstanceAre(s, instances, i, n - 1, m);
      }
      OrderedParts(before, MissingInInstance(s, instances, i, n)[|before|..]);
    }
  }

  lemma {:induction false} InstancesInOrder(s: Schema, instances: seq<Instance>, n: nat)
    requires n <= |instances|
    ensures InOrder(MissingInInstances(s, instances, n))
  {
    hide MissingInInstance;
    if n > 0 {
      InstancesInOrder(s, instances, n - 1);
      InstanceInOrder(s, instances, n - 1, |s.familyFields|);
      var before, last := MissingInInstances(s, instances, n - 1),
                          MissingInInstance(s, instances, n - 1, |s.familyFields|);
      forall m | m in before ensures m.MissingFamilyField? && m.instance < n - 1 {
        MissingInInstancesAre(s, instances, n - 1, m);
      }
      forall m | m in last ensures m.MissingFamilyField? && m.instance == n - 1 {
        MissingInInstanceAre(s, instances, n - 1, |s.familyFields|, m);
      }
      OrderedParts(before, last);
    }
  }

  lemma MissingIsInOrder(s: Schema, d: Document)
    ensures InOrder(Missing(s, d))
  {
    hide MissingFields, MissingInInstances;
    FieldsInOrder(s, d.values, |s.fields|);
    InstancesInOrder(s, d.instances, |d.instances|);
    forall m | m in MissingFields(s, d.values, |s.fields|) ensures m.MissingField? {
      MissingFieldsAre(s, d.values, |s.fields|, m);
    }
    forall m | m in MissingInInstances(s, d.instances, |d.instances|) ensures m.MissingFamilyField? {
      MissingInInstancesAre(s, d.instances, |d.instances|, m);
    }
    OrderedParts(MissingFields(s, d.values, |s.fields|), MissingInInstances(s, d.instances, |d.instances|));
  }

  /** A text whose lines are all legal is refused only for keys nobody gave: for exactly those, each named once
      and in order. */
  lemma LegalTextIsRefusedForWhatIsMissing(s: Schema, contents: string, m: MissingKey)
    requires ValidSchema(s) && Legal(s, ItemsOf(SplitLines(contents))) && Parse(s, contents).Failure?
    ensures Parse(s, contents).error.KeyMissing?
    ensures m in Parse(s, contents).error.missing <==> GivenNowhere(s, ItemsOf(SplitLines(contents)), m)
    ensures InOrder(Parse(s, contents).error.missing)
  {
    hide Recorded, InOrder, Legal, ValidSchema, ApplyAll, Missing, GivenNowhere, SplitLines, ItemsOf;
    var items := ItemsOf(SplitLines(contents));
    StateRecordsLegalLines(s, items);
    MissingIsGivenNowhere(s, items, ApplyAll(s, EMPTY_DOCUMENT, items).value, m);
    MissingIsInOrder(s, ApplyAll(s, EMPTY_DOCUMENT, items).value);
  }
}
