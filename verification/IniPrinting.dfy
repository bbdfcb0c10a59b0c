/** Printing a table and parsing it back, whatever a writer puts around the lines. */
module IniPrinting {
  import opened Wrappers
  import opened IniText
  import opened IniDocuments
  import opened IniAcceptance

  // ---------------------------------------------------------------- what can be printed

  ghost predicate LegalSlot(values: Slots, slot: nat, isList: bool) {
    slot in values && LegalValue(values[slot]) && (values[slot] != "" || isList)
  }

  ghost predicate WellFormedInstance(s: Schema, i: Instance) {
    && i.family < |s.families| && LegalName(i.name)
    && (forall f :: f in i.values <==> 0 <= f < |s.familyFields| && s.familyFields[f].family == i.family)
    && (forall f :: 0 <= f < |s.familyFields| && s.familyFields[f].family == i.family ==>
          LegalSlot(i.values, f, s.familyFields[f].isList))
  }

  /** A complete table: a value for every fixed key, and for every key of every instance, each of them
      something one line can hold. */
  ghost predicate WellFormedTable(s: Schema, t: Table) {
    && (forall f :: f in t.values <==> 0 <= f < |s.fields|)
    && (forall f :: 0 <= f < |s.fields| ==> LegalSlot(t.values, f, s.fields[f].isList))
    && |t.instances| <= 64
    && (forall i :: 0 <= i < |t.instances| ==> WellFormedInstance(s, t.instances[i]))
    && (forall i, j :: 0 <= i < j < |t.instances| ==>
          t.instances[i].family != t.instances[j].family || t.instances[i].name != t.instances[j].name)
  }

  function SectionPairs(s: Schema, values: Slots, section: string, n: nat): seq<Item>
    requires n <= |s.fields| && forall f :: 0 <= f < |s.fields| ==> f in values
  {
    if n == 0 then []
    else
      SectionPairs(s, values, section, n - 1) +
        if s.fields[n - 1].section == section then [Pair(s.fields[n - 1].key, values[n - 1])] else []
  }

  function PrintSections(s: Schema, values: Slots, n: nat): seq<Item>
    requires n <= |s.sections| && forall f :: 0 <= f < |s.fields| ==> f in values
  {
    if n == 0 then []
    else
      PrintSections(s, values, n - 1) +
        ([Header(s.sections[n - 1])] + SectionPairs(s, values, s.sections[n - 1], |s.fields|))
  }

  function InstancePairs(s: Schema, i: Instance, n: nat): seq<Item>
    requires n <= |s.familyFields| && forall f :: 0 <= f < |s.familyFields| && s.familyFields[f].family == i.family ==>
      f in i.values
  {
    if n == 0 then []
    else
      InstancePairs(s, i, n - 1) +
        if s.familyFields[n - 1].family == i.family then [Pair(s.familyFields[n - 1].key, i.values[n - 1])] else []
  }

  function PrintInstances(s: Schema, instances: seq<Instance>, n: nat): seq<Item>
    requires n <= |instances|
    requires forall i :: 0 <= i < |instances| ==> instances[i].family < |s.families|
    requires forall i, f ::
      0 <= i < |instances| && 0 <= f < |s.familyFields| && s.familyFields[f].family == instances[i].family ==>
        f in instances[i].values
  {
    if n == 0 then []
    else
      PrintInstances(s, instances, n - 1) +
        ([Header(FullName(s, instances[n - 1]))] + InstancePairs(s, instances[n - 1], |s.familyFields|))
  }

  lemma {:induction false} SectionItemsAreLegal(s: Schema, t: Table, n: nat)
    requires ValidSchema(s) && WellFormedTable(s, t) && n <= |s.sections|
    ensures forall item :: item in PrintSections(s, t.values, n) ==> LegalItem(item)
  {
    hide LegalName, LegalKey, LegalValue;
    if n > 0 {
      SectionItemsAreLegal(s, t, n - 1);
      SectionPairsAreLegal(s, t, s.sections[n - 1], |s.fields|);
    }
  }

  lemma {:induction false} SectionPairsAreLegal(s: Schema, t: Table, section: string, m: nat)
    requires ValidSchema(s) && WellFormedTable(s, t) && m <= |s.fields|
    ensures forall item :: item in SectionPairs(s, t.values, section, m) ==> LegalItem(item)
  {
    hide LegalName, LegalKey, LegalValue;
    if m > 0 {
      SectionPairsAreLegal(s, t, section, m - 1);
      assert LegalSlot(t.values, m - 1, s.fields[m - 1].isList);
    }
  }

  lemma {:induction false} InstanceItemsAreLegal(s: Schema, t: Table, n: nat)
    requires ValidSchema(s) && WellFormedTable(s, t) && n <= |t.instances|
    ensures forall item :: item in PrintInstances(s, t.instances, n) ==> LegalItem(item)
  {
    hide LegalKey, LegalValue, FindFamily;
    if n > 0 {
      InstanceItemsAreLegal(s, t, n - 1);
      var i := t.instances[n - 1];
      assert WellFormedInstance(s, i);
      FullNameIsLegal(s.families[i.family], i.name);
      InstancePairsAreLegal(s, i, |s.familyFields|);
    }
  }

  lemma FullNameIsLegal(family: string, name: string)
    requires LegalName(family) && LegalName(name)
    ensures LegalName(family + [FAMILY_SEPARATOR] + name)
  {
    var full := family + [FAMILY_SEPARATOR] + name;
    HasOf(family, ']');
    HasOf(name, ']');
    HasOf(full, ']');
    HasOf(family, '\n');
    HasOf(name, '\n');
    HasOf(full, '\n');
  }

  lemma {:induction false} InstancePairsAreLegal(s: Schema, i: Instance, m: nat)
    requires ValidSchema(s) && WellFormedInstance(s, i) && m <= |s.familyFields|
    ensures forall item :: item in InstancePairs(s, i, m) ==> LegalItem(item)
  {
    hide LegalName, LegalKey, LegalValue;
    if m > 0 {
      InstancePairsAreLegal(s, i, m - 1);
      assert s.familyFields[m - 1].family == i.family ==> LegalSlot(i.values, m - 1, s.familyFields[m - 1].isList);
    }
  }

  /** The sections in schema order with their keys, then the instances in table order with theirs. */
  ghost function PrintItems(s: Schema, t: Table): (r: seq<Item>)
    requires ValidSchema(s) && WellFormedTable(s, t)
    ensures forall item :: item in r ==> LegalItem(item)
  {
    SectionItemsAreLegal(s, t, |s.sections|);
    InstanceItemsAreLegal(s, t, |t.instances|);
    PrintSections(s, t.values, |s.sections|) + PrintInstances(s, t.instances, |t.instances|)
  }

  // ---------------------------------------------------------------- parsing what was printed

  lemma {:induction false} ApplyAllAppends(s: Schema, d: Document, a: seq<Item>, b: seq<Item>)
    requires CursorInRange(s, d)
    ensures var before := ApplyAll(s, d, a);
      ApplyAll(s, d, a + b) == if before.Failure? then before else ApplyAll(s, before.value, b)
    decreases |b|
  {
    hide Apply;
    if b == [] {
      assert a + b == a;
    } else {
      var front, last := b[..|b| - 1], b[|b| - 1];
      ApplyAllAppends(s, d, a, front);
      ApplyOneMore(s, d, a + front, last);
      assert a + b == a + front + [last];
      var before := ApplyAll(s, d, a);
      if before.Success? {
        ApplyOneMore(s, before.value, front, last);
        assert b == front + [last];
      }
    }
  }

  /** The fixed values stored once the first n sections are in and the next is in up to field m. */
  predicate IsPrinted(s: Schema, n: nat, m: nat, f: nat)
    requires n <= |s.sections| && f < |s.fields|
  {
    s.fields[f].section in s.sections[..n] || (n < |s.sections| && s.fields[f].section == s.sections[n] && f < m)
  }

  function StoredFields(s: Schema, values: Slots, n: nat, m: nat): Slots
    requires n <= |s.sections| && forall f :: 0 <= f < |s.fields| ==> f in values
  {
    map f: nat | f < |s.fields| && IsPrinted(s, n, m, f) :: values[f]
  }

  function Firsts(n: nat): (r: set<nat>)
    ensures forall i: nat :: i in r <==> i < n
  {
    if n == 0 then {}
    else
      var before := Firsts(n - 1);
      before + {n - 1 as nat}
  }

  function SectionsDone(s: Schema, values: Slots, n: nat): Document
    requires n <= |s.sections| && forall f :: 0 <= f < |s.fields| ==> f in values
  {
    Document(Firsts(n), StoredFields(s, values, n, 0), [], if n == 0 then None else Some(InSection(n - 1)))
  }

  function SectionStarted(s: Schema, values: Slots, n: nat, m: nat): Document
    requires n < |s.sections| && forall f :: 0 <= f < |s.fields| ==> f in values
  {
    Document(Firsts(n + 1), StoredFields(s, values, n, m), [], Some(InSection(n)))
  }

  lemma OnePairStores(s: Schema, t: Table, n: nat, m: nat)
    requires ValidSchema(s) && WellFormedTable(s, t) && n < |s.sections| && m < |s.fields|
    ensures s.fields[m].section == s.sections[n] ==>
      Apply(s, SectionStarted(s, t.values, n, m), Pair(s.fields[m].key, t.values[m])) ==
        Success(SectionStarted(s, t.values, n, m + 1))
    ensures s.fields[m].section != s.sections[n] ==>
      SectionStarted(s, t.values, n, m) == SectionStarted(s, t.values, n, m + 1)
  {
    hide FindField, LegalKey, LegalName, LegalValue, Firsts, Has;
    FieldIsFound(s, m);
    StoredFieldsGrow(s, t.values, n, m);
    if s.fields[m].section == s.sections[n] {
      hide StoredFields;
      assert LegalSlot(t.values, m, s.fields[m].isList);
    }
  }

  lemma StoredFieldsGrow(s: Schema, values: Slots, n: nat, m: nat)
    requires n < |s.sections| && m < |s.fields| && forall f :: 0 <= f < |s.fields| ==> f in values
    requires forall i, j :: 0 <= i < j < |s.sections| ==> s.sections[i] != s.sections[j]
    ensures var before, after := StoredFields(s, values, n, m), StoredFields(s, values, n, m + 1);
      if s.fields[m].section == s.sections[n] then m !in before && after == before[m := values[m]] else after == before
  {
    assert s.sections[n] !in s.sections[..n];
    var before, after := StoredFields(s, values, n, m), StoredFields(s, values, n, m + 1);
    if s.fields[m].section == s.sections[n] {
      assert after == before[m := values[m]];
    } else {
      assert after == before;
    }
  }

  lemma {:induction false} SectionPairsStore(s: Schema, t: Table, n: nat, m: nat)
    requires ValidSchema(s) && WellFormedTable(s, t) && n < |s.sections| && m <= |s.fields|
    ensures ApplyAll(s, SectionStarted(s, t.values, n, 0), SectionPairs(s, t.values, s.sections[n], m)) ==
      Success(SectionStarted(s, t.values, n, m))
  {
    hide ValidSchema, Apply, StoredFields, LegalSlot;
    if m > 0 {
      SectionPairsStore(s, t, n, m - 1);
      OnePairStores(s, t, n, m - 1);
      var before := SectionPairs(s, t.values, s.sections[n], m - 1);
      var item := Pair(s.fields[m - 1].key, t.values[m - 1]);
      ApplyOneMore(s, SectionStarted(s, t.values, n, 0), before, item);
      assert before + [] == before;
    }
  }

  lemma SectionOpens(s: Schema, t: Table, n: nat)
    requires ValidSchema(s) && WellFormedTable(s, t) && n < |s.sections|
    ensures Apply(s, SectionsDone(s, t.values, n), Header(s.sections[n])) == Success(SectionStarted(s, t.values, n, 0))
  {
    hide FindName;
    SectionIsFound(s, n);
    assert Firsts(n) + {n} == Firsts(n + 1);
  }

  lemma SectionEnds(s: Schema, t: Table, n: nat)
    requires ValidSchema(s) && WellFormedTable(s, t) && n < |s.sections|
    ensures SectionStarted(s, t.values, n, |s.fields|) == SectionsDone(s, t.values, n + 1)
  {
    assert s.sections[..n + 1] == s.sections[..n] + [s.sections[n]];
    assert StoredFields(s, t.values, n, |s.fields|) == StoredFields(s, t.values, n + 1, 0);
  }

  lemma {:induction false} SectionsStore(s: Schema, t: Table, n: nat)
    requires ValidSchema(s) && WellFormedTable(s, t) && n <= |s.sections|
    ensures ApplyAll(s, EMPTY_DOCUMENT, PrintSections(s, t.values, n)) == Success(SectionsDone(s, t.values, n))
  {
    hide ValidSchema, Apply, StoredFields, LegalSlot, Firsts, SectionPairs;
    if n == 0 {
      NoSectionsDone(s, t);
    } else {
      SectionsStore(s, t, n - 1);
      SectionOpens(s, t, n - 1);
      SectionPairsStore(s, t, n - 1, |s.fields|);
      SectionEnds(s, t, n - 1);
      var pairs := SectionPairs(s, t.values, s.sections[n - 1], |s.fields|);
      var block := [Header(s.sections[n - 1])] + pairs;
      assert block[0] == Header(s.sections[n - 1]) && block[1..] == pairs;
      ApplyAllAppends(s, EMPTY_DOCUMENT, PrintSections(s, t.values, n - 1), block);
    }
  }

  lemma NoSectionsDone(s: Schema, t: Table)
    requires WellFormedTable(s, t)
    ensures SectionsDone(s, t.values, 0) == EMPTY_DOCUMENT
  {
    assert s.sections[..0] == [];
    assert StoredFields(s, t.values, 0, 0) == map[];
    assert Firsts(0) == {};
  }

  lemma AllSectionsDone(s: Schema, t: Table)
    requires ValidSchema(s) && WellFormedTable(s, t)
    ensures StoredFields(s, t.values, |s.sections|, 0) == t.values
  {
    assert s.sections[..|s.sections|] == s.sections;
  }

  // ---------------------------------------------------------------- the instances

  function StoredInstance(s: Schema, i: Instance, m: nat): Instance
    requires forall f :: 0 <= f < |s.familyFields| && s.familyFields[f].family == i.family ==> f in i.values
  {
    i.(values := map f: nat | f < m && f < |s.familyFields| && s.familyFields[f].family == i.family :: i.values[f])
  }

  function InstancesDone(s: Schema, t: Table, n: nat): Document
    requires n <= |t.instances|
  {
    Document(Firsts(|s.sections|), t.values, t.instances[..n],
      if n > 0 then Some(InInstance(n - 1)) else if |s.sections| > 0 then Some(InSection(|s.sections| - 1)) else None)
  }

  ghost function InstanceStarted(s: Schema, t: Table, n: nat, m: nat): Document
    requires WellFormedTable(s, t) && n < |t.instances|
  {
    assert WellFormedInstance(s, t.instances[n]);
    InstancesDone(s, t, n).(instances := t.instances[..n] + [StoredInstance(s, t.instances[n], m)],
                            cursor := Some(InInstance(n)))
  }

  lemma OneInstancePairStores(s: Schema, t: Table, n: nat, m: nat)
    requires ValidSchema(s) && WellFormedTable(s, t) && n < |t.instances| && m < |s.familyFields|
    ensures s.familyFields[m].family == t.instances[n].family ==>
      m in t.instances[n].values &&
      Apply(s, InstanceStarted(s, t, n, m), Pair(s.familyFields[m].key, t.instances[n].values[m])) ==
        Success(InstanceStarted(s, t, n, m + 1))
    ensures s.familyFields[m].family != t.instances[n].family ==>
      InstanceStarted(s, t, n, m) == InstanceStarted(s, t, n, m + 1)
  {
    hide ValidSchema, LegalSlot, LegalName, Apply, Firsts, FindFamilyField;
    var i := t.instances[n];
    assert WellFormedInstance(s, i);
    var before, after := StoredInstance(s, i, m), StoredInstance(s, i, m + 1);
    if s.familyFields[m].family == i.family {
      assert after.values == before.values[m := i.values[m]];
      FamilyFieldIsFound(s, m);
      PairStores(s, InstanceStarted(s, t, n, m), n, m, i.values);
      assert (t.instances[..n] + [before])[n := after] == t.instances[..n] + [after];
    } else {
      assert after.values == before.values;
    }
  }

  /** A legal value for a slot of the instance under the cursor that has none is stored there. */
  lemma PairStores(s: Schema, d: Document, n: nat, m: nat, values: Slots)
    requires d.cursor == Some(InInstance(n)) && n < |d.instances| && m < |s.familyFields| && m !in d.instances[n].values
    requires FindFamilyField(s.familyFields, d.instances[n].family, s.familyFields[m].key) == Some(m)
    requires m in values && LegalSlot(values, m, s.familyFields[m].isList)
    ensures Apply(s, d, Pair(s.familyFields[m].key, values[m])) ==
      Success(d.(instances := d.instances[n := d.instances[n].(values := d.instances[n].values[m := values[m]])]))
  {
    hide FindFamilyField, LegalValue, Has;
  }

  lemma {:induction false} InstancePairsStore(s: Schema, t: Table, n: nat, m: nat)
    requires ValidSchema(s) && WellFormedTable(s, t) && n < |t.instances| && m <= |s.familyFields|
    ensures WellFormedInstance(s, t.instances[n])
    ensures ApplyAll(s, InstanceStarted(s, t, n, 0), InstancePairs(s, t.instances[n], m)) ==
      Success(InstanceStarted(s, t, n, m))
  {
    hide ValidSchema, Apply, StoredInstance, LegalSlot;
    assert WellFormedInstance(s, t.instances[n]);
    if m > 0 {
      InstancePairsStore(s, t, n, m - 1);
      OneInstancePairStores(s, t, n, m - 1);
      var before := InstancePairs(s, t.instances[n], m - 1);
      if s.familyFields[m - 1].family == t.instances[n].family {
        ApplyOneMore(s, InstanceStarted(s, t, n, 0), before,
                     Pair(s.familyFields[m - 1].key, t.instances[n].values[m - 1]));
      } else {
        assert before + [] == before;
      }
    }
  }

  lemma InstanceOpens(s: Schema, t: Table, n: nat)
    requires ValidSchema(s) && WellFormedTable(s, t) && n < |t.instances|
    ensures WellFormedInstance(s, t.instances[n])
    ensures Apply(s, InstancesDone(s, t, n), Header(FullName(s, t.instances[n]))) ==
      Success(InstanceStarted(s, t, n, 0))
    ensures InstanceStarted(s, t, n, |s.familyFields|) == InstancesDone(s, t, n + 1)
  {
    hide FindFamily, FindName, ValidSchema;
    var i := t.instances[n];
    assert WellFormedInstance(s, i);
    FullNameIsFound(s, i.family, i.name);
    assert FindInstance(t.instances[..n], i.family, i.name).None?;
    assert StoredInstance(s, i, 0).values == map[];
    assert StoredInstance(s, i, |s.familyFields|).values == i.values;
    assert t.instances[..n + 1] == t.instances[..n] + [i];
    assert Instance(i.family, i.name, map[]) == StoredInstance(s, i, 0);
  }

  lemma {:induction false} InstancesStore(s: Schema, t: Table, n: nat)
    requires ValidSchema(s) && WellFormedTable(s, t) && n <= |t.instances|
    ensures ApplyAll(s, InstancesDone(s, t, 0), PrintInstances(s, t.instances, n)) == Success(InstancesDone(s, t, n))
  {
    hide ValidSchema, Apply, StoredInstance, LegalSlot, Firsts, InstancePairs;
    if n > 0 {
      InstancesStore(s, t, n - 1);
      InstanceOpens(s, t, n - 1);
      InstancePairsStore(s, t, n - 1, |s.familyFields|);
      BlockApplies(s, InstancesDone(s, t, 0), PrintInstances(s, t.instances, n - 1), InstancesDone(s, t, n - 1),
        Header(FullName(s, t.instances[n - 1])), InstanceStarted(s, t, n - 1, 0),
        InstancePairs(s, t.instances[n - 1], |s.familyFields|));
    }
  }

  /** A block is applied by applying its header and then its pairs. */
  lemma BlockApplies(s: Schema, d: Document, before: seq<Item>, reached: Document, header: Item, underway: Document,
                     pairs: seq<Item>)
    requires CursorInRange(s, d) && CursorInRange(s, reached) && CursorInRange(s, underway)
    requires ApplyAll(s, d, before) == Success(reached) && Apply(s, reached, header) == Success(underway)
    ensures ApplyAll(s, d, before + ([header] + pairs)) == ApplyAll(s, underway, pairs)
  {
    hide Apply;
    var block := [header] + pairs;
    assert block[0] == header && block[1..] == pairs;
    ApplyAllAppends(s, d, before, block);
  }

  lemma PrintedItemsParse(s: Schema, t: Table)
    requires ValidSchema(s) && WellFormedTable(s, t)
    ensures ApplyAll(s, EMPTY_DOCUMENT, PrintItems(s, t)) == Success(InstancesDone(s, t, |t.instances|))
  {
    hide ValidSchema, StoredFields, Firsts, PrintSections, PrintInstances, ApplyAll, LegalSlot;
    SectionsStore(s, t, |s.sections|);
    AllSectionsDone(s, t);
    InstancesStore(s, t, |t.instances|);
    assert SectionsDone(s, t.values, |s.sections|) == InstancesDone(s, t, 0);
    ApplyAllAppends(s, EMPTY_DOCUMENT, PrintSections(s, t.values, |s.sections|),
                    PrintInstances(s, t.instances, |t.instances|));
  }

  lemma WellFormedIsComplete(s: Schema, t: Table)
    requires WellFormedTable(s, t)
    ensures RequireAll(s, InstancesDone(s, t, |t.instances|)) == Success(t)
  {
    hide LegalSlot;
    NothingMissing(s, t.values, |s.fields|);
    NothingMissingInInstances(s, t.instances, |t.instances|);
    forall i | 0 <= i < |t.instances|
      ensures InstanceComplete(s, t.instances[i])
    {
      assert WellFormedInstance(s, t.instances[i]);
    }
    assert t.instances[..|t.instances|] == t.instances;
  }

  // ---------------------------------------------------------------- noise

  /** Lines that say nothing change nothing, whether the text is accepted or not. */
  lemma {:induction false} NoiseChangesNothing(s: Schema, d: Document, items: seq<Item>)
    requires CursorInRange(s, d)
    ensures ApplyAll(s, d, items) == ApplyAll(s, d, Significant(items))
    decreases |items|
  {
    hide OpenSection, StorePair;
    if items != [] {
      ApplyKeepsCursor(s, d, items[0]);
      var first := Apply(s, d, items[0]);
      if first.Success? { NoiseChangesNothing(s, first.value, items[1..]); }
      if items[0].Noise? {
        assert [] + Significant(items[1..]) == Significant(items[1..]);
      } else {
        var kept := [items[0]] + Significant(items[1..]);
        assert kept[0] == items[0] && kept[1..] == Significant(items[1..]);
      }
    }
  }

  /** Two texts that say the same parse the same. */
  lemma OnlySignificantLinesMatter(s: Schema, a: string, b: string)
    requires Significant(ItemsOf(SplitLines(a))) == Significant(ItemsOf(SplitLines(b)))
    ensures Parse(s, a) == Parse(s, b)
  {
    NoiseChangesNothing(s, EMPTY_DOCUMENT, ItemsOf(SplitLines(a)));
    NoiseChangesNothing(s, EMPTY_DOCUMENT, ItemsOf(SplitLines(b)));
  }

  // ---------------------------------------------------------------- a writer's text

  /** What a writer puts around one printed line: lines that say nothing before it, whitespace within it. */
  datatype Decoration = Decoration(before: seq<string>, padding: Padding)

  ghost predicate Harmless(d: Decoration) {
    Blank(d.padding) && forall i :: 0 <= i < |d.before| ==> OneLine(d.before[i]) && ItemOf(d.before[i]) == Noise
  }

  function Decorate(items: seq<Item>, decorations: seq<Decoration>): seq<string>
    requires |items| == |decorations| && forall i :: 0 <= i < |items| ==> LegalItem(items[i])
  {
    if items == [] then []
    else decorations[0].before + [LineOf(items[0], decorations[0].padding)] + Decorate(items[1..], decorations[1..])
  }

  lemma {:induction false} ItemsOfAppend(a: seq<string>, b: seq<string>)
    ensures ItemsOf(a + b) == ItemsOf(a) + ItemsOf(b)
  {
    hide ItemOf;
    if a == [] {
      assert a + b == b;
    } else {
      assert (a + b)[0] == a[0] && (a + b)[1..] == a[1..] + b;
      ItemsOfAppend(a[1..], b);
    }
  }

  lemma {:induction false} SignificantAppend(a: seq<Item>, b: seq<Item>)
    ensures Significant(a + b) == Significant(a) + Significant(b)
  {
    if a == [] {
      assert a + b == b;
    } else {
      assert (a + b)[0] == a[0] && (a + b)[1..] == a[1..] + b;
      SignificantAppend(a[1..], b);
    }
  }

  lemma {:induction false} NoiseLinesSayNothing(lines: seq<string>)
    requires forall i :: 0 <= i < |lines| ==> ItemOf(lines[i]) == Noise
    ensures Significant(ItemsOf(lines)) == []
  {
    hide ItemOf;
    if lines != [] {
      NoiseLinesSayNothing(lines[1..]);
      var items := ItemsOf(lines);
      assert items[0] == Noise && items[1..] == ItemsOf(lines[1..]);
    }
  }

  lemma OneDecoratedItem(item: Item, d: Decoration)
    requires LegalItem(item) && Harmless(d)
    ensures Significant(ItemsOf(d.before + [LineOf(item, d.padding)])) == [item]
    ensures forall line :: line in d.before + [LineOf(item, d.padding)] ==> OneLine(line)
  {
    hide ItemOf, LineOf, OneLine, LegalItem, Blank, ItemsOf, Significant;
    var line := LineOf(item, d.padding);
    PaddingIsIgnored(item, d.padding);
    LineIsOneLine(item, d.padding);
    NoiseLinesSayNothing(d.before);
    ItemsOfAppend(d.before, [line]);
    SignificantAppend(ItemsOf(d.before), ItemsOf([line]));
    LegalIsNotNoise(item);
    OneItem(line);
    assert [] + [item] == [item];
  }

  lemma OneItem(line: string)
    ensures ItemsOf([line]) == [ItemOf(line)]
    ensures Significant([ItemOf(line)]) == if ItemOf(line).Noise? then [] else [ItemOf(line)]
  {
    hide ItemOf;
    assert [line][1..] == [] && [ItemOf(line)][1..] == [];
  }

  lemma {:induction false} DecorationIsIgnored(items: seq<Item>, decorations: seq<Decoration>)
    requires |items| == |decorations| && forall i :: 0 <= i < |items| ==>
      LegalItem(items[i]) && Harmless(decorations[i])
    ensures Significant(ItemsOf(Decorate(items, decorations))) == items
    ensures forall line :: line in Decorate(items, decorations) ==> OneLine(line)
  {
    hide ItemOf, LineOf, OneLine, LegalItem, Harmless, ItemsOf, Significant;
    if items == [] {
      NothingSaid();
    } else {
      var block := decorations[0].before + [LineOf(items[0], decorations[0].padding)];
      var rest := Decorate(items[1..], decorations[1..]);
      DecorationIsIgnored(items[1..], decorations[1..]);
      OneDecoratedItem(items[0], decorations[0]);
      ItemsOfAppend(block, rest);
      SignificantAppend(ItemsOf(block), ItemsOf(rest));
      assert items == [items[0]] + items[1..];
    }
  }

  lemma NothingSaid()
    ensures Significant(ItemsOf([])) == []
  {
  }

  lemma LegalIsNotNoise(item: Item)
    requires LegalItem(item)
    ensures !item.Noise?
  {
  }

  lemma LineIsOneLine(item: Item, p: Padding)
    requires LegalItem(item) && Blank(p)
    ensures OneLine(LineOf(item, p))
  {
    var line := LineOf(item, p);
    HasOf(line, '\n');
    match item
    case Header(name) => HasOf(name, '\n');
    case Pair(key, value) =>
      HasOf(key, '\n');
      HasOf(value, '\n');
  }

  /** Any text that says what printing a table says, parses back to that table. */
  lemma TextThatSaysTheTableParses(s: Schema, t: Table, contents: string)
    requires ValidSchema(s) && WellFormedTable(s, t) && Significant(ItemsOf(SplitLines(contents))) == PrintItems(s, t)
    ensures Parse(s, contents) == Success(t)
  {
    hide ValidSchema, WellFormedTable, PrintItems, ApplyAll, InstancesDone;
    NoiseChangesNothing(s, EMPTY_DOCUMENT, ItemsOf(SplitLines(contents)));
    PrintedItemsParse(s, t);
    WellFormedIsComplete(s, t);
  }

  /** Print a table, put blank and comment lines between its lines, pad every part of them, end them either
      way, add more such lines at the end, with or without a last line end: parsing gives the table back. */
  lemma ParseUndoesPrint(s: Schema, t: Table, decorations: seq<Decoration>, tail: seq<string>, crs: seq<bool>,
                         closed: bool)
    requires ValidSchema(s) && WellFormedTable(s, t)
    requires |decorations| == |PrintItems(s, t)| && forall i :: 0 <= i < |decorations| ==> Harmless(decorations[i])
    requires forall i :: 0 <= i < |tail| ==> OneLine(tail[i]) && ItemOf(tail[i]) == Noise
    requires |crs| == |Decorate(PrintItems(s, t), decorations) + tail|
    ensures Parse(s, TextOf(Decorate(PrintItems(s, t), decorations) + tail, crs, closed)) == Success(t)
  {
    hide ValidSchema, WellFormedTable, PrintItems, Parse, LegalItem, Harmless, OneLine, ItemOf, Decorate, TextOf;
    var items := PrintItems(s, t);
    var lines := Decorate(items, decorations);
    DecorationIsIgnored(items, decorations);
    NoiseLinesSayNothing(tail);
    ItemsOfAppend(lines, tail);
    SignificantAppend(ItemsOf(lines), ItemsOf(tail));
    assert items + [] == items;
    SplitUndoesJoin(lines + tail, crs, closed);
    if lines + tail != [] && (lines + tail)[|lines + tail| - 1] == "" { EmptyLastLineSaysNothing(lines + tail); }
    TextThatSaysTheTableParses(s, t, TextOf(lines + tail, crs, closed));
  }

  lemma EmptyLastLineSaysNothing(lines: seq<string>)
    requires lines != [] && lines[|lines| - 1] == ""
    ensures Significant(ItemsOf(lines[..|lines| - 1])) == Significant(ItemsOf(lines))
  {
    var front := lines[..|lines| - 1];
    assert lines == front + [""];
    ItemsOfAppend(front, [""]);
    SignificantAppend(ItemsOf(front), ItemsOf([""]));
    assert ItemsOf([""]) == [Noise] && Significant([Noise]) == [];
    assert Significant(ItemsOf(front)) + [] == Significant(ItemsOf(front));
  }
}
