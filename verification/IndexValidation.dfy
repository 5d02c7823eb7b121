/** The index section of the data contract validation. */
module IndexValidation {
  import opened Options
  import opened Strings
  import opened Schema

  const UNIQUE_INDEX_LIMIT := 3
  const MAX_INDEXED_STRING_PROPERTY_LENGTH := 1024
  const ALLOWED_SYSTEM_PROPERTIES := ["$id", "$ownerId", "$createdAt", "$updatedAt"]
  const PREBUILT_INDEX := "$id"

  datatype IndexProperty = IndexProperty(name: string, order: string)

  datatype IndexDefinition = IndexDefinition(properties: seq<IndexProperty>, unique: bool)

  /** A document type; without a `required` list nothing is required. `inherited`
      are the names its objects answer to without owning them. */
  datatype Document = Document(
    schema: Definition,
    inherited: set<string>,
    required: seq<string>,
    indices: Option<seq<IndexDefinition>>
  )

  datatype Constraint = MaxLengthShouldBeSet | MaxLengthTooLarge

  datatype Fault =
    | UniqueIndicesLimitReached
    | SystemPropertyIndexAlreadyPresent(index: IndexDefinition)
    | UndefinedIndexProperty(index: IndexDefinition, name: string)
    | InvalidIndexPropertyType(index: IndexDefinition, name: string, kind: Kind)
    | InvalidIndexedPropertyConstraint(index: IndexDefinition, name: string, constraint: Constraint)
    | InvalidCompoundIndex(index: IndexDefinition)
    | DuplicateIndex(index: IndexDefinition)

  // --------------------------------------------------------------- the rules

  function NamesOf(properties: seq<IndexProperty>): (names: seq<string>)
    ensures |names| == |properties|
    ensures forall k :: 0 <= k < |names| ==> names[k] == properties[k].name
  {
    seq(|properties|, k requires 0 <= k < |properties| => properties[k].name)
  }

  function Names(index: IndexDefinition): seq<string> {
    NamesOf(index.properties)
  }

  /** What a name in an index stands for. */
  datatype Property = System | UserDefined(answer: Answer)

  function PropertyNamed(document: Document, name: string): Property {
    if name in ALLOWED_SYSTEM_PROPERTIES then System
    else UserDefined(GetPropertyDefinitionByPath(document.inherited, document.schema, name))
  }

  function PropertiesOf(document: Document): string -> Property {
    (name: string) => PropertyNamed(document, name)
  }

  predicate IsContainer(kind: Kind) {
    kind == ObjectKind || kind == ArrayKind
  }

  predicate IsPlainArray(d: Definition) {
    d.kind == ArrayKind && d.byteArray != Some(true)
  }

  predicate PrefixAllowed(d: Definition) {
    d.prefixKinds.Some? ==>
      var kinds := d.prefixKinds.value;
      forall k | 0 <= k < |kinds| :: !IsContainer(kinds[k]) && kinds[k] == kinds[0]
  }

  predicate ItemsAllowed(d: Definition) {
    d.items.OneItem? ==> !IsContainer(d.items.item.kind)
  }

  ghost predicate AllOf(kinds: seq<Kind>, kind: Kind) {
    kind != ObjectKind && kind != ArrayKind && forall k :: 0 <= k < |kinds| ==> kinds[k] == kind
  }

  /** All of one kind, which is neither object nor array. */
  ghost predicate OfOneSimpleKind(kinds: seq<Kind>) {
    exists kind :: AllOf(kinds, kind)
  }

  lemma PrefixAllowedIff(d: Definition)
    ensures PrefixAllowed(d) <==> d.prefixKinds.None? || OfOneSimpleKind(d.prefixKinds.value)
  {
    if d.prefixKinds.Some? {
      var kinds := d.prefixKinds.value;
      if kinds == [] {
        assert AllOf(kinds, StringKind);
      } else if PrefixAllowed(d) {
        assert AllOf(kinds, kinds[0]);
      }
    }
  }

  /** The definition of a property that may stand in an index. */
  ghost predicate Indexable(d: Definition) {
    && d.kind != ObjectKind
    && (d.kind == ArrayKind && d.byteArray != Some(true) ==>
          && !d.items.NoItems?
          && (d.items.OneItem? ==> d.items.item.kind != ObjectKind && d.items.item.kind != ArrayKind)
          && (d.prefixKinds.Some? ==> OfOneSimpleKind(d.prefixKinds.value)))
    && (d.kind == StringKind ==> d.maxLength.Some? && d.maxLength.value <= MAX_INDEXED_STRING_PROPERTY_LENGTH)
  }

  ghost predicate IndexableProperty(p: Property) {
    p.UserDefined? ==> p.answer.Found? && Indexable(p.answer.definition)
  }

  ghost predicate AllOrNoneRequired(required: seq<string>, names: seq<string>) {
    (forall name :: name in names ==> name in required) || (forall name :: name in names ==> name !in required)
  }

  function CountUnique(indices: seq<IndexDefinition>): nat {
    if indices == [] then 0
    else CountUnique(indices[..|indices| - 1]) + if indices[|indices| - 1].unique then 1 else 0
  }

  /** The name ends at something the schema does not define but every object
      inherits, `constructor` for one. */
  predicate IsInherited(document: Document, name: string) {
    name !in ALLOWED_SYSTEM_PROPERTIES && EndsInherited(document.inherited, OwnProperties(document.schema), name)
  }

  /** The name is a system property or leads to an indexable definition of the
      schema. `exempt`: or to an inherited name. */
  ghost predicate MayBeIndexed(document: Document, name: string, exempt: bool) {
    || name in ALLOWED_SYSTEM_PROPERTIES
    || (exempt && IsInherited(document, name))
    || var a := GetPropertyDefinitionByPath({}, document.schema, name);
       a.Found? && Indexable(a.definition)
  }

  ghost predicate RulesOfIndex(document: Document, index: IndexDefinition, exempt: bool) {
    && Names(index) != [PREBUILT_INDEX]
    && (forall name :: name in Names(index) ==> MayBeIndexed(document, name, exempt))
    && (|Names(index)| > 1 ==> AllOrNoneRequired(document.required, Names(index)))
  }

  /** What the index section demands of one document type. */
  ghost predicate RulesHold(document: Document, indices: seq<IndexDefinition>, exempt: bool) {
    && CountUnique(indices) <= UNIQUE_INDEX_LIMIT
    && (forall index :: index in indices ==> RulesOfIndex(document, index, exempt))
    && (forall i, j :: 0 <= i < j < |indices| ==> indices[i].properties != indices[j].properties)
  }

  ghost predicate AsksInherited(document: Document, indices: seq<IndexDefinition>) {
    exists index, name :: index in indices && name in Names(index) && IsInherited(document, name)
  }

  // --------------------------------------------------------- what is reported

  ghost predicate IsUndefined(p: Property) {
    p.UserDefined? && p.answer.Undefined?
  }

  ghost predicate LookupThrows(p: Property) {
    p.UserDefined? && p.answer.Threw?
  }

  ghost predicate CheckThrows(p: Property) {
    p.UserDefined? && p.answer.Found? && IsPlainArray(p.answer.definition) && p.answer.definition.items.NoItems?
  }

  ghost predicate SkipsRest(ask: string -> Property, names: seq<string>) {
    exists k :: 0 <= k < |names| && IsUndefined(ask(names[k]))
  }

  ghost predicate SomeLookupThrows(ask: string -> Property, names: seq<string>) {
    exists k :: 0 <= k < |names| && LookupThrows(ask(names[k]))
  }

  ghost predicate SomeCheckThrows(ask: string -> Property, names: seq<string>) {
    exists k :: 0 <= k < |names| && CheckThrows(ask(names[k]))
  }

  /** A TypeError on `items.type`: in a lookup, or in the check of a definition. */
  ghost predicate Throws(ask: string -> Property, names: seq<string>) {
    SomeLookupThrows(ask, names) || (!SkipsRest(ask, names) && SomeCheckThrows(ask, names))
  }

  ghost function UndefinedFaults(ask: string -> Property, index: IndexDefinition, names: seq<string>): seq<Fault> {
    if names == [] then []
    else
      var name := names[|names| - 1];
      UndefinedFaults(ask, index, names[..|names| - 1])
      + if IsUndefined(ask(name)) then [UndefinedIndexProperty(index, name)] else []
  }

  ghost function TypeFaults(index: IndexDefinition, name: string, d: Definition): seq<Fault> {
    if d.kind == ObjectKind then [InvalidIndexPropertyType(index, name, ObjectKind)]
    else if IsPlainArray(d) && !(PrefixAllowed(d) && ItemsAllowed(d)) then
      [InvalidIndexPropertyType(index, name, ArrayKind)]
    else []
  }

  ghost function LengthFaults(index: IndexDefinition, name: string, d: Definition): seq<Fault> {
    if d.kind != StringKind then []
    else if d.maxLength.None? then [InvalidIndexedPropertyConstraint(index, name, MaxLengthShouldBeSet)]
    else if d.maxLength.value > MAX_INDEXED_STRING_PROPERTY_LENGTH then
      [InvalidIndexedPropertyConstraint(index, name, MaxLengthTooLarge)]
    else []
  }

  ghost function PropertyFaults(index: IndexDefinition, name: string, p: Property): seq<Fault> {
    if p.UserDefined? && p.answer.Found? then
      TypeFaults(index, name, p.answer.definition) + LengthFaults(index, name, p.answer.definition)
    else []
  }

  ghost function DefinedFaults(ask: string -> Property, index: IndexDefinition, names: seq<string>): seq<Fault> {
    if names == [] then []
    else
      var name := names[|names| - 1];
      DefinedFaults(ask, index, names[..|names| - 1]) + PropertyFaults(index, name, ask(name))
  }

  ghost function CompoundFaults(document: Document, index: IndexDefinition): seq<Fault> {
    if |Names(index)| > 1 && !AllOrNoneRequired(document.required, Names(index)) then [InvalidCompoundIndex(index)]
    else []
  }

  /** The faults of the index itself; after an undefined property the rest is skipped. */
  ghost function DefinitionFaults(document: Document, index: IndexDefinition): seq<Fault> {
    var ask, names := PropertiesOf(document), Names(index);
    if SkipsRest(ask, names) then UndefinedFaults(ask, index, names)
    else DefinedFaults(ask, index, names) + CompoundFaults(document, index)
  }

  ghost predicate Skipped(document: Document, properties: seq<IndexProperty>) {
    SkipsRest(PropertiesOf(document), NamesOf(properties))
  }

  ghost predicate Listed(indices: seq<IndexDefinition>, properties: seq<IndexProperty>) {
    exists k :: 0 <= k < |indices| && indices[k].properties == properties
  }

  ghost function DuplicateFaults(document: Document, earlier: seq<IndexDefinition>,
                                 index: IndexDefinition): seq<Fault>
  {
    if !Skipped(document, index.properties) && Listed(earlier, index.properties) then [DuplicateIndex(index)] else []
  }

  /** What is reported before the properties are looked up. */
  ghost function HeadFaults(earlier: seq<IndexDefinition>, index: IndexDefinition): seq<Fault> {
    (if index.unique && CountUnique(earlier) == UNIQUE_INDEX_LIMIT then [UniqueIndicesLimitReached] else [])
    + (if Names(index) == [PREBUILT_INDEX] then [SystemPropertyIndexAlreadyPresent(index)] else [])
  }

  ghost function FaultsOf(document: Document, earlier: seq<IndexDefinition>, index: IndexDefinition): seq<Fault> {
    HeadFaults(earlier, index) + DefinitionFaults(document, index) + DuplicateFaults(document, earlier, index)
  }

  ghost function Faults(document: Document, indices: seq<IndexDefinition>): seq<Fault> {
    if indices == [] then []
    else
      var earlier, index := indices[..|indices| - 1], indices[|indices| - 1];
      Faults(document, earlier) + FaultsOf(document, earlier, index)
  }

  ghost predicate SomeThrows(document: Document, indices: seq<IndexDefinition>) {
    exists k :: 0 <= k < |indices| && Throws(PropertiesOf(document), Names(indices[k]))
  }

  lemma UndefinedStep(ask: string -> Property, index: IndexDefinition, names: seq<string>, i: nat)
    requires i < |names|
    ensures UndefinedFaults(ask, index, names[..i + 1]) ==
      UndefinedFaults(ask, index, names[..i])
      + if IsUndefined(ask(names[i])) then [UndefinedIndexProperty(index, names[i])] else []
  {
    assert names[..i + 1][..i] == names[..i];
  }

  lemma DefinedStep(ask: string -> Property, index: IndexDefinition, names: seq<string>, i: nat)
    requires i < |names|
    ensures DefinedFaults(ask, index, names[..i + 1]) ==
      DefinedFaults(ask, index, names[..i]) + PropertyFaults(index, names[i], ask(names[i]))
  {
    assert names[..i + 1][..i] == names[..i];
  }

  lemma ThrowsStep(ask: string -> Property, names: seq<string>, i: nat)
    requires i < |names| && !SomeCheckThrows(ask, names[..i])
    ensures SomeCheckThrows(ask, names[..i + 1]) <==> CheckThrows(ask(names[i]))
    ensures CheckThrows(ask(names[i])) ==> SomeCheckThrows(ask, names)
  {
    var now := names[..i + 1];
    assert now[i] == names[i];
    forall k | 0 <= k < i ensures !CheckThrows(ask(now[k])) {
      assert now[k] == names[..i][k];
    }
  }

  // ----------------------------------------------------------------- the loops

  method CheckProperty(index: IndexDefinition, name: string, d: Definition) returns (threw: bool, faults: seq<Fault>)
    ensures threw <==> IsPlainArray(d) && d.items.NoItems?
    ensures !threw ==> faults == TypeFaults(index, name, d) + LengthFaults(index, name, d)
  {
    faults := [];
    var invalidPropertyType := None;
    if d.kind == ObjectKind {
      invalidPropertyType := Some(ObjectKind);
    }
    if d.kind == ArrayKind && d.byteArray != Some(true) {
      var isInvalidPrefixItems := !PrefixAllowed(d);
      if d.items.NoItems? {
        return true, [];
      }
      var isInvalidItemTypes := d.items.OneItem? && IsContainer(d.items.item.kind);
      if isInvalidPrefixItems || isInvalidItemTypes {
        invalidPropertyType := Some(ArrayKind);
      }
    }
    if invalidPropertyType.Some? {
      faults := faults + [InvalidIndexPropertyType(index, name, invalidPropertyType.value)];
    }
    if d.kind == StringKind {
      if d.maxLength.None? {
        faults := faults + [InvalidIndexedPropertyConstraint(index, name, MaxLengthShouldBeSet)];
      }
      if d.maxLength.Some? && d.maxLength.value > MAX_INDEXED_STRING_PROPERTY_LENGTH {
        faults := faults + [InvalidIndexedPropertyConstraint(index, name, MaxLengthTooLarge)];
      }
    }
    threw := false;
  }

  /** The lookups of all user-defined names, with the undefined ones reported. */
  method FindDefinitions(ask: string -> Property, index: IndexDefinition, names: seq<string>)
    returns (threw: bool, isUndefined: bool, faults: seq<Fault>)
    ensures threw <==> SomeLookupThrows(ask, names)
    ensures !threw ==> isUndefined == SkipsRest(ask, names) && faults == UndefinedFaults(ask, index, names)
  {
    threw, isUndefined, faults := false, false, [];
    for i := 0 to |names|
      invariant forall k :: 0 <= k < i ==> !LookupThrows(ask(names[k]))
      invariant isUndefined <==> exists k :: 0 <= k < i && IsUndefined(ask(names[k]))
      invariant faults == UndefinedFaults(ask, index, names[..i])
    {
      UndefinedStep(ask, index, names, i);
      var property := ask(names[i]);
      if property.UserDefined? {
        if property.answer.Threw? {
          return true, false, [];
        }
        if property.answer.Undefined? {
          isUndefined, faults := true, faults + [UndefinedIndexProperty(index, names[i])];
        }
      }
    }
    assert names[..|names|] == names;
  }

  /** System properties are not checked. */
  method CheckDefinition(index: IndexDefinition, name: string, property: Property)
    returns (threw: bool, faults: seq<Fault>)
    requires !LookupThrows(property) && !IsUndefined(property)
    ensures threw <==> CheckThrows(property)
    ensures !threw ==> faults == PropertyFaults(index, name, property)
  {
    if property.UserDefined? {
      threw, faults := CheckProperty(index, name, property.answer.definition);
    } else {
      threw, faults := false, [];
    }
  }

  method CheckDefinitions(ask: string -> Property, index: IndexDefinition, names: seq<string>)
    returns (threw: bool, faults: seq<Fault>)
    requires !SkipsRest(ask, names) && !SomeLookupThrows(ask, names)
    ensures threw <==> SomeCheckThrows(ask, names)
    ensures !threw ==> faults == DefinedFaults(ask, index, names)
  {
    threw, faults := false, [];
    for i := 0 to |names|
      invariant !SomeCheckThrows(ask, names[..i])
      invariant faults == DefinedFaults(ask, index, names[..i])
    {
      DefinedStep(ask, index, names, i);
      ThrowsStep(ask, names, i);
      var fails, more := CheckDefinition(index, names[i], ask(names[i]));
      if fails {
        return true, [];
      }
      faults := faults + more;
    }
    assert names[..|names|] == names;
  }

  method CheckCompound(document: Document, index: IndexDefinition) returns (faults: seq<Fault>)
    ensures faults == CompoundFaults(document, index)
  {
    var names := Names(index);
    faults := [];
    if |names| > 1 {
      var allAreRequired := forall k | 0 <= k < |names| :: names[k] in document.required;
      var allAreNotRequired := forall k | 0 <= k < |names| :: names[k] !in document.required;
      assert allAreRequired <==> forall name :: name in names ==> name in document.required;
      assert allAreNotRequired <==> forall name :: name in names ==> name !in document.required;
      if !allAreRequired && !allAreNotRequired {
        faults := [InvalidCompoundIndex(index)];
      }
    }
  }

  /** Everything about one index but the comparison with the others. */
  method CheckIndex(document: Document, index: IndexDefinition)
    returns (threw: bool, skipped: bool, faults: seq<Fault>)
    ensures threw <==> Throws(PropertiesOf(document), Names(index))
    ensures !threw ==> skipped == Skipped(document, index.properties) && faults == DefinitionFaults(document, index)
  {
    var ask, names := PropertiesOf(document), Names(index);
    threw, skipped, faults := FindDefinitions(ask, index, names);
    if !threw && !skipped {
      threw, faults := CheckDefinitions(ask, index, names);
      if !threw {
        var more := CheckCompound(document, index);
        faults := faults + more;
      }
    }
  }

  /** Which property lists were pushed: those of the indices that were not skipped. */
  ghost predicate Pushed(document: Document, earlier: seq<IndexDefinition>, fingerprints: seq<seq<IndexProperty>>) {
    forall p :: p in fingerprints <==> !Skipped(document, p) && Listed(earlier, p)
  }

  lemma PushOne(document: Document, earlier: seq<IndexDefinition>, fingerprints: seq<seq<IndexProperty>>,
                index: IndexDefinition)
    requires Pushed(document, earlier, fingerprints)
    ensures Skipped(document, index.properties) ==> Pushed(document, earlier + [index], fingerprints)
    ensures !Skipped(document, index.properties) ==>
      Pushed(document, earlier + [index], fingerprints + [index.properties])
  {
    var now := earlier + [index];
    forall p ensures Listed(now, p) <==> Listed(earlier, p) || p == index.properties {
      assert now[|earlier|] == index;
      assert forall k :: 0 <= k < |earlier| ==> now[k] == earlier[k];
    }
  }

  lemma AppendIndex(document: Document, indices: seq<IndexDefinition>, i: nat)
    requires i < |indices|
    ensures indices[..i + 1] == indices[..i] + [indices[i]]
    ensures Faults(document, indices[..i + 1])
      == Faults(document, indices[..i]) + FaultsOf(document, indices[..i], indices[i])
    ensures CountUnique(indices[..i + 1]) == CountUnique(indices[..i]) + if indices[i].unique then 1 else 0
    ensures SomeThrows(document, indices[..i + 1]) <==>
      SomeThrows(document, indices[..i]) || Throws(PropertiesOf(document), Names(indices[i]))
  {
    assert indices[..i + 1][..i] == indices[..i];
    if Throws(PropertiesOf(document), Names(indices[i])) {
      assert Throws(PropertiesOf(document), Names(indices[..i + 1][i]));
    }
    if k :| 0 <= k < i && Throws(PropertiesOf(document), Names(indices[..i][k])) {
      assert Throws(PropertiesOf(document), Names(indices[..i + 1][k]));
    }
  }

  /** One turn of the loop, after the count of the unique indices. */
  method ReportIndex(document: Document, ghost earlier: seq<IndexDefinition>, index: IndexDefinition, overLimit: bool,
                     fingerprints: seq<seq<IndexProperty>>)
    returns (threw: bool, faults: seq<Fault>, pushed: seq<seq<IndexProperty>>)
    requires Pushed(document, earlier, fingerprints)
    requires overLimit == (index.unique && CountUnique(earlier) == UNIQUE_INDEX_LIMIT)
    ensures threw <==> Throws(PropertiesOf(document), Names(index))
    ensures !threw ==> faults == FaultsOf(document, earlier, index) && Pushed(document, earlier + [index], pushed)
  {
    faults := if overLimit then [UniqueIndicesLimitReached] else [];
    pushed := fingerprints;
    if Names(index) == [PREBUILT_INDEX] {
      faults := faults + [SystemPropertyIndexAlreadyPresent(index)];
    }
    assert faults == HeadFaults(earlier, index);
    var fails, skipped, more := CheckIndex(document, index);
    if fails {
      return true, [], [];
    }
    var duplicates;
    duplicates, pushed := ComparePropertyLists(document, earlier, index, skipped, fingerprints);
    threw, faults := false, faults + more + duplicates;
  }

  method ComparePropertyLists(document: Document, ghost earlier: seq<IndexDefinition>, index: IndexDefinition,
                              skipped: bool, fingerprints: seq<seq<IndexProperty>>)
    returns (faults: seq<Fault>, pushed: seq<seq<IndexProperty>>)
    requires skipped == Skipped(document, index.properties)
    requires Pushed(document, earlier, fingerprints)
    ensures faults == DuplicateFaults(document, earlier, index)
    ensures Pushed(document, earlier + [index], pushed)
  {
    faults, pushed := [], fingerprints;
    PushOne(document, earlier, fingerprints, index);
    if !skipped {
      if index.properties in fingerprints {
        faults := [DuplicateIndex(index)];
      }
      pushed := fingerprints + [index.properties];
    }
  }

  method ValidateIndices(document: Document, indices: seq<IndexDefinition>) returns (threw: bool, faults: seq<Fault>)
    ensures threw <==> SomeThrows(document, indices)
    ensures !threw ==> faults == Faults(document, indices)
  {
    var indicesFingerprints: seq<seq<IndexProperty>> := [];
    var uniqueIndexCount := 0;
    var isUniqueIndexLimitReached := false;
    threw, faults := false, [];
    for i := 0 to |indices|
      invariant !SomeThrows(document, indices[..i])
      invariant faults == Faults(document, indices[..i])
      invariant isUniqueIndexLimitReached <==> CountUnique(indices[..i]) > UNIQUE_INDEX_LIMIT
      invariant !isUniqueIndexLimitReached ==> uniqueIndexCount == CountUnique(indices[..i])
      invariant Pushed(document, indices[..i], indicesFingerprints)
    {
      AppendIndex(document, indices, i);
      var overLimit := false;
      if !isUniqueIndexLimitReached && indices[i].unique {
        uniqueIndexCount := uniqueIndexCount + 1;
        if uniqueIndexCount > UNIQUE_INDEX_LIMIT {
          isUniqueIndexLimitReached := true;
          overLimit := true;
        }
      }
      var fails, more, pushed := ReportIndex(document, indices[..i], indices[i], overLimit, indicesFingerprints);
      if fails {
        return true, [];
      }
      faults, indicesFingerprints := faults + more, pushed;
    }
    assert indices[..|indices|] == indices;
  }

  // ------------------------------------------------------------ exactness

  lemma {:induction false} NothingUndefined(ask: string -> Property, index: IndexDefinition, names: seq<string>)
    ensures UndefinedFaults(ask, index, names) == [] <==> !SkipsRest(ask, names)
  {
    if names != [] {
      var front := names[..|names| - 1];
      NothingUndefined(ask, index, front);
      assert forall k :: 0 <= k < |front| ==> front[k] == names[k];
    }
  }

  ghost predicate NothingWrongWith(index: IndexDefinition, name: string, p: Property) {
    PropertyFaults(index, name, p) == []
  }

  ghost predicate AllClear(ask: string -> Property, index: IndexDefinition, names: seq<string>) {
    forall k :: 0 <= k < |names| ==> NothingWrongWith(index, names[k], ask(names[k]))
  }

  lemma {:induction false} NothingWrong(ask: string -> Property, index: IndexDefinition, names: seq<string>)
    ensures DefinedFaults(ask, index, names) == [] <==> AllClear(ask, index, names)
  {
    if names != [] {
      var last := |names| - 1;
      NothingWrong(ask, index, names[..last]);
      AllClearStep(ask, index, names);
      assert names[..last + 1] == names;
      DefinedStep(ask, index, names, last);
      JoinEmpty(DefinedFaults(ask, index, names[..last]), PropertyFaults(index, names[last], ask(names[last])));
    }
  }

  lemma JoinEmpty(a: seq<Fault>, b: seq<Fault>)
    ensures a + b == [] <==> a == [] && b == []
  {
  }

  lemma AllClearStep(ask: string -> Property, index: IndexDefinition, names: seq<string>)
    requires names != []
    ensures var last := |names| - 1;
      AllClear(ask, index, names) <==>
        AllClear(ask, index, names[..last]) && NothingWrongWith(index, names[last], ask(names[last]))
  {
    var front := names[..|names| - 1];
    assert forall k :: 0 <= k < |front| ==> front[k] == names[k];
  }

  ghost predicate Passes(index: IndexDefinition, name: string, p: Property) {
    !IsUndefined(p) && !LookupThrows(p) && !CheckThrows(p) && NothingWrongWith(index, name, p)
  }

  /** A property passes without an error or a TypeError exactly when it is indexable. */
  lemma PropertyIsIndexable(index: IndexDefinition, name: string, p: Property)
    ensures Passes(index, name, p) <==> IndexableProperty(p)
  {
    if p.UserDefined? && p.answer.Found? { PrefixAllowedIff(p.answer.definition); }
  }

  ghost predicate Silent(document: Document, index: IndexDefinition) {
    !Throws(PropertiesOf(document), Names(index)) && DefinitionFaults(document, index) == []
  }

  ghost predicate PassesAll(ask: string -> Property, index: IndexDefinition, names: seq<string>) {
    forall k :: 0 <= k < |names| ==> Passes(index, names[k], ask(names[k]))
  }

  lemma SilentIff(document: Document, index: IndexDefinition)
    ensures Silent(document, index) <==>
      PassesAll(PropertiesOf(document), index, Names(index)) && CompoundFaults(document, index) == []
  {
    NothingUndefined(PropertiesOf(document), index, Names(index));
    NothingWrong(PropertiesOf(document), index, Names(index));
  }

  /** With inherited names exempt, the code's own lookup decides each name. */
  lemma IndexableIff(document: Document, name: string)
    ensures IndexableProperty(PropertyNamed(document, name)) <==> MayBeIndexed(document, name, true)
  {
    InheritedAnswers(document.inherited, OwnProperties(document.schema), name);
  }

  lemma PassesIff(document: Document, index: IndexDefinition)
    ensures PassesAll(PropertiesOf(document), index, Names(index)) <==>
      forall name :: name in Names(index) ==> MayBeIndexed(document, name, true)
  {
    var ask, names := PropertiesOf(document), Names(index);
    forall k | 0 <= k < |names|
      ensures ask(names[k]) == PropertyNamed(document, names[k])
      ensures Passes(index, names[k], ask(names[k])) <==> MayBeIndexed(document, names[k], true)
    {
      PropertyIsIndexable(index, names[k], ask(names[k]));
      IndexableIff(document, names[k]);
    }
    assert forall k :: 0 <= k < |names| ==> names[k] in names;
  }

  lemma RulesOfIndexIff(document: Document, index: IndexDefinition)
    ensures RulesOfIndex(document, index, true) <==> Names(index) != [PREBUILT_INDEX] && Silent(document, index)
  {
    SilentIff(document, index);
    PassesIff(document, index);
  }

  ghost predicate NothingReported(document: Document, indices: seq<IndexDefinition>) {
    !SomeThrows(document, indices) && Faults(document, indices) == []
  }

  lemma LastIsSilentIff(document: Document, earlier: seq<IndexDefinition>, index: IndexDefinition)
    ensures !Throws(PropertiesOf(document), Names(index)) && FaultsOf(document, earlier, index) == [] <==>
      && RulesOfIndex(document, index, true)
      && !(index.unique && CountUnique(earlier) == UNIQUE_INDEX_LIMIT)
      && !Listed(earlier, index.properties)
  {
    RulesOfIndexIff(document, index);
    NothingUndefined(PropertiesOf(document), index, Names(index));
    assert Silent(document, index) ==> !Skipped(document, index.properties);
  }

  /** The index section is silent exactly when all rules hold, inherited names
      exempt. */
  lemma {:induction false} SilentUpToInherited(document: Document, indices: seq<IndexDefinition>)
    ensures NothingReported(document, indices) <==> RulesHold(document, indices, true)
  {
    if indices != [] {
      var last := |indices| - 1;
      SilentUpToInherited(document, indices[..last]);
      assert indices[..last + 1] == indices;
      AppendIndex(document, indices, last);
      LastIsSilentIff(document, indices[..last], indices[last]);
      RulesOfLonger(document, indices[..last], indices[last], true);
    }
  }

  lemma RulesOfLonger(document: Document, earlier: seq<IndexDefinition>, index: IndexDefinition, exempt: bool)
    ensures RulesHold(document, earlier + [index], exempt) <==>
      && RulesHold(document, earlier, exempt)
      && RulesOfIndex(document, index, exempt)
      && !(index.unique && CountUnique(earlier) == UNIQUE_INDEX_LIMIT)
      && !Listed(earlier, index.properties)
  {
    var now := earlier + [index];
    assert now[..|earlier|] == earlier;
    assert forall k :: 0 <= k < |earlier| ==> now[k] == earlier[k];
    assert now[|earlier|] == index && index in now;
    assert forall i :: i in now <==> i in earlier || i == index;
  }

  lemma InheritedIsNotIndexable(document: Document, name: string)
    ensures IsInherited(document, name) ==> !MayBeIndexed(document, name, false)
    ensures !IsInherited(document, name) ==>
      (MayBeIndexed(document, name, true) <==> MayBeIndexed(document, name, false))
  {
    InheritedAnswers(document.inherited, OwnProperties(document.schema), name);
  }

  lemma ExemptionMatters(document: Document, index: IndexDefinition)
    ensures RulesOfIndex(document, index, false) <==>
      RulesOfIndex(document, index, true) && forall name :: name in Names(index) ==> !IsInherited(document, name)
  {
    forall name | name in Names(index)
      ensures MayBeIndexed(document, name, false) <==>
        MayBeIndexed(document, name, true) && !IsInherited(document, name)
    {
      InheritedIsNotIndexable(document, name);
    }
  }

  /** When no index asks for an inherited name, silence means that all rules
      hold. When one does, they do not hold, and yet the section is silent as
      soon as everything else is in order. */
  lemma ValidatorIsExact(document: Document, indices: seq<IndexDefinition>)
    ensures !AsksInherited(document, indices) ==>
      (NothingReported(document, indices) <==> RulesHold(document, indices, false))
    ensures AsksInherited(document, indices) ==>
      && !RulesHold(document, indices, false)
      && (NothingReported(document, indices) <==> RulesHold(document, indices, true))
  {
    SilentUpToInherited(document, indices);
    forall index | index in indices
      ensures RulesOfIndex(document, index, false) <==>
        RulesOfIndex(document, index, true) && forall name :: name in Names(index) ==> !IsInherited(document, name)
    {
      ExemptionMatters(document, index);
    }
  }

  /** An index on an inherited name alone is accepted whatever the schema is. */
  lemma InheritedIsAccepted(document: Document, name: string, order: string)
    requires IsInherited(document, name)
    ensures var indices := [IndexDefinition([IndexProperty(name, order)], false)];
      NothingReported(document, indices) && !RulesHold(document, indices, false)
  {
    var index := IndexDefinition([IndexProperty(name, order)], false);
    assert ALLOWED_SYSTEM_PROPERTIES[0] == PREBUILT_INDEX && Names(index)[0] == name;
    assert Names(index) == [name] && name in Names(index);
    assert RulesOfIndex(document, index, true);
    OneIndexHolds(document, index);
    assert AsksInherited(document, [index]);
    ValidatorIsExact(document, [index]);
  }

  lemma OneIndexHolds(document: Document, index: IndexDefinition)
    requires RulesOfIndex(document, index, true)
    ensures RulesHold(document, [index], true) && index in [index]
  {
    assert [index][..0] == [];
    assert CountUnique([index]) <= 1;
    assert forall other :: other in [index] ==> other == index;
  }

  lemma MissingNameIsInherited(document: Document, name: string)
    requires Free(name, '.') && FindProperty(OwnProperties(document.schema), name).None?
    requires name in document.inherited && name !in ALLOWED_SYSTEM_PROPERTIES
    ensures IsInherited(document, name)
  {
    SplitOne(name, '.');
  }

  /** A document type with one property, a label of at most 63 characters. */
  function LabelType(inherited: set<string>): Document {
    var text := Definition(StringKind, None, NoItems, None, Some(63), None);
    var schema := Definition(ObjectKind, Some(Property("label", text, Empty)), NoItems, None, None, None);
    Document(schema, inherited, [], None)
  }

  /** An index of this document type on `constructor`. */
  lemma ConstructorIsAccepted(inherited: set<string>)
    requires "constructor" in inherited
    ensures var indices := [IndexDefinition([IndexProperty("constructor", "asc")], false)];
      NothingReported(LabelType(inherited), indices) && !RulesHold(LabelType(inherited), indices, false)
  {
    var name, other := "constructor", "label";
    assert |name| == 11 && name[0] == 'c' && |other| == 5;
    assert FindProperty(OwnProperties(LabelType(inherited).schema), name).None?;
    MissingNameIsInherited(LabelType(inherited), name);
    InheritedIsAccepted(LabelType(inherited), name, "asc");
  }

  function UniquePositions(indices: seq<IndexDefinition>): set<nat> {
    set i | 0 <= i < |indices| && indices[i].unique
  }

  lemma {:induction false} CountIsCardinality(indices: seq<IndexDefinition>)
    ensures CountUnique(indices) == |UniquePositions(indices)|
  {
    if indices != [] {
      var front, last := indices[..|indices| - 1], |indices| - 1;
      CountIsCardinality(front);
      assert UniquePositions(indices) == UniquePositions(front) + if indices[last].unique then {last} else {};
    }
  }

  /** The limit of unique indices is reported once, however far it is exceeded. */
  lemma {:induction false} LimitIsReportedOnce(document: Document, indices: seq<IndexDefinition>)
    ensures multiset(Faults(document, indices))[UniqueIndicesLimitReached] ==
      if |UniquePositions(indices)| > 3 then 1 else 0
  {
    CountIsCardinality(indices);
    LimitIsCounted(document, indices);
  }

  lemma {:induction false} LimitIsCounted(document: Document, indices: seq<IndexDefinition>)
    ensures multiset(Faults(document, indices))[UniqueIndicesLimitReached] ==
      if CountUnique(indices) > UNIQUE_INDEX_LIMIT then 1 else 0
  {
    if indices != [] {
      var earlier, index := indices[..|indices| - 1], indices[|indices| - 1];
      LimitIsCounted(document, earlier);
      LimitOfIndex(document, earlier, index);
    }
  }

  lemma LimitOfIndex(document: Document, earlier: seq<IndexDefinition>, index: IndexDefinition)
    ensures multiset(FaultsOf(document, earlier, index))[UniqueIndicesLimitReached] ==
      if index.unique && CountUnique(earlier) == UNIQUE_INDEX_LIMIT then 1 else 0
  {
    NoLimitInside(document, index);
  }

  lemma NoLimitInside(document: Document, index: IndexDefinition)
    ensures UniqueIndicesLimitReached !in DefinitionFaults(document, index)
  {
    NoLimitAmong(PropertiesOf(document), index, Names(index));
  }

  lemma {:induction false} NoLimitAmong(ask: string -> Property, index: IndexDefinition, names: seq<string>)
    ensures UniqueIndicesLimitReached !in UndefinedFaults(ask, index, names)
    ensures UniqueIndicesLimitReached !in DefinedFaults(ask, index, names)
  {
    if names != [] {
      NoLimitAmong(ask, index, names[..|names| - 1]);
    }
  }

  // ------------------------------------------------------- the early return

  /** What would be reported if the checks went on after an undefined property. */
  ghost function FaultsWithoutReturn(document: Document, earlier: seq<IndexDefinition>,
                                     index: IndexDefinition): seq<Fault>
  {
    var ask, names := PropertiesOf(document), Names(index);
    HeadFaults(earlier, index)
    + UndefinedFaults(ask, index, names) + DefinedFaults(ask, index, names) + CompoundFaults(document, index)
    + (if Listed(earlier, index.properties) then [DuplicateIndex(index)] else [])
  }

  ghost predicate ThrowsWithoutReturn(document: Document, index: IndexDefinition) {
    SomeLookupThrows(PropertiesOf(document), Names(index)) || SomeCheckThrows(PropertiesOf(document), Names(index))
  }

  ghost predicate NothingReportedWithoutReturn(document: Document, indices: seq<IndexDefinition>) {
    indices == [] ||
    var earlier, index := indices[..|indices| - 1], indices[|indices| - 1];
    && NothingReportedWithoutReturn(document, earlier)
    && !ThrowsWithoutReturn(document, index)
    && FaultsWithoutReturn(document, earlier, index) == []
  }

  lemma ReturnKeepsVerdictOfOne(document: Document, earlier: seq<IndexDefinition>, index: IndexDefinition)
    ensures !ThrowsWithoutReturn(document, index) && FaultsWithoutReturn(document, earlier, index) == [] <==>
      !Throws(PropertiesOf(document), Names(index)) && FaultsOf(document, earlier, index) == []
  {
    NothingUndefined(PropertiesOf(document), index, Names(index));
  }

  /** The early return after undefined properties, which also keeps an index
      out of the later comparisons, never changes the verdict. */
  lemma {:induction false} EarlyReturnKeepsVerdict(document: Document, indices: seq<IndexDefinition>)
    ensures NothingReportedWithoutReturn(document, indices) <==> NothingReported(document, indices)
  {
    if indices != [] {
      var last := |indices| - 1;
      var earlier := indices[..last];
      EarlyReturnKeepsVerdict(document, earlier);
      assert indices[..last + 1] == indices;
      AppendIndex(document, indices, last);
      ReturnKeepsVerdictOfOne(document, earlier, indices[last]);
    }
  }

  // ------------------------------------------------------ the whole contract

  datatype Error = Error(documentType: string, fault: Fault)

  function Tagged(documentType: string, faults: seq<Fault>): (errors: seq<Error>)
    ensures |errors| == |faults|
    ensures forall k :: 0 <= k < |faults| ==> errors[k] == Error(documentType, faults[k])
  {
    seq(|faults|, k requires 0 <= k < |faults| => Error(documentType, faults[k]))
  }

  ghost predicate Obeys(document: Document, exempt: bool) {
    document.indices.Some? ==> RulesHold(document, document.indices.value, exempt)
  }

  ghost predicate Asks(document: Document) {
    document.indices.Some? && AsksInherited(document, document.indices.value)
  }

  ghost function ErrorsOf(documentType: string, document: Document): seq<Error> {
    if document.indices.None? then [] else Tagged(documentType, Faults(document, document.indices.value))
  }

  ghost function AllErrors(documents: seq<(string, Document)>): seq<Error> {
    if documents == [] then []
    else AllErrors(documents[..|documents| - 1]) + ErrorsOf(documents[|documents| - 1].0, documents[|documents| - 1].1)
  }

  ghost predicate AllObey(documents: seq<(string, Document)>, exempt: bool) {
    forall k :: 0 <= k < |documents| ==> Obeys(documents[k].1, exempt)
  }

  ghost predicate SomeAsks(documents: seq<(string, Document)>) {
    exists k :: 0 <= k < |documents| && Asks(documents[k].1)
  }

  lemma NextDocument(documents: seq<(string, Document)>, i: nat)
    requires i < |documents|
    ensures AllObey(documents[..i + 1], true) <==> AllObey(documents[..i], true) && Obeys(documents[i].1, true)
    ensures AllErrors(documents[..i + 1]) == AllErrors(documents[..i]) + ErrorsOf(documents[i].0, documents[i].1)
    ensures AllObey(documents, true) ==> Obeys(documents[i].1, true)
  {
    var longer, shorter := documents[..i + 1], documents[..i];
    assert longer[..i] == shorter && longer[i] == documents[i];
    forall k | 0 <= k < i ensures longer[k].1 == shorter[k].1 {
      assert longer[k] == shorter[k];
    }
  }

  lemma ExemptionMattersToOne(document: Document)
    ensures Obeys(document, false) <==> Obeys(document, true) && !Asks(document)
  {
    if document.indices.Some? {
      ValidatorIsExact(document, document.indices.value);
      SilentUpToInherited(document, document.indices.value);
    }
  }

  lemma ExemptionMattersToAll(documents: seq<(string, Document)>)
    ensures AllObey(documents, false) <==> AllObey(documents, true) && !SomeAsks(documents)
  {
    forall k | 0 <= k < |documents|
      ensures Obeys(documents[k].1, false) <==> Obeys(documents[k].1, true) && !Asks(documents[k].1)
    {
      ExemptionMattersToOne(documents[k].1);
    }
  }

  /** The section as a whole: document types with `indices`, one after the other. */
  method ValidateContract(documents: seq<(string, Document)>) returns (threw: bool, errors: seq<Error>)
    ensures !threw && errors == [] <==> AllObey(documents, true)
    ensures !SomeAsks(documents) ==> (!threw && errors == [] <==> AllObey(documents, false))
    ensures SomeAsks(documents) ==> !AllObey(documents, false)
    ensures !threw ==> errors == AllErrors(documents)
  {
    ExemptionMattersToAll(documents);
    threw, errors := false, [];
    for i := 0 to |documents|
      invariant !threw
      invariant errors == [] <==> AllObey(documents[..i], true)
      invariant errors == AllErrors(documents[..i])
    {
      NextDocument(documents, i);
      var fails, more := ValidateDocument(documents[i].0, documents[i].1);
      if fails {
        return true, [];
      }
      errors := errors + more;
    }
    assert documents[..|documents|] == documents;
  }

  method ValidateDocument(documentType: string, document: Document) returns (threw: bool, errors: seq<Error>)
    ensures !threw && errors == [] <==> Obeys(document, true)
    ensures !threw ==> errors == ErrorsOf(documentType, document)
  {
    threw, errors := false, [];
    if document.indices.Some? {
      var faults;
      threw, faults := ValidateIndices(document, document.indices.value);
      SilentUpToInherited(document, document.indices.value);
      errors := Tagged(documentType, faults);
    }
  }
}
