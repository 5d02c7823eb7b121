/** Which fault the index rules report, and when. */
module IndexFaults {
  import opened Options
  import opened Strings
  import opened Schema
  import opened IndexValidation

  /** The name is user-defined and leads to the definition `d`. */
  ghost predicate LeadsTo(document: Document, name: string, d: Definition) {
    && name != "$id" && name != "$ownerId" && name != "$createdAt" && name != "$updatedAt"
    && GetPropertyDefinitionByPath(document.inherited, document.schema, name) == Found(d)
  }

  /** The name is user-defined and leads nowhere. */
  ghost predicate LeadsNowhere(document: Document, name: string) {
    && name != "$id" && name != "$ownerId" && name != "$createdAt" && name != "$updatedAt"
    && GetPropertyDefinitionByPath(document.inherited, document.schema, name) == Undefined
  }

  /** No name of the index leads nowhere, so all its checks are made. */
  ghost predicate IsChecked(document: Document, index: IndexDefinition) {
    forall k :: 0 <= k < |index.properties| ==> !LeadsNowhere(document, index.properties[k].name)
  }

  ghost predicate IsSimple(kind: Kind) {
    kind != ObjectKind && kind != ArrayKind
  }

  /** An array that is no byte array, with items or prefix items of a kind that may
      not be indexed. */
  ghost predicate IsBadArray(d: Definition) {
    && d.kind == ArrayKind && d.byteArray != Some(true)
    && ((d.prefixKinds.Some? && !OfOneSimpleKind(d.prefixKinds.value))
        || (d.items.OneItem? && !IsSimple(d.items.item.kind)))
  }

  /** What is wrong with a definition as such. */
  ghost predicate IsWrong(d: Definition, fault: Fault) {
    match fault
    case InvalidIndexPropertyType(_, _, kind) =>
      (kind == ObjectKind && d.kind == ObjectKind) || (kind == ArrayKind && IsBadArray(d))
    case InvalidIndexedPropertyConstraint(_, _, MaxLengthShouldBeSet) => d.kind == StringKind && d.maxLength == None
    case InvalidIndexedPropertyConstraint(_, _, MaxLengthTooLarge) =>
      d.kind == StringKind && d.maxLength.Some? && d.maxLength.value > 1024
    case _ => false
  }

  ghost predicate WrongDefinition(document: Document, index: IndexDefinition, name: string, fault: Fault) {
    name in Names(index) && exists d :: LeadsTo(document, name, d) && IsWrong(d, fault)
  }

  /** Some names of the index are required and some are not. */
  ghost predicate IsMixed(document: Document, index: IndexDefinition) {
    && (exists name :: name in Names(index) && name in document.required)
    && (exists name :: name in Names(index) && name !in document.required)
  }

  /** The fault lies in this index: in one of its names, or in the index as a whole. */
  ghost predicate Deserved(document: Document, index: IndexDefinition, fault: Fault) {
    match fault
    case UndefinedIndexProperty(at, name) => at == index && name in Names(index) && LeadsNowhere(document, name)
    case SystemPropertyIndexAlreadyPresent(at) => at == index && Names(index) == ["$id"]
    case InvalidIndexPropertyType(at, name, _) =>
      at == index && IsChecked(document, index) && WrongDefinition(document, index, name, fault)
    case InvalidIndexedPropertyConstraint(at, name, _) =>
      at == index && IsChecked(document, index) && WrongDefinition(document, index, name, fault)
    case InvalidCompoundIndex(at) => at == index && IsChecked(document, index) && IsMixed(document, index)
    case _ => false
  }

  // ------------------------------------------------------------------ one index

  lemma AskIs(document: Document, name: string)
    ensures IsUndefined(PropertyNamed(document, name)) <==> LeadsNowhere(document, name)
    ensures forall d :: PropertyNamed(document, name) == UserDefined(Found(d)) <==> LeadsTo(document, name, d)
  {
    assert name in ALLOWED_SYSTEM_PROPERTIES <==>
      name == "$id" || name == "$ownerId" || name == "$createdAt" || name == "$updatedAt";
  }

  lemma CheckedIff(document: Document, index: IndexDefinition)
    ensures IsChecked(document, index) <==> !SkipsRest(PropertiesOf(document), Names(index))
  {
    forall k | 0 <= k < |index.properties|
      ensures IsUndefined(PropertiesOf(document)(Names(index)[k])) <==>
        LeadsNowhere(document, index.properties[k].name)
    {
      AskIs(document, Names(index)[k]);
    }
  }

  lemma {:induction false} UndefinedAmong(ask: string -> Property, index: IndexDefinition, names: seq<string>,
                                          fault: Fault)
    ensures fault in UndefinedFaults(ask, index, names) <==>
      fault.UndefinedIndexProperty? && fault.index == index && fault.name in names && IsUndefined(ask(fault.name))
  {
    if names != [] {
      UndefinedAmong(ask, index, names[..|names| - 1], fault);
      assert names == names[..|names| - 1] + [names[|names| - 1]];
    }
  }

  /** Of a list that grows by one part after the other. */
  lemma {:induction false} InSomePart<T>(list: nat -> seq<T>, part: nat -> seq<T>, n: nat, x: T)
    requires list(0) == [] && forall i: nat :: i < n ==> list(i + 1) == list(i) + part(i)
    ensures x in list(n) <==> exists i: nat :: i < n && x in part(i)
  {
    if n > 0 {
      InSomePart(list, part, n - 1, x);
      assert list(n - 1 + 1) == list(n - 1) + part(n - 1);
    }
  }

  lemma DefinedAmong(ask: string -> Property, index: IndexDefinition, names: seq<string>, fault: Fault)
    ensures fault in DefinedFaults(ask, index, names) <==>
      exists k: nat :: k < |names| && fault in PropertyFaults(index, names[k], ask(names[k]))
  {
    ghost var list := (k: nat) => if k <= |names| then DefinedFaults(ask, index, names[..k]) else [];
    ghost var part := (k: nat) => if k < |names| then PropertyFaults(index, names[k], ask(names[k])) else [];
    forall k: nat | k < |names| ensures list(k + 1) == list(k) + part(k) {
      DefinedStep(ask, index, names, k);
    }
    InSomePart(list, part, |names|, fault);
    assert names[..|names|] == names && names[..0] == [];
    forall k: nat | k < |names| ensures fault in part(k) <==> fault in PropertyFaults(index, names[k], ask(names[k])) {
    }
  }

  predicate IsAbout(fault: Fault, index: IndexDefinition, name: string) {
    match fault
    case InvalidIndexPropertyType(at, n, _) => at == index && n == name
    case InvalidIndexedPropertyConstraint(at, n, _) => at == index && n == name
    case _ => false
  }

  lemma FaultOfDefinitionIff(index: IndexDefinition, name: string, d: Definition, fault: Fault)
    ensures fault in TypeFaults(index, name, d) + LengthFaults(index, name, d) <==>
      IsAbout(fault, index, name) && IsWrong(d, fault)
  {
    PrefixAllowedIff(d);
  }

  lemma PropertyFaultIff(document: Document, index: IndexDefinition, name: string, fault: Fault)
    ensures fault in PropertyFaults(index, name, PropertyNamed(document, name)) <==>
      IsAbout(fault, index, name) && exists d :: LeadsTo(document, name, d) && IsWrong(d, fault)
  {
    AskIs(document, name);
    var p := PropertyNamed(document, name);
    if p.UserDefined? && p.answer.Found? {
      FaultOfDefinitionIff(index, name, p.answer.definition, fault);
    }
  }

  lemma MixedIff(document: Document, index: IndexDefinition)
    ensures IsMixed(document, index) <==> !AllOrNoneRequired(document.required, Names(index))
    ensures IsMixed(document, index) ==> |Names(index)| > 1
  {
  }

  lemma UndefinedFaultIff(document: Document, index: IndexDefinition, fault: Fault)
    ensures fault in UndefinedFaults(PropertiesOf(document), index, Names(index)) <==>
      fault.UndefinedIndexProperty? && Deserved(document, index, fault)
  {
    UndefinedAmong(PropertiesOf(document), index, Names(index), fault);
    if fault.UndefinedIndexProperty? { AskIs(document, fault.name); }
  }

  lemma DefinedFaultIff(document: Document, index: IndexDefinition, fault: Fault)
    ensures fault in DefinedFaults(PropertiesOf(document), index, Names(index)) <==>
      exists name :: name in Names(index) && IsAbout(fault, index, name)
        && exists d :: LeadsTo(document, name, d) && IsWrong(d, fault)
  {
    var ask, names := PropertiesOf(document), Names(index);
    DefinedAmong(ask, index, names, fault);
    forall k | 0 <= k < |names|
      ensures fault in PropertyFaults(index, names[k], ask(names[k])) <==>
        IsAbout(fault, index, names[k]) && exists d :: LeadsTo(document, names[k], d) && IsWrong(d, fault)
    {
      PropertyFaultIff(document, index, names[k], fault);
    }
  }

  lemma DefinitionFaultIff(document: Document, index: IndexDefinition, fault: Fault)
    ensures fault in DefinitionFaults(document, index) <==>
      Deserved(document, index, fault) && !fault.SystemPropertyIndexAlreadyPresent?
  {
    CheckedIff(document, index);
    UndefinedFaultIff(document, index, fault);
    DefinedFaultIff(document, index, fault);
    MixedIff(document, index);
    if fault.UndefinedIndexProperty? && Deserved(document, index, fault) {
      UndefinedIsSkipped(document, index, fault.name);
    }
  }

  lemma UndefinedIsSkipped(document: Document, index: IndexDefinition, name: string)
    requires name in Names(index) && LeadsNowhere(document, name)
    ensures !IsChecked(document, index)
  {
    var k :| 0 <= k < |Names(index)| && Names(index)[k] == name;
    assert index.properties[k].name == name;
  }

  // ------------------------------------------------------------- the whole list

  /** A fault is reported exactly when it lies in one of the indices, when an index
      repeats the properties of an earlier one and all of them are defined, or when
      more than three are unique. */
  lemma {:induction false} FaultIff(document: Document, indices: seq<IndexDefinition>, fault: Fault)
    ensures fault in Faults(document, indices) <==>
      match fault
      case UniqueIndicesLimitReached => |UniquePositions(indices)| > 3
      case DuplicateIndex(index) => IsChecked(document, index) && Repeats(indices, index)
      case _ => exists i :: 0 <= i < |indices| && Deserved(document, indices[i], fault)
  {
    match fault
    case UniqueIndicesLimitReached => LimitIsReportedOnce(document, indices);
    case DuplicateIndex(index) => DuplicateIff(document, indices, index);
    case _ => OwnFaultIff(document, indices, fault);
  }

  /** `index` has the properties of an index before it. */
  ghost predicate Repeats(indices: seq<IndexDefinition>, index: IndexDefinition) {
    exists i, j :: 0 <= i < j < |indices| && indices[j] == index && indices[i].properties == index.properties
  }

  /** What is reported for each index in turn. */
  ghost function PartsOf(document: Document, indices: seq<IndexDefinition>): nat -> seq<Fault> {
    (i: nat) => if i < |indices| then FaultsOf(document, indices[..i], indices[i]) else []
  }

  lemma FaultsStep(document: Document, indices: seq<IndexDefinition>, i: nat)
    requires i < |indices|
    ensures Faults(document, indices[..i + 1]) == Faults(document, indices[..i]) + PartsOf(document, indices)(i)
  {
    assert indices[..i + 1][..i] == indices[..i];
  }

  lemma ReportedSomewhere(document: Document, indices: seq<IndexDefinition>, fault: Fault)
    ensures fault in Faults(document, indices) <==>
      exists i: nat :: i < |indices| && fault in PartsOf(document, indices)(i)
  {
    ghost var list := (i: nat) => if i <= |indices| then Faults(document, indices[..i]) else [];
    forall i: nat | i < |indices| ensures list(i + 1) == list(i) + PartsOf(document, indices)(i) {
      FaultsStep(document, indices, i);
    }
    InSomePart(list, PartsOf(document, indices), |indices|, fault);
    assert indices[..|indices|] == indices && indices[..0] == [];
  }

  lemma OwnFaultAt(document: Document, indices: seq<IndexDefinition>, i: nat, fault: Fault)
    requires i < |indices| && !fault.UniqueIndicesLimitReached? && !fault.DuplicateIndex?
    ensures fault in PartsOf(document, indices)(i) <==> Deserved(document, indices[i], fault)
  {
    DefinitionFaultIff(document, indices[i], fault);
  }

  lemma OwnFaultIff(document: Document, indices: seq<IndexDefinition>, fault: Fault)
    requires !fault.UniqueIndicesLimitReached? && !fault.DuplicateIndex?
    ensures fault in Faults(document, indices) <==>
      exists i :: 0 <= i < |indices| && Deserved(document, indices[i], fault)
  {
    ReportedSomewhere(document, indices, fault);
    forall i: nat | i < |indices|
      ensures fault in PartsOf(document, indices)(i) <==> Deserved(document, indices[i], fault)
    {
      OwnFaultAt(document, indices, i, fault);
    }
  }

  lemma DuplicateAt(document: Document, indices: seq<IndexDefinition>, j: nat, index: IndexDefinition)
    requires j < |indices|
    ensures DuplicateIndex(index) in PartsOf(document, indices)(j) <==>
      indices[j] == index && IsChecked(document, index) && Listed(indices[..j], index.properties)
  {
    DefinitionFaultIff(document, indices[j], DuplicateIndex(index));
    CheckedIff(document, indices[j]);
  }

  lemma DuplicateIff(document: Document, indices: seq<IndexDefinition>, index: IndexDefinition)
    ensures DuplicateIndex(index) in Faults(document, indices) <==>
      IsChecked(document, index) && Repeats(indices, index)
  {
    ReportedSomewhere(document, indices, DuplicateIndex(index));
    forall j: nat | j < |indices|
      ensures DuplicateIndex(index) in PartsOf(document, indices)(j) <==>
        indices[j] == index && IsChecked(document, index) && Listed(indices[..j], index.properties)
    {
      DuplicateAt(document, indices, j, index);
    }
    RepeatsIff(indices, index);
  }

  lemma RepeatsIff(indices: seq<IndexDefinition>, index: IndexDefinition)
    ensures Repeats(indices, index) <==>
      exists j :: 0 <= j < |indices| && indices[j] == index && Listed(indices[..j], index.properties)
  {
    if i, j :| 0 <= i < j < |indices| && indices[j] == index && indices[i].properties == index.properties {
      assert indices[..j][i].properties == index.properties;
    }
  }

  // ------------------------------------------------------------ the contract

  ghost predicate ReportedFor(documents: seq<(string, Document)>, error: Error, k: nat) {
    && k < |documents| && documents[k].0 == error.documentType && documents[k].1.indices.Some?
    && error.fault in Faults(documents[k].1, documents[k].1.indices.value)
  }

  lemma ErrorOfIff(documentType: string, document: Document, error: Error)
    ensures error in ErrorsOf(documentType, document) <==>
      && error.documentType == documentType && document.indices.Some?
      && error.fault in Faults(document, document.indices.value)
  {
    if document.indices.Some? {
      var faults := Faults(document, document.indices.value);
      var errors := Tagged(documentType, faults);
      if error.documentType == documentType && error.fault in faults {
        var k :| 0 <= k < |faults| && faults[k] == error.fault;
        assert errors[k] == error;
      }
    }
  }

  /** What each document type adds. */
  ghost function ErrorParts(documents: seq<(string, Document)>): nat -> seq<Error> {
    (k: nat) => if k < |documents| then ErrorsOf(documents[k].0, documents[k].1) else []
  }

  lemma ErrorsStep(documents: seq<(string, Document)>, k: nat)
    requires k < |documents|
    ensures AllErrors(documents[..k + 1]) == AllErrors(documents[..k]) + ErrorParts(documents)(k)
  {
    assert documents[..k + 1][..k] == documents[..k];
  }

  /** The errors of a contract are the faults of its document types, each under the
      name of its type. */
  lemma ContractErrorIff(documents: seq<(string, Document)>, error: Error)
    ensures error in AllErrors(documents) <==> exists k: nat :: ReportedFor(documents, error, k)
  {
    ghost var list := (k: nat) => if k <= |documents| then AllErrors(documents[..k]) else [];
    forall k: nat | k < |documents| ensures list(k + 1) == list(k) + ErrorParts(documents)(k) {
      ErrorsStep(documents, k);
    }
    InSomePart(list, ErrorParts(documents), |documents|, error);
    assert documents[..|documents|] == documents && documents[..0] == [];
    forall k: nat | k < |documents| ensures error in ErrorParts(documents)(k) <==> ReportedFor(documents, error, k) {
      ErrorOfIff(documents[k].0, documents[k].1, error);
    }
  }
}
