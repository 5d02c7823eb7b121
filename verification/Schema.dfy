/** Two readings of a document schema: the flat map of its binary properties
    and the lookup of one definition by its path. */
module Schema {
  import opened Options
  import opened Strings

  /** The keyword `type`; any other or absent type goes by its name. */
  datatype Kind = ObjectKind | ArrayKind | StringKind | OtherKind(name: string)

  /** The keywords that the two readings and the index rules look at. A boolean
      in the place of `items` is a definition without keywords. */
  datatype Definition = Definition(
    kind: Kind,
    properties: Option<Properties>,
    items: Items,
    byteArray: Option<bool>,
    maxLength: Option<int>,
    prefixKinds: Option<seq<Kind>>
  )

  /** An object of named definitions, in the order of its keys. */
  datatype Properties = Empty | Property(name: string, definition: Definition, more: Properties)

  datatype Items = NoItems | OneItem(item: Definition) | ItemList(list: Definitions)

  datatype Definitions = Nil | Cons(head: Definition, tail: Definitions)

  // ------------------------------------------------------------- the flat map

  function PathOf(prefix: string, name: string): string {
    if prefix == "" then name else prefix + "." + name
  }

  function Decimal(n: nat): string {
    if n < 10 then [Digit(n)] else Decimal(n / 10) + [Digit(n % 10)]
  }

  function Digit(d: nat): char
    requires d < 10
  {
    "0123456789"[d]
  }

  function BuildProperties(properties: Properties, prefix: string): map<string, Definition>
    decreases properties
  {
    match properties
    case Empty => map[]
    case Property(name, d, more) => BuildOne(d, PathOf(prefix, name)) + BuildProperties(more, prefix)
  }

  function BuildOne(d: Definition, path: string): map<string, Definition>
    decreases d, 1
  {
    var nested := BuildNested(d, path);
    if d.byteArray.Some? then nested[path := d] else nested
  }

  function BuildNested(d: Definition, path: string): map<string, Definition>
    decreases d, 0
  {
    if d.kind == ObjectKind && d.properties.Some? then BuildProperties(d.properties.value, path)
    else if d.kind == ArrayKind then
      match d.items
      case NoItems => map[]
      case OneItem(item) =>
        if item.kind == ObjectKind && item.properties.Some? then BuildProperties(item.properties.value, path) else map[]
      case ItemList(list) => BuildItems(list, path, 0)
    else map[]
  }

  function BuildItems(list: Definitions, path: string, index: nat): map<string, Definition>
    decreases list
  {
    match list
    case Nil => map[]
    case Cons(item, tail) => BuildOne(item, path + "[" + Decimal(index) + "]") + BuildItems(tail, path, index + 1)
  }

  function GetBinaryProperties(document: Definition): map<string, Definition> {
    if document.properties.None? then map[] else BuildProperties(document.properties.value, "")
  }

  // --------------------------------------------------------------- the lookup

  /** `Threw` stands for the TypeError raised on an array without `items`. */
  datatype Answer = Undefined | Found(definition: Definition) | Threw

  function FindProperty(properties: Properties, name: string): Option<Definition> {
    match properties
    case Empty => None
    case Property(n, d, more) => if n == name then Some(d) else FindProperty(more, name)
  }

  function OwnProperties(d: Definition): Properties {
    if d.properties.None? then Empty else d.properties.value
  }

  /** What JavaScript objects hold under the names they inherit, `constructor`
      for one: none of the keywords. */
  const INHERITED_VALUE := Definition(OtherKind(""), None, NoItems, None, None, None)

  /** `properties[name]`, own or inherited. */
  function ReadProperty(inherited: set<string>, properties: Properties, name: string): Option<Definition> {
    match FindProperty(properties, name)
    case Some(d) => Some(d)
    case None => if name in inherited then Some(INHERITED_VALUE) else None
  }

  function Lookup(inherited: set<string>, properties: Properties, path: string): Answer
    decreases |path|, 1
  {
    var segments := Split(path, '.');
    match ReadProperty(inherited, properties, segments[0])
    case None => Undefined
    case Some(d) =>
      if |segments| == 1 then Found(d)
      else
        assert path != "" && |Join(segments[1..], '.')| < |path| by {
          TailShorter(path, '.');
        }
        Descend(inherited, d, Join(segments[1..], '.'))
  }

  function Descend(inherited: set<string>, d: Definition, rest: string): Answer
    decreases |rest| + 1, 0
  {
    if d.kind == ArrayKind && d.items.NoItems? then Threw
    else if d.kind == ArrayKind && d.items.OneItem? && d.items.item.kind == ObjectKind then
      Lookup(inherited, OwnProperties(d.items.item), rest)
    else if d.kind == ObjectKind then Lookup(inherited, OwnProperties(d), rest)
    else Undefined
  }

  /** `inherited` are the names every object answers to without owning them. */
  function GetPropertyDefinitionByPath(inherited: set<string>, document: Definition, path: string): Answer {
    Lookup(inherited, OwnProperties(document), path)
  }

  // ------------------------------------------------------- inherited names

  /** The path leads through definitions of the schema to an object that lacks
      its last name but inherits it. */
  predicate EndsInherited(inherited: set<string>, properties: Properties, path: string)
    decreases |path|, 1
  {
    var segments := Split(path, '.');
    match FindProperty(properties, segments[0])
    case None => |segments| == 1 && segments[0] in inherited
    case Some(d) =>
      |segments| > 1 &&
      (assert path != "" && |Join(segments[1..], '.')| < |path| by {
         TailShorter(path, '.');
       }
       EndsInheritedBelow(inherited, d, Join(segments[1..], '.')))
  }

  predicate EndsInheritedBelow(inherited: set<string>, d: Definition, rest: string)
    decreases |rest| + 1, 0
  {
    if d.kind == ArrayKind then
      d.items.OneItem? && d.items.item.kind == ObjectKind && EndsInherited(inherited, OwnProperties(d.items.item), rest)
    else d.kind == ObjectKind && EndsInherited(inherited, OwnProperties(d), rest)
  }

  /** Inherited names change the lookup for exactly the paths that end at one:
      nothing is there, and the lookup finds a definition without keywords. */
  lemma {:induction false} InheritedAnswers(inherited: set<string>, properties: Properties, path: string)
    ensures EndsInherited(inherited, properties, path) ==>
      && Lookup(inherited, properties, path) == Found(INHERITED_VALUE)
      && Lookup({}, properties, path) == Undefined
    ensures !EndsInherited(inherited, properties, path) ==>
      Lookup(inherited, properties, path) == Lookup({}, properties, path)
    decreases |path|, 1
  {
    var segments := Split(path, '.');
    var d := FindProperty(properties, segments[0]);
    if d.Some? && |segments| > 1 {
      TailShorter(path, '.');
      InheritedAnswersBelow(inherited, d.value, Join(segments[1..], '.'));
    }
  }

  lemma {:induction false} InheritedAnswersBelow(inherited: set<string>, d: Definition, rest: string)
    ensures EndsInheritedBelow(inherited, d, rest) ==>
      Descend(inherited, d, rest) == Found(INHERITED_VALUE) && Descend({}, d, rest) == Undefined
    ensures !EndsInheritedBelow(inherited, d, rest) ==> Descend(inherited, d, rest) == Descend({}, d, rest)
    decreases |rest| + 1, 0
  {
    if d.kind == ObjectKind {
      InheritedAnswers(inherited, OwnProperties(d), rest);
    } else if d.kind == ArrayKind && d.items.OneItem? && d.items.item.kind == ObjectKind {
      InheritedAnswers(inherited, OwnProperties(d.items.item), rest);
    }
  }

  // ------------------------------------------------------ the keys of the map

  /** `key` is `path` itself or goes on from it with a name or an index. */
  ghost predicate GoesOnFrom(key: string, path: string) {
    path <= key && (key == path || key[|path|] == '.' || key[|path|] == '[')
  }

  ghost predicate Below(key: string, path: string) {
    GoesOnFrom(key, path) && key != path
  }

  lemma {:induction false} KeysOfOne(d: Definition, path: string, key: string)
    requires path != "" && key in BuildOne(d, path)
    ensures GoesOnFrom(key, path)
    decreases d, 1
  {
    if key != path {
      KeysOfNested(d, path, key);
    }
  }

  lemma {:induction false} KeysOfNested(d: Definition, path: string, key: string)
    requires path != "" && key in BuildNested(d, path)
    ensures Below(key, path)
    ensures d.items.ItemList? && d.kind == ArrayKind ==> key[|path|] == '['
    ensures !(d.items.ItemList? && d.kind == ArrayKind) ==> key[|path|] == '.'
    decreases d, 0
  {
    if d.kind == ObjectKind && d.properties.Some? {
      KeysOfProperties(d.properties.value, path, key);
    } else {
      match d.items
      case OneItem(item) => KeysOfProperties(item.properties.value, path, key);
      case ItemList(list) => KeysOfItems(list, path, 0, key);
    }
  }

  lemma {:induction false} KeysOfProperties(properties: Properties, prefix: string, key: string)
    requires prefix != "" && key in BuildProperties(properties, prefix)
    ensures Below(key, prefix) && key[|prefix|] == '.'
    decreases properties
  {
    var Property(name, d, more) := properties;
    if key in BuildProperties(more, prefix) {
      KeysOfProperties(more, prefix, key);
    } else {
      KeysOfOne(d, PathOf(prefix, name), key);
    }
  }

  lemma {:induction false} KeysOfItems(list: Definitions, path: string, index: nat, key: string)
    requires path != "" && key in BuildItems(list, path, index)
    ensures Below(key, path) && key[|path|] == '['
    decreases list
  {
    var Cons(item, tail) := list;
    if key in BuildItems(tail, path, index + 1) {
      KeysOfItems(tail, path, index + 1, key);
    } else {
      KeysOfOne(item, path + "[" + Decimal(index) + "]", key);
    }
  }

  // ------------------------------------------------------------- clean schemas

  ghost predicate CleanName(name: string) {
    name != "" && '.' !in name && '[' !in name
  }

  ghost predicate HasName(properties: Properties, name: string) {
    FindProperty(properties, name).Some?
  }

  /** Every name reached through objects is clean and no object has a name twice. */
  ghost predicate CleanProperties(properties: Properties)
    decreases properties
  {
    match properties
    case Empty => true
    case Property(name, d, more) => CleanName(name) && !HasName(more, name) && Clean(d) && CleanProperties(more)
  }

  ghost predicate Clean(d: Definition)
    decreases d
  {
    && (d.properties.Some? ==> CleanProperties(d.properties.value))
    && (d.items.OneItem? ==> Clean(d.items.item))
  }

  /** A name followed by nothing or by a dot is the first segment. */
  lemma FirstSegment(name: string, rest: string)
    requires CleanName(name) && '[' !in rest && GoesOnFrom(rest, name)
    ensures Split(rest, '.')[0] == name
    ensures rest == name ==> Split(rest, '.') == [name]
    ensures rest != name ==> |Split(rest, '.')| > 1 && rest == name + "." + Join(Split(rest, '.')[1..], '.')
  {
    if rest == name {
      SplitOne(name, '.');
    } else {
      var tail := rest[|name| + 1..];
      assert rest[|name|] in rest;
      assert rest == name + ['.'] + tail;
      SplitAround(name, tail, '.');
      SplitOne(name, '.');
      SplitParts(tail, '.');
      assert Split(rest, '.')[1..] == Split(tail, '.');
    }
  }

  /** The other way round: the first segment starts the path. */
  lemma StartsWithFirst(rest: string)
    ensures GoesOnFrom(rest, Split(rest, '.')[0])
  {
    SplitParts(rest, '.');
    var segments := Split(rest, '.');
    if |segments| > 1 {
      assert rest == segments[0] + ['.'] + Join(segments[1..], '.');
    }
  }

  lemma PathGoesOn(prefix: string, name: string, rest: string)
    requires name != "" && GoesOnFrom(PathOf(prefix, rest), PathOf(prefix, name))
    ensures GoesOnFrom(rest, name)
  {
    var n := |PathOf(prefix, name)| - |name|;
    var key, path := PathOf(prefix, rest), PathOf(prefix, name);
    assert key[n..] == rest && path[n..] == name;
    assert key[n..][..|name|] == key[n..n + |name|] == path[n..];
  }

  /** A key under `prefix` begins with a name of the object. */
  lemma {:induction false} KeyStartsWithName(properties: Properties, prefix: string, rest: string)
    requires CleanProperties(properties) && '[' !in rest
    requires PathOf(prefix, rest) in BuildProperties(properties, prefix)
    ensures HasName(properties, Split(rest, '.')[0])
  {
    var Property(name, d, more) := properties;
    if PathOf(prefix, rest) in BuildProperties(more, prefix) {
      KeyStartsWithName(more, prefix, rest);
    } else {
      KeysOfOne(d, PathOf(prefix, name), PathOf(prefix, rest));
      PathGoesOn(prefix, name, rest);
      FirstSegment(name, rest);
    }
  }

  // ------------------------------------------------------------- the agreement

  ghost predicate IsBinary(a: Answer) {
    a.Found? && a.definition.byteArray.Some?
  }

  /** At `key` the map has the definition of the answer, if that is binary, and
      nothing otherwise. */
  ghost predicate Agrees(m: map<string, Definition>, key: string, a: Answer) {
    && (key in m <==> IsBinary(a))
    && (key in m ==> m[key] == a.definition)
  }

  lemma {:induction false} PropertiesAgree(inherited: set<string>, properties: Properties, prefix: string, rest: string)
    requires CleanProperties(properties) && '[' !in rest
    ensures Agrees(BuildProperties(properties, prefix), PathOf(prefix, rest), Lookup(inherited, properties, rest))
    decreases properties
  {
    match properties
    case Empty =>
    case Property(name, d, more) =>
      var first := Split(rest, '.')[0];
      var key, path := PathOf(prefix, rest), PathOf(prefix, name);
      PropertiesAgree(inherited, more, prefix, rest);
      if first == name {
        if key in BuildProperties(more, prefix) {
          KeyStartsWithName(more, prefix, rest);
        }
        StartsWithFirst(rest);
        FirstSegment(name, rest);
        if rest == name {
          OneAgrees(d, path);
        } else {
          var below := Join(Split(rest, '.')[1..], '.');
          assert key == path + "." + below;
          NestedAgrees(inherited, d, path, below);
        }
      } else if key in BuildOne(d, path) {
        KeysOfOne(d, path, key);
        PathGoesOn(prefix, name, rest);
        FirstSegment(name, rest);
      }
  }

  lemma OneAgrees(d: Definition, path: string)
    requires path != ""
    ensures Agrees(BuildOne(d, path), path, Found(d))
  {
    if path in BuildNested(d, path) {
      KeysOfNested(d, path, path);
    }
  }

  lemma NothingInEmpty(inherited: set<string>, path: string)
    ensures !IsBinary(Lookup(inherited, Empty, path))
  {
    assert ReadProperty(inherited, Empty, Split(path, '.')[0]) in {None, Some(INHERITED_VALUE)};
  }

  lemma {:induction false} NestedAgrees(inherited: set<string>, d: Definition, path: string, rest: string)
    requires Clean(d) && path != "" && '[' !in rest
    ensures Agrees(BuildOne(d, path), path + "." + rest, Descend(inherited, d, rest))
    decreases d
  {
    var key := path + "." + rest;
    assert key == PathOf(path, rest) && key != path;
    NothingInEmpty(inherited, rest);
    if d.kind == ObjectKind {
      if d.properties.Some? {
        PropertiesAgree(inherited, d.properties.value, path, rest);
      }
    } else if d.kind == ArrayKind {
      match d.items
      case NoItems =>
      case OneItem(item) =>
        if item.kind == ObjectKind && item.properties.Some? {
          PropertiesAgree(inherited, item.properties.value, path, rest);
        }
      case ItemList(list) =>
        if key in BuildItems(list, path, 0) {
          KeysOfItems(list, path, 0, key);
        }
    }
  }

  /** No definition of the schema is found under a path with a bracket, as no
      clean name has one. */
  lemma {:induction false} BracketsAreNotFound(inherited: set<string>, properties: Properties, path: string)
    requires CleanProperties(properties) && '[' in path
    ensures Lookup(inherited, properties, path).Found? ==>
      Lookup(inherited, properties, path).definition == INHERITED_VALUE
    decreases |path|
  {
    var segments := Split(path, '.');
    var d := FindProperty(properties, segments[0]);
    if d.Some? {
      FoundIsClean(properties, segments[0]);
      SplitParts(path, '.');
      if |segments| > 1 {
        var rest := Join(segments[1..], '.');
        TailShorter(path, '.');
        assert path == segments[0] + ['.'] + rest;
        if d.value.kind == ObjectKind {
          BracketsAreNotFound(inherited, OwnProperties(d.value), rest);
        } else if d.value.items.OneItem? {
          BracketsAreNotFound(inherited, OwnProperties(d.value.items.item), rest);
        }
      }
    }
  }

  lemma {:induction false} FoundIsClean(properties: Properties, name: string)
    requires CleanProperties(properties) && HasName(properties, name)
    ensures CleanName(name) && Clean(FindProperty(properties, name).value)
  {
    if properties.name != name {
      FoundIsClean(properties.more, name);
    }
  }

  /** For a schema with clean names, any path and any inherited names: the lookup
      finds a binary definition exactly where the map has an entry free of
      brackets, and it is that entry. */
  lemma MapAgreesWithLookup(inherited: set<string>, document: Definition, path: string)
    requires Clean(document)
    ensures var m, a := GetBinaryProperties(document), GetPropertyDefinitionByPath(inherited, document, path);
      && (path in m && '[' !in path <==> IsBinary(a))
      && (IsBinary(a) ==> m[path] == a.definition)
  {
    if '[' in path {
      BracketsAreNotFound(inherited, OwnProperties(document), path);
    } else {
      PropertiesAgree(inherited, OwnProperties(document), "", path);
    }
  }
}
