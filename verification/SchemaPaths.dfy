/** What the paths of a schema lead to: the lookup against walks from name to name,
    and the keys of the flat map for the items of a list. */
module SchemaPaths {
  import opened Options
  import opened Strings
  import opened Schema

  // ------------------------------------------------------------------- walking

  /** The properties a definition is entered by: its own, or those of the objects
      it is an array of. */
  function Entered(d: Definition): Properties {
    if d.kind == ObjectKind then OwnProperties(d)
    else if d.kind == ArrayKind && d.items.OneItem? && d.items.item.kind == ObjectKind then OwnProperties(d.items.item)
    else Empty
  }

  /** Where the names lead, one property after another. An array without `items`
      cannot be entered. */
  function Walk(properties: Properties, names: seq<string>): Answer
    requires names != []
    decreases |names|
  {
    match FindProperty(properties, names[0])
    case None => Undefined
    case Some(d) =>
      if |names| == 1 then Found(d)
      else if d.kind == ArrayKind && d.items == NoItems then Threw
      else Walk(Entered(d), names[1..])
  }

  lemma JoinedPath(names: seq<string>)
    requires names != [] && AllFree(names, '.')
    ensures Split(Join(names, '.'), '.') == names
    ensures |names| > 1 ==> Join(Split(Join(names, '.'), '.')[1..], '.') == Join(names[1..], '.')
  {
    SplitJoin(names, '.');
  }

  lemma {:induction false} WalkNowhere(names: seq<string>)
    requires names != []
    ensures Walk(Empty, names) == Undefined
  {
  }

  /** The lookup of a path is the walk along its names. */
  lemma {:induction false} LookupWalks(properties: Properties, names: seq<string>)
    requires names != [] && AllFree(names, '.')
    ensures Lookup({}, properties, Join(names, '.')) == Walk(properties, names)
    decreases |names|
  {
    JoinedPath(names);
    var d := FindProperty(properties, names[0]);
    if d.Some? && |names| > 1 {
      assert forall i :: 0 <= i < |names[1..]| ==> names[1..][i] == names[i + 1];
      LookupWalks(Entered(d.value), names[1..]);
      WalkNowhere(names[1..]);
      SplitParts(Join(names, '.'), '.');
      TailShorter(Join(names, '.'), '.');
    }
  }

  // -------------------------------------------------------------------- indices

  /** The number that decimal digits stand for. */
  function Value(digits: string): int {
    if digits == "" then 0 else 10 * Value(digits[..|digits| - 1]) + (digits[|digits| - 1] as int - '0' as int)
  }

  lemma DigitValue(d: nat)
    requires d < 10
    ensures Digit(d) as int - '0' as int == d && Digit(d) != ']'
  {
  }

  lemma {:induction false} DecimalValue(n: nat)
    ensures Value(Decimal(n)) == n && ']' !in Decimal(n)
    ensures n > 0 ==> Decimal(n)[0] != '0'
  {
    DigitValue(n % 10);
    if n < 10 {
      assert Decimal(n) == [Digit(n)] && Decimal(n)[..0] == "";
    } else {
      DecimalValue(n / 10);
      assert Decimal(n)[..|Decimal(n)| - 1] == Decimal(n / 10);
    }
  }

  lemma DecimalInjective(m: nat, n: nat)
    requires Decimal(m) == Decimal(n)
    ensures m == n
  {
    DecimalValue(m);
    DecimalValue(n);
  }

  // -------------------------------------------------------------- items of a list

  function ItemAt(list: Definitions, i: nat): Option<Definition> {
    match list
    case Nil => None
    case Cons(head, tail) => if i == 0 then Some(head) else ItemAt(tail, i - 1)
  }

  function ItemPath(path: string, i: nat): string {
    path + "[" + Decimal(i) + "]"
  }

  /** Two texts without a closing bracket, each followed by one in the same place. */
  lemma SameUpToBracket(a: string, b: string, tail: string)
    requires ']' !in a && ']' !in b && a + "]" <= tail && b + "]" <= tail
    ensures a == b
  {
    assert (a + "]")[|a|] == ']' && (b + "]")[|b|] == ']';
    if |a| == |b| {
      assert a == (a + "]")[..|a|] == tail[..|a|] == (b + "]")[..|b|] == b;
    }
  }

  lemma TailOfItemPath(path: string, i: nat, key: string)
    requires GoesOnFrom(key, ItemPath(path, i))
    ensures |key| > |path| && Decimal(i) + "]" <= key[|path| + 1..]
  {
    var p := ItemPath(path, i);
    assert p == path + "[" + (Decimal(i) + "]");
    assert p[|path| + 1..] == Decimal(i) + "]";
    assert key[..|p|] == p;
    assert key[|path| + 1..][..|p| - |path| - 1] == key[..|p|][|path| + 1..];
  }

  /** Up to the first closing bracket behind `path` a key tells its index. */
  lemma ItemPathsDiffer(path: string, i: nat, j: nat, key: string)
    requires GoesOnFrom(key, ItemPath(path, i)) && GoesOnFrom(key, ItemPath(path, j))
    ensures i == j
  {
    TailOfItemPath(path, i, key);
    TailOfItemPath(path, j, key);
    DecimalValue(i);
    DecimalValue(j);
    SameUpToBracket(Decimal(i), Decimal(j), key[|path| + 1..]);
  }

  /** Among the keys for the items of a list, those that go on from the path of one
      item are that item's, and every key goes on from one. */
  lemma {:induction false} KeysOfItem(list: Definitions, path: string, from: nat, i: nat, key: string)
    requires path != "" && ItemAt(list, i).Some? && GoesOnFrom(key, ItemPath(path, from + i))
    ensures var m, item := BuildItems(list, path, from), BuildOne(ItemAt(list, i).value, ItemPath(path, from + i));
      (key in m <==> key in item) && (key in m ==> m[key] == item[key])
    decreases list
  {
    var Cons(head, tail) := list;
    if i == 0 {
      if key in BuildItems(tail, path, from + 1) {
        var j := KeyHasIndex(tail, path, from + 1, key);
        ItemPathsDiffer(path, from, from + 1 + j, key);
      }
    } else {
      KeysOfItem(tail, path, from + 1, i - 1, key);
      if key in BuildOne(head, ItemPath(path, from)) {
        KeysOfOne(head, ItemPath(path, from), key);
        ItemPathsDiffer(path, from, from + i, key);
      }
    }
  }

  lemma {:induction false} KeyHasIndex(list: Definitions, path: string, from: nat, key: string) returns (i: nat)
    requires path != "" && key in BuildItems(list, path, from)
    ensures ItemAt(list, i).Some? && GoesOnFrom(key, ItemPath(path, from + i))
    decreases list
  {
    var Cons(head, tail) := list;
    if key in BuildItems(tail, path, from + 1) {
      i := KeyHasIndex(tail, path, from + 1, key);
      i := i + 1;
    } else {
      i := 0;
      KeysOfOne(head, ItemPath(path, from), key);
    }
  }

  /** Under `path[i]` the map has what the lookup finds in the `i`-th item of the
      list: the item itself if it is binary, and its binary definitions below. */
  lemma ItemsAgree(inherited: set<string>, d: Definition, path: string, i: nat, rest: string)
    requires path != "" && d.kind == ArrayKind && d.items.ItemList? && '[' !in rest
    requires ItemAt(d.items.list, i).Some? && Clean(ItemAt(d.items.list, i).value)
    ensures var m, item := BuildNested(d, path), ItemAt(d.items.list, i).value;
      && Agrees(m, ItemPath(path, i), Found(item))
      && Agrees(m, ItemPath(path, i) + "." + rest, Descend(inherited, item, rest))
  {
    var item, key := ItemAt(d.items.list, i).value, ItemPath(path, i) + "." + rest;
    KeysOfItem(d.items.list, path, 0, i, ItemPath(path, i));
    assert key[|ItemPath(path, i)|] == '.';
    KeysOfItem(d.items.list, path, 0, i, key);
    OneAgrees(item, ItemPath(path, i));
    NestedAgrees(inherited, item, ItemPath(path, i), rest);
  }

  /** And nothing else: every key for a list names the index of one of its items. */
  lemma OnlyItems(d: Definition, path: string, key: string)
    requires path != "" && d.kind == ArrayKind && d.items.ItemList? && key in BuildNested(d, path)
    ensures exists i :: ItemAt(d.items.list, i).Some? && GoesOnFrom(key, ItemPath(path, i))
  {
    var i := KeyHasIndex(d.items.list, path, 0, key);
    assert GoesOnFrom(key, ItemPath(path, i));
  }
}
