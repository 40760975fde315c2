/** Looking scalars up by path: what is under a path is one subtree of the document, and which
    lists are read as lists. */
module WorkflowPaths {
  import opened Text
  import opened Wrappers
  import opened Workflow
  import opened WorkflowPrint
  import opened WorkflowReading

  /** A path itself, or one below it. */
  predicate Descends(path: string, from: string) { path == from || from + "." <= path || from + "[" <= path }

  function UnderOf(entries: seq<Entry>, from: string): seq<Entry> {
    if entries == [] then [] else
      var e := entries[|entries| - 1];
      UnderOf(entries[..|entries| - 1], from) + (if Descends(e.path, from) then [e] else [])
  }

  function AtOf(entries: seq<Entry>, path: string): Option<Entry> {
    if entries == [] then None else if entries[0].path == path then Some(entries[0]) else AtOf(entries[1..], path)
  }

  method Under(entries: seq<Entry>, path: string) returns (out: seq<Entry>)
    ensures out == UnderOf(entries, path)
  {
    out := [];
    for i := 0 to |entries|
      invariant out == UnderOf(entries[..i], path)
    {
      assert entries[..i + 1][..i] == entries[..i];
      var e := entries[i];
      if e.path == path || path + "." <= e.path || path + "[" <= e.path { out := out + [e]; }
    }
    assert entries[..|entries|] == entries;
  }

  method At(entries: seq<Entry>, path: string) returns (found: Option<Entry>)
    ensures found == AtOf(entries, path)
  {
    for i := 0 to |entries|
      invariant AtOf(entries[i..], path) == AtOf(entries, path)
    {
      assert entries[i..][1..] == entries[i + 1..];
      if entries[i].path == path { return Some(entries[i]); }
    }
    return None;
  }

  // ---- Subtrees --------------------------------------------------------------------------

  /** A place in a document: its path, its scalars, and the field, if it is one. */
  datatype Place = Place(path: string, entries: seq<Entry>, field: Option<Field>)

  /** The place found by counting children: fields of mappings and items of lists. */
  ghost function ChildAt(node: Node, path: string, n: nat, address: seq<nat>): Option<Place>
    decreases node, 0
  {
    if address == [] then None else
      match node
      case Map(_, _, fields) => FieldAt(fields, path, n, address[0], address[1..])
      case List(_, _, items) => ItemAt(items, path, 0, n, address[0], address[1..])
      case _ => None
  }

  ghost function FieldAt(fields: seq<Field>, path: string, n: nat, i: nat, more: seq<nat>): Option<Place>
    decreases fields
  {
    if fields == [] then None
    else if i > 0 then FieldAt(fields[1..], path, n + 1 + Height(fields[0].node), i - 1, more)
    else
      var full := Below(path, fields[0].key);
      if more == [] then
        Some(Place(full, [OwnEntry(fields[0], full, n)] + ChildEntries(fields[0].node, full, n + 1, false),
                   Some(fields[0])))
      else ChildAt(fields[0].node, full, n + 1, more)
  }

  ghost function ItemAt(items: seq<Item>, path: string, k: nat, n: nat, i: nat, more: seq<nat>): Option<Place>
    decreases items
  {
    if items == [] then None
    else if i > 0 then ItemAt(items[1..], path, k + 1, n + ItemHeight(items[0]), i - 1, more)
    else InItem(items[0], path + "[" + Itoa(k) + "]", n, more)
  }

  ghost function InItem(item: Item, full: string, n: nat, more: seq<nat>): Option<Place>
    decreases item, 0
  {
    if more == [] then Some(Place(full, ItemEntries(item, full, n, false), None))
    else if item.MapItem? then FieldAt(item.fields, full, n, more[0], more[1..])
    else None
  }

  ghost function PlaceAt(doc: Document, address: seq<nat>): Option<Place> {
    if address == [] then None else FieldAt(doc.fields, "", 1, address[0], address[1..])
  }

  // ---- Keys that keep paths apart --------------------------------------------------------

  predicate PlainKey(key: string) { key != "" && '.' !in key && '[' !in key }

  predicate HasKey(fields: seq<Field>, key: string) {
    fields != [] && (fields[0].key == key || HasKey(fields[1..], key))
  }

  /** Keys hold no dot, and no mapping holds one key twice. */
  predicate NodePlain(node: Node)
    decreases node, 0
  {
    match node
    case Map(_, _, fields) => FieldsPlain(fields)
    case List(_, _, items) => ItemsPlain(items)
    case _ => true
  }

  predicate FieldsPlain(fields: seq<Field>)
    decreases fields
  {
    fields == [] ||
    (PlainKey(fields[0].key) && !HasKey(fields[1..], fields[0].key) && NodePlain(fields[0].node) &&
     FieldsPlain(fields[1..]))
  }

  predicate ItemPlain(item: Item)
    decreases item, 0
  {
    item.MapItem? ==> FieldsPlain(item.fields)
  }

  predicate ItemsPlain(items: seq<Item>)
    decreases items
  {
    items == [] || (ItemPlain(items[0]) && ItemsPlain(items[1..]))
  }

  // ---- Descent ---------------------------------------------------------------------------

  lemma DescendsTwice(x: string, p: string, q: string)
    requires Descends(x, p) && Descends(p, q)
    ensures Descends(x, q)
  {
    assert p <= x;
  }

  lemma BelowDescends(path: string, key: string)
    requires path != ""
    ensures Descends(Below(path, key), path) && |Below(path, key)| > |path|
  {
    assert path + "." <= Below(path, key);
  }

  lemma ItemDescends(path: string, k: nat)
    ensures Descends(path + "[" + Itoa(k) + "]", path) && |path + "[" + Itoa(k) + "]"| > |path|
  {
    assert path + "[" <= path + "[" + Itoa(k) + "]";
  }

  /** The character after a key of a path below it. */
  lemma KeyEndsThere(y: string, key: string)
    requires Descends(y, key)
    ensures key <= y && (|y| > |key| ==> y[|key|] == '.' || y[|key|] == '[')
  {
    if key + "." <= y { assert y[|key|] == (key + ".")[|key|]; }
    if key + "[" <= y { assert y[|key|] == (key + "[")[|key|]; }
  }

  lemma PlainKeysApart(y: string, a: string, b: string)
    requires PlainKey(a) && PlainKey(b) && Descends(y, a) && Descends(y, b)
    ensures a == b
  {
    KeyEndsThere(y, a);
    KeyEndsThere(y, b);
    assert a == y[..|a|] && b == y[..|b|];
  }

  lemma DescendsDrop(x: string, lead: string, key: string)
    requires Descends(x, lead + key)
    ensures lead <= x && Descends(x[|lead|..], key)
  {
    var y := x[|lead|..];
    if x == lead + key {
      assert y == key;
    } else {
      var c := if lead + key + "." <= x then "." else "[";
      assert lead + key + c <= x;
      assert x[..|lead + key + c|] == lead + key + c;
      assert y[..|key + c|] == x[|lead|..|lead + key + c|] == (lead + key + c)[|lead|..] == key + c;
      assert key + c <= y;
    }
  }

  lemma KeysApart(x: string, path: string, a: string, b: string)
    requires PlainKey(a) && PlainKey(b) && a != b && Descends(x, Below(path, a))
    ensures !Descends(x, Below(path, b))
  {
    if Descends(x, Below(path, b)) {
      var lead := if path == "" then "" else path + ".";
      assert Below(path, a) == lead + a && Below(path, b) == lead + b;
      DescendsDrop(x, lead, a);
      DescendsDrop(x, lead, b);
      PlainKeysApart(x[|lead|..], a, b);
    }
  }

  lemma ItemsApart(x: string, path: string, i: nat, j: nat)
    requires i != j && Descends(x, path + "[" + Itoa(i) + "]")
    ensures !Descends(x, path + "[" + Itoa(j) + "]")
  {
    IndexHasNoBracket(i);
    IndexHasNoBracket(j);
    hide Itoa;
    if Descends(x, path + "[" + Itoa(j) + "]") {
      IndexIsRead(x, path + "[", Itoa(i));
      IndexIsRead(x, path + "[", Itoa(j));
      hide *;
      var y, a, b := x[|path + "["|..], Itoa(i), Itoa(j);
      CutUnique(a, y[|a| + 1..], b, y[|b| + 1..], ']');
      ItoaInjective(i, j);
    }
  }

  lemma IndexHasNoBracket(i: nat)
    ensures ']' !in Itoa(i)
  {
  }

  /** What stands after the bracket is the index and the closing bracket. */
  lemma IndexIsRead(x: string, lead: string, index: string)
    requires lead + index + "]" <= x && ']' !in index
    ensures |lead| <= |x| && |index| + 1 <= |x[|lead|..]|
    ensures x[|lead|..] == index + [']'] + x[|lead|..][|index| + 1..]
  {
    var whole := lead + index + "]";
    var rest := x[|whole|..];
    assert x == whole + rest;
    assert x[|lead|..] == index + [']'] + rest;
  }

  // ---- Under -----------------------------------------------------------------------------

  ghost predicate AllUnder(entries: seq<Entry>, p: string) {
    forall i :: 0 <= i < |entries| ==> Descends(entries[i].path, p)
  }

  ghost predicate NoneUnder(entries: seq<Entry>, p: string) {
    forall i :: 0 <= i < |entries| ==> !Descends(entries[i].path, p)
  }

  lemma {:induction false} UnderConcat(a: seq<Entry>, b: seq<Entry>, p: string)
    ensures UnderOf(a + b, p) == UnderOf(a, p) + UnderOf(b, p)
  {
    hide Descends;
    if b == [] {
      assert a + b == a;
      assert UnderOf(a, p) + [] == UnderOf(a, p);
    } else {
      assert (a + b)[..|a + b| - 1] == a + b[..|b| - 1];
      UnderConcat(a, b[..|b| - 1], p);
    }
  }

  lemma {:induction false} UnderAll(entries: seq<Entry>, p: string)
    ensures AllUnder(entries, p) ==> UnderOf(entries, p) == entries
    ensures NoneUnder(entries, p) ==> UnderOf(entries, p) == []
  {
    hide Descends;
    if entries != [] {
      var init := entries[..|entries| - 1];
      UnderAll(init, p);
      assert entries == init + [entries[|entries| - 1]];
    }
  }

  lemma AllDeeper(entries: seq<Entry>, p: string, q: string)
    requires AllUnder(entries, p) && Descends(p, q)
    ensures AllUnder(entries, q)
  {
    hide Descends;
    forall i | 0 <= i < |entries| ensures Descends(entries[i].path, q) { DescendsTwice(entries[i].path, p, q); }
  }

  lemma NoneDeeper(entries: seq<Entry>, p: string, q: string)
    requires NoneUnder(entries, q) && Descends(p, q)
    ensures NoneUnder(entries, p)
  {
    hide Descends;
    forall i | 0 <= i < |entries| ensures !Descends(entries[i].path, p) {
      if Descends(entries[i].path, p) { DescendsTwice(entries[i].path, p, q); }
    }
  }

  /** What nests under a path has paths below it. */
  lemma {:induction false} ChildrenDescend(node: Node, path: string, n: nat)
    requires path != ""
    ensures AllUnder(ChildEntries(node, path, n, false), path)
    decreases node, 0
  {
    hide Descends, FieldsEntries, ItemsEntries;
    match node
    case Map(_, _, fields) => FieldsDescend(fields, path, n);
    case List(_, _, items) => ItemsDescend(items, path, 0, n);
    case _ =>
  }

  lemma OwnAndChildren(f: Field, full: string, n: nat)
    requires full != ""
    ensures AllUnder([OwnEntry(f, full, n)] + ChildEntries(f.node, full, n + 1, false), full)
    decreases f.node, 1
  {
    hide ChildEntries;
    ChildrenDescend(f.node, full, n + 1);
  }

  lemma {:induction false} FieldsDescend(fields: seq<Field>, path: string, n: nat)
    requires path != ""
    ensures AllUnder(FieldsEntries(fields, path, n, false), path)
    decreases fields
  {
    hide Descends, ChildEntries, OwnEntry;
    if fields != [] {
      var full := Below(path, fields[0].key);
      BelowDescends(path, fields[0].key);
      OwnAndChildren(fields[0], full, n);
      AllDeeper([OwnEntry(fields[0], full, n)] + ChildEntries(fields[0].node, full, n + 1, false), full, path);
      FieldsDescend(fields[1..], path, n + 1 + Height(fields[0].node));
    }
  }

  lemma ItemIsFields(fields: seq<Field>, path: string, n: nat)
    requires path != ""
    ensures ItemEntries(MapItem(fields), path, n, false) == FieldsEntries(fields, path, n, false)
  {
  }

  lemma {:induction false} ItemDescendEntries(item: Item, path: string, n: nat)
    requires path != ""
    ensures AllUnder(ItemEntries(item, path, n, false), path)
    decreases item, 0
  {
    if item.MapItem? {
      ItemIsFields(item.fields, path, n);
      FieldsDescend(item.fields, path, n);
    }
  }

  lemma {:induction false} ItemsDescend(items: seq<Item>, path: string, k: nat, n: nat)
    ensures AllUnder(ItemsEntries(items, path, k, n, false), path)
    decreases items
  {
    hide Descends, ItemEntries, Itoa;
    if items != [] {
      var full := path + "[" + Itoa(k) + "]";
      ItemDescendEntries(items[0], full, n);
      ItemDescends(path, k);
      AllDeeper(ItemEntries(items[0], full, n, false), full, path);
      ItemsDescend(items[1..], path, k + 1, n + ItemHeight(items[0]));
    }
  }

  /** Nothing in the other fields of a mapping is under one of them. */
  lemma {:induction false} OthersApart(fields: seq<Field>, path: string, n: nat, key: string)
    requires FieldsPlain(fields) && PlainKey(key) && !HasKey(fields, key)
    ensures NoneUnder(FieldsEntries(fields, path, n, false), Below(path, key))
    decreases fields
  {
    hide Descends, ChildEntries, OwnEntry, NodePlain, PlainKey, Below;
    if fields != [] {
      var f := fields[0];
      var full := Below(path, f.key);
      FieldApart(f, path, n, key);
      OthersApart(fields[1..], path, n + 1 + Height(f.node), key);
    }
  }

  lemma FieldApart(f: Field, path: string, n: nat, key: string)
    requires PlainKey(f.key) && PlainKey(key) && f.key != key
    ensures var full := Below(path, f.key);
            NoneUnder([OwnEntry(f, full, n)] + ChildEntries(f.node, full, n + 1, false), Below(path, key))
  {
    var full := Below(path, f.key);
    assert full != "";
    var entries := [OwnEntry(f, full, n)] + ChildEntries(f.node, full, n + 1, false);
    OwnAndChildren(f, full, n);
    hide Descends, ChildEntries, OwnEntry, Below;
    forall i | 0 <= i < |entries| ensures !Descends(entries[i].path, Below(path, key)) {
      KeysApart(entries[i].path, path, f.key, key);
    }
  }

  lemma {:induction false} LaterItemsApart(items: seq<Item>, path: string, k: nat, n: nat, j: nat)
    requires j < k
    ensures NoneUnder(ItemsEntries(items, path, k, n, false), path + "[" + Itoa(j) + "]")
    decreases items
  {
    hide Descends, ItemEntries, Itoa;
    if items != [] {
      ItemApart(items[0], path, k, n, j);
      LaterItemsApart(items[1..], path, k + 1, n + ItemHeight(items[0]), j);
    }
  }

  lemma ItemApart(item: Item, path: string, k: nat, n: nat, j: nat)
    requires j != k
    ensures NoneUnder(ItemEntries(item, path + "[" + Itoa(k) + "]", n, false), path + "[" + Itoa(j) + "]")
  {
    var full := path + "[" + Itoa(k) + "]";
    var entries := ItemEntries(item, full, n, false);
    ItemDescendEntries(item, full, n);
    hide Descends, ItemEntries, Itoa;
    forall i | 0 <= i < |entries| ensures !Descends(entries[i].path, path + "[" + Itoa(j) + "]") {
      ItemsApart(entries[i].path, path, k, j);
    }
  }

  lemma ShorterIsNotUnder(x: string, p: string)
    requires |x| < |p|
    ensures !Descends(x, p)
  {
  }

  /** What is under the path of a place below a node is the place's own scalars. */
  lemma {:induction false} UnderChild(node: Node, path: string, n: nat, address: seq<nat>)
    requires path != "" && NodePlain(node) && ChildAt(node, path, n, address).Some?
    ensures var place := ChildAt(node, path, n, address).value;
            Descends(place.path, path) && |place.path| > |path| &&
            UnderOf(ChildEntries(node, path, n, false), place.path) == place.entries
    decreases node, 0
  {
    hide Descends, UnderOf, FieldsEntries, ItemsEntries, FieldAt, ItemAt, FieldsPlain, ItemsPlain, Below;
    match node
    case Map(_, _, fields) =>
      var key := UnderField(fields, path, n, address[0], address[1..]);
      var place := FieldAt(fields, path, n, address[0], address[1..]).value;
      BelowDescends(path, key);
      DescendsTwice(place.path, Below(path, key), path);
      DescendsIsLonger(place.path, Below(path, key));
    case List(_, _, items) =>
      var k := UnderItem(items, path, 0, n, address[0], address[1..]);
      var place := ItemAt(items, path, 0, n, address[0], address[1..]).value;
      ItemDescends(path, k);
      DescendsTwice(place.path, path + "[" + Itoa(k) + "]", path);
      DescendsIsLonger(place.path, path + "[" + Itoa(k) + "]");
    case _ =>
  }

  lemma DescendsIsLonger(x: string, p: string)
    requires Descends(x, p)
    ensures |x| >= |p|
  {
  }

  /** The same for the fields of a mapping; the place is in the field with the key returned. */
  lemma {:induction false} UnderField(fields: seq<Field>, path: string, n: nat, i: nat, more: seq<nat>)
    returns (key: string)
    requires FieldsPlain(fields) && FieldAt(fields, path, n, i, more).Some?
    ensures HasKey(fields, key) && PlainKey(key)
    ensures var place := FieldAt(fields, path, n, i, more).value;
            Descends(place.path, Below(path, key)) &&
            UnderOf(FieldsEntries(fields, path, n, false), place.path) == place.entries
    decreases fields
  {
    hide Descends, UnderOf, ChildEntries, OwnEntry, NodePlain, Below, ChildAt, PlainKey, Height;
    var f, full := fields[0], Below(path, fields[0].key);
    var m := n + 1 + Height(f.node);
    var first := [OwnEntry(f, full, n)] + ChildEntries(f.node, full, n + 1, false);
    var others := FieldsEntries(fields[1..], path, m, false);
    var place := FieldAt(fields, path, n, i, more).value;
    UnderConcat(first, others, place.path);
    if i > 0 {
      key := UnderField(fields[1..], path, m, i - 1, more);
      HasKeyDiffers(fields[1..], key, f.key);
      FieldApart(f, path, n, key);
      NoneDeeper(first, place.path, Below(path, key));
      UnderAll(first, place.path);
      assert [] + UnderOf(others, place.path) == UnderOf(others, place.path);
    } else {
      key := f.key;
      UnderFirst(f, path, n, more);
      OthersApart(fields[1..], path, m, key);
      NoneDeeper(others, place.path, full);
      UnderAll(others, place.path);
      assert UnderOf(first, place.path) + [] == UnderOf(first, place.path);
    }
  }

  lemma {:induction false} HasKeyDiffers(fields: seq<Field>, a: string, b: string)
    requires HasKey(fields, a) && !HasKey(fields, b)
    ensures a != b
  {
  }

  ghost function FirstPlace(f: Field, full: string, n: nat, more: seq<nat>): Option<Place> {
    if more == [] then Some(Place(full, [OwnEntry(f, full, n)] + ChildEntries(f.node, full, n + 1, false), Some(f)))
    else ChildAt(f.node, full, n + 1, more)
  }

  lemma {:induction false} UnderFirst(f: Field, path: string, n: nat, more: seq<nat>)
    requires PlainKey(f.key) && NodePlain(f.node) && FirstPlace(f, Below(path, f.key), n, more).Some?
    ensures var full := Below(path, f.key);
            var place := FirstPlace(f, full, n, more).value;
            Descends(place.path, full) &&
            UnderOf([OwnEntry(f, full, n)] + ChildEntries(f.node, full, n + 1, false), place.path) == place.entries
    decreases f.node, 1
  {
    var full := Below(path, f.key);
    assert full != "" && Descends(full, full);
    var own, children := [OwnEntry(f, full, n)], ChildEntries(f.node, full, n + 1, false);
    var place := FirstPlace(f, full, n, more).value;
    OwnAndChildren(f, full, n);
    UnderAll(own + children, full);
    if more != [] {
      hide Descends, UnderOf, ChildEntries, ChildAt, NodePlain, Below;
      UnderChild(f.node, full, n + 1, more);
      UnderConcat(own, children, place.path);
      ShorterIsNotUnder(full, place.path);
      UnderAll(own, place.path);
      assert [] + UnderOf(children, place.path) == UnderOf(children, place.path);
    }
  }

  lemma {:induction false} UnderItem(items: seq<Item>, path: string, k: nat, n: nat, i: nat, more: seq<nat>)
    returns (index: nat)
    requires ItemsPlain(items) && ItemAt(items, path, k, n, i, more).Some?
    ensures index >= k
    ensures var place := ItemAt(items, path, k, n, i, more).value;
            Descends(place.path, path + "[" + Itoa(index) + "]") &&
            UnderOf(ItemsEntries(items, path, k, n, false), place.path) == place.entries
    decreases items
  {
    hide Descends, UnderOf, ItemEntries, ItemPlain, Itoa, InItem;
    var full, m := path + "[" + Itoa(k) + "]", n + ItemHeight(items[0]);
    var first, others := ItemEntries(items[0], full, n, false), ItemsEntries(items[1..], path, k + 1, m, false);
    var place := ItemAt(items, path, k, n, i, more).value;
    UnderConcat(first, others, place.path);
    if i > 0 {
      index := UnderItem(items[1..], path, k + 1, m, i - 1, more);
      ItemApart(items[0], path, k, n, index);
      NoneDeeper(first, place.path, path + "[" + Itoa(index) + "]");
      UnderAll(first, place.path);
      assert [] + UnderOf(others, place.path) == UnderOf(others, place.path);
    } else {
      index := k;
      UnderOneItem(items[0], full, n, more);
      LaterItemsApart(items[1..], path, k + 1, m, k);
      NoneDeeper(others, place.path, full);
      UnderAll(others, place.path);
      assert UnderOf(first, place.path) + [] == UnderOf(first, place.path);
    }
  }

  lemma {:induction false} UnderOneItem(item: Item, full: string, n: nat, more: seq<nat>)
    requires full != "" && ItemPlain(item) && InItem(item, full, n, more).Some?
    ensures var place := InItem(item, full, n, more).value;
            Descends(place.path, full) && UnderOf(ItemEntries(item, full, n, false), place.path) == place.entries
    decreases item, 0
  {
    if more == [] {
      ItemDescendEntries(item, full, n);
      UnderAll(ItemEntries(item, full, n, false), full);
    } else {
      ItemIsFields(item.fields, full, n);
      hide Descends, UnderOf, FieldsEntries, FieldAt, FieldsPlain, ItemEntries, Below;
      var key := UnderField(item.fields, full, n, more[0], more[1..]);
      BelowDescends(full, key);
      DescendsTwice(InItem(item, full, n, more).value.path, Below(full, key), full);
    }
  }

  /** Looking up what is under the path of any place of a document gives exactly the scalars of
      that place, in document order. */
  lemma UnderIsSubtree(doc: Document, address: seq<nat>)
    requires FieldsPlain(doc.fields) && PlaceAt(doc, address).Some?
    ensures UnderOf(Scalars(doc), PlaceAt(doc, address).value.path) == PlaceAt(doc, address).value.entries
  {
    var key := UnderField(doc.fields, "", 1, address[0], address[1..]);
  }

  // ---- Lists -----------------------------------------------------------------------------

  function TrimSuffix(s: string, c: char): string { if s != "" && s[|s| - 1] == c then s[..|s| - 1] else s }

  function FlowParts(parts: seq<string>): seq<string> {
    if parts == [] then [] else
      var part := Unquote(TrimSpace(parts[|parts| - 1]));
      FlowParts(parts[..|parts| - 1]) + (if part != "" then [part] else [])
  }

  function SplitFlowOf(value: string): seq<string> {
    FlowParts(Split(TrimSuffix(TrimPrefix(TrimSpace(value), '['), ']'), ','))
  }

  method SplitFlow(value: string) returns (out: seq<string>)
    ensures out == SplitFlowOf(value)
  {
    hide TrimSpace, Unquote, Split;
    var parts := Split(TrimSuffix(TrimPrefix(TrimSpace(value), '['), ']'), ',');
    out := [];
    for i := 0 to |parts|
      invariant out == FlowParts(parts[..i])
    {
      assert parts[..i + 1][..i] == parts[..i];
      var part := Unquote(TrimSpace(parts[i]));
      if part != "" { out := out + [part]; }
    }
    assert parts[..|parts|] == parts;
  }

  /** A part of an inline list: its text, with white space around it. */
  datatype Part = Part(before: string, text: string, after: string)

  ghost predicate PartValid(p: Part) {
    && (forall c :: c in p.before ==> IsSpace(c)) && (forall c :: c in p.after ==> IsSpace(c))
    && Trimmed(p.text) && ',' !in p.before + p.text + p.after
  }

  ghost function PartTexts(parts: seq<Part>): (r: seq<string>)
    ensures |r| == |parts| && forall i :: 0 <= i < |r| ==> r[i] == parts[i].before + parts[i].text + parts[i].after
  {
    seq(|parts|, i requires 0 <= i < |parts| => parts[i].before + parts[i].text + parts[i].after)
  }

  /** The texts without their quotes, the empty ones left out. */
  ghost function Unquoted(parts: seq<Part>): seq<string> {
    if parts == [] then [] else
      Unquoted(parts[..|parts| - 1]) +
      if Unquote(parts[|parts| - 1].text) != "" then [Unquote(parts[|parts| - 1].text)] else []
  }

  lemma {:induction false} PartsAreRead(parts: seq<Part>)
    requires forall i :: 0 <= i < |parts| ==> PartValid(parts[i])
    ensures FlowParts(PartTexts(parts)) == Unquoted(parts)
  {
    hide Unquote, TrimSpace, IsSpace;
    if parts != [] {
      var last := parts[|parts| - 1];
      assert PartTexts(parts)[..|parts| - 1] == PartTexts(parts[..|parts| - 1]);
      PartsAreRead(parts[..|parts| - 1]);
      TrimSpaceExactly(last.before, last.text, last.after);
    }
  }

  /** An inline list in brackets is read into its texts: split at the commas, without the white
      space around them and without their quotes. */
  lemma BracketsAreRead(parts: seq<Part>, before: string, after: string)
    requires parts != [] && forall i :: 0 <= i < |parts| ==> PartValid(parts[i])
    requires (forall c :: c in before ==> IsSpace(c)) && (forall c :: c in after ==> IsSpace(c))
    ensures SplitFlowOf(before + ("[" + Join(PartTexts(parts), ',') + "]") + after) == Unquoted(parts)
  {
    var inner := Join(PartTexts(parts), ',');
    BracketsAreNoSpace();
    TextsHaveNoComma(parts);
    hide *;
    TrimSpaceExactly(before, "[" + inner + "]", after);
    BracketsComeOff(inner);
    SplitJoin(PartTexts(parts), ',');
    PartsAreRead(parts);
    FlowIs(before + ("[" + inner + "]") + after);
  }

  lemma FlowIs(value: string)
    ensures SplitFlowOf(value) == FlowParts(Split(TrimSuffix(TrimPrefix(TrimSpace(value), '['), ']'), ','))
  {
  }

  lemma BracketsAreNoSpace()
    ensures !IsSpace('[') && !IsSpace(']')
  {
  }

  lemma TextsHaveNoComma(parts: seq<Part>)
    requires forall i :: 0 <= i < |parts| ==> PartValid(parts[i])
    ensures Without(PartTexts(parts), ',') && |PartTexts(parts)| == |parts|
  {
    hide IsSpace;
    forall i | 0 <= i < |parts| ensures ',' !in PartTexts(parts)[i] { assert PartValid(parts[i]); }
  }

  lemma BracketsComeOff(inner: string)
    ensures TrimSuffix(TrimPrefix("[" + inner + "]", '['), ']') == inner
    ensures ("[" + inner + "]")[0] == '[' && ("[" + inner + "]")[|"[" + inner + "]"| - 1] == ']'
  {
    assert ("[" + inner + "]")[1..] == inner + "]" && (inner + "]")[..|inner|] == inner;
  }

  /** A plain scalar is left alone. */
  lemma PlainIsOnePart(p: Part)
    requires PartValid(p) && p.text != "" && p.text[0] != '[' && p.text[|p.text| - 1] != ']'
    ensures SplitFlowOf(p.before + p.text + p.after) == Unquoted([p])
  {
    hide IsSpace, TrimSpace, Unquote;
    TrimSpaceExactly(p.before, p.text, p.after);
    TrimSpaceExactly("", p.text, "");
    assert "" + p.text + "" == p.text;
    assert Split(p.text, ',') == [p.text];
    assert FlowParts([p.text]) == if Unquote(p.text) != "" then [Unquote(p.text)] else [] by {
      assert [p.text][..0] == [] && FlowParts([]) == [];
    }
    assert Unquoted([p]) == if Unquote(p.text) != "" then [Unquote(p.text)] else [] by {
      assert [p][..0] == [] && Unquoted([]) == [];
    }
  }

  function FlowOfAll(entries: seq<Entry>): seq<string> {
    if entries == [] then [] else
      var e := entries[|entries| - 1];
      FlowOfAll(entries[..|entries| - 1]) + (if e.value != "" then SplitFlowOf(e.value) else [])
  }

  /** The list written on the line of a path. */
  function InlineList(entries: seq<Entry>, path: string): seq<string> {
    var e := AtOf(entries, path);
    if e.Some? && e.value.value != "" then SplitFlowOf(e.value.value) else []
  }

  function FlowListOf(entries: seq<Entry>, path: string): seq<string> {
    InlineList(entries, path) + FlowOfAll(UnderOf(entries, path + "["))
  }

  method FlowList(entries: seq<Entry>, path: string) returns (out: seq<string>)
    ensures out == FlowListOf(entries, path)
  {
    hide SplitFlowOf, AtOf, UnderOf;
    out := [];
    var e := At(entries, path);
    if e.Some? && e.value.value != "" {
      out := SplitFlow(e.value.value);
    }
    var inline := out;
    var items := Under(entries, path + "[");
    for i := 0 to |items|
      invariant out == inline + FlowOfAll(items[..i])
    {
      assert items[..i + 1][..i] == items[..i];
      if items[i].value != "" {
        var more := SplitFlow(items[i].value);
        out := out + more;
      }
    }
    assert items[..|items|] == items;
  }

  /** In every path that is read, an opening bracket is followed by a digit. */
  predicate Indexed(path: string) {
    forall i :: 0 <= i < |path| && path[i] == '[' ==> i + 1 < |path| && IsDigit(path[i + 1])
  }

  ghost predicate StackIndexed(stack: seq<Frame>) { forall i :: 0 <= i < |stack| ==> Indexed(stack[i].path) }

  lemma KeyHasNoBracket(line: string)
    ensures '[' !in SplitMapping(line).key
  {
    hide CommentIndex, TrimSpace, Unquote;
  }

  lemma BelowIndexed(path: string, key: string)
    requires Indexed(path) && '[' !in key
    ensures Indexed(Below(path, key)) && Indexed(path + "." + key)
  {
    var tail := "." + key;
    assert '[' !in tail;
    assert path + "." + key == path + tail;
    assert forall i :: |path| <= i < |path + tail| ==> (path + tail)[i] == tail[i - |path|];
  }

  lemma ItemIndexed(frame: Frame)
    requires Indexed(frame.path)
    ensures Indexed(ItemPath(frame))
  {
    var index := Itoa(frame.items);
    assert IsDigit(index[0]);
    assert '[' !in index;
    var path := ItemPath(frame);
    var tail := index + "]";
    assert '[' !in tail;
    assert path == frame.path + "[" + tail;
    assert forall i :: |frame.path| < i < |path| ==> path[i] == tail[i - |frame.path| - 1];
    assert path[|frame.path| + 1] == tail[0] == index[0];
  }

  lemma PushIndexed(stack: Stack, frame: Frame)
    requires StackIndexed(stack) && Indexed(frame.path) && Top(stack).indent < frame.indent
    ensures StackIndexed(Push(stack, frame))
  {
    hide Indexed;
  }

  lemma BumpIndexed(stack: Stack)
    requires StackIndexed(stack)
    ensures StackIndexed(Bump(stack))
  {
    hide Indexed;
  }

  lemma StepItemIndexed(lines: seq<string>, n: nat, stack: Stack, indent: nat, body: string)
    requires lines != [] && Top(stack).indent < indent && StackIndexed(stack)
    ensures var o := StepItem(lines, n, stack, indent, body);
            Indexed(o.entry.path) && StackIndexed(o.stack)
  {
    ItemIndexed(Top(stack));
    hide SplitMapping, TrimSpace, TrimPrefix, ReadBlock, Fold, ItemPath, Indexed, StackIndexed, Bump, Push,
         IsBlockIndicator, Ascending;
    var path := ItemPath(Top(stack));
    var m := SplitMapping(TrimSpace(TrimPrefix(body, '-')));
    KeyHasNoBracket(TrimSpace(TrimPrefix(body, '-')));
    BelowIndexed(path, m.key);
    BumpIndexed(stack);
    PushIndexed(Bump(stack), Frame(indent, path, true, 0));
    var frame := Frame(indent, path, false, 0);
    PushIndexed(Bump(stack), frame);
    PushIndexed(Push(Bump(stack), frame), Frame(indent + 1, path + "." + m.key, false, 0));
  }

  lemma StepKeyIndexed(lines: seq<string>, n: nat, stack: Stack, indent: nat, body: string)
    requires lines != [] && Top(stack).indent < indent && StackIndexed(stack)
    ensures var o := StepKey(lines, n, stack, indent, body);
            o.Emit? ==> Indexed(o.entry.path) && StackIndexed(o.stack)
  {
    var m := SplitMapping(body);
    var path := Below(Top(stack).path, m.key);
    KeyHasNoBracket(body);
    BelowIndexed(Top(stack).path, m.key);
    PushIndexed(stack, Frame(indent, path, true, 0));
    PushIndexed(stack, Frame(indent, path, false, 0));
    hide SplitMapping, TrimSpace, ReadBlock, Fold, Indexed, StackIndexed, Push, Below;
  }

  lemma StepIndexed(lines: seq<string>, n: nat, stack: Stack)
    requires lines != [] && StackIndexed(stack)
    ensures var o := Step(lines, n, stack);
            o.Emit? ==> Indexed(o.entry.path) && StackIndexed(o.stack)
  {
    hide StepItem, StepKey, TrimSpace, TrimRight, LeadingSpaces, Indexed;
    var raw := TrimRight(lines[0]);
    var indent := LeadingSpaces(raw);
    var open := Pop(stack, indent);
    assert StackIndexed(open);
    hide StackIndexed, Pop;
    StepItemIndexed(lines, n, open, indent, raw[indent..]);
    StepKeyIndexed(lines, n, open, indent, raw[indent..]);
  }

  ghost predicate AllIndexed(entries: seq<Entry>) { forall i :: 0 <= i < |entries| ==> Indexed(entries[i].path) }

  lemma {:induction false} ReadIndexed(lines: seq<string>, n: nat, stack: Stack)
    requires StackIndexed(stack) && ReadFrom(lines, n, stack).Ok?
    ensures AllIndexed(ReadFrom(lines, n, stack).value)
    decreases |lines|
  {
    hide Step, Indexed, StackIndexed;
    if lines != [] {
      StepIndexed(lines, n, stack);
      var o := Step(lines, n, stack);
      match o
      case Skip => ReadIndexed(lines[1..], n + 1, stack);
      case Emit(_, next, used) => ReadIndexed(lines[used..], n + used, next);
      case Refuse(_) =>
    }
  }

  lemma NothingUnderBracket(path: string, from: string)
    requires Indexed(path)
    ensures !Descends(path, from + "[")
  {
    var p := from + "[";
    if Descends(path, p) {
      assert p <= path;
      assert path[|from|] == p[|from|] == '[';
      KeyEndsThere(path, p);
    }
  }

  /** The lookup of lists asks for what is under a path that ends in a bracket, and nothing ever
      is. In every file that is accepted, only a list written on the line of its key is read. */
  lemma FlowListIsInline(text: string, path: string)
    requires Parse(text).Ok?
    ensures FlowListOf(Parse(text).value, path) == InlineList(Parse(text).value, path)
  {
    var entries := Parse(text).value;
    assert AllIndexed(entries) by { ReadIndexed(Split(NormalizeNewlines(text), '\n'), 1, ROOT); }
    hide Parse, ReadFrom, Indexed, Descends, UnderOf, InlineList;
    forall i | 0 <= i < |entries| ensures !Descends(entries[i].path, path + "[") {
      NothingUnderBracket(entries[i].path, path);
    }
    UnderAll(entries, path + "[");
    assert InlineList(entries, path) + [] == InlineList(entries, path);
  }

  lemma {:induction false} AtIsFirstUnder(entries: seq<Entry>, p: string)
    requires UnderOf(entries, p) != [] && UnderOf(entries, p)[0].path == p
    ensures AtOf(entries, p) == Some(UnderOf(entries, p)[0])
    decreases |entries|
  {
    var first, rest := entries[0], entries[1..];
    assert entries == [first] + rest;
    UnderConcat([first], rest, p);
    assert [first][..0] == [];
    if !Descends(first.path, p) {
      assert UnderOf([first], p) == [];
      assert [] + UnderOf(rest, p) == UnderOf(rest, p);
      AtIsFirstUnder(rest, p);
    } else {
      assert UnderOf([first], p) == [first];
    }
  }

  /** For every key of a written document: a list on the key's line is read into its parts, and a
      list written below the key is read as no list at all, whatever its items. */
  lemma FlowListExactly(doc: Document, address: seq<nat>)
    requires FieldsValid(doc.fields) && FieldsShaped(doc.fields) && FieldsPlain(doc.fields)
    requires PlaceAt(doc, address).Some? && PlaceAt(doc, address).value.field.Some?
    ensures var place := PlaceAt(doc, address).value;
            var node := place.field.value.node;
            FlowListOf(Scalars(doc), place.path) == if Value(node) == "" then [] else SplitFlowOf(Value(node))
  {
    var place := PlaceAt(doc, address).value;
    WriteReadRoundTrip(doc);
    FlowListIsInline(Write(doc), place.path);
    UnderIsSubtree(doc, address);
    hide Parse, Write, UnderOf, SplitFlowOf, FieldsShaped, FieldsPlain, FieldsValid, FlowListOf, Scalars;
    FieldPlaceStarts(doc.fields, "", 1, address[0], address[1..]);
    AtIsFirstUnder(Scalars(doc), place.path);
  }

  /** A field's place starts with the entry of its own line. */
  lemma {:induction false} FieldPlaceStarts(fields: seq<Field>, path: string, n: nat, i: nat, more: seq<nat>)
    requires FieldAt(fields, path, n, i, more).Some? && FieldAt(fields, path, n, i, more).value.field.Some?
    ensures var place := FieldAt(fields, path, n, i, more).value;
            place.entries != [] && place.entries[0].path == place.path &&
            place.entries[0].value == Value(place.field.value.node)
    decreases fields
  {
    if i > 0 {
      FieldPlaceStarts(fields[1..], path, n + 1 + Height(fields[0].node), i - 1, more);
    } else if more != [] {
      ChildPlaceStarts(fields[0].node, Below(path, fields[0].key), n + 1, more);
    }
  }

  lemma {:induction false} ChildPlaceStarts(node: Node, path: string, n: nat, address: seq<nat>)
    requires ChildAt(node, path, n, address).Some? && ChildAt(node, path, n, address).value.field.Some?
    ensures var place := ChildAt(node, path, n, address).value;
            place.entries != [] && place.entries[0].path == place.path &&
            place.entries[0].value == Value(place.field.value.node)
    decreases node, 0
  {
    hide FieldAt, ItemAt;
    match node
    case Map(_, _, fields) => FieldPlaceStarts(fields, path, n, address[0], address[1..]);
    case List(_, _, items) => ItemPlaceStarts(items, path, 0, n, address[0], address[1..]);
    case _ =>
  }

  lemma {:induction false} ItemPlaceStarts(items: seq<Item>, path: string, k: nat, n: nat, i: nat, more: seq<nat>)
    requires ItemAt(items, path, k, n, i, more).Some? && ItemAt(items, path, k, n, i, more).value.field.Some?
    ensures var place := ItemAt(items, path, k, n, i, more).value;
            place.entries != [] && place.entries[0].path == place.path &&
            place.entries[0].value == Value(place.field.value.node)
    decreases items
  {
    if i > 0 {
      ItemPlaceStarts(items[1..], path, k + 1, n + ItemHeight(items[0]), i - 1, more);
    } else {
      FieldPlaceStarts(items[0].fields, path + "[" + Itoa(k) + "]", n, more[0], more[1..]);
    }
  }
}
