/** The API compatibility gate at the level of schemas: the recursive comparison of a baseline
    schema with its successor, through the references of both documents. The comparison is
    spoken of where it returns; when it does is the subject of `Schemas`. */
module SchemaCompat {
  import opened JsonValues
  import opened Order
  import opened Schemas
  import opened Text
  import opened Wrappers

  // ---- The comparison --------------------------------------------------------------------

  datatype Change =
    | AddedRequired(where: string, field: string)
    | RemovedProperty(where: string, name: string)
    | ChangedType(where: string)
    | NarrowedEnum(where: string, value: Json)
    | ChangedCombinator(where: string, what: string)

  function Elements(v: Json): set<Json> {
    if v.JArray? then set i | 0 <= i < |v.items| :: v.items[i] else {}
  }

  function RequiredSet(schema: Object): set<string> {
    set e | e in Elements(Lookup(schema, "required")) && e.JString? :: e.text
  }

  function Texts(items: seq<Json>): seq<string> {
    if items == [] then [] else (if items[0].JString? then [items[0].text] else []) + Texts(items[1..])
  }

  /** A string, or the strings of a list in order. */
  function StringList(v: Json): seq<string> {
    match v
    case JString(text) => [text]
    case JArray(items) => Sort(Texts(items))
    case _ => []
  }

  function NormalizeType(v: Json): string { Join(StringList(v), '|') }

  function DiffRequired(where: string, base: Object, head: Object): set<Change> {
    set f | f in RequiredSet(head) && f !in RequiredSet(base) :: AddedRequired(where, f)
  }

  function DiffType(where: string, base: Object, head: Object): set<Change> {
    var b, h := Lookup(base, "type"), Lookup(head, "type");
    if NormalizeType(b) != NormalizeType(h) && (b != JNull || h != JNull) then {ChangedType(where)} else {}
  }

  function DiffEnum(where: string, base: Json, head: Json): set<Change> {
    if base == JNull && head == JNull then {} else
      set v | v in Elements(base) && v !in Elements(head) :: NarrowedEnum(where, v)
  }

  function RemovedProperties(where: string, base: Object, head: Object): set<Change> {
    set n | n in ObjectAt(base, "properties") && n !in ObjectAt(head, "properties") :: RemovedProperty(where, n)
  }

  const COMBINATORS := ["allOf", "oneOf", "anyOf", "not"]

  function DiffCombinators(where: string, base: Object, head: Object): set<Change> {
    set i | 0 <= i < |COMBINATORS| && Lookup(base, COMBINATORS[i]) != Lookup(head, COMBINATORS[i]) ::
      ChangedCombinator(where, COMBINATORS[i])
  }

  const ADDITIONAL := "additionalProperties"

  function DiffAdditional(where: string, base: Object, head: Object): set<Change> {
    if ADDITIONAL in base && base[ADDITIONAL] != Lookup(head, ADDITIONAL) && Lookup(head, ADDITIONAL) != JBool(true)
    then {ChangedCombinator(where, ADDITIONAL)} else {}
  }

  /** Items that are not a schema on both sides are compared as they stand. */
  function DiffItemsShape(where: string, base: Object, head: Object): set<Change> {
    var b, h := Lookup(base, "items"), Lookup(head, "items");
    if !(b.JObject? && h.JObject?) && b != h then {ChangedCombinator(where, "items")} else {}
  }

  /** Everything one level of the comparison finds. */
  function DiffHere(where: string, base: Object, head: Object): set<Change> {
    DiffRequired(where, base, head) + RemovedProperties(where, base, head) + DiffType(where, base, head) +
    DiffEnum(where, Lookup(base, "enum"), Lookup(head, "enum")) + DiffItemsShape(where, base, head) +
    DiffCombinators(where, base, head) + DiffAdditional(where, base, head)
  }

  function Deeper(where: string, hop: Hop): string {
    match hop
    case Property(n) => where + "." + n
    case Element => where + "[]"
  }

  /** What the comparison finds behind one hop. */
  ghost function DiffBehind(docs: Documents, where: string, p: Pair, hop: Hop): set<Change>
    requires Returns(docs, p)
    decreases Depth(docs, p), 0
  {
    if Shared(p, hop) then
      DepthFalls(docs, p, hop);
      Diff(docs, Deeper(where, hop), Next(docs, p, hop))
    else {}
  }

  /** The comparison of two resolved schemas. */
  ghost function Diff(docs: Documents, where: string, p: Pair): set<Change>
    requires Returns(docs, p)
    decreases Depth(docs, p), 1
  {
    DiffHere(where, p.base, p.head) +
    (set n, c | n in ObjectAt(p.base, "properties") && c in DiffBehind(docs, where, p, Property(n)) :: c) +
    DiffBehind(docs, where, p, Element)
  }

  // ---- Silence ---------------------------------------------------------------------------

  ghost predicate Silent(docs: Documents, p: Pair)
    requires Returns(docs, p)
  {
    Diff(docs, "", p) == {}
  }

  /** What silence asks of one level. */
  ghost predicate SilentHere(base: Object, head: Object) {
    && RequiredSet(head) <= RequiredSet(base)
    && (forall n :: n in ObjectAt(base, "properties") ==> n in ObjectAt(head, "properties"))
    && NormalizeType(Lookup(base, "type")) == NormalizeType(Lookup(head, "type"))
    && Elements(Lookup(base, "enum")) <= Elements(Lookup(head, "enum"))
    && (Shared(Pair(base, head), Element) || Lookup(base, "items") == Lookup(head, "items"))
    && (forall i :: 0 <= i < |COMBINATORS| ==> Lookup(base, COMBINATORS[i]) == Lookup(head, COMBINATORS[i]))
    && (ADDITIONAL in base ==> base[ADDITIONAL] == Lookup(head, ADDITIONAL) || Lookup(head, ADDITIONAL) == JBool(true))
  }

  lemma RequiredIsSilent(where: string, base: Object, head: Object)
    ensures DiffRequired(where, base, head) == {} <==> RequiredSet(head) <= RequiredSet(base)
  {
    if f :| f in RequiredSet(head) && f !in RequiredSet(base) {
      assert AddedRequired(where, f) in DiffRequired(where, base, head);
    }
  }

  lemma PropertiesAreSilent(where: string, base: Object, head: Object)
    ensures RemovedProperties(where, base, head) == {} <==>
            forall n :: n in ObjectAt(base, "properties") ==> n in ObjectAt(head, "properties")
  {
    if n :| n in ObjectAt(base, "properties") && n !in ObjectAt(head, "properties") {
      assert RemovedProperty(where, n) in RemovedProperties(where, base, head);
    }
  }

  lemma EnumIsSilent(where: string, base: Json, head: Json)
    ensures DiffEnum(where, base, head) == {} <==> Elements(base) <= Elements(head)
  {
    if v :| v in Elements(base) && v !in Elements(head) {
      assert NarrowedEnum(where, v) in DiffEnum(where, base, head);
    }
  }

  lemma CombinatorsAreSilent(where: string, base: Object, head: Object)
    ensures DiffCombinators(where, base, head) == {} <==>
            forall i :: 0 <= i < |COMBINATORS| ==> Lookup(base, COMBINATORS[i]) == Lookup(head, COMBINATORS[i])
  {
    if i :| 0 <= i < |COMBINATORS| && Lookup(base, COMBINATORS[i]) != Lookup(head, COMBINATORS[i]) {
      assert ChangedCombinator(where, COMBINATORS[i]) in DiffCombinators(where, base, head);
    }
  }

  lemma HereIsSilent(where: string, base: Object, head: Object)
    ensures DiffHere(where, base, head) == {} <==> SilentHere(base, head)
  {
    RequiredIsSilent(where, base, head);
    PropertiesAreSilent(where, base, head);
    EnumIsSilent(where, Lookup(base, "enum"), Lookup(head, "enum"));
    CombinatorsAreSilent(where, base, head);
    hide RequiredSet, ObjectAt, Elements, DiffRequired, RemovedProperties, DiffEnum, DiffCombinators;
    assert DiffType(where, base, head) == {} <==>
           NormalizeType(Lookup(base, "type")) == NormalizeType(Lookup(head, "type"));
  }

  /** Every shared child is compared in silence. */
  ghost predicate ChildrenSilent(docs: Documents, p: Pair)
    requires Returns(docs, p)
  {
    forall hop :: Shared(p, hop) ==> ChildSilent(docs, p, hop)
  }

  ghost predicate ChildSilent(docs: Documents, p: Pair, hop: Hop)
    requires Returns(docs, p) && Shared(p, hop)
  {
    DepthFalls(docs, p, hop);
    Silent(docs, Next(docs, p, hop))
  }

  ghost predicate NothingBehind(docs: Documents, where: string, p: Pair)
    requires Returns(docs, p)
  {
    forall hop :: DiffBehind(docs, where, p, hop) == {}
  }

  /** Nothing is found exactly when nothing is found here and nothing behind any hop. */
  lemma DiffIsEmpty(docs: Documents, where: string, p: Pair)
    requires Returns(docs, p)
    ensures Diff(docs, where, p) == {} <==> SilentHere(p.base, p.head) && NothingBehind(docs, where, p)
  {
    hide DiffHere, SilentHere, Returns, Depth, Next, Diff;
    HereIsSilent(where, p.base, p.head);
    BehindIsFound(docs, where, p, Element);
    if Diff(docs, where, p) == {} {
      forall hop ensures DiffBehind(docs, where, p, hop) == {} { BehindIsFound(docs, where, p, hop); }
    } else if NothingBehind(docs, where, p) {
      SomethingBehind(docs, where, p);
    }
  }

  lemma BehindIsFound(docs: Documents, where: string, p: Pair, hop: Hop)
    requires Returns(docs, p)
    ensures DiffHere(where, p.base, p.head) <= Diff(docs, where, p)
    ensures DiffBehind(docs, where, p, hop) <= Diff(docs, where, p)
  {
    hide DiffHere, DiffBehind, Returns, Depth, Next;
    if hop.Property? && DiffBehind(docs, where, p, hop) != {} {
      BehindIsShared(docs, where, p, hop);
      assert hop.name in ObjectAt(p.base, "properties");
    }
  }

  lemma BehindIsShared(docs: Documents, where: string, p: Pair, hop: Hop)
    requires Returns(docs, p) && DiffBehind(docs, where, p, hop) != {}
    ensures Shared(p, hop)
  {
    hide Shared, Returns, Diff, Next;
  }

  lemma SomethingBehind(docs: Documents, where: string, p: Pair)
    requires Returns(docs, p) && Diff(docs, where, p) != {} && NothingBehind(docs, where, p)
    ensures DiffHere(where, p.base, p.head) != {}
  {
    hide DiffHere, DiffBehind, Returns, Depth, Next;
    forall n ensures DiffBehind(docs, where, p, Property(n)) == {} {}
    assert DiffBehind(docs, where, p, Element) == {};
  }

  /** Whether anything is found does not depend on where the comparison started, so silence is
      a condition on each level and silence of every shared child. */
  lemma {:induction false} SilenceUnfolds(docs: Documents, where: string, p: Pair)
    requires Returns(docs, p)
    ensures Diff(docs, where, p) == {} <==> SilentHere(p.base, p.head) && ChildrenSilent(docs, p)
    decreases Depth(docs, p)
  {
    DiffIsEmpty(docs, where, p);
    hide SilentHere, Returns, Depth, Next, Diff, Shared;
    forall hop | Shared(p, hop) ensures DiffBehind(docs, where, p, hop) == {} <==> ChildSilent(docs, p, hop) {
      DepthFalls(docs, p, hop);
      SilenceUnfolds(docs, Deeper(where, hop), Next(docs, p, hop));
      SilenceUnfolds(docs, "", Next(docs, p, hop));
    }
  }

  /** Silence as a condition on each level. */
  lemma SilentIff(docs: Documents, p: Pair)
    requires Returns(docs, p)
    ensures Silent(docs, p) <==> SilentHere(p.base, p.head) && ChildrenSilent(docs, p)
  {
    SilenceUnfolds(docs, "", p);
  }

  // ---- What is found, in the words of the keywords ---------------------------------------

  ghost predicate Lists(v: Json, x: Json) { v.JArray? && x in v.items }

  ghost predicate Defines(s: Object, n: string) {
    "properties" in s && s["properties"].JObject? && n in s["properties"].fields
  }

  /** The strings of a value that is one or a list of some. */
  ghost function Strings(v: Json): multiset<string> {
    match v
    case JString(text) => multiset{text}
    case JArray(items) => StringsOf(items)
    case _ => multiset{}
  }

  ghost function StringsOf(items: seq<Json>): multiset<string> {
    if items == [] then multiset{}
    else (if items[0].JString? then multiset{items[0].text} else multiset{}) + StringsOf(items[1..])
  }

  ghost predicate ArePlain(names: multiset<string>) { forall n :: n in names ==> n != "" && '|' !in n }

  lemma ListedElements(v: Json, x: Json)
    ensures x in Elements(v) <==> Lists(v, x)
  {
    if Lists(v, x) { var i :| 0 <= i < |v.items| && v.items[i] == x; }
  }

  lemma RequiredFound(where: string, base: Object, head: Object, at: string, f: string)
    ensures AddedRequired(at, f) in DiffRequired(where, base, head) <==>
            at == where && Lists(Lookup(head, "required"), JString(f)) && !Lists(Lookup(base, "required"), JString(f))
  {
    ListedElements(Lookup(head, "required"), JString(f));
    ListedElements(Lookup(base, "required"), JString(f));
    hide Elements;
    assert f in RequiredSet(head) <==> JString(f) in Elements(Lookup(head, "required"));
    assert f in RequiredSet(base) <==> JString(f) in Elements(Lookup(base, "required"));
    hide RequiredSet;
  }

  lemma RemovedFound(where: string, base: Object, head: Object, at: string, n: string)
    ensures RemovedProperty(at, n) in RemovedProperties(where, base, head) <==>
            at == where && Defines(base, n) && !Defines(head, n)
  {
    assert forall s: Object :: n in ObjectAt(s, "properties") <==> Defines(s, n);
    hide ObjectAt, Defines;
  }

  lemma NarrowedFound(where: string, base: Json, head: Json, at: string, v: Json)
    ensures NarrowedEnum(at, v) in DiffEnum(where, base, head) <==> at == where && Lists(base, v) && !Lists(head, v)
  {
    ListedElements(base, v);
    ListedElements(head, v);
    assert base == JNull ==> Elements(base) == {};
    hide Elements;
  }

  lemma CombinatorFound(where: string, base: Object, head: Object, at: string, k: string)
    ensures ChangedCombinator(at, k) in DiffCombinators(where, base, head) <==>
            at == where && k in {"allOf", "oneOf", "anyOf", "not"} && Lookup(base, k) != Lookup(head, k)
  {
    assert |COMBINATORS| == 4 && COMBINATORS[0] == "allOf" && COMBINATORS[1] == "oneOf";
    assert COMBINATORS[2] == "anyOf" && COMBINATORS[3] == "not";
    hide COMBINATORS, Lookup;
    if at == where && k in {"allOf", "oneOf", "anyOf", "not"} {
      var i := if k == "allOf" then 0 else if k == "oneOf" then 1 else if k == "anyOf" then 2 else 3;
      assert COMBINATORS[i] == k;
    }
  }

  lemma AdditionalFound(where: string, base: Object, head: Object, at: string, k: string)
    ensures ChangedCombinator(at, k) in DiffAdditional(where, base, head) <==>
            && at == where && k == "additionalProperties" && k in base && base[k] != Lookup(head, k)
            && Lookup(head, k) != JBool(true)
    ensures ChangedCombinator(at, k) in DiffItemsShape(where, base, head) <==>
            && at == where && k == "items" && Lookup(base, k) != Lookup(head, k)
            && !(Lookup(base, k).JObject? && Lookup(head, k).JObject?)
  {
  }

  lemma {:induction false} TextsAreStrings(items: seq<Json>)
    ensures multiset(Texts(items)) == StringsOf(items)
  {
    if items != [] {
      TextsAreStrings(items[1..]);
      if items[0].JString? { assert Texts(items) == [items[0].text] + Texts(items[1..]); }
      else { assert Texts(items) == [] + Texts(items[1..]) == Texts(items[1..]); }
    }
  }

  lemma StringListIs(v: Json)
    ensures multiset(StringList(v)) == Strings(v) && Sorted(StringList(v))
  {
    if v.JArray? {
      TextsAreStrings(v.items);
      SortSorts(Texts(v.items));
    }
    hide Less, Sort, Texts, StringsOf;
    if v.JString? { assert Sorted([v.text]); }
  }

  lemma SameNames(x: seq<string>, y: seq<string>)
    requires Sorted(x) && Sorted(y) && ArePlain(multiset(x)) && ArePlain(multiset(y))
    ensures Join(x, '|') == Join(y, '|') <==> multiset(x) == multiset(y)
  {
    forall i | 0 <= i < |x| ensures x[i] != "" && '|' !in x[i] { assert x[i] in multiset(x); }
    forall i | 0 <= i < |y| ensures y[i] != "" && '|' !in y[i] { assert y[i] in multiset(y); }
    assert Text.Without(x, '|') && Text.Without(y, '|');
    hide *;
    JoinOfNames(x);
    JoinOfNames(y);
    if multiset(x) == multiset(y) {
      SortedUnique(x, y);
    } else if Join(x, '|') == Join(y, '|') && x != [] {
      JoinInjective(x, y, '|');
    }
  }

  /** A type is found to have changed exactly when it names other types, in whatever order. */
  lemma TypeFound(where: string, base: Object, head: Object, at: string)
    requires ArePlain(Strings(Lookup(base, "type"))) && ArePlain(Strings(Lookup(head, "type")))
    ensures ChangedType(at) in DiffType(where, base, head) <==>
            at == where && Strings(Lookup(base, "type")) != Strings(Lookup(head, "type"))
  {
    var b, h := Lookup(base, "type"), Lookup(head, "type");
    StringListIs(b);
    StringListIs(h);
    hide StringList, Strings, Sorted, Lookup, ArePlain, Join;
    SameNames(StringList(b), StringList(h));
  }

  /** What one level of the comparison finds, kind by kind. */
  lemma FoundHere(where: string, base: Object, head: Object, at: string, name: string, v: Json)
    ensures AddedRequired(at, name) in DiffHere(where, base, head) <==>
            && at == where && Lists(Lookup(head, "required"), JString(name))
            && !Lists(Lookup(base, "required"), JString(name))
    ensures RemovedProperty(at, name) in DiffHere(where, base, head) <==>
            at == where && Defines(base, name) && !Defines(head, name)
    ensures NarrowedEnum(at, v) in DiffHere(where, base, head) <==>
            at == where && Lists(Lookup(base, "enum"), v) && !Lists(Lookup(head, "enum"), v)
    ensures ChangedCombinator(at, name) in DiffHere(where, base, head) <==>
            && at == where && Lookup(base, name) != Lookup(head, name)
            && (|| name in {"allOf", "oneOf", "anyOf", "not"}
                || (name == "items" && !(Lookup(base, name).JObject? && Lookup(head, name).JObject?))
                || (name == "additionalProperties" && name in base && Lookup(head, name) != JBool(true)))
    ensures ArePlain(Strings(Lookup(base, "type"))) && ArePlain(Strings(Lookup(head, "type"))) ==>
              (ChangedType(at) in DiffHere(where, base, head) <==>
               at == where && Strings(Lookup(base, "type")) != Strings(Lookup(head, "type")))
  {
    hide *;
    PartOfHere(where, base, head, AddedRequired(at, name));
    PartOfHere(where, base, head, RemovedProperty(at, name));
    PartOfHere(where, base, head, NarrowedEnum(at, v));
    PartOfHere(where, base, head, ChangedCombinator(at, name));
    PartOfHere(where, base, head, ChangedType(at));
    RequiredFound(where, base, head, at, name);
    RemovedFound(where, base, head, at, name);
    NarrowedFound(where, Lookup(base, "enum"), Lookup(head, "enum"), at, v);
    CombinatorFound(where, base, head, at, name);
    AdditionalFound(where, base, head, at, name);
    if ArePlain(Strings(Lookup(base, "type"))) && ArePlain(Strings(Lookup(head, "type"))) {
      TypeFound(where, base, head, at);
    }
    PresentIsThere(base, name);
  }

  lemma PresentIsThere(s: Object, key: string)
    ensures key in s ==> s[key] == Lookup(s, key)
  {
  }

  /** Which part of a level finds a kind of change. */
  lemma PartOfHere(where: string, base: Object, head: Object, c: Change)
    ensures c.AddedRequired? ==> (c in DiffHere(where, base, head) <==> c in DiffRequired(where, base, head))
    ensures c.RemovedProperty? ==> (c in DiffHere(where, base, head) <==> c in RemovedProperties(where, base, head))
    ensures c.NarrowedEnum? ==>
              (c in DiffHere(where, base, head) <==> c in DiffEnum(where, Lookup(base, "enum"), Lookup(head, "enum")))
    ensures c.ChangedType? ==> (c in DiffHere(where, base, head) <==> c in DiffType(where, base, head))
    ensures c.ChangedCombinator? ==>
              (c in DiffHere(where, base, head) <==>
               c in DiffItemsShape(where, base, head) + DiffCombinators(where, base, head) +
                    DiffAdditional(where, base, head))
  {
    KindsApart(where, base, head);
    hide DiffRequired, RemovedProperties, DiffType, DiffEnum, DiffItemsShape, DiffCombinators, DiffAdditional, Lookup;
  }

  lemma KindsApart(where: string, base: Object, head: Object)
    ensures forall c :: c in DiffRequired(where, base, head) ==> c.AddedRequired?
    ensures forall c :: c in RemovedProperties(where, base, head) ==> c.RemovedProperty?
    ensures forall c :: c in DiffType(where, base, head) ==> c.ChangedType?
    ensures forall c :: c in DiffEnum(where, Lookup(base, "enum"), Lookup(head, "enum")) ==> c.NarrowedEnum?
    ensures forall c :: c in DiffItemsShape(where, base, head) ==> c.ChangedCombinator?
    ensures forall c :: c in DiffCombinators(where, base, head) ==> c.ChangedCombinator?
    ensures forall c :: c in DiffAdditional(where, base, head) ==> c.ChangedCombinator?
  {
    hide RequiredSet, ObjectAt, Elements, NormalizeType, COMBINATORS;
  }

  /** A path of hops the two sides share. */
  ghost predicate Along(docs: Documents, p: Pair, hops: seq<Hop>)
    decreases |hops|
  {
    hops == [] || (Shared(p, hops[0]) && Along(docs, Next(docs, p, hops[0]), hops[1..]))
  }

  ghost function End(docs: Documents, p: Pair, hops: seq<Hop>): Pair
    decreases |hops|
  {
    if hops == [] then p else End(docs, Next(docs, p, hops[0]), hops[1..])
  }

  /** How a place is written: a dot before a property, brackets for items. */
  ghost function Spelled(where: string, hops: seq<Hop>): string
    decreases |hops|
  {
    if hops == [] then where
    else if hops[0].Property? then Spelled(where + "." + hops[0].name, hops[1..])
    else Spelled(where + "[]", hops[1..])
  }

  lemma SpelledFirst(where: string, hops: seq<Hop>)
    ensures Spelled(where, []) == where
    ensures hops != [] ==> Spelled(where, hops) == Spelled(Deeper(where, hops[0]), hops[1..])
  {
  }

  lemma AlongFirst(docs: Documents, p: Pair, hops: seq<Hop>)
    ensures Along(docs, p, []) && End(docs, p, []) == p
    ensures hops != [] ==>
              && (Along(docs, p, hops) <==> Shared(p, hops[0]) && Along(docs, Next(docs, p, hops[0]), hops[1..]))
              && End(docs, p, hops) == End(docs, Next(docs, p, hops[0]), hops[1..])
  {
    hide Shared, Next;
  }

  lemma DiffSplits(docs: Documents, where: string, p: Pair, c: Change)
    requires Returns(docs, p)
    ensures c in Diff(docs, where, p) <==>
            c in DiffHere(where, p.base, p.head) || exists hop :: c in DiffBehind(docs, where, p, hop)
  {
    hide DiffHere, DiffBehind, Returns;
    if hop :| c in DiffBehind(docs, where, p, hop) { BehindIsFound(docs, where, p, hop); }
  }

  lemma BehindUnfolds(docs: Documents, where: string, p: Pair, hop: Hop)
    requires Returns(docs, p)
    ensures !Shared(p, hop) ==> DiffBehind(docs, where, p, hop) == {}
    ensures Shared(p, hop) ==>
              && Returns(docs, Next(docs, p, hop)) && Depth(docs, Next(docs, p, hop)) < Depth(docs, p)
              && DiffBehind(docs, where, p, hop) == Diff(docs, Deeper(where, hop), Next(docs, p, hop))
  {
    hide Returns, Shared, Next, Diff, Depth;
    if Shared(p, hop) { DepthFalls(docs, p, hop); }
  }

  /** The change is found at the end of the path, and written with it. */
  ghost predicate FoundAlong(docs: Documents, where: string, p: Pair, hops: seq<Hop>, c: Change) {
    Along(docs, p, hops) && c in DiffHere(Spelled(where, hops), End(docs, p, hops).base, End(docs, p, hops).head)
  }

  lemma FoundAlongFirst(docs: Documents, where: string, p: Pair, hops: seq<Hop>, c: Change)
    ensures FoundAlong(docs, where, p, [], c) <==> c in DiffHere(where, p.base, p.head)
    ensures hops != [] ==>
              (FoundAlong(docs, where, p, hops, c) <==>
               Shared(p, hops[0]) && FoundAlong(docs, Deeper(where, hops[0]), Next(docs, p, hops[0]), hops[1..], c))
  {
    AlongFirst(docs, p, hops);
    SpelledFirst(where, hops);
    hide Along, End, Spelled, DiffHere, Shared, Next, Deeper;
    AlongFirst(docs, p, []);
    SpelledFirst(where, []);
  }

  /** The comparison finds exactly what is found at the levels it comes to, each at the place its
      path is written as. */
  lemma {:induction false} DiffExactly(docs: Documents, where: string, p: Pair, c: Change)
    requires Returns(docs, p)
    ensures c in Diff(docs, where, p) <==>
            exists hops :: FoundAlong(docs, where, p, hops, c)
    decreases Depth(docs, p)
  {
    hide *;
    DiffSplits(docs, where, p, c);
    FoundAlongFirst(docs, where, p, [], c);
    if hop :| c in DiffBehind(docs, where, p, hop) {
      BehindUnfolds(docs, where, p, hop);
      DiffExactly(docs, Deeper(where, hop), Next(docs, p, hop), c);
      var rest :| FoundAlong(docs, Deeper(where, hop), Next(docs, p, hop), rest, c);
      var hops := [hop] + rest;
      assert hops[1..] == rest;
      FoundAlongFirst(docs, where, p, hops, c);
    }
    if hops :| FoundAlong(docs, where, p, hops, c) {
      if hops != [] {
        FoundAlongFirst(docs, where, p, hops, c);
        BehindUnfolds(docs, where, p, hops[0]);
        DiffExactly(docs, Deeper(where, hops[0]), Next(docs, p, hops[0]), c);
      }
    }
  }

  /** So silence leaves every combinator as it was. */
  lemma SilenceFixesCombinators(docs: Documents, p: Pair, k: string)
    requires Returns(docs, p) && Silent(docs, p) && k in {"allOf", "oneOf", "anyOf", "not"}
    ensures Lookup(p.base, k) == Lookup(p.head, k)
  {
    BehindIsFound(docs, "", p, Element);
    FoundHere("", p.base, p.head, "", k, JNull);
    hide DiffHere, Lookup, Diff, Returns;
  }

  // ---- A preorder ------------------------------------------------------------------------

  /** A schema is compatible with itself wherever the comparison returns. */
  lemma {:induction false} SelfIsSilent(doc: Object, s: Object)
    requires Returns(Documents(doc, doc), Pair(s, s))
    ensures Silent(Documents(doc, doc), Pair(s, s))
    decreases Depth(Documents(doc, doc), Pair(s, s))
  {
    var docs, p := Documents(doc, doc), Pair(s, s);
    hide Silent, Returns, Depth, Child;
    SilentIff(docs, p);
    forall hop | Shared(p, hop) ensures ChildSilent(docs, p, hop) {
      DepthFalls(docs, p, hop);
      SelfIsSilent(doc, Child(doc, s, hop));
    }
  }

  /** In a document whose references form no cycle every schema is compatible with itself. */
  lemma Reflexive(doc: Object, s: Object)
    requires !HasCycle(doc)
    ensures Returns(Documents(doc, doc), Pair(s, s)) && Silent(Documents(doc, doc), Pair(s, s))
  {
    hide Silent, Returns, HasCycle;
    OneAcyclicDocumentIsEnough(Documents(doc, doc), Pair(s, s));
    SelfIsSilent(doc, s);
  }

  /** `schemas` holds, with each of its schemas, what that schema's properties and items resolve
      to. */
  ghost predicate Closed(doc: Object, schemas: iset<Object>) {
    forall s, hop :: s in schemas && Has(s, hop) ==> Child(doc, s, hop) in schemas
  }

  /** Properties are schemas, and additional properties, where they are spoken of, are not null. */
  ghost predicate WellFormed(s: Object) {
    && (forall n :: n in ObjectAt(s, "properties") ==> ObjectAt(s, "properties")[n].JObject?)
    && (ADDITIONAL in s ==> s[ADDITIONAL] != JNull)
  }

  ghost predicate WellFormedSchemas(doc: Object, schemas: iset<Object>) {
    Closed(doc, schemas) && forall s :: s in schemas ==> WellFormed(s)
  }

  lemma HereIsTransitive(a: Object, b: Object, c: Object)
    requires WellFormed(a) && SilentHere(a, b) && SilentHere(b, c)
    ensures SilentHere(a, c)
  {
    hide NormalizeType, RequiredSet, Elements;
  }

  /** A hop that the outer two share is shared with the one between them. */
  lemma HopSurvives(a: Object, b: Object, c: Object, hop: Hop)
    requires WellFormed(a) && WellFormed(b) && SilentHere(a, b) && SilentHere(b, c) && Shared(Pair(a, c), hop)
    ensures Shared(Pair(a, b), hop) && Shared(Pair(b, c), hop)
  {
    hide NormalizeType, RequiredSet, Elements;
  }

  /** Two silent comparisons make a third that goes no deeper. */
  lemma {:induction false} SilenceLeadsRuns(docA: Object, docB: Object, docC: Object,
      as_: iset<Object>, bs: iset<Object>, a: Object, b: Object, c: Object, n: nat)
    requires WellFormedSchemas(docA, as_) && WellFormedSchemas(docB, bs) && a in as_ && b in bs
    requires Returns(Documents(docA, docB), Pair(a, b)) && Returns(Documents(docB, docC), Pair(b, c))
    requires Silent(Documents(docA, docB), Pair(a, b)) && Silent(Documents(docB, docC), Pair(b, c))
    requires Runs(Documents(docA, docC), Pair(a, c), n)
    ensures Runs(Documents(docA, docB), Pair(a, b), n)
    decreases n
  {
    hide *;
    if n > 0 {
      var ab, bc, ac := Documents(docA, docB), Documents(docB, docC), Documents(docA, docC);
      var hop := RunsOn(ac, Pair(a, c), n);
      SilenceBehind(docA, docB, docC, as_, bs, a, b, c, hop);
      SilenceLeadsRuns(docA, docB, docC, as_, bs, Child(docA, a, hop), Child(docB, b, hop), Child(docC, c, hop), n - 1);
      RunsFurther(ab, Pair(a, b), hop, n);
    } else {
      RunsNowhere(Documents(docA, docB), Pair(a, b));
    }
  }

  lemma RunsOn(docs: Documents, p: Pair, n: nat) returns (hop: Hop)
    requires n > 0 && Runs(docs, p, n)
    ensures Shared(p, hop) && Runs(docs, Pair(Child(docs.base, p.base, hop), Child(docs.head, p.head, hop)), n - 1)
  {
    hide Child, Shared;
    hop :| Shared(p, hop) && Runs(docs, Next(docs, p, hop), n - 1);
  }

  lemma RunsFurther(docs: Documents, p: Pair, hop: Hop, n: nat)
    requires n > 0 && Shared(p, hop)
    requires Runs(docs, Pair(Child(docs.base, p.base, hop), Child(docs.head, p.head, hop)), n - 1)
    ensures Runs(docs, p, n)
  {
    hide Child, Shared;
    assert Runs(docs, Next(docs, p, hop), n - 1);
  }

  lemma RunsNowhere(docs: Documents, p: Pair)
    ensures Runs(docs, p, 0)
  {
  }

  /** Behind a hop the outer two share, both comparisons are silent again. */
  lemma SilenceBehind(docA: Object, docB: Object, docC: Object, as_: iset<Object>, bs: iset<Object>,
      a: Object, b: Object, c: Object, hop: Hop)
    requires WellFormedSchemas(docA, as_) && WellFormedSchemas(docB, bs) && a in as_ && b in bs
    requires Returns(Documents(docA, docB), Pair(a, b)) && Returns(Documents(docB, docC), Pair(b, c))
    requires Silent(Documents(docA, docB), Pair(a, b)) && Silent(Documents(docB, docC), Pair(b, c))
    requires Shared(Pair(a, c), hop)
    ensures Shared(Pair(a, b), hop) && Shared(Pair(b, c), hop)
    ensures Child(docA, a, hop) in as_ && Child(docB, b, hop) in bs
    ensures Returns(Documents(docA, docB), Pair(Child(docA, a, hop), Child(docB, b, hop)))
    ensures Returns(Documents(docB, docC), Pair(Child(docB, b, hop), Child(docC, c, hop)))
    ensures Silent(Documents(docA, docB), Pair(Child(docA, a, hop), Child(docB, b, hop)))
    ensures Silent(Documents(docB, docC), Pair(Child(docB, b, hop), Child(docC, c, hop)))
  {
    hide *;
    var ab, bc := Documents(docA, docB), Documents(docB, docC);
    StaysInside(docA, as_, a, hop);
    StaysInside(docB, bs, b, hop);
    SilentIff(ab, Pair(a, b));
    SilentIff(bc, Pair(b, c));
    HopSurvives(a, b, c, hop);
    BothHave(a, b, c, hop);
    SilentChild(ab, Pair(a, b), hop);
    SilentChild(bc, Pair(b, c), hop);
  }

  lemma SilentChild(docs: Documents, p: Pair, hop: Hop)
    requires Returns(docs, p) && ChildrenSilent(docs, p) && Shared(p, hop)
    ensures var next := Pair(Child(docs.base, p.base, hop), Child(docs.head, p.head, hop));
            Returns(docs, next) && Silent(docs, next)
  {
    hide Child, Shared, Silent, Returns, Depth;
    assert ChildSilent(docs, p, hop);
    DepthFalls(docs, p, hop);
  }

  lemma StaysInside(doc: Object, schemas: iset<Object>, s: Object, hop: Hop)
    requires WellFormedSchemas(doc, schemas) && s in schemas
    ensures WellFormed(s) && (Has(s, hop) ==> Child(doc, s, hop) in schemas)
  {
    hide Child, Has, WellFormed;
  }

  lemma BothHave(a: Object, b: Object, c: Object, hop: Hop)
    requires Shared(Pair(a, b), hop) && Shared(Pair(b, c), hop)
    ensures Has(a, hop) && Has(b, hop) && Has(c, hop)
  {
  }

  /** Compatibility is transitive, through nested properties, items, enumerations, combinators
      and additional properties and through the references of three documents. That the third
      comparison returns is part of the conclusion. */
  lemma Transitive(docA: Object, docB: Object, docC: Object, as_: iset<Object>, bs: iset<Object>,
      a: Object, b: Object, c: Object)
    requires WellFormedSchemas(docA, as_) && WellFormedSchemas(docB, bs) && a in as_ && b in bs
    requires Returns(Documents(docA, docB), Pair(a, b)) && Returns(Documents(docB, docC), Pair(b, c))
    requires Silent(Documents(docA, docB), Pair(a, b)) && Silent(Documents(docB, docC), Pair(b, c))
    ensures Returns(Documents(docA, docC), Pair(a, c)) && Silent(Documents(docA, docC), Pair(a, c))
  {
    hide *;
    var ab, ac := Documents(docA, docB), Documents(docA, docC);
    ReturnsExactly(ab, Pair(a, b));
    var n: nat :| !Runs(ab, Pair(a, b), n);
    if Runs(ac, Pair(a, c), n) { SilenceLeadsRuns(docA, docB, docC, as_, bs, a, b, c, n); }
    assert !Runs(ac, Pair(a, c), n);
    ReturnsExactly(ac, Pair(a, c));
    SilenceComposes(docA, docB, docC, as_, bs, a, b, c);
  }

  lemma {:induction false} SilenceComposes(docA: Object, docB: Object, docC: Object,
      as_: iset<Object>, bs: iset<Object>, a: Object, b: Object, c: Object)
    requires WellFormedSchemas(docA, as_) && WellFormedSchemas(docB, bs) && a in as_ && b in bs
    requires Returns(Documents(docA, docB), Pair(a, b)) && Returns(Documents(docB, docC), Pair(b, c))
    requires Returns(Documents(docA, docC), Pair(a, c))
    requires Silent(Documents(docA, docB), Pair(a, b)) && Silent(Documents(docB, docC), Pair(b, c))
    ensures Silent(Documents(docA, docC), Pair(a, c))
    decreases Depth(Documents(docA, docC), Pair(a, c))
  {
    hide *;
    var ab, bc, ac := Documents(docA, docB), Documents(docB, docC), Documents(docA, docC);
    SilentIff(ab, Pair(a, b));
    SilentIff(bc, Pair(b, c));
    SilentIff(ac, Pair(a, c));
    StaysInside(docA, as_, a, Element);
    HereIsTransitive(a, b, c);
    forall hop | Shared(Pair(a, c), hop) ensures ChildSilent(ac, Pair(a, c), hop) {
      SilenceBehind(docA, docB, docC, as_, bs, a, b, c, hop);
      NextReturns(ac, Pair(a, c), hop);
      SilenceComposes(docA, docB, docC, as_, bs, Child(docA, a, hop), Child(docB, b, hop), Child(docC, c, hop));
      ChildIsSilent(ac, Pair(a, c), hop);
    }
    AllChildrenSilent(ac, Pair(a, c));
  }

  lemma NextReturns(docs: Documents, p: Pair, hop: Hop)
    requires Returns(docs, p) && Shared(p, hop)
    ensures var next := Pair(Child(docs.base, p.base, hop), Child(docs.head, p.head, hop));
            Returns(docs, next) && Depth(docs, next) < Depth(docs, p)
  {
    hide Child, Shared, Returns, Depth;
    DepthFalls(docs, p, hop);
  }

  lemma ChildIsSilent(docs: Documents, p: Pair, hop: Hop)
    requires Returns(docs, p) && Shared(p, hop)
    requires var next := Pair(Child(docs.base, p.base, hop), Child(docs.head, p.head, hop));
             Returns(docs, next) && Silent(docs, next)
    ensures ChildSilent(docs, p, hop)
  {
    hide Child, Shared, Silent, Returns, Depth;
  }

  lemma AllChildrenSilent(docs: Documents, p: Pair)
    requires Returns(docs, p) && forall hop :: Shared(p, hop) ==> ChildSilent(docs, p, hop)
    ensures ChildrenSilent(docs, p)
  {
    hide ChildSilent, Shared, Returns;
  }

  // ---- What silence means for values -----------------------------------------------------

  /** Which values have a named type. */
  type Typing = (string, Json) -> bool

  ghost predicate HasSomeType(typing: Typing, names: seq<string>, v: Json) {
    exists i :: 0 <= i < |names| && typing(names[i], v)
  }

  /** Validity of a value under a resolved schema, for the keywords type, enum, required,
      properties and items. */
  ghost predicate Valid(typing: Typing, doc: Object, s: Object, v: Json)
    decreases v
  {
    && (Lookup(s, "type") != JNull ==> HasSomeType(typing, StringList(Lookup(s, "type")), v))
    && (Lookup(s, "enum") != JNull ==> v in Elements(Lookup(s, "enum")))
    && (v.JObject? ==>
          && (forall f :: f in RequiredSet(s) ==> f in v.fields)
          && (forall n :: n in v.fields && n in ObjectAt(s, "properties") ==>
                Valid(typing, doc, Child(doc, s, Property(n)), v.fields[n])))
    && (v.JArray? && Lookup(s, "items").JObject? ==>
          forall i :: 0 <= i < |v.items| ==> Valid(typing, doc, Child(doc, s, Element), v.items[i]))
  }

  /** The value holds no property that the schema does not declare, at any level. */
  ghost predicate Declared(doc: Object, s: Object, v: Json)
    decreases v
  {
    && (v.JObject? ==> forall n :: n in v.fields ==>
          n in ObjectAt(s, "properties") && Declared(doc, Child(doc, s, Property(n)), v.fields[n]))
    && (v.JArray? && Lookup(s, "items").JObject? ==>
          forall i :: 0 <= i < |v.items| ==> Declared(doc, Child(doc, s, Element), v.items[i]))
  }

  /** A `type` that names types: one name or a non-empty list of names, none of them empty and
      none holding the separator of the normal form. */
  ghost predicate NamesTypes(v: Json) {
    v == JNull ||
    (StringList(v) != [] && forall i :: 0 <= i < |StringList(v)| ==> StringList(v)[i] != "" && '|' !in StringList(v)[i])
  }

  /** The fragment validity speaks of: a resolved schema is not itself a reference, its
      properties are schemas, and its type names types. */
  ghost predicate InFragment(s: Object) {
    && "$ref" !in s && NamesTypes(Lookup(s, "type"))
    && forall n :: n in ObjectAt(s, "properties") ==> ObjectAt(s, "properties")[n].JObject?
  }

  ghost predicate FragmentSchemas(doc: Object, schemas: iset<Object>) {
    Closed(doc, schemas) && forall s :: s in schemas ==> InFragment(s)
  }

  /** Nowhere below this pair does the head enumerate values where the baseline did not. */
  ghost predicate NoNewEnum(docs: Documents, p: Pair)
    requires Returns(docs, p)
    decreases Depth(docs, p)
  {
    && (Lookup(p.head, "enum") != JNull ==> Lookup(p.base, "enum") != JNull)
    && forall hop :: Shared(p, hop) ==> (DepthFalls(docs, p, hop); NoNewEnum(docs, Next(docs, p, hop)))
  }

  /** Types with one normal form accept the same values. */
  lemma SameNormalFormSameType(typing: Typing, b: Json, h: Json, v: Json)
    requires NamesTypes(b) && NamesTypes(h) && NormalizeType(b) == NormalizeType(h)
    ensures (b == JNull <==> h == JNull) &&
            (HasSomeType(typing, StringList(b), v) ==> HasSomeType(typing, StringList(h), v))
  {
    var x, y := StringList(b), StringList(h);
    JoinOfNames(x);
    JoinOfNames(y);
    if x != [] && y != [] { JoinInjective(x, y, '|'); }
  }

  lemma JoinOfNames(names: seq<string>)
    requires forall i :: 0 <= i < |names| ==> names[i] != ""
    ensures Join(names, '|') == "" <==> names == []
  {
  }

  /** Where the head enumerates values and the baseline did not, what the value holds there is
      listed: at every property and item the comparison gets to, through the references of both
      documents. */
  ghost predicate Admits(docs: Documents, p: Pair, v: Json)
    decreases v
  {
    && (Lookup(p.head, "enum") != JNull && Lookup(p.base, "enum") == JNull ==> v in Elements(Lookup(p.head, "enum")))
    && (v.JObject? ==> forall n :: n in v.fields && Shared(p, Property(n)) ==>
          Admits(docs, Next(docs, p, Property(n)), v.fields[n]))
    && (v.JArray? && Shared(p, Element) ==> forall i :: 0 <= i < |v.items| ==>
          Admits(docs, Next(docs, p, Element), v.items[i]))
  }

  /** After a silent comparison a value the baseline declares and accepts is accepted by the head
      exactly when the enumerations the head introduces, wherever they are, admit it. */
  lemma {:induction false} SilenceAdmitsExactly(typing: Typing, docs: Documents, bs: iset<Object>, hs: iset<Object>,
      p: Pair, v: Json)
    requires FragmentSchemas(docs.base, bs) && FragmentSchemas(docs.head, hs) && p.base in bs && p.head in hs
    requires Returns(docs, p) && Silent(docs, p)
    requires Valid(typing, docs.base, p.base, v) && Declared(docs.base, p.base, v)
    ensures Valid(typing, docs.head, p.head, v) <==> Admits(docs, p, v)
    decreases v
  {
    hide Silent, ResolveSchema, Returns, RawChild;
    SilentIff(docs, p);
    assert InFragment(p.base) && InFragment(p.head);
    SameNormalFormSameType(typing, Lookup(p.base, "type"), Lookup(p.head, "type"), v);
    hide NormalizeType, StringList, RequiredSet, Elements, Child;
    if v.JObject? {
      forall n | n in v.fields && n in ObjectAt(p.head, "properties")
        ensures Shared(p, Property(n))
        ensures Valid(typing, docs.head, Child(docs.head, p.head, Property(n)), v.fields[n]) <==>
                Admits(docs, Next(docs, p, Property(n)), v.fields[n])
      {
        assert Shared(p, Property(n)) && ChildSilent(docs, p, Property(n));
        DepthFalls(docs, p, Property(n));
        SilenceAdmitsExactly(typing, docs, bs, hs, Next(docs, p, Property(n)), v.fields[n]);
      }
    }
    if v.JArray? && Lookup(p.head, "items").JObject? {
      assert Shared(p, Element) && ChildSilent(docs, p, Element);
      DepthFalls(docs, p, Element);
      forall i | 0 <= i < |v.items|
        ensures Valid(typing, docs.head, Child(docs.head, p.head, Element), v.items[i]) <==>
                Admits(docs, Next(docs, p, Element), v.items[i])
      {
        SilenceAdmitsExactly(typing, docs, bs, hs, Next(docs, p, Element), v.items[i]);
      }
    }
  }

  /** Where no enumeration is introduced every value is admitted. */
  lemma {:induction false} NoNewEnumAdmits(docs: Documents, p: Pair, v: Json)
    requires Returns(docs, p) && NoNewEnum(docs, p)
    ensures Admits(docs, p, v)
    decreases v
  {
    hide Returns, Shared, Next, Elements;
    forall hop | Shared(p, hop) ensures Returns(docs, Next(docs, p, hop)) && NoNewEnum(docs, Next(docs, p, hop)) {
      DepthFalls(docs, p, hop);
    }
    assert Lookup(p.head, "enum") != JNull ==> Lookup(p.base, "enum") != JNull;
    hide NoNewEnum;
    if v.JObject? {
      forall n | n in v.fields && Shared(p, Property(n)) ensures Admits(docs, Next(docs, p, Property(n)), v.fields[n]) {
        NoNewEnumAdmits(docs, Next(docs, p, Property(n)), v.fields[n]);
      }
    }
    if v.JArray? && Shared(p, Element) {
      forall i | 0 <= i < |v.items| ensures Admits(docs, Next(docs, p, Element), v.items[i]) {
        NoNewEnumAdmits(docs, Next(docs, p, Element), v.items[i]);
      }
    }
  }

  /** A silent comparison keeps every value the baseline declares: what was valid is valid. */
  lemma SilenceKeepsValues(typing: Typing, docs: Documents, bs: iset<Object>, hs: iset<Object>, p: Pair, v: Json)
    requires FragmentSchemas(docs.base, bs) && FragmentSchemas(docs.head, hs) && p.base in bs && p.head in hs
    requires Returns(docs, p) && Silent(docs, p) && NoNewEnum(docs, p)
    requires Valid(typing, docs.base, p.base, v) && Declared(docs.base, p.base, v)
    ensures Valid(typing, docs.head, p.head, v)
  {
    hide *;
    SilenceAdmitsExactly(typing, docs, bs, hs, p, v);
    NoNewEnumAdmits(docs, p, v);
  }

  // ---- Introduced enumerations -----------------------------------------------------------

  /** `g` is `h` with, perhaps, an enumeration where `h` had none, and with other definitions
      under its properties and items. */
  ghost predicate OnlyEnums(h: Object, g: Object) {
    && (forall key :: key !in {"enum", "properties", "items"} ==> Lookup(g, key) == Lookup(h, key))
    && (Lookup(h, "enum") == JNull || Lookup(g, "enum") == Lookup(h, "enum"))
    && ObjectAt(g, "properties").Keys == ObjectAt(h, "properties").Keys
    && (forall hop :: Has(g, hop) <==> Has(h, hop))
    && (Lookup(h, "items").JObject? || Lookup(g, "items") == Lookup(h, "items"))
  }

  /** `twins` pairs the schemas of a document with those of another that introduces enumerations
      and does nothing else: with each pair it holds what the pair's properties and items resolve
      to, each in its own document. */
  ghost predicate Twins(heads: Documents, twins: iset<Pair>) {
    forall q :: q in twins ==>
      OnlyEnums(q.base, q.head) && forall hop :: Has(q.base, hop) ==> Next(heads, q, hop) in twins
  }

  lemma TwinsHere(heads: Documents, twins: iset<Pair>, q: Pair, hop: Hop)
    requires Twins(heads, twins) && q in twins
    ensures OnlyEnums(q.base, q.head) && (Has(q.head, hop) <==> Has(q.base, hop))
    ensures Has(q.base, hop) ==>
              Pair(Child(heads.base, q.base, hop), Child(heads.head, q.head, hop)) in twins
  {
    hide Child, Has;
    if Has(q.base, hop) { assert Next(heads, q, hop) in twins; }
  }

  lemma SharedWithTwin(base: Object, q: Pair, hop: Hop)
    requires Has(q.head, hop) <==> Has(q.base, hop)
    ensures Shared(Pair(base, q.head), hop) <==> Shared(Pair(base, q.base), hop)
    ensures Shared(Pair(base, q.base), hop) ==> Has(q.base, hop)
  {
    hide Has;
  }

  lemma TwinIsSilentHere(base: Object, h: Object, g: Object)
    requires OnlyEnums(h, g) && SilentHere(base, h)
    ensures SilentHere(base, g)
  {
    hide NormalizeType;
  }

  /** The twin is compared no deeper. */
  lemma {:induction false} TwinRunsNoDeeper(baseDoc: Object, heads: Documents, twins: iset<Pair>, base: Object, q: Pair,
      n: nat)
    requires Twins(heads, twins) && q in twins && Runs(Documents(baseDoc, heads.head), Pair(base, q.head), n)
    ensures Runs(Documents(baseDoc, heads.base), Pair(base, q.base), n)
    decreases n
  {
    hide *;
    var was, now := Documents(baseDoc, heads.base), Documents(baseDoc, heads.head);
    if n == 0 {
      RunsNowhere(was, Pair(base, q.base));
    } else {
      var hop := RunsOn(now, Pair(base, q.head), n);
      TwinsHere(heads, twins, q, hop);
      SharedWithTwin(base, q, hop);
      var next := Pair(Child(heads.base, q.base, hop), Child(heads.head, q.head, hop));
      TwinRunsNoDeeper(baseDoc, heads, twins, Child(baseDoc, base, hop), next, n - 1);
      RunsFurther(was, Pair(base, q.base), hop, n);
    }
  }

  lemma TwinReturns(baseDoc: Object, heads: Documents, twins: iset<Pair>, base: Object, q: Pair)
    requires Twins(heads, twins) && q in twins && Returns(Documents(baseDoc, heads.base), Pair(base, q.base))
    ensures Returns(Documents(baseDoc, heads.head), Pair(base, q.head))
  {
    hide *;
    ReturnsExactly(Documents(baseDoc, heads.base), Pair(base, q.base));
    var n: nat :| !Runs(Documents(baseDoc, heads.base), Pair(base, q.base), n);
    if Runs(Documents(baseDoc, heads.head), Pair(base, q.head), n) {
      TwinRunsNoDeeper(baseDoc, heads, twins, base, q, n);
    }
    assert !Runs(Documents(baseDoc, heads.head), Pair(base, q.head), n);
    ReturnsExactly(Documents(baseDoc, heads.head), Pair(base, q.head));
  }

  lemma {:induction false} TwinIsSilent(baseDoc: Object, heads: Documents, twins: iset<Pair>, base: Object, q: Pair)
    requires Twins(heads, twins) && q in twins
    requires Returns(Documents(baseDoc, heads.base), Pair(base, q.base))
    requires Returns(Documents(baseDoc, heads.head), Pair(base, q.head))
    requires Silent(Documents(baseDoc, heads.base), Pair(base, q.base))
    ensures Silent(Documents(baseDoc, heads.head), Pair(base, q.head))
    decreases Depth(Documents(baseDoc, heads.base), Pair(base, q.base))
  {
    hide *;
    var was, now := Documents(baseDoc, heads.base), Documents(baseDoc, heads.head);
    var before, after := Pair(base, q.base), Pair(base, q.head);
    SilentIff(was, before);
    SilentIff(now, after);
    TwinsHere(heads, twins, q, Element);
    TwinIsSilentHere(base, q.base, q.head);
    forall hop | Shared(after, hop) ensures ChildSilent(now, after, hop) {
      TwinsHere(heads, twins, q, hop);
      SharedWithTwin(base, q, hop);
      SilentChild(was, before, hop);
      NextReturns(was, before, hop);
      NextReturns(now, after, hop);
      var next := Pair(Child(heads.base, q.base, hop), Child(heads.head, q.head, hop));
      TwinIsSilent(baseDoc, heads, twins, Child(baseDoc, base, hop), next);
      ChildIsSilent(now, after, hop);
    }
    AllChildrenSilent(now, after);
  }

  lemma NoSchemaAccepts(typing: Typing, doc: Object, s: Object, n: string, v: Json)
    requires !Has(s, Property(n))
    ensures Valid(typing, doc, Child(doc, s, Property(n)), v)
  {
    assert RawChild(s, Property(n)) == map[];
  }

  /** What a twin keeps of its schema, in the words of validity. */
  lemma TwinKeeps(q: Pair)
    requires OnlyEnums(q.base, q.head)
    ensures RequiredSet(q.head) == RequiredSet(q.base) && Lookup(q.head, "type") == Lookup(q.base, "type")
    ensures forall n :: n in ObjectAt(q.head, "properties") <==> n in ObjectAt(q.base, "properties")
    ensures Lookup(q.base, "enum") == JNull || Lookup(q.head, "enum") == Lookup(q.base, "enum")
    ensures forall n :: Shared(q, Property(n)) ==> n in ObjectAt(q.base, "properties")
    ensures Shared(q, Element) <==> Lookup(q.base, "items").JObject?
    ensures Shared(q, Element) <==> Lookup(q.head, "items").JObject?
  {
    hide Elements, ObjectAt, Has;
    ItemsAreShared(q);
    forall n | Shared(q, Property(n)) ensures n in ObjectAt(q.base, "properties") { HasIsDefined(q.base, n); }
    assert forall n :: n in ObjectAt(q.head, "properties").Keys <==> n in ObjectAt(q.base, "properties").Keys;
  }

  lemma ObjectTwin(typing: Typing, heads: Documents, q: Pair, v: Json)
    requires OnlyEnums(q.base, q.head) && v.JObject?
    requires forall n :: n in v.fields && n in ObjectAt(q.base, "properties") ==>
               (Valid(typing, heads.head, Child(heads.head, q.head, Property(n)), v.fields[n]) <==>
                Valid(typing, heads.base, Child(heads.base, q.base, Property(n)), v.fields[n]) &&
                (Shared(q, Property(n)) ==> Admits(heads, Next(heads, q, Property(n)), v.fields[n])))
    ensures Valid(typing, heads.head, q.head, v) <==> Valid(typing, heads.base, q.base, v) && Admits(heads, q, v)
  {
    TwinKeeps(q);
    hide OnlyEnums, ObjectAt, HasSomeType, StringList, RequiredSet, Elements, Child, Has, Shared;
  }

  lemma ArrayTwin(typing: Typing, heads: Documents, q: Pair, v: Json)
    requires OnlyEnums(q.base, q.head) && v.JArray?
    requires Shared(q, Element) ==> forall i :: 0 <= i < |v.items| ==>
               (Valid(typing, heads.head, Child(heads.head, q.head, Element), v.items[i]) <==>
                Valid(typing, heads.base, Child(heads.base, q.base, Element), v.items[i]) &&
                Admits(heads, Next(heads, q, Element), v.items[i]))
    ensures Valid(typing, heads.head, q.head, v) <==> Valid(typing, heads.base, q.base, v) && Admits(heads, q, v)
  {
    TwinKeeps(q);
    hide OnlyEnums, ObjectAt, HasSomeType, StringList, RequiredSet, Elements, Child, Has, Shared;
  }

  lemma ScalarTwin(typing: Typing, heads: Documents, q: Pair, v: Json)
    requires OnlyEnums(q.base, q.head) && !v.JObject? && !v.JArray?
    ensures Valid(typing, heads.head, q.head, v) <==> Valid(typing, heads.base, q.base, v) && Admits(heads, q, v)
  {
    TwinKeeps(q);
    hide OnlyEnums, ObjectAt, HasSomeType, StringList, RequiredSet, Elements, Child, Has, Shared;
  }

  /** The twin accepts what the schema accepted and what its new enumerations list besides. */
  lemma {:induction false} TwinAccepts(typing: Typing, heads: Documents, twins: iset<Pair>, q: Pair, v: Json)
    requires Twins(heads, twins) && q in twins
    ensures Valid(typing, heads.head, q.head, v) <==> Valid(typing, heads.base, q.base, v) && Admits(heads, q, v)
    decreases v
  {
    hide Valid, Admits, Twins, OnlyEnums, Child, Has, ObjectAt;
    TwinsHere(heads, twins, q, Element);
    if v.JObject? {
      forall n | n in v.fields && n in ObjectAt(q.base, "properties")
        ensures Valid(typing, heads.head, Child(heads.head, q.head, Property(n)), v.fields[n]) <==>
                Valid(typing, heads.base, Child(heads.base, q.base, Property(n)), v.fields[n]) &&
                (Shared(q, Property(n)) ==> Admits(heads, Next(heads, q, Property(n)), v.fields[n]))
      {
        TwinsHere(heads, twins, q, Property(n));
        if Has(q.base, Property(n)) {
          TwinAccepts(typing, heads, twins, Next(heads, q, Property(n)), v.fields[n]);
        } else {
          NoSchemaAccepts(typing, heads.base, q.base, n, v.fields[n]);
          NoSchemaAccepts(typing, heads.head, q.head, n, v.fields[n]);
        }
      }
      ObjectTwin(typing, heads, q, v);
    } else if v.JArray? {
      if Shared(q, Element) {
        forall i | 0 <= i < |v.items|
          ensures Valid(typing, heads.head, Child(heads.head, q.head, Element), v.items[i]) <==>
                  Valid(typing, heads.base, Child(heads.base, q.base, Element), v.items[i]) &&
                  Admits(heads, Next(heads, q, Element), v.items[i])
        {
          TwinAccepts(typing, heads, twins, Next(heads, q, Element), v.items[i]);
        }
      }
      ArrayTwin(typing, heads, q, v);
    } else {
      ScalarTwin(typing, heads, q, v);
    }
  }

  lemma HasIsDefined(s: Object, n: string)
    requires Has(s, Property(n))
    ensures n in ObjectAt(s, "properties")
  {
  }

  lemma ItemsAreShared(q: Pair)
    requires OnlyEnums(q.base, q.head)
    ensures Shared(q, Element) <==> Lookup(q.base, "items").JObject?
    ensures Shared(q, Element) <==> Lookup(q.head, "items").JObject?
  {
    assert Has(q.head, Element) <==> Has(q.base, Element);
  }

  /** Enumerations introduced anywhere in the head, behind references too, go unseen: what was
      silent stays silent. And exactly the values that hold nothing unlisted stay valid. */
  lemma IntroducedEnumsAreNotFound(typing: Typing, baseDoc: Object, heads: Documents, twins: iset<Pair>, base: Object,
      q: Pair)
    requires Twins(heads, twins) && q in twins
    requires Returns(Documents(baseDoc, heads.base), Pair(base, q.base))
    requires Silent(Documents(baseDoc, heads.base), Pair(base, q.base))
    ensures Returns(Documents(baseDoc, heads.head), Pair(base, q.head))
    ensures Silent(Documents(baseDoc, heads.head), Pair(base, q.head))
    ensures forall v :: Valid(typing, heads.head, q.head, v) <==>
                        Valid(typing, heads.base, q.base, v) && Admits(heads, q, v)
  {
    hide *;
    TwinReturns(baseDoc, heads, twins, base, q);
    TwinIsSilent(baseDoc, heads, twins, base, q);
    forall v ensures Valid(typing, heads.head, q.head, v) <==>
                     Valid(typing, heads.base, q.base, v) && Admits(heads, q, v)
    {
      TwinAccepts(typing, heads, twins, q, v);
    }
  }

  // ---- An enumeration at the end of a path -----------------------------------------------

  /** The path leads from schema to schema without following a reference, to one that enumerates
      nothing. */
  ghost predicate Inline(s: Object, path: seq<Hop>)
    decreases |path|
  {
    if path == [] then Lookup(s, "enum") == JNull
    else Has(s, path[0]) && "$ref" !in RawChild(s, path[0]) && Inline(RawChild(s, path[0]), path[1..])
  }

  /** The schema with an enumeration introduced at the end of the path. */
  ghost function Plant(s: Object, path: seq<Hop>, values: seq<Json>): Object
    requires Inline(s, path)
    decreases |path|
  {
    if path == [] then s["enum" := JArray(values)] else
      var child := JObject(Plant(RawChild(s, path[0]), path[1..], values));
      match path[0]
      case Property(n) => s["properties" := JObject(ObjectAt(s, "properties")[n := child])]
      case Element => s["items" := child]
  }

  /** Everything a value holds at the end of the path is listed. */
  ghost predicate AllListed(v: Json, path: seq<Hop>, values: seq<Json>)
    decreases |path|
  {
    if path == [] then v in values else
      match path[0]
      case Property(n) => v.JObject? && n in v.fields ==> AllListed(v.fields[n], path[1..], values)
      case Element => v.JArray? ==> forall i :: 0 <= i < |v.items| ==> AllListed(v.items[i], path[1..], values)
  }

  lemma PlantRefersNowhere(s: Object, path: seq<Hop>, values: seq<Json>)
    requires Inline(s, path) && "$ref" !in s
    ensures "$ref" !in Plant(s, path, values)
  {
    hide RawChild;
  }

  /** Planting changes one child, into its planted form. */
  lemma PlantedChild(doc: Object, s: Object, path: seq<Hop>, values: seq<Json>, hop: Hop)
    requires path != [] && Inline(s, path)
    ensures Has(Plant(s, path, values), hop) <==> Has(s, hop)
    ensures Inline(RawChild(s, path[0]), path[1..])
    ensures Child(doc, s, path[0]) == RawChild(s, path[0])
    ensures Child(doc, Plant(s, path, values), hop) ==
            if hop == path[0] then Plant(RawChild(s, hop), path[1..], values) else Child(doc, s, hop)
  {
    var planted := Plant(s, path, values);
    assert RawChild(planted, hop) ==
           if hop == path[0] then Plant(RawChild(s, hop), path[1..], values) else RawChild(s, hop);
    PlantRefersNowhere(RawChild(s, path[0]), path[1..], values);
  }

  lemma PlantedLeaf(doc: Object, s: Object, values: seq<Json>, hop: Hop)
    requires Inline(s, [])
    ensures Has(Plant(s, [], values), hop) <==> Has(s, hop)
    ensures Child(doc, Plant(s, [], values), hop) == Child(doc, s, hop)
  {
    assert RawChild(Plant(s, [], values), hop) == RawChild(s, hop);
  }

  /** Planting leaves the other keywords as they are, and the names of the properties. */
  lemma PlantKeeps(s: Object, path: seq<Hop>, values: seq<Json>, key: string)
    requires Inline(s, path) && key != "properties" && key != "items"
    ensures key != "enum" ==> Lookup(Plant(s, path, values), key) == Lookup(s, key)
    ensures path != [] ==> Lookup(Plant(s, path, values), "enum") == Lookup(s, "enum")
    ensures path == [] ==> Lookup(Plant(s, path, values), "enum") == JArray(values)
    ensures ObjectAt(Plant(s, path, values), "properties").Keys == ObjectAt(s, "properties").Keys
    ensures path == [] || path[0] != Element ==> Lookup(Plant(s, path, values), "items") == Lookup(s, "items")
    ensures path != [] && path[0] == Element ==>
            Lookup(s, "items").JObject? && Lookup(Plant(s, path, values), "items").JObject?
  {
  }

  lemma LeafHasNoEnum(s: Object, path: seq<Hop>)
    requires Inline(s, path)
    ensures path == [] ==> Lookup(s, "enum") == JNull
  {
  }

  /** A schema and itself, and a schema and its planted form. */
  ghost predicate SameOrPlanted(q: Pair, values: seq<Json>) {
    q.base == q.head || exists path :: Inline(q.base, path) && q.head == Plant(q.base, path, values)
  }

  lemma PlantIsOnlyEnums(s: Object, path: seq<Hop>, values: seq<Json>)
    requires Inline(s, path)
    ensures OnlyEnums(s, Plant(s, path, values))
  {
    var planted := Plant(s, path, values);
    LeafHasNoEnum(s, path);
    hide Plant, Inline, Has;
    forall key | key !in {"enum", "properties", "items"} ensures Lookup(planted, key) == Lookup(s, key) {
      PlantKeeps(s, path, values, key);
    }
    PlantKeeps(s, path, values, "type");
    forall hop ensures Has(planted, hop) <==> Has(s, hop) {
      if path == [] { PlantedLeaf(map[], s, values, hop); } else { PlantedChild(map[], s, path, values, hop); }
    }
  }

  lemma PlantedNext(doc: Object, q: Pair, values: seq<Json>, hop: Hop)
    requires SameOrPlanted(q, values) && Has(q.base, hop)
    ensures SameOrPlanted(Next(Documents(doc, doc), q, hop), values)
  {
    hide Plant, Inline, Child, Has;
    if q.base != q.head {
      var path :| Inline(q.base, path) && q.head == Plant(q.base, path, values);
      if path == [] { PlantedLeaf(doc, q.base, values, hop); } else { PlantedChild(doc, q.base, path, values, hop); }
    }
  }

  lemma PlantedAreTwins(doc: Object, values: seq<Json>)
    ensures Twins(Documents(doc, doc), iset q: Pair | SameOrPlanted(q, values))
  {
    hide Plant, Inline, OnlyEnums, Next, Has;
    forall q: Pair | SameOrPlanted(q, values)
      ensures OnlyEnums(q.base, q.head)
      ensures forall hop :: Has(q.base, hop) ==> SameOrPlanted(Next(Documents(doc, doc), q, hop), values)
    {
      if q.base == q.head {
        SameIsOnlyEnums(q.base);
      } else {
        var path :| Inline(q.base, path) && q.head == Plant(q.base, path, values);
        PlantIsOnlyEnums(q.base, path, values);
      }
      forall hop | Has(q.base, hop) ensures SameOrPlanted(Next(Documents(doc, doc), q, hop), values) {
        PlantedNext(doc, q, values, hop);
      }
    }
  }

  lemma SameIsOnlyEnums(s: Object)
    ensures OnlyEnums(s, s)
  {
  }

  lemma PlantKeepsRequired(s: Object, path: seq<Hop>, values: seq<Json>)
    requires Inline(s, path)
    ensures RequiredSet(Plant(s, path, values)) == RequiredSet(s)
  {
    hide Plant, Inline, Elements;
    PlantKeeps(s, path, values, "required");
  }

  lemma LeafAccepts(typing: Typing, doc: Object, s: Object, values: seq<Json>, v: Json)
    requires Inline(s, [])
    ensures Valid(typing, doc, Plant(s, [], values), v) <==> Valid(typing, doc, s, v) && v in values
  {
    hide Plant, Inline, Child, StringList, HasSomeType, RequiredSet, ObjectAt;
    PlantKeeps(s, [], values, "type");
    PlantKeepsRequired(s, [], values);
    LeafHasNoEnum(s, []);
    forall hop ensures Child(doc, Plant(s, [], values), hop) == Child(doc, s, hop) { PlantedLeaf(doc, s, values, hop); }
  }

  /** Behind one hop the planted schema accepts what the schema accepted and what is listed. */
  ghost predicate AcceptsBehind(typing: Typing, doc: Object, s: Object, path: seq<Hop>, values: seq<Json>)
    requires path != [] && Inline(s, path)
  {
    forall w :: Valid(typing, doc, Plant(RawChild(s, path[0]), path[1..], values), w) <==>
                Valid(typing, doc, RawChild(s, path[0]), w) && AllListed(w, path[1..], values)
  }

  lemma PropertyAccepts(typing: Typing, doc: Object, s: Object, path: seq<Hop>, values: seq<Json>, v: Json)
    requires path != [] && path[0].Property? && Inline(s, path) && AcceptsBehind(typing, doc, s, path, values)
    ensures Valid(typing, doc, Plant(s, path, values), v) <==> Valid(typing, doc, s, v) && AllListed(v, path, values)
  {
    hide Plant, Inline, Child, StringList, HasSomeType, RequiredSet, ObjectAt, Elements, RawChild;
    var planted, name := Plant(s, path, values), path[0].name;
    PlantKeepsRequired(s, path, values);
    PlantKeeps(s, path, values, "type");
    PathIsThere(s, path);
    PlantedChild(doc, s, path, values, Element);
    PlantedChild(doc, s, path, values, Property(name));
    forall n | n != name ensures Child(doc, planted, Property(n)) == Child(doc, s, Property(n)) {
      PlantedChild(doc, s, path, values, Property(n));
    }
  }

  lemma ElementAccepts(typing: Typing, doc: Object, s: Object, path: seq<Hop>, values: seq<Json>, v: Json)
    requires path != [] && path[0].Element? && Inline(s, path) && AcceptsBehind(typing, doc, s, path, values)
    ensures Valid(typing, doc, Plant(s, path, values), v) <==> Valid(typing, doc, s, v) && AllListed(v, path, values)
  {
    hide Plant, Inline, Child, StringList, HasSomeType, RequiredSet, ObjectAt, Elements, RawChild;
    var planted := Plant(s, path, values);
    PlantKeepsRequired(s, path, values);
    PlantKeeps(s, path, values, "type");
    PathIsThere(s, path);
    PlantedChild(doc, s, path, values, Element);
    forall n ensures Child(doc, planted, Property(n)) == Child(doc, s, Property(n)) {
      PlantedChild(doc, s, path, values, Property(n));
    }
  }

  /** The planted schema accepts what the schema accepted and what is listed besides. */
  lemma {:induction false} PlantAccepts(typing: Typing, doc: Object, s: Object, path: seq<Hop>, values: seq<Json>,
      v: Json)
    requires Inline(s, path)
    ensures Valid(typing, doc, Plant(s, path, values), v) <==> Valid(typing, doc, s, v) && AllListed(v, path, values)
    decreases |path|
  {
    hide Plant, Valid, AllListed, RawChild;
    if path == [] {
      LeafAccepts(typing, doc, s, values, v);
      assert AllListed(v, path, values) <==> v in values by { ListedAtLeaf(v, values); }
    } else {
      forall w ensures Valid(typing, doc, Plant(RawChild(s, path[0]), path[1..], values), w) <==>
                       Valid(typing, doc, RawChild(s, path[0]), w) && AllListed(w, path[1..], values)
      {
        PlantAccepts(typing, doc, RawChild(s, path[0]), path[1..], values, w);
      }
      if path[0].Property? {
        PropertyAccepts(typing, doc, s, path, values, v);
      } else {
        ElementAccepts(typing, doc, s, path, values, v);
      }
    }
  }

  lemma ListedAtLeaf(v: Json, values: seq<Json>)
    ensures AllListed(v, [], values) <==> v in values
  {
  }

  lemma PathIsThere(s: Object, path: seq<Hop>)
    requires path != [] && Inline(s, path)
    ensures path[0].Property? ==> path[0].name in ObjectAt(s, "properties")
    ensures path[0].Element? ==> Lookup(s, "items").JObject?
  {
  }

  lemma PlantedIsThere(s: Object, path: seq<Hop>, values: seq<Json>)
    requires Inline(s, path)
    ensures SameOrPlanted(Pair(s, Plant(s, path, values)), values)
  {
  }

  /** At any depth reached through properties and items that are defined in place, an enumeration
      introduced where there was none goes unseen, whatever it lists: a silent comparison stays
      silent, and exactly the values that hold something unlisted there stop being valid. */
  lemma IntroducedEnumIsNotFound(typing: Typing, docs: Documents, p: Pair, path: seq<Hop>, values: seq<Json>)
    requires Returns(docs, p) && Silent(docs, p) && Inline(p.head, path)
    ensures Returns(docs, Pair(p.base, Plant(p.head, path, values)))
    ensures Silent(docs, Pair(p.base, Plant(p.head, path, values)))
    ensures forall v :: Valid(typing, docs.head, Plant(p.head, path, values), v) <==>
                        Valid(typing, docs.head, p.head, v) && AllListed(v, path, values)
  {
    hide *;
    var twins := iset q: Pair | SameOrPlanted(q, values);
    var q := Pair(p.head, Plant(p.head, path, values));
    PlantedAreTwins(docs.head, values);
    assert q in twins by { PlantedIsThere(p.head, path, values); }
    IntroducedEnumsAreNotFound(typing, docs.base, Documents(docs.head, docs.head), twins, p.base, q);
    forall v ensures Valid(typing, docs.head, Plant(p.head, path, values), v) <==>
                     Valid(typing, docs.head, p.head, v) && AllListed(v, path, values)
    {
      PlantAccepts(typing, docs.head, p.head, path, values, v);
    }
  }

  /** Of the values the baseline declares and accepts, exactly those survive one more introduced
      enumeration that the others admit and that hold nothing unlisted at its place. */
  lemma IntroducedEnumBreaksExactly(typing: Typing, docs: Documents, bs: iset<Object>, hs: iset<Object>, p: Pair,
      path: seq<Hop>, values: seq<Json>, v: Json)
    requires FragmentSchemas(docs.base, bs) && FragmentSchemas(docs.head, hs) && p.base in bs && p.head in hs
    requires Returns(docs, p) && Silent(docs, p) && Inline(p.head, path)
    requires Valid(typing, docs.base, p.base, v) && Declared(docs.base, p.base, v)
    ensures Valid(typing, docs.head, Plant(p.head, path, values), v) <==>
            Admits(docs, p, v) && AllListed(v, path, values)
  {
    hide *;
    SilenceAdmitsExactly(typing, docs, bs, hs, p, v);
    PlantAccepts(typing, docs.head, p.head, path, values, v);
  }

  // ---- Components ------------------------------------------------------------------------

  /** The component `name` is an object on both sides. */
  predicate SharedComponent(base: Object, head: Object, name: string) {
    name in base && name in head && base[name].JObject? && head[name].JObject?
  }

  function Component(docs: Documents, base: Object, head: Object, name: string): Pair
    requires SharedComponent(base, head, name)
  {
    Pair(ResolveSchema(docs.base, base[name].fields), ResolveSchema(docs.head, head[name].fields))
  }

  ghost predicate ComponentsReturn(docs: Documents, base: Object, head: Object) {
    forall n :: SharedComponent(base, head, n) ==> Returns(docs, Component(docs, base, head, n))
  }

  ghost function DiffComponent(docs: Documents, base: Object, head: Object, name: string): set<Change>
    requires ComponentsReturn(docs, base, head)
  {
    if SharedComponent(base, head, name)
    then Diff(docs, "components.schemas." + name, Component(docs, base, head, name)) else {}
  }

  /** Component schemas by name: a removed one is a change, an added one is not. */
  ghost function DiffSchemas(docs: Documents, base: Object, head: Object): set<Change>
    requires ComponentsReturn(docs, base, head)
  {
    (set n | n in base && n !in head :: RemovedProperty("components.schemas", n)) +
    (set n, c | n in base && c in DiffComponent(docs, base, head, n) :: c)
  }

  lemma SilentSchemas(docs: Documents, base: Object, head: Object)
    requires ComponentsReturn(docs, base, head)
    ensures DiffSchemas(docs, base, head) == {} <==>
            && (forall n :: n in base ==> n in head)
            && (forall n :: SharedComponent(base, head, n) ==> Silent(docs, Component(docs, base, head, n)))
  {
    hide Diff, ResolveSchema, Returns, Component;
    var found := DiffSchemas(docs, base, head);
    forall n | SharedComponent(base, head, n)
      ensures DiffComponent(docs, base, head, n) == {} <==> Silent(docs, Component(docs, base, head, n))
      ensures found == {} ==> DiffComponent(docs, base, head, n) == {}
    {
      SilenceUnfolds(docs, "components.schemas." + n, Component(docs, base, head, n));
      SilenceUnfolds(docs, "", Component(docs, base, head, n));
      if c :| c in DiffComponent(docs, base, head, n) { assert c in found; }
    }
    if n :| n in base && n !in head { assert RemovedProperty("components.schemas", n) in found; }
  }

  /** What the comparison of two sets of components finds: the components that are gone, and what
      is found at the levels below those that both have. */
  lemma ComponentsExactly(docs: Documents, base: Object, head: Object, c: Change)
    requires ComponentsReturn(docs, base, head)
    ensures c in DiffSchemas(docs, base, head) <==>
            || (c.RemovedProperty? && c.where == "components.schemas" && c.name in base && c.name !in head)
            || exists n, hops :: SharedComponent(base, head, n) &&
                                 FoundAlong(docs, "components.schemas." + n, Component(docs, base, head, n), hops, c)
  {
    hide Diff, Component, Returns, FoundAlong;
    forall n | SharedComponent(base, head, n)
      ensures c in DiffComponent(docs, base, head, n) <==>
              exists hops :: FoundAlong(docs, "components.schemas." + n, Component(docs, base, head, n), hops, c)
    {
      DiffExactly(docs, "components.schemas." + n, Component(docs, base, head, n), c);
    }
    assert forall n :: c in DiffComponent(docs, base, head, n) ==> SharedComponent(base, head, n);
    hide DiffComponent;
    assert c in DiffSchemas(docs, base, head) <==>
           || (c.RemovedProperty? && c.where == "components.schemas" && c.name in base && c.name !in head)
           || exists n :: n in base && c in DiffComponent(docs, base, head, n);
  }

  // ---- Components of a document ----------------------------------------------------------

  /** The components the comparison of two documents looks at. */
  function ComponentSchemas(doc: Object): Object { ObjectAt(ObjectAt(doc, "components"), "schemas") }

  /** The document with one component defined anew. */
  function Redefine(doc: Object, name: string, s: Object): Object {
    var schemas := ComponentSchemas(doc)[name := JObject(s)];
    doc["components" := JObject(ObjectAt(doc, "components")["schemas" := JObject(schemas)])]
  }

  function Reference(name: string): string { REF_PREFIX + name }

  lemma ReferenceSplits(name: string)
    requires '/' !in name
    ensures |Reference(name)| > 2 && Reference(name)[..2] == "#/"
    ensures Split(Reference(name)[2..], '/') == ["components", "schemas", name]
  {
    hide Split;
    var inner := "schemas" + ['/'] + name;
    PrefixParts();
    assert Reference(name)[2..] == "components" + ['/'] + inner;
    SplitFirst("components", inner, '/');
    SplitFirst("schemas", name, '/');
    assert Split(name, '/') == [name] by { SplitNothing(name); }
  }

  lemma PrefixParts()
    ensures REF_PREFIX == "#/" + ("components" + ['/'] + ("schemas" + ['/']))
    ensures '/' !in "components" && '/' !in "schemas"
  {
  }

  lemma SplitNothing(name: string)
    requires '/' !in name
    ensures Split(name, '/') == [name]
  {
  }

  lemma WalkStep(current: Json, key: string, rest: seq<string>)
    ensures Walk(current, [key] + rest) ==
            if current.JObject? && key in current.fields then Walk(current.fields[key], rest) else None
  {
    assert ([key] + rest)[1..] == rest;
  }

  lemma WalkThree(doc: Object, name: string)
    ensures Walk(JObject(doc), ["components", "schemas", name]) ==
            if name in ComponentSchemas(doc) then Some(ComponentSchemas(doc)[name]) else None
  {
    hide Walk;
    assert ["components", "schemas", name] == ["components"] + (["schemas"] + ([name] + []));
    WalkStep(JObject(doc), "components", ["schemas"] + ([name] + []));
    if "components" in doc {
      WalkStep(doc["components"], "schemas", [name] + []);
      if doc["components"].JObject? && "schemas" in doc["components"].fields {
        WalkStep(doc["components"].fields["schemas"], name, []);
        NoStepsLeft();
      }
    }
  }

  lemma NoStepsLeft()
    ensures forall j :: Walk(j, []) == Some(j)
  {
  }

  /** A reference to a component is followed to it, when it is there and an object. */
  lemma ReferenceResolves(doc: Object, name: string)
    requires '/' !in name
    ensures ResolveRef(doc, Reference(name)) ==
            if name in ComponentSchemas(doc) && ComponentSchemas(doc)[name].JObject?
            then Some(ComponentSchemas(doc)[name].fields) else None
  {
    ReferenceSplits(name);
    WalkThree(doc, name);
    hide Walk, Split, Reference, ComponentSchemas;
  }

  lemma RedefinedSchemas(doc: Object, name: string, s: Object)
    ensures ComponentSchemas(Redefine(doc, name, s)) == ComponentSchemas(doc)[name := JObject(s)]
  {
  }

  /** A component with a property, or items, of its own type: the comparison of a document that
      has one with itself does not return. */
  lemma RecursiveComponentNeverReturns(doc: Object, name: string, s: Object, hop: Hop)
    requires '/' !in name && name in ComponentSchemas(doc) && ComponentSchemas(doc)[name] == JObject(s) && "$ref" !in s
    requires Has(s, hop) && Lookup(RawChild(s, hop), "$ref") == JString(Reference(name))
    ensures !ComponentsReturn(Documents(doc, doc), ComponentSchemas(doc), ComponentSchemas(doc))
  {
    ReferenceResolves(doc, name);
    assert ResolveSchema(doc, s) == s;
    assert Child(doc, s, hop) == s;
    hide ResolveRef, ComponentSchemas, Reference, Has, Returns;
    SelfReferenceNeverReturns(doc, s, hop);
    assert SharedComponent(ComponentSchemas(doc), ComponentSchemas(doc), name);
  }

  /** Such a document: its one component has a property `next` of the component's own type. */
  lemma RecursiveComponentExample()
    ensures var link: Object := map["$ref" := JString(Reference("T"))];
            var s: Object := map["properties" := JObject(map["next" := JObject(link)])];
            var doc := Redefine(map[], "T", s);
            HasCycle(doc) && !ComponentsReturn(Documents(doc, doc), ComponentSchemas(doc), ComponentSchemas(doc))
  {
    var link: Object := map["$ref" := JString(Reference("T"))];
    var s: Object := map["properties" := JObject(map["next" := JObject(link)])];
    var doc := Redefine(map[], "T", s);
    var hop := Property("next");
    RedefinedSchemas(map[], "T", s);
    assert Has(s, hop) && RawChild(s, hop) == link && "$ref" !in s;
    RecursiveComponentNeverReturns(doc, "T", s, hop);
    ReferenceResolves(doc, "T");
    assert Child(doc, s, hop) == s;
    FollowsOne(doc, s, hop);
    CycleHasTarget(doc, s, 1);
  }

  // ---- An enumeration of a component -----------------------------------------------------

  /** What a schema refers to, if it refers to anything, is a component. */
  ghost predicate RefersToComponents(s: Object) {
    Lookup(s, "$ref").JString? && Lookup(s, "$ref").text != "" ==>
      exists name :: '/' !in name && Lookup(s, "$ref").text == Reference(name)
  }

  /** `schemas` are schemas of the document, its components among them, that refer to components
      only. */
  ghost predicate ComponentReferences(doc: Object, schemas: iset<Object>) {
    && Closed(doc, schemas)
    && (forall s, hop :: s in schemas && Has(s, hop) ==> RefersToComponents(RawChild(s, hop)))
    && (forall n :: n in ComponentSchemas(doc) && ComponentSchemas(doc)[n].JObject? ==>
          RefersToComponents(ComponentSchemas(doc)[n].fields) &&
          ResolveSchema(doc, ComponentSchemas(doc)[n].fields) in schemas)
  }

  function WithEnum(s: Object, values: seq<Json>): Object { s["enum" := JArray(values)] }

  ghost predicate HasComponent(doc: Object, name: string, s: Object) {
    '/' !in name && name in ComponentSchemas(doc) && ComponentSchemas(doc)[name] == JObject(s)
  }

  /** A schema and itself, and the component and its form with the enumeration. */
  ghost predicate SameOrEnumerated(s: Object, values: seq<Json>, q: Pair) {
    q.base == q.head || (q.base == s && q.head == WithEnum(s, values))
  }

  lemma ResolvesTo(doc: Object, s: Object)
    ensures !Lookup(s, "$ref").JString? || Lookup(s, "$ref").text == "" ==> ResolveSchema(doc, s) == s
    ensures forall name :: '/' !in name && Lookup(s, "$ref") == JString(Reference(name)) ==>
              ResolveSchema(doc, s) ==
              if name in ComponentSchemas(doc) && ComponentSchemas(doc)[name].JObject?
              then ComponentSchemas(doc)[name].fields else s
  {
    hide ResolveRef, ComponentSchemas;
    forall name | '/' !in name && Lookup(s, "$ref") == JString(Reference(name))
      ensures ResolveRef(doc, Reference(name)) ==
              if name in ComponentSchemas(doc) && ComponentSchemas(doc)[name].JObject?
              then Some(ComponentSchemas(doc)[name].fields) else None
    {
      ReferenceResolves(doc, name);
    }
  }

  /** What is resolved in the document and in the one with the enumeration. */
  lemma ResolvedTwins(doc: Object, name: string, s: Object, values: seq<Json>, raw: Pair)
    requires HasComponent(doc, name, s) && RefersToComponents(raw.base) && SameOrEnumerated(s, values, raw)
    ensures SameOrEnumerated(s, values, Pair(ResolveSchema(doc, raw.base),
                                             ResolveSchema(Redefine(doc, name, WithEnum(s, values)), raw.head)))
  {
    var now := Redefine(doc, name, WithEnum(s, values));
    RedefinedSchemas(doc, name, WithEnum(s, values));
    assert Lookup(raw.head, "$ref") == Lookup(raw.base, "$ref");
    hide Redefine, ComponentSchemas, ResolveSchema, Reference, WithEnum;
    ResolvesTo(doc, raw.base);
    ResolvesTo(now, raw.head);
    if Lookup(raw.base, "$ref").JString? && Lookup(raw.base, "$ref").text != "" {
      var other :| '/' !in other && Lookup(raw.base, "$ref").text == Reference(other);
      assert Lookup(raw.base, "$ref") == JString(Reference(other));
    }
  }

  lemma EnumeratedIsOnlyEnums(s: Object, values: seq<Json>)
    requires Lookup(s, "enum") == JNull
    ensures OnlyEnums(s, WithEnum(s, values)) && forall hop :: RawChild(WithEnum(s, values), hop) == RawChild(s, hop)
  {
  }

  lemma ComponentTwins(doc: Object, schemas: iset<Object>, name: string, s: Object, values: seq<Json>)
    requires ComponentReferences(doc, schemas) && HasComponent(doc, name, s) && Lookup(s, "enum") == JNull
    ensures Twins(Documents(doc, Redefine(doc, name, WithEnum(s, values))),
                  iset q: Pair | q.base in schemas && SameOrEnumerated(s, values, q))
  {
    var heads := Documents(doc, Redefine(doc, name, WithEnum(s, values)));
    EnumeratedIsOnlyEnums(s, values);
    hide HasComponent, WithEnum, Redefine, OnlyEnums, Has, RawChild, ResolveSchema, RefersToComponents;
    forall q: Pair | q.base in schemas && SameOrEnumerated(s, values, q) ensures OnlyEnums(q.base, q.head) {
      if q.base == q.head { SameIsOnlyEnums(q.base); }
    }
    forall q: Pair, hop | q.base in schemas && SameOrEnumerated(s, values, q) && Has(q.base, hop)
      ensures Next(heads, q, hop).base in schemas && SameOrEnumerated(s, values, Next(heads, q, hop))
    {
      var raw := RawChild(q.base, hop);
      assert RawChild(q.head, hop) == raw && RefersToComponents(raw);
      ResolvedTwins(doc, name, s, values, Pair(raw, raw));
      assert Child(doc, q.base, hop) in schemas;
    }
  }

  /** Giving an enumeration to a component that had none, however it is referred to, is not
      found: components that compared in silence still do. And under each of them exactly the
      values stay valid that hold nothing unlisted wherever the component is referred to. */
  lemma ComponentEnumIsNotFound(typing: Typing, docs: Documents, schemas: iset<Object>, name: string, s: Object,
      values: seq<Json>)
    requires ComponentReferences(docs.head, schemas) && HasComponent(docs.head, name, s) && Lookup(s, "enum") == JNull
    requires ComponentsReturn(docs, ComponentSchemas(docs.base), ComponentSchemas(docs.head))
    requires DiffSchemas(docs, ComponentSchemas(docs.base), ComponentSchemas(docs.head)) == {}
    ensures var now := Redefine(docs.head, name, WithEnum(s, values));
            var after := Documents(docs.base, now);
            && ComponentsReturn(after, ComponentSchemas(docs.base), ComponentSchemas(now))
            && DiffSchemas(after, ComponentSchemas(docs.base), ComponentSchemas(now)) == {}
            && forall n, v :: SharedComponent(ComponentSchemas(docs.head), ComponentSchemas(now), n) ==>
                 var q := Component(Documents(docs.head, now), ComponentSchemas(docs.head), ComponentSchemas(now), n);
                 Valid(typing, now, q.head, v) <==>
                 Valid(typing, docs.head, q.base, v) && Admits(Documents(docs.head, now), q, v)
  {
    hide *;
    var now := Redefine(docs.head, name, WithEnum(s, values));
    var after, heads := Documents(docs.base, now), Documents(docs.head, now);
    var before, was, anew := ComponentSchemas(docs.base), ComponentSchemas(docs.head), ComponentSchemas(now);
    var twins := iset q: Pair | q.base in schemas && SameOrEnumerated(s, values, q);
    ComponentTwins(docs.head, schemas, name, s, values);
    SilentSchemas(docs, before, was);
    forall n | SharedComponent(was, anew, n)
      ensures Component(heads, was, anew, n) in twins
    {
      TwinComponents(docs.head, schemas, name, s, values, n);
    }
    forall n ensures SharedComponent(before, anew, n) ==>
                       && Returns(after, Component(after, before, anew, n))
                       && Silent(after, Component(after, before, anew, n))
             ensures n in was ==> n in anew
    {
      SameComponents(docs, name, s, values, n);
      if SharedComponent(before, anew, n) {
        var q := Component(heads, was, anew, n);
        OneReturns(docs, before, was, n);
        IntroducedEnumsAreNotFound(typing, docs.base, heads, twins, Component(docs, before, was, n).base, q);
      }
    }
    AllReturn(after, before, anew);
    SilentSchemas(after, before, anew);
    forall n, v | SharedComponent(was, anew, n)
      ensures var q := Component(heads, was, anew, n);
              Valid(typing, now, q.head, v) <==> Valid(typing, docs.head, q.base, v) && Admits(heads, q, v)
    {
      TwinAccepts(typing, heads, twins, Component(heads, was, anew, n), v);
    }
  }

  lemma TwinComponents(doc: Object, schemas: iset<Object>, name: string, s: Object, values: seq<Json>, n: string)
    requires ComponentReferences(doc, schemas) && HasComponent(doc, name, s)
    requires SharedComponent(ComponentSchemas(doc), ComponentSchemas(Redefine(doc, name, WithEnum(s, values))), n)
    ensures var now := Redefine(doc, name, WithEnum(s, values));
            var q := Component(Documents(doc, now), ComponentSchemas(doc), ComponentSchemas(now), n);
            q.base in schemas && SameOrEnumerated(s, values, q)
  {
    RedefinedSchemas(doc, name, WithEnum(s, values));
    hide Redefine, ComponentSchemas, ResolveSchema, RefersToComponents, WithEnum, Closed, Has;
    var now := Redefine(doc, name, WithEnum(s, values));
    ResolvedTwins(doc, name, s, values, Pair(ComponentSchemas(doc)[n].fields, ComponentSchemas(now)[n].fields));
  }

  /** The components before and after are the same pairs, seen through three documents. */
  lemma SameComponents(docs: Documents, name: string, s: Object, values: seq<Json>, n: string)
    requires HasComponent(docs.head, name, s)
    ensures var now := Redefine(docs.head, name, WithEnum(s, values));
            var base, was, anew := ComponentSchemas(docs.base), ComponentSchemas(docs.head), ComponentSchemas(now);
            && (n in was <==> n in anew)
            && (SharedComponent(base, anew, n) ==>
                  && SharedComponent(base, was, n) && SharedComponent(was, anew, n)
                  && var q := Component(Documents(docs.head, now), was, anew, n);
                     var p := Component(docs, base, was, n);
                     && p == Pair(p.base, q.base)
                     && Component(Documents(docs.base, now), base, anew, n) == Pair(p.base, q.head))
  {
    RedefinedSchemas(docs.head, name, WithEnum(s, values));
    hide Redefine, ComponentSchemas, ResolveSchema, WithEnum;
  }

  lemma OneReturns(docs: Documents, base: Object, head: Object, n: string)
    requires ComponentsReturn(docs, base, head) && SharedComponent(base, head, n)
    ensures Returns(docs, Component(docs, base, head, n))
  {
    hide Returns, Component, SharedComponent;
  }

  lemma AllReturn(docs: Documents, base: Object, head: Object)
    requires forall n :: SharedComponent(base, head, n) ==> Returns(docs, Component(docs, base, head, n))
    ensures ComponentsReturn(docs, base, head)
  {
    hide Returns, Component, SharedComponent;
  }

  // The smallest such documents: `U` has a property `s` that refers to `S`, and `S` gets an
  // enumeration.

  function Referring(): Object {
    map["properties" := JObject(map["s" := JObject(map["$ref" := JString(Reference("S"))])])]
  }

  function BeforeEnum(): Object { Redefine(Redefine(map[], "S", map[]), "U", Referring()) }

  function AfterEnum(values: seq<Json>): Object { Redefine(BeforeEnum(), "S", WithEnum(map[], values)) }

  lemma ReferringShape(hop: Hop)
    ensures Has(Referring(), hop) <==> hop == Property("s")
    ensures Lookup(RawChild(Referring(), Property("s")), "$ref") == JString(Reference("S")) && "$ref" !in Referring()
    ensures !Has(map[], hop) && '/' !in "S"
  {
    hide Reference;
  }

  lemma ExampleComponents(values: seq<Json>)
    ensures ComponentSchemas(BeforeEnum()) == map["S" := JObject(map[]), "U" := JObject(Referring())]
    ensures ComponentSchemas(AfterEnum(values)) ==
            map["S" := JObject(WithEnum(map[], values)), "U" := JObject(Referring())]
  {
    RedefinedSchemas(map[], "S", map[]);
    RedefinedSchemas(Redefine(map[], "S", map[]), "U", Referring());
    RedefinedSchemas(BeforeEnum(), "S", WithEnum(map[], values));
    assert ComponentSchemas(map[]) == map[];
    hide Redefine, ComponentSchemas, Referring;
  }

  lemma ExampleResolves(doc: Object, s: Object)
    requires HasComponent(doc, "S", s)
    ensures Child(doc, Referring(), Property("s")) == s
    ensures ResolveSchema(doc, map[]) == map[] && ResolveSchema(doc, Referring()) == Referring()
  {
    ReferringShape(Property("s"));
    ResolvesTo(doc, RawChild(Referring(), Property("s")));
    ResolvesTo(doc, map[]);
    ResolvesTo(doc, Referring());
    hide RawChild, Referring, ResolveSchema, Reference, ComponentSchemas;
  }

  lemma ExampleReturns(docs: Documents, s: Object)
    requires s == map[] || (s == Referring() && HasComponent(docs.base, "S", map[]))
    ensures Returns(docs, Pair(s, s))
  {
    hide Returns, Referring, Child, HasComponent, Has;
    var p := Pair(s, s);
    forall hop ensures !Has(map[], hop) { ReferringShape(hop); }
    forall hop ensures Has(Referring(), hop) <==> hop == Property("s") { ReferringShape(hop); }
    if s != map[] { ExampleResolves(docs.base, map[]); }
    assert !Runs(docs, p, 2);
    ReturnsExactly(docs, p);
  }

  lemma ExampleComponent(values: seq<Json>)
    ensures HasComponent(BeforeEnum(), "S", map[]) && HasComponent(AfterEnum(values), "S", WithEnum(map[], values))
  {
    ExampleComponents(values);
    ReferringShape(Element);
    hide BeforeEnum, AfterEnum, ComponentSchemas;
  }

  /** Two schemas are closed when the first leads nowhere and the second to the first. */
  lemma TwoSchemas(doc: Object, a: Object, u: Object, hop: Hop)
    requires forall other :: !Has(a, other) && (Has(u, other) <==> other == hop)
    requires Child(doc, u, hop) == a && RefersToComponents(RawChild(u, hop))
    requires RefersToComponents(a) && ResolveSchema(doc, a) == a
    requires RefersToComponents(u) && ResolveSchema(doc, u) == u
    requires forall n :: n in ComponentSchemas(doc) ==> ComponentSchemas(doc)[n] in {JObject(a), JObject(u)}
    ensures ComponentReferences(doc, iset{a, u})
  {
    hide ComponentSchemas, ResolveSchema, Has, RawChild, Child, RefersToComponents;
  }

  lemma ExampleReferences()
    ensures ComponentReferences(BeforeEnum(), iset{map[], Referring()})
  {
    var doc, hop := BeforeEnum(), Property("s");
    ExampleComponents([]);
    assert forall n :: n in ComponentSchemas(doc) ==>
             ComponentSchemas(doc)[n] in {JObject(map[]), JObject(Referring())};
    hide *;
    ExampleComponent([]);
    ExampleResolves(doc, map[]);
    forall other ensures !Has(map[], other) && (Has(Referring(), other) <==> other == hop) { ReferringShape(other); }
    ReferringShape(hop);
    ReferToComponents(RawChild(Referring(), hop));
    EmptyRefers();
    ReferToComponents(Referring());
    TwoSchemas(doc, map[], Referring(), hop);
  }

  lemma EmptyRefers()
    ensures RefersToComponents(map[])
  {
  }

  lemma ReferToComponents(s: Object)
    requires "$ref" !in s || Lookup(s, "$ref") == JString(Reference("S"))
    ensures RefersToComponents(s)
  {
    assert '/' !in "S";
  }

  lemma ExampleIsSilent()
    ensures var docs, schemas := Documents(BeforeEnum(), BeforeEnum()), ComponentSchemas(BeforeEnum());
            ComponentsReturn(docs, schemas, schemas) && DiffSchemas(docs, schemas, schemas) == {}
  {
    var doc := BeforeEnum();
    var docs, schemas := Documents(doc, doc), ComponentSchemas(doc);
    ExampleComponents([]);
    ExampleComponent([]);
    ExampleResolves(doc, map[]);
    hide BeforeEnum, AfterEnum, Referring, ComponentSchemas, ResolveSchema, Returns, Silent, HasComponent, DiffSchemas;
    forall n | SharedComponent(schemas, schemas, n)
      ensures Returns(docs, Component(docs, schemas, schemas, n)) && Silent(docs, Component(docs, schemas, schemas, n))
    {
      var s := Component(docs, schemas, schemas, n).base;
      assert Component(docs, schemas, schemas, n) == Pair(s, s) && (s == map[] || s == Referring());
      ExampleReturns(docs, s);
      SelfIsSilent(doc, s);
    }
    SilentSchemas(docs, schemas, schemas);
  }

  /** Whatever is listed, the change is not found, and what was valid under `U` before is valid
      after exactly when it is listed. */
  lemma EnumBehindReference(typing: Typing, values: seq<Json>, x: Json)
    ensures var was, now := BeforeEnum(), AfterEnum(values);
            var docs := Documents(was, now);
            && ComponentsReturn(docs, ComponentSchemas(was), ComponentSchemas(now))
            && DiffSchemas(docs, ComponentSchemas(was), ComponentSchemas(now)) == {}
            && Valid(typing, was, Referring(), JObject(map["s" := x]))
            && (Valid(typing, now, Referring(), JObject(map["s" := x])) <==> x in values)
  {
    var was, now := BeforeEnum(), AfterEnum(values);
    ExampleReferences();
    ExampleIsSilent();
    ExampleComponent(values);
    assert now == Redefine(was, "S", WithEnum(map[], values)) && Lookup(map[], "enum") == JNull;
    ExampleValues(typing, was, map[], x);
    ExampleValues(typing, now, WithEnum(map[], values), x);
    EnumAlone(typing, was, now, values, x);
    hide *;
    ComponentEnumIsNotFound(typing, Documents(was, was), iset{map[], Referring()}, "S", map[], values);
  }

  lemma ExampleValues(typing: Typing, doc: Object, s: Object, x: Json)
    requires HasComponent(doc, "S", s)
    ensures Valid(typing, doc, Referring(), JObject(map["s" := x])) <==> Valid(typing, doc, s, x)
  {
    ExampleResolves(doc, s);
    hide Child, HasComponent;
    assert RequiredSet(Referring()) == {};
  }

  lemma EnumAlone(typing: Typing, was: Object, now: Object, values: seq<Json>, x: Json)
    ensures Valid(typing, was, map[], x) && (Valid(typing, now, WithEnum(map[], values), x) <==> x in values)
  {
    assert RequiredSet(map[]) == {} && RequiredSet(WithEnum(map[], values)) == {};
    hide Child;
  }

  // ---- The comparison's loops ------------------------------------------------------------

  function Found(findings: seq<Change>): set<Change> { set i | 0 <= i < |findings| :: findings[i] }

  lemma FoundAppend(a: seq<Change>, b: seq<Change>)
    ensures Found(a + b) == Found(a) + Found(b)
  {
    forall c ensures c in Found(a + b) <==> c in Found(a) + Found(b) {
      assert c in Found(a + b) <==> c in a + b;
    }
  }

  method CollectRequired(where: string, base: Object, head: Object) returns (findings: seq<Change>)
    ensures Found(findings) == DiffRequired(where, base, head)
  {
    var had := RequiredSet(base);
    var todo := RequiredSet(head);
    ghost var done: set<string> := {};
    findings := [];
    while todo != {}
      invariant todo + done == RequiredSet(head) && todo !! done
      invariant Found(findings) == set f | f in done && f !in had :: AddedRequired(where, f)
    {
      var f :| f in todo;
      FoundAppend(findings, [AddedRequired(where, f)]);
      FoundOne(AddedRequired(where, f));
      if f !in had { findings := findings + [AddedRequired(where, f)]; }
      todo, done := todo - {f}, done + {f};
    }
  }

  method CollectEnum(where: string, base: Json, head: Json) returns (findings: seq<Change>)
    ensures Found(findings) == DiffEnum(where, base, head)
  {
    findings := [];
    if base == JNull && head == JNull { return; }
    var kept := Elements(head);
    var todo := Elements(base);
    ghost var done: set<Json> := {};
    while todo != {}
      invariant todo + done == Elements(base) && todo !! done
      invariant Found(findings) == set v | v in done && v !in kept :: NarrowedEnum(where, v)
    {
      var v :| v in todo;
      FoundAppend(findings, [NarrowedEnum(where, v)]);
      FoundOne(NarrowedEnum(where, v));
      if v !in kept { findings := findings + [NarrowedEnum(where, v)]; }
      todo, done := todo - {v}, done + {v};
    }
  }

  method CollectRemoved(where: string, base: Object, head: Object) returns (findings: seq<Change>)
    ensures Found(findings) == RemovedProperties(where, base, head)
  {
    var baseProperties, headProperties := ObjectAt(base, "properties"), ObjectAt(head, "properties");
    var todo := baseProperties.Keys;
    ghost var done: set<string> := {};
    findings := [];
    while todo != {}
      invariant todo + done == baseProperties.Keys && todo !! done
      invariant Found(findings) == set n | n in done && n !in headProperties :: RemovedProperty(where, n)
    {
      var n :| n in todo;
      FoundAppend(findings, [RemovedProperty(where, n)]);
      FoundOne(RemovedProperty(where, n));
      if n !in headProperties { findings := findings + [RemovedProperty(where, n)]; }
      todo, done := todo - {n}, done + {n};
    }
  }

  method CollectCombinators(where: string, base: Object, head: Object) returns (findings: seq<Change>)
    ensures Found(findings) == DiffCombinators(where, base, head)
  {
    findings := [];
    for i := 0 to |COMBINATORS|
      invariant Found(findings) ==
                set j | 0 <= j < i && Lookup(base, COMBINATORS[j]) != Lookup(head, COMBINATORS[j]) ::
                ChangedCombinator(where, COMBINATORS[j])
    {
      FoundAppend(findings, [ChangedCombinator(where, COMBINATORS[i])]);
      FoundOne(ChangedCombinator(where, COMBINATORS[i]));
      if Lookup(base, COMBINATORS[i]) != Lookup(head, COMBINATORS[i]) {
        findings := findings + [ChangedCombinator(where, COMBINATORS[i])];
      }
    }
  }

  /** What the shared properties of `names` contribute. */
  ghost function FromProperties(docs: Documents, where: string, p: Pair, names: set<string>): set<Change>
    requires Returns(docs, p)
  {
    set n, c | n in names && c in DiffBehind(docs, where, p, Property(n)) :: c
  }

  lemma FromOneMore(docs: Documents, where: string, p: Pair, names: set<string>, n: string)
    requires Returns(docs, p)
    ensures FromProperties(docs, where, p, names + {n}) ==
            FromProperties(docs, where, p, names) + DiffBehind(docs, where, p, Property(n))
    ensures FromProperties(docs, where, p, {}) == {}
  {
    hide DiffBehind, Returns;
  }

  /** The whole comparison, appending as it goes: it finds what is found at the levels it comes to
      and nothing else. */
  method Compare(docs: Documents, where: string, p: Pair) returns (findings: seq<Change>)
    requires Returns(docs, p)
    ensures Found(findings) == Diff(docs, where, p)
    ensures forall c :: c in findings <==> exists hops :: FoundAlong(docs, where, p, hops, c)
    decreases Depth(docs, p), 1
  {
    findings := Collect(docs, where, p);
    forall c ensures c in findings <==> exists hops :: FoundAlong(docs, where, p, hops, c) {
      DiffExactly(docs, where, p, c);
      assert c in Found(findings) <==> c in findings;
    }
  }

  /** The findings of one level and of the levels below, in one list. */
  method Collect(docs: Documents, where: string, p: Pair) returns (findings: seq<Change>)
    requires Returns(docs, p)
    ensures Found(findings) == Diff(docs, where, p)
    decreases Depth(docs, p), 1
  {
    hide ResolveSchema, DiffRequired, RemovedProperties, DiffEnum, DiffCombinators, Found, Diff, DiffBehind,
         FromProperties, Returns, Depth;
    var base, head := p.base, p.head;
    var required := CollectRequired(where, base, head);
    var removed := CollectRemoved(where, base, head);
    var shared := CompareProperties(docs, where, p);
    var types := if DiffType(where, base, head) != {} then [ChangedType(where)] else [];
    var values := CollectEnum(where, Lookup(base, "enum"), Lookup(head, "enum"));
    var items := CompareItems(docs, where, p);
    var combinators := CollectCombinators(where, base, head);
    var additional := if DiffAdditional(where, base, head) != {} then [ChangedCombinator(where, ADDITIONAL)] else [];
    FoundOne(ChangedType(where));
    FoundOne(ChangedCombinator(where, ADDITIONAL));
    assert Found(types) == DiffType(where, base, head) && Found(additional) == DiffAdditional(where, base, head);
    SharedAmongHead(docs, where, p);
    hide DiffType, DiffAdditional, DiffItemsShape;
    FoundAll(required + removed, shared, types + values, items, combinators + additional);
    FoundAppend(required, removed);
    FoundAppend(types, values);
    FoundAppend(combinators, additional);
    findings := (required + removed) + shared + (types + values) + items + (combinators + additional);
  }

  lemma FoundAll(a: seq<Change>, b: seq<Change>, c: seq<Change>, d: seq<Change>, e: seq<Change>)
    ensures Found(a + b + c + d + e) == Found(a) + Found(b) + Found(c) + Found(d) + Found(e)
  {
    hide Found;
    FoundAppend(a, b);
    FoundAppend(a + b, c);
    FoundAppend(a + b + c, d);
    FoundAppend(a + b + c + d, e);
  }

  method CompareItems(docs: Documents, where: string, p: Pair) returns (findings: seq<Change>)
    requires Returns(docs, p)
    ensures Found(findings) == DiffItemsShape(where, p.base, p.head) + DiffBehind(docs, where, p, Element)
    decreases Depth(docs, p), 0
  {
    hide ResolveSchema, Diff, Found, Returns, Depth;
    FoundOne(ChangedCombinator(where, "items"));
    findings := [];
    if Shared(p, Element) {
      DepthFalls(docs, p, Element);
      findings := Collect(docs, Deeper(where, Element), Next(docs, p, Element));
    } else if Lookup(p.base, "items") != Lookup(p.head, "items") {
      findings := [ChangedCombinator(where, "items")];
    }
  }

  lemma FoundOne(c: Change)
    ensures Found([c]) == {c} && Found([]) == {}
  {
    assert [c][0] == c;
  }

  lemma SharedAmongHead(docs: Documents, where: string, p: Pair)
    requires Returns(docs, p)
    ensures Diff(docs, where, p) ==
            DiffHere(where, p.base, p.head) + FromProperties(docs, where, p, ObjectAt(p.head, "properties").Keys) +
            DiffBehind(docs, where, p, Element)
  {
    hide DiffHere, Returns, Diff, Next;
    forall n, c | c in DiffBehind(docs, where, p, Property(n))
      ensures n in ObjectAt(p.base, "properties") && n in ObjectAt(p.head, "properties").Keys
    {
      assert Shared(p, Property(n));
    }
    DiffParts(docs, where, p);
  }

  lemma DiffParts(docs: Documents, where: string, p: Pair)
    requires Returns(docs, p)
    ensures Diff(docs, where, p) ==
            DiffHere(where, p.base, p.head) + FromProperties(docs, where, p, ObjectAt(p.base, "properties").Keys) +
            DiffBehind(docs, where, p, Element)
  {
    hide DiffHere, Returns, DiffBehind;
  }

  method CompareProperties(docs: Documents, where: string, p: Pair) returns (findings: seq<Change>)
    requires Returns(docs, p)
    ensures Found(findings) == FromProperties(docs, where, p, ObjectAt(p.head, "properties").Keys)
    decreases Depth(docs, p), 0
  {
    hide Diff, ResolveSchema, Found, FromProperties, Returns, Depth;
    var todo := ObjectAt(p.head, "properties").Keys;
    ghost var done: set<string> := {};
    findings := [];
    FromOneMore(docs, where, p, done, "");
    FoundOne(ChangedType(where));
    while todo != {}
      invariant todo + done == ObjectAt(p.head, "properties").Keys && todo !! done
      invariant Found(findings) == FromProperties(docs, where, p, done)
    {
      var n :| n in todo;
      FromOneMore(docs, where, p, done, n);
      if Shared(p, Property(n)) {
        DepthFalls(docs, p, Property(n));
        var more := Collect(docs, Deeper(where, Property(n)), Next(docs, p, Property(n)));
        FoundAppend(findings, more);
        findings := findings + more;
      }
      todo, done := todo - {n}, done + {n};
    }
    assert done == ObjectAt(p.head, "properties").Keys;
  }
}
