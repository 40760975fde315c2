/** Schemas of decoded documents: references, the walk of a comparison through two documents, and
    when that walk ends. */
module Schemas {
  import opened JsonValues
  import opened Text
  import opened Wrappers

  type Object = map<string, Json>

  // ---- Documents -------------------------------------------------------------------------

  /** Reading a key that is not there gives nil. */
  function Lookup(o: Object, key: string): Json { if key in o then o[key] else JNull }

  function ObjectAt(o: Object, key: string): Object {
    if Lookup(o, key).JObject? then o[key].fields else map[]
  }

  function Walk(current: Json, segments: seq<string>): Option<Json> {
    if segments == [] then Some(current)
    else if current.JObject? && segments[0] in current.fields then Walk(current.fields[segments[0]], segments[1..])
    else None
  }

  /** One local component reference, followed inside its document. */
  function ResolveRef(doc: Object, reference: string): Option<Object> {
    if |reference| < 2 || reference[..2] != "#/" then None else
      match Walk(JObject(doc), Split(reference[2..], '/'))
      case Some(JObject(fields)) => Some(fields)
      case _ => None
  }

  /** The schema a `$ref` points to, or the schema itself: one step, never more. */
  function ResolveSchema(doc: Object, schema: Object): Object {
    match Lookup(schema, "$ref")
    case JString(reference) =>
      if reference == "" then schema else
        (match ResolveRef(doc, reference)
         case Some(found) => found
         case None => schema)
    case _ => schema
  }

  // ---- The walk of a comparison ----------------------------------------------------------

  /** Where a comparison goes from a schema: into a property, or into the items. */
  datatype Hop = Property(name: string) | Element

  /** The schema defines what the hop leads to by an object. */
  predicate Has(s: Object, hop: Hop) {
    match hop
    case Property(n) => n in ObjectAt(s, "properties") && ObjectAt(s, "properties")[n].JObject?
    case Element => Lookup(s, "items").JObject?
  }

  function RawChild(s: Object, hop: Hop): Object {
    match hop
    case Property(n) => ObjectAt(ObjectAt(s, "properties"), n)
    case Element => ObjectAt(s, "items")
  }

  function Child(doc: Object, s: Object, hop: Hop): Object { ResolveSchema(doc, RawChild(s, hop)) }

  /** A baseline document and its successor, and a schema of each. */
  datatype Documents = Documents(base: Object, head: Object)

  datatype Pair = Pair(base: Object, head: Object)

  predicate Shared(p: Pair, hop: Hop) { Has(p.base, hop) && Has(p.head, hop) }

  function Next(docs: Documents, p: Pair, hop: Hop): Pair {
    Pair(Child(docs.base, p.base, hop), Child(docs.head, p.head, hop))
  }

  /** The comparison of `p` comes to the comparison of `q`, `n` levels deeper. */
  ghost predicate ReachesIn(docs: Documents, p: Pair, q: Pair, n: nat)
    decreases n
  {
    if n == 0 then p == q else exists hop :: Shared(p, hop) && ReachesIn(docs, Next(docs, p, hop), q, n - 1)
  }

  ghost predicate Reaches(docs: Documents, p: Pair, q: Pair) { exists n: nat :: ReachesIn(docs, p, q, n) }

  /** The comparison of `p` comes to itself again. */
  ghost predicate OnCycle(docs: Documents, p: Pair) { exists n: nat :: n > 0 && ReachesIn(docs, p, p, n) }

  /** No comparison that is come to comes to itself again. */
  ghost predicate Returns(docs: Documents, p: Pair) { forall q :: Reaches(docs, p, q) ==> !OnCycle(docs, q) }

  /** The comparison of `p` goes `n` levels deep. */
  ghost predicate Runs(docs: Documents, p: Pair, n: nat)
    decreases n
  {
    n == 0 || exists hop :: Shared(p, hop) && Runs(docs, Next(docs, p, hop), n - 1)
  }

  // ---- What a walk can reach -------------------------------------------------------------

  /** The objects inside a value, itself among them. Arrays are not walked into. */
  ghost function Subs(j: Json): set<Object>
    decreases j
  {
    if j.JObject? then {j.fields} + set k, o | k in j.fields && o in Subs(j.fields[k]) :: o else {}
  }

  lemma {:induction false} SubsNest(j: Json, o: Object)
    requires o in Subs(j)
    ensures Subs(JObject(o)) <= Subs(j)
    decreases j
  {
    if o != j.fields {
      var k :| k in j.fields && o in Subs(j.fields[k]);
      SubsNest(j.fields[k], o);
    } else {
      assert j == JObject(o);
    }
  }

  lemma ObjectIsInside(s: Object, key: string)
    requires Lookup(s, key).JObject?
    ensures ObjectAt(s, key) in Subs(JObject(s))
  {
    var j := JObject(s);
    assert s[key] == JObject(ObjectAt(s, key));
    assert ObjectAt(s, key) in Subs(j.fields[key]);
  }

  lemma RawChildIsInside(s: Object, hop: Hop)
    requires Has(s, hop)
    ensures RawChild(s, hop) in Subs(JObject(s))
  {
    match hop
    case Property(n) =>
      var properties := ObjectAt(s, "properties");
      ObjectIsInside(s, "properties");
      ObjectIsInside(properties, n);
      SubsNest(JObject(s), properties);
    case Element => ObjectIsInside(s, "items");
  }

  lemma {:induction false} WalkStaysInside(current: Json, segments: seq<string>)
    requires Walk(current, segments).Some? && Walk(current, segments).value.JObject?
    ensures Walk(current, segments).value.fields in Subs(current)
    decreases segments
  {
    if segments != [] {
      var next := current.fields[segments[0]];
      WalkStaysInside(next, segments[1..]);
    }
  }

  /** A reference that is followed leads into the document. */
  lemma ResolvedIsInside(doc: Object, s: Object)
    ensures ResolveSchema(doc, s) == s || ResolveSchema(doc, s) in Subs(JObject(doc))
  {
    if Lookup(s, "$ref").JString? {
      var reference := Lookup(s, "$ref").text;
      if |reference| >= 2 && reference[..2] == "#/" {
        var found := Walk(JObject(doc), Split(reference[2..], '/'));
        if found.Some? && found.value.JObject? { WalkStaysInside(JObject(doc), Split(reference[2..], '/')); }
      }
    }
  }

  /** The schemas a walk from `s` can meet: finitely many. */
  ghost function Side(doc: Object, s: Object): set<Object> { Subs(JObject(s)) + Subs(JObject(doc)) }

  lemma ChildIsBeside(doc: Object, s: Object, x: Object, hop: Hop)
    requires x in Side(doc, s) && Has(x, hop)
    ensures Child(doc, x, hop) in Side(doc, s)
  {
    hide Has, RawChild, ResolveSchema, Subs;
    RawChildIsInside(x, hop);
    if x in Subs(JObject(s)) { SubsNest(JObject(s), x); } else { SubsNest(JObject(doc), x); }
    ResolvedIsInside(doc, RawChild(x, hop));
  }

  ghost function Universe(docs: Documents, p: Pair): set<Pair> {
    set b, h | b in Side(docs.base, p.base) && h in Side(docs.head, p.head) :: Pair(b, h)
  }

  lemma {:induction false} ReachedIsInUniverse(docs: Documents, p: Pair, q: Pair, r: Pair, n: nat)
    requires q in Universe(docs, p) && ReachesIn(docs, q, r, n)
    ensures r in Universe(docs, p)
    decreases n
  {
    hide Side, Child, Has;
    if n > 0 {
      var hop :| Shared(q, hop) && ReachesIn(docs, Next(docs, q, hop), r, n - 1);
      ChildIsBeside(docs.base, p.base, q.base, hop);
      ChildIsBeside(docs.head, p.head, q.head, hop);
      ReachedIsInUniverse(docs, p, Next(docs, q, hop), r, n - 1);
    }
  }

  /** The comparisons `p` comes to, itself among them. */
  ghost function ReachSet(docs: Documents, p: Pair): set<Pair> {
    set q | q in Universe(docs, p) && Reaches(docs, p, q)
  }

  lemma ReachSetIsExact(docs: Documents, p: Pair, q: Pair)
    ensures q in ReachSet(docs, p) <==> Reaches(docs, p, q)
  {
    hide ReachesIn;
    if n: nat :| ReachesIn(docs, p, q, n) {
      assert p in Universe(docs, p);
      ReachedIsInUniverse(docs, p, p, q, n);
    }
  }

  /** How many comparisons there are to come to: what the recursion lowers. */
  ghost function Depth(docs: Documents, p: Pair): nat { |ReachSet(docs, p)| }

  lemma ReachesItself(docs: Documents, p: Pair)
    ensures Reaches(docs, p, p)
  {
    assert ReachesIn(docs, p, p, 0);
  }

  lemma ReachesThrough(docs: Documents, p: Pair, hop: Hop, q: Pair)
    requires Shared(p, hop) && Reaches(docs, Next(docs, p, hop), q)
    ensures Reaches(docs, p, q) && (p == q ==> OnCycle(docs, p))
  {
    var n: nat :| ReachesIn(docs, Next(docs, p, hop), q, n);
    assert ReachesIn(docs, p, q, n + 1);
  }

  lemma SubsetIsSmaller<T>(a: set<T>, b: set<T>, x: T)
    requires a <= b && x in b && x !in a
    ensures |a| < |b|
  {
    assert b == a + (b - a) && x in b - a;
  }

  /** The recursion of a comparison that returns goes to comparisons that return, and there are
      fewer to come to. */
  lemma DepthFalls(docs: Documents, p: Pair, hop: Hop)
    requires Returns(docs, p) && Shared(p, hop)
    ensures Returns(docs, Next(docs, p, hop)) && Depth(docs, Next(docs, p, hop)) < Depth(docs, p)
  {
    hide ReachesIn, Shared, Next, Reaches, OnCycle, ReachSet;
    var q := Next(docs, p, hop);
    forall r | Reaches(docs, q, r) ensures Reaches(docs, p, r) { ReachesThrough(docs, p, hop, r); }
    forall r ensures r in ReachSet(docs, q) <==> Reaches(docs, q, r) { ReachSetIsExact(docs, q, r); }
    forall r ensures r in ReachSet(docs, p) <==> Reaches(docs, p, r) { ReachSetIsExact(docs, p, r); }
    ReachesItself(docs, p);
    if Reaches(docs, q, p) { ReachesThrough(docs, p, hop, p); }
    SubsetIsSmaller(ReachSet(docs, q), ReachSet(docs, p), p);
  }

  // ---- When the walk ends ----------------------------------------------------------------

  lemma {:induction false} RunsAreShort(docs: Documents, p: Pair, n: nat)
    requires Returns(docs, p) && Runs(docs, p, n)
    ensures n < Depth(docs, p)
    decreases n
  {
    hide Returns, Depth;
    if n == 0 {
      SomewhereToGo(docs, p);
    } else {
      var hop :| Shared(p, hop) && Runs(docs, Next(docs, p, hop), n - 1);
      DepthFalls(docs, p, hop);
      RunsAreShort(docs, Next(docs, p, hop), n - 1);
    }
  }

  lemma SomewhereToGo(docs: Documents, p: Pair)
    ensures Depth(docs, p) > 0
  {
    ReachesItself(docs, p);
    ReachSetIsExact(docs, p, p);
  }

  lemma {:induction false} CyclesRun(docs: Documents, p: Pair, q: Pair, i: nat, n: nat)
    requires ReachesIn(docs, p, q, i) && OnCycle(docs, q)
    ensures Runs(docs, p, n)
    decreases n
  {
    hide Shared, Next;
    if n > 0 {
      var k := i;
      if i == 0 { k :| k > 0 && ReachesIn(docs, q, q, k); }
      var hop :| Shared(p, hop) && ReachesIn(docs, Next(docs, p, hop), q, k - 1);
      CyclesRun(docs, Next(docs, p, hop), q, k - 1, n - 1);
    }
  }

  /** The condition is exact: a comparison goes only so deep if and only if nothing it comes to
      comes to itself again. */
  lemma ReturnsExactly(docs: Documents, p: Pair)
    ensures Returns(docs, p) <==> exists n: nat :: !Runs(docs, p, n)
  {
    hide ReachesIn, Runs;
    if Returns(docs, p) {
      if Runs(docs, p, Depth(docs, p)) { RunsAreShort(docs, p, Depth(docs, p)); }
      assert !Runs(docs, p, Depth(docs, p));
    } else {
      var q :| Reaches(docs, p, q) && OnCycle(docs, q);
      var i: nat :| ReachesIn(docs, p, q, i);
      forall n: nat ensures Runs(docs, p, n) { CyclesRun(docs, p, q, i, n); }
    }
  }

  // ---- The reference graph of one document -----------------------------------------------

  /** From `s` one gets to `t` by `n` steps into a property or the items, each followed by the
      reference that stands there. */
  ghost predicate Follows(doc: Object, s: Object, t: Object, n: nat)
    decreases n
  {
    if n == 0 then s == t else exists hop :: Has(s, hop) && Follows(doc, Child(doc, s, hop), t, n - 1)
  }

  /** What the references of a document lead to. */
  ghost function Targets(doc: Object): set<Object> {
    set s | s in Subs(JObject(doc)) && ResolveSchema(doc, s) != s :: ResolveSchema(doc, s)
  }

  /** Some target of a reference leads back to itself. */
  ghost predicate HasCycle(doc: Object) { exists t, n: nat :: t in Targets(doc) && n > 0 && Follows(doc, t, t, n) }

  lemma {:induction false} FollowsJoin(doc: Object, s: Object, t: Object, u: Object, n: nat, m: nat)
    requires Follows(doc, s, t, n) && Follows(doc, t, u, m)
    ensures Follows(doc, s, u, n + m)
    decreases n
  {
    if n > 0 {
      var hop :| Has(s, hop) && Follows(doc, Child(doc, s, hop), t, n - 1);
      FollowsJoin(doc, Child(doc, s, hop), t, u, n - 1, m);
    }
  }

  ghost function Highest(heights: set<nat>): (r: nat)
    ensures forall h :: h in heights ==> h <= r
  {
    if heights == {} then 0 else
      var h :| h in heights;
      var rest := Highest(heights - {h});
      assert forall x :: x in heights ==> x == h || x in heights - {h};
      if h > rest then h else rest
  }

  /** How deep objects nest in a value. */
  ghost function Height(j: Json): nat
    decreases j
  {
    match j
    case JObject(fields) => 1 + Highest(set k | k in fields :: Height(fields[k]))
    case _ => 0
  }

  lemma ObjectIsLower(s: Object, key: string)
    requires Lookup(s, key).JObject?
    ensures Height(JObject(ObjectAt(s, key))) < Height(JObject(s))
  {
    var heights := set k | k in s :: Height(s[k]);
    assert s[key] == JObject(ObjectAt(s, key));
    assert Height(s[key]) in heights;
    assert Height(JObject(s)) == 1 + Highest(heights);
  }

  lemma RawChildIsLower(s: Object, hop: Hop)
    requires Has(s, hop)
    ensures Height(JObject(RawChild(s, hop))) < Height(JObject(s))
  {
    hide Height;
    match hop
    case Property(n) =>
      ObjectIsLower(s, "properties");
      ObjectIsLower(ObjectAt(s, "properties"), n);
    case Element => ObjectIsLower(s, "items");
  }

  /** A walk that does not get lower follows a reference on its way. */
  lemma {:induction false} WalkMeetsReference(doc: Object, s: Object, t: Object, n: nat)
    returns (x: Object, hop: Hop, i: nat)
    requires n > 0 && Follows(doc, s, t, n) && Height(JObject(t)) >= Height(JObject(s))
    ensures i < n && Follows(doc, s, x, i) && Has(x, hop) && Child(doc, x, hop) != RawChild(x, hop)
    ensures Follows(doc, Child(doc, x, hop), t, n - 1 - i)
    decreases n
  {
    hide Height, Has, RawChild, ResolveSchema;
    hop :| Has(s, hop) && Follows(doc, Child(doc, s, hop), t, n - 1);
    x, i := s, 0;
    var next := Child(doc, s, hop);
    if next == RawChild(s, hop) {
      RawChildIsLower(s, hop);
      assert n > 1;
      x, hop, i := WalkMeetsReference(doc, next, t, n - 1);
      i := i + 1;
    }
  }

  lemma {:induction false} WalkStaysInDocument(doc: Object, s: Object, t: Object, n: nat)
    requires s in Subs(JObject(doc)) && Follows(doc, s, t, n)
    ensures t in Subs(JObject(doc))
    decreases n
  {
    hide Subs, Has, Child;
    if n > 0 {
      var hop :| Has(s, hop) && Follows(doc, Child(doc, s, hop), t, n - 1);
      SubsNest(JObject(doc), s);
      ChildIsBeside(doc, doc, s, hop);
      WalkStaysInDocument(doc, Child(doc, s, hop), t, n - 1);
    }
  }

  /** Every cycle, wherever it starts, goes through the target of a reference of the document. */
  lemma CycleHasTarget(doc: Object, s: Object, n: nat)
    requires n > 0 && Follows(doc, s, s, n)
    ensures HasCycle(doc)
  {
    hide Follows, Height, Has, RawChild, ResolveSchema, Subs;
    var x, hop, i := WalkMeetsReference(doc, s, s, n);
    var t := Child(doc, x, hop);
    ResolvedIsInside(doc, RawChild(x, hop));
    FollowsOne(doc, x, hop);
    FollowsJoin(doc, t, s, x, n - 1 - i, i);
    FollowsJoin(doc, t, x, t, n - 1, 1);
    var y, hop', j := WalkMeetsReference(doc, t, t, n);
    var u := Child(doc, y, hop');
    WalkStaysInDocument(doc, t, y, j);
    RawChildIsInside(y, hop');
    SubsNest(JObject(doc), y);
    assert u in Targets(doc);
    FollowsOne(doc, y, hop');
    FollowsJoin(doc, u, t, y, n - 1 - j, j);
    FollowsJoin(doc, u, y, u, n - 1, 1);
  }

  lemma FollowsOne(doc: Object, s: Object, hop: Hop)
    requires Has(s, hop)
    ensures Follows(doc, s, Child(doc, s, hop), 1)
  {
    assert Follows(doc, Child(doc, s, hop), Child(doc, s, hop), 0);
  }

  /** Each side of a comparison walks through its own document. */
  lemma {:induction false} SidesFollow(docs: Documents, p: Pair, q: Pair, n: nat)
    requires ReachesIn(docs, p, q, n)
    ensures Follows(docs.base, p.base, q.base, n) && Follows(docs.head, p.head, q.head, n)
    decreases n
  {
    hide Has, Child;
    if n > 0 {
      var hop :| Shared(p, hop) && ReachesIn(docs, Next(docs, p, hop), q, n - 1);
      SidesFollow(docs, Next(docs, p, hop), q, n - 1);
    }
  }

  /** A comparison returns as soon as the references of one of the two documents form no cycle,
      whatever the other does. */
  lemma OneAcyclicDocumentIsEnough(docs: Documents, p: Pair)
    requires !HasCycle(docs.base) || !HasCycle(docs.head)
    ensures Returns(docs, p)
  {
    hide HasCycle, ReachesIn, Reaches;
    forall q | Reaches(docs, p, q) ensures !OnCycle(docs, q) {
      if OnCycle(docs, q) {
        var n: nat :| n > 0 && ReachesIn(docs, q, q, n);
        SidesFollow(docs, q, q, n);
        CycleHasTarget(docs.base, q.base, n);
        CycleHasTarget(docs.head, q.head, n);
      }
    }
  }

  lemma {:induction false} FollowsBoth(doc: Object, s: Object, t: Object, n: nat)
    requires Follows(doc, s, t, n)
    ensures ReachesIn(Documents(doc, doc), Pair(s, s), Pair(t, t), n)
    decreases n
  {
    hide Has, Child;
    if n > 0 {
      var hop :| Has(s, hop) && Follows(doc, Child(doc, s, hop), t, n - 1);
      FollowsBoth(doc, Child(doc, s, hop), t, n - 1);
      var docs, p := Documents(doc, doc), Pair(s, s);
      assert Shared(p, hop) && Next(docs, p, hop) == Pair(Child(doc, s, hop), Child(doc, s, hop));
    }
  }

  /** The comparison of a document with itself returns from every schema exactly when its
      references form no cycle. */
  lemma SelfComparisonReturnsExactly(doc: Object)
    ensures (forall s :: Returns(Documents(doc, doc), Pair(s, s))) <==> !HasCycle(doc)
  {
    var docs := Documents(doc, doc);
    hide Follows, ReachesIn, Targets;
    if HasCycle(doc) {
      var t, n: nat :| t in Targets(doc) && n > 0 && Follows(doc, t, t, n);
      FollowsBoth(doc, t, t, n);
      ReachesItself(docs, Pair(t, t));
      assert !Returns(docs, Pair(t, t));
    } else {
      forall s ensures Returns(docs, Pair(s, s)) { OneAcyclicDocumentIsEnough(docs, Pair(s, s)); }
    }
  }

  /** A schema with a property that refers back to it is compared with itself without end. */
  lemma SelfReferenceNeverReturns(doc: Object, s: Object, hop: Hop)
    requires Has(s, hop) && Child(doc, s, hop) == s
    ensures !Returns(Documents(doc, doc), Pair(s, s))
    ensures forall n: nat :: Runs(Documents(doc, doc), Pair(s, s), n)
  {
    var docs, p := Documents(doc, doc), Pair(s, s);
    FollowsOne(doc, s, hop);
    FollowsBoth(doc, s, s, 1);
    ReachesItself(docs, p);
    assert OnCycle(docs, p);
    ReturnsExactly(docs, p);
  }
}
