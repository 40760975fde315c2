/** The generator of the TypeScript transport contracts: the OpenAPI subset it accepts, the type
    it emits for each schema, and what the emitted type says about the values of the schema. */
module ContractTypes {
  import opened Wrappers
  import opened JsonValues
  import opened Order
  import opened Text
  import opened TypeScript

  // ---- Schemas ---------------------------------------------------------------------------

  /** One member of an `enum`: a string, a number as the document spells it, null, or something
      else. */
  datatype EnumValue = EnumText(text: string) | EnumNumber(literal: string) | EnumNull | EnumOther

  datatype Items = NoItems | TupleItems | ItemsOf(schema: Schema)

  datatype OneOf = NoOneOf | OneOf(members: seq<Schema>)

  datatype Properties = NoProperties | Properties(fields: map<string, Schema>)

  /** A decoded schema fragment: the keywords that shape the type, and the names of the others. */
  datatype Schema = Schema(
    ref: Option<string>, types: Option<seq<string>>, format: Option<string>, values: Option<seq<EnumValue>>,
    properties: Properties, required: Option<seq<string>>, items: Items, oneOf: OneOf, others: set<string>)
  {
    /** The decoded `type`, absent or not. */
    function Types(): seq<string> { if types.Some? then types.value else [] }

    /** The decoded `required`, absent or not. */
    function Required(): seq<string> { if required.Some? then required.value else [] }
  }

  type Components = map<string, Schema>

  const IGNORED_KEYWORDS := {
    "description", "title", "example", "examples", "default", "deprecated", "readOnly", "writeOnly", "pattern",
    "minLength", "maxLength", "minimum", "maximum", "exclusiveMinimum", "exclusiveMaximum", "multipleOf",
    "minItems", "maxItems", "uniqueItems", "minProperties", "maxProperties"}

  const TEXT_FORMATS := {
    "date-time", "email", "uri", "uri-reference", "uuid", "hostname", "ipv4", "ipv6", "password", "byte", "duration"}

  const NUMBER_FORMATS := {"double", "float", "int32", "int64"}

  datatype Refusal =
    | Keyword | RefWithSibling | RefForm | RefUnknown | OneOfWithType | OneOfWithEnum | OneOfEmpty
    | EnumType | EnumEmpty | EnumMember | NoType | ManyTypes | NestedObject | UnknownType | Format | NoArrayItems
    | TupleItemsGiven
    | TopLevelType | NoPropertiesGiven | RequiredUndefined | PropertyName | ComponentName | NothingToGenerate

  // ---- The generator ---------------------------------------------------------------------

  predicate KeywordsSupported(s: Schema) {
    forall k :: k in s.others ==> k in IGNORED_KEYWORDS || (|k| >= 2 && k[..2] == "x-")
  }

  predicate HasSibling(s: Schema) {
    s.types.Some? || s.format.Some? || s.values.Some? || s.properties.Properties? || s.required.Some? ||
    !s.items.NoItems? || s.oneOf.OneOf?
  }

  /** The component a reference names, if it has the one supported form. */
  function RefName(reference: string): Option<string> {
    if |reference| > |REF_PREFIX| && reference[..|REF_PREFIX|] == REF_PREFIX then Some(reference[|REF_PREFIX|..])
    else None
  }

  function ResolveRef(known: set<string>, reference: string): Result<Ts, Refusal> {
    match RefName(reference)
    case None => Err(RefForm)
    case Some(name) => if name in known then Ok([Named(name)]) else Err(RefUnknown)
  }

  function RenderScalar(name: string, format: Option<string>): Result<Ts, Refusal> {
    match format
    case None => Ok([if name == "string" then TString else if name == "boolean" then TBoolean else TNumber])
    case Some(f) =>
      if name == "string" && f in TEXT_FORMATS then Ok([TString])
      else if (name == "integer" || name == "number") && f in NUMBER_FORMATS then Ok([TNumber])
      else Err(Format)
  }

  /** A number or string becomes a literal type; `null` decodes as a number with no text. */
  function EnumLiteral(v: EnumValue): Result<Atom, Refusal> {
    match v
    case EnumText(text) => Ok(StringLiteral(text))
    case EnumNumber(literal) => Ok(NumberLiteral(literal))
    case EnumNull => Ok(Blank)
    case EnumOther => Err(EnumMember)
  }

  function EnumLiterals(values: seq<EnumValue>): Result<Ts, Refusal> {
    if values == [] then Ok([]) else
      var first :- EnumLiteral(values[0]);
      var rest :- EnumLiterals(values[1..]);
      Ok([first] + rest)
  }

  /** The members whose text did not appear before, in order. */
  function Collapse(members: seq<Ts>, seen: set<string>): seq<Ts> {
    if members == [] then []
    else if Print(members[0]) in seen then Collapse(members[1..], seen)
    else [members[0]] + Collapse(members[1..], seen + {Print(members[0])})
  }

  function Concat(members: seq<Ts>): Ts { if members == [] then [] else members[0] + Concat(members[1..]) }

  function Singletons(atoms: Ts): (r: seq<Ts>)
    ensures |r| == |atoms| && forall i :: 0 <= i < |r| ==> r[i] == [atoms[i]]
  {
    seq(|atoms|, i requires 0 <= i < |atoms| => [atoms[i]])
  }

  function RenderEnum(values: seq<EnumValue>, types: seq<string>): Result<Ts, Refusal> {
    if exists i :: 0 <= i < |types| && types[i] != "string" && types[i] != "integer" && types[i] != "number"
    then Err(EnumType)
    else if values == [] then Err(EnumEmpty)
    else
      var literals :- EnumLiterals(values);
      Ok(Concat(Collapse(Singletons(literals), {})))
  }

  /** Any fragment as a TypeScript type. */
  function TypeExpression(known: set<string>, s: Schema): Result<Ts, Refusal>
    decreases s, 3
  {
    if !KeywordsSupported(s) then Err(Keyword)
    else if s.ref.Some? then (if HasSibling(s) then Err(RefWithSibling) else ResolveRef(known, s.ref.value))
    else if s.oneOf.OneOf? then
      if s.Types() != [] then Err(OneOfWithType)
      else if s.values.Some? then Err(OneOfWithEnum)
      else RenderUnion(known, s.oneOf.members)
    else if s.values.Some? then RenderEnum(s.values.value, s.Types())
    else RenderType(known, s)
  }

  function RenderMembers(known: set<string>, members: seq<Schema>): Result<seq<Ts>, Refusal>
    decreases members, 0
  {
    if members == [] then Ok([]) else
      var first :- TypeExpression(known, members[0]);
      var rest :- RenderMembers(known, members[1..]);
      Ok([first] + rest)
  }

  function RenderUnion(known: set<string>, members: seq<Schema>): Result<Ts, Refusal>
    decreases members, 1
  {
    if members == [] then Err(OneOfEmpty) else
      var rendered :- RenderMembers(known, members);
      Ok(Concat(Collapse(rendered, {})))
  }

  /** The first refusal among the named types, null aside. */
  function RenderNamedTypes(known: set<string>, s: Schema, types: seq<string>): Result<seq<Ts>, Refusal>
    decreases s, 1, |types|
  {
    if types == [] then Ok([])
    else if types[0] == "null" then RenderNamedTypes(known, s, types[1..])
    else
      var first :- RenderNamedType(known, s, types[0]);
      var rest :- RenderNamedTypes(known, s, types[1..]);
      Ok([first] + rest)
  }

  function RenderType(known: set<string>, s: Schema): Result<Ts, Refusal>
    decreases s, 2
  {
    if s.Types() == [] then Err(NoType) else
      var members :- RenderNamedTypes(known, s, s.Types());
      if members == [] then Ok([TNull])
      else if |members| > 1 then Err(ManyTypes)
      else if "null" in s.Types() then Ok(members[0] + [TNull])
      else Ok(members[0])
  }

  function RenderNamedType(known: set<string>, s: Schema, name: string): Result<Ts, Refusal>
    decreases s, 0
  {
    if name == "string" || name == "integer" || name == "number" || name == "boolean" then RenderScalar(name, s.format)
    else if name == "array" then
      match s.items
      case NoItems => Err(NoArrayItems)
      case TupleItems => Err(TupleItemsGiven)
      case ItemsOf(items) =>
        var element :- TypeExpression(known, items);
        Ok([ReadonlyArray(element)])
    else if name == "object" then Err(NestedObject)
    else Err(UnknownType)
  }

  function RenderFields(known: set<string>, fields: map<string, Schema>, required: seq<string>,
      names: seq<string>): Result<seq<Field>, Refusal>
    requires forall n :: n in names ==> n in fields
  {
    if names == [] then Ok([])
    else if !IsIdentifier(names[0]) then Err(PropertyName)
    else
      var first :- TypeExpression(known, fields[names[0]]);
      var rest :- RenderFields(known, fields, required, names[1..]);
      Ok([Field(names[0], names[0] !in required, first)] + rest)
  }

  /** One component as an interface. */
  function RenderInterface(known: set<string>, s: Schema): Result<seq<Field>, Refusal> {
    if !KeywordsSupported(s) then Err(Keyword)
    else if s.Types() != ["object"] then Err(TopLevelType)
    else if s.properties.NoProperties? || s.properties.fields == map[] then Err(NoPropertiesGiven)
    else if exists n :: n in s.Required() && n !in s.properties.fields then Err(RequiredUndefined)
    else RenderFields(known, s.properties.fields, s.Required(), SortedKeys(s.properties.fields.Keys))
  }

  type Interfaces = map<string, seq<Field>>

  function RenderComponents(schemas: Components, names: seq<string>): Result<Interfaces, Refusal>
    requires forall n :: n in names ==> n in schemas
  {
    if names == [] then Ok(map[]) else
      var first :- RenderInterface(schemas.Keys, schemas[names[0]]);
      var rest :- RenderComponents(schemas, names[1..]);
      Ok(rest[names[0] := first])
  }

  /** The whole document: one interface for each component. */
  function Render(schemas: Components): Result<Interfaces, Refusal> {
    if schemas == map[] then Err(NothingToGenerate)
    else if exists n :: n in schemas && !IsIdentifier(n) then Err(ComponentName)
    else RenderComponents(schemas, SortedKeys(schemas.Keys))
  }

  // ---- Values ----------------------------------------------------------------------------

  /** What a number token denotes. */
  type Numerals = string -> real

  predicate HasType(numeral: Numerals, name: string, v: Json) {
    match name
    case "null" => v.JNull?
    case "boolean" => v.JBool?
    case "string" => v.JString?
    case "number" => v.JNumber?
    case "integer" => v.JNumber? && numeral(v.literal) == numeral(v.literal).Floor as real
    case "array" => v.JArray?
    case "object" => v.JObject?
    case _ => false
  }

  predicate EqualsMember(numeral: Numerals, m: EnumValue, v: Json) {
    match m
    case EnumText(text) => v == JString(text)
    case EnumNumber(literal) => v.JNumber? && numeral(v.literal) == numeral(literal)
    case EnumNull => v.JNull?
    case EnumOther => false
  }

  /** Validity under JSON Schema 2020-12 of the keywords that shape the type: section 6.1 and
      6.5.3 of the validation vocabulary, sections 10.2.1.3 and 10.3 of the core. */
  ghost predicate Valid(numeral: Numerals, schemas: Components, s: Schema, v: Json)
    decreases v, 2, s
  {
    && (s.ref.Some? ==> RefName(s.ref.value).Some? && RefName(s.ref.value).value in schemas
                        && ValidComponent(numeral, schemas, schemas[RefName(s.ref.value).value], v))
    && (s.types.Some? ==> exists i :: 0 <= i < |s.types.value| && HasType(numeral, s.types.value[i], v))
    && (s.values.Some? ==> exists i :: 0 <= i < |s.values.value| && EqualsMember(numeral, s.values.value[i], v))
    && (s.oneOf.OneOf? ==>
          exists i :: 0 <= i < |s.oneOf.members| && Valid(numeral, schemas, s.oneOf.members[i], v)
                      && forall j :: 0 <= j < |s.oneOf.members| && j != i ==>
                         !Valid(numeral, schemas, s.oneOf.members[j], v))
    && (s.items.ItemsOf? && v.JArray? ==>
          forall i :: 0 <= i < |v.items| ==> Valid(numeral, schemas, s.items.schema, v.items[i]))
    && (v.JObject? ==> ValidObject(numeral, schemas, s, v))
  }

  ghost predicate ValidObject(numeral: Numerals, schemas: Components, s: Schema, v: Json)
    requires v.JObject?
    decreases v, 0, s
  {
    && (forall i :: 0 <= i < |s.Required()| ==> s.Required()[i] in v.fields)
    && (s.properties.Properties? ==>
          forall n :: n in s.properties.fields && n in v.fields ==>
                        Valid(numeral, schemas, s.properties.fields[n], v.fields[n]))
  }

  /** Validity under a component, by the keywords an interface is made of. Leaving out what else
      a component might carry makes more values valid; where it matters, in a lossless document,
      a component carries nothing else (`ComponentIsWhole`). */
  ghost predicate ValidComponent(numeral: Numerals, schemas: Components, s: Schema, v: Json)
    decreases v, 1, s
  {
    && (s.types.Some? ==> exists i :: 0 <= i < |s.types.value| && HasType(numeral, s.types.value[i], v))
    && (v.JObject? ==> ValidObject(numeral, schemas, s, v))
  }

  /** The values of a TypeScript type. A name the language gives to a primitive is that
      primitive; an interface is open. */
  ghost predicate Inhabits(numeral: Numerals, env: Interfaces, t: Ts, v: Json)
    decreases v, t, 1
  {
    exists i :: 0 <= i < |t| && InhabitsAtom(numeral, env, t[i], v)
  }

  ghost predicate InhabitsAtom(numeral: Numerals, env: Interfaces, a: Atom, v: Json)
    decreases v, a, 0
  {
    match a
    case TString => v.JString?
    case TNumber => v.JNumber?
    case TBoolean => v.JBool?
    case TNull => v.JNull?
    case StringLiteral(text) => v == JString(text)
    case NumberLiteral(literal) => v.JNumber? && numeral(v.literal) == numeral(literal)
    case ReadonlyArray(element) =>
      v.JArray? && forall i :: 0 <= i < |v.items| ==> Inhabits(numeral, env, element, v.items[i])
    case Blank => false
    case Named(name) =>
      if name == "string" then v.JString? else if name == "number" then v.JNumber?
      else if name == "boolean" then v.JBool? else if name == "null" then v.JNull?
      else name in env && v.JObject? && forall i :: 0 <= i < |env[name]| ==>
        var f := env[name][i];
        if f.name in v.fields then Inhabits(numeral, env, f.fieldType, v.fields[f.name]) else f.optional
  }

  // ---- What the generator relies on ------------------------------------------------------

  /** No enumeration lists null, and its numbers are number tokens. */
  ghost predicate PlainMembers(values: seq<EnumValue>) {
    forall i :: 0 <= i < |values| ==>
      !values[i].EnumNull? && (values[i].EnumNumber? ==> IsNumberToken(values[i].literal))
  }

  ghost predicate Plain(s: Schema) {
    && (s.values.Some? ==> PlainMembers(s.values.value))
    && (s.items.ItemsOf? ==> Plain(s.items.schema))
    && (s.oneOf.OneOf? ==> forall i :: 0 <= i < |s.oneOf.members| ==> Plain(s.oneOf.members[i]))
    && (s.properties.Properties? ==> forall n :: n in s.properties.fields ==> Plain(s.properties.fields[n]))
  }

  /** Component names are identifiers that TypeScript does not reserve. */
  ghost predicate GoodNames(known: set<string>) {
    forall n :: n in known ==> IsIdentifier(n) && !IsReserved(n)
  }

  /** A document the generator accepted, with the two things it does not check itself. */
  ghost predicate Emitted(schemas: Components, env: Interfaces) {
    && Render(schemas) == Ok(env) && GoodNames(schemas.Keys)
    && forall n :: n in schemas ==> Plain(schemas[n])
  }

  lemma {:induction false} FieldsContent(known: set<string>, fields: map<string, Schema>, required: seq<string>,
      names: seq<string>)
    requires forall n :: n in names ==> n in fields
    requires RenderFields(known, fields, required, names).Ok?
    ensures var r := RenderFields(known, fields, required, names).value;
            |r| == |names| &&
            forall i :: 0 <= i < |names| ==> names[i] in fields && IsRendered(known, fields, required, names[i], r[i])
  {
    hide TypeExpression, IsIdentifier;
    if names != [] {
      FieldsContent(known, fields, required, names[1..]);
      var r := RenderFields(known, fields, required, names).value;
      assert IsRendered(known, fields, required, names[0], r[0]);
      assert r[1..] == RenderFields(known, fields, required, names[1..]).value;
      hide RenderFields, IsRendered;
      forall i | 0 <= i < |names| ensures names[i] in fields && IsRendered(known, fields, required, names[i], r[i]) {
        assert i > 0 ==> names[i] == names[1..][i - 1] && r[i] == r[1..][i - 1];
      }
    }
  }

  /** A field says its name, whether it may be absent, and its type. */
  predicate IsRendered(known: set<string>, fields: map<string, Schema>, required: seq<string>, name: string, f: Field)
    requires name in fields
  {
    f.name == name && f.optional == (name !in required) && TypeExpression(known, fields[name]) == Ok(f.fieldType)
  }

  /** Every component of an accepted document has its interface. */
  lemma {:induction false} ComponentsContent(schemas: Components, names: seq<string>)
    requires forall n :: n in names ==> n in schemas
    requires RenderComponents(schemas, names).Ok?
    ensures var env := RenderComponents(schemas, names).value;
            forall n :: n in names ==> n in env && RenderInterface(schemas.Keys, schemas[n]) == Ok(env[n])
  {
    if names != [] { ComponentsContent(schemas, names[1..]); }
  }

  lemma EmittedInterface(schemas: Components, env: Interfaces, name: string)
    requires Emitted(schemas, env) && name in schemas
    ensures name in env && RenderInterface(schemas.Keys, schemas[name]) == Ok(env[name])
  {
    ComponentsContent(schemas, SortedKeys(schemas.Keys));
    assert name in SortedKeys(schemas.Keys);
  }

  // ---- Repeats ---------------------------------------------------------------------------

  ghost predicate AllWellFormed(members: seq<Ts>) { forall i :: 0 <= i < |members| ==> WellFormed(members[i]) }

  /** Collapsing adds no member, and keeps none whose text was seen. */
  lemma {:induction false} CollapseSelects(members: seq<Ts>, seen: set<string>, m: Ts)
    requires m in Collapse(members, seen)
    ensures m in members && Print(m) !in seen
  {
    hide Print;
    var text := Print(members[0]);
    if text in seen {
      CollapseSelects(members[1..], seen, m);
    } else if m != members[0] {
      CollapseSelects(members[1..], seen + {text}, m);
    }
  }

  /** No text is lost. */
  lemma {:induction false} CollapseCovers(members: seq<Ts>, seen: set<string>, m: Ts) returns (k: Ts)
    requires m in members && Print(m) !in seen
    ensures k in Collapse(members, seen) && Print(k) == Print(m)
  {
    hide Print;
    var text := Print(members[0]);
    assert m == members[0] || m in members[1..];
    if text in seen {
      k := CollapseCovers(members[1..], seen, m);
    } else if text == Print(m) {
      k := members[0];
    } else {
      k := CollapseCovers(members[1..], seen + {text}, m);
    }
  }

  /** No text is kept twice. */
  lemma {:induction false} CollapseHasNoRepeats(members: seq<Ts>, seen: set<string>, i: nat, j: nat)
    requires i < j < |Collapse(members, seen)|
    ensures Print(Collapse(members, seen)[i]) != Print(Collapse(members, seen)[j])
  {
    hide Print;
    var text := Print(members[0]);
    if text in seen {
      CollapseHasNoRepeats(members[1..], seen, i, j);
    } else if i > 0 {
      CollapseHasNoRepeats(members[1..], seen + {text}, i - 1, j - 1);
    } else {
      CollapseSelects(members[1..], seen + {text}, Collapse(members[1..], seen + {text})[j - 1]);
    }
  }

  /** On well-formed members collapsing keeps exactly the members. */
  lemma CollapseKeepsMembers(members: seq<Ts>)
    requires AllWellFormed(members)
    ensures forall m :: m in Collapse(members, {}) <==> m in members
  {
    forall m | m in Collapse(members, {}) ensures m in members { CollapseSelects(members, {}, m); }
    forall m | m in members ensures m in Collapse(members, {}) {
      var k := CollapseCovers(members, {}, m);
      CollapseSelects(members, {}, k);
      PrintInjective(k, m);
    }
  }

  lemma {:induction false} ConcatContent(members: seq<Ts>)
    ensures forall a :: a in Concat(members) <==> exists i :: 0 <= i < |members| && a in members[i]
  {
    if members != [] {
      ConcatContent(members[1..]);
      forall a ensures a in Concat(members) <==> exists i :: 0 <= i < |members| && a in members[i] {
        if a in Concat(members[1..]) {
          var i :| 0 <= i < |members[1..]| && a in members[1..][i];
          assert a in members[i + 1];
        }
        if i :| 0 <= i < |members| && a in members[i] {
          assert i > 0 ==> members[1..][i - 1] == members[i];
        }
      }
    }
  }

  lemma {:induction false} ConcatWellFormed(members: seq<Ts>)
    requires AllWellFormed(members) && members != []
    ensures WellFormed(Concat(members))
  {
    if |members| > 1 {
      ConcatWellFormed(members[1..]);
    } else {
      assert Concat(members[1..]) == [];
    }
  }

  /** A union with its repeats collapsed has the values of its members. */
  lemma UnionGives(numeral: Numerals, env: Interfaces, members: seq<Ts>, kept: seq<Ts>, t: Ts, v: Json)
    requires forall m :: m in kept ==> m in members
    requires forall a :: a in t ==> exists j :: 0 <= j < |kept| && a in kept[j]
    requires Inhabits(numeral, env, t, v)
    ensures exists i :: 0 <= i < |members| && Inhabits(numeral, env, members[i], v)
  {
    hide InhabitsAtom;
    var i :| 0 <= i < |t| && InhabitsAtom(numeral, env, t[i], v);
    assert t[i] in t;
    var j :| 0 <= j < |kept| && t[i] in kept[j];
    assert kept[j] in members;
    var k :| 0 <= k < |members| && members[k] == kept[j];
    var l :| 0 <= l < |kept[j]| && kept[j][l] == t[i];
    assert Inhabits(numeral, env, members[k], v);
  }

  lemma MemberGives(numeral: Numerals, env: Interfaces, members: seq<Ts>, i: nat, kept: seq<Ts>, t: Ts, v: Json)
    requires i < |members| && members[i] in kept && Inhabits(numeral, env, members[i], v)
    requires forall j, a :: 0 <= j < |kept| && a in kept[j] ==> a in t
    ensures Inhabits(numeral, env, t, v)
  {
    hide InhabitsAtom;
    var j :| 0 <= j < |kept| && kept[j] == members[i];
    var l :| 0 <= l < |members[i]| && InhabitsAtom(numeral, env, members[i][l], v);
    assert members[i][l] in kept[j];
    assert members[i][l] in t;
    var m :| 0 <= m < |t| && t[m] == members[i][l];
  }

  lemma UnionMeaning(numeral: Numerals, env: Interfaces, members: seq<Ts>, v: Json)
    requires AllWellFormed(members) && members != []
    ensures WellFormed(Concat(Collapse(members, {})))
    ensures Inhabits(numeral, env, Concat(Collapse(members, {})), v) <==>
            exists i :: 0 <= i < |members| && Inhabits(numeral, env, members[i], v)
  {
    var kept := Collapse(members, {});
    CollapseKeepsMembers(members);
    assert members[0] in kept;
    assert forall i :: 0 <= i < |kept| ==> kept[i] in kept;
    ConcatWellFormed(kept);
    ConcatContent(kept);
    hide InhabitsAtom, WellFormed, Collapse, Concat, AllWellFormed;
    var t := Concat(kept);
    if Inhabits(numeral, env, t, v) { UnionGives(numeral, env, members, kept, t, v); }
    if i :| 0 <= i < |members| && Inhabits(numeral, env, members[i], v) {
      MemberGives(numeral, env, members, i, kept, t, v);
    }
  }

  // ---- Enumerations ----------------------------------------------------------------------

  lemma {:induction false} LiteralsContent(values: seq<EnumValue>)
    requires EnumLiterals(values).Ok?
    ensures var r := EnumLiterals(values).value;
            |r| == |values| && forall i :: 0 <= i < |r| ==> EnumLiteral(values[i]) == Ok(r[i])
  {
    if values != [] { LiteralsContent(values[1..]); }
  }

  /** The literal types of an enumeration hold exactly the values it lists. */
  lemma EnumMeaning(numeral: Numerals, env: Interfaces, values: seq<EnumValue>, types: seq<string>, v: Json)
    requires RenderEnum(values, types).Ok? && PlainMembers(values)
    ensures WellFormed(RenderEnum(values, types).value)
    ensures Inhabits(numeral, env, RenderEnum(values, types).value, v) <==>
            exists i :: 0 <= i < |values| && EqualsMember(numeral, values[i], v)
  {
    var literals := EnumLiterals(values).value;
    LiteralsContent(values);
    var members := Singletons(literals);
    forall i | 0 <= i < |members|
      ensures WellFormed(members[i]) && (Inhabits(numeral, env, members[i], v) <==> EqualsMember(numeral, values[i], v))
    {
      assert EnumLiteral(values[i]) == Ok(literals[i]);
      SingleMeaning(numeral, env, literals[i], v);
    }
    UnionMeaning(numeral, env, members, v);
  }

  lemma SingleMeaning(numeral: Numerals, env: Interfaces, a: Atom, v: Json)
    ensures Inhabits(numeral, env, [a], v) <==> InhabitsAtom(numeral, env, a, v)
  {
    assert [a][0] == a;
  }

  lemma NullableMeaning(numeral: Numerals, env: Interfaces, t: Ts, v: Json)
    ensures Inhabits(numeral, env, t + [TNull], v) <==> Inhabits(numeral, env, t, v) || v.JNull?
  {
    var u := t + [TNull];
    assert u[|t|] == TNull && forall i :: 0 <= i < |t| ==> u[i] == t[i];
  }

  // ---- Types -----------------------------------------------------------------------------

  /** Among accepted type names at most one is not null; it is the one the member came from. */
  lemma {:induction false} NamedTypesContent(known: set<string>, s: Schema, types: seq<string>) returns (name: string)
    requires RenderNamedTypes(known, s, types).Ok? && |RenderNamedTypes(known, s, types).value| <= 1
    ensures forall i :: 0 <= i < |types| ==> types[i] == "null" || types[i] == name
    ensures var members := RenderNamedTypes(known, s, types).value;
            if members == [] then name == "null"
            else name in types && name != "null" && RenderNamedType(known, s, name) == Ok(members[0])
  {
    name := "null";
    if types != [] {
      name := NamedTypesContent(known, s, types[1..]);
      if types[0] != "null" { name := types[0]; }
      assert forall i :: 0 < i < |types| ==> types[i] == types[1..][i - 1];
    }
  }

  /** Nothing that the emitted type cannot say: no integers, no oneOf, no enumeration that a
      `type` narrows further. */
  ghost predicate Lossless(s: Schema) {
    && "integer" !in s.Types() && s.oneOf.NoOneOf? && (s.values.Some? ==> s.types.None?)
    && (s.items.ItemsOf? ==> Lossless(s.items.schema))
    && (s.properties.Properties? ==> forall n :: n in s.properties.fields ==> Lossless(s.properties.fields[n]))
  }

  ghost predicate LosslessComponents(schemas: Components) {
    forall n :: n in schemas ==> schemas[n].ref.None? && Lossless(schemas[n])
  }

  /** In a lossless document validity under a component is validity under all its keywords, and
      in any document it is no more than that. */
  lemma ComponentIsWhole(numeral: Numerals, schemas: Components, name: string, v: Json)
    requires name in schemas && RenderInterface(schemas.Keys, schemas[name]).Ok?
    ensures Valid(numeral, schemas, schemas[name], v) ==> ValidComponent(numeral, schemas, schemas[name], v)
    ensures LosslessComponents(schemas) ==>
              (ValidComponent(numeral, schemas, schemas[name], v) ==> Valid(numeral, schemas, schemas[name], v))
  {
    hide RenderFields, SortedKeys, KeywordsSupported, ValidObject, RefName;
    assert schemas[name].types == Some(["object"]);
  }

  /** The four shapes of an accepted fragment, and the type of each. */
  lemma TypeCases(known: set<string>, s: Schema)
    requires TypeExpression(known, s).Ok?
    ensures s.ref.Some? ==>
              && !HasSibling(s) && RefName(s.ref.value).Some? && RefName(s.ref.value).value in known
              && TypeExpression(known, s) == Ok([Named(RefName(s.ref.value).value)])
    ensures s.ref.None? && s.oneOf.OneOf? ==>
              && s.oneOf.members != [] && RenderMembers(known, s.oneOf.members).Ok?
              && TypeExpression(known, s) == Ok(Concat(Collapse(RenderMembers(known, s.oneOf.members).value, {})))
    ensures s.ref.None? && s.oneOf.NoOneOf? && s.values.Some? ==>
              TypeExpression(known, s) == RenderEnum(s.values.value, s.Types())
    ensures s.ref.None? && s.oneOf.NoOneOf? && s.values.None? ==> TypeExpression(known, s) == RenderType(known, s)
  {
    hide KeywordsSupported, Concat, Collapse, RenderEnum, RenderType, RenderMembers, RefName, HasSibling;
  }

  /** An accepted `type`: all its names are null but one, or all are. */
  lemma RenderTypeCases(known: set<string>, s: Schema) returns (name: string)
    requires RenderType(known, s).Ok?
    ensures s.Types() != [] && forall i :: 0 <= i < |s.Types()| ==> s.Types()[i] == "null" || s.Types()[i] == name
    ensures name == "null" ==> RenderType(known, s) == Ok([TNull])
    ensures name != "null" ==>
              && name in s.Types() && RenderNamedType(known, s, name).Ok?
              && RenderType(known, s) == Ok(RenderNamedType(known, s, name).value +
                                            if "null" in s.Types() then [TNull] else [])
  {
    hide RenderNamedType, RenderNamedTypes;
    name := NamedTypesContent(known, s, s.Types());
    var members := RenderNamedTypes(known, s, s.Types()).value;
    assert members != [] ==> members[0] + [] == members[0];
  }

  /** On `v` the type says all that the schema says, and when nothing is lost no more. */
  ghost predicate Agrees(numeral: Numerals, schemas: Components, env: Interfaces, s: Schema, t: Ts, v: Json) {
    && (Valid(numeral, schemas, s, v) ==> Inhabits(numeral, env, t, v))
    && (LosslessComponents(schemas) && Lossless(s) && Inhabits(numeral, env, t, v) ==> Valid(numeral, schemas, s, v))
  }

  ghost predicate ComponentAgrees(numeral: Numerals, schemas: Components, env: Interfaces, name: string, v: Json)
    requires name in schemas
  {
    && (ValidComponent(numeral, schemas, schemas[name], v) ==> InhabitsAtom(numeral, env, Named(name), v))
    && (LosslessComponents(schemas) && InhabitsAtom(numeral, env, Named(name), v) ==>
          ValidComponent(numeral, schemas, schemas[name], v))
  }

  /** `fields` are the members of the interface of `s`, in the order of `names`. */
  ghost predicate FieldsOf(known: set<string>, s: Schema, names: seq<string>, fields: seq<Field>) {
    && s.types == Some(["object"]) && s.properties.Properties? && |fields| == |names|
    && (forall n :: n in names <==> n in s.properties.fields)
    && (forall n :: n in s.Required() ==> n in s.properties.fields)
    && (forall i :: 0 <= i < |names| ==> names[i] in names && IsFieldOf(known, s, fields[i], names[i]))
  }

  ghost predicate IsFieldOf(known: set<string>, s: Schema, f: Field, name: string) {
    s.properties.Properties? && name in s.properties.fields && f.name == name &&
    f.optional == (name !in s.Required()) &&
    TypeExpression(known, s.properties.fields[name]) == Ok(f.fieldType)
  }

  lemma InterfaceIsFields(known: set<string>, s: Schema)
    requires RenderInterface(known, s).Ok?
    ensures FieldsOf(known, s, SortedKeys(s.properties.fields.Keys), RenderInterface(known, s).value)
  {
    hide TypeExpression, KeywordsSupported, SortedKeys;
    FieldsContent(known, s.properties.fields, s.Required(), SortedKeys(s.properties.fields.Keys));
  }

  /** An interface holds every valid object, and in a lossless document nothing else. */
  lemma {:induction false} InterfaceMeaning(numeral: Numerals, schemas: Components, env: Interfaces, name: string,
      v: Json)
    requires Emitted(schemas, env) && name in schemas
    ensures ComponentAgrees(numeral, schemas, env, name, v)
    decreases v, 0
  {
    hide TypeExpression, Valid, Inhabits, InhabitsAtom, Emitted, RenderInterface, Plain, Lossless, SortedKeys,
         IsPrimitiveName;
    EmittedInterface(schemas, env, name);
    EmittedComponent(schemas, env, name);
    var s, fields := schemas[name], env[name];
    InterfaceIsFields(schemas.Keys, s);
    var names := SortedKeys(s.properties.fields.Keys);
    OnlyObjects(numeral, schemas, env, name, v);
    if v.JObject? {
      forall i | 0 <= i < |names| && names[i] in v.fields
        ensures Agrees(numeral, schemas, env, s.properties.fields[names[i]], fields[i].fieldType, v.fields[names[i]])
      {
        assert IsFieldOf(schemas.Keys, s, fields[i], names[i]);
        PlainProperty(s, names[i]);
        TypeMeaning(numeral, schemas, env, s.properties.fields[names[i]], fields[i].fieldType, v.fields[names[i]]);
      }
      InterfaceFields(numeral, schemas, env, name, names, v);
    }
  }

  lemma EmittedComponent(schemas: Components, env: Interfaces, name: string)
    requires Emitted(schemas, env) && name in schemas
    ensures Plain(schemas[name]) && !IsPrimitiveName(name) && GoodNames(schemas.Keys)
  {
    hide Plain, Render, IsPrimitiveName, IsIdentifier;
  }

  lemma OnlyObjects(numeral: Numerals, schemas: Components, env: Interfaces, name: string, v: Json)
    requires name in schemas && schemas[name].types == Some(["object"]) && !IsPrimitiveName(name)
    ensures ValidComponent(numeral, schemas, schemas[name], v) || InhabitsAtom(numeral, env, Named(name), v) ==>
            v.JObject?
  {
    hide ValidObject, Inhabits;
  }

  lemma PlainProperty(s: Schema, n: string)
    requires Plain(s) && s.properties.Properties? && n in s.properties.fields
    ensures Plain(s.properties.fields[n])
  {
  }

  lemma LosslessProperty(s: Schema, n: string)
    requires Lossless(s) && s.properties.Properties? && n in s.properties.fields
    ensures Lossless(s.properties.fields[n])
  {
  }

  /** A member of an interface holds of an object: it is there with its type, or it may be absent. */
  ghost predicate FieldHolds(numeral: Numerals, env: Interfaces, f: Field, v: Json)
    requires v.JObject?
  {
    if f.name in v.fields then Inhabits(numeral, env, f.fieldType, v.fields[f.name]) else f.optional
  }

  lemma NamedIsFields(numeral: Numerals, env: Interfaces, name: string, v: Json)
    requires !IsPrimitiveName(name) && name in env && v.JObject?
    ensures InhabitsAtom(numeral, env, Named(name), v) <==>
            forall i :: 0 <= i < |env[name]| ==> FieldHolds(numeral, env, env[name][i], v)
  {
    hide Inhabits;
    if InhabitsAtom(numeral, env, Named(name), v) {
      forall i | 0 <= i < |env[name]| ensures FieldHolds(numeral, env, env[name][i], v) {
        var f := env[name][i];
      }
    }
    if forall i :: 0 <= i < |env[name]| ==> FieldHolds(numeral, env, env[name][i], v) {
      forall i | 0 <= i < |env[name]|
        ensures var f := env[name][i];
                if f.name in v.fields then Inhabits(numeral, env, f.fieldType, v.fields[f.name]) else f.optional
      {
        assert FieldHolds(numeral, env, env[name][i], v);
      }
    }
  }

  lemma ValidComponentIsObject(numeral: Numerals, schemas: Components, s: Schema, v: Json)
    requires s.types == Some(["object"]) && v.JObject?
    ensures ValidComponent(numeral, schemas, s, v) <==> ValidObject(numeral, schemas, s, v)
  {
    hide ValidObject;
    assert s.types.value[0] == "object";
  }

  lemma InterfaceFields(numeral: Numerals, schemas: Components, env: Interfaces, name: string, names: seq<string>,
      v: Json)
    requires name in schemas && name in env && v.JObject? && !IsPrimitiveName(name)
    requires FieldsOf(schemas.Keys, schemas[name], names, env[name])
    requires forall i :: 0 <= i < |names| && names[i] in v.fields ==>
               Agrees(numeral, schemas, env, schemas[name].properties.fields[names[i]], env[name][i].fieldType,
                      v.fields[names[i]])
    ensures ComponentAgrees(numeral, schemas, env, name, v)
  {
    hide TypeExpression, Valid, Inhabits, InhabitsAtom, ValidComponent, Lossless, IsPrimitiveName;
    var s, fields := schemas[name], env[name];
    NamedIsFields(numeral, env, name, v);
    ValidComponentIsObject(numeral, schemas, s, v);
    if ValidObject(numeral, schemas, s, v) {
      forall i | 0 <= i < |fields| ensures FieldHolds(numeral, env, fields[i], v) {
        assert names[i] in names && IsFieldOf(schemas.Keys, s, fields[i], names[i]);
        if names[i] in s.Required() { var j :| 0 <= j < |s.Required()| && s.Required()[j] == names[i]; }
      }
    }
    if LosslessComponents(schemas) && InhabitsAtom(numeral, env, Named(name), v) {
      forall n | n in s.properties.fields
        ensures n in v.fields ==> Valid(numeral, schemas, s.properties.fields[n], v.fields[n])
        ensures n in s.Required() ==> n in v.fields
      {
        var i :| 0 <= i < |names| && names[i] == n;
        assert IsFieldOf(schemas.Keys, s, fields[i], names[i]);
        assert FieldHolds(numeral, env, fields[i], v);
        LosslessProperty(s, n);
      }
      forall i | 0 <= i < |s.Required()| ensures s.Required()[i] in v.fields {
        assert s.Required()[i] in s.Required();
      }
    }
  }

  /** The elements of an array, when the fragment says what they are, are valid. */
  ghost predicate ValidItems(numeral: Numerals, schemas: Components, s: Schema, v: Json) {
    v.JArray? && s.items.ItemsOf? ==>
      forall i :: 0 <= i < |v.items| ==> Valid(numeral, schemas, s.items.schema, v.items[i])
  }

  /** What `Agrees` asks, for one named type of a fragment. */
  ghost predicate NamedAgrees(numeral: Numerals, schemas: Components, env: Interfaces, s: Schema, name: string, t: Ts,
      v: Json) {
    && (HasType(numeral, name, v) && ValidItems(numeral, schemas, s, v) ==> Inhabits(numeral, env, t, v))
    && (LosslessComponents(schemas) && Lossless(s) && name != "integer" && Inhabits(numeral, env, t, v) ==>
          HasType(numeral, name, v) && !v.JObject? && ValidItems(numeral, schemas, s, v))
  }

  lemma {:induction false} NamedTypeMeaning(numeral: Numerals, schemas: Components, env: Interfaces, s: Schema,
      name: string, v: Json)
    requires Emitted(schemas, env) && Plain(s) && RenderNamedType(schemas.Keys, s, name).Ok?
    ensures NamedAgrees(numeral, schemas, env, s, name, RenderNamedType(schemas.Keys, s, name).value, v)
    decreases v, 1
  {
    hide TypeExpression, Valid, Emitted, Plain, Lossless, LosslessComponents, Inhabits;
    if name == "array" {
      var items := s.items.schema;
      var element := TypeExpression(schemas.Keys, items).value;
      SingleMeaning(numeral, env, ReadonlyArray(element), v);
      PlainItems(s);
      if v.JArray? {
        forall i | 0 <= i < |v.items| ensures Agrees(numeral, schemas, env, items, element, v.items[i]) {
          TypeMeaning(numeral, schemas, env, items, element, v.items[i]);
        }
      }
      ArrayMeaning(numeral, schemas, env, s, element, v);
    } else {
      ScalarMeaning(numeral, env, name, s.format, v);
    }
  }

  lemma ScalarMeaning(numeral: Numerals, env: Interfaces, name: string, format: Option<string>, v: Json)
    requires name == "string" || name == "integer" || name == "number" || name == "boolean"
    requires RenderScalar(name, format).Ok?
    ensures var t := RenderScalar(name, format).value;
            && (HasType(numeral, name, v) ==> Inhabits(numeral, env, t, v))
            && (Inhabits(numeral, env, t, v) && name != "integer" ==>
                HasType(numeral, name, v) && !v.JObject? && !v.JArray?)
  {
    SingleMeaning(numeral, env, RenderScalar(name, format).value[0], v);
    hide Inhabits;
  }

  lemma ArrayMeaning(numeral: Numerals, schemas: Components, env: Interfaces, s: Schema, element: Ts, v: Json)
    requires s.items.ItemsOf?
    requires v.JArray? ==>
               forall i :: 0 <= i < |v.items| ==> Agrees(numeral, schemas, env, s.items.schema, element, v.items[i])
    ensures NamedAgrees(numeral, schemas, env, s, "array", [ReadonlyArray(element)], v)
  {
    hide Valid, Inhabits, Lossless, LosslessComponents;
    SingleMeaning(numeral, env, ReadonlyArray(element), v);
    PlainItems(s);
  }

  lemma PlainItems(s: Schema)
    requires s.items.ItemsOf?
    ensures Plain(s) ==> Plain(s.items.schema)
    ensures Lossless(s) ==> Lossless(s.items.schema)
  {
  }

  lemma {:induction false} MembersContent(known: set<string>, members: seq<Schema>)
    requires RenderMembers(known, members).Ok?
    ensures var r := RenderMembers(known, members).value;
            |r| == |members| && forall i :: 0 <= i < |r| ==> TypeExpression(known, members[i]) == Ok(r[i])
  {
    hide TypeExpression;
    if members != [] { MembersContent(known, members[1..]); }
  }

  /** Every emitted type is one that reads back. */
  lemma {:induction false} TypeWellFormed(known: set<string>, s: Schema)
    requires GoodNames(known) && Plain(s) && TypeExpression(known, s).Ok?
    ensures WellFormed(TypeExpression(known, s).value)
    decreases s, 1
  {
    hide TypeExpression, WellFormedAtom, Concat, Collapse, RenderEnum, RenderType, RenderNamedType, RenderMembers,
         RefName;
    TypeCases(known, s);
    PrimitiveWellFormed();
    if s.ref.Some? {
      NamedWellFormed(RefName(s.ref.value).value);
    } else if s.oneOf.OneOf? {
      MembersWellFormed(known, s);
      MembersContent(known, s.oneOf.members);
      UnionMeaning(_ => 0.0, map[], RenderMembers(known, s.oneOf.members).value, JNull);
    } else if s.values.Some? {
      EnumMeaning(_ => 0.0, map[], s.values.value, s.Types(), JNull);
    } else {
      var name := RenderTypeCases(known, s);
      if name != "null" { NamedTypeWellFormed(known, s, name); }
    }
  }

  lemma NamedWellFormed(name: string)
    requires IsIdentifier(name) && !IsPrimitiveName(name)
    ensures WellFormed([Named(name)])
  {
  }

  lemma PrimitiveWellFormed()
    ensures WellFormedAtom(TNull) && WellFormedAtom(TString) && WellFormedAtom(TNumber) && WellFormedAtom(TBoolean)
  {
  }

  lemma {:induction false} NamedTypeWellFormed(known: set<string>, s: Schema, name: string)
    requires GoodNames(known) && Plain(s) && RenderNamedType(known, s, name).Ok?
    ensures WellFormed(RenderNamedType(known, s, name).value)
    decreases s, 0
  {
    hide TypeExpression, Plain;
    if name == "array" {
      PlainItems(s);
      TypeWellFormed(known, s.items.schema);
    }
  }

  lemma {:induction false} MembersWellFormed(known: set<string>, s: Schema)
    requires GoodNames(known) && Plain(s) && s.oneOf.OneOf? && RenderMembers(known, s.oneOf.members).Ok?
    ensures AllWellFormed(RenderMembers(known, s.oneOf.members).value)
    decreases s, 0
  {
    hide TypeExpression;
    MembersContent(known, s.oneOf.members);
    forall i | 0 <= i < |s.oneOf.members| ensures WellFormed(RenderMembers(known, s.oneOf.members).value[i]) {
      TypeWellFormed(known, s.oneOf.members[i]);
    }
  }

  lemma {:induction false} UnionOfSchemas(numeral: Numerals, schemas: Components, env: Interfaces, s: Schema, v: Json)
    requires Emitted(schemas, env) && Plain(s) && s.oneOf.OneOf? && s.oneOf.members != []
    requires RenderMembers(schemas.Keys, s.oneOf.members).Ok? && Valid(numeral, schemas, s, v)
    ensures Inhabits(numeral, env, Concat(Collapse(RenderMembers(schemas.Keys, s.oneOf.members).value, {})), v)
    decreases v, 3, s, 0
  {
    hide TypeExpression, Valid, Inhabits, Emitted, Plain, Concat, Collapse, RenderMembers;
    var members := s.oneOf.members;
    var i := ValidMember(numeral, schemas, s, v);
    EmittedNames(schemas, env);
    MembersWellFormed(schemas.Keys, s);
    MembersContent(schemas.Keys, members);
    var rendered := RenderMembers(schemas.Keys, members).value;
    TypeMeaning(numeral, schemas, env, members[i], rendered[i], v);
    UnionMeaning(numeral, env, rendered, v);
  }

  lemma EmittedNames(schemas: Components, env: Interfaces)
    requires Emitted(schemas, env)
    ensures GoodNames(schemas.Keys)
  {
    hide Render, Plain;
  }

  lemma ValidMember(numeral: Numerals, schemas: Components, s: Schema, v: Json) returns (i: nat)
    requires s.oneOf.OneOf? && Valid(numeral, schemas, s, v) && Plain(s)
    ensures i < |s.oneOf.members| && Valid(numeral, schemas, s.oneOf.members[i], v) && Plain(s.oneOf.members[i])
  {
    i :| 0 <= i < |s.oneOf.members| && Valid(numeral, schemas, s.oneOf.members[i], v);
  }

  /** Validity of a fragment that has no keyword but `type` to read. */
  lemma ValidOfType(numeral: Numerals, schemas: Components, s: Schema, v: Json)
    requires s.ref.None? && s.oneOf.NoOneOf? && s.values.None? && s.types.Some?
    ensures Valid(numeral, schemas, s, v) ==> exists i :: 0 <= i < |s.Types()| && HasType(numeral, s.Types()[i], v)
    ensures Valid(numeral, schemas, s, v) ==> ValidItems(numeral, schemas, s, v)
    ensures (exists i :: 0 <= i < |s.Types()| && HasType(numeral, s.Types()[i], v)) &&
            ValidItems(numeral, schemas, s, v) && !v.JObject? ==>
              Valid(numeral, schemas, s, v)
  {
    hide HasType;
    if Valid(numeral, schemas, s, v) {
      var i :| 0 <= i < |s.types.value| && HasType(numeral, s.types.value[i], v);
      assert HasType(numeral, s.Types()[i], v);
    }
  }

  lemma {:induction false} PlainTypeMeaning(numeral: Numerals, schemas: Components, env: Interfaces, s: Schema, v: Json)
    requires Emitted(schemas, env) && Plain(s) && RenderType(schemas.Keys, s).Ok?
    requires s.ref.None? && s.oneOf.NoOneOf? && s.values.None?
    ensures Agrees(numeral, schemas, env, s, RenderType(schemas.Keys, s).value, v)
    decreases v, 2, s
  {
    var name := RenderTypeCases(schemas.Keys, s);
    ValidOfType(numeral, schemas, s, v);
    SingleMeaning(numeral, env, TNull, v);
    if name == "null" {
      OnlyNull(numeral, schemas, env, s, v);
    } else {
      NamedTypeMeaning(numeral, schemas, env, s, name, v);
      NamedOrNull(numeral, schemas, env, s, name, RenderNamedType(schemas.Keys, s, name).value, v);
    }
    hide *;
  }

  lemma OnlyNull(numeral: Numerals, schemas: Components, env: Interfaces, s: Schema, v: Json)
    requires s.ref.None? && s.oneOf.NoOneOf? && s.values.None? && s.Types() != []
    requires forall i :: 0 <= i < |s.Types()| ==> s.Types()[i] == "null"
    ensures Agrees(numeral, schemas, env, s, [TNull], v)
  {
    hide Valid, Inhabits, Lossless, LosslessComponents;
    ValidOfType(numeral, schemas, s, v);
    SingleMeaning(numeral, env, TNull, v);
    assert s.Types()[0] == "null";
  }

  lemma NamedOrNull(numeral: Numerals, schemas: Components, env: Interfaces, s: Schema, name: string, t: Ts, v: Json)
    requires s.ref.None? && s.oneOf.NoOneOf? && s.values.None? && name in s.Types()
    requires forall i :: 0 <= i < |s.Types()| ==> s.Types()[i] == "null" || s.Types()[i] == name
    requires NamedAgrees(numeral, schemas, env, s, name, t, v)
    ensures Agrees(numeral, schemas, env, s, t + (if "null" in s.Types() then [TNull] else []), v)
  {
    var types := s.Types();
    LosslessTypes(s);
    hide Valid, Inhabits, Lossless, LosslessComponents, ValidItems;
    assert v.JNull? ==> ValidItems(numeral, schemas, s, v) by { NullHasNoItems(numeral, schemas, s, v); }
    ValidOfType(numeral, schemas, s, v);
    NullableMeaning(numeral, env, t, v);
    assert t + [] == t;
    var at :| 0 <= at < |types| && types[at] == name;
    if "null" in types { var nil :| 0 <= nil < |types| && types[nil] == "null"; }
    assert HasType(numeral, "null", v) <==> v.JNull?;
    hide HasType;
  }

  lemma NullHasNoItems(numeral: Numerals, schemas: Components, s: Schema, v: Json)
    ensures v.JNull? ==> ValidItems(numeral, schemas, s, v)
  {
  }

  lemma LosslessTypes(s: Schema)
    ensures Lossless(s) ==> "integer" !in s.Types()
  {
  }

  /** The meaning of the generator. Every value that is valid under a fragment inhabits the type
      emitted for it, through nested arrays, references that may be recursive, nullable types,
      unions and enumerations; and where the type language can say all the schema says, nothing
      else inhabits it. */
  lemma {:induction false} TypeMeaning(numeral: Numerals, schemas: Components, env: Interfaces, s: Schema, t: Ts,
      v: Json)
    requires Emitted(schemas, env) && Plain(s) && TypeExpression(schemas.Keys, s) == Ok(t)
    ensures Agrees(numeral, schemas, env, s, t, v)
    decreases v, 3, s, 1
  {
    hide TypeExpression, Inhabits, InhabitsAtom, ValidComponent, Emitted, Concat, Collapse, RenderEnum, RenderType,
         RenderMembers, RefName, Lossless;
    TypeCases(schemas.Keys, s);
    if s.ref.Some? {
      var name := RefName(s.ref.value).value;
      SingleMeaning(numeral, env, Named(name), v);
      InterfaceMeaning(numeral, schemas, env, name, v);
      ReferenceMeaning(numeral, schemas, s, v);
    } else if s.oneOf.OneOf? {
      if Valid(numeral, schemas, s, v) { UnionOfSchemas(numeral, schemas, env, s, v); }
      LosslessHasNoUnion(s);
    } else if s.values.Some? {
      EnumMeaning(numeral, env, s.values.value, s.Types(), v);
      EnumValidity(numeral, schemas, env, s, v);
    } else {
      PlainTypeMeaning(numeral, schemas, env, s, v);
    }
  }

  lemma LosslessHasNoUnion(s: Schema)
    ensures Lossless(s) ==> s.oneOf.NoOneOf? && (s.values.Some? ==> s.types.None?)
  {
  }

  lemma ReferenceMeaning(numeral: Numerals, schemas: Components, s: Schema, v: Json)
    requires s.ref.Some? && !HasSibling(s) && RefName(s.ref.value).Some? && RefName(s.ref.value).value in schemas
    ensures Valid(numeral, schemas, s, v) <==> ValidComponent(numeral, schemas, schemas[RefName(s.ref.value).value], v)
  {
    hide ValidComponent, RefName;
  }

  /** Validity of a fragment whose enumeration has no `type` beside it. */
  lemma EnumValidity(numeral: Numerals, schemas: Components, env: Interfaces, s: Schema, v: Json)
    requires s.ref.None? && s.oneOf.NoOneOf? && s.values.Some?
    ensures Valid(numeral, schemas, s, v) ==>
            exists i :: 0 <= i < |s.values.value| && EqualsMember(numeral, s.values.value[i], v)
    ensures s.types.None? && (exists i :: 0 <= i < |s.values.value| && EqualsMember(numeral, s.values.value[i], v)) ==>
              Valid(numeral, schemas, s, v)
    ensures Lossless(s) ==> s.types.None?
  {
  }

  // ---- What the two conditions are for ---------------------------------------------------

  lemma {:induction false} LiteralsAreNotNull(numeral: Numerals, env: Interfaces, values: seq<EnumValue>, a: Atom)
    requires EnumLiterals(values).Ok? && a in EnumLiterals(values).value
    ensures !InhabitsAtom(numeral, env, a, JNull)
  {
    LiteralsContent(values);
  }

  /** The emitted union covers an enumeration exactly when null is not one of its members: the
      generator accepts a null member and gives it an empty literal. */
  lemma EnumCoveredExactly(numeral: Numerals, env: Interfaces, values: seq<EnumValue>, types: seq<string>)
    requires RenderEnum(values, types).Ok?
    requires forall i :: 0 <= i < |values| && values[i].EnumNumber? ==> IsNumberToken(values[i].literal)
    ensures EnumNull !in values <==>
            forall v :: (exists i :: 0 <= i < |values| && EqualsMember(numeral, values[i], v)) ==>
                          Inhabits(numeral, env, RenderEnum(values, types).value, v)
  {
    if EnumNull in values {
      var i :| 0 <= i < |values| && values[i] == EnumNull;
      assert EqualsMember(numeral, values[i], JNull);
      var literals := EnumLiterals(values).value;
      var kept := Collapse(Singletons(literals), {});
      forall a | a in Concat(kept) ensures !InhabitsAtom(numeral, env, a, JNull) {
        ConcatContent(kept);
        var k :| 0 <= k < |kept| && a in kept[k];
        CollapseSelects(Singletons(literals), {}, kept[k]);
        LiteralsAreNotNull(numeral, env, values, a);
      }
      assert !Inhabits(numeral, env, Concat(kept), JNull);
    } else {
      forall v | exists i :: 0 <= i < |values| && EqualsMember(numeral, values[i], v)
        ensures Inhabits(numeral, env, RenderEnum(values, types).value, v)
      {
        EnumMeaning(numeral, env, values, types, v);
      }
    }
  }

  /** No name is refused for being reserved: a document of one component is accepted whenever the
      name is an identifier and the component is. */
  lemma OnlyIdentifiersAreAsked(name: string, s: Schema)
    ensures Render(map[name := s]).Ok? <==> IsIdentifier(name) && RenderInterface({name}, s).Ok?
  {
    hide RenderInterface, IsIdentifier;
    var schemas := map[name := s];
    assert schemas.Keys == {name} && name in schemas && schemas[name] == s;
    SortedOne(name);
    assert [name][1..] == [] && [name][0] == name;
    assert RenderComponents(schemas, []).Ok?;
    assert RenderComponents(schemas, [name]).Ok? <==> RenderInterface({name}, s).Ok?;
  }

  lemma SortedOne(name: string)
    ensures SortedKeys({name}) == [name]
  {
    var r := SortedKeys({name});
    forall i | 0 <= i < |r| ensures r[i] == name { assert r[i] in r; }
    assert name in r;
    assert r[0] == r[|r| - 1];
  }

  /** A component that takes the name of a primitive, which TypeScript refuses to declare, is not
      what a reference to it reads as: whatever is valid under the component is an object, and the
      primitive holds none. */
  lemma PrimitiveNameIsTaken(numeral: Numerals, schemas: Components, env: Interfaces, name: string, v: Json)
    requires name in schemas && RenderInterface(schemas.Keys, schemas[name]).Ok? && IsPrimitiveName(name)
    requires ValidComponent(numeral, schemas, schemas[name], v)
    ensures !InhabitsAtom(numeral, env, Named(name), v)
    ensures Print([Named(name)]) in {Print([TString]), Print([TNumber]), Print([TBoolean]), Print([TNull])}
  {
    hide RenderFields, SortedKeys, KeywordsSupported, ValidObject, Inhabits;
    var s := schemas[name];
    assert s.types.value == ["object"];
  }

  // ---- What is accepted ------------------------------------------------------------------

  // The subset, in the words of the documents that define the keywords: sections 6, 7 and 9 of
  // JSON Schema Validation 2020-12, and the format registry of OpenAPI.

  ghost predicate Annotates(keyword: string) {
    keyword in {"title", "description", "default", "deprecated", "readOnly", "writeOnly", "examples", "example"}
  }

  /** Bounds on numbers, strings, arrays and objects: they do not change the type. */
  ghost predicate Bounds(keyword: string) {
    || keyword in {"multipleOf", "maximum", "exclusiveMaximum", "minimum", "exclusiveMinimum"}
    || keyword in {"maxLength", "minLength", "pattern"}
    || keyword in {"maxItems", "minItems", "uniqueItems"}
    || keyword in {"maxProperties", "minProperties"}
  }

  ghost predicate Extends(keyword: string) { |keyword| >= 2 && keyword[0] == 'x' && keyword[1] == '-' }

  ghost predicate OnlyKnownKeywords(s: Schema) {
    forall k :: k in s.others ==> Annotates(k) || Bounds(k) || Extends(k)
  }

  /** Nothing that could change the type stands beside the reference. */
  ghost predicate StandsAlone(s: Schema) {
    s.types == None && s.format == None && s.values == None && s.required == None &&
    s.properties == NoProperties && s.items == NoItems && s.oneOf == NoOneOf
  }

  ghost predicate TextFormat(f: string) {
    f in {"date-time", "duration", "email", "hostname", "ipv4", "ipv6", "uri", "uri-reference", "uuid"} ||
    f in {"byte", "password"}
  }

  ghost predicate NumberFormat(f: string) { f in {"int32", "int64", "float", "double"} }

  ghost predicate NamesComponent(known: set<string>, reference: string) {
    exists name :: name in known && name != "" && reference == "#/components/schemas/" + name
  }

  ghost predicate SupportedMembers(values: seq<EnumValue>, types: seq<string>) {
    && values != [] && (forall i :: 0 <= i < |values| ==> values[i] != EnumOther)
    && forall i :: 0 <= i < |types| ==> types[i] in {"string", "integer", "number"}
  }

  /** One of the types is not null. */
  ghost predicate OnlyType(types: seq<string>, i: int) {
    0 <= i < |types| && types[i] != "null" && forall j :: 0 <= j < |types| && j != i ==> types[j] == "null"
  }

  ghost predicate AllNull(types: seq<string>) { types != [] && forall i :: 0 <= i < |types| ==> types[i] == "null" }

  ghost predicate SupportedType(known: set<string>, s: Schema, name: string)
    decreases s, 0
  {
    || (name == "string" && (s.format.Some? ==> TextFormat(s.format.value)))
    || (name in {"integer", "number"} && (s.format.Some? ==> NumberFormat(s.format.value)))
    || (name == "boolean" && s.format.None?)
    || (name == "array" && s.items.ItemsOf? && Supported(known, s.items.schema))
  }

  /** The fragments of the subset. */
  ghost predicate Supported(known: set<string>, s: Schema)
    decreases s, 1
  {
    OnlyKnownKeywords(s) &&
    if s.ref.Some? then StandsAlone(s) && NamesComponent(known, s.ref.value)
    else if s.oneOf.OneOf? then
      s.Types() == [] && s.values.None? && s.oneOf.members != [] &&
      forall i :: 0 <= i < |s.oneOf.members| ==> Supported(known, s.oneOf.members[i])
    else if s.values.Some? then SupportedMembers(s.values.value, s.Types())
    else AllNull(s.Types()) || exists i :: OnlyType(s.Types(), i) && SupportedType(known, s, s.Types()[i])
  }

  ghost predicate PlainName(name: string) {
    name != "" && !('0' <= name[0] <= '9') &&
    forall i :: 0 <= i < |name| ==>
      'a' <= name[i] <= 'z' || 'A' <= name[i] <= 'Z' || '0' <= name[i] <= '9' || name[i] == '_' || name[i] == '$'
  }

  /** The components of the subset: records with named, supported properties. */
  ghost predicate SupportedComponent(known: set<string>, s: Schema) {
    && OnlyKnownKeywords(s) && s.types == Some(["object"])
    && s.properties.Properties? && s.properties.fields != map[]
    && (s.required.Some? ==> forall i :: 0 <= i < |s.required.value| ==> s.required.value[i] in s.properties.fields)
    && forall n :: n in s.properties.fields ==> PlainName(n) && Supported(known, s.properties.fields[n])
  }

  lemma KeywordIsKnown(k: string)
    ensures k in IGNORED_KEYWORDS <==> Annotates(k) || Bounds(k)
  {
  }

  lemma ExtensionStarts(k: string)
    ensures |k| >= 2 && k[..2] == "x-" <==> Extends(k)
  {
    assert |k| >= 2 ==> k[..2] == [k[0], k[1]];
    assert "x-" == ['x', '-'];
  }

  lemma KnownKeywords(s: Schema)
    ensures KeywordsSupported(s) <==> OnlyKnownKeywords(s)
  {
    hide IGNORED_KEYWORDS, Annotates, Bounds, Extends;
    forall k | k in s.others
      ensures k in IGNORED_KEYWORDS <==> Annotates(k) || Bounds(k)
      ensures |k| >= 2 && k[..2] == "x-" <==> Extends(k)
    {
      KeywordIsKnown(k);
      ExtensionStarts(k);
    }
  }

  lemma ReferencesResolve(known: set<string>, reference: string)
    ensures ResolveRef(known, reference).Ok? <==> NamesComponent(known, reference)
    ensures forall name :: name in known && name != "" && reference == "#/components/schemas/" + name ==>
              ResolveRef(known, reference) == Ok([Named(name)])
  {
    if NamesComponent(known, reference) {
      forall name | name in known && name != "" && reference == "#/components/schemas/" + name
        ensures ResolveRef(known, reference) == Ok([Named(name)])
      {
        assert reference[..|REF_PREFIX|] == REF_PREFIX && reference[|REF_PREFIX|..] == name;
      }
    }
    if ResolveRef(known, reference).Ok? { assert reference == REF_PREFIX + reference[|REF_PREFIX|..]; }
  }

  lemma FormatsAreListed(f: string)
    ensures f in TEXT_FORMATS <==> TextFormat(f)
    ensures f in NUMBER_FORMATS <==> NumberFormat(f)
  {
  }

  lemma ScalarsSupported(name: string, format: Option<string>)
    requires name in {"string", "integer", "number", "boolean"}
    ensures RenderScalar(name, format).Ok? <==>
            || (name == "string" && (format.Some? ==> TextFormat(format.value)))
            || (name in {"integer", "number"} && (format.Some? ==> NumberFormat(format.value)))
            || (name == "boolean" && format.None?)
  {
    if format.Some? { FormatsAreListed(format.value); }
    hide TextFormat, NumberFormat;
  }

  lemma {:induction false} LiteralsSupported(values: seq<EnumValue>)
    ensures EnumLiterals(values).Ok? <==> forall i :: 0 <= i < |values| ==> values[i] != EnumOther
  {
    if values != [] {
      LiteralsSupported(values[1..]);
      assert forall i :: 0 < i < |values| ==> values[i] == values[1..][i - 1];
    }
  }

  /** How many of the types are not null. */
  ghost function Count(types: seq<string>): nat {
    if types == [] then 0 else (if types[0] == "null" then 0 else 1) + Count(types[1..])
  }

  lemma {:induction false} CountExactly(types: seq<string>)
    ensures Count(types) == 0 <==> forall i :: 0 <= i < |types| ==> types[i] == "null"
    ensures Count(types) == 1 <==> exists i :: OnlyType(types, i)
  {
    if types != [] {
      var rest := types[1..];
      CountExactly(rest);
      assert forall i :: 0 < i < |types| ==> types[i] == rest[i - 1];
      assert forall i :: 0 <= i < |rest| ==> rest[i] == types[i + 1];
      if types[0] == "null" {
        if i :| OnlyType(rest, i) { assert OnlyType(types, i + 1); }
        if i :| OnlyType(types, i) { assert OnlyType(rest, i - 1); }
      } else {
        if Count(rest) == 0 { assert OnlyType(types, 0); }
        if i :| OnlyType(types, i) { assert i == 0; }
      }
    }
  }

  lemma {:induction false} NamedTypesSupported(known: set<string>, s: Schema, types: seq<string>)
    ensures RenderNamedTypes(known, s, types).Ok? <==>
            forall i :: 0 <= i < |types| && types[i] != "null" ==> RenderNamedType(known, s, types[i]).Ok?
    ensures RenderNamedTypes(known, s, types).Ok? ==> |RenderNamedTypes(known, s, types).value| == Count(types)
  {
    hide RenderNamedType;
    if types != [] {
      NamedTypesSupported(known, s, types[1..]);
      assert forall i :: 0 < i < |types| ==> types[i] == types[1..][i - 1];
    }
  }

  lemma {:induction false} NamedTypeSupported(known: set<string>, s: Schema, name: string)
    requires name != "null"
    ensures RenderNamedType(known, s, name).Ok? <==> SupportedType(known, s, name)
    decreases s, 0
  {
    hide TypeExpression, Supported, RenderScalar, TextFormat, NumberFormat;
    if name in {"string", "integer", "number", "boolean"} { ScalarsSupported(name, s.format); }
    if name == "array" && s.items.ItemsOf? { SupportedExactly(known, s.items.schema); }
  }

  lemma {:induction false} RenderTypeSupported(known: set<string>, s: Schema)
    ensures RenderType(known, s).Ok? <==>
            AllNull(s.Types()) || exists i :: OnlyType(s.Types(), i) && SupportedType(known, s, s.Types()[i])
    decreases s, 1
  {
    var types := s.Types();
    hide RenderNamedType, SupportedType, RenderNamedTypes;
    NamedTypesSupported(known, s, types);
    CountExactly(types);
    forall i | 0 <= i < |types| && types[i] != "null"
      ensures RenderNamedType(known, s, types[i]).Ok? <==> SupportedType(known, s, types[i])
    {
      NamedTypeSupported(known, s, types[i]);
    }
  }

  lemma {:induction false} MembersSupported(known: set<string>, members: seq<Schema>)
    ensures RenderMembers(known, members).Ok? <==>
            forall i :: 0 <= i < |members| ==> Supported(known, members[i])
    decreases members
  {
    hide TypeExpression, Supported;
    if members != [] {
      SupportedExactly(known, members[0]);
      MembersSupported(known, members[1..]);
      assert forall i :: 0 < i < |members| ==> members[i] == members[1..][i - 1];
    }
  }

  /** Accepted are exactly the fragments of the subset. */
  lemma {:induction false} SupportedExactly(known: set<string>, s: Schema)
    ensures TypeExpression(known, s).Ok? <==> Supported(known, s)
    decreases s, 2
  {
    hide KeywordsSupported, OnlyKnownKeywords, ResolveRef, NamesComponent, RenderType, RenderMembers, EnumLiterals,
         Concat, Collapse, SupportedType, OnlyType, AllNull;
    KnownKeywords(s);
    if s.ref.Some? { ReferencesResolve(known, s.ref.value); }
    else if s.oneOf.OneOf? { MembersSupported(known, s.oneOf.members); }
    else if s.values.Some? { LiteralsSupported(s.values.value); }
    else { RenderTypeSupported(known, s); }
  }

  lemma PlainNames(name: string)
    ensures IsIdentifier(name) <==> PlainName(name)
  {
  }

  lemma {:induction false} FieldsSupported(known: set<string>, fields: map<string, Schema>, required: seq<string>,
      names: seq<string>)
    requires forall n :: n in names ==> n in fields
    ensures RenderFields(known, fields, required, names).Ok? <==>
            forall n :: n in names ==> PlainName(n) && Supported(known, fields[n])
  {
    hide TypeExpression, Supported, IsIdentifier, PlainName;
    if names != [] {
      PlainNames(names[0]);
      SupportedExactly(known, fields[names[0]]);
      FieldsSupported(known, fields, required, names[1..]);
      assert forall n :: n in names <==> n == names[0] || n in names[1..];
    }
  }

  /** Accepted are exactly the components of the subset. */
  lemma ComponentSupportedExactly(known: set<string>, s: Schema)
    ensures RenderInterface(known, s).Ok? <==> SupportedComponent(known, s)
  {
    hide KeywordsSupported, OnlyKnownKeywords, RenderFields, Supported, PlainName, SortedKeys;
    KnownKeywords(s);
    if s.properties.Properties? {
      FieldsSupported(known, s.properties.fields, s.Required(), SortedKeys(s.properties.fields.Keys));
    }
    var required, defined := s.Required(), if s.properties.Properties? then s.properties.fields.Keys else {};
    assert (forall n :: n in required ==> n in defined) <==>
           forall i :: 0 <= i < |required| ==> required[i] in defined;
  }

  lemma {:induction false} ComponentsSupported(schemas: Components, names: seq<string>)
    requires forall n :: n in names ==> n in schemas
    ensures RenderComponents(schemas, names).Ok? <==>
            forall n :: n in names ==> SupportedComponent(schemas.Keys, schemas[n])
  {
    hide RenderInterface, SupportedComponent;
    if names != [] {
      ComponentSupportedExactly(schemas.Keys, schemas[names[0]]);
      ComponentsSupported(schemas, names[1..]);
      assert forall n :: n in names <==> n == names[0] || n in names[1..];
    }
  }

  /** Accepted are exactly the documents that have a component, and only components of the subset
      under plain names. */
  lemma DocumentSupportedExactly(schemas: Components)
    ensures Render(schemas).Ok? <==>
            schemas != map[] &&
            forall n :: n in schemas ==> PlainName(n) && SupportedComponent(schemas.Keys, schemas[n])
  {
    hide RenderComponents, SupportedComponent, IsIdentifier, PlainName, SortedKeys;
    forall n ensures IsIdentifier(n) <==> PlainName(n) { PlainNames(n); }
    ComponentsSupported(schemas, SortedKeys(schemas.Keys));
  }

  // ---- The text of what is accepted, and the reasons for what is not ---------------------

  ghost predicate IsPlainType(s: Schema) {
    OnlyKnownKeywords(s) && s.ref.None? && s.oneOf.NoOneOf? && s.values.None?
  }

  lemma {:induction false} OneTypeRendered(known: set<string>, s: Schema, name: string)
    requires IsPlainType(s) && name != "null"
    ensures s.types == Some([name]) ==> TypeExpression(known, s) == RenderNamedType(known, s, name)
    ensures s.types == Some([name, "null"]) || s.types == Some(["null", name]) ==>
              TypeExpression(known, s) ==
              if RenderNamedType(known, s, name).Ok? then Ok(RenderNamedType(known, s, name).value + [TNull])
              else RenderNamedType(known, s, name)
  {
    KnownKeywords(s);
    hide KeywordsSupported, OnlyKnownKeywords, RenderNamedType;
    NamedTypesFirst(known, s, name, []);
    NamedTypesFirst(known, s, name, ["null"]);
    NamedTypesFirst(known, s, "null", [name]);
    NamedTypesFirst(known, s, "null", []);
    assert [name] + [] == [name] && [name] + ["null"] == [name, "null"] && ["null"] + [name] == ["null", name];
    if RenderNamedType(known, s, name).Ok? {
      var t := RenderNamedType(known, s, name).value;
      assert [t] + [] == [t];
    }
  }

  lemma NamedTypesFirst(known: set<string>, s: Schema, name: string, rest: seq<string>)
    ensures name == "null" ==> RenderNamedTypes(known, s, [name] + rest) == RenderNamedTypes(known, s, rest)
    ensures name != "null" ==>
              RenderNamedTypes(known, s, [name] + rest) ==
              if RenderNamedType(known, s, name).Err? then Err(RenderNamedType(known, s, name).error)
              else if RenderNamedTypes(known, s, rest).Err? then RenderNamedTypes(known, s, rest)
              else Ok([RenderNamedType(known, s, name).value] + RenderNamedTypes(known, s, rest).value)
    ensures RenderNamedTypes(known, s, []) == Ok([])
  {
    hide RenderNamedType;
    assert ([name] + rest)[1..] == rest;
  }

  /** The types of fragments of one type. */
  lemma AcceptedType(known: set<string>, s: Schema)
    requires IsPlainType(s) && Supported(known, s)
    ensures s.types == Some(["string"]) ==> TypeExpression(known, s) == Ok([TString])
    ensures s.types == Some(["integer"]) || s.types == Some(["number"]) ==> TypeExpression(known, s) == Ok([TNumber])
    ensures s.types == Some(["boolean"]) ==> TypeExpression(known, s) == Ok([TBoolean])
    ensures s.types == Some(["array"]) ==>
              && s.items.ItemsOf? && TypeExpression(known, s.items.schema).Ok?
              && TypeExpression(known, s) == Ok([ReadonlyArray(TypeExpression(known, s.items.schema).value)])
  {
    hide *;
    SupportedExactly(known, s);
    ScalarRendered(known, s, "string");
    OneTypeRendered(known, s, "string");
    ScalarRendered(known, s, "integer");
    OneTypeRendered(known, s, "integer");
    ScalarRendered(known, s, "number");
    OneTypeRendered(known, s, "number");
    ScalarRendered(known, s, "boolean");
    OneTypeRendered(known, s, "boolean");
    OneTypeRendered(known, s, "array");
    if s.types == Some(["array"]) { ArrayRendered(known, s); }
  }

  lemma ScalarRendered(known: set<string>, s: Schema, name: string)
    requires name == "string" || name == "integer" || name == "number" || name == "boolean"
    ensures RenderNamedType(known, s, name).Ok? ==>
              RenderNamedType(known, s, name) ==
              Ok([if name == "string" then TString else if name == "boolean" then TBoolean else TNumber])
  {
    hide TEXT_FORMATS, NUMBER_FORMATS;
  }

  lemma ArrayRendered(known: set<string>, s: Schema)
    requires RenderNamedType(known, s, "array").Ok?
    ensures s.items.ItemsOf? && TypeExpression(known, s.items.schema).Ok?
    ensures RenderNamedType(known, s, "array") == Ok([ReadonlyArray(TypeExpression(known, s.items.schema).value)])
  {
    hide TypeExpression;
  }

  lemma ReferenceUnfolds(known: set<string>, s: Schema)
    requires OnlyKnownKeywords(s) && s.ref.Some?
    ensures TypeExpression(known, s) == if StandsAlone(s) then ResolveRef(known, s.ref.value) else Err(RefWithSibling)
  {
    KnownKeywords(s);
    hide ResolveRef, KeywordsSupported, OnlyKnownKeywords;
  }

  lemma ReferenceFound(known: set<string>, name: string)
    requires name != ""
    ensures ResolveRef(known, REF_PREFIX + name) == if name in known then Ok([Named(name)]) else Err(RefUnknown)
  {
    var reference := REF_PREFIX + name;
    var n := |REF_PREFIX|;
    hide REF_PREFIX;
    assert reference[..n] == REF_PREFIX && reference[n..] == name;
  }

  lemma ReferenceHasForm(known: set<string>, reference: string)
    ensures ResolveRef(known, reference) == Err(RefForm) || exists name :: name != "" && reference == REF_PREFIX + name
  {
    hide REF_PREFIX;
    if RefName(reference).Some? {
      assert RefName(reference).value != "" && reference == REF_PREFIX + RefName(reference).value;
    }
  }

  lemma PrefixIs()
    ensures REF_PREFIX == "#/components/schemas/"
  {
  }

  /** A reference becomes the name it refers to, or is refused for what is wrong with it. */
  lemma ReferenceType(known: set<string>, s: Schema, name: string)
    requires OnlyKnownKeywords(s) && s.ref.Some?
    ensures !StandsAlone(s) ==> TypeExpression(known, s) == Err(RefWithSibling)
    ensures StandsAlone(s) && name != "" && s.ref.value == "#/components/schemas/" + name ==>
              TypeExpression(known, s) == if name in known then Ok([Named(name)]) else Err(RefUnknown)
    ensures StandsAlone(s) && (forall other :: other != "" ==> s.ref.value != "#/components/schemas/" + other) ==>
              TypeExpression(known, s) == Err(RefForm)
  {
    hide *;
    PrefixIs();
    ReferenceUnfolds(known, s);
    ReferenceHasForm(known, s.ref.value);
    if name != "" { ReferenceFound(known, name); }
  }

  /** Members keep their order in a union. */
  lemma {:induction false} ConcatKeepsOrder(a: seq<Ts>, b: seq<Ts>)
    ensures Concat(a + b) == Concat(a) + Concat(b)
    ensures forall t: Ts :: Concat([t]) == t
  {
    if a == [] {
      assert a + b == b && Concat([]) + Concat(b) == Concat(b);
    } else {
      assert (a + b)[1..] == a[1..] + b;
      ConcatKeepsOrder(a[1..], b);
    }
    forall t: Ts ensures Concat([t]) == t { assert [t][1..] == [] && t + [] == t; }
  }

  lemma NamedTypeRefused(known: set<string>, s: Schema, name: string)
    ensures RenderNamedType(known, s, "object") == Err(NestedObject)
    ensures s.items.NoItems? ==> RenderNamedType(known, s, "array") == Err(NoArrayItems)
    ensures s.items.TupleItems? ==> RenderNamedType(known, s, "array") == Err(TupleItemsGiven)
    ensures name !in {"string", "integer", "number", "boolean", "array", "object"} ==>
              RenderNamedType(known, s, name) == Err(UnknownType)
  {
    hide TypeExpression, RenderScalar;
  }

  lemma FormatRefused(known: set<string>, s: Schema)
    requires s.format.Some? && !TextFormat(s.format.value)
    ensures RenderNamedType(known, s, "string") == Err(Format)
  {
    FormatsAreListed(s.format.value);
    hide TextFormat, NumberFormat, TEXT_FORMATS, NUMBER_FORMATS;
  }

  lemma NoTypeRefused(known: set<string>, s: Schema)
    requires IsPlainType(s) && s.Types() == []
    ensures TypeExpression(known, s) == Err(NoType)
  {
    KnownKeywords(s);
    hide KeywordsSupported, OnlyKnownKeywords, RenderNamedTypes;
  }

  /** Why one type is refused. */
  lemma TypeRefused(known: set<string>, s: Schema, name: string)
    requires IsPlainType(s) && name != "null"
    ensures s.Types() == [] ==> TypeExpression(known, s) == Err(NoType)
    ensures s.types == Some(["object"]) ==> TypeExpression(known, s) == Err(NestedObject)
    ensures s.types == Some(["array"]) && s.items.NoItems? ==> TypeExpression(known, s) == Err(NoArrayItems)
    ensures s.types == Some(["array"]) && s.items.TupleItems? ==> TypeExpression(known, s) == Err(TupleItemsGiven)
    ensures s.types == Some([name]) && name !in {"string", "integer", "number", "boolean", "array", "object"} ==>
              TypeExpression(known, s) == Err(UnknownType)
    ensures s.types == Some(["string"]) && s.format.Some? && !TextFormat(s.format.value) ==>
              TypeExpression(known, s) == Err(Format)
  {
    hide *;
    OneTypeRendered(known, s, name);
    OneTypeRendered(known, s, "object");
    OneTypeRendered(known, s, "array");
    OneTypeRendered(known, s, "string");
    NamedTypeRefused(known, s, name);
    if s.Types() == [] { NoTypeRefused(known, s); }
    if s.format.Some? && !TextFormat(s.format.value) { FormatRefused(known, s); }
  }

  lemma NamedTypeStays(known: set<string>, s: Schema, name: string)
    ensures RenderNamedType(known, s.(types := Some([name])), name) == RenderNamedType(known, s, name)
    ensures IsPlainType(s.(types := Some([name]))) == IsPlainType(s)
  {
    hide TypeExpression, RenderScalar;
  }

  /** Two types that are not null are too many, even when either would do alone. */
  lemma TwoTypesRefused(known: set<string>, s: Schema, a: string, b: string)
    requires IsPlainType(s) && s.types == Some([a, b]) && a != "null" && b != "null"
    ensures TypeExpression(known, s).Err?
    ensures TypeExpression(known, s.(types := Some([a]))).Ok? && TypeExpression(known, s.(types := Some([b]))).Ok? ==>
              TypeExpression(known, s) == Err(ManyTypes)
  {
    KnownKeywords(s);
    hide KeywordsSupported, OnlyKnownKeywords, RenderNamedType;
    NamedTypeStays(known, s, a);
    NamedTypeStays(known, s, b);
    OneTypeRendered(known, s.(types := Some([a])), a);
    OneTypeRendered(known, s.(types := Some([b])), b);
    NamedTypesFirst(known, s, a, [b]);
    NamedTypesFirst(known, s, b, []);
    assert [a] + [b] == [a, b] && [b] + [] == [b];
  }

  /** The members of an interface are the properties in ascending order, each optional exactly when
      it is not required. */
  lemma InterfaceMembers(known: set<string>, s: Schema)
    requires RenderInterface(known, s).Ok?
    ensures s.properties.Properties?
    ensures var fields := RenderInterface(known, s).value;
            && (forall i, j :: 0 <= i < j < |fields| ==> Less(fields[i].name, fields[j].name))
            && (forall n :: n in s.properties.fields <==> exists i :: 0 <= i < |fields| && fields[i].name == n)
            && forall i :: 0 <= i < |fields| ==>
                 && fields[i].name in s.properties.fields
                 && fields[i].optional == !(s.required.Some? && fields[i].name in s.required.value)
                 && TypeExpression(known, s.properties.fields[fields[i].name]) == Ok(fields[i].fieldType)
  {
    hide *;
    InterfaceHasProperties(known, s);
    InterfaceIsFields(known, s);
    var names, fields := SortedKeys(s.properties.fields.Keys), RenderInterface(known, s).value;
    FieldsSay(known, s, names, fields);
    SortedKeysAscend(s.properties.fields.Keys);
    forall i, j | 0 <= i < j < |fields| ensures Less(fields[i].name, fields[j].name) { Ascend(names, i, j); }
  }

  lemma InterfaceHasProperties(known: set<string>, s: Schema)
    requires RenderInterface(known, s).Ok?
    ensures s.properties.Properties?
  {
    hide KeywordsSupported, RenderFields, SortedKeys;
  }

  lemma Ascend(names: seq<string>, i: nat, j: nat)
    requires i < j < |names| && Sorted(names) && names[i] != names[j]
    ensures Less(names[i], names[j])
  {
    hide Less;
    if !Less(names[i], names[j]) { LeqAntisymmetric(names[i], names[j]); }
  }

  lemma FieldsSay(known: set<string>, s: Schema, names: seq<string>, fields: seq<Field>)
    requires FieldsOf(known, s, names, fields)
    ensures s.properties.Properties? && |fields| == |names|
    ensures forall n :: n in s.properties.fields <==> exists i :: 0 <= i < |fields| && fields[i].name == n
    ensures forall i :: 0 <= i < |fields| ==>
              && fields[i].name == names[i] && fields[i].name in s.properties.fields
              && fields[i].optional == !(s.required.Some? && fields[i].name in s.required.value)
              && TypeExpression(known, s.properties.fields[fields[i].name]) == Ok(fields[i].fieldType)
  {
    hide TypeExpression, IsFieldOf;
    forall i | 0 <= i < |fields|
      ensures fields[i].name == names[i] && names[i] in s.properties.fields
      ensures fields[i].optional == !(s.required.Some? && names[i] in s.required.value)
      ensures TypeExpression(known, s.properties.fields[names[i]]) == Ok(fields[i].fieldType)
    {
      assert names[i] in names && IsFieldOf(known, s, fields[i], names[i]);
      FieldSays(known, s, fields[i], names[i]);
    }
  }

  lemma FieldSays(known: set<string>, s: Schema, f: Field, name: string)
    requires IsFieldOf(known, s, f, name)
    ensures s.properties.Properties? && f.name == name && name in s.properties.fields
    ensures f.optional == !(s.required.Some? && name in s.required.value)
    ensures TypeExpression(known, s.properties.fields[name]) == Ok(f.fieldType)
  {
    hide TypeExpression;
  }

  // ---- The generator's loops -------------------------------------------------------------

  function TextsOf(members: seq<Ts>): set<string> {
    if members == [] then {} else {Print(members[0])} + TextsOf(members[1..])
  }

  lemma {:induction false} CollapseAppend(members: seq<Ts>, seen: set<string>, t: Ts)
    ensures Collapse(members + [t], seen) ==
            Collapse(members, seen) + if Print(t) in seen + TextsOf(members) then [] else [t]
    ensures TextsOf(members + [t]) == TextsOf(members) + {Print(t)}
  {
    hide Print;
    if members == [] {
      assert [t][1..] == [];
    } else {
      var text := Print(members[0]);
      var after := if text in seen then seen else seen + {text};
      assert (members + [t])[1..] == members[1..] + [t];
      CollapseAppend(members[1..], after, t);
      assert seen + TextsOf(members) == after + TextsOf(members[1..]);
    }
  }

  /** Rendering a list stops at its first refusal. */
  lemma {:induction false} RenderMembersAt(known: set<string>, members: seq<Schema>, i: nat)
    requires i < |members| && RenderMembers(known, members[..i]).Ok?
    ensures var t := TypeExpression(known, members[i]);
            && (t.Ok? ==>
                  RenderMembers(known, members[..i + 1]) == Ok(RenderMembers(known, members[..i]).value + [t.value]))
            && (t.Err? ==> RenderMembers(known, members) == Err(t.error))
  {
    hide TypeExpression;
    if i == 0 {
      assert members[..1][1..] == [] && members[..0] == [] && members[..1][0] == members[0];
      if TypeExpression(known, members[0]).Ok? {
        var t := TypeExpression(known, members[0]).value;
        assert RenderMembers(known, members[..1]) == Ok([t] + []);
        assert [t] + [] == [] + [t];
      }
    } else {
      assert members[..i][1..] == members[1..][..i - 1] && members[..i + 1][1..] == members[1..][..i];
      RenderMembersAt(known, members[1..], i - 1);
      assert members[..i][0] == members[0] && members[..i + 1][0] == members[0] && members[1..][i - 1] == members[i];
      if TypeExpression(known, members[i]).Ok? {
        var first, rest := TypeExpression(known, members[0]).value, RenderMembers(known, members[1..][..i - 1]).value;
        assert [first] + (rest + [TypeExpression(known, members[i]).value]) ==
               ([first] + rest) + [TypeExpression(known, members[i]).value];
      }
    }
  }

  lemma {:induction false} EnumLiteralsAt(values: seq<EnumValue>, i: nat)
    requires i < |values| && EnumLiterals(values[..i]).Ok?
    ensures var a := EnumLiteral(values[i]);
            && (a.Ok? ==> EnumLiterals(values[..i + 1]) == Ok(EnumLiterals(values[..i]).value + [a.value]))
            && (a.Err? ==> EnumLiterals(values) == Err(a.error))
  {
    if i == 0 {
      assert values[..1][1..] == [] && values[..0] == [] && values[..1][0] == values[0];
      if EnumLiteral(values[0]).Ok? {
        var a := EnumLiteral(values[0]).value;
        assert EnumLiterals(values[..1]) == Ok([a] + []);
        assert [a] + [] == [] + [a];
      }
    } else {
      assert values[..i][1..] == values[1..][..i - 1] && values[..i + 1][1..] == values[1..][..i];
      EnumLiteralsAt(values[1..], i - 1);
      assert values[..i][0] == values[0] && values[..i + 1][0] == values[0] && values[1..][i - 1] == values[i];
      if EnumLiteral(values[i]).Ok? {
        var first, rest := EnumLiteral(values[0]).value, EnumLiterals(values[1..][..i - 1]).value;
        assert [first] + (rest + [EnumLiteral(values[i]).value]) == ([first] + rest) + [EnumLiteral(values[i]).value];
      }
    }
  }

  /** Literals joined in order, each text once. */
  method EmitEnum(values: seq<EnumValue>, types: seq<string>) returns (r: Result<Ts, Refusal>)
    ensures r == RenderEnum(values, types)
  {
    for i := 0 to |types|
      invariant forall j :: 0 <= j < i ==> types[j] == "string" || types[j] == "integer" || types[j] == "number"
    {
      if types[i] != "string" && types[i] != "integer" && types[i] != "number" { return Err(EnumType); }
    }
    if values == [] { return Err(EnumEmpty); }
    hide Print;
    var seen: set<string>, ordered: seq<Ts> := {}, [];
    ghost var literals: Ts := [];
    for i := 0 to |values|
      invariant EnumLiterals(values[..i]) == Ok(literals)
      invariant ordered == Collapse(Singletons(literals), {}) && seen == TextsOf(Singletons(literals))
    {
      EnumLiteralsAt(values, i);
      var literal := EnumLiteral(values[i]);
      if literal.Err? { return Err(literal.error); }
      var t := [literal.value];
      CollapseAppend(Singletons(literals), {}, t);
      assert Singletons(literals + t) == Singletons(literals) + [t];
      if Print(t) !in seen {
        ordered := ordered + [t];
      }
      seen := seen + {Print(t)};
      literals := literals + t;
    }
    assert values[..|values|] == values;
    r := Ok(Concat(ordered));
  }

  /** Members rendered and joined in order, each text once. */
  method EmitUnion(known: set<string>, members: seq<Schema>) returns (r: Result<Ts, Refusal>)
    ensures r == RenderUnion(known, members)
    decreases members, 0
  {
    if members == [] { return Err(OneOfEmpty); }
    hide Print, TypeExpression;
    var seen: set<string>, ordered: seq<Ts> := {}, [];
    ghost var rendered: seq<Ts> := [];
    for i := 0 to |members|
      invariant RenderMembers(known, members[..i]) == Ok(rendered)
      invariant ordered == Collapse(rendered, {}) && seen == TextsOf(rendered)
    {
      RenderMembersAt(known, members, i);
      var expression := EmitType(known, members[i]);
      if expression.Err? { return Err(expression.error); }
      var t := expression.value;
      CollapseAppend(rendered, {}, t);
      if Print(t) !in seen {
        ordered := ordered + [t];
      }
      seen := seen + {Print(t)};
      rendered := rendered + [t];
    }
    assert members[..|members|] == members;
    r := Ok(Concat(ordered));
  }

  /** Any fragment, with its lists read by loops. */
  method EmitType(known: set<string>, s: Schema) returns (r: Result<Ts, Refusal>)
    ensures r == TypeExpression(known, s) && (r.Ok? <==> Supported(known, s))
    decreases s, 2
  {
    SupportedExactly(known, s);
    hide KeywordsSupported, HasSibling, RenderEnum, RenderType, RenderUnion, Supported;
    if !KeywordsSupported(s) { return Err(Keyword); }
    if s.ref.Some? { return if HasSibling(s) then Err(RefWithSibling) else ResolveRef(known, s.ref.value); }
    if s.oneOf.OneOf? {
      if s.Types() != [] { return Err(OneOfWithType); }
      if s.values.Some? { return Err(OneOfWithEnum); }
      r := EmitUnion(known, s.oneOf.members);
    } else if s.values.Some? {
      r := EmitEnum(s.values.value, s.Types());
    } else {
      r := RenderType(known, s);
    }
  }

  lemma {:induction false} RenderFieldsAt(known: set<string>, fields: map<string, Schema>, required: seq<string>,
      names: seq<string>, i: nat)
    requires i < |names| && (forall j :: 0 <= j < |names| ==> names[j] in fields)
    requires RenderFields(known, fields, required, names[..i]).Ok?
    ensures !IsIdentifier(names[i]) ==> RenderFields(known, fields, required, names) == Err(PropertyName)
    ensures IsIdentifier(names[i]) ==>
              match TypeExpression(known, fields[names[i]])
              case Ok(t) => RenderFields(known, fields, required, names[..i + 1]) ==
                            Ok(RenderFields(known, fields, required, names[..i]).value +
                               [Field(names[i], names[i] !in required, t)])
              case Err(e) => RenderFields(known, fields, required, names) == Err(e)
  {
    hide TypeExpression, IsIdentifier;
    if i == 0 {
      assert names[..1][1..] == [] && names[..0] == [] && names[..1][0] == names[0];
      if IsIdentifier(names[0]) && TypeExpression(known, fields[names[0]]).Ok? {
        var f := Field(names[0], names[0] !in required, TypeExpression(known, fields[names[0]]).value);
        assert RenderFields(known, fields, required, names[..1]) == Ok([f] + []);
        assert [f] + [] == [] + [f];
      }
    } else {
      assert names[..i][1..] == names[1..][..i - 1] && names[..i + 1][1..] == names[1..][..i];
      RenderFieldsAt(known, fields, required, names[1..], i - 1);
      assert names[..i][0] == names[0] && names[..i + 1][0] == names[0] && names[1..][i - 1] == names[i];
      if TypeExpression(known, fields[names[i]]).Ok? {
        var first := Field(names[0], names[0] !in required, TypeExpression(known, fields[names[0]]).value);
        var last := Field(names[i], names[i] !in required, TypeExpression(known, fields[names[i]]).value);
        var rest := RenderFields(known, fields, required, names[1..][..i - 1]).value;
        assert [first] + (rest + [last]) == ([first] + rest) + [last];
      }
    }
  }

  /** The properties of one component, in the order of their names. */
  method EmitFields(known: set<string>, fields: map<string, Schema>, required: seq<string>)
      returns (r: Result<seq<Field>, Refusal>)
    ensures r == RenderFields(known, fields, required, SortedKeys(fields.Keys))
  {
    hide TypeExpression, IsIdentifier, Supported;
    var names := SortedKeys(fields.Keys);
    hide SortedKeys;
    var rendered := [];
    for i := 0 to |names|
      invariant RenderFields(known, fields, required, names[..i]) == Ok(rendered)
    {
      RenderFieldsAt(known, fields, required, names, i);
      if !IsIdentifier(names[i]) { return Err(PropertyName); }
      var expression := EmitType(known, fields[names[i]]);
      if expression.Err? { return Err(expression.error); }
      rendered := rendered + [Field(names[i], names[i] !in required, expression.value)];
    }
    assert names[..|names|] == names;
    r := Ok(rendered);
  }

  /** One component, refused before its properties are read when it cannot be an interface. */
  method EmitInterface(known: set<string>, s: Schema) returns (r: Result<seq<Field>, Refusal>)
    ensures r == RenderInterface(known, s) && (r.Ok? <==> SupportedComponent(known, s))
  {
    ComponentSupportedExactly(known, s);
    hide KeywordsSupported, TypeExpression, IsIdentifier, RenderFields, SupportedComponent;
    if !KeywordsSupported(s) { return Err(Keyword); }
    if s.Types() != ["object"] { return Err(TopLevelType); }
    if s.properties.NoProperties? || s.properties.fields == map[] { return Err(NoPropertiesGiven); }
    var fields, required := s.properties.fields, s.Required();
    for i := 0 to |required|
      invariant forall j :: 0 <= j < i ==> required[j] in fields
    {
      if required[i] !in fields { return Err(RequiredUndefined); }
    }
    r := EmitFields(known, fields, required);
  }
}
