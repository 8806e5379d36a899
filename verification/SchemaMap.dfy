/** `schemaToMap` and `schemaRefsToMaps`: an OpenAPI schema written out as a JSON-schema map, and the
    proof that reading the map back recovers the schema. Schemas are finite and acyclic here. */
module SchemaMap {
  import opened Text

  /** A JSON value that is copied without being looked into. */
  datatype Json = Json(text: string)

  /** A schema reference: a nil pointer, a pointer without a value, or a schema. */
  datatype SchemaRef = NilRef | NoValue | Ref(schema: Schema)

  datatype PropertyMap = NoProperties | Properties(refs: map<string, SchemaRef>)

  datatype Schema = Schema(
    types: Option<seq<string>>,
    description: string, title: string, format: string, pattern: string,
    enums: seq<Json>, default: Option<Json>, example: Option<Json>,
    nullable: bool, readOnly: bool, writeOnly: bool, deprecated: bool,
    uniqueItems: bool, exclusiveMin: bool, exclusiveMax: bool,
    min: Option<real>, max: Option<real>, multipleOf: Option<real>,
    minLength: nat, maxLength: Option<nat>, minItems: nat, maxItems: Option<nat>,
    minProps: nat, maxProps: Option<nat>,
    properties: PropertyMap, items: SchemaRef,
    oneOf: seq<SchemaRef>, anyOf: seq<SchemaRef>, allOf: seq<SchemaRef>, not: SchemaRef,
    required: seq<string>)

  /** The keys that `schemaToMap` writes; each stands for the keyword of the same name. */
  datatype Keyword =
    | KType | KDescription | KTitle | KFormat | KPattern | KEnum | KDefault | KExample
    | KNullable | KReadOnly | KWriteOnly | KDeprecated | KUniqueItems | KExclusiveMinimum | KExclusiveMaximum
    | KMinimum | KMaximum | KMultipleOf | KMinLength | KMaxLength | KMinItems | KMaxItems
    | KMinProperties | KMaxProperties | KProperties | KItems | KOneOf | KAnyOf | KAllOf | KNot | KRequired

  /** What a key can hold. */
  datatype Value =
    | Str(text: string)
    | Strs(texts: seq<string>)
    | Bool(flag: bool)
    | Num(number: real)
    | Size(size: nat)
    | Any(json: Json)
    | Anys(jsons: seq<Json>)
    | Obj(keys: map<Keyword, Value>)
    | Props(props: map<string, Value>)
    | Objs(objects: seq<Value>)

  // ----- writing -----

  predicate Writes(s: Schema, k: Keyword) {
    match k
    case KType => s.types.Some? && |s.types.value| > 0
    case KDescription => s.description != ""
    case KTitle => s.title != ""
    case KFormat => s.format != ""
    case KPattern => s.pattern != ""
    case KEnum => |s.enums| > 0
    case KDefault => s.default.Some?
    case KExample => s.example.Some?
    case KNullable => s.nullable
    case KReadOnly => s.readOnly
    case KWriteOnly => s.writeOnly
    case KDeprecated => s.deprecated
    case KUniqueItems => s.uniqueItems
    case KExclusiveMinimum => s.exclusiveMin
    case KExclusiveMaximum => s.exclusiveMax
    case KMinimum => s.min.Some?
    case KMaximum => s.max.Some?
    case KMultipleOf => s.multipleOf.Some?
    case KMinLength => s.minLength > 0
    case KMaxLength => s.maxLength.Some?
    case KMinItems => s.minItems > 0
    case KMaxItems => s.maxItems.Some?
    case KMinProperties => s.minProps > 0
    case KMaxProperties => s.maxProps.Some?
    case KProperties => s.properties.Properties?
    case KItems => s.items.Ref?
    case KOneOf => |s.oneOf| > 0
    case KAnyOf => |s.anyOf| > 0
    case KAllOf => |s.allOf| > 0
    case KNot => s.not.Ref?
    case KRequired => |s.required| > 0
  }

  function Written(s: Schema, k: Keyword): Value
    requires Writes(s, k)
    decreases s, 1
  {
    match k
    case KType => if |s.types.value| == 1 then Str(s.types.value[0]) else Strs(s.types.value)
    case KDescription => Str(s.description)
    case KTitle => Str(s.title)
    case KFormat => Str(s.format)
    case KPattern => Str(s.pattern)
    case KEnum => Anys(s.enums)
    case KDefault => Any(s.default.value)
    case KExample => Any(s.example.value)
    case KNullable | KReadOnly | KWriteOnly | KDeprecated => Bool(true)
    case KUniqueItems | KExclusiveMinimum | KExclusiveMaximum => Bool(true)
    case KMinimum => Num(s.min.value)
    case KMaximum => Num(s.max.value)
    case KMultipleOf => Num(s.multipleOf.value)
    case KMinLength => Size(s.minLength)
    case KMaxLength => Size(s.maxLength.value)
    case KMinItems => Size(s.minItems)
    case KMaxItems => Size(s.maxItems.value)
    case KMinProperties => Size(s.minProps)
    case KMaxProperties => Size(s.maxProps.value)
    case KProperties =>
      PropsToMap(s.properties)
    case KItems => SchemaToMap(s.items.schema)
    case KOneOf => Objs(RefsToMaps(s.oneOf))
    case KAnyOf => Objs(RefsToMaps(s.anyOf))
    case KAllOf => Objs(RefsToMaps(s.allOf))
    case KNot => SchemaToMap(s.not.schema)
    case KRequired => Strs(s.required)
  }

  function PropsToMap(p: PropertyMap): Value
    requires p.Properties?
    decreases p
  {
    Props(map n | n in p.refs && p.refs[n].Ref? :: SchemaToMap(p.refs[n].schema))
  }

  function SchemaToMap(s: Schema): (v: Value)
    ensures v.Obj?
    decreases s, 2
  {
    Obj(map k: Keyword | Writes(s, k) :: Written(s, k))
  }

  function RefToMap(r: SchemaRef): seq<Value>
    decreases r
  {
    if r.Ref? then [SchemaToMap(r.schema)] else []
  }

  function RefsToMaps(refs: seq<SchemaRef>): seq<Value>
    decreases refs
  {
    if refs == [] then []
    else
      RefToMap(refs[0]) + RefsToMaps(refs[1..])
  }

  // ----- reading back -----

  function ReadStr(m: map<Keyword, Value>, k: Keyword): string {
    if k in m && m[k].Str? then m[k].text else ""
  }

  function ReadFlag(m: map<Keyword, Value>, k: Keyword): bool {
    k in m && m[k].Bool? && m[k].flag
  }

  function ReadNum(m: map<Keyword, Value>, k: Keyword): Option<real> {
    if k in m && m[k].Num? then Some(m[k].number) else None
  }

  function ReadSize(m: map<Keyword, Value>, k: Keyword): Option<nat> {
    if k in m && m[k].Size? then Some(m[k].size) else None
  }

  function ReadLow(m: map<Keyword, Value>, k: Keyword): nat {
    if k in m && m[k].Size? then m[k].size else 0
  }

  function ReadAny(m: map<Keyword, Value>, k: Keyword): Option<Json> {
    if k in m && m[k].Any? then Some(m[k].json) else None
  }

  function ReadAnys(m: map<Keyword, Value>, k: Keyword): seq<Json> {
    if k in m && m[k].Anys? then m[k].jsons else []
  }

  function ReadStrs(m: map<Keyword, Value>, k: Keyword): seq<string> {
    if k in m && m[k].Strs? then m[k].texts else []
  }

  function ReadTypes(m: map<Keyword, Value>): Option<seq<string>> {
    if KType !in m then None
    else if m[KType].Str? then Some([m[KType].text])
    else if m[KType].Strs? then Some(m[KType].texts)
    else None
  }

  /** A schema from the keywords that hold no schemas, and the nested ones. */
  function Assemble(m: map<Keyword, Value>, properties: PropertyMap, items: SchemaRef, oneOf: seq<SchemaRef>,
                    anyOf: seq<SchemaRef>, allOf: seq<SchemaRef>, not: SchemaRef): Schema
  {
    Schema(
      ReadTypes(m),
      ReadStr(m, KDescription), ReadStr(m, KTitle), ReadStr(m, KFormat), ReadStr(m, KPattern),
      ReadAnys(m, KEnum),
      ReadAny(m, KDefault), ReadAny(m, KExample),
      ReadFlag(m, KNullable), ReadFlag(m, KReadOnly), ReadFlag(m, KWriteOnly), ReadFlag(m, KDeprecated),
      ReadFlag(m, KUniqueItems), ReadFlag(m, KExclusiveMinimum), ReadFlag(m, KExclusiveMaximum),
      ReadNum(m, KMinimum), ReadNum(m, KMaximum), ReadNum(m, KMultipleOf),
      ReadLow(m, KMinLength), ReadSize(m, KMaxLength), ReadLow(m, KMinItems), ReadSize(m, KMaxItems),
      ReadLow(m, KMinProperties), ReadSize(m, KMaxProperties),
      properties, items, oneOf, anyOf, allOf, not,
      ReadStrs(m, KRequired))
  }

  /** The schema that a written map describes. */
  function Read(v: Value): Schema
    decreases v, 1
  {
    var m := if v.Obj? then v.keys else map[];
    Assemble(m,
             if KProperties in m then ReadProps(m[KProperties]) else NoProperties,
             if KItems in m then Ref(Read(m[KItems])) else NilRef,
             if KOneOf in m then ReadList(m[KOneOf]) else [],
             if KAnyOf in m then ReadList(m[KAnyOf]) else [],
             if KAllOf in m then ReadList(m[KAllOf]) else [],
             if KNot in m then Ref(Read(m[KNot])) else NilRef)
  }

  function ReadProps(v: Value): PropertyMap
    decreases v, 2
  {
    if v.Props? then Properties(map n | n in v.props :: Ref(Read(v.props[n]))) else NoProperties
  }

  function ReadList(v: Value): seq<SchemaRef>
    decreases v, 2
  {
    if v.Objs? then ReadAll(v.objects) else []
  }

  function ReadAll(vs: seq<Value>): seq<SchemaRef> {
    if vs == [] then [] else [Ref(Read(vs[0]))] + ReadAll(vs[1..])
  }

  // ----- what is normalised -----

  function NormalRef(r: SchemaRef): SchemaRef {
    if r.Ref? then Ref(Normal(r.schema)) else NilRef
  }

  function NormalRefs(refs: seq<SchemaRef>): seq<SchemaRef> {
    if refs == [] then []
    else
      var r := NormalRef(refs[0]);
      (if r.Ref? then [r] else []) + NormalRefs(refs[1..])
  }

  function NormalProps(p: PropertyMap): PropertyMap {
    match p
    case NoProperties => NoProperties
    case Properties(refs) => Properties(map n | n in refs && refs[n].Ref? :: Ref(Normal(refs[n].schema)))
  }

  /** The same schema with references that have no schema dropped at every level, and an empty list
      of types taken as no list. Nothing else changes. */
  function Normal(s: Schema): Schema {
    s.(types := if s.types == Some([]) then None else s.types,
       properties :=
         NormalProps(s.properties),
       items := NormalRef(s.items),
       oneOf := NormalRefs(s.oneOf),
       anyOf := NormalRefs(s.anyOf),
       allOf := NormalRefs(s.allOf),
       not := NormalRef(s.not))
  }

  // ----- the round trip -----

  lemma {:induction false} ReadRef(r: SchemaRef)
    ensures r.Ref? ==> Read(SchemaToMap(r.schema)) == Normal(r.schema)
    decreases r
  {
    if r.Ref? {
      ReadWritten(r.schema);
    }
  }

  lemma {:induction false} ReadRefs(refs: seq<SchemaRef>)
    ensures ReadAll(RefsToMaps(refs)) == NormalRefs(refs)
    decreases refs
  {
    if refs != [] {
      ReadRefs(refs[1..]);
      ReadRef(refs[0]);
      if refs[0].Ref? {
        assert RefsToMaps(refs)[1..] == RefsToMaps(refs[1..]);
      } else {
        assert RefsToMaps(refs) == RefsToMaps(refs[1..]);
      }
    }
  }

  lemma {:induction false} ReadProperties(p: PropertyMap)
    requires p.Properties?
    ensures ReadProps(PropsToMap(p)) == NormalProps(p)
    decreases p
  {
    var written := PropsToMap(p).props;
    forall n | n in p.refs && p.refs[n].Ref?
      ensures Read(written[n]) == Normal(p.refs[n].schema)
    {
      ReadRef(p.refs[n]);
    }
    PropertiesAgree(p, written);
  }

  lemma PropertiesAgree(p: PropertyMap, written: map<string, Value>)
    requires p.Properties?
    requires forall n :: n in written <==> n in p.refs && p.refs[n].Ref?
    requires forall n :: n in written ==> Read(written[n]) == Normal(p.refs[n].schema)
    ensures ReadProps(Props(written)) == NormalProps(p)
  {
    var read, normal := ReadProps(Props(written)).refs, NormalProps(p).refs;
    forall n ensures n in read <==> n in normal {
      assert n in written <==> n in p.refs && p.refs[n].Ref?;
    }
    forall n | n in read ensures read[n] == normal[n] {
      assert Read(written[n]) == Normal(p.refs[n].schema);
    }
    SameReferences(read, normal);
  }

  lemma SameReferences(a: map<string, SchemaRef>, b: map<string, SchemaRef>)
    requires forall n :: n in a <==> n in b
    requires forall n :: n in a ==> a[n] == b[n]
    ensures a == b
  {
  }

  lemma ReadTexts(s: Schema)
    ensures var m := SchemaToMap(s).keys;
      ReadStr(m, KDescription) == s.description && ReadStr(m, KTitle) == s.title &&
      ReadStr(m, KFormat) == s.format && ReadStr(m, KPattern) == s.pattern &&
      ReadAny(m, KDefault) == s.default && ReadAny(m, KExample) == s.example &&
      ReadAnys(m, KEnum) == s.enums && ReadStrs(m, KRequired) == s.required
  {
  }

  lemma ReadFlags(s: Schema)
    ensures var m := SchemaToMap(s).keys;
      ReadFlag(m, KNullable) == s.nullable && ReadFlag(m, KReadOnly) == s.readOnly &&
      ReadFlag(m, KWriteOnly) == s.writeOnly && ReadFlag(m, KDeprecated) == s.deprecated
  {
  }

  lemma ReadMoreFlags(s: Schema)
    ensures var m := SchemaToMap(s).keys;
      ReadFlag(m, KUniqueItems) == s.uniqueItems && ReadFlag(m, KExclusiveMinimum) == s.exclusiveMin &&
      ReadFlag(m, KExclusiveMaximum) == s.exclusiveMax
  {
  }

  lemma ReadNumbers(s: Schema)
    ensures var m := SchemaToMap(s).keys;
      ReadNum(m, KMinimum) == s.min && ReadNum(m, KMaximum) == s.max && ReadNum(m, KMultipleOf) == s.multipleOf
  {
  }

  lemma ReadSizes(s: Schema)
    ensures var m := SchemaToMap(s).keys;
      ReadLow(m, KMinLength) == s.minLength && ReadSize(m, KMaxLength) == s.maxLength &&
      ReadLow(m, KMinItems) == s.minItems
  {
  }

  lemma ReadMoreSizes(s: Schema)
    ensures var m := SchemaToMap(s).keys;
      ReadSize(m, KMaxItems) == s.maxItems &&
      ReadLow(m, KMinProperties) == s.minProps && ReadSize(m, KMaxProperties) == s.maxProps
  {
  }

  lemma ReadTypeList(s: Schema)
    ensures ReadTypes(SchemaToMap(s).keys) == if s.types == Some([]) then None else s.types
    ensures forall t :: s.types == Some([t]) ==> KType in SchemaToMap(s).keys && SchemaToMap(s).keys[KType] == Str(t)
  {
    if s.types.Some? && |s.types.value| == 1 {
      assert s.types.value == [s.types.value[0]];
    }
  }

  /** Which keys with nested schemas the map has, and what they hold. */
  lemma PropertiesKey(s: Schema)
    ensures var m := SchemaToMap(s).keys;
      && (KProperties in m <==> s.properties.Properties?)
      && (KProperties in m ==> m[KProperties] == PropsToMap(s.properties))
  {
  }

  lemma ItemsKey(s: Schema)
    ensures var m := SchemaToMap(s).keys;
      (KItems in m <==> s.items.Ref?) && (KItems in m ==> m[KItems] == SchemaToMap(s.items.schema))
  {
  }

  lemma NotKey(s: Schema)
    ensures var m := SchemaToMap(s).keys;
      (KNot in m <==> s.not.Ref?) && (KNot in m ==> m[KNot] == SchemaToMap(s.not.schema))
  {
  }

  lemma ListKeys(s: Schema)
    ensures var m := SchemaToMap(s).keys;
      && (KOneOf in m <==> s.oneOf != []) && (KOneOf in m ==> m[KOneOf] == Objs(RefsToMaps(s.oneOf)))
      && (KAnyOf in m <==> s.anyOf != []) && (KAnyOf in m ==> m[KAnyOf] == Objs(RefsToMaps(s.anyOf)))
      && (KAllOf in m <==> s.allOf != []) && (KAllOf in m ==> m[KAllOf] == Objs(RefsToMaps(s.allOf)))
  {
  }

  /** The keywords without schemas come back as they were. */
  lemma AssembleWritten(s: Schema, properties: PropertyMap, items: SchemaRef, oneOf: seq<SchemaRef>,
                        anyOf: seq<SchemaRef>, allOf: seq<SchemaRef>, not: SchemaRef)
    ensures Assemble(SchemaToMap(s).keys, properties, items, oneOf, anyOf, allOf, not) ==
      s.(types := if s.types == Some([]) then None else s.types, properties := properties, items := items,
         oneOf := oneOf, anyOf := anyOf, allOf := allOf, not := not)
  {
    ReadTexts(s);
    ReadFlags(s);
    ReadMoreFlags(s);
    ReadNumbers(s);
    ReadSizes(s);
    ReadMoreSizes(s);
    ReadTypeList(s);
  }

  lemma {:induction false} ReadPropertiesKey(s: Schema)
    ensures var m := SchemaToMap(s).keys;
      (if KProperties in m then ReadProps(m[KProperties]) else NoProperties) == NormalProps(s.properties)
    decreases s, 0
  {
    PropertiesKey(s);
    if s.properties.Properties? {
      ReadProperties(s.properties);
    }
  }

  lemma {:induction false} ReadItemsKey(s: Schema)
    ensures var m := SchemaToMap(s).keys; (if KItems in m then Ref(Read(m[KItems])) else NilRef) == NormalRef(s.items)
    decreases s, 0
  {
    ItemsKey(s);
    ReadRef(s.items);
  }

  lemma {:induction false} ReadNotKey(s: Schema)
    ensures var m := SchemaToMap(s).keys; (if KNot in m then Ref(Read(m[KNot])) else NilRef) == NormalRef(s.not)
    decreases s, 0
  {
    NotKey(s);
    ReadRef(s.not);
  }

  lemma {:induction false} ReadListKeys(s: Schema)
    ensures var m := SchemaToMap(s).keys;
      && (if KOneOf in m then ReadList(m[KOneOf]) else []) == NormalRefs(s.oneOf)
      && (if KAnyOf in m then ReadList(m[KAnyOf]) else []) == NormalRefs(s.anyOf)
      && (if KAllOf in m then ReadList(m[KAllOf]) else []) == NormalRefs(s.allOf)
    decreases s, 0
  {
    ListKeys(s);
    ReadRefs(s.oneOf);
    ReadRefs(s.anyOf);
    ReadRefs(s.allOf);
  }

  /** `schemaToMap` loses nothing: reading its map back gives the schema, normalised. */
  lemma {:induction false} ReadWritten(s: Schema)
    ensures Read(SchemaToMap(s)) == Normal(s)
    decreases s, 1
  {
    ReadPropertiesKey(s);
    ReadItemsKey(s);
    ReadNotKey(s);
    ReadListKeys(s);
    AssembleWritten(s, NormalProps(s.properties), NormalRef(s.items), NormalRefs(s.oneOf), NormalRefs(s.anyOf),
                    NormalRefs(s.allOf), NormalRef(s.not));
  }

  /** No reference without a schema, and no empty list of types, at any level. */
  predicate Complete(s: Schema)
    decreases s, 0
  {
    s.types != Some([]) && CompleteProps(s.properties) && s.items != NoValue && s.not != NoValue &&
    (s.items.Ref? ==> CompleteRef(s.items)) && (s.not.Ref? ==> CompleteRef(s.not)) &&
    CompleteRefs(s.oneOf) && CompleteRefs(s.anyOf) && CompleteRefs(s.allOf)
  }

  predicate CompleteRef(r: SchemaRef)
    decreases r
  {
    r.Ref? && Complete(r.schema)
  }

  predicate CompleteRefs(refs: seq<SchemaRef>)
    decreases refs
  {
    refs != [] ==> CompleteRef(refs[0]) && CompleteRefs(refs[1..])
  }

  predicate CompleteProps(p: PropertyMap)
    decreases p
  {
    p.Properties? ==> forall n :: n in p.refs ==> CompleteRef(p.refs[n])
  }

  lemma {:induction false} NormalOfRef(r: SchemaRef)
    ensures CompleteRef(r) <==> r.Ref? && NormalRef(r) == r
    decreases r
  {
    if r.Ref? {
      NormalIffComplete(r.schema);
    }
  }

  lemma {:induction false} NormalOfRefs(refs: seq<SchemaRef>)
    ensures CompleteRefs(refs) <==> NormalRefs(refs) == refs
    ensures |NormalRefs(refs)| <= |refs|
    decreases refs
  {
    if refs != [] {
      NormalOfRef(refs[0]);
      NormalOfRefs(refs[1..]);
      assert refs == [refs[0]] + refs[1..];
      if refs[0].Ref? {
        SameCons(NormalRef(refs[0]), NormalRefs(refs[1..]), refs[0], refs[1..]);
      } else {
        assert |NormalRefs(refs)| < |refs|;
      }
    }
  }

  lemma SameCons(x: SchemaRef, xs: seq<SchemaRef>, y: SchemaRef, ys: seq<SchemaRef>)
    ensures [x] + xs == [y] + ys <==> x == y && xs == ys
  {
    assert ([x] + xs)[0] == x && ([x] + xs)[1..] == xs && ([y] + ys)[0] == y && ([y] + ys)[1..] == ys;
  }

  lemma {:induction false} NormalOfProps(p: PropertyMap)
    ensures CompleteProps(p) <==> NormalProps(p) == p
    decreases p
  {
    if p.Properties? {
      var normal := NormalProps(p).refs;
      forall n | n in p.refs
        ensures CompleteRef(p.refs[n]) <==> n in normal && normal[n] == p.refs[n]
      {
        NormalOfRef(p.refs[n]);
      }
      if CompleteProps(p) {
        assert normal == p.refs;
      }
    }
  }

  lemma NormalFixed(s: Schema)
    ensures Normal(s) == s <==>
      && s.types != Some([]) && NormalProps(s.properties) == s.properties
      && NormalRef(s.items) == s.items && NormalRef(s.not) == s.not
      && NormalRefs(s.oneOf) == s.oneOf && NormalRefs(s.anyOf) == s.anyOf && NormalRefs(s.allOf) == s.allOf
  {
    var n := Normal(s);
    assert n.types == if s.types == Some([]) then None else s.types;
  }

  lemma {:induction false} NormalIffComplete(s: Schema)
    ensures Complete(s) <==> Normal(s) == s
    decreases s, 0
  {
    NormalOfRef(s.items);
    NormalOfRef(s.not);
    NormalOfRefs(s.oneOf);
    NormalOfRefs(s.anyOf);
    NormalOfRefs(s.allOf);
    NormalOfProps(s.properties);
    NormalFixed(s);
  }

  /** Nothing at all is lost exactly on complete schemas. */
  lemma LosslessIffComplete(s: Schema)
    ensures Read(SchemaToMap(s)) == s <==> Complete(s)
  {
    ReadWritten(s);
    NormalIffComplete(s);
  }

  // ----- nothing is written that need not be -----

  /** Without the key `k` the map of `s` would describe another schema. */
  predicate Needed(s: Schema, k: Keyword) {
    Read(Obj(SchemaToMap(s).keys - {k})) != Read(SchemaToMap(s))
  }

  predicate IsText(k: Keyword) { k in {KDescription, KTitle, KFormat, KPattern} }

  predicate IsFlag(k: Keyword) {
    k in {KNullable, KReadOnly, KWriteOnly, KDeprecated} || k in {KUniqueItems, KExclusiveMinimum, KExclusiveMaximum}
  }

  predicate IsNumber(k: Keyword) {
    || k in {KMinimum, KMaximum, KMultipleOf}
    || k in {KMinLength, KMaxLength, KMinItems, KMaxItems, KMinProperties, KMaxProperties}
  }

  lemma TextIsNeeded(s: Schema, k: Keyword)
    requires k in SchemaToMap(s).keys && IsText(k)
    ensures Needed(s, k)
  {
    var less := SchemaToMap(s).keys - {k};
    ReadWritten(s);
    var r := Read(Obj(less));
    match k
    case KDescription => assert r.description == ReadStr(less, k) == "";
    case KTitle => assert r.title == ReadStr(less, k) == "";
    case KFormat => assert r.format == ReadStr(less, k) == "";
    case KPattern => assert r.pattern == ReadStr(less, k) == "";
  }

  lemma FlagIsNeeded(s: Schema, k: Keyword)
    requires k in SchemaToMap(s).keys && IsFlag(k)
    ensures Needed(s, k)
  {
    var less := SchemaToMap(s).keys - {k};
    ReadWritten(s);
    var r := Read(Obj(less));
    match k
    case KNullable => assert r.nullable == ReadFlag(less, k) == false;
    case KReadOnly => assert r.readOnly == ReadFlag(less, k) == false;
    case KWriteOnly => assert r.writeOnly == ReadFlag(less, k) == false;
    case KDeprecated => assert r.deprecated == ReadFlag(less, k) == false;
    case KUniqueItems => assert r.uniqueItems == ReadFlag(less, k) == false;
    case KExclusiveMinimum => assert r.exclusiveMin == ReadFlag(less, k) == false;
    case KExclusiveMaximum => assert r.exclusiveMax == ReadFlag(less, k) == false;
  }

  lemma NumberIsNeeded(s: Schema, k: Keyword)
    requires k in SchemaToMap(s).keys && IsNumber(k)
    ensures Needed(s, k)
  {
    var less := SchemaToMap(s).keys - {k};
    ReadWritten(s);
    var r := Read(Obj(less));
    match k
    case KMinimum => assert r.min == ReadNum(less, k) == None;
    case KMaximum => assert r.max == ReadNum(less, k) == None;
    case KMultipleOf => assert r.multipleOf == ReadNum(less, k) == None;
    case KMinLength => assert r.minLength == ReadLow(less, k) == 0;
    case KMaxLength => assert r.maxLength == ReadSize(less, k) == None;
    case KMinItems => assert r.minItems == ReadLow(less, k) == 0;
    case KMaxItems => assert r.maxItems == ReadSize(less, k) == None;
    case KMinProperties => assert r.minProps == ReadLow(less, k) == 0;
    case KMaxProperties => assert r.maxProps == ReadSize(less, k) == None;
  }

  /** No key is written in vain, but for a list of alternatives none of which has a schema. */
  lemma EveryKeyIsNeeded(s: Schema, k: Keyword)
    requires k in SchemaToMap(s).keys
    ensures Needed(s, k) || (k == KOneOf && NormalRefs(s.oneOf) == []) || (k == KAnyOf && NormalRefs(s.anyOf) == []) ||
      (k == KAllOf && NormalRefs(s.allOf) == [])
  {
    var less := SchemaToMap(s).keys - {k};
    ReadWritten(s);
    var r := Read(Obj(less));
    match k
    case KType => assert r.types == ReadTypes(less) == None;
    case KDescription | KTitle | KFormat | KPattern => TextIsNeeded(s, k);
    case KEnum => assert r.enums == ReadAnys(less, k) == [];
    case KDefault => assert r.default == ReadAny(less, k) == None;
    case KExample => assert r.example == ReadAny(less, k) == None;
    case KNullable | KReadOnly | KWriteOnly | KDeprecated => FlagIsNeeded(s, k);
    case KUniqueItems | KExclusiveMinimum | KExclusiveMaximum => FlagIsNeeded(s, k);
    case KMinimum | KMaximum | KMultipleOf => NumberIsNeeded(s, k);
    case KMinLength | KMaxLength | KMinItems | KMaxItems | KMinProperties | KMaxProperties => NumberIsNeeded(s, k);
    case KProperties => assert r.properties == NoProperties;
    case KItems => assert r.items == NilRef;
    case KOneOf => assert r.oneOf == [];
    case KAnyOf => assert r.anyOf == [];
    case KAllOf => assert r.allOf == [];
    case KNot => assert r.not == NilRef;
    case KRequired => assert r.required == ReadStrs(less, k) == [];
  }
}
