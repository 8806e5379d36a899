/** `buildInputSchema`: the input schema of a tool, from an operation's parameters and the map of its
    JSON body schema. */
module InputSchema {
  import opened Text
  import opened SchemaMap

  datatype Location = InPath | InQuery | InHeader | InCookie

  datatype Parameter = Parameter(
    name: string, location: Location, required: bool,
    description: string, example: Option<Json>, schema: SchemaRef)

  type Parameters = seq<Option<Parameter>>

  type Keys = map<Keyword, Value>

  /** The schema of a parameter as it is written, before its own description and example. */
  function Base(schema: SchemaRef): Keys {
    if schema.Ref? then SchemaToMap(schema.schema).keys else map[KType := Str("string")]
  }

  /** `parameterToMap`. */
  function ParameterToMap(p: Parameter): Value {
    Obj(WithExample(WithDescription(Base(p.schema), p.description), p.example))
  }

  function WithDescription(m: Keys, description: string): Keys {
    if description != "" then m[KDescription := Str(description)] else m
  }

  function WithExample(m: Keys, example: Option<Json>): Keys {
    if example.Some? && KExample !in m then m[KExample := Any(example.value)] else m
  }

  /** The names that the parameters make required, repetitions included. */
  function RequiredParameters(params: Parameters): seq<string> {
    if params == [] then []
    else
      var rest, last := RequiredParameters(params[..|params| - 1]), params[|params| - 1];
      if last.Some? && (last.value.required || last.value.location == InPath) then rest + [last.value.name] else rest
  }

  /** The properties that the parameters contribute; of two with one name the later stands. */
  function ParameterProperties(params: Parameters): map<string, Value> {
    if params == [] then map[]
    else
      var rest, last := ParameterProperties(params[..|params| - 1]), params[|params| - 1];
      if last.Some? then rest[last.value.name := ParameterToMap(last.value)] else rest
  }

  /** A body schema with a property map is merged in; any other becomes one property, `body`. */
  predicate HasProperties(body: Option<Keys>) {
    body.Some? && KProperties in body.value && body.value[KProperties].Props?
  }

  function BodyProperties(body: Option<Keys>): map<string, Value> {
    if HasProperties(body) then body.value[KProperties].props
    else if body.Some? then map["body" := Obj(body.value)]
    else map[]
  }

  function RequiredInBody(body: Option<Keys>, bodyRequired: bool): seq<string> {
    if HasProperties(body) then
      if KRequired in body.value && body.value[KRequired].Strs? then body.value[KRequired].texts else []
    else if body.Some? && bodyRequired then ["body"]
    else []
  }

  // ----- lists without repetition -----

  function AddUnique(values: seq<string>, value: string): seq<string> {
    if value in values then values else values + [value]
  }

  /** The distinct elements of `s`, in order of first occurrence. */
  function Distinct(s: seq<string>): seq<string> {
    if s == [] then [] else AddUnique(Distinct(s[..|s| - 1]), s[|s| - 1])
  }

  lemma {:induction false} DistinctElements(s: seq<string>)
    ensures forall i, j :: 0 <= i < j < |Distinct(s)| ==> Distinct(s)[i] != Distinct(s)[j]
    ensures forall x :: x in Distinct(s) <==> x in s
  {
    if s != [] {
      var before := s[..|s| - 1];
      DistinctElements(before);
      assert s == before + [s[|s| - 1]];
    }
  }

  lemma {:induction false} DistinctPrefix(a: seq<string>, b: seq<string>)
    ensures Distinct(a) <= Distinct(a + b)
  {
    if b == [] {
      assert a + b == a;
    } else {
      DistinctPrefix(a, b[..|b| - 1]);
      assert (a + b)[..|a + b| - 1] == a + b[..|b| - 1];
    }
  }

  /** `appendUniqueString`. */
  method AppendUniqueString(values: seq<string>, value: string) returns (r: seq<string>)
    ensures r == AddUnique(values, value)
  {
    for i := 0 to |values|
      invariant value !in values[..i]
    {
      if values[i] == value {
        return values;
      }
      assert values[..i + 1] == values[..i] + [values[i]];
    }
    assert values[..|values|] == values;
    r := values + [value];
  }

  /** The required names, without repetition: the parameters' first. */
  function Required(params: Parameters, body: Option<Keys>, bodyRequired: bool): seq<string> {
    Distinct(RequiredParameters(params) + RequiredInBody(body, bodyRequired))
  }

  function InputSchemaOf(params: Parameters, body: Option<Keys>, bodyRequired: bool): Keys {
    var required := Required(params, body, bodyRequired);
    var m: Keys := map[KType := Str("object"),
                       KProperties := Props(ParameterProperties(params) + BodyProperties(body))];
    var m := if body.Some? && KDescription in body.value && body.value[KDescription].Str?
                && body.value[KDescription].text != ""
             then m[KDescription := body.value[KDescription]] else m;
    if |required| > 0 then m[KRequired := Strs(required)] else m
  }

  /** `buildInputSchema`: first the parameters, then the body. */
  method BuildInputSchema(params: Parameters, body: Option<Keys>, bodyRequired: bool) returns (schema: Keys)
    ensures schema == InputSchemaOf(params, body, bodyRequired)
  {
    var properties, required := AddParameters(params);
    properties, required := AddBody(properties, required, body, bodyRequired, RequiredParameters(params));
    schema := map[KType := Str("object"), KProperties := Props(properties)];
    if body.Some? && KDescription in body.value && body.value[KDescription].Str?
       && body.value[KDescription].text != "" {
      schema := schema[KDescription := body.value[KDescription]];
    }
    if |required| > 0 {
      schema := schema[KRequired := Strs(required)];
    }
  }

  /** The loop over the parameters. */
  method AddParameters(params: Parameters) returns (properties: map<string, Value>, required: seq<string>)
    ensures properties == ParameterProperties(params) && required == Distinct(RequiredParameters(params))
  {
    properties, required := map[], [];
    for i := 0 to |params|
      invariant properties == ParameterProperties(params[..i])
      invariant required == Distinct(RequiredParameters(params[..i]))
    {
      assert params[..i + 1][..i] == params[..i];
      if params[i].Some? {
        var p := params[i].value;
        properties := properties[p.name := ParameterToMap(p)];
        if p.required || p.location == InPath {
          required := AppendUniqueString(required, p.name);
          DistinctNext(RequiredParameters(params[..i]), p.name);
        }
      }
    }
    assert params[..|params|] == params;
  }

  lemma DistinctNext(s: seq<string>, x: string)
    ensures Distinct(s + [x]) == AddUnique(Distinct(s), x)
  {
    assert (s + [x])[..|s|] == s;
  }

  /** What the body adds to the names in `s`. */
  method AddBody(before: map<string, Value>, names: seq<string>, body: Option<Keys>, bodyRequired: bool, ghost s: seq<string>)
      returns (properties: map<string, Value>, required: seq<string>)
    requires names == Distinct(s)
    ensures properties == before + BodyProperties(body) && required == Distinct(s + RequiredInBody(body, bodyRequired))
  {
    properties, required := before, names;
    assert s + [] == s;
    if body.Some? {
      if HasProperties(body) {
        properties := CopyInto(properties, body.value[KProperties].props);
        if KRequired in body.value && body.value[KRequired].Strs? {
          required := AppendAll(required, body.value[KRequired].texts, s);
        }
      } else {
        properties := properties["body" := Obj(body.value)];
        if bodyRequired {
          required := AppendUniqueString(required, "body");
          DistinctNext(s, "body");
        }
      }
    }
  }

  /** `for k, v := range from { to[k] = v }`. */
  method CopyInto(to: map<string, Value>, from: map<string, Value>) returns (r: map<string, Value>)
    ensures r == to + from
  {
    r := to;
    var todo := from.Keys;
    while todo != {}
      invariant todo <= from.Keys
      invariant r == to + map k | k in from && k !in todo :: from[k]
      decreases todo
    {
      var k :| k in todo;
      r := r[k := from[k]];
      todo := todo - {k};
    }
    assert (map k | k in from && k !in todo :: from[k]) == from;
  }

  method AppendAll(values: seq<string>, more: seq<string>, ghost s: seq<string>) returns (r: seq<string>)
    requires values == Distinct(s)
    ensures r == Distinct(s + more)
  {
    r := values;
    assert s + more[..0] == s;
    for i := 0 to |more|
      invariant r == Distinct(s + more[..i])
    {
      r := AppendUniqueString(r, more[i]);
      assert (s + more[..i + 1])[..|s| + i] == s + more[..i];
    }
    assert more[..|more|] == more;
  }

  // ----- what the list of required names promises -----

  ghost predicate IsPathParameter(params: Parameters, name: string) {
    exists i :: 0 <= i < |params| && params[i].Some? &&
      params[i].value.location == InPath && params[i].value.name == name
  }

  /** A parameter list makes exactly the flagged parameters and all path parameters required. */
  lemma {:induction false} RequiredParametersAre(params: Parameters, name: string)
    ensures name in RequiredParameters(params) <==>
      exists i :: 0 <= i < |params| && params[i].Some? && params[i].value.name == name &&
        (params[i].value.required || params[i].value.location == InPath)
  {
    if params != [] {
      var n := |params| - 1;
      var before := params[..n];
      RequiredParametersAre(before, name);
      assert forall i :: 0 <= i < n ==> before[i] == params[i];
      if name in RequiredParameters(before) {
        var i :| 0 <= i < n && before[i].Some? && before[i].value.name == name &&
          (before[i].value.required || before[i].value.location == InPath);
        assert params[i] == before[i];
      }
    }
  }

  /** The generated list of required names has no repetitions, and it names exactly the parameters
      flagged required, the path parameters and what the body requires, the parameters first. */
  lemma RequiredIsExact(params: Parameters, body: Option<Keys>, bodyRequired: bool)
    ensures var r := Required(params, body, bodyRequired);
      && (forall i, j :: 0 <= i < j < |r| ==> r[i] != r[j])
      && (forall name :: name in r <==>
            name in RequiredParameters(params) || name in RequiredInBody(body, bodyRequired))
      && (forall name :: IsPathParameter(params, name) ==> name in r)
      && Distinct(RequiredParameters(params)) <= r
  {
    var all := RequiredParameters(params) + RequiredInBody(body, bodyRequired);
    DistinctElements(all);
    DistinctPrefix(RequiredParameters(params), RequiredInBody(body, bodyRequired));
    forall name | IsPathParameter(params, name) ensures name in Distinct(all) {
      RequiredParametersAre(params, name);
    }
  }

  ghost predicate IsParameter(params: Parameters, j: int, name: string) {
    0 <= j < |params| && params[j].Some? && params[j].value.name == name
  }

  /** Among parameters of one name the last one describes the property. */
  lemma {:induction false} LastParameterWins(params: Parameters, name: string) returns (i: nat)
    ensures name in ParameterProperties(params) <==> exists j :: IsParameter(params, j, name)
    ensures name in ParameterProperties(params) ==>
      IsParameter(params, i, name) && ParameterProperties(params)[name] == ParameterToMap(params[i].value)
    ensures forall j :: IsParameter(params, j, name) ==> j <= i
  {
    i := 0;
    if params != [] {
      var n := |params| - 1;
      var before := params[..n];
      i := LastParameterWins(before, name);
      assert forall j :: IsParameter(before, j, name) <==> IsParameter(params, j, name) && j < n;
      if IsParameter(params, n, name) {
        i := n;
      }
    }
  }

  /** Where each property of the input schema comes from: from the body if it has one of the name, else from the
      last parameter of the name, and there are no others. */
  lemma PropertiesAre(params: Parameters, body: Option<Keys>, bodyRequired: bool, name: string) returns (i: nat)
    ensures var schema := InputSchemaOf(params, body, bodyRequired);
      && KProperties in schema && schema[KProperties].Props?
      && (name in schema[KProperties].props <==> name in BodyProperties(body) || exists j :: IsParameter(params, j, name))
      && (name in BodyProperties(body) ==> schema[KProperties].props[name] == BodyProperties(body)[name])
      && (name in schema[KProperties].props && name !in BodyProperties(body) ==>
            IsParameter(params, i, name) && schema[KProperties].props[name] == ParameterToMap(params[i].value))
    ensures forall j :: IsParameter(params, j, name) ==> j <= i
  {
    i := LastParameterWins(params, name);
  }

  // ----- the schema of an operation, from what its document says -----

  /** What a parameter's property says: its schema, or "string" without one; the parameter's own description
      takes precedence, and its own example does not. */
  lemma ParameterReads(p: Parameter)
    ensures ParameterToMap(p).Obj?
    ensures var r, s := Read(ParameterToMap(p)), if p.schema.Ref? then Normal(p.schema.schema) else Read(Obj(map[]));
      r == s.(types := if p.schema.Ref? then s.types else Some(["string"]),
              description := if p.description != "" then p.description else s.description,
              example := if s.example.Some? then s.example else p.example)
  {
    BaseReads(p.schema);
    ExampleIn(p.schema);
    DescriptionReads(Base(p.schema), p.description);
    ExampleReads(WithDescription(Base(p.schema), p.description), p.example);
  }

  /** An example is written exactly if the schema has one. */
  lemma ExampleIn(schema: SchemaRef)
    ensures KExample in Base(schema) <==> Read(Obj(Base(schema))).example.Some?
  {
    BaseReads(schema);
    if schema.Ref? {
      ReadTexts(schema.schema);
    }
  }

  lemma BaseReads(schema: SchemaRef)
    ensures Read(Obj(Base(schema))) ==
      if schema.Ref? then Normal(schema.schema) else Read(Obj(map[])).(types := Some(["string"]))
  {
    if schema.Ref? {
      ReadWritten(schema.schema);
      assert SchemaToMap(schema.schema) == Obj(Base(schema));
    } else {
      ReadOnlyType("string");
    }
  }

  lemma ReadOnlyType(t: string)
    ensures Read(Obj(map[KType := Str(t)])) == Read(Obj(map[])).(types := Some([t]))
  {
  }

  lemma DescriptionReads(m: Keys, text: string)
    ensures var s := Read(Obj(m));
      Read(Obj(WithDescription(m, text))) == s.(description := if text != "" then text else s.description)
  {
    if text != "" {
      DescriptionSet(m, text);
    }
  }

  lemma DescriptionSet(m: Keys, text: string)
    ensures Read(Obj(m[KDescription := Str(text)])) == Read(Obj(m)).(description := text)
  {
  }

  lemma ExampleReads(m: Keys, example: Option<Json>)
    requires KExample in m <==> Read(Obj(m)).example.Some?
    ensures var s := Read(Obj(m));
      Read(Obj(WithExample(m, example))) == s.(example := if s.example.Some? then s.example else example)
  {
    if example.Some? && KExample !in m {
      ExampleSet(m, example.value);
    }
  }

  lemma ExampleSet(m: Keys, json: Json)
    ensures Read(Obj(m[KExample := Any(json)])) == Read(Obj(m)).(example := Some(json))
  {
  }

  /** The map that a body contributes, if it has a schema. */
  function MapOf(body: SchemaRef): Option<Keys> {
    if body.Ref? then Some(SchemaToMap(body.schema).keys) else None
  }

  /** What a body schema contributes: its own properties and required names if it has a property map, even an empty
      one, and otherwise one property `body` that holds all of it and is required if the body is. */
  lemma BodyContributes(s: Schema, bodyRequired: bool)
    ensures var body := Some(SchemaToMap(s).keys);
      && (s.properties.Properties? ==>
            && (forall n :: n in BodyProperties(body) <==> n in s.properties.refs && s.properties.refs[n].Ref?)
            && (forall n :: n in BodyProperties(body) ==> BodyProperties(body)[n] == SchemaToMap(s.properties.refs[n].schema))
            && RequiredInBody(body, bodyRequired) == s.required)
      && (!s.properties.Properties? ==>
            && BodyProperties(body) == map["body" := SchemaToMap(s)]
            && RequiredInBody(body, bodyRequired) == if bodyRequired then ["body"] else [])
  {
    PropertiesKey(s);
    ReadTexts(s);
  }

  /** The keys of the schema: its type is "object", it describes the body, and it has no others. */
  lemma SchemaKeys(params: Parameters, body: SchemaRef, bodyRequired: bool)
    ensures var schema := InputSchemaOf(params, MapOf(body), bodyRequired);
      && KType in schema && schema[KType] == Str("object")
      && KProperties in schema && schema[KProperties].Props?
      && (KDescription in schema <==> body.Ref? && body.schema.description != "")
      && (KDescription in schema ==> schema[KDescription] == Str(body.schema.description))
      && forall k :: k in schema ==> k in {KType, KProperties, KDescription, KRequired}
  {
    if body.Ref? {
      ReadTexts(body.schema);
    }
  }

  /** The required names of the schema: there is a list exactly if it would not be empty, nothing is in it twice,
      and it names the flagged and the path parameters and what the body requires. */
  lemma SchemaRequires(params: Parameters, body: SchemaRef, bodyRequired: bool, name: string)
    ensures var schema := InputSchemaOf(params, MapOf(body), bodyRequired);
      var byParameter := exists i ::
        IsParameter(params, i, name) && (params[i].value.required || params[i].value.location == InPath);
      var byBody := body.Ref? &&
        if body.schema.properties.Properties? then name in body.schema.required else bodyRequired && name == "body";
      && (KRequired in schema ==> schema[KRequired].Strs? && schema[KRequired].texts != [])
      && (KRequired in schema ==> NoneTwice(schema[KRequired].texts))
      && (KRequired in schema && name in schema[KRequired].texts <==> byParameter || byBody)
  {
    RequiredIsExact(params, MapOf(body), bodyRequired);
    RequiredParametersAre(params, name);
    if body.Ref? {
      BodyContributes(body.schema, bodyRequired);
    }
    var r := Required(params, MapOf(body), bodyRequired);
    assert name in r ==> r != [];
    ByParameter(params, name);
  }

  ghost predicate NoneTwice(s: seq<string>) {
    forall i, j :: 0 <= i < j < |s| ==> s[i] != s[j]
  }

  lemma ByParameter(params: Parameters, name: string)
    ensures (exists i :: IsParameter(params, i, name) && (params[i].value.required || params[i].value.location == InPath)) <==>
      name in RequiredParameters(params)
  {
    RequiredParametersAre(params, name);
    if name in RequiredParameters(params) {
      var i :| 0 <= i < |params| && params[i].Some? && params[i].value.name == name &&
        (params[i].value.required || params[i].value.location == InPath);
      assert IsParameter(params, i, name);
    }
  }

  /** The properties of the schema: those of the body, `body` itself if it has no property map, and the parameters,
      of which the last one of a name counts. */
  lemma SchemaHasProperty(params: Parameters, body: SchemaRef, bodyRequired: bool, name: string) returns (i: nat)
    ensures var schema := InputSchemaOf(params, MapOf(body), bodyRequired);
      && KProperties in schema && schema[KProperties].Props?
      && var props := schema[KProperties].props;
        if body.Ref? && body.schema.properties.Properties? &&
           name in body.schema.properties.refs && body.schema.properties.refs[name].Ref?
        then name in props && props[name] == SchemaToMap(body.schema.properties.refs[name].schema)
        else if body.Ref? && !body.schema.properties.Properties? && name == "body"
        then name in props && props[name] == SchemaToMap(body.schema)
        else
          && (name in props <==> exists j :: IsParameter(params, j, name))
          && (name in props ==> IsParameter(params, i, name) && props[name] == ParameterToMap(params[i].value))
    ensures forall j :: IsParameter(params, j, name) ==> j <= i
  {
    i := PropertiesAre(params, MapOf(body), bodyRequired, name);
    if body.Ref? {
      BodyContributes(body.schema, bodyRequired);
    }
  }
}
