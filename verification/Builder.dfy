/** `proxy.Build`: one upstream request from a tool and the caller's arguments. Headers and
    authentication are not part of this model. */
module Builder {
  import opened Text
  import opened Percent
  import opened Template
  import opened PathLoop
  import PathStructure
  import InputSchema
  import SchemaMap
  import opened Extractor

  /** The request, as far as the arguments decide it; a `body` of `None` is an empty body. */
  datatype Outcome =
    | BadUpstream
    | DisallowedMethod
    | BadURL
    | Request(method_: string, url: string, query: Arguments, body: Option<Arguments>)

  /** The checks of `net/url` and `net/http` that `Build` relies on. */
  datatype Checks = Checks(upstreamValid: string -> bool, urlValid: string -> bool)

  function ToUpper(s: string): string {
    seq(|s|, i requires 0 <= i < |s| => if 'a' <= s[i] <= 'z' then s[i] - 'a' + 'A' else s[i])
  }

  /** Letters a to z become capitals, and nothing else changes. */
  lemma ToUpperIs(s: string)
    ensures |ToUpper(s)| == |s|
    ensures forall i :: 0 <= i < |s| && 'a' <= s[i] <= 'z' ==> ToUpper(s)[i] as int == s[i] as int - 32
    ensures forall i :: 0 <= i < |s| && !('a' <= s[i] <= 'z') ==> ToUpper(s)[i] == s[i]
  {
  }

  const ALLOWED := {"GET", "POST", "PUT", "PATCH", "DELETE", "HEAD", "OPTIONS"}

  const WITHOUT_BODY := {"GET", "DELETE", "HEAD"}

  /** The request for a path in which `s.left` are the arguments not yet used. */
  function Finish(tool: ToolDefinition, s: Loop, checks: Checks): Outcome {
    var base, verb := TrimRight(tool.upstream, '/'), ToUpper(tool.method_);
    if !checks.upstreamValid(base) then BadUpstream
    else if verb !in ALLOWED then DisallowedMethod
    else if !checks.urlValid(base + s.path) then BadURL
    else if verb in WITHOUT_BODY then Request(verb, base + s.path, s.left, None)
    else Request(verb, base + s.path, map[], if s.left == map[] then None else Some(s.left))
  }

  /** The loop over a copy of the argument map; `:|` stands for the runtime's choice of the next key. */
  method SubstituteArguments(t: string, args: Arguments) returns (path: string, left: Arguments)
    ensures exists o :: IsOrder(o, args.Keys) && VisitAll(t, args, o) == Loop(path, left)
  {
    path, left := t, args;
    ghost var o := Start;
    var todo := args.Keys;
    while todo != {}
      invariant todo <= args.Keys && IsOrder(o, args.Keys - todo)
      invariant Loop(path, left) == VisitAll(t, args, o)
      decreases todo
    {
      var k :| k in todo;
      var placeholder := Braced(k);
      if Contains(path, placeholder) {
        path := ReplaceAll(path, placeholder, Escape(args[k]));
        left := left - {k};
      }
      todo := todo - {k};
      o := Then(o, k);
    }
  }

  /** Whatever the arguments are called and in whatever order they are visited, the built path has no
      characters but those of the template and those that escaped texts may have. */
  lemma {:induction false} PathChars(t: string, args: Arguments, o: Order, c: char)
    requires Keys(o) <= args.Keys && c !in t
    requires !('a' <= c <= 'z' || 'A' <= c <= 'Z' || '0' <= c <= '9' || c in "-_.~$&+=:@%")
    ensures c !in VisitAll(t, args, o).path
  {
    if o.Then? {
      PathChars(t, args, o.earlier, c);
      EscapedChars(args[o.key]);
      ReplaceAllChars(VisitAll(t, args, o.earlier).path, Braced(o.key), Escape(args[o.key]), c);
    }
  }

  /** In particular no argument opens a query or a fragment, or adds a '/'. */
  lemma UrlKeepsOut(tool: ToolDefinition, args: Arguments, o: Order, c: char)
    requires IsOrder(o, args.Keys) && c in "?#/" && c !in tool.upstream && c !in tool.pathTemplate
    ensures c !in TrimRight(tool.upstream, '/') + VisitAll(tool.pathTemplate, args, o).path
  {
    PathChars(tool.pathTemplate, args, o, c);
    TrimRightIs(tool.upstream, '/');
    var base := TrimRight(tool.upstream, '/');
    assert base == tool.upstream[..|base|];
  }

  /** For every order the runtime may pick the request is the one that this order leads to; with
      brace-free names and a flat template it is the request of the simultaneous substitution. */
  method Build(tool: ToolDefinition, args: Arguments, checks: Checks) returns (r: Outcome)
    ensures exists o :: IsOrder(o, args.Keys) && r == Finish(tool, VisitAll(tool.pathTemplate, args, o), checks)
    ensures Flat(tool.pathTemplate) && BraceFreeKeys(args) ==>
      r == Finish(tool, Loop(Subst(tool.pathTemplate, Escaped(args)), args - Names(tool.pathTemplate)), checks)
    ensures r == BadUpstream <==> !checks.upstreamValid(TrimRight(tool.upstream, '/'))
    ensures r == DisallowedMethod <==>
      checks.upstreamValid(TrimRight(tool.upstream, '/')) &&
      ToUpper(tool.method_) !in {"GET", "POST", "PUT", "PATCH", "DELETE", "HEAD", "OPTIONS"}
    ensures r.Request? ==> r.method_ == ToUpper(tool.method_) && checks.urlValid(r.url) && r.body != Some(map[])
    ensures r.Request? && r.method_ in {"GET", "DELETE", "HEAD"} ==> r.body == None
    ensures r.Request? && r.method_ !in {"GET", "DELETE", "HEAD"} ==> r.query == map[]
    ensures r.Request? ==> TrimRight(tool.upstream, '/') <= r.url
    ensures forall c :: r.Request? && c in "?#" && c !in tool.upstream && c !in tool.pathTemplate ==> c !in r.url
  {
    var base := TrimRight(tool.upstream, '/');
    var path, left := SubstituteArguments(tool.pathTemplate, args);
    ghost var o :| IsOrder(o, args.Keys) && VisitAll(tool.pathTemplate, args, o) == Loop(path, left);
    if Flat(tool.pathTemplate) && BraceFreeKeys(args) {
      EveryOrderSubstitutes(tool.pathTemplate, args, o);
    }
    forall c | c in "?#" && c !in tool.upstream && c !in tool.pathTemplate ensures c !in base + path {
      UrlKeepsOut(tool, args, o, c);
    }
    if !checks.upstreamValid(base) {
      return BadUpstream;
    }
    var url, verb := base + path, ToUpper(tool.method_);
    if verb !in ALLOWED {
      return DisallowedMethod;
    }
    if !checks.urlValid(url) {
      return BadURL;
    }
    if verb in WITHOUT_BODY {
      r := Request(verb, url, left, None);
    } else if left != map[] {
      r := Request(verb, url, map[], Some(left));
    } else {
      r := Request(verb, url, map[], None);
    }
  }

  function Count3(a: bool, b: bool, c: bool): nat {
    (if a then 1 else 0) + (if b then 1 else 0) + (if c then 1 else 0)
  }

  /** The names that an input schema requires. */
  function RequiredNames(schema: InputSchema.Keys): seq<string> {
    if SchemaMap.KRequired in schema && schema[SchemaMap.KRequired].Strs? then schema[SchemaMap.KRequired].texts else []
  }

  /** The schema of an extracted tool requires every path parameter of its operation. */
  lemma PathParametersRequired(rec: SpecRecord, doc: Document, s: Site, name: string)
    requires IsSite(doc, s)
    requires InputSchema.IsPathParameter(doc[s.0].value.params + OperationAt(doc, s).params, name)
    ensures name in RequiredNames(ToolAt(rec, doc, s).inputSchema)
  {
    var op := OperationAt(doc, s);
    var json := if op.body.Some? then op.body.value.json else SchemaMap.NilRef;
    InputSchema.RequiredIsExact(
      doc[s.0].value.params + op.params,
      InputSchema.MapOf(json),
      op.body.Some? && op.body.value.required);
  }

  /** From the OpenAPI document to the request: if every placeholder of a flat path is a path parameter of the
      operation and the caller binds every name that the generated input schema requires, then in whatever
      order the arguments are visited no placeholder is left, every argument lands in exactly one of
      path, query and body, unchanged, and nothing else does. */
  lemma EndToEnd(rec: SpecRecord, doc: Document, site: Site, args: Arguments, o: Order, checks: Checks)
    requires IsSite(doc, site) && Flat(site.0) && BraceFreeKeys(args) && IsOrder(o, args.Keys)
    requires forall k :: k in Names(site.0) ==>
      InputSchema.IsPathParameter(doc[site.0].value.params + OperationAt(doc, site).params, k)
    requires forall k :: k in RequiredNames(ToolAt(rec, doc, site).inputSchema) ==> k in args
    requires Finish(ToolAt(rec, doc, site), VisitAll(site.0, args, o), checks).Request?
    ensures var s, r := VisitAll(site.0, args, o), Finish(ToolAt(rec, doc, site), VisitAll(site.0, args, o), checks);
      && Names(s.path) == {} && r.url == TrimRight(rec.upstream, '/') + s.path
      && LandsOnce(args, Names(site.0), r)
  {
    forall k | k in Names(site.0) ensures k in args {
      PathParametersRequired(rec, doc, site, k);
    }
    NoneLeft(site.0, args, o);
    EachLandsOnce(ToolAt(rec, doc, site), args, o, checks);
  }

  lemma NoneLeft(t: string, args: Arguments, o: Order)
    requires Flat(t) && BraceFreeKeys(args) && IsOrder(o, args.Keys) && Names(t) <= args.Keys
    ensures Names(VisitAll(t, args, o).path) == {}
  {
    EveryOrderSubstitutes(t, args, o);
    EscapedIsBraceFree(args, Escaped(args));
    SubstFlat(t, Escaped(args));
  }

  /** Every argument is in exactly one of path, query and body, and there is nothing else. */
  ghost predicate LandsOnce(args: Arguments, inPath: set<string>, r: Outcome)
    requires r.Request?
  {
    var body := if r.body.Some? then r.body.value else map[];
    && (forall k :: k in args ==> Count3(k in inPath, k in r.query, k in body) == 1)
    && (r.method_ in {"GET", "DELETE", "HEAD"} ==> r.body == None)
    && (r.method_ !in {"GET", "DELETE", "HEAD"} ==> r.query == map[])
    && (forall k :: k in r.query ==> k in args && r.query[k] == args[k])
    && (forall k :: k in body ==> k in args && body[k] == args[k])
  }

  lemma EachLandsOnce(tool: ToolDefinition, args: Arguments, o: Order, checks: Checks)
    requires Flat(tool.pathTemplate) && BraceFreeKeys(args) && IsOrder(o, args.Keys)
    requires Finish(tool, VisitAll(tool.pathTemplate, args, o), checks).Request?
    ensures LandsOnce(args, Names(tool.pathTemplate), Finish(tool, VisitAll(tool.pathTemplate, args, o), checks))
  {
    EveryOrderSubstitutes(tool.pathTemplate, args, o);
  }

  /** And percent-decoding the built path gives the decoded template with the arguments as they were. */
  lemma BuiltPathDecodes(tool: ToolDefinition, args: Arguments, o: Order)
    requires Flat(tool.pathTemplate) && BraceFreeKeys(args) && IsOrder(o, args.Keys)
    requires PathStructure.OwnEscapes(Parse(tool.pathTemplate))
    requires PathStructure.UnboundArePlain(Parse(tool.pathTemplate), args)
    ensures Unescape(VisitAll(tool.pathTemplate, args, o).path) ==
      Some(PathStructure.Decoded(Parse(tool.pathTemplate), args))
  {
    EveryOrderSubstitutes(tool.pathTemplate, args, o);
    PathStructure.DecodedPath(tool.pathTemplate, args);
  }
}
