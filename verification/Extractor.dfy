/** `ExtractTools`: the tools and operation records of a parsed OpenAPI document. */
module Extractor {
  import opened Text
  import SchemaMap
  import InputSchema

  datatype Verb = GET | POST | PUT | PATCH | DELETE | HEAD

  function VerbName(v: Verb): string {
    match v
    case GET => "GET"
    case POST => "POST"
    case PUT => "PUT"
    case PATCH => "PATCH"
    case DELETE => "DELETE"
    case HEAD => "HEAD"
  }

  function LowerName(v: Verb): string {
    match v
    case GET => "get"
    case POST => "post"
    case PUT => "put"
    case PATCH => "patch"
    case DELETE => "delete"
    case HEAD => "head"
  }

  /** A request body; `json` is the schema of its `application/json` content, if it has one. */
  datatype RequestBody = RequestBody(required: bool, json: SchemaMap.SchemaRef)

  datatype Operation = Operation(
    operationId: string, summary: string, description: string, tags: seq<string>,
    params: InputSchema.Parameters, body: Option<RequestBody>)

  datatype PathItem = PathItem(params: InputSchema.Parameters, operations: map<Verb, Operation>)

  /** The paths of a document; a path may have no item. */
  type Document = map<string, Option<PathItem>>

  /** A stored specification. `document` is what parsing its raw text gives, `None` if that fails. */
  datatype SpecRecord = SpecRecord(
    id: string, name: string, upstream: string, document: Option<Document>,
    passthroughAuth: bool, passthroughCookies: bool, passthroughHeaders: seq<string>, mtlsEnabled: bool)

  datatype ToolDefinition = ToolDefinition(
    name: string, description: string, inputSchema: InputSchema.Keys,
    operationId: string, specId: string, method_: string, pathTemplate: string, upstream: string,
    passthroughAuth: bool, passthroughCookies: bool, passthroughHeaders: seq<string>, mtlsEnabled: bool)

  datatype OperationRecord = OperationRecord(
    id: string, specId: string, operationId: string, method_: string, path: string,
    summary: string, description: string, tags: seq<string>, enabled: bool)

  function TrimLeft(s: string, cut: char): string {
    if s != [] && s[0] == cut then TrimLeft(s[1..], cut) else s
  }

  /** `sanitizeName`. */
  function SanitizeName(s: string): string {
    var s := ReplaceAll(s, "/", "_");
    var s := ReplaceAll(s, "{", "");
    var s := ReplaceAll(s, "}", "");
    var s := ReplaceAll(s, "-", "_");
    TrimRight(TrimLeft(s, '_'), '_')
  }

  /** `sanitizeName` before its underscores are trimmed. */
  function Untrimmed(s: string): string {
    ReplaceAll(ReplaceAll(ReplaceAll(ReplaceAll(s, "/", "_"), "{", ""), "}", ""), "-", "_")
  }

  lemma UntrimmedAppend(a: string, b: string)
    ensures Untrimmed(a + b) == Untrimmed(a) + Untrimmed(b)
  {
    ReplaceCharAppend(a, b, '/', "_");
    var a1, b1 := ReplaceAll(a, "/", "_"), ReplaceAll(b, "/", "_");
    ReplaceCharAppend(a1, b1, '{', "");
    var a2, b2 := ReplaceAll(a1, "{", ""), ReplaceAll(b1, "{", "");
    ReplaceCharAppend(a2, b2, '}', "");
    ReplaceCharAppend(ReplaceAll(a2, "}", ""), ReplaceAll(b2, "}", ""), '-', "_");
  }

  /** Slashes and dashes become underscores, braces go, everything else stays. */
  lemma UntrimmedChar(c: char)
    ensures Untrimmed([c]) == if c == '/' || c == '-' then "_" else if c == '{' || c == '}' then "" else [c]
  {
    ReplaceChar(c, '/', "_");
    var x := if c == '/' then '_' else c;
    ReplaceChar(x, '{', "");
    ReplaceChar(x, '}', "");
    ReplaceChar(x, '-', "_");
    assert ReplaceAll([], "}", "") == [] && ReplaceAll([], "-", "_") == [];
  }

  lemma {:induction false} TrimLeftIs(s: string, cut: char)
    ensures |TrimLeft(s, cut)| <= |s| && TrimLeft(s, cut) == s[|s| - |TrimLeft(s, cut)|..]
    ensures forall i :: 0 <= i < |s| - |TrimLeft(s, cut)| ==> s[i] == cut
    ensures TrimLeft(s, cut) == [] || TrimLeft(s, cut)[0] != cut
  {
    if s != [] && s[0] == cut {
      TrimLeftIs(s[1..], cut);
      forall i | 0 <= i < |s| - |TrimLeft(s, cut)| ensures s[i] == cut {
        assert i > 0 ==> s[i] == s[1..][i - 1];
      }
    }
  }

  /** The generated name: character by character, and then without the underscores at either end. */
  lemma SanitizeIs(s: string) returns (before: string, after: string)
    ensures before + SanitizeName(s) + after == Untrimmed(s)
    ensures forall c :: c in before + after ==> c == '_'
    ensures SanitizeName(s) == [] || (SanitizeName(s)[0] != '_' && SanitizeName(s)[|SanitizeName(s)| - 1] != '_')
  {
    var u := Untrimmed(s);
    var l := TrimLeft(u, '_');
    TrimLeftIs(u, '_');
    TrimRightIs(l, '_');
    before, after := u[..|u| - |l|], l[|SanitizeName(s)|..];
    assert u == before + SanitizeName(s) + after by {
      assert l == SanitizeName(s) + after;
    }
    forall c | c in before + after ensures c == '_' {
      if c in before {
        var i :| 0 <= i < |before| && before[i] == c;
      } else {
        var i :| 0 <= i < |after| && after[i] == c;
      }
    }
  }

  /** Where a document has an operation. */
  type Site = (string, Verb)

  predicate IsSite(doc: Document, s: Site) {
    s.0 in doc && doc[s.0].Some? && s.1 in doc[s.0].value.operations
  }

  function OperationAt(doc: Document, s: Site): Operation
    requires IsSite(doc, s)
  {
    doc[s.0].value.operations[s.1]
  }

  function ToolName(doc: Document, s: Site): string
    requires IsSite(doc, s)
  {
    var op := OperationAt(doc, s);
    if op.operationId != "" then op.operationId else SanitizeName(VerbName(s.1) + "_" + s.0)
  }

  function SchemaAt(doc: Document, s: Site): InputSchema.Keys
    requires IsSite(doc, s)
  {
    var op := OperationAt(doc, s);
    var json := if op.body.Some? then op.body.value.json else SchemaMap.NilRef;
    InputSchema.InputSchemaOf(
      doc[s.0].value.params + op.params, InputSchema.MapOf(json), op.body.Some? && op.body.value.required)
  }

  function ToolAt(rec: SpecRecord, doc: Document, s: Site): ToolDefinition
    requires IsSite(doc, s)
  {
    var op, name := OperationAt(doc, s), ToolName(doc, s);
    ToolDefinition(
      name, if op.summary != "" then op.summary else op.description, SchemaAt(doc, s),
      name, rec.id, VerbName(s.1), s.0, rec.upstream,
      rec.passthroughAuth, rec.passthroughCookies, rec.passthroughHeaders, rec.mtlsEnabled)
  }

  function RecordAt(rec: SpecRecord, doc: Document, s: Site): OperationRecord
    requires IsSite(doc, s)
  {
    var op := OperationAt(doc, s);
    OperationRecord(
      rec.id + "-" + LowerName(s.1) + "-" + SanitizeName(s.0), rec.id, ToolName(doc, s), VerbName(s.1), s.0,
      op.summary, op.description, op.tags, true)
  }

  /** Where the fields of a tool come from. */
  lemma ToolCarries(rec: SpecRecord, doc: Document, s: Site)
    requires IsSite(doc, s)
    ensures var t, op := ToolAt(rec, doc, s), doc[s.0].value.operations[s.1];
      && t.specId == rec.id && t.upstream == rec.upstream && t.pathTemplate == s.0
      && t.passthroughAuth == rec.passthroughAuth && t.passthroughCookies == rec.passthroughCookies
      && t.passthroughHeaders == rec.passthroughHeaders && t.mtlsEnabled == rec.mtlsEnabled
      && t.operationId == t.name && (op.operationId != "" ==> t.name == op.operationId)
      && (op.operationId == "" ==> t.name == SanitizeName(t.method_ + "_" + t.pathTemplate))
      && t.description == (if op.summary != "" then op.summary else op.description)
    ensures var op := doc[s.0].value.operations[s.1];
      ToolAt(rec, doc, s).inputSchema == InputSchema.InputSchemaOf(
        doc[s.0].value.params + op.params,
        if op.body.Some? then InputSchema.MapOf(op.body.value.json) else None,
        op.body.Some? && op.body.value.required)
    ensures var m := ToolAt(rec, doc, s).method_;
      match s.1
      case GET => m == "GET"
      case POST => m == "POST"
      case PUT => m == "PUT"
      case PATCH => m == "PATCH"
      case DELETE => m == "DELETE"
      case HEAD => m == "HEAD"
  {
  }

  /** And those of its record, which starts out enabled; its id tells the methods of a path apart. */
  lemma RecordCarries(rec: SpecRecord, doc: Document, s: Site)
    requires IsSite(doc, s)
    ensures var r, t, op := RecordAt(rec, doc, s), ToolAt(rec, doc, s), doc[s.0].value.operations[s.1];
      && r.enabled && r.specId == rec.id && r.operationId == t.name && r.method_ == t.method_ && r.path == s.0
      && r.summary == op.summary && r.description == op.description && r.tags == op.tags
    ensures var lower := match s.1 {
        case GET => "get" case POST => "post" case PUT => "put"
        case PATCH => "patch" case DELETE => "delete" case HEAD => "head" };
      RecordAt(rec, doc, s).id == rec.id + "-" + lower + "-" + SanitizeName(s.0)
  {
  }

  ghost predicate ToolsFor(rec: SpecRecord, doc: Document, sites: seq<Site>, tools: seq<ToolDefinition>) {
    |tools| == |sites| && forall i :: 0 <= i < |sites| ==> IsSite(doc, sites[i]) && tools[i] == ToolAt(rec, doc, sites[i])
  }

  ghost predicate RecordsFor(rec: SpecRecord, doc: Document, sites: seq<Site>, ops: seq<OperationRecord>) {
    |ops| == |sites| && forall i :: 0 <= i < |sites| ==> IsSite(doc, sites[i]) && ops[i] == RecordAt(rec, doc, sites[i])
  }

  /** One record for each operation of the document. */
  ghost predicate OneRecordEach(rec: SpecRecord, doc: Document, ops: seq<OperationRecord>) {
    exists sites :: RecordsFor(rec, doc, sites, ops) && NoRepeats(sites) && forall s :: s in sites <==> IsSite(doc, s)
  }

  /** What extraction has produced once it has visited `sites`. */
  ghost predicate Extracted(rec: SpecRecord, doc: Document, sites: seq<Site>,
                            tools: seq<ToolDefinition>, ops: seq<OperationRecord>)
  {
    ToolsFor(rec, doc, sites, tools) && RecordsFor(rec, doc, sites, ops)
  }

  const VERBS := [GET, POST, PUT, PATCH, DELETE, HEAD]

  lemma EveryVerb(v: Verb)
    ensures v in VERBS
  {
    assert VERBS[0] == GET && VERBS[1] == POST && VERBS[2] == PUT;
    assert VERBS[3] == PATCH && VERBS[4] == DELETE && VERBS[5] == HEAD;
  }

  lemma ToolsConcat(rec: SpecRecord, doc: Document, a: seq<Site>, ta: seq<ToolDefinition>,
                    b: seq<Site>, tb: seq<ToolDefinition>)
    requires ToolsFor(rec, doc, a, ta) && ToolsFor(rec, doc, b, tb)
    ensures ToolsFor(rec, doc, a + b, ta + tb)
  {
    forall i | 0 <= i < |a + b| ensures IsSite(doc, (a + b)[i]) && (ta + tb)[i] == ToolAt(rec, doc, (a + b)[i]) {
      var s, t := if i < |a| then a[i] else b[i - |a|], if i < |a| then ta[i] else tb[i - |a|];
      assert (a + b)[i] == s && (ta + tb)[i] == t && IsSite(doc, s);
    }
  }

  lemma RecordsConcat(rec: SpecRecord, doc: Document, a: seq<Site>, oa: seq<OperationRecord>,
                      b: seq<Site>, ob: seq<OperationRecord>)
    requires RecordsFor(rec, doc, a, oa) && RecordsFor(rec, doc, b, ob)
    ensures RecordsFor(rec, doc, a + b, oa + ob)
  {
    forall i | 0 <= i < |a + b| ensures IsSite(doc, (a + b)[i]) && (oa + ob)[i] == RecordAt(rec, doc, (a + b)[i]) {
      if i < |a| {
        assert IsSite(doc, a[i]) && (a + b)[i] == a[i] && (oa + ob)[i] == oa[i];
      } else {
        assert IsSite(doc, b[i - |a|]) && (a + b)[i] == b[i - |a|] && (oa + ob)[i] == ob[i - |a|];
      }
    }
  }

  ghost predicate NoRepeats(sites: seq<Site>) {
    forall i, j :: 0 <= i < j < |sites| ==> sites[i] != sites[j]
  }

  /** The operations that a path has among the first `n` methods, in their order. */
  function SitesOf(doc: Document, path: string, n: nat): seq<Site>
    requires path in doc && doc[path].Some? && n <= |VERBS|
  {
    if n == 0 then []
    else SitesOf(doc, path, n - 1) + (if VERBS[n - 1] in doc[path].value.operations then [(path, VERBS[n - 1])] else [])
  }

  lemma {:induction false} SitesOfPath(doc: Document, path: string, n: nat)
    requires path in doc && doc[path].Some? && n <= |VERBS|
    ensures forall s :: s in SitesOf(doc, path, n) <==> IsSite(doc, s) && s.0 == path && s.1 in VERBS[..n]
    ensures NoRepeats(SitesOf(doc, path, n))
  {
    if n > 0 {
      SitesOfPath(doc, path, n - 1);
      assert VERBS[..n] == VERBS[..n - 1] + [VERBS[n - 1]];
      assert VERBS[n - 1] !in VERBS[..n - 1];
    }
  }

  lemma AllSitesOfPath(doc: Document, path: string)
    requires path in doc && doc[path].Some?
    ensures forall s :: s in SitesOf(doc, path, |VERBS|) <==> IsSite(doc, s) && s.0 == path
    ensures NoRepeats(SitesOf(doc, path, |VERBS|))
  {
    SitesOfPath(doc, path, |VERBS|);
    forall s | IsSite(doc, s) && s.0 == path ensures s in SitesOf(doc, path, |VERBS|) {
      EveryVerb(s.1);
      assert VERBS[..|VERBS|] == VERBS;
    }
  }

  /** The operations of one path, in the fixed order of methods. */
  method ExtractPath(rec: SpecRecord, doc: Document, path: string) returns (tools: seq<ToolDefinition>, ops: seq<OperationRecord>)
    requires path in doc && doc[path].Some?
    ensures Extracted(rec, doc, SitesOf(doc, path, |VERBS|), tools, ops)
  {
    tools, ops := [], [];
    for n := 0 to |VERBS|
      invariant Extracted(rec, doc, SitesOf(doc, path, n), tools, ops)
    {
      var verb := VERBS[n];
      if verb in doc[path].value.operations {
        var site := (path, verb);
        var tool, op := ToolAt(rec, doc, site), RecordAt(rec, doc, site);
        ToolsConcat(rec, doc, SitesOf(doc, path, n), tools, [site], [tool]);
        RecordsConcat(rec, doc, SitesOf(doc, path, n), ops, [site], [op]);
        tools, ops := tools + [tool], ops + [op];
      }
    }
  }

  lemma NoRepeatsConcat(a: seq<Site>, b: seq<Site>)
    requires NoRepeats(a) && NoRepeats(b) && forall s :: s in a ==> s !in b
    ensures NoRepeats(a + b)
  {
    forall i, j | 0 <= i < j < |a + b| ensures (a + b)[i] != (a + b)[j] {
      if i < |a| <= j {
        assert a[i] in a && b[j - |a|] in b;
      }
    }
  }

  /** `ExtractTools`: the paths come in any order (`:|`), the methods of a path in a fixed one. Every
      operation of the document is visited exactly once. */
  method ExtractTools(rec: SpecRecord, doc: Document)
      returns (tools: seq<ToolDefinition>, ops: seq<OperationRecord>, ghost sites: seq<Site>)
    ensures Extracted(rec, doc, sites, tools, ops) && NoRepeats(sites)
    ensures forall s :: s in sites <==> IsSite(doc, s)
    ensures rec.document == Some(doc) ==> forall t :: t in tools <==> IsToolOf(t, rec)
  {
    tools, ops, sites := [], [], [];
    var todo := doc.Keys;
    while todo != {}
      invariant todo <= doc.Keys
      invariant Extracted(rec, doc, sites, tools, ops) && NoRepeats(sites)
      invariant forall s :: s in sites <==> IsSite(doc, s) && s.0 !in todo
      decreases todo
    {
      var path :| path in todo;
      if doc[path].Some? {
        var tools', ops' := ExtractPath(rec, doc, path);
        ghost var sites' := SitesOf(doc, path, |VERBS|);
        AllSitesOfPath(doc, path);
        ToolsConcat(rec, doc, sites, tools, sites', tools');
        RecordsConcat(rec, doc, sites, ops, sites', ops');
        NoRepeatsConcat(sites, sites');
        MemberConcat(doc, todo, path, sites, sites');
        tools, ops, sites := tools + tools', ops + ops', sites + sites';
      }
      todo := todo - {path};
    }
    if rec.document == Some(doc) {
      ToolsAreOf(rec, doc, sites, tools);
    }
  }

  lemma ToolsAreOf(rec: SpecRecord, doc: Document, sites: seq<Site>, tools: seq<ToolDefinition>)
    requires rec.document == Some(doc) && ToolsFor(rec, doc, sites, tools)
    requires forall s :: s in sites <==> IsSite(doc, s)
    ensures forall t :: t in tools <==> IsToolOf(t, rec)
  {
    forall t | IsToolOf(t, rec) ensures t in tools {
      var s :| IsSite(doc, s) && t == ToolAt(rec, doc, s);
      var i :| 0 <= i < |sites| && sites[i] == s;
      assert tools[i] == t;
    }
  }

  lemma MemberConcat(doc: Document, todo: set<string>, path: string, a: seq<Site>, b: seq<Site>)
    requires forall s :: s in a <==> IsSite(doc, s) && s.0 !in todo
    requires forall s :: s in b <==> IsSite(doc, s) && s.0 == path
    ensures forall s :: s in a + b <==> IsSite(doc, s) && s.0 !in todo - {path}
  {
  }

  /** The tools of a stored specification, whatever order they come in. */
  ghost predicate IsToolOf(t: ToolDefinition, rec: SpecRecord) {
    rec.document.Some? && exists s :: IsSite(rec.document.value, s) && t == ToolAt(rec, rec.document.value, s)
  }

  /** The tool names of a document are distinct. */
  ghost predicate DistinctTools(doc: Document) {
    forall s, s' :: IsSite(doc, s) && IsSite(doc, s') && ToolName(doc, s) == ToolName(doc, s') ==> s == s'
  }

  lemma DistinctToolsByName(rec: SpecRecord, t: ToolDefinition, t': ToolDefinition)
    requires IsToolOf(t, rec) && IsToolOf(t', rec) && DistinctTools(rec.document.value) && t.name == t'.name
    ensures t == t'
  {
    var doc := rec.document.value;
    var s :| IsSite(doc, s) && t == ToolAt(rec, doc, s);
    var s' :| IsSite(doc, s') && t' == ToolAt(rec, doc, s');
    assert s == s';
  }
}
