/** The stored specifications, and the tools they offer: the view that the registry caches. */
module Catalog {
  import opened Text
  import opened Extractor
  import opened ToolRegistry

  /** The spec and operation files, by specification id. */
  datatype Files = Files(specs: map<string, SpecRecord>, ops: map<string, seq<OperationRecord>>)

  // ----- the order in which a directory lists its files -----

  /** Byte-wise lexicographic order. */
  predicate Less(a: string, b: string) {
    b != [] && (a == [] || a[0] < b[0] || (a[0] == b[0] && Less(a[1..], b[1..])))
  }

  /** The first byte that differs decides, and a proper prefix comes first. */
  lemma {:induction false} LessIff(a: string, b: string)
    ensures Less(a, b) <==> a < b || exists n :: 0 <= n < |a| && n < |b| && a[..n] == b[..n] && a[n] < b[n]
  {
    if a == [] || b == [] {
    } else if a[0] != b[0] {
      assert a[..0] == b[..0];
      forall n | 0 < n < |a| && n < |b| ensures a[..n] != b[..n] {
        assert a[..n][0] == a[0] && b[..n][0] == b[0];
      }
    } else {
      LessIff(a[1..], b[1..]);
      assert a < b <==> a[1..] < b[1..] by {
        assert a == [a[0]] + a[1..] && b == [b[0]] + b[1..];
      }
      forall n | 0 <= n < |a[1..]| && n < |b[1..]|
        ensures (a[1..][..n] == b[1..][..n] && a[1..][n] < b[1..][n]) <==> (a[..n + 1] == b[..n + 1] && a[n + 1] < b[n + 1])
      {
        assert a[..n + 1] == [a[0]] + a[1..][..n] && b[..n + 1] == [b[0]] + b[1..][..n];
        assert a[1..][..n] == a[..n + 1][1..] && b[1..][..n] == b[..n + 1][1..];
      }
      forall n | 0 <= n < |a| && n < |b| && a[..n] == b[..n] && a[n] < b[n] ensures Less(a, b) {
        assert n > 0;
        assert a[1..][..n - 1] == b[1..][..n - 1] && a[1..][n - 1] < b[1..][n - 1];
      }
      if m :| 0 <= m < |a[1..]| && m < |b[1..]| && a[1..][..m] == b[1..][..m] && a[1..][m] < b[1..][m] {
        assert a[..m + 1] == b[..m + 1] && a[m + 1] < b[m + 1];
      }
    }
  }

  /** A directory lists its files by their whole names. */
  lemma FileLessIff(a: string, b: string)
    ensures var x, y := a + ".json", b + ".json";
      FileLess(a, b) <==> (x < y || exists n :: 0 <= n < |x| && n < |y| && x[..n] == y[..n] && x[n] < y[n])
  {
    LessIff(FileName(a), FileName(b));
  }

  function FileName(id: string): string { id + ".json" }

  predicate FileLess(a: string, b: string) { Less(FileName(a), FileName(b)) }

  lemma {:induction false} LessTotal(a: string, b: string)
    ensures Less(a, b) || Less(b, a) || a == b
    ensures !(Less(a, b) && Less(b, a))
  {
    if a != [] && b != [] && a[0] == b[0] {
      LessTotal(a[1..], b[1..]);
      assert a == [a[0]] + a[1..] && b == [b[0]] + b[1..];
    }
  }

  lemma {:induction false} LessTransitive(a: string, b: string, c: string)
    requires Less(a, b) && Less(b, c)
    ensures Less(a, c)
  {
    if a != [] && a[0] == b[0] && b[0] == c[0] {
      LessTransitive(a[1..], b[1..], c[1..]);
    }
  }

  lemma FileLessTotal(a: string, b: string)
    ensures FileLess(a, b) || FileLess(b, a) || a == b
    ensures !(FileLess(a, b) && FileLess(b, a))
  {
    LessTotal(FileName(a), FileName(b));
    assert FileName(a)[..|FileName(a)| - 5] == a && FileName(b)[..|FileName(b)| - 5] == b;
  }

  lemma {:induction false} LeastExists(ids: set<string>) returns (least: string)
    requires ids != {}
    ensures least in ids && forall id :: id in ids && id != least ==> FileLess(least, id)
  {
    var id :| id in ids;
    if ids == {id} {
      least := id;
    } else {
      least := LeastExists(ids - {id});
      FileLessTotal(id, least);
      if FileLess(id, least) {
        forall other | other in ids && other != id ensures FileLess(id, other) {
          if other != least {
            assert FileLess(least, other);
            LessTransitive(FileName(id), FileName(least), FileName(other));
          }
        }
        least := id;
      }
    }
  }

  // ----- what the files offer -----

  predicate Enabled(ops: seq<OperationRecord>, operationId: string) {
    exists i :: 0 <= i < |ops| && ops[i].enabled && ops[i].operationId == operationId
  }

  /** Specification `id` offers `t`: it is stored with operations, it parses, and `t` is enabled. */
  ghost predicate Offers(f: Files, id: string, t: ToolDefinition) {
    id in f.specs && id in f.ops && IsToolOf(t, f.specs[id]) && Enabled(f.ops[id], t.operationId)
  }

  /** From `f` to `g`: whether specification `id` offers the tools of this operation becomes `on`, and what
      else it offers stays. */
  ghost predicate Decides(f: Files, g: Files, id: string, operationId: string, on: bool) {
    forall t :: Offers(g, id, t) <==>
      if t.operationId == operationId then on && id in g.specs && IsToolOf(t, g.specs[id]) else Offers(f, id, t)
  }

  /** Every tool of the specification is offered and its name registered; and the tool itself, if names are
      distinct within the specification and no later file offers the name. */
  ghost predicate AllRegistered(f: Files, rec: SpecRecord, tools: map<string, ToolDefinition>) {
    forall t :: IsToolOf(t, rec) ==>
      && Offers(f, rec.id, t) && t.name in tools
      && (DistinctTools(rec.document.value) && LastToOffer(f, rec.id, t.name) ==> tools[t.name] == t)
  }

  /** No file later in the directory offers a tool of this name. */
  ghost predicate LastToOffer(f: Files, id: string, name: string) {
    forall id', t' :: Offers(f, id', t') && t'.name == name ==> id' == id || FileLess(id', id)
  }

  /** The declarative view: a name is registered when some specification offers it, and the tool
      registered for it is one that the last such specification offers. */
  ghost predicate IsView(f: Files, tools: map<string, ToolDefinition>) {
    && (forall id, t :: Offers(f, id, t) ==> t.name in tools)
    && (forall name :: name in tools ==>
          (tools[name].name == name && exists id :: Offers(f, id, tools[name]) && LastToOffer(f, id, name)))
  }

  ghost predicate DistinctNames(f: Files) {
    forall id :: id in f.specs && f.specs[id].document.Some? ==> DistinctTools(f.specs[id].document.value)
  }

  /** With tool names distinct within each specification, the files determine the view. */
  lemma ViewIsUnique(f: Files, a: map<string, ToolDefinition>, b: map<string, ToolDefinition>)
    requires DistinctNames(f) && IsView(f, a) && IsView(f, b)
    ensures a == b
  {
    SubView(f, a, b);
    SubView(f, b, a);
    SubMapBoth(a, b);
  }

  lemma SubView(f: Files, a: map<string, ToolDefinition>, b: map<string, ToolDefinition>)
    requires DistinctNames(f) && IsView(f, a) && IsView(f, b)
    ensures SubMap(a, b)
  {
    forall name | name in a ensures name in b && a[name] == b[name] {
      SameToolInView(f, a, b, name);
    }
  }

  ghost predicate SubMap(a: map<string, ToolDefinition>, b: map<string, ToolDefinition>) {
    forall name :: name in a ==> name in b && a[name] == b[name]
  }

  lemma SubMapBoth(a: map<string, ToolDefinition>, b: map<string, ToolDefinition>)
    requires SubMap(a, b) && SubMap(b, a)
    ensures a == b
  {
  }

  lemma SameToolInView(f: Files, a: map<string, ToolDefinition>, b: map<string, ToolDefinition>, name: string)
    requires DistinctNames(f) && IsView(f, a) && IsView(f, b) && name in a
    ensures name in b && a[name] == b[name]
  {
    var i :| Offers(f, i, a[name]) && LastToOffer(f, i, name);
    var j :| Offers(f, j, b[name]) && LastToOffer(f, j, name);
    FileLessTotal(i, j);
    DistinctToolsByName(f.specs[i], a[name], b[name]);
  }

  /** The view depends on nothing but what is offered. */
  lemma SameOffersSameView(f: Files, g: Files, tools: map<string, ToolDefinition>)
    requires IsView(f, tools) && forall id, t :: Offers(f, id, t) <==> Offers(g, id, t)
    ensures IsView(g, tools)
  {
    forall name | name in tools
      ensures exists id :: Offers(g, id, tools[name]) && LastToOffer(g, id, name)
    {
      var id :| Offers(f, id, tools[name]) && LastToOffer(f, id, name);
      assert Offers(g, id, tools[name]) && LastToOffer(g, id, name);
    }
  }

  /** Every registered tool carries the settings that are stored for its specification. */
  lemma RegisteredCarries(f: Files, tools: map<string, ToolDefinition>, name: string)
    requires IsView(f, tools) && name in tools && forall id :: id in f.specs ==> f.specs[id].id == id
    ensures var t := tools[name]; t.name == name && t.specId in f.specs && Carries(t, f.specs[t.specId])
  {
    var id :| Offers(f, id, tools[name]) && LastToOffer(f, id, name);
    var doc := f.specs[id].document.value;
    var s :| IsSite(doc, s) && tools[name] == ToolAt(f.specs[id], doc, s);
    ToolCarries(f.specs[id], doc, s);
  }

  ghost predicate AllCarry(f: Files, tools: map<string, ToolDefinition>) {
    forall name :: name in tools ==> tools[name].specId in f.specs && Carries(tools[name], f.specs[tools[name].specId])
  }

  lemma ViewCarries(f: Files, tools: map<string, ToolDefinition>)
    requires IsView(f, tools) && forall id :: id in f.specs ==> f.specs[id].id == id
    ensures AllCarry(f, tools)
  {
    forall name | name in tools
      ensures tools[name].specId in f.specs && Carries(tools[name], f.specs[tools[name].specId])
    {
      RegisteredCarries(f, tools, name);
    }
  }

  predicate Carries(t: ToolDefinition, rec: SpecRecord) {
    && t.upstream == rec.upstream && t.mtlsEnabled == rec.mtlsEnabled
    && t.passthroughAuth == rec.passthroughAuth && t.passthroughCookies == rec.passthroughCookies
    && t.passthroughHeaders == rec.passthroughHeaders
  }

  /** Of a specification with the records that extraction made, every tool is offered. */
  lemma NewOffers(f: Files, rec: SpecRecord, sites: seq<Site>, t: ToolDefinition)
    requires rec.id in f.specs && f.specs[rec.id] == rec && rec.id in f.ops && IsToolOf(t, rec)
    requires RecordsFor(rec, rec.document.value, sites, f.ops[rec.id])
    requires forall s :: s in sites <==> IsSite(rec.document.value, s)
    ensures Offers(f, rec.id, t)
  {
    var s :| IsSite(rec.document.value, s) && t == ToolAt(rec, rec.document.value, s);
    var i :| 0 <= i < |sites| && sites[i] == s;
    RecordCarries(rec, rec.document.value, s);
    assert f.ops[rec.id][i].enabled && f.ops[rec.id][i].operationId == t.operationId;
  }

  /** What the last specification to offer a name offers under it is registered. */
  lemma LastOfferStands(f: Files, tools: map<string, ToolDefinition>, id: string, t: ToolDefinition)
    requires IsView(f, tools) && Offers(f, id, t) && LastToOffer(f, id, t.name)
    requires DistinctTools(f.specs[id].document.value)
    ensures t.name in tools && tools[t.name] == t
  {
    var i :| Offers(f, i, tools[t.name]) && LastToOffer(f, i, t.name);
    FileLessTotal(i, id);
    DistinctToolsByName(f.specs[id], t, tools[t.name]);
  }

  /** A specification without operations offers nothing. */
  lemma SpecAlone(f: Files, rec: SpecRecord, tools: map<string, ToolDefinition>)
    requires IsView(f, tools) && rec.id !in f.specs && rec.id !in f.ops
    ensures IsView(Files(f.specs[rec.id := rec], f.ops), tools)
  {
    SameOffersSameView(f, Files(f.specs[rec.id := rec], f.ops), tools);
  }

  function Without(f: Files, id: string): Files { Files(f.specs - {id}, f.ops - {id}) }

  /** Leaving out `id`, the last specification to offer `name` is `last`. */
  ghost predicate LastWithout(f: Files, id: string, last: string, name: string) {
    last != id && forall id', t' :: id' != id && Offers(f, id', t') && t'.name == name ==> id' == last || FileLess(id', last)
  }

  /** Deleting a specification uncovers the tool it shadowed: of the remaining specifications that offer
      the name, the last one's tool is now registered; and a name nobody else offers is gone. */
  lemma DeleteUncovers(f: Files, id: string, tools: map<string, ToolDefinition>, name: string)
    requires DistinctNames(f) && IsView(Without(f, id), tools)
    ensures name in tools <==> exists id', t' :: id' != id && Offers(f, id', t') && t'.name == name
    ensures forall last, t :: Offers(f, last, t) && t.name == name && LastWithout(f, id, last, name) ==>
              name in tools && tools[name] == t
  {
    var g := Without(f, id);
    assert forall id', t' :: Offers(g, id', t') <==> id' != id && Offers(f, id', t');
    forall last, t | Offers(f, last, t) && t.name == name && LastWithout(f, id, last, name)
      ensures name in tools && tools[name] == t
    {
      assert Offers(g, last, t);
      var i :| Offers(g, i, tools[name]) && LastToOffer(g, i, name);
      assert Offers(f, i, tools[name]);
      FileLessTotal(i, last);
      DistinctToolsByName(f.specs[last], tools[name], t);
    }
  }

  // ----- the list of tools that a rebuild collects -----

  /** `tools` lists what the files of `done` offer, file by file in directory order; `from` says where
      each tool comes from. */
  ghost predicate Collected(f: Files, done: set<string>, tools: seq<ToolDefinition>, from: seq<string>) {
    AllOffered(f, done, tools, from) && InFileOrder(from) && NothingMissed(f, done, tools, from)
  }

  ghost predicate AllOffered(f: Files, done: set<string>, tools: seq<ToolDefinition>, from: seq<string>) {
    |from| == |tools| && forall i :: 0 <= i < |tools| ==> from[i] in done && Offers(f, from[i], tools[i])
  }

  ghost predicate InFileOrder(from: seq<string>) {
    forall i, j :: 0 <= i < j < |from| ==> from[i] == from[j] || FileLess(from[i], from[j])
  }

  ghost predicate NothingMissed(f: Files, done: set<string>, tools: seq<ToolDefinition>, from: seq<string>)
    requires |from| == |tools|
  {
    forall id, t :: id in done && Offers(f, id, t) ==> IsListed(tools, from, id, t)
  }

  ghost predicate IsListed(tools: seq<ToolDefinition>, from: seq<string>, id: string, t: ToolDefinition)
    requires |from| == |tools|
  {
    exists i :: 0 <= i < |tools| && from[i] == id && tools[i] == t
  }

  /** Assigning the collected tools one after the other gives the view. */
  lemma CollectedIsView(f: Files, tools: seq<ToolDefinition>, from: seq<string>)
    requires Collected(f, f.specs.Keys, tools, from)
    ensures IsView(f, LastWins(tools))
  {
    var m := LastWins(tools);
    forall id, t | Offers(f, id, t) ensures t.name in m {
      var j :| 0 <= j < |tools| && from[j] == id && tools[j] == t;
      var i := LastWinsAt(tools, t.name);
    }
    forall name | name in m
      ensures m[name].name == name && exists id :: Offers(f, id, m[name]) && LastToOffer(f, id, name)
    {
      var i := LastWinsAt(tools, name);
      assert Offers(f, from[i], m[name]);
      forall id', t' | Offers(f, id', t') && t'.name == name ensures id' == from[i] || FileLess(id', from[i]) {
        var j :| 0 <= j < |tools| && from[j] == id' && tools[j] == t';
        assert j <= i;
      }
    }
  }

  /** One more file, the next in the directory. */
  lemma CollectNext(f: Files, done: set<string>, tools: seq<ToolDefinition>, from: seq<string>,
                    id: string, more: seq<ToolDefinition>, moreFrom: seq<string>)
    requires Collected(f, done, tools, from)
    requires forall d :: d in done ==> FileLess(d, id)
    requires forall t :: t in more <==> Offers(f, id, t)
    requires |moreFrom| == |more| && forall i :: 0 <= i < |more| ==> moreFrom[i] == id
    ensures Collected(f, done + {id}, tools + more, from + moreFrom)
  {
    AllOfferedNext(f, done, tools, from, id, more, moreFrom);
    CollectedInOrder(done, from, id, moreFrom);
    forall d, t | d in done + {id} && Offers(f, d, t) ensures IsListed(tools + more, from + moreFrom, d, t) {
      if d in done {
        assert IsListed(tools, from, d, t);
        ListedBefore(tools, from, more, moreFrom, d, t);
      } else {
        var i :| 0 <= i < |more| && more[i] == t;
        ListedAt(tools, from, more, moreFrom, i);
      }
    }
  }

  lemma AllOfferedNext(f: Files, done: set<string>, tools: seq<ToolDefinition>, from: seq<string>,
                       id: string, more: seq<ToolDefinition>, moreFrom: seq<string>)
    requires AllOffered(f, done, tools, from) && |moreFrom| == |more|
    requires forall i :: 0 <= i < |more| ==> moreFrom[i] == id && Offers(f, id, more[i])
    ensures AllOffered(f, done + {id}, tools + more, from + moreFrom)
  {
  }

  lemma ListedBefore(tools: seq<ToolDefinition>, from: seq<string>, more: seq<ToolDefinition>, moreFrom: seq<string>,
                     id: string, t: ToolDefinition)
    requires |from| == |tools| && |moreFrom| == |more| && IsListed(tools, from, id, t)
    ensures IsListed(tools + more, from + moreFrom, id, t)
  {
    var i :| 0 <= i < |tools| && from[i] == id && tools[i] == t;
    assert (from + moreFrom)[i] == id && (tools + more)[i] == t;
  }

  lemma ListedAt(tools: seq<ToolDefinition>, from: seq<string>, more: seq<ToolDefinition>, moreFrom: seq<string>, i: nat)
    requires |from| == |tools| && |moreFrom| == |more| && i < |more|
    ensures IsListed(tools + more, from + moreFrom, moreFrom[i], more[i])
  {
    assert (from + moreFrom)[|tools| + i] == moreFrom[i] && (tools + more)[|tools| + i] == more[i];
  }

  lemma CollectedInOrder(done: set<string>, from: seq<string>, id: string, moreFrom: seq<string>)
    requires forall i :: 0 <= i < |from| ==> from[i] in done
    requires InFileOrder(from)
    requires forall d :: d in done ==> FileLess(d, id)
    requires forall i :: 0 <= i < |moreFrom| ==> moreFrom[i] == id
    ensures InFileOrder(from + moreFrom)
  {
  }
}
