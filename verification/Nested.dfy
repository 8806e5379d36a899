/** Which templates make the path of a request independent of the iteration order of the argument
    map: exactly the flat ones. A template such as `{{a}}` is not flat. */
module Nested {
  import opened Text
  import opened Percent
  import opened Template
  import opened PathLoop

  /** Whichever order the runtime picks, the same path is built. */
  ghost predicate OrderFree(t: string) {
    forall args: Arguments, o, o' | BraceFreeKeys(args) && IsOrder(o, args.Keys) && IsOrder(o', args.Keys) ::
      VisitAll(t, args, o).path == VisitAll(t, args, o').path
  }

  /** Flatness is exactly what order independence needs. */
  lemma OrderFreeIffFlat(t: string)
    ensures OrderFree(t) <==> Flat(t)
  {
    if Flat(t) {
      forall args: Arguments, o, o' | BraceFreeKeys(args) && IsOrder(o, args.Keys) && IsOrder(o', args.Keys)
        ensures VisitAll(t, args, o).path == VisitAll(t, args, o').path
      {
        EveryOrderSubstitutes(t, args, o);
        EveryOrderSubstitutes(t, args, o');
      }
    } else {
      var args, o, o' := NestedDependsOnOrder(t);
    }
  }

  // ----- finding a nest in a template that is not flat -----

  /** Plain text and placeholders only. */
  predicate StrayFree(ps: Pieces) {
    match ps
    case End => true
    case Lit(c, rest) => !Brace(c) && StrayFree(rest)
    case Hole(k, rest) => BraceFree(k) && StrayFree(rest)
  }

  /** A stray '{' and a stray '}' with nothing stray between them. */
  datatype Nest = Nest(before: Pieces, inner: Pieces, after: Pieces) {
    function Whole(): Pieces { Append(before, Lit('{', Append(inner, Lit('}', after)))) }
  }

  /** The next brace is a stray '}' and no placeholder comes before it. */
  predicate ClosesNext(ps: Pieces) {
    ps.Lit? && (ps.c == '}' || (ps.c != '{' && ClosesNext(ps.rest)))
  }

  /** No stray '{' is closed without a placeholder in between: parsing leaves none. */
  predicate Tight(ps: Pieces) {
    ps != End ==> Tight(ps.rest) && (ps.Lit? && ps.c == '{' ==> !ClosesNext(ps.rest))
  }

  lemma {:induction false} ParseIsTight(t: string)
    ensures Tight(Parse(t))
    decreases |t|
  {
    if t == [] {
    } else if StartsHole(t) {
      var k, s := HoleParts(t);
      ParseIsTight(s);
    } else {
      ParseIsTight(t[1..]);
      if ClosesNext(Parse(t[1..])) {
        ClosesNextBrace(t[1..]);
      }
    }
  }

  lemma {:induction false} ClosesNextBrace(t: string)
    requires ClosesNext(Parse(t))
    ensures FirstBrace(t) < |t| && t[FirstBrace(t)] == '}'
  {
    if t[0] != '}' {
      ClosesNextBrace(t[1..]);
    }
  }

  lemma {:induction false} NoHolesClosesNext(p: Pieces, b: Pieces)
    requires StrayFree(p) && Holes(p) == {}
    ensures ClosesNext(Append(p, Lit('}', b)))
  {
    if p != End {
      NoHolesClosesNext(p.rest, b);
    }
  }

  /** A stray '}' in `r` closes either a nest within `r` (`nested`), or a '{' just before `r`. */
  lemma {:induction false} FindClose(r: Pieces) returns (nested: bool, n: Nest)
    requires GoodNames(r) && Tight(r) && !NoStrayClose(r)
    ensures StrayFree(n.inner)
    ensures nested ==> r == n.Whole() && Holes(n.inner) != {}
    ensures !nested ==> r == Append(n.inner, Lit('}', n.after))
  {
    if r.Lit? && r.c == '}' {
      nested, n := false, Nest(End, End, r.rest);
    } else {
      nested, n := FindClose(r.rest);
      if nested {
        n := n.(before := if r.Lit? then Lit(r.c, n.before) else Hole(r.name, n.before));
      } else if r.Lit? && r.c == '{' {
        nested, n := true, Nest(End, n.inner, n.after);
        if Holes(n.inner) == {} {
          NoHolesClosesNext(n.inner, n.after);
        }
      } else {
        n := n.(inner := if r.Lit? then Lit(r.c, n.inner) else Hole(r.name, n.inner));
      }
    }
  }

  lemma {:induction false} FindNest(ps: Pieces) returns (n: Nest)
    requires GoodNames(ps) && Tight(ps) && !FlatPieces(ps)
    ensures ps == n.Whole() && StrayFree(n.inner) && Holes(n.inner) != {}
  {
    if ps.Lit? && ps.c == '{' {
      var nested;
      nested, n := FindClose(ps.rest);
      if nested {
        n := n.(before := Lit('{', n.before));
      } else {
        n := Nest(End, n.inner, n.after);
        if Holes(n.inner) == {} {
          NoHolesClosesNext(n.inner, n.after);
        }
      }
    } else {
      n := FindNest(ps.rest);
      n := n.(before := if ps.Lit? then Lit(ps.c, n.before) else Hole(ps.name, n.before));
    }
  }

  // ----- a nest under substitution -----

  lemma {:induction false} ParseStrayFree(p: Pieces, z: string)
    requires StrayFree(p)
    ensures Parse(Print(p) + z) == Append(p, Parse(z))
  {
    match p {
      case End =>
        assert [] + z == z;
      case Lit(c, rest) =>
        var s := Print(rest) + z;
        ParseStrayFree(rest, z);
        assert Print(p) + z == [c] + s;
        assert ([c] + s)[1..] == s;
      case Hole(k, rest) =>
        ParseStrayFree(rest, z);
        ParseHole(k, Print(rest) + z);
        HoleThen(k, Print(rest), z);
    }
  }

  lemma HoleThen(k: string, s: string, z: string)
    ensures Braced(k) + s + z == Braced(k) + (s + z)
  {
  }

  lemma {:induction false} NoHolesBraceFree(p: Pieces)
    requires StrayFree(p) && Holes(p) == {}
    ensures BraceFree(Print(p))
  {
    if p != End {
      NoHolesBraceFree(p.rest);
    }
  }

  /** Text before a '{' parses by itself. */
  lemma {:induction false} ParseBefore(a: string, s: string)
    requires s != [] && s[0] == '{'
    ensures Parse(a + s) == Append(Parse(a), Parse(s))
    decreases |a|
  {
    if a == [] {
      assert a + s == s;
    } else if StartsHole(a) {
      var k, r := HoleParts(a);
      ParseBefore(r, s);
      HoleBefore(k, r, s);
    } else {
      ParseBefore(a[1..], s);
      LitBefore(a, s);
    }
  }

  lemma HoleBefore(k: string, r: string, s: string)
    requires BraceFree(k) && Parse(r + s) == Append(Parse(r), Parse(s))
    ensures Parse(Braced(k) + r + s) == Append(Parse(Braced(k) + r), Parse(s))
  {
    HoleThen(k, r, s);
    ParseHole(k, r);
    ParseHole(k, r + s);
    assert Append(Hole(k, Parse(r)), Parse(s)) == Hole(k, Append(Parse(r), Parse(s)));
  }

  lemma LitBefore(a: string, s: string)
    requires a != [] && !StartsHole(a) && s != [] && s[0] == '{'
    requires Parse(a[1..] + s) == Append(Parse(a[1..]), Parse(s))
    ensures Parse(a + s) == Append(Parse(a), Parse(s))
  {
    NoHoleBefore(a, s);
  }

  lemma NoHoleBefore(a: string, s: string)
    requires a != [] && !StartsHole(a) && s != [] && s[0] == '{'
    ensures Parse(a) == Lit(a[0], Parse(a[1..])) && Parse(a + s) == Lit(a[0], Parse(a[1..] + s))
  {
    assert (a + s)[1..] == a[1..] + s;
    if a[0] == '{' {
      FirstBraceBefore(a[1..], s);
    }
  }

  lemma {:induction false} FirstBraceBefore(a: string, s: string)
    requires s != [] && s[0] == '{'
    ensures FirstBrace(a + s) == FirstBrace(a)
  {
    if a == [] {
      assert a + s == s;
    } else {
      assert (a + s)[1..] == a[1..] + s;
      FirstBraceBefore(a[1..], s);
    }
  }

  function NestText(a: string, p: Pieces, b: string): string { a + (Braced(Print(p)) + b) }

  /** How the text of a nest parses: as a nest, or as a placeholder once its own are gone. */
  lemma ParseNest(a: string, p: Pieces, b: string)
    requires StrayFree(p)
    ensures Parse(NestText(a, p, b)) == Append(Parse(a),
      if Holes(p) == {} then Hole(Print(p), Parse(b)) else Lit('{', Append(p, Lit('}', Parse(b)))))
    ensures Holes(p) == {} ==> BraceFree(Print(p))
  {
    ParseBefore(a, Braced(Print(p)) + b);
    if Holes(p) == {} {
      NoHolesBraceFree(p);
      ParseHole(Print(p), b);
    } else {
      ParseOpenNest(p, b);
    }
  }

  lemma ParseOpenNest(p: Pieces, b: string)
    requires StrayFree(p) && Holes(p) != {}
    ensures Parse(Braced(Print(p)) + b) == Lit('{', Append(p, Lit('}', Parse(b))))
  {
    var z := ['}'] + b;
    HolesFirst(p, z);
    OpenThen(Print(p), b);
    ParseOpen(Print(p) + z);
    ParseStrayFree(p, z);
    ParseClose(b);
  }

  lemma OpenThen(s: string, b: string)
    ensures Braced(s) + b == ['{'] + (s + (['}'] + b))
  {
  }

  lemma ParseClose(b: string)
    ensures Parse(['}'] + b) == Lit('}', Parse(b))
  {
    assert (['}'] + b)[1..] == b;
  }

  lemma {:induction false} HolesFirst(p: Pieces, z: string)
    requires StrayFree(p) && Holes(p) != {}
    ensures var s := Print(p) + z; FirstBrace(s) < |s| && s[FirstBrace(s)] == '{'
  {
    if p.Lit? {
      HolesFirst(p.rest, z);
      assert (Print(p) + z)[1..] == Print(p.rest) + z;
    }
  }

  lemma PrintNest(n: Nest, env: map<string, string>)
    ensures Print(n.Whole()) == NestText(Print(n.before), n.inner, Print(n.after))
    ensures Fill(n.Whole(), env) == Nest(Fill(n.before, env), Fill(n.inner, env), Fill(n.after, env)).Whole()
    ensures Holes(n.Whole()) == Holes(n.before) + Holes(n.inner) + Holes(n.after)
  {
    var close := Lit('}', n.after);
    var open := Lit('{', Append(n.inner, close));
    PrintAppend(n.before, open, env);
    PrintAppend(n.inner, close, env);
    var p, b := Print(n.inner), Print(n.after);
    assert ['{'] + (p + (['}'] + b)) == Braced(p) + b;
  }

  /** Substitution acts on the three parts of a nest separately, unless the nest has already become
      a placeholder that `env` binds. */
  lemma SubstOnNest(a: string, p: Pieces, b: string, env: map<string, string>)
    requires StrayFree(p) && (Holes(p) == {} ==> Print(p) !in env)
    ensures Subst(NestText(a, p, b), env) == NestText(Subst(a, env), Fill(p, env), Subst(b, env))
  {
    ParseNest(a, p, b);
    if Holes(p) == {} {
      var tail := Hole(Print(p), Parse(b));
      PrintAppend(Parse(a), tail, env);
      PrintAppend(Fill(Parse(a), env), Fill(tail, env), env);
      FillNothing(p, env);
    } else {
      PrintNest(Nest(Parse(a), p, Parse(b)), env);
      PrintNest(Nest(Fill(Parse(a), env), Fill(p, env), Fill(Parse(b), env)), env);
    }
  }

  lemma {:induction false} FillStrayFree(p: Pieces, env: map<string, string>)
    requires StrayFree(p) && BraceFreeValues(env)
    ensures StrayFree(Fill(p, env))
  {
    if p != End {
      FillStrayFree(p.rest, env);
      if p.Hole? && p.name in env {
        StrayFreeLits(env[p.name], Fill(p.rest, env));
      }
    }
  }

  lemma {:induction false} StrayFreeLits(a: string, ps: Pieces)
    requires BraceFree(a) && StrayFree(ps)
    ensures StrayFree(Lits(a, ps))
  {
    if a != [] {
      StrayFreeLits(a[1..], ps);
    }
  }

  /** Binding one name, the lengths: a long text makes the result long, an empty one makes it shorter. */
  lemma {:induction false} FillLength(p: Pieces, k: string, v: string)
    ensures k in Holes(p) ==> |Print(Fill(p, map[k := v]))| >= |v|
    ensures v == [] ==> |Print(Fill(p, map[k := v]))| <= |Print(p)| - if k in Holes(p) then 1 else 0
  {
    if p != End {
      FillLength(p.rest, k, v);
      if p.Hole? && p.name == k {
        PrintLits(v, Fill(p.rest, map[k := v]));
      }
    }
  }

  /** While the loop binds names of the nest to long texts, the nest survives. */
  lemma {:induction false} NestSurvives(a: string, p: Pieces, b: string, args: Arguments, o: Order)
      returns (a': string, p': Pieces, b': string)
    requires StrayFree(p) && Holes(p) != {} && BraceFreeKeys(args) && Keys(o) <= args.Keys <= Holes(p)
    requires forall k :: k in args ==> |k| < |NestText(a, p, b)| < |args[k]|
    ensures VisitAll(NestText(a, p, b), args, o).path == NestText(a', p', b')
    ensures StrayFree(p') && (Holes(p') != {} || |Print(p')| > |NestText(a, p, b)|)
    ensures Holes(p') == Holes(p) - Keys(o)
  {
    match o {
      case Start =>
        a', p', b' := a, p, b;
      case Then(earlier, k) =>
        var x, q, y := NestSurvives(a, p, b, args, earlier);
        VisitSubstitutes(VisitAll(NestText(a, p, b), args, earlier), k, args[k]);
        a', p', b' := NestStep(x, q, y, k, args[k], |NestText(a, p, b)|);
    }
  }

  lemma NestStep(x: string, q: Pieces, y: string, k: string, v: Bytes, n: nat)
      returns (a': string, p': Pieces, b': string)
    requires StrayFree(q) && (Holes(q) != {} || |Print(q)| > n) && |k| < n < |v|
    ensures Subst(NestText(x, q, y), map[k := Escape(v)]) == NestText(a', p', b')
    ensures StrayFree(p') && (Holes(p') != {} || |Print(p')| > n) && Holes(p') == Holes(q) - {k}
  {
    var env := map[k := Escape(v)];
    EscapedIsBraceFree(map[k := v], env);
    SubstOnNest(x, q, y, env);
    FillStrayFree(q, env);
    FillTwice(q, env, env);
    FillLength(q, k, Escape(v));
    a', p', b' := Subst(x, env), Fill(q, env), Subst(y, env);
    if k !in Holes(q) {
      FillNothing(q, env);
    }
  }

  // ----- two orders that disagree -----

  function First(k: string, o: Order): Order {
    match o
    case Start => Then(Start, k)
    case Then(earlier, j) => Then(First(k, earlier), j)
  }

  /** Visiting first a name that the template does not contain changes nothing later. */
  lemma {:induction false} VisitAbsentFirst(t: string, args: Arguments, w: string, o: Order)
    requires BraceFree(w) && w !in Names(t) && w in args && Keys(o) <= args.Keys
    ensures Keys(First(w, o)) == Keys(o) + {w}
    ensures NoRepeat(o) && w !in Keys(o) ==> NoRepeat(First(w, o))
    ensures VisitAll(t, args, First(w, o)) == VisitAll(t, args, o)
  {
    match o {
      case Start => ReplaceAllIsSubst(t, w, []);
      case Then(earlier, k) => VisitAbsentFirst(t, args, w, earlier);
    }
  }

  lemma {:induction false} VisitAllAgree(t: string, args: Arguments, args': Arguments, o: Order)
    requires Keys(o) <= args.Keys && Keys(o) <= args'.Keys
    requires forall k :: k in Keys(o) ==> args[k] == args'[k]
    ensures VisitAll(t, args, o).path == VisitAll(t, args', o).path
  {
    if o.Then? {
      VisitAllAgree(t, args, args', o.earlier);
    }
  }

  lemma {:induction false} OrderOf(keys: set<string>) returns (o: Order)
    ensures IsOrder(o, keys)
  {
    if keys == {} {
      o := Start;
    } else {
      var k :| k in keys;
      o := OrderOf(keys - {k});
      o := Then(o, k);
    }
  }

  lemma {:induction false} HolesAreShort(ps: Pieces)
    requires GoodNames(ps)
    ensures forall k :: k in Holes(ps) ==> BraceFree(k) && |k| < |Print(ps)|
  {
    if ps != End {
      HolesAreShort(ps.rest);
    }
  }

  /** The parts of the nest in a template that is not flat, as texts. */
  lemma NestIn(t: string) returns (a: string, p: Pieces, b: string)
    requires !Flat(t)
    ensures t == NestText(a, p, b) && StrayFree(p) && Holes(p) != {} && Holes(p) <= Names(t)
  {
    PrintParse(t);
    ParseIsTight(t);
    var n := FindNest(Parse(t));
    a, p, b := Print(n.before), n.inner, Print(n.after);
    PrintNest(n, map[]);
  }

  /** Bind the placeholders inside the nest to long texts; the text between the nest's own braces is
      then a name, and it matters whether an argument of that name is visited last or first. */
  lemma NestedDependsOnOrder(t: string) returns (args: Arguments, o: Order, o': Order)
    requires !Flat(t)
    ensures BraceFreeKeys(args) && IsOrder(o, args.Keys) && IsOrder(o', args.Keys)
    ensures VisitAll(t, args, o).path != VisitAll(t, args, o').path
  {
    var a, p, b := NestIn(t);
    PrintParse(t);
    HolesAreShort(Parse(t));
    var args0, order, s, w := LongArguments(t, a, p, b);
    args := args0[w := []];
    o, o' := Then(order, w), First(w, order);
    VisitAllAgree(t, args0, args, order);
    VisitAbsentFirst(t, args, w, order);
    VisitSubstitutes(VisitAll(t, args, order), w, []);
    FillLength(Parse(s), w, []);
    PrintParse(s);
  }

  lemma LongArguments(t: string, a: string, p: Pieces, b: string)
      returns (args: Arguments, o: Order, s: string, w: string)
    requires t == NestText(a, p, b) && StrayFree(p) && Holes(p) != {}
    requires forall k :: k in Holes(p) ==> BraceFree(k) && |k| < |t|
    ensures IsOrder(o, args.Keys) && args.Keys == Holes(p)
    ensures s == VisitAll(t, args, o).path && BraceFree(w) && w in Names(s) && |w| > |t|
  {
    var long: Bytes := seq(|t| + 1, _ => 'z');
    args := map k | k in Holes(p) :: long;
    o := OrderOf(Holes(p));
    var a', p', b' := NestSurvives(a, p, b, args, o);
    s, w := NestText(a', p', b'), Print(p');
    ParseNest(a', p', b');
    NoHolesBraceFree(p');
    PrintAppend(Parse(a'), Hole(w, Parse(b')), map[]);
  }
}
