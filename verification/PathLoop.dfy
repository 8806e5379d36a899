/** The loop of `proxy.Build` that substitutes arguments into the path template while ranging over
    a map in an unspecified order. Argument values appear as the text that `%v` prints for them. */
module PathLoop {
  import opened Text
  import opened Percent
  import opened Template

  type Arguments = map<string, Bytes>

  /** What the loop works on: the path so far and the arguments left over. */
  datatype Loop = Loop(path: string, left: Arguments)

  /** The escaped text of every argument. */
  function Escaped(args: Arguments): map<string, string> {
    map k | k in args :: Escape(args[k])
  }

  /** Escaped text has no braces, so substituting it creates no placeholder. */
  lemma EscapedIsBraceFree(args: Arguments, env: map<string, string>)
    requires forall k :: k in env ==> k in args && env[k] == Escape(args[k])
    ensures BraceFreeValues(env)
  {
    forall k | k in env ensures BraceFree(env[k]) {
      assert !Plain('{') && !Plain('}');
    }
  }

  /** One iteration of the loop, for the entry `k`, `v`. */
  function Visit(s: Loop, k: string, v: Bytes): Loop {
    if Contains(s.path, Braced(k)) then
      Loop(ReplaceAll(s.path, Braced(k), Escape(v)), s.left - {k})
    else s
  }

  /** The entries that ranging over a map has visited, the latest on the outside. */
  datatype Order = Start | Then(earlier: Order, key: string)

  function Keys(o: Order): set<string> {
    match o
    case Start => {}
    case Then(earlier, k) => Keys(earlier) + {k}
  }

  predicate NoRepeat(o: Order) {
    o.Then? ==> NoRepeat(o.earlier) && o.key !in Keys(o.earlier)
  }

  /** An order in which ranging over a map with these keys may visit them. */
  predicate IsOrder(o: Order, keys: set<string>) { NoRepeat(o) && Keys(o) == keys }

  /** The loop run over `o`. */
  function VisitAll(t: string, args: Arguments, o: Order): Loop
    requires Keys(o) <= args.Keys
  {
    match o
    case Start => Loop(t, args)
    case Then(earlier, k) => Visit(VisitAll(t, args, earlier), k, args[k])
  }

  ghost predicate BraceFreeKeys(args: Arguments) {
    forall k :: k in args ==> BraceFree(k)
  }

  /** The bindings of `env` for `keys`. */
  function Restrict(env: map<string, string>, keys: set<string>): map<string, string> {
    map k | k in env && k in keys :: env[k]
  }

  lemma VisitSubstitutes(s: Loop, k: string, v: Bytes)
    requires BraceFree(k)
    ensures Visit(s, k, v).path == Subst(s.path, map[k := Escape(v)])
    ensures Visit(s, k, v).left == if k in Names(s.path) then s.left - {k} else s.left
  {
    ReplaceAllIsSubst(s.path, k, Escape(v));
    if k !in Names(s.path) {
      FillNothing(Parse(s.path), map[k := Escape(v)]);
      PrintParse(s.path);
    }
  }

  /** A substitution into a flat template, seen as a template again. */
  lemma SubstFlat(t: string, env: map<string, string>)
    requires Flat(t) && BraceFreeValues(env)
    ensures Parse(Subst(t, env)) == Fill(Parse(t), env)
    ensures Names(Subst(t, env)) == Names(t) - env.Keys
  {
    PrintParse(t);
    FillKeepsFlat(Parse(t), env);
    ParsePrint(Fill(Parse(t), env));
    FillTwice(Parse(t), env, env);
  }

  /** One more entry, once `done` has been substituted. */
  lemma VisitNext(t: string, done: map<string, string>, s: Loop, k: string, v: Bytes)
    requires Flat(t) && BraceFreeValues(done) && BraceFree(k) && k !in done && s.path == Subst(t, done)
    ensures Visit(s, k, v).path == Subst(t, done[k := Escape(v)])
    ensures Visit(s, k, v).left == if k in Names(t) then s.left - {k} else s.left
  {
    VisitSubstitutes(s, k, v);
    SubstFlat(t, done);
    FillTwice(Parse(t), done, map[k := Escape(v)]);
    assert map[k := Escape(v)] + done == done[k := Escape(v)];
  }

  /** After any part of any order, the path is the simultaneous substitution of what was visited. */
  lemma {:induction false} VisitAllIsSubst(t: string, args: Arguments, o: Order)
    requires Flat(t) && BraceFreeKeys(args) && NoRepeat(o) && Keys(o) <= args.Keys
    ensures VisitAll(t, args, o).path == Subst(t, Restrict(Escaped(args), Keys(o)))
    ensures forall k :: k in VisitAll(t, args, o).left <==> k in args && !(k in Names(t) && k in Keys(o))
    ensures forall k :: k in VisitAll(t, args, o).left ==> VisitAll(t, args, o).left[k] == args[k]
  {
    match o {
      case Start =>
        PrintParse(t);
        FillNothing(Parse(t), map[]);
        assert Restrict(Escaped(args), {}) == map[];
      case Then(earlier, k) =>
        VisitAllIsSubst(t, args, earlier);
        var before := Restrict(Escaped(args), Keys(earlier));
        EscapedIsBraceFree(args, before);
        VisitNext(t, before, VisitAll(t, args, earlier), k, args[k]);
        RestrictNext(args, earlier, k);
    }
  }

  lemma RestrictNext(args: Arguments, o: Order, k: string)
    requires k in args
    ensures Restrict(Escaped(args), Keys(Then(o, k))) == Restrict(Escaped(args), Keys(o))[k := Escape(args[k])]
  {
  }

  /** The main law of the loop: on a flat template with brace-free argument names, every iteration
      order gives the simultaneous substitution, and consumes exactly the template's arguments. */
  lemma EveryOrderSubstitutes(t: string, args: Arguments, o: Order)
    requires Flat(t) && BraceFreeKeys(args) && IsOrder(o, args.Keys)
    ensures VisitAll(t, args, o) == Loop(Subst(t, Escaped(args)), args - Names(t))
  {
    VisitAllIsSubst(t, args, o);
    assert Restrict(Escaped(args), Keys(o)) == Escaped(args);
    assert VisitAll(t, args, o).left == args - Names(t);
  }
}
