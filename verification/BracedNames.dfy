/** Argument names come from the caller and may contain braces themselves. Which templates then still make
    the path independent of the iteration order: those with at most one '{' before a later '}'. */
module BracedNames {
  import opened Text
  import opened Percent
  import opened Template
  import opened PathLoop

  /** Whatever the arguments are called, every order builds the same path. */
  ghost predicate OrderFreeForAllNames(t: string) {
    forall args: Arguments, o, o' | IsOrder(o, args.Keys) && IsOrder(o', args.Keys) ::
      VisitAll(t, args, o).path == VisitAll(t, args, o').path
  }

  predicate IsPair(t: string, i: int, j: int) {
    0 <= i < j < |t| && t[i] == '{' && t[j] == '}'
  }

  /** At most one '{' and one later '}'. */
  ghost predicate OnePair(t: string) {
    forall i, j, i', j' :: IsPair(t, i, j) && IsPair(t, i', j') ==> i == i' && j == j'
  }

  lemma OrderFreeIffOnePair(t: string)
    ensures OrderFreeForAllNames(t) <==> OnePair(t)
  {
    if OnePair(t) {
      forall args: Arguments, o, o' | IsOrder(o, args.Keys) && IsOrder(o', args.Keys)
        ensures VisitAll(t, args, o).path == VisitAll(t, args, o').path
      {
        OnePairIsOrderFree(t, args, o, o');
      }
    } else {
      var args, o, o' := BracedNamesDependOnOrder(t);
    }
  }

  // ----- text around a core -----

  lemma CharOf(s: string, b: string, n: nat)
    requires n < |s + b|
    ensures n < |s| ==> (s + b)[n] in s
    ensures n >= |s| ==> (s + b)[n] in b
  {
  }

  /** Text without '}' behind it does not help a braced pattern to match. */
  lemma StartsBefore(s: string, b: string, k: string)
    requires '}' !in b
    ensures StartsWith(s + b, Braced(k)) <==> StartsWith(s, Braced(k))
  {
    var p := Braced(k);
    var n := |p| - 1;
    assert p[n] == '}';
    if StartsWith(s + b, p) {
      assert (s + b)[n] == (s + b)[..|p|][n] == '}';
      CharOf(s, b, n);
      assert (s + b)[..|p|] == s[..|p|];
    }
    if StartsWith(s, p) {
      assert (s + b)[..|p|] == s[..|p|];
    }
  }

  /** One step of `ReplaceAll`, when the rest is known. */
  lemma ReplaceNext(s: string, b: string, p: string, v: string)
    requires s != [] && p != [] && (StartsWith(s + b, p) <==> StartsWith(s, p))
    requires StartsWith(s, p) ==> ReplaceAll(s[|p|..] + b, p, v) == ReplaceAll(s[|p|..], p, v) + b
    requires !StartsWith(s, p) ==> ReplaceAll(s[1..] + b, p, v) == ReplaceAll(s[1..], p, v) + b
    ensures ReplaceAll(s + b, p, v) == ReplaceAll(s, p, v) + b
  {
    if StartsWith(s, p) {
      assert (s + b)[|p|..] == s[|p|..] + b;
      Assoc(v, ReplaceAll(s[|p|..], p, v), b);
    } else {
      assert (s + b)[1..] == s[1..] + b;
      Assoc([s[0]], ReplaceAll(s[1..], p, v), b);
    }
  }

  lemma Assoc(a: string, b: string, c: string)
    ensures a + b + c == a + (b + c)
  {
  }

  lemma {:induction false} NoCloseReplaces(s: string, b: string, k: string, v: string)
    requires '}' !in b
    ensures ReplaceAll(s + b, Braced(k), v) == ReplaceAll(s, Braced(k), v) + b
    decreases |s|
  {
    StartsBefore(s, b, k);
    if s == [] {
      assert s + b == b;
      NoPattern(b, k, v);
    } else {
      if StartsWith(s, Braced(k)) {
        NoCloseReplaces(s[|Braced(k)|..], b, k, v);
      } else {
        NoCloseReplaces(s[1..], b, k, v);
      }
      ReplaceNext(s, b, Braced(k), v);
    }
  }

  lemma {:induction false} NoCloseContains(s: string, b: string, k: string)
    requires '}' !in b
    ensures Contains(s + b, Braced(k)) <==> Contains(s, Braced(k))
  {
    StartsBefore(s, b, k);
    if s == [] {
      assert s + b == b;
      NoPattern(b, k, []);
    } else {
      assert (s + b)[1..] == s[1..] + b;
      NoCloseContains(s[1..], b, k);
    }
  }

  /** Without a '}' nothing is found. */
  lemma {:induction false} NoPattern(b: string, k: string, v: string)
    requires '}' !in b
    ensures ReplaceAll(b, Braced(k), v) == b && !Contains(b, Braced(k))
  {
    StartsBefore([], b, k);
    assert [] + b == b;
    if b != [] {
      NoPattern(b[1..], k, v);
    }
  }

  /** No '{' before it and no '}' after it: the loop works on the core alone. */
  lemma OnTheCore(a: string, core: string, b: string, k: string, v: string)
    requires '{' !in a && '}' !in b
    ensures ReplaceAll(a + (core + b), Braced(k), v) == a + (ReplaceAll(core, Braced(k), v) + b)
    ensures Contains(a + (core + b), Braced(k)) <==> Contains(core, Braced(k))
  {
    NoOpenCopies(a, core + b, k, v);
    NoCloseReplaces(core, b, k, v);
    NoCloseContains(core, b, k);
  }

  lemma {:induction false} ContainsIsLong(s: string, p: string)
    requires Contains(s, p)
    ensures |p| <= |s|
  {
    if !StartsWith(s, p) {
      ContainsIsLong(s[1..], p);
    }
  }

  /** Deleting occurrences makes a text shorter. */
  lemma {:induction false} DeletingShortens(s: string, p: string)
    requires p != []
    ensures |ReplaceAll(s, p, [])| <= |s|
    ensures Contains(s, p) ==> |ReplaceAll(s, p, [])| < |s|
    decreases |s|
  {
    if s == [] {
    } else if StartsWith(s, p) {
      DeletingShortens(s[|p|..], p);
    } else {
      DeletingShortens(s[1..], p);
    }
  }

  lemma WholeIsReplaced(k: string, v: string)
    ensures ReplaceAll(Braced(k), Braced(k), v) == v && Contains(Braced(k), Braced(k))
  {
    var p := Braced(k);
    assert p[..|p|] == p && p[|p|..] == [];
    assert ReplaceAll([], p, v) == [];
  }

  lemma {:induction false} ContainsAt(s: string, i: nat, p: string)
    requires i + |p| <= |s| && s[i..i + |p|] == p
    ensures Contains(s, p)
  {
    if i == 0 {
      assert s[..|p|] == p;
    } else {
      assert s[1..][i - 1..i - 1 + |p|] == s[i..i + |p|];
      ContainsAt(s[1..], i - 1, p);
    }
  }

  // ----- two pairs: the order shows -----

  lemma FirstOf(t: string, c: char) returns (i: nat)
    requires c in t
    ensures i < |t| && t[i] == c && forall n :: 0 <= n < i ==> t[n] != c
  {
    i := 0;
    while t[i] != c
      invariant i < |t| && forall n :: 0 <= n < i ==> t[n] != c
      decreases |t| - i
    {
      i := i + 1;
    }
  }

  lemma LastOf(t: string, c: char) returns (j: nat)
    requires c in t
    ensures j < |t| && t[j] == c && forall n :: j < n < |t| ==> t[n] != c
  {
    j := |t| - 1;
    while t[j] != c
      invariant j < |t| && forall n :: j < n < |t| ==> t[n] != c
      decreases j
    {
      j := j - 1;
    }
  }

  /** The widest pair of a template, and a name for everything between. */
  lemma Widest(t: string, i: int, j: int) returns (a: string, k: string, b: string)
    requires IsPair(t, i, j)
    ensures t == a + (Braced(k) + b) && '{' !in a && '}' !in b
  {
    var m := FirstOf(t, '{');
    var n := LastOf(t, '}');
    a, k, b := t[..m], t[m + 1..n], t[n + 1..];
    assert t[m..n + 1] == Braced(k);
    assert t == t[..m] + (t[m..n + 1] + t[n + 1..]);
  }

  /** All pairs lie between the two braces of the widest. */
  lemma Outside(t: string, a: string, core: string, b: string, n: nat)
    requires t == a + (core + b) && '{' !in a && '}' !in b && n < |t|
    ensures t[n] == '{' ==> n >= |a|
    ensures t[n] == '}' ==> n < |a| + |core|
    ensures |a| <= n < |a| + |core| ==> t[n] == core[n - |a|]
  {
    assert n < |a| ==> t[n] in a;
    assert n >= |a| + |core| ==> t[n] in b;
  }

  /** Any narrower pair inside the widest one is another name that occurs. */
  lemma Narrower(t: string, a: string, k: string, b: string, i: int, j: int) returns (w: string)
    requires t == a + (Braced(k) + b) && '{' !in a && '}' !in b
    requires IsPair(t, i, j) && !(i == |a| && j == |a| + |k| + 1)
    ensures Contains(Braced(k), Braced(w)) && |w| < |k|
  {
    var core := Braced(k);
    Outside(t, a, core, b, i);
    Outside(t, a, core, b, j);
    var n, m := i - |a|, j - |a|;
    w := core[n + 1..m];
    assert core[n..m + 1] == Braced(w);
    ContainsAt(core, n, Braced(w));
  }

  /** The widest pair's name is bound to a long text and a narrower pair's to nothing. Visited first, the long
      text is there; visited last, its placeholder has been destroyed. */
  lemma BracedNamesDependOnOrder(t: string) returns (args: Arguments, o: Order, o': Order)
    requires !OnePair(t)
    ensures IsOrder(o, args.Keys) && IsOrder(o', args.Keys)
    ensures VisitAll(t, args, o).path != VisitAll(t, args, o').path
  {
    var i, j, i', j' :| IsPair(t, i, j) && IsPair(t, i', j') && !(i == i' && j == j');
    var a, k, b := Widest(t, i, j);
    var w;
    if i == |a| && j == |a| + |k| + 1 {
      w := Narrower(t, a, k, b, i', j');
    } else {
      w := Narrower(t, a, k, b, i, j);
    }
    var long: Bytes := seq(|t|, _ => 'x');
    args := map[w := [], k := long];
    o, o' := Then(Then(Start, w), k), Then(Then(Start, k), w);
    assert Keys(Then(Start, w)) == {w} && Keys(Then(Start, k)) == {k};
    assert Keys(o) == args.Keys == {w, k} && Keys(o') == {w, k};
    NarrowFirst(a, k, b, w, args, o);
    WideFirst(a, k, b, w, args, o');
  }

  lemma NarrowFirst(a: string, k: string, b: string, w: string, args: Arguments, o: Order)
    requires '{' !in a && '}' !in b && Contains(Braced(k), Braced(w)) && |w| < |k|
    requires w in args && k in args && Keys(o) <= args.Keys && args[w] == [] && o == Then(Then(Start, w), k)
    ensures |VisitAll(a + (Braced(k) + b), args, o).path| < |a + (Braced(k) + b)|
  {
    var core := Braced(k);
    var rest := ReplaceAll(core, Braced(w), []);
    OnTheCore(a, core, b, w, []);
    DeletingShortens(core, Braced(w));
    OnTheCore(a, rest, b, k, Escape(args[k]));
    if Contains(rest, core) {
      ContainsIsLong(rest, core);
    }
    assert VisitAll(a + (core + b), args, Then(Start, w)).path == a + (rest + b);
  }

  lemma WideFirst(a: string, k: string, b: string, w: string, args: Arguments, o: Order)
    requires '{' !in a && '}' !in b
    requires w in args && k in args && Keys(o) <= args.Keys && o == Then(Then(Start, k), w)
    requires |args[k]| >= |a + (Braced(k) + b)|
    ensures |VisitAll(a + (Braced(k) + b), args, o).path| >= |a + (Braced(k) + b)|
  {
    var v := Escape(args[k]);
    WholeIsReplaced(k, v);
    OnTheCore(a, Braced(k), b, k, v);
    assert VisitAll(a + (Braced(k) + b), args, Then(Start, k)).path == a + (v + b);
    NothingLeft(a, args[k], b, w);
  }

  /** After the widest pair has been replaced no name occurs any more. */
  lemma NothingLeft(a: string, v: Bytes, b: string, w: string)
    requires '{' !in a && '}' !in b
    ensures !Contains(a + (Escape(v) + b), Braced(w))
  {
    assert !Plain('}');
    OnTheCore(a, Escape(v), b, w, []);
    NoPattern(Escape(v), w, []);
  }

  // ----- at most one pair: only one name can occur -----

  /** Inside a single placeholder only its own name occurs. */
  lemma OnlyItself(k: string, w: string)
    requires BraceFree(k) && Contains(Braced(k), Braced(w))
    ensures w == k
  {
    var p := Braced(k);
    assert p[1..] == k + ['}'];
    NoOpenContains(k + ['}'], w);
    var n := |w| + 1;
    assert p[n] == p[..|Braced(w)|][n] == Braced(w)[n] == '}';
    CharOf(k, ['}'], |w|);
    assert p[n] == (k + ['}'])[|w|];
    assert p[..|Braced(w)|] == p;
    assert k == p[1..n] && w == Braced(w)[1..n];
  }

  lemma {:induction false} NoOpenContains(s: string, w: string)
    requires '{' !in s
    ensures !Contains(s, Braced(w))
  {
    assert Braced(w)[0] == '{';
    if s != [] {
      assert s[0] != '{';
      NoOpenContains(s[1..], w);
    }
  }

  /** A name that occurs has a pair of braces. */
  lemma {:induction false} PairOf(t: string, w: string) returns (i: nat, j: nat)
    requires Contains(t, Braced(w))
    ensures IsPair(t, i, j)
  {
    var p := Braced(w);
    if StartsWith(t, p) {
      i, j := 0, |w| + 1;
      assert t[0] == t[..|p|][0] == p[0] && t[j] == t[..|p|][j] == p[j];
    } else {
      i, j := PairOf(t[1..], w);
      i, j := i + 1, j + 1;
    }
  }

  lemma {:induction false} NoPairNothing(t: string, args: Arguments, o: Order)
    requires Keys(o) <= args.Keys && forall i, j :: !IsPair(t, i, j)
    ensures VisitAll(t, args, o).path == t
  {
    if o.Then? {
      NoPairNothing(t, args, o.earlier);
      if Contains(t, Braced(o.key)) {
        var i, j := PairOf(t, o.key);
      }
    }
  }

  lemma {:induction false} OnePlaceholder(a: string, k: string, b: string, args: Arguments, o: Order)
    requires '{' !in a && BraceFree(k) && '}' !in b && Keys(o) <= args.Keys
    ensures VisitAll(a + (Braced(k) + b), args, o).path ==
      a + ((if k in Keys(o) then Escape(args[k]) else Braced(k)) + b)
  {
    if o.Then? {
      OnePlaceholder(a, k, b, args, o.earlier);
      var w := o.key;
      if k in Keys(o.earlier) {
        NothingLeft(a, args[k], b, w);
      } else {
        OnTheCore(a, Braced(k), b, w, Escape(args[w]));
        WholeIsReplaced(k, Escape(args[w]));
        if Contains(Braced(k), Braced(w)) {
          OnlyItself(k, w);
        }
      }
    }
  }

  lemma OnePairIsOrderFree(t: string, args: Arguments, o: Order, o': Order)
    requires OnePair(t) && IsOrder(o, args.Keys) && IsOrder(o', args.Keys)
    ensures VisitAll(t, args, o).path == VisitAll(t, args, o').path
  {
    if i, j :| IsPair(t, i, j) {
      var a, k, b := Widest(t, i, j);
      NameOfOnlyPair(t, a, k, b);
      OnePlaceholder(a, k, b, args, o);
      OnePlaceholder(a, k, b, args, o');
    } else {
      NoPairNothing(t, args, o);
      NoPairNothing(t, args, o');
    }
  }

  lemma NameOfOnlyPair(t: string, a: string, k: string, b: string)
    requires OnePair(t) && t == a + (Braced(k) + b)
    ensures BraceFree(k)
  {
    var m, n := |a|, |a| + |k| + 1;
    assert t[m] == '{' && t[n] == '}' && IsPair(t, m, n);
    forall i | 0 <= i < |k| ensures !Brace(k[i]) {
      assert t[m + 1 + i] == k[i];
      assert k[i] == '{' ==> IsPair(t, m + 1 + i, n);
      assert k[i] == '}' ==> IsPair(t, m, m + 1 + i);
    }
  }
}
