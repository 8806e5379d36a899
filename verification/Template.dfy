/** Path templates such as `/users/{id}`: parsing into literal characters and placeholders, and the
    simultaneous substitution that a template stands for. */
module Template {
  import opened Text

  predicate Brace(c: char) { c == '{' || c == '}' }

  predicate BraceFree(s: string) { '{' !in s && '}' !in s }

  function Braced(k: string): string { "{" + k + "}" }

  /** A template read from the front: a character that is copied, or a placeholder. */
  datatype Pieces = End | Lit(c: char, rest: Pieces) | Hole(name: string, rest: Pieces)

  /** Position of the first brace of `s`, or its length. */
  function FirstBrace(s: string): (n: nat)
    ensures n <= |s|
  {
    if s == [] || Brace(s[0]) then 0 else 1 + FirstBrace(s[1..])
  }

  /** `t` starts with a placeholder: '{', a brace-free name, '}'. */
  predicate StartsHole(t: string) {
    t != [] && t[0] == '{' &&
    var n := FirstBrace(t[1..]);
    n < |t| - 1 && t[1..][n] == '}'
  }

  function Parse(t: string): Pieces
    decreases |t|
  {
    if t == [] then End
    else if StartsHole(t) then
      var n := FirstBrace(t[1..]);
      Hole(t[1..][..n], Parse(t[1..][n + 1..]))
    else Lit(t[0], Parse(t[1..]))
  }

  function Print(ps: Pieces): string {
    match ps
    case End => []
    case Lit(c, rest) => [c] + Print(rest)
    case Hole(k, rest) => Braced(k) + Print(rest)
  }

  function Append(ps: Pieces, qs: Pieces): Pieces {
    match ps
    case End => qs
    case Lit(c, rest) => Lit(c, Append(rest, qs))
    case Hole(k, rest) => Hole(k, Append(rest, qs))
  }

  /** The characters of `s` as literals. */
  function Lits(s: string, qs: Pieces): Pieces {
    if s == [] then qs else Lit(s[0], Lits(s[1..], qs))
  }

  function Holes(ps: Pieces): set<string> {
    match ps
    case End => {}
    case Lit(_, rest) => Holes(rest)
    case Hole(k, rest) => {k} + Holes(rest)
  }

  /** Simultaneous substitution: every placeholder bound by `env` becomes its text, and everything
      else, unbound placeholders included, stays. */
  function Fill(ps: Pieces, env: map<string, string>): Pieces {
    match ps
    case End => End
    case Lit(c, rest) => Lit(c, Fill(rest, env))
    case Hole(k, rest) => if k in env then Lits(env[k], Fill(rest, env)) else Hole(k, Fill(rest, env))
  }

  function Subst(t: string, env: map<string, string>): string { Print(Fill(Parse(t), env)) }

  function Names(t: string): set<string> { Holes(Parse(t)) }

  /** No '}' outside a placeholder. */
  predicate NoStrayClose(ps: Pieces) {
    match ps
    case End => true
    case Lit(c, rest) => c != '}' && NoStrayClose(rest)
    case Hole(_, rest) => NoStrayClose(rest)
  }

  /** No placeholder lies between a stray '{' and a stray '}': every stray '}' comes first. */
  predicate FlatPieces(ps: Pieces) {
    match ps
    case End => true
    case Lit(c, rest) => if c == '{' then NoStrayClose(rest) else FlatPieces(rest)
    case Hole(_, rest) => FlatPieces(rest)
  }

  predicate Flat(t: string) { FlatPieces(Parse(t)) }

  predicate GoodNames(ps: Pieces) {
    match ps
    case End => true
    case Lit(_, rest) => GoodNames(rest)
    case Hole(k, rest) => BraceFree(k) && GoodNames(rest)
  }

  ghost predicate BraceFreeValues(env: map<string, string>) {
    forall k :: k in env ==> BraceFree(env[k])
  }

  // ----- parsing -----

  lemma {:induction false} FirstBraceIsFirst(s: string)
    ensures var n := FirstBrace(s); BraceFree(s[..n]) && (n < |s| ==> Brace(s[n]))
  {
    if s != [] && !Brace(s[0]) {
      FirstBraceIsFirst(s[1..]);
      assert s[..FirstBrace(s)] == [s[0]] + s[1..][..FirstBrace(s[1..])];
    }
  }

  lemma {:induction false} FirstBraceAppend(a: string, s: string)
    requires BraceFree(a)
    ensures FirstBrace(a + s) == |a| + FirstBrace(s)
  {
    if a == [] {
      assert a + s == s;
    } else {
      assert (a + s)[1..] == a[1..] + s;
      FirstBraceAppend(a[1..], s);
    }
  }

  lemma HoleParts(t: string) returns (k: string, s: string)
    requires StartsHole(t)
    ensures t == Braced(k) + s && BraceFree(k) && Parse(t) == Hole(k, Parse(s))
  {
    var r, n := t[1..], FirstBrace(t[1..]);
    FirstBraceIsFirst(r);
    k, s := r[..n], r[n + 1..];
    assert r == k + ['}'] + s;
    assert t == ['{'] + r;
  }

  lemma {:induction false} PrintParse(t: string)
    ensures Print(Parse(t)) == t
    ensures GoodNames(Parse(t))
    decreases |t|
  {
    if t == [] {
    } else if StartsHole(t) {
      var k, s := HoleParts(t);
      PrintParse(s);
    } else {
      PrintParse(t[1..]);
    }
  }

  lemma ParseHole(k: string, s: string)
    requires BraceFree(k)
    ensures Parse(Braced(k) + s) == Hole(k, Parse(s))
  {
    var t, r := Braced(k) + s, k + (['}'] + s);
    assert t[0] == '{' && t[1..] == r;
    FirstBraceAppend(k, ['}'] + s);
    assert FirstBrace(['}'] + s) == 0;
    assert r[..|k|] == k && r[|k| + 1..] == s;
  }

  /** A stray '{': the next brace is not a '}'. */
  lemma ParseOpen(s: string)
    requires FirstBrace(s) == |s| || s[FirstBrace(s)] == '{'
    ensures Parse(['{'] + s) == Lit('{', Parse(s))
  {
    assert (['{'] + s)[1..] == s;
  }

  lemma {:induction false} NoStrayCloseFirst(ps: Pieces)
    requires NoStrayClose(ps) && GoodNames(ps)
    ensures var s := Print(ps); FirstBrace(s) == |s| || s[FirstBrace(s)] == '{'
  {
    if ps.Lit? && ps.c != '{' {
      NoStrayCloseFirst(ps.rest);
      assert Print(ps)[1..] == Print(ps.rest);
    }
  }

  /** On flat pieces, printing and parsing are inverse: printing creates no placeholder. */
  lemma {:induction false} ParsePrint(ps: Pieces)
    requires FlatPieces(ps) && GoodNames(ps)
    ensures Parse(Print(ps)) == ps
  {
    match ps {
      case End =>
      case Hole(k, rest) =>
        ParsePrint(rest);
        ParseHole(k, Print(rest));
      case Lit(c, rest) =>
        if c == '{' {
          NoStrayCloseIsFlat(rest);
          ParsePrint(rest);
          NoStrayCloseFirst(rest);
          ParseOpen(Print(rest));
        } else {
          ParsePrint(rest);
          assert Print(ps)[1..] == Print(rest);
        }
    }
  }

  lemma {:induction false} NoStrayCloseIsFlat(ps: Pieces)
    requires NoStrayClose(ps)
    ensures FlatPieces(ps)
  {
    if ps != End {
      NoStrayCloseIsFlat(ps.rest);
    }
  }

  // ----- substitution -----

  lemma {:induction false} PrintLits(a: string, qs: Pieces)
    ensures Print(Lits(a, qs)) == a + Print(qs)
  {
    if a != [] {
      PrintLits(a[1..], qs);
      HeadThenRest(a, Print(qs));
    }
  }

  lemma HeadThenRest(a: string, s: string)
    requires a != []
    ensures [a[0]] + (a[1..] + s) == a + s
  {
  }

  lemma {:induction false} LitsKeepFlat(a: string, qs: Pieces)
    requires BraceFree(a)
    ensures FlatPieces(Lits(a, qs)) == FlatPieces(qs) && NoStrayClose(Lits(a, qs)) == NoStrayClose(qs)
  {
    if a != [] {
      LitsKeepFlat(a[1..], qs);
    }
  }

  lemma {:induction false} FillLits(a: string, qs: Pieces, env: map<string, string>)
    ensures Fill(Lits(a, qs), env) == Lits(a, Fill(qs, env))
    ensures Holes(Lits(a, qs)) == Holes(qs)
    ensures GoodNames(Lits(a, qs)) == GoodNames(qs)
  {
    if a != [] {
      FillLits(a[1..], qs, env);
    }
  }

  /** Two substitutions in a row are one, the first taking precedence; the bound placeholders are gone. */
  lemma {:induction false} FillTwice(ps: Pieces, first: map<string, string>, second: map<string, string>)
    ensures Fill(Fill(ps, first), second) == Fill(ps, second + first)
    ensures Holes(Fill(ps, first)) == Holes(ps) - first.Keys
  {
    if ps != End {
      FillTwice(ps.rest, first, second);
      if ps.Hole? && ps.name in first {
        FillLits(first[ps.name], Fill(ps.rest, first), second);
      }
    }
  }

  lemma {:induction false} FillKeepsFlat(ps: Pieces, env: map<string, string>)
    requires GoodNames(ps) && BraceFreeValues(env)
    ensures GoodNames(Fill(ps, env))
    ensures FlatPieces(Fill(ps, env)) == FlatPieces(ps)
    ensures NoStrayClose(Fill(ps, env)) == NoStrayClose(ps)
  {
    if ps != End {
      FillKeepsFlat(ps.rest, env);
      if ps.Hole? && ps.name in env {
        FillLits(env[ps.name], Fill(ps.rest, env), env);
        LitsKeepFlat(env[ps.name], Fill(ps.rest, env));
      }
    }
  }

  lemma {:induction false} FillNothing(ps: Pieces, env: map<string, string>)
    requires Holes(ps) !! env.Keys
    ensures Fill(ps, env) == ps
  {
    if ps != End {
      FillNothing(ps.rest, env);
    }
  }

  lemma {:induction false} PrintAppend(ps: Pieces, qs: Pieces, env: map<string, string>)
    ensures Print(Append(ps, qs)) == Print(ps) + Print(qs)
    ensures Fill(Append(ps, qs), env) == Append(Fill(ps, env), Fill(qs, env))
    ensures Holes(Append(ps, qs)) == Holes(ps) + Holes(qs)
  {
    if ps != End {
      PrintAppend(ps.rest, qs, env);
      if ps.Hole? && ps.name in env {
        LitsAppend(env[ps.name], Fill(ps.rest, env), Fill(qs, env));
      }
    }
  }

  lemma {:induction false} LitsAppend(a: string, ps: Pieces, qs: Pieces)
    ensures Lits(a, Append(ps, qs)) == Append(Lits(a, ps), qs)
  {
    if a != [] {
      LitsAppend(a[1..], ps, qs);
    }
  }

  // ----- ReplaceAll of one placeholder is substitution of one binding -----

  lemma StartsWithBraced(t: string, k: string)
    requires BraceFree(k)
    ensures StartsWith(t, Braced(k)) <==> Parse(t).Hole? && Parse(t).name == k
  {
    if StartsWith(t, Braced(k)) {
      assert t == Braced(k) + t[|Braced(k)|..];
      ParseHole(k, t[|Braced(k)|..]);
    }
    if StartsHole(t) {
      var w, s := HoleParts(t);
      assert t[..|Braced(w)|] == Braced(w);
    }
  }

  lemma {:induction false} NoOpenCopies(a: string, s: string, k: string, v: string)
    requires '{' !in a
    ensures ReplaceAll(a + s, Braced(k), v) == a + ReplaceAll(s, Braced(k), v)
    ensures Contains(a + s, Braced(k)) <==> Contains(s, Braced(k))
  {
    if a == [] {
      assert a + s == s;
    } else {
      NoOpenCopies(a[1..], s, k, v);
      assert (a + s)[1..] == a[1..] + s;
      assert (a + s)[0] == a[0] != '{' == Braced(k)[0];
    }
  }

  lemma HoleIsCopied(w: string, r: string, k: string, v: string)
    requires BraceFree(w) && BraceFree(k) && w != k
    ensures ReplaceAll(Braced(w) + r, Braced(k), v) == Braced(w) + ReplaceAll(r, Braced(k), v)
    ensures Contains(Braced(w) + r, Braced(k)) <==> Contains(r, Braced(k))
  {
    var t, a := Braced(w) + r, w + ['}'];
    ParseHole(w, r);
    StartsWithBraced(t, k);
    BracedIs(w, r);
    NoOpenCopies(a, r, k, v);
    SkipOpen(a + r, k, v);
    BracedIs(w, ReplaceAll(r, Braced(k), v));
  }

  lemma BracedIs(w: string, s: string)
    ensures Braced(w) + s == ['{'] + ((w + ['}']) + s)
  {
  }

  /** Where the pattern does not match, a character is copied. */
  lemma SkipOpen(s: string, k: string, v: string)
    requires !StartsWith(['{'] + s, Braced(k))
    ensures ReplaceAll(['{'] + s, Braced(k), v) == ['{'] + ReplaceAll(s, Braced(k), v)
    ensures Contains(['{'] + s, Braced(k)) <==> Contains(s, Braced(k))
  {
    assert (['{'] + s)[1..] == s;
  }

  lemma {:induction false} ReplaceAllIsSubst(t: string, k: string, v: string)
    requires BraceFree(k)
    ensures ReplaceAll(t, Braced(k), v) == Subst(t, map[k := v])
    ensures Contains(t, Braced(k)) <==> k in Names(t)
    decreases |t|
  {
    StartsWithBraced(t, k);
    if t == [] {
    } else if Parse(t).Lit? {
      ReplaceAllIsSubst(t[1..], k, v);
    } else {
      PrintParse(t);
      var w, r := Parse(t).name, Print(Parse(t).rest);
      assert t == Braced(w) + r;
      ParseHole(w, r);
      ReplaceAllIsSubst(r, k, v);
      if w == k {
        assert t[|Braced(k)|..] == r;
        PrintLits(v, Fill(Parse(r), map[k := v]));
      } else {
        HoleIsCopied(w, r, k, v);
      }
    }
  }
}
