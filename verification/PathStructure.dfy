/** What substitution keeps of a path: its number of '/', its segments, and, read back by
    percent-decoding, the text of every argument. */
module PathStructure {
  import opened Text
  import opened Percent
  import opened Template
  import opened PathLoop

  ghost predicate SlashFreeValues(env: map<string, string>) {
    forall k :: k in env ==> '/' !in env[k]
  }

  predicate SlashFreeHoles(ps: Pieces) {
    match ps
    case End => true
    case Lit(_, rest) => SlashFreeHoles(rest)
    case Hole(k, rest) => '/' !in k && SlashFreeHoles(rest)
  }

  // ----- the number of '/' -----

  /** The '/' inside the names of bound placeholders, which substitution removes. */
  function SlashesLost(ps: Pieces, env: map<string, string>): nat {
    match ps
    case End => 0
    case Lit(_, rest) => SlashesLost(rest, env)
    case Hole(k, rest) => (if k in env then Count('/', k) else 0) + SlashesLost(rest, env)
  }

  lemma CountBraced(k: string)
    ensures Count('/', Braced(k)) == Count('/', k)
  {
    CountAppend('/', "{" + k, "}");
    CountAppend('/', "{", k);
  }

  lemma {:induction false} CountFill(ps: Pieces, env: map<string, string>)
    requires SlashFreeValues(env)
    ensures Count('/', Print(Fill(ps, env))) + SlashesLost(ps, env) == Count('/', Print(ps))
  {
    match ps {
      case End =>
      case Lit(c, rest) =>
        CountFill(rest, env);
        assert Print(ps)[1..] == Print(rest) && Print(Fill(ps, env))[1..] == Print(Fill(rest, env));
      case Hole(k, rest) =>
        CountFill(rest, env);
        CountBraced(k);
        CountAppend('/', Braced(k), Print(rest));
        CountAppend('/', Braced(k), Print(Fill(rest, env)));
        if k in env {
          PrintLits(env[k], Fill(rest, env));
          CountAppend('/', env[k], Print(Fill(rest, env)));
          CountAbsent('/', env[k]);
        }
    }
  }

  lemma {:induction false} SlashesLostNone(ps: Pieces, env: map<string, string>)
    ensures SlashesLost(ps, env) == 0 <==> forall k :: k in Holes(ps) && k in env ==> '/' !in k
  {
    if ps != End {
      SlashesLostNone(ps.rest, env);
      if ps.Hole? {
        CountAbsent('/', ps.name);
      }
    }
  }

  /** The built path has as many '/' as the template exactly when no placeholder that gets a value
      has a '/' in its name. */
  lemma SlashCountKept(t: string, env: map<string, string>)
    requires SlashFreeValues(env)
    ensures Count('/', Subst(t, env)) == Count('/', t) <==>
            forall k :: k in Names(t) && k in env ==> '/' !in k
  {
    PrintParse(t);
    CountFill(Parse(t), env);
    SlashesLostNone(Parse(t), env);
  }

  // ----- the segments -----

  lemma {:induction false} FirstBraceSame(a: string, s: string)
    requires FirstBrace(a) < |a|
    ensures FirstBrace(a + s) == FirstBrace(a)
  {
    assert (a + s)[1..] == a[1..] + s;
    if !Brace(a[0]) {
      FirstBraceSame(a[1..], s);
    }
  }

  lemma {:induction false} FirstBraceLater(a: string, s: string)
    requires FirstBrace(a) == |a|
    ensures FirstBrace(a + s) >= |a|
  {
    if a == [] {
      assert a + s == s;
    } else {
      assert (a + s)[1..] == a[1..] + s;
      FirstBraceLater(a[1..], s);
    }
  }

  /** A '{' that opens no placeholder before a '/' opens none after it, placeholder names being slash-free. */
  lemma OpenBeforeSlash(a: string, b: string)
    requires a != [] && !StartsHole(a) && SlashFreeHoles(Parse(a + ['/'] + b))
    ensures !StartsHole(a + ['/'] + b)
  {
    var t, r, s := a + ['/'] + b, a[1..], ['/'] + b;
    assert t[1..] == r + s;
    if a[0] == '{' {
      if FirstBrace(r) < |r| {
        FirstBraceSame(r, s);
      } else {
        FirstBraceLater(r, s);
        FirstBraceIsFirst(r + s);
        assert (r + s)[|r|] == '/';
        assert FirstBrace(r + s) > |r|;
        assert (r + s)[..FirstBrace(r + s)][|r|] == '/';
      }
    }
  }

  lemma {:induction false} ParseAtSlash(a: string, b: string)
    requires SlashFreeHoles(Parse(a + ['/'] + b))
    ensures Parse(a + ['/'] + b) == Append(Parse(a), Lit('/', Parse(b)))
    decreases |a|
  {
    var t := a + ['/'] + b;
    if a == [] {
      assert t[1..] == b;
    } else if StartsHole(a) {
      var k, r := HoleParts(a);
      var s := r + ['/'] + b;
      assert t == Braced(k) + s;
      ParseHole(k, s);
      ParseAtSlash(r, b);
    } else {
      OpenBeforeSlash(a, b);
      assert t[1..] == a[1..] + ['/'] + b;
      ParseAtSlash(a[1..], b);
    }
  }

  lemma {:induction false} FillSlashFree(ps: Pieces, env: map<string, string>)
    requires SlashFreeValues(env) && '/' !in Print(ps)
    ensures '/' !in Print(Fill(ps, env))
  {
    match ps {
      case End =>
      case Lit(c, rest) => FillSlashFree(rest, env);
      case Hole(k, rest) =>
        FillSlashFree(rest, env);
        if k in env {
          PrintLits(env[k], Fill(rest, env));
        }
    }
  }

  function SubstEach(parts: seq<string>, env: map<string, string>): (r: seq<string>)
    ensures |r| == |parts| && forall i :: 0 <= i < |r| ==> r[i] == Subst(parts[i], env)
  {
    seq(|parts|, i requires 0 <= i < |parts| => Subst(parts[i], env))
  }

  lemma {:induction false} SplitAtFirst(t: string) returns (a: string, b: string)
    requires '/' in t
    ensures t == a + ['/'] + b && '/' !in a
  {
    if t[0] == '/' {
      a, b := [], t[1..];
    } else {
      a, b := SplitAtFirst(t[1..]);
      a := [t[0]] + a;
    }
  }

  lemma {:induction false} SlashFreeTail(ps: Pieces, qs: Pieces)
    requires SlashFreeHoles(Append(ps, Lit('/', qs)))
    ensures SlashFreeHoles(qs)
  {
    if ps != End {
      SlashFreeTail(ps.rest, qs);
    }
  }

  lemma SubstAtSlash(a: string, b: string, env: map<string, string>)
    requires SlashFreeHoles(Parse(a + ['/'] + b))
    ensures Subst(a + ['/'] + b, env) == Subst(a, env) + ['/'] + Subst(b, env)
    ensures SlashFreeHoles(Parse(b))
  {
    ParseAtSlash(a, b);
    SlashFreeTail(Parse(a), Parse(b));
    PrintAppend(Parse(a), Lit('/', Parse(b)), env);
    PrintAppend(Fill(Parse(a), env), Lit('/', Fill(Parse(b), env)), env);
  }

  lemma SubstNoSlash(a: string, env: map<string, string>)
    requires SlashFreeValues(env) && '/' !in a
    ensures '/' !in Subst(a, env)
  {
    PrintParse(a);
    FillSlashFree(Parse(a), env);
  }

  lemma SubstEachCons(a: string, parts: seq<string>, env: map<string, string>)
    ensures SubstEach([a] + parts, env) == [Subst(a, env)] + SubstEach(parts, env)
  {
  }

  lemma {:induction false} SegmentsOf(t: string, env: map<string, string>)
    requires SlashFreeValues(env) && SlashFreeHoles(Parse(t))
    ensures Split(Subst(t, env), '/') == SubstEach(Split(t, '/'), env)
    decreases |t|
  {
    if '/' !in t {
      SubstNoSlash(t, env);
      SplitFirst(t, [], '/');
      SplitFirst(Subst(t, env), [], '/');
    } else {
      var a, b := SplitAtFirst(t);
      SubstAtSlash(a, b, env);
      SubstNoSlash(a, env);
      SegmentsOf(b, env);
      SplitFirst(a, b, '/');
      SplitFirst(Subst(a, env), Subst(b, env), '/');
      SubstEachCons(a, Split(b, '/'), env);
    }
  }

  lemma {:induction false} SlashFreeIff(ps: Pieces)
    ensures SlashFreeHoles(ps) <==> forall k :: k in Holes(ps) ==> '/' !in k
  {
    if ps != End {
      SlashFreeIff(ps.rest);
    }
  }

  /** Segment by segment, the built path is the template with its placeholders filled in. */
  lemma SegmentsKept(t: string, env: map<string, string>)
    requires (forall k :: k in env ==> '/' !in env[k]) && forall k :: k in Names(t) ==> '/' !in k
    ensures Split(Subst(t, env), '/') == SubstEach(Split(t, '/'), env)
  {
    SlashFreeIff(Parse(t));
    SegmentsOf(t, env);
  }

  // ----- decoding -----

  /** `v` in front of a decoded text, if there is one. */
  function Before(v: string, u: Option<string>): Option<string> {
    if u.None? then None else Some(v + u.value)
  }

  lemma BeforeBefore(a: string, b: string, u: Option<string>)
    ensures Before(a, Before(b, u)) == Before(a + b, u)
    ensures Before([], u) == u
  {
    if u.Some? {
      assert a + (b + u.value) == (a + b) + u.value;
      assert [] + u.value == u.value;
    }
  }

  lemma {:induction false} UnescapeAppend(v: Bytes, s: string)
    ensures Unescape(Escape(v) + s) == Before(v, Unescape(s))
  {
    if v == [] {
      assert Escape(v) + s == s;
      BeforeBefore([], [], Unescape(s));
    } else {
      UnescapeAppend(v[1..], s);
      EscapeNext(v, s);
      UnescapeByte(v[0], Escape(v[1..]) + s);
      BeforeBefore([v[0]], v[1..], Unescape(s));
      assert v == [v[0]] + v[1..];
    }
  }

  lemma EscapeNext(v: Bytes, s: string)
    requires v != []
    ensures Escape(v) + s == EscapeByte(v[0]) + (Escape(v[1..]) + s)
  {
  }

  lemma UnescapeByte(c: Byte, s: string)
    ensures Unescape(EscapeByte(c) + s) == Before([c], Unescape(s))
  {
    var e := EscapeByte(c);
    assert (e + s)[|e|..] == s;
    if !Plain(c) {
      var n := c as int;
      assert HexValue(HexDigit(n / 16)) == Some(n / 16);
      assert HexValue(HexDigit(n % 16)) == Some(n % 16);
    }
  }

  lemma {:induction false} UnescapePlain(a: string, s: string)
    requires '%' !in a
    ensures Unescape(a + s) == Before(a, Unescape(s))
  {
    if a == [] {
      assert a + s == s;
      BeforeBefore([], [], Unescape(s));
    } else {
      UnescapePlain(a[1..], s);
      assert (a + s)[1..] == a[1..] + s;
      BeforeBefore([a[0]], a[1..], Unescape(s));
      assert a == [a[0]] + a[1..];
    }
  }

  // ----- templates with percent-escapes of their own -----

  predicate IsHex(ps: Pieces) { ps.Lit? && HexValue(ps.c).Some? }

  /** Every '%' of the template's own text is followed by two hexadecimal digits of its own text. */
  predicate OwnEscapes(ps: Pieces) {
    match ps
    case End => true
    case Lit(c, rest) =>
      if c == '%' then IsHex(rest) && IsHex(rest.rest) && OwnEscapes(rest.rest.rest) else OwnEscapes(rest)
    case Hole(_, rest) => OwnEscapes(rest)
  }

  /** What the template says once decoded: its own escapes are read, and bound placeholders stand for the
      texts of their arguments. */
  function Decoded(ps: Pieces, args: Arguments): string
    requires OwnEscapes(ps)
  {
    match ps
    case End => []
    case Lit(c, rest) =>
      if c == '%' then
        [(HexValue(rest.c).value * 16 + HexValue(rest.rest.c).value) as char] + Decoded(rest.rest.rest, args)
      else [c] + Decoded(rest, args)
    case Hole(k, rest) => (if k in args then args[k] else Braced(k)) + Decoded(rest, args)
  }

  /** No '%' in the name of a placeholder that stays. */
  ghost predicate UnboundArePlain(ps: Pieces, args: Arguments) {
    forall k :: k in Holes(ps) && k !in args ==> '%' !in k
  }

  /** Two literal digits stay where they are. */
  lemma TwoDigits(ps: Pieces, env: map<string, string>)
    requires IsHex(ps) && IsHex(ps.rest)
    ensures Holes(ps) == Holes(ps.rest.rest)
    ensures ['%'] + Print(Fill(ps, env)) == ['%', ps.c, ps.rest.c] + Print(Fill(ps.rest.rest, env))
  {
    var z := Print(Fill(ps.rest.rest, env));
    assert Print(Fill(ps.rest, env)) == [ps.rest.c] + z;
    assert ['%'] + ([ps.c] + ([ps.rest.c] + z)) == ['%', ps.c, ps.rest.c] + z;
  }

  lemma {:induction false} UnescapeFill(ps: Pieces, args: Arguments)
    requires OwnEscapes(ps) && UnboundArePlain(ps, args)
    ensures Unescape(Print(Fill(ps, Escaped(args)))) == Some(Decoded(ps, args))
  {
    var env := Escaped(args);
    match ps {
      case End =>
      case Lit(c, rest) =>
        if c == '%' {
          TwoDigits(rest, env);
          UnescapeFill(rest.rest.rest, args);
          UnescapeTriple(rest.c, rest.rest.c, Print(Fill(rest.rest.rest, env)));
        } else {
          UnescapeFill(rest, args);
          UnescapePlain([c], Print(Fill(rest, env)));
        }
      case Hole(k, rest) =>
        UnescapeFill(rest, args);
        if k in args {
          PrintLits(Escape(args[k]), Fill(rest, env));
          UnescapeAppend(args[k], Print(Fill(rest, env)));
        } else {
          UnescapePlain(Braced(k), Print(Fill(rest, env)));
        }
    }
  }

  lemma UnescapeTriple(h: char, l: char, s: string)
    ensures Unescape(['%', h, l] + s) ==
      if HexValue(h).Some? && HexValue(l).Some? then Before([(HexValue(h).value * 16 + HexValue(l).value) as char], Unescape(s))
      else None
  {
    assert (['%', h, l] + s)[3..] == s;
  }

  /** Percent-decoding the built path gives the decoded template with the arguments' own texts in place. */
  lemma DecodedPath(t: string, args: Arguments)
    requires OwnEscapes(Parse(t)) && UnboundArePlain(Parse(t), args)
    ensures Unescape(Subst(t, Escaped(args))) == Some(Decoded(Parse(t), args))
  {
    UnescapeFill(Parse(t), args);
  }

  /** A template without '%' is its own decoding. */
  lemma {:induction false} DecodedPlain(ps: Pieces, args: Arguments)
    requires '%' !in Print(ps)
    ensures OwnEscapes(ps) && UnboundArePlain(ps, args) && Decoded(ps, args) == Print(Fill(ps, args))
  {
    match ps {
      case End =>
      case Lit(c, rest) =>
        DecodedPlain(rest, args);
      case Hole(k, rest) =>
        DecodedPlain(rest, args);
        if k in args {
          PrintLits(args[k], Fill(rest, args));
        }
    }
  }

  /** One argument text for all names. */
  function AllTo(names: set<string>, v: Bytes): Arguments {
    map k | k in names :: v
  }

  /** Where an escape is cut short or reaches into a placeholder, the text "z" everywhere breaks it. */
  lemma {:induction false} BrokenEscapes(ps: Pieces, names: set<string>)
    requires !OwnEscapes(ps) && Holes(ps) <= names
    ensures Unescape(Print(Fill(ps, Escaped(AllTo(names, "z"))))) == None
  {
    var env := Escaped(AllTo(names, "z"));
    assert Escape("z") == "z" && HexValue('z') == None;
    match ps {
      case Lit(c, rest) =>
        if c == '%' {
          if IsHex(rest) && IsHex(rest.rest) {
            TwoDigits(rest, env);
            BrokenEscapes(rest.rest.rest, names);
          }
          BrokenEscape(rest, names);
        } else {
          BrokenEscapes(rest, names);
          UnescapePlain([c], Print(Fill(rest, env)));
        }
      case Hole(k, rest) =>
        BrokenEscapes(rest, names);
        PrintLits("z", Fill(rest, env));
        UnescapeAppend("z", Print(Fill(rest, env)));
    }
  }

  /** What comes next in the filled text is no hexadecimal digit. */
  lemma NoDigitNext(ps: Pieces, names: set<string>)
    requires !IsHex(ps) && Holes(ps) <= names
    ensures var s := Print(Fill(ps, Escaped(AllTo(names, "z")))); s == [] || HexValue(s[0]) == None
  {
    if ps.Hole? {
      assert Escape("z") == "z" && HexValue('z') == None;
      PrintLits("z", Fill(ps.rest, Escaped(AllTo(names, "z"))));
    }
  }

  lemma BrokenEscape(rest: Pieces, names: set<string>)
    requires !OwnEscapes(Lit('%', rest)) && Holes(rest) <= names
    requires IsHex(rest) && IsHex(rest.rest) ==>
      Unescape(Print(Fill(rest.rest.rest, Escaped(AllTo(names, "z"))))) == None
    ensures Unescape(['%'] + Print(Fill(rest, Escaped(AllTo(names, "z"))))) == None
  {
    var env := Escaped(AllTo(names, "z"));
    if !IsHex(rest) {
      NoDigitNext(rest, names);
      NoEscape(Print(Fill(rest, env)));
    } else if !IsHex(rest.rest) {
      NoDigitNext(rest.rest, names);
      HalfEscape(rest.c, Print(Fill(rest.rest, env)));
    } else {
      TwoDigits(rest, env);
      UnescapeTriple(rest.c, rest.rest.c, Print(Fill(rest.rest.rest, env)));
    }
  }

  lemma NoEscape(s: string)
    requires s == [] || HexValue(s[0]) == None
    ensures Unescape(['%'] + s) == None
  {
  }

  lemma HalfEscape(h: char, s: string)
    requires s == [] || HexValue(s[0]) == None
    ensures Unescape(['%'] + ([h] + s)) == None
  {
    var t := ['%'] + ([h] + s);
    assert |t| == |s| + 2 && (s != [] ==> t[2] == s[0]);
  }

  /** Exactly when a template can be read back whatever the arguments are: if its own percent-escapes are
      complete. */
  lemma DecodableIff(t: string)
    ensures OwnEscapes(Parse(t)) <==>
      forall args: Arguments :: Names(t) <= args.Keys ==> Unescape(Subst(t, Escaped(args))).Some?
  {
    if OwnEscapes(Parse(t)) {
      forall args: Arguments | Names(t) <= args.Keys ensures Unescape(Subst(t, Escaped(args))).Some? {
        DecodedPath(t, args);
      }
    } else {
      BrokenEscapes(Parse(t), Names(t));
      assert AllTo(Names(t), "z").Keys == Names(t);
    }
  }

  /** Segment by segment: whatever the rest of the template holds, a segment of the built path decodes to the
      decoded segment of the template with the arguments' own texts in place. */
  lemma DecodedSegment(t: string, args: Arguments, i: nat)
    requires (forall n :: n in Names(t) ==> '/' !in n) && i < |Split(t, '/')|
    requires OwnEscapes(Parse(Split(t, '/')[i])) && UnboundArePlain(Parse(Split(t, '/')[i]), args)
    ensures var segments := Split(Subst(t, Escaped(args)), '/');
      |segments| == |Split(t, '/')| && Unescape(segments[i]) == Some(Decoded(Parse(Split(t, '/')[i]), args))
  {
    EscapedIsSlashFree(args);
    SegmentsKept(t, Escaped(args));
    DecodedPath(Split(t, '/')[i], args);
  }

  /** In particular the segment that a placeholder fills decodes to exactly the text of its argument, even
      where that text contains '/', '%' or braces. */
  lemma DecodedPlaceholder(t: string, args: Arguments, i: nat, k: string)
    requires (forall n :: n in Names(t) ==> '/' !in n) && i < |Split(t, '/')| && Split(t, '/')[i] == Braced(k)
    requires BraceFree(k) && k in args
    ensures var segments := Split(Subst(t, Escaped(args)), '/');
      |segments| == |Split(t, '/')| && Unescape(segments[i]) == Some(args[k])
  {
    assert Braced(k) + [] == Braced(k);
    ParseHole(k, []);
    assert Parse(Braced(k)) == Hole(k, End);
    DecodedSegment(t, args, i);
    assert Decoded(Hole(k, End), args) == args[k] + [] == args[k];
  }

  lemma EscapedIsSlashFree(args: Arguments)
    ensures SlashFreeValues(Escaped(args))
  {
    assert !Plain('/');
  }
}
