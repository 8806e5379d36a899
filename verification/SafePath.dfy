/** `SafeJoin` on Unix: lexical cleaning by components, and what its string-prefix test amounts to. */
module SafePath {
  import opened Text

  /** The names on the way from the root to a file. */
  type Components = seq<string>

  predicate GoodName(name: string) { name != "" && name != "." && name != ".." && '/' !in name }

  predicate Good(cs: Components) {
    forall i :: 0 <= i < |cs| ==> GoodName(cs[i])
  }

  /** The clean absolute path with these components. */
  function PathOf(cs: Components): string { "/" + Join(cs, '/') }

  function Visit(at: Components, part: string): Components {
    if part == "" || part == "." then at
    else if part == ".." then (if at == [] then [] else at[..|at| - 1])
    else at + [part]
  }

  /** Follow `parts` from `at`: '.' and empty parts stay, '..' goes up and stays at the root. */
  function Resolve(at: Components, parts: seq<string>): Components
    decreases |parts|
  {
    if parts == [] then at else Resolve(Visit(at, parts[0]), parts[1..])
  }

  /** `filepath.Clean` of an absolute path. */
  function Clean(p: string): string { PathOf(Resolve([], Split(p, '/'))) }

  predicate IsAbs(p: string) { StartsWith(p, "/") }

  /** `filepath.Abs`, in working directory `cwd`. */
  function Abs(base: string, cwd: string): string {
    if IsAbs(base) then Clean(base) else Clean(cwd + "/" + base)
  }

  /** `SafeJoin`: `None` for its two errors. */
  function SafeJoin(cwd: string, base: string, untrusted: string): Option<string> {
    if untrusted == "" then None
    else
      var absBase := Abs(base, cwd);
      var joined := Clean(absBase + "/" + untrusted);
      if !StartsWith(joined, absBase + "/") && joined != absBase then None else Some(joined)
  }

  // ----- components and strings -----

  lemma SplitAppend(a: string, b: string)
    ensures Split(a + "/" + b, '/') == Split(a, '/') + Split(b, '/')
  {
    JoinSplit(a, '/');
    JoinSplit(b, '/');
    JoinAppend(Split(a, '/'), Split(b, '/'));
    SplitJoin(Split(a, '/') + Split(b, '/'), '/');
  }

  lemma {:induction false} ResolveAppend(at: Components, a: seq<string>, b: seq<string>)
    ensures Resolve(at, a + b) == Resolve(Resolve(at, a), b)
    decreases |a|
  {
    if a == [] {
      assert a + b == b;
    } else {
      ResolveAppend(Visit(at, a[0]), a[1..], b);
      assert (a + b)[1..] == a[1..] + b;
    }
  }

  lemma {:induction false} ResolveIsGood(at: Components, parts: seq<string>)
    requires Good(at) && forall i :: 0 <= i < |parts| ==> '/' !in parts[i]
    ensures Good(Resolve(at, parts))
    decreases |parts|
  {
    if parts != [] {
      ResolveIsGood(Visit(at, parts[0]), parts[1..]);
    }
  }

  /** Good parts are followed one by one. */
  lemma {:induction false} ResolveGood(at: Components, parts: seq<string>)
    requires Good(parts)
    ensures Resolve(at, parts) == at + parts
    decreases |parts|
  {
    if parts != [] {
      ResolveGood(at + [parts[0]], parts[1..]);
      assert at + [parts[0]] + parts[1..] == at + parts;
    }
  }

  /** The parts of a clean path, read back. */
  lemma SplitPathOf(cs: Components)
    requires Good(cs)
    ensures Split(PathOf(cs), '/') == [""] + (if cs == [] then [""] else cs)
    ensures Resolve([], Split(PathOf(cs), '/')) == cs
  {
    var parts := if cs == [] then [""] else cs;
    assert Join(parts, '/') == Join(cs, '/');
    SplitJoin(parts, '/');
    assert [] + "/" + Join(cs, '/') == PathOf(cs);
    SplitAppend([], Join(cs, '/'));
    ResolveAppend([], [""], parts);
    ResolveGood([], cs);
  }

  lemma PathOfInjective(a: Components, b: Components)
    requires Good(a) && Good(b) && PathOf(a) == PathOf(b)
    ensures a == b
  {
    SplitPathOf(a);
    SplitPathOf(b);
  }

  lemma {:induction false} JoinAppend(a: Components, b: Components)
    requires a != [] && b != []
    ensures Join(a + b, '/') == Join(a, '/') + "/" + Join(b, '/')
  {
    if |a| == 1 {
      assert (a + b)[1..] == b;
    } else {
      JoinAppend(a[1..], b);
      assert (a + b)[1..] == a[1..] + b;
    }
  }

  lemma PrefixIsBelow(base: Components, cs: Components)
    requires Good(base) && Good(cs) && base != [] && StartsWith(PathOf(cs), PathOf(base) + "/")
    ensures base < cs
  {
    var rest := PathOf(cs)[|PathOf(base)| + 1..];
    assert PathOf(cs) == PathOf(base) + "/" + rest;
    SplitAppend(PathOf(base), rest);
    SplitPathOf(base);
    SplitPathOf(cs);
    SameTail(base, Split(rest, '/'), cs);
  }

  lemma SameTail(base: Components, more: seq<string>, cs: Components)
    requires base != [] && base[0] != "" && more != []
    requires [""] + base + more == [""] + (if cs == [] then [""] else cs)
    ensures base < cs
  {
    var parts := if cs == [] then [""] else cs;
    assert ([""] + base + more)[1..] == base + more;
    assert ([""] + parts)[1..] == parts;
    assert parts[0] == base[0];
  }

  lemma BelowIsPrefix(base: Components, cs: Components)
    requires base != [] && base < cs
    ensures StartsWith(PathOf(cs), PathOf(base) + "/")
  {
    var below := cs[|base|..];
    assert cs == base + below;
    JoinAppend(base, below);
    assert PathOf(cs) == PathOf(base) + "/" + Join(below, '/');
  }

  /** The string-prefix test, with its separator, is the test on components: strictly below `base`. */
  lemma PrefixIffBelow(base: Components, cs: Components)
    requires Good(base) && Good(cs) && base != []
    ensures StartsWith(PathOf(cs), PathOf(base) + "/") <==> base < cs
  {
    if StartsWith(PathOf(cs), PathOf(base) + "/") {
      PrefixIsBelow(base, cs);
    }
    if base < cs {
      BelowIsPrefix(base, cs);
    }
  }

  /** Cleaning is done after one pass. */
  lemma CleanTwice(p: string)
    ensures Clean(Clean(p)) == Clean(p) && Good(Resolve([], Split(p, '/')))
  {
    ResolveIsGood([], Split(p, '/'));
    SplitPathOf(Resolve([], Split(p, '/')));
  }

  /** Below the root the separator is doubled, and the test accepts nothing. */
  lemma NothingStartsWithTwoSlashes(cs: Components)
    requires Good(cs)
    ensures !StartsWith(PathOf(cs), PathOf([]) + "/")
  {
    if cs != [] {
      assert PathOf(cs)[1] == Join(cs, '/')[0] == cs[0][0];
      assert cs[0][0] in cs[0];
      assert PathOf(cs)[..2][1] == cs[0][0] && "//"[1] == '/';
    }
  }

  /** One more part of a path. */
  lemma CleanLast(p: string, part: string) returns (at: Components)
    requires '/' !in part
    ensures Good(at) && Clean(p) == PathOf(at) && Clean(p + "/" + part) == PathOf(Visit(at, part))
  {
    at := Resolve([], Split(p, '/'));
    CleanTwice(p);
    SplitAppend(p, part);
    SplitFirst(part, [], '/');
    ResolveAppend([], Split(p, '/'), [part]);
  }

  /** A last part that is empty or "." leads nowhere. */
  lemma CleanStays(p: string)
    ensures Clean(p + "/") == Clean(p) && Clean(p + "/.") == Clean(p)
  {
    var a := CleanLast(p, "");
    assert p + "/" + "" == p + "/";
    var b := CleanLast(p, ".");
    assert p + "/" + "." == p + "/.";
  }

  /** A name leads down. */
  lemma CleanDown(p: string, name: string)
    requires GoodName(name)
    ensures Clean(p + "/" + name) == if Clean(p) == "/" then "/" + name else Clean(p) + "/" + name
  {
    var at := CleanLast(p, name);
    PathIsRootIff(at);
    if at == [] {
      assert [] + [name] == [name];
    } else {
      PathOfDown(at, [name]);
    }
  }

  /** ".." takes the name before it away, and stays at the root. */
  lemma CleanUp(p: string, name: string)
    requires GoodName(name)
    ensures Clean(p + "/" + name + "/..") == Clean(p)
    ensures Clean(p) == "/" ==> Clean(p + "/..") == "/"
  {
    var at := CleanLast(p, name);
    var down := CleanLast(p + "/" + name, "..");
    assert p + "/" + name + "/" + ".." == p + "/" + name + "/..";
    PathOfInjective(down, at + [name]);
    assert (at + [name])[..|at|] == at;
    PathIsRootIff(at);
    var at' := CleanLast(p, "..");
    assert p + "/" + ".." == p + "/..";
    PathOfInjective(at, at');
  }

  /** The empty path is the root. */
  lemma CleanEmpty()
    ensures Clean("") == "/" && Clean("/..") == "/"
  {
    assert Split("", '/') == [""];
    assert Resolve([], [""]) == Resolve([], []) == [];
    var at := CleanLast("", "..");
    assert "" + "/" + ".." == "/..";
    PathIsRootIff(at);
  }

  lemma PathIsRootIff(cs: Components)
    requires Good(cs)
    ensures PathOf(cs) == "/" <==> cs == []
  {
    if PathOf(cs) == "/" {
      PathOfInjective(cs, []);
    }
  }

  lemma PathOfDown(cs: Components, more: Components)
    requires cs != [] && more != []
    ensures PathOf(cs + more) == PathOf(cs) + "/" + Join(more, '/')
  {
    JoinAppend(cs, more);
  }

  // ----- the result -----

  predicate NoSlashes(parts: seq<string>) {
    forall i :: 0 <= i < |parts| ==> '/' !in parts[i]
  }

  lemma UpsHaveNoSlashes(k: nat, names: Components)
    requires Good(names)
    ensures NoSlashes(Ups(k) + names) && NoSlashes(names)
  {
  }

  /** An absolute base is its own clean path, a relative one is looked up in the working directory. */
  lemma AbsOfNames(cwd: string, names: Components)
    requires Good(names) && names != []
    ensures Abs(PathOf(names), cwd) == PathOf(names)
    ensures Abs(Join(names, '/'), cwd) == if Clean(cwd) == "/" then PathOf(names) else Clean(cwd) + PathOf(names)
  {
    SplitPathOf(names);
    NamesAreRelative(names);
    var at := Resolve([], Split(cwd, '/'));
    CleanNames(cwd, at, names);
    CleanTwice(cwd);
    PathIsRootIff(at);
    PathBelow(at, names);
  }

  lemma PathBelow(at: Components, names: Components)
    requires names != []
    ensures PathOf(at + names) == if at == [] then PathOf(names) else PathOf(at) + PathOf(names)
  {
    if at == [] {
      assert at + names == names;
    } else {
      PathOfDown(at, names);
      assert PathOf(at) + "/" + Join(names, '/') == PathOf(at) + PathOf(names);
    }
  }

  lemma NamesAreRelative(names: Components)
    requires Good(names) && names != []
    ensures !IsAbs(Join(names, '/'))
  {
    assert Join(names, '/')[0] == names[0][0] && names[0][0] in names[0];
  }

  lemma CleanNames(p: string, at: Components, names: Components)
    requires Good(names) && names != [] && at == Resolve([], Split(p, '/'))
    ensures Clean(p + "/" + Join(names, '/')) == PathOf(at + names)
  {
    UpsHaveNoSlashes(0, names);
    FollowsParts(p, names);
    ResolveGood(at, names);
  }

  /** What `SafeJoin` accepts, exactly, and what it returns. Both the base and the cleaned join are clean
      paths; the components of the join have to extend the base's, at any depth, wherever the input strayed
      on the way; below the root directory only the root itself is accepted. */
  lemma SafeJoinIff(cwd: string, base: string, untrusted: string) returns (b: Components, j: Components)
    ensures Good(b) && PathOf(b) == Clean(if base != "" && base[0] == '/' then base else cwd + "/" + base)
    ensures Good(j) && PathOf(j) == Clean(PathOf(b) + "/" + untrusted)
    ensures SafeJoin(cwd, base, untrusted) ==
      if untrusted != "" && (if b == [] then j == [] else b <= j) then Some(PathOf(j)) else None
  {
    var from := if IsAbs(base) then base else cwd + "/" + base;
    assert IsAbs(base) <==> base != "" && base[0] == '/';
    b := Resolve([], Split(from, '/'));
    CleanTwice(from);
    j := Resolve([], Split(PathOf(b) + "/" + untrusted, '/'));
    CleanTwice(PathOf(b) + "/" + untrusted);
    if PathOf(j) == PathOf(b) {
      PathOfInjective(j, b);
    }
    if b == [] {
      NothingStartsWithTwoSlashes(j);
    } else {
      PrefixIffBelow(b, j);
      assert b <= j <==> b < j || b == j;
    }
  }

  /** `k` times "..". */
  function Ups(k: nat): seq<string> { seq(k, _ => "..") }

  lemma {:induction false} ResolveUps(at: Components, k: nat)
    ensures Resolve(at, Ups(k)) == at[..if k <= |at| then |at| - k else 0]
    decreases k
  {
    if k > 0 {
      assert Ups(k)[1..] == Ups(k - 1);
      ResolveUps(Visit(at, ".."), k - 1);
    }
  }

  /** An input that goes up `k` times and then down again, from a base of |b| components: it is accepted
      exactly if the names lead back into the base, so never if it goes up and they do not. */
  lemma UpAndDown(cwd: string, base: string, b: Components, k: nat, names: Components)
    requires Good(b) && Abs(base, cwd) == PathOf(b) && Good(names) && k + |names| > 0
    ensures var kept := if k <= |b| then |b| - k else 0;
      SafeJoin(cwd, base, Join(Ups(k) + names, '/')) ==
        if (if b == [] then names == [] else b[kept..] <= names) then Some(PathOf(b[..kept] + names)) else None
  {
    var kept := if k <= |b| then |b| - k else 0;
    Followed(b, k, names);
    NotEmpty(k, names);
    GoodJoined(b, kept, names);
    LeadsBack(b, kept, names);
    SafeJoinAt(cwd, base, Join(Ups(k) + names, '/'), b, b[..kept] + names);
  }

  lemma SafeJoinAt(cwd: string, base: string, untrusted: string, b: Components, j: Components)
    requires Good(b) && Abs(base, cwd) == PathOf(b) && Good(j) && Clean(PathOf(b) + "/" + untrusted) == PathOf(j)
    ensures SafeJoin(cwd, base, untrusted) ==
      if untrusted != "" && (if b == [] then j == [] else b <= j) then Some(PathOf(j)) else None
  {
    var b', j' := SafeJoinIff(cwd, base, untrusted);
    PathOfInjective(b', b);
    PathOfInjective(j', j);
  }

  lemma LeadsBack(b: Components, kept: nat, names: Components)
    requires kept <= |b|
    ensures b <= b[..kept] + names <==> b[kept..] <= names
    ensures b == [] ==> b[..kept] + names == names
  {
    assert b == b[..kept] + b[kept..];
    SamePrefix(b[..kept], b[kept..], names);
  }

  lemma Followed(b: Components, k: nat, names: Components)
    requires Good(b) && Good(names) && k + |names| > 0
    ensures Clean(PathOf(b) + "/" + Join(Ups(k) + names, '/')) == PathOf(b[..if k <= |b| then |b| - k else 0] + names)
  {
    SplitPathOf(b);
    UpsHaveNoSlashes(k, names);
    FollowsParts(PathOf(b), Ups(k) + names);
    ResolveUpsThenDown(b, k, names);
  }

  lemma ResolveUpsThenDown(b: Components, k: nat, names: Components)
    requires Good(names)
    ensures Resolve(b, Ups(k) + names) == b[..if k <= |b| then |b| - k else 0] + names
  {
    ResolveAppend(b, Ups(k), names);
    ResolveUps(b, k);
    ResolveGood(Resolve(b, Ups(k)), names);
  }

  lemma SamePrefix(a: Components, x: Components, y: Components)
    ensures a + x <= a + y <==> x <= y
  {
    if a + x <= a + y {
      assert forall i :: 0 <= i < |x| ==> x[i] == (a + x)[|a| + i] == (a + y)[|a| + i] == y[i];
    }
  }

  lemma NotEmpty(k: nat, names: Components)
    requires Good(names) && k + |names| > 0
    ensures Join(Ups(k) + names, '/') != ""
  {
    assert (Ups(k) + names)[0] != "";
  }

  lemma GoodJoined(b: Components, kept: nat, names: Components)
    requires Good(b) && Good(names) && kept <= |b|
    ensures Good(b[..kept] + names)
  {
  }

  lemma FollowsParts(p: string, parts: seq<string>)
    requires parts != [] && NoSlashes(parts)
    ensures Clean(p + "/" + Join(parts, '/')) == PathOf(Resolve(Resolve([], Split(p, '/')), parts))
  {
    SplitAppend(p, Join(parts, '/'));
    SplitJoin(parts, '/');
    ResolveAppend([], Split(p, '/'), parts);
  }

  /** Nothing leads to the parent of a base, whatever it is, unless it is the root. */
  lemma ParentIsRefused(cwd: string, base: string)
    requires Abs(base, cwd) != "/"
    ensures SafeJoin(cwd, base, "..") == None
  {
    var b, _ := SafeJoinIff(cwd, base, "..");
    PathIsRootIff(b);
    assert Ups(1) + [] == [".."];
    UpAndDown(cwd, base, b, 1, []);
  }
}
