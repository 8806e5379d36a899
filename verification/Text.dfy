/** Byte strings and the few operations of Go's `strings` package that the gateway relies on.
    A Go string is a sequence of bytes; here each byte is the `char` with that code. */
module Text {

  type Byte = c: char | c as int < 256

  type Bytes = seq<Byte>

  datatype Option<+T> = None | Some(value: T)

  /** `strings.HasPrefix`, on suffixes of a longer text. */
  predicate StartsWith(s: string, p: string) {
    |p| <= |s| && s[..|p|] == p
  }

  /** `strings.Contains`. */
  predicate Contains(s: string, sub: string) {
    StartsWith(s, sub) || (s != [] && Contains(s[1..], sub))
  }

  /** `strings.ReplaceAll` for a non-empty pattern: leftmost, non-overlapping occurrences. */
  function ReplaceAll(s: string, pattern: string, repl: string): string
    requires pattern != []
    decreases |s|
  {
    if s == [] then []
    else if StartsWith(s, pattern) then repl + ReplaceAll(s[|pattern|..], pattern, repl)
    else [s[0]] + ReplaceAll(s[1..], pattern, repl)
  }

  /** `strings.TrimRight` with a one-character cut set. */
  function TrimRight(s: string, cut: char): string {
    if s != [] && s[|s| - 1] == cut then TrimRight(s[..|s| - 1], cut) else s
  }

  lemma {:induction false} ContainsIff(s: string, p: string)
    ensures Contains(s, p) <==> exists i :: 0 <= i <= |s| && p <= s[i..]
  {
    if StartsWith(s, p) {
      assert s[0..] == s && p <= s[0..];
    } else if s != [] {
      ContainsIff(s[1..], p);
      forall i | 0 <= i <= |s[1..]| ensures s[1..][i..] == s[i + 1..] {
      }
      assert s[0..] == s;
      forall i | 0 <= i <= |s| && p <= s[i..] ensures Contains(s, p) {
        assert i > 0;
        assert s[1..][i - 1..] == s[i..];
      }
    }
  }

  /** Where the pattern does not occur nothing is replaced. */
  lemma {:induction false} ReplaceAllAbsent(s: string, p: string, v: string)
    requires p != [] && !Contains(s, p)
    ensures ReplaceAll(s, p, v) == s
  {
    if s != [] {
      ReplaceAllAbsent(s[1..], p, v);
    }
  }

  /** The leftmost occurrence, right behind `a`, is replaced, and then what follows it is looked at. */
  lemma {:induction false} ReplaceAllFirst(a: string, p: string, b: string, v: string)
    requires p != [] && forall i :: 0 <= i < |a| ==> !StartsWith((a + p + b)[i..], p)
    ensures ReplaceAll(a + p + b, p, v) == a + v + ReplaceAll(b, p, v)
  {
    var s := a + p + b;
    if a == [] {
      assert s[..|p|] == p && s[|p|..] == b;
      assert [] + v == v;
    } else {
      assert s[0..] == s && s[1..] == a[1..] + p + b;
      forall i | 0 <= i < |a[1..]| ensures !StartsWith((a[1..] + p + b)[i..], p) {
        assert (a[1..] + p + b)[i..] == s[i + 1..];
      }
      ReplaceAllFirst(a[1..], p, b, v);
      assert [a[0]] + (a[1..] + v + ReplaceAll(b, p, v)) == a + v + ReplaceAll(b, p, v);
    }
  }

  /** Replacing brings in no characters but those of the replacement. */
  lemma {:induction false} ReplaceAllChars(s: string, p: string, v: string, c: char)
    requires p != [] && c !in s && c !in v
    ensures c !in ReplaceAll(s, p, v)
    decreases |s|
  {
    if s == [] {
    } else if StartsWith(s, p) {
      ReplaceAllChars(s[|p|..], p, v, c);
    } else {
      ReplaceAllChars(s[1..], p, v, c);
    }
  }

  /** A single character is replaced wherever it stands, independently of its surroundings. */
  lemma {:induction false} ReplaceCharAppend(a: string, b: string, c: char, v: string)
    ensures ReplaceAll(a + b, [c], v) == ReplaceAll(a, [c], v) + ReplaceAll(b, [c], v)
  {
    if a == [] {
      assert a + b == b;
    } else {
      ReplaceCharAppend(a[1..], b, c, v);
      assert (a + b)[1..] == a[1..] + b && (a + b)[..1] == a[..1] == [a[0]];
      var head := if a[0] == c then v else [a[0]];
      assert head + (ReplaceAll(a[1..], [c], v) + ReplaceAll(b, [c], v))
          == head + ReplaceAll(a[1..], [c], v) + ReplaceAll(b, [c], v);
    }
  }

  lemma ReplaceChar(x: char, c: char, v: string)
    ensures ReplaceAll([x], [c], v) == if x == c then v else [x]
  {
    assert [x][..1] == [x] && [x][1..] == [];
    assert ReplaceAll([], [c], v) == [];
  }

  /** What is cut off is `cut` throughout, and what stays does not end with it. */
  lemma {:induction false} TrimRightIs(s: string, cut: char)
    ensures TrimRight(s, cut) <= s && forall i :: |TrimRight(s, cut)| <= i < |s| ==> s[i] == cut
    ensures TrimRight(s, cut) == [] || TrimRight(s, cut)[|TrimRight(s, cut)| - 1] != cut
  {
    if s != [] && s[|s| - 1] == cut {
      TrimRightIs(s[..|s| - 1], cut);
    }
  }

  /** How often `c` occurs in `s`. */
  function Count(c: char, s: string): nat {
    if s == [] then 0 else (if s[0] == c then 1 else 0) + Count(c, s[1..])
  }

  lemma {:induction false} CountAppend(c: char, a: string, b: string)
    ensures Count(c, a + b) == Count(c, a) + Count(c, b)
  {
    if a == [] {
      assert a + b == b;
    } else {
      CountAppend(c, a[1..], b);
      assert (a + b)[1..] == a[1..] + b;
    }
  }

  lemma {:induction false} CountAbsent(c: char, s: string)
    ensures Count(c, s) == 0 <==> c !in s
  {
    if s != [] {
      CountAbsent(c, s[1..]);
      assert s == [s[0]] + s[1..];
    }
  }

  lemma {:induction false} CountIs(c: char, s: string)
    ensures Count(c, s) == multiset(s)[c]
  {
    if s != [] {
      CountIs(c, s[1..]);
      assert s == [s[0]] + s[1..];
    }
  }

  /** `strings.Split` on a one-character separator. */
  function Split(s: string, sep: char): (parts: seq<string>)
    ensures |parts| >= 1
    ensures forall i :: 0 <= i < |parts| ==> sep !in parts[i]
  {
    if s == [] then [[]]
    else
      var tail := Split(s[1..], sep);
      if s[0] == sep then [[]] + tail else [[s[0]] + tail[0]] + tail[1..]
  }

  /** The text with `sep` between consecutive parts. */
  function Join(parts: seq<string>, sep: char): string {
    if parts == [] then []
    else if |parts| == 1 then parts[0]
    else parts[0] + [sep] + Join(parts[1..], sep)
  }

  lemma {:induction false} JoinSplit(s: string, sep: char)
    ensures Join(Split(s, sep), sep) == s
  {
    if s != [] {
      JoinSplit(s[1..], sep);
      var tail := Split(s[1..], sep);
      if s[0] == sep {
        assert Split(s, sep)[1..] == tail;
      } else if |tail| > 1 {
        assert Split(s, sep)[1..] == tail[1..];
      }
    }
  }

  /** Splitting a text whose first part `a` has no separator. */
  lemma {:induction false} SplitFirst(a: string, b: string, sep: char)
    requires sep !in a
    ensures Split(a + [sep] + b, sep) == [a] + Split(b, sep)
    ensures Split(a, sep) == [a]
  {
    if a == [] {
      assert (a + [sep] + b)[1..] == b;
    } else {
      SplitFirst(a[1..], b, sep);
      assert (a + [sep] + b)[1..] == a[1..] + [sep] + b;
      assert [a[0]] + a[1..] == a;
      assert sep != a[0];
    }
  }

  lemma {:induction false} SplitJoin(parts: seq<string>, sep: char)
    requires |parts| >= 1
    requires forall i :: 0 <= i < |parts| ==> sep !in parts[i]
    ensures Split(Join(parts, sep), sep) == parts
  {
    if |parts| == 1 {
      SplitFirst(parts[0], [], sep);
    } else {
      SplitJoin(parts[1..], sep);
      SplitFirst(parts[0], Join(parts[1..], sep), sep);
    }
  }
}
