/** `base64.URLEncoding` with padding (section 5 of RFC 4648). */
module Base64Url {
  import opened Text

  /** The digit for a six-bit value. */
  function Digit(n: int): char
    requires 0 <= n < 64
  {
    if n < 26 then 'A' + n as char
    else if n < 52 then 'a' + (n - 26) as char
    else if n < 62 then '0' + (n - 52) as char
    else if n == 62 then '-' else '_'
  }

  /** The alphabet of the URL-safe variant, by the codes of ASCII: A to Z, a to z, 0 to 9, '-' and '_'. */
  lemma AlphabetIs(n: int)
    requires 0 <= n < 64
    ensures Digit(n) as int ==
      if n < 26 then 65 + n else if n < 52 then 97 + (n - 26) else if n < 62 then 48 + (n - 52) else if n == 62 then 45 else 95
  {
  }

  function Value(c: char): (r: Option<int>)
    ensures r.Some? ==> 0 <= r.value < 64
  {
    if 'A' <= c <= 'Z' then Some(c as int - 'A' as int)
    else if 'a' <= c <= 'z' then Some(c as int - 'a' as int + 26)
    else if '0' <= c <= '9' then Some(c as int - '0' as int + 52)
    else if c == '-' then Some(62)
    else if c == '_' then Some(63)
    else None
  }

  /** The four digits of the first three bytes. */
  function Digits3(b: Bytes): string
    requires |b| >= 3
  {
    var x, y, z := b[0] as int, b[1] as int, b[2] as int;
    [Digit(x / 4), Digit(x % 4 * 16 + y / 16), Digit(y % 16 * 4 + z / 64), Digit(z % 64)]
  }

  function Encode(b: Bytes): string {
    if b == [] then []
    else
      var x := b[0] as int;
      if |b| == 1 then [Digit(x / 4), Digit(x % 4 * 16), '=', '=']
      else
        var y := b[1] as int;
        if |b| == 2 then [Digit(x / 4), Digit(x % 4 * 16 + y / 16), Digit(y % 16 * 4), '=']
        else Digits3(b) + Encode(b[3..])
  }

  /** Line ends are skipped wherever they occur. */
  function SkipLineEnds(s: string): string {
    if s == [] then []
    else if s[0] == '\r' || s[0] == '\n' then SkipLineEnds(s[1..])
    else [s[0]] + SkipLineEnds(s[1..])
  }

  /** Groups of four digits; padding ends the last one. Left-over bits are not looked at. */
  function DecodeGroups(s: string): Option<string> {
    if s == [] then Some([])
    else if |s| < 4 || Value(s[0]).None? || Value(s[1]).None? then None
    else
      var p, q := Value(s[0]).value, Value(s[1]).value;
      if s[2] == '=' then
        if s[3] == '=' && |s| == 4 then Some([(p * 4 + q / 16) as char]) else None
      else if Value(s[2]).None? then None
      else
        var r := Value(s[2]).value;
        if s[3] == '=' then
          if |s| == 4 then Some([(p * 4 + q / 16) as char, (q % 16 * 16 + r / 4) as char]) else None
        else if Value(s[3]).None? then None
        else
          var t := Value(s[3]).value;
          var rest := DecodeGroups(s[4..]);
          if rest.None? then None
          else Some([(p * 4 + q / 16) as char, (q % 16 * 16 + r / 4) as char, (r % 4 * 64 + t) as char] + rest.value)
  }

  function Decode(s: string): Option<string> { DecodeGroups(SkipLineEnds(s)) }

  lemma ValueOfDigit(n: int)
    requires 0 <= n < 64
    ensures Value(Digit(n)) == Some(n) && Digit(n) != '=' && Digit(n) != '.' && Digit(n) != '\r' && Digit(n) != '\n'
  {
  }

  predicate Encoded(s: string) { '.' !in s && '\r' !in s && '\n' !in s }

  /** Encoded text has no dots and no line ends. */
  lemma {:induction false} EncodeAlphabet(b: Bytes)
    ensures Encoded(Encode(b))
  {
    if b != [] {
      var x := b[0] as int;
      ValueOfDigit(x / 4);
      ValueOfDigit(x % 4 * 16);
      if |b| >= 2 {
        var y := b[1] as int;
        ValueOfDigit(x % 4 * 16 + y / 16);
        ValueOfDigit(y % 16 * 4);
        if |b| >= 3 {
          var z := b[2] as int;
          ValueOfDigit(y % 16 * 4 + z / 64);
          ValueOfDigit(z % 64);
          EncodeAlphabet(b[3..]);
        }
      }
    }
  }

  lemma {:induction false} NoLineEnds(s: string)
    requires Encoded(s)
    ensures SkipLineEnds(s) == s
  {
    if s != [] {
      NoLineEnds(s[1..]);
    }
  }

  /** Six-bit values put back together. */
  lemma Bits(x: int, y: int, z: int)
    requires 0 <= x < 256 && 0 <= y < 256 && 0 <= z < 256
    ensures var p, q, r, t := x / 4, x % 4 * 16 + y / 16, y % 16 * 4 + z / 64, z % 64;
      p * 4 + q / 16 == x && q % 16 * 16 + r / 4 == y && r % 4 * 64 + t == z
  {
  }

  lemma DecodeThree(x: int, y: int, z: int, tail: string)
    requires 0 <= x < 256 && 0 <= y < 256 && 0 <= z < 256
    ensures var s := [Digit(x / 4), Digit(x % 4 * 16 + y / 16), Digit(y % 16 * 4 + z / 64), Digit(z % 64)] + tail;
      DecodeGroups(s) == match DecodeGroups(tail) { case None => None case Some(d) => Some([x as char, y as char, z as char] + d) }
  {
    var p, q, r, t := x / 4, x % 4 * 16 + y / 16, y % 16 * 4 + z / 64, z % 64;
    Bits(x, y, z);
    ValueOfDigit(p);
    ValueOfDigit(q);
    ValueOfDigit(r);
    ValueOfDigit(t);
    assert ([Digit(p), Digit(q), Digit(r), Digit(t)] + tail)[4..] == tail;
  }

  lemma DecodeOne(x: int)
    requires 0 <= x < 256
    ensures DecodeGroups([Digit(x / 4), Digit(x % 4 * 16), '=', '=']) == Some([x as char])
  {
    Bits(x, 0, 0);
    ValueOfDigit(x / 4);
    ValueOfDigit(x % 4 * 16);
  }

  lemma DecodeTwo(x: int, y: int)
    requires 0 <= x < 256 && 0 <= y < 256
    ensures DecodeGroups([Digit(x / 4), Digit(x % 4 * 16 + y / 16), Digit(y % 16 * 4), '=']) == Some([x as char, y as char])
  {
    Bits(x, y, 0);
    ValueOfDigit(x / 4);
    ValueOfDigit(x % 4 * 16 + y / 16);
    ValueOfDigit(y % 16 * 4);
  }

  lemma DecodeSingle(b: Bytes)
    requires |b| == 1
    ensures DecodeGroups(Encode(b)) == Some(b)
  {
    DecodeOne(b[0] as int);
    assert b == [b[0]];
  }

  lemma DecodePair(b: Bytes)
    requires |b| == 2
    ensures DecodeGroups(Encode(b)) == Some(b)
  {
    DecodeTwo(b[0] as int, b[1] as int);
    assert b == [b[0], b[1]];
  }

  lemma DecodeDigits3(b: Bytes, tail: string)
    requires |b| >= 3 && DecodeGroups(tail) == Some(b[3..])
    ensures DecodeGroups(Digits3(b) + tail) == Some(b)
  {
    DecodeThree(b[0] as int, b[1] as int, b[2] as int, tail);
    assert b == [b[0], b[1], b[2]] + b[3..];
  }

  lemma {:induction false} DecodeEncodeGroups(b: Bytes)
    ensures DecodeGroups(Encode(b)) == Some(b)
  {
    if |b| == 1 {
      DecodeSingle(b);
    } else if |b| == 2 {
      DecodePair(b);
    } else if |b| >= 3 {
      DecodeEncodeGroups(b[3..]);
      DecodeDigits3(b, Encode(b[3..]));
    }
  }

  lemma DecodeEncode(b: Bytes)
    ensures Decode(Encode(b)) == Some(b)
  {
    EncodeAlphabet(b);
    NoLineEnds(Encode(b));
    DecodeEncodeGroups(b);
  }

  // ----- what decodes, and to what -----

  predicate InAlphabet(c: char) {
    'A' <= c <= 'Z' || 'a' <= c <= 'z' || '0' <= c <= '9' || c == '-' || c == '_'
  }

  /** Groups of four, with padding only in the last two places. */
  predicate Grouped(s: string) {
    |s| % 4 == 0 && forall i :: 0 <= i < |s| ==>
      InAlphabet(s[i]) || (s[i] == '=' && (i == |s| - 1 || (i == |s| - 2 && s[|s| - 1] == '=')))
  }

  lemma GroupedNext(s: string)
    requires |s| > 4
    ensures Grouped(s) <==> InAlphabet(s[0]) && InAlphabet(s[1]) && InAlphabet(s[2]) && InAlphabet(s[3]) && Grouped(s[4..])
  {
    var rest := s[4..];
    if Grouped(s) {
      forall i | 0 <= i < |rest|
        ensures InAlphabet(rest[i]) || (rest[i] == '=' && (i == |rest| - 1 || (i == |rest| - 2 && rest[|rest| - 1] == '=')))
      {
        assert rest[i] == s[i + 4];
      }
    }
    if Grouped(rest) && InAlphabet(s[0]) && InAlphabet(s[1]) && InAlphabet(s[2]) && InAlphabet(s[3]) {
      forall i | 0 <= i < |s|
        ensures InAlphabet(s[i]) || (s[i] == '=' && (i == |s| - 1 || (i == |s| - 2 && s[|s| - 1] == '=')))
      {
        assert i >= 4 ==> s[i] == rest[i - 4];
      }
    }
  }

  /** Text without line ends decodes exactly if it is grouped. */
  lemma {:induction false} DecodesIffGrouped(s: string)
    ensures DecodeGroups(s).Some? <==> Grouped(s)
  {
    if |s| > 4 {
      GroupedNext(s);
      DecodesIffGrouped(s[4..]);
    } else if |s| == 4 {
      assert s[4..] == [];
    }
  }

  /** The line ends are the only characters that are skipped. */
  lemma {:induction false} SkipLineEndsIs(a: string, b: string, c: char)
    ensures SkipLineEnds(a + b) == SkipLineEnds(a) + SkipLineEnds(b)
    ensures SkipLineEnds([c]) == if c == '\r' || c == '\n' then [] else [c]
  {
    assert [c][1..] == [];
    if a == [] {
      assert a + b == b;
    } else {
      SkipLineEndsIs(a[1..], b, c);
      assert (a + b)[1..] == a[1..] + b;
    }
  }

  lemma DigitOfValue(c: char)
    requires Value(c).Some?
    ensures Digit(Value(c).value) == c && InAlphabet(c)
  {
  }

  lemma BitsBack(p: int, q: int, r: int, t: int)
    requires 0 <= p < 64 && 0 <= q < 64 && 0 <= r < 64 && 0 <= t < 64
    ensures var x, y, z := p * 4 + q / 16, q % 16 * 16 + r / 4, r % 4 * 64 + t;
      && 0 <= x < 256 && 0 <= y < 256 && 0 <= z < 256
      && x / 4 == p && x % 4 * 16 + y / 16 == q && y % 16 * 4 + z / 64 == r && z % 64 == t
      && x % 4 * 16 == q / 16 * 16 && y % 16 * 4 == r / 4 * 4
  {
  }

  /** At position `i`, the last one before the padding, the digits agree but for the bits left over. */
  predicate LeftOver(s: string, e: string, i: nat, unit: int)
    requires i < |e| && unit > 0
  {
    && i + (if unit == 16 then 3 else 2) == |s| && s[i + 1] == '=' && Value(s[i]).Some? && Value(e[i]).Some?
    && Value(e[i]).value == Value(s[i]).value / unit * unit
  }

  /** The same text, but for bits left over. */
  predicate SameButLeftOver(s: string, e: string) {
    |s| == |e| && forall i :: 0 <= i < |s| ==> s[i] == e[i] || LeftOver(s, e, i, 16) || LeftOver(s, e, i, 4)
  }

  lemma EncodeUpToThree(x: Byte, y: Byte, z: Byte)
    ensures var i, j, k := x as int, y as int, z as int;
      && Encode([x]) == [Digit(i / 4), Digit(i % 4 * 16), '=', '=']
      && Encode([x, y]) == [Digit(i / 4), Digit(i % 4 * 16 + j / 16), Digit(j % 16 * 4), '=']
      && Encode([x, y, z]) == [Digit(i / 4), Digit(i % 4 * 16 + j / 16), Digit(j % 16 * 4 + k / 64), Digit(k % 64)]
  {
    assert [x, y, z][3..] == [];
  }

  lemma EncodeThree(b: Bytes, rest: Bytes)
    requires |b| == 3
    ensures Encode(b + rest) == Encode(b) + Encode(rest)
  {
    assert (b + rest)[3..] == rest && b[3..] == [];
  }

  lemma SameNext(group: string, s: string, e: string)
    requires SameButLeftOver(s, e)
    ensures SameButLeftOver(group + s, group + e)
  {
    var a, b := group + s, group + e;
    forall i | 0 <= i < |a| ensures a[i] == b[i] || LeftOver(a, b, i, 16) || LeftOver(a, b, i, 4) {
      if i >= |group| {
        var j := i - |group|;
        assert a[i] == s[j] && b[i] == e[j];
        assert j + 1 < |s| ==> a[i + 1] == s[j + 1];
      }
    }
  }

  lemma IsBytesNext(b: string, rest: string)
    requires IsBytes(b) && IsBytes(rest)
    ensures IsBytes(b + rest)
  {
  }

  predicate IsBytes(s: string) {
    forall i :: 0 <= i < |s| ==> s[i] as int < 256
  }

  lemma OneBack(p: int, q: int) returns (x: Byte)
    requires 0 <= p < 64 && 0 <= q < 64
    ensures x as int == p * 4 + q / 16 && Encode([x]) == [Digit(p), Digit(q / 16 * 16), '=', '=']
  {
    BitsBack(p, q, 0, 0);
    x := (p * 4 + q / 16) as char;
    EncodeUpToThree(x, x, x);
  }

  lemma DecodeOnePadded(s: string, p: int, q: int)
    requires |s| == 4 && Value(s[0]) == Some(p) && Value(s[1]) == Some(q) && s[2] == '=' && s[3] == '='
    ensures DecodeGroups(s) == Some([(p * 4 + q / 16) as char])
  {
  }

  lemma OnePadded(s: string)
    requires DecodeGroups(s).Some? && s != [] && s[2] == '='
    ensures IsBytes(DecodeGroups(s).value) && SameButLeftOver(s, Encode(DecodeGroups(s).value))
  {
    var p, q := Value(s[0]).value, Value(s[1]).value;
    var x := OneBack(p, q);
    DecodeOnePadded(s, p, q);
    assert DecodeGroups(s).value == [x];
    OneDigitLeftOver(s, p, q);
  }

  lemma OneDigitLeftOver(s: string, p: int, q: int)
    requires |s| == 4 && Value(s[0]) == Some(p) && Value(s[1]) == Some(q) && s[2] == '=' && s[3] == '='
    ensures SameButLeftOver(s, [Digit(p), Digit(q / 16 * 16), '=', '='])
  {
    DigitOfValue(s[0]);
    ValueOfDigit(q / 16 * 16);
    assert LeftOver(s, [Digit(p), Digit(q / 16 * 16), '=', '='], 1, 16);
  }

  lemma TwoBack(p: int, q: int, r: int) returns (x: Byte, y: Byte)
    requires 0 <= p < 64 && 0 <= q < 64 && 0 <= r < 64
    ensures x as int == p * 4 + q / 16 && y as int == q % 16 * 16 + r / 4
    ensures Encode([x, y]) == [Digit(p), Digit(q), Digit(r / 4 * 4), '=']
  {
    BitsBack(p, q, r, 0);
    x, y := (p * 4 + q / 16) as char, (q % 16 * 16 + r / 4) as char;
    EncodeUpToThree(x, y, y);
  }

  lemma DecodeTwoPadded(s: string, p: int, q: int, r: int)
    requires |s| == 4 && Value(s[0]) == Some(p) && Value(s[1]) == Some(q) && Value(s[2]) == Some(r)
    requires s[2] != '=' && s[3] == '='
    ensures DecodeGroups(s) == Some([(p * 4 + q / 16) as char, (q % 16 * 16 + r / 4) as char])
  {
  }

  lemma TwoPadded(s: string)
    requires DecodeGroups(s).Some? && s != [] && s[2] != '=' && s[3] == '='
    ensures IsBytes(DecodeGroups(s).value) && SameButLeftOver(s, Encode(DecodeGroups(s).value))
  {
    var p, q, r := Value(s[0]).value, Value(s[1]).value, Value(s[2]).value;
    var x, y := TwoBack(p, q, r);
    DecodeTwoPadded(s, p, q, r);
    assert DecodeGroups(s).value == [x, y];
    LastDigitLeftOver(s, p, q, r);
  }

  lemma LastDigitLeftOver(s: string, p: int, q: int, r: int)
    requires |s| == 4 && Value(s[0]) == Some(p) && Value(s[1]) == Some(q) && Value(s[2]) == Some(r) && s[3] == '='
    ensures SameButLeftOver(s, [Digit(p), Digit(q), Digit(r / 4 * 4), '='])
  {
    DigitOfValue(s[0]);
    DigitOfValue(s[1]);
    ValueOfDigit(r / 4 * 4);
    assert LeftOver(s, [Digit(p), Digit(q), Digit(r / 4 * 4), '='], 2, 4);
  }

  lemma ThreeBack(p: int, q: int, r: int, t: int) returns (x: Byte, y: Byte, z: Byte)
    requires 0 <= p < 64 && 0 <= q < 64 && 0 <= r < 64 && 0 <= t < 64
    ensures x as int == p * 4 + q / 16 && y as int == q % 16 * 16 + r / 4 && z as int == r % 4 * 64 + t
    ensures Encode([x, y, z]) == [Digit(p), Digit(q), Digit(r), Digit(t)]
  {
    BitsBack(p, q, r, t);
    x, y, z := (p * 4 + q / 16) as char, (q % 16 * 16 + r / 4) as char, (r % 4 * 64 + t) as char;
    EncodeUpToThree(x, y, z);
  }

  lemma DecodeFour(s: string, p: int, q: int, r: int, t: int)
    requires |s| >= 4 && Value(s[0]) == Some(p) && Value(s[1]) == Some(q) && Value(s[2]) == Some(r) && Value(s[3]) == Some(t)
    requires s[2] != '=' && s[3] != '=' && DecodeGroups(s[4..]).Some?
    ensures DecodeGroups(s) ==
      Some([(p * 4 + q / 16) as char, (q % 16 * 16 + r / 4) as char, (r % 4 * 64 + t) as char] + DecodeGroups(s[4..]).value)
  {
  }

  /** A full group is that of the three bytes it decodes to. */
  lemma GroupBack(s: string) returns (b: Bytes)
    requires DecodeGroups(s).Some? && s != [] && s[2] != '=' && s[3] != '='
    ensures |b| == 3 && Encode(b) == s[..4]
    ensures DecodeGroups(s[4..]).Some? && DecodeGroups(s).value == b + DecodeGroups(s[4..]).value
  {
    var p, q, r, t := Value(s[0]).value, Value(s[1]).value, Value(s[2]).value, Value(s[3]).value;
    var x, y, z := ThreeBack(p, q, r, t);
    b := [x, y, z];
    DecodeFour(s, p, q, r, t);
    FourDigits(s, p, q, r, t);
  }

  lemma FourDigits(s: string, p: int, q: int, r: int, t: int)
    requires |s| >= 4 && Value(s[0]) == Some(p) && Value(s[1]) == Some(q) && Value(s[2]) == Some(r) && Value(s[3]) == Some(t)
    ensures s[..4] == [Digit(p), Digit(q), Digit(r), Digit(t)]
  {
    DigitOfValue(s[0]);
    DigitOfValue(s[1]);
    DigitOfValue(s[2]);
    DigitOfValue(s[3]);
  }

  /** What a text decodes to encodes to the text again, but for the bits left over before the padding. */
  lemma {:induction false} EncodeDecode(s: string)
    requires DecodeGroups(s).Some?
    ensures IsBytes(DecodeGroups(s).value) && SameButLeftOver(s, Encode(DecodeGroups(s).value))
  {
    if s == [] {
    } else if s[2] == '=' {
      OnePadded(s);
    } else if s[3] == '=' {
      TwoPadded(s);
    } else {
      var b := GroupBack(s);
      EncodeDecode(s[4..]);
      var rest := DecodeGroups(s[4..]).value;
      IsBytesNext(b, rest);
      EncodeThree(b, rest);
      SameNext(s[..4], s[4..], Encode(rest));
      assert s == s[..4] + s[4..];
    }
  }
}
