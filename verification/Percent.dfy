/** `url.PathEscape` and `url.PathUnescape`: percent-encoding of one path segment
    (sections 2.1 and 3.3 of RFC 3986). */
module Percent {
  import opened Text

  predicate IsAlnum(c: char) {
    'a' <= c <= 'z' || 'A' <= c <= 'Z' || '0' <= c <= '9'
  }

  /** The bytes that `url.PathEscape` leaves alone. */
  predicate Plain(c: char) {
    IsAlnum(c) || c in "-_.~$&+=:@"
  }

  function HexDigit(n: int): char
    requires 0 <= n < 16
  {
    if n < 10 then '0' + n as char else 'A' + (n - 10) as char
  }

  function HexValue(c: char): Option<int> {
    if '0' <= c <= '9' then Some(c as int - '0' as int)
    else if 'A' <= c <= 'F' then Some(c as int - 'A' as int + 10)
    else if 'a' <= c <= 'f' then Some(c as int - 'a' as int + 10)
    else None
  }

  function EscapeByte(c: Byte): string {
    if Plain(c) then [c] else ['%', HexDigit(c as int / 16), HexDigit(c as int % 16)]
  }

  function Escape(v: Bytes): (e: string)
    ensures forall c :: c in e ==> Plain(c) || c == '%'
    ensures |e| >= |v|
  {
    if v == [] then [] else EscapeByte(v[0]) + Escape(v[1..])
  }

  /** `url.PathUnescape`: `None` where a '%' is not followed by two hexadecimal digits. */
  function Unescape(s: string): Option<string> {
    if s == [] then Some([])
    else if s[0] == '%' then
      if |s| >= 3 && HexValue(s[1]).Some? && HexValue(s[2]).Some? then
        var rest := Unescape(s[3..]);
        if rest.None? then None
        else Some([(HexValue(s[1]).value * 16 + HexValue(s[2]).value) as char] + rest.value)
      else None
    else
      var rest := Unescape(s[1..]);
      if rest.None? then None else Some([s[0]] + rest.value)
  }

  lemma {:induction false} UnescapeEscape(v: Bytes)
    ensures Unescape(Escape(v)) == Some(v)
  {
    if v != [] {
      UnescapeEscape(v[1..]);
      var head, tail := EscapeByte(v[0]), Escape(v[1..]);
      assert Escape(v)[|head|..] == tail;
      assert [v[0]] + v[1..] == v;
      if !Plain(v[0]) {
        var n := v[0] as int;
        assert HexValue(HexDigit(n / 16)) == Some(n / 16);
        assert HexValue(HexDigit(n % 16)) == Some(n % 16);
      }
    }
  }

  // ----- which bytes are escaped -----

  /** Letters, digits and ten marks stand for themselves; every other byte becomes '%' and two digits. */
  lemma EscapeOne(c: Byte)
    ensures 'a' <= c <= 'z' || 'A' <= c <= 'Z' || '0' <= c <= '9' || c in "-_.~$&+=:@" ==> Escape([c]) == [c]
    ensures !('a' <= c <= 'z' || 'A' <= c <= 'Z' || '0' <= c <= '9' || c in "-_.~$&+=:@") ==>
      Escape([c]) == ['%', "0123456789ABCDEF"[c as int / 16], "0123456789ABCDEF"[c as int % 16]]
  {
    assert [c][1..] == [];
    assert Escape([c]) == EscapeByte(c) + Escape([]) == EscapeByte(c);
    HexDigitIs(c as int / 16);
    HexDigitIs(c as int % 16);
  }

  lemma HexDigitIs(n: int)
    requires 0 <= n < 16
    ensures HexDigit(n) == "0123456789ABCDEF"[n]
  {
  }

  /** The hexadecimal digits, of either case. */
  lemma HexValueIs(n: int, c: char)
    requires 0 <= n < 16
    ensures HexValue("0123456789ABCDEF"[n]) == Some(n) && HexValue("0123456789abcdef"[n]) == Some(n)
    ensures c !in "0123456789ABCDEFabcdef" ==> HexValue(c) == None
  {
    if '0' <= c <= '9' {
      assert "0123456789"[c as int - '0' as int] == c;
    } else if 'A' <= c <= 'F' {
      assert "ABCDEF"[c as int - 'A' as int] == c;
    } else if 'a' <= c <= 'f' {
      assert "abcdef"[c as int - 'a' as int] == c;
    }
  }

  lemma Regroup(a: string, b: string, c: string)
    ensures a + (b + c) == a + b + c
  {
  }

  lemma EscapeHead(v: Bytes, w: Bytes)
    requires v != []
    ensures Escape(v + w) == EscapeByte(v[0]) + Escape(v[1..] + w)
  {
    assert (v + w)[1..] == v[1..] + w;
  }

  /** The bytes are escaped one by one. */
  lemma {:induction false} EscapeAppend(v: Bytes, w: Bytes)
    ensures Escape(v + w) == Escape(v) + Escape(w)
  {
    if v == [] {
      assert v + w == w;
    } else {
      EscapeAppend(v[1..], w);
      EscapeHead(v, w);
      Regroup(EscapeByte(v[0]), Escape(v[1..]), Escape(w));
    }
  }

  /** No other characters occur in an escaped text. */
  lemma {:induction false} EscapedChars(v: Bytes)
    ensures forall c :: c in Escape(v) ==>
      'a' <= c <= 'z' || 'A' <= c <= 'Z' || '0' <= c <= '9' || c in "-_.~$&+=:@%"
  {
    if v != [] {
      EscapedChars(v[1..]);
      if !Plain(v[0]) {
        HexDigitIs(v[0] as int / 16);
        HexDigitIs(v[0] as int % 16);
      }
    }
  }
}
