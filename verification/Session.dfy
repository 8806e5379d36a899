/** The admin session cookie: base64url of the decimal expiry, a dot, and a keyed hash of the first part.
    The hash is any function of secret and payload. */
module Session {
  import opened Text
  import opened Base64Url

  const MAX_INT64 := 0x7FFF_FFFF_FFFF_FFFF
  const NANOS := 1_000_000_000

  predicate IsInt64(n: int) { -MAX_INT64 - 1 <= n <= MAX_INT64 }

  // ----- decimal numbers -----

  function Digits(n: nat): (s: Bytes)
    ensures |s| > 0 && forall c :: c in s ==> '0' <= c <= '9'
  {
    if n < 10 then [(n + '0' as int) as char] else Digits(n / 10) + [(n % 10 + '0' as int) as char]
  }

  /** `strconv.FormatInt` in base ten. */
  function FormatInt(n: int): Bytes {
    if n < 0 then ['-'] + Digits(-n) else Digits(n)
  }

  function ParseDigits(s: string): Option<int> {
    if s == [] then Some(0)
    else
      var high, c := ParseDigits(s[..|s| - 1]), s[|s| - 1];
      if high.None? || !('0' <= c <= '9') then None else Some(high.value * 10 + (c as int - '0' as int))
  }

  /** `strconv.ParseInt` in base ten, for 64 bits. */
  function ParseInt(s: string): Option<int> {
    var signed := s != [] && (s[0] == '-' || s[0] == '+');
    var digits := if signed then s[1..] else s;
    var n := ParseDigits(digits);
    if digits == [] || n.None? then None
    else
      var value := if signed && s[0] == '-' then -n.value else n.value;
      if IsInt64(value) then Some(value) else None
  }

  lemma {:induction false} ParseDigitsOf(n: nat)
    ensures ParseDigits(Digits(n)) == Some(n)
  {
    if n >= 10 {
      ParseDigitsOf(n / 10);
      assert Digits(n)[..|Digits(n)| - 1] == Digits(n / 10);
    } else {
      assert Digits(n)[..0] == [];
    }
  }

  lemma ParseFormat(n: int)
    ensures ParseInt(FormatInt(n)) == if -0x8000_0000_0000_0000 <= n <= 0x7FFF_FFFF_FFFF_FFFF then Some(n) else None
    ensures FormatInt(n) == if n >= 0 then Digits(n) else ['-'] + Digits(-n)
  {
    if n < 0 {
      ParseDigitsOf(-n);
      ParseNegative(Digits(-n), -n);
    } else {
      ParseDigitsOf(n);
      assert Digits(n)[0] in Digits(n);
    }
  }

  /** The decimal digits, most significant first. */
  lemma DigitsAre(n: nat, c: int)
    requires 0 <= c < 10
    ensures Digits(c) == ["0123456789"[c]]
    ensures n > 0 ==> Digits(10 * n + c) == Digits(n) + ["0123456789"[c]]
  {
    assert (10 * n + c) / 10 == n && (10 * n + c) % 10 == c;
  }

  function Zeros(k: nat): string { seq(k, _ => '0') }

  predicate IsDecimal(s: string) {
    forall i :: 0 <= i < |s| ==> '0' <= s[i] <= '9'
  }

  lemma IsDecimalLast(s: string)
    requires s != []
    ensures IsDecimal(s) <==> IsDecimal(s[..|s| - 1]) && '0' <= s[|s| - 1] <= '9'
  {
    forall i | 0 <= i < |s| - 1 ensures s[..|s| - 1][i] == s[i] {
    }
  }

  /** Only digits make a number, and they are its own, behind any number of zeros. */
  lemma {:induction false} ParseDigitsIs(s: string) returns (k: nat)
    requires s != []
    ensures ParseDigits(s).Some? <==> IsDecimal(s)
    ensures ParseDigits(s).Some? ==> ParseDigits(s).value >= 0 && s == Zeros(k) + Digits(ParseDigits(s).value)
  {
    var init, c := s[..|s| - 1], s[|s| - 1];
    assert s == init + [c];
    IsDecimalLast(s);
    if init == [] {
      k := 0;
      assert Zeros(0) + [c] == s;
    } else {
      k := ParseDigitsIs(init);
      if ParseDigits(s).Some? {
        k := OneMoreDigit(init, k, ParseDigits(init).value, c);
      }
    }
  }

  lemma OneMoreDigit(init: string, k: nat, n: nat, c: char) returns (k': nat)
    requires init == Zeros(k) + Digits(n) && '0' <= c <= '9'
    ensures init + [c] == Zeros(k') + Digits(n * 10 + (c as int - '0' as int))
  {
    k' := k;
    assert (n * 10 + (c as int - '0' as int)) / 10 == n;
    if n == 0 {
      k' := k + 1;
      assert Zeros(k + 1) == Zeros(k) + Digits(0);
    } else {
      assert Zeros(k) + Digits(n) + [c] == Zeros(k) + (Digits(n) + [c]);
    }
  }

  lemma {:induction false} ParsePadded(k: nat, n: nat)
    ensures ParseDigits(Zeros(k) + Digits(n)) == Some(n)
    decreases n
  {
    var s := Zeros(k) + Digits(n);
    if n < 10 {
      ParseZeros(k);
      assert s[..|s| - 1] == Zeros(k);
    } else {
      ParsePadded(k, n / 10);
      assert s[..|s| - 1] == Zeros(k) + Digits(n / 10);
    }
  }

  lemma {:induction false} ParseZeros(k: nat)
    ensures ParseDigits(Zeros(k)) == Some(0)
  {
    if k > 0 {
      ParseZeros(k - 1);
      assert Zeros(k)[..k - 1] == Zeros(k - 1);
    }
  }

  /** How a number may be written: an optional sign, any number of zeros, and its digits. */
  predicate Writes(s: string, k: nat, v: int) {
    var digits := Zeros(k) + Digits(if v < 0 then -v else v);
    (v >= 0 && (s == digits || s == ['+'] + digits)) || (v <= 0 && s == ['-'] + digits)
  }

  /** What `ParseInt` reads, exactly: the numbers of 64 bits, however they are written. */
  lemma ParseIntIff(s: string, v: int)
    ensures ParseInt(s) == Some(v) <==> -0x8000_0000_0000_0000 <= v <= 0x7FFF_FFFF_FFFF_FFFF && exists k :: Writes(s, k, v)
  {
    if ParseInt(s) == Some(v) {
      var k := ParsedIsWritten(s, v);
    }
    forall k | -0x8000_0000_0000_0000 <= v <= 0x7FFF_FFFF_FFFF_FFFF && Writes(s, k, v) ensures ParseInt(s) == Some(v) {
      WrittenIsParsed(s, k, v);
    }
  }

  lemma ParseNegative(digits: string, n: int)
    requires digits != [] && ParseDigits(digits) == Some(n)
    ensures ParseInt(['-'] + digits) == if IsInt64(-n) then Some(-n) else None
  {
    assert (['-'] + digits)[1..] == digits;
  }

  lemma ParsePositive(digits: string, n: int)
    requires digits != [] && ParseDigits(digits) == Some(n)
    ensures ParseInt(['+'] + digits) == if IsInt64(n) then Some(n) else None
  {
    assert (['+'] + digits)[1..] == digits;
  }

  lemma FirstIsDigit(s: string)
    requires s != [] && ParseDigits(s).Some?
    ensures '0' <= s[0] <= '9'
  {
    var _ := ParseDigitsIs(s);
  }

  lemma ParsedAfterSign(s: string, v: int)
    requires s != [] && (s[0] == '-' || s[0] == '+') && ParseInt(s) == Some(v)
    ensures IsInt64(v) && s[1..] != [] && ParseDigits(s[1..]) == Some(if s[0] == '-' then -v else v)
  {
  }

  lemma ParsedUnsigned(s: string, v: int)
    requires s != [] && s[0] != '-' && s[0] != '+' && ParseInt(s) == Some(v)
    ensures IsInt64(v) && ParseDigits(s) == Some(v)
  {
  }

  lemma SignedIsWritten(digits: string, k: nat, n: int)
    requires n >= 0 && digits == Zeros(k) + Digits(n)
    ensures Writes(['-'] + digits, k, -n) && Writes(['+'] + digits, k, n) && Writes(digits, k, n)
  {
  }

  lemma MinusIsWritten(s: string, v: int) returns (k: nat)
    requires s != [] && s[0] == '-' && ParseInt(s) == Some(v)
    ensures IsInt64(v) && Writes(s, k, v)
  {
    ParsedAfterSign(s, v);
    k := ParseDigitsIs(s[1..]);
    SignedIsWritten(s[1..], k, -v);
    assert s == ['-'] + s[1..];
  }

  lemma PlusIsWritten(s: string, v: int) returns (k: nat)
    requires s != [] && s[0] == '+' && ParseInt(s) == Some(v)
    ensures IsInt64(v) && Writes(s, k, v)
  {
    ParsedAfterSign(s, v);
    k := ParseDigitsIs(s[1..]);
    SignedIsWritten(s[1..], k, v);
    assert s == ['+'] + s[1..];
  }

  lemma PlainIsWritten(s: string, v: int) returns (k: nat)
    requires s != [] && s[0] != '-' && s[0] != '+' && ParseInt(s) == Some(v)
    ensures IsInt64(v) && Writes(s, k, v)
  {
    ParsedUnsigned(s, v);
    k := ParseDigitsIs(s);
    SignedIsWritten(s, k, v);
  }

  lemma ParsedIsWritten(s: string, v: int) returns (k: nat)
    requires ParseInt(s) == Some(v)
    ensures IsInt64(v) && Writes(s, k, v)
  {
    if s[0] == '-' {
      k := MinusIsWritten(s, v);
    } else if s[0] == '+' {
      k := PlusIsWritten(s, v);
    } else {
      k := PlainIsWritten(s, v);
    }
  }

  lemma ParseUnsigned(digits: string, n: int)
    requires digits != [] && ParseDigits(digits) == Some(n)
    ensures ParseInt(digits) == if IsInt64(n) then Some(n) else None
  {
    FirstIsDigit(digits);
  }

  lemma WrittenIsParsed(s: string, k: nat, v: int)
    requires IsInt64(v) && Writes(s, k, v)
    ensures ParseInt(s) == Some(v)
  {
    var n := if v < 0 then -v else v;
    var digits := Zeros(k) + Digits(n);
    ParsePadded(k, n);
    if v >= 0 && s == digits {
      ParseUnsigned(digits, n);
    } else if v >= 0 && s == ['+'] + digits {
      ParsePositive(digits, n);
    } else {
      ParseNegative(digits, n);
    }
  }

  // ----- the cookie -----

  type Mac = (string, string) -> string

  function Payload(expiry: int): string { Encode(FormatInt(expiry)) }

  function Cookie(mac: Mac, secret: string, expiry: int): string {
    Payload(expiry) + "." + mac(secret, Payload(expiry))
  }

  /** `createSessionCookie`: times in nanoseconds, the expiry in whole seconds. */
  function CreateSessionCookie(mac: Mac, secret: string, now: int, ttl: int): string {
    Cookie(mac, secret, (now + ttl) / NANOS)
  }

  /** Position of the first dot, or the length. */
  function FirstDot(s: string): (n: nat)
    ensures n <= |s| && '.' !in s[..n] && (n < |s| ==> s[n] == '.')
  {
    if s == [] || s[0] == '.' then 0
    else
      var n := FirstDot(s[1..]);
      assert s[..n + 1] == [s[0]] + s[1..][..n];
      n + 1
  }

  /** `validateSession`, at `now` in nanoseconds, on the value of the cookie. */
  function ValidateSession(mac: Mac, value: string, secret: string, now: int): bool {
    var dot := FirstDot(value);
    if dot == |value| then false
    else
      var payload, sig := value[..dot], value[dot + 1..];
      if mac(secret, payload) != sig then false
      else
        var decoded := Decode(payload);
        if decoded.None? then false
        else
          var expiry := ParseInt(decoded.value);
          if expiry.None? then false else now / NANOS < expiry.value
  }

  lemma {:induction false} SplitAtDot(payload: string, sig: string)
    requires '.' !in payload
    ensures FirstDot(payload + "." + sig) == |payload|
  {
    if payload != [] {
      SplitAtDot(payload[1..], sig);
      assert (payload + "." + sig)[1..] == payload[1..] + "." + sig;
    }
  }

  /** Exactly which cookies are accepted: a dotless payload with its own hash, that decodes to a 64-bit
      number of seconds still to come. */
  lemma AcceptedIff(mac: Mac, value: string, secret: string, now: int)
    ensures ValidateSession(mac, value, secret, now) <==>
      exists payload: string, expiry: int ::
        '.' !in payload && value == payload + "." + mac(secret, payload) &&
        Decode(payload).Some? && ParseInt(Decode(payload).value) == Some(expiry) && now / 1_000_000_000 < expiry
  {
    if ValidateSession(mac, value, secret, now) {
      var dot := FirstDot(value);
      var payload := value[..dot];
      assert value == payload + "." + value[dot + 1..];
      assert ParseInt(Decode(payload).value) == Some(ParseInt(Decode(payload).value).value);
    }
    forall payload: string, expiry: int |
      '.' !in payload && value == payload + "." + mac(secret, payload) &&
      Decode(payload).Some? && ParseInt(Decode(payload).value) == Some(expiry) && now / NANOS < expiry
      ensures ValidateSession(mac, value, secret, now)
    {
      SplitAtDot(payload, mac(secret, payload));
      assert value[..|payload|] == payload && value[|payload| + 1..] == mac(secret, payload);
    }
  }

  /** A cookie made with `secret` and checked with `secret'` is accepted exactly while its expiry, a 64-bit
      number of seconds, is ahead and the two secrets hash its payload alike. */
  lemma CookieAcceptedIff(mac: Mac, secret: string, secret': string, expiry: int, now: int)
    ensures ValidateSession(mac, Cookie(mac, secret, expiry), secret', now) <==>
      -0x8000_0000_0000_0000 <= expiry <= 0x7FFF_FFFF_FFFF_FFFF && now / 1_000_000_000 < expiry &&
      mac(secret', Payload(expiry)) == mac(secret, Payload(expiry))
  {
    var payload, sig := Payload(expiry), mac(secret, Payload(expiry));
    var value := Cookie(mac, secret, expiry);
    EncodeAlphabet(FormatInt(expiry));
    SplitAtDot(payload, sig);
    assert value[..|payload|] == payload && value[|payload| + 1..] == sig;
    DecodeEncode(FormatInt(expiry));
    ParseFormat(expiry);
  }

  /** The cookie round trip: with one secret, a session is valid exactly until its lifetime has passed. */
  lemma SessionLifetime(mac: Mac, secret: string, created: int, ttl: int, now: int)
    requires -0x8000_0000_0000_0000 <= (created + ttl) / 1_000_000_000 <= 0x7FFF_FFFF_FFFF_FFFF
    ensures ValidateSession(mac, CreateSessionCookie(mac, secret, created, ttl), secret, now) <==>
      now / 1_000_000_000 < (created + ttl) / 1_000_000_000
  {
    CookieAcceptedIff(mac, secret, secret, (created + ttl) / NANOS, now);
  }
}
