/** The OAuth2 client-credentials token cache. Times are in nanoseconds; the token endpoint is an oracle
    whose reply comes with each call. */
module TokenCache {
  import opened Text

  const SECOND := 1_000_000_000
  const MARGIN := 30 * SECOND
  const TWO64 := 0x1_0000_0000_0000_0000
  const MAX_INT64 := 0x7FFF_FFFF_FFFF_FFFF

  datatype Token = Token(access: string, expiresAt: int)

  /** What the token endpoint does: no answer, another status than 200, a body that does not parse, or a token
      with the `expires_in` of section 5.1 of RFC 6749 (zero if absent). */
  datatype Reply = NetworkError | BadStatus | BadBody | Issued(access: string, expiresIn: int)

  /** One `getToken`: when the cache is looked at, and, if it comes to that, the reply and when it is stored. */
  datatype Call = Call(checkedAt: int, reply: Reply, storedAt: int)

  /** Conversion to a 64-bit `time.Duration`. */
  function Wrap64(n: int): int {
    (n + MAX_INT64 + 1) % TWO64 - MAX_INT64 - 1
  }

  /** For how long a token is good; `time.Duration(expiresIn) * time.Second` wraps around. */
  function Lifetime(expiresIn: int, defaultExpiry: int): int {
    Wrap64((if expiresIn <= 0 then defaultExpiry else expiresIn) * SECOND)
  }

  /** In nanoseconds, the seconds that the reply gives, or the configured ones if it gives none, reduced to 64
      bits. */
  lemma LifetimeWraps(expiresIn: int, defaultExpiry: int) returns (k: int)
    ensures Lifetime(expiresIn, defaultExpiry) ==
      (if expiresIn <= 0 then defaultExpiry else expiresIn) * 1_000_000_000 + k * 0x1_0000_0000_0000_0000
    ensures -0x8000_0000_0000_0000 <= Lifetime(expiresIn, defaultExpiry) <= 0x7FFF_FFFF_FFFF_FFFF
  {
    var n := (if expiresIn <= 0 then defaultExpiry else expiresIn) * SECOND;
    k := -((n + MAX_INT64 + 1) / TWO64);
  }

  /** Up to 292 years, positive seconds mean what they say. */
  lemma LifetimeExact(expiresIn: int, defaultExpiry: int)
    requires 0 < expiresIn || 0 < defaultExpiry
    ensures var seconds := if expiresIn <= 0 then defaultExpiry else expiresIn;
      Lifetime(expiresIn, defaultExpiry) == seconds * 1_000_000_000 <==> seconds <= 9_223_372_036
  {
    var n := (if expiresIn <= 0 then defaultExpiry else expiresIn) * SECOND;
    if n <= MAX_INT64 {
      assert (n + MAX_INT64 + 1) % TWO64 == n + MAX_INT64 + 1;
    } else {
      assert Wrap64(n) <= MAX_INT64;
    }
  }

  /** More than 30 seconds remain. */
  predicate Usable(cached: Option<Token>, now: int) {
    cached.Some? && cached.value.expiresAt - now > MARGIN
  }

  function CacheAfter(cached: Option<Token>, c: Call, defaultExpiry: int): Option<Token> {
    if !Usable(cached, c.checkedAt) && c.reply.Issued? then
      Some(Token(c.reply.access, c.storedAt + Lifetime(c.reply.expiresIn, defaultExpiry)))
    else cached
  }

  /** The access token, or `None` for an error. */
  function Result(cached: Option<Token>, c: Call): Option<string> {
    if Usable(cached, c.checkedAt) then Some(cached.value.access)
    else if c.reply.Issued? then Some(c.reply.access)
    else None
  }

  class OAuth2Auth {
    const defaultExpiry: int
    var cached: Option<Token>

    constructor (configured: int)
      ensures cached == None && defaultExpiry == (if configured <= 0 then 300 else configured)
    {
      cached, defaultExpiry := None, if configured <= 0 then 300 else configured;
    }

    /** `getToken`, under its mutex. */
    method GetToken(c: Call) returns (r: Option<string>)
      modifies this
      ensures r == Result(old(cached), c) && cached == CacheAfter(old(cached), c, defaultExpiry)
      ensures
        if old(cached).Some? && old(cached).value.expiresAt - c.checkedAt > 30_000_000_000
        then r == Some(old(cached).value.access) && cached == old(cached)
        else if c.reply.Issued?
        then
          r == Some(c.reply.access) &&
          cached == Some(Token(c.reply.access, c.storedAt + Lifetime(c.reply.expiresIn, defaultExpiry)))
        else r == None && cached == old(cached)
    {
      if cached.Some? && cached.value.expiresAt - c.checkedAt > MARGIN {
        return Some(cached.value.access);
      }
      r := FetchToken(c);
    }

    /** `fetchToken`: every failure leaves the cache as it is. */
    method FetchToken(c: Call) returns (r: Option<string>)
      modifies this
      ensures c.reply.Issued? ==> r == Some(c.reply.access)
      ensures c.reply.Issued? ==>
        cached == Some(Token(c.reply.access, c.storedAt + Lifetime(c.reply.expiresIn, defaultExpiry)))
      ensures !c.reply.Issued? ==> r == None && cached == old(cached)
    {
      match c.reply
      case NetworkError => r := None;
      case BadStatus => r := None;
      case BadBody => r := None;
      case Issued(access, expiresIn) =>
        var seconds := expiresIn;
        if seconds <= 0 {
          seconds := defaultExpiry;
        }
        cached := Some(Token(access, c.storedAt + Wrap64(seconds * SECOND)));
        r := Some(access);
    }
  }

  // ----- whole runs -----

  /** The calls so far, the latest on the outside. The mutex makes them one sequence. */
  datatype Calls = NoCalls | Then(earlier: Calls, call: Call)

  /** The clock does not run backwards. */
  predicate Ordered(h: Calls) {
    && (h.Then? ==> Ordered(h.earlier) && h.call.checkedAt <= h.call.storedAt)
    && (h.Then? && h.earlier.Then? ==> h.earlier.call.storedAt <= h.call.checkedAt)
  }

  function Cached(h: Calls, defaultExpiry: int): Option<Token> {
    match h
    case NoCalls => None
    case Then(earlier, c) => CacheAfter(Cached(earlier, defaultExpiry), c, defaultExpiry)
  }

  /** The last call reached the endpoint and got a token. */
  predicate Fetched(h: Calls, defaultExpiry: int) {
    h.Then? && !Usable(Cached(h.earlier, defaultExpiry), h.call.checkedAt) && h.call.reply.Issued?
  }

  /** When the successful fetches happened. */
  function FetchTimes(h: Calls, defaultExpiry: int): seq<int> {
    match h
    case NoCalls => []
    case Then(earlier, c) => FetchTimes(earlier, defaultExpiry) + (if Fetched(h, defaultExpiry) then [c.storedAt] else [])
  }

  /** The call that the cached token comes from. */
  function Source(h: Calls, defaultExpiry: int): Option<Call> {
    match h
    case NoCalls => None
    case Then(earlier, c) => if Fetched(h, defaultExpiry) then Some(c) else Source(earlier, defaultExpiry)
  }

  /** What is cached is the token of the last successful fetch; failures in between leave it alone. */
  lemma {:induction false} CachedIsLastFetched(h: Calls, defaultExpiry: int)
    ensures match Source(h, defaultExpiry)
      case None => Cached(h, defaultExpiry) == None && FetchTimes(h, defaultExpiry) == []
      case Some(c) =>
        && c.reply.Issued? && FetchTimes(h, defaultExpiry) != []
        && Cached(h, defaultExpiry) == Some(Token(c.reply.access, c.storedAt + Lifetime(c.reply.expiresIn, defaultExpiry)))
        && FetchTimes(h, defaultExpiry)[|FetchTimes(h, defaultExpiry)| - 1] == c.storedAt
  {
    if h.Then? {
      CachedIsLastFetched(h.earlier, defaultExpiry);
    }
  }

  /** Every token handed out was issued just now, or by the last successful fetch with more than 30 seconds
      of its lifetime left; an error is reported only when there is neither. */
  lemma {:induction false} TokenIsFresh(h: Calls, c: Call, defaultExpiry: int)
    ensures var r, source := Result(Cached(h, defaultExpiry), c), Source(h, defaultExpiry);
      var good := source.Some? && source.value.reply.Issued? &&
        source.value.storedAt + Lifetime(source.value.reply.expiresIn, defaultExpiry) - c.checkedAt > 30_000_000_000;
      r == if good then Some(source.value.reply.access) else if c.reply.Issued? then Some(c.reply.access) else None
  {
    CachedIsLastFetched(h, defaultExpiry);
  }

  predicate LongLived(h: Calls, defaultExpiry: int, least: int) {
    && (h.Then? ==> LongLived(h.earlier, defaultExpiry, least))
    && (Fetched(h, defaultExpiry) ==> Lifetime(h.call.reply.expiresIn, defaultExpiry) >= least)
  }

  /** Two successive fetches are at least the shortest lifetime less 30 seconds apart. */
  lemma {:induction false} LaterThanLast(h: Calls, defaultExpiry: int, least: int)
    requires Ordered(h) && LongLived(h, defaultExpiry, least) && Fetched(h, defaultExpiry)
    ensures FetchTimes(h.earlier, defaultExpiry) != [] ==>
      h.call.storedAt - FetchTimes(h.earlier, defaultExpiry)[|FetchTimes(h.earlier, defaultExpiry)| - 1] >= least - MARGIN
  {
    CachedIsLastFetched(h.earlier, defaultExpiry);
    SourceIsLongLived(h.earlier, defaultExpiry, least);
  }

  lemma {:induction false} SourceIsLongLived(h: Calls, defaultExpiry: int, least: int)
    requires LongLived(h, defaultExpiry, least)
    ensures var s := Source(h, defaultExpiry); s.Some? && s.value.reply.Issued? ==>
      Lifetime(s.value.reply.expiresIn, defaultExpiry) >= least
  {
    if h.Then? && !Fetched(h, defaultExpiry) {
      SourceIsLongLived(h.earlier, defaultExpiry, least);
    }
  }

  /** How often the endpoint is asked: if every lifetime is at least `least`, any n successful fetches take
      at least (n - 1) times the lifetime less 30 seconds, whatever calls and failures come between. */
  lemma {:induction false} FetchRate(h: Calls, defaultExpiry: int, least: int, i: nat, j: nat)
    requires Ordered(h) && LongLived(h, defaultExpiry, least) && least >= 30_000_000_000
    requires i <= j < |FetchTimes(h, defaultExpiry)|
    ensures var t := FetchTimes(h, defaultExpiry); t[j] - t[i] >= (j - i) * (least - 30_000_000_000)
  {
    var t, before := FetchTimes(h, defaultExpiry), FetchTimes(h.earlier, defaultExpiry);
    if j < |before| {
      FetchRate(h.earlier, defaultExpiry, least, i, j);
    } else if i < j {
      LaterThanLast(h, defaultExpiry, least);
      FetchRate(h.earlier, defaultExpiry, least, i, j - 1);
      assert (j - i) * (least - MARGIN) == (j - 1 - i) * (least - MARGIN) + (least - MARGIN);
    }
  }
}
