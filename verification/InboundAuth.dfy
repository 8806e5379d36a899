/** The credentials that a message inherits from the session it is sent on. */
module InboundAuth {
  import opened Text

  datatype Credentials = Credentials(authorization: string, cookie: string, extra: map<string, string>)

  /** What a handler sees: a field of the message if it has one, else the session's. */
  function Merged(session: Credentials, msg: Option<Credentials>): Credentials {
    match msg
    case None => session
    case Some(m) =>
      Credentials(if m.authorization != "" then m.authorization else session.authorization,
                  if m.cookie != "" then m.cookie else session.cookie,
                  session.extra + m.extra)
  }

  /** `mergeInboundAuth`; both loops range over a map in whatever order. */
  method Merge(session: Credentials, msg: Option<Credentials>) returns (r: Credentials)
    ensures r == Merged(session, msg) && (msg.None? ==> r == session)
  {
    if msg.None? {
      return session;
    }
    var m := msg.value;
    var authorization, cookie, extra := session.authorization, session.cookie, map[];
    extra := CopyInto(session.extra, extra);
    if m.authorization != "" {
      authorization := m.authorization;
    }
    if m.cookie != "" {
      cookie := m.cookie;
    }
    extra := CopyInto(m.extra, extra);
    assert map[] + session.extra == session.extra;
    r := Credentials(authorization, cookie, extra);
  }

  /** `for k, v := range from { to[k] = v }` */
  method CopyInto(from: map<string, string>, to: map<string, string>) returns (r: map<string, string>)
    ensures r == to + from
  {
    r := to;
    var left := from.Keys;
    while left != {}
      invariant left <= from.Keys
      invariant r.Keys == to.Keys + (from.Keys - left)
      invariant forall k :: k in r ==> r[k] == if k in from && k !in left then from[k] else to[k]
      decreases left
    {
      var k :| k in left;
      r := r[k := from[k]];
      left := left - {k};
    }
  }

  /** Several messages in a row: it does not matter which two are merged first. */
  lemma MergedAssociates(a: Credentials, b: Credentials, c: Credentials)
    ensures Merged(Merged(a, Some(b)), Some(c)) == Merged(a, Some(Merged(b, Some(c))))
  {
    assert (a.extra + b.extra) + c.extra == a.extra + (b.extra + c.extra);
  }

  /** What the comment above the code promises for a header: an empty value does not override. */
  predicate HeaderFallsBack(session: Credentials, m: Credentials, k: string) {
    k in session.extra && (k !in m.extra || m.extra[k] == "") ==>
      k in Merged(session, Some(m)).extra && Merged(session, Some(m)).extra[k] == session.extra[k]
  }

  /** The code keeps the promise for the two named headers, but for an extra header only if the message does
      not bring it with an empty value where the session has another. What the message does bring wins. */
  lemma FallsBackIff(session: Credentials, m: Credentials, k: string)
    ensures HeaderFallsBack(session, m, k) <==>
      !(k in m.extra && m.extra[k] == "" && k in session.extra && session.extra[k] != "")
    ensures m.authorization == "" ==> Merged(session, Some(m)).authorization == session.authorization
    ensures m.cookie == "" ==> Merged(session, Some(m)).cookie == session.cookie
    ensures m.authorization != "" ==> Merged(session, Some(m)).authorization == m.authorization
    ensures m.cookie != "" ==> Merged(session, Some(m)).cookie == m.cookie
    ensures k in m.extra ==> k in Merged(session, Some(m)).extra && Merged(session, Some(m)).extra[k] == m.extra[k]
    ensures k in Merged(session, Some(m)).extra ==> k in session.extra || k in m.extra
  {
  }
}
