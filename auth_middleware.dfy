/** The identity-token middleware in front of every route: it takes the
    token out of the `Authorization` header, has the identity provider
    verify it (an input here), and either answers 401 or 403 or records the
    decoded claims on the request and passes it on. */
module AuthMiddleware {
  import opened Wrappers
  import opened JsStrings
  import opened Http

  const Marker: string := "Bearer "

  /** `req.headers.authorization?.split("Bearer ")[1]`: the text after the
      first marker, up to a second one; `None` for `undefined`. */
  function BearerToken(header: Option<string>): (t: Option<string>)
    ensures header.None? ==> t.None?
    ensures header.Some? ==> (t.Some? <==> Contains(header.value, Marker))
    ensures t.Some? ==>
      t.value == Before(header.value[IndexOf(header.value, Marker).value + |Marker|..], Marker)
  {
    match header
    case None => None
    case Some(h) =>
      SplitSecond(h, Marker);
      var parts := Split(h, Marker);
      if |parts| < 2 then None else Some(parts[1])
  }

  /** `Bearer <t>`, for a token without the marker, gives `t`. */
  lemma BearerTokenOfHeader(t: string)
    requires !Contains(t, Marker)
    ensures BearerToken(Some(Marker + t)) == Some(t)
  {
    SplitSecondOfJoined("", Marker, t);
    assert "" + Marker + t == Marker + t;
  }

  /** The marker need not start the header: any text before it without a
      marker of its own is skipped. */
  lemma BearerTokenAfterPrefix(prefix: string, t: string)
    requires forall j: nat | j < |prefix| :: !OccursAt(prefix + Marker + t, Marker, j)
    requires !Contains(t, Marker)
    ensures BearerToken(Some(prefix + Marker + t)) == Some(t)
  {
    SplitSecondOfJoined(prefix, Marker, t);
  }

  /** `!token`: no token, or an empty one. */
  predicate NoToken(t: Option<string>) {
    t.None? || t.value == ""
  }

  /** A request: the claims recorded as `req.user`, and how often `next()`
      was called. */
  class AuthRequest {
    var user: Option<Claims>
    var nextCalls: nat

    constructor ()
      ensures user == None && nextCalls == 0
    {
      user, nextCalls := None, 0;
    }

    /** `verifyFirebaseToken(req, res, next)`. `verdict` is what the
        identity provider answers for the token (`None` when it rejects
        it); `asked` is the token the provider was asked about, if any. */
    method Verify(header: Option<string>, verdict: Option<Claims>) returns (out: Pass, asked: Option<string>)
      modifies this
      ensures NoToken(BearerToken(header)) ==>
        out == Stop(401, ErrorBody("No token provided")) && asked.None? && user == old(user) && nextCalls == old(nextCalls)
      ensures !NoToken(BearerToken(header)) ==> asked == BearerToken(header)
      ensures !NoToken(BearerToken(header)) && verdict.None? ==>
        out == Stop(403, ErrorBody("Invalid or expired token")) && user == old(user) && nextCalls == old(nextCalls)
      ensures !NoToken(BearerToken(header)) && verdict.Some? ==>
        out == Continue && user == verdict && nextCalls == old(nextCalls) + 1
    {
      var token := BearerToken(header);
      if NoToken(token) {
        return Stop(401, ErrorBody("No token provided")), None;
      }
      asked := token;
      if verdict.None? {
        return Stop(403, ErrorBody("Invalid or expired token")), asked;
      }
      user := verdict;
      nextCalls := nextCalls + 1;
      return Continue, asked;
    }
  }

  /** A header that is `Bearer ` with nothing after it has no token. */
  lemma EmptyBearerRejected()
    ensures NoToken(BearerToken(Some(Marker)))
  {
    BearerTokenOfHeader("");
  }
}
