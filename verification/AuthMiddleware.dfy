/** The middleware that admits a request: a bearer token that verifies, for a session that still
    lives and belongs to the token's subject. */
module AuthMiddlewares {
  import opened Domain
  import opened Keyspace
  import opened SessionRepositories
  import opened Tokens
  import opened Protocol
  import opened Theorems

  /** The word that ends at the first space. */
  function FirstWord(s: string): string {
    var i := IndexOf(s, ' ');
    if i < 0 then s else s[..i]
  }

  /** A header carries a token exactly when it is `Bearer `, the token, and nothing or more words. */
  ghost predicate Carries(header: string, token: string) {
    && token != "" && ' ' !in token
    && (header == "Bearer " + token || exists rest :: header == "Bearer " + token + " " + rest)
  }

  function BearerToken(header: string): Option<string> {
    var i := IndexOf(header, ' ');
    if i < 0 || header[..i] != "Bearer" then None
    else
      var token := FirstWord(header[i + 1..]);
      if token == "" then None else Some(token)
  }

  lemma FirstWordIs(s: string, word: string, rest: string)
    requires ' ' !in word
    ensures FirstWord(word) == word && FirstWord(word + " " + rest) == word
  {
    var t := word + " " + rest;
    var i, n := IndexOf(t, ' '), |word|;
    assert t[n] == ' ' && t[..n] == word;
    assert forall k | 0 <= k < n :: t[k] == word[k];
    assert forall k | 0 <= k < i :: t[k] in t[..i];
    assert i == n;
  }

  lemma TokenFoundIsCarried(header: string, token: string)
    requires BearerToken(header) == Some(token)
    ensures Carries(header, token)
  {
    var i := IndexOf(header, ' ');
    var tail := header[i + 1..];
    assert header == header[..i] + [header[i]] + tail;
    assert header == "Bearer " + tail;
    var j := IndexOf(tail, ' ');
    if j >= 0 {
      var rest := tail[j + 1..];
      assert tail == tail[..j] + [tail[j]] + rest;
      assert header == "Bearer " + token + " " + rest;
    }
  }

  lemma SchemeEnds(tail: string)
    ensures IndexOf("Bearer " + tail, ' ') == 6 && ("Bearer " + tail)[..6] == "Bearer"
    ensures ("Bearer " + tail)[7..] == tail
  {
  }

  lemma CarriedTokenIsFound(header: string, token: string)
    requires Carries(header, token)
    ensures BearerToken(header) == Some(token)
  {
    if header == "Bearer " + token {
      SchemeEnds(token);
      FirstWordIs(header[7..], token, "");
    } else {
      var rest :| header == "Bearer " + token + " " + rest;
      var tail := token + " " + rest;
      assert header == "Bearer " + tail;
      SchemeEnds(tail);
      FirstWordIs(tail, token, rest);
    }
  }

  class AuthMiddleware {
    const sessionRepository: SessionRepository
    /** Signature, expiry and claims check of a raw access token. */
    const verify: string -> Option<AccessToken>

    constructor (sessionRepository: SessionRepository, verify: string -> Option<AccessToken>)
      ensures this.sessionRepository == sessionRepository && this.verify == verify
    {
      this.sessionRepository, this.verify := sessionRepository, verify;
    }

    lemma NothingCarried()
      ensures forall raw :: !Carries("", raw)
    {
    }

    method Authenticate(authorization: Option<string>) returns (admitted: Option<AccessToken>)
      requires Typed(sessionRepository.redisClient.db)
      ensures var redis := sessionRepository.redisClient;
              forall token :: admitted == Some(token) <==>
                && authorization.Some?
                && (exists raw :: Carries(authorization.value, raw) && verify(raw) == Some(token))
                && var session := StoreOf(redis.now, redis.db).Get(token.sessionId);
                   session.Some? && session.value.userId == token.subject
    {
      hide View, Carries;
      if authorization.None? || authorization.value == "" {
        NothingCarried();
        return None;
      }
      var header := authorization.value;
      forall raw ensures BearerToken(header) == Some(raw) <==> Carries(header, raw) {
        if BearerToken(header) == Some(raw) {
          TokenFoundIsCarried(header, raw);
        }
        if Carries(header, raw) {
          CarriedTokenIsFound(header, raw);
        }
      }
      var raw := BearerToken(header);
      if raw.None? {
        return None;
      }
      var token := verify(raw.value);
      if token.None? {
        return None;
      }
      var session := sessionRepository.Get(token.value.sessionId);
      if session.None? || session.value.userId != token.value.subject {
        return None;
      }
      return token;
    }
  }

  /** Revocation shows at once and for good: after a logout of the session, a bulk revocation of its
      user (cap ahead), or its expiry, no later state admits a token that names it. */
  lemma RevocationObserved(w: World, s: Step, steps: seq<Step>, token: AccessToken)
    requires Reachable(w) && token.sessionId in w.chains
    requires
      || (s.Logout? && s.sessionId == token.sessionId)
      || (s.LogoutAll? && s.user == w.chains[token.sessionId].owner && w.store.now < w.chains[token.sessionId].cap)
      || (s.Tick? && token.sessionId in w.store.sessions
          && w.store.sessions[token.sessionId].deadline < w.store.now + s.elapsed)
    ensures !Authenticate(Run(Next(w, s), steps).store, token)
  {
    ReachableHasTable(w);
    if s.LogoutAll? {
      BulkRevokeEnds(w, s.user, token.sessionId);
    }
    DeadStaysDead(Next(w, s), steps, token.sessionId);
  }
}
