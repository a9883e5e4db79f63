/** Refresh tokens on the wire: `sessionId.validator`. */
module Tokens {
  import opened Domain

  datatype SplitToken = SplitToken(sessionId: string, validator: string)

  datatype AccessToken = AccessToken(subject: string, sessionId: string, role: Role)

  const MAX_SESSION_ID_LENGTH := 64

  function IndexOf(s: string, c: char): (i: int)
    ensures -1 <= i < |s|
    ensures i >= 0 ==> s[i] == c && c !in s[..i]
    ensures i < 0 ==> c !in s
  {
    if s == [] then -1
    else if s[0] == c then 0
    else
      var i := IndexOf(s[1..], c);
      assert i >= 0 ==> s[..i + 1] == [s[0]] + s[1..][..i];
      if i < 0 then -1 else i + 1
  }

  function SplitRefreshToken(raw: string): Option<SplitToken> {
    var separatorIndex := IndexOf(raw, '.');
    if separatorIndex <= 0 || separatorIndex == |raw| - 1 then None
    else Some(SplitToken(raw[..separatorIndex], raw[separatorIndex + 1..]))
  }

  function JoinRefreshToken(token: SplitToken): string {
    token.sessionId + "." + token.validator
  }

  /** What a minted token's halves look like: a UUID and a base64url string are
      both non-empty and free of the separator. */
  predicate Mintable(token: SplitToken) {
    token.sessionId != "" && '.' !in token.sessionId && token.validator != ""
  }

  function RefreshTokenSessionKey(raw: Option<string>, ipKey: string): string {
    if raw.Some? then
      var separatorIndex := IndexOf(raw.value, '.');
      if separatorIndex > 0 && separatorIndex <= MAX_SESSION_ID_LENGTH then "session:" + raw.value[..separatorIndex]
      else "ip:" + ipKey
    else "ip:" + ipKey
  }

  /** Splitting is exactly the inverse of joining, on every string. */
  lemma SplitInvertsJoin(raw: string, token: SplitToken)
    ensures SplitRefreshToken(raw) == Some(token) <==> Mintable(token) && raw == JoinRefreshToken(token)
  {
    var i := IndexOf(raw, '.');
    if SplitRefreshToken(raw) == Some(token) {
      assert raw == raw[..i] + [raw[i]] + raw[i + 1..];
    }
    if Mintable(token) && raw == JoinRefreshToken(token) {
      var n := |token.sessionId|;
      assert raw[n] == '.' && raw[..n] == token.sessionId && raw[n + 1..] == token.validator;
      assert forall k | 0 <= k < n :: raw[k] == token.sessionId[k];
      assert forall k | 0 <= k < i :: raw[k] in raw[..i];
      assert i == n;
    }
  }

  /** A request whose token names no session, because it is missing, starts with the separator or does not
      have one within 64 characters. */
  predicate NamesNoSession(raw: Option<string>) {
    raw.Some? ==> '.' !in raw.value || raw.value[0] == '.' || (|raw.value| > 64 && '.' !in raw.value[..65])
  }

  lemma FallsBack(raw: Option<string>, ip: string)
    requires NamesNoSession(raw)
    ensures RefreshTokenSessionKey(raw, ip) == "ip:" + ip
  {
    if raw.Some? {
      var s, i := raw.value, IndexOf(raw.value, '.');
      if i >= 0 {
        assert s[i] in s && (i > 0 ==> s[0] in s[..i]);
        assert i < |s[..i + 1]| && (i <= 64 < |s| ==> s[..65][i] == '.');
      }
    }
  }

  /** Such requests share a limiter bucket exactly when they come from the same address, and never one with a
      request that names a session. */
  lemma LimiterFallsBackToAddress(raw1: Option<string>, raw2: Option<string>, ip1: string, ip2: string, id: string)
    requires NamesNoSession(raw1) && NamesNoSession(raw2)
    ensures RefreshTokenSessionKey(raw1, ip1) == RefreshTokenSessionKey(raw2, ip2) <==> ip1 == ip2
    ensures RefreshTokenSessionKey(raw1, ip1) != "session:" + id
  {
    FallsBack(raw1, ip1);
    FallsBack(raw2, ip2);
    assert ("ip:" + ip1)[3..] == ip1 && ("ip:" + ip2)[3..] == ip2;
    assert ("ip:" + ip1)[0] == 'i' && ("session:" + id)[0] == 's';
  }

  /** The refresh limiter counts a splittable token under the session the token names
      exactly when that id is at most 64 characters long. */
  lemma LimiterKeyNamesSession(raw: string, token: SplitToken, ipKey: string)
    requires SplitRefreshToken(raw) == Some(token)
    ensures RefreshTokenSessionKey(Some(raw), ipKey) == "session:" + token.sessionId
            <==> |token.sessionId| <= MAX_SESSION_ID_LENGTH
  {
  }

  /** Two splittable tokens share a limiter bucket, whatever the clients' addresses, exactly when
      they name the same session, as long as their ids are at most 64 characters long. */
  lemma LimiterKeySeparatesSessions(raw1: string, raw2: string, t1: SplitToken, t2: SplitToken, ip1: string,
                                    ip2: string)
    requires SplitRefreshToken(raw1) == Some(t1) && SplitRefreshToken(raw2) == Some(t2)
    requires |t1.sessionId| <= MAX_SESSION_ID_LENGTH && |t2.sessionId| <= MAX_SESSION_ID_LENGTH
    ensures RefreshTokenSessionKey(Some(raw1), ip1) == RefreshTokenSessionKey(Some(raw2), ip2)
            <==> t1.sessionId == t2.sessionId
  {
    LimiterKeyNamesSession(raw1, t1, ip1);
    LimiterKeyNamesSession(raw2, t2, ip2);
    assert ("session:" + t1.sessionId)[8..] == t1.sessionId;
    assert ("session:" + t2.sessionId)[8..] == t2.sessionId;
  }
}
