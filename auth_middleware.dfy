/** server/middleware/authMiddleware.js: extract the bearer token from the
    Authorization header and decide the request's single outcome. */
module AuthMiddleware {
  import opened Js

  /** `p` occurs in `s` starting at position `k`. */
  predicate OccursAt(s: string, p: string, k: nat)
  {
    k + |p| <= |s| && s[k..k + |p|] == p
  }

  /** `s.indexOf(p, from)`: the first occurrence of `p` at or after `from`. */
  function IndexOfFrom(s: string, p: string, from: nat): (r: Option<nat>)
    decreases |s| - from
    ensures r.Some? ==> from <= r.value && OccursAt(s, p, r.value)
    ensures r.Some? ==> forall k :: from <= k < r.value ==> !OccursAt(s, p, k)
    ensures r.None? ==> forall k :: from <= k ==> !OccursAt(s, p, k)
  {
    if from + |p| > |s| then None
    else if s[from..from + |p|] == p then Some(from)
    else IndexOfFrom(s, p, from + 1)
  }

  /** `s.replace(p, "")` with a string pattern: only the first occurrence of
      `p` is removed, wherever it is; without an occurrence `s` is returned. */
  function RemoveFirst(s: string, p: string): (r: string)
    ensures IndexOfFrom(s, p, 0).None? ==> r == s
    ensures IndexOfFrom(s, p, 0).Some? ==>
              var k := IndexOfFrom(s, p, 0).value;
              |r| == |s| - |p| && s == r[..k] + p + r[k..]
  {
    match IndexOfFrom(s, p, 0)
    case None => s
    case Some(k) => s[..k] + s[k + |p|..]
  }

  const BearerPrefix := "Bearer "

  /** `req.header("Authorization")?.replace("Bearer ", "")`. */
  function ExtractToken(header: Text): (token: Text)
    ensures header.None? <==> token.None?
  {
    match header
    case None => None
    case Some(h) => Some(RemoveFirst(h, BearerPrefix))
  }

  /** A well-formed header yields exactly the token after the prefix. */
  lemma BearerHeaderYieldsToken(t: string)
    ensures ExtractToken(Some(BearerPrefix + t)) == Some(t)
  {
  }

  /** A header with no "Bearer " in it is used as the token unchanged. */
  lemma HeaderWithoutPrefixUnchanged(h: string)
    requires forall k :: 0 <= k ==> !OccursAt(h, BearerPrefix, k)
    ensures ExtractToken(Some(h)) == Some(h)
  {
  }

  /** The first "Bearer " is removed wherever it stands, and a later one is
      kept: a header `pre + "Bearer " + rest` in which "Bearer " does not
      start before the end of `pre` yields `pre + rest`. */
  lemma {:induction false} RemovesFirstOccurrence(pre: string, rest: string)
    requires forall j :: 0 <= j < |pre| ==> !OccursAt(pre + BearerPrefix + rest, BearerPrefix, j)
    ensures ExtractToken(Some(pre + BearerPrefix + rest)) == Some(pre + rest)
  {
    var h := pre + BearerPrefix + rest;
    var k := |pre|;
    assert h[k..k + |BearerPrefix|] == BearerPrefix;
    assert OccursAt(h, BearerPrefix, k);
    assert IndexOfFrom(h, BearerPrefix, 0) == Some(k);
    assert h[..k] == pre && h[k + |BearerPrefix|..] == rest;
  }

  /** Only the first copy goes: "xBBearer Bearer t" yields "xBBearer t". */
  lemma DoubledPrefixKeepsSecond()
    ensures ExtractToken(Some("xB" + BearerPrefix + "Bearer t")) == Some("xB" + "Bearer t")
  {
    var pre := "xB";
    var h := pre + BearerPrefix + "Bearer t";
    assert !OccursAt(h, BearerPrefix, 0) by { assert h[0..7][0] == 'x'; }
    assert !OccursAt(h, BearerPrefix, 1) by { assert h[1..8][1] == 'B'; }
    RemovesFirstOccurrence(pre, "Bearer t");
  }

  /** The payload `jwt.verify` returns for a valid token. */
  datatype Payload = Payload(id: string, iat: nat, exp: nat)

  /** `jwt.verify(token, secret)`: the decoded payload, or `None` where it
      throws (bad signature, expired, malformed). */
  type Verifier = (string, string) -> Option<Payload>

  /** Each request ends in exactly one of these: `next()` with `req.user` set
      to the decoded payload, or one JSON response. */
  datatype Outcome = Next(user: Payload) | Reject(status: int, msg: string)

  const NoToken := Reject(401, "No token, authorization denied")
  const NoSecret := Reject(500, "Server configuration error: JWT_SECRET is not set")
  const BadToken := Reject(401, "Token is not valid")

  /** authMiddleware: 401 without a token, then 500 without a secret, then 401
      when verification throws; otherwise the request proceeds. */
  function Guard(header: Text, secret: Text, verify: Verifier): (r: Outcome)
    ensures !Truthy(ExtractToken(header)) ==> r == NoToken
    ensures Truthy(ExtractToken(header)) && !Truthy(secret) ==> r == NoSecret
    ensures Truthy(ExtractToken(header)) && Truthy(secret) ==>
              var result := verify(ExtractToken(header).value, secret.value);
              r == if result.None? then BadToken else Next(result.value)
    ensures r.Next? <==> Truthy(ExtractToken(header)) && Truthy(secret)
                         && verify(ExtractToken(header).value, secret.value).Some?
  {
    var token := ExtractToken(header);
    if !Truthy(token) then NoToken
    else if !Truthy(secret) then NoSecret
    else match verify(token.value, secret.value)
      case None => BadToken
      case Some(decoded) => Next(decoded)
  }

  /** The outcome does not depend on the verifier unless a token and a secret
      are both present: verification is never attempted before that. */
  lemma VerifyOnlyWithTokenAndSecret(header: Text, secret: Text, v1: Verifier, v2: Verifier)
    requires !Truthy(ExtractToken(header)) || !Truthy(secret)
    ensures Guard(header, secret, v1) == Guard(header, secret, v2)
    ensures Guard(header, secret, v1).Reject?
  {
  }

  /** A header that is exactly "Bearer " (or absent) is refused before the
      secret is consulted, whatever the configuration. */
  lemma EmptyBearerRefused(secret: Text, verify: Verifier)
    ensures Guard(Some(BearerPrefix), secret, verify) == NoToken
    ensures Guard(None, secret, verify) == NoToken
  {
  }
}
