/**
 * The bearer-token gate in front of the protected routes
 * (internal/auth/middleware.go): the token is taken from the
 * `Authorization` header, validated, and its claims are put into the
 * request context under "userClaims" for the next handler.
 */
module Middleware {
  import opened Results
  import Text
  import Jwt
  import ObjectIds
  import Faults

  /** `extractToken`: the second of exactly two space-separated fields; the scheme word is not looked at. */
  function ExtractToken(authorization: string): (token: string)
    ensures token != "" ==>
              && |token| < |authorization|
              && authorization[|authorization| - |token|..] == token
              && authorization[|authorization| - |token| - 1] == ' '
              && ' ' !in authorization[..|authorization| - |token| - 1]
              && ' ' !in token
  {
    var fields := Text.Split(authorization, ' ');
    if |fields| == 2 then
      assert fields == [fields[0], fields[1]];
      assert [fields[0], fields[1]][1..] == [fields[1]];
      assert authorization == fields[0] + [' '] + fields[1];
      assert authorization[..|fields[0]|] == fields[0];
      fields[1]
    else ""
  }

  /** A header of one space-free word, a space and a space-free token yields that token, whatever the word. */
  lemma ExtractOf(scheme: string, token: string)
    requires ' ' !in scheme && ' ' !in token
    ensures ExtractToken(scheme + " " + token) == token
  {
    var parts := [scheme, token];
    assert parts[1..] == [token];
    assert Text.Join(parts, ' ') == scheme + " " + token;
    Text.SplitJoin(parts, ' ');
  }

  /** A header without exactly one space yields no token. */
  lemma ExtractNeedsOneSpace(authorization: string)
    requires multiset(authorization)[' '] != 1
    ensures ExtractToken(authorization) == ""
  {
  }

  /** A value stored in the request context: the claims pointer (possibly nil), or anything else. */
  datatype CtxValue = ClaimsPtr(claims: Option<Jwt.Claims>) | OtherValue

  type Context = map<string, CtxValue>

  const ClaimsKey: string := "userClaims"

  /** What the gate does with a request: answer it itself, or call the next handler once with a new context. */
  datatype Outcome = Deny(status: int, message: string) | Next(ctx: Context)

  const StatusUnauthorized: int := 401

  /** `AuthMiddleware(secretKey)` applied to a request with this `Authorization` header, at time `now`. */
  function AuthMiddleware(secretKey: string, authorization: string, ctx: Context, now: int): (r: Outcome)
    ensures ExtractToken(authorization) == "" ==> r == Deny(StatusUnauthorized, "Authorization token not provided")
    ensures r.Next? <==> ExtractToken(authorization) != "" && Jwt.ValidateToken(ExtractToken(authorization), secretKey, now).Ok?
    ensures r.Deny? ==> r.status == StatusUnauthorized
    ensures r.Next? ==>
              && ClaimsKey in r.ctx && r.ctx[ClaimsKey].ClaimsPtr? && r.ctx[ClaimsKey].claims.Some?
              && Jwt.ValidAt(r.ctx[ClaimsKey].claims.value, now)
              && forall k | k in ctx && k != ClaimsKey :: k in r.ctx && r.ctx[k] == ctx[k]
  {
    var token := ExtractToken(authorization);
    if token == "" then Deny(StatusUnauthorized, "Authorization token not provided")
    else
      var v := Jwt.ValidateToken(token, secretKey, now);
      if v.Err? then Deny(StatusUnauthorized, "Invalid or expired token")
      else Next(ctx[ClaimsKey := ClaimsPtr(Some(v.value))])
  }

  /**
   * A "<scheme> <token>" header (any scheme word, "Bearer" or not) with a
   * token that validates lets the request through with exactly those claims
   * added.
   */
  lemma GateAdmits(secretKey: string, scheme: string, token: string, ctx: Context, now: int)
    requires ' ' !in scheme && ' ' !in token && token != "" && Jwt.ValidateToken(token, secretKey, now).Ok?
    ensures AuthMiddleware(secretKey, scheme + " " + token, ctx, now) ==
              Next(ctx[ClaimsKey := ClaimsPtr(Some(Jwt.ValidateToken(token, secretKey, now).value))])
  {
    ExtractOf(scheme, token);
  }

  /** A well-formed header with a token that does not validate is turned away. */
  lemma GateDenies(secretKey: string, scheme: string, token: string, ctx: Context, now: int)
    requires ' ' !in scheme && ' ' !in token && token != "" && Jwt.ValidateToken(token, secretKey, now).Err?
    ensures AuthMiddleware(secretKey, scheme + " " + token, ctx, now) == Deny(StatusUnauthorized, "Invalid or expired token")
  {
    ExtractOf(scheme, token);
  }

  /**
   * A fresh access token presented as "Bearer <token>" (or under any other
   * scheme word) passes the gate under the access secret until it expires,
   * and the next handler sees its claims with the issuing entity's
   * identifier.
   */
  lemma GateAdmitsAccessToken(userId: ObjectIds.ObjectId, secretKey: string, refreshSecret: string,
                              issued: int, faults: set<Faults.Fault>, scheme: string, ctx: Context, now: int)
    requires Jwt.GenerateToken(userId, secretKey, refreshSecret, issued, faults).Ok? && ' ' !in scheme
    ensures var token := Jwt.GenerateToken(userId, secretKey, refreshSecret, issued, faults).value.0;
            var r := AuthMiddleware(secretKey, scheme + " " + token, ctx, now);
            && (r.Next? <==> now < issued + Jwt.AccessTtl)
            && (r.Next? ==> r.ctx[ClaimsKey].claims.value.userId == userId)
  {
    var token := Jwt.GenerateToken(userId, secretKey, refreshSecret, issued, faults).value.0;
    Jwt.GeneratedTokensShape(userId, secretKey, refreshSecret, issued, faults);
    Jwt.AccessTokenLifetime(userId, secretKey, refreshSecret, issued, faults, now);
    if now < issued + Jwt.AccessTtl {
      GateAdmits(secretKey, scheme, token, ctx, now);
    } else {
      GateDenies(secretKey, scheme, token, ctx, now);
    }
  }

  /** The refresh token does not open the gate when the refresh secret differs from the access secret. */
  lemma GateRejectsRefreshToken(userId: ObjectIds.ObjectId, secretKey: string, refreshSecret: string,
                                issued: int, faults: set<Faults.Fault>, scheme: string, ctx: Context, now: int)
    requires Jwt.GenerateToken(userId, secretKey, refreshSecret, issued, faults).Ok? && secretKey != refreshSecret
    requires ' ' !in scheme
    ensures AuthMiddleware(secretKey, scheme + " " + Jwt.GenerateToken(userId, secretKey, refreshSecret, issued, faults).value.1,
                           ctx, now).Deny?
  {
    Jwt.GeneratedTokensShape(userId, secretKey, refreshSecret, issued, faults);
    Jwt.TokensNotInterchangeable(userId, secretKey, refreshSecret, issued, faults, now);
    GateDenies(secretKey, scheme, Jwt.GenerateToken(userId, secretKey, refreshSecret, issued, faults).value.1, ctx, now);
  }
}
