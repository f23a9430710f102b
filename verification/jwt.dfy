/**
 * The access and refresh tokens (internal/auth/jwt.go) and the part of
 * `golang-jwt/jwt/v4` they go through: a token is a JSON header, the
 * JSON claims and a signature, each encoded as a segment and joined with
 * '.' (RFC 7519, with the HMAC algorithms of section 3.2 of RFC 7518).
 *
 * The MAC is a stand-in: `Mac` is deterministic and determined by the
 * algorithm, the key and the signed text, and different keys give
 * different MACs. Segments use the stand-in encoding of `Segments`. Keys
 * are byte strings; a Go `string` and a `[]byte` holding the same bytes
 * are the same key, so both are modelled as `string`.
 */
module Jwt {
  import opened Results
  import opened Faults
  import ObjectIds
  import Text
  import opened Json
  import Segments
  import opened Binding

  const Issuer: string := "food&friends"
  /** 15 minutes, in seconds. */
  const AccessTtl: int := 15 * 60
  /** 7 days, in seconds. */
  const RefreshTtl: int := 7 * 24 * 60 * 60

  /** `JWTClaims`: the three own claims and the registered claims it embeds; times are whole seconds. */
  datatype Claims = Claims(
    userId: ObjectIds.ObjectId,
    email: string,
    roles: string,
    issuer: string,
    subject: string,
    expiresAt: Option<int>,
    notBefore: Option<int>,
    issuedAt: Option<int>,
    id: string)

  /** The JSON names of `JWTClaims`; the embedded registered claims are all `omitempty`. */
  const ClaimsSchema: Schema := [
    Field("user_id", KOid, false, None),
    Field("email", KStr, false, None),
    Field("roles", KStr, false, None),
    Field("iss", KStr, true, None),
    Field("sub", KStr, true, None),
    Field("aud", KNested, true, None),
    Field("exp", KDate, true, None),
    Field("nbf", KDate, true, None),
    Field("iat", KDate, true, None),
    Field("jti", KStr, true, None)
  ]

  function ClaimsVals(c: Claims): (vals: seq<Val>)
    ensures Conforms(ClaimsSchema, vals)
  {
    [VOid(c.userId), VStr(c.email), VStr(c.roles), VStr(c.issuer), VStr(c.subject), VNested,
     VDate(c.expiresAt), VDate(c.notBefore), VDate(c.issuedAt), VStr(c.id)]
  }

  function ClaimsOf(vals: seq<Val>): Claims
    requires |vals| == |ClaimsSchema|
  {
    Claims(vals[0].Oid(), vals[1].Str(), vals[2].Str(), vals[3].Str(), vals[4].Str(),
           vals[6].Date(), vals[7].Date(), vals[8].Date(), vals[9].Str())
  }

  lemma ClaimsOfVals(c: Claims)
    ensures ClaimsOf(ClaimsVals(c)) == c
  {
  }

  const ClaimsNames: seq<string> := ["user_id", "email", "roles", "iss", "sub", "aud", "exp", "nbf", "iat", "jti"]

  /** The claim names are already lower case and pairwise different, so they differ up to case. */
  lemma ClaimsFoldDistinct()
    ensures FoldDistinct(ClaimsSchema)
  {
    assert forall i | 0 <= i < |ClaimsSchema| :: ClaimsSchema[i].name == ClaimsNames[i];
    assert forall i | 0 <= i < |ClaimsNames| :: Text.Fold(ClaimsNames[i]) == ClaimsNames[i];
    FoldDistinctByLowered(ClaimsSchema, ClaimsNames, ClaimsNames);
  }

  /** `json.Marshal` of the claims. */
  function ClaimsJson(c: Claims): Json
  {
    Encode(ClaimsSchema, ClaimsVals(c))
  }

  // ---------------------------------------------------------------- signing methods

  /** The HMAC methods, the only ones that accept a `[]byte` key. */
  const HmacAlgs: set<string> := {"HS256", "HS384", "HS512"}
  /** The other methods `GetSigningMethod` knows. */
  const OtherAlgs: set<string> :=
    {"RS256", "RS384", "RS512", "ES256", "ES384", "ES512", "PS256", "PS384", "PS512", "EdDSA", "none"}

  datatype Method = Hmac(alg: string) | NonHmac(alg: string)

  /** `jwt.GetSigningMethod`. */
  function SigningMethod(alg: string): (r: Option<Method>)
    ensures r.Some? <==> alg in HmacAlgs || alg in OtherAlgs
    ensures r.Some? ==> r.value.alg == alg && (r.value.Hmac? <==> alg in HmacAlgs)
  {
    if alg in HmacAlgs then Some(Hmac(alg))
    else if alg in OtherAlgs then Some(NonHmac(alg))
    else None
  }

  /** The keyed MAC of `input` (stand-in for HMAC-SHA2 with the method's hash). */
  function Mac(alg: string, key: string, input: string): string
  {
    alg + ":" + key + ":" + input
  }

  /** Different keys never produce the same MAC of the same text. */
  lemma MacKeyInjective(alg: string, k1: string, k2: string, input: string)
    requires Mac(alg, k1, input) == Mac(alg, k2, input)
    ensures k1 == k2
  {
    var lo := |alg| + 1;
    assert |k1| == |k2|;
    assert Mac(alg, k1, input)[lo..lo + |k1|] == k1;
    assert Mac(alg, k2, input)[lo..lo + |k2|] == k2;
  }

  /** `Method.Verify(signingString, signature, key)`: only an HMAC method can verify with a byte-string key. */
  predicate VerifySignature(m: Method, input: string, signature: string, key: string)
  {
    m.Hmac? && Segments.Decode(signature) == Some(Mac(m.alg, key, input))
  }

  // ---------------------------------------------------------------- building tokens

  /** The header `jwt.NewWithClaims` writes; `json.Marshal` of a map sorts the keys. */
  function Header(alg: string): Json
  {
    JObj([Member("alg", JStr(alg)), Member("typ", JStr("JWT"))])
  }

  /** `Token.SigningString()`. */
  function SigningString(alg: string, c: Claims): string
  {
    Segments.Encode(Print(Header(alg))) + "." + Segments.Encode(Print(ClaimsJson(c)))
  }

  /** A token with the given header algorithm and claims, carrying `mac` as its signature. */
  function Assemble(alg: string, c: Claims, mac: string): string
  {
    SigningString(alg, c) + "." + Segments.Encode(mac)
  }

  /** `jwt.NewWithClaims(method, claims).SignedString(key)`. */
  function Sign(alg: string, c: Claims, key: string): string
  {
    Assemble(alg, c, Mac(alg, key, SigningString(alg, c)))
  }

  /** The access token's claims: the user's identifier, the issuer and an expiry 15 minutes after `now`. */
  function AccessClaims(userId: ObjectIds.ObjectId, now: int): Claims
  {
    Claims(userId, "", "", Issuer, "", Some(now + AccessTtl), None, None, "")
  }

  /** The refresh token's claims: the same, expiring 7 days after `now`. */
  function RefreshClaims(userId: ObjectIds.ObjectId, now: int): Claims
  {
    Claims(userId, "", "", Issuer, "", Some(now + RefreshTtl), None, None, "")
  }

  datatype TokenError = SigningFailed

  /**
   * `GenerateToken`: the access token signed with `secretKey` and the
   * refresh token signed with `refreshSecret`, both HS256. Only the
   * identifier of the entity is read. A failure to sign the access token
   * ends the call before the refresh token is built.
   */
  function GenerateToken(userId: ObjectIds.ObjectId, secretKey: string, refreshSecret: string,
                         now: int, faults: set<Fault>): (r: Result<(string, string), TokenError>)
    ensures r.Ok? <==> SignAccessFails !in faults && SignRefreshFails !in faults
    ensures r.Ok? ==> r.value.0 == Sign("HS256", AccessClaims(userId, now), secretKey)
    ensures r.Ok? ==> r.value.1 == Sign("HS256", RefreshClaims(userId, now), refreshSecret)
  {
    if SignAccessFails in faults then Err(SigningFailed)
    else
      var access := Sign("HS256", AccessClaims(userId, now), secretKey);
      if SignRefreshFails in faults then Err(SigningFailed)
      else Ok((access, Sign("HS256", RefreshClaims(userId, now), refreshSecret)))
  }

  // ---------------------------------------------------------------- parsing and validating

  /** `ValidationError` bits that can be raised together once the token has been read. */
  datatype Flags = Flags(expired: bool, usedBeforeIssued: bool, notValidYet: bool, signatureInvalid: bool)
  {
    predicate Any()
    {
      expired || usedBeforeIssued || notValidYet || signatureInvalid
    }
  }

  datatype ParseError =
    | Malformed        // wrong number of segments, undecodable segment or JSON
    | Unverifiable     // the header names no known signing method
    | Invalid(flags: Flags)

  /** What `ParseUnverified` extracts from the text. */
  datatype Unverified = Unverified(signer: Method, claims: Claims, signingString: string, signature: string)

  /** `token.Header["alg"].(string)`; a `null` header is a nil map. */
  function HeaderAlg(h: Json): Option<string>
  {
    if !h.JObj? then None
    else
      match LastMember(h.members, "alg")
      case Some(JStr(alg)) => Some(alg)
      case _ => None
  }

  /** The header segment: decodable text holding a JSON object or `null` (a nil map). */
  function ReadHeader(segment: string): (r: Option<Json>)
    ensures r.Some? ==> r.value.JObj? || r.value.JNull?
  {
    match Segments.Decode(segment)
    case None => None
    case Some(text) =>
      match Unmarshal(text)
      case Some(header) => if header.JObj? || header.JNull? then Some(header) else None
      case None => None
  }

  /** The claims segment: decodable text whose first JSON value decodes into `JWTClaims`. */
  function ReadClaims(segment: string): (r: Option<seq<Val>>)
    ensures r.Some? ==> Conforms(ClaimsSchema, r.value)
  {
    match Segments.Decode(segment)
    case None => None
    case Some(text) =>
      match DecodeFirst(text)
      case None => None
      case Some(j) =>
        match Decode(ClaimsSchema, j)
        case Ok(vals) => Some(vals)
        case Err(_) => None
  }

  /**
   * `Parser.ParseUnverified` with `&JWTClaims{}` as the claims: three
   * segments, a readable header and claims, and a header `alg` naming a
   * known method.
   */
  function ParseUnverified(token: string): Result<Unverified, ParseError>
  {
    ParseParts(Text.Split(token, '.'))
  }

  function ParseParts(parts: seq<string>): Result<Unverified, ParseError>
  {
    if |parts| != 3 then Err(Malformed)
    else
      match (ReadHeader(parts[0]), ReadClaims(parts[1]))
      case (Some(header), Some(vals)) =>
        (match HeaderAlg(header)
         case None => Err(Unverifiable)
         case Some(alg) =>
           match SigningMethod(alg)
           case None => Err(Unverifiable)
           case Some(m) => Ok(Unverified(m, ClaimsOf(vals), parts[0] + "." + parts[1], parts[2])))
      case _ => Err(Malformed)
  }

  /** `RegisteredClaims.Valid` at time `now`: each time claim is checked only when present. */
  predicate Expired(c: Claims, now: int)
  {
    c.expiresAt.Some? && now >= c.expiresAt.value
  }

  predicate UsedBeforeIssued(c: Claims, now: int)
  {
    c.issuedAt.Some? && now < c.issuedAt.value
  }

  predicate NotValidYet(c: Claims, now: int)
  {
    c.notBefore.Some? && now < c.notBefore.value
  }

  /** A token whose time claims hold at `now`. */
  predicate ValidAt(c: Claims, now: int)
  {
    !Expired(c, now) && !UsedBeforeIssued(c, now) && !NotValidYet(c, now)
  }

  function Check(u: Unverified, key: string, now: int): (r: Result<Claims, ParseError>)
    ensures r.Ok? <==> ValidAt(u.claims, now) && VerifySignature(u.signer, u.signingString, u.signature, key)
    ensures r.Ok? ==> r.value == u.claims
    ensures r.Err? ==> r.error.Invalid? && r.error.flags.Any()
  {
    var flags := Flags(Expired(u.claims, now), UsedBeforeIssued(u.claims, now), NotValidYet(u.claims, now),
                       !VerifySignature(u.signer, u.signingString, u.signature, key));
    if flags.Any() then Err(Invalid(flags)) else Ok(u.claims)
  }

  /**
   * `ValidateToken(signedToken, secretKey)`: `jwt.ParseWithClaims` with a
   * key function that always answers `secretKey`, then the claims when
   * `token.Valid`. The issuer is not checked and the header may name any
   * known method. `token.Valid` holds exactly when the parser returns no
   * error, so the "invalid JWT token or claims" branch is never taken.
   */
  function ValidateToken(token: string, secretKey: string, now: int): (r: Result<Claims, ParseError>)
    ensures r.Ok? <==> && ParseUnverified(token).Ok?
                       && var u := ParseUnverified(token).value;
                          ValidAt(u.claims, now) && VerifySignature(u.signer, u.signingString, u.signature, secretKey)
    ensures r.Ok? ==> r.value == ParseUnverified(token).value.claims && ValidAt(r.value, now)
    ensures r.Ok? ==> ParseUnverified(token).value.signer.Hmac?
    ensures ParseUnverified(token).Err? ==> r == Err(ParseUnverified(token).error)
    ensures r.Err? && r.error.Invalid? ==> r.error.flags.Any()
  {
    match ParseUnverified(token)
    case Err(e) => Err(e)
    case Ok(u) => Check(u, secretKey, now)
  }

  // ---------------------------------------------------------------- properties

  /** Three separator-free segments joined with '.' split back into themselves. */
  lemma SplitThree(h: string, b: string, s: string)
    requires '.' !in h && '.' !in b && '.' !in s
    ensures Text.Split(h + "." + b + "." + s, '.') == [h, b, s]
  {
    var parts := [h, b, s];
    assert parts[1..] == [b, s] && [b, s][1..] == [s];
    assert Text.Join([b, s], '.') == b + "." + s;
    assert Text.Join(parts, '.') == h + "." + (b + "." + s);
    assert h + "." + (b + "." + s) == h + "." + b + "." + s;
    Text.SplitJoin(parts, '.');
  }

  /** Three encoded texts joined with '.' have no space and split back into the three encodings. */
  lemma EncodedThree(x: string, y: string, z: string)
    ensures var t := Segments.Encode(x) + "." + Segments.Encode(y) + "." + Segments.Encode(z);
            && ' ' !in t
            && Text.Split(t, '.') == [Segments.Encode(x), Segments.Encode(y), Segments.Encode(z)]
  {
    var h, b, s := Segments.Encode(x), Segments.Encode(y), Segments.Encode(z);
    SplitThree(h, b, s);
    NoSpaceThree(h, b, s);
  }

  lemma NoSpaceThree(h: string, b: string, s: string)
    requires ' ' !in h && ' ' !in b && ' ' !in s
    ensures ' ' !in h + "." + b + "." + s
  {
    var t := h + "." + b + "." + s;
    forall i | 0 <= i < |t|
      ensures t[i] != ' '
    {
      if i < |h| { assert t[i] == h[i]; }
      else if i == |h| { }
      else if i < |h| + 1 + |b| { assert t[i] == b[i - |h| - 1]; }
      else if i == |h| + 1 + |b| { }
      else { assert t[i] == s[i - |h| - 2 - |b|]; }
    }
  }

  /** A token has no space and exactly three segments. */
  lemma AssembleSegments(alg: string, c: Claims, mac: string)
    ensures ' ' !in Assemble(alg, c, mac)
    ensures Text.Split(Assemble(alg, c, mac), '.') ==
              [Segments.Encode(Print(Header(alg))), Segments.Encode(Print(ClaimsJson(c))), Segments.Encode(mac)]
  {
    EncodedThree(Print(Header(alg)), Print(ClaimsJson(c)), mac);
  }

  lemma HeaderAlgOf(alg: string)
    ensures HeaderAlg(Header(alg)) == Some(alg)
  {
    var ms := Header(alg).members;
    assert ms[|ms| - 1].key == "typ" != "alg";
    assert ms[..|ms| - 1] == [Member("alg", JStr(alg))];
    assert LastMember(ms[..|ms| - 1], "alg") == Some(JStr(alg));
  }

  /** The claims segment of a built token reads back as its claims. */
  lemma ClaimsRoundTrip(c: Claims)
    ensures DecodeFirst(Print(ClaimsJson(c))) == Some(ClaimsJson(c))
    ensures Decode(ClaimsSchema, ClaimsJson(c)) == Ok(ClaimsVals(c))
  {
    DecodeFirstPrint(ClaimsJson(c), "");
    assert Print(ClaimsJson(c)) + "" == Print(ClaimsJson(c));
    ClaimsFoldDistinct();
    DecodeEncode(ClaimsSchema, ClaimsVals(c));
  }

  /**
   * Reading a built token recovers its claims, its signing input and its
   * signature when the header names a known method; an unknown method
   * makes it unverifiable.
   */
  lemma ParseAssembled(alg: string, c: Claims, mac: string)
    ensures SigningMethod(alg).None? ==> ParseUnverified(Assemble(alg, c, mac)) == Err(Unverifiable)
    ensures SigningMethod(alg).Some? ==>
              ParseUnverified(Assemble(alg, c, mac)) ==
                Ok(Unverified(SigningMethod(alg).value, c, SigningString(alg, c), Segments.Encode(mac)))
  {
    AssembleSegments(alg, c, mac);
    ReadHeaderOf(alg);
    ReadClaimsOf(c);
    HeaderAlgOf(alg);
    ClaimsOfVals(c);
    ParseUnverifiedSteps(Assemble(alg, c, mac), Segments.Encode(Print(Header(alg))), Segments.Encode(Print(ClaimsJson(c))),
                         Segments.Encode(mac), Header(alg), ClaimsVals(c), alg);
  }

  lemma ReadHeaderOf(alg: string)
    ensures ReadHeader(Segments.Encode(Print(Header(alg)))) == Some(Header(alg))
  {
    Segments.DecodeEncode(Print(Header(alg)));
    UnmarshalPrint(Header(alg));
  }

  lemma ReadClaimsOf(c: Claims)
    ensures ReadClaims(Segments.Encode(Print(ClaimsJson(c)))) == Some(ClaimsVals(c))
  {
    Segments.DecodeEncode(Print(ClaimsJson(c)));
    ClaimsRoundTrip(c);
  }

  /** `ParseUnverified` on three segments whose header and claims read, with the header naming `alg`. */
  lemma ParseUnverifiedSteps(token: string, h: string, b: string, sig: string, header: Json, vals: seq<Val>, alg: string)
    requires Text.Split(token, '.') == [h, b, sig]
    requires ReadHeader(h) == Some(header) && ReadClaims(b) == Some(vals)
    requires HeaderAlg(header) == Some(alg)
    ensures |vals| == |ClaimsSchema|
    ensures ParseUnverified(token) == match SigningMethod(alg)
              case None => Err(Unverifiable)
              case Some(m) => Ok(Unverified(m, ClaimsOf(vals), h + "." + b, sig))
  {
    PartsSteps(h, b, sig, header, vals, alg);
  }

  lemma PartsSteps(h: string, b: string, sig: string, header: Json, vals: seq<Val>, alg: string)
    requires ReadHeader(h) == Some(header) && ReadClaims(b) == Some(vals)
    requires HeaderAlg(header) == Some(alg)
    ensures |vals| == |ClaimsSchema|
    ensures ParseParts([h, b, sig]) == match SigningMethod(alg)
              case None => Err(Unverifiable)
              case Some(m) => Ok(Unverified(m, ClaimsOf(vals), h + "." + b, sig))
  {
  }

  /**
   * A token signed with an HMAC method is accepted under the same key
   * exactly when its time claims hold, whatever its issuer or other claims;
   * otherwise only the time bits are raised.
   */
  lemma ValidateSigned(alg: string, c: Claims, key: string, now: int)
    requires alg in HmacAlgs
    ensures ValidateToken(Sign(alg, c, key), key, now) ==
              if ValidAt(c, now) then Ok(c)
              else Err(Invalid(Flags(Expired(c, now), UsedBeforeIssued(c, now), NotValidYet(c, now), false)))
  {
    ParseAssembled(alg, c, Mac(alg, key, SigningString(alg, c)));
    Segments.DecodeEncode(Mac(alg, key, SigningString(alg, c)));
  }

  /** Under any other key the signature is reported invalid. */
  lemma ValidateWrongKey(alg: string, c: Claims, key: string, other: string, now: int)
    requires alg in HmacAlgs && other != key
    ensures ValidateToken(Sign(alg, c, key), other, now) ==
              Err(Invalid(Flags(Expired(c, now), UsedBeforeIssued(c, now), NotValidYet(c, now), true)))
  {
    var input := SigningString(alg, c);
    ParseAssembled(alg, c, Mac(alg, key, input));
    OtherKeyFails(alg, key, other, input);
  }

  /** The signature made with one key does not verify under another. */
  lemma OtherKeyFails(alg: string, key: string, other: string, input: string)
    requires other != key
    ensures !VerifySignature(Hmac(alg), input, Segments.Encode(Mac(alg, key, input)), other)
  {
    Segments.DecodeEncode(Mac(alg, key, input));
    if Mac(alg, other, input) == Mac(alg, key, input) {
      MacKeyInjective(alg, key, other, input);
    }
  }

  /** A header naming a non-HMAC method ("none" included), or no known method, is never accepted, whatever the signature. */
  lemma ValidateRejectsNonHmac(alg: string, c: Claims, mac: string, key: string, now: int)
    requires alg !in HmacAlgs
    ensures ValidateToken(Assemble(alg, c, mac), key, now).Err?
    ensures alg !in OtherAlgs ==> ValidateToken(Assemble(alg, c, mac), key, now) == Err(Unverifiable)
  {
    ParseAssembled(alg, c, mac);
  }

  /**
   * The access token of a successful `GenerateToken` is accepted under the
   * access secret exactly before its 15 minutes run out, and yields the
   * identifier, the issuer and empty email and roles claims.
   */
  lemma AccessTokenLifetime(userId: ObjectIds.ObjectId, secretKey: string, refreshSecret: string,
                            now: int, faults: set<Fault>, t: int)
    requires GenerateToken(userId, secretKey, refreshSecret, now, faults).Ok?
    ensures var r := ValidateToken(GenerateToken(userId, secretKey, refreshSecret, now, faults).value.0, secretKey, t);
            && (r.Ok? <==> t < now + AccessTtl)
            && (r.Ok? ==> r.value.userId == userId && r.value.issuer == Issuer && r.value.email == "" && r.value.roles == "")
  {
    ValidateSigned("HS256", AccessClaims(userId, now), secretKey, t);
  }

  /** The refresh token is accepted under the refresh secret exactly before its 7 days run out. */
  lemma RefreshTokenLifetime(userId: ObjectIds.ObjectId, secretKey: string, refreshSecret: string,
                             now: int, faults: set<Fault>, t: int)
    requires GenerateToken(userId, secretKey, refreshSecret, now, faults).Ok?
    ensures var r := ValidateToken(GenerateToken(userId, secretKey, refreshSecret, now, faults).value.1, refreshSecret, t);
            && (r.Ok? <==> t < now + RefreshTtl)
            && (r.Ok? ==> r.value.userId == userId && r.value.issuer == Issuer)
  {
    ValidateSigned("HS256", RefreshClaims(userId, now), refreshSecret, t);
  }

  /** Both issued tokens are non-empty and contain no space, so they survive a "Bearer <token>" header. */
  lemma GeneratedTokensShape(userId: ObjectIds.ObjectId, secretKey: string, refreshSecret: string,
                             now: int, faults: set<Fault>)
    requires GenerateToken(userId, secretKey, refreshSecret, now, faults).Ok?
    ensures var (access, refresh) := GenerateToken(userId, secretKey, refreshSecret, now, faults).value;
            ' ' !in access && ' ' !in refresh && access != "" && refresh != ""
  {
    var a, r := AccessClaims(userId, now), RefreshClaims(userId, now);
    AssembleSegments("HS256", a, Mac("HS256", secretKey, SigningString("HS256", a)));
    AssembleSegments("HS256", r, Mac("HS256", refreshSecret, SigningString("HS256", r)));
  }

  /** The refresh token outlives the access token: valid whenever the access token is, and for a while after. */
  lemma RefreshOutlivesAccess(userId: ObjectIds.ObjectId, now: int, t: int)
    ensures ValidAt(AccessClaims(userId, now), t) ==> ValidAt(RefreshClaims(userId, now), t)
    ensures ValidAt(RefreshClaims(userId, now), now + AccessTtl) && !ValidAt(AccessClaims(userId, now), now + AccessTtl)
  {
  }

  /** When the two secrets differ, neither token is accepted under the other's secret. */
  lemma TokensNotInterchangeable(userId: ObjectIds.ObjectId, secretKey: string, refreshSecret: string,
                                 now: int, faults: set<Fault>, t: int)
    requires GenerateToken(userId, secretKey, refreshSecret, now, faults).Ok? && secretKey != refreshSecret
    ensures ValidateToken(GenerateToken(userId, secretKey, refreshSecret, now, faults).value.0, refreshSecret, t).Err?
    ensures ValidateToken(GenerateToken(userId, secretKey, refreshSecret, now, faults).value.1, secretKey, t).Err?
  {
    ValidateWrongKey("HS256", AccessClaims(userId, now), secretKey, refreshSecret, t);
    ValidateWrongKey("HS256", RefreshClaims(userId, now), refreshSecret, secretKey, t);
  }
}
