/**
 * `RegisterHandler` and `LoginHandler` (internal/handlers/auth_handler.go):
 * pick the entity kind from the path tag, decode the body into a new
 * entity of that kind, call the service and map its outcome to a reply.
 */
module AuthHandlers {
  import opened Results
  import opened Faults
  import ObjectIds
  import Json
  import DocStore
  import Bcrypt
  import Jwt
  import Entities
  import EntityService
  import opened Http

  /** A handler's reply together with the store it leaves behind. */
  datatype Handled = Handled(reply: Reply, store: DocStore.Store)

  /** `RegisterHandler(w, r, entityType)`. */
  function RegisterHandler(s: DocStore.Store, tag: string, body: string, salt: Bcrypt.Salt, generated: ObjectIds.ObjectId,
                           faults: set<Fault>): (r: Handled)
    ensures Entities.KindOfTag(tag).None? ==> r == Handled(Failure(StatusBadRequest, "Invalid entity type", NoCause), s)
    ensures (Entities.KindOfTag(tag).Some? && DecodeEntity(Entities.KindOfTag(tag).value, body).None?)
              ==> r == Handled(Failure(StatusBadRequest, "Invalid request body", NoCause), s)
    ensures r.reply.Success? <==>
              && Entities.KindOfTag(tag).Some? && DecodeEntity(Entities.KindOfTag(tag).value, body).Some?
              && EntityService.Register(s, DecodeEntity(Entities.KindOfTag(tag).value, body).value, salt, generated, faults).Ok?
    ensures r.reply.Success? ==>
              var (s', id) := EntityService.Register(s, DecodeEntity(Entities.KindOfTag(tag).value, body).value,
                                                     salt, generated, faults).value;
              r == Handled(Success(Json.JObj([Json.Member("entityID", Json.JStr(id))]), []), s')
    ensures r.reply.Failure? ==> r.store == s
    ensures r.reply.Failure? && r.reply.status != StatusBadRequest ==>
              r.reply.status == StatusInternalServerError && r.reply.cause.ServiceCause?
  {
    match Entities.KindOfTag(tag)
    case None => Handled(Failure(StatusBadRequest, "Invalid entity type", NoCause), s)
    case Some(k) =>
      match DecodeEntity(k, body)
      case None => Handled(Failure(StatusBadRequest, "Invalid request body", NoCause), s)
      case Some(e) =>
        match EntityService.Register(s, e, salt, generated, faults)
        case Err(err) => Handled(Failure(StatusInternalServerError, "", ServiceCause(err)), s)
        case Ok((s', id)) => Handled(Success(Json.JObj([Json.Member("entityID", Json.JStr(id))]), []), s')
  }

  /**
   * Posting an entity's JSON registers exactly that entity (its refresh
   * token is never read from a body), and the reply names the identifier
   * the service assigned.
   */
  lemma RegisterHandlerRegistersBody(s: DocStore.Store, e: Entities.Entity, salt: Bcrypt.Salt,
                                     generated: ObjectIds.ObjectId, faults: set<Fault>)
    ensures var r := RegisterHandler(s, Entities.CollectionOf(e.KindOf()), Json.Print(Entities.ToJson(e)), salt, generated, faults);
            var reg := EntityService.Register(s, e.WithRefreshToken(""), salt, generated, faults);
            && (r.reply.Success? <==> reg.Ok?)
            && (reg.Ok? ==> r.store == reg.value.0 && r.reply.body == Json.JObj([Json.Member("entityID", Json.JStr(ObjectIds.Hex(generated)))]))
            && (reg.Err? ==> r == Handled(Failure(StatusInternalServerError, "", ServiceCause(reg.error)), s))
  {
    Entities.KindOfTagCollection(e.KindOf());
    DecodeEntityOfJson(e, "");
    assert Json.Print(Entities.ToJson(e)) + "" == Json.Print(Entities.ToJson(e));
  }

  /** The two cookies `setTokenCookies` sets, both expiring with the token they carry. */
  function TokenCookies(access: string, refresh: string, now: int): (cs: seq<Cookie>)
    ensures |cs| == 2 && cs[0].name == "AccessToken" && cs[1].name == "RefreshToken"
    ensures cs[0].value == access && cs[1].value == refresh
    ensures cs[0].expires == now + Jwt.AccessTtl && cs[1].expires == now + Jwt.RefreshTtl
    ensures forall i | 0 <= i < |cs| :: cs[i].httpOnly && cs[i].secure && cs[i].path == "/" && cs[i].sameSite == SameSiteStrict
  {
    [ Cookie("AccessToken", access, now + 15 * 60, true, true, "/", SameSiteStrict),
      Cookie("RefreshToken", refresh, now + 7 * 24 * 60 * 60, true, true, "/", SameSiteStrict) ]
  }

  /** The success body of a login: a `map[string]string`, which `encoding/json` writes with its keys sorted. */
  function LoginBody(access: string, refresh: string): Json.Json
  {
    Json.JObj([Json.Member("accessToken", Json.JStr(access)),
               Json.Member("refreshToken", Json.JStr(refresh)),
               Json.Member("status", Json.JStr("success"))])
  }

  /**
   * `LoginHandler(w, r, entityType)`. The secrets are fetched on every
   * request: `configured` is the `SECRET_KEY` setting and `random` the 32
   * random bytes drawn for this request; an unset access secret ends the
   * process.
   */
  function LoginHandler(s: DocStore.Store, tag: string, body: string, configured: string, random: string,
                        now: int, faults: set<Fault>): (r: Handled)
    ensures Entities.KindOfTag(tag).None? ==> r == Handled(Failure(StatusBadRequest, "Invalid entity type", NoCause), s)
    ensures (Entities.KindOfTag(tag).Some? && DecodeEntity(Entities.KindOfTag(tag).value, body).None?)
              ==> r == Handled(Failure(StatusBadRequest, "Invalid request body", NoCause), s)
    ensures r.reply.Aborted? <==>
              Entities.KindOfTag(tag).Some? && DecodeEntity(Entities.KindOfTag(tag).value, body).Some? && configured == ""
    ensures (r.reply.Failure? && r.reply.status != StatusBadRequest) ==>
              r == Handled(Failure(StatusInternalServerError, "Failed to authenticate or generate tokens", NoCause), s)
    ensures r.reply.Success? <==>
              && Entities.KindOfTag(tag).Some? && DecodeEntity(Entities.KindOfTag(tag).value, body).Some? && configured != ""
              && EntityService.AuthenticateAndGenerateTokens(s, DecodeEntity(Entities.KindOfTag(tag).value, body).value,
                                                            configured, random, now, faults).Ok?
    ensures r.reply.Success? ==>
              var (s', access, refresh) := EntityService.AuthenticateAndGenerateTokens(
                                             s, DecodeEntity(Entities.KindOfTag(tag).value, body).value,
                                             configured, random, now, faults).value;
              r == Handled(Success(LoginBody(access, refresh), TokenCookies(access, refresh, now)), s')
  {
    match Entities.KindOfTag(tag)
    case None => Handled(Failure(StatusBadRequest, "Invalid entity type", NoCause), s)
    case Some(k) =>
      match DecodeEntity(k, body)
      case None => Handled(Failure(StatusBadRequest, "Invalid request body", NoCause), s)
      case Some(e) =>
        match EntityService.GetSecretKeys(configured, random)
        case None => Handled(Aborted, s)
        case Some((secretKey, refreshSecret)) =>
          match EntityService.AuthenticateAndGenerateTokens(s, e, secretKey, refreshSecret, now, faults)
          case Err(_) => Handled(Failure(StatusInternalServerError, "Failed to authenticate or generate tokens", NoCause), s)
          case Ok((s', access, refresh)) =>
            Handled(Success(LoginBody(access, refresh), TokenCookies(access, refresh, now)), s')
  }

  /**
   * A successful login's cookies carry tokens that stop being accepted
   * exactly when the cookies expire: the access token under the configured
   * secret, the refresh token under this request's random secret.
   */
  lemma LoginCookiesMatchTokens(s: DocStore.Store, tag: string, body: string, configured: string, random: string,
                                now: int, faults: set<Fault>, t: int)
    requires LoginHandler(s, tag, body, configured, random, now, faults).reply.Success?
    ensures var cs := LoginHandler(s, tag, body, configured, random, now, faults).reply.cookies;
            && (Jwt.ValidateToken(cs[0].value, configured, t).Ok? <==> t < cs[0].expires)
            && (Jwt.ValidateToken(cs[1].value, random, t).Ok? <==> t < cs[1].expires)
  {
    var e := DecodeEntity(Entities.KindOfTag(tag).value, body).value;
    var found := EntityService.Authenticate(s, e.CollectionName(), e.Email(), e.Password(), faults).value;
    Jwt.AccessTokenLifetime(found.Id(), configured, random, now, faults, t);
    Jwt.RefreshTokenLifetime(found.Id(), configured, random, now, faults, t);
  }

  /**
   * The refresh secret is drawn afresh for every login, so a refresh token
   * from one login is rejected under the secret of any login that drew
   * different bytes, even before it expires.
   */
  lemma LoginRefreshSecretIsPerRequest(s: DocStore.Store, tag: string, body: string, configured: string, random: string,
                                       now: int, faults: set<Fault>, random': string, t: int)
    requires LoginHandler(s, tag, body, configured, random, now, faults).reply.Success? && random' != random
    ensures var cs := LoginHandler(s, tag, body, configured, random, now, faults).reply.cookies;
            Jwt.ValidateToken(cs[1].value, random', t).Err?
  {
    var e := DecodeEntity(Entities.KindOfTag(tag).value, body).value;
    var found := EntityService.Authenticate(s, e.CollectionName(), e.Email(), e.Password(), faults).value;
    Jwt.ValidateWrongKey("HS256", Jwt.RefreshClaims(found.Id(), now), random, random', t);
  }
}
