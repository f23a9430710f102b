/**
 * The entity handlers of internal/handlers/user_handler.go that carry
 * decisions: password login without tokens, the cache-through read by
 * identifier, and reading the caller's identifier from the request
 * context that the authentication gate filled in.
 */
module EntityHandlers {
  import opened Results
  import opened Faults
  import ObjectIds
  import Text
  import Json
  import DocStore
  import Jwt
  import Middleware
  import Entities
  import EntityService
  import Cache
  import opened Http

  /**
   * `LoginEntityHandler(w, r, entityType)`. The body is decoded into the
   * interface variable itself, so a JSON `null` body sets it to nil and the
   * next method call on it panics.
   */
  function LoginEntityHandler(s: DocStore.Store, tag: string, body: string, faults: set<Fault>): (r: Reply)
    ensures Entities.KindOfTag(tag).None? ==> r == Failure(StatusBadRequest, "Invalid entity type", NoCause)
    ensures r.Aborted? <==> Entities.KindOfTag(tag).Some? && Json.DecodeFirst(body) == Some(Json.JNull)
    ensures r.Success? ==> r.cookies == []
    ensures r.Failure? && r.status != StatusBadRequest ==> r == Failure(StatusUnauthorized, "Invalid email or password", NoCause)
    ensures r.Success? <==>
              && Entities.KindOfTag(tag).Some? && Json.DecodeFirst(body) != Some(Json.JNull)
              && DecodeEntity(Entities.KindOfTag(tag).value, body).Some?
              && var e := DecodeEntity(Entities.KindOfTag(tag).value, body).value;
                 EntityService.Authenticate(s, e.CollectionName(), e.Email(), e.Password(), faults).Ok?
    ensures r.Success? ==>
              var e := DecodeEntity(Entities.KindOfTag(tag).value, body).value;
              r.body == Entities.ToJson(EntityService.Authenticate(s, e.CollectionName(), e.Email(), e.Password(), faults).value)
  {
    match Entities.KindOfTag(tag)
    case None => Failure(StatusBadRequest, "Invalid entity type", NoCause)
    case Some(k) =>
      if Json.DecodeFirst(body) == Some(Json.JNull) then Aborted
      else
        match DecodeEntity(k, body)
        case None => Failure(StatusBadRequest, "Invalid request body", NoCause)
        case Some(e) =>
          match EntityService.Authenticate(s, e.CollectionName(), e.Email(), e.Password(), faults)
          case Err(_) => Failure(StatusUnauthorized, "Invalid email or password", NoCause)
          case Ok(found) => Success(Entities.ToJson(found), [])
  }

  /**
   * An unknown email and a wrong password get the same reply, so the reply
   * does not tell a caller which accounts exist.
   */
  lemma LoginEntityHidesCause(s: DocStore.Store, e: Entities.Entity, faults: set<Fault>)
    requires EntityService.Authenticate(s, e.CollectionName(), e.Email(), e.Password(), faults).Err?
    ensures LoginEntityHandler(s, e.CollectionName(), Json.Print(Entities.ToJson(e)), faults)
              == Failure(StatusUnauthorized, "Invalid email or password", NoCause)
  {
    Entities.CollectionNameFixed(e);
    Entities.KindOfTagCollection(e.KindOf());
    DecodeEntityOfJson(e, "");
    Json.DecodeFirstPrint(Entities.ToJson(e), "");
    assert Json.Print(Entities.ToJson(e)) + "" == Json.Print(Entities.ToJson(e));
  }

  /** One cache-through read: what was answered, the cache after it, and whether the store was asked. */
  datatype Lookup = Lookup(reply: Reply, cache: Cache.Store, storeCalled: bool)

  /**
   * The part of `GetEntityById` after the identifier and the tag are
   * checked: read the cache under `readKey`; on a miss ask the store (whose
   * answer `stored` is, `None` for an error or nil) and cache what it found
   * under `writeKey`.
   */
  function ReadThrough(c: Cache.Store, readKey: string, writeKey: string, tag: string, k: Entities.Kind,
                       now: int, stored: Option<Entities.Entity>, faults: set<Fault>): (r: Lookup)
    ensures r.storeCalled <==> Cache.GetCachedEntity(c, readKey, k, now, faults) == Err(Cache.Miss)
    ensures Cache.GetCachedEntity(c, readKey, k, now, faults).Ok? ==>
              r == Lookup(Success(Entities.ToJson(Cache.GetCachedEntity(c, readKey, k, now, faults).value), []), c, false)
    ensures (Cache.GetCachedEntity(c, readKey, k, now, faults).Err? && !r.storeCalled) ==>
              && r.cache == c && r.reply.Failure? && r.reply.status == StatusInternalServerError
              && r.reply.cause == CacheCause(Cache.GetCachedEntity(c, readKey, k, now, faults).error)
    ensures r.storeCalled && stored.None? ==> r == Lookup(Failure(StatusNotFound, tag + " not found", NoCause), c, true)
    ensures r.storeCalled && stored.Some? ==>
              var w := Cache.CacheEntity(c, writeKey, stored.value, now, faults);
              && (w.Err? ==> r == Lookup(Failure(StatusInternalServerError, "Failed to cache " + tag, NoCause), c, true))
              && (w.Ok? ==> r == Lookup(Success(Entities.ToJson(stored.value), []), w.value, true))
  {
    match Cache.GetCachedEntity(c, readKey, k, now, faults)
    case Ok(e) => Lookup(Success(Entities.ToJson(e), []), c, false)
    case Err(err) =>
      if err != Cache.Miss then Lookup(Failure(StatusInternalServerError, "Error getting " + tag + " from cache: ", CacheCause(err)), c, false)
      else
        match stored
        case None => Lookup(Failure(StatusNotFound, tag + " not found", NoCause), c, true)
        case Some(e) =>
          match Cache.CacheEntity(c, writeKey, e, now, faults)
          case Err(_) => Lookup(Failure(StatusInternalServerError, "Failed to cache " + tag, NoCause), c, true)
          case Ok(c') => Lookup(Success(Entities.ToJson(e), []), c', true)
  }

  /**
   * A failing cache write turns a store hit into a 500: the entity the
   * store has just returned is not sent to the client.
   */
  lemma CacheOutageHidesStoreHit(c: Cache.Store, readKey: string, writeKey: string, tag: string, k: Entities.Kind,
                                 now: int, e: Entities.Entity, faults: set<Fault>)
    requires Cache.Get(c, readKey, now).None? && CacheGetFails !in faults && CacheSetFails in faults
    ensures var r := ReadThrough(c, readKey, writeKey, tag, k, now, Some(e), faults);
            r.storeCalled && r.reply == Failure(StatusInternalServerError, "Failed to cache " + tag, NoCause)
  {
  }

  /**
   * `ReadThrough` with the cache kept as a side concern: an entity the
   * store returned is answered whether or not caching it succeeds.
   */
  function ReadThroughServes(c: Cache.Store, readKey: string, writeKey: string, tag: string, k: Entities.Kind,
                             now: int, stored: Option<Entities.Entity>, faults: set<Fault>): (r: Lookup)
    ensures r.storeCalled <==> Cache.GetCachedEntity(c, readKey, k, now, faults) == Err(Cache.Miss)
    ensures !r.storeCalled ==> r == ReadThrough(c, readKey, writeKey, tag, k, now, stored, faults)
    ensures r.storeCalled && stored.None? ==> r == Lookup(Failure(StatusNotFound, tag + " not found", NoCause), c, true)
    ensures r.storeCalled && stored.Some? ==>
              var w := Cache.CacheEntity(c, writeKey, stored.value, now, faults);
              r == Lookup(Success(Entities.ToJson(stored.value), []), if w.Ok? then w.value else c, true)
  {
    match Cache.GetCachedEntity(c, readKey, k, now, faults)
    case Ok(e) => Lookup(Success(Entities.ToJson(e), []), c, false)
    case Err(err) =>
      if err != Cache.Miss then Lookup(Failure(StatusInternalServerError, "Error getting " + tag + " from cache: ", CacheCause(err)), c, false)
      else
        match stored
        case None => Lookup(Failure(StatusNotFound, tag + " not found", NoCause), c, true)
        case Some(e) =>
          match Cache.CacheEntity(c, writeKey, e, now, faults)
          case Err(_) => Lookup(Success(Entities.ToJson(e), []), c, true)
          case Ok(c') => Lookup(Success(Entities.ToJson(e), []), c', true)
  }

  /**
   * With the correction a store hit is always answered with the entity,
   * and the reply is the one the written code gives when the cache is up:
   * the cache changes what is stored, never what the client is told.
   */
  lemma ServesStoreHit(c: Cache.Store, readKey: string, writeKey: string, tag: string, k: Entities.Kind,
                       now: int, e: Entities.Entity, faults: set<Fault>)
    requires Cache.GetCachedEntity(c, readKey, k, now, faults) == Err(Cache.Miss)
    ensures ReadThroughServes(c, readKey, writeKey, tag, k, now, Some(e), faults).reply == Success(Entities.ToJson(e), [])
    ensures ReadThroughServes(c, readKey, writeKey, tag, k, now, Some(e), faults).reply
            == ReadThrough(c, readKey, writeKey, tag, k, now, Some(e), faults - {CacheSetFails}).reply
  {
  }

  /**
   * `GetEntityById(w, r, entityType)` as written: the identifier is checked
   * before anything else, the cache is read under the canonical lower-case
   * hex of the identifier, and a store hit is cached under the path text as
   * it came.
   */
  function GetEntityById(c: Cache.Store, idText: string, tag: string, now: int, stored: Option<Entities.Entity>,
                         faults: set<Fault>): (r: Lookup)
    ensures ObjectIds.FromHex(idText).Err? ==> r == Lookup(Failure(StatusBadRequest, "Invalid entity ID", NoCause), c, false)
    ensures (ObjectIds.FromHex(idText).Ok? && Entities.KindOfTag(tag).None?) ==>
              r == Lookup(Failure(StatusBadRequest, "Invalid entity type", NoCause), c, false)
    ensures (ObjectIds.FromHex(idText).Ok? && Entities.KindOfTag(tag).Some?) ==>
              r == ReadThrough(c, Text.Lower(idText), idText, tag, Entities.KindOfTag(tag).value, now, stored, faults)
  {
    match ObjectIds.FromHex(idText)
    case Err(_) => Lookup(Failure(StatusBadRequest, "Invalid entity ID", NoCause), c, false)
    case Ok(id) =>
      match Entities.KindOfTag(tag)
      case None => Lookup(Failure(StatusBadRequest, "Invalid entity type", NoCause), c, false)
      case Some(k) => ReadThrough(c, ObjectIds.Hex(id), idText, tag, k, now, stored, faults)
  }

  /**
   * With an identifier written with an upper-case hex digit, the entity the
   * store returns is cached under a key no later read uses, so every
   * request for that identifier goes to the store again.
   */
  lemma UpperCaseIdNeverHits(c: Cache.Store, idText: string, tag: string, now: int, e: Entities.Entity,
                             faults: set<Fault>, later: int, stored': Option<Entities.Entity>, faults': set<Fault>)
    requires ObjectIds.FromHex(idText).Ok? && Text.Lower(idText) != idText && Entities.KindOfTag(tag).Some?
    requires Text.Lower(idText) !in c && CacheGetFails !in faults && CacheSetFails !in faults && CacheGetFails !in faults'
    ensures var first := GetEntityById(c, idText, tag, now, Some(e), faults);
            && first.storeCalled && first.reply == Success(Entities.ToJson(e), [])
            && GetEntityById(first.cache, idText, tag, later, stored', faults').storeCalled
  {
  }

  /**
   * `GetEntityById` corrected: the store hit is cached under the same
   * canonical key the cache is read with, and answered even when caching
   * it fails.
   */
  function GetEntityByIdFixed(c: Cache.Store, idText: string, tag: string, now: int, stored: Option<Entities.Entity>,
                              faults: set<Fault>): (r: Lookup)
    ensures ObjectIds.FromHex(idText).Err? ==> r == Lookup(Failure(StatusBadRequest, "Invalid entity ID", NoCause), c, false)
    ensures (ObjectIds.FromHex(idText).Ok? && Entities.KindOfTag(tag).None?) ==>
              r == Lookup(Failure(StatusBadRequest, "Invalid entity type", NoCause), c, false)
    ensures (ObjectIds.FromHex(idText).Ok? && Entities.KindOfTag(tag).Some?) ==>
              r == ReadThroughServes(c, Text.Lower(idText), Text.Lower(idText), tag, Entities.KindOfTag(tag).value, now, stored, faults)
  {
    match ObjectIds.FromHex(idText)
    case Err(_) => Lookup(Failure(StatusBadRequest, "Invalid entity ID", NoCause), c, false)
    case Ok(id) =>
      match Entities.KindOfTag(tag)
      case None => Lookup(Failure(StatusBadRequest, "Invalid entity type", NoCause), c, false)
      case Some(k) => ReadThroughServes(c, ObjectIds.Hex(id), ObjectIds.Hex(id), tag, k, now, stored, faults)
  }

  /**
   * With the fix, an entity fetched from the store is served from the
   * cache for the next hour, whichever spelling of the identifier is used,
   * without asking the store, and with the same reply.
   */
  lemma FixedSecondReadHits(c: Cache.Store, idText: string, tag: string, now: int, e: Entities.Entity, faults: set<Fault>,
                            idText': string, later: int, stored': Option<Entities.Entity>, faults': set<Fault>)
    requires ObjectIds.FromHex(idText).Ok? && Entities.KindOfTag(tag) == Some(e.KindOf())
    requires GetEntityByIdFixed(c, idText, tag, now, Some(e), faults).storeCalled
    requires GetEntityByIdFixed(c, idText, tag, now, Some(e), faults).reply.Success? && CacheSetFails !in faults
    requires ObjectIds.FromHex(idText') == ObjectIds.FromHex(idText)
    requires now <= later < now + Cache.Ttl && CacheGetFails !in faults'
    ensures var first := GetEntityByIdFixed(c, idText, tag, now, Some(e), faults);
            var second := GetEntityByIdFixed(first.cache, idText', tag, later, stored', faults');
            !second.storeCalled && second.reply == first.reply
  {
    var key := ObjectIds.Hex(ObjectIds.FromHex(idText).value);
    Cache.CacheThenGet(c, key, e, now, faults, later, faults');
    Entities.ToJsonHidesRefreshToken(e, "");
  }

  /**
   * `getUserIDFromContext(ctx)`: the identifier in the claims the gate
   * stored, or an error when the context holds no claims pointer or a nil
   * one. The hex round trip in between never fails.
   */
  function GetUserIdFromContext(ctx: Middleware.Context): (r: Result<ObjectIds.ObjectId, string>)
    ensures r.Ok? <==> Middleware.ClaimsKey in ctx && ctx[Middleware.ClaimsKey].ClaimsPtr?
                       && ctx[Middleware.ClaimsKey].claims.Some?
    ensures r.Ok? ==> r.value == ctx[Middleware.ClaimsKey].claims.value.userId
    ensures r.Err? ==> r.error == "no user claims found in context"
  {
    if Middleware.ClaimsKey in ctx && ctx[Middleware.ClaimsKey].ClaimsPtr? && ctx[Middleware.ClaimsKey].claims.Some? then
      var userId := ctx[Middleware.ClaimsKey].claims.value.userId;
      ObjectIds.FromHexOfHex(userId);
      match ObjectIds.FromHex(ObjectIds.Hex(userId))
      case Ok(id) => Ok(id)
      case Err(_) => Err("invalid user ID")
    else Err("no user claims found in context")
  }

  /** Behind the gate, the handler reads the identifier of the token the request carried. */
  lemma GateThenUserId(secretKey: string, authorization: string, ctx: Middleware.Context, now: int)
    requires Middleware.AuthMiddleware(secretKey, authorization, ctx, now).Next?
    ensures GetUserIdFromContext(Middleware.AuthMiddleware(secretKey, authorization, ctx, now).ctx)
              == Ok(Jwt.ValidateToken(Middleware.ExtractToken(authorization), secretKey, now).value.userId)
  {
  }
}
