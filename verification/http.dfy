/**
 * What the handlers hand back to `net/http`: an error reply written with
 * `http.Error`, a JSON body with any cookies set before it, or nothing at
 * all because the handler goroutine panicked or the process exited.
 * Writing to the connection is not modelled.
 */
module Http {
  import opened Results
  import Json
  import Entities
  import EntityService
  import Cache

  const StatusBadRequest: int := 400
  const StatusUnauthorized: int := 401
  const StatusNotFound: int := 404
  const StatusInternalServerError: int := 500

  datatype SameSite = SameSiteDefault | SameSiteLax | SameSiteStrict | SameSiteNone

  /** An `http.Cookie`; `expires` is in seconds, on the same clock as the token claims. */
  datatype Cookie = Cookie(name: string, value: string, expires: int, httpOnly: bool, secure: bool,
                           path: string, sameSite: SameSite)

  /** The error whose text an error reply carries after its fixed message. */
  datatype Cause =
    | NoCause
    | ServiceCause(serviceError: EntityService.AuthError)
    | CacheCause(cacheError: Cache.CacheError)

  datatype Reply =
    | Failure(status: int, message: string, cause: Cause)
    | Success(body: Json.Json, cookies: seq<Cookie>)
    | Aborted

  /**
   * `json.NewDecoder(r.Body).Decode(new(kind))`: the first JSON value of the
   * body, decoded into a new entity of that kind. Text after the first
   * value is not read; an empty or broken body, or a field of the wrong
   * type, is an error.
   */
  function DecodeEntity(k: Entities.Kind, body: string): (r: Option<Entities.Entity>)
    ensures r.Some? ==> r.value.KindOf() == k
    ensures r.Some? <==> Json.DecodeFirst(body).Some? && Entities.FromJson(k, Json.DecodeFirst(body).value).Ok?
  {
    match Json.DecodeFirst(body)
    case None => None
    case Some(j) =>
      match Entities.FromJson(k, j)
      case Err(_) => None
      case Ok(e) => Some(e)
  }

  /** A body holding an entity's JSON decodes to that entity, less its refresh token, whatever follows the value. */
  lemma DecodeEntityOfJson(e: Entities.Entity, rest: string)
    requires Json.Delimits(rest)
    ensures DecodeEntity(e.KindOf(), Json.Print(Entities.ToJson(e)) + rest) == Some(e.WithRefreshToken(""))
  {
    Json.DecodeFirstPrint(Entities.ToJson(e), rest);
    Entities.FromToJson(e);
  }
}
