/**
 * The key-value cache in front of the entity reads (internal/services/redis.go).
 * The cache maps a key to a string value and the time at which the key
 * expires; a key is visible strictly before that time. Values are the JSON
 * text of an entity.
 */
module Cache {
  import opened Results
  import opened Faults
  import Json
  import Binding
  import Entities

  datatype Entry = Entry(value: string, expiresAt: int)

  type Store = map<string, Entry>

  /** One hour, in seconds. */
  const Ttl: int := 60 * 60

  datatype CacheError =
    | Miss                     // `redis.Nil`: no visible value under the key
    | Backend                  // any other error of the cache server
    | NoData(key: string)      // "no data in cache for entity: <key>"
    | Syntax                   // the cached text is not JSON
    | Undecodable(cause: Binding.DecodeError)

  /** The value under `key` at time `now`, if the key exists and has not expired. */
  function Get(c: Store, key: string, now: int): Option<string>
  {
    if key in c && now < c[key].expiresAt then Some(c[key].value) else None
  }

  /**
   * `CacheEntity(entityID, entity)`: the entity's JSON under `entityID` for
   * one hour. `json.Marshal` cannot fail on the modelled structs; a failing
   * SET is returned as an error and leaves the cache as it was.
   */
  function CacheEntity(c: Store, key: string, e: Entities.Entity, now: int, faults: set<Fault>): (r: Result<Store, CacheError>)
    ensures CacheSetFails in faults <==> r == Err(Backend)
    ensures r.Ok? ==> Get(r.value, key, now) == Some(Json.Print(Entities.ToJson(e)))
    ensures r.Ok? ==> forall k | k != key :: Get(r.value, k, now) == Get(c, k, now)
  {
    if CacheSetFails in faults then Err(Backend)
    else Ok(c[key := Entry(Json.Print(Entities.ToJson(e)), now + Ttl)])
  }

  /**
   * `GetCachedEntity(entityID, &entity)` with `entity` a new value of kind
   * `k`: a miss is reported as `Miss` itself, other backend errors as they
   * come, an empty value as `NoData`; otherwise the text is decoded into the
   * new value (a JSON `null` leaves it as it was).
   */
  function GetCachedEntity(c: Store, key: string, k: Entities.Kind, now: int, faults: set<Fault>): (r: Result<Entities.Entity, CacheError>)
    ensures r == Err(Miss) <==> CacheGetFails !in faults && Get(c, key, now).None?
    ensures CacheGetFails in faults ==> r == Err(Backend)
    ensures r.Ok? ==> r.value.KindOf() == k && Get(c, key, now).Some?
    ensures CacheGetFails !in faults && Get(c, key, now) == Some("") ==> r == Err(NoData(key))
  {
    if CacheGetFails in faults then Err(Backend)
    else
      match Get(c, key, now)
      case None => Err(Miss)
      case Some(text) =>
        if text == "" then Err(NoData(key))
        else
          match Json.Unmarshal(text)
          case None => Err(Syntax)
          case Some(j) =>
            match Entities.FromJson(k, j)
            case Err(e) => Err(Undecodable(e))
            case Ok(e) => Ok(e)
  }

  /**
   * An entity cached and read back under the same key within the hour, and
   * with the cache answering, is the same entity except for its refresh
   * token, which its JSON form does not carry.
   */
  lemma CacheThenGet(c: Store, key: string, e: Entities.Entity, now: int, faults: set<Fault>, later: int, faults': set<Fault>)
    requires CacheEntity(c, key, e, now, faults).Ok?
    requires now <= later < now + Ttl && CacheGetFails !in faults'
    ensures GetCachedEntity(CacheEntity(c, key, e, now, faults).value, key, e.KindOf(), later, faults') ==
              Ok(e.WithRefreshToken(""))
  {
    Json.UnmarshalPrint(Entities.ToJson(e));
    Json.PrintStart(Entities.ToJson(e));
    Entities.FromToJson(e);
  }

  /** Once the hour is over the entry is a miss. */
  lemma CacheExpires(c: Store, key: string, e: Entities.Entity, now: int, faults: set<Fault>, later: int, k: Entities.Kind, faults': set<Fault>)
    requires CacheEntity(c, key, e, now, faults).Ok?
    requires later >= now + Ttl && CacheGetFails !in faults'
    ensures GetCachedEntity(CacheEntity(c, key, e, now, faults).value, key, k, later, faults') == Err(Miss)
  {
  }
}
