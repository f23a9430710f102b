/**
 * The entity interface both account models implement (`GetEmail`,
 * `GetPassword`, `GetID`, `GetRoles`, `GetCollectionName`,
 * `GetCustomData`), the dispatch on the kind tag that the services and
 * handlers repeat, and the serialised forms of either kind.
 */
module Entities {
  import opened Results
  import ObjectIds
  import DocStore
  import Json
  import Binding
  import Users
  import Restaurants

  /** Which model a value of the interface holds. */
  datatype Kind = UserKind | RestaurantKind

  datatype Entity =
    | UserEntity(user: Users.User)
    | RestaurantEntity(restaurant: Restaurants.Restaurant)
  {
    function KindOf(): Kind
    {
      if UserEntity? then UserKind else RestaurantKind
    }

    /** `GetEmail()`. */
    function Email(): string
    {
      if UserEntity? then user.email else restaurant.email
    }

    /** `GetPassword()`. */
    function Password(): string
    {
      if UserEntity? then user.password else restaurant.password
    }

    /** `GetID()`. */
    function Id(): ObjectIds.ObjectId
    {
      if UserEntity? then user.id else restaurant.id
    }

    /** `GetRoles()`. */
    function Roles(): string
    {
      if UserEntity? then user.roles else restaurant.roles
    }

    /** The refresh token field (not part of the interface; read by the model's lemmas only). */
    function RefreshToken(): string
    {
      if UserEntity? then user.refreshToken else restaurant.refreshToken
    }

    /** `GetCollectionName()`. */
    function CollectionName(): string
    {
      if UserEntity? then Users.CollectionName else Restaurants.CollectionName
    }

    /** `GetCustomData()`. */
    function CustomData(): DocStore.Doc
    {
      if UserEntity? then Users.CustomData(user) else Restaurants.CustomData(restaurant)
    }

    function WithRefreshToken(token: string): (e: Entity)
      ensures e.KindOf() == KindOf()
    {
      if UserEntity? then UserEntity(user.(refreshToken := token))
      else RestaurantEntity(restaurant.(refreshToken := token))
    }
  }

  /** The partition each kind lives in. */
  function CollectionOf(k: Kind): string
  {
    match k
    case UserKind => Users.CollectionName
    case RestaurantKind => Restaurants.CollectionName
  }

  /** The kind tag of a route: "users" or "restaurants"; anything else is not a kind. */
  function KindOfTag(tag: string): (r: Option<Kind>)
    ensures r.Some? <==> tag == "users" || tag == "restaurants"
    ensures r.Some? ==> CollectionOf(r.value) == tag
  {
    if tag == "users" then Some(UserKind)
    else if tag == "restaurants" then Some(RestaurantKind)
    else None
  }

  /** Every kind is named by exactly one tag: its partition name. */
  lemma KindOfTagCollection(k: Kind)
    ensures KindOfTag(CollectionOf(k)) == Some(k)
  {
  }

  /**
   * `GetCollectionName()` is the fixed partition of the model's kind:
   * always "users" for a user and "restaurants" for a restaurant, whatever
   * the field values.
   */
  lemma CollectionNameFixed(e: Entity)
    ensures e.CollectionName() == CollectionOf(e.KindOf())
    ensures e.UserEntity? ==> e.CollectionName() == "users"
    ensures e.RestaurantEntity? ==> e.CollectionName() == "restaurants"
  {
  }

  /**
   * The insert document agrees with the accessors: its email, password and
   * roles are what `GetEmail`, `GetPassword` (unhashed) and `GetRoles`
   * return, and it carries neither an identifier nor a refresh token.
   */
  lemma CustomDataAgrees(e: Entity)
    ensures "email" in e.CustomData() && e.CustomData()["email"] == DocStore.BStr(e.Email())
    ensures "password" in e.CustomData() && e.CustomData()["password"] == DocStore.BStr(e.Password())
    ensures "roles" in e.CustomData() && e.CustomData()["roles"] == DocStore.BStr(e.Roles())
    ensures "_id" !in e.CustomData() && "refreshToken" !in e.CustomData() && "refreshtoken" !in e.CustomData()
  {
    if e.UserEntity? {
      Users.CustomDataValues(e.user);
      Users.CustomDataExcludes(e.user);
    } else {
      Restaurants.CustomDataValues(e.restaurant);
      Restaurants.CustomDataExcludes(e.restaurant);
    }
  }

  /**
   * The entity a stored `GetCustomData()` document reads back as: the
   * entity with the given password and identifier, and the fields the
   * document leaves out (refresh token, favourites, opening hours) at their
   * zero values.
   */
  function Inserted(e: Entity, password: string, id: ObjectIds.ObjectId): (r: Entity)
    ensures r.KindOf() == e.KindOf() && r.Id() == id && r.Password() == password
    ensures r.Email() == e.Email() && r.Roles() == e.Roles() && r.RefreshToken() == ""
  {
    if e.UserEntity? then UserEntity(e.user.(id := id, password := password, refreshToken := "", favorites := []))
    else RestaurantEntity(e.restaurant.(id := id, password := password, hours := "", refreshToken := ""))
  }

  /** The insert document, with a password and the driver's identifier put in, decodes to `Inserted`. */
  lemma FromCustomData(e: Entity, password: string, id: ObjectIds.ObjectId)
    ensures FromBson(e.KindOf(), e.CustomData()["password" := DocStore.BStr(password)]["_id" := DocStore.BOid(id)])
            == Ok(Inserted(e, password, id))
  {
    if e.UserEntity? {
      Users.FromCustomData(e.user, password, id);
    } else {
      Restaurants.FromCustomData(e.restaurant, password, id);
    }
  }

  /** `new(models.User)` / `new(models.Restaurant)`. */
  function New(k: Kind): (e: Entity)
    ensures e.KindOf() == k
  {
    match k
    case UserKind => UserEntity(Users.Empty)
    case RestaurantKind => RestaurantEntity(Restaurants.Empty)
  }

  /** `json.Marshal(entity)`. */
  function ToJson(e: Entity): Json.Json
  {
    if e.UserEntity? then Users.ToJson(e.user) else Restaurants.ToJson(e.restaurant)
  }

  /** `json.Unmarshal` into `New(k)`. */
  function FromJson(k: Kind, j: Json.Json): (r: Result<Entity, Binding.DecodeError>)
    ensures r.Ok? ==> r.value.KindOf() == k
    ensures j.JNull? ==> r == Ok(New(k))
  {
    match k
    case UserKind =>
      (match Users.FromJson(j)
       case Ok(u) => Ok(UserEntity(u))
       case Err(e) => Err(e))
    case RestaurantKind =>
      (match Restaurants.FromJson(j)
       case Ok(r) => Ok(RestaurantEntity(r))
       case Err(e) => Err(e))
  }

  /** The document the driver writes for the struct. */
  function ToBson(e: Entity): DocStore.Doc
  {
    if e.UserEntity? then Users.ToBson(e.user) else Restaurants.ToBson(e.restaurant)
  }

  /** `FindOne(...).Decode(New(k))`. */
  function FromBson(k: Kind, d: DocStore.Doc): (r: Result<Entity, Binding.DecodeError>)
    ensures r.Ok? ==> r.value.KindOf() == k
  {
    match k
    case UserKind =>
      (match Users.FromBson(d)
       case Ok(u) => Ok(UserEntity(u))
       case Err(e) => Err(e))
    case RestaurantKind =>
      (match Restaurants.FromBson(d)
       case Ok(r) => Ok(RestaurantEntity(r))
       case Err(e) => Err(e))
  }

  /** An entity written as JSON reads back as itself without its refresh token. */
  lemma FromToJson(e: Entity)
    ensures FromJson(e.KindOf(), ToJson(e)) == Ok(e.WithRefreshToken(""))
  {
    if e.UserEntity? { Users.FromToJson(e.user); } else { Restaurants.FromToJson(e.restaurant); }
  }

  /** The JSON form never shows the refresh token. */
  lemma ToJsonHidesRefreshToken(e: Entity, token: string)
    ensures ToJson(e.WithRefreshToken(token)) == ToJson(e)
  {
    if e.UserEntity? {
      Users.ToJsonHidesRefreshToken(e.user, token);
    } else {
      Restaurants.ToJsonHidesRefreshToken(e.restaurant, token);
    }
  }

  /** An entity stored by the driver reads back unchanged. */
  lemma FromToBson(e: Entity)
    ensures FromBson(e.KindOf(), ToBson(e)) == Ok(e)
  {
    if e.UserEntity? { Users.FromToBson(e.user); } else { Restaurants.FromToBson(e.restaurant); }
  }

  /** After the services' `$set` of `refreshToken`, the stored entity reads back with that token and nothing else changed. */
  lemma FromBsonAfterTokenSet(k: Kind, d: DocStore.Doc, token: string)
    requires FromBson(k, d).Ok?
    ensures FromBson(k, d["refreshToken" := DocStore.BStr(token)]) == Ok(FromBson(k, d).value.WithRefreshToken(token))
  {
    match k
    case UserKind => Users.FromBsonAfterTokenSet(d, token);
    case RestaurantKind => Restaurants.FromBsonAfterTokenSet(d, token);
  }
}
