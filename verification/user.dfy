/**
 * The `User` model: its fields, the accessors behind the entity interface,
 * the partition it lives in, the insert document `GetCustomData` builds, how
 * it is written as JSON and as a stored document, and the constraints its
 * `validate` tags state. The nested `PaymentMethods` and `Orders` slices are
 * carried only as placeholders (see `Binding.KNested`).
 */
module Users {
  import opened Results
  import ObjectIds
  import Text
  import opened Binding
  import opened Tags
  import DocStore
  import Json

  datatype User = User(
    id: ObjectIds.ObjectId,
    email: string,
    password: string,
    surname: string,
    name: string,
    age: Int64,
    phone: string,
    interests: string,
    description: string,
    avatar: string,
    banned: bool,
    banReason: string,
    roles: string,
    refreshToken: string,
    favorites: seq<ObjectIds.ObjectId>)

  /** `models.User{}`. */
  const Empty: User := User(ObjectIds.NilObjectId, "", "", "", "", 0, "", "", "", "", false, "", "", "", [])

  /** `GetCollectionName()`. */
  const CollectionName: string := "users"

  /**
   * `GetCustomData()`: the document `Register` inserts, keyed by the BSON
   * names of twelve fields, with the password still in plain text.
   */
  function CustomData(u: User): DocStore.Doc
  {
    map[
      "email" := DocStore.BStr(u.email),
      "password" := DocStore.BStr(u.password),
      "surname" := DocStore.BStr(u.surname),
      "name" := DocStore.BStr(u.name),
      "age" := DocStore.BInt(u.age),
      "phone" := DocStore.BStr(u.phone),
      "interests" := DocStore.BStr(u.interests),
      "description" := DocStore.BStr(u.description),
      "avatar" := DocStore.BStr(u.avatar),
      "banned" := DocStore.BBool(u.banned),
      "banReason" := DocStore.BStr(u.banReason),
      "roles" := DocStore.BStr(u.roles)
    ]
  }

  const CustomKeys: set<string> := {"email", "password", "surname", "name", "age", "phone", "interests",
                                    "description", "avatar", "banned", "banReason", "roles"}

  /** The insert document has exactly the twelve profile keys: no identifier, refresh token, favourites, payment methods or orders. */
  lemma CustomDataKeys(u: User)
    ensures CustomData(u).Keys == CustomKeys
  {
  }

  /** The insert document carries the email, the unhashed password and the roles as given. */
  lemma CustomDataValues(u: User)
    ensures "email" in CustomData(u) && CustomData(u)["email"] == DocStore.BStr(u.email)
    ensures "password" in CustomData(u) && CustomData(u)["password"] == DocStore.BStr(u.password)
    ensures "roles" in CustomData(u) && CustomData(u)["roles"] == DocStore.BStr(u.roles)
  {
  }

  /** The insert document has no identifier and no refresh token (under either spelling). */
  lemma CustomDataExcludes(u: User)
    ensures "_id" !in CustomData(u) && "refreshToken" !in CustomData(u) && "refreshtoken" !in CustomData(u)
  {
  }

  // ---------------------------------------------------------------- JSON

  /** The JSON names: the `json` tags, `ID` for the untagged identifier; `RefreshToken` is `json:"-"`. */
  const JsonSchema: Schema := [
    Field("ID", KOid, false, None),
    Field("email", KStr, false, None),
    Field("password", KStr, false, None),
    Field("surname", KStr, false, None),
    Field("name", KStr, false, None),
    Field("age", KInt, false, None),
    Field("phone", KStr, false, None),
    Field("interests", KStr, false, None),
    Field("description", KStr, false, None),
    Field("avatar", KStr, false, None),
    Field("banned", KBool, false, None),
    Field("ban_reason", KStr, false, None),
    Field("roles", KStr, false, None),
    Field("favorites", KOids, false, None),
    Field("payment_methods", KNested, false, None),
    Field("orders", KNested, false, None)
  ]

  function JsonVals(u: User): (vals: seq<Val>)
    ensures Conforms(JsonSchema, vals)
  {
    [VOid(u.id), VStr(u.email), VStr(u.password), VStr(u.surname), VStr(u.name), VInt(u.age),
     VStr(u.phone), VStr(u.interests), VStr(u.description), VStr(u.avatar), VBool(u.banned),
     VStr(u.banReason), VStr(u.roles), VOids(u.favorites), VNested, VNested]
  }

  function OfJsonVals(vals: seq<Val>): User
    requires |vals| == |JsonSchema|
  {
    User(vals[0].Oid(), vals[1].Str(), vals[2].Str(), vals[3].Str(), vals[4].Str(), vals[5].Int(), vals[6].Str(), vals[7].Str(),
         vals[8].Str(), vals[9].Str(), vals[10].Bool(), vals[11].Str(), vals[12].Str(), "", vals[13].Oids())
  }

  /** `json.Marshal(user)`. */
  function ToJson(u: User): Json.Json
  {
    Encode(JsonSchema, JsonVals(u))
  }

  /** `json.Unmarshal` into `new(models.User)`. */
  function FromJson(j: Json.Json): (r: Result<User, DecodeError>)
    ensures j.JNull? ==> r == Ok(Empty)
  {
    match Decode(JsonSchema, j)
    case Ok(vals) => Ok(OfJsonVals(vals))
    case Err(e) => Err(e)
  }

  const JsonNames: seq<string> := ["ID", "email", "password", "surname", "name", "age", "phone", "interests",
    "description", "avatar", "banned", "ban_reason", "roles", "favorites", "payment_methods", "orders"]

  lemma JsonSchemaFoldDistinct()
    ensures FoldDistinct(JsonSchema)
  {
    JsonNamesOf();
    JsonNamesLowered();
    JsonLoweredDistinct();
    FoldDistinctByLowered(JsonSchema, JsonNames, JsonLowered);
  }

  /** A body key spelled with U+017F (long s) in place of 's' still fills the password. */
  lemma LongSSelectsPassword()
    ensures FieldIndex(JsonSchema, "pa\U{017F}sword") == Some(2)
  {
    JsonSchemaFoldDistinct();
    JsonNamesOf();
    assert Text.Fold("pa\U{017F}sword") == Text.Fold(JsonNames[2]);
    FieldIndexFolded(JsonSchema, "pa\U{017F}sword", 2);
  }

  const JsonLowered: seq<string> := ["id", "email", "password", "surname", "name", "age", "phone", "interests",
    "description", "avatar", "banned", "ban_reason", "roles", "favorites", "payment_methods", "orders"]

  lemma JsonNamesOf()
    ensures |JsonSchema| == |JsonNames| == |JsonLowered|
    ensures forall i | 0 <= i < |JsonSchema| :: JsonSchema[i].name == JsonNames[i]
  {
  }

  lemma JsonNamesLowered()
    ensures forall i | 0 <= i < |JsonNames| :: Text.Fold(JsonNames[i]) == JsonLowered[i]
  {
    JsonNamesLoweredHead();
    JsonNamesLoweredTail();
  }

  lemma JsonNamesLoweredHead()
    ensures forall i | 0 <= i < 10 :: Text.Fold(JsonNames[i]) == JsonLowered[i]
  {
  }

  lemma JsonNamesLoweredTail()
    ensures forall i | 10 <= i < |JsonNames| :: Text.Fold(JsonNames[i]) == JsonLowered[i]
  {
  }

  lemma JsonLoweredDistinct()
    ensures forall i, j | 0 <= i < j < |JsonLowered| :: JsonLowered[i] != JsonLowered[j]
  {
  }

  /** A user written as JSON reads back as the same user, except that the refresh token is not carried. */
  lemma FromToJson(u: User)
    ensures FromJson(ToJson(u)) == Ok(u.(refreshToken := ""))
  {
    JsonSchemaFoldDistinct();
    DecodeEncode(JsonSchema, JsonVals(u));
    OfJsonValsOf(u);
  }

  lemma OfJsonValsOf(u: User)
    ensures OfJsonVals(JsonVals(u)) == u.(refreshToken := "")
  {
  }

  /** The JSON form does not depend on the refresh token. */
  lemma ToJsonHidesRefreshToken(u: User, token: string)
    ensures ToJson(u.(refreshToken := token)) == ToJson(u)
  {
  }

  // ---------------------------------------------------------------- BSON

  /**
   * The BSON names: the `bson` tags, and for the untagged `RefreshToken` the
   * lower-cased field name, which the driver also reaches from the
   * `refreshToken` key the services `$set`.
   */
  const BsonSchema: Schema := [
    Field("_id", KOid, true, None),
    Field("email", KStr, false, None),
    Field("password", KStr, false, None),
    Field("surname", KStr, false, None),
    Field("name", KStr, false, None),
    Field("age", KInt, false, None),
    Field("phone", KStr, false, None),
    Field("interests", KStr, false, None),
    Field("description", KStr, false, None),
    Field("avatar", KStr, false, None),
    Field("banned", KBool, true, None),
    Field("banReason", KStr, true, None),
    Field("roles", KStr, true, None),
    Field("refreshtoken", KStr, false, Some("refreshToken")),
    Field("favorites", KOids, true, None),
    Field("payment_methods", KNested, false, None),
    Field("orders", KNested, false, None)
  ]

  function BsonVals(u: User): (vals: seq<Val>)
    ensures Conforms(BsonSchema, vals)
  {
    [VOid(u.id), VStr(u.email), VStr(u.password), VStr(u.surname), VStr(u.name), VInt(u.age),
     VStr(u.phone), VStr(u.interests), VStr(u.description), VStr(u.avatar), VBool(u.banned),
     VStr(u.banReason), VStr(u.roles), VStr(u.refreshToken), VOids(u.favorites), VNested, VNested]
  }

  function OfBsonVals(vals: seq<Val>): User
    requires |vals| == |BsonSchema|
  {
    User(vals[0].Oid(), vals[1].Str(), vals[2].Str(), vals[3].Str(), vals[4].Str(), vals[5].Int(), vals[6].Str(), vals[7].Str(),
         vals[8].Str(), vals[9].Str(), vals[10].Bool(), vals[11].Str(), vals[12].Str(), vals[13].Str(), vals[14].Oids())
  }

  const BsonNames: seq<string> := ["_id", "email", "password", "surname", "name", "age", "phone", "interests",
      "description", "avatar", "banned", "banReason", "roles", "refreshtoken", "favorites", "payment_methods", "orders"]

  lemma BsonNamesOf()
    ensures |BsonSchema| == |BsonNames|
    ensures forall i | 0 <= i < |BsonSchema| :: BsonSchema[i].name == BsonNames[i]
  {
  }

  lemma BsonNamesDistinct()
    ensures forall i, j | 0 <= i < j < |BsonNames| :: BsonNames[i] != BsonNames[j]
  {
  }

  lemma BsonAliasesFree()
    ensures forall i | 0 <= i < |BsonSchema| && BsonSchema[i].alias.Some? :: BsonSchema[i].alias.value !in BsonNames
  {
  }

  lemma BsonSchemaKeysDistinct()
    ensures KeysDistinct(BsonSchema)
  {
    BsonNamesOf();
    BsonNamesDistinct();
    BsonAliasesFree();
    KeysDistinctByNames(BsonSchema, BsonNames);
  }

  /** The document the driver writes for the struct (`InsertOne(ctx, user)`, `$set: user`). */
  function ToBson(u: User): DocStore.Doc
  {
    BsonSchemaKeysDistinct();
    ToDoc(BsonSchema, BsonVals(u))
  }

  /** Setting the identifier of a user adds `_id` to its document and changes nothing else. */
  lemma ToBsonWithId(u: User, id: ObjectIds.ObjectId)
    requires id != ObjectIds.NilObjectId
    ensures ToBson(u.(id := id)) == ToBson(u)["_id" := DocStore.BOid(id)]
  {
    BsonSchemaKeysDistinct();
    assert BsonVals(u.(id := id)) == BsonVals(u)[0 := VOid(id)];
    ToDocSetFirst(BsonSchema, BsonVals(u), VOid(id));
  }

  /** The stored document carries the identifier only when it is set, and the email and password as they are in the struct. */
  lemma ToBsonFields(u: User)
    ensures "_id" in ToBson(u) <==> u.id != ObjectIds.NilObjectId
    ensures "_id" in ToBson(u) ==> ToBson(u)["_id"] == DocStore.BOid(u.id)
    ensures "email" in ToBson(u) && ToBson(u)["email"] == DocStore.BStr(u.email)
    ensures "password" in ToBson(u) && ToBson(u)["password"] == DocStore.BStr(u.password)
  {
    BsonHead();
    BsonValsHead(u);
    ToBsonField(u, 0, "_id", VOid(u.id));
    ToBsonField(u, 1, "email", VStr(u.email));
    ToBsonField(u, 2, "password", VStr(u.password));
  }

  lemma BsonHead()
    ensures && BsonSchema[0] == Field("_id", KOid, true, None)
            && BsonSchema[1] == Field("email", KStr, false, None)
            && BsonSchema[2] == Field("password", KStr, false, None)
  {
  }

  lemma BsonValsHead(u: User)
    ensures BsonVals(u)[0] == VOid(u.id) && BsonVals(u)[1] == VStr(u.email) && BsonVals(u)[2] == VStr(u.password)
  {
  }

  /** Field `i` of the stored document: present unless omitted, and then holding the struct's value. */
  lemma ToBsonField(u: User, i: nat, name: string, v: Val)
    requires i < |BsonSchema| && BsonSchema[i].name == name && BsonVals(u)[i] == v
    ensures name in ToBson(u) <==> !Omitted(BsonSchema[i], v)
    ensures name in ToBson(u) ==> ToBson(u)[name] == ValBson(v)
  {
    BsonSchemaKeysDistinct();
    ToDocField(BsonSchema, BsonVals(u), i);
  }

  /** `FindOne(...).Decode(&user)`. */
  function FromBson(d: DocStore.Doc): Result<User, DecodeError>
  {
    match FromDoc(BsonSchema, d)
    case Ok(vals) => Ok(OfBsonVals(vals))
    case Err(e) => Err(e)
  }

  lemma OfBsonValsOf(u: User)
    ensures OfBsonVals(BsonVals(u)) == u
  {
  }

  /** A user stored by the driver reads back unchanged. */
  lemma FromToBson(u: User)
    ensures FromBson(ToBson(u)) == Ok(u)
  {
    BsonSchemaKeysDistinct();
    FromToDoc(BsonSchema, BsonVals(u));
    OfBsonValsOf(u);
  }

  /** `GetCustomData()` with the password replaced and the identifier the driver assigns. */
  function CustomDoc(u: User, password: string, id: ObjectIds.ObjectId): DocStore.Doc
  {
    CustomData(u)["password" := DocStore.BStr(password)]["_id" := DocStore.BOid(id)]
  }

  /**
   * The document `EntityService.Register` inserts, `GetCustomData()` with
   * the password replaced and the identifier the driver assigns, decodes to
   * the user with that password and identifier, and with the fields the
   * document lacks at their zero values.
   */
  lemma FromCustomData(u: User, password: string, id: ObjectIds.ObjectId)
    ensures FromBson(CustomDoc(u, password, id)) == Ok(u.(id := id, password := password, refreshToken := "", favorites := []))
  {
    var stored := u.(id := id, password := password, refreshToken := "", favorites := []);
    CustomFields0(u, password, id);
    CustomFields1(u, password, id);
    CustomFields2(u, password, id);
    CustomFields3(u, password, id);
    FromDocOfFields(BsonSchema, CustomDoc(u, password, id), BsonVals(stored));
    OfBsonValsOf(stored);
  }

  /** The keys "_id", "email", "password", "surname" of that document. */
  lemma CustomKeys0(u: User, password: string, id: ObjectIds.ObjectId)
    ensures "_id" in CustomDoc(u, password, id) && CustomDoc(u, password, id)["_id"] == DocStore.BOid(id)
    ensures "email" in CustomDoc(u, password, id) && CustomDoc(u, password, id)["email"] == DocStore.BStr(u.email)
    ensures "password" in CustomDoc(u, password, id) && CustomDoc(u, password, id)["password"] == DocStore.BStr(password)
    ensures "surname" in CustomDoc(u, password, id) && CustomDoc(u, password, id)["surname"] == DocStore.BStr(u.surname)
  {
  }

  lemma BsonSchemaAt0()
    ensures BsonSchema[0] == Field("_id", KOid, true, None)
    ensures BsonSchema[1] == Field("email", KStr, false, None)
    ensures BsonSchema[2] == Field("password", KStr, false, None)
    ensures BsonSchema[3] == Field("surname", KStr, false, None)
  {
  }

  lemma BsonValsAt0(u: User)
    ensures BsonVals(u)[0] == VOid(u.id)
    ensures BsonVals(u)[1] == VStr(u.email)
    ensures BsonVals(u)[2] == VStr(u.password)
    ensures BsonVals(u)[3] == VStr(u.surname)
  {
  }

  /** Fields 0 to 3 decode to the stored values. */
  lemma CustomFields0(u: User, password: string, id: ObjectIds.ObjectId)
    ensures forall i | 0 <= i < 4 ::
              DecodeField(CustomDoc(u, password, id), BsonSchema[i]) == Ok(BsonVals(u.(id := id, password := password, refreshToken := "", favorites := []))[i])
  {
    var d := CustomDoc(u, password, id);
    var stored := u.(id := id, password := password, refreshToken := "", favorites := []);
    CustomKeys0(u, password, id);
    BsonSchemaAt0();
    BsonValsAt0(stored);
    DecodePresent(d, BsonSchema[0], BsonVals(stored)[0]);
    DecodePresent(d, BsonSchema[1], BsonVals(stored)[1]);
    DecodePresent(d, BsonSchema[2], BsonVals(stored)[2]);
    DecodePresent(d, BsonSchema[3], BsonVals(stored)[3]);
    forall i | 0 <= i < 4
      ensures DecodeField(d, BsonSchema[i]) == Ok(BsonVals(stored)[i])
    {
      if i == 0 {
      } else if i == 1 {
      } else if i == 2 {
      } else {
        assert i == 3;
      }
    }
  }

  /** The keys "name", "age", "phone", "interests" of that document. */
  lemma CustomKeys1(u: User, password: string, id: ObjectIds.ObjectId)
    ensures "name" in CustomDoc(u, password, id) && CustomDoc(u, password, id)["name"] == DocStore.BStr(u.name)
    ensures "age" in CustomDoc(u, password, id) && CustomDoc(u, password, id)["age"] == DocStore.BInt(u.age)
    ensures "phone" in CustomDoc(u, password, id) && CustomDoc(u, password, id)["phone"] == DocStore.BStr(u.phone)
    ensures "interests" in CustomDoc(u, password, id) && CustomDoc(u, password, id)["interests"] == DocStore.BStr(u.interests)
  {
  }

  lemma BsonSchemaAt1()
    ensures BsonSchema[4] == Field("name", KStr, false, None)
    ensures BsonSchema[5] == Field("age", KInt, false, None)
    ensures BsonSchema[6] == Field("phone", KStr, false, None)
    ensures BsonSchema[7] == Field("interests", KStr, false, None)
  {
  }

  lemma BsonValsAt1(u: User)
    ensures BsonVals(u)[4] == VStr(u.name)
    ensures BsonVals(u)[5] == VInt(u.age)
    ensures BsonVals(u)[6] == VStr(u.phone)
    ensures BsonVals(u)[7] == VStr(u.interests)
  {
  }

  /** Fields 4 to 7 decode to the stored values. */
  lemma CustomFields1(u: User, password: string, id: ObjectIds.ObjectId)
    ensures forall i | 4 <= i < 8 ::
              DecodeField(CustomDoc(u, password, id), BsonSchema[i]) == Ok(BsonVals(u.(id := id, password := password, refreshToken := "", favorites := []))[i])
  {
    var d := CustomDoc(u, password, id);
    var stored := u.(id := id, password := password, refreshToken := "", favorites := []);
    CustomKeys1(u, password, id);
    BsonSchemaAt1();
    BsonValsAt1(stored);
    DecodePresent(d, BsonSchema[4], BsonVals(stored)[4]);
    DecodePresent(d, BsonSchema[5], BsonVals(stored)[5]);
    DecodePresent(d, BsonSchema[6], BsonVals(stored)[6]);
    DecodePresent(d, BsonSchema[7], BsonVals(stored)[7]);
    forall i | 4 <= i < 8
      ensures DecodeField(d, BsonSchema[i]) == Ok(BsonVals(stored)[i])
    {
      if i == 4 {
      } else if i == 5 {
      } else if i == 6 {
      } else {
        assert i == 7;
      }
    }
  }

  /** The keys "description", "avatar", "banned", "banReason" of that document. */
  lemma CustomKeys2(u: User, password: string, id: ObjectIds.ObjectId)
    ensures "description" in CustomDoc(u, password, id) && CustomDoc(u, password, id)["description"] == DocStore.BStr(u.description)
    ensures "avatar" in CustomDoc(u, password, id) && CustomDoc(u, password, id)["avatar"] == DocStore.BStr(u.avatar)
    ensures "banned" in CustomDoc(u, password, id) && CustomDoc(u, password, id)["banned"] == DocStore.BBool(u.banned)
    ensures "banReason" in CustomDoc(u, password, id) && CustomDoc(u, password, id)["banReason"] == DocStore.BStr(u.banReason)
  {
  }

  lemma BsonSchemaAt2()
    ensures BsonSchema[8] == Field("description", KStr, false, None)
    ensures BsonSchema[9] == Field("avatar", KStr, false, None)
    ensures BsonSchema[10] == Field("banned", KBool, true, None)
    ensures BsonSchema[11] == Field("banReason", KStr, true, None)
  {
  }

  lemma BsonValsAt2(u: User)
    ensures BsonVals(u)[8] == VStr(u.description)
    ensures BsonVals(u)[9] == VStr(u.avatar)
    ensures BsonVals(u)[10] == VBool(u.banned)
    ensures BsonVals(u)[11] == VStr(u.banReason)
  {
  }

  /** Fields 8 to 11 decode to the stored values. */
  lemma CustomFields2(u: User, password: string, id: ObjectIds.ObjectId)
    ensures forall i | 8 <= i < 12 ::
              DecodeField(CustomDoc(u, password, id), BsonSchema[i]) == Ok(BsonVals(u.(id := id, password := password, refreshToken := "", favorites := []))[i])
  {
    var d := CustomDoc(u, password, id);
    var stored := u.(id := id, password := password, refreshToken := "", favorites := []);
    CustomKeys2(u, password, id);
    BsonSchemaAt2();
    BsonValsAt2(stored);
    DecodePresent(d, BsonSchema[8], BsonVals(stored)[8]);
    DecodePresent(d, BsonSchema[9], BsonVals(stored)[9]);
    DecodePresent(d, BsonSchema[10], BsonVals(stored)[10]);
    DecodePresent(d, BsonSchema[11], BsonVals(stored)[11]);
    forall i | 8 <= i < 12
      ensures DecodeField(d, BsonSchema[i]) == Ok(BsonVals(stored)[i])
    {
      if i == 8 {
      } else if i == 9 {
      } else if i == 10 {
      } else {
        assert i == 11;
      }
    }
  }

  /** The keys "roles", "refreshtoken", "favorites", "payment_methods", "orders" of that document. */
  lemma CustomKeys3(u: User, password: string, id: ObjectIds.ObjectId)
    ensures "roles" in CustomDoc(u, password, id) && CustomDoc(u, password, id)["roles"] == DocStore.BStr(u.roles)
    ensures "refreshtoken" !in CustomDoc(u, password, id)
    ensures "refreshToken" !in CustomDoc(u, password, id)
    ensures "favorites" !in CustomDoc(u, password, id)
    ensures "payment_methods" !in CustomDoc(u, password, id)
    ensures "orders" !in CustomDoc(u, password, id)
  {
  }

  lemma BsonSchemaAt3()
    ensures BsonSchema[12] == Field("roles", KStr, true, None)
    ensures BsonSchema[13] == Field("refreshtoken", KStr, false, Some("refreshToken"))
    ensures BsonSchema[14] == Field("favorites", KOids, true, None)
    ensures BsonSchema[15] == Field("payment_methods", KNested, false, None)
    ensures BsonSchema[16] == Field("orders", KNested, false, None)
  {
  }

  lemma BsonValsAt3(u: User)
    ensures BsonVals(u)[12] == VStr(u.roles)
    ensures BsonVals(u)[13] == VStr(u.refreshToken)
    ensures BsonVals(u)[14] == VOids(u.favorites)
    ensures BsonVals(u)[15] == VNested
    ensures BsonVals(u)[16] == VNested
  {
  }

  /** Fields 12 to 16 decode to the stored values. */
  lemma CustomFields3(u: User, password: string, id: ObjectIds.ObjectId)
    ensures forall i | 12 <= i < 17 ::
              DecodeField(CustomDoc(u, password, id), BsonSchema[i]) == Ok(BsonVals(u.(id := id, password := password, refreshToken := "", favorites := []))[i])
  {
    var d := CustomDoc(u, password, id);
    var stored := u.(id := id, password := password, refreshToken := "", favorites := []);
    CustomKeys3(u, password, id);
    BsonSchemaAt3();
    BsonValsAt3(stored);
    DecodePresent(d, BsonSchema[12], BsonVals(stored)[12]);
    forall i | 12 <= i < 17
      ensures DecodeField(d, BsonSchema[i]) == Ok(BsonVals(stored)[i])
    {
      if i == 12 {
      } else if i == 13 {
      } else if i == 14 {
      } else if i == 15 {
      } else {
        assert i == 16;
      }
    }
  }

  /** After the refresh-token `$set` the decoded user carries that token. */
  lemma FromBsonAfterTokenSet(d: DocStore.Doc, token: string)
    requires FromBson(d).Ok?
    ensures FromBson(d["refreshToken" := DocStore.BStr(token)]) == Ok(FromBson(d).value.(refreshToken := token))
  {
    var vals := FromDoc(BsonSchema, d).value;
    TokenSetDoc(d, token);
    OfBsonValsToken(vals, token);
  }

  lemma TokenSetDoc(d: DocStore.Doc, token: string)
    requires FromDoc(BsonSchema, d).Ok?
    ensures FromDoc(BsonSchema, d["refreshToken" := DocStore.BStr(token)])
            == Ok(FromDoc(BsonSchema, d).value[13 := VStr(token)])
  {
    var b := DocStore.BStr(token);
    RefreshAliasOwn();
    assert BsonVal(BsonSchema[13], b) == Ok(VStr(token));
    FromDocSetAlias(BsonSchema, d, 13, b);
  }

  lemma RefreshAliasOwn()
    ensures BsonSchema[13].alias == Some("refreshToken")
    ensures forall i | 0 <= i < |BsonSchema| && i != 13 ::
              BsonSchema[i].name != "refreshToken" && BsonSchema[i].alias != Some("refreshToken")
  {
  }

  lemma OfBsonValsToken(vals: seq<Val>, token: string)
    requires |vals| == |BsonSchema|
    ensures OfBsonVals(vals[13 := VStr(token)]) == OfBsonVals(vals).(refreshToken := token)
  {
  }

  // ---------------------------------------------------------------- validation

  /**
   * The `validate` tags: email, password, surname, name and phone are
   * required (non-empty), the age is required (so non-zero) and within
   * 0..130, the password has at least 6 characters and the phone exactly 11,
   * interests, description and avatar at most 1000.
   */
  predicate Valid(u: User)
  {
    && u.email != ""
    && u.password != "" && |u.password| >= 6
    && u.surname != ""
    && u.name != ""
    && u.age != 0 && 0 <= u.age <= 130
    && u.phone != "" && |u.phone| == 11
    && |u.interests| <= 1000
    && |u.description| <= 1000
    && |u.avatar| <= 1000
  }

  /** The age's tags in order: required (non-zero), gte=0, lte=130. */
  function AgeErrors(u: User): (errs: seq<FieldError>)
    ensures errs == [] <==> u.age != 0 && 0 <= u.age <= 130
    ensures u.age == 0 ==> errs == [FieldError("Age", "required")]
  {
    var checks := [("required", u.age != 0), ("gte", u.age >= 0), ("lte", u.age <= 130)];
    assert checks[1..] == [("gte", u.age >= 0), ("lte", u.age <= 130)];
    assert checks[1..][1..] == [("lte", u.age <= 130)];
    assert AllPass(checks[1..][1..]) <==> u.age <= 130;
    assert AllPass(checks[1..]) <==> u.age >= 0 && u.age <= 130;
    FirstFailure("Age", checks)
  }

  /**
   * `Validate()`: one error per failing field, in declaration order, naming
   * the first tag that field fails. The email format rule is not modelled.
   */
  function Validate(u: User): (errs: seq<FieldError>)
    ensures errs == [] <==> Valid(u)
  {
    One("Email", "required", u.email != "")
    + Two("Password", "required", u.password != "", "min", |u.password| >= 6)
    + One("Surname", "required", u.surname != "")
    + One("Name", "required", u.name != "")
    + AgeErrors(u)
    + Two("Phone", "required", u.phone != "", "len", |u.phone| == 11)
    + One("Interests", "max", |u.interests| <= 1000)
    + One("Description", "max", |u.description| <= 1000)
    + One("Avatar", "max", |u.avatar| <= 1000)
  }

  /** `required` on an integer rejects zero, so an age of 0 fails although `gte=0` admits it. */
  lemma AgeZeroInvalid(u: User)
    requires u.age == 0
    ensures FieldError("Age", "required") in Validate(u)
  {
  }
}
