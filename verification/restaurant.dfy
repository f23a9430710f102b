/**
 * The `Restaurant` model: its fields, the accessors behind the entity
 * interface, the partition it lives in, the insert document `GetCustomData`
 * builds, its JSON and stored-document forms, and the constraints of
 * `ValidateRestaurant`. The nested `Menu`, `Orders` and `Reviews` slices are
 * carried only as placeholders (see `Binding.KNested`).
 */
module Restaurants {
  import opened Results
  import ObjectIds
  import Text
  import opened Binding
  import opened Tags
  import DocStore
  import Json

  datatype Restaurant = Restaurant(
    id: ObjectIds.ObjectId,
    email: string,
    password: string,
    name: string,
    averagePrice: Int64,
    description: string,
    category: string,
    ogrn: string,
    inn: string,
    address: string,
    avatar: string,
    phone: string,
    hours: string,
    banned: bool,
    banReason: string,
    roles: string,
    refreshToken: string)

  /** `models.Restaurant{}`. */
  const Empty: Restaurant := Restaurant(ObjectIds.NilObjectId, "", "", "", 0, "", "", "", "", "", "", "", "", false, "", "", "")

  /** `GetCollectionName()`. */
  const CollectionName: string := "restaurants"

  /**
   * `GetCustomData()`: the document `Register` inserts, keyed by the BSON
   * names of fourteen fields, with the password still in plain text and the
   * roles taken through `GetRoles()`.
   */
  function CustomData(r: Restaurant): DocStore.Doc
  {
    map[
      "email" := DocStore.BStr(r.email),
      "password" := DocStore.BStr(r.password),
      "name" := DocStore.BStr(r.name),
      "averagePrice" := DocStore.BInt(r.averagePrice),
      "description" := DocStore.BStr(r.description),
      "category" := DocStore.BStr(r.category),
      "ogrn" := DocStore.BStr(r.ogrn),
      "inn" := DocStore.BStr(r.inn),
      "address" := DocStore.BStr(r.address),
      "avatar" := DocStore.BStr(r.avatar),
      "phone" := DocStore.BStr(r.phone),
      "banned" := DocStore.BBool(r.banned),
      "banReason" := DocStore.BStr(r.banReason),
      "roles" := DocStore.BStr(r.roles)
    ]
  }

  const CustomKeys: set<string> := {"email", "password", "name", "averagePrice", "description", "category", "ogrn",
                                    "inn", "address", "avatar", "phone", "banned", "banReason", "roles"}

  /**
   * The insert document has exactly the fourteen profile keys, the raw
   * password and the roles; no identifier, opening hours, refresh token,
   * menu, orders or reviews.
   */
  lemma CustomDataKeys(r: Restaurant)
    ensures CustomData(r).Keys == CustomKeys
  {
  }

  lemma CustomDataValues(r: Restaurant)
    ensures "email" in CustomData(r) && CustomData(r)["email"] == DocStore.BStr(r.email)
    ensures "password" in CustomData(r) && CustomData(r)["password"] == DocStore.BStr(r.password)
    ensures "roles" in CustomData(r) && CustomData(r)["roles"] == DocStore.BStr(r.roles)
  {
  }

  /** The insert document has no identifier and no refresh token (under either spelling). */
  lemma CustomDataExcludes(r: Restaurant)
    ensures "_id" !in CustomData(r)
    ensures "refreshToken" !in CustomData(r) && "refreshtoken" !in CustomData(r)
  {
  }

  // ---------------------------------------------------------------- JSON

  /**
   * The JSON names: the `json` tags where present, the Go field name for
   * the untagged fields; `RefreshToken` is `json:"-"`.
   */
  const JsonSchema: Schema := [
    Field("ID", KOid, false, None),
    Field("email", KStr, false, None),
    Field("password", KStr, false, None),
    Field("Name", KStr, false, None),
    Field("AveragePrice", KInt, false, None),
    Field("Description", KStr, false, None),
    Field("Category", KStr, false, None),
    Field("OGRN", KStr, false, None),
    Field("INN", KStr, false, None),
    Field("Address", KStr, false, None),
    Field("Avatar", KStr, false, None),
    Field("Phone", KStr, false, None),
    Field("hours", KStr, false, None),
    Field("Banned", KBool, false, None),
    Field("BanReason", KStr, false, None),
    Field("roles", KStr, false, None),
    Field("menu", KNested, false, None),
    Field("orders", KNested, false, None),
    Field("reviews", KNested, false, None)
  ]

  const JsonNames: seq<string> := ["ID", "email", "password", "Name", "AveragePrice", "Description", "Category",
    "OGRN", "INN", "Address", "Avatar", "Phone", "hours", "Banned", "BanReason", "roles", "menu", "orders", "reviews"]

  const JsonLowered: seq<string> := ["id", "email", "password", "name", "averageprice", "description", "category",
    "ogrn", "inn", "address", "avatar", "phone", "hours", "banned", "banreason", "roles", "menu", "orders", "reviews"]

  function JsonVals(r: Restaurant): (vals: seq<Val>)
    ensures Conforms(JsonSchema, vals)
  {
    [VOid(r.id), VStr(r.email), VStr(r.password), VStr(r.name), VInt(r.averagePrice), VStr(r.description),
     VStr(r.category), VStr(r.ogrn), VStr(r.inn), VStr(r.address), VStr(r.avatar), VStr(r.phone), VStr(r.hours),
     VBool(r.banned), VStr(r.banReason), VStr(r.roles), VNested, VNested, VNested]
  }

  function OfJsonVals(vals: seq<Val>): Restaurant
    requires |vals| == |JsonSchema|
  {
    Restaurant(vals[0].Oid(), vals[1].Str(), vals[2].Str(), vals[3].Str(), vals[4].Int(), vals[5].Str(), vals[6].Str(), vals[7].Str(), vals[8].Str(),
               vals[9].Str(), vals[10].Str(), vals[11].Str(), vals[12].Str(), vals[13].Bool(), vals[14].Str(), vals[15].Str(), "")
  }

  /** `json.Marshal(restaurant)`. */
  function ToJson(r: Restaurant): Json.Json
  {
    Encode(JsonSchema, JsonVals(r))
  }

  /** `json.Unmarshal` into `new(models.Restaurant)`. */
  function FromJson(j: Json.Json): (r: Result<Restaurant, DecodeError>)
    ensures j.JNull? ==> r == Ok(Empty)
  {
    match Decode(JsonSchema, j)
    case Ok(vals) => Ok(OfJsonVals(vals))
    case Err(e) => Err(e)
  }

  lemma JsonNamesOf()
    ensures |JsonSchema| == |JsonNames| == |JsonLowered|
    ensures forall i | 0 <= i < |JsonSchema| :: JsonSchema[i].name == JsonNames[i]
  {
  }

  lemma JsonNamesLowered()
    ensures forall i | 0 <= i < |JsonNames| :: Text.Fold(JsonNames[i]) == JsonLowered[i]
  {
    JsonNamesLoweredHead();
    JsonNamesLoweredTail();
  }

  lemma JsonNamesLoweredHead()
    ensures forall i | 0 <= i < 10 :: Text.Fold(JsonNames[i]) == JsonLowered[i]
  {
  }

  lemma JsonNamesLoweredTail()
    ensures forall i | 10 <= i < |JsonNames| :: Text.Fold(JsonNames[i]) == JsonLowered[i]
  {
  }

  lemma JsonLoweredDistinct()
    ensures forall i, j | 0 <= i < j < |JsonLowered| :: JsonLowered[i] != JsonLowered[j]
  {
  }

  lemma JsonSchemaFoldDistinct()
    ensures FoldDistinct(JsonSchema)
  {
    JsonNamesOf();
    JsonNamesLowered();
    JsonLoweredDistinct();
    FoldDistinctByLowered(JsonSchema, JsonNames, JsonLowered);
  }

  /** A restaurant written as JSON reads back as the same restaurant, except that the refresh token is not carried. */
  lemma FromToJson(r: Restaurant)
    ensures FromJson(ToJson(r)) == Ok(r.(refreshToken := ""))
  {
    JsonSchemaFoldDistinct();
    DecodeEncode(JsonSchema, JsonVals(r));
    OfJsonValsOf(r);
  }

  lemma OfJsonValsOf(r: Restaurant)
    ensures OfJsonVals(JsonVals(r)) == r.(refreshToken := "")
  {
  }

  /** The JSON form does not depend on the refresh token. */
  lemma ToJsonHidesRefreshToken(r: Restaurant, token: string)
    ensures ToJson(r.(refreshToken := token)) == ToJson(r)
  {
  }

  // ---------------------------------------------------------------- BSON

  /**
   * The BSON names: the `bson` tags, and for the untagged `RefreshToken` the
   * lower-cased field name, which the driver also reaches from the
   * `refreshToken` key the services `$set`.
   */
  const BsonSchema: Schema := [
    Field("_id", KOid, true, None),
    Field("email", KStr, false, None),
    Field("password", KStr, false, None),
    Field("name", KStr, false, None),
    Field("averagePrice", KInt, false, None),
    Field("description", KStr, false, None),
    Field("category", KStr, false, None),
    Field("ogrn", KStr, false, None),
    Field("inn", KStr, false, None),
    Field("address", KStr, false, None),
    Field("avatar", KStr, true, None),
    Field("phone", KStr, false, None),
    Field("hours", KStr, false, None),
    Field("banned", KBool, true, None),
    Field("banReason", KStr, true, None),
    Field("roles", KStr, true, None),
    Field("refreshtoken", KStr, false, Some("refreshToken")),
    Field("menu", KNested, false, None),
    Field("orders", KNested, false, None),
    Field("reviews", KNested, false, None)
  ]

  /** Position of the refresh token in `BsonSchema`. */
  const TokenIndex: nat := 16

  function BsonVals(r: Restaurant): (vals: seq<Val>)
    ensures Conforms(BsonSchema, vals)
  {
    [VOid(r.id), VStr(r.email), VStr(r.password), VStr(r.name), VInt(r.averagePrice), VStr(r.description),
     VStr(r.category), VStr(r.ogrn), VStr(r.inn), VStr(r.address), VStr(r.avatar), VStr(r.phone), VStr(r.hours),
     VBool(r.banned), VStr(r.banReason), VStr(r.roles), VStr(r.refreshToken), VNested, VNested, VNested]
  }

  function OfBsonVals(vals: seq<Val>): Restaurant
    requires |vals| == |BsonSchema|
  {
    Restaurant(vals[0].Oid(), vals[1].Str(), vals[2].Str(), vals[3].Str(), vals[4].Int(), vals[5].Str(), vals[6].Str(), vals[7].Str(), vals[8].Str(),
               vals[9].Str(), vals[10].Str(), vals[11].Str(), vals[12].Str(), vals[13].Bool(), vals[14].Str(), vals[15].Str(), vals[16].Str())
  }

  const BsonNames: seq<string> := ["_id", "email", "password", "name", "averagePrice", "description", "category",
      "ogrn", "inn", "address", "avatar", "phone", "hours", "banned", "banReason", "roles", "refreshtoken",
      "menu", "orders", "reviews"]

  lemma BsonNamesOf()
    ensures |BsonSchema| == |BsonNames|
    ensures forall i | 0 <= i < |BsonSchema| :: BsonSchema[i].name == BsonNames[i]
  {
  }

  lemma BsonNamesDistinct()
    ensures forall i, j | 0 <= i < j < |BsonNames| :: BsonNames[i] != BsonNames[j]
  {
  }

  lemma BsonAliasesFree()
    ensures forall i | 0 <= i < |BsonSchema| && BsonSchema[i].alias.Some? :: BsonSchema[i].alias.value !in BsonNames
  {
  }

  lemma BsonSchemaKeysDistinct()
    ensures KeysDistinct(BsonSchema)
  {
    BsonNamesOf();
    BsonNamesDistinct();
    BsonAliasesFree();
    KeysDistinctByNames(BsonSchema, BsonNames);
  }

  /** The document the driver writes for the struct. */
  function ToBson(r: Restaurant): DocStore.Doc
  {
    BsonSchemaKeysDistinct();
    ToDoc(BsonSchema, BsonVals(r))
  }

  /** `FindOne(...).Decode(&restaurant)`. */
  function FromBson(d: DocStore.Doc): Result<Restaurant, DecodeError>
  {
    match FromDoc(BsonSchema, d)
    case Ok(vals) => Ok(OfBsonVals(vals))
    case Err(e) => Err(e)
  }

  lemma OfBsonValsOf(r: Restaurant)
    ensures OfBsonVals(BsonVals(r)) == r
  {
  }

  /** A restaurant stored by the driver reads back unchanged. */
  lemma FromToBson(r: Restaurant)
    ensures FromBson(ToBson(r)) == Ok(r)
  {
    BsonSchemaKeysDistinct();
    FromToDoc(BsonSchema, BsonVals(r));
    OfBsonValsOf(r);
  }

  /** `GetCustomData()` with the password replaced and the identifier the driver assigns. */
  function CustomDoc(r: Restaurant, password: string, id: ObjectIds.ObjectId): DocStore.Doc
  {
    CustomData(r)["password" := DocStore.BStr(password)]["_id" := DocStore.BOid(id)]
  }

  /**
   * The document `EntityService.Register` inserts, `GetCustomData()` with
   * the password replaced and the identifier the driver assigns, decodes to
   * the restaurant with that password and identifier, and with the fields the
   * document lacks at their zero values.
   */
  lemma FromCustomData(r: Restaurant, password: string, id: ObjectIds.ObjectId)
    ensures FromBson(CustomDoc(r, password, id)) == Ok(r.(id := id, password := password, hours := "", refreshToken := ""))
  {
    var stored := r.(id := id, password := password, hours := "", refreshToken := "");
    CustomFields0(r, password, id);
    CustomFields1(r, password, id);
    CustomFields2(r, password, id);
    CustomFields3(r, password, id);
    FromDocOfFields(BsonSchema, CustomDoc(r, password, id), BsonVals(stored));
    OfBsonValsOf(stored);
  }

  /** The keys "_id", "email", "password", "name", "averagePrice" of that document. */
  lemma CustomKeys0(r: Restaurant, password: string, id: ObjectIds.ObjectId)
    ensures "_id" in CustomDoc(r, password, id) && CustomDoc(r, password, id)["_id"] == DocStore.BOid(id)
    ensures "email" in CustomDoc(r, password, id) && CustomDoc(r, password, id)["email"] == DocStore.BStr(r.email)
    ensures "password" in CustomDoc(r, password, id) && CustomDoc(r, password, id)["password"] == DocStore.BStr(password)
    ensures "name" in CustomDoc(r, password, id) && CustomDoc(r, password, id)["name"] == DocStore.BStr(r.name)
    ensures "averagePrice" in CustomDoc(r, password, id) && CustomDoc(r, password, id)["averagePrice"] == DocStore.BInt(r.averagePrice)
  {
  }

  lemma BsonSchemaAt0()
    ensures BsonSchema[0] == Field("_id", KOid, true, None)
    ensures BsonSchema[1] == Field("email", KStr, false, None)
    ensures BsonSchema[2] == Field("password", KStr, false, None)
    ensures BsonSchema[3] == Field("name", KStr, false, None)
    ensures BsonSchema[4] == Field("averagePrice", KInt, false, None)
  {
  }

  lemma BsonValsAt0(r: Restaurant)
    ensures BsonVals(r)[0] == VOid(r.id)
    ensures BsonVals(r)[1] == VStr(r.email)
    ensures BsonVals(r)[2] == VStr(r.password)
    ensures BsonVals(r)[3] == VStr(r.name)
    ensures BsonVals(r)[4] == VInt(r.averagePrice)
  {
    var v := BsonVals(r);
    assert v[..5] == [VOid(r.id), VStr(r.email), VStr(r.password), VStr(r.name), VInt(r.averagePrice)];
  }

  /** Fields 0 to 4 decode to the stored values. */
  lemma CustomFields0(r: Restaurant, password: string, id: ObjectIds.ObjectId)
    ensures forall i | 0 <= i < 5 ::
              DecodeField(CustomDoc(r, password, id), BsonSchema[i]) == Ok(BsonVals(r.(id := id, password := password, hours := "", refreshToken := ""))[i])
  {
    var d := CustomDoc(r, password, id);
    var stored := r.(id := id, password := password, hours := "", refreshToken := "");
    CustomKeys0(r, password, id);
    BsonSchemaAt0();
    BsonValsAt0(stored);
    DecodePresent(d, BsonSchema[0], BsonVals(stored)[0]);
    DecodePresent(d, BsonSchema[1], BsonVals(stored)[1]);
    DecodePresent(d, BsonSchema[2], BsonVals(stored)[2]);
    DecodePresent(d, BsonSchema[3], BsonVals(stored)[3]);
    DecodePresent(d, BsonSchema[4], BsonVals(stored)[4]);
    forall i | 0 <= i < 5
      ensures DecodeField(d, BsonSchema[i]) == Ok(BsonVals(stored)[i])
    {
      if i == 0 {
      } else if i == 1 {
      } else if i == 2 {
      } else if i == 3 {
      } else {
        assert i == 4;
      }
    }
  }

  /** The keys "description", "category", "ogrn", "inn", "address" of that document. */
  lemma CustomKeys1(r: Restaurant, password: string, id: ObjectIds.ObjectId)
    ensures "description" in CustomDoc(r, password, id) && CustomDoc(r, password, id)["description"] == DocStore.BStr(r.description)
    ensures "category" in CustomDoc(r, password, id) && CustomDoc(r, password, id)["category"] == DocStore.BStr(r.category)
    ensures "ogrn" in CustomDoc(r, password, id) && CustomDoc(r, password, id)["ogrn"] == DocStore.BStr(r.ogrn)
    ensures "inn" in CustomDoc(r, password, id) && CustomDoc(r, password, id)["inn"] == DocStore.BStr(r.inn)
    ensures "address" in CustomDoc(r, password, id) && CustomDoc(r, password, id)["address"] == DocStore.BStr(r.address)
  {
  }

  lemma BsonSchemaAt1()
    ensures BsonSchema[5] == Field("description", KStr, false, None)
    ensures BsonSchema[6] == Field("category", KStr, false, None)
    ensures BsonSchema[7] == Field("ogrn", KStr, false, None)
    ensures BsonSchema[8] == Field("inn", KStr, false, None)
    ensures BsonSchema[9] == Field("address", KStr, false, None)
  {
  }

  lemma BsonValsAt1(r: Restaurant)
    ensures BsonVals(r)[5] == VStr(r.description)
    ensures BsonVals(r)[6] == VStr(r.category)
    ensures BsonVals(r)[7] == VStr(r.ogrn)
    ensures BsonVals(r)[8] == VStr(r.inn)
    ensures BsonVals(r)[9] == VStr(r.address)
  {
  }

  /** Fields 5 to 9 decode to the stored values. */
  lemma CustomFields1(r: Restaurant, password: string, id: ObjectIds.ObjectId)
    ensures forall i | 5 <= i < 10 ::
              DecodeField(CustomDoc(r, password, id), BsonSchema[i]) == Ok(BsonVals(r.(id := id, password := password, hours := "", refreshToken := ""))[i])
  {
    var d := CustomDoc(r, password, id);
    var stored := r.(id := id, password := password, hours := "", refreshToken := "");
    CustomKeys1(r, password, id);
    BsonSchemaAt1();
    BsonValsAt1(stored);
    DecodePresent(d, BsonSchema[5], BsonVals(stored)[5]);
    DecodePresent(d, BsonSchema[6], BsonVals(stored)[6]);
    DecodePresent(d, BsonSchema[7], BsonVals(stored)[7]);
    DecodePresent(d, BsonSchema[8], BsonVals(stored)[8]);
    DecodePresent(d, BsonSchema[9], BsonVals(stored)[9]);
    forall i | 5 <= i < 10
      ensures DecodeField(d, BsonSchema[i]) == Ok(BsonVals(stored)[i])
    {
      if i == 5 {
      } else if i == 6 {
      } else if i == 7 {
      } else if i == 8 {
      } else {
        assert i == 9;
      }
    }
  }

  /** The keys "avatar", "phone", "hours", "banned", "banReason" of that document. */
  lemma CustomKeys2(r: Restaurant, password: string, id: ObjectIds.ObjectId)
    ensures "avatar" in CustomDoc(r, password, id) && CustomDoc(r, password, id)["avatar"] == DocStore.BStr(r.avatar)
    ensures "phone" in CustomDoc(r, password, id) && CustomDoc(r, password, id)["phone"] == DocStore.BStr(r.phone)
    ensures "hours" !in CustomDoc(r, password, id)
    ensures "banned" in CustomDoc(r, password, id) && CustomDoc(r, password, id)["banned"] == DocStore.BBool(r.banned)
    ensures "banReason" in CustomDoc(r, password, id) && CustomDoc(r, password, id)["banReason"] == DocStore.BStr(r.banReason)
  {
  }

  lemma BsonSchemaAt2()
    ensures BsonSchema[10] == Field("avatar", KStr, true, None)
    ensures BsonSchema[11] == Field("phone", KStr, false, None)
    ensures BsonSchema[12] == Field("hours", KStr, false, None)
    ensures BsonSchema[13] == Field("banned", KBool, true, None)
    ensures BsonSchema[14] == Field("banReason", KStr, true, None)
  {
  }

  lemma BsonValsAt2(r: Restaurant)
    ensures BsonVals(r)[10] == VStr(r.avatar)
    ensures BsonVals(r)[11] == VStr(r.phone)
    ensures BsonVals(r)[12] == VStr(r.hours)
    ensures BsonVals(r)[13] == VBool(r.banned)
    ensures BsonVals(r)[14] == VStr(r.banReason)
  {
  }

  /** Fields 10 to 14 decode to the stored values. */
  lemma CustomFields2(r: Restaurant, password: string, id: ObjectIds.ObjectId)
    ensures forall i | 10 <= i < 15 ::
              DecodeField(CustomDoc(r, password, id), BsonSchema[i]) == Ok(BsonVals(r.(id := id, password := password, hours := "", refreshToken := ""))[i])
  {
    var d := CustomDoc(r, password, id);
    var stored := r.(id := id, password := password, hours := "", refreshToken := "");
    CustomKeys2(r, password, id);
    BsonSchemaAt2();
    BsonValsAt2(stored);
    DecodePresent(d, BsonSchema[10], BsonVals(stored)[10]);
    DecodePresent(d, BsonSchema[11], BsonVals(stored)[11]);
    DecodePresent(d, BsonSchema[13], BsonVals(stored)[13]);
    DecodePresent(d, BsonSchema[14], BsonVals(stored)[14]);
    forall i | 10 <= i < 15
      ensures DecodeField(d, BsonSchema[i]) == Ok(BsonVals(stored)[i])
    {
      if i == 10 {
      } else if i == 11 {
      } else if i == 12 {
      } else if i == 13 {
      } else {
        assert i == 14;
      }
    }
  }

  /** The keys "roles", "refreshtoken", "menu", "orders", "reviews" of that document. */
  lemma CustomKeys3(r: Restaurant, password: string, id: ObjectIds.ObjectId)
    ensures "roles" in CustomDoc(r, password, id) && CustomDoc(r, password, id)["roles"] == DocStore.BStr(r.roles)
    ensures "refreshtoken" !in CustomDoc(r, password, id)
    ensures "refreshToken" !in CustomDoc(r, password, id)
    ensures "menu" !in CustomDoc(r, password, id)
    ensures "orders" !in CustomDoc(r, password, id)
    ensures "reviews" !in CustomDoc(r, password, id)
  {
  }

  lemma BsonSchemaAt3()
    ensures BsonSchema[15] == Field("roles", KStr, true, None)
    ensures BsonSchema[16] == Field("refreshtoken", KStr, false, Some("refreshToken"))
    ensures BsonSchema[17] == Field("menu", KNested, false, None)
    ensures BsonSchema[18] == Field("orders", KNested, false, None)
    ensures BsonSchema[19] == Field("reviews", KNested, false, None)
  {
  }

  lemma BsonValsAt3(r: Restaurant)
    ensures BsonVals(r)[15] == VStr(r.roles)
    ensures BsonVals(r)[16] == VStr(r.refreshToken)
    ensures BsonVals(r)[17] == VNested
    ensures BsonVals(r)[18] == VNested
    ensures BsonVals(r)[19] == VNested
  {
  }

  /** Fields 15 to 19 decode to the stored values. */
  lemma CustomFields3(r: Restaurant, password: string, id: ObjectIds.ObjectId)
    ensures forall i | 15 <= i < 20 ::
              DecodeField(CustomDoc(r, password, id), BsonSchema[i]) == Ok(BsonVals(r.(id := id, password := password, hours := "", refreshToken := ""))[i])
  {
    var d := CustomDoc(r, password, id);
    var stored := r.(id := id, password := password, hours := "", refreshToken := "");
    CustomKeys3(r, password, id);
    BsonSchemaAt3();
    BsonValsAt3(stored);
    DecodePresent(d, BsonSchema[15], BsonVals(stored)[15]);
    forall i | 15 <= i < 20
      ensures DecodeField(d, BsonSchema[i]) == Ok(BsonVals(stored)[i])
    {
      if i == 15 {
      } else if i == 16 {
      } else if i == 17 {
      } else if i == 18 {
      } else {
        assert i == 19;
      }
    }
  }

  /** After the refresh-token `$set` the decoded restaurant carries that token. */
  lemma FromBsonAfterTokenSet(d: DocStore.Doc, token: string)
    requires FromBson(d).Ok?
    ensures FromBson(d["refreshToken" := DocStore.BStr(token)]) == Ok(FromBson(d).value.(refreshToken := token))
  {
    var vals := FromDoc(BsonSchema, d).value;
    TokenSetDoc(d, token);
    OfBsonValsToken(vals, token);
  }

  lemma TokenSetDoc(d: DocStore.Doc, token: string)
    requires FromDoc(BsonSchema, d).Ok?
    ensures FromDoc(BsonSchema, d["refreshToken" := DocStore.BStr(token)])
            == Ok(FromDoc(BsonSchema, d).value[TokenIndex := VStr(token)])
  {
    var b := DocStore.BStr(token);
    RefreshAliasOwn();
    assert BsonVal(BsonSchema[TokenIndex], b) == Ok(VStr(token));
    FromDocSetAlias(BsonSchema, d, TokenIndex, b);
  }

  lemma RefreshAliasOwn()
    ensures BsonSchema[TokenIndex].alias == Some("refreshToken")
    ensures forall i | 0 <= i < |BsonSchema| && i != TokenIndex ::
              BsonSchema[i].name != "refreshToken" && BsonSchema[i].alias != Some("refreshToken")
  {
  }

  lemma OfBsonValsToken(vals: seq<Val>, token: string)
    requires |vals| == |BsonSchema|
    ensures OfBsonVals(vals[TokenIndex := VStr(token)]) == OfBsonVals(vals).(refreshToken := token)
  {
  }

  // ---------------------------------------------------------------- validation

  /**
   * The `validate` tags `ValidateRestaurant` checks: email, password, name,
   * description, category, address, OGRN, INN and phone are required
   * (non-empty); the average price is required (non-zero) and positive; the
   * password has at least 6 characters; OGRN, INN and phone have exactly
   * 13, 10 and 11 characters. Only lengths are checked: the custom digit
   * validators are never registered on this validator.
   */
  predicate Valid(r: Restaurant)
  {
    && r.email != ""
    && r.password != "" && |r.password| >= 6
    && r.name != ""
    && r.averagePrice > 0
    && r.description != ""
    && r.category != ""
    && |r.ogrn| == 13
    && |r.inn| == 10
    && r.address != ""
    && |r.phone| == 11
  }

  /** `ValidateRestaurant`: one error per failing field, in declaration order. The email format rule is not modelled. */
  function Validate(r: Restaurant): (errs: seq<FieldError>)
    ensures errs == [] <==> Valid(r)
  {
    One("Email", "required", r.email != "")
    + Two("Password", "required", r.password != "", "min", |r.password| >= 6)
    + One("Name", "required", r.name != "")
    + Two("AveragePrice", "required", r.averagePrice != 0, "gt", r.averagePrice > 0)
    + One("Description", "required", r.description != "")
    + One("Category", "required", r.category != "")
    + Two("OGRN", "required", r.ogrn != "", "len", |r.ogrn| == 13)
    + Two("INN", "required", r.inn != "", "len", |r.inn| == 10)
    + One("Address", "required", r.address != "")
    + Two("Phone", "required", r.phone != "", "len", |r.phone| == 11)
  }

  /** A twelve-digit INN, accepted by the INN validator, fails the restaurant's `len=10` tag. */
  lemma TwelveDigitInnInvalid(r: Restaurant)
    requires |r.inn| == 12
    ensures FieldError("INN", "len") in Validate(r)
  {
  }
}
