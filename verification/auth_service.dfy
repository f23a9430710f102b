/**
 * `EntityService` (internal/services/auth_service.go): registration,
 * password authentication and token issuance for either kind of entity,
 * each entity kept in the partition its `GetCollectionName()` names.
 * Every operation takes the store and returns the new store only when it
 * succeeds: a failed call changes nothing.
 */
module EntityService {
  import opened Results
  import opened Faults
  import ObjectIds
  import DocStore
  import Binding
  import Bcrypt
  import Jwt
  import Entities

  datatype AuthError =
    | CheckingEmailFailed            // "checking email failed: ..."
    | EmailTaken                     // the "already registered" message
    | HashingFailed                  // "hashing password failed: ..."
    | InsertingFailed                // "inserting user failed: ..."
    | UnknownCollection(name: string)
    | NoEntityFound(email: string)   // "no entity found with email: <email>"
    | FindFailed                     // any other error of FindOne
    | Undecodable(cause: Binding.DecodeError)
    | InvalidPassword
    | UpdateFailed
    | SigningFailed

  /** The document `Register` inserts: `GetCustomData()` with the password replaced by its hash. */
  function RegisteredDoc(e: Entities.Entity, salt: Bcrypt.Salt): DocStore.Doc
  {
    e.CustomData()["password" := DocStore.BStr(Bcrypt.Hash(salt, e.Password()))]
  }

  /**
   * `Register`: reject an email already present in the entity's partition,
   * hash the password, insert the document. The driver assigns `generated`
   * as the new `_id`; its hex form is returned.
   */
  function Register(s: DocStore.Store, e: Entities.Entity, salt: Bcrypt.Salt, generated: ObjectIds.ObjectId,
                    faults: set<Fault>): (r: Result<(DocStore.Store, string), AuthError>)
    ensures var p := DocStore.Coll(s, e.CollectionName());
            r.Ok? <==>
              && CountFails !in faults && DocStore.Count(p, "email", DocStore.BStr(e.Email())) == 0
              && HashFails !in faults && InsertFails !in faults
              && DocStore.Count(p, "_id", DocStore.BOid(generated)) == 0
    ensures (CountFails !in faults && DocStore.Count(DocStore.Coll(s, e.CollectionName()), "email", DocStore.BStr(e.Email())) > 0)
              ==> r == Err(EmailTaken)
    ensures r.Ok? ==>
              && r.value.1 == ObjectIds.Hex(generated)
              && r.value.0 == s[e.CollectionName() := DocStore.Coll(s, e.CollectionName())
                                   + [RegisteredDoc(e, salt)["_id" := DocStore.BOid(generated)]]]
  {
    var coll := e.CollectionName();
    var p := DocStore.Coll(s, coll);
    if CountFails in faults then Err(CheckingEmailFailed)
    else if DocStore.Count(p, "email", DocStore.BStr(e.Email())) > 0 then Err(EmailTaken)
    else if HashFails in faults then Err(HashingFailed)
    else if InsertFails in faults then Err(InsertingFailed)
    else
      var doc := RegisteredDoc(e, salt);
      Entities.CustomDataAgrees(e);
      match DocStore.InsertOne(p, doc, generated)
      case Err(_) => Err(InsertingFailed)
      case Ok((p', id)) => Ok((s[coll := p'], ObjectIds.Hex(id.id)))
  }

  /**
   * The stored document keeps every other field of the insert document, and
   * its password is a hash that verifies the registered password and is
   * never the plaintext.
   */
  lemma RegisteredDocHashed(e: Entities.Entity, salt: Bcrypt.Salt)
    ensures "password" in RegisteredDoc(e, salt) && RegisteredDoc(e, salt)["password"].BStr?
    ensures var stored := RegisteredDoc(e, salt)["password"].s;
            Bcrypt.Verify(stored, e.Password()) && stored != e.Password()
    ensures forall k | k in e.CustomData() && k != "password" :: k in RegisteredDoc(e, salt) && RegisteredDoc(e, salt)[k] == e.CustomData()[k]
    ensures RegisteredDoc(e, salt).Keys == e.CustomData().Keys
  {
    Entities.CustomDataAgrees(e);
    Bcrypt.VerifyHash(salt, e.Password());
    Bcrypt.HashIsNotPlaintext(salt, e.Password());
  }

  /** Registration touches only the entity's own partition, which gains exactly one document. */
  lemma RegisterTouchesOwnPartition(s: DocStore.Store, e: Entities.Entity, salt: Bcrypt.Salt, generated: ObjectIds.ObjectId,
                                    faults: set<Fault>, other: string)
    requires Register(s, e, salt, generated, faults).Ok?
    ensures var s' := Register(s, e, salt, generated, faults).value.0;
            && |DocStore.Coll(s', e.CollectionName())| == |DocStore.Coll(s, e.CollectionName())| + 1
            && (other != e.CollectionName() ==> DocStore.Coll(s', other) == DocStore.Coll(s, other))
  {
  }

  /**
   * An entity just registered authenticates with its own email and
   * password: `Authenticate` finds the inserted document and returns the
   * entity as stored, with the hash and the generated identifier.
   */
  lemma RegisteredAuthenticates(s: DocStore.Store, e: Entities.Entity, salt: Bcrypt.Salt, generated: ObjectIds.ObjectId,
                                faults: set<Fault>)
    requires Register(s, e, salt, generated, faults).Ok? && FindFails !in faults
    ensures var s' := Register(s, e, salt, generated, faults).value.0;
            Authenticate(s', e.CollectionName(), e.Email(), e.Password(), faults)
              == Ok(Entities.Inserted(e, Bcrypt.Hash(salt, e.Password()), generated))
  {
    var coll := e.CollectionName();
    var p := DocStore.Coll(s, coll);
    var hash := Bcrypt.Hash(salt, e.Password());
    var doc := RegisteredDoc(e, salt)["_id" := DocStore.BOid(generated)];
    var s' := Register(s, e, salt, generated, faults).value.0;
    assert DocStore.Coll(s', coll) == p + [doc];
    Entities.CustomDataAgrees(e);
    assert DocStore.Matches(doc, "email", DocStore.BStr(e.Email()));
    DocStore.FindAppended(p, doc, "email", DocStore.BStr(e.Email()));
    Entities.CollectionNameFixed(e);
    Entities.KindOfTagCollection(e.KindOf());
    Entities.FromCustomData(e, hash, generated);
    Bcrypt.VerifyHash(salt, e.Password());
  }

  /**
   * `Authenticate(email, password)` in the partition `collection`: only the
   * two known partitions are searched; the first document with that email
   * is decoded into a new value of the partition's kind, and it is returned
   * when the password verifies against its stored hash.
   */
  function Authenticate(s: DocStore.Store, collection: string, email: string, password: string,
                        faults: set<Fault>): (r: Result<Entities.Entity, AuthError>)
    ensures Entities.KindOfTag(collection).None? ==> r == Err(UnknownCollection(collection))
    ensures var p := DocStore.Coll(s, collection);
            (Entities.KindOfTag(collection).Some? && FindFails !in faults && DocStore.Count(p, "email", DocStore.BStr(email)) == 0)
              ==> r == Err(NoEntityFound(email))
    ensures r.Ok? ==>
              && Entities.KindOfTag(collection) == Some(r.value.KindOf())
              && Bcrypt.Verify(r.value.Password(), password)
              && exists d | d in DocStore.Coll(s, collection) ::
                   DocStore.Matches(d, "email", DocStore.BStr(email)) && Entities.FromBson(r.value.KindOf(), d) == Ok(r.value)
  {
    match Entities.KindOfTag(collection)
    case None => Err(UnknownCollection(collection))
    case Some(kind) =>
      if FindFails in faults then Err(FindFailed)
      else
        match DocStore.FindOne(DocStore.Coll(s, collection), "email", DocStore.BStr(email))
        case None => Err(NoEntityFound(email))
        case Some(d) =>
          match Entities.FromBson(kind, d)
          case Err(de) => Err(Undecodable(de))
          case Ok(found) => if Bcrypt.Verify(found.Password(), password) then Ok(found) else Err(InvalidPassword)
  }

  /** With a readable matching document, authentication succeeds exactly when the password verifies, and a wrong one is "invalid password". */
  lemma AuthenticateDecides(s: DocStore.Store, collection: string, email: string, password: string, faults: set<Fault>)
    requires Entities.KindOfTag(collection).Some? && FindFails !in faults
    requires var found := DocStore.FindOne(DocStore.Coll(s, collection), "email", DocStore.BStr(email));
             found.Some? && Entities.FromBson(Entities.KindOfTag(collection).value, found.value).Ok?
    ensures var found := DocStore.FindOne(DocStore.Coll(s, collection), "email", DocStore.BStr(email));
            var stored := Entities.FromBson(Entities.KindOfTag(collection).value, found.value).value;
            Authenticate(s, collection, email, password, faults) ==
              if Bcrypt.Verify(stored.Password(), password) then Ok(stored) else Err(InvalidPassword)
  {
  }

  /** `SaveRefreshToken`: `$set` the refresh token on the document with `_id` `id` in the entity's partition. */
  function SaveRefreshToken(s: DocStore.Store, id: ObjectIds.ObjectId, token: string, collection: string,
                            faults: set<Fault>): (r: Result<DocStore.Store, AuthError>)
    ensures r.Ok? <==> UpdateFails !in faults
    ensures r.Ok? ==> forall other | other != collection :: DocStore.Coll(r.value, other) == DocStore.Coll(s, other)
    ensures r.Ok? ==> DocStore.Coll(r.value, collection) ==
                        DocStore.UpdateOneSet(DocStore.Coll(s, collection), DocStore.BOid(id),
                                              map["refreshToken" := DocStore.BStr(token)]).value
  {
    if UpdateFails in faults then Err(UpdateFailed)
    else
      match DocStore.UpdateOneSet(DocStore.Coll(s, collection), DocStore.BOid(id), map["refreshToken" := DocStore.BStr(token)])
      case Err(_) => Err(UpdateFailed)
      case Ok(p') => Ok(s[collection := p'])
  }

  /**
   * `GenerateAndStoreToken`: issue the two tokens for the entity's
   * identifier and store the refresh token on its document. Nothing is
   * written when signing fails.
   */
  function GenerateAndStoreToken(s: DocStore.Store, e: Entities.Entity, secretKey: string, refreshSecret: string,
                                 now: int, faults: set<Fault>): (r: Result<(DocStore.Store, string, string), AuthError>)
    ensures var g := Jwt.GenerateToken(e.Id(), secretKey, refreshSecret, now, faults);
            && (r.Ok? <==> g.Ok? && UpdateFails !in faults)
            && (r.Ok? ==> r.value.1 == g.value.0 && r.value.2 == g.value.1
                          && Ok(r.value.0) == SaveRefreshToken(s, e.Id(), g.value.1, e.CollectionName(), faults))
  {
    match Jwt.GenerateToken(e.Id(), secretKey, refreshSecret, now, faults)
    case Err(_) => Err(SigningFailed)
    case Ok((access, refresh)) =>
      match SaveRefreshToken(s, e.Id(), refresh, e.CollectionName(), faults)
      case Err(err) => Err(err)
      case Ok(s') => Ok((s', access, refresh))
  }

  /** `GetSecretKeys`: the configured access secret and the freshly drawn refresh secret; an unset access secret stops the process. */
  function GetSecretKeys(configured: string, random: string): (r: Option<(string, string)>)
    ensures r.Some? <==> configured != ""
    ensures r.Some? ==> r.value == (configured, random)
  {
    if configured == "" then None else Some((configured, random))
  }

  /**
   * `AuthenticateAndGenerateTokens`: authenticate with the entity's own
   * email and password in its partition, then issue and store tokens for
   * the stored entity found. The first failure ends the call.
   */
  function AuthenticateAndGenerateTokens(s: DocStore.Store, e: Entities.Entity, secretKey: string, refreshSecret: string,
                                         now: int, faults: set<Fault>): (r: Result<(DocStore.Store, string, string), AuthError>)
    ensures var a := Authenticate(s, e.CollectionName(), e.Email(), e.Password(), faults);
            && (a.Err? ==> r == Err(a.error))
            && (a.Ok? ==> r == GenerateAndStoreToken(s, a.value, secretKey, refreshSecret, now, faults))
  {
    var found :- Authenticate(s, e.CollectionName(), e.Email(), e.Password(), faults);
    GenerateAndStoreToken(s, found, secretKey, refreshSecret, now, faults)
  }

  /**
   * After a successful authenticate-and-issue the only change to the store
   * is the stored entity's refresh token, now the returned one, and the
   * access token admits that entity's identifier.
   */
  lemma IssueStoresRefreshToken(s: DocStore.Store, e: Entities.Entity, secretKey: string, refreshSecret: string,
                                now: int, faults: set<Fault>)
    requires AuthenticateAndGenerateTokens(s, e, secretKey, refreshSecret, now, faults).Ok?
    ensures var (s', access, refresh) := AuthenticateAndGenerateTokens(s, e, secretKey, refreshSecret, now, faults).value;
            var found := Authenticate(s, e.CollectionName(), e.Email(), e.Password(), faults).value;
            && (forall other | other != e.CollectionName() :: DocStore.Coll(s', other) == DocStore.Coll(s, other))
            && DocStore.Coll(s', e.CollectionName()) ==
                 DocStore.UpdateOneSet(DocStore.Coll(s, e.CollectionName()), DocStore.BOid(found.Id()),
                                       map["refreshToken" := DocStore.BStr(refresh)]).value
            && Jwt.ValidateToken(access, secretKey, now).Ok?
            && Jwt.ValidateToken(access, secretKey, now).value.userId == found.Id()
  {
    var found := Authenticate(s, e.CollectionName(), e.Email(), e.Password(), faults).value;
    Entities.CollectionNameFixed(e);
    Jwt.AccessTokenLifetime(found.Id(), secretKey, refreshSecret, now, faults, now);
  }
}
