/**
 * The older, user-only service (internal/services/user_service.go). It
 * works on a single partition of user documents and, unlike
 * `EntityService`, stores the whole `User` struct through the driver's
 * codec.
 */
module UserService {
  import opened Results
  import opened Faults
  import ObjectIds
  import DocStore
  import Binding
  import Bcrypt
  import Jwt
  import Users

  datatype UserError =
    | InvalidId(hexError: ObjectIds.HexError)  // `ObjectIDFromHex` failed
    | NoDocuments                           // `mongo.ErrNoDocuments`
    | FindFailed                            // any other error of FindOne
    | Undecodable(cause: Binding.DecodeError)
    | FindingUserFailed                     // "finding user failed: ..." around a failed count
    | CheckingEmailFailed                   // "checking email failed: ..."
    | EmailTaken                            // the "already registered" message
    | HashingFailed
    | InsertingFailed
    | InvalidPassword
    | UpdatingUserFailed                    // "updating user failed: ..."
    | UpdateFailed                          // the bare UpdateOne error of the token writes
    | DeletingUserFailed
    | SigningFailed

  /** The first document whose `_id` is `id`, decoded. */
  function FindById(p: DocStore.Partition, id: ObjectIds.ObjectId, faults: set<Fault>): Result<Users.User, UserError>
  {
    if FindFails in faults then Err(FindFailed)
    else
      match DocStore.FindOne(p, "_id", DocStore.BOid(id))
      case None => Err(NoDocuments)
      case Some(d) =>
        match Users.FromBson(d)
        case Err(e) => Err(Undecodable(e))
        case Ok(u) => Ok(u)
  }

  /**
   * `GetUser(userID)`: a malformed identifier is rejected before the store
   * is asked; otherwise the first document with that `_id` decides: none is
   * `NoDocuments`, one that decodes is the answer, one that does not is a
   * decoding error.
   */
  function GetUser(p: DocStore.Partition, userID: string, faults: set<Fault>): (r: Result<Users.User, UserError>)
    ensures ObjectIds.FromHex(userID).Err? ==> r == Err(InvalidId(ObjectIds.FromHex(userID).error))
    ensures ObjectIds.FromHex(userID).Ok? && FindFails in faults ==> r == Err(FindFailed)
    ensures ObjectIds.FromHex(userID).Ok? && FindFails !in faults ==>
              var found := DocStore.FindOne(p, "_id", DocStore.BOid(ObjectIds.FromHex(userID).value));
              && (found.None? ==> r == Err(NoDocuments))
              && (found.Some? && Users.FromBson(found.value).Ok? ==> r == Ok(Users.FromBson(found.value).value))
              && (found.Some? && Users.FromBson(found.value).Err? ==> r == Err(Undecodable(Users.FromBson(found.value).error)))
    ensures r.Ok? ==> exists d | d in p :: DocStore.Matches(d, "_id", DocStore.BOid(ObjectIds.FromHex(userID).value))
                                             && Users.FromBson(d) == Ok(r.value)
    ensures (ObjectIds.FromHex(userID).Ok? && FindFails !in faults
             && DocStore.Count(p, "_id", DocStore.BOid(ObjectIds.FromHex(userID).value)) == 0) ==> r == Err(NoDocuments)
  {
    match ObjectIds.FromHex(userID)
    case Err(e) => Err(InvalidId(e))
    case Ok(id) => FindById(p, id, faults)
  }

  /** What `Register` leaves behind: the outcome, and the caller's user after the call. */
  datatype Registered = Registered(outcome: Result<(DocStore.Partition, string), UserError>, user: Users.User)

  /**
   * `Register(user)`: reject a taken email, hash the password into the
   * caller's struct, insert the struct. The password field of the caller's
   * user is overwritten by the hash even when the insert then fails.
   */
  function Register(p: DocStore.Partition, user: Users.User, salt: Bcrypt.Salt, generated: ObjectIds.ObjectId,
                    faults: set<Fault>): (r: Registered)
    ensures var hashed := user.(password := Bcrypt.Hash(salt, user.password));
            && (r.outcome.Ok? <==>
                  && CountFails !in faults && DocStore.Count(p, "email", DocStore.BStr(user.email)) == 0
                  && HashFails !in faults && InsertFails !in faults
                  && DocStore.InsertOne(p, Users.ToBson(hashed), generated).Ok?)
            && (r.outcome.Ok? ==> r.outcome.value.0 == DocStore.InsertOne(p, Users.ToBson(hashed), generated).value.0)
            && (r.user == user || r.user == hashed)
            && ((CountFails !in faults && DocStore.Count(p, "email", DocStore.BStr(user.email)) == 0 && HashFails !in faults)
                ==> r.user == hashed)
    ensures (CountFails !in faults && DocStore.Count(p, "email", DocStore.BStr(user.email)) > 0)
              ==> r == Registered(Err(EmailTaken), user)
    ensures r.outcome.Ok? ==>
              r.outcome.value.1 == ObjectIds.Hex(if user.id == ObjectIds.NilObjectId then generated else user.id)
  {
    if CountFails in faults then Registered(Err(FindingUserFailed), user)
    else if DocStore.Count(p, "email", DocStore.BStr(user.email)) > 0 then Registered(Err(EmailTaken), user)
    else if HashFails in faults then Registered(Err(HashingFailed), user)
    else
      var hashed := user.(password := Bcrypt.Hash(salt, user.password));
      if InsertFails in faults then Registered(Err(InsertingFailed), hashed)
      else
        var doc := Users.ToBson(hashed);
        Users.ToBsonFields(hashed);
        match DocStore.InsertOne(p, doc, generated)
        case Err(_) => Registered(Err(InsertingFailed), hashed)
        case Ok((p', id)) => Registered(Ok((p', ObjectIds.Hex(id.id))), hashed)
  }

  /** The document a successful `Register` adds holds the hash of the password, never the password itself. */
  lemma RegisterStoresHash(p: DocStore.Partition, user: Users.User, salt: Bcrypt.Salt, generated: ObjectIds.ObjectId,
                           faults: set<Fault>)
    requires Register(p, user, salt, generated, faults).outcome.Ok?
    ensures var p' := Register(p, user, salt, generated, faults).outcome.value.0;
            && |p'| == |p| + 1 && p'[..|p|] == p
            && "password" in p'[|p|] && p'[|p|]["password"].BStr?
            && Bcrypt.Verify(p'[|p|]["password"].s, user.password)
            && p'[|p|]["password"].s != user.password
  {
    var hashed := user.(password := Bcrypt.Hash(salt, user.password));
    Users.ToBsonFields(hashed);
    Bcrypt.VerifyHash(salt, user.password);
    Bcrypt.HashIsNotPlaintext(salt, user.password);
  }

  /**
   * `Authenticate(email, password)`: the FIRST document with that email
   * decides; the user it holds is returned when the password verifies
   * against its hash, and on any error the zero user comes back.
   */
  function Authenticate(p: DocStore.Partition, email: string, password: string, faults: set<Fault>): (r: (Users.User, Option<UserError>))
    ensures FindFails in faults ==> r == (Users.Empty, Some(FindFailed))
    ensures FindFails !in faults && DocStore.FindOne(p, "email", DocStore.BStr(email)).Some? ==>
              var d := DocStore.FindOne(p, "email", DocStore.BStr(email)).value;
              && (Users.FromBson(d).Err? ==> r == (Users.Empty, Some(Undecodable(Users.FromBson(d).error))))
              && (Users.FromBson(d).Ok? && Bcrypt.Verify(Users.FromBson(d).value.password, password) ==> r == (Users.FromBson(d).value, None))
              && (Users.FromBson(d).Ok? && !Bcrypt.Verify(Users.FromBson(d).value.password, password) ==> r == (Users.Empty, Some(InvalidPassword)))
    ensures r.1.Some? ==> r.0 == Users.Empty
    ensures r.1.None? ==> Bcrypt.Verify(r.0.password, password)
    ensures r.1.None? ==> exists d | d in p :: DocStore.Matches(d, "email", DocStore.BStr(email)) && Users.FromBson(d) == Ok(r.0)
    ensures (FindFails !in faults && DocStore.Count(p, "email", DocStore.BStr(email)) == 0) ==> r == (Users.Empty, Some(NoDocuments))
  {
    if FindFails in faults then (Users.Empty, Some(FindFailed))
    else
      match DocStore.FindOne(p, "email", DocStore.BStr(email))
      case None => (Users.Empty, Some(NoDocuments))
      case Some(d) =>
        match Users.FromBson(d)
        case Err(e) => (Users.Empty, Some(Undecodable(e)))
        case Ok(u) => if Bcrypt.Verify(u.password, password) then (u, None) else (Users.Empty, Some(InvalidPassword))
  }

  /**
   * A user just registered reads back, by the identifier `Register`
   * returned and by email and password, as the struct `Register` stored:
   * the caller's user with the hashed password and, when it had none, the
   * identifier the driver generated.
   */
  lemma RegisteredUserReadsBack(p: DocStore.Partition, user: Users.User, salt: Bcrypt.Salt, generated: ObjectIds.ObjectId,
                                faults: set<Fault>)
    requires Register(p, user, salt, generated, faults).outcome.Ok?
    requires user.id != ObjectIds.NilObjectId || generated != ObjectIds.NilObjectId
    requires FindFails !in faults
    ensures var (p', idText) := Register(p, user, salt, generated, faults).outcome.value;
            var id := if user.id == ObjectIds.NilObjectId then generated else user.id;
            var stored := user.(password := Bcrypt.Hash(salt, user.password), id := id);
            && GetUser(p', idText, faults) == Ok(stored)
            && Authenticate(p', user.email, user.password, faults) == (stored, None)
  {
    var id := if user.id == ObjectIds.NilObjectId then generated else user.id;
    var stored := user.(password := Bcrypt.Hash(salt, user.password), id := id);
    RegisterAppends(p, user, salt, generated, faults);
    Bcrypt.VerifyHash(salt, user.password);
    GetUserAppended(p, stored, faults);
    AuthenticateAppended(p, stored, user.password, faults);
  }

  /** A successful `Register` appends the document of the stored user, whose identifier and email were free. */
  lemma RegisterAppends(p: DocStore.Partition, user: Users.User, salt: Bcrypt.Salt, generated: ObjectIds.ObjectId,
                        faults: set<Fault>)
    requires Register(p, user, salt, generated, faults).outcome.Ok?
    requires user.id != ObjectIds.NilObjectId || generated != ObjectIds.NilObjectId
    ensures var id := if user.id == ObjectIds.NilObjectId then generated else user.id;
            var stored := user.(password := Bcrypt.Hash(salt, user.password), id := id);
            && Register(p, user, salt, generated, faults).outcome.value == (p + [Users.ToBson(stored)], ObjectIds.Hex(id))
            && DocStore.Count(p, "_id", DocStore.BOid(id)) == 0
            && DocStore.Count(p, "email", DocStore.BStr(user.email)) == 0
  {
    var hashed := user.(password := Bcrypt.Hash(salt, user.password));
    var id := if user.id == ObjectIds.NilObjectId then generated else user.id;
    Users.ToBsonFields(hashed);
    InsertedIsStored(hashed, id, generated);
  }

  /** A user appended under a free identifier is what `GetUser` answers for that identifier's hex. */
  lemma GetUserAppended(p: DocStore.Partition, u: Users.User, faults: set<Fault>)
    requires u.id != ObjectIds.NilObjectId && DocStore.Count(p, "_id", DocStore.BOid(u.id)) == 0 && FindFails !in faults
    ensures GetUser(p + [Users.ToBson(u)], ObjectIds.Hex(u.id), faults) == Ok(u)
  {
    Users.ToBsonFields(u);
    Users.FromToBson(u);
    ObjectIds.FromHexOfHex(u.id);
    DocStore.FindAppended(p, Users.ToBson(u), "_id", DocStore.BOid(u.id));
  }

  /** A user appended under a free email authenticates with any password its hash verifies. */
  lemma AuthenticateAppended(p: DocStore.Partition, u: Users.User, password: string, faults: set<Fault>)
    requires DocStore.Count(p, "email", DocStore.BStr(u.email)) == 0 && FindFails !in faults
    requires Bcrypt.Verify(u.password, password)
    ensures Authenticate(p + [Users.ToBson(u)], u.email, password, faults) == (u, None)
  {
    Users.ToBsonFields(u);
    Users.FromToBson(u);
    DocStore.FindAppended(p, Users.ToBson(u), "email", DocStore.BStr(u.email));
  }

  /** The document `InsertOne` adds for `hashed` is the driver's document of the user with its final identifier. */
  lemma InsertedIsStored(hashed: Users.User, id: ObjectIds.ObjectId, generated: ObjectIds.ObjectId)
    requires id == if hashed.id == ObjectIds.NilObjectId then generated else hashed.id
    requires id != ObjectIds.NilObjectId
    ensures Users.ToBson(hashed)["_id" := DocStore.BOid(id)] == Users.ToBson(hashed.(id := id))
  {
    if hashed.id == ObjectIds.NilObjectId {
      Users.ToBsonWithId(hashed, id);
    } else {
      Users.ToBsonFields(hashed);
      var d := Users.ToBson(hashed);
      assert d["_id" := DocStore.BOid(id)] == d;
      assert hashed.(id := id) == hashed;
    }
  }

  /** `SaveRefreshToken(userID, token)`. */
  function SaveRefreshToken(p: DocStore.Partition, id: ObjectIds.ObjectId, token: string, faults: set<Fault>): (r: Result<DocStore.Partition, UserError>)
    ensures r.Ok? <==> UpdateFails !in faults
    ensures r.Ok? ==> r.value == DocStore.UpdateOneSet(p, DocStore.BOid(id), map["refreshToken" := DocStore.BStr(token)]).value
  {
    if UpdateFails in faults then Err(UpdateFailed)
    else
      match DocStore.UpdateOneSet(p, DocStore.BOid(id), map["refreshToken" := DocStore.BStr(token)])
      case Err(_) => Err(UpdateFailed)
      case Ok(p') => Ok(p')
  }

  /**
   * `UpdateUser(userID, user)` as written: the duplicate-email count
   * excludes documents whose `_id` equals the identifier TEXT, which no
   * stored ObjectId does; the identifier is parsed only afterwards; the
   * whole struct is `$set`, password included, unhashed.
   */
  function UpdateUser(p: DocStore.Partition, userID: string, user: Users.User, faults: set<Fault>): (r: Result<DocStore.Partition, UserError>)
    ensures CountFails in faults ==> r == Err(CheckingEmailFailed)
    ensures r == Err(EmailTaken) <==> CountFails !in faults && EmailHeldElsewhere(p, user.email, DocStore.BStr(userID))
    ensures (CountFails !in faults && !EmailHeldElsewhere(p, user.email, DocStore.BStr(userID))) ==>
              && (ObjectIds.FromHex(userID).Err? ==> r == Err(InvalidId(ObjectIds.FromHex(userID).error)))
              && (ObjectIds.FromHex(userID).Ok? ==> r == ApplyUpdate(p, ObjectIds.FromHex(userID).value, user, faults))
    ensures r.Ok? ==> ObjectIds.FromHex(userID).Ok?
                      && r == ApplyUpdate(p, ObjectIds.FromHex(userID).value, user, faults)
  {
    if CountFails in faults then Err(CheckingEmailFailed)
    else if DocStore.CountExcept(p, "email", DocStore.BStr(user.email), DocStore.BStr(userID)) > 0 then Err(EmailTaken)
    else
      match ObjectIds.FromHex(userID)
      case Err(e) => Err(InvalidId(e))
      case Ok(id) => ApplyUpdate(p, id, user, faults)
  }

  /** Some document has `email` and an `_id` that is not equal to `self`: the `$ne` count is positive. */
  predicate EmailHeldElsewhere(p: DocStore.Partition, email: string, self: DocStore.Bson)
  {
    exists i | 0 <= i < |p| :: DocStore.Matches(p[i], "email", DocStore.BStr(email)) && !DocStore.Matches(p[i], "_id", self)
  }

  /** The `$set` of the whole struct on the document with that `_id`. */
  function ApplyUpdate(p: DocStore.Partition, id: ObjectIds.ObjectId, user: Users.User, faults: set<Fault>): (r: Result<DocStore.Partition, UserError>)
    ensures var u := DocStore.UpdateOneSet(p, DocStore.BOid(id), Users.ToBson(user));
            && (r.Ok? <==> UpdateFails !in faults && u.Ok?)
            && (r.Ok? ==> r.value == u.value)
  {
    if UpdateFails in faults then Err(UpdatingUserFailed)
    else
      match DocStore.UpdateOneSet(p, DocStore.BOid(id), Users.ToBson(user))
      case Err(_) => Err(UpdatingUserFailed)
      case Ok(p') => Ok(p')
  }

  /**
   * A document `_id` holds an ObjectId, which never equals a text, so the
   * `$ne` clause excludes nothing: a user who keeps their own email is told
   * it is taken.
   */
  lemma UpdateUserRejectsOwnEmail(p: DocStore.Partition, i: nat, user: Users.User, faults: set<Fault>)
    requires i < |p| && "_id" in p[i] && p[i]["_id"].BOid?
    requires DocStore.Matches(p[i], "email", DocStore.BStr(user.email)) && CountFails !in faults
    ensures UpdateUser(p, ObjectIds.Hex(p[i]["_id"].id), user, faults) == Err(EmailTaken)
  {
    var userID := ObjectIds.Hex(p[i]["_id"].id);
    assert !DocStore.Matches(p[i], "_id", DocStore.BStr(userID));
  }

  /**
   * `UpdateUser` as evidently intended: parse the identifier first and
   * exclude the document with that ObjectId from the duplicate-email count.
   */
  function UpdateUserFixed(p: DocStore.Partition, userID: string, user: Users.User, faults: set<Fault>): (r: Result<DocStore.Partition, UserError>)
    ensures ObjectIds.FromHex(userID).Err? ==> r == Err(InvalidId(ObjectIds.FromHex(userID).error))
    ensures r.Ok? ==> r == ApplyUpdate(p, ObjectIds.FromHex(userID).value, user, faults)
  {
    match ObjectIds.FromHex(userID)
    case Err(e) => Err(InvalidId(e))
    case Ok(id) =>
      if CountFails in faults then Err(CheckingEmailFailed)
      else if DocStore.CountExcept(p, "email", DocStore.BStr(user.email), DocStore.BOid(id)) > 0 then Err(EmailTaken)
      else ApplyUpdate(p, id, user, faults)
  }

  /**
   * With the fix the email check passes exactly when no OTHER document has
   * the email, so a user who keeps their own email is not rejected.
   */
  lemma UpdateUserFixedOwnEmail(p: DocStore.Partition, id: ObjectIds.ObjectId, user: Users.User, faults: set<Fault>)
    requires CountFails !in faults
    requires forall j | 0 <= j < |p| && DocStore.Matches(p[j], "email", DocStore.BStr(user.email)) ::
               DocStore.Matches(p[j], "_id", DocStore.BOid(id))
    ensures UpdateUserFixed(p, ObjectIds.Hex(id), user, faults) != Err(EmailTaken)
    ensures UpdateUserFixed(p, ObjectIds.Hex(id), user, faults) == ApplyUpdate(p, id, user, faults)
  {
    ObjectIds.FromHexOfHex(id);
  }

  /** The fixed update still refuses an email that another document holds. */
  lemma UpdateUserFixedOtherEmail(p: DocStore.Partition, id: ObjectIds.ObjectId, j: nat, user: Users.User, faults: set<Fault>)
    requires CountFails !in faults && j < |p|
    requires DocStore.Matches(p[j], "email", DocStore.BStr(user.email)) && !DocStore.Matches(p[j], "_id", DocStore.BOid(id))
    ensures UpdateUserFixed(p, ObjectIds.Hex(id), user, faults) == Err(EmailTaken)
  {
    ObjectIds.FromHexOfHex(id);
  }

  /** A successful update stores the password as given: the document's password is the plaintext, which no longer verifies. */
  lemma UpdateStoresPlainPassword(p: DocStore.Partition, userID: string, user: Users.User, faults: set<Fault>, j: nat)
    requires UpdateUser(p, userID, user, faults).Ok?
    requires j < |p| && UpdateUser(p, userID, user, faults).value[j] != p[j]
    ensures var q := UpdateUser(p, userID, user, faults).value;
            "password" in q[j] && q[j]["password"] == DocStore.BStr(user.password) && !Bcrypt.Verify(user.password, user.password)
  {
    var id := ObjectIds.FromHex(userID).value;
    DocStore.UpdateTouchesOne(p, DocStore.BOid(id), Users.ToBson(user));
    Users.ToBsonFields(user);
    Bcrypt.PlaintextNeverVerifies(user.password);
  }

  /** `DeleteUser(userID)`: a malformed identifier is rejected; deleting an identifier nobody has is not an error. */
  function DeleteUser(p: DocStore.Partition, userID: string, faults: set<Fault>): (r: Result<DocStore.Partition, UserError>)
    ensures ObjectIds.FromHex(userID).Err? ==> r == Err(InvalidId(ObjectIds.FromHex(userID).error))
    ensures r.Ok? <==> ObjectIds.FromHex(userID).Ok? && DeleteFails !in faults
    ensures r.Ok? ==>
              var id := DocStore.BOid(ObjectIds.FromHex(userID).value);
              && |r.value| == |p| - (if DocStore.Count(p, "_id", id) > 0 then 1 else 0)
              && (DocStore.Count(p, "_id", id) == 0 ==> r.value == p)
              && forall d | d in p && !DocStore.Matches(d, "_id", id) :: d in r.value
  {
    match ObjectIds.FromHex(userID)
    case Err(e) => Err(InvalidId(e))
    case Ok(id) =>
      if DeleteFails in faults then Err(DeletingUserFailed)
      else
        DocStore.DeleteKeepsOthers(p, DocStore.BOid(id));
        Ok(DocStore.DeleteOne(p, DocStore.BOid(id)))
  }

  /** `GenerateAndStoreToken(user)`: the store is written only when both tokens were made, with exactly the refresh token returned. */
  function GenerateAndStoreToken(p: DocStore.Partition, user: Users.User, secretKey: string, refreshSecret: string,
                                 now: int, faults: set<Fault>): (r: Result<(DocStore.Partition, string, string), UserError>)
    ensures var g := Jwt.GenerateToken(user.id, secretKey, refreshSecret, now, faults);
            && (r.Ok? <==> g.Ok? && UpdateFails !in faults)
            && (r.Ok? ==> r.value.1 == g.value.0 && r.value.2 == g.value.1
                          && Ok(r.value.0) == SaveRefreshToken(p, user.id, g.value.1, faults))
  {
    match Jwt.GenerateToken(user.id, secretKey, refreshSecret, now, faults)
    case Err(_) => Err(SigningFailed)
    case Ok((access, refresh)) =>
      match SaveRefreshToken(p, user.id, refresh, faults)
      case Err(e) => Err(e)
      case Ok(p') => Ok((p', access, refresh))
  }

  /**
   * After `GenerateAndStoreToken` the only documents that changed are those
   * of the user's `_id`, which now hold the returned refresh token, and both
   * returned tokens are accepted for the user under their own secrets.
   */
  lemma IssueStoresRefreshToken(p: DocStore.Partition, user: Users.User, secretKey: string, refreshSecret: string,
                                now: int, faults: set<Fault>)
    requires GenerateAndStoreToken(p, user, secretKey, refreshSecret, now, faults).Ok?
    ensures var (p', access, refresh) := GenerateAndStoreToken(p, user, secretKey, refreshSecret, now, faults).value;
            && |p'| == |p|
            && (forall i | 0 <= i < |p| && p'[i] != p[i] ::
                  DocStore.Matches(p[i], "_id", DocStore.BOid(user.id))
                  && p'[i] == p[i] + map["refreshToken" := DocStore.BStr(refresh)])
            && Jwt.ValidateToken(access, secretKey, now).Ok?
            && Jwt.ValidateToken(access, secretKey, now).value.userId == user.id
            && Jwt.ValidateToken(refresh, refreshSecret, now).Ok?
            && Jwt.ValidateToken(refresh, refreshSecret, now).value.userId == user.id
  {
    var refresh := Jwt.GenerateToken(user.id, secretKey, refreshSecret, now, faults).value.1;
    DocStore.UpdateTouchesOne(p, DocStore.BOid(user.id), map["refreshToken" := DocStore.BStr(refresh)]);
    Jwt.AccessTokenLifetime(user.id, secretKey, refreshSecret, now, faults, now);
    Jwt.RefreshTokenLifetime(user.id, secretKey, refreshSecret, now, faults, now);
  }
}
