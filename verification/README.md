# Entity accounts, tokens and the cache-through read — a Dafny model

This project models the account core of the `awesomeProject` food-delivery
back end, a Go service with two kinds of account entity: `User` and `Restaurant`.
The model covers:

- the entity interface and its fixed partitions ("users", "restaurants");
- the insert document `GetCustomData` builds, and the tag constraints;
- registration and password authentication, in `EntityService` and in the older `UserService`;
- access and refresh tokens: JWT, HS256, 15 minutes and 7 days;
- the bearer-token gate;
- the Redis cache in front of entity reads, and the HTTP handlers' decisions;
- the custom OGRN/INN validators and the `.env` line loader.

Everything is pure and functional:

- **Document store.** The MongoDB store is a map from partition name to the
  partition's documents in natural order (`DocStore`).
- **Cache.** The Redis cache is a map from key to value and expiry time (`Cache`).
- **Failures.** Every external call that can fail is steered by a set of injected `Faults`.
- **Time and randomness.** Both are parameters: `now` in seconds, the bcrypt
  salt, the ObjectId the driver assigns, and the 32 random bytes of the refresh
  secret.
- **Hashing and signing.** bcrypt and HMAC are stand-ins with the properties the
  code relies on:
  - a hash depends only on the first 72 bytes of the password and the zero
    bcrypt appends, and it never equals the password;
  - different keys give different MACs.
- **JWT segments.** These use an escape encoding free of '.' and ' ' in
  place of base64url.
- **JSON.** The model has its own JSON printer and parser with a proved round
  trip. Decoding into a struct follows `encoding/json`: a key matches its field
  up to case, where ASCII letters fold and so do U+017F (long s, an 's') and
  U+212A (Kelvin sign, a 'k'); the last duplicate wins, and `null` leaves the value as it was.

Files and modules:

| file | module | Go source |
|---|---|---|
| `common.dfy` | `Results`, `Faults` | shared result and fault types |
| `text.dfy` | `Text` | `strings.Split`, `strings.TrimSpace`, `encoding/json` key folding, UTF-8 bytes |
| `objectid.dfy` | `ObjectIds` | `primitive.ObjectID` hex form |
| `json.dfy`, `binding.dfy` | `Json`, `Binding` | `encoding/json` and the BSON struct codec |
| `store.dfy` | `DocStore` | the MongoDB calls the services make |
| `bcrypt.dfy` | `Bcrypt` | `golang.org/x/crypto/bcrypt` |
| `validators.dfy` | `Tags`, `CustomValidators` | pkg/validator/custom_validators.go |
| `user.dfy`, `restaurant.dfy` | `Users`, `Restaurants` | internal/models/user.go, internal/models/restaurant.go |
| `entity.dfy` | `Entities` | the `Authenticatable` interface and the kind-tag switch |
| `segments.dfy`, `jwt.dfy` | `Segments`, `Jwt` | internal/auth/jwt.go and `golang-jwt/jwt/v4` |
| `middleware.dfy` | `Middleware` | internal/auth/middleware.go |
| `cache.dfy` | `Cache` | internal/services/redis.go |
| `auth_service.dfy` | `EntityService` | internal/services/auth_service.go |
| `user_service.dfy` | `UserService` | internal/services/user_service.go |
| `http.dfy` | `Http` | replies, cookies and body decoding shared by the handlers |
| `auth_handler.dfy` | `AuthHandlers` | internal/handlers/auth_handler.go |
| `user_handler.dfy` | `EntityHandlers` | internal/handlers/user_handler.go |
| `env.dfy` | `Env` | pkg/env/loadenv.go |

Three behaviours of the code are easy to misread, and the model keeps each as written:

- **Bearer scheme.** `extractToken` takes the second of exactly two
  space-separated words and never looks at the first, so any scheme word passes.
- **Cache key.** `GetEntityById` reads the cache under the lower-case hex of
  the id but writes under the id text from the path. See Findings.
- **User age.** The age's tags are `required,gte=0,lte=130`. On an `int`,
  `required` rejects 0, so a valid age is 1..130.

## Model

| member | source | states |
|---|---|---|
| Users.CustomDataKeys | internal/models/user.go:60-75 | the insert document has exactly the twelve keys email, password, surname, name, age, phone, interests, description, avatar, banned, banReason, roles |
| Users.CustomDataValues | internal/models/user.go:60-75 | email, password (unhashed) and roles in the insert document are the struct's fields |
| Users.CustomDataExcludes | internal/models/user.go:15-33 | the insert document has no `_id` and no refresh token under either spelling |
| Users.FromToJson | internal/models/user.go:15-33 | a user written as JSON reads back as itself with an empty refresh token |
| Users.ToJsonHidesRefreshToken | internal/models/user.go:29 | the JSON form does not depend on the refresh token (`json:"-"`) |
| Users.FromToBson | internal/models/user.go:16-32 | a user stored by the driver reads back unchanged |
| Users.ToBsonFields | internal/models/user.go:16-18 | the stored document carries `_id` exactly when the identifier is set, and the email and password as in the struct |
| Users.ToBsonWithId | internal/models/user.go:16 | giving the user an identifier adds `_id` to its document and changes nothing else |
| Users.FromBsonAfterTokenSet | internal/models/user.go:29 | after `$set` of "refreshToken" the stored user reads back with that token and nothing else changed |
| Users.Validate | internal/models/user.go:17-25 | no errors exactly when every `validate` tag holds: the required fields non-empty, the age 1..130, a password of at least 6 characters, a phone of exactly 11, the free texts at most 1000 |
| Users.AgeZeroInvalid | internal/models/user.go:21 | an age of 0 fails `required`, although `gte=0` admits it |
| Restaurants.CustomDataKeys | internal/models/restaurant.go:93-110 | the insert document has exactly the fourteen listed keys |
| Restaurants.CustomDataValues | internal/models/restaurant.go:93-110 | email, the raw password and roles (`GetRoles()`) are the struct's fields |
| Restaurants.CustomDataExcludes | internal/models/restaurant.go:16-37 | the insert document has no `_id` and no refresh token |
| Restaurants.FromToJson | internal/models/restaurant.go:16-36 | a restaurant written as JSON reads back as itself with an empty refresh token |
| Restaurants.ToJsonHidesRefreshToken | internal/models/restaurant.go:33 | the JSON form does not depend on the refresh token |
| Restaurants.FromToBson | internal/models/restaurant.go:17-36 | a restaurant stored by the driver reads back unchanged |
| Restaurants.FromBsonAfterTokenSet | internal/models/restaurant.go:33 | after `$set` of "refreshToken" the stored restaurant reads back with that token |
| Restaurants.Validate | internal/models/restaurant.go:18-28 | no errors exactly when every tag of `ValidateRestaurant` holds (lengths 13, 10 and 11; price above 0; password at least 6) |
| Restaurants.TwelveDigitInnInvalid | internal/models/restaurant.go:25 | a 12-character INN fails the `len=10` tag |
| CustomValidators.OgrnCharacterised | pkg/validator/custom_validators.go:15-19 | OGRN accepted iff exactly 13 characters, each '0'..'9'; equivalently, iff the digit run read from the start is 13 long and ends the text |
| CustomValidators.InnCharacterised | pkg/validator/custom_validators.go:22-27 | INN accepted iff exactly 10 or 12 characters, each '0'..'9'; equivalently, iff the digit run read from the start is the whole text and 10 or 12 long |
| CustomValidators.RejectsNonDigits | pkg/validator/custom_validators.go:17 | a non-digit anywhere fails both tags |
| CustomValidators.RejectsTrailingNewline | pkg/validator/custom_validators.go:25 | a trailing newline fails both tags |
| CustomValidators.Register | pkg/validator/custom_validators.go:9-12 | registration binds "ogrn" and "inn" and leaves every other tag as it was |
| CustomValidators.RegisteredApply | pkg/validator/custom_validators.go:10-11 | the tag "ogrn" runs the OGRN check and "inn" the INN check, whatever the table held before; so, once registered, "ogrn" accepts exactly the texts that are a run of 13 digits and "inn" exactly the runs of 10 or 12 |
| Entities.KindOfTag | internal/services/auth_service.go:62-69 | a kind exactly for "users" and "restaurants", and its partition is the tag |
| Entities.KindOfTagCollection | internal/services/auth_service.go:62-69 | each kind is named by its own partition |
| Entities.CollectionNameFixed | internal/models/user.go:56-58 | `GetCollectionName()` is "users" for every user (and "restaurants" for every restaurant, restaurant.go:89-91) |
| Entities.CustomDataAgrees | internal/models/user.go:52-75 | the insert document's email, password and roles are what the accessors return; no identifier or refresh token |
| Entities.FromToJson | internal/services/redis.go:30 | either kind survives a JSON write and read, less its refresh token |
| Entities.ToJsonHidesRefreshToken | internal/models/user.go:29 | the JSON form of either kind does not depend on the refresh token |
| Entities.FromToBson | internal/services/auth_service.go:71-78 | either kind stored by the driver reads back unchanged |
| Entities.FromBsonAfterTokenSet | internal/services/auth_service.go:88-93 | after the services' `$set` of the refresh token the stored entity reads back with that token and nothing else changed |
| Bcrypt.VerifyHash | internal/services/auth_service.go:35-39 | a stored hash verifies the password it was made from |
| Bcrypt.VerifySameKey | internal/services/auth_service.go:81-84 | a hash verifies exactly the passwords whose 72-byte Blowfish key equals its own |
| Bcrypt.VerifyOnlyOriginal | internal/services/auth_service.go:81-84 | for passwords without NUL, one of them shorter than 72 bytes, a hash verifies exactly its own password |
| Bcrypt.VerifiesLongExtension | internal/services/auth_service.go:81-84 | the hash of a password of 72 bytes or more also verifies every extension of it |
| Bcrypt.HashIsNotPlaintext | internal/services/auth_service.go:35-39 | the hash is never the plaintext |
| Bcrypt.PlaintextNeverVerifies | internal/services/user_service.go:111-113 | a password stored without hashing does not verify against itself |
| DocStore.InsertOne | internal/services/auth_service.go:43-46 | a new `_id` is taken from the driver; a duplicate `_id` is refused; the document is appended |
| DocStore.FindAppended | internal/services/user_service.go:105 | a document appended where nothing matched is the first match |
| DocStore.UpdateOneSet | internal/services/auth_service.go:91 | only the first document with that `_id` gains the `$set` fields; no match changes nothing |
| DocStore.UpdateTouchesOne | internal/services/auth_service.go:104-105 | a successful update changes only one document, by exactly the `$set` fields (a corollary of `UpdateOneSet`'s contract, stated in the form the services' lemmas use) |
| DocStore.CountExcept | internal/services/user_service.go:127 | the count with `_id` `$ne` excludes only documents whose `_id` equals the given value |
| DocStore.DeleteKeepsOthers | internal/services/user_service.go:161-162 | delete removes at most one document and keeps every document with another `_id` |
| ObjectIds.FromHex | internal/services/user_service.go:56-59 | parses exactly the 24-character hex texts, in either case; `Hex` of the result is the lower-cased input |
| ObjectIds.FromHexOfHex | internal/handlers/user_handler.go:310 | the hex form always parses back to the same identifier |
| ObjectIds.HexOfFromHex | internal/handlers/user_handler.go:73-77 | printing a parsed identifier gives the text back exactly when the text is lower case, so any other spelling is a different cache key (a corollary of `FromHex`'s contract) |
| Json.UnmarshalPrint | internal/services/redis.go:30-57 | printing a JSON value and parsing the text gives the value back |
| Json.DecodeFirstPrint | internal/handlers/auth_handler.go:45 | a request body starting with a printed value, followed by a delimiter, decodes to that value |
| Jwt.GenerateToken | internal/auth/jwt.go:20-48 | both tokens or an error; the access token is HS256 with `secretKey`, the refresh token with `refreshTokenSecret` |
| Jwt.AccessTokenLifetime | internal/auth/jwt.go:21-27 | the access token validates under the access secret iff less than 15 minutes have passed; its claims carry the identifier, issuer "food&friends" and empty email and roles |
| Jwt.RefreshTokenLifetime | internal/auth/jwt.go:34-40 | the refresh token validates under the refresh secret iff less than 7 days have passed, with the same identifier and issuer |
| Jwt.RefreshOutlivesAccess | internal/auth/jwt.go:24-37 | the refresh claims are valid whenever the access claims are, and still valid when the access token expires |
| Jwt.TokensNotInterchangeable | internal/auth/jwt.go:28-42 | with different secrets, neither token validates under the other's secret |
| Jwt.GeneratedTokensShape | internal/auth/jwt.go:28-45 | issued tokens are non-empty and contain no space |
| Jwt.ValidateToken | internal/auth/jwt.go:51-64 | for any text whose `user_id` claim is not a raw 12-byte JSON value: accepted exactly when it parses, its time claims hold and its signature verifies under `secretKey` (so only with an HMAC method); the result is the token's own claims; a parse error is passed through |
| Jwt.ValidateSigned | internal/auth/jwt.go:52-60 | an HMAC-signed token is accepted under its key iff its time claims hold, whatever its issuer |
| Jwt.ValidateWrongKey | internal/auth/jwt.go:52-57 | under any other key the signature is reported invalid |
| Jwt.ValidateRejectsNonHmac | internal/auth/jwt.go:52-57 | a header naming a non-HMAC method (or "none") is never accepted, since the key function returns a byte key |
| Jwt.Check | internal/auth/jwt.go:56-60 | accepted iff the time claims hold and the signature verifies; a rejection raises at least one flag |
| Jwt.ParseAssembled | internal/auth/jwt.go:52 | reading a built token recovers its method, claims, signing input and signature |
| Jwt.MacKeyInjective | internal/auth/jwt.go:29 | different keys give different signatures of the same text |
| Middleware.ExtractToken | internal/auth/middleware.go:33-40 | a non-empty result is the text after the only space of the header, and neither part contains a space |
| Middleware.ExtractOf | internal/auth/middleware.go:35-37 | "<word> <token>" with space-free parts yields the token, whatever the scheme word |
| Middleware.ExtractNeedsOneSpace | internal/auth/middleware.go:36-39 | a header without exactly one space yields "" |
| Middleware.AuthMiddleware | internal/auth/middleware.go:10-30 | an empty token gives 401 "Authorization token not provided"; a failed validation gives 401 "Invalid or expired token"; otherwise next runs with the claims under "userClaims" and every other context value kept |
| Middleware.GateAdmits | internal/auth/middleware.go:19-27 | a "<word> <token>" header whose token validates passes with exactly those claims added to the context |
| Middleware.GateDenies | internal/auth/middleware.go:19-23 | a well-formed header whose token does not validate gets 401 "Invalid or expired token" |
| Middleware.GateAdmitsAccessToken | internal/auth/middleware.go:13-27 | a fresh access token passes the gate exactly until it expires, with the issuing identifier in the claims |
| Middleware.GateRejectsRefreshToken | internal/auth/middleware.go:19-23 | a refresh token does not pass the gate when the secrets differ |
| Cache.CacheEntity | internal/services/redis.go:29-40 | a SET failure is an error; otherwise the entity's JSON is visible under the key and no other key changes |
| Cache.GetCachedEntity | internal/services/redis.go:42-60 | a miss is reported as the miss itself; other backend errors as they come; an empty value as "no data"; a hit has the requested kind |
| Cache.CacheThenGet | internal/services/redis.go:29-59 | an entity cached and read back within the hour is the same entity less its refresh token |
| Cache.CacheExpires | internal/services/redis.go:34 | after one hour the key is a miss |
| EntityService.Register | internal/services/auth_service.go:20-51 | succeeds iff the count works and finds the email unused, hashing works and the insert works; a taken email inserts nothing; on success the hex of the new identifier is returned and only the entity's partition gains the hashed document |
| EntityService.RegisteredDocHashed | internal/services/auth_service.go:23-39 | the inserted document is `GetCustomData()` with the password replaced by a hash that verifies it and is not the plaintext |
| EntityService.RegisteredAuthenticates | internal/services/auth_service.go:20-93 | an entity just registered authenticates with its own email and password, and reads back with the hash, the generated identifier and the fields the insert document leaves out at zero |
| Entities.FromCustomData | internal/models/user.go:60-75 | the insert document with a password and the driver's identifier put in decodes to that entity, with the refresh token, favourites and opening hours at zero |
| EntityService.RegisterTouchesOwnPartition | internal/services/auth_service.go:21-22 | registration changes only the entity's partition, which grows by exactly one document |
| EntityService.Authenticate | internal/services/auth_service.go:54-85 | an unknown partition is rejected before any lookup; no matching email gives "no entity found"; success returns the stored entity of that kind, whose hash verifies the password |
| EntityService.AuthenticateDecides | internal/services/auth_service.go:81-84 | with a readable match, success iff the password verifies; otherwise "invalid password" |
| EntityService.SaveRefreshToken | internal/services/auth_service.go:88-93 | the `$set` of the refresh token on that `_id`, in that partition only |
| EntityService.GenerateAndStoreToken | internal/services/auth_service.go:96-111 | nothing is written when signing fails; otherwise the refresh token is stored and both tokens are returned |
| EntityService.GetSecretKeys | internal/services/auth_service.go:124-140 | the configured secret with the freshly drawn refresh secret; an unset secret ends the process |
| EntityService.AuthenticateAndGenerateTokens | internal/services/auth_service.go:142-157 | an authentication failure is returned as is; otherwise tokens are issued for the stored entity |
| EntityService.IssueStoresRefreshToken | internal/services/auth_service.go:143-156 | after success the only change to the store is the `$set` of the returned refresh token on the stored entity's document, and the access token validates with the stored identifier |
| UserService.GetUser | internal/services/user_service.go:54-67 | a malformed id is rejected before the store; a failing find is an error; otherwise the first document with that `_id` decides: none is "no documents", one that decodes is the answer, one that does not is a decoding error |
| UserService.Register | internal/services/user_service.go:70-99 | a taken email inserts nothing and leaves the caller's user as it was; past the checks the caller's password is overwritten by the hash, even when the insert fails; success returns the inserted identifier's hex |
| UserService.RegisterStoresHash | internal/services/user_service.go:84-91 | the inserted document holds a hash that verifies the password and is not the plaintext |
| UserService.Authenticate | internal/services/user_service.go:103-116 | any error returns the zero user; the first document with the email decides: if it decodes, its user comes back when its hash verifies the password and "invalid password" otherwise |
| UserService.RegisteredUserReadsBack | internal/services/user_service.go:54-116 | a user just registered is what `GetUser` answers for the returned id and what `Authenticate` answers for its email and password: the caller's user with the hashed password and its final `_id` |
| UserService.RegisterAppends | internal/services/user_service.go:70-99 | a successful registration appends the document of the stored user, whose `_id` and email were free before |
| UserService.GetUserAppended | internal/services/user_service.go:54-67 | a user appended under a free `_id` is what `GetUser` returns for that id's hex |
| UserService.AuthenticateAppended | internal/services/user_service.go:103-116 | a user appended under a free email authenticates, with itself as the result, for any password its hash verifies |
| UserService.SaveRefreshToken | internal/services/user_service.go:119-122 | the `$set` of the refresh token on that `_id` |
| UserService.UpdateUser | internal/services/user_service.go:125-150 | "already registered" exactly when the count runs and some document holds the email with an `_id` not equal to the id TEXT; past that check a malformed id is rejected and a well-formed one gives the `$set` of the whole struct |
| UserService.ApplyUpdate | internal/services/user_service.go:142-147 | the `$set` of the whole struct on the document with that `_id`, or "updating user failed" |
| UserService.UpdateUserRejectsOwnEmail | internal/services/user_service.go:127-133 | a user whose ObjectId `_id` holds the email is told the email is taken |
| UserService.UpdateUserFixed | internal/services/user_service.go:125-150 | corrected update: the id is parsed first; a malformed id is rejected before the email check |
| UserService.UpdateUserFixedOwnEmail | internal/services/user_service.go:127-133 | corrected update: keeping one's own email is not rejected |
| UserService.UpdateUserFixedOtherEmail | internal/services/user_service.go:127-133 | corrected update: an email held by another document is still rejected |
| UserService.UpdateStoresPlainPassword | internal/services/user_service.go:142-144 | the document an update changes holds the new password unhashed, and it does not verify |
| UserService.DeleteUser | internal/services/user_service.go:153-168 | a malformed id is rejected; an id nobody has is not an error and changes nothing; other documents are kept |
| UserService.GenerateAndStoreToken | internal/services/user_service.go:184-200 | the store is written only when both tokens were made, and the stored refresh token is the one returned |
| UserService.IssueStoresRefreshToken | internal/services/user_service.go:184-200 | after success only the user's documents change, by the `$set` of the returned refresh token, and both tokens validate for the user under their own secrets |
| Http.DecodeEntity | internal/handlers/auth_handler.go:45-48 | a new entity of the kind exactly when the body's first JSON value decodes into it (surrogate-pair escapes, `{"$oid": …}` identifiers and keys matched up to `encoding/json` case folding included) |
| Json.SurrogatePairDecodes | internal/handlers/auth_handler.go:45 | a `\u` escape of a high surrogate followed by one of a low surrogate decodes to the one character the pair encodes |
| Json.LoneSurrogateReplaced | internal/handlers/auth_handler.go:45 | a surrogate escape that starts no pair decodes to U+FFFD and leaves what follows to be read |
| Json.PairCharOnto | internal/handlers/auth_handler.go:45 | every character beyond U+FFFF is the decoding of a surrogate pair |
| Binding.OidOfJson | internal/models/user.go:16 | an identifier is read from a string or from `{"$oid": <string>}`: "" is the nil id, otherwise 24 hex digits in either case |
| Binding.FieldIndexFolded | internal/handlers/auth_handler.go:45 | when no two fields fold alike, a key that folds like a field's name selects that field |
| Users.LongSSelectsPassword | internal/handlers/auth_handler.go:45 | the key "pa\u017Fsword", with a long s, fills the password field |
| Binding.OidOfBothForms | internal/models/user.go:16 | an identifier's hex string and its extended-JSON object both decode to it |
| Http.DecodeEntityOfJson | internal/handlers/auth_handler.go:45 | a body holding an entity's JSON decodes to that entity, less its refresh token |
| AuthHandlers.RegisterHandler | internal/handlers/auth_handler.go:30-62 | an unknown tag is 400 before decoding; a bad body is 400; a service error is 500 with its text and no change; success replies {"entityID": id} with the service's store |
| AuthHandlers.RegisterHandlerRegistersBody | internal/handlers/auth_handler.go:45-56 | posting an entity's JSON registers exactly that entity and replies with the assigned identifier |
| AuthHandlers.TokenCookies | internal/handlers/auth_handler.go:96-118 | cookies AccessToken (15 minutes) and RefreshToken (7 days), both HttpOnly, Secure, Path "/", SameSite Strict |
| AuthHandlers.LoginHandler | internal/handlers/auth_handler.go:64-94 | unknown tag or bad body is 400; an unset secret ends the process; a failure is 500 with a fixed message and no cookies; success sets both cookies and replies `{"accessToken", "refreshToken", "status": "success"}`, keys sorted as `encoding/json` writes a map |
| AuthHandlers.LoginCookiesMatchTokens | internal/handlers/auth_handler.go:82-89 | each cookie expires exactly when its token stops validating |
| AuthHandlers.LoginRefreshSecretIsPerRequest | internal/handlers/auth_handler.go:82 | the refresh secret is drawn per login: a refresh token is rejected under any other draw |
| EntityHandlers.LoginEntityHandler | internal/handlers/user_handler.go:40-66 | unknown tag is 400; a `null` body aborts the request; every authentication failure is the same 401; success replies the stored entity's JSON |
| EntityHandlers.LoginEntityHidesCause | internal/handlers/user_handler.go:57-61 | an unknown email and a wrong password get the identical reply |
| EntityHandlers.ReadThrough | internal/handlers/user_handler.go:90-115 | a hit never calls the store; errors other than a miss are 500 without the store; on a miss, no entity is 404, a failed cache write is 500, otherwise the entity is cached and returned |
| EntityHandlers.CacheOutageHidesStoreHit | internal/handlers/user_handler.go:102-112 | when the cache misses and then refuses the write, the entity the store just returned is replaced by a 500 |
| EntityHandlers.ReadThroughServes | internal/handlers/user_handler.go:90-115 | corrected read-through: a store hit is answered with the entity whether or not caching it succeeds; every other path is as written |
| EntityHandlers.ServesStoreHit | internal/handlers/user_handler.go:102-115 | corrected read-through: a store hit is always answered with the entity, the reply the written code gives when the cache accepts the write |
| EntityHandlers.GetEntityById | internal/handlers/user_handler.go:69-116 | a non-hex id is 400 before the cache; the read key is the lower-cased id, the write key the id as given |
| EntityHandlers.UpperCaseIdNeverHits | internal/handlers/user_handler.go:90-108 | for an id with an upper-case digit the cached entity is never read back: the next request goes to the store again |
| EntityHandlers.GetEntityByIdFixed | internal/handlers/user_handler.go:69-116 | corrected read: the store hit is cached under the canonical read key and answered even when caching fails |
| EntityHandlers.FixedSecondReadHits | internal/handlers/user_handler.go:90-95 | corrected read: within the hour the next request, in any spelling of the id, is served from the cache with the same reply and no store call |
| EntityHandlers.GetUserIdFromContext | internal/handlers/user_handler.go:304-316 | an error without a claims pointer or with a nil one; otherwise the claims' identifier unchanged |
| EntityHandlers.GateThenUserId | internal/handlers/user_handler.go:305-315 | behind the gate the handler reads the identifier of the token the request carried |
| Env.RawLines | pkg/env/loadenv.go:19-20 | the scanner's lines contain no newline and joined with newlines give the file back; a final newline does not start another line |
| Env.DropCR | pkg/env/loadenv.go:21 | a line keeps its text except for one trailing carriage return |
| Text.Utf8LengthAppend | pkg/env/loadenv.go:19 | the byte length of joined texts is the sum of their byte lengths |
| Text.Utf8BytesInjective | internal/services/auth_service.go:35 | different texts have different UTF-8 bytes |
| Text.Utf8LengthAscii | pkg/env/loadenv.go:19 | a text has one byte per character exactly when it is all ASCII |
| Env.FirstTooLong | pkg/env/loadenv.go:20 | the scan stops at the first line whose UTF-8 form is 65536 bytes or more, and every earlier line is shorter |
| Env.OverlongLineSetsNothing | pkg/env/loadenv.go:19-36 | a one-line file that reaches the byte limit sets nothing and reports the scanner error |
| Env.TwoByteLettersCountDouble | pkg/env/loadenv.go:19-36 | "K=" and 40000 two-byte letters is under 65536 characters yet too long, so nothing is set |
| Env.ParseLine | pkg/env/loadenv.go:22-30 | no assignment for an empty line, a line starting with '#', or a line without '='; otherwise the key before the first '=' and the rest, both trimmed |
| Env.ParseAssignment | pkg/env/loadenv.go:25-30 | a line splits at its first '=' only, so the value keeps later '=' characters |
| Env.IndentedHashIsNotComment | pkg/env/loadenv.go:22-24 | an indented "#name=..." line is an assignment, not a comment |
| Env.Setenv | pkg/env/loadenv.go:31 | sets the variable, or changes nothing when the key is empty or holds '=' or NUL, or the value holds NUL |
| Env.LastAssignmentWins | pkg/env/loadenv.go:20-32 | applying lines in order leaves each key with the value of the last line that sets it, and keys no line sets as they were |
| Env.LastValueFront | pkg/env/loadenv.go:20-32 | the reference reading from the end agrees with reading from the front, where a later line overrides an earlier one |
| Env.LoadEnv | pkg/env/loadenv.go:11-38 | an unopenable file sets nothing and is an error; otherwise lines are applied in order up to the first line of 65536 bytes or more, which is an error |
| Env.LoadEnvLastWins | pkg/env/loadenv.go:19-37 | a readable file sets each key to its last assignment, with no error |

## Left out

- `GetSecretKeys` loading `.env` through `godotenv` and the `log.Fatal` exits: an unset secret is the only exit modelled. `UserService.GetSecretKeys` is the same apart from the path and is not modelled separately.
- `GenerateRandomSecret`: the 32 random bytes are a parameter. A failure of `crypto/rand` ends the process and is not modelled.
- `GetAllUsers`, `GetEntity`, `UpdateEntity`, `DeleteEntity`, `ChangePassword` and the favourites operations are left out: their bodies are not part of this model. `GetEntity`'s answer is a parameter of `GetEntityById`.
- bcrypt's cost, salt encoding and timing are not modelled. The digest is a stand-in that is injective in the 72-byte Blowfish key, not the real 60-character hash.
- Bcrypt.VerifyOnlyOriginal: passwords holding a NUL are excluded, because their key can equal a shorter password's ("a" and "a\u0000a" share one).
- Bcrypt.Hash: newer releases of `golang.org/x/crypto` make `GenerateFromPassword` refuse passwords over 72 bytes. The release in use is not fixed by the source, so that refusal is left to the `HashFails` fault.
- Users.FromBsonAfterTokenSet: the model takes the "refreshToken" element to be written after any "refreshtoken" one. A user registered through `EntityService`, given a token, then updated by `UserService.UpdateUser` has "refreshtoken" written last, and the driver reads that one.
- Entities.FromBsonAfterTokenSet: the same element-order assumption as Users.FromBsonAfterTokenSet.
- HMAC-SHA256 and base64url are stand-ins. The model keeps only key-injectivity, and segments free of '.' and ' '.
- The JWT `aud` claim is a placeholder. The header's `typ` is written but never read.
- The nested `PaymentMethods`, `Orders`, `Menu` and `Reviews` slices are opaque placeholders. JSON numbers are integers.
- Users.Validate: the `email` format tag is not checked, because the validator library's address grammar is outside this model.
- Restaurants.Validate: the `email` format tag is not checked, for the same reason.
- Time is one `now` per request, in seconds. The separate `time.Now()` calls for the token and the cookie are assumed to read the same second.
- Concurrency is not modelled. Requests are sequential, so the race between checking and inserting is not modelled.
- HTTP writing is not modelled: headers, the newline `http.Error` appends, and the ignored encode errors of responses. `log` output is not modelled either.
- Http.DecodeEntity: `ObjectID.UnmarshalJSON` copies any identifier value whose raw JSON text is exactly 12 bytes (such as `"0123456789"`, quotes included) byte for byte. The model parses the body into values and keeps no raw text, so such a value is decoded by the string rules and usually rejected.
- Jwt.ValidateToken: the `user_id` claim is a `primitive.ObjectID`, and its `UnmarshalJSON` copies any raw value exactly 12 bytes long byte for byte (such as `"0123456789"`, quotes included). A token signed under the key with such a claim and valid time claims is accepted by the source and rejected by the model, which reads `user_id` only as a hex string or `{"$oid": …}`.
- Middleware.AuthMiddleware: it inherits that case from Jwt.ValidateToken, and so do Middleware.GateAdmits and Middleware.GateDenies. A bearer token whose `user_id` is a raw 12-byte value passes the source's gate and is refused by the model's.
- Env.LoadEnv: a read error of the file other than an over-long line is not modelled. The file's text is given whole.
- Cross-file compile breaks are not modelled. `GenerateToken` takes only the entity's identifier, which is all it reads.

## Findings

| source | as written | input that shows it | evidently intended | confidence | as-written member | corrected member |
|---|---|---|---|---|---|---|
| internal/services/user_service.go:127 | the duplicate-email count excludes documents whose `_id` equals the id TEXT, and a stored ObjectId never equals a string | updating user 0123456789abcdef01234567 while keeping their own email: their own document is counted and the update is refused | exclude the document whose `_id` is the parsed ObjectId | high (not executed) | UserService.UpdateUserRejectsOwnEmail | UserService.UpdateUserFixedOwnEmail |
| internal/handlers/user_handler.go:108 | the entity found in the store is cached under the path text as given, but reads use the lower-cased hex | GET of id 0123456789ABCDEF01234567: it is cached under that key, every later read looks up the lower-case key, and every request goes to the store | cache under `entityID.Hex()`, the key reads use | high (not executed) | EntityHandlers.UpperCaseIdNeverHits | EntityHandlers.FixedSecondReadHits |
| internal/handlers/user_handler.go:108-112 | after the store returns the entity, a failed cache write replies 500 "Failed to cache …" instead of the entity | a GET that misses the cache while the cache refuses writes: the store finds the entity and the client gets a 500 | reply with the entity the store returned; a failing cache write only costs the next read a store call | medium (not executed) | EntityHandlers.CacheOutageHidesStoreHit | EntityHandlers.ServesStoreHit |
