# Crud_Authentication: a verified model of the authentication and post core

This project models the parts of the Express/Mongoose service that have rules of their own:

- **Request authenticator** (`authenticate`). It reads the `Authorization` header and takes its token. A valid access token lets the request through with its claims. An expired one triggers a refresh: the middleware looks up the user the expired payload names, verifies the refresh token stored in that user's record, and mints a new access token from the record's id and role. Every other case is answered with 401.
- **Account lifecycle** (`register`, `login`, `logout`, `forgotPassword`, `resetPassword`). These are methods of a class `UserStore` that holds the user collection as a map from ObjectId to record.
- **Post table** (`createPost`, `updatePost`, `deletePost`, `deleteAllPost`). These are methods of a class `PostTable` that holds the post collection.
- **Cache invalidation** (`cacheHelper`). This is a method of a class `Cache` over the key/value store. It deletes every `posts:all*` key and the two ranking keys.
- **Upload policy**. This covers the file filter, Node's POSIX `path.extname` it depends on, the 2 MB size limit and the name a stored file gets.
- **Records**. The user and post schemas become datatypes with their validators, defaults and the `posts` virtual relation.

Modules:

| file | module | contents |
|---|---|---|
| common.dfy | Common | `Option`, `Result`, the error kinds |
| strings.dfy | Strings | the JavaScript string operations the core uses: `split`, `indexOf`, `lastIndexOf`, ASCII `toLowerCase`, number `toString` |
| tokens.dfy | Tokens | token payloads; signing and verification as function-typed parameters |
| models.dfy | Models | ObjectId casting, `User` and `Post` with their validators, collection invariants, the `posts` relation |
| auth_middleware.dfy | AuthMiddleware | `authenticate` as a function from header and store to an outcome |
| auth_controller.dfy | AuthController | `UserStore` and the OTP rules |
| post_controller.dfy | PostController | `PostTable` |
| cache_helper.dfy | CacheHelper | `Cache` and the invalidated-cache specification |
| upload.dfy | Upload | `extname`, `fileFilter`, the size limit, the stored file name |
| scenarios.dfy | Scenarios | login and logout followed by a request with an expired access token |

Outside things become parameters:

- The clock (`now`, in milliseconds) and the draw of `Math.random()` (`random`, a real in [0, 1)).
- The `_id` the database driver generates (`newId`).
- bcrypt hashing and comparison (`hash`, `passwordMatches`).
- `jwt.sign` and `jwt.verify` (`Signer`, `Verifier`). A verifier returns `Verified(claims)`, `Expired(claims)` or `Invalid`.
- A cache call that fails (`Fault`).

The middleware only reads the store. For that reason it is a function that takes the store as an argument and returns nothing for it.

Some behaviour of the code that the model keeps:

- `authenticate` verifies the raw refresh token stored in the user record. It never reads a refresh token from the client.
- After a refresh, `req.user` and the new access token carry the id and role of the current user record, not those of the expired token.
- No controller in the modelled code calls `cacheHelper`, so the post operations leave the cache alone.
- `cacheHelper` stops at the first cache error it catches.

## Model

| member | source | states |
|---|---|---|
| AuthMiddleware.Authenticate | middleware/authMiddleware.js:4-52 | Every rejection is 401. A missing or empty header gives "Authorization token required.", and only then. A token that is neither valid nor expired gives "Invalid or expired token.", and only then. A valid token proceeds with exactly its claims and no new token, and only then. An expired token leads to exactly the refresh outcome (`Rotate`) of the userId its payload names. |
| AuthMiddleware.Rotate | middleware/authMiddleware.js:19-47 | The refresh path rejects only with 401 "Refresh token missing in DB." or "Invalid or expired refresh token.". It proceeds if and only if the payload's userId casts to an id whose record holds a non-empty refresh token that verifies. It then proceeds with `{userId, role}` from the record and a token signed from those claims. "Missing" is returned exactly when there is no userId, or the id casts but names no user or a user without a refresh token. |
| AuthMiddleware.BearerToken | middleware/authMiddleware.js:10 | `split(' ')[1]` is undefined exactly when the header holds no space. Otherwise the token holds no space. |
| AuthMiddleware.AccessVerdict | middleware/authMiddleware.js:10-14 | A header without a space yields no token, and the verdict is "invalid", never "expired". Otherwise the verdict is that of the second space-separated piece. |
| AuthMiddleware.BearerTokenOf | middleware/authMiddleware.js:10 | The token is the text between the first and the second space, whatever the first word is. |
| AuthMiddleware.ValidTokenNeedsNoStore | middleware/authMiddleware.js:14-16 | For a token that is not expired, the outcome does not depend on the user store. |
| AuthMiddleware.ExpiredTokenRotates | middleware/authMiddleware.js:19-43 | An expired token naming a user whose stored refresh token verifies proceeds. Its claims are the record's id and role, and the new access token is signed from them. |
| AuthMiddleware.ExpiredTokenWithoutSessionRejected | middleware/authMiddleware.js:22-27 | An expired token naming no user, or a user without a refresh token (logged out or never logged in), gives 401 "Refresh token missing in DB.". |
| AuthMiddleware.HeaderWithoutSpaceRejected | middleware/authMiddleware.js:10-49 | A non-empty header without a space yields no token and is rejected as invalid, never refreshed. |
| AuthController.UserStore.Register | controllers/authController.js:21-51 | An email already in use gives 400 and changes nothing. Otherwise it builds the user record with the hashed password, the given role or "user", and the uploaded filename or null. A record that fails the validators, or a clashing `_id`, changes nothing. A valid record is added under the new id and nothing else changes. The store invariants are kept, including unique emails. |
| AuthController.UserStore.Login | controllers/authController.js:55-83 | An unknown email and a wrong password both give the same 400 "Invalid credentials" and change nothing. On success the access token is signed from the record's id and role. The refresh token is signed from the id, stored as the user's single refresh token and returned. Only that record changes. |
| AuthController.UserStore.Logout | controllers/authController.js:89-109 | An unknown email gives "Invalid credentials". A user without a refresh token gives "You are already logout." and nothing changes. Otherwise only that user's refresh token is cleared. |
| AuthController.LogoutTwice | controllers/authController.js:93-101 | Two logouts in a row: the second always fails. |
| AuthController.UserStore.ForgotPassword | controllers/authController.js:114-146 | An unknown email gives 404 and changes nothing. Otherwise it stores the six-digit OTP text of the random draw, with an expiry of now + 120000 ms, and returns it. Only that record changes. |
| AuthController.OtpCode | controllers/authController.js:122 | `floor(100000 + random * 900000)` lies in [100000, 999999]. |
| AuthController.OtpText | controllers/authController.js:122 | The OTP is exactly six decimal digits that read back as a number in [100000, 999999]. |
| AuthController.UserStore.ResetPassword | controllers/authController.js:152-169 | An unknown email gives 404. The OTP is compared before the expiry is checked, using the corrected check `OtpDecision` (see Findings). A failed check returns "OTP invalid" or "OTP expired" and changes nothing. On success only that record changes: its password becomes the hash of the new one and both OTP fields are cleared. |
| AuthController.OtpDecision | controllers/authController.js:158-159 | The corrected check passes if and only if an OTP was issued, the request presents the same one and the expiry has not passed. "OTP invalid" is returned exactly when none was issued or the presented one differs. "OTP expired" is returned exactly when the presented OTP matches the issued one and its expiry is unknown or has passed. |
| AuthController.OtpDecisionAsWritten | controllers/authController.js:158-159 | The checks as written: "OTP invalid" exactly when the stored and presented OTPs differ (an unset one equals an absent one). "OTP expired" exactly when they agree and a set expiry has passed. The checks pass otherwise. |
| AuthController.AsWrittenAcceptsMissingOtp | controllers/authController.js:158-159 | As written, a request without an OTP for a user with none pending passes both checks. |
| AuthController.OtpDecisionAgreesWhenIssued | controllers/authController.js:158-159 | When an OTP and its expiry are stored, the corrected check and the one as written agree on every input. |
| AuthController.ResetReplay | controllers/authController.js:161-165 | After a successful reset, the same OTP presented again gives "OTP invalid". |
| PostController.PostTable.CreatePost | controllers/postController.js:7-24 | A postId already in the table gives 400 and changes nothing. A document failing the validators, or a clashing `_id`, changes nothing. Otherwise exactly one post with the given fields is added under the new id. Starting from unique postIds, the postIds stay unique. |
| PostController.PostTable.UpdatePost | controllers/postController.js:63-80 | An id or update that does not cast, or fails the validators, changes nothing. An id not in the table gives 404 and changes nothing. Otherwise only that post is replaced by the patched post, which is returned. Every post stays valid. |
| PostController.UpdateCanDuplicatePostId | controllers/postController.js:64-67 | An update can give a post another post's postId, so only creates keep postIds unique. |
| PostController.PostTable.DeletePost | controllers/postController.js:83-97 | An id that does not cast, or a missing post, changes nothing; a missing post gives 404. Otherwise exactly that post is removed, and the response echoes the id as given. |
| PostController.PostTable.DeleteAllPosts | controllers/postController.js:100-113 | It always succeeds and leaves the table empty. |
| CacheHelper.ListKeys | utils/cacheHelper.js:6 | `KEYS posts:all*` returns exactly the cached keys starting with "posts:all". |
| CacheHelper.Invalidated | utils/cacheHelper.js:6-13 | The invalidated cache holds no "posts:all" key and neither ranking key. Every other key keeps its value, and no key is added. |
| CacheHelper.InvalidatedIdempotent | utils/cacheHelper.js:6-13 | Invalidating twice gives the same cache as invalidating once. |
| CacheHelper.Cache.InvalidatePosts | utils/cacheHelper.js:4-17 | Without a fault, the cache becomes the invalidated cache. A fault is caught, never raised, and the helper stops there. A failing `KEYS` changes nothing. A failing listing delete changes nothing, unless there were no listing keys. A failing ranking delete leaves the listing keys deleted. |
| Upload.FileFilter | middleware/upload.js:15-32 | A file is accepted if and only if both the extension test and the MIME test pass. Otherwise it is rejected with the one fixed message. |
| Upload.ExtName | middleware/upload.js:17 | `path.extname` is empty, or a dot followed by text with no dot and no slash. Its value on slash-free names is fixed by `ExtNameOfDottedName` (a dot after the first character, other than ".."), `NoDotRejected` (no such dot) and `DotDotRejected` (".."). |
| Upload.TrimTrailingSlashes | middleware/upload.js:17 | The result is a prefix of the path that does not end in a slash, and everything the path has after it is a slash. |
| Upload.LastSegment | middleware/upload.js:17 | The last segment is a suffix of the path without a slash, preceded by a slash when it is not the whole path: the text after the last slash. |
| Upload.DottedNameAllowed | middleware/upload.js:16-17 | A slash-free stem followed by a dotted word passes the extension test when the lower-cased word contains an alternative. |
| Upload.NoDotRejected | middleware/upload.js:16-17 | Any file name without a dot after its first character has no extension and fails the extension test. |
| Upload.ExtensionAllowed | middleware/upload.js:16-17 | The extension test: the lower-cased extension contains one of the seven alternatives. An extension that passes is at least four characters long, a dot and three more. |
| Upload.AllowedNeedsFourCharacters | middleware/upload.js:16 | Since every alternative has at least three letters and no dot, an extension containing one has at least four characters. |
| Upload.MimeAllowed | middleware/upload.js:20-25 | The MIME test. A type that passes is an `image/`, `text/` or `application/` type. |
| Upload.ExtNameOfDottedName | middleware/upload.js:17 | Apart from "..", a name without slashes ending in a dot and a dot-free word has that dot and word as its extension. |
| Upload.ExtensionTestUnanchored | middleware/upload.js:16-17 | The test is unanchored: any name ending in ".jsonl" passes. |
| Upload.ExtensionTestIgnoresCase | middleware/upload.js:17 | The extension is lower-cased first, so a name ending in ".PNG" passes. |
| Upload.EmptyExtensionRejected | middleware/upload.js:16-17 | A name without an extension fails the extension test. |
| Upload.DotDotRejected | middleware/upload.js:17 | `path.extname("..")` is empty, so ".." fails the extension test. |
| Upload.NoExtensionRejected | middleware/upload.js:16-17 | "png", the dot file ".png" and ".." have no extension and fail the extension test. |
| Upload.MimeTestCaseSensitive | middleware/upload.js:20-25 | The MIME test does not fold case: "image/png" passes and "IMAGE/PNG" does not. |
| Upload.FileSizeLimitIsTwoMebibytes | middleware/upload.js:37 | The limit is 2097152 bytes: a file of that size is within it, and one byte more is not. |
| Upload.StoredFilename | middleware/upload.js:10 | The stored name is a decimal timestamp with no leading zero, followed by exactly the original name's extension. |
| Upload.StoredFilenameKeepsExtension | middleware/upload.js:10 | The stored name (`Date.now()` digits followed by the extension) has the original name's extension. |
| Upload.StoredFilenamePassesFilter | middleware/upload.js:10 | The stored name of an accepted file passes the extension test too. |
| Models.NewUser | models/user.js:4-13 | A new user keeps the given username, email, password and profileImage. The role defaults to "user" when absent. filePath is null. The OTP fields and the refresh token are unset. |
| Models.ValidUser | models/user.js:5-8 | The user validators: username of at least 3 characters, a non-empty usergmail, password of at least 6 characters, role "user" or "admin". |
| Models.HasRefreshToken | middleware/authMiddleware.js:25 | `user.refreshToken` is truthy: set and not the empty string. |
| Models.EmailOwnerUnique | models/user.js:6 | With the unique index on usergmail, an email names at most one user. |
| Models.ReplaceKeepsValid | models/user.js:4-13 | Replacing a record by a valid one with the same email keeps the collection valid, unique emails included. |
| Models.MakePost | models/Post.js:4-9 | A post document exists if and only if postId is non-empty, postTitle has at least 3 characters, postcontent at least 5, and userId casts to an ObjectId. It then holds those fields. |
| Models.ValidPost | models/Post.js:5-8 | The post validators: a non-empty postId, postTitle of at least 3 characters, postcontent of at least 5. |
| Models.ApplyPatch | controllers/postController.js:64-67 | The fields an update sets take its values, a userId after its cast to an ObjectId. The fields it does not set are kept. A valid update of a valid post yields a valid post. |
| Models.CastObjectId | models/Post.js:8 | An id string casts if and only if it is 24 hexadecimal digits. |
| Models.CastCanonical | models/Post.js:8 | A canonical ObjectId casts to itself. |
| Models.CastIgnoresCase | models/Post.js:8 | Casting ignores the case of the hexadecimal digits. |
| Models.PostsOf | models/user.js:20-24 | The `posts` virtual: the posts whose userId is the user's `_id`. |
| Models.PostsOfPartition | models/user.js:20-24 | When every post's userId names a user, each post is in the `posts` of exactly one user, its author. |
| Models.PostsOfAfterInsert | models/user.js:20-24 | Adding a post adds it to its author's `posts` and to no one else's. |
| Models.PostsOfAfterRemove | models/user.js:20-24 | Removing a post removes it from its author's `posts` and changes no one else's. |
| Scenarios.LoginThenExpiredToken | controllers/authController.js:70-78 | After a successful login whose refresh token is non-empty and verifies, a request with an expired access token naming that user proceeds with the user's id and role and a new access token. |
| Scenarios.LogoutThenExpiredToken | controllers/authController.js:97-101 | After a logout, whether it cleared the refresh token or found none, a request with an expired access token naming that user gets 401 "Refresh token missing in DB.". |
| Strings.Split | middleware/authMiddleware.js:10 | `split` on one character gives at least one piece, and exactly one if and only if the separator is absent. No piece holds the separator. |
| Strings.JoinSplit | middleware/authMiddleware.js:10 | Joining the pieces of a split with the separator gives back the string. |
| Strings.SplitAfterFirst | middleware/authMiddleware.js:10 | The pieces of `head + sep + tail`, when the head holds no separator, are the head followed by the pieces of the tail. |
| Strings.IndexOf | middleware/authMiddleware.js:10 | `indexOf` finds the first occurrence, or none exactly when the character is absent. |
| Strings.LastIndexOf | middleware/upload.js:17 | `lastIndexOf` finds the last occurrence, or none exactly when the character is absent. |
| Strings.ToLowerChar | middleware/upload.js:17 | A capital ASCII letter becomes its own lower-case letter (code point plus 32); every other character is kept. |
| Strings.ToLower | middleware/upload.js:17 | Lower-casing keeps the length and maps each character as `ToLowerChar` does. |
| Strings.LowerCaseUnchanged | middleware/upload.js:17 | A string without upper-case letters is its own lower case. |
| Strings.NatToString | controllers/authController.js:122 | `toString` of a non-negative integer gives decimal digits with no leading zero. |
| Strings.ParseNatToString | controllers/authController.js:122 | Reading back the printed number gives the number. |
| Strings.NatToStringLength | controllers/authController.js:122 | A number in [10^(k-1), 10^k) prints as exactly k characters. |

## Left out

- Sending mail (nodemailer) and SMS (Twilio): pure output, dropped. `forgotPassword` returns the OTP they would carry.
- Logging and the `res.json` bodies beyond status and message: output only.
- bcrypt and jsonwebtoken internals: foreign libraries, modelled as function parameters. Token lifetimes (`expiresIn`) live inside the verifier.
- `Date.now()` and `Math.random()`: modelled as parameters.
- AuthController.UserStore.ResetPassword: applies the corrected OTP check, so it refuses a request without an OTP for a user with none pending, which the code as written accepts (see Findings; `OtpDecisionAsWritten` keeps the check as written).
- AuthController.OtpCode: models `Math.random() * 900000` in exact real arithmetic, not IEEE double precision.
- `toLowerCase`: only ASCII letters are folded. Non-ASCII case mapping and UTF-16 code units are not modelled.
- The 12-byte binary string form of an ObjectId: only the 24-hex-digit text form is cast.
- Request validation at the routes (Joi): the request-body fields of the handlers are modelled as present strings. The exception is resetPassword's `otp`, which is optional because the finding below depends on it being absent.
- Mongoose and MongoDB mechanics (queries, `populate`, save hooks, `timestamps`): collections are maps. A database error other than a cast or validation error is not modelled.
- Concurrent requests: each handler is atomic.
- `getAllPosts`, `getPostById`, controllers/userController.js, models/comments.js, the routes, index.js and redis/redisClient.js are not part of this model. They hold plain reads, wiring or connection setup.
- The cache read path: no cached read appears in the code modelled.
- The multer wiring: the route uses `upload.fields`, which sets `req.files`. `register` reads `req.file`, which the model takes as a parameter (`uploadedFile`).
- The upload destination directory and the disk write.

## Findings

| source | as written | input that shows it | evidently intended | confidence | as-written member | corrected member |
|---|---|---|---|---|---|---|
| controllers/authController.js:158-159 | `user.otp !== otp` is false when both are undefined, and `Date.now() > undefined` is false, so both checks pass | a registered email with no pending OTP and a request body without `otp`; the password is replaced | a reset needs an OTP that was issued and is presented | medium, not executed; route-level request validation not part of this model may reject the request | AuthController.AsWrittenAcceptsMissingOtp | AuthController.OtpDecision |
