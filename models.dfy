/** The two stored record types, their schema constraints and defaults
    (models/user.js, models/Post.js), and the ids that key them. */
module Models {
  import opened Common
  import opened Strings

  // ---------------------------------------------------------------- ids

  predicate IsHexDigit(c: char) {
    '0' <= c <= '9' || 'a' <= c <= 'f' || 'A' <= c <= 'F'
  }

  predicate IsLowerHexDigit(c: char) {
    '0' <= c <= '9' || 'a' <= c <= 'f'
  }

  /** The canonical text of a MongoDB ObjectId: 24 lower-case hexadecimal digits. */
  predicate IsObjectId(s: string) {
    |s| == 24 && forall i :: 0 <= i < |s| ==> IsLowerHexDigit(s[i])
  }

  type ObjectId = s: string | IsObjectId(s) witness "000000000000000000000000"

  predicate IsHexText(s: string) {
    |s| == 24 && forall i :: 0 <= i < |s| ==> IsHexDigit(s[i])
  }

  /** Mongoose's cast of a string used as an `_id`: 24 hexadecimal digits in
      either case name an ObjectId; anything else raises a CastError (None). */
  function CastObjectId(s: string): (r: Option<ObjectId>)
    ensures r.Some? <==> IsHexText(s)
  {
    if IsHexText(s) then
      var t := ToLower(s);
      assert IsObjectId(t);
      Some(t)
    else None
  }

  /** A canonical id casts to itself. */
  lemma CastCanonical(id: ObjectId)
    ensures CastObjectId(id) == Some(id)
  {
    assert ToLower(id) == id;
  }

  /** Casting ignores the case of the hexadecimal digits. */
  lemma CastIgnoresCase(s: string)
    ensures CastObjectId(ToLower(s)) == CastObjectId(s)
  {
    if IsHexText(s) {
      assert ToLower(ToLower(s)) == ToLower(s);
    } else {
      assert !IsHexText(ToLower(s)) by {
        if |s| == 24 {
          var i :| 0 <= i < 24 && !IsHexDigit(s[i]);
          assert !IsHexDigit(ToLower(s)[i]);
        }
      }
    }
  }

  // --------------------------------------------------------------- users

  /** A stored user (models/user.js). Required strings are plain strings;
      the optional and nullable fields are options. `password` holds the
      bcrypt hash, `otpExpires` a time in milliseconds. */
  datatype User = User(
    username: string,
    usergmail: string,
    password: string,
    role: string,
    otp: Option<string>,
    otpExpires: Option<int>,
    profileImage: Option<string>,
    filePath: Option<string>,
    refreshToken: Option<string>)

  const DefaultRole := "user"

  predicate IsRole(r: string) {
    r == "user" || r == "admin"
  }

  /** The schema's validators: username required with at least 3
      characters, usergmail required, password required with at least 6
      characters, role one of "user" and "admin". A required string fails
      when it is empty. */
  predicate ValidUser(u: User) {
    && |u.username| >= 3
    && |u.usergmail| > 0
    && |u.password| >= 6
    && IsRole(u.role)
  }

  /** The document `new User({ username, usergmail, password, role,
      profileImage })` builds: the role defaults to "user" when it is not
      given, filePath defaults to null, and the OTP fields and the refresh
      token are unset. */
  function NewUser(username: string, usergmail: string, password: string,
                   role: Option<string>, profileImage: Option<string>): (u: User)
    ensures u.username == username && u.usergmail == usergmail && u.password == password
    ensures role.None? ==> u.role == DefaultRole
    ensures role.Some? ==> u.role == role.value
    ensures u.profileImage == profileImage && u.filePath.None?
    ensures u.otp.None? && u.otpExpires.None? && u.refreshToken.None?
  {
    User(username, usergmail, password, role.GetOr(DefaultRole), None, None, profileImage, None, None)
  }

  /** `user.refreshToken` is truthy: set, and not the empty string. */
  predicate HasRefreshToken(u: User) {
    u.refreshToken.Some? && u.refreshToken.value != ""
  }

  /** A one-time password and its expiry are set and cleared together. */
  predicate OtpPaired(u: User) {
    u.otp.Some? <==> u.otpExpires.Some?
  }

  predicate HasEmail(users: map<ObjectId, User>, id: ObjectId, email: string) {
    id in users && users[id].usergmail == email
  }

  predicate EmailTaken(users: map<ObjectId, User>, email: string) {
    exists id | id in users :: HasEmail(users, id, email)
  }

  /** The unique index on usergmail. */
  ghost predicate UniqueEmails(users: map<ObjectId, User>) {
    forall a, b :: a in users && b in users && a != b ==> users[a].usergmail != users[b].usergmail
  }

  /** What the user collection always satisfies: every record passed its
      validators, its OTP fields are paired, and no two records share an
      email. */
  ghost predicate ValidUsers(users: map<ObjectId, User>) {
    && (forall id :: id in users ==> ValidUser(users[id]) && OtpPaired(users[id]))
    && UniqueEmails(users)
  }

  /** With unique emails, an email names at most one user. */
  lemma EmailOwnerUnique(users: map<ObjectId, User>, email: string, a: ObjectId, b: ObjectId)
    requires UniqueEmails(users)
    requires HasEmail(users, a, email) && HasEmail(users, b, email)
    ensures a == b
  {
  }

  /** Replacing a record by a valid one with the same email keeps the
      collection valid. */
  lemma ReplaceKeepsValid(users: map<ObjectId, User>, id: ObjectId, u: User)
    requires ValidUsers(users) && id in users
    requires ValidUser(u) && OtpPaired(u) && u.usergmail == users[id].usergmail
    ensures ValidUsers(users[id := u])
  {
  }

  // --------------------------------------------------------------- posts

  /** A stored post (models/Post.js); `userId` refers to a User. */
  datatype Post = Post(postId: string, postTitle: string, postcontent: string, userId: ObjectId)

  /** The schema's validators: postId required, postTitle at least 3
      characters, postcontent at least 5. */
  predicate ValidPost(p: Post) {
    && |p.postId| > 0
    && |p.postTitle| >= 3
    && |p.postcontent| >= 5
  }

  /** The document `Post.create({ postId, postTitle, postcontent, userId })`
      builds from request strings, or None when it fails validation (a
      userId that does not cast to an ObjectId fails it too). */
  function MakePost(postId: string, postTitle: string, postcontent: string, userId: string): (r: Option<Post>)
    ensures r.Some? <==> |postId| > 0 && |postTitle| >= 3 && |postcontent| >= 5 && IsHexText(userId)
    ensures r.Some? ==> ValidPost(r.value) && r.value.postId == postId && r.value.postTitle == postTitle
                        && r.value.postcontent == postcontent && CastObjectId(userId) == Some(r.value.userId)
  {
    match CastObjectId(userId)
    case None => None
    case Some(uid) =>
      var p := Post(postId, postTitle, postcontent, uid);
      if ValidPost(p) then Some(p) else None
  }

  /** An update document: the fields it sets. */
  datatype PostPatch = PostPatch(
    postId: Option<string>,
    postTitle: Option<string>,
    postcontent: Option<string>,
    userId: Option<string>)

  /** Every id the update sets casts to an ObjectId. */
  predicate PatchCasts(patch: PostPatch) {
    patch.userId.Some? ==> IsHexText(patch.userId.value)
  }

  /** The update validators (`runValidators`): each field the update sets
      passes that field's validators. */
  predicate PatchValid(patch: PostPatch) {
    && (patch.postId.Some? ==> |patch.postId.value| > 0)
    && (patch.postTitle.Some? ==> |patch.postTitle.value| >= 3)
    && (patch.postcontent.Some? ==> |patch.postcontent.value| >= 5)
  }

  /** The post after the update: the fields the update sets take the
      update's values (an id after its cast), the others are kept. A valid update keeps a valid post valid. */
  function ApplyPatch(p: Post, patch: PostPatch): (q: Post)
    requires PatchCasts(patch)
    ensures ValidPost(p) && PatchValid(patch) ==> ValidPost(q)
    ensures patch.postId.None? ==> q.postId == p.postId
    ensures patch.postTitle.None? ==> q.postTitle == p.postTitle
    ensures patch.postcontent.None? ==> q.postcontent == p.postcontent
    ensures patch.userId.None? ==> q.userId == p.userId
    ensures patch.postId.Some? ==> q.postId == patch.postId.value
    ensures patch.postTitle.Some? ==> q.postTitle == patch.postTitle.value
    ensures patch.postcontent.Some? ==> q.postcontent == patch.postcontent.value
    ensures patch.userId.Some? ==> CastObjectId(patch.userId.value) == Some(q.userId)
  {
    Post(patch.postId.GetOr(p.postId),
         patch.postTitle.GetOr(p.postTitle),
         patch.postcontent.GetOr(p.postcontent),
         if patch.userId.Some? then CastObjectId(patch.userId.value).value else p.userId)
  }

  ghost predicate ValidPosts(posts: map<ObjectId, Post>) {
    forall id :: id in posts ==> ValidPost(posts[id])
  }

  /** No two posts share a postId (the schema does not enforce this). */
  ghost predicate UniquePostIds(posts: map<ObjectId, Post>) {
    forall a, b :: a in posts && b in posts && a != b ==> posts[a].postId != posts[b].postId
  }

  predicate PostIdTaken(posts: map<ObjectId, Post>, postId: string) {
    exists id | id in posts :: posts[id].postId == postId
  }

  // ------------------------------------------- the `posts` virtual of a user

  /** `user.posts`: the posts whose userId is the user's `_id`. */
  function PostsOf(posts: map<ObjectId, Post>, user: ObjectId): set<ObjectId> {
    set id | id in posts && posts[id].userId == user
  }

  /** Every post's userId names a stored user. */
  ghost predicate ReferencesResolve(posts: map<ObjectId, Post>, users: map<ObjectId, User>) {
    forall id :: id in posts ==> posts[id].userId in users
  }

  /** A post is in the `posts` of exactly one user: its author. */
  lemma PostsOfPartition(posts: map<ObjectId, Post>, users: map<ObjectId, User>, id: ObjectId)
    requires ReferencesResolve(posts, users) && id in posts
    ensures exists u :: u in users && id in PostsOf(posts, u)
    ensures forall u :: id in PostsOf(posts, u) ==> u == posts[id].userId
  {
    assert id in PostsOf(posts, posts[id].userId);
  }

  /** Adding a post adds it to its author's `posts` and to no one else's. */
  lemma PostsOfAfterInsert(posts: map<ObjectId, Post>, id: ObjectId, p: Post, user: ObjectId)
    requires id !in posts
    ensures PostsOf(posts[id := p], user) == if p.userId == user then PostsOf(posts, user) + {id} else PostsOf(posts, user)
  {
  }

  /** Removing a post removes it from its author's `posts` and changes no one else's. */
  lemma PostsOfAfterRemove(posts: map<ObjectId, Post>, id: ObjectId, user: ObjectId)
    ensures PostsOf(posts - {id}, user) == PostsOf(posts, user) - {id}
  {
  }
}
