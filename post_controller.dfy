/** Creating, updating and deleting posts (controllers/postController.js)
    as operations on the post collection, keyed by `_id`. */
module PostController {
  import opened Common
  import opened Models

  const PostExists := AppError("Post with this id already exists", Some(400))
  const PostNotFound := AppError("Post not found", Some(404))

  class PostTable {
    var posts: map<ObjectId, Post>

    ghost predicate Valid()
      reads this
    {
      ValidPosts(posts)
    }

    constructor ()
      ensures Valid() && posts == map[]
    {
      posts := map[];
    }

    /** `createPost`: a postId already in the table is refused with 400;
        otherwise `Post.create` validates the document and inserts it under
        the `_id` the driver generates (`newId`). Creates alone keep postIds
        unique. */
    method CreatePost(postId: string, postTitle: string, postcontent: string, userId: string, newId: ObjectId)
      returns (r: Result<(ObjectId, Post)>)
      requires Valid()
      modifies this
      ensures Valid()
      ensures PostIdTaken(old(posts), postId) ==> r == Failure(PostExists) && posts == old(posts)
      ensures !PostIdTaken(old(posts), postId) ==>
                match MakePost(postId, postTitle, postcontent, userId)
                case None => r == Failure(ValidationError) && posts == old(posts)
                case Some(p) =>
                  if newId in old(posts) then r == Failure(DuplicateKey) && posts == old(posts)
                  else r == Success((newId, p)) && posts == old(posts)[newId := p]
      ensures UniquePostIds(old(posts)) ==> UniquePostIds(posts)
    {
      if id :| id in posts && posts[id].postId == postId {
        return Failure(PostExists);
      }
      var made := MakePost(postId, postTitle, postcontent, userId);
      if made.None? {
        return Failure(ValidationError);
      }
      if newId in posts {
        return Failure(DuplicateKey);
      }
      posts := posts[newId := made.value];
      r := Success((newId, made.value));
    }

    /** `updatePost`: `findByIdAndUpdate(id, body, { new: true,
        runValidators: true })`. Casting the id and the update comes first,
        then the update validators, then the lookup: a missing post gives
        404 and changes nothing; otherwise only that post changes and the
        updated post is returned. */
    method UpdatePost(id: string, patch: PostPatch) returns (r: Result<Post>)
      requires Valid()
      modifies this
      ensures Valid()
      ensures r.Failure? ==> posts == old(posts)
      ensures CastObjectId(id).None? || !PatchCasts(patch) ==> r == Failure(CastError)
      ensures CastObjectId(id).Some? && PatchCasts(patch) && !PatchValid(patch) ==> r == Failure(ValidationError)
      ensures CastObjectId(id).Some? && PatchCasts(patch) && PatchValid(patch) ==>
                var key := CastObjectId(id).value;
                if key !in old(posts) then r == Failure(PostNotFound)
                else
                  var updated := ApplyPatch(old(posts)[key], patch);
                  r == Success(updated) && posts == old(posts)[key := updated]
    {
      var key := CastObjectId(id);
      if key.None? || !PatchCasts(patch) {
        return Failure(CastError);
      }
      if !PatchValid(patch) {
        return Failure(ValidationError);
      }
      if key.value !in posts {
        return Failure(PostNotFound);
      }
      var updated := ApplyPatch(posts[key.value], patch);
      posts := posts[key.value := updated];
      r := Success(updated);
    }

    /** `deletePost`: `findByIdAndDelete(id)`. A missing post gives 404;
        otherwise that post is gone, every other post is unchanged, and the
        response echoes the id exactly as the request gave it. */
    method DeletePost(id: string) returns (r: Result<string>)
      requires Valid()
      modifies this
      ensures Valid()
      ensures CastObjectId(id).None? ==> r == Failure(CastError) && posts == old(posts)
      ensures CastObjectId(id).Some? ==>
                var key := CastObjectId(id).value;
                if key !in old(posts) then r == Failure(PostNotFound) && posts == old(posts)
                else r == Success(id) && posts == old(posts) - {key}
    {
      var key := CastObjectId(id);
      if key.None? {
        return Failure(CastError);
      }
      if key.value !in posts {
        return Failure(PostNotFound);
      }
      posts := posts - {key.value};
      r := Success(id);
    }

    /** `deleteAllPost`: `deleteMany({})` always resolves, and leaves the
        table empty. */
    method DeleteAllPosts() returns (r: Result<()>)
      requires Valid()
      modifies this
      ensures Valid()
      ensures r == Success(()) && posts == map[]
    {
      posts := map[];
      r := Success(());
    }
  }

  /** Updates, unlike creates, do not check postIds: setting a post's postId
      to another post's breaks uniqueness. */
  lemma UpdateCanDuplicatePostId(posts: map<ObjectId, Post>, a: ObjectId, b: ObjectId, patch: PostPatch)
    requires a in posts && b in posts && a != b
    requires PatchCasts(patch) && patch.postId == Some(posts[b].postId)
    ensures !UniquePostIds(posts[a := ApplyPatch(posts[a], patch)])
  {
    var after := posts[a := ApplyPatch(posts[a], patch)];
    assert after[a].postId == after[b].postId;
  }
}
