/** Invalidation of the cached post views (utils/cacheHelper.js): every
    paginated listing key and the two ranking keys are deleted from the
    shared key/value cache. */
module CacheHelper {
  import opened Strings

  /** Prefix of the listing keys: the pattern `posts:all*`. */
  const ListPrefix := "posts:all"
  const TopCommentedKey := "top:commented:post"
  const TopLikedKey := "top:liked:post"

  predicate IsListKey(k: string) {
    StartsWith(k, ListPrefix)
  }

  /** A key the helper deletes. */
  predicate Doomed(k: string) {
    IsListKey(k) || k == TopCommentedKey || k == TopLikedKey
  }

  /** The listing keys present in the cache: what `KEYS posts:all*` returns. */
  function ListKeys(cache: map<string, string>): (keys: set<string>)
    ensures forall k :: k in keys <==> k in cache && IsListKey(k)
  {
    set k | k in cache && IsListKey(k)
  }

  /** The cache after a complete invalidation: no listing key, neither
      ranking key, and every other key with its value. */
  function Invalidated(cache: map<string, string>): (after: map<string, string>)
    ensures forall k :: k in after ==> !IsListKey(k)
    ensures TopCommentedKey !in after && TopLikedKey !in after
    ensures forall k :: k in cache && !Doomed(k) ==> k in after && after[k] == cache[k]
    ensures after.Keys <= cache.Keys
  {
    map k | k in cache && !Doomed(k) :: cache[k]
  }

  /** Invalidating twice leaves the cache as invalidating once. */
  lemma InvalidatedIdempotent(cache: map<string, string>)
    ensures Invalidated(Invalidated(cache)) == Invalidated(cache)
  {
  }

  /** The cache call that raises, if one does; an error stops the helper at
      that call. */
  datatype Fault = NoFault | KeysFails | ListDeleteFails | TopDeleteFails

  /** The shared cache store (the connection in redis/redisClient.js). */
  class Cache {
    var entries: map<string, string>

    constructor (initial: map<string, string>)
      ensures entries == initial
    {
      entries := initial;
    }

    /** `cacheHelper()`: find the listing keys, delete them (when there are
        any), then delete the two ranking keys. An error from the cache is
        caught and logged, never thrown: the helper then stops where the
        error arose, and what was deleted before stays deleted. */
    method InvalidatePosts(fault: Fault)
      modifies this
      ensures fault == NoFault ==> entries == Invalidated(old(entries))
      ensures fault == KeysFails ==> entries == old(entries)
      ensures fault == ListDeleteFails ==>
                entries == if ListKeys(old(entries)) == {} then Invalidated(old(entries)) else old(entries)
      ensures fault == TopDeleteFails ==> entries == old(entries) - ListKeys(old(entries))
    {
      if fault == KeysFails {
        return;
      }
      var keys := ListKeys(entries);
      if |keys| > 0 {
        if fault == ListDeleteFails {
          return;
        }
        entries := entries - keys;
      }
      if fault == TopDeleteFails {
        return;
      }
      entries := entries - {TopCommentedKey, TopLikedKey};
    }
  }
}
