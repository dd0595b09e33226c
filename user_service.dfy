/** The cache-aside user lookup: the cache first, then the user table, filling the cache on a miss. */
module UserService {
  import opened Wrappers
  import opened Text
  import opened Entities
  import opened MemoryCache

  /** One hour, the lifetime of a cached user. */
  const UserCacheSeconds: int := 3600

  /** The cache key of a user. */
  function UserKey(id: int): string {
    "user:" + IntToString(id)
  }

  /** Distinct 32-bit user ids have distinct cache keys. */
  lemma UserKeyInjective(a: int, b: int)
    requires IsInt32(a) && IsInt32(b) && UserKey(a) == UserKey(b)
    ensures a == b
  {
    var prefix := "user:";
    assert IntToString(a) == UserKey(a)[|prefix|..];
    assert IntToString(b) == UserKey(b)[|prefix|..];
    IntRoundTrip(a);
    IntRoundTrip(b);
  }

  /** `Set.FindAsync(id)`: the row with that primary key. */
  function FindUser(users: seq<User>, id: int): (r: Option<User>)
    ensures r.Some? ==> r.value in users && r.value.id == id
    ensures r.None? ==> forall u :: u in users ==> u.id != id
  {
    if users == [] then None
    else if users[0].id == id then Some(users[0])
    else FindUser(users[1..], id)
  }

  /** The user the cache holds under `key` at `now`, if any. */
  function CachedUser(store: Store, key: string, now: int): Option<User> {
    match Lookup(store, key, now)
    case Some(UserEntry(u)) => Some(u)
    case _ => None
  }

  /** `GetUserById` on the table `users` and the cache `store`: the result and the cache afterwards. */
  function GetUserById(store: Store, users: seq<User>, id: int, now: int): (Option<User>, Store) {
    var key := UserKey(id);
    match CachedUser(store, key, now)
    case Some(u) => (Some(u), store)
    case None =>
      match FindUser(users, id)
      case None => (None, store)
      case Some(u) => (Some(u), Put(store, key, UserEntry(u), Some(UserCacheSeconds), now))
  }

  /**
   * The three paths of the lookup: a cached user is returned whatever the table holds and
   * the cache is unchanged; on a miss an unknown id gives null and writes nothing; on a
   * miss a stored user is returned and cached under `user:{id}` for one hour.
   */
  lemma GetUserByIdPaths(store: Store, users: seq<User>, otherUsers: seq<User>, id: int, now: int)
    ensures var (r, after) := GetUserById(store, users, id, now);
      && (CachedUser(store, UserKey(id), now).Some? ==>
            r == CachedUser(store, UserKey(id), now) && after == store
            && GetUserById(store, otherUsers, id, now) == (r, after))
      && (CachedUser(store, UserKey(id), now).None? && FindUser(users, id).None? ==>
            r.None? && after == store)
      && (CachedUser(store, UserKey(id), now).None? && FindUser(users, id).Some? ==>
            r == FindUser(users, id) && r.value.id == id
            && after == store[UserKey(id) := Entry(UserEntry(r.value), Some(now + UserCacheSeconds))])
  {
  }

  /**
   * Cache-aside: once a lookup has read a user from the table, any lookup of the same id
   * within the hour returns that same user from the cache, without consulting the table
   * (so it may be stale); from the hour on the table is read again.
   */
  lemma LookupIsCachedForAnHour(store: Store, users: seq<User>, later: seq<User>, id: int, now: int, at: int)
    requires CachedUser(store, UserKey(id), now).None? && FindUser(users, id).Some?
    requires now <= at
    ensures var (r, after) := GetUserById(store, users, id, now);
      at < now + UserCacheSeconds ==> GetUserById(after, later, id, at) == (r, after)
    ensures var (r, after) := GetUserById(store, users, id, now);
      at >= now + UserCacheSeconds ==> GetUserById(after, later, id, at).0 == FindUser(later, id)
  {
  }

  /** The service; the user table is passed to each call. */
  class UserService {
    const cache: MemoryCacheProvider

    constructor (cache: MemoryCacheProvider)
      ensures this.cache == cache
    {
      this.cache := cache;
    }

    method GetUserByIdAsync(users: seq<User>, id: int, now: int) returns (r: Option<User>)
      modifies cache
      ensures (r, cache.entries) == GetUserById(old(cache.entries), users, id, now)
    {
      var key := UserKey(id);
      var cached := cache.GetAsync(key, now);
      if cached.Some? && cached.value.UserEntry? {
        return Some(cached.value.user);
      }
      var entry := FindUser(users, id);
      if entry.None? {
        return None;
      }
      var _ := cache.SetAsync(key, UserEntry(entry.value), Some(UserCacheSeconds), now);
      r := entry;
    }
  }
}
