# Wallpaper rotation cache

This project models `WallpaperCacheImpl`, the in-memory cache behind the
wallpaper detail screen of the Style app. The cache has a single field, a
queue of `WallpaperEntity` values. That nullable field encodes three states:

- **dirty**: the field is null. Nothing has been put, or the cache was evicted.
- **empty**: a queue was put but it holds no entity.
- **populated**: the queue holds entities.

The operations are:

- `get` reads the front entity.
- `getNext` moves the front entity to the back and reads the new front.
- `getWallpaperCount` reports the size.
- `likeWallpaper` toggles `liked` on the entity with a given id.
- `put` swaps in a whole collection.
- `evictAll` returns the cache to dirty.
- `isCached()`, `isCached(id)` and `isDirty()` query the state.

Layout:

- `wrappers.dfy` (module `Wrappers`): `Option` stands for a nullable reference. `Result` and `Outcome` stand for a call that a `Preconditions` check may reject.
- `wallpaper_queue.dfy` (module `WallpaperQueue`): the entity datatype. It also holds the queue contents as a value sequence, front first, with the pure operations on it: the rotation step, the first-match scan by id and the `liked` toggle. The lemmas about them live here too.
- `wallpaper_cache.dfy` (module `WallpaperCache`): the class `WallpaperCacheImpl`. Its field `wallpaperEntities: Option<seq<WallpaperEntity>>` is `None` exactly when the cache is dirty. Each Java method is a Dafny method or function proved against the functions of `WallpaperQueue`. The two linear scans are `while` loops with their invariants.
- `cache_scenarios.dfy` (module `CacheScenarios`): client methods that use only the contracts. They drive a cache through short histories: a full rotation cycle, dirty versus empty, liking, and a double eviction.

Names: Dafny has no overloading. `isCached()` is `IsCached`, `isCached(String)` is `IsCachedId`, and the private `get(String)` is `GetById`.

The `Preconditions` checks run when a method is called. The effect (`peek`, `poll`/`offer`, `size`) runs when the returned `Observable` is subscribed. Each read here is one method call that does both. That is faithful when the calls are sequential.

The code raises two different failures, a null check on the field (line 30) and then an emptiness check (line 31). It also rejects a null id in `likeWallpaper` (line 61). The model follows the code. The three cases are the `CacheError` values `NullQueue`, `EmptyQueue` and `NullWallpaperId`, and the null check comes first.

## Model

| member | source | states |
|---|---|---|
| WallpaperCache.WallpaperCacheImpl.constructor | data/src/main/java/com/yalin/style/data/cache/WallpaperCacheImpl.java:22-26 | a new cache is dirty (its queue field is null) |
| WallpaperCache.WallpaperCacheImpl.Get | data/src/main/java/com/yalin/style/data/cache/WallpaperCacheImpl.java:29-36 | fails with NullQueue on a dirty cache and with EmptyQueue on an empty one; succeeds exactly when the cache is populated, yielding the front entity; changes nothing |
| WallpaperCache.WallpaperCacheImpl.GetNext | data/src/main/java/com/yalin/style/data/cache/WallpaperCacheImpl.java:39-48 | the same two failures under the same conditions, leaving the cache unchanged; on a populated cache the queue becomes its rotation (old front moved to the back) and the result is the new front |
| WallpaperQueue.Rotate | data/src/main/java/com/yalin/style/data/cache/WallpaperCacheImpl.java:43-44 | one poll-and-offer step keeps the queue's length |
| WallpaperQueue.RotateKeepsEntities | data/src/main/java/com/yalin/style/data/cache/WallpaperCacheImpl.java:43-45 | a rotation keeps the multiset of entities; its new front is the entity after the old front; a queue of one entity is unchanged, so getNext yields that same entity again |
| WallpaperQueue.RotateKeepsIds | data/src/main/java/com/yalin/style/data/cache/WallpaperCacheImpl.java:43-44 | a rotation keeps the set of ids that isCached(id) finds |
| WallpaperQueue.RotateNAdd | data/src/main/java/com/yalin/style/data/cache/WallpaperCacheImpl.java:39-48 | a+b successive getNext calls equal a calls followed by b more |
| WallpaperQueue.RotateNIsCyclicShift | data/src/main/java/com/yalin/style/data/cache/WallpaperCacheImpl.java:39-48 | after k <= n calls on a queue of n entities, the queue is the cyclic shift by k: positions k.. first, then 0..k-1, each in original order |
| WallpaperQueue.RotateNFullCycle | data/src/main/java/com/yalin/style/data/cache/WallpaperCacheImpl.java:39-48 | n calls of getNext on a queue of n entities restore the original order |
| WallpaperQueue.RotateNPeriodic | data/src/main/java/com/yalin/style/data/cache/WallpaperCacheImpl.java:39-48 | rotation is periodic with period n |
| WallpaperQueue.RotateNFront | data/src/main/java/com/yalin/style/data/cache/WallpaperCacheImpl.java:39-48 | the k-th call (k < n) leaves the original k-th entity at the front, which is what getNext yields |
| WallpaperCache.WallpaperCacheImpl.GetWallpaperCount | data/src/main/java/com/yalin/style/data/cache/WallpaperCacheImpl.java:51-57 | fails (NullQueue) exactly when the cache is dirty; otherwise yields the queue size, 0 included for an empty cache that was put |
| WallpaperCache.WallpaperCacheImpl.LikeWallpaper | data/src/main/java/com/yalin/style/data/cache/WallpaperCacheImpl.java:60-68 | a null id is rejected (NullWallpaperId) and nothing changes; otherwise the call succeeds; a dirty cache stays as it is; a non-dirty queue becomes ToggleLiked of the old queue, which is itself when no entity has the id |
| WallpaperQueue.ToggleLiked | data/src/main/java/com/yalin/style/data/cache/WallpaperCacheImpl.java:62-66 | the toggle keeps the queue's length |
| WallpaperQueue.ToggleLikedFlipsFirstMatch | data/src/main/java/com/yalin/style/data/cache/WallpaperCacheImpl.java:60-68 | the entity hit is the first with the id: its liked flag is negated, its id kept, and every other entity is unchanged |
| WallpaperQueue.ToggleLikedAbsent | data/src/main/java/com/yalin/style/data/cache/WallpaperCacheImpl.java:62-67 | with no entity carrying the id the toggle is a no-op |
| WallpaperQueue.ToggleLikedKeepsIds | data/src/main/java/com/yalin/style/data/cache/WallpaperCacheImpl.java:60-68 | the toggle changes neither membership nor order: every position keeps its id, so isCached(other) and the first match of any id are unchanged |
| WallpaperQueue.ToggleLikedTwice | data/src/main/java/com/yalin/style/data/cache/WallpaperCacheImpl.java:65 | it toggles rather than sets: liking the same id twice restores the queue |
| WallpaperCache.WallpaperCacheImpl.Put | data/src/main/java/com/yalin/style/data/cache/WallpaperCacheImpl.java:71-73 | the queue is replaced by the given collection (a swap, not a merge); afterwards the cache is not dirty, and it is populated iff the collection is non-empty |
| WallpaperCache.WallpaperCacheImpl.IsCached | data/src/main/java/com/yalin/style/data/cache/WallpaperCacheImpl.java:76-78 | a cache that answers cached is not dirty |
| WallpaperCache.StatesAreExclusive | data/src/main/java/com/yalin/style/data/cache/WallpaperCacheImpl.java:76-96 | dirty excludes cached, and a cache that is neither dirty nor cached holds exactly the empty queue: one of dirty, empty and populated holds and only one |
| WallpaperCache.WallpaperCacheImpl.IsDirty | data/src/main/java/com/yalin/style/data/cache/WallpaperCacheImpl.java:94-96 | true exactly when the queue field is null |
| WallpaperCache.WallpaperCacheImpl.IsCachedId | data/src/main/java/com/yalin/style/data/cache/WallpaperCacheImpl.java:81-91 | true iff the cache is not dirty and some entity carries the id; a dirty cache answers false |
| WallpaperCache.WallpaperCacheImpl.EvictAll | data/src/main/java/com/yalin/style/data/cache/WallpaperCacheImpl.java:99-104 | from any prior state the cache becomes dirty, hence evicting twice equals evicting once |
| WallpaperCache.WallpaperCacheImpl.GetById | data/src/main/java/com/yalin/style/data/cache/WallpaperCacheImpl.java:106-113 | on a non-dirty cache, the scan's answer is the first match IndexOf |
| WallpaperQueue.IndexOf | data/src/main/java/com/yalin/style/data/cache/WallpaperCacheImpl.java:106-113 | Some(i): i is in range, entity i has the id and none before it does; None exactly when no entity has the id |
| WallpaperQueue.IndexOfDependsOnIds | data/src/main/java/com/yalin/style/data/cache/WallpaperCacheImpl.java:106-113 | queues whose ids agree position by position have the same first match |

## Left out

- The presenter that drives the cache (`WallpaperDetailPresenter`) is not part of this model. It is observer callbacks, view rendering and a global event bus, and its only decisions are that a next button shows when the count exceeds 1 and hides when the count fails, and that a switch event is posted after a successful advance.
- The RxJava `Observable` machinery: each read is a direct method that returns a value or an error. The deferred execution until subscription, and re-execution on each subscription, are not modelled.
- The `synchronized` modifiers on `put` and `evictAll`: concurrency is out of scope for this sequential model.
- Aliasing of the caller's `Queue`: `put` stores the caller's reference, and `evictAll` calls `clear()` on it before dropping it, so the caller sees its own queue emptied. The model holds the contents as a value sequence, and `EvictAll` just makes the cache dirty.
- Entity references: the source flips `liked` inside a shared `WallpaperEntity` object. Every other holder of that object sees the change, and so would a second occurrence of the same object in the queue. `GetById` returns the position of the entity, and the model updates that one position of the sequence.
- Put: a null argument, which would make the cache dirty again, is not modelled. The model's argument is always a collection.
- The exception types (`NullPointerException` from `checkNotNull`, `IllegalArgumentException` from `checkArgument`) and their common message are reduced to the three `CacheError` values.
- Id comparison: `TextUtils.equals` treats two null ids as equal. Entity ids here are always strings, so a null entity id is not modelled, and comparison is string equality. A null argument to the public `isCached(String)` is not modelled either; the source answers false for it on a queue whose ids are all non-null.
- Queue order: the model reads the `Queue` as a FIFO queue whose for-each iteration runs from head to tail, as `LinkedList` and `ArrayDeque` do. The `Queue` interface does not promise that; a `PriorityQueue` would break both the rotation and the front-first scans.
- The display fields of `WallpaperEntity` other than `wallpaperId` and `liked` are opaque payload and not modelled.
- GetWallpaperCount: the count is an unbounded `nat` rather than a Java `int`. A queue cannot reach 2^31 entries in practice.
