/** The in-memory wallpaper rotation cache. Its one field is the queue of
    cached entities or a null reference; the null reference (`None`) is the
    dirty state, never put or evicted since. */
module WallpaperCache {
  import opened Wrappers
  import opened WallpaperQueue

  /** What each `Preconditions` check rejects: the queue field is null, the
      queue is empty, or `likeWallpaper` was given a null id. */
  datatype CacheError = NullQueue | EmptyQueue | NullWallpaperId

  class WallpaperCacheImpl {
    var wallpaperEntities: Option<seq<WallpaperEntity>>

    /** A new cache is dirty. */
    constructor ()
      ensures IsDirty()
    {
      wallpaperEntities := None;
    }

    /** The front entity of the queue, which stays as it is. */
    method Get() returns (r: Result<WallpaperEntity, CacheError>)
      ensures IsDirty() ==> r == Failure(NullQueue)
      ensures wallpaperEntities == Some([]) ==> r == Failure(EmptyQueue)
      ensures r.Success? <==> IsCached()
      ensures r.Success? ==> r.value == wallpaperEntities.value[0]
    {
      if wallpaperEntities.None? {
        return Failure(NullQueue);
      }
      var queue := wallpaperEntities.value;
      if |queue| == 0 {
        return Failure(EmptyQueue);
      }
      r := Success(queue[0]);
    }

    /** Moves the front entity to the back and yields the new front. A
        rejected call leaves the cache as it was. */
    method GetNext() returns (r: Result<WallpaperEntity, CacheError>)
      modifies this
      ensures old(IsDirty()) ==> r == Failure(NullQueue)
      ensures old(wallpaperEntities) == Some([]) ==> r == Failure(EmptyQueue)
      ensures !old(IsCached()) ==> wallpaperEntities == old(wallpaperEntities)
      ensures old(IsCached()) ==>
        wallpaperEntities == Some(Rotate(old(wallpaperEntities).value)) &&
        r == Success(wallpaperEntities.value[0])
    {
      if wallpaperEntities.None? {
        return Failure(NullQueue);
      }
      var queue := wallpaperEntities.value;
      if |queue| == 0 {
        return Failure(EmptyQueue);
      }
      var entity := queue[0];
      queue := queue[1..];
      queue := queue + [entity];
      wallpaperEntities := Some(queue);
      r := Success(queue[0]);
    }

    /** The number of cached entities; only a dirty cache is rejected, so an
        empty queue that was put answers 0. */
    method GetWallpaperCount() returns (r: Result<nat, CacheError>)
      ensures r.Failure? <==> IsDirty()
      ensures r.Failure? ==> r.error == NullQueue
      ensures r.Success? ==> r.value == |wallpaperEntities.value|
    {
      if wallpaperEntities.None? {
        return Failure(NullQueue);
      }
      r := Success(|wallpaperEntities.value|);
    }

    /** Toggles `liked` on the first entity with the given id. A null id is
        rejected; a dirty cache or an absent id is a silent no-op. */
    method LikeWallpaper(wallpaperId: Option<string>) returns (r: Outcome<CacheError>)
      modifies this
      ensures wallpaperId.None? ==> r == Fail(NullWallpaperId)
      ensures wallpaperId.Some? ==> r == Pass
      ensures wallpaperId.None? || old(IsDirty()) ==> wallpaperEntities == old(wallpaperEntities)
      ensures wallpaperId.Some? && !old(IsDirty()) ==>
        wallpaperEntities == Some(ToggleLiked(old(wallpaperEntities).value, wallpaperId.value))
    {
      if wallpaperId.None? {
        return Fail(NullWallpaperId);
      }
      var id := wallpaperId.value;
      var cached := IsCachedId(id);
      if cached {
        var found := GetById(id);
        if found.Some? {
          var queue := wallpaperEntities.value;
          var i := found.value;
          wallpaperEntities := Some(queue[i := queue[i].(liked := !queue[i].liked)]);
        }
      }
      r := Pass;
    }

    /** Swaps in a whole new collection, replacing (not merging with) what was
        cached. */
    method Put(entities: seq<WallpaperEntity>)
      modifies this
      ensures wallpaperEntities == Some(entities)
      ensures !IsDirty() && (IsCached() <==> |entities| > 0)
    {
      wallpaperEntities := Some(entities);
    }

    /** The queue is present and has at least one entity. */
    function IsCached(): (r: bool)
      reads this
      ensures r ==> !IsDirty()
    {
      wallpaperEntities.Some? && |wallpaperEntities.value| > 0
    }

    /** Whether some cached entity has the id; a dirty cache answers false. */
    method IsCachedId(wallpaperId: string) returns (r: bool)
      ensures r <==> !IsDirty() && HasId(wallpaperEntities.value, wallpaperId)
    {
      if IsDirty() {
        return false;
      }
      var queue := wallpaperEntities.value;
      var i := 0;
      while i < |queue|
        invariant 0 <= i <= |queue|
        invariant forall j :: 0 <= j < i ==> queue[j].wallpaperId != wallpaperId
      {
        if queue[i].wallpaperId == wallpaperId {
          return true;
        }
        i := i + 1;
      }
      return false;
    }

    /** The queue field is null: never put, or evicted since. */
    function IsDirty(): (r: bool)
      reads this
      ensures r <==> wallpaperEntities == None
    {
      wallpaperEntities.None?
    }

    /** Returns the cache to dirty, whatever its state. */
    method EvictAll()
      modifies this
      ensures IsDirty()
    {
      wallpaperEntities := None;
    }

    /** The position of the first entity with the id, where the source
        returns that entity itself; `None` when no entity has it. */
    method GetById(wallpaperId: string) returns (r: Option<nat>)
      requires !IsDirty()
      ensures r == IndexOf(wallpaperEntities.value, wallpaperId)
    {
      var queue := wallpaperEntities.value;
      var i := 0;
      while i < |queue|
        invariant 0 <= i <= |queue|
        invariant forall j :: 0 <= j < i ==> queue[j].wallpaperId != wallpaperId
      {
        if queue[i].wallpaperId == wallpaperId {
          return Some(i);
        }
        i := i + 1;
      }
      return None;
    }
  }

  /** Dirty, empty and populated: exactly one of them holds at any time. */
  lemma StatesAreExclusive(cache: WallpaperCacheImpl)
    ensures cache.IsDirty() ==> !cache.IsCached()
    ensures !cache.IsDirty() && !cache.IsCached() <==> cache.wallpaperEntities == Some([])
  {
  }
}
