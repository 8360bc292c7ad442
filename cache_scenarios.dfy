/** Client code written against the cache's contracts alone: each method
    drives one cache through a short history and asserts what the caller
    observes. */
module CacheScenarios {
  import opened Wrappers
  import opened WallpaperQueue
  import opened WallpaperCache

  /** Three wallpapers are served in turn, and the fourth advance comes back
      to the first, with the queue in its original order. */
  method RotationComesBackToTheFront()
  {
    var w1, w2, w3 := WallpaperEntity("w1", false), WallpaperEntity("w2", false), WallpaperEntity("w3", true);
    var cache := new WallpaperCacheImpl();
    cache.Put([w1, w2, w3]);
    var r := cache.Get();
    assert r == Success(w1);
    r := cache.GetNext();
    assert r == Success(w2);
    r := cache.GetNext();
    assert r == Success(w3);
    r := cache.GetNext();
    assert r == Success(w1);
    ghost var s := [w1, w2, w3];
    RotateNFullCycle(s);
    assert RotateN(s, 3) == Rotate(Rotate(Rotate(s)));
    assert cache.wallpaperEntities == Some(s);
  }

  /** A fresh cache refuses every read; once an empty collection is put the
      count becomes 0 while the reads of an entity are still refused. */
  method DirtyIsNotEmpty()
  {
    var cache := new WallpaperCacheImpl();
    var r := cache.Get();
    assert r == Failure(NullQueue);
    var n := cache.GetWallpaperCount();
    assert n == Failure(NullQueue);
    cache.Put([]);
    r := cache.Get();
    assert r == Failure(EmptyQueue);
    r := cache.GetNext();
    assert r == Failure(EmptyQueue);
    n := cache.GetWallpaperCount();
    assert n == Success(0);
    assert !cache.IsDirty() && !cache.IsCached();
  }

  /** Liking flips the flag of the entity with that id; an unknown id and a
      dirty cache are left alone, and a null id is refused. */
  method LikeTogglesTheFlag()
  {
    var cache := new WallpaperCacheImpl();
    var o := cache.LikeWallpaper(Some("w1"));
    assert o == Pass && cache.IsDirty();
    cache.Put([WallpaperEntity("w1", false)]);
    o := cache.LikeWallpaper(Some("w1"));
    ToggleLikedFlipsFirstMatch([WallpaperEntity("w1", false)], "w1", 0);
    var r := cache.Get();
    assert r == Success(WallpaperEntity("w1", true));
    var found := cache.IsCachedId("missing");
    assert !found;
    var before := cache.wallpaperEntities;
    o := cache.LikeWallpaper(Some("missing"));
    assert o == Pass && cache.wallpaperEntities == before;
    o := cache.LikeWallpaper(None);
    assert o == Fail(NullWallpaperId) && cache.wallpaperEntities == before;
  }

  /** Evicting twice is the same as evicting once, and afterwards even the
      count is refused. */
  method EvictAllIsIdempotent()
  {
    var cache := new WallpaperCacheImpl();
    cache.Put([WallpaperEntity("w1", false), WallpaperEntity("w2", false)]);
    var n := cache.GetWallpaperCount();
    assert n == Success(2);
    cache.EvictAll();
    var once := cache.wallpaperEntities;
    cache.EvictAll();
    assert cache.wallpaperEntities == once;
    n := cache.GetWallpaperCount();
    assert n == Failure(NullQueue);
  }
}
