/** The contents of the wallpaper cache as a value: a sequence of entities in
    queue order (front first), and the pure operations the cache performs on
    it — the rotation of `getNext`, the scan by id of `isCached(String)` and
    `get(String)`, and the `liked` toggle of `likeWallpaper`. */
module WallpaperQueue {
  import opened Wrappers

  /** A cached wallpaper. Only the id and the `liked` flag take part in the
      cache's logic; the display fields are not modelled. */
  datatype WallpaperEntity = WallpaperEntity(wallpaperId: string, liked: bool)

  /** Some entity in `s` carries the id `id`. */
  predicate HasId(s: seq<WallpaperEntity>, id: string)
  {
    exists j :: 0 <= j < |s| && s[j].wallpaperId == id
  }

  // ---------------------------------------------------------------------------
  // Rotation (getNext)

  /** One step of `getNext`: the front entity is polled and offered at the
      back. */
  function Rotate(s: seq<WallpaperEntity>): (r: seq<WallpaperEntity>)
    requires |s| > 0
    ensures |r| == |s|
  {
    s[1..] + [s[0]]
  }

  /** A rotation keeps the entities of the queue, and its new front is the
      entity that followed the old front — the same entity in a queue of one. */
  lemma RotateKeepsEntities(s: seq<WallpaperEntity>)
    requires |s| > 0
    ensures multiset(Rotate(s)) == multiset(s)
    ensures |s| > 1 ==> Rotate(s)[0] == s[1]
    ensures |s| == 1 ==> Rotate(s) == s
  {
    calc {
      multiset(Rotate(s));
      multiset(s[1..]) + multiset([s[0]]);
      { assert s == [s[0]] + s[1..]; }
      multiset(s);
    }
  }

  /** The queue after `k` calls of `getNext`. */
  function RotateN(s: seq<WallpaperEntity>, k: nat): (r: seq<WallpaperEntity>)
    requires |s| > 0
    ensures |r| == |s|
    decreases k
  {
    if k == 0 then s else Rotate(RotateN(s, k - 1))
  }

  /** `a + b` calls of `getNext` are `a` calls followed by `b` more. */
  lemma {:induction false} RotateNAdd(s: seq<WallpaperEntity>, a: nat, b: nat)
    requires |s| > 0
    ensures RotateN(s, a + b) == RotateN(RotateN(s, a), b)
    decreases b
  {
    if b > 0 {
      RotateNAdd(s, a, b - 1);
      var before := RotateN(s, a + (b - 1));
      assert before == RotateN(RotateN(s, a), b - 1);
      assert RotateN(s, a + b) == Rotate(before);
      assert RotateN(RotateN(s, a), b) == Rotate(before);
    }
  }

  /** After `k <= |s|` calls of `getNext` the queue is the original
      cyclically shifted by `k`: the entities from position `k` on come
      first, in their order, followed by the first `k`, in theirs. */
  lemma {:induction false} RotateNIsCyclicShift(s: seq<WallpaperEntity>, k: nat)
    requires |s| > 0 && k <= |s|
    ensures RotateN(s, k) == s[k..] + s[..k]
  {
    if k == 0 {
      assert s[0..] + s[..0] == s;
    } else {
      RotateNIsCyclicShift(s, k - 1);
      var t := s[k - 1..] + s[..k - 1];
      assert RotateN(s, k) == t[1..] + [t[0]];
      assert t[0] == s[k - 1];
      assert t[1..] == s[k..] + s[..k - 1];
      assert s[..k - 1] + [s[k - 1]] == s[..k];
    }
  }

  /** Calling `getNext` |s| times restores the original order. */
  lemma RotateNFullCycle(s: seq<WallpaperEntity>)
    requires |s| > 0
    ensures RotateN(s, |s|) == s
  {
    RotateNIsCyclicShift(s, |s|);
    assert s[|s|..] + s[..|s|] == s;
  }

  /** The rotation is periodic with period |s|. */
  lemma RotateNPeriodic(s: seq<WallpaperEntity>, k: nat)
    requires |s| > 0
    ensures RotateN(s, k + |s|) == RotateN(s, k)
  {
    RotateNAdd(s, |s|, k);
    RotateNFullCycle(s);
  }

  /** The `k`-th call of `getNext`, for `k < |s|`, yields the entity at
      position `k` of the original queue (with `RotateNPeriodic`, the one at
      position `k mod |s|` for any `k`). */
  lemma RotateNFront(s: seq<WallpaperEntity>, k: nat)
    requires k < |s|
    ensures RotateN(s, k)[0] == s[k]
  {
    RotateNIsCyclicShift(s, k);
  }

  /** Rotation keeps the set of ids the cache answers `isCached(id)` for. */
  lemma RotateKeepsIds(s: seq<WallpaperEntity>, id: string)
    requires |s| > 0
    ensures HasId(Rotate(s), id) <==> HasId(s, id)
  {
    var r := Rotate(s);
    if HasId(s, id) {
      var j :| 0 <= j < |s| && s[j].wallpaperId == id;
      if j == 0 {
        assert r[|s| - 1] == s[0];
      } else {
        assert r[j - 1] == s[j];
      }
    }
    if HasId(r, id) {
      var j :| 0 <= j < |r| && r[j].wallpaperId == id;
      if j == |s| - 1 {
        assert s[0] == r[j];
      } else {
        assert s[j + 1] == r[j];
      }
    }
  }

  // ---------------------------------------------------------------------------
  // Lookup by id (isCached(String), get(String))

  /** The position of the first entity whose id is `id`, as the for-each scan
      of `get(String)` finds it; `None` when no entity has it. */
  function IndexOf(s: seq<WallpaperEntity>, id: string): (r: Option<nat>)
    ensures r.Some? ==> r.value < |s| && s[r.value].wallpaperId == id
    ensures r.Some? ==> forall j :: 0 <= j < r.value ==> s[j].wallpaperId != id
    ensures r.None? <==> !HasId(s, id)
  {
    if |s| == 0 then None
    else if s[0].wallpaperId == id then Some(0)
    else match IndexOf(s[1..], id)
      case None => None
      case Some(k) => Some(k + 1)
  }

  /** The first match is determined by the ids alone: two queues whose ids
      agree position by position have the same first match. */
  lemma IndexOfDependsOnIds(s: seq<WallpaperEntity>, t: seq<WallpaperEntity>, id: string)
    requires |s| == |t|
    requires forall k :: 0 <= k < |s| ==> s[k].wallpaperId == t[k].wallpaperId
    ensures IndexOf(s, id) == IndexOf(t, id)
  {
    var a, b := IndexOf(s, id), IndexOf(t, id);
    if a.Some? {
      assert t[a.value].wallpaperId == id;
    }
    if b.Some? {
      assert s[b.value].wallpaperId == id;
    }
  }

  // ---------------------------------------------------------------------------
  // The liked toggle (likeWallpaper)

  /** `likeWallpaper(id)` on a present queue: the first entity with that id has
      its `liked` flag negated; a queue without the id is returned as is. */
  function ToggleLiked(s: seq<WallpaperEntity>, id: string): (r: seq<WallpaperEntity>)
    ensures |r| == |s|
  {
    match IndexOf(s, id)
    case None => s
    case Some(i) => s[i := s[i].(liked := !s[i].liked)]
  }

  /** The toggle hits the first entity with the id, negates its flag, keeps
      its id, and leaves every other entity as it was. */
  lemma ToggleLikedFlipsFirstMatch(s: seq<WallpaperEntity>, id: string, i: nat)
    requires i < |s| && s[i].wallpaperId == id
    requires forall j :: 0 <= j < i ==> s[j].wallpaperId != id
    ensures ToggleLiked(s, id)[i] == WallpaperEntity(id, !s[i].liked)
    ensures forall j :: 0 <= j < |s| && j != i ==> ToggleLiked(s, id)[j] == s[j]
  {
    assert HasId(s, id);
    assert IndexOf(s, id) == Some(i);
  }

  /** The toggle is a silent no-op when no entity has the id. */
  lemma ToggleLikedAbsent(s: seq<WallpaperEntity>, id: string)
    requires !HasId(s, id)
    ensures ToggleLiked(s, id) == s
  {
  }

  /** The toggle never changes membership or order: the ids stay where they
      were, and so the answer of every lookup by id is unchanged. */
  lemma ToggleLikedKeepsIds(s: seq<WallpaperEntity>, id: string, other: string)
    ensures forall k :: 0 <= k < |s| ==> ToggleLiked(s, id)[k].wallpaperId == s[k].wallpaperId
    ensures HasId(ToggleLiked(s, id), other) <==> HasId(s, other)
    ensures IndexOf(ToggleLiked(s, id), other) == IndexOf(s, other)
  {
    var t := ToggleLiked(s, id);
    assert forall k :: 0 <= k < |s| ==> t[k].wallpaperId == s[k].wallpaperId;
    IndexOfDependsOnIds(s, t, other);
  }

  /** It toggles rather than sets: liking the same id twice restores the
      queue. */
  lemma ToggleLikedTwice(s: seq<WallpaperEntity>, id: string)
    ensures ToggleLiked(ToggleLiked(s, id), id) == s
  {
    var t := ToggleLiked(s, id);
    ToggleLikedKeepsIds(s, id, id);
    match IndexOf(s, id)
    case None =>
    case Some(i) =>
      assert IndexOf(t, id) == Some(i);
      assert t[i].liked == !s[i].liked;
  }
}
