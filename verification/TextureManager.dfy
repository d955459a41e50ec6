/** `CGUILargeTextureManager`: a queue of images being loaded and a cache of loaded ones. */
module TextureManager {
  import opened RandR
  import opened TextureSpec

  /** One image; the reference-counting assertions of the original are preconditions here. */
  class LargeTexture {
    const path: Path
    var refCount: nat
    var texture: Option<Texture>
    var timeToDelete: nat
    /** Deleted objects must not be touched again. */
    ghost var deleted: bool

    constructor (path: Path)
      ensures this.path == path && refCount == 1 && texture == None && timeToDelete == 0 && !deleted
    {
      this.path, refCount, texture, timeToDelete, deleted := path, 1, None, 0, false;
    }

    /** The destructor asserts that nobody holds a reference. */
    ghost method Delete()
      requires refCount == 0 && !deleted
      modifies this`deleted
      ensures deleted
    {
      deleted := true;
    }

    method AddRef()
      requires !deleted
      modifies this`refCount
      ensures refCount == old(refCount) + 1
    {
      refCount := refCount + 1;
    }

    method DecrRef(deleteImmediately: bool, now: nat) returns (unused: bool)
      requires refCount > 0 && !deleted
      modifies this`refCount, this`timeToDelete, this`deleted
      ensures refCount == old(refCount) - 1 && (unused <==> refCount == 0)
      ensures deleted <==> unused && deleteImmediately
      ensures timeToDelete == if unused && !deleteImmediately then now + TIME_TO_DELETE else old(timeToDelete)
    {
      refCount := refCount - 1;
      if refCount == 0 {
        if deleteImmediately {
          Delete();
        } else {
          timeToDelete := now + TIME_TO_DELETE;
        }
        return true;
      }
      return false;
    }

    method DeleteIfRequired(deleteImmediately: bool, now: nat) returns (gone: bool)
      requires !deleted
      modifies this`deleted
      ensures gone <==> refCount == 0 && (deleteImmediately || timeToDelete < now)
      ensures deleted <==> gone
    {
      if refCount == 0 && (deleteImmediately || timeToDelete < now) {
        Delete();
        return true;
      }
      return false;
    }

    method SetTexture(t: Option<Texture>)
      requires texture == None && !deleted
      modifies this`texture
      ensures texture == t
    {
      if t.Some? {
        texture := t;
      }
    }
  }

  /** The sequence with one element erased. */
  function Without<T>(s: seq<T>, i: nat): seq<T>
    requires i < |s|
  {
    s[..i] + s[i + 1..]
  }

  class Manager {
    var queued: seq<(Job, LargeTexture)>
    var loaded: seq<LargeTexture>
    var nextJob: Job
    /** What is held for each path, kept up to date by every method. */
    ghost var held: Holdings
    /** Where in the queue or in the cache the image of a held path is. */
    ghost var slot: map<Path, nat>
    /** Which path a queued job loads. */
    ghost var owner: map<Job, Path>

    ghost function Images(): set<LargeTexture>
      reads this
    {
      (set i | 0 <= i < |queued| :: queued[i].1) + (set i | 0 <= i < |loaded| :: loaded[i])
    }

    ghost predicate QueuedAs(i: nat)
      requires i < |queued|
      reads this, queued[i].1
    {
      var job, image := queued[i].0, queued[i].1;
      && !image.deleted && image.texture == None && image.timeToDelete == 0
      && job < nextJob && job in owner && owner[job] == image.path
      && image.path in held && held[image.path] == Loading(job, image.refCount)
      && image.path in slot && slot[image.path] == i
    }

    ghost predicate LoadedAs(i: nat)
      requires i < |loaded|
      reads this, loaded[i]
    {
      var image := loaded[i];
      && !image.deleted
      && image.path in held && held[image.path] == Loaded(image.texture, image.refCount, image.timeToDelete)
      && image.path in slot && slot[image.path] == i
    }

    ghost predicate HasImage(path: Path)
      requires path in held
      reads this
    {
      && path != "" && path in slot
      && if held[path].Loading? then slot[path] < |queued| && queued[slot[path]].1.path == path
         else slot[path] < |loaded| && loaded[slot[path]].path == path
    }

    /** Every path is held once, in the queue or in the cache, and `held` says how. */
    ghost predicate Valid()
      reads this, Images()
    {
      && (forall i {:trigger QueuedAs(i)} :: 0 <= i < |queued| ==> QueuedAs(i))
      && (forall i {:trigger LoadedAs(i)} :: 0 <= i < |loaded| ==> LoadedAs(i))
      && (forall path {:trigger HasImage(path)} :: path in held ==> HasImage(path))
    }

    constructor ()
      ensures Valid() && held == map[] && nextJob == 0
    {
      queued, loaded, nextJob, held, slot, owner := [], [], 0, map[], map[], map[];
    }

    /** The slots of loading (or loaded) images move down when one before them is erased. */
    ghost function SlotsAfterErase(loading: bool, i: nat): map<Path, nat>
      reads this
    {
      map p | p in slot :: if p in held && held[p].Loading? == loading && slot[p] > i then slot[p] - 1 else slot[p]
    }

    method FindLoaded(path: Path) returns (i: nat)
      requires Valid()
      ensures i <= |loaded| && (i < |loaded| ==> loaded[i].path == path)
      ensures i < |loaded| <==> path in held && held[path].Loaded?
    {
      i := 0;
      while i < |loaded| && loaded[i].path != path
        invariant 0 <= i <= |loaded|
        invariant forall j :: 0 <= j < i ==> loaded[j].path != path
      {
        i := i + 1;
      }
      assert i < |loaded| ==> LoadedAs(i);
      assert path in held ==> HasImage(path);
    }

    method FindQueued(path: Path) returns (i: nat)
      requires Valid()
      ensures i <= |queued| && (i < |queued| ==> queued[i].1.path == path)
      ensures i < |queued| <==> path in held && held[path].Loading?
    {
      i := 0;
      while i < |queued| && queued[i].1.path != path
        invariant 0 <= i <= |queued|
        invariant forall j :: 0 <= j < i ==> queued[j].1.path != path
      {
        i := i + 1;
      }
      assert i < |queued| ==> QueuedAs(i);
      assert path in held ==> HasImage(path);
    }

    /** Takes one more reference to image `i` of the cache. */
    method RefLoaded(i: nat, image: LargeTexture)
      requires Valid() && i < |loaded| && image == loaded[i]
      modifies image`refCount, this`held
      ensures Valid() && held == Get(old(held), image.path, true, nextJob)
    {
      assert LoadedAs(i) && HasImage(image.path);
      image.AddRef();
      held := Get(held, image.path, true, nextJob);
      forall j | 0 <= j < |queued| ensures QueuedAs(j) {
        assert old(QueuedAs(j));
      }
      forall j | 0 <= j < |loaded| ensures LoadedAs(j) {
        assert old(LoadedAs(j));
      }
      forall p | p in held ensures HasImage(p) {
        assert old(HasImage(p));
      }
    }

    method RefQueued(i: nat, image: LargeTexture)
      requires Valid() && i < |queued| && image == queued[i].1
      modifies image`refCount, this`held
      ensures Valid() && held == Get(old(held), image.path, true, nextJob)
    {
      assert QueuedAs(i) && HasImage(image.path);
      image.AddRef();
      held := Get(held, image.path, true, nextJob);
      forall j | 0 <= j < |queued| ensures QueuedAs(j) {
        assert old(QueuedAs(j));
      }
      forall j | 0 <= j < |loaded| ensures LoadedAs(j) {
        assert old(LoadedAs(j));
      }
      forall p | p in held ensures HasImage(p) {
        assert old(HasImage(p));
      }
    }

    /** Queues the image and starts a loading job, unless it is queued already. */
    method QueueImage(path: Path)
      requires Valid() && (path in held ==> held[path].Loading?)
      modifies this, Images()
      ensures Valid() && held == Get(old(held), path, true, old(nextJob))
      ensures nextJob == if path != "" && path !in old(held) then old(nextJob) + 1 else old(nextJob)
    {
      if path == "" {
        return;
      }
      var i := FindQueued(path);
      if i < |queued| {
        RefQueued(i, queued[i].1);
      } else {
        EnqueueNew(path);
      }
    }

    method EnqueueNew(path: Path)
      requires Valid() && path !in held && path != ""
      modifies this
      ensures Valid() && held == old(held)[path := Loading(old(nextJob), 1)] && nextJob == old(nextJob) + 1
    {
      var image := new LargeTexture(path);
      slot, owner := slot[path := |queued|], owner[nextJob := path];
      queued := queued + [(nextJob, image)];
      held := held[path := Loading(nextJob, 1)];
      nextJob := nextJob + 1;
      forall j | 0 <= j < |queued| ensures QueuedAs(j) {
        if j < |queued| - 1 { assert old(QueuedAs(j)); }
      }
      forall j | 0 <= j < |loaded| ensures LoadedAs(j) {
        assert old(LoadedAs(j));
      }
      forall p | p in held ensures HasImage(p) {
        if p != path { assert old(HasImage(p)); }
      }
    }

    /** Hands out the texture if it is there; a first request counts, and starts the loading if need be. */
    method GetImage(path: Path, firstRequest: bool) returns (available: bool, texture: Option<Texture>)
      requires Valid()
      modifies this, Images()
      ensures Valid() && held == Get(old(held), path, firstRequest, old(nextJob))
      ensures nextJob == if firstRequest && path != "" && path !in old(held) then old(nextJob) + 1 else old(nextJob)
      ensures path in old(held) && old(held)[path].Loaded? ==>
        texture == old(held)[path].texture && available == texture.Some?
      ensures !(path in old(held) && old(held)[path].Loaded?) ==> texture == None && available
    {
      var i := FindLoaded(path);
      if i < |loaded| {
        assert LoadedAs(i) && HasImage(path);
        texture := loaded[i].texture;
        available := texture.Some?;
        if firstRequest {
          RefLoaded(i, loaded[i]);
        }
        return;
      }
      if firstRequest {
        QueueImage(path);
      }
      available, texture := true, None;
    }

    method DropLoaded(i: nat, image: LargeTexture, immediately: bool, now: nat)
      requires Valid() && i < |loaded| && image == loaded[i] && image.path in held && held[image.path].refs > 0
      modifies this, image
      ensures Valid() && held == Release(old(held), image.path, immediately, now) && nextJob == old(nextJob)
    {
      assert LoadedAs(i) && HasImage(image.path);
      var unused := image.DecrRef(immediately, now);
      if unused && immediately {
        forall j | 0 <= j < |queued| ensures QueuedAs(j) {
          assert old(QueuedAs(j));
        }
        forall j | 0 <= j < |loaded| && j != i ensures LoadedAs(j) {
          assert old(LoadedAs(j));
        }
        EraseLoaded(i, image);
      } else {
        held := Release(held, image.path, immediately, now);
        forall j | 0 <= j < |queued| ensures QueuedAs(j) {
          assert old(QueuedAs(j));
        }
        forall j | 0 <= j < |loaded| ensures LoadedAs(j) {
          assert old(LoadedAs(j));
        }
        forall p | p in held ensures HasImage(p) {
          assert old(HasImage(p));
        }
      }
    }

    /** Erases a deleted image from the cache. */
    method EraseLoaded(i: nat, image: LargeTexture)
      requires i < |loaded| && image == loaded[i] && image.path in held && held[image.path].Loaded?
      requires image.path in slot && slot[image.path] == i
      requires forall j {:trigger QueuedAs(j)} :: 0 <= j < |queued| ==> QueuedAs(j)
      requires forall j {:trigger LoadedAs(j)} :: 0 <= j < |loaded| && j != i ==> LoadedAs(j)
      requires forall path {:trigger HasImage(path)} :: path in held ==> HasImage(path)
      modifies this
      ensures Valid() && held == old(held) - {image.path} && nextJob == old(nextJob)
      ensures queued == old(queued) && loaded == Without(old(loaded), i)
    {
      slot := SlotsAfterErase(false, i);
      held := held - {image.path};
      loaded := Without(loaded, i);
      forall j | 0 <= j < |queued| ensures QueuedAs(j) {
        assert old(QueuedAs(j));
      }
      forall j | 0 <= j < |loaded| ensures LoadedAs(j) {
        assert old(LoadedAs(if j < i then j else j + 1));
      }
      forall p | p in held ensures HasImage(p) {
        assert old(HasImage(p));
      }
    }

    /** Drops a reference to a queued image; the last one cancels the job. */
    method DropQueued(i: nat, image: LargeTexture, now: nat) returns (cancelled: Option<Job>)
      requires Valid() && i < |queued| && image == queued[i].1 && image.path in held && held[image.path].refs > 0
      modifies this, image
      ensures Valid() && held == Release(old(held), image.path, true, now) && nextJob == old(nextJob)
      ensures cancelled == if old(held)[image.path].refs == 1 then Some(old(queued)[i].0) else None
    {
      assert QueuedAs(i) && HasImage(image.path);
      var unused := image.DecrRef(true, now);
      if unused {
        cancelled := Some(queued[i].0);
        forall j | 0 <= j < |queued| && j != i ensures QueuedAs(j) {
          assert old(QueuedAs(j));
        }
        forall j | 0 <= j < |loaded| ensures LoadedAs(j) {
          assert old(LoadedAs(j));
        }
        EraseQueued(i, image);
      } else {
        cancelled := None;
        held := Release(held, image.path, true, now);
        forall j | 0 <= j < |queued| ensures QueuedAs(j) {
          assert old(QueuedAs(j));
        }
        forall j | 0 <= j < |loaded| ensures LoadedAs(j) {
          assert old(LoadedAs(j));
        }
        forall p | p in held ensures HasImage(p) {
          assert old(HasImage(p));
        }
      }
    }

    /** Erases an image from the queue. */
    method EraseQueued(i: nat, image: LargeTexture)
      requires i < |queued| && image == queued[i].1 && image.path in held && held[image.path].Loading?
      requires image.path in slot && slot[image.path] == i
      requires forall j {:trigger QueuedAs(j)} :: 0 <= j < |queued| && j != i ==> QueuedAs(j)
      requires forall j {:trigger LoadedAs(j)} :: 0 <= j < |loaded| ==> LoadedAs(j)
      requires forall path {:trigger HasImage(path)} :: path in held ==> HasImage(path)
      modifies this
      ensures Valid() && held == old(held) - {image.path} && nextJob == old(nextJob)
      ensures loaded == old(loaded) && queued == Without(old(queued), i) && slot.Keys == old(slot.Keys)
    {
      slot := SlotsAfterErase(true, i);
      held := held - {image.path};
      queued := Without(queued, i);
      forall j | 0 <= j < |queued| ensures QueuedAs(j) {
        assert old(QueuedAs(if j < i then j else j + 1));
      }
      forall j | 0 <= j < |loaded| ensures LoadedAs(j) {
        assert old(LoadedAs(j));
      }
      forall p | p in held ensures HasImage(p) {
        assert old(HasImage(p));
      }
    }

    /** A client is done with an image, which it must have asked for if the manager holds it. */
    method ReleaseImage(path: Path, immediately: bool, now: nat) returns (cancelled: Option<Job>)
      requires Valid() && (path in held ==> held[path].refs > 0)
      modifies this, Images()
      ensures Valid() && held == Release(old(held), path, immediately, now) && nextJob == old(nextJob)
      ensures cancelled == if path in old(held) && old(held)[path].Loading? && old(held)[path].refs == 1
                           then Some(old(held)[path].job) else None
    {
      cancelled := None;
      var i := FindLoaded(path);
      if i < |loaded| {
        DropLoaded(i, loaded[i], immediately, now);
        return;
      }
      i := FindQueued(path);
      if i < |queued| {
        assert QueuedAs(i);
        cancelled := DropQueued(i, queued[i].1, now);
      }
    }

    /** A loading job ended; its image, if it is still wanted, moves from the queue to the cache. */
    method OnJobComplete(job: Job, texture: Option<Texture>)
      requires Valid()
      modifies this, Images()
      ensures Valid() && held == Complete(old(held), job, texture) && nextJob == old(nextJob)
    {
      var i := 0;
      while i < |queued| && queued[i].0 != job
        invariant 0 <= i <= |queued|
        invariant forall j :: 0 <= j < i ==> queued[j].0 != job
      {
        i := i + 1;
      }
      if i < |queued| {
        MoveToCache(i, queued[i].1, texture);
      } else {
        forall p | p in held && held[p].Loading? ensures held[p].job != job {
          assert HasImage(p) && QueuedAs(slot[p]);
        }
      }
    }

    method MoveToCache(i: nat, image: LargeTexture, texture: Option<Texture>)
      requires Valid() && i < |queued| && image == queued[i].1
      modifies this, image
      ensures Valid() && held == Complete(old(held), old(queued)[i].0, texture) && nextJob == old(nextJob)
    {
      ghost var was, job := held, queued[i].0;
      assert QueuedAs(i) && HasImage(image.path);
      forall p | p in held && held[p].Loading? && held[p].job == job ensures p == image.path {
        assert HasImage(p) && QueuedAs(slot[p]);
      }
      image.SetTexture(texture);
      forall j | 0 <= j < |queued| && j != i ensures QueuedAs(j) {
        assert old(QueuedAs(j));
      }
      forall j | 0 <= j < |loaded| ensures LoadedAs(j) {
        assert old(LoadedAs(j));
      }
      EraseQueued(i, image);
      AddLoaded(image);
      assert held == Complete(was, job, texture);
    }

    method AddLoaded(image: LargeTexture)
      requires Valid() && image.path !in held && image.path != "" && !image.deleted
      modifies this
      ensures Valid() && held == old(held)[image.path := Loaded(image.texture, image.refCount, image.timeToDelete)]
      ensures nextJob == old(nextJob)
    {
      slot := slot[image.path := |loaded|];
      loaded := loaded + [image];
      held := held[image.path := Loaded(image.texture, image.refCount, image.timeToDelete)];
      forall j | 0 <= j < |queued| ensures QueuedAs(j) {
        assert old(QueuedAs(j));
      }
      forall j | 0 <= j < |loaded| ensures LoadedAs(j) {
        if j < |loaded| - 1 { assert old(LoadedAs(j)); }
      }
      forall p | p in held ensures HasImage(p) {
        if p != image.path { assert old(HasImage(p)); }
      }
    }

    /** Throws away the unused images of the cache whose time has come, or all of them. */
    method CleanupUnusedImages(immediately: bool, now: nat)
      requires Valid()
      modifies this, Images()
      ensures Valid() && held == Cleanup(old(held), immediately, now) && nextJob == old(nextJob)
    {
      ghost var was := held;
      var i := 0;
      while i < |loaded|
        invariant i <= |loaded| && Valid() && nextJob == old(nextJob)
        invariant Images() <= old(Images())
        invariant held.Keys <= was.Keys && forall p :: p in held ==> held[p] == was[p]
        invariant forall p :: p in was && p !in held ==> Expired(was[p], immediately, now)
        invariant forall j {:trigger loaded[j]} :: 0 <= j < i ==>
          loaded[j].path in held && !Expired(held[loaded[j].path], immediately, now)
        decreases |loaded| - i
      {
        var gone := CleanupOne(i, loaded[i], immediately, now);
        if !gone {
          i := i + 1;
        }
      }
      forall p | p in held ensures !Expired(held[p], immediately, now) {
        assert HasImage(p);
      }
    }

    method CleanupOne(i: nat, image: LargeTexture, immediately: bool, now: nat) returns (gone: bool)
      requires Valid() && i < |loaded| && image == loaded[i]
      modifies this, image
      ensures Valid() && nextJob == old(nextJob) && queued == old(queued)
      ensures image.path in old(held) && (gone <==> Expired(old(held)[image.path], immediately, now))
      ensures gone ==> loaded == Without(old(loaded), i) && held == old(held) - {image.path}
      ensures !gone ==> loaded == old(loaded) && held == old(held)
    {
      assert LoadedAs(i) && HasImage(image.path);
      gone := image.DeleteIfRequired(immediately, now);
      if gone {
        forall j | 0 <= j < |queued| ensures QueuedAs(j) {
          assert old(QueuedAs(j));
        }
        forall j | 0 <= j < |loaded| && j != i ensures LoadedAs(j) {
          assert old(LoadedAs(j));
        }
        EraseLoaded(i, image);
      }
    }
  }
}
