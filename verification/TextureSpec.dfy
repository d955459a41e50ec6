/**
 What the large texture manager promises, as a state machine over values: what is held for each path,
 what every call and every job completion does to it, and what holds after any run of them.
 */
module TextureSpec {
  import opened RandR

  type Path = string
  type Job = nat
  type Texture = nat
  const TIME_TO_DELETE := 2000

  /** `Loading` sits in the queue, `Loaded` in the cache; an image that failed to load has no texture. */
  datatype Holding =
    | Loading(job: Job, refs: nat)
    | Loaded(texture: Option<Texture>, refs: nat, deadline: nat)

  type Holdings = map<Path, Holding>

  /** A client asks for an image; `job` is the identifier a new loading job would get. */
  function Get(h: Holdings, path: Path, first: bool, job: Job): Holdings {
    if !first || path == "" then h
    else if path in h then h[path := h[path].(refs := h[path].refs + 1)]
    else h[path := Loading(job, 1)]
  }

  /** A client is done with an image. */
  function Release(h: Holdings, path: Path, immediately: bool, now: nat): Holdings
    requires path in h ==> h[path].refs > 0
  {
    if path !in h then h
    else
      var left := h[path].refs - 1;
      if left > 0 then h[path := h[path].(refs := left)]
      else if h[path].Loading? || immediately then h - {path}
      else h[path := Loaded(h[path].texture, 0, now + TIME_TO_DELETE)]
  }

  /** A loading job ends, with a texture or without; the identifier may be that of a cancelled job. */
  function Complete(h: Holdings, job: Job, texture: Option<Texture>): Holdings {
    map path | path in h :: if h[path].Loading? && h[path].job == job then Loaded(texture, h[path].refs, 0) else h[path]
  }

  /** Unused images are thrown away, at once or when their time has come. */
  function Cleanup(h: Holdings, immediately: bool, now: nat): Holdings {
    map path | path in h && !Expired(h[path], immediately, now) :: h[path]
  }

  predicate Expired(held: Holding, immediately: bool, now: nat) {
    held.Loaded? && held.refs == 0 && (immediately || held.deadline < now)
  }

  // ----- every interleaving -----

  datatype Event =
    | Request(path: Path, first: bool)
    | Drop(path: Path, immediately: bool, at: nat)
    | JobDone(job: Job, texture: Option<Texture>)
    | Sweep(immediately: bool, at: nat)

  /** The manager, how many jobs it started, and what the clients have asked for and not yet dropped. */
  datatype World = World(held: Holdings, nextJob: Job, wanted: map<Path, nat>)

  function Wanted(w: World, path: Path): nat {
    if path in w.wanted then w.wanted[path] else 0
  }

  /** Clients are balanced: they drop only what they asked for. Nothing is expected of jobs. */
  predicate Balanced(w: World, e: Event) {
    e.Drop? ==> Wanted(w, e.path) > 0
  }

  function Step(w: World, e: Event): World
    requires Consistent(w) && Balanced(w, e)
  {
    match e
    case Request(path, first) =>
      World(Get(w.held, path, first, w.nextJob),
            if first && path != "" && path !in w.held then w.nextJob + 1 else w.nextJob,
            if first && path != "" then w.wanted[path := Wanted(w, path) + 1] else w.wanted)
    case Drop(path, immediately, at) =>
      World(Release(w.held, path, immediately, at), w.nextJob, w.wanted[path := Wanted(w, path) - 1])
    case JobDone(job, texture) => w.(held := Complete(w.held, job, texture))
    case Sweep(immediately, at) => w.(held := Cleanup(w.held, immediately, at))
  }

  /**
   What holds throughout: a path's count is exactly the number of outstanding requests, so nothing
   wanted is ever missing; what is still loading is wanted; and jobs in the queue are distinct and
   were all started.
   */
  predicate Consistent(w: World) {
    && (forall path :: path in w.held ==> w.held[path].refs == Wanted(w, path))
    && (forall path :: path in w.wanted && w.wanted[path] > 0 ==> path in w.held)
    && (forall path :: path in w.held && w.held[path].Loading? ==>
          w.held[path].refs > 0 && w.held[path].job < w.nextJob)
    && (forall p, q :: p in w.held && q in w.held && w.held[p].Loading? && w.held[q].Loading? && p != q ==>
          w.held[p].job != w.held[q].job)
    && "" !in w.held
  }

  lemma RequestConsistent(w: World, path: Path, first: bool)
    requires Consistent(w)
    ensures Consistent(Step(w, Request(path, first)))
  {}

  lemma DropConsistent(w: World, path: Path, immediately: bool, at: nat)
    requires Consistent(w) && Balanced(w, Drop(path, immediately, at))
    ensures Consistent(Step(w, Drop(path, immediately, at)))
  {}

  lemma JobDoneConsistent(w: World, job: Job, texture: Option<Texture>)
    requires Consistent(w)
    ensures Consistent(Step(w, JobDone(job, texture)))
  {}

  lemma SweepConsistent(w: World, immediately: bool, at: nat)
    requires Consistent(w)
    ensures Consistent(Step(w, Sweep(immediately, at)))
  {}

  lemma StepConsistent(w: World, e: Event)
    requires Consistent(w) && Balanced(w, e)
    ensures Consistent(Step(w, e))
  {
    match e {
      case Request(path, first) => RequestConsistent(w, path, first);
      case Drop(path, immediately, at) => DropConsistent(w, path, immediately, at);
      case JobDone(job, texture) => JobDoneConsistent(w, job, texture);
      case Sweep(immediately, at) => SweepConsistent(w, immediately, at);
    }
  }

  /** A run of events, each of them balanced when it happens. */
  ghost predicate Run(w: World, events: seq<Event>)
    requires Consistent(w)
    decreases |events|
  {
    events == [] ||
    (Balanced(w, events[0]) && (StepConsistent(w, events[0]); Run(Step(w, events[0]), events[1..])))
  }

  function After(w: World, events: seq<Event>): World
    requires Consistent(w) && Run(w, events)
    decreases |events|
  {
    if events == [] then w
    else
      StepConsistent(w, events[0]);
      After(Step(w, events[0]), events[1..])
  }

  const START := World(map[], 0, map[])

  lemma {:induction false} RunConsistent(w: World, events: seq<Event>)
    requires Consistent(w) && Run(w, events)
    ensures Consistent(After(w, events))
    decreases |events|
  {
    if events != [] {
      StepConsistent(w, events[0]);
      RunConsistent(Step(w, events[0]), events[1..]);
    }
  }

  /** What one event adds to the outstanding requests for a path, whatever the manager does. */
  function Asks(e: Event, path: Path): int {
    if e.Request? && e.first && e.path == path && path != "" then 1
    else if e.Drop? && e.path == path then -1
    else 0
  }

  /** How many requests for a path a run leaves outstanding, counted from the events alone. */
  function Outstanding(events: seq<Event>, path: Path): int {
    if events == [] then 0 else Asks(events[0], path) + Outstanding(events[1..], path)
  }

  lemma {:induction false} WantedCounts(w: World, events: seq<Event>, path: Path)
    requires Consistent(w) && Run(w, events)
    ensures Wanted(After(w, events), path) == Wanted(w, path) + Outstanding(events, path)
    decreases |events|
  {
    if events != [] {
      StepConsistent(w, events[0]);
      WantedCounts(Step(w, events[0]), events[1..], path);
    }
  }

  /**
   Over every interleaving of requests, releases, completions and cleanups: an image is held exactly
   while it must be, once, and its count is the number of requests the events left outstanding.
   */
  lemma CountIsOutstanding(events: seq<Event>, path: Path)
    requires Run(START, events)
    ensures Outstanding(events, path) >= 0
    ensures Outstanding(events, path) > 0 ==> path in After(START, events).held
    ensures path in After(START, events).held ==> After(START, events).held[path].refs == Outstanding(events, path)
  {
    RunConsistent(START, events);
    WantedCounts(START, events, path);
  }

  /** A job that was started and is no longer in the queue. */
  predicate Retired(w: World, job: Job) {
    job < w.nextJob && forall path :: path in w.held && w.held[path].Loading? ==> w.held[path].job != job
  }

  lemma RetiredCompletion(w: World, job: Job, texture: Option<Texture>)
    requires Retired(w, job)
    ensures Complete(w.held, job, texture) == w.held
  {}

  lemma RetiredStep(w: World, e: Event, job: Job)
    requires Consistent(w) && Balanced(w, e) && Retired(w, job)
    ensures Retired(Step(w, e), job)
  {}

  /** Once out of the queue a job never comes back, so its late completion changes nothing. */
  lemma {:induction false} RetiredForever(w: World, events: seq<Event>, job: Job, texture: Option<Texture>)
    requires Consistent(w) && Run(w, events) && Retired(w, job)
    ensures Retired(After(w, events), job)
    ensures Complete(After(w, events).held, job, texture) == After(w, events).held
    decreases |events|
  {
    RetiredCompletion(w, job, texture);
    if events != [] {
      StepConsistent(w, events[0]);
      RetiredStep(w, events[0], job);
      RetiredForever(Step(w, events[0]), events[1..], job, texture);
    }
  }

  /** Asking again for an image, other than for the first time, changes nothing. */
  lemma {:induction false} RepeatChangesNothing(w: World, path: Path)
    requires Consistent(w)
    ensures Step(w, Request(path, false)) == w
  {}

  /** Dropping the last request for an image that is still loading retires its job. */
  lemma CancelRetires(w: World, path: Path, immediately: bool, now: nat)
    requires Consistent(w) && Wanted(w, path) == 1 && path in w.held && w.held[path].Loading?
    ensures Retired(Step(w, Drop(path, immediately, now)), w.held[path].job)
  {}

  // ----- which texture a client gets -----

  lemma {:induction false} RunConcat(w: World, a: seq<Event>, b: seq<Event>)
    requires Consistent(w) && Run(w, a + b)
    ensures Run(w, a) && Consistent(After(w, a)) && Run(After(w, a), b)
    ensures After(w, a + b) == After(After(w, a), b)
    decreases |a|
  {
    if a == [] {
      assert a + b == b;
    } else {
      assert (a + b)[0] == a[0] && (a + b)[1..] == a[1..] + b;
      StepConsistent(w, a[0]);
      RunConcat(Step(w, a[0]), a[1..], b);
    }
  }

  /** A run from the start, up to its `n`-th event and on with that one. */
  lemma {:induction false} RunNext(events: seq<Event>, n: nat)
    requires n < |events| && Run(START, events)
    ensures Run(START, events[..n]) && Run(START, events[..n + 1]) && Consistent(After(START, events[..n]))
    ensures Balanced(After(START, events[..n]), events[n])
    ensures After(START, events[..n + 1]) == Step(After(START, events[..n]), events[n])
  {
    assert events == events[..n + 1] + events[n + 1..];
    RunConcat(START, events[..n + 1], events[n + 1..]);
    assert events[..n + 1] == events[..n] + [events[n]];
    RunConcat(START, events[..n], [events[n]]);
  }

  lemma {:induction false} RunUpTo(events: seq<Event>, n: nat)
    requires n <= |events| && Run(START, events)
    ensures Run(START, events[..n])
  {
    assert events == events[..n] + events[n..];
    RunConcat(START, events[..n], events[n..]);
  }

  /** The request at `k` is the one that makes the manager load `path`, as job `job`. */
  ghost predicate Starts(events: seq<Event>, k: nat, path: Path, job: Job) {
    && k < |events| && events[k] == Request(path, true) && path != ""
    && Run(START, events[..k]) && path !in After(START, events[..k]).held && job == After(START, events[..k]).nextJob
  }

  /** From event `k` on the image is held all the time. */
  ghost predicate HeldSince(events: seq<Event>, k: nat, path: Path) {
    forall n {:trigger events[..n]} :: k < n <= |events| ==>
      Run(START, events[..n]) && path in After(START, events[..n]).held
  }

  /** No completion of this job comes between events `k` and `m`. */
  ghost predicate NotDone(events: seq<Event>, k: nat, m: nat, job: Job) {
    forall n :: k < n < m && n < |events| && events[n].JobDone? ==> events[n].job != job
  }

  /** Event `m` is the first completion of this job after event `k`, with this texture. */
  ghost predicate FirstDone(events: seq<Event>, k: nat, m: nat, job: Job, texture: Option<Texture>) {
    k < m < |events| && events[m] == JobDone(job, texture) && NotDone(events, k, m, job)
  }

  /** The image is still loading as this job, or holds what the first completion of the job brought. */
  ghost predicate ShowsJob(held: Holding, events: seq<Event>, k: nat, job: Job) {
    match held
    case Loading(j, _) => j == job && NotDone(events, k, |events|, job)
    case Loaded(texture, _, _) => exists m :: FirstDone(events, k, m, job, texture)
  }

  /** What is held for a path, if anything, comes from the one request that started loading it. */
  ghost predicate Explained(events: seq<Event>, path: Path, k: nat, job: Job)
    requires Run(START, events)
  {
    && Starts(events, k, path, job) && HeldSince(events, k, path)
    && path in After(START, events).held && ShowsJob(After(START, events).held[path], events, k, job)
  }

  lemma {:induction false} StartsLater(events: seq<Event>, e: Event, k: nat, path: Path, job: Job)
    requires Starts(events, k, path, job)
    ensures Starts(events + [e], k, path, job)
  {
    assert (events + [e])[..k] == events[..k];
  }

  lemma {:induction false} HeldLater(events: seq<Event>, e: Event, k: nat, path: Path)
    requires HeldSince(events, k, path) && Run(START, events + [e]) && path in After(START, events + [e]).held
    ensures HeldSince(events + [e], k, path)
  {
    var all := events + [e];
    forall n | k < n <= |all| ensures Run(START, all[..n]) && path in After(START, all[..n]).held {
      if n <= |events| { assert all[..n] == events[..n]; } else { assert all[..n] == all; }
    }
  }

  /** While an image is held, only the completion of its own job gives it a texture, and once. */
  lemma {:induction false} StepKeepsTexture(w: World, e: Event, path: Path)
    requires Consistent(w) && Balanced(w, e) && path in w.held && path in Step(w, e).held
    ensures var was, now := w.held[path], Step(w, e).held[path];
      && (was.Loaded? ==> now.Loaded? && now.texture == was.texture)
      && (was.Loading? && e.JobDone? && e.job == was.job ==> now.Loaded? && now.texture == e.texture)
      && (was.Loading? && !(e.JobDone? && e.job == was.job) ==> now.Loading? && now.job == was.job)
  {}

  /** One more event, after which the image is still held, keeps the explanation. */
  lemma {:induction false} StaysExplained(events: seq<Event>, e: Event, path: Path, k: nat, job: Job)
    requires Run(START, events + [e]) && Run(START, events) && Explained(events, path, k, job)
    requires path in After(START, events + [e]).held
    ensures Explained(events + [e], path, k, job)
  {
    var all, n := events + [e], |events|;
    RunNext(all, n);
    assert all[..n] == events && all[..n + 1] == all;
    StartsLater(events, e, k, path, job);
    HeldLater(events, e, k, path);
    StepKeepsTexture(After(START, events), e, path);
    var was, now := After(START, events).held[path], After(START, all).held[path];
    if was.Loaded? {
      var m :| FirstDone(events, k, m, job, was.texture);
      assert FirstDone(all, k, m, job, was.texture);
    } else if now.Loaded? {
      assert FirstDone(all, k, n, job, now.texture);
    }
  }

  /** Only a first request for it makes the manager hold an image, and load it as the next job. */
  lemma {:induction false} RequestStarts(w: World, e: Event, path: Path)
    requires Consistent(w) && Balanced(w, e) && path !in w.held && path in Step(w, e).held
    ensures e == Request(path, true) && path != "" && Step(w, e).held[path] == Loading(w.nextJob, 1)
  {}

  lemma {:induction false} HeldFromNow(events: seq<Event>, n: nat, path: Path)
    requires |events| == n + 1 && Run(START, events) && path in After(START, events).held
    ensures HeldSince(events, n, path)
  {
    forall l | n < l <= |events| ensures Run(START, events[..l]) && path in After(START, events[..l]).held {
      assert events[..l] == events;
    }
  }

  lemma {:induction false} StartsNow(events: seq<Event>, n: nat, path: Path)
    requires |events| == n + 1 && Run(START, events) && path in After(START, events).held
    requires Run(START, events[..n]) && path !in After(START, events[..n]).held
    ensures var job := After(START, events[..n]).nextJob;
      Starts(events, n, path, job) && After(START, events).held[path] == Loading(job, 1)
  {
    RunNext(events, n);
    assert events[..n + 1] == events;
    RequestStarts(After(START, events[..n]), events[n], path);
  }

  lemma {:induction false} StartsExplained(events: seq<Event>, n: nat, path: Path)
    requires |events| == n + 1 && Run(START, events) && path in After(START, events).held
    requires Run(START, events[..n]) && path !in After(START, events[..n]).held
    ensures Explained(events, path, n, After(START, events[..n]).nextJob)
  {
    StartsNow(events, n, path);
    HeldFromNow(events, n, path);
  }

  /**
   After any run, an image that is held was started by one request and held ever since; it is loading as the
   job of that request or has exactly the texture that the first completion of this job brought.
   */
  lemma {:induction false} TextureIsOfItsJob(events: seq<Event>, path: Path) returns (k: nat, job: Job)
    requires Run(START, events) && path in After(START, events).held
    ensures Explained(events, path, k, job)
    decreases |events|
  {
    var n := |events| - 1;
    var init, e := events[..n], events[n];
    assert events == init + [e];
    RunUpTo(events, n);
    if path in After(START, init).held {
      k, job := TextureIsOfItsJob(init, path);
      StaysExplained(init, e, path, k, job);
    } else {
      k, job := n, After(START, init).nextJob;
      StartsExplained(events, n, path);
    }
  }

  /** A path that was wanted ever since loading it was started has the texture that its job ended with. */
  lemma {:induction false} WantedGetsTexture(events: seq<Event>, path: Path, k: nat, job: Job, m: nat,
                                             texture: Option<Texture>)
    requires Run(START, events) && Starts(events, k, path, job) && FirstDone(events, k, m, job, texture)
    requires forall n {:trigger events[..n]} :: k < n <= |events| ==> Outstanding(events[..n], path) > 0
    ensures path in After(START, events).held
    ensures After(START, events).held[path].Loaded? && After(START, events).held[path].texture == texture
  {
    forall n | k < n <= |events| ensures Run(START, events[..n]) && path in After(START, events[..n]).held {
      RunUpTo(events, n);
      CountIsOutstanding(events[..n], path);
    }
    assert events[..|events|] == events;
    var j, other := TextureIsOfItsJob(events, path);
    OneStart(events, path, j, other, k, job);
    if After(START, events).held[path].Loaded? {
      var l :| FirstDone(events, k, l, job, After(START, events).held[path].texture);
      assert l == m;
    }
  }

  /** Two requests cannot both have started loading an image that was held from both on. */
  lemma {:induction false} OneStart(events: seq<Event>, path: Path, j: nat, a: Job, k: nat, b: Job)
    requires Starts(events, j, path, a) && HeldSince(events, j, path)
    requires Starts(events, k, path, b) && HeldSince(events, k, path)
    ensures j == k && a == b
  {}

  /** An image that nobody wants any more stays for two seconds, unless it is dropped or swept immediately. */
  lemma {:induction false} UnusedStays(w: World, path: Path, dropped: nat, immediately: bool, swept: nat)
    requires Consistent(w) && Wanted(w, path) == 1 && path in w.held && w.held[path].Loaded?
    ensures Consistent(Step(w, Drop(path, false, dropped)))
    ensures path in Step(Step(w, Drop(path, false, dropped)), Sweep(immediately, swept)).held <==>
      !immediately && swept <= dropped + 2000
    ensures path !in Step(w, Drop(path, true, dropped)).held
  {
    StepConsistent(w, Drop(path, false, dropped));
  }
}
