/** The gateway's worker address cache (gateway/resolver.go:34-122) over a registry that other
    processes write, with a clock that only moves forward. */
module Resolver {
  import opened Models

  datatype Entry = Entry(address: string, fetchedAt: int)

  datatype Answer = Address(address: string) | NotRegistered | LookupFailed

  type Cache = map<string, Entry>

  type Registry = map<string, string>

  predicate FreshAt(e: Entry, now: int, ttl: int) { now - e.fetchedAt < ttl }

  function ResolveCache(cache: Cache, worker: string, now: int, ttl: int, registry: Registry, up: bool): Cache {
    if worker in cache && FreshAt(cache[worker], now, ttl) then cache
    else if up && worker in registry then cache[worker := Entry(registry[worker], now)]
    else cache
  }

  function ResolveAnswer(cache: Cache, worker: string, now: int, ttl: int, registry: Registry, up: bool): Answer {
    if worker in cache && FreshAt(cache[worker], now, ttl) then Address(cache[worker].address)
    else if !up then LookupFailed
    else if worker in registry then Address(registry[worker])
    else NotRegistered
  }

  predicate Outdated(e: Entry, now: int, ttl: int) { now - e.fetchedAt > 2 * ttl }

  function PruneCache(cache: Cache, now: int, ttl: int): Cache {
    map w | w in cache && !Outdated(cache[w], now, ttl) :: cache[w]
  }

  /* Exactly the entries older than twice the time-to-live go, and the others stay as they are. */
  lemma PruneExactly(cache: Cache, now: int, ttl: int)
    ensures forall w :: (w in PruneCache(cache, now, ttl) <==> w in cache && now - cache[w].fetchedAt <= 2 * ttl)
                        && (w in PruneCache(cache, now, ttl) ==> PruneCache(cache, now, ttl)[w] == cache[w])
  {
  }

  class WorkerResolver {
    const ttl: int
    var cache: Cache

    constructor (ttl: int)
      ensures this.ttl == ttl && cache == map[]
    {
      this.ttl := ttl;
      cache := map[];
    }

    /* `registry` and `up` are what the store would answer, and whether it answers at all. */
    method Resolve(worker: string, now: int, registry: Registry, up: bool) returns (r: Answer)
      modifies this
      ensures r == ResolveAnswer(old(cache), worker, now, ttl, registry, up)
      ensures cache == ResolveCache(old(cache), worker, now, ttl, registry, up)
    {
      if worker in cache {
        var cached := cache[worker];
        if FreshAt(cached, now, ttl) {
          return Address(cached.address);
        }
      }
      if !up {
        return LookupFailed;
      }
      if worker !in registry {
        return NotRegistered;
      }
      var address := registry[worker];
      cache := cache[worker := Entry(address, now)];
      r := Address(address);
    }

    method Evict(worker: string)
      modifies this
      ensures cache == old(cache) - {worker}
    {
      cache := cache - {worker};
    }

    method Prune(now: int)
      modifies this
      ensures cache == PruneCache(old(cache), now, ttl)
    {
      var todo := cache.Keys;
      while todo != {}
        invariant todo <= cache.Keys <= old(cache).Keys
        invariant forall w :: w in cache ==> cache[w] == old(cache)[w]
        invariant forall w :: w in old(cache) ==>
                    (w in cache <==> w in todo || !Outdated(old(cache)[w], now, ttl))
        decreases |todo|
      {
        var w :| w in todo;
        if Outdated(cache[w], now, ttl) {
          cache := cache - {w};
        }
        todo := todo - {w};
      }
    }
  }

  // ---- Runs ----

  datatype Event =
    | Tick(seconds: nat)
    | Register(worker: string, address: string)
    | Unregister(worker: string)
    | StoreUp(up: bool)
    | Resolve(worker: string)
    | Evict(worker: string)
    | CleanupDead(worker: string)
    | Prune

  datatype Instant = Instant(time: int, registry: Registry)

  datatype Reply = Reply(worker: string, time: int, answer: Answer)

  datatype World = World(
    now: int,
    registry: Registry,
    up: bool,
    cache: Cache,
    past: seq<Instant>,
    replies: seq<Reply>)

  function Apply(s: World, e: Event, ttl: int): World {
    match e
    case Tick(n) => s.(now := s.now + n)
    case Register(w, a) => s.(registry := s.registry[w := a])
    case Unregister(w) => s.(registry := s.registry - {w})
    case StoreUp(up) => s.(up := up)
    case Resolve(w) =>
      s.(cache := ResolveCache(s.cache, w, s.now, ttl, s.registry, s.up),
         replies := s.replies + [Reply(w, s.now, ResolveAnswer(s.cache, w, s.now, ttl, s.registry, s.up))])
    case Evict(w) => s.(cache := s.cache - {w})
    case CleanupDead(w) => s.(registry := s.registry - {w}, cache := s.cache - {w})
    case Prune => s.(cache := PruneCache(s.cache, s.now, ttl))
  }

  /* Every state is entered in the past as the instant it shows. */
  function Step(s: World, e: Event, ttl: int): World {
    var t := Apply(s, e, ttl);
    t.(past := s.past + [Instant(t.now, t.registry)])
  }

  function Run(s: World, es: seq<Event>, ttl: int): World {
    if es == [] then s else Step(Run(s, es[..|es| - 1], ttl), es[|es| - 1], ttl)
  }

  function Start(now: int, registry: Registry): World {
    World(now, registry, true, map[], [Instant(now, registry)], [])
  }

  /* The registry held this address for the worker at the given time. */
  ghost predicate HeldAt(past: seq<Instant>, worker: string, address: string, time: int) {
    exists k :: 0 <= k < |past| && past[k].time == time
                && worker in past[k].registry && past[k].registry[worker] == address
  }

  ghost predicate HeldRecently(past: seq<Instant>, worker: string, address: string, now: int, ttl: int) {
    exists t :: HeldAt(past, worker, address, t) && t <= now && (t == now || now - t < ttl)
  }

  ghost predicate CacheHonest(s: World) {
    forall w :: w in s.cache ==>
      s.cache[w].fetchedAt <= s.now && HeldAt(s.past, w, s.cache[w].address, s.cache[w].fetchedAt)
  }

  ghost predicate RepliesHonest(s: World, ttl: int) {
    forall k :: 0 <= k < |s.replies| && s.replies[k].answer.Address? ==>
      HeldRecently(s.past, s.replies[k].worker, s.replies[k].answer.address, s.replies[k].time, ttl)
  }

  ghost predicate Current(s: World) {
    && s.past != []
    && s.past[|s.past| - 1] == Instant(s.now, s.registry)
  }

  ghost predicate Honest(s: World, ttl: int) {
    Current(s) && CacheHonest(s) && RepliesHonest(s, ttl)
  }

  lemma HeldLater(past: seq<Instant>, x: Instant, worker: string, address: string, time: int)
    requires HeldAt(past, worker, address, time)
    ensures HeldAt(past + [x], worker, address, time)
  {
    var k :| 0 <= k < |past| && past[k].time == time
             && worker in past[k].registry && past[k].registry[worker] == address;
    assert (past + [x])[k] == past[k];
  }

  lemma HeldNow(s: World, worker: string)
    requires Current(s) && worker in s.registry
    ensures HeldAt(s.past, worker, s.registry[worker], s.now)
  {
  }

  lemma ReplyHonest(s: World, w: string, ttl: int)
    requires Honest(s, ttl)
    ensures var a := ResolveAnswer(s.cache, w, s.now, ttl, s.registry, s.up);
            a.Address? ==> HeldRecently(s.past, w, a.address, s.now, ttl)
  {
    if w in s.cache && FreshAt(s.cache[w], s.now, ttl) {
      assert HeldAt(s.past, w, s.cache[w].address, s.cache[w].fetchedAt);
    } else if w in s.registry {
      HeldNow(s, w);
    }
  }

  lemma StepCacheHonest(s: World, e: Event, ttl: int)
    requires Honest(s, ttl)
    ensures CacheHonest(Step(s, e, ttl))
  {
    var t := Step(s, e, ttl);
    var x := Instant(t.now, t.registry);
    forall w | w in t.cache
      ensures t.cache[w].fetchedAt <= t.now && HeldAt(t.past, w, t.cache[w].address, t.cache[w].fetchedAt)
    {
      if w in s.cache && t.cache[w] == s.cache[w] {
        HeldLater(s.past, x, w, s.cache[w].address, s.cache[w].fetchedAt);
      } else {
        HeldNow(s, w);
        HeldLater(s.past, x, w, s.registry[w], s.now);
      }
    }
  }

  lemma StepRepliesHonest(s: World, e: Event, ttl: int)
    requires Honest(s, ttl)
    ensures RepliesHonest(Step(s, e, ttl), ttl)
  {
    var t := Step(s, e, ttl);
    var x := Instant(t.now, t.registry);
    forall k | 0 <= k < |t.replies| && t.replies[k].answer.Address?
      ensures HeldRecently(t.past, t.replies[k].worker, t.replies[k].answer.address, t.replies[k].time, ttl)
    {
      var r := t.replies[k];
      if k == |s.replies| {
        ReplyHonest(s, r.worker, ttl);
      }
      var at :| HeldAt(s.past, r.worker, r.answer.address, at) && at <= r.time && (at == r.time || r.time - at < ttl);
      HeldLater(s.past, x, r.worker, r.answer.address, at);
    }
  }

  /* Over every run, each resolved address is one that the registry held for that worker at an
     instant less than the time-to-live before the reply, or at the reply itself. */
  lemma {:induction false} ResolvedAddressesRecent(now: int, registry: Registry, es: seq<Event>, ttl: int)
    ensures Honest(Run(Start(now, registry), es, ttl), ttl)
    decreases |es|
  {
    if es != [] {
      ResolvedAddressesRecent(now, registry, es[..|es| - 1], ttl);
      var s := Run(Start(now, registry), es[..|es| - 1], ttl);
      StepCacheHonest(s, es[|es| - 1], ttl);
      StepRepliesHonest(s, es[|es| - 1], ttl);
    }
  }

  // ---- Exactly what is answered ----

  /* What the store last said about a worker, and when. */
  datatype Fill = Fill(address: string, time: int)

  predicate StillGood(f: Option<Fill>, now: int, ttl: int) { f.Some? && now - f.value.time < ttl }

  /* The last refill from the store that no eviction or cleanup of the worker has undone. The store is
     asked when the last refill is no longer good; prunings do not count. */
  function LastFill(start: World, es: seq<Event>, ttl: int, worker: string): Option<Fill>
    decreases |es|
  {
    if es == [] then None
    else
      var n := |es| - 1;
      FillAfter(LastFill(start, es[..n], ttl, worker), Run(start, es[..n], ttl), es[n], ttl, worker)
  }

  function FillAfter(f: Option<Fill>, s: World, e: Event, ttl: int, worker: string): Option<Fill> {
    if e == Evict(worker) || e == CleanupDead(worker) then None
    else if e == Resolve(worker) && !StillGood(f, s.now, ttl) && s.up && worker in s.registry
    then Some(Fill(s.registry[worker], s.now))
    else f
  }

  /* The cache has the last refill, unless it was pruned and is long past its time. */
  ghost predicate HasFill(s: World, f: Option<Fill>, worker: string, ttl: int) {
    && (worker in s.cache ==> f == Some(Fill(s.cache[worker].address, s.cache[worker].fetchedAt)))
    && (f.Some? ==> f.value.time <= s.now)
    && (f.Some? && worker !in s.cache ==> s.now - f.value.time > 2 * ttl)
  }

  lemma FillKept(s: World, f: Option<Fill>, e: Event, ttl: int, worker: string)
    requires HasFill(s, f, worker, ttl)
    ensures HasFill(Step(s, e, ttl), FillAfter(f, s, e, ttl, worker), worker, ttl)
  {
  }

  lemma {:induction false} CacheHasFill(start: World, es: seq<Event>, ttl: int, worker: string)
    requires start.cache == map[]
    ensures HasFill(Run(start, es, ttl), LastFill(start, es, ttl, worker), worker, ttl)
    decreases |es|
  {
    if es != [] {
      var n := |es| - 1;
      CacheHasFill(start, es[..n], ttl, worker);
      FillKept(Run(start, es[..n], ttl), LastFill(start, es[..n], ttl, worker), es[n], ttl, worker);
    }
  }

  /* An address exactly when the last refill is still good or the store has one now, the refill's or
     the store's; "not registered" exactly when the store is asked and has none; a failure exactly
     when it is asked and is down. */
  ghost predicate RightAnswer(f: Option<Fill>, s: World, worker: string, ttl: int, a: Answer) {
    && (a.Address? <==> StillGood(f, s.now, ttl) || (s.up && worker in s.registry))
    && (a.Address? && StillGood(f, s.now, ttl) ==> a.address == f.value.address)
    && (a.Address? && !StillGood(f, s.now, ttl) ==> a.address == s.registry[worker])
    && (a.NotRegistered? <==> !StillGood(f, s.now, ttl) && s.up && worker !in s.registry)
    && (a.LookupFailed? <==> !StillGood(f, s.now, ttl) && !s.up)
  }

  lemma AnswerRight(s: World, f: Option<Fill>, worker: string, ttl: int)
    requires HasFill(s, f, worker, ttl)
    ensures RightAnswer(f, s, worker, ttl, ResolveAnswer(s.cache, worker, s.now, ttl, s.registry, s.up))
  {
  }

  /* Over every run, each resolve is answered once, at its time, and rightly; nothing else is. */
  lemma RepliesExactly(now: int, registry: Registry, es: seq<Event>, ttl: int, k: nat)
    requires k < |es|
    ensures var s := Run(Start(now, registry), es[..k], ttl);
            var replies := Run(Start(now, registry), es[..k + 1], ttl).replies;
            && (!es[k].Resolve? ==> replies == s.replies)
            && (es[k].Resolve? ==>
                 && |replies| == |s.replies| + 1 && replies[..|s.replies|] == s.replies
                 && var r := replies[|s.replies|];
                    && r.worker == es[k].worker && r.time == s.now
                    && RightAnswer(LastFill(Start(now, registry), es[..k], ttl, r.worker), s, r.worker, ttl, r.answer))
  {
    var start := Start(now, registry);
    assert es[..k + 1][..k] == es[..k];
    if es[k].Resolve? {
      CacheHasFill(start, es[..k], ttl, es[k].worker);
      AnswerRight(Run(start, es[..k], ttl), LastFill(start, es[..k], ttl, es[k].worker), es[k].worker, ttl);
    }
  }

  // ---- Pruning is invisible ----

  function Unpruned(es: seq<Event>): seq<Event> {
    if es == [] then []
    else Unpruned(es[..|es| - 1]) + if es[|es| - 1].Prune? then [] else [es[|es| - 1]]
  }

  /* Same world, except that s may lack entries which are stale in u. */
  ghost predicate PrunedFrom(s: World, u: World, ttl: int) {
    && s.now == u.now && s.registry == u.registry && s.up == u.up && s.replies == u.replies
    && (forall w :: w in s.cache ==> w in u.cache && s.cache[w] == u.cache[w])
    && (forall w :: w in u.cache && w !in s.cache ==> !FreshAt(u.cache[w], u.now, ttl))
    && (forall w :: w in u.cache ==> u.cache[w].fetchedAt <= u.now)
  }

  lemma PruneStep(s: World, u: World, ttl: int)
    requires PrunedFrom(s, u, ttl)
    ensures PrunedFrom(Step(s, Prune, ttl), u, ttl)
  {
  }

  lemma OtherStep(s: World, u: World, e: Event, ttl: int)
    requires PrunedFrom(s, u, ttl) && !e.Prune?
    ensures PrunedFrom(Step(s, e, ttl), Step(u, e, ttl), ttl)
  {
  }

  lemma {:induction false} PruningSimulated(s: World, es: seq<Event>, ttl: int)
    requires s.cache == map[]
    ensures PrunedFrom(Run(s, es, ttl), Run(s, Unpruned(es), ttl), ttl)
    decreases |es|
  {
    if es != [] {
      var n := |es| - 1;
      PruningSimulated(s, es[..n], ttl);
      var a, b := Run(s, es[..n], ttl), Run(s, Unpruned(es[..n]), ttl);
      if es[n].Prune? {
        PruneStep(a, b, ttl);
        assert Unpruned(es[..n]) + [] == Unpruned(es[..n]);
      } else {
        OtherStep(a, b, es[n], ttl);
        var us := Unpruned(es);
        assert us[..|us| - 1] == Unpruned(es[..n]) && us[|us| - 1] == es[n];
      }
    }
  }

  /* Leaving out every pruning changes no reply. */
  lemma PruningInvisible(now: int, registry: Registry, es: seq<Event>, ttl: int)
    ensures Run(Start(now, registry), es, ttl).replies == Run(Start(now, registry), Unpruned(es), ttl).replies
  {
    PruningSimulated(Start(now, registry), es, ttl);
  }
}
