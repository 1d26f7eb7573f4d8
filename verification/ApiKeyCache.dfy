/** The two-level API-key cache: one shared Redis, one in-process dictionary per central process. */
module ApiKeyCache {
  import opened Text

  type Time = real
  type Process = nat
  type Key = string
  type Data = string

  const REDIS_TTL: Time := 300.0
  const LOCAL_TTL: Time := 60.0
  const LOCAL_MAX: nat := 500
  const EVICTED: nat := LOCAL_MAX / 10

  datatype LocalEntry = LocalEntry(data: Data, ts: Time)
  datatype RedisEntry = RedisEntry(data: Data, expires: Time)

  type Local = map<Key, LocalEntry>

  /** A `set_cached_api_key` call, as history. */
  datatype Store = Store(key: Key, data: Data, at: Time)

  datatype World = World(
    now: Time,
    redis: map<Key, RedisEntry>,
    locals: map<Process, Local>,
    stores: set<Store>,            // history: every store so far
    deleted: map<Key, Time>)       // history: the first successful delete since the last store

  function LocalOf(w: World, p: Process): Local
  {
    if p in w.locals then w.locals[p] else map[]
  }

  // ----- eviction

  /** Fifty entries, none younger than any that stays. */
  ghost predicate IsEviction(cache: Local, gone: set<Key>)
  {
    && gone <= cache.Keys && |gone| == EVICTED
    && forall k, j :: k in gone && j in cache && j !in gone ==> cache[k].ts <= cache[j].ts
  }

  method Oldest(cache: Local, among: set<Key>) returns (k: Key)
    requires among != {} && among <= cache.Keys
    ensures k in among && forall j :: j in among ==> cache[k].ts <= cache[j].ts
  {
    k :| k in among;
    var rest := among - {k};
    while rest != {}
      invariant rest <= among && k in among
      invariant forall j :: j in among && j !in rest ==> cache[k].ts <= cache[j].ts
      decreases rest
    {
      var j :| j in rest;
      if cache[j].ts < cache[k].ts {
        k := j;
      }
      rest := rest - {j};
    }
  }

  /** `sorted(keys, key=ts)[: MAX // 10]`. */
  method PickEvicted(cache: Local) returns (gone: set<Key>)
    requires |cache| >= 500
    ensures IsEviction(cache, gone) && |gone| == 50
  {
    gone := {};
    assert |cache.Keys| == |cache|;
    while |gone| < EVICTED
      invariant gone <= cache.Keys && |gone| <= EVICTED
      invariant forall k, j :: k in gone && j in cache && j !in gone ==> cache[k].ts <= cache[j].ts
    {
      var rest := cache.Keys - gone;
      assert |rest| == |cache.Keys| - |gone|;
      var k := Oldest(cache, rest);
      gone := gone + {k};
    }
  }

  /** `_set_local_api_key`; `gone` is what a full cache evicts. */
  function SetLocal(cache: Local, k: Key, data: Data, now: Time, gone: set<Key>): Local
  {
    (if |cache| >= LOCAL_MAX then cache - gone else cache)[k := LocalEntry(data, now)]
  }

  function PutLocal(w: World, p: Process, cache: Local): World
  {
    w.(locals := w.locals[p := cache])
  }

  /** `_get_local_api_key`: an expired entry is dropped. */
  function GetLocal(w: World, p: Process, k: Key): (World, Option<Data>)
  {
    var cache := LocalOf(w, p);
    if k !in cache then (w, None)
    else if w.now - cache[k].ts > LOCAL_TTL then (PutLocal(w, p, cache - {k}), None)
    else (w, Some(cache[k].data))
  }

  predicate InRedis(w: World, k: Key)
  {
    k in w.redis && w.now < w.redis[k].expires
  }

  // ----- the three calls, each one step; `up` tells whether Redis answers

  function Get(w: World, p: Process, k: Key, up: bool, gone: set<Key>): (World, Option<Data>)
  {
    if up && InRedis(w, k)
    then (PutLocal(w, p, SetLocal(LocalOf(w, p), k, w.redis[k].data, w.now, gone)), Some(w.redis[k].data))
    else GetLocal(w, p, k)
  }

  function Set(w: World, p: Process, k: Key, data: Data, up: bool, gone: set<Key>): World
  {
    var w' := PutLocal(w, p, SetLocal(LocalOf(w, p), k, data, w.now, gone));
    w'.(redis := if up then w.redis[k := RedisEntry(data, w.now + REDIS_TTL)] else w.redis,
        stores := w.stores + {Store(k, data, w.now)},
        deleted := w.deleted - {k})
  }

  function Delete(w: World, p: Process, k: Key, up: bool): World
  {
    var w' := PutLocal(w, p, LocalOf(w, p) - {k});
    if up then Forgotten(w', k) else w'
  }

  /** The history and Redis half of a successful delete. */
  function Forgotten(w: World, k: Key): World
  {
    w.(redis := w.redis - {k}, deleted := if k in w.deleted then w.deleted else w.deleted[k := w.now])
  }

  // ----- runs

  datatype Step =
    | Tick(d: Time)
    | DoGet(p: Process, k: Key, up: bool, gone: set<Key>)
    | DoSet(p: Process, k: Key, data: Data, up: bool, gone: set<Key>)
    | DoDelete(p: Process, k: Key, up: bool)

  /** A full cache evicts fifty of its oldest entries. */
  ghost predicate Enabled(w: World, step: Step)
  {
    match step
    case Tick(d) => d > 0.0
    case DoGet(p, k, up, gone) => |LocalOf(w, p)| >= LOCAL_MAX ==> IsEviction(LocalOf(w, p), gone)
    case DoSet(p, k, data, up, gone) => |LocalOf(w, p)| >= LOCAL_MAX ==> IsEviction(LocalOf(w, p), gone)
    case DoDelete(p, k, up) => true
  }

  function Apply(w: World, step: Step): World
  {
    match step
    case Tick(d) => w.(now := w.now + d)
    case DoGet(p, k, up, gone) => Get(w, p, k, up, gone).0
    case DoSet(p, k, data, up, gone) => Set(w, p, k, data, up, gone)
    case DoDelete(p, k, up) => Delete(w, p, k, up)
  }

  predicate Init(w: World)
  {
    w.redis == map[] && w.locals == map[] && w.stores == {} && w.deleted == map[]
  }

  ghost predicate IsRun(worlds: seq<World>, steps: seq<Step>)
  {
    && |worlds| == |steps| + 1 && Init(worlds[0])
    && forall i :: 0 <= i < |steps| ==> Enabled(worlds[i], steps[i]) && worlds[i + 1] == Apply(worlds[i], steps[i])
  }

  // ----- the invariant

  /** Redis holds what some store wrote, for as long as that store's time to live. */
  ghost predicate RedisHonest(w: World)
  {
    forall k :: k in w.redis ==>
      var e := w.redis[k];
      Store(k, e.data, e.expires - REDIS_TTL) in w.stores && e.expires - REDIS_TTL <= w.now
  }

  /** A local entry's value was stored for its key at most the Redis time to live before the entry was made. */
  ghost predicate EntryHonest(w: World, k: Key, e: LocalEntry)
  {
    e.ts <= w.now && exists at :: Store(k, e.data, at) in w.stores && at <= e.ts <= at + REDIS_TTL
  }

  ghost predicate LocalsHonest(w: World)
  {
    forall p, k :: p in w.locals && k in w.locals[p] ==> EntryHonest(w, k, w.locals[p][k])
  }

  /** After a successful delete, Redis has nothing and no local entry is younger than the delete. */
  ghost predicate DeletesHonest(w: World)
  {
    forall k :: k in w.deleted ==>
      && w.deleted[k] <= w.now && k !in w.redis
      && forall p :: p in w.locals && k in w.locals[p] ==> w.locals[p][k].ts <= w.deleted[k]
  }

  ghost predicate LocalsBounded(w: World)
  {
    forall p :: p in w.locals ==> |w.locals[p]| <= LOCAL_MAX
  }

  ghost predicate Inv(w: World)
  {
    RedisHonest(w) && LocalsHonest(w) && DeletesHonest(w) && LocalsBounded(w)
  }

  lemma SetLocalSize(cache: Local, k: Key, data: Data, now: Time, gone: set<Key>)
    requires |cache| <= LOCAL_MAX && (|cache| >= LOCAL_MAX ==> IsEviction(cache, gone))
    ensures |SetLocal(cache, k, data, now, gone)| <= LOCAL_MAX
  {
    var kept := if |cache| >= LOCAL_MAX then cache - gone else cache;
    assert |cache| >= LOCAL_MAX ==> kept.Keys == cache.Keys - gone && |kept.Keys| == |cache.Keys| - |gone|;
    assert kept[k := LocalEntry(data, now)].Keys == kept.Keys + {k};
  }

  /** What an entry of a replaced cache may be: one the process already had, or a fresh honest one. */
  ghost predicate Admissible(w: World, p: Process, k: Key, e: LocalEntry)
  {
    || (k in LocalOf(w, p) && LocalOf(w, p)[k] == e)
    || (EntryHonest(w, k, e) && k !in w.deleted)
  }

  lemma AdmissibleIsHonest(w: World, p: Process, k: Key, e: LocalEntry)
    requires Inv(w) && Admissible(w, p, k, e)
    ensures EntryHonest(w, k, e)
    ensures k in w.deleted ==> e.ts <= w.deleted[k]
  {
  }

  ghost predicate AllAdmissible(w: World, p: Process, cache: Local)
  {
    forall j :: j in cache ==> Admissible(w, p, j, cache[j])
  }

  lemma ReplacedIsHonest(w: World, p: Process, cache: Local, q: Process, k: Key)
    requires Inv(w) && AllAdmissible(w, p, cache)
    requires q in PutLocal(w, p, cache).locals && k in PutLocal(w, p, cache).locals[q]
    ensures EntryHonest(PutLocal(w, p, cache), k, PutLocal(w, p, cache).locals[q][k])
    ensures k in w.deleted ==> PutLocal(w, p, cache).locals[q][k].ts <= w.deleted[k]
  {
    hide EntryHonest, Admissible;
    var e := PutLocal(w, p, cache).locals[q][k];
    if q == p {
      AdmissibleIsHonest(w, p, k, e);
    }
    SameHonesty(w, PutLocal(w, p, cache), k, e);
  }

  /** Replacing one process's cache by admissible entries keeps everything honest. */
  lemma ReplaceLocal(w: World, p: Process, cache: Local)
    requires Inv(w) && |cache| <= LOCAL_MAX && AllAdmissible(w, p, cache)
    ensures Inv(PutLocal(w, p, cache))
  {
    hide AllAdmissible, LocalsHonest, DeletesHonest;
    ReplacedLocals(w, p, cache);
    ReplacedDeletes(w, p, cache);
    assert RedisHonest(PutLocal(w, p, cache));
    assert LocalsBounded(PutLocal(w, p, cache));
  }

  lemma ReplacedLocals(w: World, p: Process, cache: Local)
    requires Inv(w) && AllAdmissible(w, p, cache)
    ensures LocalsHonest(PutLocal(w, p, cache))
  {
    hide EntryHonest, AllAdmissible, Inv;
    var w' := PutLocal(w, p, cache);
    forall q, j | q in w'.locals && j in w'.locals[q]
      ensures EntryHonest(w', j, w'.locals[q][j])
    {
      ReplacedIsHonest(w, p, cache, q, j);
    }
  }

  lemma ReplacedDeletes(w: World, p: Process, cache: Local)
    requires Inv(w) && AllAdmissible(w, p, cache)
    ensures DeletesHonest(PutLocal(w, p, cache))
  {
    hide EntryHonest, AllAdmissible, RedisHonest, LocalsHonest, LocalsBounded;
    var w' := PutLocal(w, p, cache);
    forall q, j | q in w'.locals && j in w'.locals[q]
      ensures j in w'.deleted ==> w'.locals[q][j].ts <= w'.deleted[j]
    {
      ReplacedIsHonest(w, p, cache, q, j);
    }
  }

  lemma SameHonesty(w: World, w': World, k: Key, e: LocalEntry)
    requires w.now <= w'.now && w.stores <= w'.stores
    ensures EntryHonest(w, k, e) ==> EntryHonest(w', k, e)
  {
  }

  lemma GetInv(w: World, p: Process, k: Key, up: bool, gone: set<Key>)
    requires Inv(w) && Enabled(w, DoGet(p, k, up, gone))
    ensures Inv(Get(w, p, k, up, gone).0)
  {
    var cache := LocalOf(w, p);
    if up && InRedis(w, k) {
      var e := LocalEntry(w.redis[k].data, w.now);
      FreshFromRedis(w, k);
      SetLocalSize(cache, k, e.data, w.now, gone);
      SetAdmissible(w, p, k, e.data, w.now, gone);
      hide Inv, EntryHonest, AllAdmissible;
      ReplaceLocal(w, p, SetLocal(cache, k, e.data, w.now, gone));
    } else if k in cache && w.now - cache[k].ts > LOCAL_TTL {
      var rest := cache - {k};
      assert rest.Keys == cache.Keys - {k} && |cache.Keys - {k}| <= |cache.Keys|;
      hide Inv, EntryHonest;
      ReplaceLocal(w, p, rest);
    }
  }

  lemma FreshFromRedis(w: World, k: Key)
    requires Inv(w) && InRedis(w, k)
    ensures EntryHonest(w, k, LocalEntry(w.redis[k].data, w.now)) && k !in w.deleted
  {
    assert Store(k, w.redis[k].data, w.redis[k].expires - REDIS_TTL) in w.stores;
  }

  /** The history and Redis half of a store. */
  function Recorded(w: World, k: Key, data: Data, up: bool): World
  {
    w.(redis := if up then w.redis[k := RedisEntry(data, w.now + REDIS_TTL)] else w.redis,
       stores := w.stores + {Store(k, data, w.now)},
       deleted := w.deleted - {k})
  }

  lemma RecordedInv(w: World, k: Key, data: Data, up: bool)
    requires Inv(w)
    ensures Inv(Recorded(w, k, data, up))
    ensures EntryHonest(Recorded(w, k, data, up), k, LocalEntry(data, w.now))
  {
    var w' := Recorded(w, k, data, up);
    assert Store(k, data, w.now) in w'.stores;
    assert RedisHonest(w') && DeletesHonest(w') && LocalsBounded(w');
    assert LocalsHonest(w') by {
      hide EntryHonest, RedisHonest, DeletesHonest, LocalsBounded;
      forall q, j | q in w'.locals && j in w'.locals[q]
        ensures EntryHonest(w', j, w'.locals[q][j])
      {
        SameHonesty(w, w', j, w.locals[q][j]);
      }
    }
  }

  lemma SetAdmissible(w: World, p: Process, k: Key, data: Data, now: Time, gone: set<Key>)
    requires EntryHonest(w, k, LocalEntry(data, now)) && k !in w.deleted
    ensures AllAdmissible(w, p, SetLocal(LocalOf(w, p), k, data, now, gone))
  {
    hide EntryHonest;
  }

  lemma SetInv(w: World, p: Process, k: Key, data: Data, up: bool, gone: set<Key>)
    requires Inv(w) && Enabled(w, DoSet(p, k, data, up, gone))
    ensures Inv(Set(w, p, k, data, up, gone))
  {
    hide EntryHonest, AllAdmissible, SetLocal;
    var w1, cache := Recorded(w, k, data, up), SetLocal(LocalOf(w, p), k, data, w.now, gone);
    CacheBounded(w, p);
    hide Inv;
    RecordedInv(w, k, data, up);
    SetLocalSize(LocalOf(w, p), k, data, w.now, gone);
    hide IsEviction;
    SetAdmissible(w1, p, k, data, w.now, gone);
    ReplaceLocal(w1, p, cache);
    SetIsRecorded(w, p, k, data, up, gone);
  }

  lemma CacheBounded(w: World, p: Process)
    requires Inv(w)
    ensures |LocalOf(w, p)| <= LOCAL_MAX
  {
    hide RedisHonest, LocalsHonest, DeletesHonest;
  }

  lemma SetIsRecorded(w: World, p: Process, k: Key, data: Data, up: bool, gone: set<Key>)
    ensures Set(w, p, k, data, up, gone) ==
            PutLocal(Recorded(w, k, data, up), p, SetLocal(LocalOf(w, p), k, data, w.now, gone))
    ensures LocalOf(Recorded(w, k, data, up), p) == LocalOf(w, p)
  {
    hide SetLocal;
  }

  lemma DeleteInv(w: World, p: Process, k: Key, up: bool)
    requires Inv(w)
    ensures Inv(Delete(w, p, k, up))
  {
    var cache := LocalOf(w, p);
    var rest := cache - {k};
    assert rest.Keys == cache.Keys - {k} && |cache.Keys - {k}| <= |cache.Keys|;
    ReplaceLocal(w, p, rest);
    ForgetInv(PutLocal(w, p, rest), k);
  }

  lemma ForgetInv(w: World, k: Key)
    requires Inv(w)
    ensures Inv(Forgotten(w, k))
  {
    var w' := Forgotten(w, k);
    forall q, j | q in w'.locals && j in w'.locals[q]
      ensures EntryHonest(w', j, w'.locals[q][j])
    {
      SameHonesty(w, w', j, w.locals[q][j]);
    }
  }

  lemma TickInv(w: World, d: Time)
    requires Inv(w) && d > 0.0
    ensures Inv(w.(now := w.now + d))
  {
    var w' := w.(now := w.now + d);
    forall q, j | q in w'.locals && j in w'.locals[q]
      ensures EntryHonest(w', j, w'.locals[q][j])
    {
      assert EntryHonest(w, j, w.locals[q][j]);
    }
  }

  lemma {:induction false} RunInv(worlds: seq<World>, steps: seq<Step>, i: nat)
    requires IsRun(worlds, steps) && i < |worlds|
    ensures Inv(worlds[i])
  {
    hide Inv, Get, Set, Delete;
    if i == 0 {
      InitInv(worlds[0]);
    } else {
      RunInv(worlds, steps, i - 1);
      var w := worlds[i - 1];
      match steps[i - 1] {
        case Tick(d) => TickInv(w, d);
        case DoGet(p, k, up, gone) => GetInv(w, p, k, up, gone);
        case DoSet(p, k, data, up, gone) => SetInv(w, p, k, data, up, gone);
        case DoDelete(p, k, up) => DeleteInv(w, p, k, up);
      }
    }
  }

  lemma InitInv(w: World)
    requires Init(w)
    ensures Inv(w)
  {
  }

  // ----- what holds of every run

  /** Any value a process gets for a key was stored for that key at most 360 seconds earlier. */
  lemma NeverTooStale(worlds: seq<World>, steps: seq<Step>, i: nat, p: Process, k: Key, up: bool, gone: set<Key>)
    requires IsRun(worlds, steps) && i < |worlds|
    ensures var w := worlds[i];
            var got := Get(w, p, k, up, gone).1;
            got.Some? ==>
              exists at :: Store(k, got.value, at) in w.stores && w.now - 360.0 <= at <= w.now
  {
    RunInv(worlds, steps, i);
    var w := worlds[i];
    var got := Get(w, p, k, up, gone).1;
    if got.Some? {
      if up && InRedis(w, k) {
        assert Store(k, got.value, w.redis[k].expires - REDIS_TTL) in w.stores;
      } else {
        var e := w.locals[p][k];
        assert EntryHonest(w, k, e);
        var at :| Store(k, e.data, at) in w.stores && at <= e.ts <= at + REDIS_TTL;
      }
    }
  }

  /** Some store for `k` happens among the steps from `i` to `j`. */
  predicate StoredAgain(steps: seq<Step>, i: nat, j: nat, k: Key)
  {
    exists m :: i <= m < j && m < |steps| && steps[m].DoSet? && steps[m].k == k
  }

  lemma DeletedStep(w: World, step: Step, k: Key)
    requires k in w.deleted && !(step.DoSet? && step.k == k)
    ensures k in Apply(w, step).deleted && Apply(w, step).deleted[k] == w.deleted[k]
  {
  }

  lemma {:induction false} StaysDeleted(worlds: seq<World>, steps: seq<Step>, i: nat, j: nat, p: Process, k: Key)
    requires IsRun(worlds, steps) && i < j < |worlds|
    requires steps[i] == DoDelete(p, k, true) && !StoredAgain(steps, i, j, k)
    ensures k in worlds[j].deleted && worlds[j].deleted[k] <= worlds[i].now
    decreases j
  {
    RunInv(worlds, steps, i);
    hide Inv, Get, Set, IsEviction;
    if j > i + 1 {
      hide Apply, Enabled;
      StaysDeleted(worlds, steps, i, j - 1, p, k);
      assert !(steps[j - 1].DoSet? && steps[j - 1].k == k);
      DeletedStep(worlds[j - 1], steps[j - 1], k);
    }
  }

  /** After a successful delete that no store follows, no process gets a value more than 60 seconds later. */
  lemma RevocationTakesEffect(worlds: seq<World>, steps: seq<Step>, i: nat, j: nat, p: Process, k: Key,
                              q: Process, up: bool, gone: set<Key>)
    requires IsRun(worlds, steps) && i < j < |worlds|
    requires steps[i] == DoDelete(p, k, true) && !StoredAgain(steps, i, j, k)
    requires worlds[j].now > worlds[i].now + 60.0
    ensures Get(worlds[j], q, k, up, gone).1 == None
  {
    StaysDeleted(worlds, steps, i, j, p, k);
    RunInv(worlds, steps, j);
  }

  // ----- what a cache is for

  /** A step by which process `p` puts `data` for `k` into its own dictionary: a store, or a read that Redis answers. */
  predicate Fills(w: World, step: Step, p: Process, k: Key, data: Data)
  {
    match step
    case DoSet(p', k', data', _, _) => p' == p && k' == k && data' == data
    case DoGet(p', k', up, _) => p' == p && k' == k && up && InRedis(w, k) && w.redis[k].data == data
    case _ => false
  }

  /** A step by which it replaces, drops or evicts its entry for `k`. */
  predicate Touches(w: World, step: Step, p: Process, k: Key)
  {
    match step
    case Tick(_) => false
    case DoSet(p', k', _, _, gone) => p' == p && (k' == k || (|LocalOf(w, p)| >= 500 && k in gone))
    case DoGet(p', k', up, gone) =>
      p' == p && up && InRedis(w, k') && (k' == k || (|LocalOf(w, p)| >= 500 && k in gone))
    case DoDelete(p', k', _) => p' == p && k' == k
  }

  lemma FillStep(w: World, step: Step, p: Process, k: Key, data: Data)
    requires Fills(w, step, p, k, data)
    ensures k in LocalOf(Apply(w, step), p) && LocalOf(Apply(w, step), p)[k] == LocalEntry(data, w.now)
    ensures Apply(w, step).now == w.now
  {
  }

  lemma SetLocalKeeps(cache: Local, k': Key, data: Data, now: Time, gone: set<Key>, k: Key)
    requires k in cache && k != k' && !(|cache| >= LOCAL_MAX && k in gone)
    ensures k in SetLocal(cache, k', data, now, gone) && SetLocal(cache, k', data, now, gone)[k] == cache[k]
  {
  }

  lemma UntouchedStep(w: World, step: Step, p: Process, k: Key)
    requires k in LocalOf(w, p) && !Touches(w, step, p, k) && w.now - LocalOf(w, p)[k].ts <= LOCAL_TTL
    ensures k in LocalOf(Apply(w, step), p) && LocalOf(Apply(w, step), p)[k] == LocalOf(w, p)[k]
  {
    hide SetLocal;
    match step {
      case Tick(_) =>
      case DoDelete(_, _, _) =>
      case DoSet(p', k', data, _, gone) =>
        if p' == p {
          SetLocalKeeps(LocalOf(w, p), k', data, w.now, gone, k);
        }
      case DoGet(p', k', up, gone) =>
        if p' == p && up && InRedis(w, k') {
          SetLocalKeeps(LocalOf(w, p), k', w.redis[k'].data, w.now, gone, k);
        }
    }
  }

  lemma {:induction false} TimePasses(worlds: seq<World>, steps: seq<Step>, i: nat, j: nat)
    requires IsRun(worlds, steps) && i <= j < |worlds|
    ensures worlds[i].now <= worlds[j].now
    decreases j
  {
    if i < j {
      TimePasses(worlds, steps, i, j - 1);
    }
  }

  lemma {:induction false} EntryLasts(worlds: seq<World>, steps: seq<Step>, i: nat, j: nat, p: Process, k: Key,
                                      data: Data)
    requires IsRun(worlds, steps) && i < j < |worlds| && Fills(worlds[i], steps[i], p, k, data)
    requires forall m :: i < m < j ==> !Touches(worlds[m], steps[m], p, k)
    requires worlds[j].now <= worlds[i].now + LOCAL_TTL
    ensures k in LocalOf(worlds[j], p) && LocalOf(worlds[j], p)[k] == LocalEntry(data, worlds[i].now)
    decreases j
  {
    hide Apply, Enabled, Fills, Touches, LocalOf;
    if j == i + 1 {
      FillStep(worlds[i], steps[i], p, k, data);
    } else {
      TimePasses(worlds, steps, j - 1, j);
      EntryLasts(worlds, steps, i, j - 1, p, k, data);
      UntouchedStep(worlds[j - 1], steps[j - 1], p, k);
    }
  }

  /**
   * Redis fails over: what a process stored, or read from Redis, it goes on answering for sixty seconds, unless it
   * replaced, deleted or evicted the entry itself.
   */
  lemma LocalServes(worlds: seq<World>, steps: seq<Step>, i: nat, j: nat, p: Process, k: Key, data: Data,
                    up: bool, gone: set<Key>)
    requires IsRun(worlds, steps) && i < j < |worlds| && Fills(worlds[i], steps[i], p, k, data)
    requires forall m :: i < m < j ==> !Touches(worlds[m], steps[m], p, k)
    requires worlds[j].now <= worlds[i].now + 60.0
    requires !(up && InRedis(worlds[j], k))
    ensures Get(worlds[j], p, k, up, gone).1 == Some(data)
  {
    EntryLasts(worlds, steps, i, j, p, k, data);
  }

  /** A store or delete of `k` that reaches Redis. */
  predicate ReachesRedis(step: Step, k: Key)
  {
    || (step.DoSet? && step.k == k && step.up)
    || (step.DoDelete? && step.k == k && step.up)
  }

  lemma RedisStep(w: World, step: Step, k: Key)
    requires !ReachesRedis(step, k)
    ensures k in w.redis <==> k in Apply(w, step).redis
    ensures k in w.redis ==> Apply(w, step).redis[k] == w.redis[k]
  {
  }

  lemma StoreStep(w: World, p: Process, k: Key, data: Data, gone: set<Key>)
    ensures var w' := Apply(w, DoSet(p, k, data, true, gone));
            k in w'.redis && w'.redis[k] == RedisEntry(data, w.now + REDIS_TTL)
  {
    hide SetLocal;
  }

  lemma {:induction false} RedisLasts(worlds: seq<World>, steps: seq<Step>, i: nat, j: nat, p: Process, k: Key,
                                      data: Data, 
                                      gone: set<Key>)
    requires IsRun(worlds, steps) && i < j < |worlds| && steps[i] == DoSet(p, k, data, true, gone)
    requires forall m :: i < m < j ==> !ReachesRedis(steps[m], k)
    ensures k in worlds[j].redis && worlds[j].redis[k] == RedisEntry(data, worlds[i].now + REDIS_TTL)
    decreases j
  {
    hide Apply, Enabled;
    if j > i + 1 {
      RedisLasts(worlds, steps, i, j - 1, p, k, data, gone);
      RedisStep(worlds[j - 1], steps[j - 1], k);
    } else {
      StoreStep(worlds[i], p, k, data, gone);
    }
  }

  /** With Redis up every process gets the latest value that reached it, for three hundred seconds. */
  lemma RedisServes(worlds: seq<World>, steps: seq<Step>, i: nat, j: nat, p: Process, k: Key, data: Data,
                    gone: set<Key>, 
                    q: Process, gone': set<Key>)
    requires IsRun(worlds, steps) && i < j < |worlds| && steps[i] == DoSet(p, k, data, true, gone)
    requires forall m :: i < m < j ==> !ReachesRedis(steps[m], k)
    requires worlds[j].now < worlds[i].now + 300.0
    ensures Get(worlds[j], q, k, true, gone').1 == Some(data)
  {
    RedisLasts(worlds, steps, i, j, p, k, data, gone);
  }

  /** A step by which `p` puts anything for `k` into its dictionary. */
  predicate FillsAny(w: World, step: Step, p: Process, k: Key)
  {
    || (step.DoSet? && step.p == p && step.k == k)
    || (step.DoGet? && step.p == p && step.k == k && step.up && InRedis(w, k))
  }

  lemma ForgottenStep(w: World, step: Step, p: Process, k: Key)
    requires !FillsAny(w, step, p, k) && k !in LocalOf(w, p)
    ensures k !in LocalOf(Apply(w, step), p)
  {
    hide SetLocal;
    match step {
      case Tick(_) =>
      case DoDelete(_, _, _) =>
      case DoSet(p', k', data, _, gone) => SetLocalAdds(LocalOf(w, p), k', data, w.now, gone, k);
      case DoGet(p', k', up, gone) =>
        if up && InRedis(w, k') {
          SetLocalAdds(LocalOf(w, p), k', w.redis[k'].data, w.now, gone, k);
        }
    }
  }

  lemma SetLocalAdds(cache: Local, k': Key, data: Data, now: Time, gone: set<Key>, k: Key)
    ensures k != k' && k !in cache ==> k !in SetLocal(cache, k', data, now, gone)
  {
  }

  lemma {:induction false} StaysForgotten(worlds: seq<World>, steps: seq<Step>, i: nat, j: nat, p: Process, k: Key,
                                          up: bool)
    requires IsRun(worlds, steps) && i < j < |worlds| && steps[i] == DoDelete(p, k, up)
    requires forall m :: i < m < j ==> !FillsAny(worlds[m], steps[m], p, k)
    ensures k !in LocalOf(worlds[j], p)
    decreases j
  {
    if j > i + 1 {
      hide Apply, Enabled, FillsAny, LocalOf;
      StaysForgotten(worlds, steps, i, j - 1, p, k, up);
      ForgottenStep(worlds[j - 1], steps[j - 1], p, k);
    }
  }

  /**
   * The deleting process forgets at once, Redis up or down: until it stores or reads the key again, only Redis can
   * answer it.
   */
  lemma DeleterForgets(worlds: seq<World>, steps: seq<Step>, i: nat, j: nat, p: Process, k: Key, up: bool,
                       upNow: bool, gone: set<Key>)
    requires IsRun(worlds, steps) && i < j < |worlds| && steps[i] == DoDelete(p, k, up)
    requires forall m :: i < m < j ==> !FillsAny(worlds[m], steps[m], p, k)
    requires !(upNow && InRedis(worlds[j], k))
    ensures Get(worlds[j], p, k, upNow, gone).1 == None
  {
    StaysForgotten(worlds, steps, i, j, p, k, up);
  }
}
