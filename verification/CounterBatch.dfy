/** Previous interface counters: one Redis lookup at a time, and the pipelined batch that must agree with it. */
module CounterBatch {
  import opened Text

  type Id = string

  datatype Counters = Counters(inOctets: int, outOctets: int, executedAt: string)

  /** What a Redis key holds: text that `json.loads` accepts, other text, or the empty string. */
  datatype Entry = WellFormed(counters: Counters) | Malformed | Empty

  /** None: no Redis client. */
  type Redis = Option<map<Id, Entry>>

  /** None: no ClickHouse client, or its query raises. */
  type ClickHouse = Option<map<Id, Counters>>

  type Answers = map<Id, Option<Counters>>

  function Lookup<V>(m: Option<map<Id, V>>, id: Id): Option<V>
  {
    if m.Some? && id in m.value then Some(m.value[id]) else None
  }

  function Backfilled(redis: Redis, id: Id, c: Counters): Redis
  {
    if redis.None? then None else Some(redis.value[id := WellFormed(c)])
  }

  /** `get_previous_counters`: an unusable entry falls through to ClickHouse. */
  function GetOne(redis: Redis, ch: ClickHouse, id: Id): (Redis, Option<Counters>)
  {
    var cached := Lookup(redis, id);
    if cached.Some? && cached.value.WellFormed? then (redis, Some(cached.value.counters))
    else
      var row := Lookup(ch, id);
      if row.Some? then (Backfilled(redis, id, row.value), row) else (redis, None)
  }

  /** One call per id, in order, each on the Redis the one before left. */
  function AfterOnes(redis: Redis, ch: ClickHouse, ids: seq<Id>): Redis
  {
    if ids == [] then redis
    else GetOne(AfterOnes(redis, ch, ids[..|ids| - 1]), ch, ids[|ids| - 1]).0
  }

  function AnswerAt(redis: Redis, ch: ClickHouse, ids: seq<Id>, i: nat): Option<Counters>
    requires i < |ids|
  {
    GetOne(AfterOnes(redis, ch, ids[..i]), ch, ids[i]).1
  }

  /** The entry left for `id` by calls that include `id`. */
  function EntryAfter(redis: Redis, ch: ClickHouse, id: Id): Option<Entry>
  {
    Lookup(GetOne(redis, ch, id).0, id)
  }

  /** One call leaves its own entry as `EntryAfter` says and every other as it was. */
  lemma OneCall(redis: Redis, ch: ClickHouse, call: Id, id: Id)
    ensures GetOne(redis, ch, call).0.Some? == redis.Some?
    ensures Lookup(GetOne(redis, ch, call).0, id) == if id == call then EntryAfter(redis, ch, id) else Lookup(redis, id)
  {
  }

  /** What a call answers and leaves depends on its own entry only, and calling again changes nothing. */
  lemma SameEntrySameCall(redis: Redis, other: Redis, ch: ClickHouse, id: Id)
    requires redis.Some? == other.Some?
    ensures Lookup(redis, id) == Lookup(other, id) ==>
            EntryAfter(redis, ch, id) == EntryAfter(other, ch, id) && GetOne(redis, ch, id).1 == GetOne(other, ch, id).1
    ensures Lookup(other, id) == EntryAfter(redis, ch, id) ==>
            EntryAfter(other, ch, id) == EntryAfter(redis, ch, id) && GetOne(redis, ch, id).1 == GetOne(other, ch, id).1
  {
  }

  lemma {:induction false} OnesAre(redis: Redis, ch: ClickHouse, ids: seq<Id>, id: Id)
    ensures AfterOnes(redis, ch, ids).Some? == redis.Some?
    ensures Lookup(AfterOnes(redis, ch, ids), id) == if id in ids then EntryAfter(redis, ch, id) else Lookup(redis, id)
  {
    hide GetOne, EntryAfter, Lookup;
    if ids != [] {
      var init, call := ids[..|ids| - 1], ids[|ids| - 1];
      OnesAre(redis, ch, init, id);
      assert ids == init + [call];
      OneCall(AfterOnes(redis, ch, init), ch, call, id);
      SameEntrySameCall(redis, AfterOnes(redis, ch, init), ch, id);
    }
  }

  /** A call answers the same whatever calls came before it, repeats of its own id included. */
  lemma AnswerIndependent(redis: Redis, ch: ClickHouse, ids: seq<Id>, i: nat)
    requires i < |ids|
    ensures AnswerAt(redis, ch, ids, i) == GetOne(redis, ch, ids[i]).1
  {
    hide GetOne, EntryAfter, Lookup, AfterOnes;
    OnesAre(redis, ch, ids[..i], ids[i]);
    SameEntrySameCall(redis, AfterOnes(redis, ch, ids[..i]), ch, ids[i]);
  }

  // ----- the batch

  predicate Unparsed(redis: Redis, id: Id)
  {
    var cached := Lookup(redis, id);
    cached.Some? && !cached.value.WellFormed?
  }

  function Cached(redis: Redis, id: Id): Option<Counters>
  {
    var cached := Lookup(redis, id);
    if cached.Some? && cached.value.WellFormed? then Some(cached.value.counters) else None
  }

  /** Every requested entry that exists parses. */
  predicate Clean(redis: Redis, ids: seq<Id>)
  {
    forall i :: 0 <= i < |ids| ==> !Unparsed(redis, ids[i])
  }

  /** How many requested ids come before the first whose entry does not parse. */
  function Parsed(redis: Redis, ids: seq<Id>): (n: nat)
    ensures n <= |ids| && Clean(redis, ids[..n])
    ensures if Clean(redis, ids) then n == |ids| else n < |ids| && Unparsed(redis, ids[n])
  {
    if ids == [] then 0
    else
      var init := ids[..|ids| - 1];
      var n := Parsed(redis, init);
      assert ids == init + [ids[|ids| - 1]] && ids[..n] == init[..n];
      if n < |init| || Unparsed(redis, ids[|ids| - 1]) then n else n + 1
  }

  /**
   * The pipeline read: answers from Redis, and the ids left for ClickHouse, all of them once an entry does not parse.
   */
  method ReadRedis(redis: Redis, ids: seq<Id>) returns (result: Answers, misses: seq<Id>)
    ensures result.Keys == set i | 0 <= i < |ids| :: ids[i]
    ensures forall id :: id in ids ==> result[id] == if id in ids[..Parsed(redis, ids)] then Cached(redis, id) else None
    ensures forall id :: id in misses <==> id in ids && (Clean(redis, ids) ==> Cached(redis, id).None?)
  {
    hide Clean, Lookup, Parsed;
    result := map i | 0 <= i < |ids| :: ids[i] := None;
    misses := [];
    var i := 0;
    NothingRead(redis, ids);
    while i < |ids| && redis.Some?
      invariant 0 <= i <= |ids| && Clean(redis, ids[..i])
      invariant result.Keys == set i | 0 <= i < |ids| :: ids[i]
      invariant forall id :: id in ids ==> result[id] == if id in ids[..i] then Cached(redis, id) else None
      invariant forall id :: id in misses <==> id in ids[..i] && Cached(redis, id).None?
    {
      var id := ids[i];
      assert ids[..i + 1] == ids[..i] + [id];
      var raw := Lookup(redis, id);
      if raw.Some? && !raw.value.WellFormed? {
        ParsedStops(redis, ids, i);
        misses := ids;
        return;
      }
      CleanMore(redis, ids, i);
      if raw.None? {
        misses := misses + [id];
      } else {
        result := result[id := Some(raw.value.counters)];
      }
      i := i + 1;
    }
    if redis.None? {
      misses := ids;
      NoRedis(redis, ids);
    } else {
      assert ids[..i] == ids;
      AllParsed(redis, ids);
    }
  }

  lemma NothingRead(redis: Redis, ids: seq<Id>)
    ensures Clean(redis, ids[..0])
  {
  }

  lemma CleanMore(redis: Redis, ids: seq<Id>, i: nat)
    requires i < |ids| && Clean(redis, ids[..i]) && !Unparsed(redis, ids[i])
    ensures Clean(redis, ids[..i + 1])
  {
    assert ids[..i + 1] == ids[..i] + [ids[i]];
  }

  lemma AllParsed(redis: Redis, ids: seq<Id>)
    requires Clean(redis, ids)
    ensures Parsed(redis, ids) == |ids| && ids[..|ids|] == ids
  {
  }

  lemma NoRedis(redis: Redis, ids: seq<Id>)
    requires redis.None?
    ensures Clean(redis, ids) && forall id :: Cached(redis, id) == None
  {
  }

  lemma ParsedStops(redis: Redis, ids: seq<Id>, i: nat)
    requires i < |ids| && Clean(redis, ids[..i]) && Unparsed(redis, ids[i])
    ensures Parsed(redis, ids) == i && !Clean(redis, ids)
  {
    ParsedBefore(redis, ids, i);
    ParsedBefore(redis, ids, Parsed(redis, ids));
  }

  lemma ParsedBefore(redis: Redis, ids: seq<Id>, n: nat)
    requires n <= |ids| && Clean(redis, ids[..n])
    ensures forall i :: 0 <= i < n ==> !Unparsed(redis, ids[i])
  {
    forall i | 0 <= i < n
      ensures !Unparsed(redis, ids[i])
    {
      assert ids[..n][i] == ids[i];
    }
  }

  /** The ClickHouse fallback: answers and backfills every miss it has a row for. */
  method FillFromClickHouse(before: Answers, redis: Redis, ch: ClickHouse, misses: seq<Id>)
    returns (result: Answers, redis': Redis)
    requires forall id :: id in misses ==> id in before
    ensures result.Keys == before.Keys
    ensures forall id :: id in before ==>
      result[id] == if id in misses && Lookup(ch, id).Some? then Lookup(ch, id) else before[id]
    ensures redis'.Some? == redis.Some?
    ensures redis.Some? ==> forall id ::
      Lookup(redis', id) == if id in misses && Lookup(ch, id).Some? then Some(WellFormed(Lookup(ch, id).value))
                            else Lookup(redis, id)
  {
    result, redis' := before, redis;
    for i := 0 to |misses|
      invariant result.Keys == before.Keys
      invariant forall id :: id in before ==>
        result[id] == if id in misses[..i] && Lookup(ch, id).Some? then Lookup(ch, id) else before[id]
      invariant redis'.Some? == redis.Some?
      invariant redis.Some? ==> forall id ::
        Lookup(redis', id) ==
          if id in misses[..i] && Lookup(ch, id).Some? then Some(WellFormed(Lookup(ch, id).value))
          else Lookup(redis, id)
    {
      var id := misses[i];
      assert misses[..i + 1] == misses[..i] + [id];
      var row := Lookup(ch, id);
      if row.Some? {
        result := result[id := row];
        redis' := Backfilled(redis', id, row.value);
      }
    }
    assert misses[..|misses|] == misses;
  }

  /** The batch's answer for a requested id. */
  function BatchAnswer(redis: Redis, ch: ClickHouse, ids: seq<Id>, id: Id): Option<Counters>
  {
    var row, cached := Lookup(ch, id), if id in ids[..Parsed(redis, ids)] then Cached(redis, id) else None;
    if (Clean(redis, ids) ==> Cached(redis, id).None?) && row.Some? then row else cached
  }

  /** What the batch leaves in Redis under `id`. */
  function BatchEntry(redis: Redis, ch: ClickHouse, ids: seq<Id>, id: Id): Option<Entry>
  {
    var row := Lookup(ch, id);
    if redis.Some? && id in ids && (Clean(redis, ids) ==> Cached(redis, id).None?) && row.Some?
    then Some(WellFormed(row.value)) else Lookup(redis, id)
  }

  /**
   * An entry elsewhere that does not parse changes nothing for `id`: ClickHouse agrees with its cached value, or has
   * no row and `id` came first.
   */
  predicate HarmlessFor(redis: Redis, ch: ClickHouse, ids: seq<Id>, id: Id)
  {
    Cached(redis, id).Some? ==>
      if Lookup(ch, id).Some? then Lookup(ch, id) == Cached(redis, id) else id in ids[..Parsed(redis, ids)]
  }

  predicate Harmless(redis: Redis, ch: ClickHouse, ids: seq<Id>)
  {
    forall i :: 0 <= i < |ids| ==> HarmlessFor(redis, ch, ids, ids[i])
  }

  lemma AnswerAgrees(redis: Redis, ch: ClickHouse, ids: seq<Id>, id: Id)
    requires id in ids
    ensures (BatchAnswer(redis, ch, ids, id) == GetOne(redis, ch, id).1) ==
            (Clean(redis, ids) || HarmlessFor(redis, ch, ids, id))
  {
    assert ids[..|ids|] == ids;
  }

  lemma EntryAgrees(redis: Redis, ch: ClickHouse, ids: seq<Id>, id: Id)
    requires Clean(redis, ids) || Harmless(redis, ch, ids)
    ensures BatchEntry(redis, ch, ids, id) == if id in ids then EntryAfter(redis, ch, id) else Lookup(redis, id)
  {
  }

  /**
   * `get_previous_counters_batch` answers every id, repeats included, as one call per id
   * would, exactly when every requested entry parses or the ones that do not are harmless;
   * it then leaves Redis as those calls would.
   */
  method GetBatch(redis: Redis, ch: ClickHouse, ids: seq<Id>) returns (result: Answers, redis': Redis)
    ensures result.Keys == set i | 0 <= i < |ids| :: ids[i]
    ensures (forall i :: 0 <= i < |ids| ==> result[ids[i]] == AnswerAt(redis, ch, ids, i))
            <==> Clean(redis, ids) || Harmless(redis, ch, ids)
    ensures Clean(redis, ids) || Harmless(redis, ch, ids) ==> redis' == AfterOnes(redis, ch, ids)
  {
    hide GetOne, AfterOnes, EntryAfter, Cached;
    var misses;
    result, misses := ReadRedis(redis, ids);
    result, redis' := FillFromClickHouse(result, redis, ch, misses);
    forall i | 0 <= i < |ids|
      ensures (result[ids[i]] == AnswerAt(redis, ch, ids, i)) ==
              (Clean(redis, ids) || HarmlessFor(redis, ch, ids, ids[i]))
    {
      AnswerIndependent(redis, ch, ids, i);
      assert result[ids[i]] == BatchAnswer(redis, ch, ids, ids[i]);
      AnswerAgrees(redis, ch, ids, ids[i]);
    }
    if Clean(redis, ids) || Harmless(redis, ch, ids) {
      forall id
        ensures Lookup(redis', id) == Lookup(AfterOnes(redis, ch, ids), id)
      {
        assert Lookup(redis', id) == BatchEntry(redis, ch, ids, id);
        EntryAgrees(redis, ch, ids, id);
        OnesAre(redis, ch, ids, id);
      }
      OnesAre(redis, ch, ids, "");
      SameRedis(redis', AfterOnes(redis, ch, ids));
    }
  }

  lemma SameRedis(a: Redis, b: Redis)
    requires a.Some? == b.Some? && forall id :: Lookup(a, id) == Lookup(b, id)
    ensures a == b
  {
    if a.Some? {
      forall id
        ensures id in a.value <==> id in b.value
        ensures id in a.value ==> a.value[id] == b.value[id]
      {
        assert Lookup(a, id) == Lookup(b, id);
      }
      assert a.value == b.value;
    }
  }

  // ----- an instance

  const OLD := Counters(1, 1, "2026-04-04T10:00:00")
  const NEW := Counters(2, 2, "2026-04-04T10:05:00")

  /**
   * An unparsable entry for one interface makes the batch answer another from ClickHouse instead of from its own
   * entry.
   */
  lemma PoisonedBatch()
    ensures var redis, ch := Some(map["a" := Malformed, "b" := WellFormed(NEW)]), Some(map["b" := OLD]);
            !Clean(redis, ["a", "b"]) && !Harmless(redis, ch, ["a", "b"])
  {
    var redis, ch, ids := Some(map["a" := Malformed, "b" := WellFormed(NEW)]), Some(map["b" := OLD]), ["a", "b"];
    assert Unparsed(redis, ids[0]);
    assert !HarmlessFor(redis, ch, ids, ids[1]);
  }
}
