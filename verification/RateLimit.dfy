/** internal/dns/handler.go, rrlAllow and rrlEvict: one token bucket per subnet, with lazy eviction. */
module RateLimit {

  const RATE := 20.0
  const BURST := 40.0
  const MAX_BUCKETS := 4096
  const IDLE_SECONDS := 5.0

  datatype Bucket = Bucket(tokens: real, lastSeen: real)

  type Buckets = map<string, Bucket>

  function Refill(b: Bucket, now: real): Bucket {
    var elapsed := now - b.lastSeen;
    if elapsed > 0.0 then
      var tokens := b.tokens + elapsed * RATE;
      Bucket(if tokens > BURST then BURST else tokens, now)
    else b
  }

  predicate Idle(b: Bucket, now: real) {
    b.lastSeen < now - IDLE_SECONDS
  }

  function Evict(m: Buckets, now: real): Buckets {
    map k | k in m && !Idle(m[k], now) :: m[k]
  }

  /** Refill the subnet's bucket, full if it has none, and take one token if there is one. */
  function Access(m: Buckets, key: string, now: real): (Buckets, bool) {
    var b := Refill(if key in m then m[key] else Bucket(BURST, now), now);
    if b.tokens >= 1.0 then (m[key := b.(tokens := b.tokens - 1.0)], true) else (m[key := b], false)
  }

  function Step(m: Buckets, key: string, now: real): (Buckets, bool) {
    Access(if key !in m && |m| >= MAX_BUCKETS then Evict(m, now) else m, key, now)
  }

  class Limiter {
    var buckets: Buckets

    constructor ()
      ensures buckets == map[]
    {
      buckets := map[];
    }

    method EvictIdle(now: real)
      modifies this
      ensures buckets == Evict(old(buckets), now)
    {
      var pending := buckets.Keys;
      while pending != {}
        invariant pending <= old(buckets).Keys
        invariant buckets == map k | k in old(buckets)
                  && (k in pending || !Idle(old(buckets)[k], now)) :: old(buckets)[k]
        decreases pending
      {
        var k :| k in pending;
        if buckets[k].lastSeen < now - IDLE_SECONDS {
          buckets := buckets - {k};
        }
        pending := pending - {k};
      }
    }

    method Allow(key: string, now: real) returns (ok: bool)
      modifies this
      ensures (buckets, ok) == Step(old(buckets), key, now)
    {
      if key !in buckets {
        if |buckets| >= MAX_BUCKETS {
          EvictIdle(now);
        }
        buckets := buckets[key := Bucket(BURST, now)];
      }
      var b := buckets[key];
      var elapsed := now - b.lastSeen;
      if elapsed > 0.0 {
        b := b.(tokens := b.tokens + elapsed * RATE);
        if b.tokens > BURST {
          b := b.(tokens := BURST);
        }
        b := b.(lastSeen := now);
      }
      ok := b.tokens >= 1.0;
      if ok {
        b := b.(tokens := b.tokens - 1.0);
      }
      buckets := buckets[key := b];
      assert buckets == Step(old(buckets), key, now).0;
    }
  }

  // ---- Runs ----

  datatype Query = Query(key: string, time: real)

  function Decisions(m: Buckets, qs: seq<Query>): (ds: seq<bool>)
    ensures |ds| == |qs|
    decreases |qs|
  {
    if qs == [] then []
    else
      var (m', ok) := Step(m, qs[0].key, qs[0].time);
      [ok] + Decisions(m', qs[1..])
  }

  /** The reference limiter: it never evicts. */
  function DecisionsForever(m: Buckets, qs: seq<Query>): (ds: seq<bool>)
    ensures |ds| == |qs|
    decreases |qs|
  {
    if qs == [] then []
    else
      var (m', ok) := Access(m, qs[0].key, qs[0].time);
      [ok] + DecisionsForever(m', qs[1..])
  }

  ghost predicate Monotone(qs: seq<Query>, start: real) {
    && (forall i :: 0 <= i < |qs| ==> start <= qs[i].time)
    && (forall i, j :: 0 <= i < j < |qs| ==> qs[i].time <= qs[j].time)
  }

  /** Every bucket holds between 0 and BURST tokens and was last touched no later than `now`. */
  ghost predicate Sound(m: Buckets, now: real) {
    forall k :: k in m ==> 0.0 <= m[k].tokens <= BURST && m[k].lastSeen <= now
  }

  /** Tokens the subnet would have at time `t` if nobody asked before. */
  function Level(m: Buckets, key: string, t: real): real {
    if key !in m then BURST
    else
      var tokens := m[key].tokens + (t - m[key].lastSeen) * RATE;
      if tokens > BURST then BURST else tokens
  }

  /** From `now` on the two tables cannot be told apart. */
  ghost predicate SameFuture(m: Buckets, n: Buckets, now: real) {
    forall k, t :: t >= now ==> Level(m, k, t) == Level(n, k, t)
  }

  lemma EvictionKeepsLevels(m: Buckets, now: real)
    requires Sound(m, now)
    ensures Sound(Evict(m, now), now) && SameFuture(Evict(m, now), m, now)
  {
  }

  /** Only the level decides, and only the asking subnet's level changes. */
  lemma AccessByLevel(m: Buckets, key: string, now: real)
    requires Sound(m, now)
    ensures var (m', ok) := Access(m, key, now);
            && Sound(m', now)
            && 0.0 <= Level(m, key, now) <= BURST
            && (ok <==> Level(m, key, now) >= 1.0)
            && Level(m', key, now) == Level(m, key, now) - (if ok then 1.0 else 0.0)
            && forall k, t :: t >= now ==>
                 Level(m', k, t) ==
                 if k != key then Level(m, k, t)
                 else if Level(m', key, now) + (t - now) * RATE > BURST then BURST
                 else Level(m', key, now) + (t - now) * RATE
  {
  }

  lemma StepByLevel(m: Buckets, key: string, now: real)
    requires Sound(m, now)
    ensures var (m', ok) := Step(m, key, now);
            && Sound(m', now)
            && (ok <==> Level(m, key, now) >= 1.0)
            && SameFuture(m', Access(m, key, now).0, now)
  {
    EvictionKeepsLevels(m, now);
    AccessByLevel(m, key, now);
    AccessByLevel(Evict(m, now), key, now);
  }

  // ---- Eviction is unobservable, even if steps come in another order than their clock readings ----

  /** The clock is read before the lock is taken, so a step may carry an earlier reading than one before it; never one
      earlier by more than this, the idle time less the 2 seconds in which a bucket fills. */
  const SLACK_SECONDS := 3.0

  ghost predicate NearlyMonotone(qs: seq<Query>) {
    forall i, j :: 0 <= i < j < |qs| ==> qs[i].time - SLACK_SECONDS <= qs[j].time
  }

  /** `m` is `n` without buckets that will be full whenever they are next asked for, at `horizon` or later. */
  ghost predicate OnlyIdleGone(m: Buckets, n: Buckets, horizon: real) {
    && (forall k :: k in m ==> k in n && m[k] == n[k])
    && (forall k :: k in n && k !in m ==> n[k].lastSeen <= horizon - BURST / RATE)
    && (forall k :: k in n ==> n[k].tokens >= 0.0)
  }

  /** One step, at `now`, with no later step before `horizon`. */
  lemma StepUnobservable(m: Buckets, n: Buckets, key: string, now: real, horizon: real)
    requires OnlyIdleGone(m, n, now) && OnlyIdleGone(m, n, horizon) && now - SLACK_SECONDS <= horizon
    ensures Step(m, key, now).1 == Access(n, key, now).1
    ensures OnlyIdleGone(Step(m, key, now).0, Access(n, key, now).0, horizon)
  {
    var kept := if key !in m && |m| >= MAX_BUCKETS then Evict(m, now) else m;
    assert OnlyIdleGone(kept, n, now) && OnlyIdleGone(kept, n, horizon);
    assert Refill(if key in kept then kept[key] else Bucket(BURST, now), now) ==
           Refill(if key in n then n[key] else Bucket(BURST, now), now);
  }

  lemma {:induction false} EvictionUnobservableFrom(m: Buckets, n: Buckets, qs: seq<Query>)
    requires NearlyMonotone(qs) && forall i :: 0 <= i < |qs| ==> OnlyIdleGone(m, n, qs[i].time)
    ensures Decisions(m, qs) == DecisionsForever(n, qs)
    decreases |qs|
  {
    if qs != [] {
      var key, now, rest := qs[0].key, qs[0].time, qs[1..];
      var m', n' := Step(m, key, now).0, Access(n, key, now).0;
      hide Step, Access, OnlyIdleGone;
      forall i | 0 <= i < |rest| ensures OnlyIdleGone(m', n', rest[i].time) {
        assert rest[i] == qs[i + 1];
        StepUnobservable(m, n, key, now, rest[i].time);
      }
      StepUnobservable(m, n, key, now, now);
      EvictionUnobservableFrom(m', n', rest);
    }
  }

  /** For every run whose steps are out of order by at most 3 seconds, the decisions are those of a limiter that never
      evicts: an evicted bucket had been idle for 5 seconds, and 2 fill it. */
  lemma EvictionIsUnobservable(qs: seq<Query>)
    requires NearlyMonotone(qs)
    ensures Decisions(map[], qs) == DecisionsForever(map[], qs)
  {
    EvictionUnobservableFrom(map[], map[], qs);
  }

  // ---- The rate bound ----

  /** How many of `key`'s queries with a time in [s, t] are allowed. */
  function Allowed(m: Buckets, qs: seq<Query>, key: string, s: real, t: real): nat
    decreases |qs|
  {
    if qs == [] then 0
    else
      var (m', ok) := Step(m, qs[0].key, qs[0].time);
      (if ok && qs[0].key == key && s <= qs[0].time <= t then 1 else 0) + Allowed(m', qs[1..], key, s, t)
  }

  lemma LevelRises(m: Buckets, key: string, from: real, to: real)
    requires Sound(m, from) && from <= to
    ensures 0.0 <= Level(m, key, from) <= BURST && Level(m, key, to) <= Level(m, key, from) + (to - from) * RATE
  {
  }

  lemma {:induction false} AllowedWithin(m: Buckets, qs: seq<Query>, start: real, key: string, s: real, t: real)
    requires s <= t && Sound(m, start) && Monotone(qs, start)
    ensures Allowed(m, qs, key, s, t) as real <=
            if start < s then BURST + (t - s) * RATE
            else if start <= t then Level(m, key, start) + (t - start) * RATE
            else 0.0
    decreases |qs|
  {
    if qs == [] {
      AccessByLevel(m, key, start);
    } else {
      var now := qs[0].time;
      var m' := Step(m, qs[0].key, now).0;
      StepByLevel(m, qs[0].key, now);
      AccessByLevel(m, qs[0].key, now);
      AccessByLevel(m, key, now);
      AllowedWithin(m', qs[1..], now, key, s, t);
      LevelRises(m, key, start, now);
      assert Level(m', key, now) == Level(Access(m, qs[0].key, now).0, key, now);
    }
  }

  /** In any run and any interval one subnet gets at most 40 queries and 20 more per second. */
  lemma RateBound(qs: seq<Query>, start: real, key: string, s: real, t: real)
    requires s <= t && Monotone(qs, start)
    ensures Allowed(map[], qs, key, s, t) as real <= 40.0 + (t - s) * 20.0
  {
    AllowedWithin(map[], qs, start, key, s, t);
    AccessByLevel(map[], key, start);
  }

  /** The table after a run. */
  function After(m: Buckets, qs: seq<Query>): Buckets
    decreases |qs|
  {
    if qs == [] then m else After(Step(m, qs[0].key, qs[0].time).0, qs[1..])
  }

  lemma {:induction false} TokensStayInRange(m: Buckets, qs: seq<Query>, start: real)
    requires Sound(m, start) && Monotone(qs, start)
    ensures forall k :: k in After(m, qs) ==> 0.0 <= After(m, qs)[k].tokens <= 40.0
    decreases |qs|
  {
    if qs != [] {
      StepByLevel(m, qs[0].key, qs[0].time);
      TokensStayInRange(Step(m, qs[0].key, qs[0].time).0, qs[1..], qs[0].time);
    }
  }

  // ---- What eviction is for ----

  /** When the run last made a new bucket; `since` if it never did. */
  function LastInsertion(m: Buckets, qs: seq<Query>, since: real): real
    decreases |qs|
  {
    if qs == [] then since
    else
      LastInsertion(Step(m, qs[0].key, qs[0].time).0, qs[1..], if qs[0].key in m then since else qs[0].time)
  }

  /** The table is within its limit, or every bucket in it was in use shortly before the moment. */
  ghost predicate Contained(m: Buckets, moment: real) {
    |m| <= 4096 || forall k :: k in m ==> m[k].lastSeen >= moment - 5.0
  }

  lemma StepContained(m: Buckets, key: string, now: real, since: real)
    requires Contained(m, since)
    ensures Contained(Step(m, key, now).0, if key in m then since else now)
  {
    var m' := Step(m, key, now).0;
    if key in m {
      assert m'.Keys == m.Keys;
      assert |m'| == |m'.Keys| && |m| == |m.Keys|;
    } else if |m| < MAX_BUCKETS {
      assert m'.Keys == m.Keys + {key};
      assert |m'| == |m'.Keys| && |m| == |m.Keys|;
    }
  }

  /** Nothing is evicted before the table holds 4096 buckets, and later only what has been idle for 5 seconds. */
  lemma EvictsOnlyIdleWhenFull(m: Buckets, key: string, now: real)
    ensures var m' := Step(m, key, now).0;
            && key in m'
            && (forall k :: k in m' ==> k in m || k == key)
            && (forall k :: k in m && k !in m' ==> key !in m && |m| >= 4096 && m[k].lastSeen < now - 5.0)
  {
  }

  /** After every run the table holds at most 4096 buckets, or none of its buckets had been idle for 5 seconds
      when the last one was made. */
  lemma {:induction false} TableIsContained(m: Buckets, qs: seq<Query>, since: real)
    requires Contained(m, since)
    ensures Contained(After(m, qs), LastInsertion(m, qs, since))
    decreases |qs|
  {
    hide Step, Contained;
    if qs != [] {
      StepContained(m, qs[0].key, qs[0].time, since);
      TableIsContained(Step(m, qs[0].key, qs[0].time).0, qs[1..], if qs[0].key in m then since else qs[0].time);
    }
  }

  // ---- Well-behaved subnets ----

  /** `key`'s queries are at least one token's refill time apart. */
  ghost predicate Spaced(qs: seq<Query>, key: string) {
    forall i, j :: 0 <= i < j < |qs| && qs[i].key == qs[j].key == key ==> qs[j].time - qs[i].time >= 0.05
  }

  lemma {:induction false} SpacedFrom(m: Buckets, qs: seq<Query>, start: real, key: string)
    requires Sound(m, start) && Monotone(qs, start) && Spaced(qs, key)
    requires forall i :: 0 <= i < |qs| && qs[i].key == key ==> Level(m, key, qs[i].time) >= 1.0
    ensures forall i :: 0 <= i < |qs| && qs[i].key == key ==> Decisions(m, qs)[i]
    decreases |qs|
  {
    if qs != [] {
      var now, rest := qs[0].time, qs[1..];
      var m' := Step(m, qs[0].key, now).0;
      StepByLevel(m, qs[0].key, now);
      AccessByLevel(m, qs[0].key, now);
      forall i | 0 <= i < |rest| && rest[i].key == key ensures Level(m', key, rest[i].time) >= 1.0 {
        assert rest[i] == qs[i + 1];
        assert Level(m', key, rest[i].time) == Level(Access(m, qs[0].key, now).0, key, rest[i].time);
      }
      SpacedFrom(m', rest, now, key);
    }
  }

  lemma SpacedQueriesNeverDropped(qs: seq<Query>, start: real, key: string)
    requires Monotone(qs, start) && Spaced(qs, key)
    ensures forall i :: 0 <= i < |qs| && qs[i].key == key ==> Decisions(map[], qs)[i]
  {
    SpacedFrom(map[], qs, start, key);
  }

  /** The bound is reached: of simultaneous queries from a new subnet exactly the first 40 pass. */
  lemma {:induction false} BurstIsExact(m: Buckets, qs: seq<Query>, key: string, now: real, used: nat)
    requires forall i :: 0 <= i < |qs| ==> qs[i] == Query(key, now)
    requires Sound(m, now) && used <= 40 && Level(m, key, now) == BURST - used as real
    ensures forall i :: 0 <= i < |qs| ==> (Decisions(m, qs)[i] <==> i + used < 40)
    decreases |qs|
  {
    if qs != [] {
      StepByLevel(m, key, now);
      AccessByLevel(m, key, now);
      var m' := Step(m, key, now).0;
      assert Level(m', key, now) == Level(Access(m, key, now).0, key, now);
      BurstIsExact(m', qs[1..], key, now, if used < 40 then used + 1 else 40);
    }
  }
}
