/** The limiter's middleware over its module-level store. */
module RateLimitMiddleware {
  import opened RateLimiter

  class Middleware {
    var localStore: map<Key, Entry>
    var redis: map<Key, nat>         // the counters of the Redis server
    ghost var served: seq<Request>   // every request handled so far

    ghost predicate Valid()
      reads this
    {
      Store(localStore, redis) == Serve(served).0
    }

    constructor ()
      ensures Valid() && served == []
    {
      localStore, redis, served := map[], map[], [];
    }

    method CleanupLocalStore(now: nat)
      modifies this`localStore
      ensures localStore == Cleaned(old(localStore), now)
      ensures forall k :: k in localStore <==> k in old(localStore) && now < old(localStore)[k].expiresAt
      ensures forall k :: k in localStore ==> localStore[k] == old(localStore)[k]
    {
      var todo := localStore.Keys;
      while exists k :: k in todo
        invariant todo <= old(localStore).Keys
        invariant forall k :: k in todo ==> k in localStore && localStore[k] == old(localStore)[k]
        invariant forall k :: k in old(localStore) && k !in todo ==>
          if now < old(localStore)[k].expiresAt then k in localStore && localStore[k] == old(localStore)[k]
          else k !in localStore
        invariant localStore.Keys <= old(localStore).Keys
        decreases |todo|
      {
        var k :| k in todo;
        if localStore[k].expiresAt <= now {
          localStore := localStore - {k};
        }
        todo := todo - {k};
      }
    }

    /** Asks Redis; nothing comes back when it fails, even if it has counted. */
    method IncrementAndGetWithWindow(k: Key, answer: Redis) returns (count: nat)
      modifies this`redis
      ensures redis == if answer == Fails(false) then old(redis) else old(redis)[k := count]
      ensures count == (if k in old(redis) then old(redis)[k] else 0) + 1
    {
      count := (if k in redis then redis[k] else 0) + 1;
      if answer != Fails(false) {
        redis := redis[k := count];
      }
    }

    /** Counts the request `r`, of which it is told the key, the time to live and the clock. */
    method IncrementCount(k: Key, windowSec: nat, answer: Redis, now: nat, ghost r: Request) returns (count: nat)
      requires k == KeyOf(r) && windowSec == WindowSec(r.limiter) && answer == r.redis && now == r.at
      modifies this`localStore, this`redis
      ensures (Store(localStore, redis), count) == Counted(Store(old(localStore), old(redis)), r)
    {
      count := IncrementAndGetWithWindow(k, answer);
      if answer == Answers {
        return;
      }
      CleanupLocalStore(now);
      if k !in localStore || localStore[k].expiresAt <= now {
        localStore := localStore[k := Entry(1, now + windowSec * 1000)];
        return 1;
      }
      var existing := localStore[k];
      existing := existing.(count := existing.count + 1);
      localStore := localStore[k := existing];
      return existing.count;
    }

    /** The middleware: `seen` is the clock at the bucket, `at` the clock at the store. */
    method Handle(limiter: Limiter, part: string, seen: nat, answer: Redis, at: nat)
      returns (next: bool, remaining: nat, reset: nat)
      requires Valid()
      modifies this
      ensures Valid()
      ensures served == old(served) + [Request(limiter, part, seen, at, answer)]
      ensures |Serve(served).1| == |served|
      ensures var hit := Serve(served).1[|served| - 1];
              && (next <==> Admitted(hit))
              && remaining == Max(0, Limit(limiter) - hit.count)
              && (limiter.max >= 1 ==> (next <==> hit.count <= limiter.max) && (next ==> remaining == limiter.max - hit.count))
      ensures reset == End(Key(limiter, part, seen / Window(limiter)))
    {
      var bucket := seen / Window(limiter);
      var k := Key(limiter, part, bucket);
      ghost var r := Request(limiter, part, seen, at, answer);
      var count := IncrementCount(k, WindowSec(limiter), answer, at, r);
      ServeOn(served, r);
      served := served + [r];
      remaining := Max(0, Limit(limiter) - count);
      EndIs(k);
      reset := bucket * Window(limiter) + Window(limiter);
      next := !(count > Limit(limiter));
    }
  }
}
