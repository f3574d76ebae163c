/**
  The fixed-window rate limiter (backend/app/middleware/rateLimiter.js, lines 4-87, with
  `incrementAndGetWithWindow` of backend/app/services/redisManager.js, lines 120-134). A request
  reads the clock once for its bucket and once more when the local store counts it; in between
  it waits for Redis, and falls back on the local store if Redis fails. Times and windows are whole
  milliseconds.
*/
module RateLimiter {
  import opened Common

  /** A configured limiter; limiters with different settings have different namespaces. */
  datatype Limiter = Limiter(namespace: string, windowMs: nat, max: nat)

  /** The hashed key: the hash is taken to be injective. */
  datatype Key = Key(limiter: Limiter, part: string, bucket: nat)

  datatype Entry = Entry(count: nat, expiresAt: nat)

  /** What Redis does with an increment; it may count one and still fail to answer. */
  datatype Redis = Answers | Fails(counted: bool)

  datatype Request = Request(limiter: Limiter, part: string, seen: nat, at: nat, redis: Redis)

  datatype Store = Store(local: map<Key, Entry>, redis: map<Key, nat>)

  datatype Hit = Hit(request: Request, count: nat)

  function Max(a: int, b: int): int {
    if a < b then b else a
  }

  function Window(l: Limiter): nat {
    Max(1000, if l.windowMs == 0 then 60000 else l.windowMs)
  }

  function Limit(l: Limiter): nat {
    Max(1, if l.max == 0 then 60 else l.max)
  }

  /** The time to live, rounded up to whole seconds. */
  function WindowSec(l: Limiter): nat {
    (Window(l) + 999) / 1000
  }

  function KeyOf(r: Request): Key {
    Key(r.limiter, r.part, r.seen / Window(r.limiter))
  }

  /** When the bucket of a key closes. */
  function End(k: Key): nat {
    (k.bucket + 1) * Window(k.limiter)
  }

  // ---------------------------------------------------------------- the store

  function Cleaned(local: map<Key, Entry>, now: nat): map<Key, Entry> {
    map k | k in local && now < local[k].expiresAt :: local[k]
  }

  function RedisCount(s: Store, k: Key): nat {
    if k in s.redis then s.redis[k] else 0
  }

  function Bumped(e: Entry): Entry {
    e.(count := e.count + 1)
  }

  function LocalEntry(local: map<Key, Entry>, r: Request): Entry {
    var k := KeyOf(r);
    if k in local && r.at < local[k].expiresAt then Bumped(local[k]) else Entry(1, r.at + WindowSec(r.limiter) * 1000)
  }

  /** `incrementCount`. */
  function Counted(s: Store, r: Request): (Store, nat) {
    var k := KeyOf(r);
    if r.redis == Answers then
      (s.(redis := s.redis[k := RedisCount(s, k) + 1]), RedisCount(s, k) + 1)
    else
      var redis := if r.redis.counted then s.redis[k := RedisCount(s, k) + 1] else s.redis;
      var local := Cleaned(s.local, r.at);
      var e := LocalEntry(local, r);
      (Store(local[k := e], redis), e.count)
  }

  const EMPTY := Store(map[], map[])

  /** The store after a sequence of requests, and the count each of them got. */
  function Serve(rs: seq<Request>): (r: (Store, seq<Hit>))
    ensures |r.1| == |rs|
    ensures forall i :: 0 <= i < |rs| ==> r.1[i].request == rs[i]
  {
    if rs == [] then (EMPTY, [])
    else
      var last := rs[|rs| - 1];
      var (s, hits) := Serve(rs[..|rs| - 1]);
      var (t, count) := Counted(s, last);
      (t, hits + [Hit(last, count)])
  }

  lemma ServeOn(rs: seq<Request>, r: Request)
    ensures var (t, count) := Counted(Serve(rs).0, r);
            Serve(rs + [r]) == (t, Serve(rs).1 + [Hit(r, count)])
  {
    assert (rs + [r])[..|rs|] == rs;
  }

  lemma EndIs(k: Key)
    ensures End(k) == k.bucket * Window(k.limiter) + Window(k.limiter)
  {
  }

  predicate Admitted(h: Hit) {
    h.count <= Limit(h.request.limiter)
  }

  // ---------------------------------------------------------------- plain counting

  predicate Local(h: Hit, k: Key) {
    h.request.redis != Answers && KeyOf(h.request) == k
  }

  predicate Remote(h: Hit, k: Key) {
    h.request.redis == Answers && KeyOf(h.request) == k
  }

  function LocalHits(hits: seq<Hit>, k: Key): nat {
    if hits == [] then 0
    else LocalHits(hits[..|hits| - 1], k) + if Local(hits[|hits| - 1], k) then 1 else 0
  }

  function LocalAdmitted(hits: seq<Hit>, k: Key): nat {
    if hits == [] then 0
    else
      var h := hits[|hits| - 1];
      LocalAdmitted(hits[..|hits| - 1], k) + if Local(h, k) && Admitted(h) then 1 else 0
  }

  function RemoteAdmitted(hits: seq<Hit>, k: Key): nat {
    if hits == [] then 0
    else
      var h := hits[|hits| - 1];
      RemoteAdmitted(hits[..|hits| - 1], k) + if Remote(h, k) && Admitted(h) then 1 else 0
  }

  /** The requests of one client admitted by one limiter whose clock reading lies in [lo, hi). */
  function AdmittedBetween(hits: seq<Hit>, l: Limiter, part: string, lo: nat, hi: nat): nat {
    if hits == [] then 0
    else
      var h := hits[|hits| - 1];
      AdmittedBetween(hits[..|hits| - 1], l, part, lo, hi)
      + if h.request.limiter == l && h.request.part == part && lo <= h.request.seen < hi && Admitted(h) then 1 else 0
  }

  /** The store handles requests one after another, each after its bucket was read. */
  predicate InOrder(rs: seq<Request>) {
    && (forall i :: 0 <= i < |rs| ==> rs[i].seen <= rs[i].at)
    && (forall i, j :: 0 <= i < j < |rs| ==> rs[i].at <= rs[j].at)
  }

  /** A request that reaches the store while its bucket is still open. */
  predicate Prompt(r: Request) {
    r.at < End(KeyOf(r))
  }

  // ---------------------------------------------------------------- the store refines counting

  lemma WindowCovers(l: Limiter)
    ensures Window(l) <= WindowSec(l) * 1000
  {
  }

  lemma BucketStart(r: Request)
    ensures KeyOf(r).bucket * Window(r.limiter) <= r.seen < End(KeyOf(r))
  {
    var w := Window(r.limiter);
    var b := r.seen / w;
    assert r.seen == b * w + r.seen % w;
    assert (b + 1) * w == b * w + w;
  }

  /** At time `now` the local store holds exactly the true count of every key whose bucket is open. */
  ghost predicate TrueCounts(local: map<Key, Entry>, hits: seq<Hit>, now: nat) {
    forall k: Key :: now < End(k) ==>
      if LocalHits(hits, k) == 0 then k !in local
      else k in local && local[k].count == LocalHits(hits, k) && End(k) <= local[k].expiresAt
  }

  lemma CountedKeepsTrueCounts(s: Store, hits: seq<Hit>, before: nat, r: Request)
    requires TrueCounts(s.local, hits, before) && before <= r.at && r.seen <= r.at
    ensures var (t, count) := Counted(s, r);
            && TrueCounts(t.local, hits + [Hit(r, count)], r.at)
            && (r.redis != Answers && Prompt(r) ==> count == LocalHits(hits, KeyOf(r)) + 1)
  {
    var (t, count) := Counted(s, r);
    var after := hits + [Hit(r, count)];
    assert after[..|after| - 1] == hits;
    BucketStart(r);
    WindowCovers(r.limiter);
    var kr := KeyOf(r);
    assert End(kr) == kr.bucket * Window(r.limiter) + Window(r.limiter);
    assert r.redis != Answers ==> kr !in Cleaned(s.local, r.at) ==> End(kr) <= t.local[kr].expiresAt;
    forall k: Key | r.at < End(k)
      ensures if LocalHits(after, k) == 0 then k !in t.local
              else k in t.local && t.local[k].count == LocalHits(after, k) && End(k) <= t.local[k].expiresAt
    {
      assert before < End(k);
    }
  }

  lemma {:induction false} ServeKeepsTrueCounts(rs: seq<Request>, now: nat)
    requires InOrder(rs) && forall i :: 0 <= i < |rs| ==> rs[i].at <= now
    ensures TrueCounts(Serve(rs).0.local, Serve(rs).1, now)
    decreases |rs|
  {
    if rs != [] {
      var n := |rs| - 1;
      ServeKeepsTrueCounts(rs[..n], rs[n].at);
      CountedKeepsTrueCounts(Serve(rs[..n]).0, Serve(rs[..n]).1, rs[n].at, rs[n]);
    }
  }

  lemma {:induction false} ServePrefix(rs: seq<Request>, n: nat)
    requires n <= |rs|
    ensures Serve(rs[..n]).1 == Serve(rs).1[..n]
    decreases |rs|
  {
    if n == |rs| {
      assert rs[..n] == rs;
    } else {
      ServePrefix(rs[..|rs| - 1], n);
      assert rs[..|rs| - 1][..n] == rs[..n];
      assert Serve(rs).1[..|rs| - 1] == Serve(rs[..|rs| - 1]).1;
    }
  }

  lemma LastCountIsExact(rs: seq<Request>)
    requires InOrder(rs) && rs != []
    requires rs[|rs| - 1].redis != Answers && Prompt(rs[|rs| - 1])
    ensures var hits := Serve(rs).1;
            hits[|rs| - 1].count == LocalHits(hits[..|rs| - 1], KeyOf(rs[|rs| - 1])) + 1
  {
    var n := |rs| - 1;
    ServeKeepsTrueCounts(rs[..n], rs[n].at);
    CountedKeepsTrueCounts(Serve(rs[..n]).0, Serve(rs[..n]).1, rs[n].at, rs[n]);
    assert Serve(rs).1[..n] == Serve(rs[..n]).1;
  }

  lemma CountAtIsExact(rs: seq<Request>, i: nat)
    requires InOrder(rs) && i < |rs| && rs[i].redis != Answers && Prompt(rs[i])
    ensures |Serve(rs).1| == |rs|
    ensures Serve(rs).1[i].count == LocalHits(Serve(rs).1[..i], KeyOf(rs[i])) + 1
  {
    LastCountIsExact(rs[..i + 1]);
    ServePrefix(rs, i + 1);
    assert Serve(rs[..i + 1]).1[..i] == Serve(rs).1[..i];
  }

  /**
    On the local store the count a prompt request gets is the number of local requests of its key
    so far, itself included; so it is admitted exactly when it is among the first `max` of them.
    Neither expiry nor cleanup ever drops an entry whose bucket is still open.
  */
  lemma CountIsExact(rs: seq<Request>, i: nat)
    requires InOrder(rs) && i < |rs| && rs[i].redis != Answers && Prompt(rs[i])
    ensures |Serve(rs).1| == |rs|
    ensures Serve(rs).1[i].count == LocalHits(Serve(rs).1[..i + 1], KeyOf(rs[i]))
    ensures Admitted(Serve(rs).1[i]) <==> LocalHits(Serve(rs).1[..i], KeyOf(rs[i])) < Limit(rs[i].limiter)
  {
    CountAtIsExact(rs, i);
    var hits := Serve(rs).1;
    assert hits[..i + 1][..i] == hits[..i];
  }

  function Min(a: nat, b: nat): nat {
    if a < b then a else b
  }

  predicate PromptFor(rs: seq<Request>, k: Key) {
    forall i :: 0 <= i < |rs| && rs[i].redis != Answers && KeyOf(rs[i]) == k ==> Prompt(rs[i])
  }

  /** Of the local requests of a key exactly the first `max` are admitted, however many there are. */
  lemma {:induction false} FirstMaxAdmitted(rs: seq<Request>, k: Key)
    requires InOrder(rs) && PromptFor(rs, k)
    ensures var hits := Serve(rs).1;
            LocalAdmitted(hits, k) == Min(LocalHits(hits, k), Limit(k.limiter))
    decreases |rs|
  {
    if rs != [] {
      var n := |rs| - 1;
      var hits := Serve(rs).1;
      FirstMaxAdmitted(rs[..n], k);
      ServePrefix(rs, n);
      if Local(hits[n], k) {
        CountIsExact(rs, n);
        assert hits[..n + 1] == hits;
      }
    }
  }

  /** What the settings come to: a window of at least a second and a limit of at least one, as
      configured when they are, and a minute and 60 when they are not given; entries live for the
      window, rounded up to whole seconds. */
  lemma Settings(l: Limiter)
    ensures l.max >= 1 ==> Limit(l) == l.max
    ensures l.max == 0 ==> Limit(l) == 60
    ensures l.windowMs >= 1000 ==> Window(l) == l.windowMs
    ensures 0 < l.windowMs < 1000 ==> Window(l) == 1000
    ensures l.windowMs == 0 ==> Window(l) == 60000
    ensures Window(l) <= WindowSec(l) * 1000 < Window(l) + 1000
  {
  }

  /** A limiter configured with a limit and a window: within each window, counted from the epoch, a
      client's prompt local requests are let through until the configured number is reached. */
  lemma ConfiguredMaxAdmitted(rs: seq<Request>, l: Limiter, part: string, bucket: nat)
    requires InOrder(rs) && PromptFor(rs, Key(l, part, bucket)) && l.max >= 1 && l.windowMs >= 1000
    ensures forall i :: 0 <= i < |rs| && rs[i].limiter == l && rs[i].part == part ==>
              (KeyOf(rs[i]).bucket == bucket <==> bucket * l.windowMs <= rs[i].seen < bucket * l.windowMs + l.windowMs)
    ensures var k, hits := Key(l, part, bucket), Serve(rs).1;
            LocalAdmitted(hits, k) == if LocalHits(hits, k) < l.max then LocalHits(hits, k) else l.max
  {
    Settings(l);
    FirstMaxAdmitted(rs, Key(l, part, bucket));
    forall i | 0 <= i < |rs| && rs[i].limiter == l
      ensures KeyOf(rs[i]).bucket == bucket <==> bucket * l.windowMs <= rs[i].seen < bucket * l.windowMs + l.windowMs
    {
      BucketStart(rs[i]);
      EndIs(KeyOf(rs[i]));
      if bucket * l.windowMs <= rs[i].seen < bucket * l.windowMs + l.windowMs {
        QuotientIs(rs[i].seen, l.windowMs, bucket);
      }
    }
  }

  /** The requests of a key that Redis has counted, answered or not. */
  function RedisCounted(rs: seq<Request>, k: Key): nat {
    if rs == [] then 0
    else
      var r := rs[|rs| - 1];
      RedisCounted(rs[..|rs| - 1], k) + if KeyOf(r) == k && (r.redis == Answers || r.redis == Fails(true)) then 1 else 0
  }

  /** An answered request gets the number of requests of its key that Redis has counted so far, the
      unanswered ones included. */
  lemma {:induction false} RedisCountIsExact(rs: seq<Request>, k: Key)
    ensures RedisCount(Serve(rs).0, k) == RedisCounted(rs, k)
    ensures rs != [] && rs[|rs| - 1].redis == Answers && KeyOf(rs[|rs| - 1]) == k ==>
              Serve(rs).1[|rs| - 1].count == RedisCounted(rs, k)
    decreases |rs|
  {
    if rs != [] {
      RedisCountIsExact(rs[..|rs| - 1], k);
    }
  }

  /** Redis never admits more than `max` of a key, even when some increments went unanswered. */
  lemma {:induction false} RemoteWithinMax(rs: seq<Request>, k: Key)
    ensures RemoteAdmitted(Serve(rs).1, k) <= Limit(k.limiter)
    ensures RemoteAdmitted(Serve(rs).1, k) <= RedisCount(Serve(rs).0, k)
    decreases |rs|
  {
    if rs != [] {
      var n := |rs| - 1;
      RemoteWithinMax(rs[..n], k);
      ServePrefix(rs, n);
    }
  }

  /** Any mix of Redis answers and local fallback admits at most `2 * max` of a key in its bucket. */
  lemma MixedWithinTwiceMax(rs: seq<Request>, k: Key)
    requires InOrder(rs) && PromptFor(rs, k)
    ensures var hits := Serve(rs).1;
            LocalAdmitted(hits, k) + RemoteAdmitted(hits, k) <= 2 * Limit(k.limiter)
  {
    FirstMaxAdmitted(rs, k);
    RemoteWithinMax(rs, k);
  }

  // ---------------------------------------------------------------- intervals

  lemma AtLeastOnce(a: int, b: int, w: nat)
    requires a < b
    ensures (b - a) * w >= w && b * w >= a * w + w
  {
    assert (b - a) * w == b * w - a * w;
    assert (b - a - 1) * w >= 0;
    assert (b - a) * w == (b - a - 1) * w + w;
  }

  lemma QuotientIs(t: nat, w: nat, q: nat)
    requires w > 0 && q * w <= t < q * w + w
    ensures t / w == q
  {
    var d := t / w;
    assert t == d * w + t % w;
    if d > q {
      AtLeastOnce(q, d, w);
    } else if d < q {
      AtLeastOnce(d, q, w);
    }
  }

  /** A half-open interval of one window length meets only two buckets. */
  lemma TwoBuckets(w: nat, lo: nat, t: nat)
    requires w > 0 && lo <= t < lo + w
    ensures t / w == lo / w || t / w == lo / w + 1
  {
    var q := lo / w;
    assert lo == q * w + lo % w;
    assert (q + 1) * w == q * w + w;
    QuotientIs(t, w, if t < (q + 1) * w then q else q + 1);
  }

  lemma {:induction false} BetweenWithinBuckets(hits: seq<Hit>, l: Limiter, part: string, lo: nat)
    ensures var w := Window(l);
            var k, k' := Key(l, part, lo / w), Key(l, part, lo / w + 1);
            AdmittedBetween(hits, l, part, lo, lo + w)
            <= LocalAdmitted(hits, k) + RemoteAdmitted(hits, k) + LocalAdmitted(hits, k') + RemoteAdmitted(hits, k')
    decreases |hits|
  {
    if hits != [] {
      var h := hits[|hits| - 1];
      BetweenWithinBuckets(hits[..|hits| - 1], l, part, lo);
      if h.request.limiter == l && lo <= h.request.seen < lo + Window(l) {
        TwoBuckets(Window(l), lo, h.request.seen);
      }
    }
  }

  predicate AllLocal(rs: seq<Request>) {
    forall i :: 0 <= i < |rs| ==> rs[i].redis != Answers
  }

  lemma {:induction false} NoRemote(hits: seq<Hit>, k: Key)
    requires forall i :: 0 <= i < |hits| ==> hits[i].request.redis != Answers
    ensures RemoteAdmitted(hits, k) == 0
    decreases |hits|
  {
    if hits != [] {
      NoRemote(hits[..|hits| - 1], k);
    }
  }

  /** The requests of a client that are let through in an interval, as a set of positions. */
  function Passed(hits: seq<Hit>, l: Limiter, part: string, lo: nat, hi: nat): set<nat> {
    set i: nat | i < |hits| && hits[i].request.limiter == l && hits[i].request.part == part
                 && lo <= hits[i].request.seen < hi && hits[i].count <= Limit(l)
  }

  lemma {:induction false} AdmittedBetweenCounts(hits: seq<Hit>, l: Limiter, part: string, lo: nat, hi: nat)
    ensures AdmittedBetween(hits, l, part, lo, hi) == |Passed(hits, l, part, lo, hi)|
    decreases |hits|
  {
    if hits == [] {
      assert Passed(hits, l, part, lo, hi) == {};
    } else {
      var n := |hits| - 1;
      AdmittedBetweenCounts(hits[..n], l, part, lo, hi);
      var before, after := Passed(hits[..n], l, part, lo, hi), Passed(hits, l, part, lo, hi);
      assert forall i :: i in before <==> i in after && i < n;
      assert after == if n in after then before + {n} else before;
    }
  }

  /**
    For every request history, any half-open interval of one window length admits at most
    `2 * max` requests per client on the local store, and at most `4 * max` for any mix of Redis
    and local counting, as long as the client's own local requests in the two buckets are prompt.
  */
  lemma IntervalBound(rs: seq<Request>, l: Limiter, part: string, lo: nat)
    requires InOrder(rs)
    requires PromptFor(rs, Key(l, part, lo / Window(l))) && PromptFor(rs, Key(l, part, lo / Window(l) + 1))
    ensures var n := AdmittedBetween(Serve(rs).1, l, part, lo, lo + Window(l));
            && n <= 4 * Limit(l)
            && (AllLocal(rs) ==> n <= 2 * Limit(l))
  {
    var hits := Serve(rs).1;
    var w := Window(l);
    var k, k' := Key(l, part, lo / w), Key(l, part, lo / w + 1);
    BetweenWithinBuckets(hits, l, part, lo);
    MixedWithinTwiceMax(rs, k);
    MixedWithinTwiceMax(rs, k');
    FirstMaxAdmitted(rs, k);
    FirstMaxAdmitted(rs, k');
    if AllLocal(rs) {
      NoRemote(hits, k);
      NoRemote(hits, k');
    }
  }

  /** The same on the requests let through themselves. */
  lemma IntervalLetsThrough(rs: seq<Request>, l: Limiter, part: string, lo: nat)
    requires InOrder(rs)
    requires PromptFor(rs, Key(l, part, lo / Window(l))) && PromptFor(rs, Key(l, part, lo / Window(l) + 1))
    ensures var passed := Passed(Serve(rs).1, l, part, lo, lo + Window(l));
            |passed| <= 4 * Limit(l) && (AllLocal(rs) ==> |passed| <= 2 * Limit(l))
  {
    IntervalBound(rs, l, part, lo);
    AdmittedBetweenCounts(Serve(rs).1, l, part, lo, lo + Window(l));
  }

  /** With a single clock reading per request every request is prompt. */
  lemma OneReadingIsPrompt(r: Request)
    requires r.seen == r.at
    ensures Prompt(r)
  {
    BucketStart(r);
  }

  // ---------------------------------------------------------------- exactly when a count is true

  /** When the store handled the first local request of a key. */
  function FirstAt(hits: seq<Hit>, k: Key): Option<nat> {
    if hits == [] then None
    else
      var earlier := FirstAt(hits[..|hits| - 1], k);
      if earlier.Some? then earlier
      else if Local(hits[|hits| - 1], k) then Some(hits[|hits| - 1].request.at) else None
  }

  /** When the entry made for that request expires. */
  function Expiry(k: Key, first: nat): nat {
    first + WindowSec(k.limiter) * 1000
  }

  /** Until the first entry of a key expires the store holds the true count; from then on it holds
      an expired entry, none, or too low a count. */
  predicate OneKey(local: map<Key, Entry>, hits: seq<Hit>, k: Key, now: nat) {
    match FirstAt(hits, k)
    case None => LocalHits(hits, k) == 0 && k !in local
    case Some(first) =>
      && LocalHits(hits, k) > 0
      && (now < Expiry(k, first) ==> k in local && local[k] == Entry(LocalHits(hits, k), Expiry(k, first)))
      && (now >= Expiry(k, first) && k in local ==> local[k].expiresAt <= now || local[k].count < LocalHits(hits, k))
  }

  lemma {:induction false} ServeKeepsOneKey(rs: seq<Request>, k: Key, now: nat)
    requires InOrder(rs) && forall i :: 0 <= i < |rs| ==> rs[i].at <= now
    ensures OneKey(Serve(rs).0.local, Serve(rs).1, k, now)
    decreases |rs|
  {
    if rs != [] {
      var n := |rs| - 1;
      ServeKeepsOneKey(rs[..n], k, rs[n].at);
    }
  }

  lemma LastCountIff(rs: seq<Request>)
    requires InOrder(rs) && rs != [] && rs[|rs| - 1].redis != Answers
    ensures |Serve(rs).1| == |rs|
    ensures var n, k := |rs| - 1, KeyOf(rs[|rs| - 1]);
            var before := Serve(rs).1[..n];
            Serve(rs).1[n].count == LocalHits(before, k) + 1
            <==> FirstAt(before, k).None? || rs[n].at < Expiry(k, FirstAt(before, k).value)
  {
    var n, k := |rs| - 1, KeyOf(rs[|rs| - 1]);
    ServeKeepsOneKey(rs[..n], k, rs[n].at);
    assert Serve(rs).1[..n] == Serve(rs[..n]).1;
  }

  /**
    The exact condition, for every limiter and history: a local request gets the true count of its
    key if and only if it is the first local request of the key or reaches the store before the
    entry made for the first one expires.
  */
  lemma CountIsTrueIff(rs: seq<Request>, i: nat)
    requires InOrder(rs) && i < |rs| && rs[i].redis != Answers
    ensures |Serve(rs).1| == |rs|
    ensures var k := KeyOf(rs[i]);
            var before := Serve(rs).1[..i];
            Serve(rs).1[i].count == LocalHits(Serve(rs).1[..i + 1], k)
            <==> FirstAt(before, k).None? || rs[i].at < Expiry(k, FirstAt(before, k).value)
  {
    var upTo := rs[..i + 1];
    LastCountIff(upTo);
    ServePrefix(rs, i + 1);
    var hits := Serve(rs).1;
    assert Serve(upTo).1[..i] == hits[..i];
    assert hits[..i + 1][..i] == hits[..i];
  }

  lemma {:induction false} FirstAtIsARequest(rs: seq<Request>, k: Key)
    requires FirstAt(Serve(rs).1, k).Some?
    ensures exists j :: 0 <= j < |rs| && KeyOf(rs[j]) == k && rs[j].at == FirstAt(Serve(rs).1, k).value
    decreases |rs|
  {
    var n := |rs| - 1;
    ServePrefix(rs, n);
    if FirstAt(Serve(rs).1[..n], k).Some? {
      FirstAtIsARequest(rs[..n], k);
      var j :| 0 <= j < n && KeyOf(rs[..n][j]) == k && rs[..n][j].at == FirstAt(Serve(rs[..n]).1, k).value;
      assert rs[j] == rs[..n][j];
    }
  }

  lemma BucketWithinExpiry(q: Request)
    requires q.seen <= q.at
    ensures End(KeyOf(q)) <= Expiry(KeyOf(q), q.at)
  {
    var w, b := Window(q.limiter), KeyOf(q).bucket;
    BucketStart(q);
    WindowCovers(q.limiter);
    assert (b + 1) * w == b * w + w;
  }

  /** The bucket bound follows, for every limiter: the first entry of a key outlives its bucket, so
      a request that reaches the store in its own bucket meets the condition. */
  lemma FirstEntryOutlivesBucket(rs: seq<Request>, r: Request)
    requires InOrder(rs) && Prompt(r) && FirstAt(Serve(rs).1, KeyOf(r)).Some?
    ensures r.at < Expiry(KeyOf(r), FirstAt(Serve(rs).1, KeyOf(r)).value)
  {
    var k := KeyOf(r);
    var first := FirstAt(Serve(rs).1, k).value;
    FirstAtIsARequest(rs, k);
    var j :| 0 <= j < |rs| && KeyOf(rs[j]) == k && rs[j].at == first;
    BucketWithinExpiry(rs[j]);
  }

  // ---------------------------------------------------------------- what a late request can do

  function Copies(r: Request, n: nat): seq<Request> {
    seq(n, _ => r)
  }

  lemma CountAgain(s: Store, r: Request, n: nat)
    requires r.redis != Answers
    requires s.local == if n == 0 then map[] else map[KeyOf(r) := Entry(n, r.at + WindowSec(r.limiter) * 1000)]
    ensures var (t, count) := Counted(s, r);
            count == n + 1 && t.local == map[KeyOf(r) := Entry(n + 1, r.at + WindowSec(r.limiter) * 1000)]
  {
    WindowCovers(r.limiter);
  }

  lemma OneCopyMore(r: Request, n: nat)
    requires n > 0
    ensures var (t, count) := Counted(Serve(Copies(r, n - 1)).0, r);
            Serve(Copies(r, n)) == (t, Serve(Copies(r, n - 1)).1 + [Hit(r, count)])
  {
    assert Copies(r, n) == Copies(r, n - 1) + [r];
    ServeOn(Copies(r, n - 1), r);
  }

  lemma {:induction false} CopiesStored(r: Request, n: nat)
    requires r.seen == r.at && r.redis != Answers
    ensures Serve(Copies(r, n)).0.local ==
              if n == 0 then map[] else map[KeyOf(r) := Entry(n, r.at + WindowSec(r.limiter) * 1000)]
    decreases n
  {
    if n > 0 {
      CopiesStored(r, n - 1);
      OneCopyMore(r, n);
      CountAgain(Serve(Copies(r, n - 1)).0, r, n - 1);
    }
  }

  lemma {:induction false} CopiesCount(r: Request, n: nat)
    requires r.seen == r.at && r.redis != Answers
    ensures LocalHits(Serve(Copies(r, n)).1, KeyOf(r)) == n
    ensures n > 0 ==> FirstAt(Serve(Copies(r, n)).1, KeyOf(r)) == Some(r.at)
    decreases n
  {
    if n > 0 {
      CopiesCount(r, n - 1);
      OneCopyMore(r, n);
      var hits := Serve(Copies(r, n)).1;
      assert hits[..|hits| - 1] == Serve(Copies(r, n - 1)).1;
    }
  }

  /** For every limiter: after the first `max` requests of a key one more that is held up until
      their entry has expired is counted as the first one again and admitted. */
  lemma LateRequestRestartsCount(l: Limiter, part: string)
    ensures var r := Request(l, part, 0, 0, Fails(false));
            var late := Request(l, part, 0, WindowSec(l) * 1000, Fails(false));
            var rs := Copies(r, Limit(l)) + [late];
            InOrder(rs) && LocalAdmitted(Serve(rs).1, KeyOf(r)) == Limit(l) + 1
  {
    var r := Request(l, part, 0, 0, Fails(false));
    var late := Request(l, part, 0, WindowSec(l) * 1000, Fails(false));
    var first := Copies(r, Limit(l));
    var rs := first + [late];
    assert rs[..|rs| - 1] == first;
    CopiesCount(r, Limit(l));
    CopiesStored(r, Limit(l));
    forall i | 0 <= i < |first| ensures Prompt(first[i]) {
      OneReadingIsPrompt(first[i]);
    }
    FirstMaxAdmitted(first, KeyOf(r));
    var hits := Serve(rs).1;
    assert hits[..|hits| - 1] == Serve(first).1;
  }
}
