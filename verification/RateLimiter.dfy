/**
 The in-process fixed-window rate limiter in front of the public endpoints.

 The class is the limiter as it stands: a map of buckets, a sweep that drops
 expired ones, and a cap on the number of keys beyond which requests are let
 through. Decide is its specification on values. Runs are compared with a
 limiter that never sweeps and has no cap, and bounded over sliding windows.
 */
module RateLimiter {
  import opened Listings

  /** A rule's request limit and window length in nanoseconds. */
  datatype Rule = Rule(className: string, limit: nat, window: nat)

  /** Requests are counted per rule and client address. */
  datatype Key = Key(rule: Rule, client: string)

  datatype Bucket = Bucket(count: nat, resetAt: int)

  datatype Verdict = Verdict(allowed: bool, retryAfter: int)

  datatype Limiter = Limiter(buckets: map<Key, Bucket>, lastSweep: int, maxKeys: nat)

  const SECOND: nat := 1_000_000_000

  const ADMIT := Verdict(true, 0)

  /** The buckets a sweep at `now` leaves behind. */
  function Live(buckets: map<Key, Bucket>, now: int): map<Key, Bucket> {
    map k | k in buckets && now < buckets[k].resetAt :: buckets[k]
  }

  function Swept(l: Limiter, now: int, window: nat): Limiter {
    if now - l.lastSweep < window then l
    else l.(buckets := Live(l.buckets, now), lastSweep := now)
  }

  /** The bucket a request finds: its own, restarted once its window has passed, or a new one. */
  function Current(buckets: map<Key, Bucket>, now: int, key: Key): Bucket {
    if key in buckets && now < buckets[key].resetAt then buckets[key]
    else Bucket(0, now + key.rule.window)
  }

  /** The limiter is full and holds no bucket for this key. */
  predicate AtCapacity(l: Limiter, key: Key) {
    key !in l.buckets && |l.buckets| >= l.maxKeys
  }

  function Count(l: Limiter, now: int, key: Key): (Limiter, Verdict) {
    var b := Current(l.buckets, now, key);
    if b.count >= key.rule.limit then (l.(buckets := l.buckets[key := b]), Verdict(false, b.resetAt - now))
    else (l.(buckets := l.buckets[key := b.(count := b.count + 1)]), ADMIT)
  }

  function Decide(l: Limiter, now: int, key: Key): (Limiter, Verdict) {
    var swept := Swept(l, now, key.rule.window);
    if AtCapacity(swept, key) then (swept, ADMIT) else Count(swept, now, key)
  }

  class IPRateLimiter {
    var buckets: map<Key, Bucket>
    var lastSweep: int
    const maxKeys: nat

    ghost function State(): Limiter
      reads this
    {
      Limiter(buckets, lastSweep, maxKeys)
    }

    constructor (now: int, maxKeys: nat)
      ensures State() == Limiter(map[], now, maxKeys)
    {
      buckets, lastSweep := map[], now;
      this.maxKeys := maxKeys;
    }

    method Allow(now: int, key: Key) returns (v: Verdict)
      modifies this
      ensures (State(), v) == Decide(old(State()), now, key)
    {
      SweepLocked(now, key.rule.window);
      ghost var swept := buckets;
      var known := key in buckets;
      if known && now >= buckets[key].resetAt {
        buckets := buckets[key := Bucket(0, now + key.rule.window)];
      }
      if !known {
        if |buckets| >= maxKeys {
          return ADMIT;
        }
        buckets := buckets[key := Bucket(0, now + key.rule.window)];
      }
      var bucket := buckets[key];
      if bucket.count >= key.rule.limit {
        assert buckets == swept[key := bucket];
        return Verdict(false, bucket.resetAt - now);
      }
      buckets := buckets[key := bucket.(count := bucket.count + 1)];
      assert buckets == swept[key := bucket.(count := bucket.count + 1)];
      return ADMIT;
    }

    method SweepLocked(now: int, window: nat)
      modifies this
      ensures State() == Swept(old(State()), now, window)
    {
      if now - lastSweep < window {
        return;
      }
      var left := buckets.Keys;
      while left != {}
        invariant left <= old(buckets).Keys
        invariant buckets == map k | k in old(buckets) && (k in left || now < old(buckets)[k].resetAt) :: old(buckets)[k]
        invariant lastSweep == old(lastSweep)
        decreases left
      {
        var key :| key in left;
        if now >= buckets[key].resetAt {
          buckets := buckets - {key};
        }
        left := left - {key};
      }
      lastSweep := now;
    }
  }

  // ---- Runs ----

  datatype Request = Request(now: int, key: Key)

  /** The clock never runs backwards, from `start` through the requests. */
  ghost predicate Timely(start: int, reqs: seq<Request>) {
    && (forall i | 0 <= i < |reqs| :: start <= reqs[i].now)
    && (forall i, j | 0 <= i < j < |reqs| :: reqs[i].now <= reqs[j].now)
  }

  ghost function After(l: Limiter, reqs: seq<Request>): Limiter {
    if reqs == [] then l
    else Decide(After(l, reqs[..|reqs| - 1]), reqs[|reqs| - 1].now, reqs[|reqs| - 1].key).0
  }

  /** What the i-th request of a run is told. */
  ghost function Answer(l: Limiter, reqs: seq<Request>, i: nat): Verdict
    requires i < |reqs|
  {
    Decide(After(l, reqs[..i]), reqs[i].now, reqs[i].key).1
  }

  /** The run never lets a request through merely because the limiter is full. */
  ghost predicate BelowCapacity(l: Limiter, reqs: seq<Request>) {
    forall i | 0 <= i < |reqs| ::
      !AtCapacity(Swept(After(l, reqs[..i]), reqs[i].now, reqs[i].key.rule.window), reqs[i].key)
  }

  /** The limiter that never deletes a bucket and has no cap. */
  ghost function AfterUnswept(l: Limiter, reqs: seq<Request>): Limiter {
    if reqs == [] then l
    else Count(AfterUnswept(l, reqs[..|reqs| - 1]), reqs[|reqs| - 1].now, reqs[|reqs| - 1].key).0
  }

  ghost function AnswerUnswept(l: Limiter, reqs: seq<Request>, i: nat): Verdict
    requires i < |reqs|
  {
    Count(AfterUnswept(l, reqs[..i]), reqs[i].now, reqs[i].key).1
  }

  // ---- The cap ----

  lemma CapStep(l: Limiter, now: int, key: Key)
    requires |l.buckets| <= l.maxKeys
    ensures var l' := Decide(l, now, key).0;
            |l'.buckets| <= l'.maxKeys == l.maxKeys && |Swept(l, now, key.rule.window).buckets| <= |l.buckets|
  {
    LiveIsSmaller(l.buckets, now);
    var swept := Swept(l, now, key.rule.window);
    var l' := Decide(l, now, key).0;
    assert l'.buckets.Keys == swept.buckets.Keys || l'.buckets.Keys == swept.buckets.Keys + {key};
  }

  /** Whatever arrives, the limiter holds at most maxKeys buckets. */
  lemma {:induction false} NeverMoreThanMaxKeys(l: Limiter, reqs: seq<Request>)
    requires |l.buckets| <= l.maxKeys
    ensures |After(l, reqs).buckets| <= After(l, reqs).maxKeys == l.maxKeys
  {
    if reqs != [] {
      NeverMoreThanMaxKeys(l, reqs[..|reqs| - 1]);
      CapStep(After(l, reqs[..|reqs| - 1]), reqs[|reqs| - 1].now, reqs[|reqs| - 1].key);
    }
  }

  lemma LiveIsSmaller(buckets: map<Key, Bucket>, now: int)
    ensures |Live(buckets, now)| <= |buckets|
  {
    SubsetCount(Live(buckets, now).Keys, buckets.Keys);
  }

  /** A full limiter does not limit: while the windows it holds are open, every request of
      a client without a bucket is admitted, however many there are, and none is counted. */
  lemma {:induction false} FullLimiterAdmitsNewKeys(l: Limiter, reqs: seq<Request>)
    requires |l.buckets| >= l.maxKeys
    requires forall i | 0 <= i < |reqs| :: reqs[i].key !in l.buckets
    requires forall i, k | 0 <= i < |reqs| && k in l.buckets :: reqs[i].now < l.buckets[k].resetAt
    ensures After(l, reqs).buckets == l.buckets && After(l, reqs).maxKeys == l.maxKeys
    ensures forall i | 0 <= i < |reqs| :: Answer(l, reqs, i) == ADMIT
  {
    if reqs != [] {
      var front, last := reqs[..|reqs| - 1], reqs[|reqs| - 1];
      FullLimiterAdmitsNewKeys(l, front);
      assert Live(l.buckets, last.now) == l.buckets;
      forall i | 0 <= i < |reqs| ensures Answer(l, reqs, i) == ADMIT {
        if i < |front| {
          assert reqs[..i] == front[..i];
          assert Answer(l, front, i) == ADMIT;
        }
      }
    }
  }

  // ---- The sweep ----

  /** Once a window has passed since the last sweep, exactly the buckets whose window is still
      open are left, as they were, and the next sweep is a window away; before, nothing changes. */
  lemma SweepsExactlyWhenDue(l: Limiter, now: int, window: nat)
    ensures now >= l.lastSweep + window ==>
              && Swept(l, now, window).lastSweep == now
              && (forall k :: k in Swept(l, now, window).buckets <==> k in l.buckets && l.buckets[k].resetAt > now)
              && (forall k | k in Swept(l, now, window).buckets :: Swept(l, now, window).buckets[k] == l.buckets[k])
    ensures now < l.lastSweep + window ==> Swept(l, now, window) == l
    ensures Swept(l, now, window).maxKeys == l.maxKeys
  {
  }

  /** So a full limiter whose windows have all passed limits again: at the first request that is
      due to sweep, all room is free and the new client is counted. */
  lemma FullLimiterRecovers(l: Limiter, now: int, key: Key)
    requires now >= l.lastSweep + key.rule.window && l.maxKeys > 0 && key.rule.limit > 0
    requires forall k | k in l.buckets :: l.buckets[k].resetAt <= now
    ensures Decide(l, now, key) == (Limiter(map[key := Bucket(1, now + key.rule.window)], now, l.maxKeys), ADMIT)
  {
    assert Live(l.buckets, now) == map[];
  }

  /** What one request does to its own bucket, and that it touches no other. */
  lemma CountsItsOwnBucket(l: Limiter, now: int, key: Key)
    requires !AtCapacity(l, key) && key.rule.window > 0
    ensures var (l', v) := Count(l, now, key);
            var opens := key !in l.buckets || l.buckets[key].resetAt <= now;
            && (forall k | k != key :: (k in l'.buckets <==> k in l.buckets) && (k in l.buckets ==> l'.buckets[k] == l.buckets[k]))
            && key in l'.buckets
            && l'.buckets[key].resetAt == (if opens then now + key.rule.window else l.buckets[key].resetAt)
            && l'.buckets[key].count == (if opens then 0 else l.buckets[key].count) + (if v.allowed then 1 else 0)
            && (v.allowed <==> (if opens then 0 else l.buckets[key].count) < key.rule.limit)
            && v.retryAfter == (if v.allowed then 0 else l'.buckets[key].resetAt - now)
  {
  }

  /** Two limiters that answer alike from `now` on: same buckets, except that one may
      lack buckets that have expired. */
  ghost predicate Agree(s: Limiter, u: Limiter, now: int) {
    && (forall k | k in s.buckets :: k in u.buckets && u.buckets[k] == s.buckets[k])
    && (forall k | k in u.buckets && k !in s.buckets :: u.buckets[k].resetAt <= now)
  }

  lemma PrefixBelowCapacity(l: Limiter, reqs: seq<Request>, n: nat)
    requires BelowCapacity(l, reqs) && n <= |reqs|
    ensures BelowCapacity(l, reqs[..n])
  {
    assert forall i | 0 <= i < n :: reqs[..n][..i] == reqs[..i];
  }

  lemma AgreeStep(s: Limiter, u: Limiter, before: int, now: int, key: Key)
    requires Agree(s, u, before) && before <= now && !AtCapacity(Swept(s, now, key.rule.window), key)
    ensures Agree(Decide(s, now, key).0, Count(u, now, key).0, now)
    ensures Decide(s, now, key).1 == Count(u, now, key).1
  {
    var swept := Swept(s, now, key.rule.window);
    assert Current(swept.buckets, now, key) == Current(u.buckets, now, key);
  }

  /** The time of the last request, or the start. */
  ghost function Latest(reqs: seq<Request>, start: int): int {
    if reqs == [] then start else reqs[|reqs| - 1].now
  }

  lemma {:induction false} AgreeAlong(l: Limiter, reqs: seq<Request>, start: int)
    requires Timely(start, reqs) && BelowCapacity(l, reqs)
    ensures Agree(After(l, reqs), AfterUnswept(l, reqs), Latest(reqs, start))
  {
    if reqs != [] {
      var n := |reqs| - 1;
      PrefixBelowCapacity(l, reqs, n);
      AgreeAlong(l, reqs[..n], start);
      assert !AtCapacity(Swept(After(l, reqs[..n]), reqs[n].now, reqs[n].key.rule.window), reqs[n].key);
      AgreeStep(After(l, reqs[..n]), AfterUnswept(l, reqs[..n]), Latest(reqs[..n], start), reqs[n].now, reqs[n].key);
    }
  }

  /** Below capacity sweeping cannot be seen: every request gets the same decision and
      the same retry delay as from a limiter that keeps every bucket for ever. */
  lemma SweepIsInvisible(l: Limiter, reqs: seq<Request>, start: int, i: nat)
    requires Timely(start, reqs) && BelowCapacity(l, reqs) && i < |reqs|
    ensures Answer(l, reqs, i) == AnswerUnswept(l, reqs, i)
  {
    PrefixBelowCapacity(l, reqs, i);
    AgreeAlong(l, reqs[..i], start);
    assert !AtCapacity(Swept(After(l, reqs[..i]), reqs[i].now, reqs[i].key.rule.window), reqs[i].key);
    AgreeStep(After(l, reqs[..i]), AfterUnswept(l, reqs[..i]), Latest(reqs[..i], start), reqs[i].now, reqs[i].key);
  }

  // ---- The sliding window ----

  /** How many of the run's requests for `key` in [from, from + window) are admitted. */
  ghost function AdmittedIn(l: Limiter, reqs: seq<Request>, key: Key, from: int): nat {
    if reqs == [] then 0
    else
      var n, last := |reqs| - 1, reqs[|reqs| - 1];
      AdmittedIn(l, reqs[..n], key, from)
      + (if last.key == key && from <= last.now < from + key.rule.window && Answer(l, reqs, n).allowed then 1 else 0)
  }

  ghost function UnsweptAdmittedIn(l: Limiter, reqs: seq<Request>, key: Key, from: int): nat {
    if reqs == [] then 0
    else
      var n, last := |reqs| - 1, reqs[|reqs| - 1];
      UnsweptAdmittedIn(l, reqs[..n], key, from)
      + (if last.key == key && from <= last.now < from + key.rule.window && AnswerUnswept(l, reqs, n).allowed then 1 else 0)
  }

  /** How many admissions the bucket of a key allows to lie in the interval, by where the
      bucket's own window falls: before it, opening in it or before it, or after it. */
  ghost predicate Budget(buckets: map<Key, Bucket>, key: Key, from: int, admitted: nat) {
    var w, limit := key.rule.window, key.rule.limit;
    if key !in buckets then admitted == 0
    else
      var b := buckets[key];
      var opening := b.resetAt - w;
      && 1 <= b.count <= limit
      && admitted <= (
           if b.resetAt <= from then 0
           else if opening < from then b.count - 1
           else if opening == from then b.count
           else if opening < from + w then limit - 1 + b.count
           else 2 * limit - 1)
  }

  /** One request keeps the budget: a new window opens no sooner than the old one ends. */
  lemma BudgetStep(l: Limiter, now: int, r: Key, key: Key, from: int, admitted: nat)
    requires key.rule.window > 0 && key.rule.limit > 0
    requires Budget(l.buckets, key, from, admitted)
    requires key in l.buckets ==> l.buckets[key].resetAt - key.rule.window <= now
    ensures var (l', v) := Count(l, now, r);
            Budget(l'.buckets, key, from,
                   admitted + (if r == key && from <= now < from + key.rule.window && v.allowed then 1 else 0))
  {
  }

  lemma {:induction false} BudgetKept(l: Limiter, reqs: seq<Request>, start: int, key: Key, from: int)
    requires l.buckets == map[] && Timely(start, reqs)
    requires key.rule.window > 0 && key.rule.limit > 0
    ensures Budget(AfterUnswept(l, reqs).buckets, key, from, UnsweptAdmittedIn(l, reqs, key, from))
    ensures key in AfterUnswept(l, reqs).buckets ==>
              exists i | 0 <= i < |reqs| :: AfterUnswept(l, reqs).buckets[key].resetAt == reqs[i].now + key.rule.window
  {
    if reqs != [] {
      var front, last := reqs[..|reqs| - 1], reqs[|reqs| - 1];
      BudgetKept(l, front, start, key, from);
      var mid := AfterUnswept(l, front);
      if key in mid.buckets {
        var i :| 0 <= i < |front| && mid.buckets[key].resetAt == front[i].now + key.rule.window;
        assert reqs[i].now <= last.now;
      }
      BudgetStep(mid, last.now, last.key, key, from, UnsweptAdmittedIn(l, front, key, from));
    }
  }

  lemma {:induction false} AdmissionsAgree(l: Limiter, reqs: seq<Request>, start: int, key: Key, from: int)
    requires Timely(start, reqs) && BelowCapacity(l, reqs)
    ensures AdmittedIn(l, reqs, key, from) == UnsweptAdmittedIn(l, reqs, key, from)
  {
    if reqs != [] {
      var n := |reqs| - 1;
      PrefixBelowCapacity(l, reqs, n);
      AdmissionsAgree(l, reqs[..n], start, key, from);
      SweepIsInvisible(l, reqs, start, n);
    }
  }

  /** Any interval one window long, wherever it starts, holds at most 2 * limit - 1
      admitted requests per key. (A fixed-window counter is usually only credited
      with 2 * limit: the request that opens the first window never falls into an
      interval that also reaches the second.) */
  lemma SlidingWindowBound(l: Limiter, reqs: seq<Request>, start: int, key: Key, from: int)
    requires l.buckets == map[] && Timely(start, reqs) && BelowCapacity(l, reqs)
    requires key.rule.window > 0
    ensures AdmittedIn(l, reqs, key, from) <= if key.rule.limit == 0 then 0 else 2 * key.rule.limit - 1
  {
    AdmissionsAgree(l, reqs, start, key, from);
    if key.rule.limit > 0 {
      BudgetKept(l, reqs, start, key, from);
    } else {
      NothingAdmitted(l, reqs, key, from);
    }
  }

  lemma {:induction false} NothingAdmitted(l: Limiter, reqs: seq<Request>, key: Key, from: int)
    requires key.rule.limit == 0
    ensures UnsweptAdmittedIn(l, reqs, key, from) == 0
  {
    if reqs != [] {
      NothingAdmitted(l, reqs[..|reqs| - 1], key, from);
    }
  }

  // ---- The bound is reached ----

  /** The requests followed by n more, all at one instant and of one key. */
  ghost function FollowedBy(before: seq<Request>, n: nat, now: int, key: Key): seq<Request> {
    if n == 0 then before else FollowedBy(before, n - 1, now, key) + [Request(now, key)]
  }

  lemma {:induction false} FollowedByAt(before: seq<Request>, n: nat, now: int, key: Key)
    ensures |FollowedBy(before, n, now, key)| == |before| + n
    ensures forall i | 0 <= i < |before| + n ::
              FollowedBy(before, n, now, key)[i] == if i < |before| then before[i] else Request(now, key)
  {
    if n > 0 {
      FollowedByAt(before, n - 1, now, key);
    }
  }

  /** One request opens a window, the rest of the limit arrives later in it, and a
      full limit arrives as the next window opens. */
  ghost function Burst(key: Key): seq<Request>
    requires key.rule.limit > 0
  {
    FollowedBy(FollowedBy([Request(0, key)], key.rule.limit - 1, 1, key), key.rule.limit, key.rule.window, key)
  }

  lemma UnsweptSnoc(l: Limiter, before: seq<Request>, r: Request, from: int)
    ensures var (l', v) := Count(AfterUnswept(l, before), r.now, r.key);
            && AfterUnswept(l, before + [r]) == l'
            && UnsweptAdmittedIn(l, before + [r], r.key, from)
            == UnsweptAdmittedIn(l, before, r.key, from)
               + (if from <= r.now < from + r.key.rule.window && v.allowed then 1 else 0)
  {
    assert (before + [r])[..|before|] == before;
  }

  /** The requests in `all` after those in `before` were n more at one instant, all admitted. */
  ghost predicate Admits(l: Limiter, before: seq<Request>, all: seq<Request>, n: nat, now: int, key: Key, from: int) {
    var b := Current(AfterUnswept(l, before).buckets, now, key);
    && UnsweptAdmittedIn(l, all, key, from) == UnsweptAdmittedIn(l, before, key, from) + n
    && Current(AfterUnswept(l, all).buckets, now, key) == b.(count := b.count + n)
  }

  /** Requests at one instant that fit the bucket are all admitted. */
  lemma {:induction false} AllAdmitted(l: Limiter, before: seq<Request>, n: nat, now: int, key: Key, from: int)
    requires from <= now < from + key.rule.window
    requires Current(AfterUnswept(l, before).buckets, now, key).count + n <= key.rule.limit
    ensures Admits(l, before, FollowedBy(before, n, now, key), n, now, key, from)
  {
    if n > 0 {
      AllAdmitted(l, before, n - 1, now, key, from);
      OneMoreAdmits(l, before, FollowedBy(before, n - 1, now, key), n, now, key, from);
    }
  }

  lemma OneMoreAdmits(l: Limiter, before: seq<Request>, earlier: seq<Request>, n: nat, now: int, key: Key, from: int)
    requires n > 0 && from <= now < from + key.rule.window
    requires Current(AfterUnswept(l, before).buckets, now, key).count + n <= key.rule.limit
    requires Admits(l, before, earlier, n - 1, now, key, from)
    ensures Admits(l, before, earlier + [Request(now, key)], n, now, key, from)
  {
    OneMoreRequest(l, earlier, now, key, from);
  }

  lemma OneMoreRequest(l: Limiter, earlier: seq<Request>, now: int, key: Key, from: int)
    requires from <= now < from + key.rule.window
    requires Current(AfterUnswept(l, earlier).buckets, now, key).count < key.rule.limit
    ensures var all := earlier + [Request(now, key)];
            var b := Current(AfterUnswept(l, earlier).buckets, now, key);
            && UnsweptAdmittedIn(l, all, key, from) == UnsweptAdmittedIn(l, earlier, key, from) + 1
            && Current(AfterUnswept(l, all).buckets, now, key) == b.(count := b.count + 1)
  {
    UnsweptSnoc(l, earlier, Request(now, key), from);
    OneMoreAdmitted(AfterUnswept(l, earlier), now, key);
  }

  lemma OneMoreAdmitted(l: Limiter, now: int, key: Key)
    requires key.rule.window > 0 && Current(l.buckets, now, key).count < key.rule.limit
    ensures var (l', v) := Count(l, now, key); var b := Current(l.buckets, now, key);
            v.allowed && Current(l'.buckets, now, key) == b.(count := b.count + 1)
  {
  }

  /** For every limit there is a run, within any capacity, that admits 2 * limit - 1
      requests of one key inside one window length: the bound is exact. */
  lemma SlidingWindowBoundIsReached(l: Limiter, key: Key)
    requires l.buckets == map[] && l.maxKeys > 0 && key.rule.limit > 0 && key.rule.window > 1
    ensures Timely(0, Burst(key)) && BelowCapacity(l, Burst(key))
    ensures AdmittedIn(l, Burst(key), key, 1) == 2 * key.rule.limit - 1
  {
    BurstIsTimely(key);
    BurstAdmitted(l, key);
    OneKeyBelowCapacity(l, Burst(key), key);
    AdmissionsAgree(l, Burst(key), 0, key, 1);
  }

  lemma BurstIsTimely(key: Key)
    requires key.rule.limit > 0 && key.rule.window > 1
    ensures Timely(0, Burst(key)) && forall i | 0 <= i < |Burst(key)| :: Burst(key)[i].key == key
  {
    var limit := key.rule.limit;
    FollowedByAt([Request(0, key)], limit - 1, 1, key);
    FollowedByAt(FollowedBy([Request(0, key)], limit - 1, 1, key), limit, key.rule.window, key);
    assert forall i | 0 <= i < |Burst(key)| ::
      Burst(key)[i] == Request(if i == 0 then 0 else if i < limit then 1 else key.rule.window, key);
  }

  lemma BurstAdmitted(l: Limiter, key: Key)
    requires l.buckets == map[] && key.rule.limit > 0 && key.rule.window > 1
    ensures UnsweptAdmittedIn(l, Burst(key), key, 1) == 2 * key.rule.limit - 1
  {
    FirstWindow(l, key);
    var second := FollowedBy([Request(0, key)], key.rule.limit - 1, 1, key);
    AllAdmitted(l, second, key.rule.limit, key.rule.window, key, 1);
  }

  lemma FirstWindow(l: Limiter, key: Key)
    requires l.buckets == map[] && key.rule.limit > 0 && key.rule.window > 1
    ensures var second := FollowedBy([Request(0, key)], key.rule.limit - 1, 1, key);
            && UnsweptAdmittedIn(l, second, key, 1) == key.rule.limit - 1
            && Current(AfterUnswept(l, second).buckets, key.rule.window, key).count == 0
  {
    var first := [Request(0, key)];
    FirstRequest(l, key);
    AllAdmitted(l, first, key.rule.limit - 1, 1, key, 1);
    var second := FollowedBy(first, key.rule.limit - 1, 1, key);
    assert Current(AfterUnswept(l, second).buckets, 1, key).resetAt == key.rule.window;
  }

  lemma FirstRequest(l: Limiter, key: Key)
    requires l.buckets == map[] && key.rule.limit > 0
    ensures AfterUnswept(l, [Request(0, key)]).buckets == map[key := Bucket(1, key.rule.window)]
    ensures UnsweptAdmittedIn(l, [Request(0, key)], key, 1) == 0
  {
    UnsweptSnoc(l, [], Request(0, key), 1);
    assert [] + [Request(0, key)] == [Request(0, key)];
    assert AfterUnswept(l, []) == l;
  }

  /** A run of a single key never needs more than one bucket. */
  lemma OneKeyBelowCapacity(l: Limiter, reqs: seq<Request>, key: Key)
    requires l.buckets == map[] && l.maxKeys > 0
    requires forall i | 0 <= i < |reqs| :: reqs[i].key == key
    ensures BelowCapacity(l, reqs)
  {
    forall i | 0 <= i < |reqs|
      ensures !AtCapacity(Swept(After(l, reqs[..i]), reqs[i].now, reqs[i].key.rule.window), reqs[i].key)
    {
      OnlyKey(l, reqs[..i], key);
      var swept := Swept(After(l, reqs[..i]), reqs[i].now, reqs[i].key.rule.window);
      if key !in swept.buckets {
        assert swept.buckets.Keys == {};
      }
    }
  }

  lemma {:induction false} OnlyKey(l: Limiter, reqs: seq<Request>, key: Key)
    requires l.buckets == map[]
    requires forall i | 0 <= i < |reqs| :: reqs[i].key == key
    ensures After(l, reqs).buckets.Keys <= {key} && After(l, reqs).maxKeys == l.maxKeys
  {
    if reqs != [] {
      OnlyKey(l, reqs[..|reqs| - 1], key);
    }
  }

  // ---- Retry-After ----

  /** The whole seconds the middleware puts in the Retry-After header: the least number of
      seconds, and at least one, that covers the wait. */
  function RetrySeconds(retryAfter: int): (least: int)
    ensures least >= 1
    ensures forall seconds | seconds >= 1 :: seconds >= least <==> seconds * SECOND >= retryAfter
  {
    var seconds := (retryAfter + SECOND - 1) / SECOND;
    if seconds < 1 then 1 else seconds
  }

  /** A refused client that stays quiet is admitted exactly from the announced number of
      whole seconds on: the header is neither early nor late. */
  lemma RetryAfterIsExact(l: Limiter, now: int, key: Key, seconds: nat)
    requires key.rule.limit > 0 && key.rule.window > 0
    requires key in l.buckets ==> l.buckets[key].resetAt <= now + key.rule.window
    requires var (_, v) := Decide(l, now, key); !v.allowed
    ensures var (l', v) := Decide(l, now, key);
            && 0 < v.retryAfter <= key.rule.window
            && (Decide(l', now + seconds * SECOND, key).1.allowed <==> seconds >= RetrySeconds(v.retryAfter))
  {
    var (l', v) := Decide(l, now, key);
    var later := now + seconds * SECOND;
    assert key in l'.buckets && l'.buckets[key].resetAt == now + v.retryAfter;
    assert later >= now + v.retryAfter <==> seconds >= RetrySeconds(v.retryAfter);
  }
}
