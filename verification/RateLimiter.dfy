/** The sliding-window rate limiter, against the history of all attempts. */
module RateLimiter {

  /** A client identity; only equality matters. */
  type Key = int

  datatype Attempt = Attempt(key: Key, now: real)

  /** How many of the times lie in the closed interval. */
  function CountIn(times: seq<real>, from: real, to: real): nat {
    if times == [] then 0
    else
      CountIn(times[..|times| - 1], from, to) + if from <= times[|times| - 1] <= to then 1 else 0
  }

  /** The times at which a key was let through: whenever fewer than limit of its
      accepted attempts lay in the closed window ending now. */
  function Accepted(limit: int, window: real, attempts: seq<Attempt>, key: Key): seq<real> {
    if attempts == [] then []
    else
      var before := Accepted(limit, window, attempts[..|attempts| - 1], key);
      var last := attempts[|attempts| - 1];
      if last.key == key && CountIn(before, last.now - window, last.now) < limit then before + [last.now] else before
  }

  /** The clock never runs backwards. */
  ghost predicate Monotonic(attempts: seq<Attempt>) {
    forall i, j :: 0 <= i <= j < |attempts| ==> attempts[i].now <= attempts[j].now
  }

  lemma {:induction false} CountConcat(a: seq<real>, b: seq<real>, from: real, to: real)
    ensures CountIn(a + b, from, to) == CountIn(a, from, to) + CountIn(b, from, to)
  {
    if b == [] {
      assert a + b == a;
    } else {
      assert (a + b)[..|a + b| - 1] == a + b[..|b| - 1];
      CountConcat(a, b[..|b| - 1], from, to);
    }
  }

  lemma {:induction false} CountAll(times: seq<real>, from: real, to: real)
    requires forall i :: 0 <= i < |times| ==> from <= times[i] <= to
    ensures CountIn(times, from, to) == |times|
  {
    if times != [] {
      CountAll(times[..|times| - 1], from, to);
    }
  }

  lemma {:induction false} CountNone(times: seq<real>, from: real, to: real)
    requires forall i :: 0 <= i < |times| ==> times[i] < from || times[i] > to
    ensures CountIn(times, from, to) == 0
  {
    if times != [] {
      CountNone(times[..|times| - 1], from, to);
    }
  }

  /** A window that reaches less far back and no later holds no more. */
  lemma {:induction false} CountNarrower(times: seq<real>, from: real, to: real, now: real, start: real)
    requires forall i :: 0 <= i < |times| ==> times[i] <= now
    requires start <= from
    ensures CountIn(times, from, to) <= CountIn(times, start, now)
  {
    if times != [] {
      CountNarrower(times[..|times| - 1], from, to, now, start);
    }
  }

  /** In order, and none after now. */
  ghost predicate UpTo(times: seq<real>, now: real) {
    && (forall i :: 0 <= i < |times| ==> times[i] <= now)
    && (forall i, j :: 0 <= i <= j < |times| ==> times[i] <= times[j])
  }

  /** Accepted times are in order and none lies after the last attempt. */
  lemma {:induction false} AcceptedInOrder(limit: int, window: real, attempts: seq<Attempt>, key: Key, now: real)
    requires Monotonic(attempts) && (attempts == [] || attempts[|attempts| - 1].now <= now)
    ensures UpTo(Accepted(limit, window, attempts, key), now)
  {
    if attempts != [] {
      AcceptedInOrder(limit, window, attempts[..|attempts| - 1], key, attempts[|attempts| - 1].now);
    }
  }


  /** However a key's attempts are spread, no closed interval as long as the window
      holds more than limit accepted ones. */
  lemma {:induction false} WindowBound(limit: int, window: real, attempts: seq<Attempt>, key: Key, from: real)
    requires Monotonic(attempts)
    ensures CountIn(Accepted(limit, window, attempts, key), from, from + window) <= if limit < 0 then 0 else limit
  {
    if attempts != [] {
      var rest, last := attempts[..|attempts| - 1], attempts[|attempts| - 1];
      var before := Accepted(limit, window, rest, key);
      WindowBound(limit, window, rest, key, from);
      AcceptedInOrder(limit, window, rest, key, last.now);
      CountConcat(before, [last.now], from, from + window);
      if last.key == key && from <= last.now <= from + window {
        CountNarrower(before, from, from + window, last.now, last.now - window);
      }
    }
  }

  /** The end of a list of times, from which only entries before the cutoff are missing. */
  ghost predicate EndOf(times: seq<real>, bucket: seq<real>, cutoff: real) {
    && |bucket| <= |times| && bucket == times[|times| - |bucket|..]
    && forall i :: 0 <= i < |times| - |bucket| ==> times[i] < cutoff
  }

  /** Where the window of the last attempt begins. */
  ghost function Cutoff(attempts: seq<Attempt>, window: real): real {
    if attempts == [] then 0.0 else attempts[|attempts| - 1].now - window
  }

  lemma EndOfLater(times: seq<real>, bucket: seq<real>, cutoff: real, later: real)
    requires EndOf(times, bucket, cutoff) && (times == [] || cutoff <= later)
    ensures EndOf(times, bucket, later)
  {
  }

  function BucketOf(hits: map<Key, seq<real>>, key: Key): seq<real> {
    if key in hits then hits[key] else []
  }

  /** A bucket holds the end of its key's accepted times; what was dropped is older
      than a window. */
  ghost predicate Remembers(limit: int, window: real, attempts: seq<Attempt>, hits: map<Key, seq<real>>) {
    forall key :: EndOf(Accepted(limit, window, attempts, key), BucketOf(hits, key), Cutoff(attempts, window))
  }

  /** Drops entries from the front while they are older than the window. */
  method DropOld(full: seq<real>, now: real, window: real) returns (bucket: seq<real>)
    ensures EndOf(full, bucket, now - window) && (bucket != [] ==> now - bucket[0] <= window)
  {
    bucket := full;
    while bucket != [] && now - bucket[0] > window
      invariant EndOf(full, bucket, now - window)
      decreases |bucket|
    {
      bucket := bucket[1..];
    }
  }

  /** The bucket of an attempt: what is left of it, and whether one more goes in. */
  method Slide(full: seq<real>, now: real, window: real, limit: int)
    returns (allowed: bool, bucket: seq<real>, ghost kept: seq<real>)
    ensures EndOf(full, kept, now - window) && (kept != [] ==> now - kept[0] <= window)
    ensures allowed <==> |kept| < limit
    ensures bucket == if |kept| < limit then kept + [now] else kept
  {
    bucket := DropOld(full, now, window);
    kept := bucket;
    allowed := |bucket| < limit;
    if allowed {
      bucket := bucket + [now];
    }
  }

  class MemoryRateLimiter {
    const limit: int
    const window: real
    var hits: map<Key, seq<real>>
    ghost var attempts: seq<Attempt>

    ghost predicate Valid()
      reads this
    {
      Monotonic(attempts) && Remembers(limit, window, attempts, hits)
    }

    constructor (limit: int, window: real)
      ensures Valid() && this.limit == limit && this.window == window && attempts == []
    {
      this.limit := limit;
      this.window := window;
      hits := map[];
      attempts := [];
    }

    /** One attempt: let through exactly when fewer than limit accepted attempts of the
        key lie in the closed window ending now. */
    method Hit(key: Key, now: real) returns (allowed: bool)
      requires Valid() && (attempts == [] || attempts[|attempts| - 1].now <= now)
      modifies this
      ensures Valid() && attempts == old(attempts) + [Attempt(key, now)]
      ensures allowed <==> CountIn(Accepted(limit, window, old(attempts), key), now - window, now) < limit
    {
      var bucket;
      ghost var kept;
      allowed, bucket, kept := Slide(BucketOf(hits, key), now, window, limit);
      Attempted(limit, window, attempts, attempts + [Attempt(key, now)], hits, key, now, kept, bucket);
      hits := hits[key := bucket];
      attempts := attempts + [Attempt(key, now)];
    }

    /** Forgets every attempt. */
    method Reset()
      requires Valid()
      modifies this
      ensures Valid() && attempts == []
    {
      hits := map[];
      attempts := [];
    }
  }

  /** A bucket without its old entries holds exactly the accepted times of the window. */
  lemma Expired(times: seq<real>, full: seq<real>, bucket: seq<real>, now: real, window: real)
    requires UpTo(times, now) && EndOf(times, full, now - window)
    requires EndOf(full, bucket, now - window) && (bucket != [] ==> now - bucket[0] <= window)
    ensures EndOf(times, bucket, now - window) && CountIn(times, now - window, now) == |bucket|
  {
    EndOfEnd(times, full, bucket, now - window);
    BucketIsWindow(times, bucket, now, window);
  }

  lemma StillRemembers(limit: int, window: real, attempts: seq<Attempt>, hits: map<Key, seq<real>>, key: Key, now: real)
    requires Monotonic(attempts) && Remembers(limit, window, attempts, hits)
    requires attempts == [] || attempts[|attempts| - 1].now <= now
    ensures EndOf(Accepted(limit, window, attempts, key), BucketOf(hits, key), now - window)
    ensures UpTo(Accepted(limit, window, attempts, key), now)
  {
    AcceptedInOrder(limit, window, attempts, key, now);
    EndOfLater(Accepted(limit, window, attempts, key), BucketOf(hits, key), Cutoff(attempts, window), now - window);
  }

  lemma EndOfEnd(times: seq<real>, middle: seq<real>, bucket: seq<real>, cutoff: real)
    requires EndOf(times, middle, cutoff) && EndOf(middle, bucket, cutoff)
    ensures EndOf(times, bucket, cutoff)
  {
    var k := |times| - |middle|;
    forall i | 0 <= i < |times| - |bucket|
      ensures times[i] < cutoff
    {
      if i >= k {
        assert times[i] == middle[i - k];
      }
    }
  }

  /** An attempt: kept is the bucket with the old entries dropped, bucket what it becomes. */
  lemma Attempted(limit: int, window: real, attempts: seq<Attempt>, all: seq<Attempt>, hits: map<Key, seq<real>>,
                  key: Key, now: real, kept: seq<real>, bucket: seq<real>)
    requires Monotonic(attempts) && Remembers(limit, window, attempts, hits) && all == attempts + [Attempt(key, now)]
    requires attempts == [] || attempts[|attempts| - 1].now <= now
    requires EndOf(BucketOf(hits, key), kept, now - window) && (kept != [] ==> now - kept[0] <= window)
    requires bucket == if |kept| < limit then kept + [now] else kept
    ensures CountIn(Accepted(limit, window, attempts, key), now - window, now) == |kept|
    ensures Monotonic(all) && Remembers(limit, window, all, hits[key := bucket])
  {
    var times := Accepted(limit, window, attempts, key);
    StillRemembers(limit, window, attempts, hits, key, now);
    Expired(times, BucketOf(hits, key), kept, now, window);
    NewBucket(limit, window, attempts, all, key, now, times, kept, bucket);
    MonotonicNext(attempts, Attempt(key, now));
    Remembered(limit, window, attempts, all, hits, key, now, bucket);
  }

  lemma NewBucket(limit: int, window: real, attempts: seq<Attempt>, all: seq<Attempt>, key: Key, now: real,
                  times: seq<real>, kept: seq<real>, bucket: seq<real>)
    requires all == attempts + [Attempt(key, now)] && times == Accepted(limit, window, attempts, key)
    requires EndOf(times, kept, now - window) && CountIn(times, now - window, now) == |kept|
    requires bucket == if |kept| < limit then kept + [now] else kept
    ensures EndOf(Accepted(limit, window, all, key), bucket, now - window)
  {
    var next := Accepted(limit, window, all, key);
    assert next == if |kept| < limit then times + [now] else times by {
      AcceptedNext(limit, window, attempts, Attempt(key, now), key);
    }
    Kept(times, next, kept, bucket, now - window, now, limit);
  }

  lemma Kept(times: seq<real>, next: seq<real>, kept: seq<real>, bucket: seq<real>, cutoff: real, now: real, limit: int)
    requires EndOf(times, kept, cutoff) && next == if |kept| < limit then times + [now] else times
    requires bucket == if |kept| < limit then kept + [now] else kept
    ensures EndOf(next, bucket, cutoff)
  {
    EndOfAppended(times, kept, cutoff, now);
  }

  lemma MonotonicNext(attempts: seq<Attempt>, a: Attempt)
    requires Monotonic(attempts) && (attempts == [] || attempts[|attempts| - 1].now <= a.now)
    ensures Monotonic(attempts + [a])
  {
  }

  /** The buckets after an attempt. */
  lemma Remembered(limit: int, window: real, attempts: seq<Attempt>, all: seq<Attempt>, hits: map<Key, seq<real>>,
                   key: Key,
                   now: real, bucket: seq<real>)
    requires Monotonic(attempts) && Remembers(limit, window, attempts, hits) && all == attempts + [Attempt(key, now)]
    requires attempts == [] || attempts[|attempts| - 1].now <= now
    requires EndOf(Accepted(limit, window, all, key), bucket, now - window)
    ensures Remembers(limit, window, all, hits[key := bucket])
  {
    forall k
      ensures EndOf(Accepted(limit, window, all, k), BucketOf(hits[key := bucket], k), Cutoff(all, window))
    {
      BucketUpdated(hits, key, bucket, k);
      if k != key {
        OthersUntouched(limit, window, attempts, key, now, k, BucketOf(hits, k));
      }
    }
  }

  lemma BucketUpdated(hits: map<Key, seq<real>>, key: Key, bucket: seq<real>, k: Key)
    ensures BucketOf(hits[key := bucket], k) == if k == key then bucket else BucketOf(hits, k)
  {
  }

  lemma AcceptedNext(limit: int, window: real, attempts: seq<Attempt>, a: Attempt, k: Key)
    ensures var times := Accepted(limit, window, attempts, k);
            Accepted(limit, window, attempts + [a], k) ==
            if a.key == k && CountIn(times, a.now - window, a.now) < limit then times + [a.now] else times
  {
    assert (attempts + [a])[..|attempts|] == attempts;
  }

  lemma EndOfAppended(times: seq<real>, bucket: seq<real>, cutoff: real, now: real)
    requires EndOf(times, bucket, cutoff)
    ensures EndOf(times + [now], bucket + [now], cutoff)
  {
  }

  lemma OthersUntouched(limit: int, window: real, attempts: seq<Attempt>, key: Key, now: real, k: Key,
                        bucket: seq<real>)
    requires Monotonic(attempts) && (attempts == [] || attempts[|attempts| - 1].now <= now) && k != key
    requires EndOf(Accepted(limit, window, attempts, k), bucket, Cutoff(attempts, window))
    ensures EndOf(Accepted(limit, window, attempts + [Attempt(key, now)], k), bucket, now - window)
  {
    AcceptedNext(limit, window, attempts, Attempt(key, now), k);
    AcceptedInOrder(limit, window, attempts, k, now);
    EndOfLater(Accepted(limit, window, attempts, k), bucket, Cutoff(attempts, window), now - window);
  }

  /** What is left of a bucket once old entries are dropped is what lies in the window. */
  lemma BucketIsWindow(times: seq<real>, bucket: seq<real>, now: real, window: real)
    requires EndOf(times, bucket, now - window)
    requires bucket != [] ==> now - bucket[0] <= window
    requires UpTo(times, now)
    ensures CountIn(times, now - window, now) == |bucket|
  {
    var k := |times| - |bucket|;
    assert times == times[..k] + times[k..];
    CountConcat(times[..k], times[k..], now - window, now);
    CountNone(times[..k], now - window, now);
    forall i | 0 <= i < |bucket|
      ensures now - window <= bucket[i] <= now
    {
      assert times[k] <= times[k + i];
    }
    CountAll(times[k..], now - window, now);
  }
}
