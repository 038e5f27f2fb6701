/**
  What a look at the questions does, entry by entry and query by query: which entries
  leave the cache, when a query is asked again, and what the timer is set to.
 */
module MdnsQueryLaws {
  import opened MdnsQuery

  // ---------------------------------------------------------------- the cache

  /** `a` is `b` with some entries left out. */
  ghost predicate Subsequence(a: seq<Cached>, b: seq<Cached>)
    decreases |b|
  {
    a == [] || (b != [] && ((a[0] == b[0] && Subsequence(a[1..], b[1..])) || Subsequence(a, b[1..])))
  }

  lemma {:induction false} SubsequenceTrans(a: seq<Cached>, b: seq<Cached>, c: seq<Cached>)
    requires Subsequence(a, b) && Subsequence(b, c)
    ensures Subsequence(a, c)
    decreases |b| + |c|
  {
    if a != [] {
      if b[0] == c[0] && Subsequence(b[1..], c[1..]) {
        if a[0] == b[0] && Subsequence(a[1..], b[1..]) {
          SubsequenceTrans(a[1..], b[1..], c[1..]);
        } else {
          SubsequenceTrans(a, b[1..], c[1..]);
        }
      } else {
        SubsequenceTrans(a, b, c[1..]);
      }
    }
  }

  lemma {:induction false} SubsequenceSame(a: seq<Cached>)
    ensures Subsequence(a, a)
    decreases |a|
  {
    if a != [] {
      SubsequenceSame(a[1..]);
    }
  }

  /** _c_expire takes every expired entry of the hash list out, and no other one, and keeps the order. */
  lemma {:induction false} ExpireExact(cache: seq<Cached>, now: nat, key: Key)
    ensures Subsequence(Expire(cache, now, key), cache)
    ensures
      forall c ::
        multiset(Expire(cache, now, key))[c]
        == if c.key.hash == key.hash && c.ttl <= now then 0 else multiset(cache)[c]
    decreases |cache|
  {
    if cache != [] {
      ExpireExact(cache[1..], now, key);
      assert cache == [cache[0]] + cache[1..];
      SubsequenceSame(cache[1..]);
      SubsequenceTrans(Expire(cache[1..], now, key), cache[1..], cache);
    }
  }

  /** A query with this hash, from number `i` on, is due and has been asked three times. */
  ghost predicate StartsOver(queries: seq<Query>, i: nat, now: nat, hash: nat) {
    exists j ::
      i <= j < |queries| && 0 < queries[j].nexttry <= now && queries[j].tries == 3 && queries[j].key.hash == hash
  }

  /** `cache'` is `cache` without the expired entries in the hash lists of queries that start over. */
  ghost predicate CacheLeft(queries: seq<Query>, i: nat, now: nat, cache: seq<Cached>, cache': seq<Cached>) {
    && Subsequence(cache', cache)
    && forall c ::
         multiset(cache')[c]
         == if c.ttl <= now && StartsOver(queries, i, now, c.key.hash) then 0 else multiset(cache)[c]
  }

  lemma CacheLeftStep(
    now: nat, queries: seq<Query>, i: nat, queries': seq<Query>, cache: seq<Cached>, cache': seq<Cached>)
    requires i < |queries| && |queries'| == |queries| && forall j :: i < j < |queries| ==> queries'[j] == queries[j]
    requires CacheLeft(queries', i + 1, now, CacheAfter(queries[i], now, cache), cache')
    ensures CacheLeft(queries, i, now, cache, cache')
  {
    var q := queries[i];
    ExpireExact(cache, now, q.key);
    SubsequenceSame(cache);
    SubsequenceTrans(cache', CacheAfter(q, now, cache), cache);
    forall hash ensures
      StartsOver(queries, i, now, hash)
      <==> (0 < q.nexttry <= now && q.tries == 3 && q.key.hash == hash) || StartsOver(queries', i + 1, now, hash)
    {
    }
  }

  lemma {:induction false} RetryAllCache(now: nat, queries: seq<Query>, i: nat, cache: seq<Cached>, best: nat)
    requires i <= |queries|
    ensures CacheLeft(queries, i, now, cache, RetryAll(now, queries, i, cache, best).cache)
    decreases |queries| - i
  {
    if i == |queries| {
      SubsequenceSame(cache);
    } else {
      var q := queries[i];
      var queries' := queries[i := Retry(q, now, cache)];
      RetryAllCache(now, queries', i + 1, CacheAfter(q, now, cache), BestAfter(q, now, best));
      CacheLeftStep(
        now, queries, i, queries', cache,
        RetryAll(now, queries', i + 1, CacheAfter(q, now, cache), BestAfter(q, now, best)).cache);
    }
  }

  /** The cache after a look at the questions. */
  lemma CheckCache(s: Schedule)
    ensures
      if s.checkqlist != 0 && s.checkqlist <= s.now then CacheLeft(s.queries, 0, s.now, s.cache, Check(s).cache)
      else Check(s) == s
  {
    if s.checkqlist != 0 && s.checkqlist <= s.now {
      RetryAllCache(s.now, s.queries, 0, s.cache, NextBest(s.queries, s.now, 0, 0));
    }
  }

  // ---------------------------------------------------------------- one query

  /** An entry that has not expired answers a question for `key`. */
  predicate Known(c: Cached, now: nat, key: Key) {
    c.ttl > now && c.key.name == key.name && (key.rtype == 255 || key.rtype == c.key.rtype)
  }

  /** `n` is seven seconds before the first entry that answers `key` expires, or 0 if there is none. */
  ghost predicate IsRefresh(cache: seq<Cached>, now: nat, key: Key, n: nat) {
    && (n == 0 <==> forall c :: c in cache ==> !Known(c, now, key))
    && (n != 0 ==> exists c :: c in cache && Known(c, now, key) && n == c.ttl - 7)
    && forall c :: c in cache && Known(c, now, key) ==> n <= c.ttl - 7
  }

  /** Entries with the name of `key` are in its hash list. */
  ghost predicate Hashed(cache: seq<Cached>, key: Key) {
    forall c :: c in cache && c.key.name == key.name ==> c.key.hash == key.hash
  }

  /** Two caches with the same entries, except for expired ones. */
  ghost predicate SameKnown(cache: seq<Cached>, cache': seq<Cached>, now: nat) {
    && (forall c :: c in cache' ==> c in cache)
    && forall c :: c in cache && c.ttl > now ==> c in cache'
  }

  lemma CacheLeftKnown(queries: seq<Query>, i: nat, now: nat, cache: seq<Cached>, cache': seq<Cached>)
    requires CacheLeft(queries, i, now, cache, cache')
    ensures SameKnown(cache, cache', now)
  {
    forall c | c in cache' ensures c in cache {
      assert multiset(cache')[c] > 0;
    }
    forall c | c in cache && c.ttl > now ensures c in cache' {
      assert multiset(cache)[c] > 0;
    }
  }

  lemma ExpireKnown(cache: seq<Cached>, now: nat, key: Key)
    requires Hashed(cache, key)
    ensures SameKnown(cache, Expire(cache, now, key), now)
    ensures forall c :: c in Expire(cache, now, key) && Answers(c, key) ==> Known(c, now, key)
  {
    ExpireExact(cache, now, key);
    var left := Expire(cache, now, key);
    forall c | c in left ensures c in cache && (Answers(c, key) ==> Known(c, now, key)) {
      assert multiset(left)[c] > 0;
    }
    forall c | c in cache && c.ttl > now ensures c in left {
      assert multiset(cache)[c] > 0;
    }
  }

  /** The query is handled once, with a cache that knows the same. */
  lemma {:induction false} RetryAllQuery(
    now: nat, queries: seq<Query>, i: nat, cache: seq<Cached>, best: nat, j: nat) returns (known: seq<Cached>)
    requires i <= j < |queries|
    ensures
      var r := RetryAll(now, queries, i, cache, best);
      |r.queries| == |queries| && r.queries[j] == Retry(queries[j], now, known)
    ensures SameKnown(cache, known, now)
    decreases |queries| - i
  {
    var q := queries[i];
    var queries' := queries[i := Retry(q, now, cache)];
    var cache', best' := CacheAfter(q, now, cache), BestAfter(q, now, best);
    if i == j {
      known := cache;
      RetryAllDone(now, queries', i + 1, cache', best', i);
    } else {
      known := RetryAllQuery(now, queries', i + 1, cache', best', j);
      ExpireExact(cache, now, q.key);
      CacheLeftKnownStep(q, now, cache);
    }
  }

  lemma CacheLeftKnownStep(q: Query, now: nat, cache: seq<Cached>)
    ensures SameKnown(cache, CacheAfter(q, now, cache), now)
  {
    SubsequenceSame(CacheAfter(q, now, cache));
    CacheLeftStep(now, [q], 0, [q], cache, CacheAfter(q, now, cache));
    CacheLeftKnown([q], 0, now, cache, CacheAfter(q, now, cache));
  }

  lemma {:induction false} RetryAllDone(
    now: nat, queries: seq<Query>, i: nat, cache: seq<Cached>, best: nat, j: nat)
    requires j < i <= |queries|
    ensures
      var r := RetryAll(now, queries, i, cache, best);
      |r.queries| == |queries| && r.queries[j] == queries[j]
    decreases |queries| - i
  {
    if i < |queries| {
      var q := queries[i];
      RetryAllDone(
        now, queries[i := Retry(q, now, cache)], i + 1, CacheAfter(q, now, cache), BestAfter(q, now, best), j);
    }
  }

  lemma ResetRefreshes(q: Query, now: nat, cache: seq<Cached>, known: seq<Cached>)
    requires GoodCache(cache) && Hashed(cache, q.key) && SameKnown(cache, known, now)
    ensures
      var q' := MdnsQuery.Reset(q, Expire(known, now, q.key));
      q'.key == q.key && q'.tries == 0 && IsRefresh(cache, now, q.key, q'.nexttry)
  {
    var left := Expire(known, now, q.key);
    ExpireKnown(known, now, q.key);
    ResetIsLeast(q, left);
    var n := MdnsQuery.Reset(q, left).nexttry;
    forall c | c in cache && Known(c, now, q.key) ensures c in left && n != 0 && n <= c.ttl - 7 {
      var k :| 0 <= k < |left| && left[k] == c;
      assert Answers(left[k], q.key);
    }
    if n != 0 {
      var k :| 0 <= k < |left| && Answers(left[k], q.key) && n == left[k].ttl - 7;
      assert left[k] in left && left[k] in cache && Known(left[k], now, q.key);
    }
  }

  /**
    A query that is not due is left alone. One that is due is asked, and waits one, two
    and three seconds for the next time; after three times it starts over, seven seconds
    before the first answer that is known expires.
   */
  lemma CheckQuery(s: Schedule, j: nat)
    requires s.checkqlist != 0 && s.checkqlist <= s.now && j < |s.queries|
    requires GoodCache(s.cache) && Hashed(s.cache, s.queries[j].key)
    ensures |Check(s).queries| == |s.queries|
    ensures
      var q, q' := s.queries[j], Check(s).queries[j];
      && q'.key == q.key
      && if q.nexttry == 0 || q.nexttry > s.now then q' == q
         else if q.tries == 3 then q'.tries == 0 && IsRefresh(s.cache, s.now, q.key, q'.nexttry)
         else q'.tries == q.tries + 1 && q'.nexttry == s.now + q'.tries
  {
    var known := RetryAllQuery(s.now, s.queries, 0, s.cache, NextBest(s.queries, s.now, 0, 0), j);
    var q := s.queries[j];
    if 0 < q.nexttry <= s.now && q.tries == 3 {
      ResetRefreshes(q, s.now, s.cache, known);
    }
  }

  /** The questions that are asked are those of the queries that are due and were asked less than three times. */
  lemma AskedExact(s: Schedule, j: nat)
    requires s.checkqlist != 0 && s.checkqlist <= s.now && j < |s.queries| && Unique(s.queries)
    ensures
      var q := s.queries[j];
      q.key in Asked(s) <==> 0 < q.nexttry <= s.now && q.tries < 3
  {
    var q := s.queries[j];
    assert q in s.queries;
    if q.key in Asked(s) {
      var q' :| q' in s.queries && IsDue(q', s.now) && q'.tries < 3 && q'.key == q.key;
      var k :| 0 <= k < |s.queries| && s.queries[k] == q';
      assert !(j < k) && !(k < j);
    }
  }

  // ---------------------------------------------------------------- the timer

  /** The next time of a query, as the timer sees it: one that starts over is looked at again at once. */
  function NextLook(q: Query, now: nat): nat {
    if 0 < q.nexttry <= now && q.tries != 3 then now + q.tries + 1 else q.nexttry
  }

  /** `n` is the least of the times that are set, and 0 if none is. */
  ghost predicate IsSoonest(times: seq<nat>, n: nat) {
    && (n == 0 <==> forall k :: 0 <= k < |times| ==> times[k] == 0)
    && (n != 0 ==> n in times)
    && forall k :: 0 <= k < |times| && times[k] != 0 ==> n <= times[k]
  }

  function Looks(queries: seq<Query>, now: nat): (times: seq<nat>)
    ensures |times| == |queries| && forall k :: 0 <= k < |queries| ==> times[k] == NextLook(queries[k], now)
  {
    seq(|queries|, k requires 0 <= k < |queries| => NextLook(queries[k], now))
  }

  /** What the two loops have seen of the times: all of those before `i`, and of the others those that are not asked. */
  ghost predicate SeenSo(times: seq<nat>, queries: seq<Query>, now: nat, i: nat, best: nat) {
    && |times| == |queries|
    && (best != 0 ==> best in times)
    && (forall k :: 0 <= k < |times| && times[k] != 0 && (k < i || !(IsDue(queries[k], now) && queries[k].tries < 3))
          ==> 0 < best <= times[k])
  }

  lemma {:induction false} NextBestSees(times: seq<nat>, queries: seq<Query>, now: nat, i: nat, best: nat)
    requires i <= |queries| && |times| == |queries| && (best != 0 ==> best in times)
    requires forall k :: 0 <= k < |queries| ==> queries[k].tries <= 3 && times[k] == NextLook(queries[k], now)
    requires
      forall k :: 0 <= k < i && times[k] != 0 && !(IsDue(queries[k], now) && queries[k].tries < 3) ==>
        0 < best <= times[k]
    ensures SeenSo(times, queries, now, 0, NextBest(queries, now, i, best))
    decreases |queries| - i
  {
    if i < |queries| {
      var q := queries[i];
      var best' := if IsDue(q, now) && q.tries < 3 then best else Sooner(best, q.nexttry);
      assert times[i] in times;
      NextBestSees(times, queries, now, i + 1, best');
    }
  }

  lemma {:induction false} RetryAllTimer(
    times: seq<nat>, now: nat, queries: seq<Query>, i: nat, cache: seq<Cached>, best: nat)
    requires i <= |queries| && SeenSo(times, queries, now, i, best)
    requires forall k :: i <= k < |queries| ==> queries[k].tries <= 3 && times[k] == NextLook(queries[k], now)
    ensures IsSoonest(times, RetryAll(now, queries, i, cache, best).checkqlist)
    decreases |queries| - i
  {
    if i < |queries| {
      var q := queries[i];
      var queries', best' := queries[i := Retry(q, now, cache)], BestAfter(q, now, best);
      assert times[i] in times;
      assert SeenSo(times, queries', now, i + 1, best');
      RetryAllTimer(times, now, queries', i + 1, CacheAfter(q, now, cache), best');
    }
  }

  /** The timer is set to the first of these times. */
  lemma CheckTimer(s: Schedule)
    requires s.checkqlist != 0 && s.checkqlist <= s.now && forall q :: q in s.queries ==> q.tries <= 3
    ensures IsSoonest(Looks(s.queries, s.now), Check(s).checkqlist)
  {
    var times := Looks(s.queries, s.now);
    NextBestSees(times, s.queries, s.now, 0, 0);
    RetryAllTimer(times, s.now, s.queries, 0, s.cache, NextBest(s.queries, s.now, 0, 0));
  }

  // ---------------------------------------------------------------- asking and learning

  /** A new query is asked by the next look, at the same clock. */
  lemma AskedAtOnce(s: Schedule, key: Key)
    requires s.now > 0 && CanStep(s, Ask(key))
    ensures key in Asked(Apply(s, Ask(key)))
    ensures Apply(s, Ask(key)).cache == s.cache && Apply(s, Ask(key)).queries[1..] == s.queries
  {
    assert Query(key, s.now, 0) in Apply(s, Ask(key)).queries;
  }

  /**
    An answer that has just been learned is asked for again one second after half of
    its time to live, if it is the only one that is known, and no later if there are others.
   */
  lemma LearnedIsRefreshed(s: Schedule, q: Query, learned: Key, ttl: nat)
    requires GoodCache(s.cache) && learned.name == q.key.name && learned.rtype == q.key.rtype
    ensures
      var n := MdnsQuery.Reset(q, Apply(s, Learn(learned, ttl)).cache).nexttry;
      && 0 < n <= s.now + ttl / 2 + 1
      && ((forall c :: c in s.cache ==> c.key.name != q.key.name) ==> n == s.now + ttl / 2 + 1)
  {
    var cache := Apply(s, Learn(learned, ttl)).cache;
    assert Answers(cache[0], q.key);
    ResetIsLeast(q, cache);
    forall k | 0 < k < |cache| ensures cache[k] in s.cache {
      assert cache[k] == s.cache[k - 1];
    }
  }
}
