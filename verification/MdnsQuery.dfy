/**
  The query schedule of dns/mdnsd.c: when a query is sent again, and that the one
  timer `checkqlist` never lets a query be missed.
 */
module MdnsQuery {
  import opened Bytes

  // ---------------------------------------------------------------- state

  /** A name with its hash, and a type. */
  datatype Key = Key(name: bytes, hash: nat, rtype: nat)

  const TYPE_ANY := 255

  /** struct cached: `ttl` is the time at which the entry expires. */
  datatype Cached = Cached(key: Key, ttl: nat)

  /** struct query. */
  datatype Query = Query(key: Key, nexttry: nat, tries: nat)

  /** The fields of the daemon that the schedule depends on; `queries` is the list qlist. */
  datatype Schedule = Schedule(now: nat, checkqlist: nat, queries: seq<Query>, cache: seq<Cached>)

  /** _c_next. */
  predicate Answers(c: Cached, key: Key) {
    (key.rtype == c.key.rtype || key.rtype == TYPE_ANY) && c.key.name == key.name
  }

  /** The loop of _q_reset over the cache, from entry `i` on. */
  function LeastTry(cache: seq<Cached>, key: Key, i: nat, nexttry: nat): nat
    decreases if i < |cache| then |cache| - i else 0
  {
    if i >= |cache| then nexttry
    else if Answers(cache[i], key) && cache[i].ttl >= 7 && (nexttry == 0 || cache[i].ttl - 7 < nexttry)
    then LeastTry(cache, key, i + 1, cache[i].ttl - 7)
    else LeastTry(cache, key, i + 1, nexttry)
  }

  /** _q_reset, as far as the query is concerned. */
  function Reset(q: Query, cache: seq<Cached>): Query {
    q.(nexttry := LeastTry(cache, q.key, 0, 0), tries := 0)
  }

  /** _c_expire for the list of entries with the hash of `key`. */
  function Expire(cache: seq<Cached>, now: nat, key: Key): seq<Cached> {
    if cache == [] then []
    else if cache[0].key.hash == key.hash && now >= cache[0].ttl then Expire(cache[1..], now, key)
    else [cache[0]] + Expire(cache[1..], now, key)
  }

  // ---------------------------------------------------------------- steps

  predicate IsDue(q: Query, now: nat) {
    0 < q.nexttry <= now
  }

  /** The next time of the two, where 0 stands for never. */
  function Sooner(a: nat, b: nat): nat {
    if b == 0 || (a != 0 && a < b) then a else b
  }

  /** The first loop of mdnsd_out over qlist: the time of the queries that are not asked now. */
  function NextBest(queries: seq<Query>, now: nat, i: nat, best: nat): nat
    decreases if i < |queries| then |queries| - i else 0
  {
    if i >= |queries| then best
    else if IsDue(queries[i], now) && queries[i].tries < 3 then NextBest(queries, now, i + 1, best)
    else NextBest(queries, now, i + 1, Sooner(best, queries[i].nexttry))
  }

  /** The second loop: a query that is due is asked again, or starts over after three tries. */
  function Retry(q: Query, now: nat, cache: seq<Cached>): Query {
    if !IsDue(q, now) then q
    else if q.tries == 3 then Reset(q, Expire(cache, now, q.key))
    else q.(nexttry := now + q.tries + 1, tries := q.tries + 1)
  }

  function CacheAfter(q: Query, now: nat, cache: seq<Cached>): seq<Cached> {
    if IsDue(q, now) && q.tries == 3 then Expire(cache, now, q.key) else cache
  }

  function BestAfter(q: Query, now: nat, best: nat): nat {
    if IsDue(q, now) && q.tries != 3 then Sooner(best, now + q.tries + 1) else best
  }

  function RetryAll(now: nat, queries: seq<Query>, i: nat, cache: seq<Cached>, best: nat): Schedule
    requires i <= |queries|
    decreases |queries| - i
  {
    if i == |queries| then Schedule(now, best, queries, cache)
    else
      var q := queries[i];
      RetryAll(now, queries[i := Retry(q, now, cache)], i + 1, CacheAfter(q, now, cache), BestAfter(q, now, best))
  }

  /** What mdnsd_out does to the schedule once it gets to the questions. */
  function Check(s: Schedule): Schedule {
    if s.checkqlist == 0 || s.now < s.checkqlist then s
    else RetryAll(s.now, s.queries, 0, s.cache, NextBest(s.queries, s.now, 0, 0))
  }

  /** The questions that it puts into the message. */
  function Asked(s: Schedule): set<Key> {
    if s.checkqlist == 0 || s.now < s.checkqlist then {}
    else set q | q in s.queries && IsDue(q, s.now) && q.tries < 3 :: q.key
  }

  /** mdnsd_query for a name and type that are not registered. */
  function NewQuery(s: Schedule, key: Key): Schedule {
    s.(queries := [Query(key, s.now, 0)] + s.queries, checkqlist := s.now)
  }

  /** What changes the schedule. */
  datatype Step =
    | Clock(now: nat)                 // gettimeofday
    | Ask(key: Key)                   // mdnsd_query
    | Learn(key: Key, ttl: nat)       // _cache
    | Forget(cache: seq<Cached>)      // flushed, deleted or expired entries leave the cache
    | Questions                       // the end of mdnsd_out

  predicate CanStep(s: Schedule, step: Step) {
    match step
    case Clock(now) => s.now <= now
    case Ask(key) => forall q :: q in s.queries ==> q.key != key
    case Learn(_, ttl) => ttl > 0
    case Forget(cache) => forall c :: c in cache ==> c in s.cache
    case Questions => true
  }

  function Apply(s: Schedule, step: Step): Schedule {
    match step
    case Clock(now) => s.(now := now)
    case Ask(key) => NewQuery(s, key)
    case Learn(key, ttl) => s.(cache := [Cached(key, s.now + ttl / 2 + 8)] + s.cache)
    case Forget(cache) => s.(cache := cache)
    case Questions => Check(s)
  }

  // ---------------------------------------------------------------- nothing is missed

  /** The timer is set, and goes off no later than the query is due, or at once. */
  predicate Scheduled(checkqlist: nat, now: nat, q: Query) {
    q.nexttry > 0 ==> 0 < checkqlist && (checkqlist <= q.nexttry || checkqlist <= now)
  }

  ghost predicate Inv(s: Schedule) {
    && s.now > 0
    && (forall q :: q in s.queries ==> q.tries <= 3 && Scheduled(s.checkqlist, s.now, q))
    && forall c :: c in s.cache ==> c.ttl >= 8
  }

  lemma SoonerIsSooner(checkqlist: nat, t: nat, now: nat, q: Query)
    requires Scheduled(checkqlist, now, q)
    ensures Scheduled(Sooner(checkqlist, t), now, q)
  {
  }

  /** A query that the first loop leaves alone is scheduled by it. */
  lemma {:induction false} LeftAloneIsScheduled(queries: seq<Query>, now: nat, i: nat, best: nat, j: nat)
    requires i <= j < |queries| && !(IsDue(queries[j], now) && queries[j].tries < 3)
    ensures Scheduled(NextBest(queries, now, i, best), now, queries[j])
    decreases |queries| - i
  {
    var q := queries[i];
    var best' := if IsDue(q, now) && q.tries < 3 then best else Sooner(best, q.nexttry);
    if i == j {
      NextBestKeeps(queries, now, i + 1, best', q);
    } else {
      LeftAloneIsScheduled(queries, now, i + 1, best', j);
    }
  }

  lemma {:induction false} NextBestKeeps(queries: seq<Query>, now: nat, i: nat, best: nat, q: Query)
    requires Scheduled(best, now, q)
    ensures Scheduled(NextBest(queries, now, i, best), now, q)
    decreases if i < |queries| then |queries| - i else 0
  {
    if i < |queries| {
      var best' := if IsDue(queries[i], now) && queries[i].tries < 3 then best else Sooner(best, queries[i].nexttry);
      SoonerIsSooner(best, queries[i].nexttry, now, q);
      NextBestKeeps(queries, now, i + 1, best', q);
    }
  }

  ghost predicate GoodCache(cache: seq<Cached>) {
    forall c :: c in cache ==> c.ttl >= 8
  }

  lemma {:induction false} ExpireKeeps(cache: seq<Cached>, now: nat, key: Key)
    requires GoodCache(cache)
    ensures GoodCache(Expire(cache, now, key))
    decreases |cache|
  {
    if cache != [] {
      ExpireKeeps(cache[1..], now, key);
    }
  }

  /** What holds between two rounds of the second loop, with `i` queries done. */
  ghost predicate Halfway(now: nat, queries: seq<Query>, i: nat, cache: seq<Cached>, best: nat) {
    && now > 0 && i <= |queries| && GoodCache(cache)
    && (forall j :: 0 <= j < |queries| ==> queries[j].tries <= 3)
    && (forall j :: 0 <= j < i ==> Scheduled(best, now, queries[j]))
    && forall j ::
         i <= j < |queries| && !(IsDue(queries[j], now) && queries[j].tries < 3) ==> Scheduled(best, now, queries[j])
  }

  lemma HalfwayStep(now: nat, queries: seq<Query>, i: nat, cache: seq<Cached>, best: nat)
    requires Halfway(now, queries, i, cache, best) && i < |queries|
    ensures
      var q := queries[i];
      Halfway(now, queries[i := Retry(q, now, cache)], i + 1, CacheAfter(q, now, cache), BestAfter(q, now, best))
  {
    var q := queries[i];
    var best' := BestAfter(q, now, best);
    var queries' := queries[i := Retry(q, now, cache)];
    ExpireKeeps(cache, now, q.key);
    forall j | 0 <= j < |queries| && j != i && Scheduled(best, now, queries[j])
      ensures Scheduled(best', now, queries'[j]) {
      SoonerIsSooner(best, now + q.tries + 1, now, queries[j]);
    }
  }

  lemma {:induction false} RetryAllKeeps(now: nat, queries: seq<Query>, i: nat, cache: seq<Cached>, best: nat)
    requires Halfway(now, queries, i, cache, best)
    ensures Inv(RetryAll(now, queries, i, cache, best))
    decreases |queries| - i
  {
    if i < |queries| {
      var q := queries[i];
      HalfwayStep(now, queries, i, cache, best);
      RetryAllKeeps(now, queries[i := Retry(q, now, cache)], i + 1, CacheAfter(q, now, cache), BestAfter(q, now, best));
    }
  }

  lemma CheckKeeps(s: Schedule)
    requires Inv(s)
    ensures Inv(Check(s))
  {
    if s.checkqlist != 0 && s.checkqlist <= s.now {
      var best := NextBest(s.queries, s.now, 0, 0);
      forall j | 0 <= j < |s.queries| && !(IsDue(s.queries[j], s.now) && s.queries[j].tries < 3)
        ensures Scheduled(best, s.now, s.queries[j])
      {
        LeftAloneIsScheduled(s.queries, s.now, 0, 0, j);
      }
      assert forall j :: 0 <= j < |s.queries| ==> s.queries[j] in s.queries;
      RetryAllKeeps(s.now, s.queries, 0, s.cache, best);
    }
  }

  /** Every step keeps the schedule. */
  lemma StepKeeps(s: Schedule, step: Step)
    requires Inv(s) && CanStep(s, step)
    ensures Inv(Apply(s, step))
  {
    match step
    case Questions => CheckKeeps(s);
    case _ =>
  }

  // ---------------------------------------------------------------- whole runs

  function Run(s: Schedule, steps: seq<Step>): Schedule
    decreases |steps|
  {
    if steps == [] then s else Run(Apply(s, steps[0]), steps[1..])
  }

  predicate CanRun(s: Schedule, steps: seq<Step>)
    decreases |steps|
  {
    steps == [] || (CanStep(s, steps[0]) && CanRun(Apply(s, steps[0]), steps[1..]))
  }

  /** mdnsd_new. */
  function Start(now: nat): Schedule {
    Schedule(now, 0, [], [])
  }

  /**
    No query is missed: whatever happens, in every state that is reached each
    query with a next time is covered by the timer, and one that is due and has
    been asked less than three times is asked as soon as the daemon gets to its
    questions.
   */
  lemma {:induction false} NothingMissed(s: Schedule, steps: seq<Step>, q: Query)
    requires Inv(s) && CanRun(s, steps) && q in Run(s, steps).queries
    ensures Inv(Run(s, steps)) && Scheduled(Run(s, steps).checkqlist, Run(s, steps).now, q)
    ensures IsDue(q, Run(s, steps).now) && q.tries < 3 ==> q.key in Asked(Run(s, steps))
    decreases |steps|
  {
    if steps != [] {
      StepKeeps(s, steps[0]);
      NothingMissed(Apply(s, steps[0]), steps[1..], q);
    }
  }

  // ---------------------------------------------------------------- at most three times

  predicate Fires(s: Schedule) {
    s.checkqlist != 0 && s.checkqlist <= s.now
  }

  predicate DueKey(s: Schedule, key: Key) {
    exists q :: q in s.queries && q.key == key && IsDue(q, s.now)
  }

  /** How often `key` has been asked since it last started over, when it was `n` times before the steps. */
  function SentSince(s: Schedule, steps: seq<Step>, key: Key, n: nat): nat
    decreases |steps|
  {
    if steps == [] then n
    else
      var n' :=
        if steps[0] == Questions && key in Asked(s) then n + 1
        else if steps[0] == Questions && Fires(s) && DueKey(s, key) then 0
        else n;
      SentSince(Apply(s, steps[0]), steps[1..], key, n')
  }

  ghost predicate Unique(queries: seq<Query>) {
    forall i, j :: 0 <= i < j < |queries| ==> queries[i].key != queries[j].key
  }

  /** A daemon that has just been made meets what the laws of whole runs ask for. */
  lemma StartIsGood(now: nat)
    requires now > 0
    ensures Inv(Start(now)) && Unique(Start(now).queries)
  {
  }

  /** The tries of the query for `key`. */
  function Tries(queries: seq<Query>, key: Key): nat
    decreases |queries|
  {
    if queries == [] then 0 else if queries[0].key == key then queries[0].tries else Tries(queries[1..], key)
  }

  lemma {:induction false} TriesAt(queries: seq<Query>, j: nat)
    requires Unique(queries) && j < |queries|
    ensures Tries(queries, queries[j].key) == queries[j].tries
    decreases |queries|
  {
    if j > 0 {
      TriesAt(queries[1..], j - 1);
    }
  }

  lemma {:induction false} TriesNone(queries: seq<Query>, key: Key)
    requires forall q :: q in queries ==> q.key != key
    ensures Tries(queries, key) == 0
    decreases |queries|
  {
    if queries != [] {
      TriesNone(queries[1..], key);
    }
  }

  function NewTries(q: Query, now: nat): nat {
    if !IsDue(q, now) then q.tries else if q.tries == 3 then 0 else q.tries + 1
  }

  /** The second loop, query by query. */
  lemma {:induction false} RetryAllTries(now: nat, queries: seq<Query>, i: nat, cache: seq<Cached>, best: nat, j: nat)
    requires i <= |queries| && j < |queries|
    ensures
      var r := RetryAll(now, queries, i, cache, best);
      && |r.queries| == |queries| && r.queries[j].key == queries[j].key
      && r.queries[j].tries == if j < i then queries[j].tries else NewTries(queries[j], now)
    decreases |queries| - i
  {
    if i < |queries| {
      var q := queries[i];
      RetryAllTries(
        now, queries[i := Retry(q, now, cache)], i + 1, CacheAfter(q, now, cache), BestAfter(q, now, best), j);
    }
  }

  lemma {:induction false} RetryAllLength(now: nat, queries: seq<Query>, i: nat, cache: seq<Cached>, best: nat)
    requires i <= |queries|
    ensures |RetryAll(now, queries, i, cache, best).queries| == |queries|
    decreases |queries| - i
  {
    if i < |queries| {
      var q := queries[i];
      RetryAllLength(
        now, queries[i := Retry(q, now, cache)], i + 1, CacheAfter(q, now, cache), BestAfter(q, now, best));
    }
  }

  lemma CheckUnique(s: Schedule)
    requires Unique(s.queries)
    ensures Unique(Check(s).queries) && |Check(s).queries| == |s.queries|
    ensures forall j :: 0 <= j < |s.queries| ==> Check(s).queries[j].key == s.queries[j].key
  {
    if Fires(s) {
      var best := NextBest(s.queries, s.now, 0, 0);
      RetryAllLength(s.now, s.queries, 0, s.cache, best);
      forall j | 0 <= j < |s.queries| ensures Check(s).queries[j].key == s.queries[j].key {
        RetryAllTries(s.now, s.queries, 0, s.cache, best, j);
      }
    }
  }

  lemma StepUnique(s: Schedule, step: Step)
    requires Unique(s.queries) && CanStep(s, step)
    ensures Unique(Apply(s, step).queries)
  {
    match step
    case Questions => CheckUnique(s);
    case Ask(key) =>
      var queries := Apply(s, step).queries;
      forall i, j | 0 <= i < j < |queries| ensures queries[i].key != queries[j].key {
        assert s.queries[j - 1] in s.queries;
      }
    case _ =>
  }

  /** One step counts as `SentSince` says. */
  lemma StepTries(s: Schedule, step: Step, key: Key)
    requires Inv(s) && Unique(s.queries) && CanStep(s, step)
    ensures
      Tries(Apply(s, step).queries, key)
      == if step == Questions && key in Asked(s) then Tries(s.queries, key) + 1
         else if step == Questions && Fires(s) && DueKey(s, key) then 0
         else Tries(s.queries, key)
  {
    match step
    case Ask(k) =>
      if k == key {
        TriesNone(s.queries, key);
      }
    case Questions =>
      if Fires(s) {
        CheckTries(s, key);
      }
    case _ =>
  }

  lemma CheckTries(s: Schedule, key: Key)
    requires Inv(s) && Unique(s.queries) && Fires(s)
    ensures
      Tries(Check(s).queries, key)
      == if key in Asked(s) then Tries(s.queries, key) + 1 else if DueKey(s, key) then 0 else Tries(s.queries, key)
  {
    CheckUnique(s);
    if q :| q in s.queries && q.key == key {
      var j :| 0 <= j < |s.queries| && s.queries[j] == q;
      forall q' | q' in s.queries && q'.key == key ensures q' == q {
        var j' :| 0 <= j' < |s.queries| && s.queries[j'] == q';
        assert !(j < j') && !(j' < j);
      }
      RetryAllTries(s.now, s.queries, 0, s.cache, NextBest(s.queries, s.now, 0, 0), j);
      TriesAt(s.queries, j);
      TriesAt(Check(s).queries, j);
    } else {
      TriesNone(s.queries, key);
      forall q | q in Check(s).queries ensures q.key != key {
        var j :| 0 <= j < |s.queries| && Check(s).queries[j] == q;
        assert s.queries[j] in s.queries;
      }
      TriesNone(Check(s).queries, key);
    }
  }

  /** In every run, a query is asked at most three times before it starts over with what the cache knows. */
  lemma {:induction false} AtMostThree(s: Schedule, steps: seq<Step>, key: Key)
    requires Inv(s) && Unique(s.queries) && CanRun(s, steps)
    ensures SentSince(s, steps, key, Tries(s.queries, key)) == Tries(Run(s, steps).queries, key) <= 3
    decreases |steps|
  {
    if steps == [] {
      TriesBound(s.queries, key);
    } else {
      StepKeeps(s, steps[0]);
      StepUnique(s, steps[0]);
      StepTries(s, steps[0], key);
      AtMostThree(Apply(s, steps[0]), steps[1..], key);
    }
  }

  lemma {:induction false} TriesBound(queries: seq<Query>, key: Key)
    requires forall q :: q in queries ==> q.tries <= 3
    ensures Tries(queries, key) <= 3
    decreases |queries|
  {
    if queries != [] {
      TriesBound(queries[1..], key);
    }
  }

  // ---------------------------------------------------------------- starting over

  /** `n` is 0 if there is no answer in the cache, and else the least time of expiry minus 7. */
  ghost predicate IsLeastTry(cache: seq<Cached>, key: Key, i: nat, n: nat) {
    && (n == 0 <==> forall j :: i <= j < |cache| ==> !Answers(cache[j], key))
    && (n != 0 ==> exists j :: i <= j < |cache| && Answers(cache[j], key) && n == cache[j].ttl - 7)
    && forall j :: i <= j < |cache| && Answers(cache[j], key) ==> n <= cache[j].ttl - 7
  }

  lemma {:induction false} LeastTryFrom(cache: seq<Cached>, key: Key, i: nat, n: nat)
    requires GoodCache(cache) && i <= |cache|
    ensures
      var r := LeastTry(cache, key, i, n);
      if n == 0 then IsLeastTry(cache, key, i, r)
      else
        && 0 < r <= n && (r == n || exists j :: i <= j < |cache| && Answers(cache[j], key) && r == cache[j].ttl - 7)
        && forall j :: i <= j < |cache| && Answers(cache[j], key) ==> r <= cache[j].ttl - 7
    decreases |cache| - i
  {
    if i < |cache| {
      assert cache[i] in cache;
      if Answers(cache[i], key) && (n == 0 || cache[i].ttl - 7 < n) {
        LeastTryFrom(cache, key, i + 1, cache[i].ttl - 7);
      } else {
        LeastTryFrom(cache, key, i + 1, n);
      }
    }
  }

  /** _q_reset: the next time is 7 seconds before the first cached answer expires. */
  lemma ResetIsLeast(q: Query, cache: seq<Cached>)
    requires GoodCache(cache)
    ensures IsLeastTry(cache, q.key, 0, Reset(q, cache).nexttry) && Reset(q, cache).tries == 0
  {
    LeastTryFrom(cache, q.key, 0, 0);
  }
}
