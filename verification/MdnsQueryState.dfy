/** The query schedule in the form of dns/mdnsd.c: fields of the daemon that loops over qlist and the cache change. */
module MdnsQueryState {
  import opened MdnsQuery

  class Daemon {
    var now: nat
    var checkqlist: nat
    var qlist: seq<Query>
    var cache: seq<Cached>

    ghost function State(): Schedule
      reads this
    {
      Schedule(now, checkqlist, qlist, cache)
    }

    constructor (now: nat)
      ensures State() == Start(now)
    {
      this.now, checkqlist, qlist, cache := now, 0, [], [];
    }

    /** _q_reset without its last line: the query starts over with what the cache knows. */
    method LeastNextTry(key: Key) returns (nexttry: nat)
      ensures nexttry == LeastTry(cache, key, 0, 0)
    {
      nexttry := 0;
      var i := 0;
      while i < |cache|
        invariant i <= |cache| && LeastTry(cache, key, 0, 0) == LeastTry(cache, key, i, nexttry)
        decreases |cache| - i
      {
        var cur := cache[i];
        if Answers(cur, key) && cur.ttl >= 7 && (nexttry == 0 || cur.ttl - 7 < nexttry) {
          nexttry := cur.ttl - 7;
        }
        i := i + 1;
      }
    }

    /** _q_reset for the query at `i`. */
    method ResetQuery(i: nat)
      requires i < |qlist|
      modifies this`qlist, this`checkqlist
      ensures qlist == old(qlist)[i := MdnsQuery.Reset(old(qlist)[i], cache)]
      ensures checkqlist == if 0 < qlist[i].nexttry < old(checkqlist) then qlist[i].nexttry else old(checkqlist)
    {
      var nexttry := LeastNextTry(qlist[i].key);
      qlist := qlist[i := qlist[i].(nexttry := nexttry, tries := 0)];
      if nexttry != 0 && nexttry < checkqlist {
        checkqlist := nexttry;
      }
    }

    /** _c_expire for the entries with the hash of `key`. */
    method ExpireEntries(key: Key)
      modifies this`cache
      ensures cache == Expire(old(cache), now, key)
    {
      var kept := [];
      var i := 0;
      assert cache[0..] == cache && [] + Expire(cache, now, key) == Expire(cache, now, key);
      while i < |cache|
        invariant i <= |cache| && kept + Expire(cache[i..], now, key) == Expire(cache, now, key)
        decreases |cache| - i
      {
        var cur := cache[i];
        assert cache[i..][1..] == cache[i + 1..];
        if !(cur.key.hash == key.hash && now >= cur.ttl) {
          assert kept + ([cur] + Expire(cache[i + 1..], now, key)) == (kept + [cur]) + Expire(cache[i + 1..], now, key);
          kept := kept + [cur];
        }
        i := i + 1;
      }
      assert kept + [] == kept;
      cache := kept;
    }

    /** The first loop of mdnsd_out over qlist: the questions of the message, and the next time of the other queries. */
    method AskDue() returns (asked: seq<Key>, nextbest: nat)
      ensures nextbest == NextBest(qlist, now, 0, 0)
      ensures forall key :: key in asked <==> exists q :: q in qlist && IsDue(q, now) && q.tries < 3 && q.key == key
    {
      asked, nextbest := [], 0;
      var i := 0;
      while i < |qlist|
        invariant i <= |qlist| && NextBest(qlist, now, 0, 0) == NextBest(qlist, now, i, nextbest)
        invariant
          forall key ::
            key in asked <==> exists q :: q in qlist[..i] && IsDue(q, now) && q.tries < 3 && q.key == key
        decreases |qlist| - i
      {
        var q := qlist[i];
        assert qlist[..i + 1] == qlist[..i] + [q];
        if q.nexttry > 0 && q.nexttry <= now && q.tries < 3 {
          asked := asked + [q.key];
        } else if q.nexttry > 0 && (nextbest == 0 || q.nexttry < nextbest) {
          nextbest := q.nexttry;
        }
        i := i + 1;
      }
      assert qlist[..i] == qlist;
    }

    /** The end of mdnsd_out: questions that are due, and the new timer. */
    method CheckQuestions() returns (asked: seq<Key>)
      modifies this
      ensures State() == Check(old(State()))
      ensures forall key :: key in asked <==> key in Asked(old(State()))
    {
      if checkqlist == 0 || now < checkqlist { return []; }
      var nextbest;
      asked, nextbest := AskDue();
      ghost var was := State();
      var i := 0;
      while i < |qlist|
        invariant i <= |qlist| && now == was.now
        invariant Check(was) == RetryAll(now, qlist, i, cache, nextbest)
        decreases |qlist| - i
      {
        var q := qlist[i];
        if q.nexttry != 0 && q.nexttry <= now {
          if q.tries == 3 {
            ExpireEntries(q.key);
            ResetQuery(i);
          } else {
            qlist := qlist[i := q.(nexttry := now + q.tries + 1, tries := q.tries + 1)];
            if nextbest == 0 || qlist[i].nexttry < nextbest {
              nextbest := qlist[i].nexttry;
            }
          }
        } else {
          assert qlist[i := q] == qlist;
        }
        i := i + 1;
      }
      checkqlist := nextbest;
    }

    /** mdnsd_query: a query that is not registered yet is due at once. */
    method AddQuery(key: Key)
      modifies this`qlist, this`checkqlist
      ensures
        if exists q :: q in old(qlist) && q.key == key then State() == old(State())
        else State() == NewQuery(old(State()), key)
    {
      var i := 0;
      while i < |qlist|
        invariant i <= |qlist| && forall j :: 0 <= j < i ==> qlist[j].key != key
        decreases |qlist| - i
      {
        if qlist[i].key == key {
          assert qlist[i] in qlist;
          return;
        }
        i := i + 1;
      }
      ghost var was := qlist;
      qlist := [Query(key, 0, 0)] + qlist;
      ResetQuery(0);
      qlist := qlist[0 := qlist[0].(nexttry := now)];
      checkqlist := now;
      assert qlist == [Query(key, now, 0)] + was;
    }
  }
}
