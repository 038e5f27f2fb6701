/**
  Probing and announcing in the form of dns/mdnsd.c: the lists of the daemon are
  walked and relinked in loops, and the counters of records change in place.
 */
module MdnsProbeState {
  import opened MdnsProbe

  /** Sending one more record of a list. */
  lemma FreedStep(recs: map<Id, Rec>, sent: seq<Id>, id: Id)
    requires id in recs && id !in sent
    ensures Freed(recs, sent + [id]) == if recs[id].gone then Freed(recs, sent) - {id} else Freed(recs, sent)
  {
  }

  lemma TriedStep(recs: map<Id, Rec>, sent: seq<Id>, id: Id)
    requires id in recs && id !in sent
    ensures Tried(recs, sent + [id]) == Tried(recs, sent)[id := recs[id].(tries := recs[id].tries + 1)]
  {
  }

  /** Which records stay on the list does not depend on the others. */
  lemma {:induction false} KeptDepends(recs: map<Id, Rec>, recs': map<Id, Rec>, sent: seq<Id>)
    requires forall id :: id in sent ==> id in recs && id in recs' && recs[id] == recs'[id]
    ensures Kept(recs, sent) == Kept(recs', sent)
    decreases |sent|
  {
    if sent != [] {
      assert sent[0] in sent;
      KeptDepends(recs, recs', sent[1..]);
    }
  }

  lemma {:induction false} KeptAppend(recs: map<Id, Rec>, sent: seq<Id>, id: Id)
    requires id in recs
    ensures Kept(recs, sent + [id]) == Kept(recs, sent) + if !recs[id].gone && recs[id].tries < 4 then [id] else []
    decreases |sent|
  {
    if sent != [] {
      assert (sent + [id])[1..] == sent[1..] + [id];
      KeptAppend(recs, sent[1..], id);
    } else {
      assert sent + [id] == [id] && [id][1..] == [];
    }
  }

  lemma CheckedStep(recs: map<Id, Rec>, done: seq<Id>, id: Id)
    requires id in recs && id !in done
    ensures Checked(recs, done + [id]) == Checked(recs, done)[id := recs[id].(unique := recs[id].unique + 1)]
  {
  }

  /** The next record of a list of which `sent` has been sent. */
  lemma HeadIsNew(list: seq<Id>, sent: seq<Id>, rest: seq<Id>)
    requires NoDup(list) && sent + rest == list && rest != []
    ensures rest[0] in list && rest[0] !in sent && (sent + [rest[0]]) + rest[1..] == list
    ensures forall id :: id in sent ==> id in list
  {
    assert list[|sent|] == rest[0];
    assert forall i :: 0 <= i < |sent| ==> sent[i] == list[i];
  }

  lemma IsPrefix(list: seq<Id>, sent: seq<Id>, rest: seq<Id>, room: nat)
    requires sent + rest == list && |sent| <= room && (rest == [] || |sent| == room)
    ensures sent == Prefix(list, room) && rest == Rest(list, room)
  {
    assert list[..|sent|] == sent && list[|sent|..] == rest;
  }

  class Mdnsd {
    var recs: map<Id, Rec>
    var probing: seq<Id>
    var aNow: seq<Id>
    var aPause: seq<Id>
    var aPublish: seq<Id>
    var now: nat
    var probe: nat
    var publish: nat
    var pause: nat

    ghost function State(): Daemon
      reads this
    {
      Daemon(recs, probing, aNow, aPause, aPublish, now, probe, publish, pause)
    }

    constructor ()
      ensures State() == START.d
    {
      recs, probing, aNow, aPause, aPublish := map[], [], [], [], [];
      now, probe, publish, pause := 0, 0, 0, 0;
    }

    /** _r_push. */
    static method RPush(list: seq<Id>, id: Id) returns (list': seq<Id>)
      ensures list' == Push(list, id)
    {
      var i := 0;
      while i < |list|
        invariant i <= |list| && id !in list[..i]
        decreases |list| - i
      {
        if list[i] == id { return list; }
        assert list[..i + 1] == list[..i] + [list[i]];
        i := i + 1;
      }
      assert list[..i] == list;
      list' := [id] + list;
    }

    /** _r_publish. */
    method RPublish(id: Id)
      requires id in recs
      modifies this
      ensures State() == Publish(old(State()), id)
    {
      var r := recs[id];
      if r.unique != 0 && r.unique < 5 { return; }
      recs := recs[id := r.(tries := 0)];
      publish := now;
      aPublish := RPush(aPublish, id);
    }

    /** _r_send. */
    method RSend(id: Id)
      requires id in recs
      modifies this
      ensures State() == Send(old(State()), id)
    {
      if recs[id].tries < 4 {
        publish := now;
        return;
      }
      if recs[id].unique != 0 {
        aNow := RPush(aNow, id);
        return;
      }
      pause := now + now % 100 + 20;
      aPause := RPush(aPause, id);
    }

    /** mdnsd_done. */
    method RemoveRecord(id: Id)
      requires id in recs && Inv(State())
      modifies this
      ensures State() == Done(old(State()), id)
    {
      var r := recs[id];
      if r.unique != 0 && r.unique < 5 {
        probing := UnlinkLoop(probing, id);
        recs := recs - {id};
        return;
      }
      recs := recs[id := r.(gone := true)];
      RSend(id);
    }

    static method UnlinkLoop(list: seq<Id>, id: Id) returns (list': seq<Id>)
      requires id in list
      ensures list' == Unlink(list, id)
    {
      var i := 0;
      assert list[0..] == list && list[..0] + Unlink(list, id) == Unlink(list, id);
      while list[i] != id
        invariant i < |list| && id in list[i..] && list[..i] + Unlink(list[i..], id) == Unlink(list, id)
        decreases |list| - i
      {
        assert list[i..][1..] == list[i + 1..] && list[i..] == [list[i]] + list[i + 1..];
        assert list[..i] + ([list[i]] + Unlink(list[i + 1..], id)) == list[..i + 1] + Unlink(list[i + 1..], id);
        i := i + 1;
      }
      assert list[i..][1..] == list[i + 1..];
      list' := list[..i] + list[i + 1..];
    }

    /** mdnsd_shared. */
    method AddShared(id: Id)
      modifies this
      ensures State() == NewRecord(old(State()), id, false)
    {
      recs := recs[id := Rec(0, 0, false)];
    }

    /** mdnsd_unique. */
    method AddUnique(id: Id)
      modifies this
      ensures State() == NewRecord(old(State()), id, true)
    {
      AddShared(id);
      recs := recs[id := recs[id].(unique := 1)];
      probing := RPush(probing, id);
      probe := now;
    }

    // -------------------------------------------------------------- mdnsd_out

    /** _r_out for a list with room for `room` of its records. */
    method ROut(list: seq<Id>, room: nat) returns (rest: seq<Id>, sent: seq<Id>)
      requires NoDup(list) && forall id :: id in list ==> id in recs
      modifies this`recs
      ensures sent == Prefix(list, room) && rest == Rest(list, room) && recs == Freed(old(recs), sent)
    {
      rest, sent := list, [];
      var was := recs;
      while rest != [] && |sent| < room
        invariant |sent| <= room && sent + rest == list && recs == Freed(was, sent)
        decreases |rest|
      {
        var r := rest[0];
        HeadIsNew(list, sent, rest);
        FreedStep(was, sent, r);
        if recs[r].gone {
          recs := recs - {r};
        }
        rest, sent := rest[1..], sent + [r];
      }
      IsPrefix(list, sent, rest, room);
    }

    /** One round of the publish retries, after those for `sent`. */
    method RetryOne(cur: Id, ghost was: map<Id, Rec>, ghost sent: seq<Id>) returns (keep: bool)
      requires cur in was && cur !in sent && forall id :: id in sent ==> id in was
      requires recs == Freed(Tried(was, sent), sent)
      modifies this`recs
      ensures recs == Freed(Tried(was, sent + [cur]), sent + [cur])
      ensures
        Kept(Tried(was, sent + [cur]), sent + [cur]) == Kept(Tried(was, sent), sent) + if keep then [cur] else []
    {
      ghost var tried := Tried(was, sent + [cur]);
      TriedStep(was, sent, cur);
      KeptDepends(Tried(was, sent), tried, sent);
      KeptAppend(tried, sent, cur);
      FreedStep(tried, sent, cur);
      recs := recs[cur := recs[cur].(tries := recs[cur].tries + 1)];
      assert recs == Freed(tried, sent);
      keep := !recs[cur].gone && recs[cur].tries < 4;
      if recs[cur].gone {
        recs := recs - {cur};
      }
    }

    /** The publish retries: the loop over a_publish, which unlinks records after four tries. */
    method RetryLoop(list: seq<Id>, room: nat) returns (sent: seq<Id>, left: seq<Id>)
      requires NoDup(list) && forall id :: id in list ==> id in recs
      modifies this`recs
      ensures sent == Prefix(list, room) && recs == Freed(Tried(old(recs), sent), sent)
      ensures left == Kept(Tried(old(recs), sent), sent) + Rest(list, room)
    {
      ghost var was := recs;
      var kept, rest := [], list;
      sent := [];
      assert Freed(Tried(was, []), []) == was;
      while rest != [] && |sent| < room
        invariant |sent| <= room && sent + rest == list
        invariant recs == Freed(Tried(was, sent), sent)
        invariant kept == Kept(Tried(was, sent), sent)
        decreases |rest|
      {
        var cur := rest[0];
        HeadIsNew(list, sent, rest);
        var keep := RetryOne(cur, was, sent);
        if keep {
          kept := kept + [cur];
        }
        rest, sent := rest[1..], sent + [cur];
      }
      IsPrefix(list, sent, rest, room);
      left := kept + rest;
    }

    method PublishRetries(room: nat) returns (sent: seq<Id>)
      requires Inv(State()) && PublishDue(State())
      modifies this`recs, this`aPublish, this`publish
      ensures State() == OutPublish(old(State()), room) && sent == Prefix(old(aPublish), room)
    {
      sent, aPublish := RetryLoop(aPublish, room);
      if aPublish != [] {
        publish := now + PUBLISH_WAIT;
      }
    }

    /** The first loop over the probe list. */
    method PublishChecked()
      requires Inv(State())
      modifies this
      ensures State() == Graduate(old(State()), 0)
    {
      var i := 0;
      ghost var was := State();
      while i < |probing|
        invariant i <= |probing| && Inv(State()) && Graduate(was, 0) == Graduate(State(), i)
        decreases |probing| - i
      {
        var r := probing[i];
        if recs[r].unique == 4 {
          LeaveProbing(State(), i);
          probing := probing[..i] + probing[i + 1..];
          recs := recs[r := recs[r].(unique := 5)];
          RPublish(r);
        } else {
          i := i + 1;
        }
      }
    }

    /** The second loop: one more check for each record. */
    method CountChecks()
      requires NoDup(probing) && forall id :: id in probing ==> id in recs
      modifies this`recs
      ensures recs == Checked(old(recs), probing)
    {
      var i := 0;
      var was := recs;
      assert Checked(was, probing[..0]) == was;
      while i < |probing|
        invariant i <= |probing| && recs == Checked(was, probing[..i])
        decreases |probing| - i
      {
        var r := probing[i];
        assert r in probing && probing[..i + 1] == probing[..i] + [r];
        CheckedStep(was, probing[..i], r);
        recs := recs[r := recs[r].(unique := recs[r].unique + 1)];
        i := i + 1;
      }
      assert probing[..i] == probing;
    }

    method SendProbes() returns (sent: seq<Packet>)
      requires Inv(State())
      modifies this
      ensures (State(), sent) == OutProbe(old(State()))
    {
      sent := [];
      if probing != [] && probe <= now {
        GraduateKeeps(State(), 0);
        PublishChecked();
        if probing != [] {
          CountChecks();
          sent := [Probe(probing, probing)];
          probe := now + PROBE_WAIT;
        }
      }
    }

    /** mdnsd_out, up to the questions of queries. */
    method MdnsdOut(r1: nat, r2: nat, r3: nat) returns (sent: seq<Packet>)
      requires Inv(State())
      modifies this
      ensures (State(), sent) == Out(old(State()), r1, r2, r3)
    {
      ghost var d := State();
      OutNowKeeps(d, r1);
      OutPublishKeeps(OutNow(d, r1), r2);
      OutPauseKeeps(OutPublish(OutNow(d, r1), r2), r3);
      var a1, a2, a3 := [], [], [];
      aNow, a1 := ROut(aNow, r1);
      assert State() == OutNow(d, r1);
      if aPublish != [] && publish <= now {
        a2 := PublishRetries(r2);
      }
      if aPause != [] && pause <= now {
        aPause, a3 := ROut(aPause, r3);
      }
      var answers := a1 + a2 + a3;
      if answers != [] { return [Reply(answers)]; }
      sent := SendProbes();
    }
  }
}
