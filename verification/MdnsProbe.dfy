/**
  Probing and announcing in dns/mdnsd.c (sections 8.1 and 8.3 of RFC 6762): a
  unique record is announced, or given as an answer, only after exactly three
  probes that asked for it and carried it.
 */
module MdnsProbe {

  // ---------------------------------------------------------------- state

  type Id = nat

  /** struct mdnsdr_struct: `unique` counts the checks, and `gone` says that the time to live is 0. */
  datatype Rec = Rec(unique: nat, tries: nat, gone: bool)

  /** The lists of the daemon, first record first, and its times in microseconds. */
  datatype Daemon = Daemon(
    recs: map<Id, Rec>,
    probing: seq<Id>, aNow: seq<Id>, aPause: seq<Id>, aPublish: seq<Id>,
    now: nat, probe: nat, publish: nat, pause: nat)

  /** What the daemon sends: a probe with questions and authority records, or answers. */
  datatype Packet = Probe(questions: seq<Id>, authority: seq<Id>) | Reply(answers: seq<Id>)

  const PROBE_WAIT := 250_000
  const PUBLISH_WAIT := 2_000_000

  predicate IsProbing(r: Rec) {
    0 < r.unique < 5
  }

  /** _r_push. */
  function Push(list: seq<Id>, id: Id): seq<Id> {
    if id in list then list else [id] + list
  }

  /** `list` without `id`. */
  function Unlink(list: seq<Id>, id: Id): seq<Id> {
    if list == [] then [] else if list[0] == id then list[1..] else [list[0]] + Unlink(list[1..], id)
  }

  /** _r_publish. */
  function Publish(d: Daemon, id: Id): Daemon
    requires id in d.recs
  {
    var r := d.recs[id];
    if IsProbing(r) then d
    else d.(recs := d.recs[id := r.(tries := 0)], publish := d.now, aPublish := Push(d.aPublish, id))
  }

  /** _r_send. */
  function Send(d: Daemon, id: Id): Daemon
    requires id in d.recs
  {
    var r := d.recs[id];
    if r.tries < 4 then d.(publish := d.now)
    else if r.unique != 0 then d.(aNow := Push(d.aNow, id))
    else d.(pause := d.now + d.now % 100 + 20, aPause := Push(d.aPause, id))
  }

  /** mdnsd_done. */
  function Done(d: Daemon, id: Id): Daemon
    requires id in d.recs
  {
    var r := d.recs[id];
    if IsProbing(r) then d.(recs := d.recs - {id}, probing := Unlink(d.probing, id))
    else Send(d.(recs := d.recs[id := r.(gone := true)]), id)
  }

  /** mdnsd_shared and mdnsd_unique. */
  function NewRecord(d: Daemon, id: Id, unique: bool): Daemon {
    if unique then d.(recs := d.recs[id := Rec(1, 0, false)], probing := Push(d.probing, id), probe := d.now)
    else d.(recs := d.recs[id := Rec(0, 0, false)])
  }

  // ---------------------------------------------------------------- mdnsd_out

  /** The records of a list for which there is room. */
  function Prefix(list: seq<Id>, room: nat): seq<Id> {
    if room < |list| then list[..room] else list
  }

  function Rest(list: seq<Id>, room: nat): seq<Id> {
    if room < |list| then list[room..] else []
  }

  /** The records that stay when `sent` has been sent: those whose time to live is 0 are freed. */
  function Freed(recs: map<Id, Rec>, sent: seq<Id>): map<Id, Rec> {
    map id | id in recs && !(id in sent && recs[id].gone) :: recs[id]
  }

  /** The loop over a_publish: each record that is sent counts a try; it stays on the list for four of them. */
  function Tried(recs: map<Id, Rec>, sent: seq<Id>): map<Id, Rec> {
    map id | id in recs :: if id in sent then recs[id].(tries := recs[id].tries + 1) else recs[id]
  }

  function Kept(recs: map<Id, Rec>, sent: seq<Id>): seq<Id> {
    if sent == [] then []
    else if sent[0] in recs && !recs[sent[0]].gone && recs[sent[0]].tries < 4 then [sent[0]] + Kept(recs, sent[1..])
    else Kept(recs, sent[1..])
  }

  /** _r_out for a_now. */
  function OutNow(d: Daemon, room: nat): Daemon {
    d.(recs := Freed(d.recs, Prefix(d.aNow, room)), aNow := Rest(d.aNow, room))
  }

  predicate PublishDue(d: Daemon) {
    d.aPublish != [] && d.publish <= d.now
  }

  function OutPublish(d: Daemon, room: nat): Daemon {
    if !PublishDue(d) then d
    else
      var sent := Prefix(d.aPublish, room);
      var tried := Tried(d.recs, sent);
      var list := Kept(tried, sent) + Rest(d.aPublish, room);
      d.(
        recs := Freed(tried, sent), aPublish := list,
        publish := if list != [] then d.now + PUBLISH_WAIT else d.publish)
  }

  predicate PauseDue(d: Daemon) {
    d.aPause != [] && d.pause <= d.now
  }

  function OutPause(d: Daemon, room: nat): Daemon {
    if !PauseDue(d) then d
    else d.(recs := Freed(d.recs, Prefix(d.aPause, room)), aPause := Rest(d.aPause, room))
  }

  /** The answers of a call of mdnsd_out, with room for `r1`, `r2` and `r3` records of the three lists. */
  function Answers(d: Daemon, r1: nat, r2: nat, r3: nat): seq<Id> {
    var d1 := OutNow(d, r1);
    var d2 := OutPublish(d1, r2);
    Prefix(d.aNow, r1)
    + (if PublishDue(d1) then Prefix(d1.aPublish, r2) else [])
    + (if PauseDue(d2) then Prefix(d2.aPause, r3) else [])
  }

  /** The first loop over probing: records that have been checked three times are published. */
  function Graduate(d: Daemon, i: nat): Daemon
    decreases if i < |d.probing| then |d.probing| - i else 0
  {
    if i >= |d.probing| then d
    else
      var id := d.probing[i];
      if id in d.recs && d.recs[id].unique == 4 then
        var d' := d.(probing := d.probing[..i] + d.probing[i + 1..], recs := d.recs[id := d.recs[id].(unique := 5)]);
        Graduate(Publish(d', id), i)
      else Graduate(d, i + 1)
  }

  /** The second loop: each record that is left has been checked once more. */
  function Checked(recs: map<Id, Rec>, probing: seq<Id>): map<Id, Rec> {
    map id | id in recs :: if id in probing then recs[id].(unique := recs[id].unique + 1) else recs[id]
  }

  predicate ProbeDue(d: Daemon) {
    d.probing != [] && d.probe <= d.now
  }

  function OutProbe(d: Daemon): (Daemon, seq<Packet>) {
    if !ProbeDue(d) then (d, [])
    else
      var d1 := Graduate(d, 0);
      if d1.probing == [] then (d1, [])
      else
        (d1.(recs := Checked(d1.recs, d1.probing), probe := d1.now + PROBE_WAIT), [Probe(d1.probing, d1.probing)])
  }

  /** mdnsd_out up to the questions of queries. */
  function Out(d: Daemon, r1: nat, r2: nat, r3: nat): (Daemon, seq<Packet>) {
    var d' := OutPause(OutPublish(OutNow(d, r1), r2), r3);
    var answers := Answers(d, r1, r2, r3);
    if answers != [] then (d', [Reply(answers)]) else OutProbe(d')
  }

  // ---------------------------------------------------------------- the lists

  ghost predicate NoDup(list: seq<Id>) {
    forall i, j :: 0 <= i < j < |list| ==> list[i] != list[j]
  }

  ghost predicate Inv(d: Daemon) {
    && NoDup(d.probing) && NoDup(d.aNow) && NoDup(d.aPause) && NoDup(d.aPublish)
    && (forall id :: id in d.probing <==> id in d.recs && IsProbing(d.recs[id]))
    && (forall id :: id in d.recs ==> d.recs[id].unique <= 5)
    && (forall id :: id in d.aNow ==> id in d.recs && d.recs[id].unique == 5 && d.recs[id].tries >= 4)
    && (forall id :: id in d.aPause ==> id in d.recs && d.recs[id].unique == 0 && d.recs[id].tries >= 4)
    && (forall id :: id in d.aPublish ==> id in d.recs && !IsProbing(d.recs[id]) && d.recs[id].tries < 4)
  }

  lemma PushKeeps(list: seq<Id>, id: Id)
    requires NoDup(list)
    ensures NoDup(Push(list, id)) && forall x :: x in Push(list, id) <==> x in list || x == id
  {
  }

  lemma AppendNoDup(a: seq<Id>, b: seq<Id>)
    requires NoDup(a) && NoDup(b) && forall x :: !(x in a && x in b)
    ensures NoDup(a + b)
  {
    forall i, j | 0 <= i < j < |a + b| ensures (a + b)[i] != (a + b)[j] {
      if i < |a| <= j {
        assert (a + b)[i] in a && (a + b)[j] in b;
      }
    }
  }

  lemma {:induction false} UnlinkKeeps(list: seq<Id>, id: Id)
    requires NoDup(list)
    ensures NoDup(Unlink(list, id)) && forall x :: x in Unlink(list, id) <==> x in list && x != id
    decreases |list|
  {
    if list != [] {
      assert forall i :: 0 < i < |list| ==> list[i] != list[0];
      assert list == [list[0]] + list[1..];
      UnlinkKeeps(list[1..], id);
      if list[0] != id {
        AppendNoDup([list[0]], Unlink(list[1..], id));
      }
    }
  }

  /** A record that is sent and a record that stays on the list are never the same. */
  lemma PrefixAndRest(list: seq<Id>, room: nat)
    requires NoDup(list)
    ensures NoDup(Prefix(list, room)) && NoDup(Rest(list, room)) && list == Prefix(list, room) + Rest(list, room)
    ensures forall x :: x in list <==> x in Prefix(list, room) || x in Rest(list, room)
    ensures forall x :: !(x in Prefix(list, room) && x in Rest(list, room))
  {
    assert list == Prefix(list, room) + Rest(list, room);
  }

  lemma {:induction false} KeptKeeps(recs: map<Id, Rec>, sent: seq<Id>)
    requires NoDup(sent)
    ensures NoDup(Kept(recs, sent))
    ensures forall x :: x in Kept(recs, sent) <==> x in sent && x in recs && !recs[x].gone && recs[x].tries < 4
    decreases |sent|
  {
    if sent != [] {
      assert sent == [sent[0]] + sent[1..];
      KeptKeeps(recs, sent[1..]);
    }
  }

  // ---------------------------------------------------------------- every call keeps the lists

  lemma OutNowKeeps(d: Daemon, room: nat)
    requires Inv(d)
    ensures Inv(OutNow(d, room))
  {
    PrefixAndRest(d.aNow, room);
  }

  lemma OutPauseKeeps(d: Daemon, room: nat)
    requires Inv(d)
    ensures Inv(OutPause(d, room))
  {
    PrefixAndRest(d.aPause, room);
  }

  lemma OutPublishKeeps(d: Daemon, room: nat)
    requires Inv(d)
    ensures Inv(OutPublish(d, room))
  {
    PrefixAndRest(d.aPublish, room);
    var sent := Prefix(d.aPublish, room);
    KeptKeeps(Tried(d.recs, sent), sent);
    AppendNoDup(Kept(Tried(d.recs, sent), sent), Rest(d.aPublish, room));
  }

  lemma PublishKeeps(d: Daemon, id: Id)
    requires Inv(d) && id in d.recs && id !in d.aNow && id !in d.aPause
    ensures Inv(Publish(d, id))
  {
    PushKeeps(d.aPublish, id);
  }

  lemma SendKeeps(d: Daemon, id: Id)
    requires Inv(d) && id in d.recs && !IsProbing(d.recs[id])
    ensures Inv(Send(d, id))
  {
    PushKeeps(d.aNow, id);
    PushKeeps(d.aPause, id);
  }

  lemma DoneKeeps(d: Daemon, id: Id)
    requires Inv(d) && id in d.recs
    ensures Inv(Done(d, id))
  {
    if IsProbing(d.recs[id]) {
      UnlinkKeeps(d.probing, id);
    } else {
      SendKeeps(d.(recs := d.recs[id := d.recs[id].(gone := true)]), id);
    }
  }

  lemma NewRecordKeeps(d: Daemon, id: Id, unique: bool)
    requires Inv(d) && id !in d.recs
    ensures Inv(NewRecord(d, id, unique))
  {
    PushKeeps(d.probing, id);
  }

  /** One record leaves the probe list. */
  lemma LeaveProbing(d: Daemon, i: nat)
    requires Inv(d) && i < |d.probing| && d.recs[d.probing[i]].unique == 4
    ensures
      var id := d.probing[i];
      var d' := d.(probing := d.probing[..i] + d.probing[i + 1..], recs := d.recs[id := d.recs[id].(unique := 5)]);
      Inv(d') && id !in d'.aNow && id !in d'.aPause && Inv(Publish(d', id))
  {
    var id := d.probing[i];
    var probing := d.probing[..i] + d.probing[i + 1..];
    var d' := d.(probing := probing, recs := d.recs[id := d.recs[id].(unique := 5)]);
    assert d.probing == d.probing[..i] + [id] + d.probing[i + 1..];
    assert forall x :: x in probing <==> x in d.probing && x != id;
    PublishKeeps(d', id);
  }

  /** What the first loop over the probe list leaves: the records that still have to be checked. */
  lemma {:induction false} GraduateKeeps(d: Daemon, i: nat)
    requires Inv(d) && i <= |d.probing| && forall j :: 0 <= j < i ==> d.recs[d.probing[j]].unique < 4
    ensures Inv(Graduate(d, i)) && Graduate(d, i).recs.Keys == d.recs.Keys
    ensures forall id :: id in Graduate(d, i).probing ==> Graduate(d, i).recs[id].unique < 4
    ensures
      forall id :: id in d.recs ==>
        var r, r' := d.recs[id], Graduate(d, i).recs[id];
        r'.unique == r.unique || (r.unique == 4 && r'.unique == 5)
    decreases |d.probing| - i
  {
    if i < |d.probing| {
      var id := d.probing[i];
      if d.recs[id].unique == 4 {
        LeaveProbing(d, i);
        var d' := d.(probing := d.probing[..i] + d.probing[i + 1..], recs := d.recs[id := d.recs[id].(unique := 5)]);
        assert forall j :: 0 <= j < i ==> d'.probing[j] == d.probing[j];
        GraduateKeeps(Publish(d', id), i);
      } else {
        GraduateKeeps(d, i + 1);
      }
    }
  }

  lemma OutProbeKeeps(d: Daemon)
    requires Inv(d)
    ensures Inv(OutProbe(d).0)
  {
    if ProbeDue(d) {
      GraduateKeeps(d, 0);
    }
  }

  // ---------------------------------------------------------------- runs

  /** The daemon, what it has sent, and the records that were ever made, and made as unique ones. */
  datatype World = World(d: Daemon, log: seq<Packet>, made: set<Id>, uniques: set<Id>)

  datatype Step =
    | Create(id: Id, unique: bool)      // mdnsd_unique, mdnsd_shared
    | SetData(id: Id)                   // mdnsd_set_raw, mdnsd_set_host, mdnsd_set_ip, mdnsd_set_srv
    | Asked(id: Id)                     // mdnsd_in: a question that the record answers
    | Remove(id: Id)                    // mdnsd_done, or a conflict that mdnsd_in finds
    | Clock(now: nat)                   // gettimeofday
    | Call(r1: nat, r2: nat, r3: nat)   // mdnsd_out, with the room in the packet for each list

  /** Records are new, data is not set while an answer is queued, and probing records give no answers. */
  predicate CanStep(w: World, step: Step) {
    match step
    case Create(id, _) => id !in w.made
    case SetData(id) => id in w.d.recs && id !in w.d.aNow && id !in w.d.aPause
    case Asked(id) => id in w.d.recs && !IsProbing(w.d.recs[id])
    case Remove(id) => id in w.d.recs
    case _ => true
  }

  function Apply(w: World, step: Step): World
    requires CanStep(w, step)
  {
    match step
    case Create(id, unique) =>
      World(NewRecord(w.d, id, unique), w.log, w.made + {id}, if unique then w.uniques + {id} else w.uniques)
    case SetData(id) => w.(d := Publish(w.d, id))
    case Asked(id) => w.(d := Send(w.d, id))
    case Remove(id) => w.(d := Done(w.d, id))
    case Clock(now) => w.(d := w.d.(now := now))
    case Call(r1, r2, r3) =>
      var (d, sent) := Out(w.d, r1, r2, r3);
      w.(d := d, log := w.log + sent)
  }

  /** The number of probes for `id`: messages with its question and its authority record. */
  function Probes(log: seq<Packet>, id: Id): nat {
    if log == [] then 0
    else
      var last := log[|log| - 1];
      Probes(log[..|log| - 1], id) + if last.Probe? && id in last.questions && id in last.authority then 1 else 0
  }

  /** Every answer with a unique record was given after exactly three probes for it. */
  ghost predicate Safe(w: World) {
    forall k, id :: 0 <= k < |w.log| && w.log[k].Reply? && id in w.log[k].answers && id in w.uniques ==>
      Probes(w.log[..k], id) == 3
  }

  /** The check count is the number of probes that were sent, and one more. */
  ghost predicate Counted(w: World) {
    forall id :: id in w.d.recs ==>
      && id in w.made
      && (w.d.recs[id].unique == 0 <==> id !in w.uniques)
      && (IsProbing(w.d.recs[id]) ==> Probes(w.log, id) == w.d.recs[id].unique - 1)
      && (w.d.recs[id].unique == 5 ==> Probes(w.log, id) == 3)
  }

  ghost predicate Mentions(p: Packet, id: Id) {
    match p
    case Probe(questions, authority) => id in questions || id in authority
    case Reply(answers) => id in answers
  }

  ghost predicate WorldInv(w: World) {
    && Inv(w.d) && Counted(w) && Safe(w) && w.uniques <= w.made
    && forall k, id :: 0 <= k < |w.log| && Mentions(w.log[k], id) ==> id in w.made
  }

  lemma ProbesAppend(log: seq<Packet>, p: Packet, id: Id)
    ensures
      Probes(log + [p], id) == Probes(log, id) + if p.Probe? && id in p.questions && id in p.authority then 1 else 0
  {
    assert (log + [p])[..|log|] == log;
  }

  lemma {:induction false} NoProbes(log: seq<Packet>, id: Id)
    requires forall k :: 0 <= k < |log| ==> !Mentions(log[k], id)
    ensures Probes(log, id) == 0
    decreases |log|
  {
    if log != [] {
      NoProbes(log[..|log| - 1], id);
    }
  }

  // ---------------------------------------------------------------- probe before announce

  /** Records that a call does not free keep their check count. */
  lemma OutAnswersKeeps(d: Daemon, r1: nat, r2: nat, r3: nat)
    requires Inv(d)
    ensures
      var d' := OutPause(OutPublish(OutNow(d, r1), r2), r3);
      && Inv(d')
      && forall id :: id in d'.recs ==> id in d.recs && d'.recs[id].unique == d.recs[id].unique
    ensures forall id :: id in Answers(d, r1, r2, r3) ==> id in d.recs && !IsProbing(d.recs[id])
  {
    var d1 := OutNow(d, r1);
    var d2 := OutPublish(d1, r2);
    OutNowKeeps(d, r1);
    OutPublishKeeps(d1, r2);
    OutPauseKeeps(d2, r3);
    PrefixAndRest(d.aNow, r1);
    PrefixAndRest(d1.aPublish, r2);
    PrefixAndRest(d2.aPause, r3);
  }

  /** One more message, which mentions records of the daemon only. */
  lemma LogGrows(w: World, p: Packet)
    requires WorldInv(w) && forall id :: Mentions(p, id) ==> id in w.made
    requires p.Reply? ==> forall id :: id in p.answers && id in w.uniques ==> Probes(w.log, id) == 3
    ensures
      var w' := w.(log := w.log + [p]);
      Safe(w') && forall k, id :: 0 <= k < |w'.log| && Mentions(w'.log[k], id) ==> id in w'.made
  {
    var log := w.log + [p];
    forall k, id | 0 <= k < |log| && log[k].Reply? && id in log[k].answers && id in w.uniques
      ensures Probes(log[..k], id) == 3
    {
      if k < |w.log| {
        assert log[..k] == w.log[..k] && log[k] == w.log[k];
      } else {
        assert log[..k] == w.log;
      }
    }
  }

  lemma ReplyKeeps(w: World, r1: nat, r2: nat, r3: nat)
    requires WorldInv(w) && Answers(w.d, r1, r2, r3) != []
    ensures WorldInv(Apply(w, Call(r1, r2, r3)))
  {
    var answers := Answers(w.d, r1, r2, r3);
    OutAnswersKeeps(w.d, r1, r2, r3);
    forall id | id in answers && id in w.uniques ensures Probes(w.log, id) == 3 {
      assert w.d.recs[id].unique == 5;
    }
    LogGrows(w, Reply(answers));
    forall id ensures Probes(w.log + [Reply(answers)], id) == Probes(w.log, id) {
      ProbesAppend(w.log, Reply(answers), id);
    }
  }

  /** The records that are asked for are those that are checked, and they have not had three probes yet. */
  lemma CheckedCount(w: World, probing: seq<Id>)
    requires Counted(w) && Inv(w.d)
    requires forall id :: id in probing ==> id in w.d.recs && 0 < w.d.recs[id].unique < 4
    ensures
      var p := Probe(probing, probing);
      Counted(w.(d := w.d.(recs := Checked(w.d.recs, probing)), log := w.log + [p]))
  {
    var p := Probe(probing, probing);
    forall id ensures Probes(w.log + [p], id) == Probes(w.log, id) + if id in probing then 1 else 0 {
      ProbesAppend(w.log, p, id);
    }
  }

  /** The records that have been checked three times leave the list. */
  lemma GraduateCounts(w: World, d: Daemon)
    requires WorldInv(w.(d := d))
    ensures
      var d1 := Graduate(d, 0);
      WorldInv(w.(d := d1)) && forall id :: id in d1.probing ==> id in d1.recs && 0 < d1.recs[id].unique < 4
  {
    GraduateKeeps(d, 0);
    var d1 := Graduate(d, 0);
    assert Counted(w.(d := d1));
  }

  /** All that are left are asked for. */
  function Asks(d1: Daemon): Daemon {
    d1.(recs := Checked(d1.recs, d1.probing), probe := d1.now + PROBE_WAIT)
  }

  lemma OutProbeIs(d: Daemon)
    requires ProbeDue(d)
    ensures
      var d1 := Graduate(d, 0);
      OutProbe(d) == if d1.probing == [] then (d1, []) else (Asks(d1), [Probe(d1.probing, d1.probing)])
  {
  }

  lemma ProbeSent(w: World, d1: Daemon)
    requires WorldInv(w.(d := d1)) && Inv(Asks(d1))
    requires forall id :: id in d1.probing ==> id in d1.recs && 0 < d1.recs[id].unique < 4
    ensures WorldInv(w.(d := Asks(d1), log := w.log + [Probe(d1.probing, d1.probing)]))
  {
    LogGrows(w.(d := d1), Probe(d1.probing, d1.probing));
    CheckedCount(w.(d := d1), d1.probing);
  }

  lemma ProbeKeeps(w: World, d: Daemon)
    requires WorldInv(w.(d := d)) && ProbeDue(d)
    ensures WorldInv(w.(d := OutProbe(d).0, log := w.log + OutProbe(d).1))
  {
    OutProbeIs(d);
    OutProbeKeeps(d);
    GraduateCounts(w, d);
    var d1 := Graduate(d, 0);
    if d1.probing != [] {
      ProbeSent(w, d1);
    } else {
      assert w.log + [] == w.log;
    }
  }

  /** A call without answers. */
  lemma QuietCall(w: World, r1: nat, r2: nat, r3: nat)
    requires Answers(w.d, r1, r2, r3) == []
    ensures
      var d := OutPause(OutPublish(OutNow(w.d, r1), r2), r3);
      Apply(w, Call(r1, r2, r3)) == w.(d := OutProbe(d).0, log := w.log + OutProbe(d).1)
  {
  }

  lemma AnswersGone(w: World, r1: nat, r2: nat, r3: nat)
    requires WorldInv(w)
    ensures WorldInv(w.(d := OutPause(OutPublish(OutNow(w.d, r1), r2), r3)))
  {
    OutAnswersKeeps(w.d, r1, r2, r3);
  }

  lemma CallKeeps(w: World, r1: nat, r2: nat, r3: nat)
    requires WorldInv(w)
    ensures WorldInv(Apply(w, Call(r1, r2, r3)))
  {
    if Answers(w.d, r1, r2, r3) != [] {
      ReplyKeeps(w, r1, r2, r3);
    } else {
      var d := OutPause(OutPublish(OutNow(w.d, r1), r2), r3);
      QuietCall(w, r1, r2, r3);
      AnswersGone(w, r1, r2, r3);
      if ProbeDue(d) {
        ProbeKeeps(w, d);
      } else {
        assert w.log + [] == w.log;
      }
    }
  }

  lemma CreateKeeps(w: World, id: Id, unique: bool)
    requires WorldInv(w) && id !in w.made
    ensures WorldInv(Apply(w, Create(id, unique)))
  {
    NewRecordKeeps(w.d, id, unique);
    NoProbes(w.log, id);
    forall k | 0 <= k < |w.log| ensures !(w.log[k].Reply? && id in w.log[k].answers) {
      assert !Mentions(w.log[k], id);
    }
  }

  lemma StepKeeps(w: World, step: Step)
    requires WorldInv(w) && CanStep(w, step)
    ensures WorldInv(Apply(w, step))
  {
    match step
    case Create(id, unique) => CreateKeeps(w, id, unique);
    case SetData(id) => PublishKeeps(w.d, id);
    case Asked(id) => SendKeeps(w.d, id);
    case Remove(id) => DoneKeeps(w.d, id);
    case Clock(_) =>
    case Call(r1, r2, r3) => CallKeeps(w, r1, r2, r3);
  }

  predicate CanRun(w: World, steps: seq<Step>)
    decreases |steps|
  {
    steps == [] || (CanStep(w, steps[0]) && CanRun(Apply(w, steps[0]), steps[1..]))
  }

  function Run(w: World, steps: seq<Step>): World
    requires CanRun(w, steps)
    decreases |steps|
  {
    if steps == [] then w else Run(Apply(w, steps[0]), steps[1..])
  }

  const START := World(Daemon(map[], [], [], [], [], 0, 0, 0, 0), [], {}, {})

  lemma {:induction false} RunKeeps(w: World, steps: seq<Step>)
    requires WorldInv(w) && CanRun(w, steps)
    ensures WorldInv(Run(w, steps))
    decreases |steps|
  {
    if steps != [] {
      StepKeeps(w, steps[0]);
      RunKeeps(Apply(w, steps[0]), steps[1..]);
    }
  }

  /**
    Probe before announce. In every run a unique record is on the probe list, once,
    as long as its count is 1 to 4; the count is one more than the probes that
    asked for it and carried it; and it is queued for an answer, or was given as
    one, only after exactly three probes.
   */
  lemma ProbeBeforeAnnounce(steps: seq<Step>, id: Id)
    requires CanRun(START, steps)
    ensures
      var w := Run(START, steps);
      && (id in w.d.probing <==> id in w.d.recs && 1 <= w.d.recs[id].unique <= 4)
      && (forall i, j :: 0 <= i < j < |w.d.probing| ==> w.d.probing[i] != w.d.probing[j])
      && (id in w.d.probing ==> Probes(w.log, id) == w.d.recs[id].unique - 1)
      && (id in w.uniques && (id in w.d.aPublish || id in w.d.aNow || id in w.d.aPause) ==> Probes(w.log, id) == 3)
      && forall k :: 0 <= k < |w.log| && w.log[k].Reply? && id in w.log[k].answers && id in w.uniques ==>
           Probes(w.log[..k], id) == 3
  {
    RunKeeps(START, steps);
  }

  // ---------------------------------------------------------------- the time between probes

  predicate NoNewUnique(steps: seq<Step>) {
    forall s :: s in steps ==> !(s.Create? && s.unique)
  }

  /** Whether a call sends a probe. */
  predicate SendsProbe(w: World, step: Step) {
    step.Call? && exists p :: p in Out(w.d, step.r1, step.r2, step.r3).1 && p.Probe?
  }

  lemma {:induction false} GraduateTimes(d: Daemon, i: nat)
    ensures Graduate(d, i).probe == d.probe && Graduate(d, i).now == d.now
    decreases if i < |d.probing| then |d.probing| - i else 0
  {
    if i < |d.probing| {
      var id := d.probing[i];
      if id in d.recs && d.recs[id].unique == 4 {
        var d' := d.(probing := d.probing[..i] + d.probing[i + 1..], recs := d.recs[id := d.recs[id].(unique := 5)]);
        GraduateTimes(Publish(d', id), i);
      } else {
        GraduateTimes(d, i + 1);
      }
    }
  }

  /** A call sends a probe only when the time has come, and sets the next time. */
  lemma ProbeTimes(w: World, step: Step)
    requires CanStep(w, step) && !(step.Create? && step.unique)
    ensures SendsProbe(w, step) ==> w.d.probe <= w.d.now && Apply(w, step).d.probe == w.d.now + PROBE_WAIT
    ensures !SendsProbe(w, step) ==> Apply(w, step).d.probe == w.d.probe
  {
    if step.Call? {
      var d := OutPause(OutPublish(OutNow(w.d, step.r1), step.r2), step.r3);
      GraduateTimes(d, 0);
      if Answers(w.d, step.r1, step.r2, step.r3) == [] && ProbeDue(d) && Graduate(d, 0).probing != [] {
        assert OutProbe(d).1[0].Probe?;
      }
    }
  }

  /** A run in which no probe is sent. */
  predicate QuietRun(w: World, steps: seq<Step>)
    requires CanRun(w, steps)
    decreases |steps|
  {
    steps == [] || (!SendsProbe(w, steps[0]) && QuietRun(Apply(w, steps[0]), steps[1..]))
  }

  /** When the next probe is due after a quiet run: the clock at the last unique record that was added, or as it was. */
  function NextProbe(w: World, steps: seq<Step>, due: nat): nat
    requires CanRun(w, steps)
    decreases |steps|
  {
    if steps == [] then due
    else
      NextProbe(Apply(w, steps[0]), steps[1..], if steps[0].Create? && steps[0].unique then w.d.now else due)
  }

  lemma {:induction false} NextProbeIs(w: World, steps: seq<Step>)
    requires CanRun(w, steps) && QuietRun(w, steps)
    ensures Run(w, steps).d.probe == NextProbe(w, steps, w.d.probe)
    decreases |steps|
  {
    if steps != [] {
      if !(steps[0].Create? && steps[0].unique) {
        ProbeTimes(w, steps[0]);
      }
      NextProbeIs(Apply(w, steps[0]), steps[1..]);
    }
  }

  lemma {:induction false} NoneAdded(w: World, steps: seq<Step>, due: nat)
    requires CanRun(w, steps) && NoNewUnique(steps)
    ensures NextProbe(w, steps, due) == due
    decreases |steps|
  {
    if steps != [] {
      NoneAdded(Apply(w, steps[0]), steps[1..], due);
    }
  }

  /** There is a record that has not had three probes yet. */
  predicate Waiting(d: Daemon) {
    exists id :: id in d.probing && id in d.recs && d.recs[id].unique < 4
  }

  /** Some call of mdnsd_out sends a probe now. */
  ghost predicate CanProbe(w: World) {
    exists r1, r2, r3 :: SendsProbe(w, Call(r1, r2, r3))
  }

  lemma GraduateWaits(d: Daemon)
    requires Inv(d)
    ensures Graduate(d, 0).probing != [] <==> Waiting(d)
  {
    GraduateKeeps(d, 0);
    var d1 := Graduate(d, 0);
    if d1.probing != [] {
      var id := d1.probing[0];
      assert id in d1.probing && id in d.recs;
    }
    if Waiting(d) {
      var id :| id in d.probing && id in d.recs && d.recs[id].unique < 4;
      assert IsProbing(d.recs[id]) && id in d1.probing;
    }
  }

  /** Without room for answers the lists stay as they are. */
  lemma NoRoom(d: Daemon)
    ensures Answers(d, 0, 0, 0) == []
    ensures
      var d1 := OutPause(OutPublish(OutNow(d, 0), 0), 0);
      d1.recs == d.recs && d1.probing == d.probing && d1.probe == d.probe && d1.now == d.now
  {
    var d1 := OutNow(d, 0);
    var d2 := OutPublish(d1, 0);
    assert d1.recs == d.recs;
    assert Tried(d1.recs, []) == d1.recs && Freed(d1.recs, []) == d1.recs;
    assert d2.recs == d1.recs;
  }

  lemma SentMeans(w: World, r1: nat, r2: nat, r3: nat)
    requires Inv(w.d)
    ensures SendsProbe(w, Call(r1, r2, r3)) ==> Waiting(w.d) && w.d.probe <= w.d.now
  {
    if SendsProbe(w, Call(r1, r2, r3)) {
      OutAnswersKeeps(w.d, r1, r2, r3);
      var d := OutPause(OutPublish(OutNow(w.d, r1), r2), r3);
      GraduateWaits(d);
      assert d.probing == w.d.probing;
      var id :| id in d.probing && id in d.recs && d.recs[id].unique < 4;
      assert id in w.d.probing && id in w.d.recs && w.d.recs[id].unique < 4;
    }
  }

  /** A probe can be sent exactly if a record waits for one, and its time has come. */
  lemma CanProbeIs(w: World)
    requires Inv(w.d)
    ensures CanProbe(w) <==> Waiting(w.d) && w.d.probe <= w.d.now
  {
    forall r1, r2, r3 ensures SendsProbe(w, Call(r1, r2, r3)) ==> Waiting(w.d) && w.d.probe <= w.d.now {
      SentMeans(w, r1, r2, r3);
    }
    if Waiting(w.d) && w.d.probe <= w.d.now {
      NoRoom(w.d);
      OutAnswersKeeps(w.d, 0, 0, 0);
      var d := OutPause(OutPublish(OutNow(w.d, 0), 0), 0);
      GraduateWaits(d);
      assert Out(w.d, 0, 0, 0).1[0].Probe?;
      assert SendsProbe(w, Call(0, 0, 0));
    }
  }

  /** A call that sends a probe, and a run without another one. */
  ghost predicate ProbesOnce(w: World, first: Step, steps: seq<Step>) {
    && WorldInv(w) && CanStep(w, first) && SendsProbe(w, first)
    && CanRun(Apply(w, first), steps) && QuietRun(Apply(w, first), steps)
  }

  /**
    The next probe can be sent exactly from the later-written of two times on: 250 ms after the
    first, or when a unique record was added.
   */
  lemma NextProbeTime(w: World, first: Step, steps: seq<Step>, t: nat)
    requires ProbesOnce(w, first, steps)
    ensures
      var w1 := Apply(w, first);
      var w2 := Run(w1, steps);
      CanProbe(Apply(w2, Clock(t))) <==> Waiting(w2.d) && NextProbe(w1, steps, w.d.now + PROBE_WAIT) <= t
  {
    var w1 := Apply(w, first);
    StepKeeps(w, first);
    RunKeeps(w1, steps);
    ProbeTimes(w, first);
    NextProbeIs(w1, steps);
    var w2 := Run(w1, steps);
    var w3 := Apply(w2, Clock(t));
    assert Inv(w3.d);
    CanProbeIs(w3);
    assert Waiting(w3.d) <==> Waiting(w2.d);
  }

  /**
    The exact condition for two probes to be 250 milliseconds apart, whatever the
    clock shows: the last unique record that was added between them, if any, was added
    250 milliseconds after the first probe (or none is left to ask for).
   */
  lemma ProbeSpacingExact(w: World, first: Step, steps: seq<Step>)
    requires ProbesOnce(w, first, steps)
    ensures
      var w1 := Apply(w, first);
      var w2 := Run(w1, steps);
      (forall t :: CanProbe(Apply(w2, Clock(t))) ==> w.d.now + PROBE_WAIT <= t)
      <==> (Waiting(w2.d) ==> w.d.now + PROBE_WAIT <= NextProbe(w1, steps, w.d.now + PROBE_WAIT))
  {
    var w1 := Apply(w, first);
    var w2 := Run(w1, steps);
    var next := NextProbe(w1, steps, w.d.now + PROBE_WAIT);
    forall t ensures CanProbe(Apply(w2, Clock(t))) <==> Waiting(w2.d) && next <= t {
      NextProbeTime(w, first, steps, t);
    }
    assert Waiting(w2.d) ==> CanProbe(Apply(w2, Clock(next)));
  }

  /** So they are if no unique record is added between them. */
  lemma ProbeSpacing(w: World, first: Step, steps: seq<Step>, second: Step)
    requires ProbesOnce(w, first, steps) && NoNewUnique(steps)
    requires CanStep(Run(Apply(w, first), steps), second) && SendsProbe(Run(Apply(w, first), steps), second)
    ensures w.d.now + PROBE_WAIT <= Run(Apply(w, first), steps).d.now
  {
    var w1 := Apply(w, first);
    ProbeTimes(w, first);
    NextProbeIs(w1, steps);
    NoneAdded(w1, steps, w1.d.probe);
    ProbeTimes(Run(w1, steps), second);
  }

  lemma FirstProbe(d: Daemon)
    requires d == Daemon(map[1 := Rec(1, 0, false)], [1], [], [], [], 0, 0, 0, 0)
    ensures
      Out(d, 0, 0, 0)
      == (Daemon(map[1 := Rec(2, 0, false)], [1], [], [], [], 0, PROBE_WAIT, 0, 0), [Probe([1], [1])])
  {
    NoRoom(d);
    assert Graduate(d, 1) == d && Graduate(d, 0) == d;
    assert OutPause(OutPublish(OutNow(d, 0), 0), 0) == d;
    assert Checked(d.recs, [1]) == map[1 := Rec(2, 0, false)];
  }

  lemma SecondProbe(d: Daemon)
    requires d == Daemon(map[1 := Rec(2, 0, false), 2 := Rec(1, 0, false)], [2, 1], [], [], [], 0, 0, 0, 0)
    ensures Out(d, 0, 0, 0).1 == [Probe([2, 1], [2, 1])]
  {
    NoRoom(d);
    assert Graduate(d, 2) == d && Graduate(d, 1) == d && Graduate(d, 0) == d;
    assert OutPause(OutPublish(OutNow(d, 0), 0), 0) == d;
  }

  /**
    A unique record is added, a probe is sent, another one is added, and a probe is sent again,
    all at the same clock.
   */
  lemma ProbeSpacingFails()
    ensures
      var call := Call(0, 0, 0);
      var w1 := Apply(START, Create(1, true));
      var w2 := Apply(w1, call);
      CanStep(w2, Create(2, true))
      && var w3 := Apply(w2, Create(2, true));
         SendsProbe(w1, call) && SendsProbe(w3, call) && w1.d.now == w3.d.now
         && ProbesOnce(w1, call, [Create(2, true)]) && Run(w2, [Create(2, true)]) == w3
  {
    var call := Call(0, 0, 0);
    var w1 := Apply(START, Create(1, true));
    var w2 := Apply(w1, call);
    var w3 := Apply(w2, Create(2, true));
    StepKeeps(START, Create(1, true));
    FirstProbe(w1.d);
    assert Out(w1.d, 0, 0, 0).1[0].Probe?;
    SecondProbe(w3.d);
    assert Out(w3.d, 0, 0, 0).1[0].Probe?;
    assert [Create(2, true)][1..] == [];
    assert CanRun(w3, []) && CanRun(w2, [Create(2, true)]);
  }
}
