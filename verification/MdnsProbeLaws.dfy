/**
  What a call of mdnsd_out does to every record, and that nothing is left behind: a record
  that has been probed is announced four times, and a question for it is answered.
 */
module MdnsProbeLaws {
  import opened MdnsProbe

  function Least(a: nat, b: nat): nat {
    if a < b then a else b
  }

  // ---------------------------------------------------------------- the probe list

  /** The records of `list` that have not been checked three times yet. */
  function Unchecked(recs: map<Id, Rec>, list: seq<Id>): seq<Id> {
    if list == [] then []
    else if list[0] in recs && recs[list[0]].unique == 4 then Unchecked(recs, list[1..])
    else [list[0]] + Unchecked(recs, list[1..])
  }

  lemma {:induction false} UncheckedAre(recs: map<Id, Rec>, list: seq<Id>)
    ensures
      forall id :: id in Unchecked(recs, list) <==> id in list && !(id in recs && recs[id].unique == 4)
    decreases |list|
  {
    if list != [] {
      assert list == [list[0]] + list[1..];
      UncheckedAre(recs, list[1..]);
    }
  }

  /** What the other records count does not matter. */
  lemma {:induction false} UncheckedDepends(recs: map<Id, Rec>, recs': map<Id, Rec>, list: seq<Id>)
    requires forall id :: id in list ==> (id in recs && recs[id].unique == 4 <==> id in recs' && recs'[id].unique == 4)
    ensures Unchecked(recs, list) == Unchecked(recs', list)
    decreases |list|
  {
    if list != [] {
      assert list[0] in list;
      UncheckedDepends(recs, recs', list[1..]);
    }
  }

  /** A record that has been checked three times, when it leaves the probe list. */
  function Graduation(d: Daemon, i: nat): Daemon
    requires i < |d.probing| && d.probing[i] in d.recs
  {
    var id := d.probing[i];
    var d' := d.(probing := d.probing[..i] + d.probing[i + 1..], recs := d.recs[id := d.recs[id].(unique := 5)]);
    Publish(d', id)
  }

  /** `d'` is `d` without record number `i` on the probe list, which is queued for announcing. */
  ghost predicate LeftBy(d: Daemon, i: nat, d': Daemon) {
    && i < |d.probing| && d.probing[i] in d.recs
    && var id := d.probing[i];
       && d'.probing == d.probing[..i] + d.probing[i + 1..]
       && d'.recs == d.recs[id := d.recs[id].(unique := 5, tries := 0)]
       && d'.publish == d.now
       && (forall x :: x in d'.aPublish <==> x in d.aPublish || x == id)
       && d'.aNow == d.aNow && d'.aPause == d.aPause && d'.pause == d.pause && d'.now == d.now && d'.probe == d.probe
  }

  lemma GraduationLeaves(d: Daemon, i: nat)
    requires NoDup(d.aPublish) && i < |d.probing| && d.probing[i] in d.recs
    ensures LeftBy(d, i, Graduation(d, i))
  {
    PushKeeps(d.aPublish, d.probing[i]);
  }

  lemma GraduationKeeps(d: Daemon, i: nat)
    requires Inv(d) && i < |d.probing| && d.recs[d.probing[i]].unique == 4
    ensures Inv(Graduation(d, i)) && Graduate(d, i) == Graduate(Graduation(d, i), i)
  {
    LeaveProbing(d, i);
  }

  /** What the first loop over the probe list has done when it is over. */
  ghost predicate Graduated(d: Daemon, d': Daemon) {
    && d'.probing == Unchecked(d.recs, d.probing)
    && d'.recs.Keys == d.recs.Keys
    && (forall id :: id in d.recs ==>
          d'.recs[id]
          == if id in d.probing && d.recs[id].unique == 4 then d.recs[id].(unique := 5, tries := 0) else d.recs[id])
    && (forall id ::
          id in d'.aPublish
          <==> id in d.aPublish || (id in d.probing && id in d.recs && d.recs[id].unique == 4))
    && d'.publish == (if d'.probing == d.probing then d.publish else d.now)
    && d'.aNow == d.aNow && d'.aPause == d.aPause && d'.pause == d.pause && d'.now == d.now && d'.probe == d.probe
  }

  lemma {:induction false} UncheckedShorter(recs: map<Id, Rec>, list: seq<Id>)
    ensures |Unchecked(recs, list)| <= |list|
    ensures (exists id :: id in list && id in recs && recs[id].unique == 4) ==> |Unchecked(recs, list)| < |list|
    decreases |list|
  {
    if list != [] {
      assert list == [list[0]] + list[1..];
      UncheckedShorter(recs, list[1..]);
    }
  }

  lemma {:induction false} UncheckedSame(recs: map<Id, Rec>, list: seq<Id>)
    requires forall id :: id in list && id in recs ==> recs[id].unique != 4
    ensures Unchecked(recs, list) == list
    decreases |list|
  {
    if list != [] {
      assert list == [list[0]] + list[1..];
      UncheckedSame(recs, list[1..]);
    }
  }

  lemma {:induction false} UncheckedWithout(recs: map<Id, Rec>, list: seq<Id>, i: nat)
    requires i < |list| && list[i] in recs && recs[list[i]].unique == 4
    ensures Unchecked(recs, list[..i] + list[i + 1..]) == Unchecked(recs, list)
    decreases i
  {
    if i == 0 {
      assert list[..0] + list[1..] == list[1..];
    } else {
      UncheckedWithout(recs, list[1..], i - 1);
      var short := list[..i] + list[i + 1..];
      assert short[1..] == list[1..][..i - 1] + list[1..][i..];
    }
  }

  lemma ProbingLeft(d: Daemon, i: nat, d1: Daemon)
    requires NoDup(d.probing) && LeftBy(d, i, d1) && d.recs[d.probing[i]].unique == 4
    ensures Unchecked(d1.recs, d1.probing) == Unchecked(d.recs, d.probing)
    ensures |Unchecked(d.recs, d.probing)| < |d.probing|
    ensures forall x :: x in d1.probing <==> x in d.probing && x != d.probing[i]
  {
    var id := d.probing[i];
    assert d.probing == d.probing[..i] + [id] + d.probing[i + 1..];
    assert forall x :: x in d1.probing <==> x in d.probing && x != id;
    UncheckedWithout(d.recs, d.probing, i);
    UncheckedDepends(d1.recs, d.recs, d1.probing);
    UncheckedShorter(d.recs, d.probing);
  }

  /** One record leaves, and the rest of the loop does the same as before. */
  lemma GraduatedStep(d: Daemon, i: nat, d1: Daemon, d2: Daemon)
    requires NoDup(d.probing) && LeftBy(d, i, d1) && d.recs[d.probing[i]].unique == 4 && Graduated(d1, d2)
    ensures Graduated(d, d2)
  {
    var id := d.probing[i];
    ProbingLeft(d, i, d1);
    assert id in d.probing;
    forall x | x in d.recs
      ensures
        d2.recs[x] == if x in d.probing && d.recs[x].unique == 4 then d.recs[x].(unique := 5, tries := 0) else d.recs[x]
    {
      assert x in d1.recs;
    }
  }

  lemma {:induction false} GraduateExact(d: Daemon, i: nat)
    requires Inv(d) && i <= |d.probing| && forall j :: 0 <= j < i ==> d.recs[d.probing[j]].unique < 4
    ensures Graduated(d, Graduate(d, i))
    decreases |d.probing| - i
  {
    if i == |d.probing| {
      UncheckedSame(d.recs, d.probing);
    } else if d.recs[d.probing[i]].unique == 4 {
      var d1 := Graduation(d, i);
      GraduationLeaves(d, i);
      GraduationKeeps(d, i);
      assert forall j :: 0 <= j < i ==> d1.probing[j] == d.probing[j];
      GraduateExact(d1, i);
      GraduatedStep(d, i, d1, Graduate(d1, i));
    } else {
      GraduateExact(d, i + 1);
    }
  }

  // ---------------------------------------------------------------- a call without answers

  /** A call that is free for probes, at a time when they are due. */
  predicate IsQuiet(d: Daemon, step: Step) {
    step.Call? && Answers(d, step.r1, step.r2, step.r3) == [] && d.probing != [] && d.probe <= d.now
  }

  /** The records that stay on the probe list, each checked once more. */
  function OnceMore(recs: map<Id, Rec>, list: seq<Id>): map<Id, Rec> {
    map id | id in recs :: if id in list then recs[id].(unique := recs[id].unique + 1) else recs[id]
  }

  /**
    A call that is free for probes takes the records off the probe list that have been
    checked three times and queues them for announcing, at once; it asks for all the others
    in one message that carries them too, and waits for 250 milliseconds.
   */
  ghost predicate ProbeCall(d: Daemon, d': Daemon, sent: seq<Packet>) {
    var left := Unchecked(d.recs, d.probing);
    && d'.probing == left && d'.recs.Keys == d.recs.Keys
    && (forall id :: id in d.recs ==>
          d'.recs[id]
          == if id !in d.probing then d.recs[id]
             else if d.recs[id].unique == 4 then d.recs[id].(unique := 5, tries := 0)
             else d.recs[id].(unique := d.recs[id].unique + 1))
    && (forall id ::
          id in d'.aPublish <==> id in d.aPublish || (id in d.probing && id in d.recs && d.recs[id].unique == 4))
    && d'.publish == (if left == d.probing then d.publish else d.now)
    && sent == (if left == [] then [] else [Probe(left, left)])
    && d'.probe == (if left == [] then d.probe else d.now + 250_000)
    && d'.aNow == d.aNow && d'.aPause == d.aPause && d'.pause == d.pause && d'.now == d.now
  }

  lemma OutProbeExact(d: Daemon)
    requires Inv(d) && d.probing != [] && d.probe <= d.now
    ensures ProbeCall(d, OutProbe(d).0, OutProbe(d).1)
  {
    OutProbeIs(d);
    GraduateExact(d, 0);
    UncheckedAre(d.recs, d.probing);
  }

  // ---------------------------------------------------------------- answers

  /** The records of a list that is due for which there is room. */
  predicate Goes(list: seq<Id>, due: bool, room: nat, id: Id) {
    due && id in list[..Least(room, |list|)]
  }

  lemma PrefixIs(list: seq<Id>, room: nat)
    ensures Prefix(list, room) == list[..Least(room, |list|)] && Rest(list, room) == list[Least(room, |list|)..]
  {
  }

  /** The records of which an answer is sent: from the three lists, as far as there is room and it is time. */
  predicate Answered(d: Daemon, r1: nat, r2: nat, r3: nat, id: Id) {
    || Goes(d.aNow, true, r1, id) || Goes(d.aPublish, d.publish <= d.now, r2, id)
    || Goes(d.aPause, d.pause <= d.now, r3, id)
  }

  /** What a call does to the record `id` when it sends answers. */
  ghost predicate AnswerCall(d: Daemon, d': Daemon, r1: nat, r2: nat, r3: nat, id: Id) {
    var announced := Goes(d.aPublish, d.publish <= d.now, r2, id);
    && (id in d'.recs <==> id in d.recs && !(Answered(d, r1, r2, r3, id) && d.recs[id].gone))
    && (id in d'.recs ==> d'.recs[id] == d.recs[id].(tries := d.recs[id].tries + if announced then 1 else 0))
    && (id in d'.aNow <==> id in d.aNow && !Goes(d.aNow, true, r1, id))
    && (id in d'.aPause <==> id in d.aPause && !Goes(d.aPause, d.pause <= d.now, r3, id))
    && (id in d'.aPublish <==>
          id in d.aPublish && (announced ==> id in d.recs && !d.recs[id].gone && d.recs[id].tries + 1 < 4))
  }

  lemma NowExact(d: Daemon, room: nat, id: Id)
    requires Inv(d)
    ensures
      var d', sent := OutNow(d, room), Goes(d.aNow, true, room, id);
      && (id in d'.recs <==> id in d.recs && !(sent && d.recs[id].gone))
      && (id in d'.recs ==> d'.recs[id] == d.recs[id])
      && (id in d'.aNow <==> id in d.aNow && !sent) && d' == d.(recs := d'.recs, aNow := d'.aNow)
  {
    PrefixIs(d.aNow, room);
    PrefixAndRest(d.aNow, room);
  }

  lemma PauseExact(d: Daemon, room: nat, id: Id)
    requires Inv(d)
    ensures
      var d', sent := OutPause(d, room), Goes(d.aPause, d.pause <= d.now, room, id);
      && (id in d'.recs <==> id in d.recs && !(sent && d.recs[id].gone))
      && (id in d'.recs ==> d'.recs[id] == d.recs[id])
      && (id in d'.aPause <==> id in d.aPause && !sent) && d' == d.(recs := d'.recs, aPause := d'.aPause)
  {
    PrefixIs(d.aPause, room);
    PrefixAndRest(d.aPause, room);
  }

  lemma PublishExact(d: Daemon, room: nat, id: Id)
    requires Inv(d)
    ensures
      var d', sent := OutPublish(d, room), Goes(d.aPublish, d.publish <= d.now, room, id);
      && (id in d'.recs <==> id in d.recs && !(sent && d.recs[id].gone))
      && (id in d'.recs ==> d'.recs[id] == d.recs[id].(tries := d.recs[id].tries + if sent then 1 else 0))
      && (id in d'.aPublish <==>
            id in d.aPublish && (!sent || (!d.recs[id].gone && d.recs[id].tries + 1 < 4)))
      && d' == d.(recs := d'.recs, aPublish := d'.aPublish, publish := d'.publish)
      && d'.publish
         == (if d.aPublish != [] && d.publish <= d.now && d'.aPublish != [] then d.now + 2_000_000 else d.publish)
  {
    PrefixIs(d.aPublish, room);
    PrefixAndRest(d.aPublish, room);
    var sent := Prefix(d.aPublish, room);
    KeptKeeps(Tried(d.recs, sent), sent);
  }

  /** The three lists have no record in common. */
  lemma ListsDiffer(d: Daemon, id: Id)
    requires Inv(d)
    ensures !(id in d.aNow && id in d.aPublish) && !(id in d.aNow && id in d.aPause)
    ensures !(id in d.aPublish && id in d.aPause)
  {
  }

  lemma AnswersExact(d: Daemon, r1: nat, r2: nat, r3: nat, id: Id)
    requires Inv(d)
    ensures
      var d' := OutPause(OutPublish(OutNow(d, r1), r2), r3);
      && AnswerCall(d, d', r1, r2, r3, id) && d'.now == d.now && d'.probe == d.probe && d'.probing == d.probing
      && d'.pause == d.pause
      && d'.publish
         == (if d.aPublish != [] && d.publish <= d.now && d'.aPublish != [] then d.now + 2_000_000 else d.publish)
    ensures id in Answers(d, r1, r2, r3) <==> Answered(d, r1, r2, r3, id)
  {
    var d1 := OutNow(d, r1);
    var d2 := OutPublish(d1, r2);
    OutNowKeeps(d, r1);
    OutPublishKeeps(d1, r2);
    NowExact(d, r1, id);
    PublishExact(d1, r2, id);
    PauseExact(d2, r3, id);
    ListsDiffer(d, id);
    PrefixIs(d.aNow, r1);
    PrefixIs(d1.aPublish, r2);
    PrefixIs(d2.aPause, r3);
  }

  /** A call that sends answers does nothing else; any other call sends the probe, if one is due. */
  lemma CallExact(d: Daemon, r1: nat, r2: nat, r3: nat)
    requires Inv(d)
    ensures
      var (d', sent) := Out(d, r1, r2, r3);
      var answers := Answers(d, r1, r2, r3);
      if answers != [] then
        && sent == [Reply(answers)] && d'.probing == d.probing && d'.probe == d.probe
        && forall id :: AnswerCall(d, d', r1, r2, r3, id) && (id in answers <==> Answered(d, r1, r2, r3, id))
      else
        var quiet := OutPause(OutPublish(OutNow(d, r1), r2), r3);
        && (forall id :: AnswerCall(d, quiet, r1, r2, r3, id) && !Answered(d, r1, r2, r3, id))
        && quiet.probing == d.probing && quiet.probe == d.probe && quiet.now == d.now
        && if d.probing != [] && d.probe <= d.now then ProbeCall(quiet, d', sent) else d' == quiet && sent == []
  {
    forall id ensures
        AnswerCall(d, OutPause(OutPublish(OutNow(d, r1), r2), r3), r1, r2, r3, id)
        && (id in Answers(d, r1, r2, r3) <==> Answered(d, r1, r2, r3, id))
    {
      AnswersExact(d, r1, r2, r3, id);
    }
    AnswersExact(d, r1, r2, r3, 0);
    if Answers(d, r1, r2, r3) == [] && d.probing != [] && d.probe <= d.now {
      OutAnswersKeeps(d, r1, r2, r3);
      OutProbeExact(OutPause(OutPublish(OutNow(d, r1), r2), r3));
    }
  }

  // ---------------------------------------------------------------- probing goes on

  /** The number of calls in a run that are free for probes when one is due. */
  function QuietCalls(w: World, steps: seq<Step>): nat
    requires CanRun(w, steps)
    decreases |steps|
  {
    if steps == [] then 0
    else (if IsQuiet(w.d, steps[0]) then 1 else 0) + QuietCalls(Apply(w, steps[0]), steps[1..])
  }

  /** The record is not removed by the step. */
  predicate Leaves(step: Step, id: Id) {
    step != Remove(id)
  }

  /** One step of a record that is probing or has been probed. */
  lemma StepChecks(w: World, step: Step, id: Id)
    requires WorldInv(w) && CanStep(w, step) && Leaves(step, id)
    requires id in w.d.recs && w.d.recs[id].unique != 0 && !w.d.recs[id].gone
    ensures
      var d' := Apply(w, step).d;
      && id in d'.recs && !d'.recs[id].gone
      && d'.recs[id].unique == Least(5, w.d.recs[id].unique + if IsQuiet(w.d, step) then 1 else 0)
  {
    match step
    case Call(r1, r2, r3) =>
      CallExact(w.d, r1, r2, r3);
      var quiet := OutPause(OutPublish(OutNow(w.d, r1), r2), r3);
      assert AnswerCall(w.d, quiet, r1, r2, r3, id);
    case _ =>
  }

  lemma LeastTwice(u: nat, a: nat, n: nat)
    ensures Least(5, Least(5, u + a) + n) == Least(5, u + (a + n))
  {
  }

  /**
    Probing makes progress: in every run in which the record is not removed, it is checked
    once by every call that is free for probes when one is due, until it has been
    checked three times, and leaves the probe list with a fourth such call.
   */
  lemma {:induction false} ProbingProgresses(w: World, steps: seq<Step>, id: Id)
    requires WorldInv(w) && CanRun(w, steps) && forall s :: s in steps ==> Leaves(s, id)
    requires id in w.d.recs && w.d.recs[id].unique != 0 && !w.d.recs[id].gone
    ensures
      var d' := Run(w, steps).d;
      id in d'.recs && !d'.recs[id].gone && d'.recs[id].unique == Least(5, w.d.recs[id].unique + QuietCalls(w, steps))
    decreases |steps|
  {
    if steps != [] {
      var w1, a := Apply(w, steps[0]), if IsQuiet(w.d, steps[0]) then 1 else 0;
      StepChecks(w, steps[0], id);
      StepKeeps(w, steps[0]);
      ProbingProgresses(w1, steps[1..], id);
      assert Run(w, steps) == Run(w1, steps[1..]) && QuietCalls(w, steps) == a + QuietCalls(w1, steps[1..]);
      LeastTwice(w.d.recs[id].unique, a, QuietCalls(w1, steps[1..]));
    }
  }

  // ---------------------------------------------------------------- announcing goes on

  /** The records of which data was set in a run. */
  function DataSet(steps: seq<Step>): set<Id> {
    set s | s in steps && s.SetData? :: s.id
  }

  /**
    Every record that has been probed, and every shared one of which data was set (those of
    `published`), is queued for announcing exactly as long as it was announced less than
    four times.
   */
  ghost predicate Announcing(d: Daemon, published: set<Id>) {
    forall id :: id in d.recs ==>
      && d.recs[id].tries <= 4
      && (d.recs[id].unique == 5 || (d.recs[id].unique == 0 && id in published) ==>
            (id in d.aPublish <==> d.recs[id].tries < 4))
  }

  lemma CallAnnounces(w: World, r1: nat, r2: nat, r3: nat, published: set<Id>)
    requires WorldInv(w) && Announcing(w.d, published)
    ensures Announcing(Apply(w, Call(r1, r2, r3)).d, published)
  {
    CallExact(w.d, r1, r2, r3);
    var quiet := OutPause(OutPublish(OutNow(w.d, r1), r2), r3);
    var d' := Apply(w, Call(r1, r2, r3)).d;
    forall id | id in d'.recs
      ensures d'.recs[id].tries <= 4
      ensures
        d'.recs[id].unique == 5 || (d'.recs[id].unique == 0 && id in published) ==>
          (id in d'.aPublish <==> d'.recs[id].tries < 4)
    {
      assert AnswerCall(w.d, quiet, r1, r2, r3, id);
      assert Answers(w.d, r1, r2, r3) != [] ==> AnswerCall(w.d, d', r1, r2, r3, id);
    }
  }

  lemma StepAnnounces(w: World, step: Step, published: set<Id>)
    requires WorldInv(w) && CanStep(w, step) && Announcing(w.d, published) && published <= w.made
    ensures
      var published' := if step.SetData? then published + {step.id} else published;
      Announcing(Apply(w, step).d, published') && published' <= Apply(w, step).made
  {
    match step
    case Call(r1, r2, r3) => CallAnnounces(w, r1, r2, r3, published);
    case SetData(id) => PushKeeps(w.d.aPublish, id);
    case Remove(id) =>
      if IsProbing(w.d.recs[id]) {
        UnlinkKeeps(w.d.probing, id);
      }
    case _ =>
  }

  lemma {:induction false} RunAnnounces(w: World, steps: seq<Step>, published: set<Id>)
    requires WorldInv(w) && CanRun(w, steps) && Announcing(w.d, published) && published <= w.made
    ensures Announcing(Run(w, steps).d, published + DataSet(steps))
    decreases |steps|
  {
    if steps == [] {
      assert published + DataSet(steps) == published;
    } else {
      StepAnnounces(w, steps[0], published);
      StepKeeps(w, steps[0]);
      var published' := if steps[0].SetData? then published + {steps[0].id} else published;
      RunAnnounces(Apply(w, steps[0]), steps[1..], published');
      assert steps == [steps[0]] + steps[1..];
      assert published + DataSet(steps) == published' + DataSet(steps[1..]);
    }
  }

  /**
    After three probes a record that has not been freed is announced: it waits at the end
    of probing, or it has left the probe list and is queued for announcing exactly as long
    as it was announced less than four times.
   */
  lemma ProbedIsAnnounced(steps: seq<Step>, id: Id)
    requires CanRun(START, steps)
    ensures
      var w := Run(START, steps);
      id in w.d.recs && id in w.uniques && Probes(w.log, id) == 3 ==>
        || (w.d.recs[id].unique == 4 && id in w.d.probing)
        || (w.d.recs[id].unique == 5 && (id in w.d.aPublish <==> w.d.recs[id].tries < 4))
  {
    RunKeeps(START, steps);
    RunAnnounces(START, steps, {});
  }

  /** A call without answers leaves the records as they are. */
  lemma QuietKeeps(d: Daemon, r1: nat, r2: nat, r3: nat, id: Id)
    requires Inv(d) && Answers(d, r1, r2, r3) == [] && id in d.recs
    ensures
      var quiet := OutPause(OutPublish(OutNow(d, r1), r2), r3);
      id in quiet.recs && quiet.recs[id] == d.recs[id] && quiet.probing == d.probing && quiet.now == d.now
  {
    AnswersExact(d, r1, r2, r3, id);
  }

  lemma QuietProbes(w: World, r1: nat, r2: nat, r3: nat)
    requires WorldInv(w) && IsQuiet(w.d, Call(r1, r2, r3))
    ensures
      var quiet := OutPause(OutPublish(OutNow(w.d, r1), r2), r3);
      ProbeCall(quiet, Apply(w, Call(r1, r2, r3)).d, Out(w.d, r1, r2, r3).1)
  {
    var quiet := OutPause(OutPublish(OutNow(w.d, r1), r2), r3);
    OutAnswersKeeps(w.d, r1, r2, r3);
    AnswersExact(w.d, r1, r2, r3, 0);
    OutProbeExact(quiet);
    CallIsProbe(w, r1, r2, r3, quiet, OutProbe(quiet));
  }

  lemma CallIsProbe(w: World, r1: nat, r2: nat, r3: nat, quiet: Daemon, out: (Daemon, seq<Packet>))
    requires CanStep(w, Call(r1, r2, r3)) && Answers(w.d, r1, r2, r3) == []
    requires quiet == OutPause(OutPublish(OutNow(w.d, r1), r2), r3) && out == OutProbe(quiet)
    ensures Out(w.d, r1, r2, r3) == out && Apply(w, Call(r1, r2, r3)).d == out.0
  {
  }

  /** The next call that is free for probes when one is due announces such a record, at once. */
  lemma FourthCallAnnounces(w: World, r1: nat, r2: nat, r3: nat, id: Id)
    requires WorldInv(w) && IsQuiet(w.d, Call(r1, r2, r3)) && id in w.d.recs && w.d.recs[id].unique == 4
    ensures
      var d' := Apply(w, Call(r1, r2, r3)).d;
      && id !in d'.probing && id in d'.recs && d'.recs[id] == w.d.recs[id].(unique := 5, tries := 0)
      && id in d'.aPublish && d'.publish == d'.now == w.d.now
  {
    var quiet := OutPause(OutPublish(OutNow(w.d, r1), r2), r3);
    QuietProbes(w, r1, r2, r3);
    QuietKeeps(w.d, r1, r2, r3, id);
    assert id in w.d.probing;
    UncheckedAre(quiet.recs, quiet.probing);
  }

  /** A call at its time, with room, sends every record that is queued for announcing, and counts it. */
  lemma AnnouncedIsSent(w: World, r1: nat, r2: nat, r3: nat, id: Id)
    requires WorldInv(w) && id in w.d.aPublish && w.d.publish <= w.d.now && |w.d.aPublish| <= r2
    ensures
      var w' := Apply(w, Call(r1, r2, r3));
      && w'.log == w.log + [Reply(Answers(w.d, r1, r2, r3))] && id in Answers(w.d, r1, r2, r3)
      && (id in w'.d.recs ==> w'.d.recs[id].tries == w.d.recs[id].tries + 1)
      && (w'.d.aPublish != [] ==> w'.d.publish == w.d.now + 2_000_000)
  {
    CallExact(w.d, r1, r2, r3);
    AnswersExact(w.d, r1, r2, r3, id);
    assert w.d.aPublish[..Least(r2, |w.d.aPublish|)] == w.d.aPublish;
    assert AnswerCall(w.d, Apply(w, Call(r1, r2, r3)).d, r1, r2, r3, id);
  }

  // ---------------------------------------------------------------- questions are answered

  /** The record waits for an answer to be sent, at `time` at the latest. */
  predicate Waits(d: Daemon, id: Id, time: nat) {
    || (id in d.aPublish && d.publish <= time) || id in d.aNow || (id in d.aPause && d.pause <= time)
  }

  /**
    A question for a record that has been probed, or of which data was set, is answered:
    while it is announced, or known to be unique, at once, and otherwise after at most 119
    microseconds.
   */
  lemma QuestionQueues(w: World, id: Id, published: set<Id>)
    requires WorldInv(w) && Announcing(w.d, published) && CanStep(w, Asked(id))
    requires w.d.recs[id].unique == 5 || id in published
    ensures
      var d' := Apply(w, Asked(id)).d;
      && d'.recs == w.d.recs && d'.probing == w.d.probing && d'.now == w.d.now
      && Waits(d', id, if d'.recs[id].tries < 4 || d'.recs[id].unique == 5 then w.d.now else w.d.now + 119)
      && (d'.recs[id].tries == 4 && d'.recs[id].unique == 0 ==>
            id in d'.aPause && w.d.now + 20 <= d'.pause)
      && forall x :: x != id ==>
           && (x in d'.aNow <==> x in w.d.aNow) && (x in d'.aPause <==> x in w.d.aPause)
           && (x in d'.aPublish <==> x in w.d.aPublish)
  {
    PushKeeps(w.d.aNow, id);
    PushKeeps(w.d.aPause, id);
  }

  /** A call at that time, with room for all, sends the answer. */
  lemma WaitingIsAnswered(w: World, r1: nat, r2: nat, r3: nat, id: Id)
    requires WorldInv(w) && Waits(w.d, id, w.d.now)
    requires |w.d.aNow| <= r1 && |w.d.aPublish| <= r2 && |w.d.aPause| <= r3
    ensures
      && Apply(w, Call(r1, r2, r3)).log == w.log + [Reply(Answers(w.d, r1, r2, r3))]
      && id in Answers(w.d, r1, r2, r3)
  {
    CallExact(w.d, r1, r2, r3);
    AnswersExact(w.d, r1, r2, r3, id);
    assert w.d.aNow[..Least(r1, |w.d.aNow|)] == w.d.aNow;
    assert w.d.aPublish[..Least(r2, |w.d.aPublish|)] == w.d.aPublish;
    assert w.d.aPause[..Least(r3, |w.d.aPause|)] == w.d.aPause;
  }

  // ---------------------------------------------------------------- making and removing

  /** A unique record is on the probe list at once, and the next probe is due; a shared one is on no list. */
  lemma MadeExact(w: World, id: Id, unique: bool)
    requires WorldInv(w) && id !in w.made
    ensures
      var d' := Apply(w, Create(id, unique)).d;
      && d'.recs == w.d.recs[id := Rec(if unique then 1 else 0, 0, false)]
      && d'.probing == (if unique then [id] + w.d.probing else w.d.probing)
      && d'.probe == (if unique then w.d.now else w.d.probe)
      && d' == w.d.(recs := d'.recs, probing := d'.probing, probe := d'.probe)
  {
    assert id !in w.d.probing;
  }

  /** Setting data announces a record from the start, at once; while it is probing nothing happens. */
  lemma DataExact(w: World, id: Id)
    requires WorldInv(w) && CanStep(w, SetData(id))
    ensures
      var d' := Apply(w, SetData(id)).d;
      if 1 <= w.d.recs[id].unique <= 4 then d' == w.d
      else
        && d'.recs == w.d.recs[id := w.d.recs[id].(tries := 0)] && d'.publish == w.d.now && id in d'.aPublish
        && (forall x :: x != id ==> (x in d'.aPublish <==> x in w.d.aPublish))
        && d' == w.d.(recs := d'.recs, publish := d'.publish, aPublish := d'.aPublish)
  {
    PushKeeps(w.d.aPublish, id);
  }

  /**
    A record that is removed while it is probing is gone at once; any other one is sent once
    more, with a time to live of 0, and freed by the call that sends it.
   */
  lemma RemovedExact(w: World, id: Id, published: set<Id>)
    requires WorldInv(w) && Announcing(w.d, published) && id in w.d.recs
    requires w.d.recs[id].unique != 0 || id in published
    ensures
      var d' := Apply(w, Remove(id)).d;
      if 1 <= w.d.recs[id].unique <= 4 then id !in d'.recs && id !in d'.probing && d'.recs == w.d.recs - {id}
      else d'.recs == w.d.recs[id := w.d.recs[id].(gone := true)] && Waits(d', id, w.d.now + 119)
  {
    if IsProbing(w.d.recs[id]) {
      UnlinkKeeps(w.d.probing, id);
    } else {
      PushKeeps(w.d.aNow, id);
      PushKeeps(w.d.aPause, id);
    }
  }

  /** A record that is gone is freed by the call that sends it. */
  lemma GoneIsFreed(w: World, r1: nat, r2: nat, r3: nat, id: Id)
    requires WorldInv(w) && id in w.d.recs && w.d.recs[id].gone && id in Answers(w.d, r1, r2, r3)
    ensures id !in Apply(w, Call(r1, r2, r3)).d.recs
  {
    CallExact(w.d, r1, r2, r3);
    AnswersExact(w.d, r1, r2, r3, id);
  }
}
