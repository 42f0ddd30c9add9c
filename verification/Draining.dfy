/** The pipeline comes to rest: every internal step uses up work, and where it stops everything is delivered. */
module Draining {
  import opened Wrappers
  import opened Messages
  import opened Session
  import opened Pipeline
  import opened PipelineSafety
  import opened Guarantees
  import opened Progress
  import History

  // Sums over a map ---------------------------------------------------------------------------------

  ghost function Sum(w: map<string, nat>): nat
    decreases |w.Keys|
  {
    if w == map[] then 0
    else
      var k :| k in w;
      assert (w - {k}).Keys == w.Keys - {k};
      w[k] + Sum(w - {k})
  }

  lemma {:induction false} SumRemove(w: map<string, nat>, k: string)
    requires k in w
    ensures Sum(w) == w[k] + Sum(w - {k})
    decreases |w.Keys|
  {
    var j :| j in w && Sum(w) == w[j] + Sum(w - {j});
    if j != k {
      assert (w - {j}).Keys == w.Keys - {j} && (w - {k}).Keys == w.Keys - {k};
      SumRemove(w - {j}, k);
      SumRemove(w - {k}, j);
      assert w - {j} - {k} == w - {k} - {j};
    }
  }

  /** Changing one entry changes the sum by as much. */
  lemma SumChange(w: map<string, nat>, v: map<string, nat>, k: string)
    requires w.Keys == v.Keys && k in w && forall j :: j in w && j != k ==> v[j] == w[j]
    ensures Sum(v) - v[k] == Sum(w) - w[k]
  {
    SumRemove(w, k);
    SumRemove(v, k);
    assert w - {k} == v - {k};
  }

  lemma {:induction false} SumRaised(w: map<string, nat>, v: map<string, nat>, c: nat)
    requires w.Keys == v.Keys && forall j :: j in w ==> v[j] <= w[j] + c
    ensures Sum(v) <= Sum(w) + |w.Keys| * c
    decreases |w.Keys|
  {
    if w == map[] {
      assert v == map[];
    } else {
      var k :| k in w;
      SumRemove(w, k);
      SumRemove(v, k);
      assert (w - {k}).Keys == w.Keys - {k} && (v - {k}).Keys == v.Keys - {k};
      SumRaised(w - {k}, v - {k}, c);
      assert |w.Keys| * c == |(w - {k}).Keys| * c + c by { Less(|w.Keys|, c); }
    }
  }

  lemma Less(n: nat, c: nat)
    requires n > 0
    ensures n * c == (n - 1) * c + c
  {
  }

  // The measure -------------------------------------------------------------------------------------

  /**
    Work a topic entry can still cause at one instance: three forwarding steps, and a send and a write
    for each of `n` sessions.
   */
  function PerEntry(n: nat): nat { 2 * n + 4 }

  /** Work one publication can cause at `k` instances. */
  function PerPublish(n: nat, k: nat): nat { k * PerEntry(n) + 2 }

  function ServeWork(x: Session, p: nat): nat {
    match x.serve
    case AwaitListen => p + 9
    case AwaitBroadcast => p + 7
    case InsertingMember => p + 6
    case AddingMember(_) => p + 4
    case PublishingJoined(_) => p + 3
    case ClosingInbound(_) => 4
    case StoppingBroadcast(_) => 2
    case StartingBroadcast(_) => 1
    case Returned(_) => 0
  }

  function PublishWork(x: Session, p: nat): nat {
    match x.publish
    case Inserting(_) => p + 1
    case Deleting => p + 1
    case Publishing(_) => p
    case Reporting => 2
    case _ => 0
  }

  function SessionWork(x: Session, p: nat): nat {
    ServeWork(x, p) + PublishWork(x, p)
    + (if x.broadcast.Handing? then p + 2 else 0)
    + (if x.listen.Writing? then 1 else 0)
    + (if x.closed && (x.listen.Writing? || x.listen == Receiving) then 1 else 0)
  }

  function RoomWork(n: Instance, sessions: nat): int {
    if n.room.FanningOut? then 2 * (sessions - |n.room.visited|) + 1 else 0
  }

  function InstanceWork(topic: nat, n: Instance, sessions: nat): nat {
    var w := PerEntry(sessions);
    (if n.taken <= topic then (topic - n.taken) * w else 0)
    + (if n.queue.Some? then w - 1 else 0)
    + (if n.sub.Some? then w - 2 else 0)
    + (if RoomWork(n, sessions) > 0 then RoomWork(n, sessions) else 0)
  }

  function SessionWorks(s: State): map<string, nat> {
    var p := PerPublish(|s.ses.Keys|, |s.inst.Keys|);
    map m | m in s.ses :: SessionWork(s.ses[m], p)
  }

  function InstanceWorks(s: State): map<string, nat> {
    map i | i in s.inst :: InstanceWork(|s.topic|, s.inst[i], |s.ses.Keys|)
  }

  /** An upper bound on the internal steps still possible. */
  ghost function Work(s: State): nat {
    Sum(SessionWorks(s)) + Sum(InstanceWorks(s))
  }

  // Every internal step uses up work ----------------------------------------------------------------

  lemma ActWork(x: Session, a: Action, p: nat)
    requires Can(x, a) && Internal(Own("", a)) && p >= 2
    ensures SessionWork(Act(x, a), p) < SessionWork(x, p)
  {
  }

  lemma SaveWork(x: Session, row: Row, msg: Message, p: nat)
    requires CanSave(x, row, msg)
    ensures SessionWork(Save(x, row, msg), p) < SessionWork(x, p)
  {
  }

  lemma PublishedWork(x: Session, ok: bool, p: nat)
    requires Outgoing(x).Some?
    ensures SessionWork(AfterPublish(x, ok), p) + p <= SessionWork(x, p)
  {
  }

  lemma JoinWork(x: Session, next: int, p: nat)
    requires x.serve.AddingMember?
    ensures SessionWork(Join(x, next), p) < SessionWork(x, p)
  {
  }

  lemma ReceiveWork(x: Session, msg: Message, expected: bool, p: nat)
    requires x.listen == Receiving && !x.closed
    ensures SessionWork(Receive(x, msg, expected), p) == SessionWork(x, p) + 1
  {
  }

  /** Sessions and instances are only added by steps that are not internal. */
  lemma SameKeys(s: State, l: Label)
    requires Enabled(s, l) && Internal(l)
    ensures Step(s, l).ses.Keys == s.ses.Keys && Step(s, l).inst.Keys == s.inst.Keys
  {
    hide Can, Act, CanSave, Save, AfterPublish, Outgoing, Join, Receive;
    var t := Step(s, l);
    assert forall m :: m in t.ses <==> m in s.ses;
    assert forall i :: i in t.inst <==> i in s.inst;
  }

  /** Only one session gains or loses work. */
  lemma SessionsWork(s: State, t: State, m: string)
    requires s.ses.Keys == t.ses.Keys && s.inst.Keys == t.inst.Keys && m in s.ses
    requires forall j :: j in s.ses && j != m ==> t.ses[j] == s.ses[j]
    ensures var p := PerPublish(|s.ses.Keys|, |s.inst.Keys|);
            Sum(SessionWorks(t)) - SessionWork(t.ses[m], p) == Sum(SessionWorks(s)) - SessionWork(s.ses[m], p)
  {
    hide SessionWork, PerPublish, Sum;
    SumChange(SessionWorks(s), SessionWorks(t), m);
  }

  /** Only one instance gains or loses work. */
  lemma InstancesWork(s: State, t: State, i: string)
    requires s.ses.Keys == t.ses.Keys && s.inst.Keys == t.inst.Keys && i in s.inst
    requires |t.topic| == |s.topic| && forall j :: j in s.inst && j != i ==> t.inst[j] == s.inst[j]
    ensures var n := |s.ses.Keys|;
            Sum(InstanceWorks(t)) - InstanceWork(|s.topic|, t.inst[i], n)
                == Sum(InstanceWorks(s)) - InstanceWork(|s.topic|, s.inst[i], n)
  {
    hide InstanceWork, Sum;
    SumChange(InstanceWorks(s), InstanceWorks(t), i);
  }

  lemma SameInstances(s: State, t: State)
    requires s.ses.Keys == t.ses.Keys && s.inst == t.inst && |t.topic| == |s.topic|
    ensures InstanceWorks(t) == InstanceWorks(s)
  {
    hide InstanceWork;
  }

  lemma SameSessions(s: State, t: State)
    requires s.ses == t.ses && s.inst.Keys == t.inst.Keys
    ensures SessionWorks(t) == SessionWorks(s)
  {
    hide SessionWork, PerPublish;
  }

  lemma OwnUsesWork(s: State, l: Label)
    requires Enabled(s, l) && Internal(l) && (l.Own? || l.Stored? || l.PublishFailed?)
    ensures Work(Step(s, l)) < Work(s)
  {
    hide Can, Act, CanSave, Save, AfterPublish, Outgoing, SessionWork, InstanceWork, Sum, SessionWorks, InstanceWorks;
    var t, p := Step(s, l), PerPublish(|s.ses.Keys|, |s.inst.Keys|);
    var x := s.ses[l.m];
    SameKeys(s, l);
    SessionsWork(s, t, l.m);
    SameInstances(s, t);
    match l
    case Own(_, a) => ActWork(x, a, p);
    case Stored(_, row, msg) => SaveWork(x, row, msg, p);
    case PublishFailed(_) => PublishedWork(x, false, p);
  }

  lemma JoinUsesWork(s: State, m: string)
    requires Stages(s) && Enabled(s, Joined(m))
    ensures Work(Step(s, Joined(m))) < Work(s)
  {
    hide SessionWork, InstanceWork, Sum, SessionWorks, InstanceWorks, Join, PerPublish, Stages;
    var t, x := Step(s, Joined(m)), s.ses[m];
    var n := s.inst[x.home];
    SameKeys(s, Joined(m));
    SessionsWork(s, t, m);
    InstancesWork(s, t, x.home);
    JoinWork(x, Front(n) + if n.room == RoomIdle then 0 else 1, PerPublish(|s.ses.Keys|, |s.inst.Keys|));
    MembersDoNoWork(|s.topic|, n, n.members + {m}, |s.ses.Keys|);
  }

  lemma MembersDoNoWork(topic: nat, n: Instance, members: set<string>, sessions: nat)
    ensures InstanceWork(topic, n.(members := members), sessions) == InstanceWork(topic, n, sessions)
  {
  }

  lemma EntryArrives(topic: seq<Message>, msg: Message, n: Instance, sessions: nat)
    requires Chained(topic, n)
    ensures InstanceWork(|topic| + 1, n, sessions) <= InstanceWork(|topic|, n, sessions) + PerEntry(sessions)
    ensures n.queue == None && n.taken == |topic| ==>
              InstanceWork(|topic| + 1, n.(queue := Some(msg), taken := n.taken + 1), sessions)
              <= InstanceWork(|topic|, n, sessions) + PerEntry(sessions)
  {
    hide PerEntry;
    Less(|topic| + 1 - n.taken, PerEntry(sessions));
  }

  lemma PublishUsesWork(s: State, l: Label)
    requires Stages(s) && Enabled(s, l) && l.Published?
    ensures Work(Step(s, l)) < Work(s)
  {
    hide SessionWork, InstanceWork, Sum, SessionWorks, InstanceWorks, Outgoing, AfterPublish, Chained;
    var t, x := Step(s, l), s.ses[l.m];
    var n, k := |s.ses.Keys|, |s.inst.Keys|;
    SameKeys(s, l);
    SessionsWork(s, t, l.m);
    PublishedWork(x, true, PerPublish(n, k));
    forall j | j in s.inst
      ensures InstanceWork(|t.topic|, t.inst[j], n) <= InstanceWork(|s.topic|, s.inst[j], n) + PerEntry(n)
    {
      EntryArrives(s.topic, Outgoing(x).value, s.inst[j], n);
    }
    AllRaised(s, t);
  }

  lemma AllRaised(s: State, t: State)
    requires s.ses.Keys == t.ses.Keys && s.inst.Keys == t.inst.Keys
    requires var n := |s.ses.Keys|;
             forall j :: j in s.inst ==>
               InstanceWork(|t.topic|, t.inst[j], n) <= InstanceWork(|s.topic|, s.inst[j], n) + PerEntry(n)
    ensures Sum(InstanceWorks(t)) <= Sum(InstanceWorks(s)) + |s.inst.Keys| * PerEntry(|s.ses.Keys|)
  {
    hide InstanceWork, Sum, PerEntry;
    assert InstanceWorks(s).Keys == s.inst.Keys && InstanceWorks(t).Keys == t.inst.Keys;
    SumRaised(InstanceWorks(s), InstanceWorks(t), PerEntry(|s.ses.Keys|));
  }

  lemma MoveWork(topic: seq<Message>, n: Instance, sessions: nat)
    requires Chained(topic, n)
    ensures n.queue == None && n.taken < |topic| ==>
              InstanceWork(|topic|, n.(queue := Some(topic[n.taken]), taken := n.taken + 1), sessions)
                  < InstanceWork(|topic|, n, sessions)
    ensures n.queue.Some? && n.sub == None ==>
              InstanceWork(|topic|, n.(queue := None, sub := n.queue), sessions) < InstanceWork(|topic|, n, sessions)
    ensures forall members :: n.sub.Some? && n.room == RoomIdle ==>
              InstanceWork(|topic|, n.(sub := None, members := members, room := FanningOut(n.sub.value, members, {})),
                  sessions)
              < InstanceWork(|topic|, n, sessions)
    ensures n.room.FanningOut? && |n.room.visited| <= sessions ==>
              InstanceWork(|topic|, n.(handled := n.handled + [n.room.msg], room := RoomIdle), sessions)
                  < InstanceWork(|topic|, n, sessions)
  {
    if n.taken < |topic| {
      Less(|topic| - n.taken, PerEntry(sessions));
    }
  }

  lemma VisitWork(topic: nat, n: Instance, m: string, sessions: nat)
    requires MayNotify(n, m) && |n.room.visited + {m}| <= sessions
    ensures InstanceWork(topic, n.(room := n.room.(visited := n.room.visited + {m})), sessions) + 2
        == InstanceWork(topic, n, sessions)
  {
    hide PerEntry;
    assert |n.room.visited + {m}| == |n.room.visited| + 1;
  }

  /** A fan-out has visited sessions only. */
  lemma VisitedAreSessions(s: State, i: string)
    requires Rooms(s) && i in s.inst && s.inst[i].room.FanningOut?
    ensures s.inst[i].room.visited <= s.inst[i].members <= s.ses.Keys
    ensures |s.inst[i].room.visited| <= |s.ses.Keys|
  {
    hide Added, InStep;
    History.SubsetSize(s.inst[i].room.visited, s.ses.Keys);
  }

  lemma ForwardUsesWork(s: State, l: Label)
    requires Stages(s) && Rooms(s) && Enabled(s, l) && (l.Taken? || l.Forwarded? || l.Accepted? || l.FannedOut?)
    ensures Work(Step(s, l)) < Work(s)
  {
    hide SessionWork, InstanceWork, Sum, SessionWorks, InstanceWorks, Chained, Rooms;
    var t, n := Step(s, l), s.inst[l.i];
    SameKeys(s, l);
    SameSessions(s, t);
    InstancesWork(s, t, l.i);
    MoveWork(s.topic, n, |s.ses.Keys|);
    if l.FannedOut? {
      VisitedAreSessions(s, l.i);
    }
  }

  lemma NotifyUsesWork(s: State, l: Label)
    requires Rooms(s) && Enabled(s, l) && l.Notified?
    ensures Work(Step(s, l)) < Work(s)
  {
    hide SessionWork, InstanceWork, Sum, SessionWorks, InstanceWorks, Receive, PerPublish, Rooms;
    var t, x, n := Step(s, l), s.ses[l.m], s.inst[l.i];
    SameKeys(s, l);
    SessionsWork(s, t, l.m);
    InstancesWork(s, t, l.i);
    ReceiveWork(x, n.room.msg, l.m in n.room.todo, PerPublish(|s.ses.Keys|, |s.inst.Keys|));
    VisitedAreSessions(s, l.i);
    History.SubsetSize(n.room.visited + {l.m}, s.ses.Keys);
    VisitWork(|s.topic|, n, l.m, |s.ses.Keys|);
  }

  /** Every internal step, a failing one too, leaves less work. */
  lemma InternalUsesWork(s: State, l: Label)
    requires Invariant(s) && Enabled(s, l) && Internal(l)
    ensures Work(Step(s, l)) < Work(s)
  {
    hide Invariant, Stages, Sessions, Repository, Logs, Windows, Rooms, Membership, Enabled, Step, Work;
    InvariantParts(s);
    NeverOnClosed(s, l);
    match l
    case Joined(m) => JoinUsesWork(s, m);
    case Published(_, _) => PublishUsesWork(s, l);
    case Notified(_, _) => NotifyUsesWork(s, l);
    case Own(_, _) => OwnUsesWork(s, l);
    case Stored(_, _, _) => OwnUsesWork(s, l);
    case PublishFailed(_) => OwnUsesWork(s, l);
    case _ => ForwardUsesWork(s, l);
  }

  // Runs of internal steps --------------------------------------------------------------------------

  /** From some state on, clients send nothing and nobody connects. */
  ghost predicate IsInternalRun(r: Run) {
    && |r.states| == |r.labels| + 1 && Invariant(r.states[0])
    && (forall k :: 0 <= k < |r.labels| ==>
          && Internal(r.labels[k]) && Enabled(r.states[k], r.labels[k])
          && r.states[k + 1] == Step(r.states[k], r.labels[k]))
  }

  lemma {:induction false} InternalRunInvariant(r: Run, k: nat)
    requires IsInternalRun(r) && k < |r.states|
    ensures Invariant(r.states[k]) && Work(r.states[k]) + k <= Work(r.states[0])
  {
    hide Invariant, Enabled, Step, Internal, Work;
    if k > 0 {
      InternalRunInvariant(r, k - 1);
      var s, l := r.states[k - 1], r.labels[k - 1];
      assert Enabled(s, l) && Internal(l) && r.states[k - 1 + 1] == Step(s, l);
      InvariantKept(s, l);
      InternalUsesWork(s, l);
    }
  }

  /**
    Draining: a run of internal steps, whatever the scheduler does and whatever fails, is no longer than
    the work in its first state, and it can be continued without a failure unless nothing is in flight.
   */
  lemma InternalRunsEnd(r: Run)
    requires IsInternalRun(r)
    ensures |r.labels| <= Work(r.states[0])
    ensures CanMove(r.states[|r.labels|]) <==> !Quiescent(r.states[|r.labels|])
  {
    hide Invariant, IsInternalRun, Work, CanMove, Quiescent;
    assert |r.states| == |r.labels| + 1 by { RunLength(r); }
    InternalRunInvariant(r, |r.labels|);
    StuckIsQuiescent(r.states[|r.labels|]);
  }

  lemma RunLength(r: Run)
    requires IsInternalRun(r)
    ensures |r.states| == |r.labels| + 1
  {
    hide Invariant, Enabled, Step, Internal;
  }

  /** From every reachable state the pipeline can come to rest by itself, with nothing failing on the way. */
  lemma {:induction false} Drains(s: State) returns (r: Run)
    requires Invariant(s)
    ensures IsInternalRun(r) && r.states[0] == s && Quiescent(r.states[|r.labels|])
    ensures forall k :: 0 <= k < |r.labels| ==> !Failing(r.labels[k])
    decreases Work(s)
  {
    hide Invariant, Enabled, Step, Internal, Failing, Work, Quiescent, CanMove;
    if Quiescent(s) {
      r := Run([s], []);
    } else {
      StuckIsQuiescent(s);
      var l := SomeMove(s);
      InvariantKept(s, l);
      InternalUsesWork(s, l);
      var rest := Drains(Step(s, l));
      r := Run([s] + rest.states, [l] + rest.labels);
      forall k | 0 <= k < |r.labels|
        ensures && Internal(r.labels[k]) && !Failing(r.labels[k]) && Enabled(r.states[k], r.labels[k])
                && r.states[k + 1] == Step(r.states[k], r.labels[k])
      {
        if k > 0 {
          assert r.labels[k] == rest.labels[k - 1] && r.states[k] == rest.states[k - 1];
        }
      }
    }
  }

  lemma SomeMove(s: State) returns (l: Label)
    requires CanMove(s)
    ensures Enabled(s, l) && Internal(l) && !Failing(l)
  {
    hide Enabled, Internal, Failing;
    l :| Enabled(s, l) && Internal(l) && !Failing(l);
  }

  // The state of rest -------------------------------------------------------------------------------

  /** At rest, every member still in a room has been written everything published since it was added. */
  lemma RestDelivered(s: State, i: string, m: string)
    requires Invariant(s) && Quiescent(s) && i in s.inst && m in s.inst[i].members
    ensures m in s.ses && 0 <= s.ses[m].start <= |s.topic| && Delivered(s.ses[m].written) == s.topic[s.ses[m].start..]
  {
    hide Invariant, Stages, Sessions, Repository, Logs, Windows, Rooms, Membership, Quiescent, Idle, Empty, Sound,
      Added, InStep,
      Delivered, Chained;
    InvariantParts(s);
    RoomOf(s, i);
    IdleIn(s, m);
    EmptyIn(s, i);
    ChainOf(s, i);
    SessionOf(s, m);
    SeenIsContiguous(s, m);
    AtTheEnd(s.topic, s.inst[i], m, s.ses[m]);
  }

  lemma AtTheEnd(topic: seq<Message>, n: Instance, m: string, x: Session)
    requires Chained(topic, n) && Empty(topic, n) && InStep(n, m, x) && Sound(x) && Added(x) && Idle(x)
    ensures x.pos == |topic| && x.listen == Receiving
  {
    ListenerOpen(x);
    assert |topic[n.base..n.taken]| == |n.handled|;
  }

  /**
    At rest the room's map and the repository hold the same members of the room, but for those whose
    left message the queue refused.
   */
  lemma RestAgrees(s: State, i: string, m: string)
    requires Invariant(s) && Quiescent(s) && i in s.inst
    ensures m in s.inst[i].members
        <==> m in s.ses && s.ses[m].home == i && (m in s.repo || HasLeft(s.ses[m].dropped, m))
  {
    hide Invariant, Stages, Sessions, Repository, Logs, Windows, Rooms, Membership, Quiescent, Idle, Empty, Sound,
      Added, InStep,
      Live, HasLeft, LeftInFlight, Position;
    InvariantParts(s);
    RoomOf(s, i);
    if m in s.ses && s.ses[m].home == i {
      IdleIn(s, m);
      EmptyIn(s, i);
      InvariantHome(s, m);
      NothingInFlight(s, m);
      GapIsLeft(s, m);
      RepoMember(s, m);
      IdleStays(s.ses[m]);
    }
  }

  lemma NothingInFlight(s: State, m: string)
    requires m in s.ses && s.ses[m].home in s.inst && Idle(s.ses[m]) && Empty(s.topic, s.inst[s.ses[m].home])
    requires Stages(s) && Position(s.inst[s.ses[m].home]) <= |s.topic|
    ensures !LeftInFlight(s, m)
  {
    hide Stages, Chained, Position;
    var n := s.inst[s.ses[m].home];
    ChainOf(s, s.ses[m].home);
    EmptyPosition(s.topic, n);
    assert Ahead(s, n) == [];
  }

  lemma EmptyPosition(topic: seq<Message>, n: Instance)
    requires Chained(topic, n) && Empty(topic, n)
    ensures Position(n) == |topic|
  {
    assert |topic[n.base..n.taken]| == |n.handled|;
  }
}
