/**
  Deadlock freedom and draining. When clients send nothing more, the goroutines can always move while
  anything is in flight, they cannot move for ever, and where they stop everything has been delivered.
 */
module Progress {
  import opened Wrappers
  import opened Messages
  import opened Session
  import opened Pipeline
  import opened PipelineSafety
  import opened Guarantees

  /** Steps other than a new instance, a new connection, or a client sending or hanging up. */
  predicate Internal(l: Label) {
    match l
    case Subscribed(_) => false
    case Connected(_, _) => false
    case Own(_, a) => !a.Read? && !a.Hangup?
    case _ => true
  }

  /** An external call fails or a set-up deadline passes. */
  predicate Failing(l: Label) {
    match l
    case Own(_, a) => a in {ListenExpired, BroadcastExpired, InsertMemberFails, DeleteFails, InsertFails}
    case PublishFailed(_) => true
    case _ => false
  }

  /** Every goroutine of the session is waiting for the client, for the room, or for nobody. */
  predicate Idle(x: Session) {
    && x.serve.Returned? && !x.broadcast.Handing?
    && (x.publish == NoPublish || x.publish == Selecting || x.publish == PublishEnded)
    && !x.listen.Writing? && (x.closed ==> x.listen != Receiving)
  }

  predicate Empty(topic: seq<Message>, n: Instance) {
    n.taken == |topic| && n.queue == None && n.sub == None && n.room == RoomIdle
  }

  /** Nothing is in flight. */
  ghost predicate Quiescent(s: State) {
    && (forall m :: m in s.ses ==> Idle(s.ses[m]))
    && (forall i :: i in s.inst ==> Empty(s.topic, s.inst[i]))
  }

  // Some step is enabled ----------------------------------------------------------------------------

  /** The system can move by itself, without anything failing. */
  ghost predicate CanMove(s: State) {
    exists l :: Enabled(s, l) && Internal(l) && !Failing(l)
  }

  lemma Moves(s: State, l: Label)
    requires Enabled(s, l) && Internal(l) && !Failing(l)
    ensures CanMove(s)
  {
    hide Enabled, Internal, Failing;
  }

  /** An instance that holds a message can pass it on, or is waiting for a connection to be written to. */
  lemma InstanceMoves(s: State, i: string)
    requires Invariant(s) && i in s.inst && !Empty(s.topic, s.inst[i])
    ensures CanMove(s)
  {
    hide Stages, Sessions, Repository, Logs, Windows, Rooms, Membership, CanMove, Can, CanSave, Outgoing, Invariant;
    InvariantParts(s);
    var n := s.inst[i];
    ChainOf(s, i);
    if n.room.FanningOut? {
      if n.room.todo <= n.room.visited {
        Moves(s, FannedOut(i));
      } else {
        var m :| m in n.room.todo && m !in n.room.visited;
        FanOutMoves(s, i, m);
      }
    } else if n.sub.Some? {
      Moves(s, Accepted(i));
    } else if n.queue.Some? {
      Moves(s, Forwarded(i));
    } else {
      Moves(s, Taken(i));
    }
  }

  lemma FanOutMoves(s: State, i: string, m: string)
    requires Stages(s) && Sessions(s) && Logs(s) && Rooms(s) && i in s.inst && s.inst[i].room.FanningOut?
    requires m in s.inst[i].room.todo && m !in s.inst[i].room.visited
    ensures CanMove(s)
  {
    hide Stages, Sessions, Logs, Rooms, CanMove, LifeCycle, Carries, Accounts, Chats, CanSave, Outgoing, InStep;
    RoomOf(s, i);
    SessionOf(s, m);
    ListenerOpen(s.ses[m]);
    if s.ses[m].listen == Receiving {
      Moves(s, Notified(i, m));
    } else {
      Moves(s, Own(m, Write));
    }
  }

  lemma ListenerOpen(x: Session)
    requires Sound(x) && Added(x)
    ensures !x.closed && (x.listen == Receiving || x.listen.Writing?)
  {
    assert Control(x);
  }

  /** What a goroutine of a session that is not idle can do next. */
  function NextAction(x: Session): Option<Action> {
    if x.listen.Writing? then Some(Write)
    else match x.serve
      case AwaitListen => Some(ListenReady)
      case AwaitBroadcast => Some(BroadcastReady)
      case ClosingInbound(_) => Some(CloseInbound)
      case StoppingBroadcast(_) => Some(StopBroadcast)
      case StartingBroadcast(_) => Some(StartBroadcast)
      case Returned(_) =>
        if x.closed && x.listen == Receiving then Some(ListenEnd)
        else if x.publish == Reporting then Some(ReportFailure(""))
        else if x.broadcast.Handing? && x.publish == Selecting then Some(HandOver)
        else None
      case _ => None
  }

  function NextRow(x: Session): Option<(Row, Message)> {
    if x.serve == InsertingMember then Some((JoinedRow, NewMemberJoinedMessage(x.member, "")))
    else if x.publish.Inserting? then Some((ChatRow, x.publish.chat))
    else if x.publish == Deleting then Some((LeftRow, NewMemberLeftMessage(x.member, "")))
    else None
  }

  lemma BusySession(x: Session)
    requires Control(x) && !Idle(x)
    ensures var a := NextAction(x);
            var row := NextRow(x);
            || (a.Some? && Can(x, a.value) && Internal(Own("", a.value)) && !Failing(Own("", a.value)))
            || (row.Some? && CanSave(x, row.value.0, row.value.1))
            || x.serve.AddingMember? || Outgoing(x).Some?
  {
  }

  lemma SessionCanMove(s: State, m: string)
    requires Invariant(s) && m in s.ses && !Idle(s.ses[m])
    ensures CanMove(s)
  {
    hide Stages, Sessions, Repository, Logs, Windows, Rooms, Membership, CanMove, Can, CanSave, Outgoing, Control,
      Idle, Empty,
      NextAction, NextRow, Invariant;
    InvariantParts(s);
    SessionOf(s, m);
    SoundControl(s.ses[m]);
    var x := s.ses[m];
    BusySession(x);
    var a, row := NextAction(x), NextRow(x);
    if a.Some? && Can(x, a.value) && Internal(Own("", a.value)) && !Failing(Own("", a.value)) {
      Moves(s, Own(m, a.value));
    } else if row.Some? && CanSave(x, row.value.0, row.value.1) {
      Moves(s, Stored(m, row.value.0, row.value.1));
    } else if x.serve.AddingMember? {
      Moves(s, Joined(m));
    } else if s.inst[x.home].queue == None {
      Moves(s, Published(m, x.home));
    } else {
      assert !Empty(s.topic, s.inst[x.home]) by { Holding(s.topic, s.inst[x.home]); }
      InstanceMoves(s, x.home);
    }
  }

  lemma Holding(topic: seq<Message>, n: Instance)
    requires n.queue.Some?
    ensures !Empty(topic, n)
  {
  }

  lemma IdleStays(x: Session)
    requires Idle(x)
    ensures forall a :: Can(x, a) ==> a.Read? || a.Hangup?
    ensures forall row, msg :: !CanSave(x, row, msg)
    ensures Outgoing(x) == None && !x.serve.AddingMember? && x.publish != Reporting
  {
  }

  lemma EmptyStays(topic: seq<Message>, n: Instance)
    requires Empty(topic, n)
    ensures n.queue == None && n.sub == None && n.room == RoomIdle && n.taken == |topic|
    ensures forall m :: !MayNotify(n, m)
  {
  }

  /**
    Deadlock freedom: the states in which no goroutine can move by itself are exactly those with nothing
    in flight; and while something is in flight, no failure is needed to get on.
   */
  lemma StuckIsQuiescent(s: State)
    requires Invariant(s)
    ensures Quiescent(s) <==> forall l :: Internal(l) ==> !Enabled(s, l)
    ensures !Quiescent(s) <==> CanMove(s)
  {
    hide Invariant, CanMove, Idle, Empty, Can, CanSave, Outgoing, MayNotify;
    if Quiescent(s) {
      forall l | Internal(l) ensures !Enabled(s, l) {
        Halted(s, l);
      }
      Stopped(s);
    } else {
      if m :| m in s.ses && !Idle(s.ses[m]) {
        SessionCanMove(s, m);
      } else {
        var i :| i in s.inst && !Empty(s.topic, s.inst[i]);
        InstanceMoves(s, i);
      }
      Moving(s);
    }
  }

  lemma Moving(s: State)
    requires CanMove(s)
    ensures exists l :: Internal(l) && Enabled(s, l)
  {
    hide Internal, Enabled, Failing;
  }

  lemma Stopped(s: State)
    requires forall l :: Internal(l) ==> !Enabled(s, l)
    ensures !CanMove(s)
  {
    hide Internal, Enabled, Failing;
  }

  lemma Halted(s: State, l: Label)
    requires Quiescent(s) && Internal(l)
    ensures !Enabled(s, l)
  {
    hide Idle, Empty, Can, CanSave, Outgoing, MayNotify, Quiescent;
    forall m | m in s.ses ensures Idle(s.ses[m]) {
      IdleIn(s, m);
    }
    if l.Own? || l.Stored? || l.Published? || l.PublishFailed? || l.Joined? || l.SendOnClosed? {
      if l.m in s.ses {
        IdleStays(s.ses[l.m]);
      }
    }
    if l.Taken? || l.Forwarded? || l.Accepted? || l.Notified? || l.FannedOut? || l.SendOnClosed? {
      if l.i in s.inst {
        EmptyIn(s, l.i);
        EmptyStays(s.topic, s.inst[l.i]);
      }
    }
  }

  lemma IdleIn(s: State, m: string)
    requires Quiescent(s) && m in s.ses
    ensures Idle(s.ses[m])
  {
    hide Idle, Empty;
  }

  lemma EmptyIn(s: State, i: string)
    requires Quiescent(s) && i in s.inst
    ensures Empty(s.topic, s.inst[i])
  {
    hide Idle, Empty;
  }
}
