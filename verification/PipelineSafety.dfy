/** Every step keeps the invariant of the pipeline, one conjunct at a time. */
module PipelineSafety {
  import opened Wrappers
  import opened Messages
  import opened Session
  import opened Pipeline

  lemma ByMemberAppend(log: seq<Message>, msg: Message, m: string)
    ensures ByMember(log + [msg], m) == ByMember(log, m) + if msg.memberId == m then [msg] else []
  {
    assert (log + [msg])[..|log|] == log;
  }

  lemma {:induction false} ByMemberNone(log: seq<Message>, m: string)
    requires forall k :: 0 <= k < |log| ==> log[k].memberId != m
    ensures ByMember(log, m) == []
  {
    if log != [] {
      ByMemberNone(log[..|log| - 1], m);
    }
  }

  /** The session a step moves, if any, and what the other parts of the state can see of the move. */
  ghost predicate Seen(x: Session, y: Session) {
    && y.member == x.member && y.home == x.home && y.start == x.start && y.pos == x.pos
    && InHand(y) == InHand(x) && (Added(y) == Added(x))
  }

  lemma ActSeen(x: Session, a: Action)
    requires Sound(x) && Can(x, a)
    ensures Seen(x, Act(x, a))
    ensures Act(x, a).saved == x.saved && Act(x, a).published == x.published
    ensures Live(Act(x, a)) == Live(x)
  {
    hide Sound, Live, Added, InHand, Can, Act;
    ActFrame(x, a);
    ActKeeps(x, a);
    if a == Write {
      WriteHand(x);
    } else {
      SoundControl(x);
      ActHand(x, a);
    }
  }

  lemma SoundControl(x: Session)
    requires Sound(x)
    ensures Control(x)
  {
    hide Control;
  }

  lemma WriteHand(x: Session)
    requires Can(x, Write)
    ensures InHand(Act(x, Write)) == InHand(x)
  {
    hide Delivered;
    DeliveredAppend(x.written, x.listen.out);
    assert Delivered(x.written) + [] == Delivered(x.written);
  }

  lemma ReceiveHand(x: Session, msg: Message, expected: bool)
    requires x.listen == Receiving && msg.kind != SendFailed
    ensures InHand(Receive(x, msg, expected)) == InHand(x) + [msg]
  {
    hide Delivered;
    assert Delivered(x.written) + [] == Delivered(x.written);
  }

  lemma ActHand(x: Session, a: Action)
    requires Can(x, a) && a != Write
    requires Control(x)
    ensures InHand(Act(x, a)) == InHand(x)
  {
    hide Delivered;
  }

  // Stages ------------------------------------------------------------------------------------------

  lemma TopicGrows(topic: seq<Message>, msg: Message, n: Instance)
    requires Chained(topic, n)
    ensures Chained(topic + [msg], n)
    ensures n.taken == |topic| && n.queue == None ==>
        Chained(topic + [msg], n.(queue := Some(msg), taken := n.taken + 1))
  {
    assert (topic + [msg])[n.base..n.taken] == topic[n.base..n.taken];
    assert (topic + [msg])[n.base..|topic| + 1] == topic[n.base..] + [msg];
  }

  lemma TakenChained(topic: seq<Message>, n: Instance)
    requires Chained(topic, n) && n.queue == None && n.taken < |topic|
    ensures Chained(topic, n.(queue := Some(topic[n.taken]), taken := n.taken + 1))
  {
    assert topic[n.base..n.taken + 1] == topic[n.base..n.taken] + [topic[n.taken]];
  }

  lemma MovesChained(topic: seq<Message>, n: Instance)
    requires Chained(topic, n)
    ensures n.queue.Some? && n.sub == None ==> Chained(topic, n.(queue := None, sub := n.queue))
    ensures forall members, todo :: n.sub.Some? && n.room == RoomIdle ==>
              Chained(topic, n.(sub := None, members := members, room := FanningOut(n.sub.value, todo, {})))
    ensures n.room.FanningOut? ==> Chained(topic, n.(handled := n.handled + [n.room.msg], room := RoomIdle))
  {
    if n.room.FanningOut? {
      assert n.handled + [n.room.msg] == n.handled + [n.room.msg] + [];
    }
    if n.queue.Some? && n.sub == None {
      assert n.handled + InRoom(n) + [] + [n.queue.value] == n.handled + InRoom(n) + [n.queue.value] + [];
    }
  }

  lemma ChainKept(s: State, l: Label, i: string)
    requires Enabled(s, l) && i in s.inst && Chained(s.topic, s.inst[i])
    requires l.Published? ==> s.kind == MemoryQueue && l.i == i ==> s.inst[i].taken == |s.topic|
    ensures i in Step(s, l).inst && Chained(Step(s, l).topic, Step(s, l).inst[i])
  {
    hide Can, Act, CanSave, Save, AfterPublish, Outgoing, Join, Receive, Chained;
    var t, n := Step(s, l), s.inst[i];
    match l
    case Published(m, _) => TopicGrows(s.topic, Outgoing(s.ses[m]).value, n);
    case Taken(_) => if t.inst[i] != n { TakenChained(s.topic, n); }
    case Forwarded(_) => MovesChained(s.topic, n);
    case Accepted(_) => MovesChained(s.topic, n);
    case FannedOut(_) => MovesChained(s.topic, n);
    case _ => SameChain(s.topic, n, t.inst[i]);
  }

  lemma MemoryKept(s: State, l: Label)
    requires Stages(s) && Enabled(s, l) && s.kind == MemoryQueue
    ensures var t := Step(s, l);
            && t.kind == MemoryQueue
            && (forall i, j :: i in t.inst && j in t.inst ==> i == j)
            && (forall i :: i in t.inst ==> t.inst[i].taken == |t.topic|)
  {
    hide Can, Act, CanSave, Save, AfterPublish, Outgoing, Join, Receive, Chained;
  }

  lemma StagesKept(s: State, l: Label)
    requires Stages(s) && Enabled(s, l)
    ensures Stages(Step(s, l))
  {
    hide Step, Enabled, Chained;
    KindStays(s, l);
    forall i | i in Step(s, l).inst ensures Chained(Step(s, l).topic, Step(s, l).inst[i]) {
      if i in s.inst {
        ChainKept(s, l, i);
      } else {
        NewChain(s, l, i);
      }
    }
    if s.kind == MemoryQueue {
      MemoryKept(s, l);
    }
  }

  lemma KindStays(s: State, l: Label)
    requires Enabled(s, l)
    ensures Step(s, l).kind == s.kind
  {
    hide Can, Act, CanSave, Save, AfterPublish, Outgoing, Join, Receive;
  }

  lemma NewChain(s: State, l: Label, i: string)
    requires Enabled(s, l) && i !in s.inst && i in Step(s, l).inst
    ensures Chained(Step(s, l).topic, Step(s, l).inst[i])
  {
    hide Can, Act, CanSave, Save, AfterPublish, Outgoing, Join, Receive, Chained;
    EmptyChain(s.topic);
  }

  lemma SameChain(topic: seq<Message>, n: Instance, n': Instance)
    requires Chained(topic, n)
    requires n'.base == n.base && n'.taken == n.taken && n'.handled == n.handled && n'.queue == n.queue
    requires n'.sub == n.sub
    requires InRoom(n') == InRoom(n)
    ensures Chained(topic, n')
  {
  }

  lemma EmptyChain(topic: seq<Message>)
    ensures Chained(topic, Instance(|topic|, |topic|, [], None, None, RoomIdle, {}))
  {
  }

  /** The message a room is fanning out is the topic entry at its front. */
  lemma FrontMessage(topic: seq<Message>, n: Instance)
    requires Chained(topic, n)
    ensures Front(n) <= n.taken
    ensures n.room.FanningOut? ==> Front(n) < n.taken && topic[Front(n)] == n.room.msg
    ensures forall k :: 0 <= k < |n.handled + InRoom(n)| ==>
        n.base + k < |topic| && (n.handled + InRoom(n))[k] == topic[n.base + k]
  {
    var all := n.handled + InRoom(n) + AsSeq(n.sub) + AsSeq(n.queue);
    assert topic[n.base..n.taken] == all;
    forall k | 0 <= k < |n.handled + InRoom(n)|
      ensures n.base + k < |topic| && (n.handled + InRoom(n))[k] == topic[n.base + k]
    {
      assert all[k] == topic[n.base..n.taken][k];
    }
    if n.room.FanningOut? {
      assert (n.handled + InRoom(n))[|n.handled|] == n.room.msg;
    }
  }

  // Sessions ----------------------------------------------------------------------------------------

  lemma SaveSeen(x: Session, row: Row, msg: Message)
    requires Sound(x) && CanSave(x, row, msg)
    ensures Seen(x, Save(x, row, msg))
  {
    hide Delivered, LifeCycle, Accounts, Chats;
  }

  lemma PublishSeen(x: Session, ok: bool)
    requires Sound(x) && Outgoing(x).Some?
    ensures Seen(x, AfterPublish(x, ok))
  {
    hide Delivered, LifeCycle, Accounts, Chats;
  }

  lemma JoinMoves(x: Session, next: int)
    requires Sound(x) && x.serve.AddingMember?
    ensures Sound(Join(x, next)) && !Added(x) && Added(Join(x, next)) && Live(Join(x, next)) == Live(x)
    ensures InHand(Join(x, next)) == [] && x.published == []
  {
    assert Control(x);
    JoinKeeps(x, next);
    hide Sound, LifeCycle, Live;
  }

  lemma ReceiveMoves(x: Session, msg: Message, expected: bool)
    requires Sound(x) && Added(x) && x.listen == Receiving && msg.kind != SendFailed
    ensures Sound(Receive(x, msg, expected)) && Added(Receive(x, msg, expected))
    ensures Live(Receive(x, msg, expected)) == Live(x)
    ensures InHand(Receive(x, msg, expected)) == InHand(x) + [msg]
  {
    hide Sound, Added, Live, InHand, Receive;
    ReceiveKeeps(x, msg, expected);
    ReceiveHand(x, msg, expected);
  }

  /** What a fan-out step finds: an added member of this room, in step with it, and a message of the room's own. */
  lemma NotifyFinds(s: State, i: string, m: string)
    requires Stages(s) && Logs(s) && Rooms(s)
    requires i in s.inst && MayNotify(s.inst[i], m)
    ensures m in s.ses && s.ses[m].home == i && Added(s.ses[m]) && InStep(s.inst[i], m, s.ses[m])
    ensures Front(s.inst[i]) < |s.topic| && s.topic[Front(s.inst[i])] == s.inst[i].room.msg
    ensures s.inst[i].room.msg.kind != SendFailed
  {
    FrontMessage(s.topic, s.inst[i]);
    hide Added, InStep, Chained;
    assert FromSession(s, s.topic[Front(s.inst[i])]);
  }

  /** What one step does to a session that was there before. */
  ghost predicate Moved(l: Label, m: string, x: Session, y: Session) {
    && y.member == x.member && y.home == x.home && Sound(y) && (Added(x) ==> Added(y))
    && (Seen(x, y) || (l.Notified? && l.m == m) || (l.Joined? && l.m == m))
  }

  lemma SessionMoves(s: State, l: Label, m: string)
    requires Invariant(s) && Enabled(s, l) && m in s.ses
    ensures m in Step(s, l).ses && Moved(l, m, s.ses[m], Step(s, l).ses[m])
  {
    hide Stages, Sessions, Repository, Logs, Windows, Rooms, Membership, Sound, Can, Act, CanSave, Save,
      AfterPublish, Outgoing, InHand, Added, Live, Front;
    var x := s.ses[m];
    SessionOf(s, m);
    match l
    case Own(m', a) => if m' == m { ActSeen(x, a); ActKeeps(x, a); }
    case Stored(m', row, msg) => if m' == m { SaveSeen(x, row, msg); SaveKeeps(x, row, msg); }
    case Published(m', _) => if m' == m { PublishSeen(x, true); PublishKeeps(x, true); }
    case PublishFailed(m') => if m' == m { PublishSeen(x, false); PublishKeeps(x, false); }
    case Joined(m') =>
      if m' == m { JoinMoves(x, Front(s.inst[x.home]) + if s.inst[x.home].room == RoomIdle then 0 else 1); }
    case Notified(i, m') =>
      if m' == m { NotifyFinds(s, i, m); ReceiveMoves(x, s.inst[i].room.msg, m in s.inst[i].room.todo); }
    case _ =>
  }

  lemma InstancesStay(s: State, l: Label)
    requires Enabled(s, l)
    ensures var t := Step(s, l);
            && t.roomId == s.roomId && s.topic <= t.topic
            && s.inst.Keys <= t.inst.Keys && s.ses.Keys <= t.ses.Keys
    ensures forall i :: i in s.inst ==>
              var n, n' := s.inst[i], Step(s, l).inst[i];
              n'.base == n.base && |n.handled| <= |n'.handled|
  {
    hide Can, Act, CanSave, Save, AfterPublish;
  }

  lemma NewcomersOnly(s: State, l: Label, m: string)
    requires Enabled(s, l) && m in Step(s, l).ses && m !in s.ses
    ensures l.Connected? && m == l.member.id && Step(s, l).ses[m] == NewSession(l.member, l.i)
    ensures l.i in s.inst && l.member.roomId == s.roomId
  {
    hide Can, Act, CanSave, Save, AfterPublish;
  }

  lemma SessionsKept(s: State, l: Label)
    requires Invariant(s) && Enabled(s, l)
    ensures Sessions(Step(s, l))
  {
    hide Stages, Sessions, Repository, Logs, Windows, Rooms, Membership, Sound, Enabled, Step, Seen;
    InstancesStay(s, l);
    forall m | m in Step(s, l).ses ensures SessionFits(Step(s, l), m) {
      if m in s.ses {
        SessionOf(s, m);
        SessionMoves(s, l, m);
      } else {
        NewcomersOnly(s, l, m);
        NewSessionSound(l.member, l.i);
      }
    }
    AllFit(Step(s, l));
  }

  ghost predicate SessionFits(s: State, m: string)
    requires m in s.ses
  {
    && Sound(s.ses[m])
    && s.ses[m].member.id == m && s.ses[m].member.roomId == s.roomId && s.ses[m].home in s.inst
  }

  lemma SessionOf(s: State, m: string)
    requires Sessions(s) && m in s.ses
    ensures SessionFits(s, m)
  {
    hide Sound;
  }

  lemma AllFit(s: State)
    requires forall m :: m in s.ses ==> SessionFits(s, m)
    ensures Sessions(s)
  {
    hide Sound;
  }

  // Repository and logs -----------------------------------------------------------------------------

  lemma LiveMoves(s: State, l: Label, m: string)
    requires Invariant(s) && Enabled(s, l) && m in s.ses
    ensures m in Step(s, l).ses
    ensures Live(Step(s, l).ses[m]) == (if l.Stored? && l.m == m then l.row != LeftRow else Live(s.ses[m]))
    ensures l.Stored? && l.m == m && l.row == ChatRow ==> Live(s.ses[m])
  {
    hide Stages, Sessions, Repository, Logs, Windows, Rooms, Membership, Sound, Can, Act, CanSave, Save,
      AfterPublish, Outgoing, InHand, Added, Live, Front;
    var x := s.ses[m];
    SessionOf(s, m);
    match l
    case Own(m', a) => if m' == m { ActKeeps(x, a); }
    case Stored(m', row, msg) => if m' == m { SaveKeeps(x, row, msg); }
    case Published(m', _) => if m' == m { PublishKeeps(x, true); }
    case PublishFailed(m') => if m' == m { PublishKeeps(x, false); }
    case Joined(m') =>
      if m' == m { JoinMoves(x, Front(s.inst[x.home]) + if s.inst[x.home].room == RoomIdle then 0 else 1); }
    case Notified(i, m') =>
      if m' == m { NotifyFinds(s, i, m); ReceiveMoves(x, s.inst[i].room.msg, m in s.inst[i].room.todo); }
    case _ =>
  }

  lemma RepoMoves(s: State, l: Label)
    requires Enabled(s, l)
    ensures Step(s, l).repo ==
            (if l.Stored? && l.row == JoinedRow then s.repo + {l.m}
             else if l.Stored? && l.row == LeftRow then s.repo - {l.m}
             else s.repo)
    ensures l.Stored? ==> l.m in s.ses
  {
    hide Can, Act, CanSave, Save, AfterPublish;
  }

  lemma RepositoryKept(s: State, l: Label)
    requires Invariant(s) && Enabled(s, l)
    ensures Repository(Step(s, l))
  {
    hide Stages, Sessions, Repository, Logs, Windows, Rooms, Membership, Sound, Enabled, Step, Live;
    RepoMoves(s, l);
    forall m ensures RepoFits(Step(s, l), m) {
      RepoOf(s, m);
      if m in s.ses {
        LiveMoves(s, l, m);
      } else if m in Step(s, l).ses {
        NewcomersOnly(s, l, m);
        NewSessionDead(l.member, l.i);
      }
    }
    AllListed(Step(s, l));
  }

  predicate RepoFits(s: State, m: string) {
    m in s.repo <==> m in s.ses && Live(s.ses[m])
  }

  lemma RepoOf(s: State, m: string)
    requires Repository(s)
    ensures RepoFits(s, m)
  {
  }

  lemma AllListed(s: State)
    requires forall m :: RepoFits(s, m)
    ensures Repository(s)
  {
    hide Live;
    forall m ensures m in s.repo <==> m in s.ses && Live(s.ses[m]) {
      assert RepoFits(s, m);
    }
  }

  lemma NewSessionDead(member: Member, i: string)
    ensures !Live(NewSession(member, i)) && !Added(NewSession(member, i))
  {
  }

  lemma HistoryMoves(s: State, l: Label, m: string)
    requires Enabled(s, l) && m in s.ses
    ensures var x, y := s.ses[m], Step(s, l).ses[m];
            && m in Step(s, l).ses
            && y.saved == x.saved + (if l.Stored? && l.m == m then [l.msg] else [])
            && y.published == x.published + (if l.Published? && l.m == m then [Outgoing(x).value] else [])
    ensures Step(s, l).persisted == s.persisted + (if l.Stored? then [l.msg] else [])
    ensures Step(s, l).topic == s.topic + (if l.Published? then [Outgoing(s.ses[l.m]).value] else [])
  {
    var x := s.ses[m];
    if l.Own? && l.m == m {
      ActFrame(x, l.a);
    }
    hide Can, Act, CanSave;
    assert x.saved + [] == x.saved && x.published + [] == x.published;
    assert s.persisted + [] == s.persisted && s.topic + [] == s.topic;
  }

  /** A message that enters a log comes from the session that moves. */
  lemma EntryFits(s: State, l: Label)
    requires Sessions(s) && Enabled(s, l)
    ensures l.Stored? ==> l.m in s.ses && FromSession(s, l.msg) && l.msg.memberId == l.m
    ensures l.Published? ==> l.m in s.ses && Outgoing(s.ses[l.m]).Some?
                             && FromSession(s, Outgoing(s.ses[l.m]).value) && Outgoing(s.ses[l.m]).value.memberId == l.m
  {
    hide Sessions, Sound, Can, CanSave, Outgoing;
    if l.Stored? {
      SessionOf(s, l.m);
      SaveKeeps(s.ses[l.m], l.row, l.msg);
    }
    if l.Published? {
      SessionOf(s, l.m);
      PublishKeeps(s.ses[l.m], true);
    }
  }

  ghost predicate LogsFit(s: State, m: string)
    requires m in s.ses
  {
    ByMember(s.persisted, m) == s.ses[m].saved && ByMember(s.topic, m) == s.ses[m].published
  }

  ghost predicate EntriesFit(s: State, log: seq<Message>) {
    forall k :: 0 <= k < |log| ==> FromSession(s, log[k])
  }

  lemma LogsOf(s: State)
    requires Logs(s)
    ensures EntriesFit(s, s.persisted) && EntriesFit(s, s.topic)
    ensures forall m :: m in s.ses ==> LogsFit(s, m)
  {
    hide ByMember;
  }

  lemma AllLogged(s: State)
    requires EntriesFit(s, s.persisted) && EntriesFit(s, s.topic)
    requires forall m :: m in s.ses ==> LogsFit(s, m)
    ensures Logs(s)
  {
    hide ByMember;
    forall m | m in s.ses
      ensures ByMember(s.persisted, m) == s.ses[m].saved && ByMember(s.topic, m) == s.ses[m].published {
      assert LogsFit(s, m);
    }
  }

  lemma EntriesGrow(s: State, t: State, log: seq<Message>, more: seq<Message>)
    requires EntriesFit(s, log) && EntriesFit(s, more)
    requires s.ses.Keys <= t.ses.Keys && t.roomId == s.roomId
    ensures EntriesFit(t, log + more)
  {
    forall k | 0 <= k < |log + more| ensures FromSession(t, (log + more)[k]) {
      assert FromSession(s, if k < |log| then log[k] else more[k - |log|]);
    }
  }

  lemma Unheard(s: State, log: seq<Message>, m: string)
    requires EntriesFit(s, log) && m !in s.ses
    ensures ByMember(log, m) == []
    ensures forall k :: 0 <= k < |log| ==> log[k].memberId != m
  {
    assert forall k :: 0 <= k < |log| ==> FromSession(s, log[k]);
    ByMemberNone(log, m);
  }

  lemma ByMemberGrows(log: seq<Message>, more: seq<Message>, m: string)
    requires |more| <= 1
    ensures ByMember(log + more, m) == ByMember(log, m) + if more != [] && more[0].memberId == m then more else []
  {
    if more == [] {
      assert log + more == log;
      assert ByMember(log, m) + [] == ByMember(log, m);
    } else {
      assert more == [more[0]];
      ByMemberAppend(log, more[0], m);
    }
  }

  lemma LogsKept(s: State, l: Label)
    requires Invariant(s) && Enabled(s, l)
    ensures Logs(Step(s, l))
  {
    hide Stages, Sessions, Repository, Logs, Windows, Rooms, Membership, Enabled, Step, EntriesFit, FromSession,
      ByMember, Outgoing;
    var t := Step(s, l);
    var stored := if l.Stored? then [l.msg] else [];
    InstancesStay(s, l);
    LogsOf(s);
    EntryFits(s, l);
    var sent := if l.Published? then [Outgoing(s.ses[l.m]).value] else [];
    LogsMove(s, l);
    OneEntry(s, stored);
    OneEntry(s, sent);
    EntriesGrow(s, t, s.persisted, stored);
    EntriesGrow(s, t, s.topic, sent);
    forall m | m in t.ses ensures LogsFit(t, m) {
      ByMemberGrows(s.persisted, stored, m);
      ByMemberGrows(s.topic, sent, m);
      if m in s.ses {
        HistoryMoves(s, l, m);
        assert LogsFit(s, m);
      } else {
        NewcomersOnly(s, l, m);
        Unheard(s, s.persisted, m);
        Unheard(s, s.topic, m);
      }
    }
    AllLogged(t);
  }

  lemma OneEntry(s: State, more: seq<Message>)
    requires |more| <= 1 && (more != [] ==> FromSession(s, more[0]))
    ensures EntriesFit(s, more)
  {
  }

  lemma LogsMove(s: State, l: Label)
    requires Enabled(s, l)
    ensures Step(s, l).persisted == s.persisted + (if l.Stored? then [l.msg] else [])
    ensures l.Published? ==> l.m in s.ses && Outgoing(s.ses[l.m]).Some?
    ensures Step(s, l).topic == s.topic + (if l.Published? then [Outgoing(s.ses[l.m]).value] else [])
  {
    hide Can, Act, CanSave, Save, AfterPublish, Outgoing;
    assert s.persisted + [] == s.persisted && s.topic + [] == s.topic;
  }

  // Windows -----------------------------------------------------------------------------------------

  ghost predicate WindowFits(s: State, m: string)
    requires m in s.ses
  {
    Added(s.ses[m]) ==> Window(s.topic, s.ses[m])
  }

  lemma WindowOf(s: State, m: string)
    requires Windows(s) && m in s.ses
    ensures WindowFits(s, m)
  {
    hide Window, Added;
  }

  lemma AllWindows(s: State)
    requires forall m :: m in s.ses ==> WindowFits(s, m)
    ensures Windows(s)
  {
    hide Window, Added;
    forall m | m in s.ses && Added(s.ses[m]) ensures Window(s.topic, s.ses[m]) {
      assert WindowFits(s, m);
    }
  }

  lemma WindowStays(topic: seq<Message>, longer: seq<Message>, x: Session, y: Session)
    requires topic <= longer && Window(topic, x)
    requires y.start == x.start && y.pos == x.pos && InHand(y) == InHand(x)
    ensures Window(longer, y)
  {
    hide InHand;
  }

  lemma WindowOpens(topic: seq<Message>, y: Session)
    requires 0 <= y.start == y.pos <= |topic| && InHand(y) == []
    ensures Window(topic, y)
  {
    hide InHand;
  }

  /** The room's send extends the window at its end or, for a member who joined during the fan-out, at its front. */
  lemma WindowReceives(topic: seq<Message>, n: Instance, m: string, x: Session, y: Session)
    requires Window(topic, x) && MayNotify(n, m) && InStep(n, m, x)
    requires Front(n) < |topic| && topic[Front(n)] == n.room.msg
    requires y == Receive(x, n.room.msg, m in n.room.todo) && InHand(y) == InHand(x) + [n.room.msg]
    ensures Window(topic, y)
  {
    hide InHand;
    if m in n.room.todo {
      assert topic[x.start..x.pos] + [topic[x.pos]] == topic[x.start..x.pos + 1];
    } else {
      assert topic[x.start..x.pos] == [];
      assert [topic[x.pos - 1]] == topic[x.start - 1..x.pos];
    }
  }

  lemma JoinPlace(s: State, i: string)
    requires Stages(s) && i in s.inst
    ensures Front(s.inst[i]) + (if s.inst[i].room == RoomIdle then 0 else 1) <= |s.topic|
  {
    FrontMessage(s.topic, s.inst[i]);
  }

  lemma WindowsKept(s: State, l: Label)
    requires Invariant(s) && Enabled(s, l)
    ensures Windows(Step(s, l))
  {
    hide Stages, Sessions, Repository, Logs, Windows, Rooms, Membership, Sound, Enabled, Step, Added, Window,
      InHand, Front;
    var t := Step(s, l);
    InstancesStay(s, l);
    forall m | m in t.ses ensures WindowFits(t, m) {
      if m !in s.ses {
        NewcomersOnly(s, l, m);
        NewSessionDead(l.member, l.i);
      } else {
        WindowOf(s, m);
        if (l.Joined? || l.Notified?) && l.m == m {
          WindowChanges(s, l);
        } else {
          SessionMoves(s, l, m);
          if Added(s.ses[m]) {
            WindowStays(s.topic, t.topic, s.ses[m], t.ses[m]);
          }
        }
      }
    }
    AllWindows(t);
  }

  lemma WindowChanges(s: State, l: Label)
    requires Stages(s) && Sessions(s) && Logs(s) && Rooms(s) && Windows(s) && Enabled(s, l)
    requires l.Joined? || l.Notified?
    ensures l.m in Step(s, l).ses && Window(Step(s, l).topic, Step(s, l).ses[l.m])
  {
    hide Stages, Sessions, Repository, Logs, Windows, Rooms, Membership, Sound, Added, Window, InHand, Front, InStep;
    var m := l.m;
    var x := s.ses[m];
    SessionOf(s, m);
    if l.Joined? {
      JoinPlace(s, x.home);
      JoinMoves(x, Front(s.inst[x.home]) + if s.inst[x.home].room == RoomIdle then 0 else 1);
      WindowOpens(s.topic, Step(s, l).ses[m]);
    } else {
      var n := s.inst[l.i];
      NotifyFinds(s, l.i, m);
      WindowOf(s, m);
      ReceiveMoves(x, n.room.msg, m in n.room.todo);
      WindowReceives(s.topic, n, m, x, Step(s, l).ses[m]);
    }
  }

  // Rooms -------------------------------------------------------------------------------------------

  ghost predicate RoomFits(s: State, i: string)
    requires i in s.inst
  {
    && (forall m :: m in s.inst[i].members ==>
          m in s.ses && s.ses[m].home == i && Added(s.ses[m]) && InStep(s.inst[i], m, s.ses[m]))
    && (s.inst[i].room.FanningOut? ==>
          s.inst[i].room.todo <= s.inst[i].members && s.inst[i].room.visited <= s.inst[i].members)
  }

  lemma RoomOf(s: State, i: string)
    requires Rooms(s) && i in s.inst
    ensures RoomFits(s, i)
  {
    hide Added, InStep;
  }

  lemma AllRooms(s: State)
    requires forall i :: i in s.inst ==> RoomFits(s, i)
    ensures Rooms(s)
  {
    hide Added, InStep;
    forall i | i in s.inst
      ensures forall m :: m in s.inst[i].members ==>
                m in s.ses && s.ses[m].home == i && Added(s.ses[m]) && InStep(s.inst[i], m, s.ses[m])
      ensures s.inst[i].room.FanningOut? ==>
                s.inst[i].room.todo <= s.inst[i].members && s.inst[i].room.visited <= s.inst[i].members
    {
      assert RoomFits(s, i);
    }
  }

  /** The room of instance `i` is where the step happens. */
  ghost predicate Touches(s: State, l: Label, i: string) {
    match l
    case Joined(m) => m in s.ses && s.ses[m].home == i
    case Accepted(j) => j == i
    case Notified(j, _) => j == i
    case FannedOut(j) => j == i
    case _ => false
  }

  lemma RoomUntouched(s: State, l: Label, i: string)
    requires Enabled(s, l) && i in s.inst && !Touches(s, l, i)
    ensures var n, n' := s.inst[i], Step(s, l).inst[i];
            n'.base == n.base && n'.handled == n.handled && n'.room == n.room && n'.members == n.members
  {
    hide Can, Act, CanSave, Save, AfterPublish, Outgoing;
  }

  lemma InStepStays(n: Instance, n': Instance, m: string, x: Session, y: Session)
    requires InStep(n, m, x)
    requires n'.base == n.base && n'.handled == n.handled && n'.room == n.room
    requires y.start == x.start && y.pos == x.pos
    ensures InStep(n', m, y)
  {
  }

  lemma UntouchedFits(s: State, l: Label, i: string)
    requires Invariant(s) && Enabled(s, l) && i in s.inst && !Touches(s, l, i)
    requires i in Step(s, l).inst
    ensures RoomFits(Step(s, l), i)
  {
    hide Stages, Sessions, Repository, Logs, Windows, Rooms, Membership, Sound, Added, InStep, InHand, Can, Act,
      CanSave, Save,
      AfterPublish, Outgoing, Front;
    var t := Step(s, l);
    RoomOf(s, i);
    RoomUntouched(s, l, i);
    forall m | m in s.inst[i].members
      ensures m in t.ses && t.ses[m].home == i && Added(t.ses[m]) && InStep(t.inst[i], m, t.ses[m])
    {
      SessionMoves(s, l, m);
      if l.Notified? {
        NotifyFinds(s, l.i, l.m);
      }
      assert Seen(s.ses[m], t.ses[m]);
      InStepStays(s.inst[i], t.inst[i], m, s.ses[m], t.ses[m]);
    }
  }

  lemma JoinedInStep(n: Instance, m: string, y: Session)
    requires m !in n.members
    requires n.room.FanningOut? ==> n.room.todo <= n.members && n.room.visited <= n.members
    requires y.start == y.pos == Front(n) + if n.room == RoomIdle then 0 else 1
    ensures InStep(n.(members := n.members + {m}), m, y)
  {
  }

  lemma JoinedFits(s: State, l: Label, i: string)
    requires Sessions(s) && Rooms(s) && Enabled(s, l) && l.Joined? && Touches(s, l, i) && i in s.inst
    ensures RoomFits(Step(s, l), i)
  {
    hide Sessions, Rooms, Sound, Added, InStep, Front;
    var t, n, x := Step(s, l), s.inst[i], s.ses[l.m];
    RoomOf(s, i);
    SessionOf(s, l.m);
    JoinMoves(x, Front(n) + if n.room == RoomIdle then 0 else 1);
    JoinedInStep(n, l.m, t.ses[l.m]);
    forall m | m in n.members ensures InStep(t.inst[i], m, t.ses[m]) && t.ses[m].home == i && Added(t.ses[m]) {
      InStepStays(n, t.inst[i], m, s.ses[m], t.ses[m]);
    }
  }

  lemma AcceptedFits(s: State, l: Label, i: string)
    requires Rooms(s) && Enabled(s, l) && l == Accepted(i)
    ensures RoomFits(Step(s, l), i)
  {
    hide Rooms, Added;
    RoomOf(s, i);
  }

  lemma NotifiedInStep(n: Instance, m: string, x: Session, m': string, z: Session)
    requires MayNotify(n, m) && InStep(n, m, x)
    requires m' != m ==> InStep(n, m', z)
    ensures var n' := n.(room := n.room.(visited := n.room.visited + {m}));
            InStep(n', m', if m' == m then Receive(x, n.room.msg, m in n.room.todo) else z)
  {
  }

  /** A fan-out step, field by field. */
  lemma NotifiedState(s: State, i: string, m: string)
    requires Enabled(s, Notified(i, m))
    ensures i in s.inst && MayNotify(s.inst[i], m) && m in s.ses && s.ses[m].listen == Receiving
    ensures var t, n := Step(s, Notified(i, m)), s.inst[i];
            && t.inst == s.inst[i := n.(room := n.room.(visited := n.room.visited + {m}))]
            && t.ses == s.ses[m := Receive(s.ses[m], n.room.msg, m in n.room.todo)]
  {
    hide Receive;
  }

  lemma NotifiedFits(s: State, l: Label, i: string)
    requires l.Notified? && l.i == i && i in s.inst && Enabled(s, l) && i in Step(s, l).inst
    requires Stages(s) && Sessions(s) && Logs(s) && Rooms(s)
    ensures RoomFits(Step(s, l), i)
  {
    hide Stages, Sessions, Logs, Rooms, Sound, Added, InStep, Front, Enabled, Step, Receive;
    var t, n, m := Step(s, l), s.inst[i], l.m;
    NotifiedState(s, i, m);
    RoomOf(s, i);
    NotifyFinds(s, i, m);
    SessionOf(s, m);
    ReceiveMoves(s.ses[m], n.room.msg, m in n.room.todo);
    forall m' | m' in n.members ensures InStep(t.inst[i], m', t.ses[m']) && t.ses[m'].home == i && Added(t.ses[m']) {
      NotifiedInStep(n, m, s.ses[m], m', s.ses[m']);
      NotifiedHome(s.ses[m], n.room.msg, m in n.room.todo);
    }
  }

  lemma NotifiedHome(x: Session, msg: Message, expected: bool)
    ensures Receive(x, msg, expected).home == x.home
  {
  }

  lemma FannedOutFits(s: State, l: Label, i: string)
    requires Rooms(s) && Enabled(s, l) && l == FannedOut(i)
    ensures RoomFits(Step(s, l), i)
  {
    hide Rooms, Added;
    RoomOf(s, i);
  }

  lemma NewRoomFits(s: State, l: Label, i: string)
    requires Enabled(s, l) && i !in s.inst && i in Step(s, l).inst
    ensures RoomFits(Step(s, l), i)
    ensures l == Subscribed(i) && Step(s, l).inst[i].members == {} && Step(s, l).inst[i].base == |s.topic|
    ensures Step(s, l).inst[i].handled == [] && Step(s, l).inst[i].room == RoomIdle
  {
    hide Can, Act, CanSave, Save, AfterPublish, Outgoing;
  }

  lemma RoomsKept(s: State, l: Label)
    requires Invariant(s) && Enabled(s, l)
    ensures Rooms(Step(s, l))
  {
    hide Stages, Sessions, Repository, Logs, Windows, Rooms, Membership, Enabled, Step, RoomFits;
    InstancesStay(s, l);
    forall i | i in Step(s, l).inst ensures RoomFits(Step(s, l), i) {
      if i !in s.inst {
        NewRoomFits(s, l, i);
      } else if !Touches(s, l, i) {
        UntouchedFits(s, l, i);
      } else {
        match l
        case Joined(_) => JoinedFits(s, l, i);
        case Accepted(_) => AcceptedFits(s, l, i);
        case Notified(_, _) => NotifiedFits(s, l, i);
        case FannedOut(_) => FannedOutFits(s, l, i);
      }
    }
    AllRooms(Step(s, l));
  }

  // Membership --------------------------------------------------------------------------------------

  ghost predicate MembershipFits(s: State, m: string)
    requires m in s.ses && s.ses[m].home in s.inst
  {
    var n := s.inst[s.ses[m].home];
    && (Added(s.ses[m]) ==> (m in n.members <==> !HasLeft(n.handled + InRoom(n), m)))
    && (forall k :: 0 <= k < n.base && k < |s.topic| ==> s.topic[k].memberId != m)
  }

  lemma MembershipOf(s: State, m: string)
    requires Membership(s) && m in s.ses && s.ses[m].home in s.inst
    ensures MembershipFits(s, m)
  {
    hide Added, HasLeft;
  }

  lemma AllMembers(s: State)
    requires forall m :: m in s.ses && s.ses[m].home in s.inst ==> MembershipFits(s, m)
    ensures Membership(s)
  {
    hide Added, HasLeft;
    forall m | m in s.ses && s.ses[m].home in s.inst
      ensures var n := s.inst[s.ses[m].home];
              && (Added(s.ses[m]) ==> (m in n.members <==> !HasLeft(n.handled + InRoom(n), m)))
              && (forall k :: 0 <= k < n.base && k < |s.topic| ==> s.topic[k].memberId != m)
    {
      assert MembershipFits(s, m);
    }
  }

  lemma {:induction false} ByMemberSilent(log: seq<Message>, m: string)
    requires ByMember(log, m) == []
    ensures forall k :: 0 <= k < |log| ==> log[k].memberId != m
  {
    if log != [] {
      ByMemberSilent(log[..|log| - 1], m);
    }
  }

  /** A member about to be added has published nothing, so the room holds no left message of it. */
  lemma NothingLeftYet(s: State, m: string)
    requires Stages(s) && Sessions(s) && Logs(s) && m in s.ses && s.ses[m].serve.AddingMember?
    requires s.ses[m].home in s.inst
    ensures var n := s.inst[s.ses[m].home]; !HasLeft(n.handled + InRoom(n), m)
  {
    hide Stages, Sessions, Logs, Sound;
    var n := s.inst[s.ses[m].home];
    SessionOf(s, m);
    JoinMoves(s.ses[m], 0);
    LogsOf(s);
    assert LogsFit(s, m);
    ByMemberSilent(s.topic, m);
    ChainOf(s, s.ses[m].home);
    FrontMessage(s.topic, n);
    InstanceRoomSilent(s, n, m);
  }

  lemma ChainOf(s: State, i: string)
    requires Stages(s) && i in s.inst
    ensures Chained(s.topic, s.inst[i])
  {
    hide Chained;
  }

  lemma HasLeftAppend(log: seq<Message>, msg: Message, m: string)
    ensures HasLeft(log + [msg], m) <==> HasLeft(log, m) || (msg.kind == MemberLeft && msg.memberId == m)
  {
    if k :| 0 <= k < |log| && log[k].kind == MemberLeft && log[k].memberId == m {
      assert (log + [msg])[k] == log[k];
    }
    assert (log + [msg])[|log|] == msg;
  }

  lemma MembershipAccepts(n: Instance, m: string)
    requires n.room == RoomIdle && n.sub.Some?
    requires m in n.members <==> !HasLeft(n.handled + InRoom(n), m)
    ensures var msg := n.sub.value;
            m in Staying(n.members, msg) <==> !HasLeft(n.handled + [msg], m)
  {
    assert n.handled + [] == n.handled;
    HasLeftAppend(n.handled, n.sub.value, m);
    hide HasLeft;
  }

  /** What a step leaves of a room's members and of the messages it has taken up. */
  lemma MembersMove(s: State, l: Label, i: string)
    requires Enabled(s, l) && i in s.inst
    ensures var n, n' := s.inst[i], Step(s, l).inst[i];
            && n'.base == n.base
            && (if l.Joined? && Touches(s, l, i) then
                  n'.members == n.members + {l.m} && n'.handled + InRoom(n') == n.handled + InRoom(n)
                else if l == Accepted(i) then
                  && n.room == RoomIdle && n.sub.Some?
                  && n'.members == Staying(n.members, n.sub.value)
                  && n'.handled + InRoom(n') == n.handled + [n.sub.value]
                else
                  n'.members == n.members && n'.handled + InRoom(n') == n.handled + InRoom(n))
  {
    hide Can, Act, CanSave, Save, AfterPublish, Outgoing;
    var n := s.inst[i];
    if n.room.FanningOut? {
      assert n.handled + [n.room.msg] + [] == n.handled + [n.room.msg];
    }
  }

  lemma MembershipKept(s: State, l: Label)
    requires Invariant(s) && Enabled(s, l)
    ensures Membership(Step(s, l))
  {
    hide Stages, Sessions, Repository, Logs, Windows, Rooms, Membership, Sound, Enabled, Step, Added, HasLeft,
      InHand, MembershipFits;
    var t := Step(s, l);
    InstancesStay(s, l);
    forall m | m in t.ses && t.ses[m].home in t.inst ensures MembershipFits(t, m) {
      if m in s.ses {
        SessionOf(s, m);
        MembershipOf(s, m);
        OldMemberFits(s, l, m);
      } else {
        NewcomersOnly(s, l, m);
        NewMemberFits(s, l, m);
      }
    }
    AllMembers(t);
  }

  lemma NewMemberFits(s: State, l: Label, m: string)
    requires Stages(s) && Logs(s) && Enabled(s, l) && l.Connected? && m == l.member.id && m !in s.ses
    requires l.i in s.inst && Step(s, l).ses[m] == NewSession(l.member, l.i)
    ensures MembershipFits(Step(s, l), m)
  {
    hide Stages, Logs, Added, HasLeft, EntriesFit;
    LogsOf(s);
    Unheard(s, s.topic, m);
    NewSessionDead(l.member, l.i);
  }

  lemma BaseStays(s: State, l: Label, m: string)
    requires Stages(s) && Enabled(s, l) && m in s.ses && s.ses[m].home in s.inst && MembershipFits(s, m)
    requires Step(s, l).ses[m].home == s.ses[m].home
    ensures var t := Step(s, l);
            forall k :: 0 <= k < t.inst[t.ses[m].home].base && k < |t.topic| ==> t.topic[k].memberId != m
  {
    hide Stages, Enabled, Step, HasLeft, Chained, Added;
    InstancesStay(s, l);
    ChainOf(s, s.ses[m].home);
    BaseInTopic(s.topic, s.inst[s.ses[m].home]);
  }

  lemma BaseInTopic(topic: seq<Message>, n: Instance)
    requires Chained(topic, n)
    ensures n.base <= |topic|
  {
  }

  lemma InstanceRoomSilent(s: State, n: Instance, m: string)
    requires forall k :: 0 <= k < |s.topic| ==> s.topic[k].memberId != m
    requires forall k :: 0 <= k < |n.handled + InRoom(n)| ==>
        n.base + k < |s.topic| && (n.handled + InRoom(n))[k] == s.topic[n.base + k]
    ensures !HasLeft(n.handled + InRoom(n), m)
  {
  }

  lemma OldMemberFits(s: State, l: Label, m: string)
    requires Invariant(s) && Enabled(s, l) && m in s.ses && SessionFits(s, m) && MembershipFits(s, m)
    requires m in Step(s, l).ses && Step(s, l).ses[m].home in Step(s, l).inst
    ensures MembershipFits(Step(s, l), m)
  {
    hide Stages, Sessions, Repository, Logs, Windows, Rooms, Membership, Sound, Enabled, Step, Added, HasLeft, InHand;
    var t, x, i := Step(s, l), s.ses[m], s.ses[m].home;
    SessionMoves(s, l, m);
    BaseStays(s, l, m);
    MembersMove(s, l, i);
    if l.Joined? && l.m == m {
      JoinedMember(s, l);
    } else {
      StaysAdded(s, l, m);
      if l == Accepted(i) && Added(x) {
        MembershipAccepts(s.inst[i], m);
      }
    }
  }

  lemma JoinedMember(s: State, l: Label)
    requires Stages(s) && Sessions(s) && Logs(s) && Enabled(s, l) && l.Joined?
    ensures l.m in s.ses && s.ses[l.m].home in s.inst && Touches(s, l, s.ses[l.m].home)
    ensures var n := s.inst[s.ses[l.m].home]; !HasLeft(n.handled + InRoom(n), l.m)
  {
    hide Stages, Sessions, Logs, Sound, HasLeft;
    NothingLeftYet(s, l.m);
  }

  lemma StaysAdded(s: State, l: Label, m: string)
    requires Stages(s) && Logs(s) && Rooms(s) && Enabled(s, l) && m in s.ses
    requires m in Step(s, l).ses && Moved(l, m, s.ses[m], Step(s, l).ses[m])
    requires !(l.Joined? && l.m == m)
    ensures Added(Step(s, l).ses[m]) == Added(s.ses[m])
  {
    hide Stages, Logs, Rooms, Step, Added, Sound, InHand;
    if l.Notified? {
      NotifyFinds(s, l.i, l.m);
    }
  }

  // Whole runs --------------------------------------------------------------------------------------

  /** No step sends on a closed channel: only refused sessions close it, and nobody can send to those. */
  lemma NeverOnClosed(s: State, l: Label)
    requires Invariant(s) && Enabled(s, l)
    ensures !l.SendOnClosed?
    ensures !Step(s, l).panicked
  {
    hide Stages, Repository, Logs, Windows, Rooms, Membership, Can, Act, CanSave, Save, AfterPublish, Outgoing,
      LifeCycle,
      Accounts, Chats, Carries, Front;
    if l.SendOnClosed? {
      var x := s.ses[l.m];
      assert Control(x);
      if x.publish != Reporting {
        RoomOf(s, l.i);
      }
    }
  }

  lemma InvariantKept(s: State, l: Label)
    requires Invariant(s) && Enabled(s, l)
    ensures Invariant(Step(s, l))
  {
    hide Stages, Sessions, Repository, Logs, Windows, Rooms, Membership, Enabled, Step;
    StagesKept(s, l);
    SessionsKept(s, l);
    RepositoryKept(s, l);
    LogsKept(s, l);
    WindowsKept(s, l);
    RoomsKept(s, l);
    MembershipKept(s, l);
    NeverOnClosed(s, l);
  }

  lemma InitialInvariant(kind: QueueKind, roomId: string)
    ensures Invariant(Initial(kind, roomId))
  {
  }

  /** The invariant holds in every state of every run. */
  lemma {:induction false} RunInvariant(r: Run, k: nat)
    requires IsRun(r) && k < |r.states|
    ensures Invariant(r.states[k])
  {
    hide Invariant, Enabled, Step;
    if k == 0 {
      var kind, roomId :| r.states[0] == Initial(kind, roomId);
      InitialInvariant(kind, roomId);
    } else {
      RunInvariant(r, k - 1);
      assert Enabled(r.states[k - 1], r.labels[k - 1]);
      InvariantKept(r.states[k - 1], r.labels[k - 1]);
    }
  }
}
