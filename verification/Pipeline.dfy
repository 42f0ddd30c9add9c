/**
  One chat room, served by any number of Controller instances, as a transition system. Besides the
  sessions there are, per instance, the goroutine of queue.Subscribe, the goroutine of
  Controller.Subscribe, and Room.Start; all are joined by unbuffered channels, so a send and its
  receive are one step. The topic is one ordered log. Which goroutine moves, and whether an external
  call fails, is left open: a run may take any enabled step.
 */
module Pipeline {
  import opened Wrappers
  import opened Messages
  import opened Session

  /** The in-memory queue is a rendezvous with its one subscriber; Redis keeps a log per topic. */
  datatype QueueKind = MemoryQueue | RedisQueue

  /** Room.Start: `todo` are the members present when the fan-out began; `visited` those notified so far. */
  datatype RoomPC = RoomIdle | FanningOut(msg: Message, todo: set<string>, visited: set<string>)

  /**
    A subscribed instance: it sees the topic from position `base` on and has received up to `taken`.
    `queue` and `sub` are the messages its two forwarding goroutines hold, `members` the keys of the
    room's map, `handled` the messages the room is done with.
   */
  datatype Instance = Instance(
    base: nat, taken: nat, handled: seq<Message>,
    queue: Option<Message>, sub: Option<Message>, room: RoomPC, members: set<string>)

  /** `repo` are the members the repository counts as live; `panicked` records a send on a closed channel. */
  datatype State = State(
    kind: QueueKind, roomId: string, topic: seq<Message>, persisted: seq<Message>, repo: set<string>,
    inst: map<string, Instance>, ses: map<string, Session>, panicked: bool)

  function Initial(kind: QueueKind, roomId: string): State {
    State(kind, roomId, [], [], {}, map[], map[], false)
  }

  datatype Label =
    | Subscribed(i: string)                       // startRoom and Subscribe succeeded on instance i
    | Connected(member: Member, i: string)        // a ServeRoom call reached NewMember on instance i
    | Own(m: string, a: Action)
    | Stored(m: string, row: Row, msg: Message)
    | Published(m: string, i: string)             // i: the receiving instance of a memory queue
    | PublishFailed(m: string)
    | Joined(m: string)
    | Taken(i: string)                            // queue goroutine receives from the topic
    | Forwarded(i: string)                        // controller <- message
    | Accepted(i: string)                         // room.inbound <- message
    | Notified(i: string, m: string)              // member.inbound <- message
    | FannedOut(i: string)                        // end of the loop over r.members
    | SendOnClosed(m: string, i: string)

  /** The topic position the room of an instance handles next, or is handling. */
  function Front(n: Instance): nat {
    n.base + |n.handled|
  }

  predicate MayNotify(n: Instance, m: string) {
    n.room.FanningOut? && m in n.members && m !in n.room.visited
  }

  /** The members a room keeps when it takes up a message. */
  function Staying(members: set<string>, msg: Message): set<string> {
    if msg.kind == MemberLeft then members - {msg.memberId} else members
  }

  predicate Enabled(s: State, l: Label) {
    match l
    case Subscribed(i) => i !in s.inst && (s.kind == MemoryQueue ==> s.inst == map[])
    case Connected(member, i) => i in s.inst && member.id !in s.ses && member.roomId == s.roomId
    case Own(m, a) => m in s.ses && Can(s.ses[m], a)
    case Stored(m, row, msg) => m in s.ses && CanSave(s.ses[m], row, msg)
    case Published(m, i) =>
      && m in s.ses && Outgoing(s.ses[m]).Some?
      && (s.kind == MemoryQueue ==> i in s.inst && s.inst[i].queue == None)
    case PublishFailed(m) => m in s.ses && Outgoing(s.ses[m]).Some?
    case Joined(m) => m in s.ses && s.ses[m].serve.AddingMember? && s.ses[m].home in s.inst
    case Taken(i) => i in s.inst && s.inst[i].queue == None && s.inst[i].taken < |s.topic|
    case Forwarded(i) => i in s.inst && s.inst[i].queue.Some? && s.inst[i].sub == None
    case Accepted(i) => i in s.inst && s.inst[i].sub.Some? && s.inst[i].room == RoomIdle
    case Notified(i, m) =>
      i in s.inst && MayNotify(s.inst[i], m) && m in s.ses && !s.ses[m].closed && s.ses[m].listen == Receiving
    case FannedOut(i) => i in s.inst && s.inst[i].room.FanningOut? && s.inst[i].room.todo <= s.inst[i].room.visited
    case SendOnClosed(m, i) =>
      m in s.ses && s.ses[m].closed && (s.ses[m].publish == Reporting || (i in s.inst && MayNotify(s.inst[i], m)))
  }

  function Step(s: State, l: Label): State
    requires Enabled(s, l)
  {
    match l
    case Subscribed(i) =>
      s.(inst := s.inst[i := Instance(|s.topic|, |s.topic|, [], None, None, RoomIdle, {})])
    case Connected(member, i) => s.(ses := s.ses[member.id := NewSession(member, i)])
    case Own(m, a) => s.(ses := s.ses[m := Act(s.ses[m], a)])
    case Stored(m, row, msg) =>
      s.(persisted := s.persisted + [msg],
         repo := (match row case JoinedRow => s.repo + {m} case ChatRow => s.repo case LeftRow => s.repo - {m}),
         ses := s.ses[m := Save(s.ses[m], row, msg)])
    case Published(m, i) =>
      var msg := Outgoing(s.ses[m]).value;
      s.(topic := s.topic + [msg],
         inst := if s.kind == RedisQueue then s.inst
                 else s.inst[i := s.inst[i].(queue := Some(msg), taken := s.inst[i].taken + 1)],
         ses := s.ses[m := AfterPublish(s.ses[m], true)])
    case PublishFailed(m) => s.(ses := s.ses[m := AfterPublish(s.ses[m], false)])
    case Joined(m) =>
      var i := s.ses[m].home;
      var n := s.inst[i];
      s.(inst := s.inst[i := n.(members := n.members + {m})],
         ses := s.ses[m := Join(s.ses[m], Front(n) + if n.room == RoomIdle then 0 else 1)])
    case Taken(i) =>
      var n := s.inst[i];
      s.(inst := s.inst[i := n.(queue := Some(s.topic[n.taken]), taken := n.taken + 1)])
    case Forwarded(i) =>
      var n := s.inst[i];
      s.(inst := s.inst[i := n.(queue := None, sub := n.queue)])
    case Accepted(i) =>
      var n := s.inst[i];
      var msg := n.sub.value;
      var staying := Staying(n.members, msg);
      s.(inst := s.inst[i := n.(sub := None, members := staying, room := FanningOut(msg, staying, {}))])
    case Notified(i, m) =>
      var n := s.inst[i];
      s.(inst := s.inst[i := n.(room := n.room.(visited := n.room.visited + {m}))],
         ses := s.ses[m := Receive(s.ses[m], n.room.msg, m in n.room.todo)])
    case FannedOut(i) =>
      var n := s.inst[i];
      s.(inst := s.inst[i := n.(handled := n.handled + [n.room.msg], room := RoomIdle)])
    case SendOnClosed(_, _) => s.(panicked := true)
  }

  /** A run: the states passed through and the steps between them. */
  datatype Run = Run(states: seq<State>, labels: seq<Label>)

  ghost predicate IsRun(r: Run) {
    && |r.states| == |r.labels| + 1
    && (exists kind, roomId :: r.states[0] == Initial(kind, roomId))
    && (forall k :: 0 <= k < |r.labels| ==>
          Enabled(r.states[k], r.labels[k]) && r.states[k + 1] == Step(r.states[k], r.labels[k]))
  }

  // The invariant -----------------------------------------------------------------------------------

  function AsSeq(o: Option<Message>): seq<Message> {
    if o.Some? then [o.value] else []
  }

  function InRoom(n: Instance): seq<Message> {
    if n.room.FanningOut? then [n.room.msg] else []
  }

  /** Stage by stage: what the room did, what it holds, what the two forwarders hold. */
  predicate Chained(topic: seq<Message>, n: Instance) {
    && n.base <= n.taken <= |topic|
    && topic[n.base..n.taken] == n.handled + InRoom(n) + AsSeq(n.sub) + AsSeq(n.queue)
  }

  ghost predicate Stages(s: State) {
    && (forall i :: i in s.inst ==> Chained(s.topic, s.inst[i]))
    && (s.kind == MemoryQueue ==>
          && (forall i, j :: i in s.inst && j in s.inst ==> i == j)
          && (forall i :: i in s.inst ==> s.inst[i].taken == |s.topic|))
  }

  ghost predicate Sessions(s: State) {
    forall m :: m in s.ses ==>
      && Sound(s.ses[m])
      && s.ses[m].member.id == m && s.ses[m].member.roomId == s.roomId && s.ses[m].home in s.inst
  }

  ghost predicate Repository(s: State) {
    forall m :: m in s.repo <==> m in s.ses && Live(s.ses[m])
  }

  function ByMember(log: seq<Message>, m: string): seq<Message> {
    if log == [] then []
    else ByMember(log[..|log| - 1], m) + if log[|log| - 1].memberId == m then [log[|log| - 1]] else []
  }

  predicate FromSession(s: State, msg: Message) {
    msg.memberId in s.ses && msg.roomId == s.roomId && msg.kind != SendFailed
  }

  /** The two global logs are shuffles of the sessions' own histories. */
  ghost predicate Logs(s: State) {
    && (forall k :: 0 <= k < |s.persisted| ==> FromSession(s, s.persisted[k]))
    && (forall k :: 0 <= k < |s.topic| ==> FromSession(s, s.topic[k]))
    && (forall m :: m in s.ses ==>
          && ByMember(s.persisted, m) == s.ses[m].saved
          && ByMember(s.topic, m) == s.ses[m].published)
  }

  /** Messages handed to Listen by the room, written or about to be. */
  function InHand(x: Session): seq<Message> {
    Delivered(x.written) + if x.listen.Writing? && x.listen.out.kind != SendFailed then [x.listen.out] else []
  }

  /** Each added member has received one contiguous piece of the topic. */
  predicate Window(topic: seq<Message>, x: Session) {
    && 0 <= x.start <= x.pos <= |topic|
    && InHand(x) == topic[x.start..x.pos]
  }

  ghost predicate Windows(s: State) {
    forall m :: m in s.ses && Added(s.ses[m]) ==> Window(s.topic, s.ses[m])
  }

  /** How far a member of the room has got, against what the room is doing. */
  predicate InStep(n: Instance, m: string, x: Session) {
    match n.room
    case RoomIdle => x.pos == Front(n)
    case FanningOut(_, todo, visited) =>
      if m in todo && m !in visited then x.pos == Front(n)
      else x.pos == Front(n) + 1 && (m !in visited ==> x.start == x.pos)
  }

  ghost predicate Rooms(s: State) {
    forall i :: i in s.inst ==>
      && (forall m :: m in s.inst[i].members ==>
            m in s.ses && s.ses[m].home == i && Added(s.ses[m]) && InStep(s.inst[i], m, s.ses[m]))
      && (s.inst[i].room.FanningOut? ==>
            s.inst[i].room.todo <= s.inst[i].members && s.inst[i].room.visited <= s.inst[i].members)
  }

  predicate HasLeft(log: seq<Message>, m: string) {
    exists k :: 0 <= k < |log| && log[k].kind == MemberLeft && log[k].memberId == m
  }

  /**
    An added member is in its room's map until the room takes up its left message; nothing of it
    precedes the subscription.
   */
  ghost predicate Membership(s: State) {
    forall m :: m in s.ses && s.ses[m].home in s.inst ==>
      var n := s.inst[s.ses[m].home];
      && (Added(s.ses[m]) ==> (m in n.members <==> !HasLeft(n.handled + InRoom(n), m)))
      && (forall k :: 0 <= k < n.base && k < |s.topic| ==> s.topic[k].memberId != m)
  }

  ghost predicate Invariant(s: State) {
    && Stages(s) && Sessions(s) && Repository(s) && Logs(s)
    && Windows(s) && Rooms(s) && Membership(s) && !s.panicked
  }
}
