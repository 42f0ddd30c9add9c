/**
  Concrete runs: both ways a fan-out in progress can treat a newcomer, and what stays behind when the
  queue refuses a message.
 */
module Witness {
  import opened Wrappers
  import opened Rfc3339
  import opened Messages
  import opened Session
  import opened Pipeline
  import opened Progress

  function Now(r: Run): State
    requires r.states != []
  {
    r.states[|r.states| - 1]
  }

  /** One more step. */
  lemma Extended(r: Run, l: Label) returns (longer: Run)
    requires IsRun(r) && r.states != [] && Enabled(Now(r), l)
    ensures IsRun(longer) && longer.states != [] && r.states <= longer.states && Now(longer) == Step(Now(r), l)
  {
    hide Enabled, Step;
    longer := Run(r.states + [Step(Now(r), l)], r.labels + [l]);
    forall k | 0 <= k < |longer.labels|
      ensures Enabled(longer.states[k], longer.labels[k])
      ensures longer.states[k + 1] == Step(longer.states[k], longer.labels[k])
    {
      if k < |r.labels| {
        assert Enabled(r.states[k], r.labels[k]);
      }
    }
  }

  /** A session whose member was just added, with its joined message on the way to the queue. */
  function Newcomer(member: Member, home: string, joined: Message, at: int): Session {
    Session(
      member, home, PublishingJoined(joined), Receiving, Held, Selecting, false, [joined], [], [], [], [], [], at, at)
  }

  /** A connection up to InsertMember. */
  lemma Connect(r: Run, i: string, member: Member) returns (longer: Run)
    requires r.states != [] && IsRun(r)
    requires i in Now(r).inst && member.id !in Now(r).ses && member.roomId == Now(r).roomId
    ensures longer.states != [] && IsRun(longer)
    ensures Now(longer) == Now(r).(ses := Now(r).ses[member.id := NewSession(member, i).(
              serve := InsertingMember, listen := Receiving, broadcast := Held, publish := Selecting)])
  {
    hide IsRun;
    var m := member.id;
    longer := Extended(r, Connected(member, i));
    longer := Extended(longer, Own(m, ListenReady));
    longer := Extended(longer, Own(m, BroadcastReady));
    assert Now(longer).ses == Now(r).ses[m := Now(longer).ses[m]];
  }

  /** The rest of a set-up, to AddMember. */
  lemma Add(r: Run, i: string, member: Member, joined: Message) returns (longer: Run)
    requires r.states != [] && IsRun(r)
    requires i in Now(r).inst && member.id !in Now(r).ses && member.roomId == Now(r).roomId
    requires joined == NewMemberJoinedMessage(member, joined.id).(sent := joined.sent)
    ensures longer.states != [] && IsRun(longer)
    ensures var s, n := Now(r), Now(r).inst[i];
            Now(longer) == s.(
              persisted := s.persisted + [joined], repo := s.repo + {member.id},
              inst := s.inst[i := n.(members := n.members + {member.id})],
              ses := s.ses[member.id := Newcomer(member, i, joined, Front(n) + if n.room == RoomIdle then 0 else 1)])
  {
    hide IsRun;
    var m := member.id;
    longer := Connect(r, i, member);
    longer := Extended(longer, Stored(m, JoinedRow, joined));
    longer := Extended(longer, Joined(m));
    var n := Now(r).inst[i];
    assert Now(longer).ses[m] == Newcomer(member, i, joined, Front(n) + if n.room == RoomIdle then 0 else 1);
    assert Now(longer).ses == Now(r).ses[m := Now(longer).ses[m]];
  }

  /** One member, set up to AddMember. */
  lemma Alone(kind: QueueKind, i: string, a: Member, ja: Message) returns (r: Run)
    requires ja == NewMemberJoinedMessage(a, ja.id).(sent := ja.sent)
    ensures r.states != [] && IsRun(r)
    ensures Now(r) == State(
              kind, a.roomId, [], [ja], {a.id}, map[i := Instance(0, 0, [], None, None, RoomIdle, {a.id})],
              map[a.id := Newcomer(a, i, ja, 0)], false)
  {
    hide IsRun;
    r := Run([Initial(kind, a.roomId)], []);
    assert IsRun(r) by { Starts(kind, a.roomId); }
    r := Extended(r, Subscribed(i));
    r := Add(r, i, a, ja);
    assert Now(r).inst[i].members == {a.id} && Now(r).persisted == [ja] && Now(r).repo == {a.id};
    assert Now(r).inst == map[i := Now(r).inst[i]];
  }

  /** The first member's joined message is taken up by the queue's forwarder. */
  lemma FirstJoins(i: string, a: Member, ja: Message) returns (r: Run)
    requires ja == NewMemberJoinedMessage(a, ja.id).(sent := ja.sent)
    ensures r.states != [] && IsRun(r)
    ensures Now(r).roomId == a.roomId && Now(r).topic == [ja] && Now(r).ses.Keys == {a.id} && i in Now(r).inst
    ensures Now(r).inst[i] == Instance(0, 1, [], Some(ja), None, RoomIdle, {a.id})
    ensures Now(r).ses[a.id] == Newcomer(a, i, ja, 0).(serve := StartingBroadcast(Nil), published := [ja])
  {
    hide IsRun;
    r := Alone(MemoryQueue, i, a, ja);
    assert Outgoing(Now(r).ses[a.id]) == Some(ja);
    r := Extended(r, Published(a.id, i));
    assert Now(r).topic == [ja];
  }

  /** The room begins to fan it out. */
  lemma FirstFansOut(i: string, a: Member, ja: Message) returns (r: Run)
    requires ja == NewMemberJoinedMessage(a, ja.id).(sent := ja.sent)
    ensures r.states != [] && IsRun(r)
    ensures Now(r).roomId == a.roomId && Now(r).topic == [ja] && Now(r).ses.Keys == {a.id} && i in Now(r).inst
    ensures Now(r).inst[i] == Instance(0, 1, [], None, None, FanningOut(ja, {a.id}, {}), {a.id})
    ensures Now(r).ses[a.id] == Newcomer(a, i, ja, 0).(serve := StartingBroadcast(Nil), published := [ja])
  {
    hide IsRun;
    r := FirstJoins(i, a, ja);
    r := Extended(r, Forwarded(i));
    r := Extended(r, Accepted(i));
  }

  /** A second member is added while the room fans out the first one's joined message. */
  lemma SecondJoins(i: string, a: Member, b: Member, ja: Message, jb: Message) returns (r: Run)
    requires a.id != b.id && a.roomId == b.roomId
    requires ja == NewMemberJoinedMessage(a, ja.id).(sent := ja.sent)
    requires jb == NewMemberJoinedMessage(b, jb.id).(sent := jb.sent)
    ensures r.states != [] && IsRun(r) && Now(r).topic == [ja] && Now(r).ses.Keys == {a.id, b.id} && i in Now(r).inst
    ensures Now(r).inst[i] == Instance(0, 1, [], None, None, FanningOut(ja, {a.id}, {}), {a.id, b.id})
    ensures Now(r).ses[a.id] == Newcomer(a, i, ja, 0).(serve := StartingBroadcast(Nil), published := [ja])
    ensures Now(r).ses[b.id] == Newcomer(b, i, jb, 1)
  {
    hide IsRun;
    r := FirstFansOut(i, a, ja);
    r := Add(r, i, b, jb);
  }

  /**
    A member added while the room fans out an earlier message is at position 1 of the topic. The loop may
    still visit it, and then its start moves back to that message; or end without visiting it.
   */
  lemma LateJoinerEitherWay(i: string, a: Member, b: Member, ja: Message, jb: Message)
    returns (added: Run, visited: Run, passed: Run)
    requires a.id != b.id && a.roomId == b.roomId
    requires ja == NewMemberJoinedMessage(a, ja.id).(sent := ja.sent)
    requires jb == NewMemberJoinedMessage(b, jb.id).(sent := jb.sent)
    ensures added.states != [] && visited.states != [] && passed.states != []
    ensures IsRun(added) && IsRun(visited) && added.states <= visited.states
    ensures IsRun(passed) && added.states <= passed.states
    ensures b.id in Now(added).ses && b.id in Now(visited).ses && b.id in Now(passed).ses && i in Now(passed).inst
    ensures Now(added).topic == Now(visited).topic == Now(passed).topic == [ja]
    ensures Now(added).ses[b.id].start == 1
    ensures Now(visited).ses[b.id].start == 0 && Delivered(Now(visited).ses[b.id].written) == [ja]
    ensures Now(passed).ses[b.id].start == 1 && Now(passed).inst[i].handled == [ja]
        && Now(passed).inst[i].room == RoomIdle
  {
    hide IsRun;
    added := SecondJoins(i, a, b, ja, jb);
    visited := Visited(added, i, b, ja, jb);
    var told := Extended(added, Notified(i, a.id));
    passed := Extended(told, FannedOut(i));
    assert Now(passed).ses[b.id] == Now(added).ses[b.id];
  }

  lemma Visited(r: Run, i: string, b: Member, ja: Message, jb: Message) returns (longer: Run)
    requires r.states != [] && IsRun(r) && i in Now(r).inst && b.id in Now(r).ses && Now(r).topic == [ja]
    requires Now(r).ses[b.id] == Newcomer(b, i, jb, 1) && MayNotify(Now(r).inst[i], b.id)
    requires Now(r).inst[i].room.msg == ja && b.id !in Now(r).inst[i].room.todo && ja.kind == MemberJoined
    ensures longer.states != [] && IsRun(longer) && r.states <= longer.states
    ensures b.id in Now(longer).ses && Now(longer).topic == [ja]
    ensures Now(longer).ses[b.id].start == 0 && Delivered(Now(longer).ses[b.id].written) == [ja]
  {
    hide IsRun;
    var fanning := Extended(r, Notified(i, b.id));
    assert Now(fanning).ses[b.id] == Receive(Newcomer(b, i, jb, 1), ja, false);
    longer := Extended(fanning, Own(b.id, Write));
    assert Now(longer).ses[b.id].written == [ja];
    assert [ja][..0] == [];
  }

  // Across instances --------------------------------------------------------------------------------

  /** Two instances serve the room over one Redis topic, with a member on each. */
  lemma TwoInstances(i: string, j: string, a: Member, b: Member, ja: Message, jb: Message) returns (r: Run)
    requires i != j && a.id != b.id && a.roomId == b.roomId
    requires ja == NewMemberJoinedMessage(a, ja.id).(sent := ja.sent)
    requires jb == NewMemberJoinedMessage(b, jb.id).(sent := jb.sent)
    ensures r.states != [] && IsRun(r) && Now(r).kind == RedisQueue && Now(r).topic == []
    ensures Now(r).inst.Keys == {i, j} && Now(r).ses.Keys == {a.id, b.id}
    ensures Now(r).inst[i] == Instance(0, 0, [], None, None, RoomIdle, {a.id})
    ensures Now(r).inst[j] == Instance(0, 0, [], None, None, RoomIdle, {b.id})
    ensures Now(r).ses[a.id] == Newcomer(a, i, ja, 0) && Now(r).ses[b.id] == Newcomer(b, j, jb, 0)
  {
    hide IsRun;
    r := Alone(RedisQueue, i, a, ja);
    r := Extended(r, Subscribed(j));
    assert Now(r).inst[j].members == {};
    r := Add(r, j, b, jb);
    assert Now(r).inst[j].members == {b.id};
  }

  /** The joined message of one member is taken up by the room of the other instance. */
  lemma CrossesOver(i: string, j: string, a: Member, b: Member, ja: Message, jb: Message) returns (r: Run)
    requires i != j && a.id != b.id && a.roomId == b.roomId
    requires ja == NewMemberJoinedMessage(a, ja.id).(sent := ja.sent)
    requires jb == NewMemberJoinedMessage(b, jb.id).(sent := jb.sent)
    ensures r.states != [] && IsRun(r) && Now(r).inst.Keys == {i, j} && Now(r).ses.Keys == {a.id, b.id}
    ensures Now(r).inst[j] == Instance(0, 1, [], None, None, FanningOut(ja, {b.id}, {}), {b.id})
    ensures Now(r).ses[b.id] == Newcomer(b, j, jb, 0) && Now(r).topic == [ja] && Now(r).ses[a.id].home == i
  {
    hide IsRun;
    r := TwoInstances(i, j, a, b, ja, jb);
    assert Outgoing(Now(r).ses[a.id]) == Some(ja);
    r := Extended(r, Published(a.id, i));
    assert Now(r).topic == [ja];
    r := Extended(r, Taken(j));
    r := Extended(r, Forwarded(j));
    r := Extended(r, Accepted(j));
  }

  /** A message published on one instance is written to a member served by another. */
  lemma InstancesShareTheRoom(i: string, j: string, a: Member, b: Member, ja: Message, jb: Message) returns (r: Run)
    requires i != j && a.id != b.id && a.roomId == b.roomId
    requires ja == NewMemberJoinedMessage(a, ja.id).(sent := ja.sent)
    requires jb == NewMemberJoinedMessage(b, jb.id).(sent := jb.sent)
    ensures r.states != [] && IsRun(r) && a.id in Now(r).ses && b.id in Now(r).ses
    ensures Now(r).ses[a.id].home == i && Now(r).ses[b.id].home == j
    ensures Delivered(Now(r).ses[b.id].written) == [ja]
  {
    hide IsRun;
    r := CrossesOver(i, j, a, b, ja, jb);
    r := Extended(r, Notified(j, b.id));
    assert Now(r).ses[b.id] == Receive(Newcomer(b, j, jb, 0), ja, true);
    r := Extended(r, Own(b.id, Write));
    assert Now(r).ses[b.id].written == [ja];
    assert [ja][..0] == [];
  }

  // What a refusing repository leaves behind --------------------------------------------------------

  lemma RefusedInsert(i: string, a: Member, ja: Message, line: Line) returns (r: Run)
    requires ja == NewMemberJoinedMessage(a, ja.id).(sent := ja.sent)
    ensures r.states != [] && IsRun(r) && Now(r).ses.Keys == {a.id} && Now(r).persisted == [ja] && Now(r).topic == []
    ensures Now(r).inst == map[i := Instance(0, 0, [], None, None, RoomIdle, {a.id})]
    ensures Now(r).ses[a.id] ==
            Newcomer(a, i, ja, 0).(
              serve := Returned(FailedToPublish), broadcast := Reading, publish := Reporting, dropped := [ja],
              read := [line], refused := [line])
  {
    hide IsRun;
    r := Unannounced(i, a, ja);
    r := Extended(r, Own(a.id, Read(line.id, line.text)));
    r := Extended(r, Own(a.id, HandOver));
    r := Extended(r, Own(a.id, InsertFails));
  }

  /** The repository refuses a chat: its sender, and nobody else, is told so. */
  lemma RefusedInsertIsReported(i: string, a: Member, ja: Message, line: Line, id: string) returns (r: Run)
    requires ja == NewMemberJoinedMessage(a, ja.id).(sent := ja.sent)
    ensures r.states != [] && IsRun(r) && Quiescent(Now(r)) && Now(r).ses.Keys == {a.id}
    ensures Now(r).persisted == [ja] && Now(r).topic == []
    ensures Now(r).ses[a.id].written ==
            [Message(id, a.roomId, a.id, a.name, SendFailed, "failed to send message", ZERO_TIME)]
  {
    hide IsRun;
    r := RefusedInsert(i, a, ja, line);
    r := Extended(r, Own(a.id, ReportFailure(id)));
    r := Extended(r, Own(a.id, Write));
  }

  /** The repository refuses to delete a leaver: the member stays where it was, in repository and room. */
  lemma RefusedDeleteKeepsBoth(i: string, a: Member, ja: Message, id: string) returns (r: Run)
    requires ja == NewMemberJoinedMessage(a, ja.id).(sent := ja.sent)
    ensures r.states != [] && IsRun(r) && Quiescent(Now(r)) && i in Now(r).inst && a.id in Now(r).ses
    ensures a.id in Now(r).repo && a.id in Now(r).inst[i].members && Now(r).ses[a.id].publish == PublishEnded
  {
    hide IsRun;
    r := Unannounced(i, a, ja);
    r := Extended(r, Own(a.id, Hangup(id)));
    r := Extended(r, Own(a.id, HandOver));
    r := Extended(r, Own(a.id, DeleteFails));
  }

  // What a refusing queue leaves behind -------------------------------------------------------------

  /** A member served although its joined message was refused: ServeRoom returned ErrFailedToPublish. */
  lemma Unannounced(i: string, a: Member, ja: Message) returns (r: Run)
    requires ja == NewMemberJoinedMessage(a, ja.id).(sent := ja.sent)
    ensures r.states != [] && IsRun(r) && Now(r).ses.Keys == {a.id}
    ensures Now(r) == State(
              RedisQueue, a.roomId, [], [ja], {a.id}, map[i := Instance(0, 0, [], None, None, RoomIdle, {a.id})],
              map[a.id := Newcomer(a, i, ja, 0).(
                    serve := Returned(FailedToPublish), broadcast := Reading, dropped := [ja])],
              false)
  {
    hide IsRun;
    r := Alone(RedisQueue, i, a, ja);
    assert Outgoing(Now(r).ses[a.id]) == Some(ja);
    r := Extended(r, PublishFailed(a.id));
    r := Extended(r, Own(a.id, StartBroadcast));
    assert Now(r).ses[a.id] ==
           Newcomer(a, i, ja, 0).(serve := Returned(FailedToPublish), broadcast := Reading, dropped := [ja]);
    assert Now(r).ses == map[a.id := Now(r).ses[a.id]];
  }

  /** The queue refuses a left message: the member is out of the repository and, at rest, still in the room's map. */
  lemma RefusedLeaverStays(i: string, a: Member, ja: Message, la: Message) returns (r: Run)
    requires ja == NewMemberJoinedMessage(a, ja.id).(sent := ja.sent)
    requires la == NewMemberLeftMessage(a, la.id).(sent := la.sent)
    ensures r.states != [] && IsRun(r) && Quiescent(Now(r)) && i in Now(r).inst
    ensures a.id in Now(r).inst[i].members && a.id !in Now(r).repo && la in Now(r).persisted && la !in Now(r).topic
  {
    hide IsRun;
    r := Unannounced(i, a, ja);
    r := Extended(r, Own(a.id, Hangup(la.id)));
    r := Extended(r, Own(a.id, HandOver));
    r := Extended(r, Stored(a.id, LeftRow, la));
    r := Extended(r, PublishFailed(a.id));
  }

  /** The queue refuses a chat: at rest it is still stored, and neither published nor answered by a notice. */
  lemma RefusedChatStays(i: string, a: Member, ja: Message, chat: Message) returns (r: Run)
    requires ja == NewMemberJoinedMessage(a, ja.id).(sent := ja.sent)
    requires chat == NewChatMessage(a, chat.id, chat.text).(sent := chat.sent)
    ensures r.states != [] && IsRun(r) && Quiescent(Now(r)) && a.id in Now(r).ses
    ensures chat in Now(r).persisted && chat !in Now(r).topic && Now(r).ses[a.id].written == []
  {
    hide IsRun;
    r := Unannounced(i, a, ja);
    r := Extended(r, Own(a.id, Read(chat.id, chat.text)));
    r := Extended(r, Own(a.id, HandOver));
    r := Extended(r, Stored(a.id, ChatRow, chat));
    r := Extended(r, PublishFailed(a.id));
  }

  lemma Starts(kind: QueueKind, roomId: string)
    ensures IsRun(Run([Initial(kind, roomId)], []))
  {
  }
}
