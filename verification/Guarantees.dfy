/** What every run of the pipeline guarantees, read off its invariant. */
module Guarantees {
  import opened Messages
  import opened Session
  import opened Pipeline
  import opened PipelineSafety

  // Delivery ----------------------------------------------------------------------------------------

  /**
    In every state of every run, on any instance, what a member's connection was given (SendFailed
    notices aside) is one contiguous piece of the topic: no gap, no duplicate, no reordering. Before
    AddMember it is nothing.
   */
  lemma DeliveryIsContiguous(r: Run, k: nat, m: string)
    requires IsRun(r) && k < |r.states| && m in r.states[k].ses
    ensures var s := r.states[k];
            var x, seen := s.ses[m], Delivered(s.ses[m].written);
            if Added(x) then 0 <= x.start && x.start + |seen| <= |s.topic| && seen == s.topic[x.start..x.start + |seen|]
            else seen == []
  {
    hide IsRun, Invariant;
    RunInvariant(r, k);
    SeenIsContiguous(r.states[k], m);
  }

  lemma SeenIsContiguous(s: State, m: string)
    requires Invariant(s) && m in s.ses
    ensures var x, seen := s.ses[m], Delivered(s.ses[m].written);
            if Added(x) then
              && 0 <= x.start <= x.pos <= |s.topic| && x.start + |seen| <= x.pos
              && seen == s.topic[x.start..x.start + |seen|]
              && (x.listen == Receiving ==> x.start + |seen| == x.pos)
            else seen == []
  {
    hide Stages, Sessions, Repository, Logs, Windows, Rooms, Membership, Sound, Delivered;
    var x := s.ses[m];
    SessionOf(s, m);
    WindowOf(s, m);
    if Added(x) {
      var seen := Delivered(x.written);
      assert InHand(x) == s.topic[x.start..x.pos];
      assert seen == InHand(x)[..|seen|];
      assert seen == s.topic[x.start..x.start + |seen|];
    } else {
      NothingYet(x);
    }
  }

  lemma NothingYet(x: Session)
    requires Sound(x) && !Added(x)
    ensures Delivered(x.written) == []
  {
    assert Control(x);
  }

  /** How far `start` can be from the topic position the room was at when it added the member. */
  ghost predicate StartsAt(s: State, m: string, home: string, front: nat, idle: bool) {
    && m in s.ses && s.ses[m].home == home && home in s.inst && Added(s.ses[m])
    && front <= Front(s.inst[home])
    && front <= s.ses[m].start <= front + (if idle then 0 else 1)
  }

  lemma StartStays(s: State, l: Label, m: string, home: string, front: nat, idle: bool)
    requires Invariant(s) && Enabled(s, l) && StartsAt(s, m, home, front, idle)
    ensures StartsAt(Step(s, l), m, home, front, idle)
  {
    hide Stages, Sessions, Repository, Logs, Windows, Rooms, Membership, Sound, Enabled, Step, Added, InHand, InStep;
    SessionMoves(s, l, m);
    InstancesStay(s, l);
    if l.Notified? && l.m == m {
      NotifiedStart(s, l, m);
    }
    if l.Joined? && l.m == m {
      JoinedAgain(s, m);
    }
  }

  lemma NotifiedStart(s: State, l: Label, m: string)
    requires Stages(s) && Logs(s) && Rooms(s) && Enabled(s, l) && l.Notified? && l.m == m
    ensures m in s.ses && s.ses[m].home == l.i && l.i in s.inst && m in Step(s, l).ses
    ensures var x, y := s.ses[m], Step(s, l).ses[m];
            y.start == x.start || (y.start == x.start - 1 && x.start == Front(s.inst[l.i]) + 1)
  {
    hide Stages, Logs, Rooms, Added;
    NotifyFinds(s, l.i, m);
  }

  lemma JoinedAgain(s: State, m: string)
    requires m in s.ses && Added(s.ses[m])
    ensures !Enabled(s, Joined(m))
  {
  }

  /**
    A member's piece of the topic starts where its AddMember took effect: at the entry the room was
    going to handle next, or, when the room was in the middle of a fan-out, at that entry or the one after.
   */
  lemma {:induction false} StartsWhereAdded(r: Run, k: nat, j: nat, m: string)
    requires IsRun(r) && k < j < |r.states| && r.labels[k] == Joined(m)
    ensures m in r.states[k].ses && r.states[k].ses[m].home in r.states[k].inst
    ensures var home := r.states[k].ses[m].home;
            var n := r.states[k].inst[home];
            StartsAt(r.states[j], m, home, Front(n), n.room == RoomIdle)
    decreases j
  {
    hide Invariant, StartsAt;
    assert Enabled(r.states[j - 1], r.labels[j - 1]) && r.states[j] == Step(r.states[j - 1], r.labels[j - 1]);
    RunInvariant(r, j - 1);
    if j == k + 1 {
      JoinStarts(r.states[k], m);
    } else {
      StartsWhereAdded(r, k, j - 1, m);
      var home := r.states[k].ses[m].home;
      var n := r.states[k].inst[home];
      StartStays(r.states[j - 1], r.labels[j - 1], m, home, Front(n), n.room == RoomIdle);
    }
  }

  lemma JoinStarts(s: State, m: string)
    requires Invariant(s) && Enabled(s, Joined(m))
    ensures var n := s.inst[s.ses[m].home];
            StartsAt(Step(s, Joined(m)), m, s.ses[m].home, Front(n), n.room == RoomIdle)
  {
    hide Stages, Sessions, Repository, Logs, Windows, Rooms, Membership, Sound, InHand;
    SessionOf(s, m);
    JoinMoves(s.ses[m], 0);
  }

  // Persistence -------------------------------------------------------------------------------------

  lemma {:induction false} InLogOfMember(log: seq<Message>, m: string, msg: Message)
    ensures msg in ByMember(log, m) <==> msg in log && msg.memberId == m
  {
    if log != [] {
      InLogOfMember(log[..|log| - 1], m, msg);
      assert log == log[..|log| - 1] + [log[|log| - 1]];
    }
  }

  lemma SavedFirst(x: Session, msg: Message)
    requires Sound(x)
    ensures msg in x.published || msg in Pending(x) ==> msg in x.saved
  {
    assert Ledger(x.saved, x.published, x.dropped, Pending(x));
    if msg in x.published || msg in Pending(x) {
      assert multiset(x.saved)[msg] >= multiset(x.published)[msg] + multiset(Pending(x))[msg];
      assert msg in multiset(x.saved);
    }
  }

  lemma TopicWasStored(s: State, msg: Message)
    requires Invariant(s) && msg in s.topic
    ensures msg in s.persisted
  {
    hide Stages, Sessions, Repository, Logs, Windows, Rooms, Membership, Sound, ByMember;
    LogsOf(s);
    var k :| 0 <= k < |s.topic| && s.topic[k] == msg;
    var m := msg.memberId;
    assert FromSession(s, s.topic[k]);
    SessionOf(s, m);
    assert LogsFit(s, m);
    InLogOfMember(s.topic, m, msg);
    SavedFirst(s.ses[m], msg);
    InLogOfMember(s.persisted, m, msg);
  }

  /** A step publishes at most one message, and that message is in the repository before the step. */
  lemma StoredBeforePublished(r: Run, k: nat)
    requires IsRun(r) && k < |r.labels|
    ensures var s, t := r.states[k], r.states[k + 1];
            t.topic == s.topic || exists msg :: msg in s.persisted && t.topic == s.topic + [msg]
  {
    hide Invariant, Enabled, Step, Sessions, Logs, Outgoing, ByMember, Sound;
    var s, l := r.states[k], r.labels[k];
    RunInvariant(r, k);
    assert Enabled(s, l) && r.states[k + 1] == Step(s, l);
    LogsMove(s, l);
    assert s.topic + [] == s.topic;
    if l.Published? {
      var msg := Outgoing(s.ses[l.m]).value;
      assert msg in s.persisted by { OutgoingWasStored(s, l.m); }
    }
  }

  /** No message is ever deleted from the repository, whether it was published or not. */
  lemma {:induction false} StoredStays(r: Run, j: nat, k: nat)
    requires IsRun(r) && j <= k < |r.states|
    ensures r.states[j].persisted <= r.states[k].persisted
  {
    hide Enabled, Step;
    if j < k {
      StoredStays(r, j, k - 1);
      var s, l := r.states[k - 1], r.labels[k - 1];
      assert Enabled(s, l) && r.states[k - 1 + 1] == Step(s, l);
      LogsMove(s, l);
    }
  }

  lemma OutgoingWasStored(s: State, m: string)
    requires Invariant(s) && m in s.ses && Outgoing(s.ses[m]).Some?
    ensures Outgoing(s.ses[m]).value in s.persisted
  {
    hide Stages, Sessions, Repository, Logs, Windows, Rooms, Membership, Sound, ByMember;
    SessionOf(s, m);
    LogsOf(s);
    assert LogsFit(s, m);
    PublishKeeps(s.ses[m], true);
    SavedFirst(s.ses[m], Outgoing(s.ses[m]).value);
    InLogOfMember(s.persisted, m, Outgoing(s.ses[m]).value);
  }

  /** Everything delivered to anyone was published and stored. */
  lemma DeliveredWasStored(r: Run, k: nat, m: string, msg: Message)
    requires IsRun(r) && k < |r.states| && m in r.states[k].ses
    requires msg in Delivered(r.states[k].ses[m].written)
    ensures msg in r.states[k].topic && msg in r.states[k].persisted
  {
    hide IsRun, Invariant, Delivered, Added;
    RunInvariant(r, k);
    DeliveryIsContiguous(r, k, m);
    TopicWasStored(r.states[k], msg);
  }

  /** A member's stored messages are joined, then chats, then at most one left; publication keeps their order. */
  lemma MemberLifeCycle(r: Run, k: nat, m: string)
    requires IsRun(r) && k < |r.states| && m in r.states[k].ses
    ensures var s := r.states[k];
            var stored := ByMember(s.persisted, m);
            && (stored != [] ==> stored[0].kind == MemberJoined)
            && (forall i :: 0 < i < |stored| ==>
                  stored[i].kind == Chat || (stored[i].kind == MemberLeft && i == |stored| - 1))
            && Subsequence(ByMember(s.topic, m), stored)
  {
    hide IsRun, Invariant, Sessions, Logs, ByMember, Subsequence, Control, Carries, Chats;
    RunInvariant(r, k);
    var s := r.states[k];
    InvariantParts(s);
    SessionOf(s, m);
    LogsOf(s);
    assert LogsFit(s, m);
    PublishedInOrder(s.ses[m]);
  }

  lemma InvariantParts(s: State)
    requires Invariant(s)
    ensures Stages(s) && Sessions(s) && Repository(s) && Logs(s) && Windows(s) && Rooms(s) && Membership(s)
  {
  }

  lemma PublishedInOrder(x: Session)
    requires Accounts(x)
    ensures Subsequence(x.published, x.saved)
  {
    if Pending(x) == [] {
      assert x.published + [] == x.published;
    } else {
      assert Pending(x) == [x.saved[|x.saved| - 1]];
      SubsequenceDrop(x.published, x.saved[|x.saved| - 1], x.saved);
    }
  }

  // No message twice --------------------------------------------------------------------------------

  lemma {:induction false} CountNoRepeats<T>(s: seq<T>, v: T)
    requires NoRepeats(s)
    ensures multiset(s)[v] == if v in s then 1 else 0
  {
    if s != [] {
      var init := s[..|s| - 1];
      CountNoRepeats(init, v);
      assert s == init + [s[|s| - 1]];
      if v == s[|s| - 1] {
        assert v !in init;
      }
    }
  }

  lemma Twice<T>(log: seq<T>, j: nat, k: nat)
    requires j < k < |log| && log[j] == log[k]
    ensures multiset(log)[log[j]] >= 2
  {
    assert log == log[..k] + log[k..];
    assert log[j] in log[..k] && log[k] in log[k..];
  }

  lemma {:induction false} ChatAmongLines(s: seq<Message>, i: nat)
    requires i < |s| && s[i].kind == Chat
    ensures LineOf(s[i]) in ChatLines(s)
  {
    if i < |s| - 1 {
      ChatAmongLines(s[..|s| - 1], i);
    }
  }

  lemma {:induction false} ChatsDiffer(s: seq<Message>, i: nat, j: nat)
    requires NoRepeats(ChatLines(s)) && i < j < |s| && s[i].kind == Chat && s[j].kind == Chat
    ensures LineOf(s[i]) != LineOf(s[j])
  {
    var init := s[..|s| - 1];
    assert NoRepeats(ChatLines(init)) by { FewerRepeats(ChatLines(init), ChatLines(s)); }
    if j < |s| - 1 {
      ChatsDiffer(init, i, j);
    } else {
      ChatAmongLines(init, i);
      assert ChatLines(s) == ChatLines(init) + [LineOf(s[j])];
      var k :| 0 <= k < |ChatLines(init)| && ChatLines(init)[k] == LineOf(s[i]);
      assert ChatLines(s)[k] == LineOf(s[i]) && ChatLines(s)[|ChatLines(init)|] == LineOf(s[j]);
    }
  }

  lemma FewerRepeats<T>(s: seq<T>, longer: seq<T>)
    requires s <= longer && NoRepeats(longer)
    ensures NoRepeats(s)
  {
  }

  lemma AtMostOnce<T>(s: seq<T>)
    requires forall k :: 0 <= k < |s| ==> multiset(s)[s[k]] <= 1
    ensures NoRepeats(s)
  {
    forall i, j | 0 <= i < j < |s| ensures s[i] != s[j] {
      if s[i] == s[j] {
        Twice(s, i, j);
      }
    }
  }

  lemma ReadRepeatsNothing(x: Session)
    requires Chats(x)
    ensures NoRepeats(x.read)
  {
  }

  lemma ChatLinesRepeatNothing(x: Session)
    requires Chats(x)
    ensures NoRepeats(ChatLines(x.saved))
  {
    hide ChatLines, Notices, InFlight, NoticesDue;
    var lines := ChatLines(x.saved);
    ReadRepeatsNothing(x);
    forall k | 0 <= k < |lines| ensures multiset(lines)[lines[k]] <= 1 {
      CountNoRepeats(x.read, lines[k]);
      assert (multiset(lines) + multiset(x.refused) + multiset(InFlight(x)))[lines[k]] <= 1;
    }
    AtMostOnce(lines);
  }

  /** A session stores no message twice: one joined, one left, and chats under their own IDs. */
  lemma SavedOnce(x: Session)
    requires Sound(x)
    ensures NoRepeats(x.saved)
  {
    hide Control, Carries, Accounts, Chats, ChatLines;
    ChatLinesRepeatNothing(x);
    forall i, j | 0 <= i < j < |x.saved| ensures x.saved[i] != x.saved[j] {
      if 0 < i && x.saved[j].kind == Chat {
        ChatsDiffer(x.saved, i, j);
      }
    }
  }

  /** What becomes of a stored message, by number of copies. */
  lemma Copies(x: Session, msg: Message)
    requires Sound(x)
    ensures multiset(x.saved)[msg] == multiset(x.published)[msg] + multiset(x.dropped)[msg] + multiset(Pending(x))[msg]
    ensures multiset(x.saved)[msg] == if msg in x.saved then 1 else 0
  {
    hide Control, LifeCycle, Carries, Chats, Subsequence, Pending;
    SavedOnce(x);
    CountNoRepeats(x.saved, msg);
    assert multiset(x.saved) == multiset(x.published) + multiset(x.dropped) + multiset(Pending(x)) by {
      assert Ledger(x.saved, x.published, x.dropped, Pending(x));
    }
  }

  lemma LogsHoldOnce(s: State, msg: Message)
    requires Invariant(s)
    ensures multiset(s.persisted)[msg] <= 1 && multiset(s.topic)[msg] <= 1
  {
    hide Invariant, Stages, Sessions, Repository, Logs, Windows, Rooms, Membership, Sound, ByMember, Pending,
      FromSession;
    InvariantParts(s);
    LogsOf(s);
    if msg in s.persisted || msg in s.topic {
      EntrySession(s, msg);
      SessionOf(s, msg.memberId);
      assert LogsFit(s, msg.memberId);
      CountOfMember(s.persisted, msg.memberId, msg);
      CountOfMember(s.topic, msg.memberId, msg);
      Copies(s.ses[msg.memberId], msg);
    }
  }

  lemma EntrySession(s: State, msg: Message)
    requires EntriesFit(s, s.persisted) && EntriesFit(s, s.topic)
    requires msg in s.persisted || msg in s.topic
    ensures msg.memberId in s.ses
  {
    if k :| 0 <= k < |s.persisted| && s.persisted[k] == msg {
      assert FromSession(s, s.persisted[k]);
    } else {
      var k :| 0 <= k < |s.topic| && s.topic[k] == msg;
      assert FromSession(s, s.topic[k]);
    }
  }

  /** In no run is a message stored, published or delivered to a member twice. */
  lemma NothingTwice(r: Run, k: nat)
    requires IsRun(r) && k < |r.states|
    ensures NoRepeats(r.states[k].persisted) && NoRepeats(r.states[k].topic)
    ensures forall m :: m in r.states[k].ses ==> NoRepeats(Delivered(r.states[k].ses[m].written))
  {
    hide IsRun, Invariant, Delivered, Added;
    RunInvariant(r, k);
    var s := r.states[k];
    forall msg ensures multiset(s.persisted)[msg] <= 1 && multiset(s.topic)[msg] <= 1 {
      LogsHoldOnce(s, msg);
    }
    AtMostOnce(s.persisted);
    AtMostOnce(s.topic);
    forall m | m in s.ses ensures NoRepeats(Delivered(s.ses[m].written)) {
      DeliveryIsContiguous(r, k, m);
    }
  }

  /**
    Same order for everyone: two messages that both members have been given, on any instances, are as far
    apart, in the same direction, for the one as for the other.
   */
  lemma SameOrder(r: Run, k: nat, a: string, b: string, i: nat, j: nat, i': nat, j': nat)
    requires IsRun(r) && k < |r.states| && a in r.states[k].ses && b in r.states[k].ses
    requires var u, v := Delivered(r.states[k].ses[a].written), Delivered(r.states[k].ses[b].written);
             i < |u| && j < |u| && i' < |v| && j' < |v| && u[i] == v[i'] && u[j] == v[j']
    ensures j - i == j' - i'
  {
    hide IsRun, Invariant, Delivered, Added;
    var s := r.states[k];
    DeliveryIsContiguous(r, k, a);
    DeliveryIsContiguous(r, k, b);
    NothingTwice(r, k);
    SamePlace(s.topic, s.ses[a].start + i, s.ses[b].start + i');
    SamePlace(s.topic, s.ses[a].start + j, s.ses[b].start + j');
  }

  lemma SamePlace(topic: seq<Message>, p: int, q: int)
    requires NoRepeats(topic) && 0 <= p < |topic| && 0 <= q < |topic| && topic[p] == topic[q]
    ensures p == q
  {
  }

  /**
    Every stored message is stored once, and is exactly one of: published, once; refused by the queue; on
    its way to the queue.
   */
  lemma StoredIsAccountedFor(r: Run, k: nat, msg: Message)
    requires IsRun(r) && k < |r.states| && msg in r.states[k].persisted
    ensures multiset(r.states[k].persisted)[msg] == 1 && msg.memberId in r.states[k].ses
    ensures var s := r.states[k];
            var x := s.ses[msg.memberId];
            multiset(s.topic)[msg] + multiset(x.dropped)[msg] + multiset(Pending(x))[msg] == 1
  {
    hide IsRun, Invariant, Stages, Sessions, Repository, Logs, Windows, Rooms, Membership, Sound, ByMember, Pending,
      FromSession;
    RunInvariant(r, k);
    var s := r.states[k];
    InvariantParts(s);
    LogsOf(s);
    EntrySession(s, msg);
    SessionOf(s, msg.memberId);
    assert LogsFit(s, msg.memberId);
    InLogOfMember(s.persisted, msg.memberId, msg);
    CountOfMember(s.persisted, msg.memberId, msg);
    CountOfMember(s.topic, msg.memberId, msg);
    Copies(s.ses[msg.memberId], msg);
  }

  // Chats -------------------------------------------------------------------------------------------

  /** The lines a session has read are exactly those its connection gave Broadcast, in that order. */
  lemma ReadsAreRecorded(s: State, l: Label, m: string)
    requires Enabled(s, l) && m in s.ses
    ensures m in Step(s, l).ses
    ensures Step(s, l).ses[m].read ==
            s.ses[m].read + if l.Own? && l.m == m && l.a.Read? then [Line(l.a.id, l.a.text)] else []
  {
    hide CanSave, Outgoing;
    assert s.ses[m].read + [] == s.ses[m].read;
  }

  /**
    Conservation of chats: a line read from a connection, ID and text, is at any moment exactly one of in
    flight, stored once, or refused; and there is one SendFailed notice, written or due, for each refusal.
   */
  lemma ChatsAreConserved(r: Run, k: nat, m: string, line: Line)
    requires IsRun(r) && k < |r.states| && m in r.states[k].ses && line in r.states[k].ses[m].read
    ensures var s := r.states[k];
            var x := s.ses[m];
            multiset(ChatLines(ByMember(s.persisted, m)))[line]
            + multiset(x.refused)[line] + multiset(InFlight(x))[line] == 1
    ensures var x := r.states[k].ses[m]; |x.refused| == Notices(x.written) + NoticesDue(x)
  {
    hide IsRun, Invariant, Sessions, Logs, ByMember, ChatLines, Notices, Control, LifeCycle, Carries, Accounts,
      InFlight, NoticesDue;
    RunInvariant(r, k);
    var s := r.states[k];
    InvariantParts(s);
    SessionOf(s, m);
    LogsOf(s);
    assert LogsFit(s, m);
    ReadRepeatsNothing(s.ses[m]);
    CountNoRepeats(s.ses[m].read, line);
  }

  /** What a stored message says is what its sender's connection gave, or the fixed text of its kind. */
  ghost predicate SaysWhatWasMeant(s: State, msg: Message) {
    && msg.memberId in s.ses
    && var x := s.ses[msg.memberId];
       && msg.memberName == x.member.name && msg.roomId == x.member.roomId
       && match msg.kind
          case Chat => Line(msg.id, msg.text) in x.read
          case MemberJoined => msg.text == x.member.name + " joined the room."
          case MemberLeft => msg.text == x.member.name + " left the room."
          case SendFailed => false
  }

  lemma SavedSays(x: Session, i: nat)
    requires Sound(x) && i < |x.saved|
    ensures Signed(x.member, x.saved[i]) && x.saved[i].kind != SendFailed
    ensures x.saved[i].kind == Chat ==> LineOf(x.saved[i]) in x.read
  {
    hide Control, Carries, Accounts, ChatLines, InFlight, Notices, NoticesDue, Signed;
    if x.saved[i].kind == Chat {
      ChatAmongLines(x.saved, i);
      assert LineOf(x.saved[i]) in multiset(ChatLines(x.saved)) + multiset(x.refused) + multiset(InFlight(x));
      assert LineOf(x.saved[i]) in multiset(x.read);
    }
  }

  lemma LoggedSays(s: State, msg: Message)
    requires Invariant(s) && msg in s.persisted
    ensures SaysWhatWasMeant(s, msg)
  {
    hide Invariant, Stages, Sessions, Repository, Logs, Windows, Rooms, Membership, Sound, ByMember, FromSession;
    InvariantParts(s);
    LogsOf(s);
    EntrySession(s, msg);
    SessionOf(s, msg.memberId);
    assert LogsFit(s, msg.memberId);
    InLogOfMember(s.persisted, msg.memberId, msg);
    var x := s.ses[msg.memberId];
    var i :| 0 <= i < |x.saved| && x.saved[i] == msg;
    SavedSays(x, i);
  }

  /**
    From a connection to everyone's: in every run, each message stored, published or written to anyone
    names its sender and says what the sender's connection gave, or the fixed text of its kind.
   */
  lemma WordsAreKept(r: Run, k: nat, msg: Message)
    requires IsRun(r) && k < |r.states|
    requires var s := r.states[k];
             || msg in s.persisted || msg in s.topic
             || exists m :: m in s.ses && msg in Delivered(s.ses[m].written)
    ensures SaysWhatWasMeant(r.states[k], msg)
  {
    hide IsRun, Invariant, Delivered, SaysWhatWasMeant;
    var s := r.states[k];
    RunInvariant(r, k);
    if m :| m in s.ses && msg in Delivered(s.ses[m].written) {
      DeliveredWasStored(r, k, m, msg);
    } else if msg in s.topic {
      TopicWasStored(s, msg);
    }
    LoggedSays(s, msg);
  }

  /** SendFailed notices are never stored or published, and are written to nobody but their own sender. */
  lemma NoticesStayPrivate(r: Run, k: nat, m: string, i: nat)
    requires IsRun(r) && k < |r.states|
    ensures forall msg :: msg in r.states[k].persisted || msg in r.states[k].topic ==> msg.kind != SendFailed
    ensures m in r.states[k].ses && i < |r.states[k].ses[m].written| ==>
              var msg := r.states[k].ses[m].written[i];
              msg.kind == SendFailed ==> msg.memberId == m && msg.text == "failed to send message"
  {
    hide IsRun, Invariant, Sessions, Logs, ByMember, ChatLines, Notices, Control, LifeCycle, Carries, Accounts,
      InFlight, NoticesDue;
    RunInvariant(r, k);
    var s := r.states[k];
    InvariantParts(s);
    LogsOf(s);
    forall msg | msg in s.persisted || msg in s.topic ensures msg.kind != SendFailed {
      assert FromSession(s, msg);
    }
    if m in s.ses {
      SessionOf(s, m);
    }
  }

  // Sessions ----------------------------------------------------------------------------------------

  /** No goroutine ever sends on a closed inbound channel. */
  lemma NoSendOnClosed(r: Run, k: nat, m: string, i: string)
    requires IsRun(r) && k < |r.states|
    ensures !r.states[k].panicked && !Enabled(r.states[k], SendOnClosed(m, i))
  {
    hide IsRun, Invariant, Enabled;
    RunInvariant(r, k);
    if Enabled(r.states[k], SendOnClosed(m, i)) {
      NeverOnClosed(r.states[k], SendOnClosed(m, i));
    }
    NotPanicked(r.states[k]);
  }

  lemma NotPanicked(s: State)
    requires Invariant(s)
    ensures !s.panicked
  {
  }

  /**
    ServeRoom is all or nothing, first half: a set-up error leaves the member out of the repository
    and of every room, with nothing stored, published or written, and no goroutine able to change that.
   */
  lemma RefusedLeavesNothing(r: Run, k: nat, m: string)
    requires IsRun(r) && k < |r.states| && m in r.states[k].ses
    requires r.states[k].ses[m].serve.Returned? && r.states[k].ses[m].serve.outcome.Refused?
    ensures var s := r.states[k];
            && m !in s.repo
            && (forall i :: i in s.inst ==> m !in s.inst[i].members)
            && ByMember(s.persisted, m) == [] && ByMember(s.topic, m) == [] && s.ses[m].written == []
            && (s.ses[m].publish == NoPublish || s.ses[m].publish == PublishEnded)
            && s.ses[m].broadcast != Reading && !s.ses[m].broadcast.Handing?
  {
    hide IsRun, Invariant, Stages, Sessions, Repository, Logs, Windows, Rooms, Membership, ByMember, LifeCycle,
      Carries, Accounts, Chats;
    RunInvariant(r, k);
    var s := r.states[k];
    InvariantParts(s);
    SessionOf(s, m);
    LogsOf(s);
    assert LogsFit(s, m);
    RepoOf(s, m);
    assert Control(s.ses[m]);
    forall i | i in s.inst ensures m !in s.inst[i].members {
      RoomOf(s, i);
    }
  }

  /**
    Second half: the step with which ServeRoom returns nil or ErrFailedToPublish leaves the member in
    the repository and in its room, with its joined message stored, its broadcasting enabled, and the
    joined message published exactly when the result is nil.
   */
  lemma AcceptedIsComplete(r: Run, k: nat, m: string)
    requires IsRun(r) && k < |r.labels| && r.labels[k] == Own(m, StartBroadcast)
    ensures m in r.states[k + 1].ses && r.states[k + 1].ses[m].serve.Returned?
    ensures r.states[k + 1].ses[m].home in r.states[k + 1].inst
    ensures var t := r.states[k + 1];
            var x := t.ses[m];
            && !x.serve.outcome.Refused?
            && m in t.repo && m in t.inst[x.home].members && x.broadcast == Reading && !x.closed
            && |ByMember(t.persisted, m)| == 1 && ByMember(t.persisted, m)[0].kind == MemberJoined
            && ByMember(t.topic, m) == if x.serve.outcome == Nil then ByMember(t.persisted, m) else []
  {
    hide Invariant, Stages, Sessions, Repository, Logs, Windows, Rooms, Membership, ByMember, Sound, Can, Act,
      Live, Added, HasLeft;
    var s, t := r.states[k], r.states[k + 1];
    assert Enabled(s, Own(m, StartBroadcast)) && t == Step(s, Own(m, StartBroadcast));
    RunInvariant(r, k);
    RunInvariant(r, k + 1);
    InvariantParts(s);
    InvariantParts(t);
    SessionOf(s, m);
    StartedSession(s.ses[m]);
    SessionOf(t, m);
    LogsOf(t);
    assert LogsFit(t, m);
    RepoOf(t, m);
    MembershipOf(t, m);
    StartedHasNotLeft(t, m);
  }

  lemma StartedSession(x: Session)
    requires Sound(x) && Can(x, StartBroadcast)
    ensures var y := Act(x, StartBroadcast);
            && y.serve.Returned? && !y.serve.outcome.Refused? && y.broadcast == Reading && !y.closed
            && |y.saved| == 1 && y.saved[0].kind == MemberJoined
            && y.published == (if y.serve.outcome == Nil then y.saved else []) && Live(y) && Added(y)
  {
    assert Control(x);
  }

  lemma StartedHasNotLeft(s: State, m: string)
    requires Stages(s) && Sessions(s) && Logs(s) && m in s.ses && s.ses[m].home in s.inst && Live(s.ses[m])
    ensures var n := s.inst[s.ses[m].home]; !HasLeft(n.handled + InRoom(n), m)
  {
    hide Stages, Sessions, Logs, ByMember, Control, Carries, Chats, Accounts;
    var n := s.inst[s.ses[m].home];
    SessionOf(s, m);
    LogsOf(s);
    assert LogsFit(s, m);
    ChainOf(s, s.ses[m].home);
    FrontMessage(s.topic, n);
    var taken := n.handled + InRoom(n);
    if k :| 0 <= k < |taken| && taken[k].kind == MemberLeft && taken[k].memberId == m {
      LeftMeansDead(s, m, s.topic[n.base + k]);
    }
  }

  lemma LeftMeansDead(s: State, m: string, left: Message)
    requires m in s.ses && SessionFits(s, m) && LogsFit(s, m)
    requires left in s.topic && left.kind == MemberLeft && left.memberId == m
    ensures !Live(s.ses[m])
  {
    hide ByMember, Control, Carries, Chats, Accounts;
    InLogOfMember(s.topic, m, left);
    SavedFirst(s.ses[m], left);
    var j :| 0 <= j < |s.ses[m].saved| && s.ses[m].saved[j] == left;
  }

  // Membership --------------------------------------------------------------------------------------

  /**
    Membership agreement, under any failures: a member the repository counts as live is in its room's
    map, or still between InsertMember and AddMember.
   */
  lemma RepositoryInRoom(r: Run, k: nat, m: string)
    requires IsRun(r) && k < |r.states| && m in r.states[k].repo
    ensures m in r.states[k].ses && r.states[k].ses[m].home in r.states[k].inst
    ensures var s := r.states[k]; m in s.inst[s.ses[m].home].members || s.ses[m].serve.AddingMember?
  {
    hide IsRun, Invariant;
    RunInvariant(r, k);
    RepoMember(r.states[k], m);
  }

  lemma RepoMember(s: State, m: string)
    requires Invariant(s)
    ensures m in s.repo ==> m in s.ses && s.ses[m].home in s.inst
    ensures m in s.repo ==> m in s.inst[s.ses[m].home].members || s.ses[m].serve.AddingMember?
  {
    hide Invariant, Stages, Sessions, Repository, Logs, Windows, Rooms, Membership, Live, HasLeft;
    InvariantParts(s);
    RepoOf(s, m);
    if m in s.repo {
      SessionOf(s, m);
      MembershipOf(s, m);
      StartedHasNotLeft(s, m);
      LiveStages(s.ses[m]);
    }
  }

  lemma LiveStages(x: Session)
    requires Sound(x) && Live(x)
    ensures Added(x) || x.serve.AddingMember?
  {
    assert Control(x);
  }

  /** The topic position the room of an instance takes up next. */
  function Position(n: Instance): nat {
    n.base + |n.handled + InRoom(n)|
  }

  /** Topic entries the room of an instance has not taken up yet. */
  function Ahead(s: State, n: Instance): seq<Message>
    requires Position(n) <= |s.topic|
  {
    s.topic[Position(n)..]
  }

  /** The left message of `m` is stored and still on its way: to the queue, or in the topic ahead of the room. */
  predicate LeftInFlight(s: State, m: string)
    requires m in s.ses && s.ses[m].home in s.inst && Position(s.inst[s.ses[m].home]) <= |s.topic|
  {
    EndsWithLeft(Pending(s.ses[m])) || HasLeft(Ahead(s, s.inst[s.ses[m].home]), m)
  }

  /**
    The reverse gap, exactly: a member is in its room's map but not in the repository if and only if
    its left message is stored and in flight, or is one the queue refused.
   */
  lemma RoomBeyondRepository(r: Run, k: nat, m: string)
    requires IsRun(r) && k < |r.states| && m in r.states[k].ses
    ensures r.states[k].ses[m].home in r.states[k].inst
    ensures Position(r.states[k].inst[r.states[k].ses[m].home]) <= |r.states[k].topic|
    ensures var s := r.states[k];
            m in s.inst[s.ses[m].home].members && m !in s.repo <==>
            LeftInFlight(s, m) || HasLeft(s.ses[m].dropped, m)
  {
    hide IsRun, Invariant, LeftInFlight, HasLeft, Position;
    RunInvariant(r, k);
    InvariantHome(r.states[k], m);
    GapIsLeft(r.states[k], m);
  }

  lemma DroppedGrows(s: State, l: Label, m: string)
    requires Enabled(s, l) && m in s.ses
    ensures m in Step(s, l).ses && s.ses[m].dropped <= Step(s, l).ses[m].dropped
  {
    hide Can, CanSave, Outgoing;
    if l.Own? && l.m == m {
      ActFrame(s.ses[m], l.a);
      hide Act;
    }
  }

  /**
    A member whose left message the queue refused is out of the repository and in its room's map for
    the rest of the run.
   */
  lemma {:induction false} RefusedLeaverNeverGoes(r: Run, j: nat, k: nat, m: string)
    requires IsRun(r) && j <= k < |r.states| && m in r.states[j].ses && HasLeft(r.states[j].ses[m].dropped, m)
    ensures m in r.states[k].ses && HasLeft(r.states[k].ses[m].dropped, m)
    ensures r.states[k].ses[m].home in r.states[k].inst
    ensures m in r.states[k].inst[r.states[k].ses[m].home].members && m !in r.states[k].repo
  {
    hide Enabled, Step, LeftInFlight, Invariant, HasLeft;
    if j < k {
      RefusedLeaverNeverGoes(r, j, k - 1, m);
      assert Enabled(r.states[k - 1], r.labels[k - 1]) && r.states[k - 1 + 1] == Step(r.states[k - 1], r.labels[k - 1]);
      DroppedGrows(r.states[k - 1], r.labels[k - 1], m);
      HasLeftGrows(r.states[k - 1].ses[m].dropped, r.states[k].ses[m].dropped, m);
    }
    RoomBeyondRepository(r, k, m);
  }

  lemma HasLeftGrows(log: seq<Message>, longer: seq<Message>, m: string)
    requires log <= longer && HasLeft(log, m)
    ensures HasLeft(longer, m)
  {
    var k :| 0 <= k < |log| && log[k].kind == MemberLeft && log[k].memberId == m;
    assert longer[k] == log[k];
  }

  lemma InvariantHome(s: State, m: string)
    requires Invariant(s) && m in s.ses
    ensures s.ses[m].home in s.inst && Position(s.inst[s.ses[m].home]) <= |s.topic|
  {
    hide Stages, Sessions, Repository, Logs, Windows, Rooms, Membership, Sound, Position;
    SessionOf(s, m);
    ChainOf(s, s.ses[m].home);
    InReach(s.topic, s.inst[s.ses[m].home]);
  }

  lemma InReach(topic: seq<Message>, n: Instance)
    requires Chained(topic, n)
    ensures Position(n) <= n.taken <= |topic|
    ensures topic[n.base..Position(n)] == n.handled + InRoom(n)
  {
    var all := n.handled + InRoom(n) + AsSeq(n.sub) + AsSeq(n.queue);
    assert all[..|n.handled + InRoom(n)|] == n.handled + InRoom(n);
  }

  lemma GapIsLeft(s: State, m: string)
    requires Invariant(s) && m in s.ses && s.ses[m].home in s.inst && Position(s.inst[s.ses[m].home]) <= |s.topic|
    ensures m in s.inst[s.ses[m].home].members && m !in s.repo <==> LeftInFlight(s, m) || HasLeft(s.ses[m].dropped, m)
  {
    hide Stages, Sessions, Repository, Logs, Windows, Rooms, Membership, Sound, Live, Added, HasLeft, EndsWithLeft,
      Position,
      ByMember, Chained, Pending, RoomFits, MembershipFits, LogsFit, Invariant;
    var x, i := s.ses[m], s.ses[m].home;
    var n := s.inst[i];
    InvariantParts(s);
    SessionOf(s, m);
    RepoOf(s, m);
    RoomOf(s, i);
    MembershipOf(s, m);
    ChainOf(s, i);
    LogsOf(s);
    assert LogsFit(s, m);
    if m in n.members && m !in s.repo {
      assert Added(x) by { MemberIsAdded(s, i, m); }
      LeftMeansGone(x);
      GapHasLeft(s, m);
    }
    if LeftInFlight(s, m) || HasLeft(x.dropped, m) {
      LeftMakesGap(s, m);
    }
  }

  lemma MemberIsAdded(s: State, i: string, m: string)
    requires i in s.inst && RoomFits(s, i) && m in s.inst[i].members
    ensures m in s.ses && Added(s.ses[m]) && s.ses[m].home == i
  {
    hide Added, InStep;
  }

  lemma LeftMeansGone(x: Session)
    requires Sound(x) && Added(x)
    ensures !Live(x) ==> EndsWithLeft(x.saved)
  {
    assert Control(x);
  }

  lemma GapHasLeft(s: State, m: string)
    requires m in s.ses && SessionFits(s, m) && s.ses[m].home in s.inst && EndsWithLeft(s.ses[m].saved)
    requires LogsFit(s, m) && MembershipFits(s, m) && Chained(s.topic, s.inst[s.ses[m].home])
    requires m in s.inst[s.ses[m].home].members && Position(s.inst[s.ses[m].home]) <= |s.topic|
    ensures LeftInFlight(s, m) || HasLeft(s.ses[m].dropped, m)
  {
    hide ByMember, Sound, Chained, Added, Pending, HasLeft;
    var x, n := s.ses[m], s.inst[s.ses[m].home];
    var left := x.saved[|x.saved| - 1];
    LeftIsSomewhere(x);
    if left in x.dropped {
      HasLeftIn(x.dropped, left);
    } else if left in x.published {
      InLogOfMember(s.topic, m, left);
      InReach(s.topic, n);
      AfterBase(s.topic, n.base, Position(n), left);
      HasLeftIn(s.topic[n.base..Position(n)] + s.topic[Position(n)..], left);
      HasLeftSplit(s.topic[n.base..Position(n)], Ahead(s, n), m);
    }
  }

  lemma AfterBase(topic: seq<Message>, base: nat, position: nat, left: Message)
    requires base <= position <= |topic| && left in topic
    requires forall k :: 0 <= k < base ==> topic[k].memberId != left.memberId
    ensures left in topic[base..position] + topic[position..]
  {
    var k :| 0 <= k < |topic| && topic[k] == left;
    assert (topic[base..position] + topic[position..])[k - base] == left;
  }

  lemma HasLeftIn(log: seq<Message>, left: Message)
    requires left in log && left.kind == MemberLeft
    ensures HasLeft(log, left.memberId)
  {
    var k :| 0 <= k < |log| && log[k] == left;
  }

  lemma HasLeftSplit(a: seq<Message>, b: seq<Message>, m: string)
    requires HasLeft(a + b, m)
    ensures HasLeft(a, m) || HasLeft(b, m)
  {
    var k :| 0 <= k < |a + b| && (a + b)[k].kind == MemberLeft && (a + b)[k].memberId == m;
    if k < |a| {
      assert a[k] == (a + b)[k];
    } else {
      assert b[k - |a|] == (a + b)[k];
    }
  }

  lemma LeftMakesGap(s: State, m: string)
    requires m in s.ses && SessionFits(s, m) && s.ses[m].home in s.inst && RepoFits(s, m)
    requires LogsFit(s, m) && MembershipFits(s, m) && Chained(s.topic, s.inst[s.ses[m].home])
    requires Position(s.inst[s.ses[m].home]) <= |s.topic| && (LeftInFlight(s, m) || HasLeft(s.ses[m].dropped, m))
    ensures m in s.inst[s.ses[m].home].members && m !in s.repo
  {
    hide ByMember, Sound, Chained, Added, Pending;
    var x, n := s.ses[m], s.inst[s.ses[m].home];
    var left := SomeLeft(s, m);
    LeftIsLast(x, left);
    LeftIsSomewhere(x);
    LeftOnce(x);
    InReach(s.topic, n);
    assert m !in s.repo;
    var taken := n.handled + InRoom(n);
    if j :| 0 <= j < |taken| && taken[j].kind == MemberLeft && taken[j].memberId == m {
      var other := s.topic[n.base + j];
      assert other == s.topic[n.base..Position(n)][j];
      InLogOfMember(s.topic, m, other);
      LeftIsLast(x, other);
      CountOfMember(s.topic, m, left);
      assert HasLeft(Ahead(s, n), m);
      var k :| 0 <= k < |Ahead(s, n)| && Ahead(s, n)[k].kind == MemberLeft && Ahead(s, n)[k].memberId == m;
      assert Ahead(s, n)[k] == s.topic[Position(n) + k];
      InLogOfMember(s.topic, m, s.topic[Position(n) + k]);
      LeftIsLast(x, s.topic[Position(n) + k]);
      Twice(s.topic, n.base + j, Position(n) + k);
    }
  }

  /** A left message of `m` outside the part of the topic the room has taken up. */
  lemma SomeLeft(s: State, m: string) returns (left: Message)
    requires m in s.ses && s.ses[m].home in s.inst && LogsFit(s, m) && SessionFits(s, m)
    requires Position(s.inst[s.ses[m].home]) <= |s.topic| && (LeftInFlight(s, m) || HasLeft(s.ses[m].dropped, m))
    ensures var x := s.ses[m];
            left.kind == MemberLeft && (left in x.published || left in x.dropped || left in Pending(x))
    ensures var x := s.ses[m];
            left in x.dropped || left in Pending(x) || HasLeft(Ahead(s, s.inst[x.home]), m)
  {
    hide ByMember, Sound, Pending;
    var x, n := s.ses[m], s.inst[s.ses[m].home];
    if HasLeft(x.dropped, m) {
      var k :| 0 <= k < |x.dropped| && x.dropped[k].kind == MemberLeft;
      left := x.dropped[k];
    } else if EndsWithLeft(Pending(x)) {
      left := Pending(x)[|Pending(x)| - 1];
    } else {
      var k :| 0 <= k < |Ahead(s, n)| && Ahead(s, n)[k].kind == MemberLeft && Ahead(s, n)[k].memberId == m;
      left := Ahead(s, n)[k];
      assert left == s.topic[Position(n) + k];
      InLogOfMember(s.topic, m, left);
    }
  }

  lemma {:induction false} CountOfMember(log: seq<Message>, m: string, msg: Message)
    requires msg.memberId == m
    ensures multiset(ByMember(log, m))[msg] == multiset(log)[msg]
  {
    if log != [] {
      CountOfMember(log[..|log| - 1], m, msg);
      assert log == log[..|log| - 1] + [log[|log| - 1]];
    }
  }

  /** A departed member has one left message, and it is in one place. */
  lemma LeftOnce(x: Session)
    requires Sound(x) && EndsWithLeft(x.saved)
    ensures var left := x.saved[|x.saved| - 1];
            multiset(x.published)[left] + multiset(x.dropped)[left] + multiset(Pending(x))[left] == 1
  {
    hide Sound, Pending;
    Copies(x, x.saved[|x.saved| - 1]);
  }

  /** Where the left message of a departed member can be. */
  lemma LeftIsSomewhere(x: Session)
    requires Sound(x) && EndsWithLeft(x.saved)
    ensures Added(x)
    ensures var left := x.saved[|x.saved| - 1];
            && left.kind == MemberLeft && left.memberId == x.member.id
            && (left in x.published || left in x.dropped || (left in Pending(x) && EndsWithLeft(Pending(x))))
  {
    assert Control(x);
    assert Pending(x) == [] || |Pending(x)| == 1;
    var left := x.saved[|x.saved| - 1];
    assert left in multiset(x.saved);
    assert Ledger(x.saved, x.published, x.dropped, Pending(x));
  }

  /** A left message in one of a session's histories means the stored ones end with it. */
  lemma LeftIsLast(x: Session, left: Message)
    requires Sound(x) && left.kind == MemberLeft
    requires left in x.published || left in x.dropped || left in Pending(x)
    ensures EndsWithLeft(x.saved) && left == x.saved[|x.saved| - 1] && !Live(x)
  {
    hide Control, Chats, Carries, Subsequence, Pending;
    assert Ledger(x.saved, x.published, x.dropped, Pending(x));
    assert multiset(x.saved)[left] >= 1 by {
      assert left in multiset(x.published) + multiset(x.dropped) + multiset(Pending(x));
    }
    assert left in x.saved;
    var j :| 0 <= j < |x.saved| && x.saved[j] == left;
    assert j == |x.saved| - 1;
  }
}
