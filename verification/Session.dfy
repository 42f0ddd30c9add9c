/**
  One member's session: the ServeRoom call that sets it up and its Listen, Broadcast and Publish
  goroutines (sharechat/controller.go, sharechat/member.go), each with a program counter. A
  rendezvous on an unbuffered channel is one joint step. What a session does on its own is here;
  steps that also touch the queue, the room or the repositories are in Pipeline.
 */
module Session {
  import opened Wrappers
  import opened Messages

  datatype SetupError = NotListening | NotBroadcasting | InsertFailed

  /** What ServeRoom returns. */
  datatype Outcome = Nil | FailedToPublish | Refused(why: SetupError)

  /** Controller.ServeRoom, from NewMember on. */
  datatype ServePC =
    | AwaitListen                            // member.ListenReady(ctx)
    | AwaitBroadcast                         // member.BroadcastReady(ctx)
    | InsertingMember                        // memberRepo.InsertMember
    | ClosingInbound(why: SetupError)        // member.CloseInbound()
    | StoppingBroadcast(why: SetupError)     // member.StopBroadcast()
    | AddingMember(joined: Message)          // room.AddMember(member)
    | PublishingJoined(joined: Message)      // queue.Publish(ctx, *message)
    | StartingBroadcast(outcome: Outcome)    // deferred member.startBroadcast <- struct{}{}
    | Returned(outcome: Outcome)

  /** Member.Listen */
  datatype ListenPC = ListenSpawned | Receiving | Writing(out: Message) | ListenEnded

  /** Member.Broadcast; Held is the wait for the startBroadcast token. */
  datatype BroadcastPC = NoBroadcast | BroadcastSpawned | Held | Reading | Handing(msg: Message) | BroadcastEnded

  /** Controller.Publish; Reporting is the send of a SendFailed notice. */
  datatype PublishPC =
    | NoPublish | Selecting | Inserting(chat: Message) | Deleting | Reporting | Publishing(next: Message) | PublishEnded

  /** One chat as read from a connection, under the ID it was given. */
  datatype Line = Line(id: string, text: string)

  function LineOf(chat: Message): Line {
    Line(chat.id, chat.text)
  }

  predicate Unused(id: string, read: seq<Line>) {
    forall k :: 0 <= k < |read| ==> read[k].id != id
  }

  /**
    Program counters of one session, the state of its inbound channel, and its history:
    `saved`, `published` and `dropped` are its messages the repository stored, the queue took, and
    the queue refused; `read` and `refused` are the chats read from the connection and those
    the repository refused; `written` are the WriteMessage calls. `start` and `pos` delimit the part of
    the topic the room has handed to Listen.
   */
  datatype Session = Session(
    member: Member, home: string,
    serve: ServePC, listen: ListenPC, broadcast: BroadcastPC, publish: PublishPC, closed: bool,
    saved: seq<Message>, published: seq<Message>, dropped: seq<Message>,
    read: seq<Line>, refused: seq<Line>, written: seq<Message>,
    start: int, pos: int)

  function NewSession(member: Member, home: string): Session {
    Session(member, home, AwaitListen, ListenSpawned, NoBroadcast, NoPublish, false, [], [], [], [], [], [], 0, 0)
  }

  datatype Action =
    | ListenReady | ListenExpired | BroadcastReady | BroadcastExpired | InsertMemberFails
    | CloseInbound | StopBroadcast | StopTakenByBroadcast | StartBroadcast
    | Read(id: string, text: string) | Hangup(id: string) | HandOver
    | DeleteFails | InsertFails | ReportFailure(id: string)
    | Write | ListenEnd

  predicate Can(x: Session, a: Action) {
    match a
    case ListenReady => x.serve == AwaitListen && x.listen == ListenSpawned
    case ListenExpired => x.serve == AwaitListen
    case BroadcastReady => x.serve == AwaitBroadcast && x.broadcast == BroadcastSpawned
    case BroadcastExpired => x.serve == AwaitBroadcast
    case InsertMemberFails => x.serve == InsertingMember
    case CloseInbound => x.serve.ClosingInbound?
    case StopBroadcast => x.serve.StoppingBroadcast? && x.publish == Selecting
    case StopTakenByBroadcast => x.serve.StoppingBroadcast? && x.broadcast == Reading
    case StartBroadcast => x.serve.StartingBroadcast? && x.broadcast == Held
    case Read(id, _) => x.broadcast == Reading && Unused(id, x.read)
    case Hangup(_) => x.broadcast == Reading
    case HandOver => x.broadcast.Handing? && x.publish == Selecting
    case DeleteFails => x.publish == Deleting
    case InsertFails => x.publish.Inserting?
    case ReportFailure(_) => x.publish == Reporting && !x.closed && x.listen == Receiving
    case Write => x.listen.Writing?
    case ListenEnd => x.listen == Receiving && x.closed
  }

  function Act(x: Session, a: Action): Session
    requires Can(x, a)
  {
    match a
    case ListenReady =>
      x.(serve := AwaitBroadcast, listen := Receiving, publish := Selecting, broadcast := BroadcastSpawned)
    case ListenExpired => x.(serve := ClosingInbound(NotListening))
    case BroadcastReady => x.(serve := InsertingMember, broadcast := Held)
    case BroadcastExpired => x.(serve := ClosingInbound(NotBroadcasting))
    case InsertMemberFails => x.(serve := ClosingInbound(InsertFailed))
    case CloseInbound =>
      var why := x.serve.why;
      x.(closed := true, serve := if why == NotListening then Returned(Refused(why)) else StoppingBroadcast(why))
    case StopBroadcast => x.(serve := Returned(Refused(x.serve.why)), publish := PublishEnded)
    case StopTakenByBroadcast => x.(serve := Returned(Refused(x.serve.why)), broadcast := BroadcastEnded)
    case StartBroadcast => x.(serve := Returned(x.serve.outcome), broadcast := Reading)
    case Read(id, text) =>
        x.(broadcast := Handing(NewChatMessage(x.member, id, text)), read := x.read + [Line(id, text)])
    case Hangup(id) => x.(broadcast := Handing(NewMemberLeftMessage(x.member, id)))
    case HandOver =>
      if x.broadcast.msg.kind == MemberLeft then x.(broadcast := BroadcastEnded, publish := Deleting)
      else x.(broadcast := Reading, publish := Inserting(x.broadcast.msg))
    case DeleteFails => x.(publish := PublishEnded)
    case InsertFails => x.(publish := Reporting, refused := x.refused + [LineOf(x.publish.chat)])
    case ReportFailure(id) => x.(publish := Selecting, listen := Writing(NewSendFailedMessage(x.member, id)))
    case Write => x.(listen := Receiving, written := x.written + [x.listen.out])
    case ListenEnd => x.(listen := ListenEnded)
  }

  /** The three writes to the repositories: InsertMember, InsertMessage and DeleteMember. */
  datatype Row = JoinedRow | ChatRow | LeftRow

  /** `msg` is the stored message: what the caller passed or built, stamped with the time of the insert. */
  predicate CanSave(x: Session, row: Row, msg: Message) {
    match row
    case JoinedRow => x.serve == InsertingMember && msg == NewMemberJoinedMessage(x.member, msg.id).(sent := msg.sent)
    case ChatRow => x.publish.Inserting? && msg == x.publish.chat.(sent := msg.sent)
    case LeftRow => x.publish == Deleting && msg == NewMemberLeftMessage(x.member, msg.id).(sent := msg.sent)
  }

  function Save(x: Session, row: Row, msg: Message): Session
    requires CanSave(x, row, msg)
  {
    var y := x.(saved := x.saved + [msg]);
    if row == JoinedRow then y.(serve := AddingMember(msg)) else y.(publish := Publishing(msg))
  }

  /** The message a goroutine of the session is passing to queue.Publish, if any. */
  function Outgoing(x: Session): Option<Message> {
    if x.serve.PublishingJoined? then Some(x.serve.joined)
    else if x.publish.Publishing? then Some(x.publish.next)
    else None
  }

  /** queue.Publish returned, with or without an error. */
  function AfterPublish(x: Session, ok: bool): Session
    requires Outgoing(x).Some?
  {
    var msg := Outgoing(x).value;
    var y := if ok then x.(published := x.published + [msg]) else x.(dropped := x.dropped + [msg]);
    if x.serve.PublishingJoined? then y.(serve := StartingBroadcast(if ok then Nil else FailedToPublish))
    else y.(publish := if msg.kind == MemberLeft then PublishEnded else Selecting)
  }

  /** room.AddMember, met with `next` as the first topic position a whole fan-out of which is still to come. */
  function Join(x: Session, next: int): Session
    requires x.serve.AddingMember?
  {
    x.(serve := PublishingJoined(x.serve.joined), start := next, pos := next)
  }

  /** The room's send on inbound; a member added during the fan-out has the entry in front of its start. */
  function Receive(x: Session, msg: Message, expected: bool): Session {
    if expected then x.(listen := Writing(msg), pos := x.pos + 1)
    else x.(listen := Writing(msg), start := x.start - 1)
  }

  // Projections of the histories ------------------------------------------------------------------

  predicate EndsWithLeft(s: seq<Message>) {
    s != [] && s[|s| - 1].kind == MemberLeft
  }

  /** In the repository as a live member: joined stored, left not. */
  predicate Live(x: Session) {
    x.saved != [] && !EndsWithLeft(x.saved)
  }

  /** AddMember has taken effect. */
  predicate Added(x: Session) {
    match x.serve
    case PublishingJoined(_) => true
    case StartingBroadcast(_) => true
    case Returned(o) => !o.Refused?
    case _ => false
  }

  /** Stored but not yet handed to the queue or refused by it. */
  function Pending(x: Session): seq<Message> {
    if x.serve.AddingMember? || x.serve.PublishingJoined? then [x.serve.joined]
    else if x.publish.Publishing? then [x.publish.next]
    else []
  }

  /** `a` is `b` with some messages left out. */
  predicate Subsequence(a: seq<Message>, b: seq<Message>)
    decreases |b|
  {
    if a == [] then true
    else if b == [] then false
    else
      || (a[|a| - 1] == b[|b| - 1] && Subsequence(a[..|a| - 1], b[..|b| - 1]))
      || Subsequence(a, b[..|b| - 1])
  }

  function ChatLines(s: seq<Message>): seq<Line> {
    if s == [] then []
    else ChatLines(s[..|s| - 1]) + if s[|s| - 1].kind == Chat then [LineOf(s[|s| - 1])] else []
  }

  /** WriteMessage calls other than SendFailed notices. */
  function Delivered(s: seq<Message>): seq<Message> {
    if s == [] then []
    else Delivered(s[..|s| - 1]) + if s[|s| - 1].kind == SendFailed then [] else [s[|s| - 1]]
  }

  function Notices(s: seq<Message>): nat {
    if s == [] then 0
    else Notices(s[..|s| - 1]) + if s[|s| - 1].kind == SendFailed then 1 else 0
  }

  /** Chats read but neither stored nor refused yet: at most one on either side of the outbound channel. */
  function InFlight(x: Session): seq<Line> {
    (if x.broadcast.Handing? && x.broadcast.msg.kind == Chat then [LineOf(x.broadcast.msg)] else [])
    + (if x.publish.Inserting? then [LineOf(x.publish.chat)] else [])
  }

  /** SendFailed notices on their way to the connection. */
  function NoticesDue(x: Session): nat {
    (if x.publish.Reporting? then 1 else 0) + (if x.listen.Writing? && x.listen.out.kind == SendFailed then 1 else 0)
  }

  // Invariants of a session on its own --------------------------------------------------------------

  predicate Blank(x: Session) {
    x.saved == [] && x.published == [] && x.dropped == [] && x.read == [] && x.refused == [] && x.written == []
  }

  /** After AddMember and before Broadcast starts. */
  predicate Waiting(x: Session) {
    && !x.closed && (x.listen == Receiving || x.listen.Writing?)
    && x.broadcast == Held && x.publish == Selecting
    && |x.saved| == 1 && x.read == [] && x.refused == []
  }

  predicate Running(x: Session) {
    && !x.closed && (x.listen == Receiving || x.listen.Writing?)
    && x.saved != []
    && match x.broadcast
       case BroadcastEnded =>
         && (x.publish.Deleting? || x.publish.Publishing? || x.publish.PublishEnded?)
         && (x.publish.Deleting? ==> Live(x))
         && (x.publish.Publishing? ==> EndsWithLeft(x.saved))
       case Reading => Live(x) && Forwarding(x)
       case Handing(_) => Live(x) && Forwarding(x)
       case _ => false
  }

  predicate Forwarding(x: Session) {
    x.publish.Selecting? || x.publish.Inserting? || x.publish.Reporting? || x.publish.Publishing?
  }

  /** How the four program counters fit together. */
  predicate Control(x: Session) {
    match x.serve
    case AwaitListen =>
      Blank(x) && !x.closed && x.listen == ListenSpawned && x.broadcast == NoBroadcast && x.publish == NoPublish
    case AwaitBroadcast =>
      Blank(x) && !x.closed && x.listen == Receiving && x.broadcast == BroadcastSpawned && x.publish == Selecting
    case InsertingMember =>
      Blank(x) && !x.closed && x.listen == Receiving && x.broadcast == Held && x.publish == Selecting
    case ClosingInbound(why) =>
      && Blank(x) && !x.closed
      && (match why
          case NotListening => x.listen == ListenSpawned && x.broadcast == NoBroadcast && x.publish == NoPublish
          case NotBroadcasting => x.listen == Receiving && x.broadcast == BroadcastSpawned && x.publish == Selecting
          case InsertFailed => x.listen == Receiving && x.broadcast == Held && x.publish == Selecting)
    case StoppingBroadcast(why) =>
      && Blank(x) && x.closed && (x.listen == Receiving || x.listen == ListenEnded) && x.publish == Selecting
      && x.broadcast == (if why == NotBroadcasting then BroadcastSpawned else Held)
    case AddingMember(joined) =>
      Waiting(x) && x.listen == Receiving && x.written == [] && x.saved == [joined] && x.published == []
          && x.dropped == []
    case PublishingJoined(joined) =>
      Waiting(x) && x.saved == [joined] && x.published == [] && x.dropped == []
    case StartingBroadcast(outcome) =>
      && Waiting(x)
      && (match outcome
          case Nil => x.published == x.saved && x.dropped == []
          case FailedToPublish => x.published == [] && x.dropped == x.saved
          case Refused(_) => false)
    case Returned(outcome) =>
      if outcome.Refused? then
        && Blank(x) && x.closed && (x.listen == ListenSpawned || x.listen == Receiving || x.listen == ListenEnded)
        && (x.publish == NoPublish || x.publish == PublishEnded)
        && (x.broadcast == NoBroadcast || x.broadcast == BroadcastSpawned || x.broadcast == Held)
      else Running(x)
  }

  /** What everyone is told about a message's sender, and the fixed texts of joined and left messages. */
  predicate Signed(member: Member, m: Message) {
    && m.memberId == member.id && m.memberName == member.name && m.roomId == member.roomId
    && (m.kind == MemberJoined ==> m.text == member.name + " joined the room.")
    && (m.kind == MemberLeft ==> m.text == member.name + " left the room.")
  }

  /** Stored messages are the member's own: joined, then chats, then at most one left as the very last. */
  predicate LifeCycle(x: Session) {
    && (forall k :: 0 <= k < |x.saved| ==> Signed(x.member, x.saved[k]))
    && (x.saved != [] ==> x.saved[0].kind == MemberJoined)
    && (forall k :: 0 < k < |x.saved| ==>
          x.saved[k].kind == Chat || (x.saved[k].kind == MemberLeft && k == |x.saved| - 1))
  }

  /** Messages between the session's goroutines are the member's own and of the kind the place calls for. */
  predicate Carries(x: Session) {
    && (x.broadcast.Handing? ==>
          Signed(x.member, x.broadcast.msg) && (x.broadcast.msg.kind == Chat || x.broadcast.msg.kind == MemberLeft))
    && (x.publish.Inserting? ==> Signed(x.member, x.publish.chat) && x.publish.chat.kind == Chat)
  }

  /** Every stored message is published, dropped or pending, and publication keeps the order of storing. */
  predicate Ledger(saved: seq<Message>, published: seq<Message>, dropped: seq<Message>, pending: seq<Message>) {
    && (pending != [] ==> saved != [] && pending == [saved[|saved| - 1]])
    && Subsequence(published + pending, saved)
    && multiset(saved) == multiset(published) + multiset(dropped) + multiset(pending)
  }

  predicate Accounts(x: Session) {
    Ledger(x.saved, x.published, x.dropped, Pending(x))
  }

  /** Every line read has an ID of its own. */
  predicate FreshIds(read: seq<Line>) {
    forall i, j :: 0 <= i < j < |read| ==> read[i].id != read[j].id
  }

  predicate NoRepeats<T(==)>(s: seq<T>) {
    forall i, j :: 0 <= i < j < |s| ==> s[i] != s[j]
  }

  /** Every chat read, each under its own ID, is stored, refused or in flight. */
  predicate ChatFlow(read: seq<Line>, stored: seq<Line>, refused: seq<Line>, flying: seq<Line>) {
    FreshIds(read) && multiset(read) == multiset(stored) + multiset(refused) + multiset(flying)
  }

  predicate IsNotice(member: Member, m: Message) {
    m.kind == SendFailed && Signed(member, m) && m.text == "failed to send message"
  }

  predicate OwnNotices(member: Member, written: seq<Message>, listen: ListenPC) {
    && (forall k :: 0 <= k < |written| && written[k].kind == SendFailed ==> IsNotice(member, written[k]))
    && (listen.Writing? && listen.out.kind == SendFailed ==> IsNotice(member, listen.out))
  }

  /** Chats are conserved, and every refusal is answered by one notice, to its own sender. */
  predicate Chats(x: Session) {
    && ChatFlow(x.read, ChatLines(x.saved), x.refused, InFlight(x))
    && |x.refused| == Notices(x.written) + NoticesDue(x)
    && OwnNotices(x.member, x.written, x.listen)
  }

  predicate Sound(x: Session) {
    Control(x) && LifeCycle(x) && Carries(x) && Accounts(x) && Chats(x)
  }

  // Projections of an extended history --------------------------------------------------------------

  lemma ChatLinesAppend(s: seq<Message>, m: Message)
    ensures ChatLines(s + [m]) == ChatLines(s) + if m.kind == Chat then [LineOf(m)] else []
  {
    assert (s + [m])[..|s|] == s;
  }

  lemma DeliveredAppend(s: seq<Message>, m: Message)
    ensures Delivered(s + [m]) == Delivered(s) + if m.kind == SendFailed then [] else [m]
    ensures Notices(s + [m]) == Notices(s) + if m.kind == SendFailed then 1 else 0
  {
    assert (s + [m])[..|s|] == s;
  }

  lemma SubsequenceAppend(a: seq<Message>, b: seq<Message>, m: Message)
    requires Subsequence(a, b)
    ensures Subsequence(a + [m], b + [m])
  {
    assert (a + [m])[..|a|] == a;
    assert (b + [m])[..|b|] == b;
  }

  lemma {:induction false} SubsequenceDrop(a: seq<Message>, m: Message, b: seq<Message>)
    requires Subsequence(a + [m], b)
    ensures Subsequence(a, b)
  {
    var am := a + [m];
    assert am[..|am| - 1] == a;
    var init := b[..|b| - 1];
    if am[|am| - 1] == b[|b| - 1] && Subsequence(a, init) {
      Weaken(a, b);
    } else {
      SubsequenceDrop(a, m, init);
      Weaken(a, b);
    }
  }

  lemma Weaken(a: seq<Message>, b: seq<Message>)
    requires b != [] && Subsequence(a, b[..|b| - 1])
    ensures Subsequence(a, b)
  {
  }

  lemma {:induction false} SubsequenceSelf(a: seq<Message>)
    ensures Subsequence(a, a)
  {
    if a != [] {
      SubsequenceSelf(a[..|a| - 1]);
    }
  }

  // Every step keeps the invariants -----------------------------------------------------------------

  lemma NewSessionSound(member: Member, home: string)
    ensures Sound(NewSession(member, home))
  {
  }

  lemma ActControl(x: Session, a: Action)
    requires Control(x) && LifeCycle(x) && Carries(x) && Can(x, a)
    ensures Control(Act(x, a)) && Carries(Act(x, a))
    ensures a != StopTakenByBroadcast
  {
  }

  /** A session's own steps store and publish nothing. */
  lemma ActFrame(x: Session, a: Action)
    requires Can(x, a)
    ensures var y := Act(x, a);
            && y.member == x.member && y.home == x.home && y.start == x.start && y.pos == x.pos
            && y.saved == x.saved && y.published == x.published && y.dropped == x.dropped
  {
  }

  lemma ActStage(x: Session, a: Action)
    requires Control(x) && Can(x, a)
    ensures Pending(Act(x, a)) == Pending(x)
    ensures Added(Act(x, a)) == Added(x)
  {
  }

  lemma ActAccounts(x: Session, a: Action)
    requires Control(x) && LifeCycle(x) && Accounts(x) && Can(x, a)
    ensures LifeCycle(Act(x, a)) && Accounts(Act(x, a))
    ensures Live(Act(x, a)) == Live(x) && Added(Act(x, a)) == Added(x)
  {
    ActFrame(x, a);
    ActStage(x, a);
    hide Control, Act, Can, Ledger, Pending, Added;
  }

  lemma FlowRead(read: seq<Line>, stored: seq<Line>, refused: seq<Line>, flying: seq<Line>, line: Line)
    requires ChatFlow(read, stored, refused, flying) && Unused(line.id, read)
    ensures ChatFlow(read + [line], stored, refused, [line] + flying)
  {
  }

  lemma FlowRefused(read: seq<Line>, stored: seq<Line>, refused: seq<Line>, flying: seq<Line>, line: Line)
    requires ChatFlow(read, stored, refused, flying + [line])
    ensures ChatFlow(read, stored, refused + [line], flying)
  {
  }

  lemma FlowStored(read: seq<Line>, stored: seq<Line>, refused: seq<Line>, flying: seq<Line>, line: Line)
    requires ChatFlow(read, stored, refused, flying + [line])
    ensures ChatFlow(read, stored + [line], refused, flying)
  {
  }

  lemma ActChats(x: Session, a: Action)
    requires Control(x) && Carries(x) && Chats(x) && Can(x, a)
    ensures Chats(Act(x, a))
  {
    match a
    case Read(_, _) => ReadChats(x, a);
    case InsertFails => InsertFailsChats(x);
    case ReportFailure(_) => ReportChats(x, a);
    case Write => WriteChats(x);
    case _ => QuietChats(x, a);
  }

  lemma ReadChats(x: Session, a: Action)
    requires Chats(x) && a.Read? && Can(x, a)
    ensures Chats(Act(x, a))
  {
    hide ChatLines, Notices, ChatFlow, OwnNotices;
    FlowRead(x.read, ChatLines(x.saved), x.refused, InFlight(x), Line(a.id, a.text));
    assert InFlight(Act(x, a)) == [Line(a.id, a.text)] + InFlight(x);
  }

  lemma InsertFailsChats(x: Session)
    requires Chats(x) && Can(x, InsertFails)
    ensures Chats(Act(x, InsertFails))
  {
    hide ChatLines, Notices, ChatFlow, OwnNotices;
    var y, line := Act(x, InsertFails), LineOf(x.publish.chat);
    assert InFlight(x) == InFlight(y) + [line];
    FlowRefused(x.read, ChatLines(x.saved), x.refused, InFlight(y), line);
  }

  lemma ReportChats(x: Session, a: Action)
    requires Chats(x) && a.ReportFailure? && Can(x, a)
    ensures Chats(Act(x, a))
  {
    hide ChatLines, Notices, ChatFlow;
    assert InFlight(Act(x, a)) == InFlight(x);
  }

  lemma WriteChats(x: Session)
    requires Chats(x) && Can(x, Write)
    ensures Chats(Act(x, Write))
  {
    hide ChatLines, Notices, ChatFlow, Delivered;
    DeliveredAppend(x.written, x.listen.out);
    assert InFlight(Act(x, Write)) == InFlight(x);
  }

  lemma QuietChats(x: Session, a: Action)
    requires Control(x) && Carries(x) && Chats(x) && Can(x, a)
    requires !a.Read? && !a.InsertFails? && !a.ReportFailure? && !a.Write?
    ensures Chats(Act(x, a))
  {
    QuietFrame(x, a);
    hide ChatLines, Notices, ChatFlow, InFlight, NoticesDue, Control, Carries, Can, Act;
  }

  lemma QuietFrame(x: Session, a: Action)
    requires Control(x) && Carries(x) && Can(x, a)
    requires !a.Read? && !a.InsertFails? && !a.ReportFailure? && !a.Write?
    ensures var y := Act(x, a);
            && y.member == x.member && y.saved == x.saved
            && y.read == x.read && y.refused == x.refused && y.written == x.written
            && InFlight(y) == InFlight(x) && NoticesDue(y) == NoticesDue(x)
            && y.listen.Writing? == x.listen.Writing? && (x.listen.Writing? ==> y.listen == x.listen)
  {
  }

  lemma ActKeeps(x: Session, a: Action)
    requires Sound(x) && Can(x, a)
    ensures Sound(Act(x, a))
    ensures Live(Act(x, a)) == Live(x) && Added(Act(x, a)) == Added(x)
    ensures a != StopTakenByBroadcast
  {
    hide Control, LifeCycle, Carries, Accounts, Chats, Act, Can, Live, Added;
    ActControl(x, a);
    ActAccounts(x, a);
    ActChats(x, a);
  }

  lemma SaveControl(x: Session, row: Row, msg: Message)
    requires Control(x) && LifeCycle(x) && Carries(x) && CanSave(x, row, msg)
    ensures var y := Save(x, row, msg); Control(y) && LifeCycle(y) && Carries(y)
    ensures Signed(x.member, msg) && msg.kind != SendFailed
    ensures Live(Save(x, row, msg)) == (row != LeftRow) && Pending(x) == []
    ensures row != JoinedRow ==> Live(x)
  {
    hide Control, LifeCycle, Carries, Save, CanSave, Live, Pending;
    match row
    case JoinedRow => SaveJoined(x, msg);
    case ChatRow => SaveChat(x, msg);
    case LeftRow => SaveLeft(x, msg);
  }

  lemma SaveJoined(x: Session, msg: Message)
    requires Control(x) && LifeCycle(x) && Carries(x) && CanSave(x, JoinedRow, msg)
    ensures var y := Save(x, JoinedRow, msg); Control(y) && LifeCycle(y) && Carries(y) && Live(y)
    ensures Signed(x.member, msg) && msg.kind != SendFailed && Pending(x) == []
  {
  }

  lemma SaveChat(x: Session, msg: Message)
    requires Control(x) && LifeCycle(x) && Carries(x) && CanSave(x, ChatRow, msg)
    ensures var y := Save(x, ChatRow, msg); Control(y) && LifeCycle(y) && Carries(y) && Live(y)
    ensures Signed(x.member, msg) && msg.kind != SendFailed && Pending(x) == [] && Live(x)
  {
  }

  lemma SaveLeft(x: Session, msg: Message)
    requires Control(x) && LifeCycle(x) && Carries(x) && CanSave(x, LeftRow, msg)
    ensures var y := Save(x, LeftRow, msg); Control(y) && LifeCycle(y) && Carries(y) && !Live(y)
    ensures Signed(x.member, msg) && msg.kind != SendFailed && Pending(x) == [] && Live(x)
  {
  }

  lemma SaveKeeps(x: Session, row: Row, msg: Message)
    requires Sound(x) && CanSave(x, row, msg)
    ensures Sound(Save(x, row, msg))
    ensures Signed(x.member, msg) && msg.kind != SendFailed
    ensures Live(Save(x, row, msg)) == (row != LeftRow)
    ensures row != JoinedRow ==> Live(x)
  {
    hide Control, LifeCycle, Carries, Accounts, Chats, Save, CanSave, Live, Pending;
    SaveControl(x, row, msg);
    SaveAccounts(x, row, msg);
    SaveChats(x, row, msg);
  }

  lemma SaveAccounts(x: Session, row: Row, msg: Message)
    requires Accounts(x) && CanSave(x, row, msg) && Pending(x) == []
    ensures Accounts(Save(x, row, msg))
  {
    LedgerSave(x.saved, x.published, x.dropped, msg);
    assert Pending(Save(x, row, msg)) == [msg];
    hide Ledger;
  }

  lemma LedgerSave(saved: seq<Message>, published: seq<Message>, dropped: seq<Message>, msg: Message)
    requires Ledger(saved, published, dropped, [])
    ensures Ledger(saved + [msg], published, dropped, [msg])
  {
    assert published + [] == published;
    SubsequenceAppend(published, saved, msg);
    hide Subsequence;
  }

  lemma LedgerPublish(saved: seq<Message>, published: seq<Message>, dropped: seq<Message>, msg: Message)
    requires Ledger(saved, published, dropped, [msg])
    ensures Ledger(saved, published + [msg], dropped, [])
    ensures Ledger(saved, published, dropped + [msg], [])
  {
    assert published + [msg] + [] == published + [msg];
    assert published + [] == published;
    SubsequenceDrop(published, msg, saved);
    hide Subsequence;
  }

  lemma SaveChats(x: Session, row: Row, msg: Message)
    requires Control(x) && Carries(x) && Chats(x) && CanSave(x, row, msg)
    ensures Chats(Save(x, row, msg))
  {
    hide ChatLines, Notices, ChatFlow, OwnNotices;
    var y := Save(x, row, msg);
    ChatLinesAppend(x.saved, msg);
    if row == ChatRow {
      assert InFlight(x) == InFlight(y) + [LineOf(msg)];
      FlowStored(x.read, ChatLines(x.saved), x.refused, InFlight(y), LineOf(msg));
    } else {
      assert InFlight(y) == InFlight(x);
      assert ChatLines(x.saved) + [] == ChatLines(x.saved);
    }
  }

  lemma PublishKeeps(x: Session, ok: bool)
    requires Sound(x) && Outgoing(x).Some?
    ensures Sound(AfterPublish(x, ok))
    ensures Signed(x.member, Outgoing(x).value) && Outgoing(x).value.kind != SendFailed
    ensures Added(x) && Added(AfterPublish(x, ok)) && Live(AfterPublish(x, ok)) == Live(x)
    ensures Outgoing(x).value.kind == MemberLeft ==> !Live(x)
  {
    hide Control, LifeCycle, Carries, Accounts, Live, Added;
    assert Pending(x) != [] ==> x.saved != [] && Pending(x) == [x.saved[|x.saved| - 1]] by { LastIsPending(x); }
    PublishControl(x, ok);
    PublishAccounts(x, ok);
    PublishChats(x, ok);
  }

  lemma LastIsPending(x: Session)
    requires Accounts(x)
    ensures Pending(x) != [] ==> x.saved != [] && Pending(x) == [x.saved[|x.saved| - 1]]
  {
  }

  lemma PublishChats(x: Session, ok: bool)
    requires Chats(x) && Outgoing(x).Some?
    ensures Chats(AfterPublish(x, ok))
  {
    hide ChatLines, Notices, ChatFlow, OwnNotices;
    assert InFlight(AfterPublish(x, ok)) == InFlight(x);
  }

  lemma PublishControl(x: Session, ok: bool)
    requires Control(x) && LifeCycle(x) && Carries(x) && Outgoing(x).Some?
    requires Pending(x) != [] ==> x.saved != [] && Pending(x) == [x.saved[|x.saved| - 1]]
    ensures var y := AfterPublish(x, ok); Control(y) && LifeCycle(y) && Carries(y)
    ensures Signed(x.member, Outgoing(x).value) && Outgoing(x).value.kind != SendFailed
    ensures Pending(x) == [Outgoing(x).value] && Pending(AfterPublish(x, ok)) == []
    ensures Added(x) && Added(AfterPublish(x, ok)) && Live(AfterPublish(x, ok)) == Live(x)
    ensures Outgoing(x).value.kind == MemberLeft ==> !Live(x)
  {
  }

  lemma PublishAccounts(x: Session, ok: bool)
    requires Accounts(x) && Outgoing(x).Some?
    requires Pending(x) == [Outgoing(x).value] && Pending(AfterPublish(x, ok)) == []
    ensures Accounts(AfterPublish(x, ok))
  {
    LedgerPublish(x.saved, x.published, x.dropped, Outgoing(x).value);
    hide Ledger, Pending;
  }

  lemma JoinKeeps(x: Session, next: int)
    requires Sound(x) && x.serve.AddingMember?
    ensures Sound(Join(x, next))
    ensures !Added(x) && Added(Join(x, next)) && Live(Join(x, next)) == Live(x)
    ensures x.listen == Receiving && x.written == []
  {
    hide Control, LifeCycle, Carries, Accounts, Chats, Pending, Added;
    var y := Join(x, next);
    JoinControl(x, next);
    SameAccounts(x, y);
    SameChats(x, y);
  }

  lemma JoinControl(x: Session, next: int)
    requires Control(x) && LifeCycle(x) && Carries(x) && x.serve.AddingMember?
    ensures var y := Join(x, next);
            Control(y) && LifeCycle(y) && Carries(y) && !Added(x) && Added(y) && Pending(y) == Pending(x)
    ensures x.listen == Receiving && x.written == []
  {
  }

  lemma SameAccounts(x: Session, y: Session)
    requires Accounts(x) && Pending(y) == Pending(x)
    requires y.saved == x.saved && y.published == x.published && y.dropped == x.dropped
    ensures Accounts(y)
  {
    hide Ledger, Pending;
  }

  lemma SameChats(x: Session, y: Session)
    requires Chats(x) && InFlight(y) == InFlight(x) && NoticesDue(y) == NoticesDue(x)
    requires y.member == x.member && y.saved == x.saved && y.read == x.read && y.refused == x.refused
    requires y.written == x.written
    requires y.listen.Writing? && y.listen.out.kind == SendFailed ==> y.listen == x.listen
    ensures Chats(y)
  {
    hide ChatLines, Notices, ChatFlow, InFlight, NoticesDue;
  }

  lemma ReceiveKeeps(x: Session, msg: Message, expected: bool)
    requires Sound(x) && Added(x) && x.listen == Receiving && msg.kind != SendFailed
    ensures Sound(Receive(x, msg, expected))
    ensures Added(Receive(x, msg, expected)) && Live(Receive(x, msg, expected)) == Live(x)
  {
    hide Control, LifeCycle, Carries, Accounts, Chats, Pending, Added;
    var y := Receive(x, msg, expected);
    ReceiveControl(x, msg, expected);
    SameAccounts(x, y);
    SameChats(x, y);
  }

  lemma ReceiveControl(x: Session, msg: Message, expected: bool)
    requires Control(x) && LifeCycle(x) && Carries(x) && Added(x) && x.listen == Receiving
    ensures var y := Receive(x, msg, expected);
            Control(y) && LifeCycle(y) && Carries(y) && Added(y) && Pending(y) == Pending(x)
  {
  }
}
