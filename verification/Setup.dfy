/**
  Setting up rooms and members (sharechat/controller.go, sharechat/room.go, sharechat/member.go): what
  CreateRoom and ServeRoom do to the room cache, the room and the repositories, and what one round of
  Room.Start does to its members. The outcomes of external calls and of waits under the caller's
  context are parameters. How these calls interleave with everything else is in Pipeline.
 */
module Setup {
  import opened Rfc3339
  import opened Messages
  import opened Session
  import MemberRepo
  import opened Pipeline

  /** The goroutines and channels of one connected member. */
  class Client {
    const member: Member
    var listening: bool     // the Listen goroutine got past its handshake
    var publishing: bool    // the Publish goroutine runs
    var broadcasting: bool  // the Broadcast goroutine has its start token
    var closed: bool        // inbound is closed
    var inbox: seq<Message> // messages sent on inbound

    constructor (member: Member)
      ensures this.member == member && !listening && !publishing && !broadcasting && !closed && inbox == []
    {
      this.member := member;
      listening, publishing, broadcasting, closed, inbox := false, false, false, false, [];
    }
  }

  class Room {
    const id: string
    var started: bool
    var subscribed: bool
    var closed: bool
    var members: map<string, Client>

    ghost predicate Valid()
      reads this, members.Values
    {
      forall m :: m in members ==> members[m].member.id == m && !members[m].closed
    }

    constructor (id: string)
      ensures this.id == id && !started && !subscribed && !closed && members == map[] && Valid()
    {
      this.id := id;
      started, subscribed, closed, members := false, false, false, map[];
    }

    method AddMember(client: Client)
      modifies this`members
      ensures members == old(members)[client.member.id := client]
      ensures old(Valid()) && !client.closed ==> Valid()
    {
      members := members[client.member.id := client];
    }

    /** Idempotent: the channel is closed by the first call only. */
    method CloseInbound()
      modifies this`closed
      ensures closed
    {
      if !closed {
        closed := true;
      }
    }

    /** What each member of the room has been sent. */
    ghost function Inboxes(): map<string, seq<Message>>
      reads this, members.Values
    {
      map m | m in members :: members[m].inbox
    }

    /** The loop over the members, each of which is a client of its own. */
    method NotifyAll(message: Message)
      requires Valid()
      modifies members.Values`inbox
      ensures Valid()
      ensures forall m :: m in members ==> members[m].inbox == old(members[m].inbox) + [message]
    {
      var todo := members.Values;
      while todo != {}
        invariant todo <= members.Values
        invariant forall c :: c in todo ==> c.inbox == old(c.inbox)
        invariant forall c :: c in members.Values && c !in todo ==> c.inbox == old(c.inbox) + [message]
        decreases todo
      {
        var c :| c in todo;
        c.inbox := c.inbox + [message];
        todo := todo - {c};
      }
      forall m | m in members ensures members[m].inbox == old(members[m].inbox) + [message] {
        assert members[m] in members.Values;
      }
    }

    /** One round of Room.Start: a leaver goes first, then everyone still there is sent the message once. */
    method Handle(message: Message)
      requires Valid()
      modifies this`members, members.Values`inbox
      ensures Valid()
      ensures Inboxes() == FanOut(old(Inboxes()), message)
      ensures forall m :: m in members ==> m in old(members) && members[m] == old(members[m])
      ensures message.kind == MemberLeft && message.memberId in old(members) ==>
                old(members[message.memberId]).inbox == old(members[message.memberId].inbox)
    {
      if message.kind == MemberLeft {
        members := members - {message.memberId};
      }
      assert members.Keys == Staying(old(members).Keys, message);
      assert members.Values <= old(members).Values;
      hide Staying;
      NotifyAll(message);
      forall m | m in members ensures Inboxes()[m] == old(Inboxes())[m] + [message] {
        assert members[m] == old(members)[m];
      }
    }
  }

  /** The effect of one fan-out on what the members have been sent. */
  function FanOut(inboxes: map<string, seq<Message>>, message: Message): map<string, seq<Message>> {
    map m | m in Staying(inboxes.Keys, message) :: inboxes[m] + [message]
  }

  function FanOutAll(inboxes: map<string, seq<Message>>, log: seq<Message>): map<string, seq<Message>> {
    if log == [] then inboxes else FanOut(FanOutAll(inboxes, log[..|log| - 1]), log[|log| - 1])
  }

  /**
    Over any number of rounds: members whose left message is not among the messages get them all, in
    order; the others are out.
   */
  lemma {:induction false} EveryoneGetsEverything(inboxes: map<string, seq<Message>>, log: seq<Message>)
    ensures forall m :: m in FanOutAll(inboxes, log) <==> m in inboxes && !HasLeft(log, m)
    ensures forall m :: m in FanOutAll(inboxes, log) ==> FanOutAll(inboxes, log)[m] == inboxes[m] + log
  {
    if log == [] {
      assert forall m :: m in inboxes ==> inboxes[m] + [] == inboxes[m];
    } else {
      var init, last := log[..|log| - 1], log[|log| - 1];
      EveryoneGetsEverything(inboxes, init);
      assert log == init + [last];
      forall m ensures HasLeft(log, m) <==> HasLeft(init, m) || (last.kind == MemberLeft && last.memberId == m) {
        if HasLeft(init, m) {
          var k :| 0 <= k < |init| && init[k].kind == MemberLeft && init[k].memberId == m;
          assert log[k] == init[k];
        }
      }
      forall m | m in FanOutAll(inboxes, log) ensures FanOutAll(inboxes, log)[m] == inboxes[m] + log {
        assert inboxes[m] + log == inboxes[m] + init + [last];
      }
    }
  }

  // The controller ----------------------------------------------------------------------------------

  class Queue {
    var published: seq<Message>

    constructor ()
      ensures published == []
    {
      published := [];
    }

    method Publish(message: Message, delivers: bool) returns (ok: bool)
      modifies this
      ensures ok == delivers && published == old(published) + if delivers then [message] else []
    {
      if delivers {
        published := published + [message];
      }
      ok := delivers;
    }
  }

  /** How the external calls and the waits of one set-up turn out. */
  datatype Calls = Calls(
    found: bool, started: bool, subscribed: bool, roomStored: bool,
    listening: bool, broadcasting: bool, memberStored: bool, published: bool)

  datatype Served = RoomNotFound | RoomNotReady | NotSubscribed | Serving(outcome: Outcome) {
    predicate Accepted() {
      Serving? && !outcome.Refused?
    }
  }

  function OutcomeOf(c: Calls): Outcome {
    if !c.listening then Refused(NotListening)
    else if !c.broadcasting then Refused(NotBroadcasting)
    else if !c.memberStored then Refused(InsertFailed)
    else if !c.published then FailedToPublish
    else Nil
  }

  /**
    The goroutines of a client once ServeRoom has returned: which are past their handshakes, and
    whether inbound is closed.
   */
  datatype Goroutines = Goroutines(listening: bool, publishing: bool, broadcasting: bool, closed: bool)

  function GoroutinesOf(x: Session): Goroutines {
    Goroutines(
      x.listen != ListenSpawned, x.publish != NoPublish && x.publish != PublishEnded, x.broadcast == Reading, x.closed)
  }

  /** Where the goroutines are left, given what ServeRoom returned. */
  function LeftAs(o: Outcome): Goroutines {
    if o.Refused? then Goroutines(o.why != NotListening, false, false, true) else Goroutines(true, true, true, false)
  }

  /** The same set-up in the transition system, with no other step in between. */
  function Undisturbed(x: Session, joined: Message, next: int, c: Calls): Session
    requires x == NewSession(x.member, x.home)
    requires joined == NewMemberJoinedMessage(x.member, joined.id).(sent := joined.sent)
  {
    if !c.listening then Act(Act(x, ListenExpired), CloseInbound)
    else
      var y := Act(x, ListenReady);
      if !c.broadcasting then Act(Act(Act(y, BroadcastExpired), CloseInbound), StopBroadcast)
      else Admitted(Act(y, BroadcastReady), joined, next, c)
  }

  function Admitted(x: Session, joined: Message, next: int, c: Calls): Session
    requires x.serve == InsertingMember && x.publish == Selecting && x.broadcast == Held
    requires joined == NewMemberJoinedMessage(x.member, joined.id).(sent := joined.sent)
  {
    if !c.memberStored then Act(Act(Act(x, InsertMemberFails), CloseInbound), StopBroadcast)
    else Act(AfterPublish(Join(Save(x, JoinedRow, joined), next), c.published), StartBroadcast)
  }

  /** The transition system, undisturbed, sets a member up as the sequential ServeRoom does. */
  lemma UndisturbedOutcome(member: Member, home: string, joined: Message, next: int, c: Calls)
    requires joined == NewMemberJoinedMessage(member, joined.id).(sent := joined.sent)
    ensures var x := Undisturbed(NewSession(member, home), joined, next, c);
            && x.serve == Returned(OutcomeOf(c)) && GoroutinesOf(x) == LeftAs(OutcomeOf(c))
            && x.saved == (if OutcomeOf(c).Refused? then [] else [joined])
            && x.published == (if OutcomeOf(c) == Nil then [joined] else [])
  {
  }

  class Controller {
    var roomCache: map<string, Room>
    var rooms: set<string>            // roomRepo
    const memberRepo: MemberRepo.Repo
    const queue: Queue

    /** Whatever the cache hands out is a room that runs: started, subscribed and not closed. */
    ghost predicate Valid()
      reads this`roomCache, roomCache.Values`started, roomCache.Values`subscribed, roomCache.Values`closed
    {
      forall id :: id in roomCache ==>
        roomCache[id].id == id && roomCache[id].started && roomCache[id].subscribed && !roomCache[id].closed
    }

    constructor (memberRepo: MemberRepo.Repo, queue: Queue)
      ensures Valid() && roomCache == map[] && rooms == {} && this.memberRepo == memberRepo && this.queue == queue
    {
      roomCache, rooms := map[], {};
      this.memberRepo, this.queue := memberRepo, queue;
    }

    /** startRoom and Subscribe for a room just put into the cache; on failure it is closed and taken out again. */
    method Launch(room: Room, c: Calls) returns (ok: bool)
      requires room.id in roomCache && roomCache[room.id] == room && !room.closed
      modifies this`roomCache, room`started, room`subscribed, room`closed
      ensures ok == (c.started && c.subscribed)
      ensures ok ==> roomCache == old(roomCache) && room.started && room.subscribed && !room.closed
      ensures !ok ==> roomCache == old(roomCache) - {room.id} && room.closed
    {
      if !c.started {
        room.CloseInbound();
        roomCache := roomCache - {room.id};
        return false;
      }
      room.started := true;
      if !c.subscribed {
        room.CloseInbound();
        roomCache := roomCache - {room.id};
        return false;
      }
      room.subscribed := true;
      ok := true;
    }

    /** `id` is the room hash. All or nothing: cache and room repository both get the room, or neither. */
    method CreateRoom(id: string, c: Calls) returns (room: Room, ok: bool)
      requires Valid()
      modifies this
      ensures Valid() && fresh(room) && room.id == id && room.members == map[]
      ensures ok == (c.started && c.subscribed && c.roomStored)
      ensures room.closed == !ok
      ensures roomCache == if ok then old(roomCache)[id := room] else old(roomCache) - {id}
      ensures rooms == if ok then old(rooms) + {id} else old(rooms)
    {
      room := new Room(id);
      roomCache := roomCache[id := room];
      ok := Launch(room, c);
      if !ok {
        return;
      }
      if !c.roomStored {
        room.CloseInbound();
        roomCache := roomCache - {id};
        ok := false;
        return;
      }
      rooms := rooms + {id};
    }

    /** The room to serve: from the cache, or fetched, cached and launched. */
    method RoomToServe(roomId: string, c: Calls) returns (room: Room?, failed: Served)
      requires Valid()
      modifies this`roomCache
      ensures Valid()
      ensures room != null <==> roomId in old(roomCache) || (c.found && c.started && c.subscribed)
      ensures room == null ==>
                failed == if !c.found then RoomNotFound else if !c.started then RoomNotReady else NotSubscribed
      ensures room == null ==> roomCache == old(roomCache) && roomId !in roomCache
      ensures room != null ==>
          roomId in roomCache && roomCache[roomId] == room && roomCache == old(roomCache)[roomId := room]
      ensures room != null && roomId !in old(roomCache) ==> fresh(room) && room.members == map[]
      ensures roomId in old(roomCache) ==> room == old(roomCache[roomId])
    {
      failed := RoomNotFound;
      if roomId in roomCache {
        room := roomCache[roomId];
        return;
      }
      if !c.found {
        return null, failed;
      }
      var fetched := new Room(roomId);
      roomCache := roomCache[roomId := fetched];
      var ok := Launch(fetched, c);
      if !ok {
        assert roomCache == old(roomCache);
        return null, if c.started then NotSubscribed else RoomNotReady;
      }
      room := fetched;
    }

    /**
      ServeRoom from NewMember on, all or nothing. `joinedId` and `now` are the UUID and the clock reading
      the call draws.
     */
    method Admit(room: Room, client: Client, joinedId: string, now: Time, c: Calls) returns (outcome: Outcome)
      requires memberRepo.Valid() && client.inbox == [] && !client.listening && !client.publishing
      requires !client.broadcasting && !client.closed
      modifies room`members, client, memberRepo, memberRepo.messageRepo, queue
      ensures memberRepo.Valid()
      ensures outcome == OutcomeOf(c)
      ensures Goroutines(client.listening, client.publishing, client.broadcasting, client.closed) == LeftAs(outcome)
      ensures room.members ==
              if outcome.Refused? then old(room.members) else old(room.members)[client.member.id := client]
      ensures memberRepo.members ==
              if !outcome.Refused? then old(memberRepo.members)[client.member.id := client.member]
              else if outcome.why == InsertFailed then old(memberRepo.members) - {client.member.id}
              else old(memberRepo.members)
      ensures var m := client.member;
              var joined := Message(joinedId, m.roomId, m.id, m.name, MemberJoined, m.name + " joined the room.", now);
              && memberRepo.messageRepo.messages ==
                 (if outcome.Refused? then old(memberRepo.messageRepo.messages)
                  else old(memberRepo.messageRepo.messages)[joinedId := joined])
              && queue.published == old(queue.published) + (if outcome == Nil then [joined] else [])
    {
      if !c.listening {
        client.closed := true;
        return Refused(NotListening);
      }
      client.listening := true;
      client.publishing := true;
      if !c.broadcasting {
        client.closed := true;
        client.publishing := false;
        return Refused(NotBroadcasting);
      }
      var message := memberRepo.InsertMember(client.member, joinedId, now, c.memberStored);
      if message.None? {
        client.closed := true;
        client.publishing := false;
        return Refused(InsertFailed);
      }
      room.AddMember(client);
      var ok := queue.Publish(message.value, c.published);
      client.broadcasting := true;
      outcome := if ok then Nil else FailedToPublish;
    }

    /** `memberId` and `name` are the UUID and the generated name of the new member. */
    method ServeRoom(roomId: string, memberId: string, name: string, joinedId: string, now: Time, c: Calls)
      returns (served: Served, room: Room?, client: Client?)
      requires Valid() && memberRepo.Valid()
      modifies this`roomCache, roomCache.Values`members, memberRepo, memberRepo.messageRepo, queue
      ensures Valid() && memberRepo.Valid()
      // which failure, if any
      ensures served.Serving? <==> roomId in old(roomCache) || (c.found && c.started && c.subscribed)
      ensures served == RoomNotFound <==> roomId !in old(roomCache) && !c.found
      ensures served == RoomNotReady <==> roomId !in old(roomCache) && c.found && !c.started
      ensures served.Serving? ==> served.outcome == OutcomeOf(c)
      // the cache and the room
      ensures served.Serving? <==> room != null && client != null
      ensures !served.Serving? ==> roomCache == old(roomCache) && roomId !in roomCache
      ensures served.Serving? ==> roomCache == old(roomCache)[roomId := room]
      ensures served.Serving? ==> fresh(client) && client.member == Member(memberId, name, roomId)
      ensures served.Serving? ==>
                room.members ==
                var before := if roomId in old(roomCache) then old(roomCache[roomId].members) else map[];
                if served.outcome.Refused? then before else before[memberId := client]
      ensures served.Serving? && served.outcome.Refused? ==>
                client.closed && !client.publishing && !client.broadcasting
      ensures served.Accepted() ==>
                !client.closed && client.listening && client.publishing && client.broadcasting
      // the repositories and the queue: the member with its joined message, published on nil only, or nothing
      ensures memberRepo.members ==
              if served.Accepted() then
                old(memberRepo.members)[memberId := Member(memberId, name, roomId)]
              else if served == Serving(Refused(InsertFailed)) then old(memberRepo.members) - {memberId}
              else old(memberRepo.members)
      ensures var joined := Message(joinedId, roomId, memberId, name, MemberJoined, name + " joined the room.", now);
              && memberRepo.messageRepo.messages ==
                 (if served.Accepted() then
                    old(memberRepo.messageRepo.messages)[joinedId := joined]
                  else old(memberRepo.messageRepo.messages))
              && queue.published == old(queue.published) + (if served == Serving(Nil) then [joined] else [])
      // everybody else
      ensures forall id :: id in old(roomCache) && id != roomId ==>
          old(roomCache[id]).members == old(roomCache[id].members)
    {
      hide OutcomeOf;
      room, served := RoomToServe(roomId, c);
      if room == null {
        return served, null, null;
      }
      client := new Client(Member(memberId, name, roomId));
      var outcome := Admit(room, client, joinedId, now, c);
      served := Serving(outcome);
    }
  }
}
