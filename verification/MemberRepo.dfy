/** The in-memory member repository (sharechat/memory/member.go). */
module MemberRepo {
  import opened Wrappers
  import opened Rfc3339
  import opened Messages
  import MessageRepo

  /** A listing of the members of one room: all of them, each once. */
  ghost predicate ListsRoom(members: map<string, Member>, roomId: string, s: seq<Member>) {
    && (forall m :: m in s <==> m.id in members && members[m.id] == m && m.roomId == roomId)
    && (forall i, j :: 0 <= i < j < |s| ==> s[i].id != s[j].id)
  }

  class Repo {
    var members: map<string, Member>
    const messageRepo: MessageRepo.Repo

    ghost predicate Valid()
      reads this, messageRepo
    {
      messageRepo.Valid() && forall id :: id in members ==> members[id].id == id
    }

    constructor (messageRepo: MessageRepo.Repo)
      requires messageRepo.Valid()
      ensures Valid() && members == map[] && this.messageRepo == messageRepo
    {
      members := map[];
      this.messageRepo := messageRepo;
    }

    /**
      `id` is the UUID drawn for the joined message, `now` the clock reading at which it is stored, and
      `accepts` whether the message repository takes it. The rollback removes the member; that brings
      back the state before the call exactly when the member was not there already.
     */
    method InsertMember(member: Member, id: string, now: Time, accepts: bool) returns (result: Option<Message>)
      requires Valid()
      modifies this, messageRepo
      ensures Valid()
      ensures var text := member.name + " joined the room.";
              result ==
              if accepts then Some(Message(id, member.roomId, member.id, member.name, MemberJoined, text, now))
                  else None
      ensures members == if accepts then old(members)[member.id := member] else old(members) - {member.id}
      ensures messageRepo.messages ==
              if accepts then old(messageRepo.messages)[id := result.value] else old(messageRepo.messages)
      ensures !accepts ==> (members == old(members) <==> member.id !in old(members))
    {
      members := members[member.id := member];
      var message := NewMemberJoinedMessage(member, id);
      if !accepts {
        members := members - {member.id};
        return None;
      }
      var stored := messageRepo.InsertMessage(message, now);
      result := Some(stored);
    }

    /** The left message is stored first; when that fails the member stays. */
    method DeleteMember(member: Member, id: string, now: Time, accepts: bool) returns (result: Option<Message>)
      requires Valid()
      modifies this, messageRepo
      ensures Valid()
      ensures var text := member.name + " left the room.";
              result ==
              if accepts then Some(Message(id, member.roomId, member.id, member.name, MemberLeft, text, now)) else None
      ensures members == if accepts then old(members) - {member.id} else old(members)
      ensures messageRepo.messages ==
              if accepts then old(messageRepo.messages)[id := result.value] else old(messageRepo.messages)
    {
      var message := NewMemberLeftMessage(member, id);
      if !accepts {
        return None;
      }
      var stored := messageRepo.InsertMessage(message, now);
      members := members - {member.id};
      result := Some(stored);
    }

    method GetMembersByRoom(roomId: string) returns (found: seq<Member>)
      requires Valid()
      ensures ListsRoom(members, roomId, found)
    {
      found := [];
      var left := members.Keys;
      while left != {}
        invariant left <= members.Keys
        invariant ListsRoom(map id | id in members && id !in left :: members[id], roomId, found)
        decreases left
      {
        var id :| id in left;
        ghost var seen := map j | j in members && j !in left :: members[j];
        left := left - {id};
        ListOneMore(members, seen, id, roomId, found);
        if members[id].roomId == roomId {
          found := found + [members[id]];
        }
        assert (map j | j in members && j !in left :: members[j]) == seen[id := members[id]];
      }
      assert (map id | id in members && id !in left :: members[id]) == members;
    }
  }

  lemma ListOneMore(members: map<string, Member>, seen: map<string, Member>, id: string, roomId: string,
                    found: seq<Member>)
    requires ListsRoom(seen, roomId, found)
    requires id in members && id !in seen && members[id].id == id
    ensures var more := if members[id].roomId == roomId then [members[id]] else [];
            ListsRoom(seen[id := members[id]], roomId, found + more)
  {
    forall m | m in found ensures m.id != id {
      assert m.id in seen;
    }
  }
}
