/**
  The history endpoint (sharechat/http/server.go, GetRoomMessages) and the walk a client makes
  through it: each request passes the `next` string of the response before as `before`.
 */
module Handler {
  import opened Wrappers
  import opened Rfc3339
  import opened Messages
  import Base64
  import opened History
  import opened Walk
  import Cursor
  import MessageRepo

  /** The `limit` query parameter as strconv.Atoi sees it. */
  datatype LimitParam = Absent | NotANumber | Number(value: int)

  /** Query parameters; an empty string is an absent cursor. */
  datatype Request = Request(limit: LimitParam, after: string, before: string)

  datatype Response = BadRequest | Page(messages: seq<Message>, numResults: nat, next: string)

  /**
    Timestamps come from a clock that shows whole-minute offsets and four-digit years; IDs are
    comma-free byte strings.
   */
  ghost predicate Printable(m: Message) {
    && Coherent(m.sent) && 0 <= m.sent.civil.year <= 9999 && m.sent.civil.offset % 60 == 0
    && Base64.IsBytes(m.id) && ',' !in m.id && m.id != ""
  }

  ghost predicate PrintableStore(store: Store) {
    forall id :: id in store ==> Printable(store[id])
  }

  /** What holds of every stored message: Sent is a time.Time and the ID is a string of bytes. */
  ghost predicate WellFormedStore(store: Store) {
    forall id :: id in store ==> Cursor.WellFormed(CursorOf(store[id]))
  }

  ghost function NextOf(messages: seq<Message>): string
    requires messages != [] ==> Cursor.WellFormed(LastCursor(messages))
  {
    if messages == [] then "" else Cursor.Encode(LastCursor(messages))
  }

  /** The `limit` parameter is absent or a number that is not negative. */
  predicate Asks(limit: LimitParam) {
    limit.Absent? || (limit.Number? && limit.value >= 0)
  }

  function LimitOf(limit: LimitParam): int {
    if limit.Number? then limit.value else 0
  }

  /** What the endpoint promises over a repository holding `store`. */
  ghost predicate Answers(store: Store, roomId: string, r: Request, response: Response) {
    var after := Cursor.DecodeFromString(EMPTY_CURSOR, r.after);
    var before := Cursor.DecodeFromString(EMPTY_CURSOR, r.before);
    if !Asks(r.limit) || after.error.Some? || before.error.Some?
       || (!after.cursor.IsEmpty() && !before.cursor.IsEmpty())
    then response == BadRequest
    else
      && response.Page?
      && IsPage(store, GetMessageOptions(LimitOf(r.limit), roomId, after.cursor, before.cursor), response.messages)
      && response.numResults == |response.messages|
      && (response.messages != [] ==> Cursor.WellFormed(LastCursor(response.messages)))
      && response.next == NextOf(response.messages)
  }

  method GetRoomMessages(repo: MessageRepo.Repo, roomId: string, r: Request) returns (response: Response)
    requires repo.Valid() && WellFormedStore(repo.messages)
    ensures Answers(repo.messages, roomId, r, response)
    ensures response.Page? ==> response.numResults == |response.messages|
    ensures response.Page? ==>
              (response.next == "" <==> response.messages == [] || LastCursor(response.messages).IsEmpty())
  {
    hide Cursor.DecodeFromString, Cursor.Encode, Cursor.WellFormed, IsPage;
    EmptyDecodes();
    var options := GetMessageOptions(0, roomId, EMPTY_CURSOR, EMPTY_CURSOR);
    if r.limit.NotANumber? {
      return BadRequest;
    }
    if r.limit.Number? {
      options := options.(limit := r.limit.value);
    }
    if r.after != "" {
      var decoded := Cursor.DecodeFromString(EMPTY_CURSOR, r.after);
      if decoded.error.Some? {
        return BadRequest;
      }
      options := options.(after := decoded.cursor);
    }
    if r.before != "" {
      var decoded := Cursor.DecodeFromString(EMPTY_CURSOR, r.before);
      if decoded.error.Some? {
        return BadRequest;
      }
      options := options.(before := decoded.cursor);
    }
    if Validate(options) != None {
      return BadRequest;
    }
    var messages := repo.GetMessages(options);
    var nextCursor := EMPTY_CURSOR;
    if |messages| > 0 {
      var last := messages[|messages| - 1];
      PageIsStored(repo.messages, options, messages);
      nextCursor := MessageCursor(last.id, last.sent);
    }
    response := Page(messages, |messages|, Cursor.Encode(nextCursor));
  }

  lemma EmptyDecodes()
    ensures Cursor.DecodeFromString(EMPTY_CURSOR, "") == Cursor.Decoded(EMPTY_CURSOR, None)
    ensures Cursor.WellFormed(EMPTY_CURSOR)
  {
    assert DaysBeforeMonth(1, 1) == 0;
  }

  lemma PageIsStored(store: Store, o: GetMessageOptions, messages: seq<Message>)
    requires IsPage(store, o, messages) && messages != []
    ensures var last := messages[|messages| - 1]; last.id in store && store[last.id] == last
  {
  }

  /** `text` is how a client holds `cursor`; the empty string holds the empty cursor. */
  ghost predicate Holds(text: string, cursor: MessageCursor) {
    Cursor.DecodeFromString(EMPTY_CURSOR, text) == Cursor.Decoded(cursor, None)
  }

  /**
    A string handed out for a page brings back the cursor of its last message, and is empty only for an
    empty page.
   */
  lemma NextHoldsLast(store: Store, roomId: string, r: Request, response: Response)
    requires PrintableStore(store) && Answers(store, roomId, r, response) && response.Page?
    ensures response.next == "" <==> response.messages == []
    ensures response.messages != [] ==> Holds(response.next, LastCursor(response.messages))
    ensures response.messages != [] ==> !LastCursor(response.messages).IsEmpty()
  {
    var messages := response.messages;
    if messages != [] {
      var last := messages[|messages| - 1];
      assert last.id in store && store[last.id] == last;
      Cursor.PortableRoundTrip(LastCursor(messages));
    }
  }

  // Which requests are answered, and with what ------------------------------------------------------

  /**
    A request that names at most one position, in a string that holds a cursor, and no negative limit is
    answered: by the page in front of that position, the page behind it, or the newest one. Without a
    limit the page holds everything that matches.
   */
  lemma AnsweredAsAsked(store: Store, roomId: string, limit: LimitParam, text: string, cursor: MessageCursor,
                        backward: Response, forward: Response)
    requires Asks(limit) && Holds(text, cursor)
    requires Answers(store, roomId, Request(limit, "", text), backward)
    requires Answers(store, roomId, Request(limit, text, ""), forward)
    ensures backward.Page? && IsPage(store, Before(LimitOf(limit), roomId, cursor), backward.messages)
    ensures forward.Page? && IsPage(store, After(LimitOf(limit), roomId, cursor), forward.messages)
    ensures limit.Absent? ==>
              && Ids(backward.messages) == MatchingIds(store, Before(0, roomId, cursor))
              && Ids(forward.messages) == MatchingIds(store, After(0, roomId, cursor))
  {
    hide IsPage, Cursor.DecodeFromString, Cursor.WellFormed;
    EmptyDecodes();
    if limit.Absent? {
      WholePage(store, Before(0, roomId, cursor), backward.messages);
      WholePage(store, After(0, roomId, cursor), forward.messages);
    }
  }

  lemma WholePage(store: Store, o: GetMessageOptions, page: seq<Message>)
    requires IsPage(store, o, page) && o.limit == 0
    ensures Ids(page) == MatchingIds(store, o)
  {
    IdsCount(page);
    SameSize(Ids(page), MatchingIds(store, o));
  }

  lemma SameSize(a: set<string>, b: set<string>)
    requires a <= b && |a| == |b|
    ensures a == b
  {
    assert b == a + (b - a);
  }

  /** A limit that is negative or no number, a string that does not decode, or two positions at once is refused. */
  lemma RefusedExactly(store: Store, roomId: string, r: Request, response: Response)
    requires Answers(store, roomId, r, response)
    ensures response == BadRequest <==>
            || r.limit.NotANumber? || (r.limit.Number? && r.limit.value < 0)
            || Cursor.DecodeFromString(EMPTY_CURSOR, r.after).error.Some?
            || Cursor.DecodeFromString(EMPTY_CURSOR, r.before).error.Some?
            || exists after, before ::
                 Holds(r.after, after) && Holds(r.before, before) && !after.IsEmpty() && !before.IsEmpty()
  {
    hide IsPage, Cursor.DecodeFromString, Cursor.WellFormed;
    var after := Cursor.DecodeFromString(EMPTY_CURSOR, r.after);
    var before := Cursor.DecodeFromString(EMPTY_CURSOR, r.before);
    if after.error.None? && before.error.None? {
      assert Holds(r.after, after.cursor) && Holds(r.before, before.cursor);
    }
  }

  // A client that reads backward --------------------------------------------------------------------

  /** One request of a client and the store it met. */
  datatype Exchange = Exchange(store: Store, log: seq<Message>, response: Response)

  /** The client goes on as long as it is handed a `next`. */
  predicate HandsOn(response: Response) {
    response.Page? && response.next != ""
  }

  /**
    A client that always asks with the same limit and passes `next` on as `before`, starting from the
    string `before`. Other goroutines may insert between its requests.
   */
  ghost predicate IsClientWalk(walk: seq<Exchange>, limit: LimitParam, roomId: string, before: string) {
    && walk != []
    && PrintableStore(walk[0].store)
    && IsLog(walk[0].store, walk[0].log)
    && Answers(walk[0].store, roomId, Request(limit, "", before), walk[0].response)
    && (HandsOn(walk[0].response) <==> |walk| > 1)
    && (|walk| > 1 ==>
          && walk[0].log <= walk[1].log
          && IsClientWalk(walk[1..], limit, roomId, walk[0].response.next))
  }

  predicate AllPages(walk: seq<Exchange>) {
    forall k :: 0 <= k < |walk| ==> walk[k].response.Page?
  }

  function Shown(walk: seq<Exchange>): seq<Message>
    requires AllPages(walk)
  {
    if walk == [] then [] else walk[0].response.messages + Shown(walk[1..])
  }

  ghost function Rounds(walk: seq<Exchange>): (rounds: seq<Round>)
    requires AllPages(walk)
    ensures |rounds| == |walk|
    ensures forall k :: 0 <= k < |walk| ==> rounds[k] == Round(walk[k].store, walk[k].log, walk[k].response.messages)
    ensures Pages(rounds) == Shown(walk)
  {
    if walk == [] then []
    else [Round(walk[0].store, walk[0].log, walk[0].response.messages)] + Rounds(walk[1..])
  }

  lemma RequestMatches(store: Store, limit: LimitParam, roomId: string, text: string, cursor: MessageCursor,
                       response: Response)
    requires Asks(limit) && Holds(text, cursor)
    ensures Answers(store, roomId, Request(limit, "", text), response) ==>
              response.Page? && IsPage(store, Before(LimitOf(limit), roomId, cursor), response.messages)
    ensures Answers(store, roomId, Request(limit, text, ""), response) ==>
              response.Page? && IsPage(store, After(LimitOf(limit), roomId, cursor), response.messages)
  {
    hide IsPage, Cursor.DecodeFromString, Cursor.WellFormed;
    EmptyDecodes();
  }

  /** Every request of such a client is answered, and through the opaque strings it makes exactly a Before walk. */
  lemma {:induction false} ClientWalksBefore(walk: seq<Exchange>, limit: LimitParam, roomId: string, before: string,
                                             cursor: MessageCursor)
    requires Asks(limit) && Holds(before, cursor)
    requires IsClientWalk(walk, limit, roomId, before)
    ensures AllPages(walk)
    ensures IsBeforeWalk(Rounds(walk), LimitOf(limit), roomId, cursor)
    ensures Last(Rounds(walk)).page == []
  {
    hide Answers, IsPage, IsLog, PrintableStore, Holds, LimitOf, Asks;
    var e, r := walk[0], Request(limit, "", before);
    RequestMatches(e.store, limit, roomId, before, cursor, e.response);
    NextHoldsLast(e.store, roomId, r, e.response);
    if |walk| > 1 {
      ClientWalksBefore(walk[1..], limit, roomId, e.response.next, LastCursor(e.response.messages));
      assert Rounds(walk)[1..] == Rounds(walk[1..]);
    }
  }

  /**
    Repeating the request with `before` set to the returned `next`, until `next` is empty, is never
    refused, and shows every message the room had at the first request exactly once, newest first.
   */
  lemma ClientSeesEverythingOnce(walk: seq<Exchange>, limit: LimitParam, roomId: string)
    requires Asks(limit) && IsClientWalk(walk, limit, roomId, "")
    ensures AllPages(walk)
    ensures Shown(walk) == Reverse(RoomLog(walk[0].log, roomId))
    ensures DistinctIds(Shown(walk))
    ensures forall m :: m in Shown(walk) <==> m in walk[0].log && InRoom(roomId, m)
    ensures limit.Number? && limit.value > 0 ==>
              |walk| - 1 == (|RoomLog(walk[0].log, roomId)| + limit.value - 1) / limit.value
  {
    hide Answers, PrintableStore, IsPage, IsLog, RoomLog, Reverse, Cursor.DecodeFromString, Cursor.WellFormed;
    var room := RoomLog(walk[0].log, roomId);
    EmptyDecodes();
    ClientWalksBefore(walk, limit, roomId, "", EMPTY_CURSOR);
    var rounds := Rounds(walk);
    BeforeWalkIsSnapshot(rounds, LimitOf(limit), roomId, EMPTY_CURSOR, |room|);
    assert room[..|room|] == room;
    RoomNewestFirst(walk[0].store, walk[0].log, roomId);
    if limit.Number? && limit.value > 0 {
      BeforeWalkPageCount(rounds, limit.value, roomId, EMPTY_CURSOR, |room|);
    }
  }

  lemma RoomNewestFirst(store: Store, log: seq<Message>, roomId: string)
    requires IsLog(store, log)
    ensures DistinctIds(Reverse(RoomLog(log, roomId)))
    ensures forall m :: m in Reverse(RoomLog(log, roomId)) <==> m in log && InRoom(roomId, m)
  {
    RoomLogOrder(log, roomId);
    RoomLogMembers(log, roomId);
    ReverseMembers(RoomLog(log, roomId));
  }

  /** The answer to a request from position `c` of the room's log. */
  lemma SomeAnswer(store: Store, log: seq<Message>, limit: LimitParam, roomId: string, before: string,
                   cursor: MessageCursor, c: nat) returns (response: Response)
    requires Asks(limit) && Holds(before, cursor) && PrintableStore(store) && IsLog(store, log)
    requires StandsAt(RoomLog(log, roomId), cursor, c)
    ensures Answers(store, roomId, Request(limit, "", before), response) && response.Page?
    ensures c <= |RoomLog(log, roomId)|
    ensures response.messages == Reverse(RoomLog(log, roomId)[Rest(c, LimitOf(limit))..c])
  {
    hide IsPage, Cursor.DecodeFromString, Cursor.Encode, IsLog, RoomLog, Reverse;
    EmptyDecodes();
    var o := Before(LimitOf(limit), roomId, cursor);
    BeforeLists(store, log, LimitOf(limit), roomId, cursor, c);
    var page := First(o.limit, Reverse(RoomLog(log, roomId)[..c]));
    FirstIsPage(store, o, Reverse(RoomLog(log, roomId)[..c]));
    BeforePage(store, log, LimitOf(limit), roomId, cursor, c, page);
    if page != [] {
      PageIsStored(store, o, page);
      assert Cursor.WellFormed(LastCursor(page));
    }
    response := Page(page, |page|, NextOf(page));
  }

  /**
    Over every store with a history, and for every limit that is asked with, there is such a client's
    walk to its end.
   */
  lemma {:induction false} ClientWalkExists(store: Store, log: seq<Message>, limit: LimitParam, roomId: string,
                                            before: string, cursor: MessageCursor, c: nat)
    returns (walk: seq<Exchange>)
    requires Asks(limit) && Holds(before, cursor) && PrintableStore(store) && IsLog(store, log)
    requires StandsAt(RoomLog(log, roomId), cursor, c)
    ensures IsClientWalk(walk, limit, roomId, before) && walk[0].store == store && walk[0].log == log
    decreases c
  {
    hide Answers, IsPage, IsLog, PrintableStore, Holds, LimitOf, Asks, RoomLog, Reverse;
    var response := SomeAnswer(store, log, limit, roomId, before, cursor, c);
    NextHoldsLast(store, roomId, Request(limit, "", before), response);
    if response.next == "" {
      walk := [Exchange(store, log, response)];
    } else {
      var at := Rest(c, LimitOf(limit));
      assert LastCursor(response.messages) == CursorOf(RoomLog(log, roomId)[at]);
      var more := ClientWalkExists(store, log, limit, roomId, response.next, LastCursor(response.messages), at);
      walk := [Exchange(store, log, response)] + more;
      assert walk[1..] == more;
    }
  }

  // A client that follows the room ------------------------------------------------------------------

  /** A client that passes `next` on as `after`, and asks again with what it has when it is handed none. */
  ghost predicate IsFollowing(walk: seq<Exchange>, limit: LimitParam, roomId: string, after: string) {
    && walk != []
    && PrintableStore(walk[0].store)
    && IsLog(walk[0].store, walk[0].log)
    && Answers(walk[0].store, roomId, Request(limit, after, ""), walk[0].response)
    && (|walk| > 1 ==>
          && walk[0].log <= walk[1].log
          && IsFollowing(walk[1..], limit, roomId, if HandsOn(walk[0].response) then walk[0].response.next else after))
  }

  lemma {:induction false} ClientWalksAfter(walk: seq<Exchange>, limit: LimitParam, roomId: string, after: string,
                                            cursor: MessageCursor)
    requires Asks(limit) && Holds(after, cursor)
    requires IsFollowing(walk, limit, roomId, after)
    ensures AllPages(walk)
    ensures IsAfterWalk(Rounds(walk), LimitOf(limit), roomId, cursor)
  {
    hide Answers, IsPage, IsLog, PrintableStore, Holds, LimitOf, Asks;
    var e, r := walk[0], Request(limit, after, "");
    RequestMatches(e.store, limit, roomId, after, cursor, e.response);
    NextHoldsLast(e.store, roomId, r, e.response);
    if |walk| > 1 {
      var next := if HandsOn(e.response) then e.response.next else after;
      ClientWalksAfter(walk[1..], limit, roomId, next, Onward(cursor, e.response.messages));
      assert Rounds(walk)[1..] == Rounds(walk[1..]);
    }
  }

  /**
    A client that follows a room from one of its messages on is never refused; it is shown, in order and
    without a gap, what was inserted after that message, and an empty page means it has caught up.
   */
  lemma ClientFollowsRoom(walk: seq<Exchange>, limit: LimitParam, roomId: string, after: string,
                          cursor: MessageCursor, c: nat)
    requires Asks(limit) && Holds(after, cursor) && !cursor.IsEmpty()
    requires IsFollowing(walk, limit, roomId, after)
    requires StandsAt(RoomLog(walk[0].log, roomId), cursor, c)
    ensures AllPages(walk)
    ensures var room, seen := RoomLog(walk[|walk| - 1].log, roomId), Shown(walk);
            && c + 1 + |seen| <= |room|
            && seen == room[c + 1..c + 1 + |seen|]
            && (walk[|walk| - 1].response.messages == [] ==> c + 1 + |seen| == |room|)
  {
    hide Answers, IsPage, IsLog, RoomLog, PrintableStore, Holds;
    ClientWalksAfter(walk, limit, roomId, after, cursor);
    AfterWalkFollows(Rounds(walk), LimitOf(limit), roomId, cursor, c);
  }
}
