/**
  Paging through history over the in-memory repository: whole walks, in which each request's cursor
  names the last message of the page before, while other goroutines insert between requests.
 */
module Walk {
  import opened Messages
  import opened History

  ghost predicate Increasing(log: seq<Message>) {
    forall i, j :: 0 <= i < j < |log| ==> log[i].sent.instant < log[j].sent.instant
  }

  /**
    `log` is the store's insertion history. It exists when message IDs are fresh and non-empty and
    each clock reading, taken under the lock, is later than the ones before.
   */
  ghost predicate IsLog(store: Store, log: seq<Message>) {
    && Increasing(log)
    && DistinctIds(log)
    && Ids(log) == store.Keys
    && (forall k :: 0 <= k < |log| ==> log[k].id != "" && log[k].id in store && store[log[k].id] == log[k])
  }

  lemma InsertExtendsLog(store: Store, log: seq<Message>, m: Message)
    requires IsLog(store, log)
    requires m.id != "" && m.id !in store
    requires forall k :: 0 <= k < |log| ==> log[k].sent.instant < m.sent.instant
    ensures IsLog(store[m.id := m], log + [m])
  {
    var next := log + [m];
    forall k | 0 <= k < |log| ensures log[k].id in store && log[k].id != m.id {
      assert log[k].id in Ids(log);
    }
    assert Ids(next) == Ids(log) + {m.id} by {
      assert next[|log|].id == m.id;
      assert forall k :: 0 <= k < |log| ==> next[k] == log[k];
    }
  }

  predicate InRoom(roomId: string, m: Message) {
    roomId != "" ==> m.roomId == roomId
  }

  /** The part of the insertion history that belongs to one room (to any room when roomId is empty). */
  function RoomLog(log: seq<Message>, roomId: string): seq<Message> {
    if log == [] then []
    else
      var rest := RoomLog(log[..|log| - 1], roomId);
      var last := log[|log| - 1];
      if InRoom(roomId, last) then rest + [last] else rest
  }

  lemma {:induction false} RoomLogMembers(log: seq<Message>, roomId: string)
    ensures forall m :: m in RoomLog(log, roomId) <==> m in log && InRoom(roomId, m)
  {
    if log != [] {
      var init := log[..|log| - 1];
      RoomLogMembers(init, roomId);
      assert log == init + [log[|log| - 1]];
    }
  }

  lemma {:induction false} RoomLogOrder(log: seq<Message>, roomId: string)
    requires Increasing(log) && DistinctIds(log)
    ensures Increasing(RoomLog(log, roomId)) && DistinctIds(RoomLog(log, roomId))
  {
    if log != [] {
      var init := log[..|log| - 1];
      RoomLogOrder(init, roomId);
      RoomLogMembers(init, roomId);
      var rest := RoomLog(init, roomId);
      forall k | 0 <= k < |rest|
        ensures rest[k].sent.instant < log[|log| - 1].sent.instant && rest[k].id != log[|log| - 1].id {
        assert rest[k] in init;
      }
    }
  }

  lemma {:induction false} RoomLogExtends(log: seq<Message>, longer: seq<Message>, roomId: string)
    requires log <= longer
    ensures RoomLog(log, roomId) <= RoomLog(longer, roomId)
    decreases |longer|
  {
    if |log| < |longer| {
      RoomLogExtends(log, longer[..|longer| - 1], roomId);
    } else {
      assert log == longer;
    }
  }

  function Reverse(s: seq<Message>): (r: seq<Message>)
    ensures |r| == |s|
    ensures forall k :: 0 <= k < |s| ==> r[k] == s[|s| - 1 - k]
  {
    seq(|s|, i requires 0 <= i < |s| => s[|s| - 1 - i])
  }

  lemma ReverseMembers(s: seq<Message>)
    ensures forall m :: m in Reverse(s) <==> m in s
  {
    forall k | 0 <= k < |s| ensures s[k] in Reverse(s) {
      assert Reverse(s)[|s| - 1 - k] == s[k];
    }
  }

  function CursorOf(m: Message): MessageCursor {
    MessageCursor(m.id, m.sent)
  }

  function Before(limit: int, roomId: string, cursor: MessageCursor): GetMessageOptions {
    GetMessageOptions(limit, roomId, EMPTY_CURSOR, cursor)
  }

  function After(limit: int, roomId: string, cursor: MessageCursor): GetMessageOptions {
    GetMessageOptions(limit, roomId, cursor, EMPTY_CURSOR)
  }

  /** The cursor stands at position `c` of the room's log; an empty one stands past the end. */
  ghost predicate StandsAt(room: seq<Message>, cursor: MessageCursor, c: nat) {
    if cursor.IsEmpty() then c == |room| else c < |room| && cursor == CursorOf(room[c])
  }

  /** What one Before request can match: everything the room had up to the cursor, newest first. */
  lemma BeforeLists(store: Store, log: seq<Message>, limit: int, roomId: string, cursor: MessageCursor, c: nat)
    requires IsLog(store, log)
    requires StandsAt(RoomLog(log, roomId), cursor, c)
    ensures Lists(store, Before(limit, roomId, cursor), Reverse(RoomLog(log, roomId)[..c]))
  {
    hide RoomLog;
    var room, o := RoomLog(log, roomId), Before(limit, roomId, cursor);
    RoomLogOrder(log, roomId);
    RoomLogMembers(log, roomId);
    var listing := Reverse(room[..c]);
    forall k | 0 <= k < |room| ensures room[k].id in store && store[room[k].id] == room[k] && room[k].id != "" {
      assert room[k] in log;
    }
    forall k | 0 <= k < |room| ensures Matches(o, room[k]) <==> k < c {
      assert room[k] in room && InRoom(roomId, room[k]);
    }
    ReverseMembers(room[..c]);
    assert room[0..c] == room[..c];
    ListingIds(store, log, o, room, listing, 0, c);
  }

  lemma AfterLists(store: Store, log: seq<Message>, limit: int, roomId: string, cursor: MessageCursor, c: nat)
    requires IsLog(store, log)
    requires !cursor.IsEmpty() && StandsAt(RoomLog(log, roomId), cursor, c)
    ensures Lists(store, After(limit, roomId, cursor), RoomLog(log, roomId)[c + 1..])
  {
    hide RoomLog;
    var room, o := RoomLog(log, roomId), After(limit, roomId, cursor);
    RoomLogOrder(log, roomId);
    RoomLogMembers(log, roomId);
    var listing := room[c + 1..];
    forall k | 0 <= k < |room| ensures room[k].id in store && store[room[k].id] == room[k] && room[k].id != "" {
      assert room[k] in log;
    }
    forall k | 0 <= k < |room| ensures Matches(o, room[k]) <==> c < k {
      assert room[k] in room && InRoom(roomId, room[k]);
    }
    ListingIds(store, log, o, room, listing, c + 1, |room|);
  }

  lemma ListingIds(store: Store, log: seq<Message>, o: GetMessageOptions, room: seq<Message>, listing: seq<Message>,
                   lo: nat, hi: nat)
    requires IsLog(store, log) && room == RoomLog(log, o.roomId)
    requires lo <= hi <= |room|
    requires forall k :: 0 <= k < |room| ==> room[k].id in store && store[room[k].id] == room[k]
    requires forall k :: 0 <= k < |room| ==> (Matches(o, room[k]) <==> lo <= k < hi)
    requires forall m :: m in listing <==> m in room[lo..hi]
    ensures Ids(listing) == MatchingIds(store, o)
  {
    forall id | id in MatchingIds(store, o) ensures id in Ids(listing) {
      assert id in Ids(log);
      var j :| 0 <= j < |log| && log[j].id == id;
      RoomLogMembers(log, o.roomId);
      assert log[j] in room;
      var k :| 0 <= k < |room| && room[k] == log[j];
      assert room[lo..hi][k - lo] == log[j];
      assert log[j] in listing;
    }
    forall k | 0 <= k < |listing| ensures listing[k].id in MatchingIds(store, o) {
      assert listing[k] in room[lo..hi];
    }
  }

  /** One request of a walk: the store it met, that store's history, and the page it got. */
  datatype Round = Round(store: Store, log: seq<Message>, page: seq<Message>)

  function Pages(rounds: seq<Round>): seq<Message> {
    if rounds == [] then [] else rounds[0].page + Pages(rounds[1..])
  }

  function LastCursor(page: seq<Message>): MessageCursor
    requires page != []
  {
    CursorOf(page[|page| - 1])
  }

  /**
    A walk by `before`: the first request carries `cursor`, every later one the cursor of the last
    message of the page before it. Between requests the history only grows.
   */
  ghost predicate IsBeforeWalk(rounds: seq<Round>, limit: int, roomId: string, cursor: MessageCursor) {
    && rounds != []
    && IsLog(rounds[0].store, rounds[0].log)
    && IsPage(rounds[0].store, Before(limit, roomId, cursor), rounds[0].page)
    && (|rounds| > 1 ==>
          && rounds[0].page != []
          && rounds[0].log <= rounds[1].log
          && IsBeforeWalk(rounds[1..], limit, roomId, LastCursor(rounds[0].page)))
  }

  /** Where one stands after a page: at its last message, or where one stood when it is empty. */
  function Onward(cursor: MessageCursor, page: seq<Message>): MessageCursor {
    if page == [] then cursor else LastCursor(page)
  }

  /** A walk by `after`; one that has caught up may ask again with the cursor it has. */
  ghost predicate IsAfterWalk(rounds: seq<Round>, limit: int, roomId: string, cursor: MessageCursor) {
    && rounds != []
    && IsLog(rounds[0].store, rounds[0].log)
    && IsPage(rounds[0].store, After(limit, roomId, cursor), rounds[0].page)
    && (|rounds| > 1 ==>
          && rounds[0].log <= rounds[1].log
          && IsAfterWalk(rounds[1..], limit, roomId, Onward(cursor, rounds[0].page)))
  }

  function Last(rounds: seq<Round>): Round
    requires rounds != []
  {
    rounds[|rounds| - 1]
  }

  /** Messages left after one page out of `c`. */
  function Rest(c: nat, limit: int): nat {
    if 0 < limit < c then c - limit else 0
  }

  /** Messages left after `n` pages out of `c`. */
  function Unseen(c: nat, limit: int, n: nat): (left: nat)
    ensures left <= c
  {
    if n == 0 then c else Unseen(Rest(c, limit), limit, n - 1)
  }

  /** One page of a Before walk, by positions in the room's log. */
  lemma BeforePage(store: Store, log: seq<Message>, limit: int, roomId: string, cursor: MessageCursor, c: nat,
                   page: seq<Message>)
    requires IsLog(store, log)
    requires StandsAt(RoomLog(log, roomId), cursor, c)
    requires IsPage(store, Before(limit, roomId, cursor), page)
    ensures c <= |RoomLog(log, roomId)|
    ensures page == Reverse(RoomLog(log, roomId)[Rest(c, limit)..c])
  {
    var room := RoomLog(log, roomId);
    BeforeLists(store, log, limit, roomId, cursor, c);
    PageIsFirst(store, Before(limit, roomId, cursor), Reverse(room[..c]), page);
  }

  lemma NamesMessage(store: Store, log: seq<Message>, roomId: string, k: nat)
    requires IsLog(store, log) && k < |RoomLog(log, roomId)|
    ensures !CursorOf(RoomLog(log, roomId)[k]).IsEmpty()
  {
    RoomLogMembers(log, roomId);
    assert RoomLog(log, roomId)[k] in log;
  }

  /** The second request of a walk stands, in the grown log, where the first page ended. */
  lemma BeforeNext(rounds: seq<Round>, limit: int, roomId: string, cursor: MessageCursor, c: nat)
    requires IsBeforeWalk(rounds, limit, roomId, cursor) && |rounds| > 1
    requires StandsAt(RoomLog(rounds[0].log, roomId), cursor, c)
    ensures Rest(c, limit) < c <= |RoomLog(rounds[0].log, roomId)|
    ensures StandsAt(RoomLog(rounds[1].log, roomId), LastCursor(rounds[0].page), Rest(c, limit))
    ensures RoomLog(rounds[0].log, roomId) <= RoomLog(rounds[1].log, roomId)
  {
    hide IsPage, IsLog, RoomLog, Reverse, Before, After;
    var r := rounds[0];
    BeforePage(r.store, r.log, limit, roomId, cursor, c, r.page);
    RoomLogExtends(r.log, rounds[1].log, roomId);
    NamesMessage(r.store, r.log, roomId, Rest(c, limit));
  }

  lemma NoPages()
    ensures Pages([]) == []
  {
  }

  /** Nothing is skipped, repeated or reordered at any point of a walk, finished or not. */
  lemma {:induction false} BeforeWalkContiguous(rounds: seq<Round>, limit: int, roomId: string,
                                                cursor: MessageCursor, c: nat)
    requires IsBeforeWalk(rounds, limit, roomId, cursor)
    requires StandsAt(RoomLog(rounds[0].log, roomId), cursor, c)
    ensures c <= |RoomLog(rounds[0].log, roomId)|
    ensures Pages(rounds) == Reverse(RoomLog(rounds[0].log, roomId)[Unseen(c, limit, |rounds|)..c])
  {
    hide IsPage, IsLog, RoomLog, Reverse, Before, After;
    var room := RoomLog(rounds[0].log, roomId);
    var mid := Rest(c, limit);
    BeforePage(rounds[0].store, rounds[0].log, limit, roomId, cursor, c, rounds[0].page);
    assert Unseen(c, limit, |rounds|) == Unseen(mid, limit, |rounds| - 1);
    assert Pages(rounds) == rounds[0].page + Pages(rounds[1..]);
    hide Rest, StandsAt, Pages;
    if |rounds| == 1 {
      assert Pages([]) == [] by { NoPages(); }
      assert rounds[1..] == [];
    } else {
      hide Unseen;
      var left := Unseen(c, limit, |rounds|);
      BeforeNext(rounds, limit, roomId, cursor, c);
      BeforeWalkContiguous(rounds[1..], limit, roomId, LastCursor(rounds[0].page), mid);
      JoinReversed(room, RoomLog(rounds[1].log, roomId), left, mid, c);
    }
  }

  lemma {:induction false} BeforeWalkDone(rounds: seq<Round>, limit: int, roomId: string, cursor: MessageCursor, c: nat)
    requires IsBeforeWalk(rounds, limit, roomId, cursor)
    requires StandsAt(RoomLog(rounds[0].log, roomId), cursor, c)
    ensures Last(rounds).page == [] <==> Unseen(c, limit, |rounds| - 1) == 0
  {
    hide IsPage, IsLog, RoomLog, Reverse, Before, After;
    BeforePage(rounds[0].store, rounds[0].log, limit, roomId, cursor, c, rounds[0].page);
    if |rounds| > 1 {
      BeforeNext(rounds, limit, roomId, cursor, c);
      BeforeWalkDone(rounds[1..], limit, roomId, LastCursor(rounds[0].page), Rest(c, limit));
    }
  }

  lemma JoinReversed(s: seq<Message>, longer: seq<Message>, lo: nat, mid: nat, hi: nat)
    requires s <= longer
    requires lo <= mid <= hi <= |s|
    ensures Reverse(s[mid..hi]) + Reverse(longer[lo..mid]) == Reverse(s[lo..hi])
  {
    assert longer[lo..mid] == s[lo..mid];
  }

  /**
    Snapshot stability: however the store grows between requests, a Before walk run to its empty
    page returns the messages the room had at the first request, each once, newest first.
   */
  lemma BeforeWalkIsSnapshot(rounds: seq<Round>, limit: int, roomId: string, cursor: MessageCursor, c: nat)
    requires IsBeforeWalk(rounds, limit, roomId, cursor)
    requires StandsAt(RoomLog(rounds[0].log, roomId), cursor, c)
    requires Last(rounds).page == []
    ensures c <= |RoomLog(rounds[0].log, roomId)|
    ensures Pages(rounds) == Reverse(RoomLog(rounds[0].log, roomId)[..c])
  {
    BeforeWalkContiguous(rounds, limit, roomId, cursor, c);
    BeforeWalkDone(rounds, limit, roomId, cursor, c);
    UnseenStays(c, limit, |rounds| - 1);
    assert RoomLog(rounds[0].log, roomId)[0..c] == RoomLog(rounds[0].log, roomId)[..c];
  }

  lemma {:induction false} UnseenStays(c: nat, limit: int, n: nat)
    requires Unseen(c, limit, n) == 0
    ensures Unseen(c, limit, n + 1) == 0
  {
    if n > 0 {
      UnseenStays(Rest(c, limit), limit, n - 1);
    }
  }

  /** A walk is finished exactly after ceil(c / limit) non-empty requests and one empty one. */
  lemma {:induction false} BeforeWalkPageCount(rounds: seq<Round>, limit: int, roomId: string, cursor: MessageCursor,
                                               c: nat)
    requires limit > 0
    requires IsBeforeWalk(rounds, limit, roomId, cursor)
    requires StandsAt(RoomLog(rounds[0].log, roomId), cursor, c)
    ensures |rounds| - 1 <= (c + limit - 1) / limit
    ensures Last(rounds).page == [] <==> |rounds| - 1 == (c + limit - 1) / limit
  {
    hide IsPage, IsLog, RoomLog, Reverse, Before, After;
    BeforePage(rounds[0].store, rounds[0].log, limit, roomId, cursor, c, rounds[0].page);
    if |rounds| == 1 {
      CeilStep(c, limit);
    } else {
      BeforeNext(rounds, limit, roomId, cursor, c);
      BeforeWalkPageCount(rounds[1..], limit, roomId, LastCursor(rounds[0].page), Rest(c, limit));
      CeilStep(c, limit);
    }
  }

  lemma CeilStep(c: nat, limit: int)
    requires limit > 0
    ensures (c + limit - 1) / limit == if c == 0 then 0 else 1 + (Rest(c, limit) + limit - 1) / limit
  {
    if c == 0 {
      Quotient(limit - 1, limit, 0);
    } else if c <= limit {
      Quotient(c + limit - 1, limit, 1);
      Quotient(limit - 1, limit, 0);
    } else {
      var q := (c - 1) / limit;
      Quotient(c + limit - 1, limit, q + 1);
    }
  }

  lemma Quotient(a: nat, b: int, q: nat)
    requires b > 0 && b * q <= a < b * q + b
    ensures a / b == q
  {
    BelowByOne(b, a / b, q);
    BelowByOne(b, q, a / b);
    Division(a, b);
  }

  lemma Division(a: nat, b: int)
    requires b > 0
    ensures b * (a / b) <= a < b * (a / b) + b
  {
  }

  lemma {:induction false} BelowByOne(b: int, d: nat, q: nat)
    requires b > 0
    ensures d < q ==> b * d + b <= b * q
  {
    if d + 1 < q {
      BelowByOne(b, d, q - 1);
    }
    assert b * (d + 1) == b * d + b;
  }

  /** One page of an After walk is the run of the log right behind its cursor; it is empty only at the log's end. */
  lemma AfterPage(store: Store, log: seq<Message>, limit: int, roomId: string, cursor: MessageCursor, c: nat,
                  page: seq<Message>)
    requires IsLog(store, log)
    requires !cursor.IsEmpty() && StandsAt(RoomLog(log, roomId), cursor, c)
    requires IsPage(store, After(limit, roomId, cursor), page)
    ensures c + 1 + |page| <= |RoomLog(log, roomId)|
    ensures page == RoomLog(log, roomId)[c + 1..c + 1 + |page|]
    ensures page == [] ==> c + 1 == |RoomLog(log, roomId)|
  {
    AfterLists(store, log, limit, roomId, cursor, c);
    PageIsFirst(store, After(limit, roomId, cursor), RoomLog(log, roomId)[c + 1..], page);
  }

  /**
    Tail following: interleaved with any inserts, the pages of an After walk always join up to the
    contiguous run of the room's log right behind the starting cursor, and an empty page means the
    walk has caught up with the room.
   */
  lemma {:induction false} AfterWalkFollows(rounds: seq<Round>, limit: int, roomId: string, cursor: MessageCursor,
                                            c: nat)
    requires IsAfterWalk(rounds, limit, roomId, cursor)
    requires !cursor.IsEmpty() && StandsAt(RoomLog(rounds[0].log, roomId), cursor, c)
    ensures var room, seen := RoomLog(Last(rounds).log, roomId), Pages(rounds);
            && c + 1 + |seen| <= |room|
            && seen == room[c + 1..c + 1 + |seen|]
            && (Last(rounds).page == [] ==> c + 1 + |seen| == |room|)
  {
    hide IsPage, IsLog, RoomLog, Reverse, Before, After;
    var r := rounds[0];
    assert |rounds| > 1 ==> Pages(rounds) == r.page + Pages(rounds[1..]);
    AfterPage(r.store, r.log, limit, roomId, cursor, c, r.page);
    if |rounds| == 1 {
      assert Pages(rounds) == r.page + Pages([]);
    } else {
      var end := c + |r.page|;
      NamesMessage(r.store, r.log, roomId, end);
      RoomLogExtends(r.log, rounds[1].log, roomId);
      AfterWalkFollows(rounds[1..], limit, roomId, Onward(cursor, r.page), end);
      AfterGrows(rounds, limit, roomId, cursor);
      RoomLogExtends(r.log, Last(rounds).log, roomId);
      JoinRuns(RoomLog(r.log, roomId), RoomLog(Last(rounds).log, roomId), c + 1, end + 1, |Pages(rounds[1..])|);
    }
  }

  lemma JoinRuns(s: seq<Message>, longer: seq<Message>, lo: nat, mid: nat, n: nat)
    requires s <= longer
    requires lo <= mid <= |s| && mid + n <= |longer|
    ensures s[lo..mid] + longer[mid..mid + n] == longer[lo..mid + n]
  {
  }

  lemma {:induction false} AfterGrows(rounds: seq<Round>, limit: int, roomId: string, cursor: MessageCursor)
    requires IsAfterWalk(rounds, limit, roomId, cursor)
    ensures rounds[0].log <= Last(rounds).log
  {
    if |rounds| > 1 {
      AfterGrows(rounds[1..], limit, roomId, Onward(cursor, rounds[0].page));
    }
  }
}
