/**
  Paging the in-memory history when timestamps repeat. The promise that a walk lists each message
  exactly once is then not always kept; this module says exactly when it is, for either direction.
 */
module Ties {
  import opened Wrappers
  import opened Messages
  import opened History
  import opened Walk

  /** One request of a walk: by `before`, newest first, or by `after`, oldest first. */
  function Turn(newest: bool, limit: int, roomId: string, cursor: MessageCursor): GetMessageOptions {
    if newest then Before(limit, roomId, cursor) else After(limit, roomId, cursor)
  }

  /** A walk over a store nobody writes to: every request but the first carries the cursor of the last message shown. */
  ghost predicate IsStillWalk(store: Store, pages: seq<seq<Message>>, newest: bool, limit: int, roomId: string,
                              cursor: MessageCursor)
  {
    && pages != []
    && IsPage(store, Turn(newest, limit, roomId, cursor), pages[0])
    && (|pages| > 1 ==>
          pages[0] != [] && IsStillWalk(store, pages[1..], newest, limit, roomId, LastCursor(pages[0])))
  }

  /** The walk has come to an empty page. */
  predicate Finished(pages: seq<seq<Message>>) {
    pages != [] && pages[|pages| - 1] == []
  }

  function Concat(pages: seq<seq<Message>>): seq<Message> {
    if pages == [] then [] else pages[0] + Concat(pages[1..])
  }

  /** The messages a request matches, in its direction; messages with equal timestamps stand in any order. */
  ghost predicate Arranged(newest: bool, store: Store, matching: set<string>, s: seq<Message>) {
    && DistinctIds(s)
    && Ordered(newest, s)
    && (forall k :: 0 <= k < |s| ==> s[k].id in store && store[s[k].id] == s[k])
    && Ids(s) == matching
  }

  function Times(s: seq<Message>): (t: seq<int>)
    ensures |t| == |s|
    ensures forall k :: 0 <= k < |s| ==> t[k] == s[k].sent.instant
  {
    seq(|s|, i requires 0 <= i < |s| => s[i].sent.instant)
  }

  function PageSize(limit: int, n: nat): nat {
    if 0 < limit < n then limit else n
  }

  /**
    Cutting the timestamps, in the walk's direction, into pages of `limit`: the one that closes a page always
    differs from the one before it. `prev` is the timestamp in front of the list, if any.
   */
  predicate Separated(prev: Option<int>, times: seq<int>, limit: int)
    decreases |times|
  {
    times != [] ==>
      var n := PageSize(limit, |times|);
      var before := if n == 1 then prev else Some(times[n - 2]);
      before != Some(times[n - 1]) && Separated(Some(times[n - 1]), times[n..], limit)
  }

  lemma {:induction false} FewerIds(a: seq<Message>, b: seq<Message>)
    requires DistinctIds(a) && DistinctIds(b)
    requires Ids(a) <= Ids(b)
    ensures |a| <= |b|
  {
    IdsCount(a);
    IdsCount(b);
    SubsetSize(Ids(a), Ids(b));
  }

  /** Ties may be arranged differently, but the timestamps always come in the same order. */
  lemma SameTimes(newest: bool, store: Store, matching: set<string>, a: seq<Message>, b: seq<Message>)
    requires Arranged(newest, store, matching, a) && Arranged(newest, store, matching, b)
    ensures Times(a) == Times(b)
  {
    FewerIds(a, b);
    FewerIds(b, a);
    forall i | 0 <= i < |a| ensures a[i].sent.instant == b[i].sent.instant {
      NotSooner(newest, store, matching, a, b, i);
      NotSooner(newest, store, matching, b, a, i);
    }
  }

  /** Counting: the first i+1 of `a` cannot all stand among the first i of `b`. */
  lemma NotSooner(newest: bool, store: Store, matching: set<string>, a: seq<Message>, b: seq<Message>, i: nat)
    requires Arranged(newest, store, matching, a) && Arranged(newest, store, matching, b)
    requires i < |a| == |b|
    ensures !Precedes(newest, a[i], b[i])
  {
    if Precedes(newest, a[i], b[i]) {
      forall id | id in Ids(a[..i + 1]) ensures id in Ids(b[..i]) {
        var k :| 0 <= k < i + 1 && a[..i + 1][k].id == id;
        assert a[k].id in Ids(a);
        var j :| 0 <= j < |b| && b[j].id == a[k].id;
        assert b[j] == a[k];
        assert j < i;
        assert b[..i][j].id == id;
      }
      FewerIds(a[..i + 1], b[..i]);
      assert false;
    }
  }

  function Without(s: seq<Message>, page: seq<Message>): seq<Message> {
    if s == [] then []
    else
      var rest := Without(s[..|s| - 1], page);
      if s[|s| - 1] in page then rest else rest + [s[|s| - 1]]
  }

  lemma {:induction false} WithoutKeeps(newest: bool, s: seq<Message>, page: seq<Message>)
    requires DistinctIds(s) && Ordered(newest, s)
    ensures forall m :: m in Without(s, page) <==> m in s && m !in page
    ensures DistinctIds(Without(s, page)) && Ordered(newest, Without(s, page))
  {
    if s != [] {
      var init, last := s[..|s| - 1], s[|s| - 1];
      WithoutKeeps(newest, init, page);
      assert s == init + [last];
      var rest := Without(init, page);
      forall k | 0 <= k < |rest| ensures rest[k].id != last.id && !Precedes(newest, last, rest[k]) {
        assert rest[k] in init;
      }
    }
  }

  /** What a page leaves over, arranged so that page and rest together arrange everything matched. */
  lemma PageAndRest(store: Store, o: GetMessageOptions, s: seq<Message>, page: seq<Message>)
    returns (rest: seq<Message>)
    requires Arranged(NewestFirst(o), store, MatchingIds(store, o), s)
    requires IsPage(store, o, page)
    ensures |page| == PageSize(o.limit, |s|)
    ensures Arranged(NewestFirst(o), store, MatchingIds(store, o), page + rest)
    ensures Arranged(NewestFirst(o), store, MatchingIds(store, o) - Ids(page), rest)
    ensures Times(page + rest) == Times(s)
  {
    var matching := MatchingIds(store, o);
    rest := Without(s, page);
    WithoutKeeps(NewestFirst(o), s, page);
    IdsCount(s);
    RestIds(NewestFirst(o), store, matching, s, page, rest);
    RestFollows(store, o, page, rest);
    SameTimes(NewestFirst(o), store, matching, page + rest, s);
  }

  lemma RestIds(newest: bool, store: Store, matching: set<string>, s: seq<Message>, page: seq<Message>,
                rest: seq<Message>)
    requires Arranged(newest, store, matching, s)
    requires forall k :: 0 <= k < |page| ==> page[k].id in matching && store[page[k].id] == page[k]
    requires forall m :: m in rest <==> m in s && m !in page
    ensures Ids(rest) == matching - Ids(page)
    ensures forall k :: 0 <= k < |rest| ==> rest[k].id in store && store[rest[k].id] == rest[k]
  {
    forall k | 0 <= k < |rest|
      ensures rest[k].id in matching && rest[k].id !in Ids(page) && store[rest[k].id] == rest[k] {
      assert rest[k] in s && rest[k] !in page;
      var j :| 0 <= j < |s| && s[j] == rest[k];
      assert s[j].id in Ids(s);
    }
    forall id | id in matching - Ids(page) ensures id in Ids(rest) {
      var j :| 0 <= j < |s| && s[j].id == id;
      assert s[j] in s && s[j] !in page;
      assert s[j] in rest;
    }
  }

  lemma RestFollows(store: Store, o: GetMessageOptions, page: seq<Message>, rest: seq<Message>)
    requires IsPage(store, o, page)
    requires DistinctIds(rest) && Ordered(NewestFirst(o), rest)
    requires Ids(rest) == MatchingIds(store, o) - Ids(page)
    requires forall k :: 0 <= k < |rest| ==> rest[k].id in store && store[rest[k].id] == rest[k]
    ensures Arranged(NewestFirst(o), store, MatchingIds(store, o), page + rest)
  {
    var all := page + rest;
    forall k, l | 0 <= k < |page| && 0 <= l < |rest|
      ensures page[k].id != rest[l].id && !Precedes(NewestFirst(o), rest[l], page[k]) {
      assert rest[l].id in Ids(rest);
      assert page[k].id in Ids(page);
    }
    assert Ids(all) == Ids(page) + Ids(rest) by {
      assert forall k :: 0 <= k < |page| ==> all[k] == page[k];
      assert forall l :: 0 <= l < |rest| ==> all[|page| + l] == rest[l];
    }
  }

  /** The messages of the room, whatever the cursor. */
  ghost function RoomIds(store: Store, roomId: string): set<string> {
    set id | id in store && InRoom(roomId, store[id])
  }

  /** IDs are never empty, and messages are filed under their own. */
  ghost predicate Proper(store: Store) {
    Keyed(store) && "" !in store
  }

  /**
    Once the cursor has a twin with the same timestamp, the walk can only reach its empty page by
    returning that twin.
   */
  lemma {:induction false} TwinReturns(store: Store, pages: seq<seq<Message>>, newest: bool, limit: int, roomId: string,
                                       x: Message, twin: Message)
    requires Proper(store)
    requires x.id in store && store[x.id] == x
    requires twin.id in RoomIds(store, roomId) && store[twin.id] == twin
    requires twin.id != x.id && twin.sent.instant == x.sent.instant
    requires IsStillWalk(store, pages, newest, limit, roomId, CursorOf(x)) && Finished(pages)
    ensures twin in Concat(pages)
  {
    var o, page := Turn(newest, limit, roomId, CursorOf(x)), pages[0];
    assert twin.id in MatchingIds(store, o);
    assert page != [];
    if twin.id in Ids(page) {
      var k :| 0 <= k < |page| && page[k].id == twin.id;
      assert Concat(pages)[k] == twin;
    } else {
      var y := page[|page| - 1];
      assert !Precedes(newest, store[twin.id], y);
      assert y.sent.instant == x.sent.instant;
      TwinReturns(store, pages[1..], newest, limit, roomId, y, twin);
    }
  }

  /** The timestamp in front of what a request with this cursor matches. */
  function Ahead(cursor: MessageCursor): Option<int> {
    if cursor.IsEmpty() then None else Some(cursor.sent.instant)
  }

  /** A walk may start without a cursor, when it goes by `before`, or at a message of the room. */
  predicate StartsAt(store: Store, newest: bool, roomId: string, cursor: MessageCursor) {
    if cursor.IsEmpty() then newest
    else cursor.id in store && InRoom(roomId, store[cursor.id]) && cursor == CursorOf(store[cursor.id])
  }

  /** All that is still to come is `left`: nothing of it stands before the cursor, and what else the room has does. */
  ghost predicate Resuming(store: Store, newest: bool, roomId: string, cursor: MessageCursor, left: set<string>) {
    && StartsAt(store, newest, roomId, cursor)
    && left <= RoomIds(store, roomId)
    && if cursor.IsEmpty() then left == RoomIds(store, roomId)
       else
         && cursor.id !in left
         && (forall id :: id in left ==> !Precedes(newest, store[id], store[cursor.id]))
         && (forall id :: id in RoomIds(store, roomId) - left && id != cursor.id ==>
             Precedes(newest, store[id], store[cursor.id]))
  }

  /** What the first request of a walk matches is all that is to come. */
  lemma StartResumes(store: Store, newest: bool, limit: int, roomId: string, cursor: MessageCursor)
    requires Proper(store) && StartsAt(store, newest, roomId, cursor)
    ensures Resuming(store, newest, roomId, cursor, MatchingIds(store, Turn(newest, limit, roomId, cursor)))
  {
  }

  lemma ResumingMatches(store: Store, newest: bool, limit: int, roomId: string, cursor: MessageCursor,
                        left: set<string>)
    requires Proper(store) && Resuming(store, newest, roomId, cursor, left)
    ensures MatchingIds(store, Turn(newest, limit, roomId, cursor)) == left
    ensures NewestFirst(Turn(newest, limit, roomId, cursor)) == newest
  {
  }

  /** The page closes on a timestamp other than the one in front of it. */
  predicate ClosesApart(cursor: MessageCursor, page: seq<Message>)
    requires page != []
  {
    (if |page| == 1 then Ahead(cursor) else Some(page[|page| - 2].sent.instant)) != Some(page[|page| - 1].sent.instant)
  }

  /** The first page of a walk, and what it leaves: `rest`, arranged, and the timestamps of both. */
  lemma FirstPage(store: Store, pages: seq<seq<Message>>, newest: bool, limit: int, roomId: string,
                  cursor: MessageCursor, left: set<string>, s: seq<Message>) returns (rest: seq<Message>)
    requires Proper(store) && Resuming(store, newest, roomId, cursor, left)
    requires Arranged(newest, store, left, s) && IsStillWalk(store, pages, newest, limit, roomId, cursor)
    ensures var page := pages[0];
            && |page| == PageSize(limit, |s|) && |s| == |page| + |rest|
            && Arranged(newest, store, left, page + rest)
            && Arranged(newest, store, left - Ids(page), rest) && Ids(rest) == left - Ids(page)
            && (s != [] ==>
                  page != []
                  && (Separated(Ahead(cursor), Times(s), limit) <==>
                        ClosesApart(cursor, page) && Separated(Ahead(LastCursor(page)), Times(rest), limit)))
  {
    hide IsPage, Resuming, Arranged, Times, MatchingIds, RoomIds, Ids, NewestFirst;
    var page, o := pages[0], Turn(newest, limit, roomId, cursor);
    ResumingMatches(store, newest, limit, roomId, cursor, left);
    rest := PageAndRest(store, o, s, page);
    CutTimes(s, page, rest);
    assert Ids(rest) == left - Ids(page) by { IdsOf(newest, store, left - Ids(page), rest); }
    if s != [] {
      PageNames(newest, store, left, page, rest);
    }
  }

  lemma IdsOf(newest: bool, store: Store, matching: set<string>, s: seq<Message>)
    requires Arranged(newest, store, matching, s)
    ensures Ids(s) == matching
  {
  }

  lemma PageNames(newest: bool, store: Store, left: set<string>, page: seq<Message>, rest: seq<Message>)
    requires Proper(store) && page != [] && Arranged(newest, store, left, page + rest)
    ensures !LastCursor(page).IsEmpty()
  {
    assert (page + rest)[|page| - 1] == page[|page| - 1];
  }

  /** The rest of a walk is exact when it repeats nothing and returns nothing that was returned before. */
  ghost predicate RepeatsNothing(s: seq<Message>, left: set<string>) {
    DistinctIds(s) && Ids(s) <= left
  }

  lemma {:induction false} ResumedWalk(store: Store, pages: seq<seq<Message>>, newest: bool, limit: int, roomId: string,
                                       cursor: MessageCursor, left: set<string>, s: seq<Message>)
    requires Proper(store) && Resuming(store, newest, roomId, cursor, left)
    requires Arranged(newest, store, left, s)
    requires IsStillWalk(store, pages, newest, limit, roomId, cursor) && Finished(pages)
    ensures RepeatsNothing(Concat(pages), left) <==> Separated(Ahead(cursor), Times(s), limit)
    ensures Separated(Ahead(cursor), Times(s), limit) ==> Arranged(newest, store, left, Concat(pages))
  {
    hide IsPage, Resuming, Arranged, RepeatsNothing, Times, RoomIds, Ids, Proper, ClosesApart, Ahead;
    var page := pages[0];
    var rest := FirstPage(store, pages, newest, limit, roomId, cursor, left, s);
    if |pages| == 1 {
      EmptyWalk(newest, store, left, s, pages, Ahead(cursor), limit);
    } else {
      var x := page[|page| - 1];
      assert Concat(pages) == page + Concat(pages[1..]);
      if ClosesApart(cursor, page) {
        ResumesBehind(store, newest, roomId, cursor, left, page, rest);
        ResumedWalk(store, pages[1..], newest, limit, roomId, CursorOf(x), left - Ids(page), rest);
        JoinExact(newest, store, left, page, rest, Concat(pages[1..]));
      } else {
        var twin := TwinOf(store, newest, roomId, cursor, left, page, rest);
        TwinReturns(store, pages[1..], newest, limit, roomId, x, twin);
        TwinRepeated(page, Concat(pages[1..]), left, twin);
      }
    }
  }

  /** A page that closes on a repeated timestamp leaves a twin of its last message behind it. */
  lemma TwinOf(store: Store, newest: bool, roomId: string, cursor: MessageCursor, left: set<string>,
               page: seq<Message>, rest: seq<Message>) returns (twin: Message)
    requires Proper(store) && Resuming(store, newest, roomId, cursor, left)
    requires page != [] && Arranged(newest, store, left, page + rest) && !ClosesApart(cursor, page)
    ensures var x := page[|page| - 1];
            && x.id in store && store[x.id] == x
            && twin.id in RoomIds(store, roomId) && store[twin.id] == twin
            && twin.id != x.id && twin.sent.instant == x.sent.instant
    ensures twin.id !in left || twin in page
  {
    var n, all := |page|, page + rest;
    var x := page[n - 1];
    assert all[n - 1] == x && x.id in Ids(all);
    if n == 1 {
      twin := store[cursor.id];
    } else {
      twin := page[n - 2];
      assert all[n - 2] == twin && twin.id in Ids(all);
    }
  }

  lemma EmptyWalk(newest: bool, store: Store, left: set<string>, s: seq<Message>, pages: seq<seq<Message>>,
                  prev: Option<int>, limit: int)
    requires Arranged(newest, store, left, s)
    requires |pages| == 1 && pages[0] == [] && s == []
    ensures Concat(pages) == [] && Separated(prev, Times(s), limit)
    ensures RepeatsNothing(Concat(pages), left) && Arranged(newest, store, left, Concat(pages))
  {
    assert pages[0] + Concat(pages[1..]) == [];
  }

  lemma CutTimes(s: seq<Message>, page: seq<Message>, rest: seq<Message>)
    requires Times(page + rest) == Times(s)
    ensures |s| == |page| + |rest|
    ensures forall k :: 0 <= k < |page| ==> Times(s)[k] == page[k].sent.instant
    ensures Times(s)[|page|..] == Times(rest)
    ensures Times(s) == [] <==> s == []
  {
    var all := page + rest;
    assert |Times(all)| == |Times(s)|;
    assert forall k :: 0 <= k < |page| ==> Times(all)[k] == page[k].sent.instant;
    assert forall k :: 0 <= k < |rest| ==> Times(all)[|page| + k] == rest[k].sent.instant;
  }

  lemma TwinRepeated(page: seq<Message>, more: seq<Message>, left: set<string>, twin: Message)
    requires twin in more
    requires twin.id !in left || twin in page
    ensures !RepeatsNothing(page + more, left)
  {
    var k :| 0 <= k < |more| && more[k] == twin;
    var all := page + more;
    assert all[|page| + k] == twin;
    assert twin.id in Ids(all);
    if twin in page {
      var j :| 0 <= j < |page| && page[j] == twin;
      assert all[j].id == all[|page| + k].id;
    }
  }

  lemma ResumesBehind(store: Store, newest: bool, roomId: string, cursor: MessageCursor, left: set<string>,
                      page: seq<Message>, rest: seq<Message>)
    requires Proper(store) && Resuming(store, newest, roomId, cursor, left)
    requires page != [] && Arranged(newest, store, left, page + rest)
    requires Ids(rest) == left - Ids(page)
    requires ClosesApart(cursor, page)
    ensures Resuming(store, newest, roomId, LastCursor(page), left - Ids(page))
  {
    var n, all := |page|, page + rest;
    var x := page[n - 1];
    var later := left - Ids(page);
    assert all[n - 1] == x && x.id in Ids(all);
    assert x.id in Ids(page);
    forall id | id in later ensures !Precedes(newest, store[id], x) {
      assert id in Ids(rest);
      var k :| 0 <= k < |rest| && rest[k].id == id;
      assert all[n + k] == rest[k];
      assert !Precedes(newest, all[n + k], all[n - 1]);
    }
    forall id | id in RoomIds(store, roomId) - later && id != x.id ensures Precedes(newest, store[id], x) {
      if id in left {
        EarlierOnPage(newest, store, left, cursor, page, rest, id);
      } else {
        BeforeCursor(store, newest, roomId, cursor, left, page, rest, id);
      }
    }
  }

  lemma EarlierOnPage(newest: bool, store: Store, left: set<string>, cursor: MessageCursor,
                      page: seq<Message>, rest: seq<Message>, id: string)
    requires page != [] && Arranged(newest, store, left, page + rest) && ClosesApart(cursor, page)
    requires id in Ids(page) && id != page[|page| - 1].id && id in store
    ensures Precedes(newest, store[id], page[|page| - 1])
  {
    var n, all := |page|, page + rest;
    var k :| 0 <= k < n && page[k].id == id;
    assert all[k] == page[k] && all[n - 2] == page[n - 2] && all[n - 1] == page[n - 1];
    assert !Precedes(newest, all[n - 2], all[k]) || k == n - 2;
    assert !Precedes(newest, all[n - 1], all[n - 2]);
  }

  lemma BeforeCursor(store: Store, newest: bool, roomId: string, cursor: MessageCursor, left: set<string>,
                     page: seq<Message>, rest: seq<Message>, id: string)
    requires Proper(store) && Resuming(store, newest, roomId, cursor, left)
    requires page != [] && Arranged(newest, store, left, page + rest) && ClosesApart(cursor, page)
    requires id in RoomIds(store, roomId) - left
    ensures Precedes(newest, store[id], page[|page| - 1])
  {
    var n, all := |page|, page + rest;
    assert all[0] == page[0] && all[n - 1] == page[n - 1];
    assert all[0].id in Ids(all) && all[n - 1].id in Ids(all);
    if n > 1 {
      assert all[n - 2] == page[n - 2] && all[n - 2].id in Ids(all);
      assert !Precedes(newest, all[n - 1], all[n - 2]);
    }
  }

  lemma JoinExact(newest: bool, store: Store, left: set<string>, page: seq<Message>, rest: seq<Message>,
                  more: seq<Message>)
    requires Arranged(newest, store, left, page + rest)
    requires Ids(rest) == left - Ids(page)
    ensures RepeatsNothing(page + more, left) <==> RepeatsNothing(more, left - Ids(page))
    ensures Arranged(newest, store, left - Ids(page), more) ==> Arranged(newest, store, left, page + more)
  {
    var all, out := page + rest, page + more;
    assert forall k :: 0 <= k < |page| ==> all[k] == page[k] == out[k];
    assert forall k :: 0 <= k < |more| ==> out[|page| + k] == more[k];
    assert Ids(out) == Ids(page) + Ids(more);
    assert Ids(page) <= left by {
      assert forall k :: 0 <= k < |page| ==> all[k].id in Ids(all);
    }
    assert DistinctIds(page);
    if DistinctIds(out) {
      forall k | 0 <= k < |more| ensures more[k].id !in Ids(page) {
        assert out[|page| + k] == more[k];
      }
      forall i, j | 0 <= i < j < |more| ensures more[i].id != more[j].id {
        assert out[|page| + i].id != out[|page| + j].id;
      }
    }
    if RepeatsNothing(more, left - Ids(page)) {
      forall k | 0 <= k < |more| ensures more[k].id !in Ids(page) {
        assert more[k].id in Ids(more);
      }
    }
    if Arranged(newest, store, left - Ids(page), more) {
      forall i, k | 0 <= i < |page| && 0 <= k < |more| ensures !Precedes(newest, more[k], page[i]) {
        assert more[k].id in Ids(more);
        var j :| 0 <= j < |rest| && rest[j].id == more[k].id;
        assert all[|page| + j] == rest[j];
        assert rest[j] == more[k];
        assert !Precedes(newest, all[|page| + j], all[i]);
      }
    }
  }

  /** A walk never shows anything that stands before its starting cursor. */
  lemma {:induction false} WalkStays(store: Store, pages: seq<seq<Message>>, newest: bool, limit: int, roomId: string,
                                     cursor: MessageCursor)
    requires Proper(store) && StartsAt(store, newest, roomId, cursor)
    requires IsStillWalk(store, pages, newest, limit, roomId, cursor)
    ensures Ids(Concat(pages)) <= MatchingIds(store, Turn(newest, limit, roomId, cursor)) + {cursor.id}
  {
    var page, more, o := pages[0], Concat(pages[1..]), Turn(newest, limit, roomId, cursor);
    if |pages| > 1 {
      assert page[|page| - 1].id in MatchingIds(store, o);
      WalkStays(store, pages[1..], newest, limit, roomId, LastCursor(page));
    }
    var all := page + more;
    forall k | 0 <= k < |all| ensures all[k].id in MatchingIds(store, o) + {cursor.id} {
      if k < |page| {
        assert page[k].id in MatchingIds(store, o);
      } else {
        assert more[k - |page|].id in Ids(more);
      }
    }
  }

  /**
    A finished walk over a store that does not change, in either direction and from any message of the
    room, repeats nothing, its starting message included, if and only if every page-closing timestamp
    differs from the one before it; and then it lists what its first request matches, in order.
   */
  lemma WalkExactlyOnce(store: Store, pages: seq<seq<Message>>, newest: bool, limit: int, roomId: string,
                        cursor: MessageCursor, s: seq<Message>)
    requires Proper(store) && StartsAt(store, newest, roomId, cursor)
    requires Arranged(newest, store, MatchingIds(store, Turn(newest, limit, roomId, cursor)), s)
    requires IsStillWalk(store, pages, newest, limit, roomId, cursor) && Finished(pages)
    ensures DistinctIds(Concat(pages)) && cursor.id !in Ids(Concat(pages)) <==>
            Separated(Ahead(cursor), Times(s), limit)
    ensures Arranged(newest, store, MatchingIds(store, Turn(newest, limit, roomId, cursor)), Concat(pages)) <==>
            Separated(Ahead(cursor), Times(s), limit)
  {
    hide IsStillWalk, IsPage, Resuming, Separated, Times, StartsAt;
    var left := MatchingIds(store, Turn(newest, limit, roomId, cursor));
    StartResumes(store, newest, limit, roomId, cursor);
    ResumedWalk(store, pages, newest, limit, roomId, cursor, left, s);
    WalkStays(store, pages, newest, limit, roomId, cursor);
    assert cursor.id !in left;
  }

  /** Pages of `limit` that `n` messages fill: ceil(n / limit), or one for all of them without a limit. */
  function PageCount(n: nat, limit: int): nat {
    if limit > 0 then (n + limit - 1) / limit else if n == 0 then 0 else 1
  }

  lemma PageCountStep(n: nat, limit: int)
    ensures PageCount(n, limit) == if n == 0 then 0 else 1 + PageCount(n - PageSize(limit, n), limit)
  {
    if limit > 0 {
      CeilStep(n, limit);
    }
  }

  /**
    Under the same condition every walk ends: after exactly as many non-empty pages as the messages fill,
    and one empty one.
   */
  lemma {:induction false} SeparatedWalkEnds(store: Store, pages: seq<seq<Message>>, newest: bool, limit: int,
                                             roomId: string, cursor: MessageCursor, left: set<string>, s: seq<Message>)
    requires Proper(store) && Resuming(store, newest, roomId, cursor, left)
    requires Arranged(newest, store, left, s) && Separated(Ahead(cursor), Times(s), limit)
    requires IsStillWalk(store, pages, newest, limit, roomId, cursor)
    ensures |pages| - 1 <= PageCount(|s|, limit)
    ensures Finished(pages) <==> |pages| - 1 == PageCount(|s|, limit)
  {
    hide IsPage, Resuming, Arranged, Times, RoomIds, Ids, Proper, ClosesApart, Ahead, PageCount;
    var page := pages[0];
    var rest := FirstPage(store, pages, newest, limit, roomId, cursor, left, s);
    PageCountStep(|s|, limit);
    if |pages| > 1 {
      ResumesBehind(store, newest, roomId, cursor, left, page, rest);
      SeparatedWalkEnds(store, pages[1..], newest, limit, roomId, LastCursor(page), left - Ids(page), rest);
    }
  }

  /** The same, for a walk from its start. */
  lemma WalkEnds(store: Store, pages: seq<seq<Message>>, newest: bool, limit: int, roomId: string,
                 cursor: MessageCursor, s: seq<Message>)
    requires Proper(store) && StartsAt(store, newest, roomId, cursor)
    requires Arranged(newest, store, MatchingIds(store, Turn(newest, limit, roomId, cursor)), s)
    requires Separated(Ahead(cursor), Times(s), limit)
    requires IsStillWalk(store, pages, newest, limit, roomId, cursor)
    ensures |pages| - 1 <= PageCount(|s|, limit)
    ensures Finished(pages) <==> |pages| - 1 == PageCount(|s|, limit)
  {
    StartResumes(store, newest, limit, roomId, cursor);
    SeparatedWalkEnds(
      store, pages, newest, limit, roomId, cursor, MatchingIds(store, Turn(newest, limit, roomId, cursor)), s);
  }

  // Two messages sent at the same time --------------------------------------------------------------

  ghost predicate Twins(store: Store, a: Message, b: Message) {
    && a.id != "" && b.id != "" && a.id != b.id && a.sent == b.sent && a.roomId == b.roomId
    && store == map[a.id := a, b.id := b]
  }

  /** With a limit of one, a walk in either direction goes back and forth between them for as long as one likes. */
  lemma {:induction false} TwinsAlternate(store: Store, a: Message, b: Message, newest: bool, n: nat)
    returns (pages: seq<seq<Message>>)
    requires Twins(store, a, b)
    ensures |pages| == n + 1 && IsStillWalk(store, pages, newest, 1, a.roomId, CursorOf(a))
    ensures forall i :: 0 <= i <= n ==> pages[i] == if i % 2 == 0 then [b] else [a]
    decreases n
  {
    TwinPage(store, a, b, newest);
    if n == 0 {
      pages := [[b]];
    } else {
      assert map[b.id := b, a.id := a] == store;
      var more := TwinsAlternate(store, b, a, newest, n - 1);
      pages := [[b]] + more;
      assert forall i :: 0 < i <= n ==> pages[i] == more[i - 1];
      assert pages[1..] == more;
    }
  }

  /** So a client that reads the room from its newest message on may never come to an end. */
  lemma TwinsWalkForever(store: Store, a: Message, b: Message, n: nat) returns (pages: seq<seq<Message>>)
    requires Twins(store, a, b)
    ensures |pages| == n + 2 && IsStillWalk(store, pages, true, 1, a.roomId, EMPTY_CURSOR)
    ensures forall i :: 0 <= i < |pages| ==> pages[i] == if i % 2 == 0 then [a] else [b]
  {
    var more := TwinsAlternate(store, a, b, true, n);
    pages := [[a]] + more;
    assert forall i :: 0 < i < |pages| ==> pages[i] == more[i - 1];
    assert pages[1..] == more;
    assert MatchingIds(store, Before(1, a.roomId, EMPTY_CURSOR)) == {a.id, b.id};
    assert Ids([a]) == {a.id} by { assert [a][0].id == a.id; }
  }

  lemma TwinPage(store: Store, x: Message, y: Message, newest: bool)
    requires Twins(store, x, y)
    ensures IsPage(store, Turn(newest, 1, x.roomId, CursorOf(x)), [y])
  {
    assert MatchingIds(store, Turn(newest, 1, x.roomId, CursorOf(x))) == {y.id};
    assert Ids([y]) == {y.id} by { assert [y][0].id == y.id; }
  }
}
