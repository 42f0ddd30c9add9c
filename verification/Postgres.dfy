/**
  The Postgres history query (sharechat/postgres/message.go), by the rows it denotes: a join to
  members, a room filter, a row comparison on (sent, message_id), an order and a limit.
 */
module Postgres {
  import opened Wrappers
  import opened Messages
  import opened History
  import opened Walk
  import opened Ties

  /**
    The two tables, with member names keyed by member_id (a member is never removed, only marked),
    and the position of an ID in the database's collation.
   */
  datatype Database = Database(messages: Store, members: map<string, string>, rank: string -> real)

  ghost predicate ValidDatabase(db: Database) {
    && Keyed(db.messages)
    && "" !in db.messages
    && (forall a, b :: db.rank(a) == db.rank(b) ==> a == b)
    // the foreign key messages.member_id -> members.member_id
    && (forall id :: id in db.messages ==> db.messages[id].memberId in db.members)
  }

  /** messages m JOIN members b ON m.member_id = b.member_id, with the name taken from b */
  function Joined(db: Database): Store {
    map id | id in db.messages && db.messages[id].memberId in db.members ::
      db.messages[id].(memberName := db.members[db.messages[id].memberId])
  }

  /** (sent, message_id) < (c.sent, c.id) */
  predicate RowBelow(db: Database, m: Message, c: MessageCursor) {
    m.sent.instant < c.sent.instant || (m.sent.instant == c.sent.instant && db.rank(m.id) < db.rank(c.id))
  }

  /** (sent, message_id) > (c.sent, c.id) */
  predicate RowAbove(db: Database, m: Message, c: MessageCursor) {
    m.sent.instant > c.sent.instant || (m.sent.instant == c.sent.instant && db.rank(m.id) > db.rank(c.id))
  }

  predicate Where(db: Database, o: GetMessageOptions, m: Message) {
    && InRoom(o.roomId, m)
    && (if !o.after.IsEmpty() then RowAbove(db, m, o.after)
        else if !o.before.IsEmpty() then RowBelow(db, m, o.before)
        else true)
  }

  /** ORDER BY sent ASC, message_id for `after`; ORDER BY sent DESC, message_id otherwise */
  predicate RowPrecedes(db: Database, ascending: bool, a: Message, b: Message) {
    if a.sent.instant == b.sent.instant then db.rank(a.id) < db.rank(b.id)
    else if ascending then a.sent.instant < b.sent.instant
    else b.sent.instant < a.sent.instant
  }

  /** LIMIT: 100 when none is asked for, no clause at all for a negative one (First takes everything). */
  function Limit(o: GetMessageOptions): int {
    if o.limit == 0 then 100 else o.limit
  }

  ghost function WhereIds(db: Database, o: GetMessageOptions): set<string> {
    set id | id in Joined(db) && Where(db, o, Joined(db)[id])
  }

  /** All rows the query selects, in its order. */
  ghost predicate Selects(db: Database, o: GetMessageOptions, rows: seq<Message>) {
    && DistinctIds(rows)
    && (forall i, j :: 0 <= i < j < |rows| ==> RowPrecedes(db, !o.after.IsEmpty(), rows[i], rows[j]))
    && (forall k :: 0 <= k < |rows| ==> rows[k].id in Joined(db) && Joined(db)[rows[k].id] == rows[k])
    && Ids(rows) == WhereIds(db, o)
  }

  ghost predicate IsResult(db: Database, o: GetMessageOptions, page: seq<Message>) {
    exists rows :: Selects(db, o, rows) && page == First(Limit(o), rows)
  }

  // Agreement with the in-memory repository -----------------------------------------------------

  /** Both repositories hold the same messages; the name a message carries in memory is its member's. */
  ghost predicate SameContent(db: Database, store: Store) {
    && db.messages.Keys == store.Keys
    && (forall id :: id in store ==>
          && db.messages[id].memberId in db.members
          && store[id] == db.messages[id].(memberName := db.members[db.messages[id].memberId]))
  }

  /** The join neither loses nor changes a row. */
  lemma JoinKeepsRows(db: Database, store: Store)
    requires ValidDatabase(db)
    ensures Joined(db).Keys == db.messages.Keys
    ensures SameContent(db, store) ==> Joined(db) == store
  {
  }

  ghost predicate DistinctTimes(store: Store) {
    forall a, b :: a in store && b in store && a != b ==> store[a].sent.instant != store[b].sent.instant
  }

  /** An empty cursor, or one that names a stored message. */
  predicate NamesStored(store: Store, c: MessageCursor) {
    c.IsEmpty() || (c.id in store && c.sent.instant == store[c.id].sent.instant)
  }

  lemma SelectsIsListing(db: Database, store: Store, o: GetMessageOptions, rows: seq<Message>)
    requires ValidDatabase(db) && SameContent(db, store) && DistinctTimes(store)
    requires Validate(o) == None
    requires NamesStored(store, o.before) && NamesStored(store, o.after)
    requires Selects(db, o, rows)
    ensures Lists(store, o, rows)
  {
    JoinKeepsRows(db, store);
    assert NewestFirst(o) == o.after.IsEmpty();
    forall id | id in store ensures Matches(o, store[id]) <==> Where(db, o, store[id]) {
    }
    assert WhereIds(db, o) == MatchingIds(store, o);
    forall i, j | 0 <= i < j < |rows| ensures Precedes(NewestFirst(o), rows[i], rows[j]) {
      assert RowPrecedes(db, !o.after.IsEmpty(), rows[i], rows[j]);
      assert rows[i].id != rows[j].id;
    }
  }

  lemma ListingSelects(db: Database, store: Store, o: GetMessageOptions, listing: seq<Message>)
    requires ValidDatabase(db) && SameContent(db, store) && DistinctTimes(store)
    requires Validate(o) == None
    requires NamesStored(store, o.before) && NamesStored(store, o.after)
    requires Lists(store, o, listing)
    ensures IsResult(db, o, First(Limit(o), listing))
  {
    JoinKeepsRows(db, store);
    assert NewestFirst(o) == o.after.IsEmpty();
    forall id | id in store ensures Matches(o, store[id]) <==> Where(db, o, store[id]) {
    }
    assert WhereIds(db, o) == MatchingIds(store, o);
    assert Selects(db, o, listing);
  }

  /**
    On the same content with distinct timestamps, both repositories answer every valid request with
    the same page, except that Postgres stops at 100 messages when no limit is given.
   */
  lemma RepositoriesAgree(db: Database, store: Store, o: GetMessageOptions, page: seq<Message>, result: seq<Message>)
    requires ValidDatabase(db) && SameContent(db, store) && DistinctTimes(store)
    requires Validate(o) == None
    requires NamesStored(store, o.before) && NamesStored(store, o.after)
    requires IsPage(store, o, page) && IsResult(db, o, result)
    ensures page == result <==> o.limit > 0 || |MatchingIds(store, o)| <= 100
  {
    var rows :| Selects(db, o, rows) && result == First(Limit(o), rows);
    SelectsIsListing(db, store, o, rows);
    PageIsFirst(store, o, rows, page);
    IdsCount(rows);
  }

  // Whole walks with tied timestamps ------------------------------------------------------------

  /** A walk over tables nobody writes to: every request but the first carries the cursor of the last row shown. */
  ghost predicate IsQueryWalk(db: Database, pages: seq<seq<Message>>, newest: bool, limit: int, roomId: string,
                              cursor: MessageCursor)
  {
    && pages != []
    && IsResult(db, Turn(newest, limit, roomId, cursor), pages[0])
    && (|pages| > 1 ==>
          pages[0] != [] && IsQueryWalk(db, pages[1..], newest, limit, roomId, LastCursor(pages[0])))
  }

  /** What a request of a walk selects lies on one side of its cursor, so every page leaves fewer rows. */
  lemma FewerRows(db: Database, newest: bool, limit: int, roomId: string, cursor: MessageCursor, page: seq<Message>)
    requires ValidDatabase(db) && page != [] && IsResult(db, Turn(newest, limit, roomId, cursor), page)
    requires newest || !cursor.IsEmpty()
    ensures !LastCursor(page).IsEmpty()
    ensures WhereIds(db, Turn(newest, limit, roomId, LastCursor(page)))
        < WhereIds(db, Turn(newest, limit, roomId, cursor))
  {
    var o, last := Turn(newest, limit, roomId, cursor), page[|page| - 1];
    var rows :| Selects(db, o, rows) && page == First(Limit(o), rows);
    assert last == rows[|page| - 1];
    assert last.id in Ids(rows);
    assert last.id in WhereIds(db, o) && last.id !in WhereIds(db, Turn(newest, limit, roomId, LastCursor(page)));
  }

  /** Every walk ends, ties or not: it has at most as many non-empty pages as its first request selects rows. */
  lemma {:induction false} QueryWalkEnds(db: Database, pages: seq<seq<Message>>, newest: bool, limit: int,
                                         roomId: string, cursor: MessageCursor)
    requires ValidDatabase(db) && (newest || !cursor.IsEmpty())
    requires IsQueryWalk(db, pages, newest, limit, roomId, cursor)
    ensures |pages| - 1 <= |WhereIds(db, Turn(newest, limit, roomId, cursor))|
  {
    hide ValidDatabase, WhereIds, IsResult;
    if |pages| > 1 {
      var selected := WhereIds(db, Turn(newest, limit, roomId, cursor));
      var next := WhereIds(db, Turn(newest, limit, roomId, LastCursor(pages[0])));
      FewerRows(db, newest, limit, roomId, cursor, pages[0]);
      QueryWalkEnds(db, pages[1..], newest, limit, roomId, LastCursor(pages[0]));
      assert selected == next + (selected - next);
    }
  }

  /** The order is total, so a query selects its rows in one way only. */
  lemma SelectsOnce(db: Database, o: GetMessageOptions, a: seq<Message>, b: seq<Message>)
    requires ValidDatabase(db)
    requires Selects(db, o, a) && Selects(db, o, b)
    ensures a == b
  {
    FewerIds(a, b);
    FewerIds(b, a);
    SamePrefix(db, o, a, b, |a|);
    assert a[..|a|] == a && b[..|b|] == b;
  }

  lemma {:induction false} SamePrefix(db: Database, o: GetMessageOptions, a: seq<Message>, b: seq<Message>, n: nat)
    requires ValidDatabase(db)
    requires Selects(db, o, a) && Selects(db, o, b) && n <= |a| == |b|
    ensures a[..n] == b[..n]
  {
    if n > 0 {
      SamePrefix(db, o, a, b, n - 1);
      assert forall j :: 0 <= j < n - 1 ==> a[j] == a[..n - 1][j] == b[..n - 1][j] == b[j];
      var k := RowPosition(db, o, a, b[n - 1]);
      var l := RowPosition(db, o, b, a[n - 1]);
      assert n - 1 <= k && n - 1 <= l;
      assert a[n - 1] == b[n - 1];
      assert a[..n] == a[..n - 1] + [a[n - 1]];
      assert b[..n] == b[..n - 1] + [b[n - 1]];
    }
  }

  lemma RowPosition(db: Database, o: GetMessageOptions, rows: seq<Message>, m: Message) returns (k: nat)
    requires Selects(db, o, rows)
    requires m.id in WhereIds(db, o) && Joined(db)[m.id] == m
    ensures k < |rows| && rows[k] == m
  {
    assert m.id in Ids(rows);
    k :| 0 <= k < |rows| && rows[k].id == m.id;
  }

  /** Behind row j, an After request selects exactly the rows that follow j. */
  lemma AfterRow(db: Database, limit: int, roomId: string, cursor: MessageCursor, rows: seq<Message>, j: nat)
    requires ValidDatabase(db) && !cursor.IsEmpty()
    requires Selects(db, After(limit, roomId, cursor), rows)
    requires j < |rows|
    ensures !CursorOf(rows[j]).IsEmpty()
    ensures Selects(db, After(limit, roomId, CursorOf(rows[j])), rows[j + 1..])
  {
    var o, next, rest := After(limit, roomId, cursor), After(limit, roomId, CursorOf(rows[j])), rows[j + 1..];
    assert rows[j].id in Joined(db) && rows[j].id in Ids(rows);
    forall id | id in WhereIds(db, next) ensures id in Ids(rest) {
      assert id in Ids(rows);
      var k :| 0 <= k < |rows| && rows[k].id == id;
      assert j < k;
      assert rest[k - j - 1].id == id;
    }
    forall k | 0 <= k < |rest| ensures rest[k].id in WhereIds(db, next) {
      assert rest[k] == rows[j + 1 + k];
      assert RowPrecedes(db, true, rows[j], rows[j + 1 + k]);
      assert rows[j + 1 + k].id in Ids(rows);
    }
    assert Ids(rest) == WhereIds(db, next);
  }

  /**
    An After walk returns everything behind its cursor, each message once, whatever timestamps are
    tied, because filter and order use the same lexicographic order.
   */
  lemma {:induction false} AfterWalkExactlyOnce(db: Database, pages: seq<seq<Message>>, limit: int, roomId: string,
                                                cursor: MessageCursor, rows: seq<Message>)
    requires ValidDatabase(db) && !cursor.IsEmpty()
    requires Selects(db, After(limit, roomId, cursor), rows)
    requires IsQueryWalk(db, pages, false, limit, roomId, cursor) && Finished(pages)
    ensures Concat(pages) == rows
  {
    var o, page := After(limit, roomId, cursor), pages[0];
    ResultIsFirst(db, o, rows, page);
    assert Concat(pages) == page + Concat(pages[1..]);
    if |pages| > 1 {
      hide Selects, IsResult;
      AfterRow(db, limit, roomId, cursor, rows, |page| - 1);
      AfterWalkExactlyOnce(db, pages[1..], limit, roomId, LastCursor(page), rows[|page|..]);
    }
  }

  lemma ResultIsFirst(db: Database, o: GetMessageOptions, rows: seq<Message>, page: seq<Message>)
    requires ValidDatabase(db) && Selects(db, o, rows) && IsResult(db, o, page)
    ensures page == First(Limit(o), rows)
    ensures page <= rows
    ensures |page| == PageSize(Limit(o), |rows|)
    ensures page == [] <==> rows == []
  {
    var own :| Selects(db, o, own) && page == First(Limit(o), own);
    SelectsOnce(db, o, own, rows);
  }

  /** Every message that closes a page of `limit` has a timestamp of its own. */
  predicate ClosersAlone(times: seq<int>, limit: int)
    decreases |times|
  {
    times != [] ==>
      var n := PageSize(limit, |times|);
      && (n > 1 ==> times[n - 2] != times[n - 1])
      && (n < |times| ==> times[n] != times[n - 1])
      && ClosersAlone(times[n..], limit)
  }

  /** Rows of the room outside `rows` were sent after all of `rows`. */
  ghost predicate NothingTiedOutside(db: Database, roomId: string, rows: seq<Message>) {
    forall id, k :: id in Joined(db) && InRoom(roomId, Joined(db)[id]) && id !in Ids(rows) && 0 <= k < |rows| ==>
      rows[k].sent.instant < Joined(db)[id].sent.instant
  }

  /** Where a Before walk stands: `rows` is what its next request selects. */
  ghost predicate Facing(db: Database, limit: int, roomId: string, cursor: MessageCursor, rows: seq<Message>) {
    Selects(db, Before(limit, roomId, cursor), rows) && NothingTiedOutside(db, roomId, rows)
  }

  /**
    Behind row j, a Before request selects a row of the room when it was sent earlier, or at the same
    time under a smaller ID.
   */
  lemma BehindRow(db: Database, limit: int, roomId: string, cursor: MessageCursor, rows: seq<Message>, j: nat,
                  id: string)
    requires ValidDatabase(db) && Facing(db, limit, roomId, cursor, rows) && j < |rows|
    ensures !CursorOf(rows[j]).IsEmpty()
    ensures id in WhereIds(db, Before(limit, roomId, CursorOf(rows[j]))) <==>
            exists k :: 0 <= k < |rows| && rows[k].id == id &&
              (rows[k].sent.instant < rows[j].sent.instant || (rows[k].sent.instant == rows[j].sent.instant && k < j))
  {
    var next := Before(limit, roomId, CursorOf(rows[j]));
    assert rows[j].id in Joined(db);
    if id in WhereIds(db, next) {
      assert id in Ids(rows);
      var k :| 0 <= k < |rows| && rows[k].id == id;
      assert k > j ==> RowPrecedes(db, false, rows[j], rows[k]);
    }
    if k :| 0 <= k < |rows| && rows[k].id == id &&
              (rows[k].sent.instant < rows[j].sent.instant || (rows[k].sent.instant == rows[j].sent.instant && k < j)) {
      assert rows[k].id in Ids(rows);
      assert k < j ==> RowPrecedes(db, false, rows[k], rows[j]);
    }
  }

  /** A closing message with a timestamp of its own leaves exactly the rows behind it. */
  lemma AloneFacesRest(db: Database, limit: int, roomId: string, cursor: MessageCursor, rows: seq<Message>, j: nat)
    requires ValidDatabase(db) && Facing(db, limit, roomId, cursor, rows) && j < |rows|
    requires j > 0 ==> rows[j - 1].sent.instant != rows[j].sent.instant
    requires j + 1 < |rows| ==> rows[j + 1].sent.instant != rows[j].sent.instant
    ensures Facing(db, limit, roomId, CursorOf(rows[j]), rows[j + 1..])
  {
    var next, rest := Before(limit, roomId, CursorOf(rows[j])), rows[j + 1..];
    DescendingTimes(db, Before(limit, roomId, cursor), rows, j);
    forall id ensures id in WhereIds(db, next) <==> id in Ids(rest) {
      BehindRow(db, limit, roomId, cursor, rows, j, id);
      BehindIds(rows, j, id);
    }
    assert Ids(rest) == WhereIds(db, next);
    RestUntied(db, roomId, rows, j);
  }

  lemma BehindIds(rows: seq<Message>, j: nat, id: string)
    requires j < |rows|
    requires forall k :: 0 <= k < |rows| ==> (rows[k].sent.instant < rows[j].sent.instant <==> j < k)
    requires forall k :: 0 <= k < j ==> rows[j].sent.instant < rows[k].sent.instant
    ensures id in Ids(rows[j + 1..]) <==>
            exists k :: 0 <= k < |rows| && rows[k].id == id &&
              (rows[k].sent.instant < rows[j].sent.instant || (rows[k].sent.instant == rows[j].sent.instant && k < j))
  {
    var rest := rows[j + 1..];
    if id in Ids(rest) {
      var k :| 0 <= k < |rest| && rest[k].id == id;
      assert rows[j + 1 + k].id == id;
    }
    if k :| 0 <= k < |rows| && rows[k].id == id && j < k {
      assert rest[k - j - 1].id == id;
    }
  }

  lemma RestUntied(db: Database, roomId: string, rows: seq<Message>, j: nat)
    requires j < |rows| && NothingTiedOutside(db, roomId, rows)
    requires forall k :: 0 <= k < |rows| ==> rows[k].id in Joined(db) && Joined(db)[rows[k].id] == rows[k]
    requires forall k, l :: 0 <= k <= j < l < |rows| ==> rows[l].sent.instant < rows[k].sent.instant
    ensures NothingTiedOutside(db, roomId, rows[j + 1..])
  {
    var rest := rows[j + 1..];
    forall id, k | id in Joined(db) && InRoom(roomId, Joined(db)[id]) && id !in Ids(rest) && 0 <= k < |rest|
      ensures rest[k].sent.instant < Joined(db)[id].sent.instant
    {
      assert rest[k] == rows[j + 1 + k];
      if id in Ids(rows) {
        var l :| 0 <= l < |rows| && rows[l].id == id;
        assert forall i :: j < i < |rows| ==> rest[i - j - 1].id == rows[i].id;
        assert l <= j;
      }
    }
  }

  lemma DescendingTimes(db: Database, o: GetMessageOptions, rows: seq<Message>, j: nat)
    requires o.after.IsEmpty() && Selects(db, o, rows) && j < |rows|
    ensures forall k :: 0 <= k <= j ==> rows[j].sent.instant <= rows[k].sent.instant
    ensures forall k :: j <= k < |rows| ==> rows[k].sent.instant <= rows[j].sent.instant
    ensures j > 0 && rows[j - 1].sent.instant != rows[j].sent.instant ==>
              forall k :: 0 <= k < j ==> rows[j].sent.instant < rows[k].sent.instant
    ensures j + 1 < |rows| && rows[j + 1].sent.instant != rows[j].sent.instant ==>
              forall k :: j < k < |rows| ==> rows[k].sent.instant < rows[j].sent.instant
  {
    forall i, k | 0 <= i < k < |rows| ensures rows[k].sent.instant <= rows[i].sent.instant {
      assert RowPrecedes(db, false, rows[i], rows[k]);
    }
  }

  /** A closing message that shares its timestamp leaves something else: the walk goes on wrongly, or stops short. */
  lemma TiedGoesWrong(db: Database, pages: seq<seq<Message>>, limit: int, roomId: string, cursor: MessageCursor,
                      rows: seq<Message>, j: nat)
    requires ValidDatabase(db) && Facing(db, limit, roomId, cursor, rows) && j < |rows|
    requires (j > 0 && rows[j - 1].sent.instant == rows[j].sent.instant)
          || (j + 1 < |rows| && rows[j + 1].sent.instant == rows[j].sent.instant)
    requires IsQueryWalk(db, pages, true, limit, roomId, CursorOf(rows[j])) && Finished(pages)
    ensures Concat(pages) != rows[j + 1..]
  {
    var next := Before(limit, roomId, CursorOf(rows[j]));
    var own :| Selects(db, next, own) && pages[0] == First(Limit(next), own);
    assert Concat(pages) == pages[0] + Concat(pages[1..]);
    DescendingTimes(db, Before(limit, roomId, cursor), rows, j);
    if j > 0 && rows[j - 1].sent.instant == rows[j].sent.instant {
      BehindRow(db, limit, roomId, cursor, rows, j, rows[j - 1].id);
      FirstIsTied(db, limit, roomId, cursor, rows, j, own);
    } else {
      FirstIsLater(db, limit, roomId, cursor, rows, j, own);
    }
  }

  lemma FirstIsTied(db: Database, limit: int, roomId: string, cursor: MessageCursor, rows: seq<Message>, j: nat,
                    own: seq<Message>)
    requires ValidDatabase(db) && Facing(db, limit, roomId, cursor, rows) && 0 < j < |rows|
    requires rows[j - 1].sent.instant == rows[j].sent.instant
    requires Selects(db, Before(limit, roomId, CursorOf(rows[j])), own)
    ensures own != [] && own[0] !in rows[j + 1..]
  {
    BehindRow(db, limit, roomId, cursor, rows, j, rows[j - 1].id);
    assert rows[j - 1].id in Ids(own);
    DescendingTimes(db, Before(limit, roomId, CursorOf(rows[j])), own, 0);
    assert own[0].id in Ids(own);
    BehindRow(db, limit, roomId, cursor, rows, j, own[0].id);
    var k :| 0 <= k < |rows| && rows[k].id == own[0].id &&
             (rows[k].sent.instant < rows[j].sent.instant || (rows[k].sent.instant == rows[j].sent.instant && k < j));
    assert rows[k] == own[0];
    assert rows[j].sent.instant <= own[0].sent.instant;
    assert k < j;
  }

  lemma FirstIsLater(db: Database, limit: int, roomId: string, cursor: MessageCursor, rows: seq<Message>, j: nat,
                     own: seq<Message>)
    requires ValidDatabase(db) && Facing(db, limit, roomId, cursor, rows) && j + 1 < |rows|
    requires rows[j + 1].sent.instant == rows[j].sent.instant
    requires j > 0 ==> rows[j - 1].sent.instant != rows[j].sent.instant
    requires Selects(db, Before(limit, roomId, CursorOf(rows[j])), own)
    ensures own != [] ==> own[0] != rows[j + 1]
  {
    if own != [] {
      assert own[0].id in Ids(own);
      BehindRow(db, limit, roomId, cursor, rows, j, own[0].id);
      DescendingTimes(db, Before(limit, roomId, cursor), rows, j);
      var k :| 0 <= k < |rows| && rows[k].id == own[0].id &&
               (rows[k].sent.instant < rows[j].sent.instant || (rows[k].sent.instant == rows[j].sent.instant && k < j));
      assert rows[k] == own[0];
    }
  }

  lemma {:induction false} BeforeWalkFrom(db: Database, pages: seq<seq<Message>>, limit: int, roomId: string,
                                          cursor: MessageCursor, rows: seq<Message>)
    requires ValidDatabase(db) && Facing(db, limit, roomId, cursor, rows)
    requires IsQueryWalk(db, pages, true, limit, roomId, cursor) && Finished(pages)
    ensures Concat(pages) == rows <==> ClosersAlone(Times(rows), if limit == 0 then 100 else limit)
  {
    hide IsResult, Facing, ValidDatabase, ClosersAlone, Times;
    var o, page, n := Before(limit, roomId, cursor), pages[0], |pages[0]|;
    FacingResult(db, limit, roomId, cursor, rows, page);
    assert Concat(pages) == page + Concat(pages[1..]);
    if |pages| == 1 {
      NoClosers(if limit == 0 then 100 else limit);
    } else {
      var rest := rows[n..];
      assert rows == page + rest;
      CutClosers(rows, n, if limit == 0 then 100 else limit);
      if (n > 1 ==> rows[n - 2].sent.instant != rows[n - 1].sent.instant)
         && (n < |rows| ==> rows[n].sent.instant != rows[n - 1].sent.instant) {
        AloneFacesRest(db, limit, roomId, cursor, rows, n - 1);
        BeforeWalkFrom(db, pages[1..], limit, roomId, LastCursor(page), rest);
      } else {
        TiedGoesWrong(db, pages[1..], limit, roomId, cursor, rows, n - 1);
      }
    }
  }

  lemma NoClosers(limit: int)
    ensures ClosersAlone([], limit)
  {
  }

  lemma CutClosers(rows: seq<Message>, n: nat, limit: int)
    requires rows != [] && n == PageSize(limit, |rows|)
    ensures ClosersAlone(Times(rows), limit) <==>
            && (n > 1 ==> rows[n - 2].sent.instant != rows[n - 1].sent.instant)
            && (n < |rows| ==> rows[n].sent.instant != rows[n - 1].sent.instant)
            && ClosersAlone(Times(rows[n..]), limit)
  {
    assert Times(rows)[n..] == Times(rows[n..]);
  }

  lemma FacingResult(db: Database, limit: int, roomId: string, cursor: MessageCursor, rows: seq<Message>,
                     page: seq<Message>)
    requires ValidDatabase(db) && Facing(db, limit, roomId, cursor, rows)
    requires IsResult(db, Before(limit, roomId, cursor), page)
    ensures page <= rows
    ensures |page| == PageSize(if limit == 0 then 100 else limit, |rows|)
    ensures page == [] <==> rows == []
    ensures Times(rows) == [] <==> rows == []
  {
    ResultIsFirst(db, Before(limit, roomId, cursor), rows, page);
  }

  /**
    A finished Before walk lists the room's rows exactly once, in order, if and only if every message
    that closes a page has a timestamp of its own: the filter compares message_id downward while the
    order runs it upward.
   */
  lemma BeforeWalkExactlyOnce(db: Database, pages: seq<seq<Message>>, limit: int, roomId: string, rows: seq<Message>)
    requires ValidDatabase(db)
    requires Selects(db, Before(limit, roomId, EMPTY_CURSOR), rows)
    requires IsQueryWalk(db, pages, true, limit, roomId, EMPTY_CURSOR) && Finished(pages)
    ensures Concat(pages) == rows <==> ClosersAlone(Times(rows), if limit == 0 then 100 else limit)
  {
    assert Facing(db, limit, roomId, EMPTY_CURSOR, rows);
    BeforeWalkFrom(db, pages, limit, roomId, EMPTY_CURSOR, rows);
  }

  /** Two rows sent at the same time, with their members' names. */
  ghost predicate Tied(db: Database, a: Message, b: Message) {
    && db.messages == map[a.id := a, b.id := b] && a.memberId in db.members && b.memberId in db.members
    && db.members[a.memberId] == a.memberName && db.members[b.memberId] == b.memberName
    && a.sent == b.sent && a.roomId == b.roomId && db.rank(a.id) < db.rank(b.id)
  }

  lemma TiedPages(db: Database, a: Message, b: Message)
    requires ValidDatabase(db) && Tied(db, a, b)
    ensures IsResult(db, Before(1, a.roomId, EMPTY_CURSOR), [a])
    ensures IsResult(db, Before(1, a.roomId, CursorOf(a)), [])
  {
    var first, second := Before(1, a.roomId, EMPTY_CURSOR), Before(1, a.roomId, CursorOf(a));
    assert Ids([a, b]) == {a.id, b.id} by { assert [a, b][0].id == a.id && [a, b][1].id == b.id; }
    assert WhereIds(db, first) == {a.id, b.id};
    assert Selects(db, first, [a, b]);
    assert [a] == First(1, [a, b]);
    assert WhereIds(db, second) == {};
    assert Selects(db, second, []);
    assert First(1, []) == [];
  }

  /** With a limit of one, a client reading the room from its newest message on is never shown the second of them. */
  lemma TiedRowIsSkipped(db: Database, a: Message, b: Message)
    requires ValidDatabase(db) && Tied(db, a, b)
    ensures IsQueryWalk(db, [[a], []], true, 1, a.roomId, EMPTY_CURSOR) && Finished([[a], []])
    ensures Concat([[a], []]) == [a] && b.id in WhereIds(db, Before(1, a.roomId, EMPTY_CURSOR))
  {
    hide IsResult;
    TiedPages(db, a, b);
    assert [[a], []][1..] == [[]];
    assert Concat([[a], []]) == [a] + Concat([[]]) && Concat([[]]) == [] + Concat([]);
    assert IsQueryWalk(db, [[]], true, 1, a.roomId, CursorOf(a));
  }
}
