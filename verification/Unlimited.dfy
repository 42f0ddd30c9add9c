/** A room with more than a hundred messages, held by both repositories and asked for without a limit. */
module Unlimited {
  import opened Wrappers
  import opened Rfc3339
  import opened Messages
  import opened History
  import opened Walk
  import opened Postgres
  import Calendar
  import Handler

  const CHARS := 0x11_0000

  /** Strings as numbers; the order stands for a collation, of which only that it tells IDs apart matters. */
  function Code(s: string): nat {
    if s == "" then 0 else 1 + s[0] as int + CHARS * Code(s[1..])
  }

  lemma {:induction false} CodeIsOneToOne(a: string, b: string)
    requires Code(a) == Code(b)
    ensures a == b
  {
    if a != "" && b != "" {
      CodeIsOneToOne(a[1..], b[1..]);
      assert a == [a[0]] + a[1..] && b == [b[0]] + b[1..];
    }
  }

  function MessageAt(k: nat): Message {
    Message(
      seq(k + 1, _ => 'm'), "room", "member", "name", Chat, "text", Time(k, Civil(1, 1, 1, 0, 0, 0, k, 0)))
  }

  function Log(n: nat): (log: seq<Message>)
    ensures |log| == n && forall k :: 0 <= k < n ==> log[k] == MessageAt(k)
  {
    seq(n, k requires 0 <= k < n => MessageAt(k))
  }

  function StoreOf(n: nat): Store {
    if n == 0 then map[] else StoreOf(n - 1)[MessageAt(n - 1).id := MessageAt(n - 1)]
  }

  /** What the store holds besides being filed by its log. */
  ghost predicate Fits(store: Store) {
    && Keyed(store)
    && forall id :: id in store ==> id != "" && store[id].memberId == "member" && store[id].memberName == "name"
  }

  lemma {:induction false} Filled(n: nat)
    ensures IsLog(StoreOf(n), Log(n)) && Fits(StoreOf(n))
    ensures RoomLog(Log(n), "room") == Log(n)
  {
    if n == 0 {
      assert Log(0) == [];
    } else {
      var m := MessageAt(n - 1);
      Filled(n - 1);
      NextMessage(n - 1);
      hide IsLog, MessageAt, Fits, Log;
      OneMore(StoreOf(n - 1), Log(n - 1), m);
    }
  }

  /** The next message extends the log and is new in every respect that matters. */
  lemma NextMessage(n: nat)
    requires IsLog(StoreOf(n), Log(n))
    ensures Log(n + 1) == Log(n) + [MessageAt(n)]
    ensures var m := MessageAt(n);
            m.id != "" && m.id !in StoreOf(n) && m.roomId == "room" && m.memberId == "member" && m.memberName == "name"
    ensures forall k :: 0 <= k < |Log(n)| ==> Log(n)[k].sent.instant < MessageAt(n).sent.instant
  {
    hide StoreOf;
    assert forall k :: 0 <= k < n ==> |Log(n)[k].id| == k + 1;
    assert |MessageAt(n).id| == n + 1;
    assert StoreOf(n).Keys == Ids(Log(n));
  }

  lemma OneMore(store: Store, log: seq<Message>, m: Message)
    requires IsLog(store, log) && Fits(store) && RoomLog(log, "room") == log
    requires m.id != "" && m.id !in store && m.roomId == "room" && m.memberId == "member" && m.memberName == "name"
    requires forall k :: 0 <= k < |log| ==> log[k].sent.instant < m.sent.instant
    ensures var next := store[m.id := m]; IsLog(next, log + [m]) && Fits(next)
    ensures RoomLog(log + [m], "room") == log + [m]
  {
    hide IsLog, Fits;
    InsertExtendsLog(store, log, m);
    StillFits(store, m);
    assert (log + [m])[..|log|] == log;
  }

  lemma StillFits(store: Store, m: Message)
    requires Fits(store) && m.id != "" && m.memberId == "member" && m.memberName == "name"
    ensures Fits(store[m.id := m])
  {
  }

  function DatabaseOf(n: nat): Database {
    Database(StoreOf(n), map["member" := "name"], s => Code(s) as real)
  }

  lemma DatabaseFits(n: nat)
    ensures ValidDatabase(DatabaseOf(n)) && SameContent(DatabaseOf(n), StoreOf(n)) && DistinctTimes(StoreOf(n))
  {
    hide StoreOf, Log;
    Filled(n);
    forall a, b | DatabaseOf(n).rank(a) == DatabaseOf(n).rank(b) ensures a == b {
      CodeIsOneToOne(a, b);
    }
    LogTimes(StoreOf(n), Log(n));
  }

  lemma LogTimes(store: Store, log: seq<Message>)
    requires IsLog(store, log)
    ensures DistinctTimes(store)
  {
    forall a, b | a in store && b in store && a != b ensures store[a].sent.instant != store[b].sent.instant {
      assert a in Ids(log) && b in Ids(log);
      var j :| 0 <= j < |log| && log[j].id == a;
      var k :| 0 <= k < |log| && log[k].id == b;
    }
  }

  /** With `n` messages, more than a hundred, memory returns them all and Postgres the newest hundred. */
  lemma OnlyTheNewestHundred(n: nat) returns (page: seq<Message>, result: seq<Message>)
    requires n > 100
    ensures ValidDatabase(DatabaseOf(n)) && SameContent(DatabaseOf(n), StoreOf(n)) && DistinctTimes(StoreOf(n))
    ensures IsPage(StoreOf(n), Before(0, "room", EMPTY_CURSOR), page) && page == Reverse(Log(n))
    ensures IsResult(DatabaseOf(n), Before(0, "room", EMPTY_CURSOR), result) && result == page[..100]
  {
    hide StoreOf, IsPage, IsResult, Lists, ValidDatabase, SameContent, DistinctTimes, IsLog, DatabaseOf, RoomLog,
      Reverse, Fits;
    var o := Before(0, "room", EMPTY_CURSOR);
    Filled(n);
    DatabaseFits(n);
    BeforeLists(StoreOf(n), Log(n), 0, "room", EMPTY_CURSOR, n);
    assert Log(n)[..n] == Log(n);
    page := Reverse(Log(n));
    FirstIsPage(StoreOf(n), o, page);
    ListingSelects(DatabaseOf(n), StoreOf(n), o, page);
    result := page[..100];
  }

  /** Such a store is one the endpoint's clients are promised a walk over. */
  lemma StoreIsPrintable(n: nat)
    requires n <= NANOS_PER_SECOND
    ensures Handler.PrintableStore(StoreOf(n)) && IsLog(StoreOf(n), Log(n))
  {
    hide StoreOf, Log;
    Filled(n);
    forall id | id in StoreOf(n) ensures Handler.Printable(StoreOf(n)[id]) {
      assert id in Ids(Log(n));
      var k :| 0 <= k < n && Log(n)[k].id == id;
      assert StoreOf(n)[id] == MessageAt(k);
      MessageIsPrintable(k);
    }
  }

  lemma MessageIsPrintable(k: nat)
    requires k < NANOS_PER_SECOND
    ensures Handler.Printable(MessageAt(k))
  {
    Calendar.Origin();
    Calendar.NanosAndOffset(Civil(1, 1, 1, 0, 0, 0, 0, 0), k, 0);
    hide InstantOf;
    assert forall l :: 0 <= l < |MessageAt(k).id| ==> MessageAt(k).id[l] == 'm';
  }
}
