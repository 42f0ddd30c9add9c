/**
  What a page of message history is (sharechat/memory/message.go, GetMessages), stated over the
  stored messages without reference to the loop that computes it.
 */
module History {
  import opened Messages

  type Store = map<string, Message>

  /** Messages are filed under their own ID. */
  predicate Keyed(store: Store) {
    forall id :: id in store ==> store[id].id == id
  }

  /** The direction the page is read in: oldest first only when the request has just an `after` cursor. */
  predicate NewestFirst(o: GetMessageOptions) {
    !o.before.IsEmpty() || o.after.IsEmpty()
  }

  predicate Precedes(newestFirst: bool, a: Message, b: Message) {
    if newestFirst then b.sent.instant < a.sent.instant else a.sent.instant < b.sent.instant
  }

  predicate Matches(o: GetMessageOptions, m: Message) {
    && m.id != o.before.id && m.id != o.after.id
    && (o.roomId != "" ==> m.roomId == o.roomId)
    && (o.before.id != "" ==> m.sent.instant <= o.before.sent.instant)
    && (o.after.id != "" ==> o.after.sent.instant <= m.sent.instant)
  }

  ghost predicate Ordered(newestFirst: bool, s: seq<Message>) {
    forall i, j :: 0 <= i < j < |s| ==> !Precedes(newestFirst, s[j], s[i])
  }

  ghost predicate DistinctIds(s: seq<Message>) {
    forall i, j :: 0 <= i < j < |s| ==> s[i].id != s[j].id
  }

  ghost function Ids(s: seq<Message>): set<string> {
    set k | 0 <= k < |s| :: s[k].id
  }

  ghost function MatchingIds(store: Store, o: GetMessageOptions): set<string> {
    set id | id in store && Matches(o, store[id])
  }

  /**
    `page` lists, in the requested direction and each once, the first min(limit, k) of the k stored
    messages that match, or all of them without a positive limit.
   */
  ghost predicate IsPage(store: Store, o: GetMessageOptions, page: seq<Message>) {
    var matching := MatchingIds(store, o);
    && DistinctIds(page)
    && Ordered(NewestFirst(o), page)
    && (forall k :: 0 <= k < |page| ==> page[k].id in matching && store[page[k].id] == page[k])
    && |page| == (if 0 < o.limit < |matching| then o.limit else |matching|)
    && (forall id, k :: id in matching && id !in Ids(page) && 0 <= k < |page| ==>
          !Precedes(NewestFirst(o), store[id], page[k]))
  }

  lemma {:induction false} IdsCount(s: seq<Message>)
    requires DistinctIds(s)
    ensures |Ids(s)| == |s|
  {
    if s == [] {
      assert Ids(s) == {};
    } else {
      var init := s[..|s| - 1];
      IdsCount(init);
      assert Ids(s) == Ids(init) + {s[|s| - 1].id};
      assert s[|s| - 1].id !in Ids(init);
    }
  }

  lemma SubsetSize<T>(a: set<T>, b: set<T>)
    requires a <= b
    ensures |a| <= |b|
  {
    assert b == a + (b - a);
  }

  /** `listing` holds every matching message once, strictly ordered. */
  ghost predicate Lists(store: Store, o: GetMessageOptions, listing: seq<Message>) {
    && (forall i, j :: 0 <= i < j < |listing| ==> Precedes(NewestFirst(o), listing[i], listing[j]))
    && DistinctIds(listing)
    && (forall k :: 0 <= k < |listing| ==> listing[k].id in store && store[listing[k].id] == listing[k])
    && Ids(listing) == MatchingIds(store, o)
  }

  function First(limit: int, s: seq<Message>): seq<Message> {
    if 0 < limit < |s| then s[..limit] else s
  }

  /** When the matching messages have a strict order, the page is its beginning: nothing is left to chance. */
  lemma PageIsFirst(store: Store, o: GetMessageOptions, listing: seq<Message>, page: seq<Message>)
    requires Lists(store, o, listing)
    requires IsPage(store, o, page)
    ensures page == First(o.limit, listing)
  {
    IdsCount(listing);
    PagePrefix(store, o, listing, page, |page|);
    assert page == listing[..|page|];
  }

  /** And its beginning is a page. */
  lemma FirstIsPage(store: Store, o: GetMessageOptions, listing: seq<Message>)
    requires Lists(store, o, listing)
    ensures IsPage(store, o, First(o.limit, listing))
  {
    var page := First(o.limit, listing);
    IdsCount(listing);
    forall k | 0 <= k < |page| ensures page[k].id in MatchingIds(store, o) {
      assert page[k] == listing[k] && listing[k].id in Ids(listing);
    }
    forall id, k | id in MatchingIds(store, o) && id !in Ids(page) && 0 <= k < |page|
      ensures !Precedes(NewestFirst(o), store[id], page[k])
    {
      var j :| 0 <= j < |listing| && listing[j].id == id;
      assert forall l :: 0 <= l < |page| ==> listing[l] == page[l] && page[l].id in Ids(page);
      assert |page| <= j;
    }
  }

  lemma {:induction false} PagePrefix(store: Store, o: GetMessageOptions, listing: seq<Message>, page: seq<Message>,
                                      n: nat)
    requires Lists(store, o, listing)
    requires IsPage(store, o, page)
    requires n <= |page| <= |listing|
    ensures page[..n] == listing[..n]
  {
    hide Lists, IsPage;
    if n > 0 {
      PagePrefix(store, o, listing, page, n - 1);
      NextAgrees(store, o, listing, page, n - 1);
      assert page[..n] == page[..n - 1] + [page[n - 1]];
      assert listing[..n] == listing[..n - 1] + [listing[n - 1]];
    }
  }

  /** What the first i messages of a page leave out does not stand before the next one. */
  lemma NotBefore(store: Store, o: GetMessageOptions, page: seq<Message>, i: nat, m: Message)
    requires IsPage(store, o, page) && i < |page|
    requires m.id in MatchingIds(store, o) && store[m.id] == m && m !in page[..i]
    ensures !Precedes(NewestFirst(o), m, page[i])
  {
    hide Matches, NewestFirst, MatchingIds;
    if m.id in Ids(page) {
      var j :| 0 <= j < |page| && page[j].id == m.id;
      assert page[j] == m;
      assert forall l :: 0 <= l < i ==> page[l] == page[..i][l] && page[l] != m;
      assert i <= j;
    }
  }

  lemma NextAgrees(store: Store, o: GetMessageOptions, listing: seq<Message>, page: seq<Message>, i: nat)
    requires Lists(store, o, listing)
    requires IsPage(store, o, page)
    requires i < |page| <= |listing| && page[..i] == listing[..i]
    ensures page[i] == listing[i]
  {
    var k := PageEntry(store, o, listing, page, i);
    var m := listing[i];
    assert m.id in Ids(listing);
    assert m !in listing[..i];
    NotBefore(store, o, page, i, m);
    hide IsPage, Matches, Precedes, NewestFirst;
    assert forall l :: i < l < |listing| ==> Precedes(NewestFirst(o), m, listing[l]);
  }

  lemma PageEntry(store: Store, o: GetMessageOptions, listing: seq<Message>, page: seq<Message>, i: nat)
    returns (k: nat)
    requires Lists(store, o, listing)
    requires IsPage(store, o, page)
    requires i < |page| <= |listing| && page[..i] == listing[..i]
    ensures i <= k < |listing| && listing[k] == page[i]
  {
    hide Matches, Precedes, NewestFirst, Ordered;
    k := PositionIn(store, o, listing, page[i]);
    assert forall j :: 0 <= j < i ==>
        listing[j] == listing[..i][j] == page[..i][j] == page[j] && page[j].id != page[i].id;
  }

  lemma PositionIn(store: Store, o: GetMessageOptions, listing: seq<Message>, m: Message) returns (k: nat)
    requires Lists(store, o, listing)
    requires m.id in MatchingIds(store, o) && store[m.id] == m
    ensures k < |listing| && listing[k] == m
  {
    assert m.id in Ids(listing);
    k :| 0 <= k < |listing| && listing[k].id == m.id;
  }
}
