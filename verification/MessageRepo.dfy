/** The in-memory message repository (sharechat/memory/message.go). */
module MessageRepo {
  import opened Rfc3339
  import opened Messages
  import opened History

  class Repo {
    var messages: Store

    ghost predicate Valid()
      reads this
    {
      Keyed(messages)
    }

    constructor ()
      ensures Valid() && messages == map[]
    {
      messages := map[];
    }

    /** `now` is the clock reading taken under the lock. */
    method InsertMessage(message: Message, now: Time) returns (result: Message)
      requires Valid()
      modifies this
      ensures Valid()
      ensures result == message.(sent := now)
      ensures messages == old(messages)[message.id := result]
    {
      result := message.(sent := now);
      messages := messages[message.id := result];
    }

    method GetMessages(o: GetMessageOptions) returns (page: seq<Message>)
      requires Valid()
      ensures IsPage(messages, o, page)
    {
      var slice := Sorted(NewestFirst(o));
      ghost var s := slice[..];

      hide IsPage, IsListing, Ordered, Matches, Precedes, NewestFirst, Keyed;
      page := [];
      ghost var kept: seq<nat> := [];
      var i := 0;
      while i < slice.Length
        invariant 0 <= i <= |s|
        invariant slice[..] == s && |s| == slice.Length
        invariant Scanned(o, s, i, page, kept)
        invariant o.limit > 0 ==> |page| <= o.limit
      {
        if o.limit > 0 && |page| >= o.limit {
          break;
        }
        var message := slice[i];
        if Matches(o, message) {
          page := page + [message];
          kept := kept + [i];
        }
        i := i + 1;
      }
      ScannedIsPage(messages, o, s, i, page, kept);
    }

    /** The slice of all stored messages, sorted in the given direction. */
    method Sorted(newestFirst: bool) returns (slice: array<Message>)
      requires Valid()
      ensures fresh(slice)
      ensures IsListing(messages, slice[..]) && Ordered(newestFirst, slice[..])
    {
      var sortedMessages := Values();
      slice := new Message[|sortedMessages|](i requires 0 <= i < |sortedMessages| => sortedMessages[i]);
      assert slice[..] == sortedMessages;
      SortSlice(slice, newestFirst);
      ListingSurvivesSort(messages, sortedMessages, slice[..]);
    }

    /** The range over the map: every stored message once, in an arbitrary order. */
    method Values() returns (s: seq<Message>)
      requires Valid()
      ensures IsListing(messages, s)
    {
      s := [];
      var left := messages.Keys;
      while left != {}
        invariant left <= messages.Keys
        invariant DistinctIds(s)
        invariant forall k :: 0 <= k < |s| ==> s[k].id in messages && messages[s[k].id] == s[k]
        invariant Ids(s) == messages.Keys - left
        decreases left
      {
        var id :| id in left;
        ghost var was := s;
        s := s + [messages[id]];
        left := left - {id};
        assert Ids(s) == Ids(was) + {id} by {
          assert s[|was|].id == id;
          assert forall k :: 0 <= k < |was| ==> s[k] == was[k];
        }
        assert id !in Ids(was);
      }
    }
  }

  /** The whole store, each message once. */
  ghost predicate IsListing(store: Store, s: seq<Message>) {
    && DistinctIds(s)
    && (forall k :: 0 <= k < |s| ==> s[k].id in store && store[s[k].id] == s[k])
    && Ids(s) == store.Keys
  }

  /** sort.Slice: some arrangement in the given direction; ties fall in any order. */
  method SortSlice(a: array<Message>, newestFirst: bool)
    modifies a
    ensures Ordered(newestFirst, a[..])
    ensures multiset(a[..]) == multiset(old(a[..]))
  {
    var i := 0;
    while i < a.Length
      invariant 0 <= i <= a.Length
      invariant forall p, q :: 0 <= p < q < i ==> !Precedes(newestFirst, a[q], a[p])
      invariant multiset(a[..]) == multiset(old(a[..]))
    {
      SiftDown(a, newestFirst, i);
      i := i + 1;
    }
  }

  method SiftDown(a: array<Message>, newestFirst: bool, i: nat)
    requires i < a.Length
    requires forall p, q :: 0 <= p < q < i ==> !Precedes(newestFirst, a[q], a[p])
    modifies a
    ensures forall p, q :: 0 <= p < q <= i ==> !Precedes(newestFirst, a[q], a[p])
    ensures multiset(a[..]) == multiset(old(a[..]))
  {
    var j := i;
    while j > 0 && Precedes(newestFirst, a[j], a[j - 1])
      invariant 0 <= j <= i
      invariant forall p, q :: 0 <= p < q <= i && q != j ==> !Precedes(newestFirst, a[q], a[p])
      invariant multiset(a[..]) == multiset(old(a[..]))
    {
      a[j], a[j - 1] := a[j - 1], a[j];
      j := j - 1;
    }
  }

  lemma {:induction false} OncePerId(s: seq<Message>, m: Message)
    requires DistinctIds(s)
    ensures multiset(s)[m] <= 1
  {
    if s != [] {
      var init := s[..|s| - 1];
      OncePerId(init, m);
      assert s == init + [s[|s| - 1]];
      if m == s[|s| - 1] {
        assert m !in init;
      }
    }
  }

  lemma TwiceInMultiset(s: seq<Message>, i: nat, j: nat)
    requires i < j < |s| && s[i] == s[j]
    ensures multiset(s)[s[i]] >= 2
  {
    assert s == s[..j] + s[j..];
    assert s[i] in s[..j] && s[i] in s[j..];
    assert multiset(s) == multiset(s[..j]) + multiset(s[j..]);
  }

  lemma ListingSurvivesSort(store: Store, s: seq<Message>, t: seq<Message>)
    requires IsListing(store, s)
    requires multiset(t) == multiset(s)
    ensures IsListing(store, t)
  {
    forall k | 0 <= k < |t| ensures t[k] in s {
      assert t[k] in multiset(t);
    }
    forall k | 0 <= k < |s| ensures s[k] in t {
      assert s[k] in multiset(s);
    }
    forall i, j | 0 <= i < j < |t| ensures t[i].id != t[j].id {
      if t[i].id == t[j].id {
        assert t[i] == store[t[i].id] == t[j];
        TwiceInMultiset(t, i, j);
        OncePerId(s, t[i]);
      }
    }
    assert Ids(t) == Ids(s);
  }

  /** The scan loop has looked at the first `i` sorted messages and kept those at the positions `kept`. */
  ghost predicate Scanned(o: GetMessageOptions, s: seq<Message>, i: nat, page: seq<Message>, kept: seq<nat>)
    requires i <= |s|
  {
    && |kept| == |page|
    && (forall k :: 0 <= k < |kept| ==> kept[k] < i && page[k] == s[kept[k]] && Matches(o, page[k]))
    && (forall k, l :: 0 <= k < l < |kept| ==> kept[k] < kept[l])
    && (forall j: nat :: j < i && Matches(o, s[j]) ==> j in kept)
  }

  lemma ScannedIsPage(store: Store, o: GetMessageOptions, s: seq<Message>, i: nat, page: seq<Message>, kept: seq<nat>)
    requires IsListing(store, s) && Ordered(NewestFirst(o), s)
    requires i <= |s| && Scanned(o, s, i, page, kept)
    requires o.limit > 0 ==> |page| <= o.limit
    requires i < |s| ==> 0 < o.limit == |page|
    ensures IsPage(store, o, page)
  {
    var matching := MatchingIds(store, o);
    assert DistinctIds(page);
    assert Ordered(NewestFirst(o), page);
    assert |page| == (if 0 < o.limit < |matching| then o.limit else |matching|) by {
      PageCount(store, o, s, i, page, kept);
    }
    forall id, k | id in matching && id !in Ids(page) && 0 <= k < |page|
      ensures !Precedes(NewestFirst(o), store[id], page[k])
    {
      var j := PositionOf(store, s, id);
      ScanCovers(o, s, i, page, kept);
      assert kept[k] < i <= j;
    }
  }

  lemma ScanCovers(o: GetMessageOptions, s: seq<Message>, i: nat, page: seq<Message>, kept: seq<nat>)
    requires i <= |s| && Scanned(o, s, i, page, kept)
    ensures forall j: nat :: j < i && Matches(o, s[j]) ==> s[j].id in Ids(page)
  {
    forall j: nat | j < i && Matches(o, s[j]) ensures s[j].id in Ids(page) {
      var k :| 0 <= k < |kept| && kept[k] == j;
      assert page[k].id == s[j].id;
    }
  }

  lemma PageCount(store: Store, o: GetMessageOptions, s: seq<Message>, i: nat, page: seq<Message>, kept: seq<nat>)
    requires IsListing(store, s) && DistinctIds(page)
    requires i <= |s| && Scanned(o, s, i, page, kept)
    requires o.limit > 0 ==> |page| <= o.limit
    requires i < |s| ==> 0 < o.limit == |page|
    ensures var matching := MatchingIds(store, o);
            |page| == (if 0 < o.limit < |matching| then o.limit else |matching|)
  {
    var matching := MatchingIds(store, o);
    assert Ids(page) <= matching;
    IdsCount(page);
    SubsetSize(Ids(page), matching);
    if i == |s| {
      ScanCovers(o, s, i, page, kept);
      forall id | id in matching ensures id in Ids(page) {
        var j := PositionOf(store, s, id);
      }
      assert Ids(page) == matching;
    }
  }

  lemma PositionOf(store: Store, s: seq<Message>, id: string) returns (j: nat)
    requires IsListing(store, s) && id in store
    ensures j < |s| && s[j] == store[id]
  {
    assert id in Ids(s);
    j :| 0 <= j < |s| && s[j].id == id;
  }
}
