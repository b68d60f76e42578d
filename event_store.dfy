/** DataManager.swift: the in-memory list of events and its mutators. */
module EventStore {
  import opened Wrappers
  import opened Seqs
  import opened EventModel

  ghost predicate SortedByDate(s: seq<Event>) {
    forall i, j :: 0 <= i < j < |s| ==> s[i].date <= s[j].date
  }

  ghost predicate UniqueIds(s: seq<Event>) {
    forall i, j :: 0 <= i < j < |s| ==> s[i].id != s[j].id
  }

  ghost predicate HasNoId(s: seq<Event>, id: Uuid) {
    forall i :: 0 <= i < |s| ==> s[i].id != id
  }

  /** Every stored event's checklist has unique item identifiers. */
  ghost predicate ChecklistIdsUnique(s: seq<Event>) {
    forall i :: 0 <= i < |s| ==> UniqueItemIds(s[i].checklistItems)
  }

  /** `r` is the answer `firstIndex(where: { $0.id == id })` must give. */
  ghost predicate IsFirstMatch(s: seq<Event>, id: Uuid, r: Option<nat>) {
    match r
    case Some(i) => i < |s| && s[i].id == id && forall j :: 0 <= j < i ==> s[j].id != id
    case None => HasNoId(s, id)
  }

  /** `firstIndex(where: { $0.id == id })`. */
  function FirstIndexOf(s: seq<Event>, id: Uuid): (r: Option<nat>)
    ensures IsFirstMatch(s, id, r)
  {
    if s == [] then None
    else if s[0].id == id then Some(0)
    else match FirstIndexOf(s[1..], id)
      case None => None
      case Some(i) => Some(i + 1)
  }

  /** There is only one first match. */
  lemma FirstMatchIsUnique(s: seq<Event>, id: Uuid, r: Option<nat>, q: Option<nat>)
    requires IsFirstMatch(s, id, r) && IsFirstMatch(s, id, q)
    ensures r == q
  {
  }

  /** The replace-or-append step of `addEvent`, before it sorts. */
  function Upsert(s: seq<Event>, e: Event): seq<Event> {
    match FirstIndexOf(s, e.id)
    case Some(i) => s[i := e]
    case None => s + [e]
  }

  /** A new identifier is appended at the end and everything else stays. */
  lemma UpsertNewId(s: seq<Event>, e: Event)
    requires HasNoId(s, e.id)
    ensures |Upsert(s, e)| == |s| + 1
    ensures Upsert(s, e)[..|s|] == s && Upsert(s, e)[|s|] == e
  {
    FirstMatchIsUnique(s, e.id, FirstIndexOf(s, e.id), None);
  }

  /** A known identifier: the first event carrying it, and only that one, is replaced. */
  lemma UpsertKnownId(s: seq<Event>, e: Event, i: nat)
    requires i < |s| && s[i].id == e.id && forall j :: 0 <= j < i ==> s[j].id != e.id
    ensures |Upsert(s, e)| == |s| && Upsert(s, e)[i] == e
    ensures forall j :: 0 <= j < |s| && j != i ==> Upsert(s, e)[j] == s[j]
  {
    FirstMatchIsUnique(s, e.id, FirstIndexOf(s, e.id), Some(i));
  }

  /** Two upserts with the same identifier leave what the second alone would leave. */
  lemma {:induction false} UpsertSameIdTwice(s: seq<Event>, e: Event, f: Event)
    requires e.id == f.id
    ensures Upsert(Upsert(s, e), f) == Upsert(s, f)
  {
    var t := Upsert(s, e);
    match FirstIndexOf(s, e.id)
    case Some(i) =>
      assert t[..i] == s[..i];
      FirstMatchIsUnique(t, f.id, FirstIndexOf(t, f.id), Some(i));
    case None =>
      assert t[..|s|] == s;
      FirstMatchIsUnique(t, f.id, FirstIndexOf(t, f.id), Some(|s|));
  }

  lemma {:induction false} UpsertKeepsUniqueIds(s: seq<Event>, e: Event)
    requires UniqueIds(s)
    ensures UniqueIds(Upsert(s, e))
  {
    match FirstIndexOf(s, e.id)
    case Some(i) =>
      var t := s[i := e];
      forall a, b | 0 <= a < b < |t| ensures t[a].id != t[b].id {
        if a != i && b != i {
          assert t[a] == s[a] && t[b] == s[b];
        }
      }
    case None =>
      var t := s + [e];
      forall a, b | 0 <= a < b < |t| ensures t[a].id != t[b].id {
        if b == |s| {
          assert t[a] == s[a];
        } else {
          assert t[a] == s[a] && t[b] == s[b];
        }
      }
  }

  /** A date no later than the head of an ordered list can go in front of it. */
  lemma LowerBoundPrepends(x: Event, s: seq<Event>)
    requires SortedByDate(s) && (s != [] ==> x.date <= s[0].date)
    ensures SortedByDate([x] + s)
  {
  }

  /** Insert `e` into a date-ordered sequence, keeping it ordered. */
  function InsertByDate(e: Event, s: seq<Event>): (r: seq<Event>)
    requires SortedByDate(s)
    ensures SortedByDate(r)
    ensures multiset(r) == multiset(s) + multiset{e}
    ensures r[0] == e || (s != [] && r[0] == s[0])
  {
    if s == [] then [e]
    else if e.date <= s[0].date then [e] + s
    else
      SortedTail(s);
      var rest := InsertByDate(e, s[1..]);
      assert s == [s[0]] + s[1..];
      LowerBoundPrepends(s[0], rest);
      [s[0]] + rest
  }

  /** The tail of a date-ordered sequence is date-ordered and starts no earlier than it. */
  lemma SortedTail(s: seq<Event>)
    requires SortedByDate(s) && s != []
    ensures SortedByDate(s[1..])
    ensures |s| > 1 ==> s[0].date <= s[1..][0].date
  {
  }

  /** `sorted { $0.date < $1.date }`: the comparator fixes the order by date only;
      how events with equal dates end up is not promised. */
  function SortByDate(s: seq<Event>): (r: seq<Event>)
    ensures SortedByDate(r)
    ensures multiset(r) == multiset(s)
  {
    if s == [] then []
    else
      assert s == [s[0]] + s[1..];
      InsertByDate(s[0], SortByDate(s[1..]))
  }

  /** Unique identifiers, stated on the multiset of events: no event occurs twice and no
      two different events share an identifier. */
  ghost predicate UniqueIdsIn(m: multiset<Event>) {
    (forall x :: m[x] <= 1) && (forall x, y :: x in m && y in m && x.id == y.id ==> x == y)
  }

  lemma {:induction false} UniqueIdsCountAtMostOne(s: seq<Event>, x: Event)
    requires UniqueIds(s)
    ensures multiset(s)[x] <= 1
  {
    if s != [] {
      assert s == [s[0]] + s[1..];
      UniqueIdsCountAtMostOne(s[1..], x);
      if x == s[0] {
        assert x !in s[1..] by {
          forall j | 0 <= j < |s[1..]| ensures s[1..][j] != x {
            assert s[1..][j] == s[j + 1];
          }
        }
      }
    }
  }

  lemma UniqueIdsToMultiset(s: seq<Event>)
    requires UniqueIds(s)
    ensures UniqueIdsIn(multiset(s))
  {
    forall x ensures multiset(s)[x] <= 1 {
      UniqueIdsCountAtMostOne(s, x);
    }
  }

  /** Two equal elements at different positions make an element occur twice. */
  lemma RepeatedElement(s: seq<Event>, i: nat, j: nat)
    requires i < j < |s|
    ensures s[i] == s[j] ==> multiset(s)[s[i]] >= 2
  {
    assert s == s[..i] + [s[i]] + s[i + 1..j] + [s[j]] + s[j + 1..];
  }

  lemma UniqueIdsFromMultiset(s: seq<Event>)
    requires UniqueIdsIn(multiset(s))
    ensures UniqueIds(s)
  {
    forall i, j | 0 <= i < j < |s| ensures s[i].id != s[j].id {
      RepeatedElement(s, i, j);
    }
  }

  /** Unique identifiers survive any reordering, so also the sort. */
  lemma PermutationKeepsUniqueIds(a: seq<Event>, b: seq<Event>)
    requires multiset(a) == multiset(b) && UniqueIds(a)
    ensures UniqueIds(b)
  {
    UniqueIdsToMultiset(a);
    UniqueIdsFromMultiset(b);
  }

  /** Keeping only some of the events, in any order, keeps both uniqueness invariants. */
  lemma SubMultisetKeepsIds(a: seq<Event>, b: seq<Event>)
    requires multiset(a) <= multiset(b)
    ensures UniqueIds(b) ==> UniqueIds(a)
    ensures ChecklistIdsUnique(b) ==> ChecklistIdsUnique(a)
  {
    if UniqueIds(b) {
      UniqueIdsToMultiset(b);
      UniqueIdsFromMultiset(a);
    }
    forall i | 0 <= i < |a| ensures a[i] in b {
      assert a[i] in multiset(a);
    }
  }

  /** Filtering the events keeps both uniqueness invariants. */
  lemma FilterKeepsIds(s: seq<Event>, p: Event -> bool)
    ensures UniqueIds(s) ==> UniqueIds(Filter(s, p))
    ensures ChecklistIdsUnique(s) ==> ChecklistIdsUnique(Filter(s, p))
  {
    forall x ensures multiset(Filter(s, p))[x] <= multiset(s)[x] {
      FilterCounts(s, p, x);
    }
    SubMultisetKeepsIds(Filter(s, p), s);
  }

  /** The upsert of an event whose checklist has unique identifiers keeps every stored
      checklist's identifiers unique. */
  lemma UpsertKeepsChecklistIds(s: seq<Event>, e: Event)
    requires ChecklistIdsUnique(s) && UniqueItemIds(e.checklistItems)
    ensures ChecklistIdsUnique(Upsert(s, e))
  {
    match FirstIndexOf(s, e.id)
    case Some(i) =>
      var t := s[i := e];
      forall j | 0 <= j < |t| ensures UniqueItemIds(t[j].checklistItems) {
        if j != i {
          assert t[j] == s[j];
        }
      }
    case None =>
      var t := s + [e];
      forall j | 0 <= j < |t| ensures UniqueItemIds(t[j].checklistItems) {
        if j < |s| {
          assert t[j] == s[j];
        }
      }
  }

  /** What `loadEvents` found: no file, an unreadable file, content that does not decode,
      or a decoded list. File access and JSON decoding are not part of this model. */
  datatype LoadResult = Missing | Unreadable | Malformed | Decoded(events: seq<Event>)

  class DataManager {
    var events: seq<Event>

    /** `init()` starts empty, then runs `loadEvents` once. */
    constructor (stored: LoadResult)
      ensures events == (if stored.Decoded? then stored.events else [])
    {
      events := [];
      new;
      LoadEvents(stored);
    }

    /** `loadEvents`: a decoded list replaces the events as it is (not re-sorted); every
        failure is logged and leaves them unchanged. */
    method LoadEvents(stored: LoadResult)
      modifies this
      ensures events == (if stored.Decoded? then stored.events else old(events))
    {
      match stored
      case Decoded(loaded) => events := loaded;
      case _ =>
    }

    /** `sortedEvents`: a date-ordered copy; `events` itself is not touched. */
    function SortedEvents(): (r: seq<Event>)
      reads this
      ensures SortedByDate(r)
      ensures multiset(r) == multiset(events)
    {
      SortByDate(events)
    }

    /** `index(for:)`: the least position whose event has `event`'s identifier. */
    function Index(event: Event): (r: Option<nat>)
      reads this
      ensures IsFirstMatch(events, event.id, r)
    {
      FirstIndexOf(events, event.id)
    }

    /** `addEvent`: replace the first event with the same identifier, or append; then sort
        by date. */
    method AddEvent(event: Event)
      modifies this
      ensures SortedByDate(events)
      ensures multiset(events) == multiset(Upsert(old(events), event))
      ensures UniqueIds(old(events)) ==> UniqueIds(events)
      ensures ChecklistIdsUnique(old(events)) && UniqueItemIds(event.checklistItems) ==> ChecklistIdsUnique(events)
    {
      var index := FirstIndexOf(events, event.id);
      if index.Some? {
        events := events[index.value := event];
      } else {
        events := events + [event];
      }
      ghost var upserted := events;
      events := SortByDate(events);
      if UniqueIds(old(events)) {
        UpsertKeepsUniqueIds(old(events), event);
        PermutationKeepsUniqueIds(upserted, events);
      }
      if ChecklistIdsUnique(old(events)) && UniqueItemIds(event.checklistItems) {
        UpsertKeepsChecklistIds(old(events), event);
        SubMultisetKeepsIds(events, upserted);
      }
    }

    /** `deleteEvent(at:)`: `remove(atOffsets:)` on `events` itself. */
    method DeleteEvent(offsets: set<nat>)
      requires forall o :: o in offsets ==> o < |events|
      modifies this
      ensures events == RemoveAtOffsets(old(events), offsets)
      ensures UniqueIds(old(events)) ==> UniqueIds(events)
      ensures ChecklistIdsUnique(old(events)) ==> ChecklistIdsUnique(events)
    {
      RemoveAtOffsetsShrinks(events, offsets);
      SubMultisetKeepsIds(RemoveAtOffsets(events, offsets), events);
      events := RemoveAtOffsets(events, offsets);
    }

    /** `updateEvent` is the same upsert. */
    method UpdateEvent(updatedEvent: Event)
      modifies this
      ensures SortedByDate(events)
      ensures multiset(events) == multiset(Upsert(old(events), updatedEvent))
      ensures UniqueIds(old(events)) ==> UniqueIds(events)
      ensures ChecklistIdsUnique(old(events)) && UniqueItemIds(updatedEvent.checklistItems) ==> ChecklistIdsUnique(events)
    {
      AddEvent(updatedEvent);
    }
  }

  /** Adding an event whose identifier is new grows the list by one and the event is in it. */
  lemma AddNewEvent(before: seq<Event>, e: Event, after: seq<Event>)
    requires HasNoId(before, e.id)
    requires multiset(after) == multiset(Upsert(before, e))
    ensures |after| == |before| + 1
    ensures e in after
    ensures multiset(after) == multiset(before) + multiset{e}
  {
    UpsertNewId(before, e);
    assert Upsert(before, e) == before + [e];
    assert e in multiset(after);
  }

  /** Adding an event whose identifier is known keeps the length; the stored copy of that
      identifier is the new event, and the old first match is gone, nothing else. */
  lemma AddKnownEvent(before: seq<Event>, e: Event, i: nat, after: seq<Event>)
    requires i < |before| && before[i].id == e.id && forall j :: 0 <= j < i ==> before[j].id != e.id
    requires multiset(after) == multiset(Upsert(before, e))
    ensures |after| == |before|
    ensures e in after
    ensures multiset(after) == multiset(before) - multiset{before[i]} + multiset{e}
  {
    UpsertKnownId(before, e, i);
    var t := Upsert(before, e);
    assert t == before[..i] + [e] + before[i + 1..];
    assert before == before[..i] + [before[i]] + before[i + 1..];
    assert multiset(t) == multiset(before[..i]) + multiset{e} + multiset(before[i + 1..]);
    assert |after| == |multiset(after)| == |multiset(t)| == |t|;
    assert e in multiset(t);
  }

  /** `addEvent` twice with the same identifier, starting from unique identifiers: the
      identifiers stay unique, the one entry with that identifier has the second call's
      fields, and the events are exactly those a single call with the second value leaves. */
  lemma AddSameIdTwice(before: seq<Event>, e: Event, f: Event, middle: seq<Event>, after: seq<Event>)
    requires UniqueIds(before) && e.id == f.id
    requires multiset(middle) == multiset(Upsert(before, e))
    requires multiset(after) == multiset(Upsert(middle, f))
    ensures f in after
    ensures forall j :: 0 <= j < |after| && after[j].id == f.id ==> after[j] == f
    ensures UniqueIds(after)
    ensures multiset(after) == multiset(Upsert(before, f))
    ensures |after| == |Upsert(before, f)|
  {
    UpsertKeepsUniqueIds(before, e);
    PermutationKeepsUniqueIds(Upsert(before, e), middle);
    UpsertKeepsUniqueIds(middle, f);
    PermutationKeepsUniqueIds(Upsert(middle, f), after);
    UpsertContains(middle, f);
    assert f in multiset(after);
    UpsertContains(before, e);
    assert e in multiset(middle);
    UpsertReplacesMember(middle, e, f);
    UpsertSwap(before, e, f);
    assert |after| == |multiset(after)| == |multiset(Upsert(before, f))| == |Upsert(before, f)|;
  }

  /** On unique identifiers, upserting `f` over a stored event with its identifier swaps
      that event for `f`. */
  lemma UpsertReplacesMember(m: seq<Event>, e: Event, f: Event)
    requires UniqueIds(m) && e in m && e.id == f.id
    ensures multiset(Upsert(m, f)) == multiset(m) - multiset{e} + multiset{f}
  {
    var w :| 0 <= w < |m| && m[w] == e;
    assert m[w].id == f.id;
    assert FirstIndexOf(m, f.id).Some?;
    var i := FirstIndexOf(m, f.id).value;
    assert i == w;
    assert m == m[..w] + [e] + m[w + 1..];
    assert Upsert(m, f) == m[..w] + [f] + m[w + 1..];
  }

  /** Upserting `e` and then swapping `e` for `f` in the multiset is upserting `f`. */
  lemma UpsertSwap(b: seq<Event>, e: Event, f: Event)
    requires e.id == f.id
    ensures multiset(Upsert(b, e)) - multiset{e} + multiset{f} == multiset(Upsert(b, f))
  {
    match FirstIndexOf(b, e.id)
    case Some(i) =>
      assert b == b[..i] + [b[i]] + b[i + 1..];
      assert Upsert(b, e) == b[..i] + [e] + b[i + 1..];
      assert Upsert(b, f) == b[..i] + [f] + b[i + 1..];
    case None =>
  }

  lemma UpsertContains(s: seq<Event>, e: Event)
    ensures e in Upsert(s, e)
  {
    match FirstIndexOf(s, e.id)
    case Some(i) => assert Upsert(s, e)[i] == e;
    case None => assert Upsert(s, e)[|s|] == e;
  }
}
