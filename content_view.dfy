/** ContentView.swift: the searchable list of events and its swipe-to-delete. */
module ContentView {
  import opened Seqs
  import opened Text
  import opened EventModel
  import opened EventStore

  /** The search test applied to each event name. */
  function Matches(e: Event, query: string): bool {
    ContainsIgnoringCase(e.name, query)
  }

  /** `filteredEvents` for the store's `events` and the search text `query`: the sorted
      copy when the query is empty, otherwise the sorted events whose names match. */
  function FilteredEvents(events: seq<Event>, query: string): seq<Event> {
    var sorted := SortByDate(events);
    if query == [] then sorted else Filter(sorted, (e: Event) => Matches(e, query))
  }

  /** What the list shows: with no query, exactly the date-ordered events; otherwise the
      matching events and only those, in date order, as a subsequence of the sorted copy. */
  lemma FilteredEventsShowsMatches(events: seq<Event>, query: string)
    ensures var r := FilteredEvents(events, query);
      && (query == [] ==> r == SortByDate(events))
      && (forall i :: 0 <= i < |r| ==> r[i] in SortByDate(events) && (query == [] || Matches(r[i], query)))
      && (forall i :: 0 <= i < |events| && (query == [] || Matches(events[i], query)) ==> events[i] in r)
      && (forall x :: multiset(r)[x] == if query == [] || Matches(x, query) then multiset(events)[x] else 0)
      && IsSubsequence(r, SortByDate(events))
      && |r| <= |events|
      && SortedByDate(r)
  {
    var sorted := SortByDate(events);
    assert |sorted| == |events| by {
      assert |multiset(sorted)| == |multiset(events)|;
    }
    forall i | 0 <= i < |events| ensures events[i] in sorted {
      assert events[i] in multiset(events);
    }
    if query == [] {
      SubsequenceIsSelf(sorted);
    } else {
      var p := (e: Event) => Matches(e, query);
      forall x ensures multiset(Filter(sorted, p))[x] == if p(x) then multiset(events)[x] else 0 {
        FilterCounts(sorted, p, x);
      }
      FilterIsSubsequence(sorted, p);
      SubsequenceKeepsOrder(Filter(sorted, p), sorted);
    }
  }

  /** A subsequence of a date-ordered list is date-ordered. */
  lemma {:induction false} SubsequenceKeepsOrder(a: seq<Event>, b: seq<Event>)
    requires IsSubsequence(a, b) && SortedByDate(b)
    ensures SortedByDate(a)
    decreases |b|
  {
    if a != [] {
      if a[0] == b[0] && IsSubsequence(a[1..], b[1..]) {
        SubsequenceKeepsOrder(a[1..], b[1..]);
        forall j | 1 <= j < |a| ensures a[0].date <= a[j].date {
          SubsequenceMembers(a[1..], b[1..], a[j]);
        }
      } else {
        SubsequenceKeepsOrder(a, b[1..]);
      }
    }
  }

  /** A query matches whatever a query differing from it only in ASCII letter case matches. */
  lemma QueryCaseIsIrrelevant(e: Event, q: string, r: string)
    requires |q| == |r| && forall i :: 0 <= i < |q| ==> LowerAscii(q[i]) == LowerAscii(r[i])
    ensures Matches(e, q) == Matches(e, r)
  {
    FoldIgnoresCase(q, r);
  }

  /** "Hackathon Prep" is found by "hack", by "HACK" and by "Prep". */
  lemma HackathonPrepIsFound(name: string)
    requires name == "Hackathon Prep"
    ensures ContainsIgnoringCase(name, "hack")
    ensures ContainsIgnoringCase(name, "HACK")
    ensures ContainsIgnoringCase(name, "Prep")
  {
    FoundInside(name, "hack", 0);
    FoundInside(name, "HACK", 0);
    FoundInside(name, "Prep", 10);
  }

  /** A query found, up to ASCII letter case, at some position of a name matches it. */
  lemma FoundInside(name: string, query: string, i: nat)
    requires i + |query| <= |name|
    requires forall k :: 0 <= k < |query| ==> LowerAscii(name[i + k]) == LowerAscii(query[k])
    ensures ContainsIgnoringCase(name, query)
  {
    var folded := Fold(name);
    assert folded[i..i + |query|] == Fold(query);
    assert OccursAt(folded, Fold(query), i);
    ContainsIffOccurs(folded, Fold(query));
  }

  /** `deleteEvent(at:)` as written: the offsets are positions in `filteredEvents`, but they
      are handed unchanged to the store, which removes those positions of `events`. */
  method DeleteEvent(store: DataManager, query: string, offsets: set<nat>)
    requires forall o :: o in offsets ==> o < |FilteredEvents(store.events, query)|
    modifies store
    ensures |FilteredEvents(old(store.events), query)| <= |old(store.events)|
    ensures store.events == RemoveAtOffsets(old(store.events), offsets)
    ensures UniqueIds(old(store.events)) ==> UniqueIds(store.events)
    ensures ChecklistIdsUnique(old(store.events)) ==> ChecklistIdsUnique(store.events)
  {
    FilteredEventsShowsMatches(store.events, query);
    store.DeleteEvent(offsets);
  }

  /** Two events of the scenario below. */
  function Gym(): Event { Event(Uuid(1), "Gym", 1, "", "Personal", Never, []) }
  function Hackathon(): Event { Event(Uuid(2), "Hackathon", 2, "", "Hackathons", Never, []) }

  lemma ScenarioSorted()
    ensures SortByDate([Gym(), Hackathon()]) == [Gym(), Hackathon()]
  {
    var s := [Gym(), Hackathon()];
    assert s[1..] == [Hackathon()];
    assert SortByDate([Hackathon()]) == InsertByDate(Hackathon(), []) == [Hackathon()];
  }

  lemma ScenarioMatches()
    ensures !Matches(Gym(), "hack") && Matches(Hackathon(), "hack")
  {
    assert Fold("Gym") == "gym";
    assert Fold("hack") == "hack";
    assert !Contains("gym", "hack") by {
      assert "gym"[1..] == "ym" && "ym"[1..] == "m" && "m"[1..] == "";
    }
    FoundInside("Hackathon", "hack", 0);
  }

  lemma ScenarioFiltered()
    ensures FilteredEvents([Gym(), Hackathon()], "hack") == [Hackathon()]
  {
    ScenarioSorted();
    ScenarioMatches();
    var p := (e: Event) => Matches(e, "hack");
    var s := [Gym(), Hackathon()];
    assert s[1..] == [Hackathon()];
    assert Filter([Hackathon()], p) == [Hackathon()] + Filter([], p);
    assert Filter(s, p) == [] + Filter([Hackathon()], p);
  }

  lemma ScenarioRemoveFirst()
    ensures RemoveAtOffsets([Gym(), Hackathon()], {0}) == [Hackathon()]
  {
    var s := [Gym(), Hackathon()];
    assert {0} - {1} == {0} && {0} - {0} == {};
    assert s[..1] == [Gym()] && [Gym()][..0] == [];
    assert RemoveAtOffsets([Gym()], {0}) == RemoveAtOffsets([], {}) + [];
    assert RemoveAtOffsets(s, {0}) == RemoveAtOffsets([Gym()], {0}) + [Hackathon()];
  }

  /** Swiping away the only row shown for the query "hack" deletes a different event, and
      the event that was on that row stays. */
  lemma DeleteEventMisaddressed(events: seq<Event>, query: string)
    requires events == [Gym(), Hackathon()] && query == "hack"
    ensures RemoveAtOffsets(events, {0}) == [Hackathon()]
    ensures FilteredEvents(events, query) == [Hackathon()]
  {
    ScenarioFiltered();
    ScenarioRemoveFirst();
  }

  /** The identifiers of the rows at `offsets`. */
  function RowIds(rows: seq<Event>, offsets: set<nat>): set<Uuid> {
    set o | o in offsets && o < |rows| :: rows[o].id
  }

  /** The evident intent of swipe-to-delete: remove the events shown on the swiped rows,
      looked up by identifier, and keep every other event in its order. */
  method DeleteDisplayedEvents(store: DataManager, query: string, offsets: set<nat>)
    requires forall o :: o in offsets ==> o < |FilteredEvents(store.events, query)|
    modifies store
    ensures var targets := RowIds(FilteredEvents(old(store.events), query), offsets);
      && store.events == Filter(old(store.events), (e: Event) => e.id !in targets)
      && IsSubsequence(store.events, old(store.events))
      && (forall o :: o in offsets ==> HasNoId(store.events, FilteredEvents(old(store.events), query)[o].id))
    ensures UniqueIds(old(store.events)) ==> UniqueIds(store.events)
    ensures ChecklistIdsUnique(old(store.events)) ==> ChecklistIdsUnique(store.events)
  {
    var rows := FilteredEvents(store.events, query);
    var targets := RowIds(rows, offsets);
    var keep := (e: Event) => e.id !in targets;
    FilterIsSubsequence(store.events, keep);
    FilterKeepsIds(store.events, keep);
    store.events := Filter(store.events, keep);
  }

  lemma ScenarioRowIds(rows: seq<Event>)
    requires rows == [Hackathon()]
    ensures RowIds(rows, {0}) == {Hackathon().id}
  {
    assert Hackathon().id in RowIds(rows, {0}) by {
      assert 0 in {0} && rows[0].id == Hackathon().id;
    }
  }

  lemma ScenarioKeep(events: seq<Event>, targets: set<Uuid>)
    requires events == [Gym(), Hackathon()] && targets == {Hackathon().id}
    ensures Filter(events, (e: Event) => e.id !in targets) == [Gym()]
  {
    var keep := (e: Event) => e.id !in targets;
    assert events[1..] == [Hackathon()];
    assert Filter([Hackathon()], keep) == [] + Filter([], keep);
    assert Filter(events, keep) == [Gym()] + Filter([Hackathon()], keep);
  }

  /** In the scenario above the corrected delete removes the swiped event and keeps the other. */
  lemma DeleteDisplayedRemovesSwipedRow(events: seq<Event>, query: string)
    requires events == [Gym(), Hackathon()] && query == "hack"
    ensures var targets := RowIds(FilteredEvents(events, query), {0});
      Filter(events, (e: Event) => e.id !in targets) == [Gym()]
  {
    DeleteEventMisaddressed(events, query);
    ScenarioRowIds(FilteredEvents(events, query));
    ScenarioKeep(events, RowIds(FilteredEvents(events, query), {0}));
  }
}
