/** EventDetailView.swift: the binding that ties the detail screen to one stored event,
    `Event.empty`, and the checklist toggle. */
module EventDetailView {
  import opened Wrappers
  import opened EventModel
  import opened EventStore

  /** `Event.empty`. The fresh `UUID()` and the current `Date()` it is built from are
      parameters. */
  function EmptyEvent(id: Uuid, now: int): (e: Event)
    ensures e.id == id && e.date == now
    ensures e.name == "" && e.eventDescription == ""
    ensures e.category == "Personal" && e.recurrence == Never
    ensures e.checklistItems == []
    ensures e.CategoryColor() == Mint
  {
    Event(id, "", now, "", "Personal", Never, [])
  }

  /** `events.first { $0.id == id }`. */
  function FirstWithId(s: seq<Event>, id: Uuid): Option<Event> {
    if s == [] then None
    else if s[0].id == id then Some(s[0])
    else FirstWithId(s[1..], id)
  }

  /** `first(where:)` yields the element at the position `firstIndex(where:)` reports. */
  lemma {:induction false} FirstWithIdAgrees(s: seq<Event>, id: Uuid)
    ensures match FirstIndexOf(s, id)
            case Some(i) => FirstWithId(s, id) == Some(s[i])
            case None => FirstWithId(s, id) == None
  {
    if s != [] && s[0].id != id {
      FirstWithIdAgrees(s[1..], id);
    }
  }

  /** The binding's setter on a list value: overwrite the first match, in place. */
  function Rebind(s: seq<Event>, id: Uuid, newValue: Event): seq<Event> {
    match FirstIndexOf(s, id)
    case Some(i) => s[i := newValue]
    case None => s
  }

  /** The setter rewrites the first event with the identifier and nothing else: the
      length and every other position stay as they were, and nothing is re-sorted. */
  lemma RebindChangesOnlyFirstMatch(s: seq<Event>, id: Uuid, newValue: Event, i: nat)
    requires FirstIndexOf(s, id) == Some(i)
    ensures |Rebind(s, id, newValue)| == |s|
    ensures Rebind(s, id, newValue)[i] == newValue
    ensures forall j :: 0 <= j < |s| && j != i ==> Rebind(s, id, newValue)[j] == s[j]
  {
  }

  /** With no event carrying the identifier the setter does nothing. */
  lemma RebindMissingIsNoOp(s: seq<Event>, id: Uuid, newValue: Event)
    requires HasNoId(s, id)
    ensures Rebind(s, id, newValue) == s
  {
    FirstMatchIsUnique(s, id, FirstIndexOf(s, id), None);
  }

  /** The setter keeps identifiers unique when the written value keeps the identifier
      it is written under, and keeps checklist identifiers unique when its checklist has
      them; with no match nothing is written and both hold trivially. */
  lemma RebindKeepsIds(s: seq<Event>, id: Uuid, newValue: Event)
    ensures UniqueIds(s) && (FirstIndexOf(s, id).Some? ==> newValue.id == id) ==> UniqueIds(Rebind(s, id, newValue))
    ensures ChecklistIdsUnique(s) && (FirstIndexOf(s, id).Some? ==> UniqueItemIds(newValue.checklistItems)) ==>
      ChecklistIdsUnique(Rebind(s, id, newValue))
  {
    match FirstIndexOf(s, id)
    case Some(i) =>
      var t := s[i := newValue];
      forall j | 0 <= j < |t| && j != i ensures t[j] == s[j] {
      }
    case None =>
  }

  /** The binding `EventDetailView.eventBinding` for the event `eventID` of `store`. The
      source evaluates `Event.empty` afresh on every failed read, with a new `UUID()` and
      `Date()`; here that identifier and timestamp are fixed when the binding is made. */
  class EventBinding {
    const store: DataManager
    const eventID: Uuid
    const emptyId: Uuid
    const now: int

    constructor (store: DataManager, eventID: Uuid, emptyId: Uuid, now: int)
      ensures this.store == store && this.eventID == eventID
      ensures this.emptyId == emptyId && this.now == now
    {
      this.store := store;
      this.eventID := eventID;
      this.emptyId := emptyId;
      this.now := now;
    }

    /** What the getter falls back to. */
    function Fallback(): Event
      reads this
    {
      EmptyEvent(emptyId, now)
    }

    /** get: the first stored event with `eventID`, or `Event.empty` when there is none. */
    function Get(): (e: Event)
      reads this, store
      ensures match FirstIndexOf(store.events, eventID)
              case Some(i) => e == store.events[i]
              case None => e == Fallback()
    {
      FirstWithIdAgrees(store.events, eventID);
      FirstWithId(store.events, eventID).GetOr(Fallback())
    }

    /** set: overwrite the first stored event with `eventID`; no-op when there is none. */
    method Set(newValue: Event)
      modifies store
      ensures store.events == Rebind(old(store.events), eventID, newValue)
      ensures UniqueIds(old(store.events)) && newValue.id == eventID ==> UniqueIds(store.events)
      ensures ChecklistIdsUnique(old(store.events)) && UniqueItemIds(newValue.checklistItems) ==>
        ChecklistIdsUnique(store.events)
    {
      RebindKeepsIds(store.events, eventID, newValue);
      var index := FirstIndexOf(store.events, eventID);
      if index.Some? {
        store.events := store.events[index.value := newValue];
      }
    }
  }

  /** Reading back after a write through the binding gives the written value, provided the
      event was there and the new value keeps its identifier. */
  lemma GetAfterSet(s: seq<Event>, id: Uuid, newValue: Event)
    requires FirstIndexOf(s, id).Some? && newValue.id == id
    ensures FirstWithId(Rebind(s, id, newValue), id) == Some(newValue)
  {
    var i := FirstIndexOf(s, id).value;
    var t := Rebind(s, id, newValue);
    FirstMatchIsUnique(t, id, FirstIndexOf(t, id), Some(i));
    FirstWithIdAgrees(t, id);
  }

  /** `item.isCompleted.toggle()` on item `k` of an event's checklist. */
  function ToggleItem(e: Event, k: nat): Event
    requires k < |e.checklistItems|
  {
    var item := e.checklistItems[k];
    e.(checklistItems := e.checklistItems[k := item.(isCompleted := !item.isCompleted)])
  }

  /** A toggle flips the tapped item's flag and touches no other item and no other field. */
  lemma ToggleFlipsOnlyTappedItem(e: Event, k: nat)
    requires k < |e.checklistItems|
    ensures var t := ToggleItem(e, k);
      && t.id == e.id && t.name == e.name && t.date == e.date
      && t.eventDescription == e.eventDescription && t.category == e.category
      && t.recurrence == e.recurrence
      && |t.checklistItems| == |e.checklistItems|
      && t.checklistItems[k].isCompleted == !e.checklistItems[k].isCompleted
      && t.checklistItems[k].id == e.checklistItems[k].id
      && t.checklistItems[k].title == e.checklistItems[k].title
      && forall j :: 0 <= j < |e.checklistItems| && j != k ==> t.checklistItems[j] == e.checklistItems[j]
  {
  }

  /** A toggle changes no identifier, so it keeps the checklist's identifiers unique. */
  lemma ToggleKeepsUniqueItemIds(e: Event, k: nat)
    requires k < |e.checklistItems| && UniqueItemIds(e.checklistItems)
    ensures UniqueItemIds(ToggleItem(e, k).checklistItems)
  {
    var t := ToggleItem(e, k).checklistItems;
    assert forall j :: 0 <= j < |t| ==> t[j].id == e.checklistItems[j].id;
  }

  /** Toggling twice restores the event. */
  lemma ToggleTwiceRestores(e: Event, k: nat)
    requires k < |e.checklistItems|
    ensures ToggleItem(ToggleItem(e, k), k) == e
  {
    var t := ToggleItem(ToggleItem(e, k), k);
    assert t.checklistItems == e.checklistItems;
  }

  /** The tap handler of `ChecklistSection`: the item's binding reads the event through
      `eventBinding`, flips the flag, and writes the event back. The section is shown only
      for an event with items, so the tapped position is one of them. */
  method ToggleChecklistItem(binding: EventBinding, k: nat)
    requires k < |binding.Get().checklistItems|
    modifies binding.store
    ensures binding.store.events == Rebind(old(binding.store.events), binding.eventID, ToggleItem(old(binding.Get()), k))
    ensures binding.Get() == ToggleItem(old(binding.Get()), k)
    ensures UniqueIds(old(binding.store.events)) ==> UniqueIds(binding.store.events)
    ensures ChecklistIdsUnique(old(binding.store.events)) ==> ChecklistIdsUnique(binding.store.events)
  {
    var e := binding.Get();
    ghost var before := binding.store.events;
    if ChecklistIdsUnique(before) && FirstIndexOf(before, binding.eventID).Some? {
      ToggleKeepsUniqueItemIds(e, k);
    }
    RebindKeepsIds(before, binding.eventID, ToggleItem(e, k));
    binding.Set(ToggleItem(e, k));
    GetAfterSet(before, binding.eventID, ToggleItem(e, k));
    FirstWithIdAgrees(binding.store.events, binding.eventID);
  }
}
