/** EditEventView.swift: the edit form. Its `@Binding var event` is the detail screen's
    `eventBinding`, so every change made here is written straight into the store. */
module EditEventView {
  import opened Text
  import opened EventModel
  import opened EventStore
  import opened EventDetailView

  /** The event with `item` added at the end of its checklist. */
  function AppendItem(e: Event, item: ChecklistItem): Event {
    e.(checklistItems := e.checklistItems + [item])
  }

  /** Adding an item puts it last; the items already there and all other fields stay. */
  lemma AppendItemKeepsTheRest(e: Event, item: ChecklistItem)
    ensures var t := AppendItem(e, item);
      && |t.checklistItems| == |e.checklistItems| + 1
      && t.checklistItems[..|e.checklistItems|] == e.checklistItems
      && t.checklistItems[|e.checklistItems|] == item
      && t.(checklistItems := e.checklistItems) == e
  {
  }

  /** The event with every checklist item carrying `id` removed. */
  function RemoveItem(e: Event, id: Uuid): Event {
    e.(checklistItems := RemoveItemsWithId(e.checklistItems, id))
  }

  class EditEventForm {
    const event: EventBinding
    var newChecklistItem: string

    constructor (event: EventBinding)
      ensures this.event == event && newChecklistItem == ""
    {
      this.event := event;
      newChecklistItem := "";
    }

    /** `addChecklistItem`: text that trims to nothing is ignored and left in the field;
        otherwise the trimmed text becomes a new, not yet completed item at the end of the
        bound event's checklist, and the field is cleared. */
    method AddChecklistItem(itemId: Uuid)
      modifies this, event.store
      ensures var trimmed := Trim(old(newChecklistItem));
        if trimmed == [] then
          newChecklistItem == old(newChecklistItem) && event.store.events == old(event.store.events)
        else
          && newChecklistItem == ""
          && event.store.events == Rebind(old(event.store.events), event.eventID,
               AppendItem(old(event.Get()), NewChecklistItem(itemId, trimmed)))
      ensures Trim(old(newChecklistItem)) != [] && old(FirstIndexOf(event.store.events, event.eventID)).Some? ==>
        event.Get() == AppendItem(old(event.Get()), NewChecklistItem(itemId, Trim(old(newChecklistItem))))
      ensures UniqueIds(old(event.store.events)) ==> UniqueIds(event.store.events)
      ensures ChecklistIdsUnique(old(event.store.events)) && HasNoItemId(old(event.Get()).checklistItems, itemId) ==>
        ChecklistIdsUnique(event.store.events)
    {
      var trimmedItem := Trim(newChecklistItem);
      if trimmedItem == [] {
        return;
      }
      var e := event.Get();
      ghost var before := event.store.events;
      var updated := AppendItem(e, NewChecklistItem(itemId, trimmedItem));
      if FirstIndexOf(before, event.eventID).Some? && ChecklistIdsUnique(before) && HasNoItemId(e.checklistItems, itemId) {
        AppendFreshItemKeepsUniqueItemIds(e.checklistItems, NewChecklistItem(itemId, trimmedItem));
      }
      RebindKeepsIds(before, event.eventID, updated);
      event.Set(updated);
      newChecklistItem := "";
      if FirstIndexOf(before, event.eventID).Some? {
        GetAfterSet(before, event.eventID, updated);
        FirstWithIdAgrees(event.store.events, event.eventID);
      }
    }

    /** The minus button: `removeAll` of the items with the tapped item's identifier, written
        back through the binding. */
    method RemoveChecklistItem(id: Uuid)
      modifies event.store
      ensures event.store.events == Rebind(old(event.store.events), event.eventID, RemoveItem(old(event.Get()), id))
      ensures UniqueIds(old(event.store.events)) ==> UniqueIds(event.store.events)
      ensures ChecklistIdsUnique(old(event.store.events)) ==> ChecklistIdsUnique(event.store.events)
    {
      var e := event.Get();
      if FirstIndexOf(event.store.events, event.eventID).Some? && ChecklistIdsUnique(event.store.events) {
        RemoveItemsKeepsUniqueItemIds(e.checklistItems, id);
      }
      RebindKeepsIds(event.store.events, event.eventID, RemoveItem(e, id));
      event.Set(RemoveItem(e, id));
    }

    /** Save: unavailable while the name is empty; otherwise `updateEvent` with the bound event. */
    method Save() returns (saved: bool)
      modifies event.store
      ensures saved == (old(event.Get()).name != [])
      ensures saved ==> SortedByDate(event.store.events)
      ensures saved ==> multiset(event.store.events) == multiset(Upsert(old(event.store.events), old(event.Get())))
      ensures !saved ==> event.store.events == old(event.store.events)
      ensures UniqueIds(old(event.store.events)) ==> UniqueIds(event.store.events)
      ensures ChecklistIdsUnique(old(event.store.events)) ==> ChecklistIdsUnique(event.store.events)
    {
      var e := event.Get();
      if e.name == [] {
        return false;
      }
      event.store.UpdateEvent(e);
      return true;
    }
  }
}
