/** AddEventView.swift: the form that creates a new event. */
module AddEventView {
  import opened Text
  import opened EventModel
  import opened EventStore

  class AddEventForm {
    var name: string
    var date: int
    var eventDescription: string
    var category: string
    var recurrence: Recurrence
    var checklistItems: seq<ChecklistItem>
    var newChecklistItem: string

    /** The form's initial `@State`; `Date()` is the parameter `now`. */
    constructor (now: int)
      ensures name == "" && date == now && eventDescription == ""
      ensures category == "Personal" && recurrence == Never
      ensures checklistItems == [] && newChecklistItem == ""
    {
      name := "";
      date := now;
      eventDescription := "";
      category := "Personal";
      recurrence := Never;
      checklistItems := [];
      newChecklistItem := "";
    }

    /** `addChecklistItem`: whitespace-only text is ignored and left in the field; otherwise
        the text as typed, untrimmed, becomes a new, not yet completed item at the end of the
        list, and the field is cleared. */
    method AddChecklistItem(itemId: Uuid)
      modifies this`checklistItems, this`newChecklistItem
      ensures Trim(old(newChecklistItem)) == [] ==>
        checklistItems == old(checklistItems) && newChecklistItem == old(newChecklistItem)
      ensures Trim(old(newChecklistItem)) != [] ==>
        && checklistItems == old(checklistItems) + [NewChecklistItem(itemId, old(newChecklistItem))]
        && newChecklistItem == ""
      ensures UniqueItemIds(old(checklistItems)) && HasNoItemId(old(checklistItems), itemId) ==> UniqueItemIds(checklistItems)
    {
      if UniqueItemIds(checklistItems) && HasNoItemId(checklistItems, itemId) {
        AppendFreshItemKeepsUniqueItemIds(checklistItems, NewChecklistItem(itemId, newChecklistItem));
      }
      if Trim(newChecklistItem) != [] {
        checklistItems := checklistItems + [NewChecklistItem(itemId, newChecklistItem)];
        newChecklistItem := "";
      }
    }

    /** The minus button: `removeAll` of the items with the tapped item's identifier. */
    method RemoveChecklistItem(id: Uuid)
      modifies this`checklistItems
      ensures checklistItems == RemoveItemsWithId(old(checklistItems), id)
      ensures UniqueItemIds(old(checklistItems)) ==> UniqueItemIds(checklistItems)
    {
      if UniqueItemIds(checklistItems) {
        RemoveItemsKeepsUniqueItemIds(checklistItems, id);
      }
      checklistItems := RemoveItemsWithId(checklistItems, id);
    }

    /** The record `addEvent` builds from the form; `UUID()` is the parameter `id`. */
    function NewEvent(id: Uuid): Event
      reads this
    {
      Event(id, name, date, eventDescription, category, recurrence, checklistItems)
    }

    /** Save: unavailable while the name is empty; otherwise `addEvent` builds the record from
        the form's fields and hands it to the store's upsert. A fresh identifier makes the
        store grow by exactly that event. */
    method Save(store: DataManager, newId: Uuid) returns (saved: bool)
      modifies store
      ensures saved == (name != [])
      ensures saved ==> SortedByDate(store.events)
      ensures saved ==>
        multiset(store.events) ==
        multiset(Upsert(old(store.events), Event(newId, name, date, eventDescription, category, recurrence, checklistItems)))
      ensures saved && HasNoId(old(store.events), newId) ==>
        && |store.events| == |old(store.events)| + 1
        && multiset(store.events) == multiset(old(store.events)) + multiset{NewEvent(newId)}
      ensures !saved ==> store.events == old(store.events)
      ensures UniqueIds(old(store.events)) ==> UniqueIds(store.events)
      ensures ChecklistIdsUnique(old(store.events)) && UniqueItemIds(checklistItems) ==> ChecklistIdsUnique(store.events)
    {
      if name == [] {
        return false;
      }
      var e := NewEvent(newId);
      ghost var before := store.events;
      store.AddEvent(e);
      if HasNoId(before, newId) {
        AddNewEvent(before, e, store.events);
      }
      return true;
    }
  }
}
