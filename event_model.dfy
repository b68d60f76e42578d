/** The records of Event.swift: recurrence tags, checklist items, events and the
    category colour table. */
module EventModel {
  import opened Wrappers
  import opened Seqs

  /** An opaque identifier (`UUID`). The model only compares identifiers for equality;
      how fresh ones are generated is left to the caller. */
  datatype Uuid = Uuid(bits: nat)

  /** `enum Recurrence: String`. The source's `.none` case is called `Never` here. */
  datatype Recurrence = Never | Daily | Weekly | Monthly

  /** The enum's raw values. */
  function RawValue(r: Recurrence): string {
    match r
    case Never => "None"
    case Daily => "Daily"
    case Weekly => "Weekly"
    case Monthly => "Monthly"
  }

  /** `Recurrence(rawValue:)`: the case with that raw value, if any. */
  function FromRawValue(s: string): Option<Recurrence> {
    if s == "None" then Some(Never)
    else if s == "Daily" then Some(Daily)
    else if s == "Weekly" then Some(Weekly)
    else if s == "Monthly" then Some(Monthly)
    else None
  }

  /** Parsing a raw value succeeds exactly on the four raw values, and gives back the case
      that produced it. */
  lemma RawValueRoundTrip(r: Recurrence, s: string)
    ensures FromRawValue(RawValue(r)) == Some(r)
    ensures FromRawValue(s) == Some(r) <==> RawValue(r) == s
  {
  }

  /** `Recurrence.allCases`, in declaration order. */
  const AllCases: seq<Recurrence> := [Never, Daily, Weekly, Monthly]

  lemma AllCasesListsEachCaseOnce(r: Recurrence)
    ensures r in AllCases
    ensures forall i, j :: 0 <= i < j < |AllCases| ==> AllCases[i] != AllCases[j]
    ensures RawValue(AllCases[0]) == "None" && RawValue(AllCases[1]) == "Daily"
    ensures RawValue(AllCases[2]) == "Weekly" && RawValue(AllCases[3]) == "Monthly"
  {
  }

  /** One task of an event's preparation checklist. */
  datatype ChecklistItem = ChecklistItem(id: Uuid, title: string, isCompleted: bool)

  /** `ChecklistItem(title:)`: the memberwise initialiser with the `id` and
      `isCompleted` defaults. The fresh `UUID()` is the parameter `id`. */
  function NewChecklistItem(id: Uuid, title: string): (item: ChecklistItem)
    ensures item.id == id && item.title == title
    ensures !item.isCompleted
  {
    ChecklistItem(id, title, false)
  }

  /** The colours the table can produce. */
  datatype Color = Mint | Purple | Orange | Green | Pink | Gray

  /** `categoryColors`. */
  const CategoryColors: map<string, Color> := map[
    "Personal" := Mint,
    "Interviews" := Purple,
    "Hackathons" := Orange,
    "Tech Events" := Green,
    "Cultural Events" := Pink
  ]

  /** A dictionary lookup with `.gray` as the default. */
  function ColorForCategory(category: string): Color {
    if category in CategoryColors then CategoryColors[category] else Gray
  }

  lemma KnownCategoryColors()
    ensures CategoryColors.Keys == {"Personal", "Interviews", "Hackathons", "Tech Events", "Cultural Events"}
    ensures ColorForCategory("Personal") == Mint
    ensures ColorForCategory("Interviews") == Purple
    ensures ColorForCategory("Hackathons") == Orange
    ensures ColorForCategory("Tech Events") == Green
    ensures ColorForCategory("Cultural Events") == Pink
  {
  }

  /** Only the five table entries are coloured; every other category is grey, and no
      table entry is grey. */
  lemma CategoryColorIsGrayExactlyForUnknown(category: string)
    ensures ColorForCategory(category) == Gray <==> category !in CategoryColors
  {
  }

  /** The category names offered by the pickers of the add and edit forms. */
  const Categories: seq<string> := ["Personal", "Interviews", "Hackathons", "Tech Events", "Cultural Events"]

  /** Every category a form offers has an entry in the colour table, and vice versa. */
  lemma CategoriesMatchColorTable()
    ensures forall c :: c in Categories <==> c in CategoryColors
  {
  }

  /** An event record. `date` is a timestamp; only its order matters. */
  datatype Event = Event(
    id: Uuid,
    name: string,
    date: int,
    eventDescription: string,
    category: string,
    recurrence: Recurrence,
    checklistItems: seq<ChecklistItem>)
  {
    /** `categoryColor`. */
    function CategoryColor(): Color {
      ColorForCategory(category)
    }
  }

  /** The colour of an event is a function of its category alone. */
  lemma CategoryColorDependsOnlyOnCategory(e: Event, f: Event)
    requires e.category == f.category
    ensures e.CategoryColor() == f.CategoryColor()
  {
  }

  /** `checklistItems.removeAll { $0.id == id }`, used by both forms. */
  function RemoveItemsWithId(items: seq<ChecklistItem>, id: Uuid): (r: seq<ChecklistItem>)
    ensures forall j :: 0 <= j < |r| ==> r[j].id != id && r[j] in items
    ensures forall j :: 0 <= j < |items| && items[j].id != id ==> items[j] in r
    ensures IsSubsequence(r, items)
    ensures forall x :: multiset(r)[x] == if x.id != id then multiset(items)[x] else 0
  {
    var keep := (x: ChecklistItem) => x.id != id;
    FilterIsSubsequence(items, keep);
    forall x ensures multiset(Filter(items, keep))[x] == if x.id != id then multiset(items)[x] else 0 {
      FilterCounts(items, keep, x);
    }
    Filter(items, keep)
  }

  /** No two items of a checklist share an identifier. */
  ghost predicate UniqueItemIds(items: seq<ChecklistItem>) {
    forall i, j :: 0 <= i < j < |items| ==> items[i].id != items[j].id
  }

  ghost predicate HasNoItemId(items: seq<ChecklistItem>, id: Uuid) {
    forall i :: 0 <= i < |items| ==> items[i].id != id
  }

  /** Appending an item with a fresh identifier keeps the identifiers unique. */
  lemma AppendFreshItemKeepsUniqueItemIds(items: seq<ChecklistItem>, item: ChecklistItem)
    requires UniqueItemIds(items) && HasNoItemId(items, item.id)
    ensures UniqueItemIds(items + [item])
  {
  }

  /** Dropping items, keeping the order of the rest, keeps the identifiers unique. */
  lemma {:induction false} SubsequenceKeepsUniqueItemIds(a: seq<ChecklistItem>, b: seq<ChecklistItem>)
    requires IsSubsequence(a, b) && UniqueItemIds(b)
    ensures UniqueItemIds(a)
    decreases |b|
  {
    if a != [] {
      if a[0] == b[0] && IsSubsequence(a[1..], b[1..]) {
        SubsequenceKeepsUniqueItemIds(a[1..], b[1..]);
        forall j | 1 <= j < |a| ensures a[0].id != a[j].id {
          SubsequenceMembers(a[1..], b[1..], a[j]);
          var k :| 0 <= k < |b[1..]| && b[1..][k] == a[j];
          assert b[k + 1] == a[j];
        }
      } else {
        SubsequenceKeepsUniqueItemIds(a, b[1..]);
      }
    }
  }

  /** `removeAll` keeps the identifiers unique. */
  lemma RemoveItemsKeepsUniqueItemIds(items: seq<ChecklistItem>, id: Uuid)
    requires UniqueItemIds(items)
    ensures UniqueItemIds(RemoveItemsWithId(items, id))
  {
    SubsequenceKeepsUniqueItemIds(RemoveItemsWithId(items, id), items);
  }

  /** Removing an identifier no item carries changes nothing. */
  lemma RemoveAbsentItem(items: seq<ChecklistItem>, id: Uuid)
    requires forall j :: 0 <= j < |items| ==> items[j].id != id
    ensures RemoveItemsWithId(items, id) == items
  {
    FilterAll(items, (x: ChecklistItem) => x.id != id);
  }
}
