/** The dashboard of entries.js: the session's view state (search term, sort
    order, date-filter mode, current page, undo slot) that its event
    handlers reassign, the delete with single-shot undo, and the page
    buttons. What the dashboard shows is the query pipeline applied to the
    stored entries and this state. */
module Dashboard {
  import opened Wrappers
  import opened Journal
  import opened Text
  import opened Query
  import opened Repo
  import opened Store
  import opened Moods

  /** The sort select's handler: `'oldest'` exactly when the lower-cased value
      (`''` for a missing one) contains `"oldest"`, `'newest'` otherwise. */
  function SortOrderFor(value: Option<string>): (order: SortOrder)
    ensures order == Oldest <==> Contains(Normalize(value), "oldest")
  {
    if Contains(Normalize(value), "oldest") then Oldest else Newest
  }

  /** The calendar button flips between all entries and today's. */
  function Toggled(mode: DateFilterMode): (r: DateFilterMode)
    ensures r != mode
  {
    if mode == Today then All else Today
  }

  lemma ToggleTwice(mode: DateFilterMode)
    ensures Toggled(Toggled(mode)) == mode
  {
  }

  /** A pagination button: its page number and whether it is disabled. */
  datatype PageButton = PageButton(page: nat, disabled: bool)

  class Session {
    const store: EntryStore
    var searchTerm: string
    var sortOrder: SortOrder
    var dateFilterMode: DateFilterMode
    var currentPage: int
    var lastDeletedEntry: Option<Entry>

    /** Page numbers only ever come from the page buttons, which start at 1. */
    ghost predicate Valid()
      reads this
    {
      currentPage >= 1
    }

    /** The module's initial state. */
    constructor (store: EntryStore)
      ensures Valid() && this.store == store
      ensures searchTerm == "" && sortOrder == Newest && dateFilterMode == All
      ensures currentPage == 1 && lastDeletedEntry == None
    {
      this.store := store;
      searchTerm := "";
      sortOrder := Newest;
      dateFilterMode := All;
      currentPage := 1;
      lastDeletedEntry := None;
    }

    /** What `renderEntries` shows for the current state and today's date. */
    function CurrentView(today: CalendarDate, parse: DateParser): (v: View)
      reads this, store
      requires Valid()
      ensures |v.visible| <= ItemsPerPage
      ensures forall e :: e in v.visible ==> e in store.entries
      ensures currentPage > v.totalPages <==> v.visible == []
      ensures var results := Results(store.entries, searchTerm, dateFilterMode, sortOrder, today, parse);
              var first := (currentPage - 1) * ItemsPerPage;
              && v.totalPages == TotalPages(|results|)
              && |v.visible| == (if first < |results| then Min(ItemsPerPage, |results| - first) else 0)
              && forall k :: 0 <= k < |v.visible| ==> v.visible[k] == results[first + k]
    {
      Render(store.entries, searchTerm, dateFilterMode, sortOrder, currentPage, today, parse)
    }

    /** The debounced search handler, taken as one event: the term becomes the
        normalized input and the page goes back to 1. */
    method OnSearchInput(value: string)
      requires Valid()
      modifies this
      ensures Valid()
      ensures searchTerm == Normalize(Some(value)) && currentPage == 1
      ensures |searchTerm| == |value| && forall i :: 0 <= i < |value| ==> searchTerm[i] == LowerChar(value[i])
      ensures sortOrder == old(sortOrder) && dateFilterMode == old(dateFilterMode)
      ensures lastDeletedEntry == old(lastDeletedEntry)
    {
      searchTerm := Normalize(Some(value));
      currentPage := 1;
    }

    /** The sort select's change handler. The page is left as it was. */
    method OnSortChange(value: Option<string>)
      requires Valid()
      modifies this
      ensures Valid()
      ensures sortOrder == SortOrderFor(value)
      ensures searchTerm == old(searchTerm) && dateFilterMode == old(dateFilterMode)
      ensures currentPage == old(currentPage) && lastDeletedEntry == old(lastDeletedEntry)
    {
      sortOrder := SortOrderFor(value);
    }

    /** The calendar button's click handler. The page is left as it was. */
    method OnCalendarClick()
      requires Valid()
      modifies this
      ensures Valid()
      ensures dateFilterMode == Toggled(old(dateFilterMode))
      ensures searchTerm == old(searchTerm) && sortOrder == old(sortOrder)
      ensures currentPage == old(currentPage) && lastDeletedEntry == old(lastDeletedEntry)
    {
      dateFilterMode := Toggled(dateFilterMode);
    }

    /** `renderPagination(totalPages)`: buttons 1 to `totalPages` in order,
        the current page's disabled. */
    method RenderPagination(totalPages: nat) returns (buttons: seq<PageButton>)
      ensures |buttons| == totalPages
      ensures forall k :: 0 <= k < |buttons| ==> buttons[k].page == k + 1
      ensures forall k :: 0 <= k < |buttons| ==> (buttons[k].disabled <==> k + 1 == currentPage)
    {
      buttons := [];
      var i := 1;
      while i <= totalPages
        invariant 1 <= i <= totalPages + 1
        invariant |buttons| == i - 1
        invariant forall k :: 0 <= k < |buttons| ==> buttons[k].page == k + 1
        invariant forall k :: 0 <= k < |buttons| ==> (buttons[k].disabled <==> k + 1 == currentPage)
      {
        buttons := buttons + [PageButton(i, i == currentPage)];
        i := i + 1;
      }
    }

    /** A page button's click handler: that button's page becomes current. */
    method OnPageButton(button: PageButton)
      requires Valid() && button.page >= 1
      modifies this
      ensures Valid()
      ensures currentPage == button.page
      ensures searchTerm == old(searchTerm) && sortOrder == old(sortOrder)
      ensures dateFilterMode == old(dateFilterMode) && lastDeletedEntry == old(lastDeletedEntry)
    {
      currentPage := button.page;
    }

    /** `deleteEntry(entryId)`: the first entry with that id goes into the
        undo slot (or the slot empties when there is none, losing whatever
        it held), every entry with that id is removed, and the rest is
        saved. */
    method DeleteEntry(entryId: EntryId)
      requires Valid()
      modifies this, store
      ensures Valid()
      ensures lastDeletedEntry == FindId(old(store.entries), entryId)
      ensures store.entries == RemoveId(old(store.entries), entryId)
      ensures store.writes == old(store.writes) + 1
      ensures searchTerm == old(searchTerm) && sortOrder == old(sortOrder)
      ensures dateFilterMode == old(dateFilterMode) && currentPage == old(currentPage)
    {
      var entries := store.entries;
      lastDeletedEntry := FindId(entries, entryId);
      var updated := RemoveId(entries, entryId);
      store.Save(updated);
    }

    /** The undo button: with a remembered entry, it is appended to the stored
        entries, saved, and the slot is cleared; with an empty slot nothing
        happens. */
    method Undo()
      requires Valid()
      modifies this, store
      ensures Valid()
      ensures lastDeletedEntry == None
      ensures old(lastDeletedEntry).Some? ==>
                store.entries == old(store.entries) + [old(lastDeletedEntry).value]
                && store.writes == old(store.writes) + 1
      ensures old(lastDeletedEntry).None? ==>
                store.entries == old(store.entries) && store.writes == old(store.writes)
      ensures searchTerm == old(searchTerm) && sortOrder == old(sortOrder)
      ensures dateFilterMode == old(dateFilterMode) && currentPage == old(currentPage)
    {
      if lastDeletedEntry.Some? {
        var entries := store.entries;
        entries := entries + [lastDeletedEntry.value];
        store.Save(entries);
        lastDeletedEntry := None;
      }
    }

    /** `showMoodSummary`: the tally of the stored entries, or nothing (and
        an alert) when there are none. */
    function MoodPanel(): (r: Option<seq<MoodCount>>)
      reads this, store
      ensures r.None? <==> store.entries == []
      ensures r.Some? ==> Total(r.value) == |store.entries|
    {
      MoodSummary(store.entries)
    }
  }

  /** Deleting an entry whose id is unique and then pressing undo leaves the
      same entries in the store, the restored one now last. */
  method DeleteThenUndoRestores(d: Session, entryId: EntryId)
    requires d.Valid() && CountId(d.store.entries, entryId) == 1
    modifies d, d.store
    ensures d.Valid() && d.lastDeletedEntry == None
    ensures multiset(d.store.entries) == multiset(old(d.store.entries))
  {
    ghost var before := d.store.entries;
    d.DeleteEntry(entryId);
    d.Undo();
    DeleteThenUndo(before, entryId);
  }
}
