/**
 * The employee directory page: pagination over the filtered view, the row selection,
 * the delete confirmation and the effect that resets page and selection when the
 * filters or the page size change.
 */
module EmployeesPage {
  import opened Wrappers
  import opened Seqs
  import opened Strings
  import opened EmployeeTypes
  import opened EmployeeRecords
  import opened EmployeeStore
  import opened Notifications
  import EmployeeTable
  import Pagination

  // ---------------------------------------------------------------- pagination

  /** The page sizes the "Show:" selector offers. */
  const PageSizes: seq<nat> := [10, 20, 30, 40, 50]
  const DefaultPageSize: nat := 10

  /** `Math.ceil(count / perPage)`: the fewest pages of `perPage` rows that hold `count` rows. */
  function TotalPages(count: nat, perPage: nat): (r: nat)
    requires perPage > 0
    ensures count <= r * perPage
    ensures r > 0 ==> (r - 1) * perPage < count
    ensures r == 0 <==> count == 0
  {
    var q := count / perPage;
    assert count == q * perPage + count % perPage;
    if count % perPage == 0 then q else q + 1
  }

  /** `(currentPage - 1) * itemsPerPage`. */
  function StartIndex(page: int, perPage: nat): int {
    (page - 1) * perPage
  }

  function Clamp(i: int, len: nat): nat {
    if i < 0 then 0 else if i > len then len else i
  }

  /** `filteredEmployees.slice(startIndex, startIndex + itemsPerPage)`. */
  function PageOf(xs: seq<Employee>, page: int, perPage: nat): (r: seq<Employee>)
    ensures |r| <= perPage
    ensures page >= 1 ==>
              r == xs[Clamp(StartIndex(page, perPage), |xs|)..Clamp(StartIndex(page, perPage) + perPage, |xs|)]
  {
    var start := StartIndex(page, perPage);
    JsSlice(xs, start, start + perPage)
  }

  /** The rows of pages 1 to k, one page after another. */
  function PagesUpTo(xs: seq<Employee>, perPage: nat, k: nat): seq<Employee> {
    if k == 0 then [] else PagesUpTo(xs, perPage, k - 1) + PageOf(xs, k, perPage)
  }

  /** Pages 1 to k are exactly the first k * perPage rows. */
  lemma {:induction false} PagesUpToIsPrefix(xs: seq<Employee>, perPage: nat, k: nat)
    ensures PagesUpTo(xs, perPage, k) == xs[..Clamp(k * perPage, |xs|)]
  {
    if k > 0 {
      PagesUpToIsPrefix(xs, perPage, k - 1);
      assert StartIndex(k, perPage) == (k - 1) * perPage;
      assert StartIndex(k, perPage) + perPage == k * perPage;
      var a := Clamp((k - 1) * perPage, |xs|);
      var b := Clamp(k * perPage, |xs|);
      assert a <= b;
      assert xs[..a] + xs[a..b] == xs[..b];
    }
  }

  /** The pages from 1 to the last one show every filtered row once, in order. */
  lemma PagesCoverView(xs: seq<Employee>, perPage: nat)
    requires perPage > 0
    ensures PagesUpTo(xs, perPage, TotalPages(|xs|, perPage)) == xs
  {
    var t := TotalPages(|xs|, perPage);
    PagesUpToIsPrefix(xs, perPage, t);
    assert Clamp(t * perPage, |xs|) == |xs|;
  }

  /** A page from 1 on shows some row exactly when it is not past the last page. */
  lemma PageNonEmptyIff(xs: seq<Employee>, page: int, perPage: nat)
    requires perPage > 0 && page >= 1
    ensures PageOf(xs, page, perPage) != [] <==> page <= TotalPages(|xs|, perPage)
  {
    var t := TotalPages(|xs|, perPage);
    var start := StartIndex(page, perPage);
    if page <= t {
      MulMonotone(page - 1, t - 1, perPage);
      assert 0 <= start < |xs|;
    } else {
      MulMonotone(t, page - 1, perPage);
      assert start >= |xs|;
    }
  }

  lemma MulMonotone(a: int, b: int, c: nat)
    requires a <= b
    ensures a * c <= b * c
  {
    assert b * c - a * c == (b - a) * c;
  }

  /**
   * Deleting the only row of the last page leaves the view one page shorter. Nothing
   * moves the current page back, so page 2 of a ten-per-page view that drops from
   * eleven rows to ten shows no rows, and the pager is then hidden.
   */
  lemma DeletingLoneLastRowStrandsPage(xs: seq<Employee>)
    requires |xs| == 11
    requires forall i :: 0 <= i < 10 ==> xs[i].id != xs[10].id
    ensures PageOf(xs, 2, DefaultPageSize) == [xs[10]]
    ensures var after := DeleteById(xs, xs[10].id);
            after == xs[..10]
            && TotalPages(|after|, DefaultPageSize) == 1
            && PageOf(after, 2, DefaultPageSize) == []
            && !Pagination.IsRendered(TotalPages(|after|, DefaultPageSize))
  {
    assert xs == xs[..10] + [xs[10]];
    DeleteAppended(xs[..10], xs[10]);
    assert TotalPages(10, DefaultPageSize) == 1;
  }

  // ---------------------------------------------------------------- selection

  /** handleSelectOne: drop the id when present, otherwise append it. */
  function ToggleSelection(selected: seq<string>, id: string): (r: seq<string>)
    ensures id in r <==> id !in selected
    ensures forall x :: x != id ==> (x in r <==> x in selected)
    ensures NoDuplicates(selected) ==> NoDuplicates(r)
  {
    if id in selected then
      FilterNoDuplicates(selected, (x: string) => x != id);
      Filter(selected, (x: string) => x != id)
    else
      selected + [id]
  }

  /** Selecting an unselected row and then unselecting it restores the selection exactly. */
  lemma ToggleTwiceRestores(selected: seq<string>, id: string)
    requires id !in selected
    ensures ToggleSelection(ToggleSelection(selected, id), id) == selected
  {
    var p := (x: string) => x != id;
    FilterAppend(selected, [id], p);
    FilterKeepsAll(selected, p);
    assert Filter([id], p) == [];
  }

  /** handleSelectAll: every filtered id (on all pages), or nothing. */
  function SelectAll(checked: bool, filtered: seq<Employee>): (r: seq<string>)
    ensures !checked ==> r == []
    ensures checked ==> |r| == |filtered| && forall i :: 0 <= i < |filtered| ==> r[i] == filtered[i].id
  {
    if checked then EmployeeTable.RowIds(filtered) else []
  }

  /**
   * With more than one page, "select all" picks more ids than a page has rows, so the
   * header checkbox of the visible page shows neither checked nor indeterminate.
   */
  lemma SelectAllAcrossPages(filtered: seq<Employee>, page: int, perPage: nat)
    requires perPage > 0 && TotalPages(|filtered|, perPage) > 1
    ensures var rows := PageOf(filtered, page, perPage);
            var sel := SelectAll(true, filtered);
            !EmployeeTable.IsAllSelected(rows, sel) && !EmployeeTable.IsIndeterminate(rows, sel)
  {
    var t := TotalPages(|filtered|, perPage);
    MulMonotone(1, t - 1, perPage);
  }

  /** On a single non-empty page, "select all" checks the header. */
  lemma SelectAllOnSinglePage(filtered: seq<Employee>, perPage: nat)
    requires perPage > 0 && TotalPages(|filtered|, perPage) == 1
    ensures EmployeeTable.IsAllSelected(PageOf(filtered, 1, perPage), SelectAll(true, filtered))
  {
    assert PageOf(filtered, 1, perPage) == filtered[..|filtered|];
  }

  // ---------------------------------------------------------------- delete dialog

  datatype DeleteModal = DeleteModal(isOpen: bool, employeeId: Option<string>, isBulk: bool)

  const ClosedModal := DeleteModal(false, None, false)

  /** `Successfully deleted ${selectedIds.length} employees`. */
  function BulkDeletedMessage(n: nat): string {
    "Successfully deleted " + NatToString(n) + " employees"
  }

  /** The bulk message names the count: the digits between its fixed words read back as `n`. */
  lemma BulkDeletedNamesCount(n: nat)
    ensures |BulkDeletedMessage(n)| > 31
    ensures BulkDeletedMessage(n)[..21] == "Successfully deleted "
    ensures BulkDeletedMessage(n)[21..|BulkDeletedMessage(n)| - 10] == NatToString(n)
    ensures DecimalValue(BulkDeletedMessage(n)[21..|BulkDeletedMessage(n)| - 10]) == n
  {
    NatToStringRoundTrip(n);
  }

  const SingleDeletedMessage := "Employee deleted successfully"

  // ---------------------------------------------------------------- the page

  /** The reset effect's dependency list: `[searchQuery, genderFilter, statusFilter, itemsPerPage]`. */
  datatype FilterDeps = FilterDeps(
    searchQuery: string,
    genderFilter: GenderFilter,
    statusFilter: StatusFilter,
    itemsPerPage: nat)

  /** What the filter bar hands to the store: one setter call, or clear-all. */
  datatype FilterEdit =
    | SearchChange(query: string)
    | GenderChange(gender: GenderFilter)
    | StatusChange(status: StatusFilter)
    | ClearAll

  class EmployeesPage {
    var viewMode: ViewMode
    var currentPage: int
    var itemsPerPage: nat
    var selectedIds: seq<string>
    var deleteModal: DeleteModal
    /** The dependency values the reset effect last ran with. */
    var lastDeps: FilterDeps

    ghost predicate Valid()
      reads this
    {
      itemsPerPage > 0
    }

    function Deps(store: EmployeeStore): FilterDeps
      reads this, store
    {
      FilterDeps(store.searchQuery, store.genderFilter, store.statusFilter, itemsPerPage)
    }

    /** Between events the reset effect has seen the current dependency values. */
    ghost predicate Synced(store: EmployeeStore)
      reads this, store
    {
      Valid() && lastDeps == Deps(store)
    }

    /** Mounting: the initial state; the effect's first run sets what is already set. */
    constructor (store: EmployeeStore)
      ensures Synced(store)
      ensures viewMode == Table && currentPage == 1 && itemsPerPage == DefaultPageSize
      ensures selectedIds == [] && deleteModal == ClosedModal
    {
      viewMode := Table;
      currentPage := 1;
      itemsPerPage := DefaultPageSize;
      selectedIds := [];
      deleteModal := ClosedModal;
      lastDeps := FilterDeps(store.searchQuery, store.genderFilter, store.statusFilter, DefaultPageSize);
    }

    function TotalPagesNow(store: EmployeeStore): (n: nat)
      reads this, store
      requires Valid()
      ensures |store.FilteredEmployees()| <= n * itemsPerPage
      ensures n > 0 ==> (n - 1) * itemsPerPage < |store.FilteredEmployees()|
      ensures n == 0 <==> store.FilteredEmployees() == []
    {
      TotalPages(|store.FilteredEmployees()|, itemsPerPage)
    }

    /** The rows handed to the table or the grid. */
    function Rows(store: EmployeeStore): (r: seq<Employee>)
      reads this, store
      requires Valid()
      ensures |r| <= itemsPerPage
      ensures forall e | e in r :: e in store.FilteredEmployees()
      ensures currentPage >= 1 ==>
                r == store.FilteredEmployees()[Clamp(StartIndex(currentPage, itemsPerPage), |store.FilteredEmployees()|)
                                               ..Clamp(StartIndex(currentPage, itemsPerPage) + itemsPerPage, |store.FilteredEmployees()|)]
    {
      PageOf(store.FilteredEmployees(), currentPage, itemsPerPage)
    }

    /** The pager is rendered only when the filtered view needs more than one page. */
    predicate PagerShown(store: EmployeeStore)
      reads this, store
      requires Valid()
    {
      store.FilteredEmployees() != [] && Pagination.IsRendered(TotalPagesNow(store))
    }

    /** The bulk-delete button appears while something is selected. */
    predicate BulkDeleteShown()
      reads this
    {
      |selectedIds| > 0
    }

    /**
     * React's rule for the reset effect: it runs after a render only when some
     * dependency differs from the values of its previous run.
     */
    method ResetEffect(store: EmployeeStore)
      modifies this`currentPage, this`selectedIds, this`lastDeps
      ensures lastDeps == Deps(store)
      ensures old(lastDeps) != Deps(store) ==> currentPage == 1 && selectedIds == []
      ensures old(lastDeps) == Deps(store) ==>
                currentPage == old(currentPage) && selectedIds == old(selectedIds)
    {
      var deps := Deps(store);
      if deps != lastDeps {
        currentPage := 1;
        selectedIds := [];
        lastDeps := deps;
      }
    }

    /** A change in the filter bar (or the empty state's "Clear Filters"), then the effect. */
    method OnFilterEdit(store: EmployeeStore, edit: FilterEdit)
      requires store.Valid() && Synced(store)
      modifies store`searchQuery, store`genderFilter, store`statusFilter
      modifies this`currentPage, this`selectedIds, this`lastDeps
      ensures store.Valid() && Synced(store)
      ensures match edit
              case SearchChange(q) =>
                store.searchQuery == q && store.genderFilter == old(store.genderFilter)
                && store.statusFilter == old(store.statusFilter)
              case GenderChange(g) =>
                store.genderFilter == g && store.searchQuery == old(store.searchQuery)
                && store.statusFilter == old(store.statusFilter)
              case StatusChange(st) =>
                store.statusFilter == st && store.searchQuery == old(store.searchQuery)
                && store.genderFilter == old(store.genderFilter)
              case ClearAll =>
                store.searchQuery == "" && store.genderFilter == AllGenders
                && store.statusFilter == AllStatuses
      ensures old(Deps(store)) != Deps(store) ==> currentPage == 1 && selectedIds == []
      ensures old(Deps(store)) == Deps(store) ==>
                currentPage == old(currentPage) && selectedIds == old(selectedIds)
    {
      match edit {
        case SearchChange(q) => store.SetSearchQuery(q);
        case GenderChange(g) => store.SetGenderFilter(g);
        case StatusChange(st) => store.SetStatusFilter(st);
        case ClearAll => store.ClearFilters();
      }
      ResetEffect(store);
    }

    /** The "Show:" selector, then the effect. */
    method OnItemsPerPageChange(store: EmployeeStore, n: nat)
      requires n in PageSizes && Synced(store)
      modifies this`itemsPerPage, this`currentPage, this`selectedIds, this`lastDeps
      ensures Synced(store) && itemsPerPage == n
      ensures n != old(itemsPerPage) ==> currentPage == 1 && selectedIds == []
      ensures n == old(itemsPerPage) ==>
                currentPage == old(currentPage) && selectedIds == old(selectedIds)
    {
      itemsPerPage := n;
      ResetEffect(store);
    }

    /** `onPageChange={setCurrentPage}`. */
    method OnPageChange(page: int)
      modifies this`currentPage
      ensures currentPage == page
    {
      currentPage := page;
    }

    /** A pager click from a page within range lands on a page within range. */
    method ClickPager(store: EmployeeStore, b: Pagination.Button)
      requires Valid() && PagerShown(store)
      modifies this`currentPage
      ensures var r := Pagination.Click(b, old(currentPage), TotalPagesNow(store));
              currentPage == if r.Some? then r.value else old(currentPage)
      ensures 1 <= old(currentPage) <= TotalPagesNow(store) ==> 1 <= currentPage <= TotalPagesNow(store)
    {
      var r := Pagination.Click(b, currentPage, TotalPagesNow(store));
      if r.Some? {
        OnPageChange(r.value);
      }
    }

    method SetViewMode(m: ViewMode)
      modifies this`viewMode
      ensures viewMode == m
    {
      viewMode := m;
    }

    method HandleSelectOne(id: string)
      modifies this`selectedIds
      ensures selectedIds == ToggleSelection(old(selectedIds), id)
      ensures id in selectedIds <==> id !in old(selectedIds)
    {
      selectedIds := ToggleSelection(selectedIds, id);
    }

    method HandleSelectAll(store: EmployeeStore, checked: bool)
      modifies this`selectedIds
      ensures selectedIds == SelectAll(checked, store.FilteredEmployees())
    {
      selectedIds := SelectAll(checked, store.FilteredEmployees());
    }

    method HandleDeleteClick(id: string)
      modifies this`deleteModal
      ensures deleteModal == DeleteModal(true, Some(id), false)
    {
      deleteModal := DeleteModal(true, Some(id), false);
    }

    method HandleBulkDeleteClick()
      modifies this`deleteModal
      ensures deleteModal == DeleteModal(true, None, true)
    {
      deleteModal := DeleteModal(true, None, true);
    }

    /** The dialog's cancel and close. */
    method CloseModal()
      modifies this`deleteModal
      ensures deleteModal == ClosedModal
    {
      deleteModal := ClosedModal;
    }

    function ModalTitle(): string
      reads this
    {
      if deleteModal.isBulk then "Delete Employees" else "Delete Employee"
    }

    /**
     * The dialog's confirm: a bulk delete of the selection, or a single delete of the
     * remembered id when it is a non-empty string; then the dialog closes. The store's
     * filters do not change, so the reset effect does not run: the page number stays,
     * and after a single delete the selection may still name the deleted record.
     */
    method HandleConfirmDelete(store: EmployeeStore, notes: NotificationCenter, now: nat, randomPart: string)
      requires store.Valid() && Synced(store)
      modifies store, notes, this`selectedIds, this`deleteModal
      ensures store.Valid() && Synced(store)
      ensures store.isLoading == old(store.isLoading) && store.FiltersUnchanged()
      ensures deleteModal == ClosedModal && currentPage == old(currentPage)
      ensures old(deleteModal).isBulk ==>
                store.employees == DeleteMany(old(store.employees), old(selectedIds))
                && selectedIds == []
                && notes.notifications == old(notes.notifications)
                   + [Notification(NotificationId(now, randomPart), BulkDeletedMessage(|old(selectedIds)|), Success)]
      ensures !old(deleteModal).isBulk && old(deleteModal).employeeId.Some? && old(deleteModal).employeeId.value != "" ==>
                store.employees == DeleteById(old(store.employees), old(deleteModal).employeeId.value)
                && selectedIds == old(selectedIds)
                && notes.notifications == old(notes.notifications)
                   + [Notification(NotificationId(now, randomPart), SingleDeletedMessage, Success)]
      ensures !old(deleteModal).isBulk && (old(deleteModal).employeeId.None? || old(deleteModal).employeeId.value == "") ==>
                store.employees == old(store.employees) && selectedIds == old(selectedIds)
                && notes.notifications == old(notes.notifications)
    {
      if deleteModal.isBulk {
        store.DeleteMultipleEmployees(selectedIds);
        notes.ShowNotification(BulkDeletedMessage(|selectedIds|), Success, now, randomPart);
        selectedIds := [];
      } else if deleteModal.employeeId.Some? && deleteModal.employeeId.value != "" {
        store.DeleteEmployee(deleteModal.employeeId.value);
        notes.ShowNotification(SingleDeletedMessage, Success, now, randomPart);
      }
      deleteModal := ClosedModal;
    }
  }
}
