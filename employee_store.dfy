/**
 * The employee collection store (the TypeScript provider): the collection, the three
 * filter fields and the loading flag, replaced through setters by every operation.
 * `saved` stands for the 'employees_data' slot of local storage; the persist effect,
 * which React runs after every change of the collection, is folded into each mutator.
 */
module EmployeeStore {
  import opened Wrappers
  import opened Seqs
  import opened EmployeeTypes
  import opened EmployeeRecords
  import Helpers

  class EmployeeStore {
    var employees: seq<Employee>
    var isLoading: bool
    var searchQuery: string
    var genderFilter: GenderFilter
    var statusFilter: StatusFilter
    /** The persisted collection, or None when nothing (or nothing readable) is stored. */
    var saved: Option<seq<Employee>>
    /** The built-in sample collection. */
    const seed: seq<Employee>

    /** Once loading has finished, storage holds exactly the in-memory collection. */
    ghost predicate Valid()
      reads this
    {
      !isLoading ==> saved == Some(employees)
    }

    /** The provider's initial state, before the mount effect has read storage. */
    constructor (stored: Option<seq<Employee>>, seed: seq<Employee>)
      ensures Valid()
      ensures employees == [] && isLoading
      ensures searchQuery == "" && genderFilter == AllGenders && statusFilter == AllStatuses
      ensures saved == stored && this.seed == seed
    {
      employees := [];
      isLoading := true;
      searchQuery := "";
      genderFilter := AllGenders;
      statusFilter := AllStatuses;
      saved := stored;
      this.seed := seed;
    }

    /** The persist effect: `if (!isLoading && employees.length >= 0) storage.set(...)`. */
    method Persist()
      modifies this`saved
      ensures saved == if !isLoading then Some(employees) else old(saved)
    {
      if !isLoading && |employees| >= 0 {
        saved := Some(employees);
      }
    }

    /**
     * The mount effect: adopt a non-empty stored collection verbatim, otherwise
     * take the seed and write it back; then loading ends.
     */
    method Initialize()
      modifies this`employees, this`saved, this`isLoading
      ensures Valid() && !isLoading
      ensures old(saved).Some? && |old(saved).value| > 0 ==>
                employees == old(saved).value && saved == old(saved)
      ensures !(old(saved).Some? && |old(saved).value| > 0) ==>
                employees == seed && saved == Some(seed)
      ensures searchQuery == old(searchQuery) && genderFilter == old(genderFilter)
      ensures statusFilter == old(statusFilter)
    {
      if saved.Some? && |saved.value| > 0 {
        employees := saved.value;
      } else {
        employees := seed;
        saved := Some(seed);
      }
      isLoading := false;
      Persist();
    }

    /** addEmployee: the form data gets a generated id and goes to the front; the record is returned. */
    method AddEmployee(data: EmployeeFormData, uuid: string) returns (e: Employee)
      requires Valid()
      modifies this`employees, this`saved
      ensures Valid()
      ensures e == WithId(data, Helpers.GenerateEmployeeId(uuid)) && FormDataOf(e) == data
      ensures employees == Prepend(old(employees), e)
      ensures isLoading == old(isLoading) && FiltersUnchanged()
      ensures old(isLoading) ==> saved == old(saved)
    {
      e := WithId(data, Helpers.GenerateEmployeeId(uuid));
      employees := Prepend(employees, e);
      Persist();
    }

    /** updateEmployee: merge the supplied fields into every record with the id. */
    method UpdateEmployee(id: string, patch: EmployeePatch)
      requires Valid()
      modifies this`employees, this`saved
      ensures Valid()
      ensures employees == UpdateById(old(employees), id, patch)
      ensures isLoading == old(isLoading) && FiltersUnchanged()
      ensures old(isLoading) ==> saved == old(saved)
    {
      employees := UpdateById(employees, id, patch);
      Persist();
    }

    /** deleteEmployee. */
    method DeleteEmployee(id: string)
      requires Valid()
      modifies this`employees, this`saved
      ensures Valid()
      ensures employees == DeleteById(old(employees), id)
      ensures isLoading == old(isLoading) && FiltersUnchanged()
      ensures old(isLoading) ==> saved == old(saved)
    {
      employees := DeleteById(employees, id);
      Persist();
    }

    /** deleteMultipleEmployees: one pass, one write. */
    method DeleteMultipleEmployees(ids: seq<string>)
      requires Valid()
      modifies this`employees, this`saved
      ensures Valid()
      ensures employees == DeleteMany(old(employees), ids)
      ensures isLoading == old(isLoading) && FiltersUnchanged()
      ensures old(isLoading) ==> saved == old(saved)
    {
      employees := DeleteMany(employees, ids);
      Persist();
    }

    /** toggleEmployeeStatus. */
    method ToggleEmployeeStatus(id: string)
      requires Valid()
      modifies this`employees, this`saved
      ensures Valid()
      ensures employees == ToggleById(old(employees), id)
      ensures isLoading == old(isLoading) && FiltersUnchanged()
      ensures old(isLoading) ==> saved == old(saved)
    {
      employees := ToggleById(employees, id);
      Persist();
    }

    /** getEmployeeById: a read of the current collection. */
    function GetEmployeeById(id: string): (r: Option<Employee>)
      reads this
      ensures r.None? <==> forall e | e in employees :: e.id != id
      ensures r.Some? ==> exists i :: FirstWithId(employees, id, i) && r.value == employees[i]
    {
      FindById(employees, id)
    }

    /** The memoised `filteredEmployees`. */
    function FilteredEmployees(): (r: seq<Employee>)
      reads this
      ensures IsSubsequence(r, employees)
      ensures forall e :: e in r <==> e in employees && Matches(e, searchQuery, genderFilter, statusFilter)
      ensures forall e :: multiset(r)[e] ==
                if Matches(e, searchQuery, genderFilter, statusFilter) then multiset(employees)[e] else 0
    {
      FilterEmployees(employees, searchQuery, genderFilter, statusFilter)
    }

    /** The memoised `stats`: it reads the collection only, so no filter can change it. */
    function CurrentStats(): (st: EmployeeStats)
      reads this
      ensures st.total == |employees| && st.active == ActiveCount(employees)
      ensures st.active + st.inactive == st.total
    {
      Stats(employees)
    }

    twostate predicate FiltersUnchanged()
      reads this
    {
      searchQuery == old(searchQuery) && genderFilter == old(genderFilter)
      && statusFilter == old(statusFilter)
    }

    method SetSearchQuery(q: string)
      requires Valid()
      modifies this`searchQuery
      ensures Valid() && searchQuery == q
    {
      searchQuery := q;
    }

    method SetGenderFilter(g: GenderFilter)
      requires Valid()
      modifies this`genderFilter
      ensures Valid() && genderFilter == g
    {
      genderFilter := g;
    }

    method SetStatusFilter(s: StatusFilter)
      requires Valid()
      modifies this`statusFilter
      ensures Valid() && statusFilter == s
    {
      statusFilter := s;
    }

    /** clearFilters: all three filters back to their defaults in one call; the view is then the whole collection. */
    method ClearFilters()
      requires Valid()
      modifies this`searchQuery, this`genderFilter, this`statusFilter
      ensures Valid()
      ensures searchQuery == "" && genderFilter == AllGenders && statusFilter == AllStatuses
      ensures FilteredEmployees() == employees
    {
      searchQuery, genderFilter, statusFilter := "", AllGenders, AllStatuses;
      NoActiveFiltersShowsAll(employees, searchQuery, genderFilter, statusFilter);
    }
  }

  /** A fresh session over empty storage ends with the seed in memory and in storage. */
  method EmptyStorageSeeds(seed: seq<Employee>) returns (store: EmployeeStore)
    ensures fresh(store) && store.Valid() && !store.isLoading
    ensures store.employees == seed && store.saved == Some(seed)
  {
    store := new EmployeeStore(None, seed);
    store.Initialize();
  }

  /** Two adds (the later one first), then a bulk delete of every id: the empty list is what gets persisted. */
  method AddTwiceThenClear(store: EmployeeStore, x: EmployeeFormData, y: EmployeeFormData, u1: string, u2: string)
    returns (ex: Employee, ey: Employee)
    requires store.Valid() && !store.isLoading
    modifies store
    ensures ex == WithId(x, Helpers.GenerateEmployeeId(u1)) && ey == WithId(y, Helpers.GenerateEmployeeId(u2))
    ensures store.Valid() && store.employees == [] && store.saved == Some([])
  {
    var before := store.employees;
    ex := store.AddEmployee(x, u1);
    ey := store.AddEmployee(y, u2);
    assert store.employees == [ey, ex] + before;
    DeleteEveryId(store.employees);
    store.DeleteMultipleEmployees(Map(store.employees, (e: Employee) => e.id));
  }
}
