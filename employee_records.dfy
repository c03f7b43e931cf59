/**
 * The pure record transforms behind both employee stores: the `map`/`filter`/`find`
 * updaters of add, update, delete, bulk delete, toggle and lookup, the filtered view
 * and the statistics.
 */
module EmployeeRecords {
  import opened Wrappers
  import opened Seqs
  import opened Strings
  import opened EmployeeTypes

  /**
   * `Partial<Employee>`: each field either absent (None) or supplied. For
   * `profileImage`, Some(None) is a supplied `undefined`, which the spread copies.
   */
  datatype EmployeePatch = EmployeePatch(
    id: Option<string>,
    fullName: Option<string>,
    gender: Option<Gender>,
    dob: Option<string>,
    state: Option<string>,
    isActive: Option<bool>,
    profileImage: Option<Option<string>>)

  const EmptyPatch := EmployeePatch(None, None, None, None, None, None, None)

  /** The patch that `updateEmployee(id, formData)` passes: every field but `id` supplied. */
  function PatchOfForm(d: EmployeeFormData): EmployeePatch {
    EmployeePatch(None, Some(d.fullName), Some(d.gender), Some(d.dob), Some(d.state),
                  Some(d.isActive), Some(d.profileImage))
  }

  /** `{ ...emp, ...patch }`. */
  function Merge(e: Employee, p: EmployeePatch): Employee {
    Employee(p.id.GetOr(e.id), p.fullName.GetOr(e.fullName), p.gender.GetOr(e.gender),
             p.dob.GetOr(e.dob), p.state.GetOr(e.state), p.isActive.GetOr(e.isActive),
             p.profileImage.GetOr(e.profileImage))
  }

  /** Merging supplies exactly the patch's fields and keeps the rest; merging again changes nothing. */
  lemma MergeProperties(e: Employee, p: EmployeePatch)
    ensures Merge(e, EmptyPatch) == e
    ensures Merge(Merge(e, p), p) == Merge(e, p)
    ensures Merge(e, p).id == if p.id.Some? then p.id.value else e.id
    ensures Merge(e, p).fullName == if p.fullName.Some? then p.fullName.value else e.fullName
    ensures Merge(e, p).gender == if p.gender.Some? then p.gender.value else e.gender
    ensures Merge(e, p).dob == if p.dob.Some? then p.dob.value else e.dob
    ensures Merge(e, p).state == if p.state.Some? then p.state.value else e.state
    ensures Merge(e, p).isActive == if p.isActive.Some? then p.isActive.value else e.isActive
    ensures Merge(e, p).profileImage ==
              if p.profileImage.Some? then p.profileImage.value else e.profileImage
  {
  }

  /** Merging a whole form into a record gives the form's data under the record's id. */
  lemma MergeForm(e: Employee, d: EmployeeFormData)
    ensures Merge(e, PatchOfForm(d)) == WithId(d, e.id)
  {
  }

  // ---------------------------------------------------------------- mutators

  /** `[newEmployee, ...prev]` (the current store). */
  function Prepend(emps: seq<Employee>, e: Employee): (r: seq<Employee>)
    ensures |r| == |emps| + 1 && r[0] == e && r[1..] == emps
  {
    [e] + emps
  }

  /** `[...prev, newEmployee]` (the older store). */
  function Append(emps: seq<Employee>, e: Employee): (r: seq<Employee>)
    ensures |r| == |emps| + 1 && r[|emps|] == e && r[..|emps|] == emps
  {
    emps + [e]
  }

  /** The two ways of adding hold the same records, only in another order. */
  lemma {:induction false} AddOrdersAgree(emps: seq<Employee>, e: Employee)
    ensures multiset(Prepend(emps, e)) == multiset(Append(emps, e))
    ensures Stats(Prepend(emps, e)) == Stats(Append(emps, e))
  {
    FilterAppend([e], emps, (x: Employee) => x.isActive);
    FilterAppend(emps, [e], (x: Employee) => x.isActive);
  }

  /** `prev.map(emp => emp.id === id ? { ...emp, ...patch } : emp)`. */
  function UpdateById(emps: seq<Employee>, id: string, p: EmployeePatch): (r: seq<Employee>)
    ensures |r| == |emps|
    ensures forall i :: 0 <= i < |emps| && emps[i].id != id ==> r[i] == emps[i]
    ensures forall i :: 0 <= i < |emps| && emps[i].id == id ==> r[i] == Merge(emps[i], p)
  {
    Map(emps, (e: Employee) => if e.id == id then Merge(e, p) else e)
  }

  /** An update naming an id no record has changes nothing. */
  lemma UpdateUnknownId(emps: seq<Employee>, id: string, p: EmployeePatch)
    requires forall i :: 0 <= i < |emps| ==> emps[i].id != id
    ensures UpdateById(emps, id, p) == emps
  {
  }

  /** `prev.filter(emp => emp.id !== id)`. */
  function DeleteById(emps: seq<Employee>, id: string): (r: seq<Employee>)
    ensures IsSubsequence(r, emps)
    ensures forall e :: e in r <==> e in emps && e.id != id
    ensures forall e :: multiset(r)[e] == if e.id != id then multiset(emps)[e] else 0
  {
    FilterMultiplicity(emps, (e: Employee) => e.id != id);
    Filter(emps, (e: Employee) => e.id != id)
  }

  /** `prev.filter(emp => !ids.includes(emp.id))`. */
  function DeleteMany(emps: seq<Employee>, ids: seq<string>): (r: seq<Employee>)
    ensures IsSubsequence(r, emps)
    ensures forall e :: e in r <==> e in emps && e.id !in ids
    ensures forall e :: multiset(r)[e] == if e.id !in ids then multiset(emps)[e] else 0
  {
    FilterMultiplicity(emps, (e: Employee) => e.id !in ids);
    Filter(emps, (e: Employee) => e.id !in ids)
  }

  /** Deleting the id of a record just appended, which no earlier record has, leaves the earlier records. */
  lemma DeleteAppended(emps: seq<Employee>, e: Employee)
    requires forall x | x in emps :: x.id != e.id
    ensures DeleteById(emps + [e], e.id) == emps
  {
    FilterAppend(emps, [e], (x: Employee) => x.id != e.id);
    FilterKeepsAll(emps, (x: Employee) => x.id != e.id);
  }

  /** A bulk delete of every record's id empties the collection. */
  lemma DeleteEveryId(emps: seq<Employee>)
    ensures DeleteMany(emps, Map(emps, (e: Employee) => e.id)) == []
  {
    var ids := Map(emps, (e: Employee) => e.id);
    forall i | 0 <= i < |emps| ensures emps[i].id in ids {
      assert ids[i] == emps[i].id;
    }
  }

  /** Deleting an id no record has is a no-op, and deleting it twice is deleting it once. */
  lemma DeleteByIdNoOp(emps: seq<Employee>, id: string)
    ensures (forall i :: 0 <= i < |emps| ==> emps[i].id != id) ==> DeleteById(emps, id) == emps
    ensures DeleteById(DeleteById(emps, id), id) == DeleteById(emps, id)
  {
    if forall i :: 0 <= i < |emps| ==> emps[i].id != id {
      FilterKeepsAll(emps, (e: Employee) => e.id != id);
    }
    FilterIdempotent(emps, (e: Employee) => e.id != id);
  }

  /** Bulk delete with no ids is a no-op, and with one id it is the single delete. */
  lemma DeleteManyEdgeCases(emps: seq<Employee>, id: string)
    ensures DeleteMany(emps, []) == emps
    ensures DeleteMany(emps, [id]) == DeleteById(emps, id)
  {
    FilterKeepsAll(emps, (e: Employee) => e.id !in []);
    FilterAgree(emps, (e: Employee) => e.id !in [id], (e: Employee) => e.id != id);
  }

  /** The record with its status flipped. */
  function Toggled(e: Employee): (r: Employee)
    ensures r.isActive == !e.isActive && r.(isActive := e.isActive) == e
  {
    e.(isActive := !e.isActive)
  }

  /** `prev.map(emp => emp.id === id ? { ...emp, isActive: !emp.isActive } : emp)`. */
  function ToggleById(emps: seq<Employee>, id: string): (r: seq<Employee>)
    ensures |r| == |emps|
    ensures forall i :: 0 <= i < |emps| ==> r[i].id == emps[i].id
    ensures forall i :: 0 <= i < |emps| ==>
              r[i] == if emps[i].id == id then Toggled(emps[i]) else emps[i]
  {
    Map(emps, (e: Employee) => if e.id == id then Toggled(e) else e)
  }

  /** Toggling the same id twice restores the collection. */
  lemma ToggleTwice(emps: seq<Employee>, id: string)
    ensures ToggleById(ToggleById(emps, id), id) == emps
  {
    var r := ToggleById(ToggleById(emps, id), id);
    assert forall i :: 0 <= i < |emps| ==> r[i] == emps[i];
  }

  /** `employees.find(emp => emp.id === id) || null`: the first record with the id. */
  function FindById(emps: seq<Employee>, id: string): (r: Option<Employee>)
    ensures r.None? <==> forall i :: 0 <= i < |emps| ==> emps[i].id != id
    ensures r.Some? ==> exists i :: FirstWithId(emps, id, i) && r.value == emps[i]
  {
    if emps == [] then None
    else if emps[0].id == id then (assert FirstWithId(emps, id, 0); Some(emps[0]))
    else
      FirstWithIdShift(emps, id);
      FindById(emps[1..], id)
  }

  lemma FirstWithIdShift(emps: seq<Employee>, id: string)
    requires emps != [] && emps[0].id != id
    ensures forall j :: FirstWithId(emps[1..], id, j) ==> FirstWithId(emps, id, j + 1) && emps[1..][j] == emps[j + 1]
  {
  }

  /** `i` is the first index whose record has the id. */
  ghost predicate FirstWithId(emps: seq<Employee>, id: string, i: int) {
    0 <= i < |emps| && emps[i].id == id && forall j :: 0 <= j < i ==> emps[j].id != id
  }

  // ---------------------------------------------------------------- derived view

  /** (a) the lower-cased name includes the lower-cased query. */
  predicate MatchesSearch(e: Employee, query: string) {
    Contains(Lower(e.fullName), Lower(query))
  }

  /** (b) the gender filter is 'all' or names the record's gender. */
  predicate MatchesGender(e: Employee, g: GenderFilter) {
    g == AllGenders || g == OnlyGender(e.gender)
  }

  /** (c) 'all', or 'active' with isActive, or 'inactive' with !isActive. */
  predicate MatchesStatus(e: Employee, s: StatusFilter) {
    s == AllStatuses || (s == ActiveOnly && e.isActive) || (s == InactiveOnly && !e.isActive)
  }

  predicate Matches(e: Employee, query: string, g: GenderFilter, s: StatusFilter) {
    MatchesSearch(e, query) && MatchesGender(e, g) && MatchesStatus(e, s)
  }

  /** `filteredEmployees`: the records passing all three filters, in collection order. */
  function FilterEmployees(emps: seq<Employee>, query: string, g: GenderFilter, s: StatusFilter)
    : (r: seq<Employee>)
    ensures IsSubsequence(r, emps)
    ensures forall e :: e in r <==>
              e in emps && MatchesSearch(e, query) && MatchesGender(e, g) && MatchesStatus(e, s)
    ensures forall e :: multiset(r)[e] ==
              if MatchesSearch(e, query) && MatchesGender(e, g) && MatchesStatus(e, s)
              then multiset(emps)[e] else 0
  {
    FilterMultiplicity(emps, (e: Employee) => Matches(e, query, g, s));
    Filter(emps, (e: Employee) => Matches(e, query, g, s))
  }

  /** The filter bar's `hasActiveFilters`: a query is typed or a filter is not 'all'. */
  predicate HasActiveFilters(query: string, g: GenderFilter, s: StatusFilter) {
    query != "" || g != AllGenders || s != AllStatuses
  }

  /** With no active filter (in particular after clearFilters) the view is the whole collection. */
  lemma NoActiveFiltersShowsAll(emps: seq<Employee>, query: string, g: GenderFilter, s: StatusFilter)
    requires !HasActiveFilters(query, g, s)
    ensures FilterEmployees(emps, query, g, s) == emps
  {
    forall i | 0 <= i < |emps| ensures Matches(emps[i], query, g, s) {
      ContainsEmpty(Lower(emps[i].fullName));
    }
    FilterKeepsAll(emps, (e: Employee) => Matches(e, query, g, s));
  }

  /** A gender filter on its own shows a record exactly when the record has that gender. */
  lemma GenderFilterAlone(emps: seq<Employee>, gender: Gender)
    ensures forall e :: e in FilterEmployees(emps, "", OnlyGender(gender), AllStatuses) <==>
              e in emps && e.gender == gender
  {
    forall e ensures MatchesSearch(e, "") {
      ContainsEmpty(Lower(e.fullName));
    }
  }

  // ---------------------------------------------------------------- statistics

  datatype EmployeeStats = EmployeeStats(total: nat, active: nat, inactive: int)

  /** `stats`: over the whole collection, never the filtered view. */
  function Stats(emps: seq<Employee>): (st: EmployeeStats)
    ensures st.total == |emps| && st.active <= st.total && st.inactive >= 0
    ensures st.active == ActiveCount(emps)
    ensures st.active + st.inactive == st.total
  {
    var total := |emps|;
    var active := |Filter(emps, (e: Employee) => e.isActive)|;
    FilterActiveCount(emps);
    EmployeeStats(total, active, total - active)
  }

  /** The number of active records, counted one record at a time. */
  function ActiveCount(emps: seq<Employee>): nat {
    if emps == [] then 0 else (if emps[0].isActive then 1 else 0) + ActiveCount(emps[1..])
  }

  /** Filtering on `isActive` keeps exactly as many records as ActiveCount counts. */
  lemma {:induction false} FilterActiveCount(emps: seq<Employee>)
    ensures |Filter(emps, (e: Employee) => e.isActive)| == ActiveCount(emps)
  {
    if emps != [] {
      FilterActiveCount(emps[1..]);
    }
  }

  /** The status filters split the collection: 'active' shows `active` records and 'inactive' shows `inactive`. */
  lemma StatusFilterCountsMatchStats(emps: seq<Employee>)
    ensures |FilterEmployees(emps, "", AllGenders, ActiveOnly)| == Stats(emps).active
    ensures |FilterEmployees(emps, "", AllGenders, InactiveOnly)| == Stats(emps).inactive
  {
    forall i | 0 <= i < |emps| ensures MatchesSearch(emps[i], "") {
      ContainsEmpty(Lower(emps[i].fullName));
    }
    FilterAgree(emps, (e: Employee) => Matches(e, "", AllGenders, ActiveOnly), (e: Employee) => e.isActive);
    FilterComplement(emps, (e: Employee) => e.isActive, (e: Employee) => Matches(e, "", AllGenders, InactiveOnly));
  }

  /** Updating a status changes `active` by one when the id belongs to exactly one record. */
  lemma {:induction false} ToggleStats(emps: seq<Employee>, id: string, k: nat)
    requires k < |emps| && emps[k].id == id
    requires forall i :: 0 <= i < |emps| && i != k ==> emps[i].id != id
    ensures Stats(ToggleById(emps, id)).total == Stats(emps).total
    ensures Stats(ToggleById(emps, id)).active ==
              if emps[k].isActive then Stats(emps).active - 1 else Stats(emps).active + 1
  {
    var r := ToggleById(emps, id);
    var act := (e: Employee) => e.isActive;
    assert emps == emps[..k] + [emps[k]] + emps[k + 1..];
    assert r == r[..k] + [r[k]] + r[k + 1..];
    assert r[..k] == emps[..k];
    assert r[k + 1..] == emps[k + 1..];
    FilterAppend(emps[..k] + [emps[k]], emps[k + 1..], act);
    FilterAppend(emps[..k], [emps[k]], act);
    FilterAppend(r[..k] + [r[k]], r[k + 1..], act);
    FilterAppend(r[..k], [r[k]], act);
  }
}
