/** The table's selection flags: the header checkbox's checked and indeterminate states, and each row's. */
module EmployeeTable {
  import opened Seqs
  import opened EmployeeTypes

  /** `employees.length > 0 && selectedIds.length === employees.length`. */
  predicate IsAllSelected(rows: seq<Employee>, selectedIds: seq<string>) {
    |rows| > 0 && |selectedIds| == |rows|
  }

  /** `selectedIds.length > 0 && selectedIds.length < employees.length`. */
  predicate IsIndeterminate(rows: seq<Employee>, selectedIds: seq<string>) {
    |selectedIds| > 0 && |selectedIds| < |rows|
  }

  /** A row is highlighted and its checkbox checked exactly when its id is selected. */
  predicate RowSelected(selectedIds: seq<string>, id: string) {
    id in selectedIds
  }

  function RowIds(rows: seq<Employee>): (ids: seq<string>)
    ensures |ids| == |rows| && forall i :: 0 <= i < |rows| ==> ids[i] == rows[i].id
  {
    Map(rows, (e: Employee) => e.id)
  }

  /** The two header flags exclude each other; no selection sets neither, nor does one larger than the rows. */
  lemma HeaderFlagsExclusive(rows: seq<Employee>, selectedIds: seq<string>)
    ensures !(IsAllSelected(rows, selectedIds) && IsIndeterminate(rows, selectedIds))
    ensures selectedIds == [] ==> !IsAllSelected(rows, selectedIds) && !IsIndeterminate(rows, selectedIds)
    ensures |selectedIds| > |rows| ==> !IsAllSelected(rows, selectedIds) && !IsIndeterminate(rows, selectedIds)
  {
  }

  /**
   * When the selection holds only ids of the shown rows, without repeats, and row ids are
   * distinct, the count test means what it is for: every row is selected.
   */
  lemma AllSelectedMeansEveryRow(rows: seq<Employee>, selectedIds: seq<string>)
    requires NoDuplicates(selectedIds) && NoDuplicates(RowIds(rows))
    requires forall i :: 0 <= i < |selectedIds| ==> selectedIds[i] in RowIds(rows)
    ensures IsAllSelected(rows, selectedIds) <==>
              rows != [] && forall i :: 0 <= i < |rows| ==> RowSelected(selectedIds, rows[i].id)
  {
    var ids := RowIds(rows);
    var s := set x | x in selectedIds;
    var r := set x | x in ids;
    NoDuplicatesCardinality(selectedIds);
    NoDuplicatesCardinality(ids);
    assert s <= r;
    if IsAllSelected(rows, selectedIds) {
      SubsetOfEqualSize(s, r);
      forall i | 0 <= i < |rows| ensures RowSelected(selectedIds, rows[i].id) {
        assert ids[i] in r;
      }
    }
    if rows != [] && forall i :: 0 <= i < |rows| ==> RowSelected(selectedIds, rows[i].id) {
      forall x | x in r ensures x in s {
        var i :| 0 <= i < |ids| && ids[i] == x;
        assert RowSelected(selectedIds, rows[i].id);
      }
      assert s == r;
    }
  }

  lemma SubsetOfEqualSize<T>(a: set<T>, b: set<T>)
    requires a <= b && |a| == |b|
    ensures a == b
  {
    assert |b - a| == |b| - |a|;
  }
}
