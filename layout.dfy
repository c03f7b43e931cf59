/** The page title the layout derives from the route, and the document title built from it. */
module Layout {
  import opened Strings

  const TitleSuffix := " | Employee Dashboard"

  predicate IsPageTitle(t: string) {
    t == "Dashboard" || t == "Employees" || t == "Add Employee" || t == "Edit Employee"
  }

  /** getPageTitle: exact routes first, then any path containing '/employees/edit', else Dashboard. */
  function GetPageTitle(path: string): (t: string)
    ensures IsPageTitle(t)
    ensures path == "/" || path == "/dashboard" ==> t == "Dashboard"
    ensures path == "/employees" ==> t == "Employees"
    ensures t == "Add Employee" <==> path == "/employees/add"
    ensures t == "Edit Employee" <==>
              path != "/employees/add" && Contains(path, "/employees/edit")
    ensures t == "Employees" <==> path == "/employees"
    ensures t == "Dashboard" <==>
              path != "/employees" && path != "/employees/add" && !Contains(path, "/employees/edit")
  {
    ContainsFits(path, "/employees/edit");
    if path == "/" || path == "/dashboard" then "Dashboard"
    else if path == "/employees" then "Employees"
    else if path == "/employees/add" then "Add Employee"
    else if Contains(path, "/employees/edit") then "Edit Employee"
    else "Dashboard"
  }

  /** Every edit route shows 'Edit Employee', whatever id follows. */
  lemma EditRoutes(id: string)
    ensures GetPageTitle("/employees/edit/" + id) == "Edit Employee"
  {
    var path := "/employees/edit/" + id;
    assert OccursAt(path, "/employees/edit", 0) by {
      assert path[0..15] == "/employees/edit";
    }
    ContainsIff(path, "/employees/edit");
    assert path != "/employees/add" by {
      assert path[11] != "/employees/add"[11];
    }
  }

  /** `${getPageTitle()} | Employee Dashboard`. */
  function DocumentTitle(path: string): (title: string)
    ensures exists t :: IsPageTitle(t) && title == t + TitleSuffix
    ensures |title| > |TitleSuffix| && title[|title| - |TitleSuffix|..] == TitleSuffix
    ensures title[..|title| - |TitleSuffix|] == GetPageTitle(path)
  {
    GetPageTitle(path) + TitleSuffix
  }
}
