# Employee dashboard — a Dafny model

This project models the logic of a single-page employee management dashboard (React and
TypeScript). At its centre is the **employee collection store**. It holds an ordered list of
employee records, three filter fields and a loading flag, and offers these operations:

- add, update, delete, bulk delete and status toggle;
- lookup by id;
- the filtered view and the statistics;
- clearing the filters;
- the start-up effect (load or seed) and the persist effect.

An older JavaScript variant of the same store is modelled as a second class. It appends on
add instead of prepending, and it has no bulk delete.

The smaller pieces of logic around the store are modelled as well:

- The directory page: page count and page slice, the row selection, the reset effect that
  runs when a filter or the page size changes, and the delete confirmation.
- Also on that page: the pager buttons and the header-checkbox flags of the table.
- The add/edit form: the per-field checks, the error map, the change handler, loading a
  record for editing and the submit that goes to the store.
- The image picker's acceptance check.
- The login session.
- The notification list.
- The string helpers: id format, capitalisation, initials and the e-mail pattern.
- The age computation.
- The route-to-title mapping.

Where the source changes state step by step, the model does the same: the store, the legacy
store, the session, the notification list, the image picker, the directory page and the form
page are classes. Their fields are the source's state. Each method's `modifies` clause names
the fields of its own object that its handler sets; a page method that calls into the store or
the notification list also names that object as a whole, and its `ensures` then say which of
the store's fields stay as they were. The record transforms are functions, and so are
the checks, the page arithmetic and the string helpers. Each method is specified by those
functions, and the lemmas state the properties of the functions.

Modules follow the source files:

| module | models |
|---|---|
| `EmployeeTypes` | the record types and the closed enumerations |
| `EmployeeRecords` | the list transforms every store variant uses: merge, prepend/append, update, delete, toggle, find, filter, stats |
| `EmployeeStore` / `LegacyEmployeeStore` | the two providers as classes |
| `EmployeesPage`, `Pagination`, `EmployeeTable` | the directory page |
| `EmployeeForm`, `ImageUpload` | the form |
| `Auth`, `Notifications`, `Layout`, `Helpers` | the session, the notification list, the titles, the string helpers |
| `Seqs`, `Strings`, `Wrappers` | the JavaScript array and string built-ins the code relies on (`filter`, `map`, `slice`, `includes`, `trim`, `toLowerCase`, …) |

Local storage is a field (`saved`) of each class that uses it. The uuid, the clock, the random
suffix, date parsing and the file encoding are parameters.

## Model

| member | source | states |
|---|---|---|
| EmployeeTypes.WithId | src/types/Employee.ts:11 | the record built from form data carries the given id and, with the id left out, is exactly that form data |
| EmployeeTypes.WithIdFormData | src/types/Employee.ts:1-11 | a record is exactly its form data plus its id |
| EmployeeRecords.MergeProperties | src/context/EmployeeContext.tsx:79 | merging the empty patch changes nothing; every field a patch supplies is taken from it, the others are kept; merging twice equals merging once |
| EmployeeRecords.MergeForm | src/context/EmployeeContext.tsx:79 | merging the full form data into a record gives that form data with the record's own id |
| EmployeeRecords.Prepend | src/context/EmployeeContext.tsx:72 | the new record is at index 0 and the old list follows unchanged, so the length grows by one |
| EmployeeRecords.Append | src/context/EmployeeContext.js:41 | the new record is last and the old list precedes it unchanged |
| EmployeeRecords.AddOrdersAgree | src/context/EmployeeContext.js:41 | prepending and appending give the same multiset of records and the same statistics; only the order differs |
| EmployeeRecords.UpdateById | src/context/EmployeeContext.tsx:77-81 | the length is kept; records with another id are unchanged at their index, and every record with the id is merged with the patch |
| EmployeeRecords.UpdateUnknownId | src/context/EmployeeContext.tsx:77-81 | an update naming an id that no record has changes nothing |
| EmployeeRecords.DeleteById | src/context/EmployeeContext.tsx:84-86 | the result is an order-preserving subsequence; every copy of a record with another id is kept and no copy of a record with the id is |
| EmployeeRecords.DeleteMany | src/context/EmployeeContext.tsx:89-91 | the result is an order-preserving subsequence; every copy of a record whose id is not in the list is kept and no copy of one whose id is |
| EmployeeRecords.DeleteAppended | src/context/EmployeeContext.js:36-55 | deleting the id of a record just appended, when no earlier record has it, gives back the list before the append |
| EmployeeRecords.DeleteEveryId | src/context/EmployeeContext.tsx:89-91 | a bulk delete of every id of the collection leaves nothing |
| EmployeeRecords.DeleteByIdNoOp | src/context/EmployeeContext.tsx:84-86 | deleting an unknown id is a no-op; deleting the same id twice equals deleting it once |
| EmployeeRecords.DeleteManyEdgeCases | src/context/EmployeeContext.tsx:89-91 | a bulk delete with no ids is a no-op; with one id it equals the single delete |
| EmployeeRecords.ToggleById | src/context/EmployeeContext.tsx:94-98 | length and ids are kept; exactly the records with the id are replaced by their toggled copy, all others are unchanged |
| EmployeeRecords.Toggled | src/context/EmployeeContext.tsx:96 | the copy has the opposite status and agrees with the record in every other field |
| EmployeeRecords.ToggleTwice | src/context/EmployeeContext.tsx:94-98 | toggling the same id twice restores the collection |
| EmployeeRecords.FindById | src/context/EmployeeContext.tsx:101-103 | null exactly when no record has the id; otherwise the record at the first index with the id |
| EmployeeRecords.FilterEmployees | src/context/EmployeeContext.tsx:106-125 | the view is an order-preserving subsequence; a record is in it exactly when the name-search, gender and status conditions all hold, and then with all its copies |
| EmployeeRecords.NoActiveFiltersShowsAll | src/context/EmployeeContext.tsx:136-140 | with an empty query and both filters at 'all' (the state clearFilters sets, and exactly what `HasActiveFilters` rejects) the view is the whole collection |
| EmployeeRecords.GenderFilterAlone | src/context/EmployeeContext.tsx:113-115 | with only a gender filter set, a record is shown exactly when it has that gender |
| EmployeeRecords.Stats | src/context/EmployeeContext.tsx:128-133 | `total` is the collection's length, `active` equals an independent count of the active records, and `inactive` is the rest, never negative |
| EmployeeRecords.FilterActiveCount | src/context/EmployeeContext.tsx:130 | the length of the `isActive` filter equals the record-by-record count of active records |
| EmployeeRecords.StatusFilterCountsMatchStats | src/context/EmployeeContext.tsx:117-133 | the 'active' view has `stats.active` records and the 'inactive' view has `stats.inactive` |
| EmployeeRecords.ToggleStats | src/context/EmployeeContext.tsx:94-98 | toggling an id that exactly one record holds keeps the total and moves `active` by one in the right direction |
| EmployeeStore.EmployeeStore.constructor | src/context/EmployeeContext.tsx:41-45 | the initial state: empty collection, loading, empty query, both filters 'all' |
| EmployeeStore.EmployeeStore.Persist | src/context/EmployeeContext.tsx:60-64 | once loading has finished, the collection is written back whatever its length, an empty list included |
| EmployeeStore.EmployeeStore.Initialize | src/context/EmployeeContext.tsx:48-57 | a non-empty stored list is adopted verbatim; otherwise the seed is used and written back; loading ends and storage then matches memory |
| EmployeeStore.EmployeeStore.AddEmployee | src/context/EmployeeContext.tsx:67-74 | returns the form data with the generated id and puts that same record in front; the filters are untouched and storage follows; while loading, storage is left as it was |
| EmployeeStore.EmployeeStore.UpdateEmployee | src/context/EmployeeContext.tsx:77-81 | the new collection is the update of the old one, and storage follows; while loading, storage is left as it was |
| EmployeeStore.EmployeeStore.DeleteEmployee | src/context/EmployeeContext.tsx:84-86 | the new collection is the single delete of the old one, and storage follows; while loading, storage is left as it was |
| EmployeeStore.EmployeeStore.DeleteMultipleEmployees | src/context/EmployeeContext.tsx:89-91 | the new collection is the bulk delete of the old one, written back in one step; while loading, storage is left as it was |
| EmployeeStore.EmployeeStore.ToggleEmployeeStatus | src/context/EmployeeContext.tsx:94-98 | the new collection is the toggle of the old one, and storage follows; while loading, storage is left as it was |
| EmployeeStore.EmployeeStore.GetEmployeeById | src/context/EmployeeContext.tsx:101-103 | null exactly when no record has the id; otherwise the record at the first index with the id |
| EmployeeStore.EmployeeStore.FilteredEmployees | src/context/EmployeeContext.tsx:106-125 | an order-preserving subsequence of the collection holding exactly the records that pass the current three filters, each with its full multiplicity (a passing record appears as often as in the collection, a failing one not at all) |
| EmployeeStore.EmployeeStore.CurrentStats | src/context/EmployeeContext.tsx:128-133 | `total` is the collection's length, `active` the count of active records and `inactive` the rest; no filter enters it |
| EmployeeStore.EmployeeStore.SetSearchQuery | src/context/EmployeeContext.tsx:43 | sets only the query |
| EmployeeStore.EmployeeStore.SetGenderFilter | src/context/EmployeeContext.tsx:44 | sets only the gender filter |
| EmployeeStore.EmployeeStore.SetStatusFilter | src/context/EmployeeContext.tsx:45 | sets only the status filter |
| EmployeeStore.EmployeeStore.ClearFilters | src/context/EmployeeContext.tsx:136-140 | all three filters are back at their defaults, and the view is then the whole collection |
| EmployeeStore.EmptyStorageSeeds | src/context/EmployeeContext.tsx:48-57 | a fresh store over empty storage ends with the seed in memory and in storage |
| EmployeeStore.AddTwiceThenClear | src/context/EmployeeContext.tsx:60-91 | two adds followed by a bulk delete of every id leave an empty collection, and the empty list is what storage holds |
| LegacyEmployeeStore.EmployeeStore.constructor | src/context/EmployeeContext.js:10-14 | the same initial state as the current store |
| LegacyEmployeeStore.EmployeeStore.Persist | src/context/EmployeeContext.js:28-33 | the same persist effect as the current store |
| LegacyEmployeeStore.EmployeeStore.Initialize | src/context/EmployeeContext.js:17-26 | a non-empty stored list is adopted, otherwise the seed is used and written back |
| LegacyEmployeeStore.EmployeeStore.AddEmployee | src/context/EmployeeContext.js:36-43 | the new record goes to the end; the earlier records keep their order; while loading, storage is left as it was |
| LegacyEmployeeStore.EmployeeStore.UpdateEmployee | src/context/EmployeeContext.js:46-50 | the same merge on matching ids as the current store; while loading, storage is left as it was |
| LegacyEmployeeStore.EmployeeStore.DeleteEmployee | src/context/EmployeeContext.js:53-55 | the same order-preserving removal as the current store; while loading, storage is left as it was |
| LegacyEmployeeStore.EmployeeStore.ToggleEmployeeStatus | src/context/EmployeeContext.js:58-62 | the same flip on matching ids as the current store; while loading, storage is left as it was |
| LegacyEmployeeStore.EmployeeStore.GetEmployeeById | src/context/EmployeeContext.js:65-67 | null exactly when no record has the id; otherwise the record at the first index with the id |
| LegacyEmployeeStore.EmployeeStore.FilteredEmployees | src/context/EmployeeContext.js:70-89 | an order-preserving subsequence of the collection holding exactly the records that pass the current three filters, each with its full multiplicity (a passing record appears as often as in the collection, a failing one not at all) |
| LegacyEmployeeStore.EmployeeStore.CurrentStats | src/context/EmployeeContext.js:92-97 | `total` is the collection's length, `active` the count of active records and `inactive` the rest |
| LegacyEmployeeStore.EmployeeStore.SetSearchQuery | src/context/EmployeeContext.js:12 | sets only the query |
| LegacyEmployeeStore.EmployeeStore.SetGenderFilter | src/context/EmployeeContext.js:13 | sets only the gender filter |
| LegacyEmployeeStore.EmployeeStore.SetStatusFilter | src/context/EmployeeContext.js:14 | sets only the status filter |
| LegacyEmployeeStore.EmployeeStore.ClearFilters | src/context/EmployeeContext.js:100-104 | the filters are back at their defaults and the view is the whole collection |
| LegacyEmployeeStore.LegacyEmptyStorageSeeds | src/context/EmployeeContext.js:17-26 | a fresh store over empty storage ends with the seed in memory and in storage |
| LegacyEmployeeStore.AddTwiceThenDelete | src/context/EmployeeContext.js:36-55 | after two adds and a delete of the later record, the earlier record is the last one, and that list is what storage holds |
| EmployeesPage.TotalPages | src/pages/Employees/Employees.tsx:52 | the ceiling of count / page size: enough pages for every row, one fewer would not do, and zero exactly for an empty list |
| EmployeesPage.PageOf | src/pages/Employees/Employees.tsx:53-54 | at most one page of rows; from page 1 on, the contiguous run starting at `(page - 1) * size`, clamped to the list |
| EmployeesPage.PagesUpToIsPrefix | src/pages/Employees/Employees.tsx:53-54 | pages 1 to k concatenated are exactly the first k · size rows |
| EmployeesPage.PagesCoverView | src/pages/Employees/Employees.tsx:52-54 | pages 1 to totalPages concatenated are the whole filtered view |
| EmployeesPage.PageNonEmptyIff | src/pages/Employees/Employees.tsx:52-54 | a page from 1 on shows rows exactly when it is not past the last page |
| EmployeesPage.DeletingLoneLastRowStrandsPage | src/pages/Employees/Employees.tsx:46-54 | from 11 rows at 10 per page, deleting the only row of page 2 leaves one page; page 2 then shows nothing and the pager is hidden |
| EmployeesPage.ToggleSelection | src/pages/Employees/Employees.tsx:56-60 | the id's membership flips, every other id's membership is kept, and a duplicate-free selection stays duplicate-free |
| EmployeesPage.ToggleTwiceRestores | src/pages/Employees/Employees.tsx:56-60 | selecting an unselected id and then unselecting it restores the selection exactly |
| EmployeesPage.SelectAll | src/pages/Employees/Employees.tsx:62-68 | checked selects the ids of the whole filtered view, in order, not only the current page; unchecked empties the selection |
| EmployeesPage.SelectAllAcrossPages | src/pages/Employees/Employees.tsx:62-68 | with more than one page, after select-all the page's header checkbox shows neither checked nor indeterminate |
| EmployeesPage.SelectAllOnSinglePage | src/pages/Employees/Employees.tsx:62-68 | on a single non-empty page, select-all checks the header |
| EmployeesPage.EmployeesPage.constructor | src/pages/Employees/Employees.tsx:35-49 | the initial state: table view, page 1, 10 per page, nothing selected, dialog closed; the effect has seen the current filters |
| EmployeesPage.EmployeesPage.TotalPagesNow | src/pages/Employees/Employees.tsx:52 | the page count for the store's current filtered view: enough pages for every row, one fewer would not do, zero exactly for an empty view |
| EmployeesPage.EmployeesPage.Rows | src/pages/Employees/Employees.tsx:53-54 | the rows handed to the table are at most one page, all of them from the filtered view; from page 1 on they are exactly the filtered view's slice from `(currentPage - 1) * itemsPerPage` to one page further, both ends clamped to its length |
| EmployeesPage.EmployeesPage.ResetEffect | src/pages/Employees/Employees.tsx:45-49 | when a dependency differs from the previous run, the page goes back to 1 and the selection is cleared; otherwise nothing changes |
| EmployeesPage.EmployeesPage.OnFilterEdit | src/pages/Employees/Employees.tsx:138-146 | the store gets exactly the requested filter change; a real change resets page and selection, setting a value it already had resets nothing |
| EmployeesPage.EmployeesPage.OnItemsPerPageChange | src/pages/Employees/Employees.tsx:108-112 | the page size is set, and a different size resets page and selection |
| EmployeesPage.EmployeesPage.OnPageChange | src/pages/Employees/Employees.tsx:191 | sets the current page |
| EmployeesPage.EmployeesPage.ClickPager | src/pages/Employees/Employees.tsx:187-193 | a click moves to the button's target unless the button is disabled; from a page in range the result stays in range |
| EmployeesPage.EmployeesPage.SetViewMode | src/pages/Employees/Employees.tsx:148-163 | sets the view mode |
| EmployeesPage.EmployeesPage.HandleSelectOne | src/pages/Employees/Employees.tsx:56-60 | the selection becomes the toggle of the old one, so the id's membership flips |
| EmployeesPage.EmployeesPage.HandleSelectAll | src/pages/Employees/Employees.tsx:62-68 | the selection becomes select-all of the store's filtered view |
| EmployeesPage.EmployeesPage.HandleDeleteClick | src/pages/Employees/Employees.tsx:70-72 | opens the dialog for a single delete of that id |
| EmployeesPage.EmployeesPage.HandleBulkDeleteClick | src/pages/Employees/Employees.tsx:74-76 | opens the dialog in bulk mode with no single target |
| EmployeesPage.EmployeesPage.CloseModal | src/pages/Employees/Employees.tsx:205-207 | the dialog is closed with no target |
| EmployeesPage.EmployeesPage.HandleConfirmDelete | src/pages/Employees/Employees.tsx:78-88 | bulk mode deletes every selected id, announces how many and clears the selection; single mode deletes the non-empty target id and announces it; then the dialog is closed; the page number, the loading flag and the filters never change |
| EmployeesPage.BulkDeletedNamesCount | src/pages/Employees/Employees.tsx:81 | the bulk message is "Successfully deleted " then the decimal count then " employees", and the digits read back as the number of ids deleted |
| Pagination.Click | src/components/Pagination/Pagination.tsx:16-32 | nothing is requested exactly when `IsDisabled` holds (Prev at page 1, Next at the last page); otherwise the button's `Target`, page − 1 or page + 1; starting in range, the request stays in range |
| Pagination.NextBeyondLastPage | src/components/Pagination/Pagination.tsx:26-32 | from a page beyond the last, Next stays enabled and asks for a page further out |
| EmployeeTable.HeaderFlagsExclusive | src/components/EmployeeTable/EmployeeTable.tsx:119-120 | `IsAllSelected` and `IsIndeterminate` are never both set; an empty selection sets neither; a selection longer than the rows sets neither |
| EmployeeTable.AllSelectedMeansEveryRow | src/components/EmployeeTable/EmployeeTable.tsx:119-155 | when the selection is duplicate-free and names only ids of the shown rows, which are distinct, the count test `IsAllSelected` holds exactly when `RowSelected` holds for every row |
| EmployeeForm.FullNameErrorCases | src/pages/EmployeeForm/EmployeeForm.tsx:55-59 | "required" exactly when the name's non-white-space characters make up no UTF-16 unit, "at least 2" exactly when they make up one, and no error from two units on |
| EmployeeForm.SingleEmojiNamePasses | src/pages/EmployeeForm/EmployeeForm.tsx:57 | a name made of one emoji is two UTF-16 units long and so passes, while a one-letter name is too short |
| EmployeeForm.GenderError | src/pages/EmployeeForm/EmployeeForm.tsx:61-63 | an error exactly when no gender is chosen |
| EmployeeForm.DobError | src/pages/EmployeeForm/EmployeeForm.tsx:65-73 | "required" exactly for an empty date; "must be in the past" exactly for a readable date not before now; an unreadable date draws no error |
| EmployeeForm.StateError | src/pages/EmployeeForm/EmployeeForm.tsx:75-77 | an error exactly when no state is chosen |
| EmployeeForm.AllPassByField | src/pages/EmployeeForm/EmployeeForm.tsx:52-80 | the checks pass together exactly when each of the four field checks passes; the image and the status cannot fail |
| EmployeeForm.ValidFormShape | src/pages/EmployeeForm/EmployeeForm.tsx:52-81 | a form is valid exactly when the name has two UTF-16 units of non-white-space characters, a gender and a state are chosen and the date is present and not rejected |
| EmployeeForm.ValidHasGender | src/pages/EmployeeForm/EmployeeForm.tsx:61-63 | a form that passes validation has a gender chosen |
| EmployeeForm.ErrorsByField | src/pages/EmployeeForm/EmployeeForm.tsx:52-80 | a map that holds the message of each of the four checks exactly when it fails, and no entry for the image or the status, is the whole error map, and it is empty exactly when all checks pass |
| EmployeeForm.CollectErrors | src/pages/EmployeeForm/EmployeeForm.tsx:52-80 | the map holds one message for each failing field and nothing else, and it is empty exactly when the form is valid |
| EmployeeForm.EditKeepsOtherChecks | src/pages/EmployeeForm/EmployeeForm.tsx:83-89 | changing one field leaves every other field's check as it was |
| EmployeeForm.EditSameValue | src/pages/EmployeeForm/EmployeeForm.tsx:84 | setting a field to the value it holds leaves the form unchanged |
| EmployeeForm.ApplyEdit | src/pages/EmployeeForm/EmployeeForm.tsx:83-84 | an edit changes at most the field it names; every other field keeps its value |
| EmployeeForm.LoadThenSaveUnchanged | src/pages/EmployeeForm/EmployeeForm.tsx:33-50 | loading a record into the form and saving it untouched writes the same record back |
| EmployeeForm.ToFormData | src/pages/EmployeeForm/EmployeeForm.tsx:105-108 | the data handed to the store carries exactly the form's six fields |
| EmployeeForm.FormOf | src/pages/EmployeeForm/EmployeeForm.tsx:37-44 | the form loaded for a record has that record's gender chosen |
| EmployeeForm.EmployeeFormPage.constructor | src/pages/EmployeeForm/EmployeeForm.tsx:21-30 | the empty form, active by default, with no errors |
| EmployeeForm.EmployeeFormPage.LoadForEdit | src/pages/EmployeeForm/EmployeeForm.tsx:33-50 | in edit mode a found record fills the form; a missing one gives the "not found" error notification and a return to the list; outside edit mode nothing happens |
| EmployeeForm.EmployeeFormPage.HandleChange | src/pages/EmployeeForm/EmployeeForm.tsx:83-89 | exactly the named field takes the value, exactly that field's error is dropped, and every other error is kept |
| EmployeeForm.EmployeeFormPage.OnToggleStatus | src/pages/EmployeeForm/EmployeeForm.tsx:226-228 | flips the status field and drops its error |
| EmployeeForm.EmployeeFormPage.ValidateForm | src/pages/EmployeeForm/EmployeeForm.tsx:52-81 | the errors are replaced by the map for the current form; the result is true exactly when the form is valid, which is when the map is empty |
| EmployeeForm.EmployeeFormPage.Submit | src/pages/EmployeeForm/EmployeeForm.tsx:91-118 | an invalid form never reaches the store, the notifications or the router; a valid one updates the routed id in edit mode and adds otherwise, then notifies success and returns to the list; the store's filters and loading flag never change |
| EmployeeForm.EmployeeFormPage.Save | src/pages/EmployeeForm/EmployeeForm.tsx:104-113 | with a gender chosen: the update of the routed id in edit mode, otherwise the add, then the success notice and the return to the list |
| ImageUpload.CheckFile | src/components/ImageUpload/ImageUpload.tsx:16-26 | accepted exactly when a file is present, its type starts with "image/" and its size is at most `MaxImageBytes` (5 242 880 bytes); not an image exactly when a file is present whose type does not start with "image/"; too large exactly when it is an image over that size; none means no file |
| ImageUpload.SizeBoundary | src/components/ImageUpload/ImageUpload.tsx:24-26 | exactly 5 242 880 bytes is accepted and one byte more is too large |
| ImageUpload.ImageUploadField.constructor | src/components/ImageUpload/ImageUpload.tsx:12-13 | nothing has been passed to `onChange` yet and the file input is empty |
| ImageUpload.ImageUploadField.HandleFileChange | src/components/ImageUpload/ImageUpload.tsx:15-35 | `onChange` gets the encoded text once, only for an accepted file that encodes; otherwise nothing is emitted |
| ImageUpload.ImageUploadField.HandleRemove | src/components/ImageUpload/ImageUpload.tsx:37-43 | `onChange(null)` is emitted once and the input's value is cleared |
| Auth.LoginInputError | src/pages/Login/Login.tsx:30-33 | no error exactly when both fields contain a visible character; an error is always the fixed text 'Please enter both username and password' |
| Auth.AdminPassesGuard | src/pages/Login/Login.tsx:30-33 | the admin credentials pass the blank-field guard |
| Auth.AuthSession.constructor | src/context/AuthContext.tsx:32-33 | no user and loading, over whatever storage holds |
| Auth.AuthSession.RestoreSession | src/context/AuthContext.tsx:35-42 | a stored user is adopted, otherwise the user is kept; loading ends in both cases |
| Auth.AuthSession.Login | src/context/AuthContext.tsx:48-59 | success exactly for the exact pair admin / admin123 (`CredentialsMatch`: no trimming, no case folding); success sets and persists the Administrator user with the given time; failure returns the fixed message and changes nothing |
| Auth.AuthSession.Logout | src/context/AuthContext.tsx:62-65 | no user, nothing stored, and `IsAuthenticated` is false |
| Auth.LoginSurvivesReload | src/context/AuthContext.tsx:35-56 | after a successful login, a new provider over the same storage comes up authenticated |
| Auth.LogoutIdempotent | src/context/AuthContext.tsx:62-65 | a second logout leaves the state of the first |
| Notifications.NotificationId | src/context/NotificationContext.tsx:20 | every generated id starts with "notification-" |
| Notifications.RemoveById | src/context/NotificationContext.tsx:31-33 | an order-preserving subsequence holding every copy of each entry with another id and no entry with the id |
| Notifications.RemoveProperties | src/context/NotificationContext.tsx:31-33 | removing an unknown id is a no-op; removing twice equals removing once |
| Notifications.ShowThenRemove | src/context/NotificationContext.tsx:19-33 | showing an entry with a fresh id and then removing that id restores the list |
| Notifications.NotificationCenter.constructor | src/context/NotificationContext.tsx:17 | the list starts empty |
| Notifications.NotificationCenter.ShowNotification | src/context/NotificationContext.tsx:19-23 | exactly one entry is appended, at the end |
| Notifications.NotificationCenter.RemoveNotification | src/context/NotificationContext.tsx:31-33 | the list becomes its removal by id |
| Layout.GetPageTitle | src/components/Layout/Layout.tsx:21-28 | always one of four titles; '/' and '/dashboard' give Dashboard; 'Employees' exactly for '/employees'; 'Add Employee' exactly for '/employees/add'; 'Edit Employee' exactly when the path is not the add route and contains '/employees/edit'; 'Dashboard' exactly for every other path |
| Layout.EditRoutes | src/components/Layout/Layout.tsx:26 | every '/employees/edit/…' route is titled 'Edit Employee' |
| Layout.DocumentTitle | src/components/Layout/Layout.tsx:17-19 | the document title is the header's title for the same path (`GetPageTitle`) followed by " \| Employee Dashboard"; hence it is always one of the page titles with that suffix |
| Helpers.GenerateEmployeeId | src/utils/helpers.ts:4-7 | "EMP-" then the first eight characters of the uuid upper-cased; all upper case; length 12 for a uuid of eight or more characters |
| Helpers.EmployeeIdFormat | src/utils/helpers.ts:4-7 | for a lower-case hex uuid, the id is "EMP-" followed by eight upper-case hex digits |
| Helpers.Capitalize | src/utils/helpers.ts:61-64 | the length is kept, so '' gives ''; the first character is upper-cased and the rest lower-cased |
| Helpers.CapitalizeIdempotent | src/utils/helpers.ts:61-64 | capitalising twice equals capitalising once |
| Helpers.SplitOnSpace | src/utils/helpers.ts:92 | `split(' ')` always gives at least one piece |
| Helpers.FirstCharsAreWordStarts | src/utils/helpers.ts:91-94 | the joined first characters of the pieces are exactly `WordStarts`, the characters that start a word (empty pieces contribute nothing) |
| Helpers.WordStartsHaveNoSpace | src/utils/helpers.ts:91-94 | word starts are never spaces and never outnumber the characters |
| Helpers.GetInitials | src/utils/helpers.ts:90-97 | at most two characters, upper case, no spaces: the first two upper-cased word starts, in order |
| Helpers.InitialsOfTwoWords | src/utils/helpers.ts:90-97 | "First Last" gives the two upper-cased first letters |
| Helpers.WordStartsAppend | src/utils/helpers.ts:91-94 | the word starts of a concatenation are those of each part, read on from where the first part ended |
| Helpers.WordStartsNoSpaces | src/utils/helpers.ts:91-94 | the middle of a word contributes no word starts |
| Helpers.IsValidEmail | src/utils/helpers.ts:55-58 | true exactly when the text matches `^[^\s@]+@[^\s@]+\.[^\s@]+$`, stated as positions of the '@' and of a '.' |
| Helpers.EmailChecksSuffice | src/utils/helpers.ts:55-58 | the checks made at the first '@' imply a match of the pattern |
| Helpers.EmailPatternNeedsChecks | src/utils/helpers.ts:55-58 | a match of the pattern implies the checks at the first '@' |
| Helpers.CalculateAge | src/utils/helpers.ts:67-77 | '' for an empty input, NaN for an unreadable date, otherwise the number of birthdays reached (this year's counts once its month and day are reached), which is never negative for a birth date not after today |
| Strings.Lower | src/context/EmployeeContext.tsx:109-111 | the same length, ASCII capitals mapped to small letters, other characters kept |
| Strings.Upper | src/utils/helpers.ts:6 | the same length, ASCII small letters mapped to capitals, other characters kept |
| Strings.UpperIdempotent | src/utils/helpers.ts:95 | upper-casing twice equals upper-casing once |
| Strings.LowerIdempotent | src/utils/helpers.ts:63 | lower-casing twice equals lower-casing once |
| Strings.ContainsIff | src/context/EmployeeContext.tsx:109-111 | `Contains` (`includes`) holds exactly when the pattern occurs at some index |
| Strings.ContainsEmpty | src/context/EmployeeContext.tsx:109-111 | every name includes the empty query |
| Strings.TrimShape | src/pages/EmployeeForm/EmployeeForm.tsx:55-57 | `Trim` cuts only white space from the two ends, and the result neither starts nor ends with white space |
| Strings.TrimStart | src/pages/EmployeeForm/EmployeeForm.tsx:55 | what `trimStart` leaves is no longer than the input, does not start with white space, and everything cut before it is white space |
| Strings.TrimStartIsSuffix | src/pages/EmployeeForm/EmployeeForm.tsx:55 | what `trimStart` leaves is a suffix of the input |
| Strings.TrimEnd | src/pages/EmployeeForm/EmployeeForm.tsx:55 | what `trimEnd` leaves is no longer than the input, does not end with white space, and everything cut after it is white space |
| Strings.TrimEndIsPrefix | src/pages/EmployeeForm/EmployeeForm.tsx:55 | what `trimEnd` leaves is a prefix of the input |
| Strings.TrimmedLength | src/pages/EmployeeForm/EmployeeForm.tsx:55-58 | trimming keeps every non-white-space character; the trimmed text is empty exactly when those characters make up no UTF-16 unit, and one unit long exactly when they make up one |
| Strings.NatToString | src/context/NotificationContext.tsx:20 | decimal digits with no leading zero |
| Strings.NatToStringRoundTrip | src/context/NotificationContext.tsx:20 | reading the decimal text back gives the number |
| Seqs.Filter | src/context/EmployeeContext.tsx:85 | an order-preserving subsequence, no longer than the input, with exactly the elements that satisfy the predicate |
| Seqs.FilterMultiplicity | src/context/EmployeeContext.tsx:85 | every element that satisfies the predicate keeps all its copies; one that does not keeps none |
| Seqs.FilterNoDuplicates | src/pages/Employees/Employees.tsx:58 | filtering keeps a duplicate-free list duplicate-free |
| Seqs.JsSlice | src/pages/Employees/Employees.tsx:54 | `slice` resolves both indices (negative ones from the end, clamped to the list) and returns the run between them, empty when they cross |
| Seqs.NoDuplicatesCardinality | src/components/EmployeeTable/EmployeeTable.tsx:119 | a duplicate-free list has as many distinct members as elements |

## Left out

- Real persistence: `localStorage`, JSON encoding and the try/catch around them are replaced by the `saved` field of each class. A stored value that cannot be read is the same as none.
- The uuid generator, `Date.now`, `Math.random`, `new Date()` and the date parser are parameters: `uuid`, `now`/`clock`, `randomPart`, `instantOf`/`parse`, `today` and the login time.
- Date formatting (`formatDate`, `formatDateForInput`) is not modelled. Loading a record for editing takes the conversion as a parameter `formatForInput`.
- The simulated delays, the `isSubmitting` flag, the 3-second auto-dismiss timer and `FileReader` are left out. The timer is a later call of `RemoveNotification`, and the encoded image is a parameter that is None when reading fails.
- The form's try/catch failure path is left out, because nothing in the modelled store throws.
- Navigation is a field (`navigatedTo`) holding the target route. The router itself is not modelled.
- Rendering is left out: the print windows, Modal, Toggle, Loader, EmptyState, the grid, the dashboard and the count labels. The filter bar's `hasActiveFilters` is kept as a predicate in `EmployeeRecords`.
- Case mapping is ASCII only. `toLowerCase` and `toUpperCase` also map non-ASCII letters, and the model does not.
- The seed records and the option lists are opaque. The seed is a constructor parameter, and the page-size choices are 10, 20, 30, 40 and 50.
- src/types/index.ts is not part of this model. The four notification kinds (success, error, warning, info) are taken from their use in the notification component.
- Id uniqueness is not assumed. A generated id can collide, so the lemmas that need one record per id say so in their `requires`.
- EmployeeForm.EmployeeFormPage.HandleChange: a cleared error is removed from the map rather than set to `undefined`. Nothing reads the difference: the form shows a message only when it is truthy.
- EmployeeForm.EmployeeFormPage.LoadForEdit: models one run of the edit-mode effect. Its dependencies include function values that the providers re-create on each render, so the source can run it again and overwrite unsaved edits.
- LegacyEmployeeStore.EmployeeStore: has no bulk delete, because the legacy provider exposes none.
- The older JavaScript variants AuthContext.js, Layout.jsx, EmployeeTable.jsx, ImageUpload.jsx and Employees.jsx are not modelled separately: each is a smaller variant whose logic is a subset of what is modelled for its TypeScript counterpart. EmployeeGrid.tsx's `getInitials` is not modelled again either.
- The differences of those variants: EmployeeTable.jsx has no selection column; Layout.jsx has no effect setting `document.title` and no theme toggle; Employees.jsx has no pagination, no selection, no bulk delete and no delete notice.
- Employees.jsx's `handleConfirmDelete` (src/pages/Employees/Employees.jsx:33-38) deletes and closes the dialog only when an employee is set, leaving the dialog open otherwise, whereas `EmployeesPage.EmployeesPage.HandleConfirmDelete` models Employees.tsx, which closes it on every path. The table's `getInitials` (src/components/EmployeeTable/EmployeeTable.tsx:28-35) is the same chain as `Helpers.GetInitials`.
- src/types/Auth.ts is not modelled, because the session code declares its own user type.
- Helpers.GetInitials: strings are sequences of Unicode code points, so `n[0]` of a word that starts with a character outside the Basic Multilingual Plane is that whole character here. In JavaScript it is a lone high surrogate. Only the name check (`FullNameErrorCases`) counts UTF-16 units.
- Helpers.GenerateEmployeeId: the eight-character prefix of the uuid is taken in code points. A uuid is ASCII, so this is the same as in UTF-16.
