/**
 * The add/edit employee form: the per-field checks, the error map that validation
 * fills field by field, the change handler, the edit-mode load and the submit that
 * dispatches to the store.
 */
module EmployeeForm {
  import opened Wrappers
  import opened Strings
  import opened EmployeeTypes
  import opened EmployeeRecords
  import opened EmployeeStore
  import opened Notifications
  import Helpers

  /** The keys of the form data (and of the error map). */
  datatype FormField = FullNameField | GenderField | DobField | ProfileImageField | StateField | IsActiveField

  /** The form's state; an unchosen gender (`''`) is None. */
  datatype FormState = FormState(
    fullName: string,
    gender: Option<Gender>,
    dob: string,
    profileImage: Option<string>,
    state: string,
    isActive: bool)

  const EmptyForm := FormState("", None, "", None, "", true)

  const FullNameRequired := "Full name is required"
  const FullNameTooShort := "Full name must be at least 2 characters"
  const GenderRequired := "Please select a gender"
  const DobRequired := "Date of birth is required"
  const DobNotPast := "Date of birth must be in the past"
  const StateRequired := "Please select a state"

  // ---------------------------------------------------------------- the checks

  /**
   * Blank after trimming is missing; shorter than two UTF-16 units after trimming is too
   * short, so a single character outside the Basic Multilingual Plane is long enough.
   */
  function FullNameError(name: string): Option<string> {
    var t := Trim(name);
    if t == "" then Some(FullNameRequired)
    else if Utf16Length(t) < 2 then Some(FullNameTooShort)
    else None
  }

  /** The name check, case by case, in UTF-16 units of the name's non-white-space characters. */
  lemma FullNameErrorCases(name: string)
    ensures FullNameError(name) == Some(FullNameRequired) <==> VisibleUnits(name) == 0
    ensures FullNameError(name) == Some(FullNameTooShort) <==> VisibleUnits(name) == 1
    ensures FullNameError(name).None? <==> VisibleUnits(name) >= 2
  {
    TrimmedLength(name);
  }

  /** One emoji is two UTF-16 units, so it passes the length check although it is one character. */
  lemma SingleEmojiNamePasses()
    ensures FullNameError("\U{1F600}") == None
    ensures FullNameError("a") == Some(FullNameTooShort)
  {
    assert VisibleUnits("\U{1F600}") == 2 by {
      assert "\U{1F600}"[1..] == [];
    }
    assert VisibleUnits("a") == 1 by {
      assert "a"[1..] == [];
    }
    FullNameErrorCases("\U{1F600}");
    FullNameErrorCases("a");
  }

  function GenderError(g: Option<Gender>): (r: Option<string>)
    ensures r.None? <==> g.Some?
  {
    if g.None? then Some(GenderRequired) else None
  }

  /**
   * `instantOf` reads the date input as `new Date(dob)` would: None for an unreadable
   * date, whose comparisons with today are all false, so it draws no error.
   */
  function DobError(dob: string, instantOf: string -> Option<int>, now: int): (r: Option<string>)
    ensures r == Some(DobRequired) <==> dob == ""
    ensures r == Some(DobNotPast) <==> dob != "" && instantOf(dob).Some? && instantOf(dob).value >= now
    ensures r.None? <==> dob != "" && (instantOf(dob).None? || instantOf(dob).value < now)
  {
    if dob == "" then Some(DobRequired)
    else
      match instantOf(dob)
      case Some(t) => if t >= now then Some(DobNotPast) else None
      case None => None
  }

  function StateError(state: string): (r: Option<string>)
    ensures r.None? <==> state != ""
  {
    if state == "" then Some(StateRequired) else None
  }

  /** The outcome of the four checks validateForm runs, one per checked field. */
  datatype Checks = Checks(fullName: Option<string>, gender: Option<string>, dob: Option<string>, state: Option<string>)

  function RunChecks(f: FormState, instantOf: string -> Option<int>, now: int): Checks {
    Checks(FullNameError(f.fullName), GenderError(f.gender), DobError(f.dob, instantOf, now), StateError(f.state))
  }

  /** The message recorded for a field; the image and the status are never checked. */
  function ErrorOf(c: Checks, field: FormField): Option<string> {
    match field
    case FullNameField => c.fullName
    case GenderField => c.gender
    case DobField => c.dob
    case StateField => c.state
    case ProfileImageField => None
    case IsActiveField => None
  }

  function FieldError(f: FormState, field: FormField, instantOf: string -> Option<int>, now: int): Option<string> {
    ErrorOf(RunChecks(f, instantOf, now), field)
  }

  /** `errs` holds a field's message exactly when its check fails. */
  ghost predicate RecordsField(errs: map<FormField, string>, field: FormField, e: Option<string>) {
    (field in errs <==> e.Some?) && (field in errs ==> errs[field] == e.value)
  }

  ghost predicate RecordsAll(errs: map<FormField, string>, c: Checks) {
    forall field :: RecordsField(errs, field, ErrorOf(c, field))
  }

  ghost predicate AllPass(c: Checks) {
    forall field :: ErrorOf(c, field).None?
  }

  /** The errors `validateForm` would record. */
  ghost predicate ErrorsFor(errs: map<FormField, string>, f: FormState, instantOf: string -> Option<int>, now: int) {
    RecordsAll(errs, RunChecks(f, instantOf, now))
  }

  ghost predicate IsValid(f: FormState, instantOf: string -> Option<int>, now: int) {
    AllPass(RunChecks(f, instantOf, now))
  }

  /** Only the four checked fields can fail. */
  lemma AllPassByField(c: Checks)
    ensures AllPass(c) <==> c.fullName.None? && c.gender.None? && c.dob.None? && c.state.None?
  {
    if c.fullName.None? && c.gender.None? && c.dob.None? && c.state.None? {
      forall field ensures ErrorOf(c, field).None? {
        match field {
          case FullNameField =>
          case GenderField =>
          case DobField =>
          case StateField =>
          case ProfileImageField =>
          case IsActiveField =>
        }
      }
    } else {
      assert ErrorOf(c, FullNameField).Some? || ErrorOf(c, GenderField).Some?
             || ErrorOf(c, DobField).Some? || ErrorOf(c, StateField).Some?;
    }
  }

  /** A valid form has a chosen gender, a name of two or more visible characters, a date and a state. */
  lemma ValidFormShape(f: FormState, instantOf: string -> Option<int>, now: int)
    ensures IsValid(f, instantOf, now) <==>
              VisibleUnits(f.fullName) >= 2 && f.gender.Some? && f.state != ""
              && f.dob != "" && (instantOf(f.dob).None? || instantOf(f.dob).value < now)
  {
    FullNameErrorCases(f.fullName);
    AllPassByField(RunChecks(f, instantOf, now));
  }

  /** A form that passes validation has a gender, so it can be turned into record data. */
  lemma ValidHasGender(f: FormState, instantOf: string -> Option<int>, now: int)
    requires IsValid(f, instantOf, now)
    ensures f.gender.Some?
  {
    assert ErrorOf(RunChecks(f, instantOf, now), GenderField).None?;
  }

  /** Checking the six fields one by one establishes the whole map, and its emptiness is validity. */
  lemma ErrorsByField(errs: map<FormField, string>, c: Checks)
    requires RecordsField(errs, FullNameField, c.fullName)
    requires RecordsField(errs, GenderField, c.gender)
    requires RecordsField(errs, DobField, c.dob)
    requires RecordsField(errs, StateField, c.state)
    requires ProfileImageField !in errs && IsActiveField !in errs
    ensures RecordsAll(errs, c)
    ensures errs == map[] <==> AllPass(c)
  {
    forall field
      ensures RecordsField(errs, field, ErrorOf(c, field))
    {
      match field {
        case FullNameField =>
        case GenderField =>
        case DobField =>
        case StateField =>
        case ProfileImageField =>
        case IsActiveField =>
      }
    }
    AllPassByField(c);
    if errs != map[] {
      var field :| field in errs;
      assert RecordsField(errs, field, ErrorOf(c, field));
    }
  }

  /** `if (error) newErrors[field] = error`: one step of validateForm. */
  method RecordError(errs: map<FormField, string>, field: FormField, e: Option<string>)
    returns (r: map<FormField, string>)
    ensures r == if e.Some? then errs[field := e.value] else errs
  {
    r := errs;
    if e.Some? {
      r := r[field := e.value];
    }
  }

  /** validateForm's dictionary, filled one check after another. */
  method CollectErrors(f: FormState, instantOf: string -> Option<int>, now: int)
    returns (errs: map<FormField, string>)
    ensures ErrorsFor(errs, f, instantOf, now)
    ensures errs == map[] <==> IsValid(f, instantOf, now)
  {
    var nameError := FullNameError(f.fullName);
    var genderError := GenderError(f.gender);
    var dobError := DobError(f.dob, instantOf, now);
    var stateError := StateError(f.state);
    errs := RecordError(map[], FullNameField, nameError);
    errs := RecordError(errs, GenderField, genderError);
    errs := RecordError(errs, DobField, dobError);
    errs := RecordError(errs, StateField, stateError);
    ErrorsByField(errs, Checks(nameError, genderError, dobError, stateError));
  }

  // ---------------------------------------------------------------- edits

  /** One `handleChange(field, value)` call. */
  datatype FieldEdit =
    | SetFullName(fullName: string)
    | SetGender(gender: Gender)
    | SetDob(dob: string)
    | SetProfileImage(profileImage: Option<string>)
    | SetState(state: string)
    | SetIsActive(isActive: bool)

  function FieldOf(edit: FieldEdit): FormField {
    match edit
    case SetFullName(_) => FullNameField
    case SetGender(_) => GenderField
    case SetDob(_) => DobField
    case SetProfileImage(_) => ProfileImageField
    case SetState(_) => StateField
    case SetIsActive(_) => IsActiveField
  }

  /** `{ ...prev, [field]: value }`. */
  function ApplyEdit(f: FormState, edit: FieldEdit): (g: FormState)
    ensures FieldOf(edit) != FullNameField ==> g.fullName == f.fullName
    ensures FieldOf(edit) != GenderField ==> g.gender == f.gender
    ensures FieldOf(edit) != DobField ==> g.dob == f.dob
    ensures FieldOf(edit) != ProfileImageField ==> g.profileImage == f.profileImage
    ensures FieldOf(edit) != StateField ==> g.state == f.state
    ensures FieldOf(edit) != IsActiveField ==> g.isActive == f.isActive
  {
    match edit
    case SetFullName(v) => f.(fullName := v)
    case SetGender(g) => f.(gender := Some(g))
    case SetDob(v) => f.(dob := v)
    case SetProfileImage(v) => f.(profileImage := v)
    case SetState(v) => f.(state := v)
    case SetIsActive(b) => f.(isActive := b)
  }

  /** An edit of one field leaves every other field's check where it was. */
  lemma EditKeepsOtherChecks(f: FormState, edit: FieldEdit, field: FormField, instantOf: string -> Option<int>, now: int)
    requires field != FieldOf(edit)
    ensures FieldError(ApplyEdit(f, edit), field, instantOf, now) == FieldError(f, field, instantOf, now)
  {
    var g := ApplyEdit(f, edit);
    match field {
      case FullNameField => assert g.fullName == f.fullName;
      case GenderField => assert g.gender == f.gender;
      case DobField => assert g.dob == f.dob;
      case StateField => assert g.state == f.state;
      case ProfileImageField =>
      case IsActiveField =>
    }
  }

  /** Editing a field to the value it already holds changes nothing. */
  lemma EditSameValue(f: FormState)
    ensures ApplyEdit(f, SetFullName(f.fullName)) == f
    ensures ApplyEdit(f, SetDob(f.dob)) == f
    ensures ApplyEdit(f, SetState(f.state)) == f
    ensures ApplyEdit(f, SetProfileImage(f.profileImage)) == f
    ensures ApplyEdit(f, SetIsActive(f.isActive)) == f
    ensures f.gender.Some? ==> ApplyEdit(f, SetGender(f.gender.value)) == f
  {
  }

  /** The record data a valid form submits. */
  function ToFormData(f: FormState): (d: EmployeeFormData)
    requires f.gender.Some?
    ensures d.fullName == f.fullName && d.gender == f.gender.value && d.dob == f.dob
    ensures d.state == f.state && d.isActive == f.isActive && d.profileImage == f.profileImage
  {
    EmployeeFormData(f.fullName, f.gender.value, f.dob, f.state, f.isActive, f.profileImage)
  }

  /** The form loaded for editing a record; `formatForInput` stands for the date conversion. */
  function FormOf(e: Employee, formatForInput: string -> string): (f: FormState)
    ensures f.gender == Some(e.gender)
  {
    FormState(e.fullName, Some(e.gender), formatForInput(e.dob), e.profileImage, e.state, e.isActive)
  }

  /** Loading a record and saving it untouched writes the same record back (dates already in input form). */
  lemma LoadThenSaveUnchanged(e: Employee, formatForInput: string -> string)
    requires formatForInput(e.dob) == e.dob
    ensures Merge(e, PatchOfForm(ToFormData(FormOf(e, formatForInput)))) == e
  {
    MergeForm(e, ToFormData(FormOf(e, formatForInput)));
    WithIdFormData(e);
  }

  const EmployeesRoute := "/employees"
  const UpdatedMessage := "Employee updated successfully"
  const AddedMessage := "New employee added successfully"
  const NotFoundMessage := "Employee not found"

  // ---------------------------------------------------------------- the page

  class EmployeeFormPage {
    /** The `:id` route parameter. */
    const routeId: Option<string>
    var formData: FormState
    var errors: map<FormField, string>
    /** The route the page navigated to, if it has. */
    var navigatedTo: Option<string>

    constructor (routeId: Option<string>)
      ensures this.routeId == routeId && formData == EmptyForm && errors == map[] && navigatedTo == None
    {
      this.routeId := routeId;
      formData := EmptyForm;
      errors := map[];
      navigatedTo := None;
    }

    /** `Boolean(id)`: a non-empty route id. */
    predicate IsEditMode()
      reads this
    {
      routeId.Some? && routeId.value != ""
    }

    /** The edit-mode effect: fill the form from the record, or report it missing and leave. */
    method LoadForEdit(store: EmployeeStore, notes: NotificationCenter, formatForInput: string -> string,
                       now: nat, randomPart: string)
      modifies this`formData, this`navigatedTo, notes
      ensures !IsEditMode() ==>
                formData == old(formData) && navigatedTo == old(navigatedTo)
                && notes.notifications == old(notes.notifications)
      ensures IsEditMode() && store.GetEmployeeById(routeId.value).Some? ==>
                formData == FormOf(store.GetEmployeeById(routeId.value).value, formatForInput)
                && navigatedTo == old(navigatedTo) && notes.notifications == old(notes.notifications)
      ensures IsEditMode() && store.GetEmployeeById(routeId.value).None? ==>
                formData == old(formData) && navigatedTo == Some(EmployeesRoute)
                && notes.notifications == old(notes.notifications)
                   + [Notification(NotificationId(now, randomPart), NotFoundMessage, Error)]
    {
      if IsEditMode() {
        var found := store.GetEmployeeById(routeId.value);
        if found.Some? {
          formData := FormOf(found.value, formatForInput);
        } else {
          notes.ShowNotification(NotFoundMessage, Error, now, randomPart);
          navigatedTo := Some(EmployeesRoute);
        }
      }
    }

    /** handleChange: set the field and drop that field's error, nothing else. */
    method HandleChange(edit: FieldEdit)
      modifies this`formData, this`errors
      ensures formData == ApplyEdit(old(formData), edit)
      ensures errors == old(errors) - {FieldOf(edit)}
      ensures forall field :: field != FieldOf(edit) && field in old(errors) ==>
                field in errors && errors[field] == old(errors)[field]
    {
      formData := ApplyEdit(formData, edit);
      if FieldOf(edit) in errors {
        errors := errors - {FieldOf(edit)};
      }
    }

    /** The status toggle: `handleChange('isActive', !formData.isActive)`. */
    method OnToggleStatus()
      modifies this`formData, this`errors
      ensures formData == old(formData).(isActive := !old(formData).isActive)
      ensures errors == old(errors) - {IsActiveField}
    {
      HandleChange(SetIsActive(!formData.isActive));
    }

    /** validateForm: replace the errors and report whether there are none. */
    method ValidateForm(instantOf: string -> Option<int>, now: int) returns (ok: bool)
      modifies this`errors
      ensures ErrorsFor(errors, formData, instantOf, now)
      ensures ok <==> IsValid(formData, instantOf, now)
      ensures ok <==> errors == map[]
    {
      errors := CollectErrors(formData, instantOf, now);
      ok := errors == map[];
    }

    /**
     * handleSubmit: an invalid form stops at validation; a valid one is saved.
     */
    method Submit(store: EmployeeStore, notes: NotificationCenter, instantOf: string -> Option<int>,
                  now: int, uuid: string, clock: nat, randomPart: string) returns (ok: bool)
      requires store.Valid()
      modifies this`errors, this`navigatedTo, store, notes
      ensures store.Valid() && store.isLoading == old(store.isLoading) && store.FiltersUnchanged()
      ensures ok <==> IsValid(formData, instantOf, now)
      ensures ErrorsFor(errors, formData, instantOf, now)
      ensures !ok ==>
                store.employees == old(store.employees) && notes.notifications == old(notes.notifications)
                && navigatedTo == old(navigatedTo)
      ensures ok ==> formData.gender.Some? && navigatedTo == Some(EmployeesRoute)
      ensures ok && IsEditMode() ==>
                store.employees == UpdateById(old(store.employees), routeId.value, PatchOfForm(ToFormData(formData)))
                && notes.notifications == old(notes.notifications)
                   + [Notification(NotificationId(clock, randomPart), UpdatedMessage, Success)]
      ensures ok && !IsEditMode() ==>
                store.employees ==
                  Prepend(old(store.employees), WithId(ToFormData(formData), Helpers.GenerateEmployeeId(uuid)))
                && notes.notifications == old(notes.notifications)
                   + [Notification(NotificationId(clock, randomPart), AddedMessage, Success)]
    {
      ok := ValidateForm(instantOf, now);
      if !ok {
        return;
      }
      ValidHasGender(formData, instantOf, now);
      Save(store, notes, uuid, clock, randomPart);
    }

    /**
     * The rest of handleSubmit once validation passed: update the routed record in edit
     * mode, otherwise add a new one, then notify and return to the list.
     */
    method Save(store: EmployeeStore, notes: NotificationCenter, uuid: string, clock: nat, randomPart: string)
      requires store.Valid() && formData.gender.Some?
      modifies this`navigatedTo, store, notes
      ensures store.Valid() && store.isLoading == old(store.isLoading) && store.FiltersUnchanged()
      ensures navigatedTo == Some(EmployeesRoute)
      ensures IsEditMode() ==>
                store.employees == UpdateById(old(store.employees), routeId.value, PatchOfForm(ToFormData(formData)))
                && notes.notifications == old(notes.notifications)
                   + [Notification(NotificationId(clock, randomPart), UpdatedMessage, Success)]
      ensures !IsEditMode() ==>
                store.employees ==
                  Prepend(old(store.employees), WithId(ToFormData(formData), Helpers.GenerateEmployeeId(uuid)))
                && notes.notifications == old(notes.notifications)
                   + [Notification(NotificationId(clock, randomPart), AddedMessage, Success)]
    {
      var data := ToFormData(formData);
      if IsEditMode() {
        store.UpdateEmployee(routeId.value, PatchOfForm(data));
        notes.ShowNotification(UpdatedMessage, Success, clock, randomPart);
      } else {
        var _ := store.AddEmployee(data, uuid);
        notes.ShowNotification(AddedMessage, Success, clock, randomPart);
      }
      navigatedTo := Some(EmployeesRoute);
    }
  }
}
