/**
 * The employee record and the closed enumerations the directory filters by.
 * Dates of birth and region names stay opaque strings, as in the records.
 */
module EmployeeTypes {
  import opened Wrappers

  /** 'male' | 'female' | 'other'. */
  datatype Gender = Male | Female | Other

  /** One workforce record; `profileImage` is the only optional field. */
  datatype Employee = Employee(
    id: string,
    fullName: string,
    gender: Gender,
    dob: string,
    state: string,
    isActive: bool,
    profileImage: Option<string>)

  /** The record without its id: what the form collects and `addEmployee` receives. */
  datatype EmployeeFormData = EmployeeFormData(
    fullName: string,
    gender: Gender,
    dob: string,
    state: string,
    isActive: bool,
    profileImage: Option<string>)

  /** 'all' or one gender. */
  datatype GenderFilter = AllGenders | OnlyGender(gender: Gender)

  /** 'all' | 'active' | 'inactive'. */
  datatype StatusFilter = AllStatuses | ActiveOnly | InactiveOnly

  /** 'table' | 'grid'. */
  datatype ViewMode = Table | Grid

  /** `{ ...data, id }`: the form data completed with an id. */
  function WithId(data: EmployeeFormData, id: string): (e: Employee)
    ensures e.id == id && FormDataOf(e) == data
  {
    Employee(id, data.fullName, data.gender, data.dob, data.state, data.isActive, data.profileImage)
  }

  /** The record with its id left out. */
  function FormDataOf(e: Employee): EmployeeFormData {
    EmployeeFormData(e.fullName, e.gender, e.dob, e.state, e.isActive, e.profileImage)
  }

  /** A record is exactly its form data plus its id. */
  lemma WithIdFormData(e: Employee)
    ensures WithId(FormDataOf(e), e.id) == e
  {
  }
}
