/** The employee document of server/models/Employee.js: seven required
    fields, a creation date with a default, and the automatic `createdAt` /
    `updatedAt` timestamps. */
module EmployeeModel {

  newtype byte = x: int | 0 <= x < 256

  /** The contents of a `Buffer`. */
  type Bytes = seq<byte>

  /** Milliseconds since the epoch, as `Date.now()` gives them. */
  type Time = nat

  /** A document identifier as it travels in a route parameter. */
  type Id = string

  /** A stored employee document. `createdate` is the schema's `f_Createdate`;
      `createdAt` and `updatedAt` are maintained by the store on save. */
  datatype Employee = Employee(
    id: Id,
    image: Bytes,        // f_Image
    name: string,        // f_Name
    email: string,       // f_Email
    mobile: string,      // f_Mobile
    designation: string, // f_Designation
    gender: string,      // f_Gender
    course: string,      // f_Course
    createdate: Time,    // f_Createdate
    createdAt: Time,
    updatedAt: Time)

  /** The schema's `required` validators: a required String rejects the empty
      string and a required Buffer rejects one of length zero, so a document
      that fails this is never saved. */
  predicate SchemaValid(e: Employee)
  {
    && |e.image| > 0
    && e.name != ""
    && e.email != ""
    && e.mobile != ""
    && e.designation != ""
    && e.gender != ""
    && e.course != ""
  }

  predicate IsHexDigit(c: char)
  {
    '0' <= c <= '9' || 'a' <= c <= 'f'
  }

  /** The shape of the identifiers the store generates: 24 lower-case hex digits. */
  predicate IsObjectId(s: string)
  {
    |s| == 24 && forall i :: 0 <= i < |s| ==> IsHexDigit(s[i])
  }

  /** The pseudo-identifier "recent" is never a generated identifier, so the
      `"recent"` dispatch of getEmployeeById never hides a stored document. */
  lemma RecentIsNotAnObjectId()
    ensures !IsObjectId("recent")
  {
  }

  /** The fields a new document is built from: the image is the uploaded
      buffer and `f_Createdate` takes its default, the construction time.
      The request's `createdDate` is not an argument: the controller writes it
      under the misspelt path `f_CreatedDate`, which the schema does not
      declare and therefore drops. */
  function NewEmployee(id: Id, image: Bytes, name: string, email: string, mobile: string,
                       designation: string, gender: string, course: string, now: Time): (e: Employee)
    ensures e.createdate == e.createdAt == e.updatedAt == now
    ensures SchemaValid(e) <==> |image| > 0 && name != "" && email != "" && mobile != ""
                                && designation != "" && gender != "" && course != ""
  {
    Employee(id, image, name, email, mobile, designation, gender, course, now, now, now)
  }

  /** Two documents agree on every schema field (timestamps aside). */
  predicate SameFields(a: Employee, b: Employee)
  {
    a.(createdAt := 0, updatedAt := 0) == b.(createdAt := 0, updatedAt := 0)
  }
}
