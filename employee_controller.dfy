/** server/controllers/employeeController.js over an in-memory collection.
    The collection is a sequence of documents in the store's natural order,
    which is the order `Employee.find()` returns them in. */
module EmployeeController {
  import opened Js
  import opened EmployeeModel

  /** The text fields of the multipart body (`req.body`). */
  datatype EmployeeForm = EmployeeForm(
    name: Text,
    email: Text,
    mobile: Text,
    designation: Text,
    gender: Text,
    course: Text,
    createdDate: Text)

  /** `req.file`: no upload, or the buffer of the uploaded file. */
  type Upload = Option<Bytes>

  /** How `f_Image` appears in a JSON response: `null`, the base64 text of the
      bytes (the encoding is kept symbolic), or a serialised `Buffer` object
      (`{"type": "Buffer", "data": [...]}`), which is what a document sent
      as it is produces. */
  datatype ImageJson = Null | Base64Text(bytes: Bytes) | BufferObject(data: Bytes)

  /** The bytes a client recovers from a base64 image field. */
  function DecodeBase64(j: ImageJson): (r: Option<Bytes>)
    ensures r.Some? <==> j.Base64Text?
  {
    if j.Base64Text? then Some(j.bytes) else None
  }

  /** An employee as sent in a JSON response. */
  datatype EmployeeJson = EmployeeJson(
    id: Id,
    image: ImageJson,
    name: string,
    email: string,
    mobile: string,
    designation: string,
    gender: string,
    course: string,
    createdate: Time,
    createdAt: Time,
    updatedAt: Time)

  datatype Body =
    | Error(error: string)
    | Message(message: string)
    | One(employee: EmployeeJson)
    | Many(employees: seq<EmployeeJson>)

  datatype Response = Response(status: int, body: Body)

  const NotFound := Response(404, Error("Employee not found"))
  const MissingFields := Response(400, Error("All fields are required, including the image."))
  const SaveFailed := Response(500, Error("Error saving employee"))
  const UpdateFailed := Response(500, Error("Error updating employee"))
  const Deleted := Response(200, Message("Employee deleted"))

  /** The JSON object carries every field of the document except the image. */
  predicate Describes(j: EmployeeJson, e: Employee)
  {
    && j.id == e.id
    && j.name == e.name && j.email == e.email && j.mobile == e.mobile
    && j.designation == e.designation && j.gender == e.gender && j.course == e.course
    && j.createdate == e.createdate && j.createdAt == e.createdAt && j.updatedAt == e.updatedAt
  }

  function ToJson(e: Employee, image: ImageJson): (j: EmployeeJson)
    ensures Describes(j, e) && j.image == image
  {
    EmployeeJson(e.id, image, e.name, e.email, e.mobile, e.designation, e.gender, e.course,
                 e.createdate, e.createdAt, e.updatedAt)
  }

  /** `{ ...employee.toObject(), f_Image: base64 or null }`. A stored document
      always holds a `Buffer`, and every `Buffer` is truthy, so the `null`
      alternative is never taken. */
  function WithBase64Image(e: Employee): (j: EmployeeJson)
    ensures Describes(j, e)
    ensures DecodeBase64(j.image) == Some(e.image)
  {
    ToJson(e, Base64Text(e.image))
  }

  /** `res.json(employee)` on the document itself: the image goes out as a
      serialised `Buffer`, not as base64 text. */
  function AsSaved(e: Employee): (j: EmployeeJson)
    ensures Describes(j, e)
    ensures DecodeBase64(j.image) == None && j.image == BufferObject(e.image)
  {
    ToJson(e, BufferObject(e.image))
  }

  function Ids(docs: seq<Employee>): set<Id>
  {
    set e | e in docs :: e.id
  }

  ghost predicate UniqueIds(docs: seq<Employee>)
  {
    forall i, j :: 0 <= i < j < |docs| ==> docs[i].id != docs[j].id
  }

  /** `findById`: the position of the document with that identifier. */
  function Find(docs: seq<Employee>, id: Id): (r: Option<nat>)
    ensures r.None? <==> id !in Ids(docs)
    ensures r.Some? ==> r.value < |docs| && docs[r.value].id == id
    ensures r.Some? ==> forall k :: 0 <= k < r.value ==> docs[k].id != id
  {
    if docs == [] then None
    else if docs[0].id == id then Some(0)
    else
      assert Ids(docs) == {docs[0].id} + Ids(docs[1..]) by {
        assert docs == [docs[0]] + docs[1..];
      }
      match Find(docs[1..], id)
      case None => None
      case Some(k) => Some(k + 1)
  }

  // ---------------------------------------------------------------------------
  // The "recent" query: sort by createdAt descending, limit 3

  const RecentLimit := 3

  /** Non-increasing `createdAt`, newest first. */
  ghost predicate NewestFirstOrdered(s: seq<Employee>)
  {
    forall i, j :: 0 <= i < j < |s| ==> s[i].createdAt >= s[j].createdAt
  }

  function InsertByCreatedAt(e: Employee, s: seq<Employee>): (r: seq<Employee>)
    ensures multiset(r) == multiset(s) + multiset{e}
  {
    if s == [] || e.createdAt >= s[0].createdAt then [e] + s
    else
      assert s == [s[0]] + s[1..];
      [s[0]] + InsertByCreatedAt(e, s[1..])
  }

  /** Inserting into a newest-first sequence keeps it newest first. */
  lemma {:induction false} InsertKeepsOrder(e: Employee, s: seq<Employee>)
    requires NewestFirstOrdered(s)
    ensures NewestFirstOrdered(InsertByCreatedAt(e, s))
  {
    if s == [] || e.createdAt >= s[0].createdAt {
    } else {
      var rest := InsertByCreatedAt(e, s[1..]);
      InsertKeepsOrder(e, s[1..]);
      assert s == [s[0]] + s[1..];
      forall j | 0 <= j < |rest| ensures s[0].createdAt >= rest[j].createdAt {
        assert rest[j] in multiset(rest);
        if rest[j] != e {
          assert rest[j] in multiset(s[1..]);
          var k :| 0 <= k < |s[1..]| && s[1..][k] == rest[j];
          assert s[k + 1] == rest[j];
        }
      }
    }
  }

  /** The documents sorted newest first (an insertion sort; documents created
      at the same instant keep their natural order). */
  function NewestFirst(docs: seq<Employee>): (r: seq<Employee>)
    ensures NewestFirstOrdered(r)
    ensures multiset(r) == multiset(docs)
    ensures |r| == |docs|
  {
    if docs == [] then []
    else
      assert docs == [docs[0]] + docs[1..];
      var rest := NewestFirst(docs[1..]);
      InsertKeepsOrder(docs[0], rest);
      InsertByCreatedAt(docs[0], rest)
  }

  /** `Employee.find().sort({ createdAt: -1 }).limit(3)`. */
  function RecentEmployees(docs: seq<Employee>): (r: seq<Employee>)
    ensures |r| == if |docs| < RecentLimit then |docs| else RecentLimit
  {
    var sorted := NewestFirst(docs);
    sorted[..if |sorted| < RecentLimit then |sorted| else RecentLimit]
  }

  /** In a newest-first sequence, everything before position k is at least as
      new as everything from k on. */
  lemma PrefixNewerThanSuffix(s: seq<Employee>, k: nat)
    requires NewestFirstOrdered(s) && k <= |s|
    ensures forall x, y :: x in s[..k] && y in s[k..] ==> x.createdAt >= y.createdAt
  {
  }

  /** The recent query returns min(3, n) documents of the collection, newest
      first, and no document it leaves out is newer than one it returns. */
  lemma {:induction false} RecentIsNewest(docs: seq<Employee>)
    ensures NewestFirstOrdered(RecentEmployees(docs))
    ensures multiset(RecentEmployees(docs)) <= multiset(docs)
    ensures forall x, y :: x in RecentEmployees(docs) && y in multiset(docs) - multiset(RecentEmployees(docs))
                           ==> x.createdAt >= y.createdAt
  {
    var sorted := NewestFirst(docs);
    var k := if |sorted| < RecentLimit then |sorted| else RecentLimit;
    assert RecentEmployees(docs) == sorted[..k];
    SplitMultiset(sorted, k);
    PrefixNewerThanSuffix(sorted, k);
  }

  lemma SplitMultiset(s: seq<Employee>, k: nat)
    requires k <= |s|
    ensures multiset(s[..k]) <= multiset(s)
    ensures multiset(s) - multiset(s[..k]) == multiset(s[k..])
  {
    assert s == s[..k] + s[k..];
  }

  // ---------------------------------------------------------------------------
  // Read operations

  /** getEmployees: every document, in the same count and order, each with its
      image as base64 text. */
  function GetEmployees(docs: seq<Employee>): (r: Response)
    ensures r.status == 200 && r.body.Many? && |r.body.employees| == |docs|
    ensures forall i :: 0 <= i < |docs| ==>
              Describes(r.body.employees[i], docs[i])
              && DecodeBase64(r.body.employees[i].image) == Some(docs[i].image)
  {
    Response(200, Many(seq(|docs|, i requires 0 <= i < |docs| => WithBase64Image(docs[i]))))
  }

  /** getrecentEmployees: the recent query's documents as stored, so the images
      go out as `Buffer` objects rather than base64 text. */
  function GetRecentEmployees(docs: seq<Employee>): (r: Response)
    ensures r.status == 200 && r.body.Many?
    ensures |r.body.employees| == if |docs| < RecentLimit then |docs| else RecentLimit
    ensures forall i :: 0 <= i < |r.body.employees| ==>
              Describes(r.body.employees[i], RecentEmployees(docs)[i])
              && r.body.employees[i].image == BufferObject(RecentEmployees(docs)[i].image)
  {
    var recent := RecentEmployees(docs);
    Response(200, Many(seq(|recent|, i requires 0 <= i < |recent| => AsSaved(recent[i]))))
  }

  /** getEmployeeById: the literal "recent" is answered by the recent query
      without any lookup; any other identifier is looked up. */
  function GetEmployeeById(docs: seq<Employee>, id: Id): (r: Response)
    ensures id == "recent" ==> r == GetRecentEmployees(docs)
    ensures id != "recent" && id !in Ids(docs) ==> r == NotFound
    ensures id != "recent" && id in Ids(docs) ==>
              && r.status == 200 && r.body.One? && r.body.employee.id == id
              && Describes(r.body.employee, docs[Find(docs, id).value])
              && DecodeBase64(r.body.employee.image) == Some(docs[Find(docs, id).value].image)
  {
    if id == "recent" then GetRecentEmployees(docs)
    else match Find(docs, id)
      case None => NotFound
      case Some(i) => Response(200, One(WithBase64Image(docs[i])))
  }

  // ---------------------------------------------------------------------------
  // Write operations: the document-level rules

  /** The controller's check before building a document: every text field and
      `createdDate` must be truthy (an empty string counts as missing). */
  predicate AllFieldsGiven(form: EmployeeForm)
  {
    Truthy(form.name) && Truthy(form.email) && Truthy(form.mobile) && Truthy(form.designation)
    && Truthy(form.gender) && Truthy(form.course) && Truthy(form.createdDate)
  }

  /** The document createEmployee builds once the check has passed. */
  function Built(form: EmployeeForm, image: Bytes, id: Id, now: Time): (e: Employee)
    requires AllFieldsGiven(form)
    ensures e.id == id && e.image == image
    ensures e.name == form.name.value && e.email == form.email.value && e.mobile == form.mobile.value
    ensures e.designation == form.designation.value && e.gender == form.gender.value
    ensures e.course == form.course.value
    ensures e.createdate == now
    ensures SchemaValid(e) <==> |image| > 0
  {
    NewEmployee(id, image, form.name.value, form.email.value, form.mobile.value,
                form.designation.value, form.gender.value, form.course.value, now)
  }

  /** The document after updateEmployee's assignments: `field = new || old` for
      each text field, the image replaced only by an upload. `createdDate` is
      written under the undeclared path `f_CreatedDate` and so has no effect. */
  function Patched(e: Employee, form: EmployeeForm, file: Upload): (r: Employee)
    ensures r.id == e.id && r.createdate == e.createdate
    ensures r.createdAt == e.createdAt && r.updatedAt == e.updatedAt
    ensures !Truthy(form.name) ==> r.name == e.name
    ensures !Truthy(form.email) ==> r.email == e.email
    ensures !Truthy(form.mobile) ==> r.mobile == e.mobile
    ensures !Truthy(form.designation) ==> r.designation == e.designation
    ensures !Truthy(form.gender) ==> r.gender == e.gender
    ensures !Truthy(form.course) ==> r.course == e.course
    ensures Truthy(form.name) ==> r.name == form.name.value
    ensures Truthy(form.email) ==> r.email == form.email.value
    ensures Truthy(form.mobile) ==> r.mobile == form.mobile.value
    ensures Truthy(form.designation) ==> r.designation == form.designation.value
    ensures Truthy(form.gender) ==> r.gender == form.gender.value
    ensures Truthy(form.course) ==> r.course == form.course.value
    ensures file.None? ==> r.image == e.image
    ensures file.Some? ==> r.image == file.value
    ensures SchemaValid(e) ==> (SchemaValid(r) <==> file.None? || |file.value| > 0)
  {
    e.(name := Or(form.name, e.name),
       email := Or(form.email, e.email),
       mobile := Or(form.mobile, e.mobile),
       designation := Or(form.designation, e.designation),
       gender := Or(form.gender, e.gender),
       course := Or(form.course, e.course),
       image := if file.Some? then file.value else e.image)
  }

  /** Applying the same update twice has the effect of applying it once. */
  lemma PatchedIdempotent(e: Employee, form: EmployeeForm, file: Upload)
    ensures Patched(Patched(e, form, file), form, file) == Patched(e, form, file)
  {
  }

  /** The store's timestamp rule on save: `updatedAt` moves to the save time
      only when a field actually changed. */
  function Stamped(before: Employee, after: Employee, now: Time): (r: Employee)
    ensures SameFields(r, after) && r.createdAt == after.createdAt
    ensures r.updatedAt == if SameFields(before, after) then before.updatedAt else now
  {
    after.(updatedAt := if SameFields(before, after) then before.updatedAt else now)
  }

  // ---------------------------------------------------------------------------
  // Collection lemmas linking the write operations to the read operations

  /** Removing position i of a collection with unique identifiers removes
      exactly that document's identifier. */
  lemma RemoveAtIds(docs: seq<Employee>, i: nat)
    requires UniqueIds(docs) && i < |docs|
    ensures UniqueIds(docs[..i] + docs[i + 1..])
    ensures Ids(docs[..i] + docs[i + 1..]) == Ids(docs) - {docs[i].id}
  {
  }

  /** Appending a document with a fresh identifier keeps identifiers unique. */
  lemma AppendIds(docs: seq<Employee>, e: Employee)
    requires UniqueIds(docs) && e.id !in Ids(docs)
    ensures UniqueIds(docs + [e])
    ensures Ids(docs + [e]) == Ids(docs) + {e.id}
  {
  }

  /** A document just created is found by its identifier, and its image comes
      back as the uploaded bytes. */
  lemma GetAfterCreate(docs: seq<Employee>, e: Employee)
    requires IsObjectId(e.id) && e.id !in Ids(docs)
    ensures GetEmployeeById(docs + [e], e.id) == Response(200, One(WithBase64Image(e)))
    ensures DecodeBase64(GetEmployeeById(docs + [e], e.id).body.employee.image) == Some(e.image)
  {
  }

  /** After a deletion the identifier is no longer found. */
  lemma GetAfterDelete(docs: seq<Employee>, i: nat)
    requires UniqueIds(docs) && i < |docs| && docs[i].id != "recent"
    ensures GetEmployeeById(docs[..i] + docs[i + 1..], docs[i].id) == NotFound
  {
  }

  // ---------------------------------------------------------------------------
  // The store

  /** The employee collection, changed in place by the three write operations. */
  class EmployeeStore {
    var docs: seq<Employee>

    /** Every stored document passed the schema's validators, carries a
        generated identifier, and no identifier is used twice. */
    ghost predicate Valid()
      reads this
    {
      && (forall i :: 0 <= i < |docs| ==> SchemaValid(docs[i]) && IsObjectId(docs[i].id))
      && UniqueIds(docs)
    }

    constructor ()
      ensures Valid() && docs == []
    {
      docs := [];
    }

    /** createEmployee. `newId` is the identifier the store generates for the
        new document and `now` the clock reading at construction and save. */
    method CreateEmployee(form: EmployeeForm, file: Upload, newId: Id, now: Time) returns (resp: Response)
      requires Valid()
      requires IsObjectId(newId) && newId !in Ids(docs)
      modifies this
      ensures Valid()
      ensures file.None? || !AllFieldsGiven(form) ==> resp == MissingFields && docs == old(docs)
      ensures file.Some? && AllFieldsGiven(form) && |file.value| == 0 ==> resp == SaveFailed && docs == old(docs)
      ensures resp.status == 201 <==> file.Some? && AllFieldsGiven(form) && |file.value| > 0
      ensures resp.status == 201 ==>
                && docs == old(docs) + [Built(form, file.value, newId, now)]
                && resp.body == One(AsSaved(Built(form, file.value, newId, now)))
                && Ids(docs) == old(Ids(docs)) + {newId}
    {
      if file.None? || !AllFieldsGiven(form) {
        return MissingFields;
      }
      var employee := Built(form, file.value, newId, now);
      if !SchemaValid(employee) {
        return SaveFailed;
      }
      AppendIds(docs, employee);
      docs := docs + [employee];
      resp := Response(201, One(AsSaved(employee)));
    }

    /** updateEmployee: an unknown identifier answers 404; otherwise the
        document is patched in place and saved, other documents untouched. */
    method UpdateEmployee(id: Id, form: EmployeeForm, file: Upload, now: Time) returns (resp: Response)
      requires Valid()
      modifies this
      ensures Valid()
      ensures id !in old(Ids(docs)) ==> resp == NotFound && docs == old(docs)
      ensures id in old(Ids(docs)) && file == Some([]) ==> resp == UpdateFailed && docs == old(docs)
      ensures id in old(Ids(docs)) && file != Some([]) ==>
                var i := Find(old(docs), id).value;
                && |docs| == |old(docs)|
                && docs == old(docs)[i := Stamped(old(docs)[i], Patched(old(docs)[i], form, file), now)]
                && resp == Response(200, One(AsSaved(docs[i])))
    {
      var found := Find(docs, id);
      if found.None? {
        return NotFound;
      }
      var i := found.value;
      var before := docs[i];
      var employee := Patched(before, form, file);
      if !SchemaValid(employee) {
        return UpdateFailed;
      }
      employee := Stamped(before, employee, now);
      docs := docs[i := employee];
      resp := Response(200, One(AsSaved(employee)));
    }

    /** deleteEmployee: removes exactly the document with that identifier. */
    method DeleteEmployee(id: Id) returns (resp: Response)
      requires Valid()
      modifies this
      ensures Valid()
      ensures id !in old(Ids(docs)) ==> resp == NotFound && docs == old(docs)
      ensures id in old(Ids(docs)) ==>
                var i := Find(old(docs), id).value;
                && docs == old(docs)[..i] + old(docs)[i + 1..]
                && Ids(docs) == old(Ids(docs)) - {id}
                && resp == Deleted
    {
      var found := Find(docs, id);
      if found.None? {
        return NotFound;
      }
      var i := found.value;
      RemoveAtIds(docs, i);
      docs := docs[..i] + docs[i + 1..];
      resp := Deleted;
    }
  }
}
