# Employee directory: a Dafny model of its decision and update rules

The employee directory is a small CRUD application. A React page lists, creates,
edits and deletes employee records, each with an uploaded photo. An Express
backend keeps the records in MongoDB and guards the routes with bearer tokens.
This project models the logic that sits in front of the database and the token
library, and proves properties of it:

- `EmployeeModel` (employee_model.dfy): the employee document, its `required`
  validators, the `f_Createdate` default and the `createdAt`/`updatedAt` timestamps.
- `EmployeeController` (employee_controller.dfy): the employee collection as a class
  `EmployeeStore` whose methods create, update and delete in place. The read
  operations `GetEmployees`, `GetEmployeeById` and `GetRecentEmployees` are functions
  of the collection. The collection is a sequence in the store's natural order, so
  `find()` has a defined order.
- `AuthController` (auth_controller.dfy): registration as a method of the user table
  `UserStore`, keyed by email. Login is a function that only reads that table.
  Password hashing and token signing are symbolic datatypes.
- `AuthMiddleware` (auth_middleware.dfy): bearer-token extraction with the exact
  semantics of `String.prototype.replace` with a string pattern, plus the four-way
  outcome of the guard.
- `EmployeesList` (employees_list.dfy): the list page's state (`employees`,
  `currentPage`, `totalEmployees`) as a class, the `slice`-based page arithmetic,
  `Math.ceil` page count, button-disabling rules, and the fetch and delete updates.
- `Js` (js.dfy): absent-or-present values and JavaScript truthiness of strings.

Behaviour of the code that the model keeps on purpose:

- Login never checks the password. `bcrypt.compare` is not awaited
  (server/controllers/authController.js:61), so `isMatch` is a Promise, and a
  Promise is always truthy. Any password for a registered email gets a token.
  See "## Findings".
- The controller writes the request's `createdDate` to `f_CreatedDate`. The schema
  declares `f_Createdate`, so the value is dropped and `f_Createdate` takes its
  default, the creation time. `createdDate` is still required on create, but only
  as a non-empty field; it is never stored.
- The recent query (`getEmployeeById` with id `"recent"`) sends the documents as
  they are. Their image is a serialised `Buffer` object, not base64 text as in the
  list and get-by-id responses.
- An update keeps a field's old value whenever the new one is falsy. An empty
  string therefore never clears a field.
- Mongoose's `required` check on a Buffer rejects a zero-length buffer. An empty
  uploaded file passes the controller's `!req.file` check but fails the save,
  which answers 500 with nothing stored. This is true for both create and update.
- `jwt.sign` throws when the secret is unset or empty. Register saves the user
  before signing, so a missing secret answers 500 with the user already added.
- On the list page, `totalEmployees` is not decremented on delete. With zero
  employees the page count is 0, so the next button is never disabled.

## Model

| member | source | states |
|---|---|---|
| `Js.Or` | server/controllers/employeeController.js:103-108 | `new || old`: the new text when it is truthy, else the old value; the result is empty only if both are falsy/empty |
| `EmployeeModel.SchemaValid` | server/models/Employee.js:5-11 | the required validators: a non-empty image buffer and six non-empty text fields |
| `EmployeeModel.NewEmployee` | server/models/Employee.js:3-14 | a new document's `f_Createdate`, `createdAt` and `updatedAt` are all the creation time; it passes the schema's required validators iff the image is non-empty and all six text fields are non-empty |
| `EmployeeModel.RecentIsNotAnObjectId` | server/controllers/employeeController.js:27-29 | "recent" never has the shape of a generated identifier, so the dispatch never hides a stored document |
| `EmployeeController.WithBase64Image` | server/controllers/employeeController.js:39-42 | the list/get-by-id projection keeps every field of the document and its image text decodes to the stored bytes |
| `EmployeeController.AsSaved` | server/controllers/employeeController.js:145 | a document sent as it is carries every field, but its image is a `Buffer` object and does not decode as base64 text |
| `EmployeeController.Find` | server/controllers/employeeController.js:32-36 | `findById`: `None` exactly when no document has the identifier; otherwise the first position holding it |
| `EmployeeController.InsertKeepsOrder` | server/controllers/employeeController.js:142-143 | inserting a document into a newest-first sequence keeps it newest first |
| `EmployeeController.NewestFirst` | server/controllers/employeeController.js:142-143 | `sort({ createdAt: -1 })`: the result is ordered by non-increasing `createdAt` and is a permutation of the collection |
| `EmployeeController.RecentEmployees` | server/controllers/employeeController.js:142-144 | `.limit(3)`: returns min(3, n) documents |
| `EmployeeController.RecentIsNewest` | server/controllers/employeeController.js:142-144 | the recent documents are newest first, are drawn from the collection, and no document left out is newer than one returned |
| `EmployeeController.GetEmployees` | server/controllers/employeeController.js:7-18 | 200 with every document, same count and order, each image as base64 text of the stored bytes |
| `EmployeeController.GetRecentEmployees` | server/controllers/employeeController.js:140-145 | 200 with the min(3, n) recent documents in order, each sent as stored: its fields, and its own image bytes as a `Buffer` object (not base64) |
| `EmployeeController.GetEmployeeById` | server/controllers/employeeController.js:24-44 | id "recent" gives exactly the recent-query response with no lookup; another unknown id gives 404 "Employee not found"; a known id gives 200 with that document, image as base64 text |
| `EmployeeController.AllFieldsGiven` | server/controllers/employeeController.js:57-66 | the create check: each of the six text fields and `createdDate` is truthy (the file is checked separately) |
| `EmployeeController.Built` | server/controllers/employeeController.js:73-82 | the created document's id, image and six text fields are the request's; `f_Createdate` is the creation time, not the request's `createdDate`; it is schema-valid iff the image is non-empty |
| `EmployeeController.Patched` | server/controllers/employeeController.js:102-116 | each text field takes the new value when it is truthy and keeps its old value otherwise; the image changes only when a file is supplied, and then to that file; id, `f_Createdate` and `createdAt` never change; a valid document stays valid unless an empty file is uploaded |
| `EmployeeController.PatchedIdempotent` | server/controllers/employeeController.js:102-116 | applying the same update twice equals applying it once |
| `EmployeeController.Stamped` | server/models/Employee.js:14 | on save, `updatedAt` moves to the save time only when a field changed; `createdAt` is kept |
| `EmployeeController.RemoveAtIds` | server/controllers/employeeController.js:129 | removing one position from a collection with unique ids removes exactly that id and keeps the ids unique |
| `EmployeeController.AppendIds` | server/controllers/employeeController.js:84 | appending a document with a fresh id keeps ids unique and adds exactly that id |
| `EmployeeController.GetAfterCreate` | server/controllers/employeeController.js:73-85 | a created document is then found by its id with 200, and its image decodes to the uploaded bytes |
| `EmployeeController.GetAfterDelete` | server/controllers/employeeController.js:129-133 | after a delete, get-by-id on that id answers 404 |
| `EmployeeController.EmployeeStore.CreateEmployee` | server/controllers/employeeController.js:51-89 | a missing file or a falsy field gives 400 and stores nothing; an empty file gives 500 and stores nothing; otherwise exactly one document built from the request is appended, 201 with it, and the others are unchanged; every stored document stays schema-valid with unique ids |
| `EmployeeController.EmployeeStore.UpdateEmployee` | server/controllers/employeeController.js:91-124 | an unknown id gives 404 with the collection unchanged; an empty file gives 500 unchanged; otherwise only that position is replaced by the patched, stamped document and 200 returns it |
| `EmployeeController.EmployeeStore.DeleteEmployee` | server/controllers/employeeController.js:126-138 | an unknown id gives 404 with the collection unchanged; otherwise exactly that document is removed, the rest keep their order, and 200 "Employee deleted" |
| `AuthController.Sign` | server/controllers/authController.js:26-28 | a token exists iff the secret is truthy; it carries the given payload, the secret and a 3600-second lifetime |
| `AuthController.TokenReply` | server/controllers/authController.js:26-36 | 200 with the message and a token for the user's id iff the secret is truthy, else the catch-all 500 "Server error" |
| `AuthController.PromiseTruthy` | server/controllers/authController.js:61-62 | a Promise, as an object, is truthy whatever it settles to, so `!isMatch` is always false |
| `AuthController.Login` | server/controllers/authController.js:43-79 | a falsy email or password gives 400; an unknown email gives 400 "Invalid credentials" and no token; a known email gets the token reply whatever the password; a token is only issued for a stored user's id; the table is only read |
| `AuthController.LoginAwaited` | server/controllers/authController.js:61-62 | with the comparison awaited: 200 iff fields present, email known, password matches and secret set; a wrong password gives "Invalid credentials" |
| `AuthController.WrongPasswordAccepted` | server/controllers/authController.js:61-62 | alice registered with "pw123" logs in with "wrong": the code as written issues a token, the awaited version refuses |
| `AuthController.RegisterThenLogin` | server/controllers/authController.js:6-79 | alice registered through the store with "pw123": the awaited login accepts "pw123" with a token for her id and refuses "wrong", while the login as written issues a token for "wrong" |
| `AuthController.UserStore.Register` | server/controllers/authController.js:6-41 | a falsy field gives 400 with the table unchanged; a known email gives 400 "User already exists" unchanged; otherwise exactly one user is added under that email, storing the (symbolic) bcrypt hash of the password, and the reply is the token reply for the new id |
| `AuthMiddleware.IndexOfFrom` | server/middleware/authMiddleware.js:4 | `indexOf`: the result is an occurrence with none before it, or `None` when there is none |
| `AuthMiddleware.RemoveFirst` | server/middleware/authMiddleware.js:4 | `replace` with a string pattern: unchanged without an occurrence; otherwise exactly one copy of the pattern is cut out at its first occurrence |
| `AuthMiddleware.ExtractToken` | server/middleware/authMiddleware.js:4 | optional chaining: the token is absent exactly when the header is |
| `AuthMiddleware.BearerHeaderYieldsToken` | server/middleware/authMiddleware.js:4 | the header "Bearer " + t yields t |
| `AuthMiddleware.HeaderWithoutPrefixUnchanged` | server/middleware/authMiddleware.js:4 | a header without "Bearer " is used as the token unchanged |
| `AuthMiddleware.RemovesFirstOccurrence` | server/middleware/authMiddleware.js:4 | when "Bearer " first stands right after `pre`, the header pre + "Bearer " + rest yields pre + rest: only that copy is removed, later copies are kept |
| `AuthMiddleware.DoubledPrefixKeepsSecond` | server/middleware/authMiddleware.js:4 | the header "xBBearer Bearer t" yields "xBBearer t": the second "Bearer " stays in the token |
| `AuthMiddleware.Guard` | server/middleware/authMiddleware.js:3-22 | no or empty token gives 401 "No token"; then an unset secret gives 500; then a failed verification gives 401 "Token is not valid"; otherwise next with the decoded payload, and next happens exactly in that case |
| `AuthMiddleware.VerifyOnlyWithTokenAndSecret` | server/middleware/authMiddleware.js:5-12 | without a token or without a secret the outcome is a rejection that does not depend on the verifier |
| `AuthMiddleware.EmptyBearerRefused` | server/middleware/authMiddleware.js:4-6 | an absent header, or one that is exactly "Bearer ", is refused with "No token" before the secret is looked at |
| `EmployeesList.ToEntry` | client/src/components/Page/Employees-List.jsx:25-30 | the entry keeps the received object, and `image` is the JPEG data URL of `f_Image` exactly when `f_Image` is truthy, else null |
| `EmployeesList.ToEntries` | client/src/components/Page/Employees-List.jsx:25-33 | the list has the response's length and order, each entry keeps its object, and its `image` is `"data:image/jpeg;base64," + f_Image` exactly when `f_Image` is truthy |
| `EmployeesList.WithoutId` | client/src/components/Page/Employees-List.jsx:62-64 | the filter keeps exactly the entries whose `_id` differs |
| `EmployeesList.WithoutIdKeepsOrder` | client/src/components/Page/Employees-List.jsx:62-64 | the filter keeps the survivors in order (it distributes over concatenation) |
| `EmployeesList.WithoutAbsentId` | client/src/components/Page/Employees-List.jsx:62-64 | deleting an id no entry has leaves the list unchanged |
| `EmployeesList.PageOf` | client/src/components/Page/Employees-List.jsx:76-81 | for page p >= 1 the page is the entries from (p-1)*10 to p*10, clamped to the list length |
| `EmployeesList.PageAtMostTen` | client/src/components/Page/Employees-List.jsx:76-81 | every page, for any page number, has at most 10 entries |
| `EmployeesList.TotalPages` | client/src/components/Page/Employees-List.jsx:85 | `Math.ceil(total / 10)`: the least page count covering total; 0 exactly when total is 0 |
| `EmployeesList.PrevDisabled` | client/src/components/Page/Employees-List.jsx:166 | the previous button is disabled exactly on page 1 |
| `EmployeesList.NextDisabled` | client/src/components/Page/Employees-List.jsx:176 | the next button is disabled exactly when the page equals the page count |
| `EmployeesList.ButtonsStayOnPages` | client/src/components/Page/Employees-List.jsx:76-85 | with the count matching the list, every page 1..totalPages shows at least one entry, and an enabled button leads to another such page |
| `EmployeesList.NextEnabledWithoutEmployees` | client/src/components/Page/Employees-List.jsx:176 | with zero employees the next button is never disabled, and every page is empty |
| `EmployeesList.PagesArePrefix` | client/src/components/Page/Employees-List.jsx:76-81 | pages 1..k put together are the first min(10k, n) entries |
| `EmployeesList.PagesCoverList` | client/src/components/Page/Employees-List.jsx:76-85 | pages 1..totalPages put together reproduce the fetched list |
| `EmployeesList.StaleCountAfterDelete` | client/src/components/Page/Employees-List.jsx:62-64 | after deleting 1 of 11 employees the page count stays 2, page 2 is empty and next stays enabled on page 1 |
| `EmployeesList.EmployeeListState.CurrentEmployees` | client/src/components/Page/Employees-List.jsx:76-81 | the shown entries are at most 10, all from the list |
| `EmployeesList.EmployeeListState.Fetched` | client/src/components/Page/Employees-List.jsx:15-47 | a successful fetch sets the list to the mapped response and the count to its length; a failed one changes nothing; the page is kept |
| `EmployeesList.EmployeeListState.HandleDelete` | client/src/components/Page/Employees-List.jsx:49-68 | with a token and a successful request the list loses every entry with that id; otherwise it is unchanged; the count and the page are never updated |
| `EmployeesList.EmployeeListState.ClickPrev` | client/src/components/Page/Employees-List.jsx:164-166 | prev moves back one page unless the page is 1 (disabled), so the page never drops below 1 |
| `EmployeesList.EmployeeListState.ClickNext` | client/src/components/Page/Employees-List.jsx:174-176 | next moves on one page unless the page equals the page count (disabled); with a count of 0 it always moves on |

## Findings

| source | as written | input that shows it | evidently intended | confidence | as-written member | corrected member |
|---|---|---|---|---|---|---|
| server/controllers/authController.js:61-62 | `bcrypt.compare` is called without `await`, so `isMatch` is a pending Promise, which is always truthy, and the check never rejects | user alice@x.com stored with the hash of "pw123"; login with password "wrong" answers 200 with a token | a token only when the password matches the stored hash | high; not executed | `AuthController.Login` (exhibited by `AuthController.WrongPasswordAccepted`) | `AuthController.LoginAwaited` |

The model keeps the code's behaviour. The store's login is `Login`, as written.
`LoginAwaited` stands beside it with the intended property proved.

## Left out

- MongoDB and Mongoose internals. The natural order of `find()` is taken to be insertion order. Generated identifiers come in as a parameter, with the shape of an ObjectId and fresh. The clock comes in as a parameter: one reading serves both construction (`f_Createdate` default) and save (`createdAt`/`updatedAt`). The `__v` version key is not modelled.
- Cast errors: Mongoose answers a malformed id with a cast error, which the controllers turn into 500. The model treats every id that matches no document as unknown (404).
- Database failures: the catch-all 500 branches for database exceptions are not modelled. The one exception is the schema's required-field validation, which the model does include.
- Ties in the recent query: MongoDB does not fix the order of documents with equal `createdAt`. The model keeps their natural order.
- bcrypt and jsonwebtoken are symbolic: a hash value, a signed-token value, and a verifier passed as a function. Token expiry depends on a wall clock, so it lives inside the verifier. The unknown-email branch of login runs an extra `bcrypt.compare` whose result is discarded; it only affects timing, and timing is not modelled. The `res.cookie` call is not modelled either.
- The base64 encoding (section 4 of RFC 4648) is kept symbolic as a value that decodes to its bytes. The client treats the text it receives as an opaque string.
- `new Date(createdDate)` is not modelled, because its result is dropped (it is stored under the undeclared path `f_CreatedDate`).
- The user schema file server/models/User.js is not part of this model. Its validators and indexes, and any save failure they cause, are not modelled.
- Request body values that are JSON non-strings (numbers, objects) are not modelled: a field is either absent or a string.
- Express routing and multer are not modelled. Route precedence (`/:id` declared before `/recent`) is why `"recent"` reaches `getEmployeeById`.
- React rendering, navigation, alerts and `localStorage` handling are not modelled, including the 401 redirect after a failed fetch. Whether a stored token exists is an input to `HandleDelete`, and the outcome of the delete request is an input too.
- `paginate` is only reachable through the two buttons, so it is modelled as `ClickPrev`/`ClickNext`.
- Concurrent requests and async interleaving are not modelled.
