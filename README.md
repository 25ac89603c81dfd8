# User directory: a Dafny model

This project models a small CRUD user directory. It has an Express/Mongoose
back end and a React front end. The model covers the rules and state
machines the repository's own files declare, not the libraries underneath
them.

**Back end**
- `UserModel` holds the user record and the schema's field rules.
  `required`, `minlength`, `match`, `enum`, `default`, `trim` and
  `lowercase` are written as error functions and normalisers.
- `UserController` holds the record service.
  - `UserStore` is a class holding the records, the set of image files on
    disk and the next id.
  - Its `Create`, `Update` and `Delete` methods are proved against the
    value-level functions `CreateUser`, `UpdateUser` and `DeleteUser`.
  - The store invariant covers unique ids, emails and mobiles, valid
    records, and creation order.
  - Listing, get-by-id and export are pure functions.
- `ErrorHandler` models the error-to-response middleware.
- `CsvExporter` models the CSV column projection.
- `UserRoutes` models the ordered route table and first-match dispatch.
- `ListQuery` holds the `parseInt || default` reading of query parameters,
  paging arithmetic, the newest-first order and the search filter.

**Front end**
- `ClientValidation` models the yup rule table.
- `Pagination` models the pager controls.
- `UserTable` models the row-menu, status-dropdown and delete-dialog state,
  and the inline status change.
- `UserForm` models the default-value merge, the reset rule, the preview and
  the `FormData` payload.
- `FormData` models the multipart body the pages send.
- `UserListPage` models the fetch, search and export state.
- `Helpers` models the image URL helper and the `formatDate` guard.
- `ApiClient` models the axios response interceptor.

**Behaviour the model keeps as the code has it**
- A malformed id is answered with 400 "Invalid _id: …" by the cast rule of
  the error handler, not with 404. See `UserController.MalformedId`.
- `updateUser` unlinks the old image before validation and the write.
  - A refused update with a file therefore leaves the record pointing at a
    file that is gone.
  - See `UserController.RefusedUpdateLosesImage` and
    `UserController.DanglingImageExample`.
- A negative `page` is not replaced by the default. The negative skip is
  refused by the store and reaches the client as 500. See
  `UserController.NegativePage`.
- `/:id` matches exactly one path segment, so `/export/csv` never reaches
  `getUserById`. This holds in either registration order, so the order the
  routes file insists on is harmless but not needed. See
  `UserRoutes.ExportOrderIrrelevant`.
- The edit page builds a new defaults object on every render, and the
  form's reset effect depends on it. Starting and ending a submission each
  re-render the page, so the form is reset to the stored record. If the
  server refuses the edit, what was typed is gone and the stored image is
  previewed again. See `UserForm.UserFormState.SubmitOnEditPage` and
  `UserForm.EditResetDiscards`.

## Model

| member | source | states |
|---|---|---|
| Common.TrimSpec | backend/models/User.js:12 | trimming, over ECMAScript's full white-space and line-terminator set, yields a trimmed string that is a contiguous slice of the input |
| Common.TrimIdempotent | backend/models/User.js:12 | trimming twice is the same as trimming once |
| Common.LowerTrimCommute | backend/models/User.js:23-24 | lower-casing and trimming commute, so the order the schema applies them in does not matter |
| Common.ContainsAt | backend/controllers/userController.js:61-63 | substring containment holds exactly when the term occurs at some position |
| UserModel.ParseGender | backend/models/User.js:33-37 | a gender is accepted exactly for Male, Female and Other, and the accepted value names itself |
| UserModel.ParseStatus | backend/models/User.js:42-46 | a status is accepted exactly for Active and Inactive, and the accepted value names itself |
| UserModel.GenderRoundTrip | backend/models/User.js:36 | every gender's name parses back to that gender |
| UserModel.StatusRoundTrip | backend/models/User.js:44 | every status's name parses back to that status |
| UserModel.ValidateCreate | backend/models/User.js:8-51 | a create body is refused exactly when some field rule fails, with exactly those errors; an accepted draft satisfies every stored-field rule |
| UserModel.NormEmailStored | backend/models/User.js:23-24 | a stored email is trimmed and has no upper-case letters |
| UserModel.ValidateUpdate | backend/models/User.js:8-46 | an update body is refused exactly when a supplied field breaks its rule, with exactly those errors |
| UserModel.ApplyPatchValid | backend/models/User.js:8-51 | applying an accepted update to a valid record gives a valid record |
| UserModel.CreateRoundTrip | backend/models/User.js:8-51 | re-submitting a valid draft's fields is accepted and yields the same draft |
| UserModel.UpdateRoundTrip | backend/models/User.js:8-46 | re-submitting a stored record's own fields as an update is accepted and changes nothing |
| UserModel.StoredFieldsPass | backend/models/User.js:8-46 | the fields of a valid draft pass every rule again, and its names are already trimmed |
| UserModel.StoredEmailPasses | backend/models/User.js:19-26 | a trimmed, lower-case, well-shaped email passes the email rules |
| UserModel.StoredEmailFixed | backend/models/User.js:23-24 | normalising an already trimmed lower-case email leaves it unchanged |
| UserModel.FirstNameTrimmedBeforeLength | backend/models/User.js:11-12 | " a " is refused as too short, because the length is checked after trimming |
| UserModel.EmptyBodyErrors | backend/models/User.js:10-30 | an empty create body reports the required message of each of the five required fields |
| UserModel.CreateDefaults | backend/models/User.js:42-51 | an accepted create without status or location stores status Active and location "" |
| UserModel.EmptyUpdateChangesNothing | backend/models/User.js:8-51 | an update with no fields is accepted and leaves the record unchanged |
| UserModel.BodyErrors | backend/models/User.js:6-56 | every schema rule run over a body, creating or updating; stated by ValidateCreate, ValidateUpdate, StoredFieldsPass and EmptyBodyErrors |
| UserModel.FirstNameErrors | backend/models/User.js:8-13 | firstName: required, trimmed, then at least 2 characters; stated by FirstNameTrimmedBeforeLength, EmptyBodyErrors and StoredFieldsPass |
| UserModel.LastNameErrors | backend/models/User.js:14-18 | lastName: required and trimmed, no length rule; stated by EmptyBodyErrors and StoredFieldsPass |
| UserModel.EmailErrors | backend/models/User.js:19-26 | email: required, lower-cased and trimmed, then the email pattern; stated by StoredEmailPasses, EmptyBodyErrors and StoredFieldsPass |
| UserModel.MobileErrors | backend/models/User.js:27-32 | mobile: required and exactly ten digits; stated by EmptyBodyErrors and StoredFieldsPass |
| UserModel.GenderErrors | backend/models/User.js:33-37 | gender: required and one of Male, Female, Other; stated by ParseGender, EmptyBodyErrors and StoredFieldsPass |
| UserModel.StatusErrors | backend/models/User.js:42-46 | status: optional and one of Active, Inactive; stated by ParseStatus, ValidateCreate, ValidateUpdate and StoredFieldsPass |
| UserModel.NormName | backend/models/User.js:12 | names are stored trimmed; stated by StoredFieldsPass and FirstNameTrimmedBeforeLength |
| UserModel.NormEmail | backend/models/User.js:23-24 | emails are stored lower-cased and trimmed; stated by NormEmailStored, StoredEmailFixed and StoredEmailPasses |
| ErrorHandler.BodyShape | backend/middleware/errorHandler.js:29-34 | every response has success = false and carries the stack exactly in development mode |
| ErrorHandler.ThrowsOnlyWithoutKey | backend/middleware/errorHandler.js:17-21 | the handler itself fails exactly on a duplicate-key error without a key |
| ErrorHandler.UnrecognisedError | backend/middleware/errorHandler.js:6-7 | an error no rule recognises keeps a status already set, turns 200 into 500, and uses its message or "Internal Server Error" |
| ErrorHandler.ValidationRule | backend/middleware/errorHandler.js:10-14 | a validation error gives 400 and all field messages joined by ", " |
| ErrorHandler.DuplicateKeyRule | backend/middleware/errorHandler.js:17-21 | a duplicate key gives 400 "<Field> already exists" from the first key, capitalised, whatever rule matched before it |
| ErrorHandler.CastRule | backend/middleware/errorHandler.js:24-27 | a cast error gives 400 "Invalid <path>: <value>", overriding the earlier rules |
| ErrorHandler.StatusRange | backend/middleware/errorHandler.js:6-27 | a response status is 400, 500, or the non-200 status a controller set |
| ErrorHandler.CapitalizeSpec | backend/middleware/errorHandler.js:20 | capitalising keeps the length, upper-cases the first letter (ASCII letters only) and keeps the rest |
| ErrorHandler.JoinContainsEach | backend/middleware/errorHandler.js:13 | every joined field message appears in the joined text |
| ErrorHandler.HandleError | backend/middleware/errorHandler.js:5-35 | the error middleware: the initial status and message, then the validation, duplicate-key and cast rules in turn, then the response body; stated by UnrecognisedError, ValidationRule, DuplicateKeyRule, CastRule, ThrowsOnlyWithoutKey, StatusRange and BodyShape |
| ErrorHandler.Capitalize | backend/middleware/errorHandler.js:20 | upper-cases the first letter of the duplicated key (ASCII) and keeps the rest; stated by CapitalizeSpec and used by DuplicateKeyRule |
| ListQuery.DecimalIsDigits | backend/controllers/userController.js:52-53 | a number's decimal text is non-empty and made of digits |
| ListQuery.LeadingAll | backend/controllers/userController.js:52-53 | on an all-digit text, the leading-digit scan takes every character |
| ListQuery.DecimalValue | backend/controllers/userController.js:52-53 | the digits of a number's decimal text have that number as their value |
| ListQuery.ParseDecimal | backend/controllers/userController.js:52-53 | parseInt reads back a number's decimal text, and its negation with a leading "-" |
| ListQuery.QueryIntFallback | backend/controllers/userController.js:52-53 | a missing, zero or unparsable parameter gives the fallback; any other number, negative included, passes through |
| ListQuery.QueryIntNonZero | backend/controllers/userController.js:53 | with a non-zero fallback the value read is never 0 |
| ListQuery.Window | backend/controllers/userController.js:70 | skip/limit keep at most the limit's magnitude, taken in order from position skip |
| ListQuery.CeilDivSpec | backend/controllers/userController.js:74 | for a positive limit, totalPages is the least count of pages that holds every record |
| ListQuery.CeilOfNothing | backend/controllers/userController.js:74 | no records gives zero pages |
| ListQuery.Reverse | backend/controllers/userController.js:70 | reversal keeps the length and mirrors the positions |
| ListQuery.NewestFirstSorted | backend/controllers/userController.js:70 | sorting a creation-ordered store newest first gives descending createdAt and the same records |
| ListQuery.WindowDescending | backend/controllers/userController.js:70 | a slice of a newest-first list is newest first |
| ListQuery.ReverseMultiset | backend/controllers/userController.js:70 | reversal is a permutation |
| ListQuery.Filter | backend/controllers/userController.js:58-66 | the filtered list holds exactly the records that match the search |
| ListQuery.EmptySearchKeepsAll | backend/controllers/userController.js:58-66 | an empty search keeps every record in order |
| ListQuery.SearchIgnoresCase | backend/controllers/userController.js:61-63 | searches differing only in letter case match the same records |
| ListQuery.FilterAppend | backend/controllers/userController.js:58-66 | filtering distributes over concatenation |
| ListQuery.ReverseAppend | backend/controllers/userController.js:70 | reversing a concatenation reverses and swaps the parts |
| ListQuery.FilterReverse | backend/controllers/userController.js:58-70 | filtering and newest-first ordering commute |
| ListQuery.ParseInt | backend/controllers/userController.js:52-53 | parseInt on a query text; stated by ParseDecimal and QueryIntFallback |
| ListQuery.QueryInt | backend/controllers/userController.js:52-53 | `parseInt(x) || fallback`; stated by QueryIntFallback and QueryIntNonZero |
| ListQuery.CeilDiv | backend/controllers/userController.js:74 | Math.ceil(total / limit); stated by CeilDivSpec and CeilOfNothing |
| ListQuery.NewestFirst | backend/controllers/userController.js:70 | sort by createdAt descending; stated by NewestFirstSorted and ListPageNewestFirst |
| ListQuery.Matches | backend/controllers/userController.js:58-66 | a record matches when the case-insensitive search occurs in its first name, last name or email; stated by Filter, EmptySearchKeepsAll and SearchIgnoresCase |
| CsvExporter.ExportUsersToCsv | backend/utils/csvExporter.js:22-24 | the fixed header and one row per user, in the order given |
| CsvExporter.HeaderLabels | backend/utils/csvExporter.js:9-20 | the header is ID, First Name, Last Name, Email, Mobile, Gender, Status, Location, Created At, Updated At |
| CsvExporter.RowFollowsColumns | backend/utils/csvExporter.js:9-20 | column i of a row is the record field the i-th column names, and no column is missing |
| CsvExporter.NoProfileImage | backend/utils/csvExporter.js:9-20 | no column is the profile image, and the image does not affect a row |
| CsvExporter.ExportAppend | backend/utils/csvExporter.js:22-24 | the rows of two record lists are the rows of each, in order |
| CsvExporter.Header | backend/utils/csvExporter.js:9-20 | the column labels; stated by HeaderLabels |
| CsvExporter.Row | backend/utils/csvExporter.js:9-20 | one record's cells in column order; stated by RowFollowsColumns and NoProfileImage |
| UserController.IndexOf | backend/controllers/userController.js:98 | the position found holds the id and no earlier one does; none means no record has it |
| UserController.UserStore.constructor | backend/models/User.js:58 | a new store is empty and satisfies the store invariant |
| UserController.UserStore.StoreUpload | backend/controllers/userController.js:28-30 | an uploaded file is added to the files on disk and nothing else changes |
| UserController.UserStore.Insert | backend/controllers/userController.js:32 | the record is appended and the next id advances |
| UserController.UserStore.Create | backend/controllers/userController.js:11-42 | the new store and the answer are those of CreateUser, and the store invariant is kept |
| UserController.UserStore.Update | backend/controllers/userController.js:119-170 | the new store and the answer are those of UpdateUser, and the store invariant is kept |
| UserController.UserStore.Delete | backend/controllers/userController.js:177-203 | the new store and the answer are those of DeleteUser, and the store invariant is kept |
| UserController.CreatePreservesValid | backend/models/User.js:22-29 | a create keeps emails and mobiles unique, records valid and creation order |
| UserController.AppendKeepsInvariant | backend/models/User.js:22-29 | appending a fresh valid record whose email and mobile are free keeps the invariant |
| UserController.UpdatePreservesValid | backend/models/User.js:22-29 | an update keeps emails and mobiles unique, records valid and creation order |
| UserController.FilesAside | backend/controllers/userController.js:143-151 | changing only the files on disk keeps the invariant |
| UserController.ReplaceKeepsInvariant | backend/models/User.js:22-29 | replacing a record by a valid one with the same id and creation time, whose email and mobile no other record has, keeps the invariant |
| UserController.DeletePreservesValid | backend/controllers/userController.js:177-203 | a delete keeps the invariant |
| UserController.RemoveKeepsInvariant | backend/controllers/userController.js:194 | removing one record keeps the invariant |
| UserController.CreateAccepted | backend/controllers/userController.js:11-42 | a create succeeds exactly when the body is valid and neither email nor mobile is taken; the record is appended with a fresh id, the validated fields, the upload path or no image, and both timestamps set to now |
| UserController.CreateInvalid | backend/controllers/userController.js:32-40 | an invalid body is refused with every rule's message and no record is written |
| UserController.CreateDuplicateEmail | backend/controllers/userController.js:32-40 | a taken email is refused with 400 "Email already exists" and no record is written |
| UserController.CreateDuplicateMobile | backend/controllers/userController.js:32-40 | a free email with a taken mobile is refused with 400 "Mobile already exists" |
| UserController.DuplicateKeyResponse | backend/middleware/errorHandler.js:17-21 | a duplicate-key failure on a key is answered 400 with the capitalised key followed by " already exists" |
| UserController.RefusedCreateKeepsUpload | backend/controllers/userController.js:28-40 | a refused create leaves the uploaded file on disk and the records unchanged |
| UserController.CreateThenGet | backend/controllers/userController.js:96-112 | the record a create returns is found by its id afterwards |
| UserController.UnknownId | backend/controllers/userController.js:100-103 | get, update and delete of an unknown id fail with 404 "User not found" and change no record; an update's upload stays on disk |
| UserController.MalformedId | backend/middleware/errorHandler.js:24-27 | get, update and delete of a malformed id change no record and are answered 400 "Invalid _id: <id>" |
| UserController.GetFinds | backend/controllers/userController.js:96-112 | get of a stored id returns that record |
| UserController.UpdateAccepted | backend/controllers/userController.js:128-160 | a successful update replaces only that record: same id and createdAt, new updatedAt, the supplied fields applied; without a file the image is untouched |
| UserController.UpdateReplacesImage | backend/controllers/userController.js:143-151 | an update with a file points the record at the new upload and removes the old image file |
| UserController.RefusedUpdateLosesImage | backend/controllers/userController.js:143-160 | any refused update with a file, by a validation rule or a duplicate key, has already deleted the old image, which the unchanged record still names |
| UserController.AdaValid | backend/models/User.js:8-51 | the sample record is valid |
| UserController.DanglingImageExample | backend/controllers/userController.js:143-160 | a concrete valid store where an update with an empty first name and a file leaves a dangling image path |
| UserController.UpdateDuplicateEmail | backend/controllers/userController.js:153-160 | an update to another record's email is refused with 400 "Email already exists" and changes nothing |
| UserController.UpdateStatusOnly | backend/controllers/userController.js:128-160 | re-sending a record's fields with a new status changes only the status and updatedAt |
| UserController.DeleteRemoves | backend/controllers/userController.js:177-203 | delete removes exactly that record and its image file, and a later get finds nothing |
| UserController.ExportRows | backend/controllers/userController.js:210-219 | an empty store gives 404 "No users found to export"; otherwise one row per record, newest first |
| UserController.ListRequest | backend/controllers/userController.js:50-89 | a list request fails exactly on a negative skip; otherwise it is the page for the page, limit and search read from the query |
| UserController.ListPage | backend/controllers/userController.js:55-84 | a page holds at most the limit's magnitude of records, from position (page-1)*limit of the newest-first matching list; totalRecords counts all matches and totalPages is their ceiling over the limit |
| UserController.ListPageNewestFirst | backend/controllers/userController.js:70 | the records of a page are newest first |
| UserController.FilterChronological | backend/controllers/userController.js:70 | filtering keeps creation order |
| UserController.EmptyStoreListing | backend/controllers/userController.js:74-84 | an empty store lists nothing, with 0 records, 0 pages, page 1 and size 10 |
| UserController.NegativePage | backend/controllers/userController.js:52-55 | a negative page is used as given and ends in a 500 |
| UserController.NegativeLimit | backend/controllers/userController.js:53-74 | a negative limit is used as given: at most its magnitude of records, and no positive page count |
| UserController.NegativeLimitRead | backend/controllers/userController.js:53 | a negative limit parameter is read as that negative number |
| UserController.CreateUser | backend/controllers/userController.js:11-42 | createUser; stated by CreateAccepted, CreateInvalid, CreateDuplicateEmail, CreateDuplicateMobile, RefusedCreateKeepsUpload, CreatePreservesValid and CreateThenGet |
| UserController.GetUserById | backend/controllers/userController.js:96-112 | getUserById; stated by GetFinds, UnknownId, MalformedId and CreateThenGet |
| UserController.UpdateUser | backend/controllers/userController.js:119-170 | updateUser; stated by UpdateAccepted, UpdateReplacesImage, RefusedUpdateLosesImage, DanglingImageExample, UpdateDuplicateEmail, UpdateStatusOnly, UpdatePreservesValid, UnknownId and MalformedId |
| UserController.DeleteUser | backend/controllers/userController.js:177-203 | deleteUser; stated by DeleteRemoves, DeletePreservesValid, UnknownId and MalformedId |
| UserController.ExportToCsv | backend/controllers/userController.js:210-230 | exportToCSV; stated by ExportRows |
| UserController.GetUsers | backend/controllers/userController.js:50-89 | getUsers, from the query to the response; stated by ListRequest, NegativePage and EmptyStoreListing |
| UserController.PageOfUsers | backend/controllers/userController.js:55-84 | the search, sort, skip, limit and page count of getUsers; stated by ListPage, ListPageNewestFirst, ListRequest and NegativeLimit |
| UserRoutes.FirstMatch | backend/routes/userRoutes.js:18-29 | the route chosen handles the request and no earlier route does; none means no route does |
| UserRoutes.Router.constructor | backend/routes/userRoutes.js:2 | a new router has no routes |
| UserRoutes.Router.Register | backend/routes/userRoutes.js:19-29 | registering appends the route after the earlier ones |
| UserRoutes.BuildUserRouter | backend/routes/userRoutes.js:18-29 | the router holds the user routes in registration order |
| UserRoutes.FirstMatchIs | backend/routes/userRoutes.js:18-29 | a matching route with no earlier match is the one chosen |
| UserRoutes.DispatchByDecider | backend/routes/userRoutes.js:18-29 | two tables that decide on the same route dispatch alike |
| UserRoutes.DecidedAtEnd | backend/routes/userRoutes.js:18-29 | a route matched by nothing before it decides the request even when last |
| UserRoutes.DeciderSkips | backend/routes/userRoutes.js:18-29 | a route that does not match does not affect dispatch wherever it stands |
| UserRoutes.MoveToEnd | backend/routes/userRoutes.js:18-29 | a route no other route competes with may be moved to the end |
| UserRoutes.ExportDispatch | backend/routes/userRoutes.js:18-19 | GET /export/csv, in any letter case, dispatches to exportToCSV with no upload |
| UserRoutes.RootDispatch | backend/routes/userRoutes.js:22 | GET / goes to getUsers; POST / goes to createUser after an upload of field profileImage |
| UserRoutes.IdDispatch | backend/routes/userRoutes.js:25-29 | GET, PUT and DELETE on /:id go to get, update (with upload) and delete with the id parameter; POST /:id matches nothing |
| UserRoutes.ExportAndIdDisjoint | backend/routes/userRoutes.js:18-29 | no path matches both /export/csv and /:id |
| UserRoutes.ExportOrderIrrelevant | backend/routes/userRoutes.js:18-29 | registering /export/csv after /:id dispatches every request the same way |
| UserRoutes.Dispatch | backend/routes/userRoutes.js:18-29 | Express's first-match dispatch over the user routes; stated by DispatchByDecider, MoveToEnd, ExportDispatch, RootDispatch, IdDispatch and ExportOrderIrrelevant |
| ClientValidation.Failing | frontend/src/utils/validationSchema.js:7-32 | the messages reported are exactly those of the failing tests |
| ClientValidation.Validate | frontend/src/utils/validationSchema.js:6-35 | every reported error is a message of its field, and no errors exactly when every field passes |
| ClientValidation.ValidateComplete | frontend/src/utils/validationSchema.js:6-35 | every message of every field is reported against that field's path |
| ClientValidation.Shown | frontend/src/utils/validationSchema.js:6-35 | no more errors than fields, each the first message of a failing field |
| ClientValidation.FirstError | frontend/src/utils/validationSchema.js:6-35 | a field shows at most one error, its first message, and none exactly when it passes |
| ClientValidation.ShownComplete | frontend/src/utils/validationSchema.js:6-35 | every failing field shows its first message |
| ClientValidation.ShownEmptyIffValid | frontend/src/utils/validationSchema.js:6-35 | nothing is shown exactly when validation reports no error |
| ClientValidation.ShownAvoids | frontend/src/utils/validationSchema.js:6-35 | no shown error carries a path that no field has |
| ClientValidation.ShownOnePerPath | frontend/src/utils/validationSchema.js:6-35 | with distinct field paths, no two shown errors share a path |
| ClientValidation.UserSchemaDistinct | frontend/src/utils/validationSchema.js:6-35 | the user form names each of its seven fields once |
| ClientValidation.UserSchemaOnePerField | frontend/src/utils/validationSchema.js:6-35 | the user form shows at most one error per field |
| ClientValidation.FailingPair | frontend/src/utils/validationSchema.js:7-10 | two tests report their failing messages in order |
| ClientValidation.FailingOne | frontend/src/utils/validationSchema.js:12 | one test reports its message exactly when it fails |
| ClientValidation.FirstNameRule | frontend/src/utils/validationSchema.js:7-10 | firstName passes exactly when present with at least 2 characters |
| ClientValidation.LastNameRule | frontend/src/utils/validationSchema.js:12 | lastName passes exactly when present and non-empty |
| ClientValidation.EmailRule | frontend/src/utils/validationSchema.js:14-17 | email passes exactly when present, non-empty and an email |
| ClientValidation.MobileRule | frontend/src/utils/validationSchema.js:19-22 | mobile passes exactly when present with exactly ten digits |
| ClientValidation.GenderRule | frontend/src/utils/validationSchema.js:24-27 | gender passes exactly when one of Male, Female, Other |
| ClientValidation.StatusRule | frontend/src/utils/validationSchema.js:29-32 | status passes exactly when one of Active, Inactive |
| ClientValidation.LocationRule | frontend/src/utils/validationSchema.js:34 | location always passes |
| ClientValidation.ValuesOfSchema | frontend/src/utils/validationSchema.js:6-35 | each schema entry reads its own form field |
| ClientValidation.ValidateIff | frontend/src/utils/validationSchema.js:6-35 | the form validates exactly when all seven field rules hold |
| ClientValidation.EmptyFirstName | frontend/src/utils/validationSchema.js:7-10 | an empty first name makes the client report both the length and the required message and show the length message, the server's required message on the server |
| ClientValidation.MobileAgrees | frontend/src/utils/validationSchema.js:19-22 | client and server accept the same mobiles |
| ClientValidation.GenderAgrees | frontend/src/utils/validationSchema.js:24-27 | client and server accept the same genders |
| ClientValidation.StatusRequiredOnlyOnClient | frontend/src/utils/validationSchema.js:29-32 | a missing status is refused by the client but defaulted by the server |
| ClientValidation.PaddedNameOnlyOnServer | frontend/src/utils/validationSchema.js:7-10 | " a " passes the client but the server refuses it as too short |
| ClientValidation.ClientThenServer | frontend/src/utils/validationSchema.js:6-35 | values the client accepts, with trimmed names and a well-shaped email, pass the server's create rules |
| Pagination.Render | frontend/src/components/Pagination.jsx:5-40 | nothing when totalPages ≤ 1; otherwise buttons 1..totalPages, only the current one highlighted, prev to currentPage-1 disabled exactly on page 1, next to currentPage+1 disabled exactly on the last page |
| Pagination.PagesAreOneToN | frontend/src/components/Pagination.jsx:8 | the page buttons are exactly 1..totalPages, ascending |
| Pagination.HighlightIsCurrent | frontend/src/components/Pagination.jsx:23-35 | at most one button is highlighted, and one is exactly when the current page is among the pages |
| Pagination.EnabledInRange | frontend/src/components/Pagination.jsx:13-40 | on a page in range, every enabled control requests a page in 1..totalPages, and every such page can be requested |
| Pagination.PastTheEnd | frontend/src/components/Pagination.jsx:38-40 | past the last page, next stays enabled and requests a page out of range |
| Helpers.GetProfileImageUrl | frontend/src/utils/helpers.js:36-38 | no URL for a missing or empty path; otherwise the base followed by the path |
| Helpers.FormatDate | frontend/src/utils/helpers.js:22-23 | the placeholder for a missing or empty date, otherwise the formatted date |
| Helpers.UrlDeterminesPath | frontend/src/utils/helpers.js:38 | different image paths give different URLs |
| ApiClient.OnFulfilled | frontend/src/services/axiosInstance.js:16 | a successful response passes through unchanged |
| ApiClient.OnRejected | frontend/src/services/axiosInstance.js:17-21 | every failure is rejected with a non-empty message: the server's message when present, otherwise "An unexpected error occurred" |
| ApiClient.ServerMessageReachesPage | frontend/src/services/axiosInstance.js:17-21 | on a JSON request the page sees exactly the message the error handler wrote, or the fallback when it is empty or the handler failed; on a Blob request always the fallback |
| ApiClient.EmptyExportMessageLost | frontend/src/services/userService.js:51-52 | exporting an empty store is answered 404 "No users found to export", but the Blob request makes the page show "An unexpected error occurred" |
| ApiClient.FailureOf | frontend/src/services/axiosInstance.js:17-21 | the message a failed request carries to the page; stated by ServerMessageReachesPage and EmptyExportMessageLost |
| FormData.AppendAll | frontend/src/components/UserForm.jsx:60-62 | appending parts one by one adds them after the existing ones, in order |
| FormData.TextValueSpec | frontend/src/components/UserForm.jsx:60-62 | the value read for a name is that of the first text part with that name, and none exactly when no part has it; the pages never repeat a text name |
| FormData.TextValueAt | frontend/src/components/UserForm.jsx:60-62 | a text part whose name no earlier part has is the value read for that name |
| UserTable.Toggle | frontend/src/components/UserTable.jsx:21 | toggling closes the row when it is the open one and opens it otherwise |
| UserTable.ToggleSpec | frontend/src/components/UserTable.jsx:20-29 | toggleMenu toggles the menu and closes the dropdown; toggleStatus toggles the dropdown and closes the menu |
| UserTable.StepKeepsExclusive | frontend/src/components/UserTable.jsx:14-76 | no action keeps or opens both a menu and a status dropdown |
| UserTable.NeverBothOpen | frontend/src/components/UserTable.jsx:14-76 | from a state with at most one open, every sequence of actions keeps at most one open |
| UserTable.DoubleToggle | frontend/src/components/UserTable.jsx:20-29 | toggling the same row twice closes both popups |
| UserTable.OutsideClickCloses | frontend/src/components/UserTable.jsx:73-76 | an outside click closes both popups and changes nothing else |
| UserTable.DeleteDialog | frontend/src/components/UserTable.jsx:201-222 | choosing Delete opens the dialog on that row and closes the menu; cancel closes the dialog exactly when no delete is in flight |
| UserTable.DeleteInFlightLocked | frontend/src/components/ConfirmDeleteModal.jsx:31-41 | while a delete is in flight, Cancel and Confirm change nothing |
| UserTable.RefreshRemounts | frontend/src/pages/UserListPage.jsx:116-124 | after a successful delete or status change the reloaded table starts closed; a failed status change only closes the dropdown |
| UserTable.StepKeepsInFlightShown | frontend/src/components/UserTable.jsx:57-70 | no action leaves a delete in flight without its dialog |
| UserTable.InFlightAlwaysShown | frontend/src/components/UserTable.jsx:57-70 | from a state where it holds, every sequence of actions keeps a delete in flight on screen in its dialog |
| UserTable.ConfirmDeleteEnds | frontend/src/components/UserTable.jsx:57-70 | confirming without a target or during a delete does nothing; otherwise deleting is set, then cleared with the target whatever the outcome |
| UserTable.FindRow | frontend/src/components/UserTable.jsx:34 | the row found has the id; none means no row has it |
| UserTable.StatusEntriesBody | frontend/src/components/UserTable.jsx:36-44 | the server reads the row's names, email, mobile, gender, its location or "", and the new status |
| UserTable.StatusChangeAccepted | frontend/src/components/UserTable.jsx:36-46 | the status change of a valid row passes the server's update rules with that status |
| UserTable.GenderLabel | frontend/src/components/UserTable.jsx:123 | Male shows as M, Female as F, anything else unchanged |
| UserTable.GenderLabelsDistinct | frontend/src/components/UserTable.jsx:123 | the three genders get distinct labels |
| UserTable.UserTableState.constructor | frontend/src/components/UserTable.jsx:14-17 | everything starts closed |
| UserTable.UserTableState.ToggleMenu | frontend/src/components/UserTable.jsx:20-23 | the state steps by toggleMenu and exclusivity is kept |
| UserTable.UserTableState.ToggleStatus | frontend/src/components/UserTable.jsx:26-29 | the state steps by toggleStatus and exclusivity is kept |
| UserTable.UserTableState.HandleOutsideClick | frontend/src/components/UserTable.jsx:73-76 | the state steps by an outside click |
| UserTable.UserTableState.CloseMenu | frontend/src/components/UserTable.jsx:189-195 | View or Edit closes the menu |
| UserTable.UserTableState.ChooseDeleteRow | frontend/src/components/UserTable.jsx:201 | Delete sets the target and closes the menu |
| UserTable.UserTableState.CancelDeleteDialog | frontend/src/components/ConfirmDeleteModal.jsx:31-36 | cancel clears the target unless a delete is in flight |
| UserTable.UserTableState.BeginConfirmDelete | frontend/src/components/UserTable.jsx:57-61 | a delete request for the target's id is made exactly when there is a target and no delete is in flight |
| UserTable.UserTableState.FinishConfirmDelete | frontend/src/components/UserTable.jsx:62-69 | the list refreshes exactly on success, after which the table starts closed; the dialog ends either way |
| UserTable.UserTableState.HandleStatusChange | frontend/src/components/UserTable.jsx:32-54 | a request with the row's fields and the new status exactly when the row exists; a refresh exactly on success, after which the table starts closed; the dropdown closes either way |
| UserTable.Step | frontend/src/components/UserTable.jsx:14-76 | the menu, dialog and delete state after one event; stated by ToggleSpec, DoubleToggle, OutsideClickCloses, StepKeepsExclusive, DeleteInFlightLocked, RefreshRemounts, StepKeepsInFlightShown, ConfirmDeleteEnds and the UserTableState methods |
| UserTable.StatusEntries | frontend/src/components/UserTable.jsx:36-44 | the form a status change sends; stated by StatusEntriesBody and StatusChangeAccepted |
| UserForm.Get | frontend/src/components/UserForm.jsx:24-33 | a key is read exactly when the object has it |
| UserForm.Overlay | frontend/src/components/UserForm.jsx:24-33 | overriding keeps the base's keys in order |
| UserForm.GetAppend | frontend/src/components/UserForm.jsx:24-33 | a key of two joined objects is read from the first that has it |
| UserForm.GetOverlay | frontend/src/components/UserForm.jsx:24-33 | an overridden key reads the override, any other the base |
| UserForm.GetNewKeys | frontend/src/components/UserForm.jsx:24-33 | the added keys are exactly the override's keys the base lacks |
| UserForm.MergeSpec | frontend/src/components/UserForm.jsx:24-33 | the spread reads every key from the defaults when they have it, otherwise from the blank form, keeping the blank form's key order |
| UserForm.ResetTo | frontend/src/components/UserForm.jsx:38-40 | non-empty defaults replace the values outright; empty ones leave them |
| UserForm.TextPartsAppend | frontend/src/components/UserForm.jsx:60-62 | the text parts of joined values are those of each, in order |
| UserForm.BuildPayload | frontend/src/components/UserForm.jsx:58-66 | the payload is every string value in entry order, then the chosen file |
| UserForm.PayloadShape | frontend/src/components/UserForm.jsx:60-65 | only string values become parts; a chosen file is the last part, and no file part exists without one |
| UserForm.TextValueOfParts | frontend/src/components/UserForm.jsx:60-62 | with distinct keys, the server reads each text field as the form's value |
| UserForm.TextValueSkipsFile | frontend/src/components/UserForm.jsx:63-65 | the appended file does not change any text field read |
| UserForm.ServerReadsForm | frontend/src/components/UserForm.jsx:58-66 | the server's request body is exactly the form's text values |
| UserForm.EditDefaultsDistinct | frontend/src/pages/EditUserPage.jsx:51-60 | the edit defaults have distinct keys |
| UserForm.GetAt | frontend/src/components/UserForm.jsx:24-33 | a key not shared by any earlier property reads that property |
| UserForm.EditDefaultsGet | frontend/src/pages/EditUserPage.jsx:51-60 | each edit default is read back as itself |
| UserForm.EditDefaultsBody | frontend/src/pages/EditUserPage.jsx:51-60 | the edit form's values are the stored record's fields |
| UserForm.UnchangedEditRoundTrip | frontend/src/pages/EditUserPage.jsx:51-60 | submitting a valid record's edit form unchanged passes the client rules, and the server reads it as the record's own fields |
| UserForm.UserFormState.constructor | frontend/src/components/UserForm.jsx:24-33 | the initial values are the blank form overlaid by the defaults, with no preview |
| UserForm.UserFormState.ApplyDefaults | frontend/src/components/UserForm.jsx:37-45 | the values follow the reset rule, and an image default sets the preview to its full URL; it runs for every new defaults object |
| UserForm.UserFormState.ImageChosen | frontend/src/components/UserForm.jsx:48-55 | a chosen image becomes the preview and the values stay |
| UserForm.UserFormState.Submit | frontend/src/components/UserForm.jsx:58-70 | a payload is produced exactly when the client rules pass, and it is the values' payload |
| UserForm.UserFormState.SubmitOnEditPage | frontend/src/pages/EditUserPage.jsx:35-60 | a payload exactly when the client rules pass; then the re-renders reset the form to the stored record and preview the stored image, whatever the server answers; a refused form changes nothing |
| UserForm.EditResetDiscards | frontend/src/components/UserForm.jsx:37-40 | after the edit page's reset the form reads back the stored record, whatever was typed |
| UserForm.EditImageShown | frontend/src/pages/EditUserPage.jsx:59 | the edit defaults carry a truthy image exactly when the record has a non-empty image path |
| UserForm.AllStrTextParts | frontend/src/components/UserForm.jsx:60-62 | when every value is a string, each property becomes one text part, in order |
| UserForm.EditPayloadRepeatsImage | frontend/src/components/UserForm.jsx:58-66 | replacing a stored image sends `profileImage` as text and as a file, yet the server reads the record's own fields |
| UserForm.EditPreview | frontend/src/components/UserForm.jsx:42-44 | a stored image in the edit defaults is previewed at the base URL followed by its path |
| UserForm.Merge | frontend/src/components/UserForm.jsx:24-33 | the given defaults laid over the empty form; stated by MergeSpec and UnchangedEditRoundTrip |
| UserForm.Payload | frontend/src/components/UserForm.jsx:58-66 | the multipart body a submission sends; stated by BuildPayload, PayloadShape, ServerReadsForm, EditPayloadRepeatsImage and UserFormState.Submit |
| UserForm.EditDefaults | frontend/src/pages/EditUserPage.jsx:51-60 | the edit page's defaults from a stored record; stated by EditDefaultsGet, EditDefaultsBody, EditDefaultsDistinct, EditImageShown and UnchangedEditRoundTrip |
| UserListPage.InitialPage | frontend/src/pages/UserListPage.jsx:16-48 | the page starts at page 1 of 1 with 0 records, size 10 and no search, and mounting asks for page 1 of size 10 with no search |
| UserListPage.FetchRequest | frontend/src/pages/UserListPage.jsx:29-33 | every fetch asks for size 10 with the committed search, and raises loading only |
| UserListPage.FetchOutcome | frontend/src/pages/UserListPage.jsx:34-40 | success shows exactly the answer's rows and pagination; failure keeps them; loading ends either way |
| UserListPage.SearchCommits | frontend/src/pages/UserListPage.jsx:46-57 | the committed search is the trimmed input, and page 1 is fetched exactly when that changes the search |
| UserListPage.SearchTwice | frontend/src/pages/UserListPage.jsx:46-57 | searching again without typing fetches nothing |
| UserListPage.EnterIsSearch | frontend/src/pages/UserListPage.jsx:55-61 | Enter behaves exactly like the Search button, other keys do nothing |
| UserListPage.RefreshKeepsPage | frontend/src/pages/UserListPage.jsx:122-123 | a refresh after a status change or delete asks for the current page |
| UserListPage.ExportFlag | frontend/src/pages/UserListPage.jsx:64-75 | exportLoading is set while an export runs and cleared after it; a click while set starts nothing |
| UserListPage.ServerSeesCall | frontend/src/services/userService.js:13-14 | for a page from 1 on, the server reads back the page, size 10 and the search, and answers that page of the listing |
| UserListPage.ListPageState.constructor | frontend/src/pages/UserListPage.jsx:16-26 | the state starts as the initial view |
| UserListPage.ListPageState.SetSearchInput | frontend/src/pages/UserListPage.jsx:24 | typing changes only the search box text |
| UserListPage.ListPageState.BeginFetch | frontend/src/pages/UserListPage.jsx:29-33 | the state and request follow the start of a fetch |
| UserListPage.ListPageState.EndFetch | frontend/src/pages/UserListPage.jsx:34-40 | the state follows the end of a fetch |
| UserListPage.ListPageState.Mount | frontend/src/pages/UserListPage.jsx:46-48 | mounting fetches page 1 |
| UserListPage.ListPageState.HandleSearch | frontend/src/pages/UserListPage.jsx:46-57 | the state and request follow the search step |
| UserListPage.ListPageState.HandleSearchKeyDown | frontend/src/pages/UserListPage.jsx:59-61 | the state and request follow the key step |
| UserListPage.ListPageState.Refresh | frontend/src/pages/UserListPage.jsx:122-123 | the state and request follow a refresh of the current page |
| UserListPage.ListPageState.BeginExport | frontend/src/pages/UserListPage.jsx:64-65 | the state follows the start of an export |
| UserListPage.ListPageState.EndExport | frontend/src/pages/UserListPage.jsx:72-74 | the export flag is cleared |
| UserListPage.MountStep | frontend/src/pages/UserListPage.jsx:46-48 | the first fetch on mount; stated by InitialPage and ListPageState.Mount |
| UserListPage.FetchStart | frontend/src/pages/UserListPage.jsx:29-33 | a fetch sets loading and asks for one page; stated by FetchRequest, RefreshKeepsPage and ListPageState.BeginFetch |
| UserListPage.FetchEnd | frontend/src/pages/UserListPage.jsx:34-40 | a fetch's answer or failure as the page shows it; stated by FetchOutcome and ListPageState.EndFetch |
| UserListPage.SearchStep | frontend/src/pages/UserListPage.jsx:46-57 | the Search button commits the trimmed input and refetches page 1 only when it changed; stated by SearchCommits, SearchTwice and ListPageState.HandleSearch |
| UserListPage.KeyStep | frontend/src/pages/UserListPage.jsx:59-61 | Enter searches and other keys do nothing; stated by EnterIsSearch and ListPageState.HandleSearchKeyDown |
| UserListPage.RefreshStep | frontend/src/pages/UserListPage.jsx:122-123 | a refresh refetches the current page; stated by RefreshKeepsPage and ListPageState.Refresh |
| UserListPage.ExportStart | frontend/src/pages/UserListPage.jsx:64-65 | an export sets the exporting flag; stated by ExportFlag and ListPageState.BeginExport |
| UserListPage.ExportEnd | frontend/src/pages/UserListPage.jsx:72-74 | an export clears the flag whatever its outcome; stated by ExportFlag and ListPageState.EndExport |

## Left out

- MongoDB and Mongoose internals: ObjectId parsing and the query engine are not modelled. Records carry store-assigned numeric ids. A request id is either well-formed (a number) or malformed (raw text that the cast rule rejects).
- The `$regex` search is modelled as a literal substring match with ASCII case folding. Regular-expression metacharacters in a search term are not interpreted.
- The order among records with the same `createdAt` is not fixed by the store. The model lists records in reverse insertion order, which is newest first because creation times never decrease.
- The `skip` error text: the store's refusal of a negative skip is approximated by the fixed message "BSON field 'skip' value must be >= 0" (`UserController.NegativeSkipFailure`). MongoDB's own text also names the value given. Only the status, 500, is stated by a lemma (`UserController.NegativePage`).
- ListQuery.ParseInt: magnitudes beyond JavaScript's safe integer range are exact here, where `parseInt` rounds them to a double. A query parameter given more than once, which Express reads as an array, is not modelled. Signs, the `0x`/`0X` prefix and stopping at the first non-digit (so "1e3" reads as 1) are modelled as `parseInt` does them.
- json2csv quoting, escaping and date rendering: a row is a sequence of typed cells, not text.
- The error stack text is an opaque string carried through the error.
- yup internals: `.email()` is a parameter `isEmail`. Where yup is stricter or looser than the server's pattern, the model does not say.
- The multer upload middleware, `fs.existsSync`, `unlinkSync` and `path.join` are not modelled. Files on disk are a set of `/uploads/<name>` paths, and an upload's file name is a parameter.
- The clock is a `now` parameter of create and update. `Date.now()` in the export file name is left out.
- Concurrency: requests are applied one at a time. `Promise.all`, concurrent writes and the interleaving of asynchronous React handlers are not modelled. Each handler is split at its `await` into a start step and an end step, with the server's outcome as a parameter.
- URL splitting and percent-decoding: a request path arrives as a sequence of already decoded segments.
- FileReader: the data URL of a chosen image is a parameter.
- Toasts, navigation, JSX markup and styling are not modelled.
- `downloadCSV` (Blob and DOM handling) is not modelled. Only the export loading flag is.
- `formatDate` locale formatting is a parameter. Only its empty-input branch is stated.
- axios query-string serialisation is modelled as decimal text of the page and limit plus the search text.
- FormData.TextValueSpec: a form that repeats a text name is read here as its first value. The upload middleware turns a repeated field into an array, which the server's schema then refuses with a cast error. The pages never repeat a text name, so only forms sent from elsewhere differ. The edit page does send `profileImage` twice when a stored image is replaced, once as the stored path in text and once as the file; the server reads only the seven text fields of a user, so the text copy is ignored (`UserForm.EditPayloadRepeatsImage`).
- Common.Lower: `toLowerCase` maps every Unicode capital, while the model folds only the ASCII letters A-Z. Non-ASCII letters are left as they are. The same holds for `Common.UpperChar` and so for `ErrorHandler.Capitalize`: only a-z are upper-cased, which covers the two unique keys, `email` and `mobile`.
- UserModel.NormEmail: emails are lower-cased by `Common.Lower`, so "É@x.co" and "é@x.co" are stored as two emails. JavaScript lower-cases both to "é@x.co", and the second create is refused with "Email already exists".
- UserModel.NormEmailStored: "no upper-case letters" means no ASCII capitals. A non-ASCII capital in an email is neither lower-cased by the model nor excluded by `NoUpper`.
- UserModel.StoredEmailFixed: stated for the ASCII case mapping of `Common.Lower`, with the same gap for non-ASCII capitals.
- UserModel.FirstNameErrors: lengths are counted in Unicode scalar values. JavaScript's `.length`, which `minlength` and yup's `min` use, counts UTF-16 code units, so a character outside the Basic Multilingual Plane counts 2 there and 1 here.
- ClientValidation.FirstNameRule: the same length gap as `UserModel.FirstNameErrors`.
- UserTable.StatusEntriesBody: the `user.location || ""` fallback is stated for the string values the model holds. A stored location is never null in the model, so the `|| ""` only matters for an empty string, which maps to itself.
- UserListPage.ServerSeesCall: stated only for pages from 1 on. The pager never requests page 0. A page 0 sent from elsewhere would be read by the server as page 1.
- The server files outside the user routes (CORS, static files, `listen`), the thin wrappers in `frontend/src/services/userService.js` and the rendering-only components are not modelled.
