# manage-template-serve, modelled in Dafny

This project models the core of the office-automation API server
`manage-template-serve`, a Deno/Oak service, and proves properties of the model.
The model covers:

- the SQL that `NoteService` builds for the note list, the partial note update and the note delete;
- the mock list and delete handlers that ship with the generated CRUD page;
- the zod request schemas for notes, users, authentication and CRUD descriptors;
- salt generation and the salted double MD5 of `utils/password.ts`;
- the token envelope of `middleware/auth.ts` (issue, verify, expiry) and the auth middleware;
- the `oa_admin` / `oa_admin_log` tables behind `UserService`;
- the `login`, `register`, `getCurrentUser` and `lock` handlers;
- the CRUD generator `CrudService.createCrud`.

Files and modules:

| file | module | what |
|---|---|---|
| wrappers.dfy | Wrappers | `Option` (for `null` results) and `Result` (for thrown errors) |
| jsvalue.dfy | JsValue | JavaScript values: truthiness, property reads, `Number(text)`, `<` |
| seqs.dfy | Seqs | `Array.prototype.filter` and order-preservation lemmas |
| text.dfy | Text | `join`, `split`, character counts, `replace(/c/g, '')`, `includes` |
| note_query.dfy | NoteQuery | `NoteService.getNoteList`, `updateNote`, `deleteNote` |
| mock_list.dfy | MockList | `templates/crud/mock.ts` |
| zod.dfy | Zod | the zod checks the schemas use, `.optional()`, `.partial()`, coercion, the two regexes |
| note_validator.dfy | NoteValidator | `createNoteSchema`, `updateNoteSchema`, `deleteNoteSchema`, `listNoteSchema` |
| user_validator.dfy | UserValidator | `createUserSchema`, `updateUserSchema`, `getUserQuerySchema` |
| auth_validator.dfy | AuthValidator | `loginSchema`, `registerSchema`, `lockSchema` |
| crud_validator.dfy | CrudValidator | `createCrudSchema` with its per-field messages |
| password.dfy | Password | `generateSalt`, the hex step of `md5`, `setPassword`, `verifyPassword` |
| token.dfy | Token | `generateToken`, `verifyToken`, `authMiddleware` |
| user_store.dfy | UserStore | `UserService` over a table of rows held in a class |
| auth_controller.dfy | AuthController | `getClientIP`, `login`, `register`, `getCurrentUser`, `lock` |
| crud_service.dfy | CrudService | `createCrud` and `createModuleStructure` over a file map |

Several things the program delegates elsewhere become parameters of the model:

- Each of MD5, HMAC-SHA256, base64 and JSON is a function parameter.
  HMAC, base64 and JSON are gathered in `Token.Codec`.
- The shuffle of `Math.random` is an arbitrary permutation.
- The mock `Random` draws are an arbitrary function.
- The clock is an argument in milliseconds or seconds.
- The e-mail test of `.email()` is a predicate parameter `isEmail`.
- The database is a sequence of rows, and the file system a map from paths to text.

## Model

| member | source | states |
|---|---|---|
| NoteQuery.BuildListQuery | src/services/noteService.ts:39-77 | defaults page 1, limit 10, `{}` filters, sort `id DESC`; offset `(page-1)*limit`; the list SQL is the SELECT, the WHERE clause of the conditions and `ORDER BY … LIMIT ? OFFSET ?`; the count SQL has the same WHERE clause; list params are the condition params then limit and offset, the count params exactly the condition params |
| NoteQuery.AddSearch | src/services/noteService.ts:49-54 | the search step adds the one LIKE condition and six `%search%` parameters for a truthy search, and nothing otherwise |
| NoteQuery.AddFilters | src/services/noteService.ts:57-62 | the filter loop adds `key = ?` and the value for exactly the entries whose value is not undefined, null or `''`, in entry order |
| NoteQuery.WhereClause | src/services/noteService.ts:65-69 | the WHERE clause is empty exactly when there are no conditions |
| NoteQuery.SearchConditionPlaceholders | src/services/noteService.ts:50 | the search condition holds exactly six placeholders |
| NoteQuery.SearchParamsIgnoreText | src/services/noteService.ts:49-54 | any two non-empty search texts give the same conditions and the same parameters (all `%search%`) |
| NoteQuery.FilterConditionsSelect | src/services/noteService.ts:57-62 | the filter conditions and their values come from the filter entries in entry order, and an entry contributes exactly when its value is not undefined, null or `''` |
| NoteQuery.ConditionPlaceholders | src/services/noteService.ts:49-66 | with `?`-free filter keys, the WHERE clause holds as many `?` as there are condition parameters |
| NoteQuery.ListPlaceholders | src/services/noteService.ts:43-73 | with `?`-free keys and sort fields, the list SQL holds as many `?` as the list has parameters |
| NoteQuery.FixedTextHasNoPlaceholder | src/services/noteService.ts:43-44 | the SELECT and COUNT texts contain no `?` |
| NoteQuery.OrderPlaceholders | src/services/noteService.ts:72 | the ORDER BY clause holds exactly the two placeholders of LIMIT and OFFSET |
| NoteQuery.TotalPages | src/services/noteService.ts:80-88 | the ceiling of `total/limit`: for a positive limit, `(r-1)*limit < total <= r*limit`; no value for a zero limit |
| NoteQuery.PageStartsWithinTotal | src/services/noteService.ts:80-88 | a page starts before the end of the rows exactly when its number is at most `totalPages` |
| NoteQuery.UpdateStatement | src/services/noteService.ts:93-107 | no UPDATE exactly when every field is undefined; otherwise the last parameter is the id and no other parameter is undefined |
| NoteQuery.UpdateFieldsSelect | src/services/noteService.ts:95-107 | the statement is `UPDATE oa_note SET <items> WHERE id = ?`, the items joined by `, ` being `k = ?` for the entries whose value is not undefined, in entry order (null kept), the parameters those entries' values |
| NoteQuery.UpdatePlaceholders | src/services/noteService.ts:103-107 | with `?`-free keys, the UPDATE holds as many `?` as it has parameters |
| NoteQuery.DeleteNote | src/services/noteService.ts:112-116 | the result is true exactly when some row had the id; the rows left are exactly those with another id |
| MockList.RecordOf | src/templates/crud/mock.ts:16-21 | every generated record has `type` `type1` or `type2` |
| MockList.GenerateData | src/templates/crud/mock.ts:13-24 | exactly `count` records (none for a non-positive count), record `i` made from draw `i`, each of type `type1` or `type2` |
| MockList.NumberOr | src/templates/crud/mock.ts:32-33 | `Number(v) \|\| d`: the default for a missing, non-numeric or zero parameter, otherwise the number |
| MockList.NumberOrDecimal | src/templates/crud/mock.ts:32-33 | a decimal page number reads back as itself; only 0 takes the default |
| MockList.FilterData | src/templates/crud/mock.ts:42-51 | the filtered rows are at most the generated ones, and each is a generated row that matches every non-empty field of the form |
| MockList.FilterDataIsOneFilter | src/templates/crud/mock.ts:42-51 | the three guarded filters in a row equal one filter by the whole search form |
| MockList.FilteredRows | src/templates/crud/mock.ts:42-51 | the filtered rows keep their order, and a row is kept exactly when it matches every non-empty field of the form |
| MockList.GuardedFilter | src/templates/crud/mock.ts:43-51 | a filter with an empty search text keeps every row |
| MockList.SliceIndex | src/templates/crud/mock.ts:55 | `slice` clamps its bounds to the length and keeps an in-range bound |
| MockList.JsSlice | src/templates/crud/mock.ts:55 | a slice holds rows of the data and no more rows than the data has |
| MockList.Page | src/templates/crud/mock.ts:55 | a page holds rows of the data and no more rows than the data has |
| MockList.PageContents | src/templates/crud/mock.ts:55 | a page has at most `pageSize` rows, those from `(current-1)*pageSize` on; it is full exactly when enough rows follow and empty exactly when none do |
| MockList.RowOnItsPage | src/templates/crud/mock.ts:54-55 | every filtered row appears on page `i / pageSize + 1` at position `i % pageSize` |
| MockList.SliceAt | src/templates/crud/mock.ts:55 | entry `k` of a slice is the row `k` places after its start, while that lies before both ends |
| MockList.ListResponse | src/templates/crud/mock.ts:42-60 | the answer is list data whose total is at most the generated count, and whose rows are generated rows matching the form |
| MockList.ListResponsePage | src/templates/crud/mock.ts:32-60 | `ListResponse` unfolded into `Page` of `FilterData` under the handler's readings of `current`, `pageSize` and the form: the step from the query to the page that `ListResponsePageContents` then describes |
| MockList.ListResponsePageContents | src/templates/crud/mock.ts:53-55 | for positive `current` and `pageSize` the listed rows number at most `pageSize`, are the filtered rows from `(current-1)*pageSize` on, form a full page exactly when enough filtered rows follow and are empty exactly when none do |
| MockList.ListHandler | src/templates/crud/mock.ts:29-61 | the answer is the list response over one hundred generated records |
| MockList.DefaultListResponse | src/templates/crud/mock.ts:32-60 | without a query the answer is the first ten records and a total of 100 |
| MockList.DeleteHandler | src/templates/crud/mock.ts:64-69 | any JSON body other than `null` yields the success wrapper with no data, whatever the id |
| Zod.FillTimeShaped | src/validators/noteValidator.ts:14-19 | any fourteen digits in the layout `YYYY-MM-DD HH:mm:ss` are accepted (no calendar check) and read back |
| Zod.TimeShapedIsFilled | src/validators/noteValidator.ts:14-19 | every accepted time is its fourteen digits written into that layout |
| Zod.PartialAcceptsEmpty | src/validators/userValidator.ts:10 | a `.partial()` schema accepts the empty object |
| Zod.PartialAcceptsMore | src/validators/userValidator.ts:10 | what a schema accepts, its `.partial()` accepts too |
| Zod.StricterAccepts | src/validators/noteValidator.ts:3-39 | a schema checked field by field at least as strictly as another accepts no more than it |
| Zod.CoercedDecimal | src/validators/noteValidator.ts:4-5 | a coercing number check reads the decimal text of a number as that number |
| Zod.CoercedFieldDecimal | src/validators/noteValidator.ts:4-5 | a schema whose field coerces accepts the decimal text of a number in that field exactly where it accepts the number |
| Zod.AcceptsSingleField | src/validators/noteValidator.ts:22-39 | an object holding only one field passes a schema whose other fields are optional once that field passes |
| Zod.RejectedByField | src/validators/noteValidator.ts:3-20 | one failing field makes the object schema refuse |
| Zod.AcceptsOptionalField | src/validators/userValidator.ts:12-16 | setting an optional field is accepted exactly when the value passes its check and the object without the field is accepted |
| Zod.StricterExtend | src/validators/noteValidator.ts:3-39 | adding a field with a stricter check on the left keeps one schema field by field at least as strict as the other |
| NoteValidator.CreateStricterThanUpdate | src/validators/noteValidator.ts:3-39 | every create check is at least as strict as the update check of the same field |
| NoteValidator.CreateNoteIsUpdate | src/validators/noteValidator.ts:3-39 | every body the create schema accepts, the update schema accepts |
| NoteValidator.CoercionAcceptsDecimalText | src/validators/noteValidator.ts:3-39 | a numeric field given as decimal text is accepted exactly where the number is |
| NoteValidator.CreateRejectsStatusZero | src/validators/noteValidator.ts:9 | a create body with `status` 0 is refused |
| NoteValidator.UpdateNeedsOnlyId | src/validators/noteValidator.ts:22-39 | for `n >= 1`, `{id: n}` is a valid update but not a valid create |
| NoteValidator.DeleteRejectsText | src/validators/noteValidator.ts:41-43 | delete refuses an `id` given as text |
| NoteValidator.RoleTypeOutOfRange | src/validators/noteValidator.ts:11-30 | a `role_type` other than 0, 1 or 2 is refused by create and by update |
| NoteValidator.ParseListNote | src/validators/noteValidator.ts:45-50 | parsing yields a value exactly when the list schema accepts |
| NoteValidator.ListNoteOutput | src/validators/noteValidator.ts:45-50 | a parsed list request has an integral `current >= 1` (default 1), a `pageSize` in 1..100 (default 10), and every other `params` key unchanged |
| NoteValidator.ListNoteIdempotent | src/validators/noteValidator.ts:45-50 | parsing a parsed request changes nothing |
| NoteValidator.ListNoteRejects | src/validators/noteValidator.ts:46-47 | a `params` given as text, or a fractional `current`, is refused |
| UserValidator.UpdateUserAcceptsCreate | src/validators/userValidator.ts:10 | the empty update is valid, and every valid create is a valid update |
| UserValidator.CreateUserFields | src/validators/userValidator.ts:3-8 | a body is accepted exactly when it is an object with a name of 2..50 characters, an e-mail passing the test, an age that is absent or an integer in 18..100, and a phone that is absent or 11 digits `1[3-9]…` |
| UserValidator.UpdateRejectsNullAge | src/validators/userValidator.ts:6-10 | `age: null` is refused by the update schema |
| UserValidator.UserQueryPage | src/validators/userValidator.ts:13 | a decimal `page` text is accepted exactly when it is at least 1; the same page as a number is refused |
| UserValidator.UserQueryEmpty | src/validators/userValidator.ts:12-16 | the empty query is valid |
| AuthValidator.LoginFields | src/validators/authValidator.ts:3-6 | a login body is accepted exactly when `username` and `password` are non-empty strings |
| AuthValidator.RegisterFields | src/validators/authValidator.ts:8-16 | a body is accepted exactly when it is an object with a non-empty name, an e-mail passing the test, a password of at least 6 characters, a username that is absent or a non-empty string, a mobile and a phone that are absent or strings, and an age that is absent or an integer of at least 1 |
| AuthValidator.RegisterWithUsernameIsLogin | src/validators/authValidator.ts:3-16 | a registration naming a username is a valid login body |
| AuthValidator.RegisterAge | src/validators/authValidator.ts:15 | a numeric `age` is accepted exactly when it is an integer of at least 1 |
| AuthValidator.RegisterAnyMobile | src/validators/authValidator.ts:12-14 | `mobile` and `phone` accept any string, the empty one included |
| AuthValidator.LockFields | src/validators/authValidator.ts:18-20 | a lock body is accepted exactly when `lock_password` is a non-empty string |
| CrudValidator.StringIssues | src/validators/crudValidator.ts:4-22 | at most one issue per string field, none exactly for a non-empty string, each on that field's path |
| CrudValidator.TypeIssues | src/validators/crudValidator.ts:24-27 | at most two issues for `type`, none exactly for an integer at least 0 |
| CrudValidator.NoIssuesIffValid | src/validators/crudValidator.ts:3-28 | no issue exactly when the four names are non-empty strings and `type` is an integer at least 0 |
| CrudValidator.NoIssuesIffAccepted | src/validators/crudValidator.ts:3-28 | the issue list is empty exactly when the schema accepts |
| CrudValidator.IssuePaths | src/validators/crudValidator.ts:3-28 | every issue names one schema field; a non-object gets a single root issue |
| CrudValidator.EmptyTableMessage | src/validators/crudValidator.ts:17 | an empty table is reported as `请输入表名` on path `table` |
| CrudValidator.MissingFieldMessage | src/validators/crudValidator.ts:5-20 | a missing string field is reported with its own "required" message |
| CrudValidator.NegativeFractionType | src/validators/crudValidator.ts:27 | a negative fraction as `type` is reported as not an integer and as negative |
| Password.Shuffle | src/utils/password.ts:6 | the shuffle puts alphabet letter `perm[i]` at position `i` |
| Password.Substr | src/utils/password.ts:7 | `substr` has length `min(length, rest)` (0 for a non-positive length) and copies from `start` |
| Password.GenerateSalt | src/utils/password.ts:4-8 | the salt has `min(num, 26)` characters (none for `num <= 0`), character `i` being the letter the shuffle puts at position `10 + i` |
| Password.Md5 | src/utils/password.ts:11-17 | the text has two hex digits per digest byte and reads back as the digest |
| Password.SetPassword | src/utils/password.ts:20-24 | the stored hash is hex text that reads back as the digest of the first hash followed by the salt |
| Password.VerifyPassword | src/utils/password.ts:27-30 | a stored text is accepted exactly when it is hex text that reads back as the outer digest recomputed from the password and the salt |
| Password.UnHexRoundTrip | src/utils/password.ts:16 | hex text printed from the bytes it reads as is itself |
| Password.SaltShape | src/utils/password.ts:4-8 | a salt has `min(num, 26)` characters (0 for `num <= 0`), pairwise distinct, all `a`–`z` or `0`–`9` |
| Password.AlphabetDistinct | src/utils/password.ts:5 | the salt alphabet has 36 pairwise different characters |
| Password.DefaultSaltLengthIsTen | src/utils/password.ts:4 | the default salt has 10 characters |
| Password.ByteHexDigits | src/utils/password.ts:16 | a byte prints as two hex digits, high nibble first, zero-padded |
| Password.HexShape | src/utils/password.ts:16 | the hex text has two lower-case hex digits per byte |
| Password.ByteHexRoundTrip | src/utils/password.ts:16 | the two digits of one byte read back as that byte |
| Password.HexRoundTrip | src/utils/password.ts:16 | the hex text decodes back to the bytes |
| Password.HexInjective | src/utils/password.ts:16 | different byte strings print differently |
| Password.StoredHashShape | src/utils/password.ts:14-24 | with a 16-byte digest, a stored hash is 32 hex digits |
| Password.VerifyOwnHash | src/utils/password.ts:20-30 | a password verifies against its own salted hash |
| Password.VerifyOnlyOwnPassword | src/utils/password.ts:20-30 | the idealised statement: under a collision-free digest (which no 16-byte digest such as MD5 is), a hash verifies exactly the password it was made from |
| Token.GenerateToken | src/middleware/auth.ts:13-16 | issuing succeeds exactly for a numeric, non-zero user id |
| Token.IssuedTimes | src/middleware/auth.ts:20-27 | `iat` is the current second (`floor(ms/1000)`) and `exp - iat` is 604800 |
| Token.TokenSegments | src/middleware/auth.ts:30-46 | an issued token is three `=`-free segments joined by dots and splits into exactly those three |
| Token.SplitThree | src/middleware/auth.ts:56 | three dot-free segments joined by dots split back into themselves |
| Token.Repad | src/middleware/auth.ts:74 | a re-padded segment is the segment followed by `=` only: two of them as written (`+ '=='`), or as many as reach a multiple of four (fewer than four) in the corrected form |
| Token.RepadRestores | src/middleware/auth.ts:74 | padding an RFC 4648 base64 text with its `=` removed up to a multiple of four gives the text back |
| Token.VerifyToken | src/middleware/auth.ts:54-94 | a token not splitting into three parts is `InvalidFormat`; an accepted token carries a signature segment that decodes, after re-padding, to the HMAC of its first two parts, and an `exp` not before the current second |
| Token.VerifiedUid | src/middleware/auth.ts:105-107 | a user id is read only from a token that verifies (with the corrected padding) |
| Token.IssuedTokenRefused | src/middleware/auth.ts:74 | as written (`signatureB64 + '=='`), with a 32-byte HMAC and a decoder that refuses a length of remainder one modulo four, every issued token is refused as badly encoded, at any time |
| Token.WrongDotCountRejected | src/middleware/auth.ts:56-60 | a token without exactly two dots is refused as malformed whatever else it holds |
| Token.IssuedTokenVerifies | src/middleware/auth.ts:13-94 | with padding restored to a multiple of four, and a codec whose decoder inverts its encoder, an issued token verifies with its payload up to and including its `exp` second, and is refused as expired after |
| Token.IssuedTokenUid | src/middleware/auth.ts:105-108 | with the corrected padding, a token verified before expiry yields the user id it was issued for |
| Token.AuthContext.AuthMiddleware | src/middleware/auth.ts:96-114 | a missing or empty token gives 401 `token不能为空` without `next`; a failing verification gives 401 `非法请求` without `next`; otherwise `JWT_UID` is the token's user id, `next` runs, and a throw from it gives 401 `非法请求` |
| Token.AuthContext.constructor | src/middleware/auth.ts:96 | a fresh context with no body and no `JWT_UID` |
| UserStore.RowObject | src/services/userService.ts:35-37 | the `SELECT *` object of a row holds the hash under `password` and the salt under `salt`, and has no `pwd` key |
| UserStore.OrNull | src/services/userService.ts:18-24 | `v \|\| null` keeps a truthy value and turns a falsy one into null |
| UserStore.OrOne | src/services/userService.ts:25 | `v \|\| 1` keeps a truthy status and turns a falsy one (0 included) into 1 |
| UserStore.InsertedDefaults | src/services/userService.ts:7-28 | missing username, mobile, phone, age become null; a falsy status becomes 1; `is_lock` and `login_num` are 0; the password column holds the salted hash and the salt is stored |
| UserStore.LoggedInEffect | src/services/userService.ts:66-73 | a login sets `is_lock` 0, adds exactly 1 to `login_num`, records time and ip, and changes nothing else |
| UserStore.WithLockEffect | src/services/userService.ts:76-79 | the lock update changes only `is_lock` and `updated_at` |
| UserStore.LoginLookup | src/services/userService.ts:41-63 | a found row is a row of the table whose username, e-mail or mobile is the text |
| UserStore.UserStore.FindById | src/services/userService.ts:34-38 | nothing exactly when no row has the id; a found row is in the table and has the id |
| UserStore.LoginLookupPriority | src/services/userService.ts:41-63 | nothing is found exactly when no row matches by username, e-mail or mobile; a username match wins, then e-mail, then mobile, each time the first matching row |
| UserStore.RowByIdExact | src/services/userService.ts:34-38 | with unique ids, the lookup finds exactly the row with that id, or nothing |
| UserStore.RowByIdFound | src/services/userService.ts:34-38 | a found row carries the id and is a row of the table |
| UserStore.LockUpdated | src/services/userService.ts:77 | rows with the id get the new flag and time; every other row is unchanged |
| UserStore.LoginUpdated | src/services/userService.ts:67-72 | rows with the id get the login effect; every other row is unchanged |
| UserStore.LockUpdatedFind | src/services/userService.ts:76-79 | after the lock update the user's row reads back with the new flag and nothing else changed |
| UserStore.UserStore.constructor | src/services/userService.ts:5 | an empty store |
| UserStore.UserStore.FindByEmail | src/controllers/authController.ts:88 | nothing exactly when no row has the e-mail; a found row is in the table and has the e-mail |
| UserStore.UserStore.FindLogin | src/services/userService.ts:41-63 | the three sequential lookups return the login lookup of the table |
| UserStore.UserStore.CreateUser | src/services/userService.ts:7-31 | appends exactly one row with the next id and the inserted defaults, and returns it |
| UserStore.UserStore.UpdateLoginInfo | src/services/userService.ts:66-73 | the table becomes the login-updated table; logs are unchanged |
| UserStore.UserStore.UpdateLockStatus | src/services/userService.ts:76-79 | the table becomes the lock-updated table; logs are unchanged |
| UserStore.UserStore.CreateAdminLog | src/services/userService.ts:82-97 | one more log row, stamped with the current time instead of the caller's `create_time` |
| AuthController.ClientIp | src/controllers/authController.ts:8-13 | `x-forwarded-for`, else `x-real-ip`, else the connection address, else `unknown`, empty values falling through |
| AuthController.WithoutSecrets | src/controllers/authController.ts:67 | the answer object has no `password` or `salt` key and every other key unchanged |
| AuthController.LoginChecksInOrder | src/controllers/authController.ts:21-50 | unknown user, then wrong password whatever the status, then status other than 1; only the right password with status 1 is accepted |
| AuthController.LoginAsWrittenNeverAccepts | src/controllers/authController.ts:32 | reading the hash from `pwd`, no row is ever accepted |
| AuthController.RegisteredUserCanLogIn | src/controllers/authController.ts:32 | reading the hash from `password` (the column `createUser` writes, src/services/userService.ts:21), a registered user with status 1 logs in with their password |
| AuthController.DecideLogin | src/controllers/authController.ts:21-50 | the chain stops at `NotFound` exactly when the lookup finds nothing; an accepted user is a row of the table with status 1 whose stored hash verifies |
| AuthController.Login | src/controllers/authController.ts:15-81 | reading the hash from the `password` column (not `user.pwd` as line 32 writes it; see Findings): 401 for an unknown user or wrong password, 403 for a status other than 1, each with nothing written; on success exactly one `login` log row for the uid, and a body with the uid, the user without secrets and the token |
| AuthController.RegisterAsWritten | src/controllers/authController.ts:88 | the undefined `getUserByEmail` throws before anything is stored |
| AuthController.Register | src/controllers/authController.ts:83-119 | a taken e-mail gives 400 and stores nothing; otherwise exactly one user row is appended, the next id advances by one, and the answer is 201 with a token for the new id |
| AuthController.RegisteredEmailIsTaken | src/controllers/authController.ts:88-96 | once a registration stored its row, the e-mail lookup finds a user |
| AuthController.GetCurrentUser | src/controllers/authController.ts:121-145 | 404 for an unknown id; otherwise the row without secrets |
| AuthController.CurrentUserHidesSecrets | src/controllers/authController.ts:136-141 | the answer never carries the hash or the salt |
| AuthController.Lock | src/controllers/authController.ts:148-206 | 404 for an unknown user; a non-POST sets `is_lock` 1; POST with an empty or wrong password gives 400 or 401 and leaves the table unchanged; the right password sets `is_lock` 0 |
| AuthController.UnlockWithOwnPassword | src/controllers/authController.ts:163-193 | unlocking with the password the user registered with succeeds |
| CrudService.Workspace.Mkdir | src/services/crudService.ts:60-62 | a recursive mkdir fails only where a file is in the way; an existing directory is fine |
| CrudService.Workspace.ReadTextFile | src/services/templateEngine.ts:6-12 | reading yields the file's text, or fails for a missing file |
| CrudService.Workspace.WriteTextFile | src/services/crudService.ts:75-79 | writing succeeds exactly when the folder exists and the path is not a folder, and sets that one file |
| CrudService.Workspace.constructor | src/services/crudService.ts:52 | a workspace with the given files and folders |
| CrudService.Catalog.Query | src/services/crudService.ts:14-20 | the column query returns the table's columns and is recorded |
| CrudService.Catalog.constructor | src/services/crudService.ts:14-20 | a catalog that has not been asked anything yet |
| CrudService.MakeFolders | src/services/crudService.ts:59-65 | the folders are exactly `MadeFolders` of the old state: each of the three is made in turn until a file is in the way; no error escapes and no file changes |
| CrudService.MadeFolders | src/services/crudService.ts:59-65 | the folders after the recursive mkdirs lie between the old folders and the old folders plus the three module folders |
| CrudService.ReadTemplates | src/services/templateEngine.ts:15-56 | the five template texts when all five exist, else the error naming the first missing template in call order, all templates before it being present |
| CrudService.WriteFiles | src/services/crudService.ts:75-79 | on success the file map is the old one with the five copies and the three folders exist; on failure at write `done` the error names that path, the file map is the old one with exactly the first `done` copies, and that write's folder is missing or its path is a folder; it succeeds whenever the three folders exist and no target is a folder |
| CrudService.CreateCrud | src/services/crudService.ts:6-80 | an empty table fails before the column query with nothing changed, and `TableRequired` arises only then; zero columns fail with no folder or file made, and `NoColumns` arises only then; a missing template fails naming the first missing one in call order and leaves the files unchanged; a failed write at step `done` leaves the old files plus exactly the first `done` template copies; after either of those the folders are `MadeFolders` of the old state; on success the folders are the old ones plus the three module folders, the files are exactly the template copies and the manifest names the module, the five files and `fieldsCount` equal to the number of columns; pre-existing folders cause no failure |
| CrudService.ManifestFiles | src/services/crudService.ts:38-44 | the manifest lists five files |
| CrudService.ManifestMatchesWrites | src/services/crudService.ts:37-79 | each manifest entry is the file written at the same step, relative to the working directory |
| CrudService.ManifestInMainFolder | src/services/crudService.ts:37-44 | every manifest entry lies under `mainFolder` |
| CrudService.BaseDirUnderCwd | src/services/crudService.ts:37-54 | the module folder is `mainFolder` under the working directory |
| CrudService.WrittenPathsDistinct | src/services/crudService.ts:75-79 | the five written paths are pairwise different |
| CrudService.GeneratedFiles | src/services/crudService.ts:75-79 | exactly the five written paths are added or replaced; every other file keeps its text |
| CrudService.GeneratedIsTemplate | src/services/crudService.ts:68-79 | each generated file holds its own template's text |
| CrudService.CopiedAt | src/services/crudService.ts:75-79 | after five copies to different targets each target holds its own text |
| CrudService.CopiedFirstAll | src/services/crudService.ts:75-79 | making the first five of the five copies one by one gives the whole copy |
| CrudService.FoldersAreNotWritten | src/services/crudService.ts:54-79 | no written path is one of the three folders |
| CrudService.TemplatePaths | src/services/templateEngine.ts:19-50 | five template paths, one per generated file |
| CrudService.WrittenPaths | src/services/crudService.ts:75-79 | five target paths, one per template |

## Left out

- AuthController.LoginAsWrittenNeverAccepts: rows written outside `UserService.createUser` (for example by hand, with a `pwd` column) are not representable, because the modelled table has only the columns `createUser` writes; for such rows the check as written could accept.
- The database driver, the connection pool and SQL execution are not modelled. A statement is its text plus its parameters, and a table is a sequence of rows kept in insertion order. Column collation is not modelled either, so MySQL's case-insensitive comparison of usernames and e-mails is out.
- Query order: where the source issues two queries with `Promise.all` (`getNoteList`), the model builds both statements; it does not model the concurrency.
- Note create, `getNoteById` and the note, user and generated controllers are HTTP glue or plain single statements and are not modelled. `userController` calls service functions that `UserService` does not define.
- MD5, HMAC-SHA256, base64 and JSON are function parameters. Their internals are out. What the model needs of them is stated as hypotheses: the encoder pads as section 4 of RFC 4648 says (`PaddedBase64`), the decoder inverts the encoder (`Decodes`), the unpadded text of `n` bytes has 4n/3 characters rounded up (`UnpaddedLength`), HMAC-SHA256 gives 32 bytes (`MacLength`), and the decoder refuses a text whose length has remainder one modulo four (`RefusesRemainderOne`), as `atob` does.
- Token.IssuedTokenVerifies: holds for the corrected padding only (see Findings), and assumes that JSON parse inverts stringify for the issued payload.
- Token.VerifiedUid: the middleware is modelled with the corrected padding; as written it refuses every issued token (`IssuedTokenRefused`).
- The middleware models the effect of `next` only as "ran, and threw or not"; what downstream handlers do is out.
- `console.log(token)` in `login` (src/controllers/authController.ts:53) writes to the console only; it is left out.
- UserStore.UserStore.FindById: compares the id as a value. It does not model MySQL coercing a `JWT_UID` given as text to a number.
- JavaScript numbers are reals, without NaN or infinity; string lengths are counted in characters, not in UTF-16 code units.
- JavaScript values have no arrays: `Number([5])` is 5 under coercion, but an array query or body value is not representable, so coercion of arrays is out.
- `Number(text)` is modelled for optional sign and ASCII digits (and the empty text, which is 0). Other spellings (decimals, exponents, hex, surrounding blanks) count as not a number.
- Randomness: the `Math.random` shuffle is a permutation given as a parameter, and `sort` with a random comparator is taken to produce some permutation. The mockjs `Random` draws are a parameter.
- The clock is a parameter; `NOW()` and `new Date()` are one `now` value per call.
- `.email()` is the predicate parameter `isEmail`.
- `TemplateEngine` returns the template text unchanged, so it is modelled as a copy (`GeneratedIsTemplate`). Its empty helpers have nothing to model.
- `mkdir` is modelled as creating the folder named without its parents. A write checks only its own folder.
- CrudService.CreateCrud: paths are compared as text. `.` and `..` segments are not resolved, so a `module` or `name` such as `../../x` yields a path that the model keeps under `src/gen` as text while the file system would write outside it. GeneratedFiles and ManifestInMainFolder hold for the path strings only.
- The `{success, message, data}` envelopes of `createCrud`, of the CRUD controller and of `successResponseWrap` are reduced to their data. Response bodies of the auth handlers are kept.
- `logout` only answers a fixed message and is not modelled.
- URL parsing of the mock list request is out: the query is its parameter map.
- The mock `generateData` record ids, names and counties are arbitrary text; only the type choice is constrained.

## Findings

| source | as written | input that shows it | evidently intended | confidence | as-written member | corrected member |
|---|---|---|---|---|---|---|
| src/controllers/authController.ts:32 | `login` checks the password against `user.pwd`, but `createUser` stores the hash in the `password` column (src/services/userService.ts:12, 21) and `lock` reads `user.password` (line 176) | any user created by `UserService.createUser` (reached through the user route, src/controllers/userController.ts:8; `register` throws before creating one, see the row for line 88), logging in with the correct password: `pwd` is undefined, the recomputed hash never equals it, and the answer is 401 | compare against `user.password` | medium, not executed (the table schema is not part of the repository) | AuthController.LoginAsWrittenNeverAccepts | AuthController.RegisteredUserCanLogIn |
| src/middleware/auth.ts:74 | `verifyToken` decodes `signatureB64 + '=='` (and `payloadB64 + '=='` at line 86) after `generateToken` stripped every `=` | any token `generateToken` issues: the 32-byte HMAC is 44 base64 characters with one `=`, 43 once stripped, 45 with `==` appended; `atob`-style decoding refuses a length of remainder one modulo four, so `base64Decode` throws and the middleware answers 401 for every token | put back only as many `=` as bring the segment to a multiple of four | medium, not executed (the decoder of std 0.208 `encoding/base64.ts` is not part of the repository) | Token.IssuedTokenRefused | Token.IssuedTokenVerifies |
| src/controllers/authController.ts:88 | `register` calls `UserService.getUserByEmail`, which `UserService` does not define | any registration request: the call throws a TypeError before the e-mail is checked or a user is stored | look the user up by e-mail and refuse a taken address with 400 | high, not executed | AuthController.RegisterAsWritten | AuthController.Register |
