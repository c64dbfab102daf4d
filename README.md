# Job portal: account, job and client-state rules

This project models the request-handling rules of a job-board web application. Job seekers
and recruiters register and log in. Recruiters post jobs, and anyone can search them. The
single-page client keeps the logged-in user, the session token and the company being viewed
in a Redux store.

The model covers four parts:

- The user account handlers (`register`, `login`, `logout`, `updateProfile`), in
  `user_controller.dfy`. The user collection is a table of documents in insertion order,
  held by the class `UserStore`.
- The job handlers (`postJob`, `getAllJobs`, `getJobById`, `getAdminJobs`), in
  `job_controller.dfy`. The job collection is held by `JobStore`.
- The `company` slice of the client store, in `company_slice.dfy`.
- The `auth` slice of the client store and its use of the browser's localStorage, in
  `auth_slice.dfy`.

The supporting modules are these:

- `collections.dfy` holds the table lookups that stand for `findOne`, `findById` and `find`.
- `text.dfy` holds the JavaScript string operations the handlers use: `split`, `trim`,
  `includes`, and case folding.
- `http.dfy` holds the reply shape, JavaScript truthiness of a request field, and what a
  browser does with a `Set-Cookie` header.

Each handler that changes a collection is a method of the store class. Its `ensures` ties the
reply and the new table to a pure outcome function (`RegisterOutcome`, `UpdateOutcome`,
`PostJobOutcome`). The handler's promises are proved about those functions. Read-only handlers
are pure functions. Each reducer is a method on a draft object, whose `ensures` ties it to the
slice's pure `Reduce` function. The lemmas about `Reduce` state the slice's properties.

Library calls the model cannot see are passed in as parameters:

- bcrypt's `hash` and `compare`;
- the JWT `sign`;
- the id and the creation time the database gives a new document.

The outcome of an image upload is an `Upload` value: no file, uploaded, or failed.

Two behaviours of the source are worth knowing. Both are modelled as written.

- `setToken(null)` stores the string "null", because `localStorage.setItem` converts its value
  to a string. After a reload the slice therefore starts with the token "null".
  `AuthSlice.ReduceKeepsInSync` states exactly which actions keep the in-memory token equal to
  the stored one.
- `updateProfile` does not check whether a new email is already taken. Any unique index on the
  user schema is not part of this model. `login` looks at the first user with the email, in the order of insertion as modelled.

## Model

| member | source | states |
|---|---|---|
| `UserController.RegisterOutcome` | backend/controllers/user.controller.js:12-60 | Register replies 201 exactly when all five fields are given, the photo upload did not fail, and no user has the email. On 201 it appends one user, the only one with that email, with the hashed password, the given role, and photo '' when no file was sent. Every 400 (missing field, failed upload, duplicate email, in that order, with the source's messages) leaves the table unchanged. |
| `UserController.UserStore.Register` | backend/controllers/user.controller.js:7-60 | The register handler on the user collection. Its reply and new table are those of `RegisterOutcome`, the id counter advances only on 201, and the id invariant is kept. Because of that invariant, on 201 the lookup by the new id finds the new account. |
| `UserController.RegisterKeepsEmailsUnique` | backend/controllers/user.controller.js:37-55 | Because of the duplicate check, register never creates a second user with an email already in the table, for requests handled one at a time. |
| `UserController.RegisterTwice` | backend/controllers/user.controller.js:37-43 | A second register with the same email after a successful one gets 400 "User already exists with this email", and the table stays as it was. |
| `UserController.RegisterThenFindById` | backend/controllers/user.controller.js:46-164 | When every id in the table is below the one register hands out, the lookup by that id (`findById` in updateProfile) finds the new account at the end of the table. |
| `UserController.Login` | backend/controllers/user.controller.js:75-126 | Login replies 200 exactly when the fields are given, the account exists, bcrypt's compare accepts the password, and the role equals the account's role. An unknown email and a wrong password get the identical 400 "Incorrect email or password". A correct password with another role gets 400 "Account doesn't exist with this role". On 200 it returns the account's view and sets the `token` cookie to the signed id for one day. |
| `UserController.Account` | backend/controllers/user.controller.js:84 | The account login looks at is present exactly when some user has the email. It is then a stored user with that email, the first one in the table, that is the first inserted (see "## Left out" on `findOne`). |
| `UserController.RegisterThenLogin` | backend/controllers/user.controller.js:45-126 | After a successful register, if compare accepts a password against its own hash, logging in with the same email, password and role gives 200 with the new user's view and token. Asking for any other role is refused. |
| `UserController.View` | backend/controllers/user.controller.js:110-117 | The user data sent back carries the id, name, email, phone number, role and profile of the stored user, and not its password hash. |
| `UserController.ViewHidesPassword` | backend/controllers/user.controller.js:110-117 | The user view sent back has no password field. Two users that differ only in their password have the same view. |
| `UserController.Logout` | backend/controllers/user.controller.js:137-145 | Logout replies 200 and sets the `token` cookie to "" with a zero lifetime. A browser that receives the reply holds no token afterwards. Its other cookies are still there, with the values they had. |
| `UserController.LoginThenLogout` | backend/controllers/user.controller.js:119-141 | A browser holds the signed token after a successful login, and holds no token after the logout that follows. |
| `UserController.ParseSkills` | backend/controllers/user.controller.js:202 | The skills string becomes one trimmed entry per comma-separated piece, so there is one more entry than there are commas. |
| `UserController.ParsedSkillsAreTrimmedPieces` | backend/controllers/user.controller.js:202 | Each parsed skill has no comma and no white space at either end. |
| `UserController.ValidEmail` | backend/controllers/user.controller.js:192 | The email passes the check exactly when it contains an '@' and a '.'. |
| `UserController.ResumeAfter` | backend/controllers/user.controller.js:172-188 | With a new upload, the resume and its file name are the upload's URL and original name. Otherwise they are the stored ones, or '' when none is stored. |
| `UserController.Merge` | backend/controllers/user.controller.js:190-205 | Each given (truthy) field replaces the stored one, and every field not given keeps its old value. The skills are parsed, the resume fields are set, and the id, password, role and photo are untouched. |
| `UserController.UpdateOutcome` | backend/controllers/user.controller.js:161-222 | An unknown id gives 404 "User not found". For a known id, a failed resume upload gives 400 "Failed to process resume" with the upload's error, before the email is looked at. Only after that does a given email without '@' or '.' give 400 "Invalid email format". In every one of these cases the table is unchanged and the reply is not a success. Otherwise the table is replaced at that user's position by the merged user, and the reply is 200 with its view. |
| `UserController.UserStore.UpdateProfile` | backend/controllers/user.controller.js:156-222 | The updateProfile handler on the user collection. Its reply and new table are those of `UpdateOutcome`, and the id invariant is kept. |
| `UserController.UpdateKeepsResume` | backend/controllers/user.controller.js:172-205 | When no file is uploaded, the resume and its original name keep their previous values. An absent one is stored as ''. |
| `UserController.UpdateTouchesOneUser` | backend/controllers/user.controller.js:164-207 | An update leaves every other user's document, and the table's length, as they were. |
| `UserController.UpdateIdempotent` | backend/controllers/user.controller.js:190-207 | Sending the same successful update twice leaves the table as sending it once. |
| `JobController.ExperienceLevel` | backend/controllers/job.controller.js:19-30 | 'Entry-Level' maps to level 1, 'Mid-Level' to 2 and 'Senior-Level' to 3. Every other label has no level. |
| `JobController.ExperienceRoundTrip` | backend/controllers/job.controller.js:19-25 | The experience map is one-to-one: a known label maps to a level that maps back to it, and each level 1 to 3 comes from its label. |
| `JobController.PostJobOutcome` | backend/controllers/job.controller.js:9-49 | postJob replies 201 exactly when all nine fields are given and the experience label is known. A missing field or an unknown label gives 400 with its message, and no job is created. The created job is appended with the requirements split on ',' and untrimmed. Its title, description, salary, location, job type and position are the submitted values. Its company is the companyId, its creator is the caller, and its experience level is the label's. |
| `JobController.JobStore.PostJob` | backend/controllers/job.controller.js:4-49 | The postJob handler on the job collection. Its reply and new table are those of `PostJobOutcome`, the id counter advances only on 201, and the id invariant is kept. Because of that invariant, on 201 getJobById for the posted job's id returns that job. |
| `JobController.RequirementsAreCommaPieces` | backend/controllers/job.controller.js:35 | The stored requirements are the comma-free pieces of the submitted string, one more than its commas. Joined with ',' they give the string back. |
| `JobController.SortNewestFirst` | backend/controllers/job.controller.js:78 | The sort by createdAt descending returns a permutation of its input, ordered newest first. |
| `JobController.Listing` | backend/controllers/job.controller.js:76-88 | A listing is 404 "Jobs not found" exactly when no job matches, and never a 200 with an empty list. Otherwise it is 200 with every matching job, counted with multiplicity, ordered newest first. |
| `JobController.GetAllJobs` | backend/controllers/job.controller.js:67-88 | getAllJobs replies 200 or 404. It replies 200 with exactly the jobs whose title or description contains the keyword, ignoring case, each as often as in the table, newest first. It replies 404 "Jobs not found" exactly when none does. |
| `JobController.Keyword` | backend/controllers/job.controller.js:69 | The keyword is the query's keyword when that is given, and "" exactly when it is absent or empty. |
| `JobController.NoKeywordListsEverything` | backend/controllers/job.controller.js:69 | With no keyword, or an empty one (the default ""), every job in a non-empty table is listed. |
| `JobController.GetAdminJobs` | backend/controllers/job.controller.js:122-137 | getAdminJobs replies 200 or 404. It replies 200 with exactly the jobs created by the admin, each as often as in the table, newest first. It replies 404 "Jobs not found" exactly when there are none. |
| `JobController.GetJobById` | backend/controllers/job.controller.js:99-111 | getJobById returns 200 with a job of that id when one exists. An unknown id gives 404 "Job not found". |
| `JobController.AppendedFoundById` | backend/controllers/job.controller.js:99-111 | After a job is appended behind jobs with other ids, getJobById for its id returns 200 with that same job. |
| `JobController.AppendedListedForCreator` | backend/controllers/job.controller.js:122-137 | A job in the collection makes getAdminJobs for its creator return 200, and the job is in the list. |
| `JobController.AppendedFoundByTitle` | backend/controllers/job.controller.js:67-88 | Searching for a job's own title returns 200, and the job is in the results, because a title contains itself ignoring case. |
| `JobController.PostThenFind` | backend/controllers/job.controller.js:32-111 | A job just posted under a fresh id is returned by getJobById. It is also among its poster's admin jobs and among the search results for its title. |
| `JobController.IdsBelowFresh` | backend/controllers/job.controller.js:32-46 | In a table whose ids are all below the next id, no job has that id yet, so a new job's id is fresh. |
| `Text.Split` | backend/controllers/job.controller.js:35 | `split(",")` gives one piece more than there are separators, and no piece contains the separator. |
| `Text.JoinSplit` | backend/controllers/job.controller.js:35 | Joining the pieces of a split with the separator gives the original string back. |
| `Text.Trim` | backend/controllers/user.controller.js:202 | `trim()` leaves no white space at either end. |
| `Text.TrimIsInfix` | backend/controllers/user.controller.js:202 | `trim()` removes white space at the two ends and nothing else. |
| `Text.TrimIdempotent` | backend/controllers/user.controller.js:202 | Trimming twice is the same as trimming once. |
| `Text.Includes` | backend/controllers/user.controller.js:192 | `includes` holds exactly when the needle occurs as a contiguous piece of the string. |
| `Text.IncludesChar` | backend/controllers/user.controller.js:192 | `includes` of a one-character string holds exactly when the character is in the string. |
| `Text.Lower` | backend/controllers/job.controller.js:72-73 | Lowering keeps the length and lowers each character on its own: ASCII capitals become small letters and nothing else changes. |
| `Text.IncludesIgnoringCase` | backend/controllers/job.controller.js:72-73 | The case-insensitive match holds exactly when, at some position, the string spells the keyword up to the case of ASCII letters. |
| `Text.IncludesIgnoringCaseOfKeyword` | backend/controllers/job.controller.js:72-73 | Changing the case of the keyword does not change which strings match it. |
| `Collections.FirstIndex` | backend/controllers/user.controller.js:37 | `findOne` finds the first document that matches the filter, and finds none only when no document matches. |
| `Collections.FirstIndexAppend` | backend/controllers/user.controller.js:46 | Appending a matching document to a table with no match makes that new document the one found. |
| `Collections.Filter` | backend/controllers/job.controller.js:125 | `find` with a filter keeps exactly the matching documents. Each match occurs as often as in the table, and each other document not at all. |
| `CompanySlice.InitialState` | frontend/src/redux/companySlice.js:5-9 | The company slice starts with singleCompany null, companies [] and searchCompanyByText "". |
| `CompanySlice.Reduce` | frontend/src/redux/companySlice.js:11-25 | Each action sets its one field to the payload, and the other two fields are unchanged. |
| `CompanySlice.DetailsIsSingleCompany` | frontend/src/redux/companySlice.js:12-24 | setCompanyDetails has exactly the effect of setSingleCompany. |
| `CompanySlice.ReduceIdempotent` | frontend/src/redux/companySlice.js:12-24 | Applying any setter twice with the same payload gives the state that applying it once gives. |
| `CompanySlice.LastWriteWins` | frontend/src/redux/companySlice.js:12-24 | After any sequence of actions, singleCompany is the payload of the last setSingleCompany or setCompanyDetails. It keeps its old value if there is none. |
| `CompanySlice.CompanyDraft.SetSingleCompany` | frontend/src/redux/companySlice.js:12-14 | The case reducer assigns singleCompany and leaves the other fields. The draft's new state is `Reduce` of the old one. |
| `CompanySlice.CompanyDraft.SetCompanies` | frontend/src/redux/companySlice.js:15-17 | The case reducer assigns companies only. |
| `CompanySlice.CompanyDraft.SetSearchCompanyByText` | frontend/src/redux/companySlice.js:18-20 | The case reducer assigns searchCompanyByText only. |
| `CompanySlice.CompanyDraft.SetCompanyDetails` | frontend/src/redux/companySlice.js:22-24 | The case reducer assigns singleCompany only, as setSingleCompany does. |
| `AuthSlice.StoredToken` | frontend/src/redux/authSlice.js:6 | The starting token is the stored "token" when that entry is present and non-empty, and null otherwise. |
| `AuthSlice.StoredString` | frontend/src/redux/authSlice.js:21 | `setItem` stores a string payload as it is and the payload null as the non-empty string "null". |
| `AuthSlice.InitialState` | frontend/src/redux/authSlice.js:3-7 | The auth slice starts with loading false, user null, and the token read from storage. |
| `AuthSlice.Reduce` | frontend/src/redux/authSlice.js:13-27 | setLoading changes only loading, and setUser changes only user. setToken sets the token and stores String(token) under "token". logout clears user and token, keeps loading, and removes "token" from storage. |
| `AuthSlice.SetTokenThenLogout` | frontend/src/redux/authSlice.js:19-27 | After setToken then logout, the token and the user are null and storage has no "token" key. The rest of storage is unchanged. |
| `AuthSlice.ReduceKeepsInSync` | frontend/src/redux/authSlice.js:6-27 | Every action keeps the in-memory token equal to what a reload would read back, except setToken with a null or empty payload. |
| `AuthSlice.ReloadRestoresToken` | frontend/src/redux/authSlice.js:6-21 | A non-empty token that was set is the token a reload starts with. |
| `AuthSlice.ReloadAfterLogout` | frontend/src/redux/authSlice.js:6-26 | After logout, a reload starts with no token. |
| `AuthSlice.LocalStorage.GetItem` | frontend/src/redux/authSlice.js:6 | `getItem` returns the stored string for a present key and null for an absent one. |
| `AuthSlice.LocalStorage.SetItem` | frontend/src/redux/authSlice.js:21 | `setItem` stores String(value) under the key and leaves every other key as it was. |
| `AuthSlice.LocalStorage.RemoveItem` | frontend/src/redux/authSlice.js:26 | `removeItem` deletes the key and leaves every other key as it was. |
| `AuthSlice.AuthDraft.constructor` | frontend/src/redux/authSlice.js:3-7 | The slice as the app loads: its state is `InitialState` of the storage, and storage is left unchanged. |
| `AuthSlice.AuthDraft.SetLoading` | frontend/src/redux/authSlice.js:13-15 | The case reducer assigns loading only. |
| `AuthSlice.AuthDraft.SetUser` | frontend/src/redux/authSlice.js:16-18 | The case reducer assigns user only. |
| `AuthSlice.AuthDraft.SetToken` | frontend/src/redux/authSlice.js:19-22 | The case reducer assigns the token and writes it to localStorage, and leaves loading and user alone. |
| `AuthSlice.AuthDraft.Logout` | frontend/src/redux/authSlice.js:23-27 | The case reducer nulls user and token, keeps loading, and removes "token" from localStorage. |

## Left out

- The catch-all `catch` blocks that reply 500 are not modelled. They cover database errors, a malformed id that fails to cast, and exceptions thrown by the libraries.
- JobController.PostJobOutcome: the schema's `ValidationError` reply (400 "Validation error") is not modelled, because the job schema is not part of this model.
- JobController.PostJobOutcome: inherited object keys such as "toString" or "constructor" are treated as unknown experience labels. In the source the lookup in `experienceLevelMap` finds an inherited property for these keys instead of `undefined`. The create step then fails on the schema, which is the reply above.
- JobController.PostJobOutcome: `Number(salary)` and `Number(position)` are not modelled, because they are JavaScript floating-point parsing. The job keeps the submitted text.
- JobController.GetAllJobs: the keyword is matched as a literal substring. MongoDB reads it as a regular expression, so a keyword with regex metacharacters can match differently.
- JobController.GetAllJobs: case is folded for ASCII letters only, not with the full Unicode case folding of the regex `i` option.
- JobController.SortNewestFirst: jobs with equal `createdAt` come out in one fixed order. MongoDB leaves the order of ties unspecified. The contract states only newest-first order and the permutation.
- `populate` of the company and the applications is not modelled. Jobs are returned as stored.
- bcrypt hashing and comparison, JWT signing and expiry, and the image upload are not modelled. They are foreign libraries, so they are parameters: `hash`, `compare`, `sign`, and the `Upload` outcome.
- `register` uploads the photo before the duplicate-email check. The upload itself is an external side effect and is not modelled. The order of the error replies is modelled.
- `updateProfile` may upload a resume and then reject the email. That upload is an external side effect and is not modelled.
- Each request is handled as one atomic step. Concurrent requests, which interleave at every `await`, are not modelled, so `RegisterKeepsEmailsUnique` holds for requests handled one at a time: two concurrent registers for one email can both pass the duplicate check before either creates its user.
- When several documents match, `findOne` is modelled as returning the first inserted. MongoDB's natural order does not promise this, and it decides which account `login` uses when two users share an email.
- Document ids are modelled as natural numbers handed out by a counter, not as MongoDB ObjectIds.
- The `req.id` set by the authentication middleware is taken as given. The middleware is not part of this model.
- AuthSlice.StoredString: token payloads are modelled as strings or null only. `setToken()` or `setToken(undefined)` would store the string "undefined", and `String` turns any other non-string payload into its own text; neither is modelled.
- Request fields are modelled as strings or absent. Non-string JSON values and their truthiness are not modelled.
- Cookie attributes other than name, value and maxAge (`httpOnly`, `sameSite`) are not modelled.
- `console.log` and `console.error` calls are not modelled.
- The data-fetching hooks (`useGetAllJobs`, `useGetCompanyById`, `useGetAllAdminJobs`) are not modelled. They are network calls inside React effects and have no logic of their own.
- Redux's action dispatch and immer's copy-on-write drafts are not modelled. The reducer is the pure `Reduce`, and each case reducer is a method on a draft object.
- Companies and client-side users are values of an arbitrary type, because the slices store whatever payload they are given.
