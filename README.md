# ApplicationTracker core, in Dafny

A verified model of the core of ApplicationTracker, a Go web service that keeps track of a user's job applications.

- **Job-application record.** Three versions are modelled:
  - `internal/types/jobApplication.go`, the current one, in module `JobApplication`;
  - `types/jobApplication.go`, an older one, in `LegacyJobApplication`;
  - `types/JobApplication.go`, the earliest, in `EarlyJobApplication`.

  A record holds a company, a role, a status and a list of notes. Construction checks the role against the supported set and the status against `Offer` (3). The record supports:
  - a guarded status update;
  - appending a note;
  - index-checked note removal;
  - a textual rendering, built with a loop.

  The records are classes whose methods update their fields in place.
- **In-memory application table** (`FakeStore`). This is a class holding a sequence of application references. Every operation on one company begins with the same first-match search; `ListApplications` returns the table as it is. Creation refuses a duplicate company and otherwise appends. Deletion splices the match out. Status and note updates go to the match in place. The user methods are stubs.
- **Credentials** (`Auth`). Covers the Argon2id parameters and salt (RFC 9106), `SetDefaults`, deriving a key and checking a password against a stored key.
- **User table of the database store** (`UserStore`). A map from username to row. The costs are stored as integers. The salt and the hash are stored as unpadded standard base64 (`Base64`: section 4 of RFC 4648, with padding omitted as section 3.2 allows).
- **Authentication handlers** (`AuthHandlers`). `Register`, `Login` and `Logout` run over the user table and a session state machine. A session has a token, stored values and a count of issued tokens.

Parts of the environment are passed in as parameters:
- **Argon2id key derivation:** an arbitrary total function that returns 32 bytes.
- **Operating system's random source:** the bytes it can supply before it fails, plus its failure message.
- **JSON decoding of `UnmarshalJSON`:** the decoded fields, or the decoder's error.

Go's `uint8`/`uint32` conversions and slice operations are in `Prelude`.

The model follows the code as written, including these behaviours:
- `Login` answers 500, with one of two messages, when either lookup fails, and 401 only when the password does not match. An unknown user therefore does not get a uniform 401.
- `Register` drops the error of `SetDefaults`. When the random source fails, it derives the key with the zero value's empty salt and stores that credential.
- `Login` drops the error of the session manager's `RenewToken` and binds the username anyway (see "## Findings").
- `Logout` drops the error of the session manager's `Destroy` and answers "Logout successful" anyway, with the username still bound (see "## Findings").
- `FakeStore.GetUserArgon2Auth` returns a nil pointer without an error. A `Login` over `FakeStore` would dereference it, so the handler model runs over the database store.

## Model

| member | source | states |
|---|---|---|
| Prelude.ToUint32 | internal/store/store.go:210-211 | `uint32(x)` equals x for in-range x and is always congruent to x modulo 2^32 |
| Prelude.ToUint8 | internal/store/store.go:212 | `uint8(x)` equals x for in-range x and is always congruent to x modulo 2^8 |
| Prelude.RemoveAt | internal/types/jobApplication.go:174 | deleting index i shortens the slice by one; elements before i stay in place and elements after i move down one |
| Prelude.RemoveAtMultiset | internal/store/fakeStore.go:48 | the splice removes exactly the element at i: nothing else is lost or added |
| Prelude.FirstIndex | internal/store/fakeStore.go:25-31 | no index iff the value is absent; otherwise a matching index with no match before it |
| Prelude.DistinctAppend | internal/store/fakeStore.go:34-43 | appending a value that is not present keeps the values pairwise distinct |
| Prelude.DistinctRemoveAt | internal/store/fakeStore.go:45-54 | removing one element from distinct values keeps them distinct and leaves the removed value absent |
| JobApplication.StatusName | internal/types/jobApplication.go:21-34 | the name is "err" exactly for bytes above `MaxStatus` |
| JobApplication.StatusNameInjective | internal/types/jobApplication.go:21-34 | no two valid statuses share a name |
| JobApplication.GetSupportedJobRoles | internal/types/jobApplication.go:43-45 | exactly one supported role, `Software Engineer` |
| JobApplication.Validate | internal/types/jobApplication.go:116-123 | passes iff the role is supported and the status is at most 3; the role error takes precedence when both are wrong |
| JobApplication.QuotedNotesSnoc | internal/types/jobApplication.go:184-186 | one more loop iteration appends a space and the quoted note |
| JobApplication.NotesTextEmpty | internal/types/jobApplication.go:179-190 | the notes render as "[]" iff there are none |
| JobApplication.NotesTextAddNote | internal/types/jobApplication.go:178-193 | after a note is added, the rendering is the old list with that note quoted at the end (space-separated) |
| JobApplication.JobApplication.constructor | internal/types/jobApplication.go:125-130 | the struct literal holds the four given fields |
| JobApplication.JobApplication.UnmarshalJSON | internal/types/jobApplication.go:90-114 | a decode error or a bad role/status is returned with the record unchanged; on success company, role and status are set and notes are kept |
| JobApplication.JobApplication.UpdateStatus | internal/types/jobApplication.go:145-153 | a status above 3 is refused with the record unchanged; otherwise only the status changes |
| JobApplication.JobApplication.AddNote | internal/types/jobApplication.go:159-165 | the note is appended last, nothing else changes, and `NumNotes` grows by one |
| JobApplication.JobApplication.NumNotes | internal/types/jobApplication.go:163-165 | the number of notes the record holds |
| JobApplication.JobApplication.RemoveNote | internal/types/jobApplication.go:167-176 | index >= length gives "index out of range" and a negative index gives "index negative", with no change; otherwise exactly that note is removed |
| JobApplication.JobApplication.String | internal/types/jobApplication.go:178-193 | the loop builds exactly `Describe` of the record: its fields and the quoted, space-separated notes in brackets |
| JobApplication.NewJobApplication | internal/types/jobApplication.go:116-131 | fails with the validation error iff validation fails; otherwise returns a new record holding exactly the four arguments |
| LegacyJobApplication.StatusString | types/jobApplication.go:22-35 | "err" exactly for bytes above `maxStatus` |
| LegacyJobApplication.StatusStringAgrees | types/jobApplication.go:22-35 | this version's status names equal the current ones for every byte |
| LegacyJobApplication.Validate | types/jobApplication.go:77-84 | passes iff the role is in `roles` and the status is at most `maxStatus`; the role is checked first |
| LegacyJobApplication.ValidateAgrees | types/jobApplication.go:77-84 | accepts and refuses exactly what the current version does, with the same messages |
| LegacyJobApplication.JobApplication.constructor | types/jobApplication.go:86-91 | the literal holds the three fields and an empty notes list |
| LegacyJobApplication.JobApplication.UpdateStatus | types/jobApplication.go:106-114 | a status above 3 is refused with no change; otherwise only the status changes |
| LegacyJobApplication.JobApplication.AddNote | types/jobApplication.go:120-126 | the note goes last and `NumNotes` grows by one |
| LegacyJobApplication.JobApplication.NumNotes | types/jobApplication.go:124-126 | the number of notes the record holds |
| LegacyJobApplication.JobApplication.RemoveNote | types/jobApplication.go:128-137 | same bounds checks as the current version; a valid index removes exactly that note and keeps the others in order |
| LegacyJobApplication.JobApplication.String | types/jobApplication.go:139-154 | renders exactly as the current record's `Describe` |
| LegacyJobApplication.NewJobApplication | types/jobApplication.go:77-92 | fails iff validation fails; otherwise returns a new record with empty notes |
| LegacyJobApplication.TwoNotes | types/JobApplication_test.go:79-95 | two notes added to a new valid record are counted as 2 and kept in order |
| EarlyJobApplication.ValidStatuses | types/JobApplication.go:13-19 | the valid statuses are exactly the bytes up to `maxStatus` (Offer), listed in ascending order |
| EarlyJobApplication.Validate | types/JobApplication.go:34-41 | passes iff the role is supported and the status is at most 3, with this version's messages |
| EarlyJobApplication.ValidateAcceptsAsCurrent | types/JobApplication.go:34-41 | accepts exactly what the current version accepts |
| EarlyJobApplication.JobApplication.constructor | types/JobApplication.go:43-48 | the literal holds the three fields and no notes |
| EarlyJobApplication.JobApplication.AddNote | types/JobApplication.go:51-53 | the note goes last and `NumNotes` grows by one |
| EarlyJobApplication.JobApplication.NumNotes | types/JobApplication.go:65-67 | the number of notes the record holds |
| EarlyJobApplication.JobApplication.UpdateStatus | types/JobApplication.go:55-63 | a status above 3 is refused and the status is kept; otherwise it is assigned |
| EarlyJobApplication.NewJobApplication | types/JobApplication.go:34-49 | fails iff validation fails; otherwise returns a new record with empty notes |
| Base64.DecodeEncodeChar | internal/store/store.go:160 | every 6-bit value is decoded back from its alphabet character |
| Base64.EncodeShape | internal/store/store.go:160 | the encoding uses only alphabet characters |
| Base64.GroupsRoundTrip | internal/store/store.go:185 | decoding group by group inverts encoding |
| Base64.RoundTrip | internal/store/store.go:185 | for every byte sequence x, decode(encode(x)) == x |
| Base64.EncodeInjective | internal/store/store.go:168 | different byte sequences have different encodings |
| Base64.GroupsRejectForeignChar | internal/store/store.go:185-188 | newline-free text with a character outside the alphabet fails to decode |
| Base64.GroupsRejectLoneChar | internal/store/store.go:185-188 | text whose length is 1 modulo 4 fails to decode |
| Base64.EncodeToString | internal/store/store.go:160 | the encoding of n bytes has Go's unpadded encoded length |
| Base64.DecodeString | internal/store/store.go:185 | every failure is the corrupt-input error |
| Base64.GroupsAccept | internal/store/store.go:185 | newline-free alphabet text whose length is not 1 modulo 4 decodes |
| Base64.DecodeStringAccepts | internal/store/store.go:185-188 | decoding succeeds exactly when every character other than CR/LF is in the alphabet and the remaining length is not 1 modulo 4 |
| Base64.RejectLoneChar | internal/store/store.go:204-207 | text one character past a whole number of groups is refused |
| Base64.RejectForeignChar | internal/store/store.go:204-207 | any character outside the alphabet other than CR or LF (`=` included) makes decoding fail rather than return part of the value |
| Auth.Argon2Params.HashPassword | internal/auth/auth.go:32-34 | the key is a function of password, salt, time, memory and threads, always 32 bytes |
| Auth.Argon2Params.VerifyPassword | internal/auth/auth.go:36-39 | true only when `expected` equals the re-derived key, so false whenever its length is not 32 |
| Auth.GenerateSalt | internal/auth/auth.go:41-48 | exactly n bytes from the source, or the wrapped error when the source cannot supply them; never a shorter buffer |
| Auth.VerifyOwnHash | internal/auth/auth.go:36-39 | a password verifies against its own hash under the same parameters |
| Auth.VerifyRejectsOtherPassword | internal/auth/auth_test.go:21-25 | a password that derives a different key is rejected |
| Auth.VerifyRejectsOtherParams | internal/auth/auth.go:32-39 | a hash made with parameters that derive a different key is rejected |
| Auth.Argon2Auth.constructor | internal/http/handlers/authHandlers.go:14 | the zero value: all costs 0 and an empty salt |
| Auth.Argon2Auth.FromParams | internal/store/store.go:209-214 | the struct literal holds the given costs and salt |
| Auth.Argon2Auth.SetDefaults | internal/auth/auth.go:18-30 | costs become 65536/1/4 first; on success the salt is the 16 drawn bytes; on failure the error is returned and the salt is unchanged |
| UserStore.HashedPasswordOf | internal/store/store.go:178-191 | a missing username gives "no rows in result set"; an undecodable stored hash gives an error |
| UserStore.Argon2ParamsOf | internal/store/store.go:193-216 | a missing username gives "no rows in result set"; an undecodable stored salt gives an error |
| UserStore.HashedPasswordRoundTrip | internal/store/store.go:156-191 | the stored hash decodes back to exactly the hash written |
| UserStore.Argon2ParamsRoundTrip | internal/store/store.go:156-216 | the stored costs and salt read back as exactly the ones written |
| UserStore.CreateThenGet | internal/store/store.go:156-216 | after a row is written for a username, both getters return what was written, whatever other rows hold |
| UserStore.CorruptColumnRefused | internal/store/store.go:185-207 | a stored hash or salt with a foreign character, or cut to leave a lone final character, makes its getter fail |
| UserStore.StoredColumnsAccepted | internal/store/store.go:185-207 | each getter succeeds on a stored row exactly when its column is well-formed unpadded base64 |
| UserStore.EncodeUser | internal/store/store.go:157-169 | the row keeps email, username and the three costs as integers, and its hash and salt text decode back to the bytes written |
| UserStore.DecodeArgon2Params | internal/store/store.go:204-214 | succeeds iff the salt decodes (else the decoder's error); the costs are the stored integers truncated to `uint32`/`uint8` |
| UserStore.DB.CreateUser | internal/store/store.go:156-176 | inserts the encoded row iff the username is new; otherwise the duplicate-key error with the table unchanged |
| UserStore.DB.GetUserHashedPassword | internal/store/store.go:178-191 | a success is the decoding of the row's stored hash |
| UserStore.DB.GetUserArgon2Auth | internal/store/store.go:193-216 | succeeds iff the row exists and its salt decodes, with a new object holding the decoded parameters; otherwise the error |
| UserStore.DB.UpdateApplicationStatus | internal/store/store.go:103-117 | a status above 3 gives "invalid status value" before any statement; otherwise the update statement's outcome, its error included, is returned |
| FakeStore.CompaniesOf | internal/store/fakeStore.go:26 | the companies of the table, one per entry, in order |
| FakeStore.FakeStore.constructor | internal/store/fakeStore.go:14-18 | the store holds the given applications |
| FakeStore.FakeStore.Find | internal/store/fakeStore.go:25-31 | the search loop finds the index of the first application of the company, or none |
| FakeStore.FakeStore.ListApplications | internal/store/fakeStore.go:20-22 | returns the table as it is |
| FakeStore.FakeStore.GetApplication | internal/store/fakeStore.go:24-32 | the first application of the company, or "application not found" iff there is none |
| FakeStore.FakeStore.CreateApplication | internal/store/fakeStore.go:34-43 | "application already exists" with the table unchanged iff the company is present; otherwise appended last; pairwise distinct companies stay distinct |
| FakeStore.FakeStore.DeleteApplication | internal/store/fakeStore.go:45-54 | exactly the first match is spliced out and the others keep their order; "application not found" with no change otherwise; with distinct companies the company is then absent |
| FakeStore.FakeStore.UpdateApplicationStatus | internal/store/fakeStore.go:56-67 | no match gives "application not found" with nothing changed; otherwise `UpdateStatus` on the first match only, with its error passed on |
| FakeStore.FakeStore.ListApplicationNotes | internal/store/fakeStore.go:69-77 | the notes of the first match, or "application not found" |
| FakeStore.FakeStore.AddApplicationNote | internal/store/fakeStore.go:79-88 | the note is appended to the first match only; the table and every other entry are unchanged |
| FakeStore.FakeStore.RemoveApplicationNote | internal/store/fakeStore.go:90-98 | unknown company, index >= note count, or negative index are refused; otherwise one note leaves the first match only |
| FakeStore.FakeStore.CreateUser | internal/store/fakeStore.go:100-103 | always succeeds |
| FakeStore.FakeStore.GetUserHashedPassword | internal/store/fakeStore.go:105-108 | an empty hash and no error |
| FakeStore.FakeStore.GetUserArgon2Auth | internal/store/fakeStore.go:110-113 | a nil pointer and no error |
| AuthHandlers.Renewed | internal/http/handlers/authHandlers.go:59 | a renewal that goes through gives a token at least the issue count, so never issued before, and advances the count past it; the stored values are kept; a failed one leaves the session as it was |
| AuthHandlers.Session.RenewToken | internal/http/handlers/authHandlers.go:59 | returns the renewal's error, and the session becomes `Renewed` of the old one |
| AuthHandlers.Session.Put | internal/http/handlers/authHandlers.go:60 | the value is stored under its key; the token is kept |
| AuthHandlers.Destroyed | internal/http/handlers/authHandlers.go:70 | a deletion that goes through leaves no token and no values, keeping the issue count; a failed one leaves the session as it was |
| AuthHandlers.Session.Destroy | internal/http/handlers/authHandlers.go:70 | returns the deletion's error, and the session becomes `Destroyed` of the old one |
| AuthHandlers.LogoutStillBound | internal/http/handlers/authHandlers.go:70-72 | when the deletion fails, the username stays bound under the same token |
| AuthHandlers.CheckedLogoutResponse | internal/http/handlers/authHandlers.go:69-77 | with the deletion error checked: "Logout successful" iff the deletion goes through, otherwise 500 |
| AuthHandlers.CheckedLogoutUnbinds | internal/http/handlers/authHandlers.go:70-72 | with the deletion error checked, a successful logout leaves no username and no token, and a 500 leaves the session as it was |
| AuthHandlers.LoginRenewsToken | internal/http/handlers/authHandlers.go:59-60 | a successful login whose renewal goes through binds the username under a token never issued before, so neither the current token nor an earlier one |
| AuthHandlers.LoginFixation | internal/http/handlers/authHandlers.go:59-60 | when renewal fails, a successful login still binds the username, under the client's pre-login token |
| AuthHandlers.CheckedLoginResponse | internal/http/handlers/authHandlers.go:54-62 | with the renewal error checked: 200 iff the password verifies and renewal goes through; otherwise the unchecked answer, or 500 for a failed renewal |
| AuthHandlers.CheckedLoginNoFixation | internal/http/handlers/authHandlers.go:59-60 | with the renewal error checked, a bound username always comes with a token never issued before, and a refused login leaves the session as it was |
| AuthHandlers.RegisteredParams | internal/http/handlers/authHandlers.go:14-16 | the default costs, with the drawn salt, or the empty salt when drawing failed |
| AuthHandlers.LoginResponse | internal/http/handlers/authHandlers.go:42-62 | a hash lookup failure gives 500 whatever the parameter lookup would do; a parameter lookup failure gives 500; 200 iff both succeed and the password verifies; otherwise 401 |
| AuthHandlers.LoginUnknownUser | internal/http/handlers/authHandlers.go:42-46 | an unknown username answers 500 with the no-rows error |
| AuthHandlers.RegisterThenLogin | internal/http/handlers/authHandlers.go:14-23 | after registering, a login with the same password succeeds, whatever the random source did |
| AuthHandlers.LoginWrongPassword | internal/http/handlers/authHandlers.go:54-57 | after registering, a password deriving another key answers 401 |
| AuthHandlers.App.Register | internal/http/handlers/authHandlers.go:9-35 | 201 iff the username is new, storing the credential that produced the hash; otherwise 500 "DB insert failed: ..." with the table unchanged; the session is untouched |
| AuthHandlers.App.Login | internal/http/handlers/authHandlers.go:37-67 | answers as `LoginResponse`; only on 200 is renewal attempted (its error dropped) and the username then stored; otherwise the session is unchanged |
| AuthHandlers.App.LoginChecked | internal/http/handlers/authHandlers.go:37-67 | `Login` with the renewal error checked: answers `CheckedLoginResponse` and binds only after a renewal that went through |
| AuthHandlers.App.Logout | internal/http/handlers/authHandlers.go:69-77 | always answers "Logout successful"; the session becomes `Destroyed` of the old one, so a failed deletion leaves it as it was (the error dropped) |
| AuthHandlers.App.LogoutChecked | internal/http/handlers/authHandlers.go:69-77 | `Logout` with the deletion error checked: answers `CheckedLogoutResponse`, with the session `Destroyed` of the old one |
| AuthHandlers.App.RegisterLoginLogout | internal/http/handlers/authHandlers.go:9-77 | a new user registers (201), logs in (200) and logs out (200); no username is left bound when the deletion goes through, and the username stays bound when it fails |

## Left out

- SQL semantics: `ListApplications` and the other application statements of the database store (`array_append`/`array_remove`, 1-based indexing, the placeholder count). Only the user table and the status guard of `UpdateApplicationStatus` are modelled; the outcome of its update statement (including a connection or query error that `Exec` returns) is passed in and returned unchanged.
- UserStore.DB.CreateUser: the only insert error modelled is a duplicate username. It assumes the schema keys `users` by username; connection failures and other constraint errors are left out. Its message is shortened to "duplicate key value violates unique constraint": the driver's full text adds the "ERROR: " prefix, the constraint's name and the SQLSTATE code 23505, and `Register`'s 500 body carries that full text.
- AuthHandlers.App.Register: the 500 body for a duplicate username is "DB insert failed: " followed by the shortened duplicate-key message above, not the driver's full text.
- UserStore.HashedPasswordOf: the byte offset in the base64 decoder's error message is left out. Only the message prefix is kept.
- Argon2id, `crypto/rand` and `subtle.ConstantTimeCompare` are foreign library calls. They are an arbitrary 32-byte function, a bounded byte source and sequence equality. The comparison's timing independence cannot be expressed.
- JSON encoding and decoding internals (`MarshalJSON`, the `json.Unmarshal` call in `UnmarshalJSON`). `MarshalJSON` writes the status by name while `UnmarshalJSON` reads a number, so no JSON round trip is claimed.
- AuthHandlers.App.Register: a failure to write the response body (500 "failed to write response") is left out, and so is the trailing newline `http.Error` appends. Form parsing, cookies and the logger are left out too.
- AuthHandlers.App.Login: same as `Register` for the response write failure and the logger call.
- AuthHandlers.Session.Destroy: why a deletion fails (the session store cannot delete the token) is reduced to the deletion's outcome, which is passed in.
- AuthHandlers.Session.RenewToken: tokens are numbered by an issue counter rather than drawn at random. The model keeps only that a new token is at least the issue count, so it differs from every earlier one. Why a renewal fails (the store cannot delete the old token, or the random source fails) is reduced to the renewal's outcome, which is passed in.
- Logging, the `fmt.Printf` debug output of `FakeStore.UpdateApplicationStatus`, startup and configuration, routing and the application handlers, and the frontend.
- Concurrency: the handlers are modelled one request at a time, with no concurrent registrations.
- Auth.Argon2Params.HashPassword: the key derivation function is total. Go's `argon2.IDKey` panics when time is below 1 or threads is below 1, and the model does not capture that panic. `Register` never stores such parameters (`RegisteredParams` fixes 1 and 4).
- AuthHandlers.LoginResponse: a stored row with `argon2_time` 0, or with `argon2_threads` congruent to 0 modulo 256 (after the `uint8` conversion), makes Go's `Login` panic when it verifies. For such a row the model answers 200 or 401.
- JobApplication.NewJobApplication: Go keeps the caller's `notes` slice, and `GetNotes`/`ListApplicationNotes` hand the same slice out, so `RemoveNote`'s in-place `slices.Delete` is visible to every holder. The model's notes are sequence values, so this sharing and the in-place shift are not captured. The same applies to `FakeStore.FakeStore.ListApplicationNotes` and to `RemoveNote` in every version.
- FakeStore.FakeStore.DeleteApplication: Go's `append(s[:i], s[i+1:]...)` shifts the shared backing array. The model keeps the new slice value but not that aliasing effect on other holders of the old slice.
- LegacyJobApplication.Validate: the package variables `roles` and `maxStatus` are constants here, since nothing assigns them. The same holds in `EarlyJobApplication`.
- The getters `GetCompany`, `GetRole`, `GetStatus` and `GetNotes` are plain field reads of the classes.

## Findings

| source | as written | input that shows it | evidently intended | confidence | as-written member | corrected member |
|---|---|---|---|---|---|---|
| internal/http/handlers/authHandlers.go:59-60 | the error of `RenewToken` is discarded, and `Put` and the 200 answer follow regardless | a login with the right password while renewal fails (the session store cannot delete the old token, or the random source fails): the answer is 200 "Login successful" and the username is bound under the token the client had before logging in, which is session fixation | a failed renewal answers 500 and binds nothing, so an authenticated session never keeps a pre-login token | not executed; high that the path exists, since the error is visibly dropped | AuthHandlers.LoginFixation | AuthHandlers.CheckedLoginNoFixation |
| internal/http/handlers/authHandlers.go:70 | the error of `Destroy` is discarded, and "Logout successful" with status 200 follows regardless | a logout while the session store cannot delete the token: the answer is 200 "Logout successful", but the token and the bound username are kept, so the client (or whoever holds the token) is still logged in | a failed deletion answers 500, so success is reported only when the session is gone | not executed; high that the path exists, since the error is visibly dropped | AuthHandlers.LogoutStillBound | AuthHandlers.CheckedLogoutUnbinds |
