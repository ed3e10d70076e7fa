# Memories journal: a verified model of the write path and the page rules

Memories is a journaling application: a user writes one entry per day. An entry has a title, a text, audio or video content, a thumbnail, snapshots, a mood and a productivity rating. An Express and Mongoose back end stores the entries, with media uploaded through multer and Cloudinary, and a React front end shows them. This project models the rules of that code in Dafny and proves properties about them.

- **Backend, entry validation** (`ValidationUtil`, `JournalController`). The chain of guards answers with the first failing reason. The model keeps the two source quirks as written:
  - the past-date guard compares a `Date` with a string, so it never fires;
  - the utility never inspects a mood sent as a string, while the controller's own copy always parses it.
- **Backend, storing an entry** (`JournalController`, `JournalModel`). The handler picks the thumbnail, the snapshots and the content, then upserts into a store keyed by (user, date). `getAllJournal` lists one user's entries. `Journal.js` supplies the entry record, its defaults and its validity predicate.
- **Backend, remote asset cleanup** (`CloudinaryCleanup`). This covers public-id derivation and the ordered list of destroy calls, with each failing call swallowed.
- **Backend, local upload cleanup** (`ServerUploads`). A nested loop deletes uploaded temp files and stops at the first failed unlink.
- **Backend, upload admission** (`UploadMiddleware`). This covers the MIME allow-list, the per-field counts, the size limit, the destination and the stored file name.
- **Backend, authentication** (`AuthMiddleware`, `AuthController`, `UserModel`):
  - the `protect` gate over the `Authorization` header;
  - registration and login over a user collection;
  - `verifyUser`;
  - the user record and its unique email.
- **Frontend** (`MemoryPage`, `CalendarModal`, `JournalEntryForm`, `JournalPage`, `Dashboard`):
  - the slideshow index;
  - the calendar's tile and confirm rules;
  - the recording flags and photo list of the entry form;
  - the legacy journal page's submit rule;
  - the dashboard's paginated accumulator.

The database, Cloudinary, bcrypt, jwt, `fs`, the clock and randomness are parameters:
- an entry map and a user sequence;
- a set of remote assets with a set of failing calls;
- a set of files with a set of paths whose unlink fails;
- a hash function and a match relation;
- a verify function;
- today's date and the filename's time and random number.

Each module is one source file. Pure code is written as functions with lemmas. Code that changes state is a class whose methods state their new state through those functions: `JournalStore`, `AssetStore`, `FileSystem`, `UserStore`, `Exchange`, and the page components `Page`, `Modal`, `Form` and `Board`. `Wrappers` holds `Option`. `Text` holds the string helpers:
- JavaScript's `split`, `trim` and `Number()`;
- decimal digits and padding;
- their lemmas.

Three facts of the code shape the model:
- login does not check a "verified" flag, and the user record has no such field;
- `getAllJournal` filters by `req.user._id`;
- `User.js` declares no `password` path, so Mongoose's strict mode drops the hash that `registerUser` passes to `new User` (see Findings). `AuthController.Register`, `AuthController.UserStore.RegisterUser` and `UserModel.NewUser` model the intended registration, with the hash stored under `password`; the login lemmas and the handler methods build on them. `AuthController.RegisterAsWritten` and `UserModel.NewUserAsWritten` model the code as written, where the hash is lost.

## Model

| member | source | states |
|---|---|---|
| ValidationUtil.FirstFailure | backend/src/utils/journalValidation.js:9-40 | The reference reading of a guard chain. No reason exactly when every guard holds. Otherwise the reason of a failing guard that all earlier guards passed. |
| ValidationUtil.LeadingChecksAreFirstFailure | backend/src/utils/journalValidation.js:9-33 | The five leading guards (date, title, content type, past date, rating) answer, in that order, with the first failing reason. |
| ValidationUtil.JournalValidationPassesIff | backend/src/utils/journalValidation.js:9-43 | Validation passes iff every leading guard holds and the mood, when it is inspected, parses to a value whose emoji and label are not "". |
| ValidationUtil.MissingDateFirst | backend/src/utils/journalValidation.js:9-11 | A missing or empty date fails with "Journal entry date is required", whatever else is missing. |
| ValidationUtil.LaterGuardReasons | backend/src/utils/journalValidation.js:13-33 | With a date present: a missing title gives "Title is required" whatever else is missing. Then a missing content type gives "Content and its type are required". Then a falsy rating gives "Productivity rating is required". |
| ValidationUtil.IsoDayIsNaN | backend/src/utils/journalValidation.js:22-23 | A "YYYY-MM-DD" string converts to NaN, so `date < today` is false for every date value. |
| ValidationUtil.NeverPastDate | backend/src/utils/journalValidation.js:22-29 | "Cannot add or update journals for past dates" is never returned. |
| ValidationUtil.FailureReasons | backend/src/utils/journalValidation.js:9-40 | Every failing reason is one of the five reachable ones. |
| ValidationUtil.StringMoodIgnored | backend/src/utils/journalValidation.js:35-40 | A mood sent as a string gets the same verdict as no mood, and never "Mood is required". |
| JournalController.JournalEntryValidation | backend/src/controllers/journalController.js:4-44 | The controller's copy passes only if date, title, content type and rating are truthy and the mood parsed to a value. |
| JournalController.ValidatorsAgreeOnSharedGuards | backend/src/controllers/journalController.js:12-36 | When a shared guard fails, both copies give the same reason. |
| JournalController.ValidatorsDivergeOnMood | backend/src/controllers/journalController.js:38-41 | A string mood with an empty emoji or label passes the utility and fails the controller. A missing mood passes the utility and throws in the controller. |
| JournalController.ContentFor | backend/src/controllers/journalController.js:79-89 | Types other than text, audio/webm and video/webm are rejected. Text takes the body's payload. A media type takes the first uploaded contentPayload file's path. |
| JournalController.ApplyUpdate | backend/src/controllers/journalController.js:94-102 | The `$set` writes every field. Undefined snapshots leave the stored list as it was. The user and date stay the same. |
| JournalController.Upsert | backend/src/controllers/journalController.js:92-110 | The key is updated, or inserted from the schema defaults. No other entry changes. Keys are only added. Each entry stays under its own (user, date). |
| JournalController.UpsertMessage | backend/src/controllers/journalController.js:113-116 | "Journal added successfully" exactly when createdAt equals updatedAt, otherwise "Journal updated successfully". |
| JournalController.AddOrUpdateJournal | backend/src/controllers/journalController.js:47-123 | The handler's new store and reply are those of the submission function. |
| JournalController.RejectedWritesNothing | backend/src/controllers/journalController.js:61-122 | A submission that is not answered with 200 leaves the store unchanged. Every reply is 200, 400 or 500. |
| JournalController.ValidationGatesEverything | backend/src/controllers/journalController.js:59-67 | A failed validation gives 400 with its reason and no write. A mood that does not parse gives no reply at all. |
| JournalController.UnknownContentTypeRejected | backend/src/controllers/journalController.js:87-89 | An unknown content type gives 400 "Invalid content type" and no write. |
| JournalController.WriteFields | backend/src/controllers/journalController.js:69-102 | A write stores the first thumbnail's path or the placeholder. It stores the snapshot paths in upload order, written as undefined when there are none. It stores the content and the numeric rating. |
| JournalController.AcceptedStores | backend/src/controllers/journalController.js:92-118 | The reply is 200 iff the handler reaches the upsert. The reply then carries the stored document under its key. |
| JournalController.StoredDocument | backend/src/controllers/journalController.js:92-110 | After a write, the key holds the previous or default document overwritten by the submitted fields. |
| JournalController.AlwaysReportsAdded | backend/src/controllers/journalController.js:113-118 | The schema has no timestamps, so every accepted submission, including an update, reports "Journal added successfully". |
| JournalController.SubmitKeepsKeyed | backend/src/controllers/journalController.js:92-93 | Every entry stays stored under its own user and date. |
| JournalController.MediaEntryBreaksSchema | backend/src/controllers/journalController.js:79-97 | A stored audio/webm or video/webm entry violates the schema's content-type enum. |
| JournalController.TextEntryMeetsSchema | backend/src/controllers/journalController.js:80-102 | A text entry with a payload, a complete mood and a rating in 1..10 meets the schema. |
| JournalController.SubmitAllKeys | backend/src/controllers/journalController.js:92-110 | After any run of submissions, the keys are the old ones plus keys of the submissions. |
| JournalController.LatestSubmissionWins | backend/src/controllers/journalController.js:92-110 | Take an accepted submission with no later accepted one for its key. What it stored is what the store holds at the end. |
| JournalController.OthersLeaveKey | backend/src/controllers/journalController.js:92-110 | Submissions that do not write a key leave that key's entry as it was. |
| JournalController.GetAllJournal | backend/src/controllers/journalController.js:125-131 | The listing succeeds iff a user is attached and the store answers. It holds exactly that user's entries. |
| JournalModel.InsertBase | backend/src/models/Journal.js:28-43 | A newly inserted entry has the placeholder thumbnail, no snapshots and rating 5, with its key and nothing else set. |
| JournalModel.InsertBaseIncomplete | backend/src/models/Journal.js:4-53 | The defaults alone do not meet the required paths, and the default rating lies in 1..10. |
| UploadMiddleware.Lookup | backend/src/controllers/journalController.js:69-81 | `req.files[field]` is absent iff no field has that name, and otherwise is that field's file list. |
| UploadMiddleware.FilePaths | backend/src/controllers/journalController.js:73-77 | The paths of a file list, one per file, in upload order. |
| UploadMiddleware.Destination | backend/src/middleware/multerCloudinaryMiddleware.js:16-17 | The destination is /tmp exactly when VERCEL is "1". |
| UploadMiddleware.MaxCount | backend/src/middleware/multerCloudinaryMiddleware.js:53-57 | thumbnail 1, snapPhotos 5, contentPayload 1, and no other field is accepted. |
| UploadMiddleware.FileFilter | backend/src/middleware/multerCloudinaryMiddleware.js:38-51 | A file is accepted iff its MIME type is image/png, image/jpeg, image/jpg, video/webm or audio/webm, and is otherwise rejected with "Invalid file type". |
| UploadMiddleware.LastIndexOf | backend/src/middleware/multerCloudinaryMiddleware.js:30 | The last occurrence of a character, or none iff it does not occur. |
| UploadMiddleware.Extname | backend/src/middleware/multerCloudinaryMiddleware.js:30 | The extension is empty or a suffix of the name that starts with its only dot and holds no slash. |
| UploadMiddleware.ExtnameEmptyIff | backend/src/middleware/multerCloudinaryMiddleware.js:30 | The extension is empty iff the last segment has no ".", its last "." is its first character, or it is "..". Otherwise it runs from that last "." to the end. |
| UploadMiddleware.ExtnameOfName | backend/src/middleware/multerCloudinaryMiddleware.js:30 | A bare name `stem.ext`, where the stem is not all dots and ext has no ".", has the extension ".ext", so the stored name keeps it. |
| UploadMiddleware.StoredFilenameShape | backend/src/middleware/multerCloudinaryMiddleware.js:26-31 | The stored name starts with fieldname and "-" and ends with the original extension. The part between splits on "-" into exactly two decimal numerals, which read back as the time and the random number. |
| UploadMiddleware.StoredFilenameInjective | backend/src/middleware/multerCloudinaryMiddleware.js:26-31 | For one field and extension, equal names imply an equal time and random number. |
| UploadMiddleware.Admit | backend/src/middleware/multerCloudinaryMiddleware.js:36-57 | A request is admitted iff no file has an error (count, type or size). |
| UploadMiddleware.AdmitIff | backend/src/middleware/multerCloudinaryMiddleware.js:36-57 | A request is admitted iff each file is on a known field, that field's count stays within its maximum, its type is allowed and its size is at most 50 MiB. |
| CloudinaryCleanup.PublicIdShape | backend/src/utils/deleteCloudinaryResource.js:29-31 | The id is the folder followed by a piece of the URL's last segment that holds no "/" and no ".". |
| CloudinaryCleanup.PublicIdOfAssetUrl | backend/src/utils/deleteCloudinaryResource.js:37-39 | For `base/name.ext` or `base/name`, the id is folder + name. |
| CloudinaryCleanup.SnapshotCalls | backend/src/utils/deleteCloudinaryResource.js:35-42 | One image destroy per snapshot URL, in stored order, under the snapshots folder. |
| CloudinaryCleanup.CleanupPlanCount | backend/src/utils/deleteCloudinaryResource.js:25-52 | The plan has the thumbnail call (0 or 1), the snapshot calls and the content call (0 or 1). It throws iff the entry has no content. |
| CloudinaryCleanup.CleanupPlanOrder | backend/src/utils/deleteCloudinaryResource.js:25-52 | The order is thumbnail first, then the snapshots in order, then the content. |
| CloudinaryCleanup.OnlyContentIsVideo | backend/src/utils/deleteCloudinaryResource.js:44-52 | The only video call is the last one, made exactly when the content is a non-text, non-empty payload. |
| CloudinaryCleanup.PlaceholderNeverDestroyed | backend/src/utils/deleteCloudinaryResource.js:22-33 | A thumbnails-folder call is made iff the thumbnail is non-empty and not the placeholder. |
| CloudinaryCleanup.AfterAllRemoves | backend/src/utils/deleteCloudinaryResource.js:4-11 | After a run of best-effort destroys, exactly the assets named by non-failing calls are gone. |
| CloudinaryCleanup.DeleteCloudinaryResource | backend/src/utils/deleteCloudinaryResource.js:3-12 | One call is sent, with resource type image by default. The asset goes unless the call fails, and a failure is swallowed. |
| CloudinaryCleanup.DestroySnapshots | backend/src/utils/deleteCloudinaryResource.js:35-42 | The loop sends the snapshot calls in order, with their combined effect. |
| CloudinaryCleanup.CleanupCloudinaryJournalData | backend/src/utils/deleteCloudinaryResource.js:14-55 | The calls sent are the plan's, the assets are what the plan leaves, and it throws iff the plan does. |
| ServerUploads.AllPathsFieldByField | backend/src/utils/cleanupServerUploads.js:5-6 | Paths are visited field by field, in list order within each field. |
| ServerUploads.CleanupRunShape | backend/src/utils/cleanupServerUploads.js:3-14 | The unlinked paths are a prefix of the list, and exactly those leave the file set. The run completes iff all are unlinked. Otherwise the next path could not be unlinked. |
| ServerUploads.OnlyListedRemoved | backend/src/utils/cleanupServerUploads.js:8 | Only listed paths are removed, and nothing is added. |
| ServerUploads.CompletedRemovesAll | backend/src/utils/cleanupServerUploads.js:5-10 | A completed run removes every listed path. |
| ServerUploads.CleanWalkCompletes | backend/src/utils/cleanupServerUploads.js:5-10 | When every distinct listed path can be unlinked, the run completes. |
| ServerUploads.AbortLeavesLaterFiles | backend/src/utils/cleanupServerUploads.js:3-14 | A path that cannot be unlinked stops the run there, and it and every later path are left in place. |
| ServerUploads.FileSystem.Unlink | backend/src/utils/cleanupServerUploads.js:8 | Unlink succeeds iff the file exists and is not protected, and removes just that file. |
| ServerUploads.CleanupServerUploads | backend/src/utils/cleanupServerUploads.js:2-15 | The loops reach the file set of the reference run, report completion as it does, and never throw. |
| UserModel.NewUser | backend/src/models/User.js:4-21 | A user is created iff name and email are present, with age 0, both timestamps "now" and the given hash. |
| UserModel.NewUserAsWritten | backend/src/models/User.js:4-21 | Created under the same condition, but with no password, because the schema does not declare one. |
| UserModel.FindByEmail | backend/src/controllers/authController.js:11 | `findOne({email})` gives the first user with that email, or none iff no user has it. |
| UserModel.FindByEmailUnique | backend/src/models/User.js:10-14 | With unique emails, a user's email finds that very user. |
| UserModel.FindById | backend/src/middleware/authMiddleware.js:20 | `findById(...).select("-password")` gives the user with that id without its password, or none iff no user has it. |
| AuthController.RegisterOutcome | backend/src/controllers/authController.js:6-35 | Registration answers 201 iff the collection changes. It then appends exactly one record with hash(password), never the plaintext, age 0 and both timestamps "now". Any other answer is 400 "User already exists" or 500 "Server error". |
| AuthController.DuplicateEmailRefused | backend/src/controllers/authController.js:11-15 | An existing email gives 400 "User already exists" and changes nothing. |
| AuthController.RegisterKeepsValid | backend/src/controllers/authController.js:11-29 | Registration keeps the user collection valid: required fields, unique emails, unique ids. |
| AuthController.RegisterKeepsValidUnique | backend/src/controllers/authController.js:11-29 | A successful registration adds one record under the registered email, and emails stay unique. |
| AuthController.SameRefusalForBothCauses | backend/src/controllers/authController.js:43-54 | An unknown email and a wrong password both give 400 "Invalid credentials". |
| AuthController.LoginSuccessShape | backend/src/controllers/authController.js:56-69 | A successful login signs {id, email, name} for "1h" and returns only the name and email. |
| AuthController.RegisterThenLogin | backend/src/controllers/authController.js:17-69 | After a registration, logging in with the same email and password succeeds. |
| AuthController.LoginAfterRegisterAsWrittenFails | backend/src/models/User.js:4-21 | With the hash dropped as the schema is written, the same login answers 500 "Server error". |
| AuthController.VerifyUser | backend/src/controllers/authController.js:75-87 | `verifyUser` answers 200 with exactly the user's name and email, or 500 when no user is attached. |
| AuthController.UserStore.RegisterUser | backend/src/controllers/authController.js:6-35 | The handler's new collection and reply are those of the registration function. |
| AuthController.UserStore.LoginUser | backend/src/controllers/authController.js:38-73 | The handler's reply is that of the login function, and it changes nothing. |
| AuthMiddleware.Token | backend/src/middleware/authMiddleware.js:14 | A token exists iff the header splits on " " into at least two pieces. |
| AuthMiddleware.TokenOfBearer | backend/src/middleware/authMiddleware.js:14 | The token of "Bearer t" is t. |
| AuthMiddleware.NoTokenIff | backend/src/middleware/authMiddleware.js:8-11 | The answer is "Not authorized, no token" iff the header is missing or does not start with "Bearer". |
| AuthMiddleware.BearerDecision | backend/src/middleware/authMiddleware.js:12-26 | For "Bearer t": a verify failure or a throwing lookup gives "Not authorized, token failed". Otherwise the request passes with the looked-up user. |
| AuthMiddleware.PrefixWithoutSpace | backend/src/middleware/authMiddleware.js:10-17 | "Bearer" followed by text without a space passes the prefix test and ends in "Not authorized, token failed". |
| AuthMiddleware.MissingUserPasses | backend/src/middleware/authMiddleware.js:20-23 | A valid token for a missing user still passes, with no user attached. |
| AuthMiddleware.ProtectRequest | backend/src/middleware/authMiddleware.js:4-30 | A denial answers 401 with its message and does not call next. A pass attaches the user and calls next exactly once. |
| MemoryPage.SlidesStayInRange | frontend/src/pages/Memory.jsx:57-67 | Next and prev stay in [0, n), and each undoes the other. |
| MemoryPage.SlidesAreModular | frontend/src/pages/Memory.jsx:57-67 | Next is i+1 mod n, and prev is i-1 mod n. |
| MemoryPage.AdvanceCycles | frontend/src/pages/Memory.jsx:57-61 | n presses of next return to the starting slide. |
| MemoryPage.Page.LoadJournal | frontend/src/pages/Memory.jsx:40-56 | The entry is fetched iff its date is listed, and an unlisted date changes nothing. A failure shows the error and clears the entry. Loading ends false either way. |
| MemoryPage.Page.Next | frontend/src/pages/Memory.jsx:57-61 | The slide becomes NextSlide of the old one, and nothing else changes. |
| MemoryPage.Page.Prev | frontend/src/pages/Memory.jsx:63-67 | The slide becomes PrevSlide of the old one, and nothing else changes. |
| CalendarModal.ParseFormat | frontend/src/components/CalendarModal.jsx:10 | Parsing the yyyy-MM-dd form gives back the day. |
| CalendarModal.FormatInjective | frontend/src/components/CalendarModal.jsx:9-12 | Two days have the same yyyy-MM-dd form iff they are equal. |
| CalendarModal.HasJournalIn | frontend/src/components/CalendarModal.jsx:9-12 | The scan finds a day iff its formatted form is among the entry dates. |
| CalendarModal.TileClassName | frontend/src/components/CalendarModal.jsx:14-27 | Month view only. A future day is dimmed first, then a day with an entry is highlighted, and the rest are gray. |
| CalendarModal.EnabledIffHighlighted | frontend/src/components/CalendarModal.jsx:14-32 | A tile is enabled iff it is highlighted in the month view. |
| CalendarModal.Modal.Select | frontend/src/components/CalendarModal.jsx:50 | Picking a day selects it and changes nothing else. |
| CalendarModal.Modal.Cancel | frontend/src/components/CalendarModal.jsx:34-37 | Cancel clears the selection and closes the modal. |
| CalendarModal.Modal.Confirm | frontend/src/components/CalendarModal.jsx:39-44 | When the selected day has an entry, the modal closes and navigates to /memory?date=yyyy-MM-dd. Otherwise nothing changes. |
| CalendarModal.ConfirmedRouteNamesDay | frontend/src/components/CalendarModal.jsx:42 | The date in the route reads back as the selected day. |
| JournalEntryForm.RemoveAtSlices | frontend/src/pages/JournalEntryForm.jsx:153-155 | Removing index i leaves the photos before and after it in order. An index out of range removes nothing. |
| JournalEntryForm.RemoveNewPhoto | frontend/src/pages/JournalEntryForm.jsx:147-155 | Removing a just-added photo keeps the older photos and the other new ones in order. |
| JournalEntryForm.Form.StartVideoPreview | frontend/src/pages/JournalEntryForm.jsx:61-75 | The preview shows, or the camera error is set. The recording flags are untouched. |
| JournalEntryForm.Form.StartRecording | frontend/src/pages/JournalEntryForm.jsx:84-113 | A start sets recording, not paused and the kind. A device failure sets the error and leaves the flags. A video start with a working camera opens the preview. After a successful start, the error is "Unable to access camera" if the camera failed on a video start, and otherwise unchanged. |
| JournalEntryForm.Form.PauseResumeRecording | frontend/src/pages/JournalEntryForm.jsx:115-124 | Paused flips only while recording. |
| JournalEntryForm.Form.StopRecording | frontend/src/pages/JournalEntryForm.jsx:126-134 | Stop acts only while recording, and clears both flags and the preview. |
| JournalEntryForm.Form.HandleThumbnailUpload | frontend/src/pages/JournalEntryForm.jsx:136-145 | A file over 5,000,000 bytes sets the error and keeps the thumbnail. Otherwise the thumbnail is set. Every other field is unchanged. |
| JournalEntryForm.Form.HandleSnapPhotosUpload | frontend/src/pages/JournalEntryForm.jsx:147-151 | New photos are appended after the old ones, in order and without a cap. Every other field is unchanged. |
| JournalEntryForm.Form.RemovePhoto | frontend/src/pages/JournalEntryForm.jsx:153-155 | The list becomes the filter that drops index i. Every other field is unchanged. |
| JournalPage.SubmittableIff | frontend/src/pages/Journal.jsx:77-80 | Submit goes ahead iff the content is not all whitespace and a mood is selected. |
| JournalPage.Page.FetchEntries | frontend/src/pages/Journal.jsx:29-40 | A successful fetch replaces the entries, and a failure keeps them. Loading ends false. |
| JournalPage.Page.HandleContentChange | frontend/src/pages/Journal.jsx:42-44 | Only the content changes. |
| JournalPage.Page.HandleMoodSelect | frontend/src/pages/Journal.jsx:46-48 | Only the mood changes. |
| JournalPage.Page.HandleProductivityChange | frontend/src/pages/Journal.jsx:50-52 | Only the rating changes. |
| JournalPage.Page.HandleAttachment | frontend/src/pages/Journal.jsx:54-73 | Uploaded URLs are appended after the existing attachments. A failure changes nothing. |
| JournalPage.Page.HandleSubmit | frontend/src/pages/Journal.jsx:75-98 | A blocked submit sends nothing and only alerts. On success the entry is prepended and the form reset (rating 5). On failure entries and form are kept. |
| Dashboard.ServerPage | frontend/src/pages/Dashboard.jsx:39-42 | The reference server answers with the slice from skip, and flags whether entries remain after it. |
| Dashboard.Board.FetchJournals | frontend/src/pages/Dashboard.jsx:36-48 | The page is appended and its flag taken, while a failure changes neither. Loading ends false. |
| Dashboard.Board.InitialLoad | frontend/src/pages/Dashboard.jsx:26-33 | Once the entry dates and the metrics have both arrived, the first load asks with skip 0. If either request rejects, nothing is fetched and nothing changes. |
| Dashboard.Board.LoadMore | frontend/src/pages/Dashboard.jsx:135-137 | Load More, offered only while hasMore, asks with skip equal to the number shown. |
| Dashboard.ShownIsPrefix | frontend/src/pages/Dashboard.jsx:36-48 | After k loads against a fixed server, the list shown is the server's first min(k·size, total) entries, with no gaps or repeats. |
| Dashboard.MoreIffIncomplete | frontend/src/pages/Dashboard.jsx:42 | Load More stays offered exactly until the whole list is shown. |

## Left out

- Mongoose, Cloudinary, bcrypt, jwt and `fs` are not modelled as code. Stores are maps, sets and sequences. Hashing, matching, token verification and failures are parameters.
- The clock and `Math.random` are parameters ("today", "now", the filename's time and random number). The random number is an unbounded natural, not a value of at most 1e9.
- `JSON.parse` of the mood is abstracted: a draft carries the parse outcome (malformed, null, or an object with optional emoji and label).
- Text.JsToNumber models `Number()` for surrounding whitespace, an optional sign and decimal digits. Decimals, exponents, hexadecimal forms and "Infinity" count as NaN in the model.
- `new Date(journalEntryDate)` is a parameter giving the time value or NaN. Only the comparison with the ISO string is modelled.
- JournalModel.SchemaValid is not enforced on the upsert. Mongoose's update validators and enum enforcement are library internals. The model instead proves that media entries break the enum (MediaEntryBreaksSchema).
- Undefined keys in `$set` are taken as stripped, which leaves the stored path as it was. Strict mode's dropping of undeclared paths matters only for the user's `password`. It appears in the as-written members `AuthController.RegisterAsWritten` and `UserModel.NewUserAsWritten`, not in the intended registration (see Findings).
- `findOne({ email: undefined })` is modelled as matching no user. ObjectIds are modelled as the collection's length at insertion.
- Registration with a missing password answers 500. This models `bcrypt.hash(undefined)` rejecting.
- Concurrency between requests is not modelled. Each handler runs atomically.
- Route wiring is not part of this model: the two `app.js` files and the route files. The handlers they name but do not define are not part of it either (by-date lookup, delete, date listing, metrics, pagination, account termination).
- `mailer.js` and the magic-link models are not part of this model: they are SMTP I/O and schema-only records.
- The upload directory's absolute path and the module-level `mkdirSync` are not modelled. Only "uploads" versus "/tmp" is.
- Media devices, streams, `MediaRecorder`, Blob URLs and the media file set in `onstop` are not modelled. The outcomes of camera and device access are parameters.
- The slider's floating-point gradient is not modelled.
- The dashboard's metrics and entry-date state are not modelled. Only whether both requests resolved is modelled, because that gates the first page load.
- Presentational components, `AuthContext.jsx` and `api.js` are left out: they are rendering and network plumbing.
- `Dashboard.jsx` imports `getJournalEntryDates`, `getJournalMetrics` and `getPaginatedJournal` from `api.js`. `Memory.jsx` imports `deleteJournal`, `fetchJournalByDate` and `getJournalEntryDates` from it too. `api.js` exports only `addOrUpdateJournal`, so as the file stands these imports do not resolve. The model treats each of these requests as a parameter that resolves with a value or rejects.
- The browser `alert` is modelled as a list of the messages shown. Console logging is left out.
- MemoryPage.Page.LoadJournal: the guard that `searchDate` is truthy sits in the effect that calls it, so the model starts at the call.

## Findings

| source | as written | input that shows it | evidently intended | confidence | as-written member | corrected member |
|---|---|---|---|---|---|---|
| backend/src/models/User.js:4-21 | The schema declares no `password` path, so strict mode drops the hash that `registerUser` passes to `new User` (authController.js:22-26). `loginUser` then compares against `undefined`, and bcrypt rejects. | Register {name "a", email "a@x", password "p"}, then log in with "a@x" and "p": the answer is 500 "Server error". | The hash is stored, and logging in with the registered password succeeds (200). | high, not executed | AuthController.LoginAfterRegisterAsWrittenFails | AuthController.RegisterThenLogin |
