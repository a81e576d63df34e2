# CertVault core in Dafny

CertVault stores PDF certificates with a little metadata: a name, an issuer, a
date, a category and notes. There are two front ends.

- **Browser-only** (`frontend/script.js`): keeps the records in local storage.
- **Server-backed** (`frontend/script-backend.js`): talks to an Express
  controller (`backend/controllers/certificateController.js`). The controller
  keeps each file in a blob container and its metadata in a document container.

This project models the logic of those three files that can be stated precisely.

- `DateFields`: what the month, day and year keystroke handlers do to the text
  they are given, and what the blur handlers then do. Also the year-range check,
  `padStart(2, '0')`, and the `YYYY-MM-DD` string sent at submission.
- `Calendar`: `validateDate`. The day arithmetic of `new Date(year, month - 1, day)`
  is modelled by walking whole months of the Gregorian calendar. A lemma proves
  that the read-back test accepts exactly the real calendar dates of years 100
  and later, because years 0..99 are read as 19xx.
- `Listing`: `getFilteredCertificates`, generic over the two front ends' record
  types, and `getCategoryName`.
- `Forms`: the upload form, the PDF and 10 MiB file checks, and `trim`.
- `LocalVault`: the browser-only front end's state as `class Vault`. Add-with-rollback,
  the submission guards, delete confirmation through a pending id, and the
  `isProcessing` guard.
- `BackendClient`: the server-backed front end's state as `class Client`. Reloading
  the listing from a reply, the upload guards, the request body, the `isProcessing`
  lifecycle, and delete confirmation that keeps the pending id on failure.
  Lemmas connect the body the client sends with the server's required-field test
  and with the payload the server stores.
- `Controller`: the five handlers as methods of `class Service`, which holds two
  maps: `blobs`, from blob name to content, and `docs`, from id to metadata.
  Their contracts state the order of the writes, what a 404 leaves untouched,
  and which partial failures leave a blob or a document behind.

Whatever the handlers get from outside is passed in as an argument:

- what the file reader, `fetch`, local storage and the two stores returned;
- a uuid, a `Date.now()` stamp and an ISO timestamp;
- whether the browser parsed a date string.

The two `handleFormSubmit` handlers each become two methods. The first runs up to
the `await` and the second runs after it, so the `isProcessing` guard can be
observed between them. The other asynchronous handlers are each one method.
`Client.Load`, `Client.SelectFile` and `Client.ConfirmDelete` take the outcome of
their `await` as an argument.

Two behaviours of the code differ from what its user interface suggests:

- The server-backed front end's `handleFormSubmit` (`frontend/script-backend.js:402-470`)
  never calls `validateDate`. It refuses only an empty month, day or year. So
  `BackendClient.Client.BeginUpload` does not check the calendar.
- `deleteCertificate` fails with 500 when the blob delete fails, and the document
  then stays. Only a failure of the second step, the document delete, leaves a
  document behind whose blob is already gone.

## Model

| member | source | states |
|---|---|---|
| `DateFields.ParseInt` | frontend/script.js:295 | absent (NaN) exactly when the text is empty or does not start with a digit; the value of the digits for a digit string |
| `DateFields.Digits` | frontend/script.js:214 | only digits remain; a single character is kept exactly when it is a digit; a digit string is kept as it is |
| `DateFields.DigitsOfConcat` | frontend/script.js:214 | the digits of a concatenation are the digits of each part in order, so with the single-character case exactly the digits are kept, in order |
| `DateFields.Truncate` | frontend/script.js:215 | at most `n` characters, a prefix of the input, the first `n` characters when longer |
| `DateFields.MonthInput` | frontend/script.js:213-227 | digits only, at most two; empty exactly when no digit was typed; a one-character month is 0 or 1; a two-character month is in 01..12; a lone digit above 1 becomes `0d` and a lone 0 or 1 is kept; a valid pair is kept, above 12 becomes `12`, `00` becomes `01` |
| `DateFields.DayInput` | frontend/script.js:250-264 | digits only, at most two; a one-character day is at most 3; a two-character day is in 01..31; a lone digit above 3 becomes `0d` and a lone 0..3 is kept; a valid pair is kept, above 31 becomes `31`, `00` becomes `01` |
| `DateFields.YearInput` | frontend/script.js:287-291 | digits only, at most four, a prefix of the typed digits, all of them when there are at most four, the first four otherwise |
| `DateFields.MonthInputIdempotent` | frontend/script.js:213-227 | masking an already masked month changes nothing |
| `DateFields.DayInputIdempotent` | frontend/script.js:250-264 | masking an already masked day changes nothing |
| `DateFields.YearInputIdempotent` | frontend/script.js:287-291 | masking an already masked year changes nothing |
| `DateFields.MonthInputBackend` | frontend/script-backend.js:236-255 | digits only, at most two, and a two-character month is in 01..12 |
| `DateFields.DayInputBackend` | frontend/script-backend.js:257-276 | digits only, at most two, and a two-character day is in 01..31 |
| `DateFields.MasksAgree` | frontend/script-backend.js:236-276 | the `else if` handlers of the server-backed front end mask month and day exactly as the browser-only ones do |
| `DateFields.MonthAfterBlur` | frontend/script.js:238-247 | after the keystroke mask and the blur handler a non-empty month is two digits in 01..12 |
| `DateFields.DayAfterBlur` | frontend/script.js:275-284 | after the keystroke mask and the blur handler a non-empty day is two digits in 01..31 |
| `DateFields.PadOnBlur` | frontend/script.js:238-247 | never leaves `00`; a lone digit other than 0 gets a leading zero; `0` and `00` become `01`; anything else is kept |
| `DateFields.PadOnBlurIdempotent` | frontend/script.js:238-247 | blurring a second time changes nothing |
| `DateFields.YearOutOfRange` | frontend/script.js:413-414 | flags only a year that starts with a digit (NaN is never flagged); a digit string is flagged exactly when its value is outside 1900..2100 |
| `DateFields.YearRangeOfMaskedField` | frontend/script.js:294-303 | a masked year is flagged exactly when its value is outside 1900..2100; an empty year is never flagged |
| `DateFields.PadStart2` | frontend/script.js:401-402 | length is two, or the field's own length when longer; a field of two or more characters is kept |
| `DateFields.PadStart2Shape` | frontend/script-backend.js:426 | padding gives at least two characters: zeros followed by the unchanged field |
| `DateFields.PadStart2KeepsValue` | frontend/script-backend.js:426 | padding a masked month or day keeps its numeric value |
| `DateFields.DateString` | frontend/script-backend.js:426 | `year-MM-DD` from the year and the padded month and day; its properties are stated by `DateStringRoundTrip` |
| `DateFields.DateStringRoundTrip` | frontend/script-backend.js:426 | the submitted `year-MM-DD` string splits back into the year and the padded month and day |
| `Calendar.DaysInMonth` | frontend/script-backend.js:291-294 | 28..31 days; 29 exactly for February of a leap year, 28 exactly for February of another year |
| `Calendar.Roll` | frontend/script-backend.js:291 | the Date constructor's normalisation always lands on a real calendar date and leaves an in-range day as it is |
| `Calendar.DateParts` | frontend/script-backend.js:291-294 | `new Date(year, monthIndex, day)` read back is always a real calendar date |
| `Calendar.ValidateDate` | frontend/script-backend.js:285-306 | true while any field is empty; a date it accepts has month and day at least 1 |
| `Calendar.ValidateDateIsCalendarCheck` | frontend/script-backend.js:285-306 | with all three fields filled in, accepted exactly when month is 1..12, day is 1..days-in-month of that Gregorian year, and the year is at least 100 |
| `Calendar.RefusesFebruary31` | frontend/script-backend.js:290-298 | `02/31/2023` is refused |
| `Calendar.RefusesMonth13` | frontend/script-backend.js:290-298 | `13/01/2023` is refused |
| `Calendar.AcceptsFebruary28` | frontend/script-backend.js:290-302 | `02/28/2023` is accepted |
| `Calendar.AcceptsLeapDay` | frontend/script-backend.js:290-302 | `02/29/2024` is accepted |
| `Listing.Lower` | frontend/script.js:636 | same length, each character lower-cased |
| `Listing.IncludesIffOccurs` | frontend/script.js:638-642 | `includes` holds exactly when the term occurs at some position |
| `Listing.Select` | frontend/script.js:632 | `filter` keeps the accepted elements in their order, each as often as in the input, and drops the rest |
| `Listing.FilteredCertificates` | frontend/script.js:627-646 | an order-preserving subsequence of the records; every record in it is shown; each shown record appears as often as in the input; `all` with an empty search is the whole list |
| `Listing.FilterMembership` | frontend/script-backend.js:568-585 | a record is in the result exactly when it is in the list, in the tab's category (or the tab is `all`), and matches the lower-cased term in name, issuer or non-empty notes |
| `Listing.CategoryName` | frontend/script.js:768-777 | a category keeps its own text as its label exactly when it is not one of the five known ones |
| `Listing.CategoryNamesDistinct` | frontend/script.js:768-777 | the five known categories have five different labels |
| `Forms.AcceptsFile` | frontend/script.js:313-326 | the file type is exactly `application/pdf` and the size is at most 10 MiB |
| `Forms.Trim` | frontend/script.js:398-404 | no longer than the field; empty exactly when the field is blank; no whitespace left at either end |
| `Forms.TrimIsInfix` | frontend/script.js:398-404 | the trimmed text sits in the field with only whitespace before and after it, so only whitespace is removed |
| `LocalVault.RequiredFieldsAsWritten` | frontend/script.js:401-410 | the required-field test as written, on the padded month and day |
| `LocalVault.PaddedTestIgnoresMonthAndDay` | frontend/script.js:401-410 | the required-field test as written does not depend on the month or the day |
| `LocalVault.EmptyMonthPassesAsWritten` | frontend/script.js:401-410 | a form with an empty month passes the test as written and fails the intended one |
| `LocalVault.AsWrittenAdmitsEmptyMonthOrDay` | frontend/script.js:401-410 | the test as written and the intended one disagree exactly when the other required fields are filled in and the month or the day is empty |
| `LocalVault.RequiredFieldsComplete` | frontend/script.js:398-410 | the intended test passes exactly when name and issuer have a non-whitespace character and category, month, day and year are non-empty |
| `LocalVault.WithoutId` | frontend/script.js:746 | a subsequence holding no record with the id, keeping every other record as often as before |
| `LocalVault.Vault.constructor` | frontend/script.js:32-43 | starts from the stored list when one parses, from the empty list otherwise, with tab `all`, no file and nothing pending |
| `LocalVault.Vault.Listed` | frontend/script.js:627-646 | the cards shown are a subsequence of the records, exactly those shown for the current tab and search |
| `LocalVault.Vault.SelectTab` | frontend/script.js:186-193 | sets the tab and nothing else |
| `LocalVault.Vault.SelectFile` | frontend/script.js:307-329 | accepted exactly for a PDF of at most 10 MiB, which becomes the current file; otherwise no state changes |
| `LocalVault.Vault.BeginSubmit` | frontend/script.js:385-430 | goes ahead exactly when nothing is in flight, a file is selected, the required fields are filled in, the year is not out of range and the date parses; it then marks a submission in flight; the list never changes |
| `LocalVault.Vault.FinishSubmit` | frontend/script.js:432-477 | on a successful save the new record is at the front with the old list after it and the file is cleared; otherwise the list is exactly what it was; runs only while a submission is in flight, and nothing is in flight afterwards |
| `LocalVault.SubmitRoundTrip` | frontend/script.js:385-478 | selecting a PDF and submitting puts the new record, with trimmed fields and the date string, in front of the stored list exactly when the form passes the guards and saving succeeds; otherwise the stored list is unchanged |
| `LocalVault.Vault.ResetForm` | frontend/script.js:374-382 | clears the selected file and keeps the listing, filter, processing flag and pending delete (the form fields are arguments, not state) |
| `LocalVault.Vault.RequestDelete` | frontend/script.js:725-728 | sets the pending id and nothing else |
| `LocalVault.Vault.CancelDelete` | frontend/script.js:736-741 | clears the pending id and nothing else |
| `LocalVault.Vault.ConfirmDelete` | frontend/script.js:743-756 | with a pending (non-zero) id, removes exactly the records with that id and clears it; without one, changes nothing |
| `Controller.HasRequiredFields` | backend/controllers/certificateController.js:14 | every required field is present and non-empty |
| `Controller.BlobKey` | backend/controllers/certificateController.js:23 | the blob name `id-fileName`; its property is stated by `BlobKeyInjective` |
| `Controller.BlobKeyInjective` | backend/controllers/certificateController.js:22-23 | for ids of one length, two blob names are equal exactly when id and file name are |
| `Controller.Payload` | backend/controllers/certificateController.js:28 | absent exactly when the data has no comma; otherwise a comma-free piece |
| `Controller.PayloadIsSecondField` | backend/controllers/certificateController.js:28 | after a comma-free header and a comma, the payload is the text up to the next comma or the end |
| `Controller.PayloadOfDataUrl` | backend/controllers/certificateController.js:28 | the payload of `header,body` is `body` |
| `Controller.NewMetadata` | backend/controllers/certificateController.js:47-58 | the record carries the generated id and the blob name `id-fileName`; name, issuer, date, category and file name are copied from the body, URL and timestamp from the inputs; notes default to the empty string |
| `Controller.Disposition` | backend/controllers/certificateController.js:219 | the `Content-Disposition` header naming the file |
| `Controller.Service.Empty` | backend/controllers/certificateController.js:1-2 | both stores start empty |
| `Controller.Service.Upload` | backend/controllers/certificateController.js:7-80 | 400 exactly when a required field is missing, and then neither store is written; every other failure is 500; 500 with nothing written when the data has no payload or the blob write fails; the blob is written before the document, so a failing document write leaves the blob behind; 201 with the new record exactly when both writes succeed, and then exactly one document is added |
| `Controller.Service.ListAll` | backend/controllers/certificateController.js:85-110 | `count` equals the number of records returned, which is the number stored; every stored record appears once and nothing else |
| `Controller.Service.Get` | backend/controllers/certificateController.js:115-145 | the record stored under the id, 404 when there is none, 500 when the read fails |
| `Controller.Service.Delete` | backend/controllers/certificateController.js:150-191 | 404 and no change for an unknown id; a failing blob delete changes nothing; otherwise the blob goes first, then the document; a failing document delete leaves the document with its blob already gone |
| `Controller.Service.Download` | backend/controllers/certificateController.js:196-234 | the blob stored under the record's blob name, as `application/pdf`, with an attachment header naming the record's file name; 404 for an unknown id |
| `Controller.UploadLifecycle` | backend/controllers/certificateController.js:7-191 | on empty stores, an upload is created, read back, downloaded with its payload, deleted, and then not found |
| `Controller.MissingFileLifecycle` | backend/controllers/certificateController.js:14-19 | an upload without file data gets 400 and the listing stays empty |
| `BackendClient.ServerAcceptsClientBody` | frontend/script-backend.js:423-431 | the server's required-field test passes on the client's body exactly when trimmed name and issuer, category, file name and file data are non-empty; the date it sends splits back into year and padded month and day |
| `BackendClient.UploadBodyOf` | frontend/script-backend.js:423-431 | the JSON body posted; its properties are stated by `ServerAcceptsClientBody` and `StoredPayloadOfClientFile` |
| `BackendClient.Reloaded` | frontend/script-backend.js:49-73 | the listing after a fetch; stated by `Client.Load` |
| `BackendClient.StoredPayloadOfClientFile` | backend/controllers/certificateController.js:28 | for any file name, the server stores the base64 part of the data URL the client read |
| `BackendClient.Client.constructor` | frontend/script-backend.js:12-18 | empty list, tab `all`, no file, nothing in flight or pending |
| `BackendClient.Client.Load` | frontend/script-backend.js:49-73 | the server's data on success, the old list when refused, the empty list when the request threw; nothing else changes |
| `BackendClient.Client.Listed` | frontend/script-backend.js:568-585 | the cards shown are a subsequence of the records, exactly those shown for the current tab and search |
| `BackendClient.Client.SelectTab` | frontend/script-backend.js:160-165 | sets the tab and nothing else |
| `BackendClient.Client.SelectFile` | frontend/script-backend.js:312-397 | a PDF of at most 10 MiB that was read becomes the current file with its data URL; otherwise no state changes |
| `BackendClient.Client.BeginUpload` | frontend/script-backend.js:402-437 | a request is made exactly when a file is selected, nothing is in flight and month, day and year are non-empty; the request is then in flight |
| `BackendClient.Client.FinishUpload` | frontend/script-backend.js:449-470 | on success the listing is reloaded and the file cleared; otherwise the list and file stay; runs only while an upload is in flight, and nothing is in flight afterwards |
| `BackendClient.Client.ResetForm` | frontend/script-backend.js:475-492 | clears the selected file and keeps the listing, filter, processing flag and pending delete (the form fields are arguments, not state) |
| `BackendClient.Client.RequestDelete` | frontend/script-backend.js:671-674 | sets the pending id and nothing else |
| `BackendClient.Client.CancelDelete` | frontend/script-backend.js:712-717 | clears the pending id and nothing else |
| `BackendClient.Client.ConfirmDelete` | frontend/script-backend.js:676-704 | nothing is sent and nothing changes without a pending (non-empty) id; the pending id is cleared and the listing reloaded only on success, and stays after a failure |
| `BackendClient.UploadRoundTrip` | frontend/script-backend.js:402-470 | a valid form sent to the server ends with the listing holding the new record, with its trimmed name and date string |

## Left out

- Rendering, toasts, modals, focus moves and the viewer are not modelled. They are
  DOM side effects. Page navigation is modelled only for its effect on the fields
  above: opening the upload page and the preview's remove button both call
  `resetUploadForm`, which is `ResetForm`.
- LocalVault.Vault.BeginSubmit: guards with the corrected required-field test
  `RequiredFields`, not the padded test as written. With an empty month or day
  and a date the browser parses, the source goes ahead and the model refuses.
  `AsWrittenAdmitsEmptyMonthOrDay` states exactly which forms differ.
- The browser-only front end's date check `new Date(dateString)` depends on the
  engine. Whether it parsed is the `dateParses` argument of
  `LocalVault.Vault.BeginSubmit`.
- `formatDate` uses locale formatting and is not modelled.
- `readFileAsDataURL` and its 30-second timeout, `FileReader`, `fetch` and the
  parsing of its replies are not modelled. Their outcomes are arguments:
  `fileData`, `dataUrl`, `ListReply` and `Reply`.
- Local storage and JSON (de)serialisation are not modelled. A save is the
  `saved` flag. Loading is the `stored` argument of the constructor.
- The ignored result of `saveCertificates` in `confirmDelete` is not modelled.
- The blob and document containers are the two maps. The Azure SDK,
  `Buffer.from(..., 'base64')`, `uuidv4`, `Date.now` and `toISOString` are not
  modelled: the payload is stored as base64 text, and ids and timestamps are
  arguments.
- A read that finds no document is taken to return no resource, not to throw.
- `getAllCertificates` returns the documents in an unspecified order, as the
  store does.
- Each `await` is modelled as a single step. Interleavings with other events
  are not modelled.
- Server start-up, routing and configuration are not part of this model.
- `Listing.Lower` folds ASCII letters only. It does not model Unicode case folding.
- `Forms.Trim` treats space and `\t`..`\r` as whitespace. It does not model the
  other Unicode spaces.
- `DateFields.ParseInt` reads only a leading run of digits. It does not model
  leading whitespace or a sign. The masked fields never contain either.
- `Calendar.ValidateDate` requires masked fields: at most two digits for month
  and day and four for the year. Its only callers are the keystroke handlers,
  which guarantee this.
- `Listing.CategoryName` does not model lookups of inherited object properties
  such as `constructor`.
- The drop handler's `isProcessing` gate and the upload-area click handlers are
  not modelled. They only forward a file to `handleFileSelect`, which is
  modelled by `SelectFile`.

## Findings

| source | as written | input that shows it | evidently intended | confidence | as-written member | corrected member |
|---|---|---|---|---|---|---|
| frontend/script.js:401-410 | month and day are padded with `padStart(2, '0')` before the `!month` and `!day` tests, so an empty month or day becomes `00` and those tests never fire | name `AWS Cert`, category `professional`, issuer `Amazon`, month empty, day `10`, year `2024` | an empty month or day is refused as a missing required field | high (not executed) | `LocalVault.EmptyMonthPassesAsWritten` | `LocalVault.RequiredFieldsComplete` |
