# Heritage property register: form-submission core

A Dafny model of the submission path of the heritage-building register
service (`server.js`). A surveyor posts a multipart form describing one
building: about thirty descriptive text fields, coordinates, and up to ten
categories of photographs. The route:

1. runs upload intake: at most 10 files per category, 100 files in all, 10 MiB
   per file, any content type (`Uploads`);
2. checks that the six required fields `village_city, street_name, house_no,
   owner_data, lat, lng` are present. If any are missing it answers 400 and
   names all of them (`RequiredFields`, `Text`);
3. flattens each of the 34 descriptive fields to one value: an array (a
   repeated form key) gives its first element (`FormBody`). `serial_number`,
   `lat` and `lng` are taken as sent. It then builds the `images` record
   with all ten categories (`Images`);
4. saves the record and answers 201, or answers 500 when the save fails
   (`SubmitForm`).

The store is a sequence of records in insertion order. Listing returns the
records newest first and the health probe counts them (`HeritageStore`).

A body value is `Absent | Str(s) | Arr(items)`. The handler's `!req.body[f]`
is JavaScript truthiness: only `Absent` and `Str("")` are falsy, and every
array is truthy, even `[]` and `[""]`.

Some behaviours of the code are easy to miss; the model follows the code:
- The required-field check runs on the raw body, before normalisation. So a
  required field sent as `["", "x"]` passes the check, and the record stores
  `""` (`SubmitForm.ArrayWithEmptyFirstStoredEmpty`).
- The schema declares `serialNumber` required (server.js:38-41). A body that
  passes the six-field check but has no usable `serial_number` is refused at
  save with a 500 (`SubmitForm.MissingSerialNumberFails`).
- File parts under a field outside the ten categories are not ignored. The
  upload middleware built by `upload.fields` (server.js:144-155) refuses them
  as unexpected fields, and it refuses the 11th file of a category the same
  way.
- A refusal at intake goes to the framework's error handler, which answers 500.

## Model

| member | source | states |
|---|---|---|
| FormBody.Normalise | server.js:179-212 | A string or absent value passes through unchanged. A non-empty array becomes its first element, and an empty array becomes absent. The result is never an array. |
| FormBody.NormaliseFields | server.js:179-212 | The record has one entry for each of the 34 normalised text fields and no others. A field that was not sent as an array is stored exactly as sent. |
| FormBody.NormaliseIdempotent | server.js:179-212 | Normalising a normalised value changes nothing. |
| FormBody.FirstOccurrenceWins | server.js:179-212 | A field sent once, or repeated, normalises to its first occurrence. Any non-empty array, including a one-element array, normalises to its first element. |
| FormBody.TruthinessAcrossNormalise | server.js:166-179 | Normalising keeps the truthiness of a non-array value. Every array is truthy, but its normalised value is truthy only if its first element exists and is non-empty. |
| RequiredFields.MissingAmong | server.js:166 | The filter returns at most as many names as it is given. |
| RequiredFields.MissingAmongMembers | server.js:166 | A name is in the missing list exactly when it is in the given list and its body value is absent or empty. |
| RequiredFields.MissingAmongKeepsOrder | server.js:166 | The missing list is a subsequence of the given list, so the order is kept. |
| RequiredFields.MissingAmongSix | server.js:166 | For six names, the missing list is each name's own contribution, concatenated in list order. |
| RequiredFields.MissingFieldsInRequiredOrder | server.js:165-166 | The missing list is `village_city, street_name, house_no, owner_data, lat, lng` in that order, each included exactly when its value is falsy. |
| RequiredFields.PassesIffAllPresent | server.js:165-168 | A body passes the check exactly when all six required values are truthy. |
| RequiredFields.ArraysAlwaysPass | server.js:166 | A body whose six required fields are all arrays passes the check, whatever the arrays hold (even empty arrays or arrays of empty strings). |
| RequiredFields.MissingMessageNamesEachField | server.js:171 | The 400 error is "Missing required fields: " followed by text that splits at ", " back into exactly the missing list. |
| RequiredFields.ExpectedDetailsNamesRequired | server.js:172 | The 400 details are "Expected fields: " followed by text that splits at ", " back into the full required list. |
| Text.Join | server.js:171-172 | Joining with ", " starts with the first name. Its length is the names' total length plus two per separator. |
| Text.SplitJoin | server.js:171-172 | Splitting a joined non-empty list of comma-free names gives the list back. |
| Uploads.CategoryOf | server.js:144-155 | Each of the ten accepted field names maps to its category. Any other name has no category. |
| Uploads.CategoriesComplete | server.js:144-155 | The category list has ten distinct entries and includes every category. |
| Uploads.Intake | server.js:133-155 | Intake accepts a request exactly when every part is under an accepted field and at most 10 MiB, there are at most 100 parts, and each category has at most 10. On acceptance, every category with files holds exactly those files, in arrival order. |
| Images.ToBlobs | server.js:218-221 | One blob per uploaded file, in the same order. Each blob's type is the file's mimetype and its data is the file's bytes. |
| Images.Assemble | server.js:217-258 | All ten categories are present. Each holds the blobs of that category's uploads, or nothing when that category was not uploaded. |
| Images.AssembledFromIntake | server.js:217-258 | After an accepted intake, each category holds that category's files in order. The total number of images equals the number of files sent. |
| HeritageStore.SortNewestFirst | server.js:329 | The sort result is ordered by creation time, newest first, and is a permutation of the stored records. |
| HeritageStore.ListSubmissions | server.js:327-334 | A listing is returned exactly when the store is reachable. It is a newest-first permutation of the stored records. A failure carries "Failed to fetch submissions". |
| HeritageStore.Probe | server.js:290-312 | When the store is reachable, the probe reports the number of stored records. Otherwise it fails with "Test failed" and the store's error. |
| HeritageStore.StrictlyNewestListedFirst | server.js:329 | A stored record newer than every other record heads the listing. |
| HeritageStore.AppendedNewestListedFirst | server.js:329 | A record appended with a later creation time than all stored records heads the listing. |
| HeritageStore.ListingKeepsEveryRecord | server.js:329 | Every stored record appears in the listing. |
| SubmitForm.Status | server.js:168-285 | A reply is 201 exactly when a record was created and 400 exactly when fields were missing. Every other reply is 500. |
| SubmitForm.IntakeRequest | server.js:144-158 | The upload step succeeds exactly when the request has no file parts or is within the limits. It then yields the parts grouped by category. |
| SubmitForm.Save | server.js:264 | A save succeeds exactly when the serial number is a non-empty string, the save raises no other store or schema error, and the identifier is new. It then appends the record and changes nothing else. |
| SubmitForm.Submit | server.js:158-287 | Over-limit uploads are refused first. Otherwise missing fields give 400 with the messages above. A record is created exactly when the fields are present, the serial number is acceptable, the save raises no other store or schema error, and the identifier is new. Every reply other than 201 leaves the store unchanged. A 201 carries "Form submitted successfully" and appends exactly the returned record, with the given identifier and creation time. A failed save answers "Failed to submit form". |
| SubmitForm.CreatedRecordContents | server.js:177-259 | A created record holds each text field normalised. The serial number and coordinates are the raw body values. Each category holds exactly that category's uploaded files, as blobs. |
| SubmitForm.CreatedRecordKeepsEveryFile | server.js:217-258 | A created record stores as many images as files were sent. |
| SubmitForm.SubmitKeepsIdsUnique | server.js:264 | If the stored identifiers are distinct before a submission, they are distinct after it. |
| SubmitForm.ProbeCountAfterSubmit | server.js:295 | The probe count goes up by one after a 201 and stays the same after any other reply. |
| SubmitForm.NewSubmissionListedFirst | server.js:329 | A record created later than all stored records heads the next listing. |
| SubmitForm.TwoSubmissionsBothListed | server.js:264-272 | If the store would accept each of two submissions and they have different identifiers, then submitting one after the other gives two 201s, and both records appear in the next listing. |
| SubmitForm.MissingSerialNumberFails | server.js:178 | A body that passes the six-field check but has no `serial_number` gets a 500 "Failed to submit form", and nothing is stored. |
| SubmitForm.TooManyFilesRefused | server.js:135 | A request with more than 100 files is refused and nothing is stored. When its first 100 files are acceptable, the refusal is for the file count. |
| SubmitForm.ArrayWithEmptyFirstStoredEmpty | server.js:166-179 | For any storable request whose `village_city` is an array with an empty first element, the check passes, the reply is 201, and the stored village name is `""`. |
| SubmitForm.ArrayFirstEmptyBodyStored | server.js:166-179 | A concrete body, with `village_city` sent as `["", "x"]` and the other required fields and the serial number filled in, is storable in an empty store. So the general lemma above applies to a real input. |

## Left out

- Parsing `lat` and `lng` with `parseFloat` (server.js:214-215). The record keeps the raw body values. Floating-point parsing and string coercion are out of scope, including what an array becomes when coerced. A coordinate that does not parse becomes NaN, which the schema's Number cast refuses at save, so the reply is 500. The model does not derive this from the body: such a failure falls under the save error the environment supplies (`fault` in `SubmitForm.SaveEnv`).
- Mongoose's casting of `age_building`, `estimated_year` and `no_floor` to numbers, and the schema's content-type enum (server.js:82). Both happen inside the library at save time. Any such save failure falls under the store error that the save takes as a parameter. The model says nothing about whether a content type outside the enum is refused at save.
- Multipart parsing itself. The body and the file parts are inputs. How a repeated key becomes an array is taken as given: one occurrence gives a string, several give an array in order. The parser's own default limits on text parts are not modelled either: a text value over 1 MiB is refused through the error handler with a 500.
- Bodies that are not multipart (JSON or URL-encoded), whose values can be numbers, objects or nested arrays. A body value here is only absent, a string or an array of strings.
- Copying file bytes into buffers, CORS, static files, body-parser middleware and request logging (server.js:15-27, server.js:337). These are I/O plumbing.
- The database connection, the fallback connection string, the port and process start-up (server.js:7-10, server.js:30-34, server.js:340-346). Store availability is a parameter of each operation.
- The second `/api/test` handler (server.js:315-324). It can never be reached because the route is already bound at server.js:290.
- The body text of the error middleware's reply (server.js:349-352). Only its 500 status is modelled, as the status of an intake refusal.
- Concurrency between requests. Submissions are modelled one after another.
- How identifiers and timestamps are generated. Both come from the environment. A repeated identifier is refused at save, as the store's unique index refuses it.
- Which intake error is reported when several limits are broken. The model reports the first broken limit in arrival order (count, then field, then size), but the contracts only state accept or refuse.
- HeritageStore.ListSubmissions: the order of records with equal creation times is not stated, because the store does not define it.
