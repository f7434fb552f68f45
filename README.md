# Tofar Logistics backend — a verified model of its core

This project models, in Dafny, the core of the Tofar Logistics backend: an Express/Mongoose
service that records shipments and their lifecycle. The modelled parts are:

- **Shipment lifecycle.** Create, edit, delete, status change and reply. A status change appends a
  tracking-history entry; a reply appends to the reply thread.
- **QR codes.** The tracking-page QR code generated per shipment, and the admin batch that
  generates the missing ones.
- **Notifications.** E-mails to the shipment's client and to every admin/employee user. The admin
  addresses are deduplicated. Mail goes through the Brevo transactional-mail helper.
- **Backfill script.** The maintenance script that gives every shipment without tracking history
  an initial entry.
- **Reference data.** CRUD handlers and schemas for three catalogues: message slides, logistics
  facilities and configurable shipment statuses.

Modules, one file each:

- `wrappers.dfy`: `Option`, `Result` and HTTP responses.
- `text.dfy`: the JavaScript string semantics the handlers rely on. This covers truthiness, `||`
  defaults, `trim`, ASCII case mapping, `split(',')` and binary string order.
- `ordering.dfy`: sorting by a comparator. A `.sort({...})` is a sorted permutation.
- `tables.dfy`: a collection keyed by increasing ids, and its natural order.
- `mailer.dfy`: `utils/mailer.js`.
- `shipment_model.dfy`: the shipment record and its pure transitions.
- `qr_codes.dfy`: the QR helper and the batch's specification. The batch loop is specified and
  proved for any helper function; the batch run passes the QR helper.
- `notifications.dfy`: the client/admin notification helpers.
- `shipment_handlers.dfy`: the request handlers. `ShipmentStore` is a class whose handlers update
  the collection in place.
- `backfill.dfy`: the backfill script.
- `message_slides.dfy`, `facilities.dfy`, `shipment_statuses.dfy`: the three catalogues. Each has
  a store class.

The environment variables are function parameters: the Brevo key and sender settings,
`CLIENT_TRACKING_URL` and `MONGO_URI`. So are the clock reading, the QR renderer
(`string -> Option<string>`, `None` when rendering throws) and the user records the handlers
consult.

Where the code and the system's design description disagree, the model follows the code:

- **Status and last history entry.** The design says a shipment's `status` always equals its
  last tracking-history entry's status. The code breaks this in two places:
  - Create takes the status from the body but always appends a `pending` entry.
  - Edit passes the raw body to `findByIdAndUpdate`.

  The two agree in exactly these cases:
  - A status change (`ShipmentModel.WithStatus`) always makes them agree.
  - A created shipment agrees exactly when the body gives no status or gives `pending`
    (`ShipmentModel.CreatedStatusMatchesIff`).
  - A backfilled shipment agrees exactly when its status is non-empty
    (`Backfill.BackfilledStatusMatchesIff`); an empty status gets a `pending` entry.
  - An edit agrees when its body carries both a status and a history ending in that status.
    An edit naming neither keeps the agreement as it was (`ShipmentModel.Patched`). An edit
    naming only a new status breaks it (`ShipmentModel.PatchStatusBreaksHistory`).
- **Batch errors.** The design describes per-item errors in the batch QR report. The QR helper
  catches every failure and returns `false`, so the `errors` list is always empty.
  `ShipmentHandlers.RunBatch` proves this.
- **Batch counts.** `totalChecked` counts only the shipments without a code.

## Model

| member | source | states |
|---|---|---|
| Text.Trim | controllers/messageslidesController.js:90-91 | the result is the input with a run of spaces cut from each end, and has no space left at either end; an already trimmed string is unchanged; only an all-space string trims to "" |
| Text.TrimKeepsCharacters | controllers/messageslidesController.js:90-91 | every character of a trimmed text comes from the input |
| Text.TrimIdempotent | controllers/messageslidesController.js:90 | trimming in the handler and again in the schema setter gives the same value as trimming once |
| Text.UpperIdempotent | models/Facility.js:16 | upper-casing a stored code again changes nothing |
| Text.LowerIdempotent | models/Facility.js:47 | lower-casing a stored e-mail again changes nothing |
| Text.UpperLeavesNoLowercase | models/Facility.js:16 | an upper-cased code holds no lower-case letter, and its other characters are kept |
| Text.LowerLeavesNoUppercase | models/Facility.js:47 | a lower-cased e-mail holds no upper-case letter, and its other characters are kept |
| Text.TrimCommutesWithCase | models/Facility.js:12-18 | the `trim` and `uppercase`/`lowercase` setters give the same value in either order |
| Text.Split | utils/mailer.js:22 | `split(',')` yields at least one piece |
| Text.JoinSplit | utils/mailer.js:22 | no piece of a split holds the separator, and joining the pieces with it gives back the input |
| Text.SplitJoin | utils/mailer.js:22 | splitting a comma-join of comma-free pieces gives back those pieces |
| Text.SplitAppend | utils/mailer.js:22 | splitting `a + ',' + b` is splitting `a` followed by splitting `b` |
| Text.LexLeTotal | controllers/facilityController.js:5 | any two names are ordered one way or the other by the name sort |
| Text.LexLeTransitive | controllers/facilityController.js:5 | the name order is transitive |
| Text.LexLeAntisymmetric | controllers/facilityController.js:15 | two names ordered both ways are equal |
| Ordering.SortBy | controllers/facilityController.js:5 | a listing sorted by a total preorder is sorted and is a permutation of the records |
| Tables.KeysWhere | controllers/shipmentController.js:534 | the ids matched by a filter are in increasing (natural) order, and an id is listed exactly when its record is stored and satisfies the filter |
| Tables.Rows | controllers/shipmentController.js:243 | an unfiltered `find()` lists every stored record, in id order |
| Tables.Where | controllers/shipmentController.js:264 | a filtered `find()` lists exactly the stored records that match, one row per matching record, in natural (id) order |
| Tables.KeysBelowCount | controllers/shipmentController.js:243 | the listing has one row per stored record |
| Mailer.FirstTruthy | utils/mailer.js:3 | `a \|\| b \|\| c` is truthy exactly when one of them is, with the earlier one taking precedence |
| Mailer.ConfigFrom | utils/mailer.js:3-5 | the key is the first non-empty of BREVO_API_KEY, SENDINBLUE_API_KEY and BREVO_KEY, and is present exactly when one of them is; the sender address is BREVO_SENDER_EMAIL, else ZOHO_EMAIL_USER, else the default; the sender name is BREVO_SENDER_NAME, else the default; neither is ever empty |
| Mailer.TrimAll | utils/mailer.js:22 | every piece is trimmed, and the pieces stay in order |
| Mailer.NonEmpty | utils/mailer.js:22 | `filter(Boolean)` keeps exactly the non-empty pieces |
| Mailer.NonEmptyAppend | utils/mailer.js:22 | filtering distributes over concatenation, so the order is kept |
| Mailer.NonEmptyKeepsFilled | utils/mailer.js:22 | a list without empty pieces is kept as it is |
| Mailer.NonBlank | utils/mailer.js:22 | the pieces kept are exactly those holding a non-space character, in their order |
| Mailer.TrimThenDropEmpty | utils/mailer.js:22 | trimming every piece and then dropping the empty ones equals trimming the non-blank pieces |
| Mailer.Recipients | utils/mailer.js:22 | an array is used as given; a text yields, in order, one recipient per piece that is not blank, namely that piece trimmed, and nothing else |
| Mailer.TextRecipients | utils/mailer.js:22 | every recipient taken from a text is a clean address and the trimmed form of some non-blank piece, and every non-blank piece contributes its trimmed form |
| Mailer.CleanPieces | utils/mailer.js:22 | the pieces that survive trimming and filtering are clean addresses |
| Mailer.KeptPieces | utils/mailer.js:22 | no non-blank piece is dropped |
| Mailer.RecipientsOfJoinedText | utils/mailer.js:22 | the recipients of `a,b` are those of `a` followed by those of `b` |
| Mailer.RecipientsOfCommaList | utils/mailer.js:22 | a comma-joined list of clean addresses parses back to exactly that list |
| Mailer.SendMail | utils/mailer.js:17-29 | the call fails exactly when no key is configured; otherwise the payload has the configured sender, one recipient per parsed address in order, and the subject and body given |
| Mailer.SendMailReachesRecipients | utils/mailer.js:22-26 | with a key the request is built, and its recipients are exactly the parsed addresses; a single clean address reaches only itself |
| ShipmentModel.NewShipment | controllers/shipmentController.js:307-314 | a new record takes its tracking number, sender, origin, descriptive fields and QR code from the body (sender and code null when absent); it has no replies and takes the body's status or "pending"; its history is the body's followed by one `pending` entry at the origin stamped with the creation time |
| ShipmentModel.CreatedStatusMatchesIff | controllers/shipmentController.js:307-312 | a created shipment's status matches its last entry exactly when the body gave no status or gave "pending" |
| ShipmentModel.NewShipmentWellFormedIff | models/Shipment.js:58-62 | a created record is well formed exactly when its tracking number is non-empty and every history entry from the body has a status |
| ShipmentModel.Patched | controllers/shipmentController.js:360 | every field the body names replaces the stored one and every other field is kept (the descriptive fields key by key); id and replies never change; an empty body changes nothing; an edit naming neither status nor history keeps the status/history agreement as it was |
| ShipmentModel.PatchIdempotent | controllers/shipmentController.js:360 | applying the same edit twice equals applying it once |
| ShipmentModel.PatchStatusBreaksHistory | controllers/shipmentController.js:360 | an edit that sets a status different from the last entry's, without history, leaves status and history disagreeing |
| ShipmentModel.WithStatus | controllers/shipmentController.js:412-420 | a status change sets the status and appends exactly one entry for it at the given location and time; status and last entry then agree; nothing else changes |
| ShipmentModel.WithReply | controllers/shipmentController.js:497-504 | a reply is appended at the end of the thread and nothing else changes |
| ShipmentModel.WithStatusWellFormed | models/Shipment.js:59 | a status change with a non-empty status keeps every history entry's status present |
| ShipmentModel.WithReplyWellFormed | models/Shipment.js:65 | a reply with a non-empty message keeps every reply's message present |
| ShipmentModel.ApplyEach | controllers/shipmentController.js:548-560 | handling a list of shipments in turn keeps the set of stored ids |
| ShipmentModel.ApplyEachAt | controllers/shipmentController.js:548-560 | over distinct ids, each listed shipment is transformed once and every other one is unchanged |
| ShipmentModel.InsertKeepsValid | models/Shipment.js:71 | storing a well-formed record under the next id keeps ids, required fields and unique tracking numbers valid when its number is free |
| ShipmentModel.ReplaceKeepsValid | models/Shipment.js:71 | replacing a record keeps the collection valid when its number is not another record's |
| ShipmentModel.SameTrackingNumberNotTaken | models/Shipment.js:71 | a stored record's own tracking number is held by no other record |
| ShipmentModel.RemoveKeepsValid | controllers/shipmentController.js:383 | deleting a record keeps the collection valid |
| ShipmentModel.ApplyEachStep | controllers/shipmentController.js:548-550 | the batch's next step transforms the next listed shipment in the state left by the previous ones |
| QrCodes.TrackingNumberOf | controllers/shipmentController.js:19 | a URL is decodable exactly when it starts with the prefix |
| QrCodes.TrackingUrlRoundTrip | controllers/shipmentController.js:19 | decoding an encoded URL gives back the tracking number, and an URL that decodes to a number is that number's URL |
| QrCodes.TrackingUrlInjective | controllers/shipmentController.js:19 | distinct tracking numbers get distinct URLs |
| QrCodes.EnsureQrCode | controllers/shipmentController.js:7-28 | only the code field can change; the helper succeeds exactly when there is a tracking number and a code already exists or rendering succeeds; an existing code is never overwritten; a missing or empty code is replaced by the rendered one when rendering succeeds; a failure changes nothing |
| QrCodes.EnsureQrCodeIdempotent | controllers/shipmentController.js:14-17 | running the helper again after it stored a code (or on a record without a number) changes nothing and reports the same |
| QrCodes.StampQrCode | controllers/shipmentController.js:317-326 | create stores the rendered code when rendering succeeds and otherwise keeps the record as saved; nothing else changes |
| QrCodes.MissingQr | controllers/shipmentController.js:534 | the batch's candidates are exactly the stored shipments whose code is null or missing, in natural order |
| QrCodes.Successes | controllers/shipmentController.js:544-553 | the count of a helper's successes over the candidates never exceeds the number of candidates |
| QrCodes.CountWithQr | controllers/shipmentController.js:563-565 | the count of listed shipments holding a code never exceeds the list's length |
| QrCodes.GeneratedCountIsCodesAdded | controllers/shipmentController.js:544-565 | the reported `generatedCount` equals the number of candidates that hold a code after the batch |
| QrCodes.CountsAgree | controllers/shipmentController.js:544-565 | the success count equals the number of listed shipments holding a code in any state that applied the helper to each |
| QrCodes.ProvisionedLeavesNoneMissing | controllers/shipmentController.js:534-560 | when every shipment has a tracking number and rendering never fails, a second batch finds no candidate |
| QrCodes.NoneMissing | controllers/shipmentController.js:534 | a collection where every record has a code yields no candidates |
| QrCodes.ProvisionedAt | controllers/shipmentController.js:548-560 | after the batch each candidate is what the helper made of it and every other shipment is unchanged |
| QrCodes.BatchStep | controllers/shipmentController.js:548-553 | one turn of the loop applies the helper to the next candidate as the earlier turns left it, and adds one to the count exactly when the helper succeeds |
| QrCodes.Provisioned | controllers/shipmentController.js:548-560 | the batch adds and removes no shipment |
| QrCodes.GeneratedCount | controllers/shipmentController.js:544-553 | `generatedCount` never exceeds the number of candidates, and is 0 without candidates |
| QrCodes.GeneratedCountLast | controllers/shipmentController.js:548-553 | over distinct candidates, the last one counts as a success exactly when the helper succeeds on it as it was before the batch |
| QrCodes.EnsureQrCodeKeepsValid | controllers/shipmentController.js:20-21 | saving a generated code keeps the collection valid |
| QrCodes.ProvisionedKeepsValid | controllers/shipmentController.js:548-560 | the whole batch keeps the collection valid |
| Notifications.FindUser | controllers/shipmentController.js:41 | the lookup returns a user with that id when one exists, and none otherwise |
| Notifications.ClientAddress | controllers/shipmentController.js:32-45 | the client is mailed exactly when the shipment has a sender whose user exists and has a non-empty address |
| Notifications.StaffAddresses | controllers/shipmentController.js:116-124 | the collected addresses are the non-empty addresses of admin and employee users, all of them and only theirs |
| Notifications.StaffAddressesSnoc | controllers/shipmentController.js:116-124 | the staff addresses come in user order: one more user appends their address, when staff with a non-empty address, and nothing otherwise |
| Notifications.Dedupe | controllers/shipmentController.js:124 | `Array.from(new Set(..))` has no repeats and the same members |
| Notifications.DedupeDistinct | controllers/shipmentController.js:124 | a list without repeats is kept as it is |
| Notifications.DedupeIdempotent | controllers/shipmentController.js:124 | deduplicating twice is deduplicating once |
| Notifications.DedupeSnoc | controllers/shipmentController.js:124 | each element stays where it first occurs; a later repeat adds nothing |
| Notifications.AdminAddresses | controllers/shipmentController.js:116-129 | the admin request's recipients are the staff addresses, each once |
| Notifications.AdminAddressesSnoc | controllers/shipmentController.js:116-124 | the admin recipients come in user order with the first occurrence kept: one more staff user adds their address at the end unless an earlier staff user has it |
| Notifications.SubjectsNameTheShipment | controllers/shipmentController.js:329-334 | every client subject, and every admin subject but the status change's, ends with `#` and the tracking number; the status change's admin subject ends with ` to ` and the new status |
| Notifications.Notify | controllers/shipmentController.js:329-336 | an event sends the client notice first, exactly when the client has an address, then the admin notice with the "Admin Notification: " prefix, exactly when a staff address exists |
| Notifications.AdminRequestReachesStaffOnce | controllers/shipmentController.js:224 | the admin request reaches every admin/employee address exactly once and nobody else |
| Notifications.ClientRequestReachesClient | controllers/shipmentController.js:105 | a clean client address is the client request's only recipient |
| Notifications.Outbox | utils/mailer.js:17-22 | with a key every notice becomes a request to its parsed recipients with its subject; without a key none does |
| ShipmentHandlers.EditAccessAsWritten | controllers/shipmentController.js:349-358 | the guard as written lets only admins through, and throws for a non-admin when the sender is null or missing |
| ShipmentHandlers.EditAccess | controllers/shipmentController.js:355 | the intended guard lets through admins and the shipment's own sender; it throws in the same cases as the guard as written |
| ShipmentHandlers.OwnerRefusedAsWritten | controllers/shipmentController.js:355 | a client editing their own shipment is refused by the guard as written and admitted by the intended one |
| ShipmentHandlers.EditGuardsDifferOnlyForOwners | controllers/shipmentController.js:355 | the two guards disagree exactly for a non-admin owner |
| ShipmentHandlers.ShipmentStore.Create | controllers/shipmentController.js:304-343 | 400 and no change when the record is malformed or its number is taken; otherwise the record is stored under a fresh id, stamped with its QR code, answered with 201, and both notices are sent |
| ShipmentHandlers.ShipmentStore.Edit | controllers/shipmentController.js:346-377 | 404 for an unknown id; 400 when the guard throws; 403 when it refuses; 400 for an invalid or duplicate result; otherwise the edit is stored and both notices are sent. The handler sits behind the intended guard `EditAccess`; the code as written refuses owners with 403 (see "## Findings") |
| ShipmentHandlers.ShipmentStore.Delete | controllers/shipmentController.js:380-394 | 404 for an unknown id; otherwise only that record is removed |
| ShipmentHandlers.ShipmentStore.ChangeStatus | controllers/shipmentController.js:397-441 | 403 for other roles; 400 without a status; 404 for an unknown id; otherwise the status is set with its history entry and both notices are sent |
| ShipmentHandlers.ShipmentStore.AddReply | controllers/shipmentController.js:486-524 | 404 for an unknown id; 500 without a message; otherwise the caller's reply is appended with a fresh id and both notices are sent |
| ShipmentHandlers.ShipmentStore.GenerateMissingQrCodes | controllers/shipmentController.js:527-573 | 403 for non-admins; otherwise every candidate is handled in turn and the report gives the success count, the candidate count and no errors |
| ShipmentHandlers.RunBatch | controllers/shipmentController.js:534-567 | no candidates gives a zero report at once; the report's error list is always empty |
| ShipmentHandlers.ProvisionEach | controllers/shipmentController.js:544-560 | for any helper, the loop's result is the helper applied to each candidate in turn, and its count is the number of the helper's successes |
| ShipmentHandlers.ProvisionNext | controllers/shipmentController.js:548-553 | one turn of the loop takes the state and count after the first i candidates to those after the first i + 1 |
| ShipmentHandlers.ListAll | controllers/shipmentController.js:236-258 | 403 exactly for roles other than admin, agent and employee; otherwise every record appears exactly once |
| ShipmentHandlers.ListMine | controllers/shipmentController.js:261-279 | the caller sees exactly the records whose sender is the caller, one row per record, in natural order |
| ShipmentHandlers.FirstWithTrackingNumber | controllers/shipmentController.js:285 | `findOne` returns a record with the number when one exists, and none otherwise |
| ShipmentHandlers.Track | controllers/shipmentController.js:282-301 | 404 exactly when no record has the number; otherwise a record with the number, without its sender |
| ShipmentHandlers.PublicDropsOnlySender | controllers/shipmentController.js:285 | the public record drops the sender and nothing else: putting it back restores the shipment, and two shipments look alike in public exactly when they differ at most in sender |
| ShipmentHandlers.TrackFindsTheShipment | controllers/shipmentController.js:285 | since numbers are unique, tracking a stored shipment's number shows that shipment |
| Backfill.InitialEntry | scripts/backfillTrackingHistory.js:21-25 | the entry's status is the shipment's status, or "pending" when that is empty; its location is the origin, or "Unknown" when that is missing or empty; it is stamped now |
| Backfill.WithInitialEntry | scripts/backfillTrackingHistory.js:26-28 | the entry is appended and nothing else changes |
| Backfill.NeedsBackfill | scripts/backfillTrackingHistory.js:17 | the script selects exactly the shipments without history, in natural order |
| Backfill.Backfilled | scripts/backfillTrackingHistory.js:19-31 | the script adds and removes no shipment |
| Backfill.Run | scripts/backfillTrackingHistory.js:8-38 | without a connection string nothing changes; otherwise each selected shipment gets its entry and the count is the number selected |
| Backfill.BackfillEach | scripts/backfillTrackingHistory.js:19-31 | the loop handles each selected shipment in turn and counts every one |
| Backfill.BackfilledKeepsValid | scripts/backfillTrackingHistory.js:26-28 | the script keeps the collection valid |
| Backfill.BackfilledAt | scripts/backfillTrackingHistory.js:19-29 | afterwards each selected shipment's history is exactly its initial entry, and every other shipment is unchanged |
| Backfill.SecondRunSelectsNothing | scripts/backfillTrackingHistory.js:17 | running the script twice selects nothing the second time |
| Backfill.NoneSelected | scripts/backfillTrackingHistory.js:17 | a collection where every record has a history yields no selection |
| Backfill.BackfilledStatusMatchesIff | scripts/backfillTrackingHistory.js:22 | a backfilled shipment's status matches its entry exactly when its status was non-empty |
| MessageSlides.NewSlide | controllers/messageslidesController.js:89-96 | the stored slide has trimmed title and message; it is active unless the body says otherwise; the order is the given one or 0; the icon is the trimmed given icon when non-empty and null otherwise; the colour is the trimmed given one or the default; both timestamps are now |
| MessageSlides.NewSlidePassesValidationIff | models/MessageSlides.js:5-16 | a created slide passes the schema exactly when its trimmed title and message are non-empty and at most 100 and 500 characters long |
| MessageSlides.Assigned | controllers/messageslidesController.js:129-134 | each field the body names replaces the stored one (title, message, icon and colour trimmed) and each field it leaves out is kept; id and timestamps never change; trimmed records stay trimmed; an empty body changes nothing |
| MessageSlides.AssignedIdempotent | controllers/messageslidesController.js:129-134 | sending the same update twice stores the same fields as once |
| MessageSlides.Saved | controllers/messageslidesController.js:136 | save stores the assigned fields; when something changed the modification time becomes the save time, otherwise the record is stored as it was |
| MessageSlides.EmptyUpdateChangesNothing | controllers/messageslidesController.js:129-136 | an update naming no field leaves the record as it was, timestamps included |
| MessageSlides.BulkSet | controllers/messageslidesController.js:194-197 | a matched slide gets the flag when one is given, and the modification time; nothing else changes |
| MessageSlides.BulkUpdated | controllers/messageslidesController.js:194-197 | every listed slide that exists is updated and every other slide is unchanged |
| MessageSlides.BulkUpdatedKeepsValid | controllers/messageslidesController.js:194-197 | the bulk update keeps every stored slide valid and normalised under its own id |
| MessageSlides.MatchedCount | controllers/messageslidesController.js:194-203 | the reported count is at most the number of ids and of stored slides; it is 0 exactly when no listed id is stored; it equals the number of ids when they are distinct and all stored |
| MessageSlides.BulkUpdatedIdempotent | controllers/messageslidesController.js:194-197 | repeating the bulk update changes only modification times |
| MessageSlides.SlideBeforeIsTotalPreorder | controllers/messageslidesController.js:8-9 | the listing order (active first, display order, newest first) orders every pair and is transitive |
| MessageSlides.ActiveSlideBeforeIsTotalPreorder | controllers/messageslidesController.js:30-31 | the active listing order is a total preorder |
| MessageSlides.AllSlides | controllers/messageslidesController.js:6-23 | the listing is sorted and holds every slide exactly once |
| MessageSlides.ActiveSlides | controllers/messageslidesController.js:28-45 | the active listing is sorted, holds exactly the active slides, and has one row per active slide |
| MessageSlides.ActiveSlidesEachOnce | controllers/messageslidesController.js:30-31 | every slide in the active listing occurs there exactly once |
| MessageSlides.ActiveSlidesComeFirst | controllers/messageslidesController.js:9 | no inactive slide precedes an active one in the full listing |
| MessageSlides.InsertKeepsValid | models/MessageSlides.js:3-42 | a slide that passes the schema and is trimmed may be stored under the next id without breaking the collection's invariant |
| MessageSlides.SlideStore.Create | controllers/messageslidesController.js:77-110 | 400 without a title or message, and 400 when the built slide fails validation; otherwise it is stored under a fresh id with 201 |
| MessageSlides.SlideStore.Update | controllers/messageslidesController.js:115-150 | 404 for an unknown id; 400 when the assigned fields fail validation; otherwise the saved slide is stored |
| MessageSlides.SlideStore.Delete | controllers/messageslidesController.js:155-178 | 404 for an unknown id; otherwise only that slide is removed |
| MessageSlides.SlideStore.BulkUpdateStatus | controllers/messageslidesController.js:183-211 | 400 without a non-empty id list; otherwise the bulk update is applied and the matched count is reported |
| Facilities.CodeOf | models/Facility.js:12-18 | a code is stored trimmed and upper-cased, whichever setter runs first |
| Facilities.EmailOf | models/Facility.js:44-48 | a contact e-mail is stored trimmed and lower-cased, whichever setter runs first |
| Facilities.CodeOfIdempotent | models/Facility.js:12-18 | normalising a stored code again changes nothing |
| Facilities.EmailOfIdempotent | models/Facility.js:44-48 | normalising a stored e-mail again changes nothing |
| Facilities.NewFacility | controllers/facilityController.js:43-55 | every given field goes through its setter and missing ones stay absent; the facility is active whatever the body says; both timestamps are now |
| Facilities.NewFacilityPassesValidationIff | models/Facility.js:4-23 | a created facility passes the schema exactly when its trimmed name has 2 to 100 characters and its trimmed country is non-empty |
| Facilities.Updated | controllers/facilityController.js:70-74 | the id and creation time never change and the modification time is set; the field values are stated by UpdatedRequiredFields and UpdatedOptionalFields |
| Facilities.UpdatedRequiredFields | controllers/facilityController.js:70-74 | a named name or country replaces the stored one trimmed, a named code trimmed and upper-cased, a named active flag as given; each unnamed one is kept |
| Facilities.UpdatedOptionalFields | controllers/facilityController.js:70-74 | a named state, city, address, contact person, phone, e-mail (trimmed and lower-cased), capacity or notes replaces the stored one through its setter; an unnamed one is kept |
| Facilities.EmptyUpdateTouchesOnlyTime | controllers/facilityController.js:70-74 | an update that names no field moves only the modification time |
| Facilities.UpdateValidationSuffices | controllers/facilityController.js:70-74 | for a valid facility, the updated record passes the schema exactly when the named fields pass the update validators |
| Facilities.Toggled | controllers/facilityController.js:102-103 | toggling flips the flag, sets the modification time and changes nothing else |
| Facilities.ToggleTwice | controllers/facilityController.js:97-109 | toggling twice restores every field but the modification time |
| Facilities.StoreKeepsValid | models/Facility.js:4-23 | a valid record that clashes with no other's name or code keeps the collection valid and its indexes unique |
| Facilities.InsertKeepsValid | models/Facility.js:4-23 | a valid record stored under the next id, clashing with no other's name or code, keeps the collection valid |
| Facilities.SameKeysNoClash | models/Facility.js:7 | a record keeping its name and code cannot clash |
| Facilities.FacilityBeforeIsTotalPreorder | controllers/facilityController.js:5 | the listing order (active first, then name) is a total preorder |
| Facilities.NameBeforeIsTotalPreorder | controllers/facilityController.js:15 | the name order is a total preorder |
| Facilities.AllFacilities | controllers/facilityController.js:3-11 | the listing is sorted and holds every facility exactly once |
| Facilities.ActiveFacilities | controllers/facilityController.js:13-21 | the active listing is sorted by name and holds exactly the active facilities |
| Facilities.ActiveFacilitiesStrictlyByName | controllers/facilityController.js:15 | names are unique, so the active listing's names strictly increase and the database breaks no ties |
| Facilities.FacilityStore.Create | controllers/facilityController.js:34-66 | 400 without a name or country; 500 when the built record fails validation; 400 when the name or code is taken; otherwise it is stored with 201 |
| Facilities.FacilityStore.Update | controllers/facilityController.js:68-84 | 500 when the body fails the validators, before the lookup; then 404; then 400 for a taken name or code; otherwise the update is stored |
| Facilities.FacilityStore.Delete | controllers/facilityController.js:86-95 | 404 for an unknown id; otherwise only that facility is removed |
| Facilities.FacilityStore.ToggleStatus | controllers/facilityController.js:97-109 | 404 for an unknown id; otherwise the flag is flipped and saved |
| ShipmentStatuses.ParseCategory | models/ShipmentStatus.js:28-32 | a spelling the enum accepts names the category it is read as |
| ShipmentStatuses.ParseCategoryName | models/ShipmentStatus.js:30 | every category's spelling is accepted and read back as that category |
| ShipmentStatuses.ParseCategoryAcceptsExactlyNames | models/ShipmentStatus.js:30 | the enum validator accepts exactly the six spellings |
| ShipmentStatuses.NewStatus | controllers/shipmentStatusController.js:43-50 | text is trimmed; colour "#6B7280", category "other", order 0 and active when not given; both timestamps are now |
| ShipmentStatuses.NewStatusCategory | controllers/shipmentStatusController.js:43-50 | a new status stores the category the body spells |
| ShipmentStatuses.NewStatusPassesValidation | models/ShipmentStatus.js:4-32 | a body that passes the validators gives a record that passes the schema |
| ShipmentStatuses.Updated | controllers/shipmentStatusController.js:65-69 | a named name replaces the stored one (trimmed) and an unnamed name or category is kept; id and creation time never change and the modification time is set; an empty body moves only the modification time; the other fields are stated by UpdatedFields |
| ShipmentStatuses.UpdatedFields | controllers/shipmentStatusController.js:65-69 | a named code, description or colour replaces the stored one trimmed, a named category is the one the body spells, a named order or flag is taken as given; each unnamed field is kept |
| ShipmentStatuses.UpdatedPassesValidation | controllers/shipmentStatusController.js:65-69 | an update whose named fields pass the validators keeps a valid status valid |
| ShipmentStatuses.Toggled | controllers/shipmentStatusController.js:97-98 | toggling flips the flag, sets the modification time and changes nothing else |
| ShipmentStatuses.ToggleTwice | controllers/shipmentStatusController.js:92-104 | toggling twice restores every field but the modification time |
| ShipmentStatuses.StoreKeepsValid | models/ShipmentStatus.js:4-17 | a valid record that clashes with no other's name or code keeps the collection valid and its indexes unique |
| ShipmentStatuses.InsertKeepsValid | models/ShipmentStatus.js:4-17 | a valid record stored under the next id, clashing with no other's name or code, keeps the collection valid |
| ShipmentStatuses.SameKeysNoClash | models/ShipmentStatus.js:7 | a record keeping its name and code cannot clash |
| ShipmentStatuses.StatusBeforeIsTotalPreorder | controllers/shipmentStatusController.js:5 | the order by display order, then name, is a total preorder |
| ShipmentStatuses.AllStatuses | controllers/shipmentStatusController.js:3-11 | the listing is sorted and holds every status exactly once |
| ShipmentStatuses.ActiveStatuses | controllers/shipmentStatusController.js:13-21 | the active listing is sorted, holds exactly the active statuses, and has one row per active status |
| ShipmentStatuses.ActiveStatusesEachOnce | controllers/shipmentStatusController.js:15 | every status in the active listing occurs there exactly once |
| ShipmentStatuses.StatusStore.Create | controllers/shipmentStatusController.js:34-61 | 400 without a name; 500 when a field fails validation (name length, description length, unknown category); 400 when the name or code is taken; otherwise it is stored with 201 |
| ShipmentStatuses.StatusStore.Update | controllers/shipmentStatusController.js:63-79 | 500 when the body fails the validators, before the lookup; then 404; then 400 for a taken name or code; otherwise the update is stored |
| ShipmentStatuses.StatusStore.Delete | controllers/shipmentStatusController.js:81-90 | 404 for an unknown id; otherwise only that status is removed |
| ShipmentStatuses.StatusStore.ToggleActive | controllers/shipmentStatusController.js:92-104 | 404 for an unknown id; otherwise the flag is flipped and saved |

## Left out

- E-mail HTML bodies are not modelled: the notification text, the sender details in the admin mail, and the reply message quoted in the mail. The requests are built with an empty body; the subjects are modelled exactly.
- The HTTP POST to Brevo and its failures are left out. Notification failures are logged and never change a handler's outcome, so a notice is modelled as the request that would be sent.
- Rendering a QR code (`QRCode.toDataURL`) is a parameter. A renderer that throws is `None`.
- Persistence failures are left out: database errors, connection loss, and the catch-all 500 responses of the listing and lookup handlers. So are cast errors for malformed ids or mistyped body fields. Ids are natural numbers handed out in increasing order.
- The QR generation that the list, mine and track handlers start without waiting for it is left out. It runs after the response, and its effect is the batch helper's, which is modelled.
- Route wiring and the `authenticate`/`authorize` middleware are left out. Handler-level role checks are modelled. The message-slide routes carry no authentication at all.
- `populate` of the sender is modelled only in `ShipmentHandlers.EditAccessAsWritten`, the edit guard as written. The store's `Edit` uses the intended guard `EditAccess`, which compares the sender's id. The listings return the records without the joined e-mail.
- Shipment `createdAt`/`updatedAt` timestamps are not modelled. Slide, facility and status timestamps are. Shipment fields with no behaviour of their own are one string map `details`: the names and addresses, dimensions and dates.
- A body field that is explicitly `null` is treated like one left out. A body that sets `_id`, `replies` or timestamps directly is not modelled.
- Case mapping covers ASCII letters only. Lengths are counted in characters, not UTF-16 code units.
- The bulk slide update reports only the matched count, not the driver's other counters. A body without `isActive` is modelled as changing only the modification time.
- Concurrency is left out: the handlers run one at a time.
- Logging and the script's console output are left out.
- The get-by-id handlers (`getFacilityById`, `getMessageSlideById`, `getStatusById`, and the shipment lookup) are left out. Each is a single `findById` that answers 404 or the record, so it has no logic beyond a map lookup.
- The print, invoice and waybill handlers (controllers/shipmentController.js:443-483) are placeholders with no logic of their own, so they are not modelled.
- The script's exit code is carried by `Backfill.Outcome`: aborted before connecting (1) or done with its count (0).
- Backfill.Run: an error thrown inside the loop (which the script catches, still exiting with 0) is not modelled, because persistence failures are not.

## Findings

| source | as written | input that shows it | evidently intended | confidence | as-written member | corrected member |
|---|---|---|---|---|---|---|
| controllers/shipmentController.js:349-355 | The sender is populated into a user document, and the guard compares `shipment.sender.toString()` with `req.user.id`. A populated document's string form prints its fields, not just its id, so for a non-admin the comparison is always false. | A client (role "client", id 7) editing a shipment whose sender is user 7 gets 403. | An admin or the shipment's own sender may edit it. The comment on line 354 says so, and so does the 403 message ("only edit your own shipments"). | medium, not executed | ShipmentHandlers.OwnerRefusedAsWritten | ShipmentHandlers.EditAccess |
