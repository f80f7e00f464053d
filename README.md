# iti-events-server in Dafny

A model of the rules at the heart of the iti-events-server web service.
The service is an Express/Mongoose back end for an events portal. It stores
events, attendance forms, event categories, bus lines with embedded bus
points, and users. It authenticates users with JSON web tokens.

The model replaces the MongoDB collections with in-memory values:

- Events are a `seq`.
- The attendance ledger is a class with a `seq` of records.
- The category table, the bus-line store and the user store are classes
  with a `map` from id to record.

It replaces bcrypt, jsonwebtoken, the clock and the failure of a storage call
with parameters:

- A hash result is an `Option<string>`.
- `bcrypt.compare` is a `(string, string) -> bool` function.
- `jwt.verify` is a `string -> Option<TokenPayload>` function.
- The current time `now` is an integer number of seconds.
- `StoreFault` names which of a handler's numbered store calls throws.
- Joi's ISO 8601 date conversion is a `Json -> Option<int>` function. Joi
  converts a string, and a number by way of its decimal text, so a body
  with `"startDate": 2030` can pass.

Each handler is then the decision chain of the source. Its outcome is
modelled as a `Reply` (a response with a status and a body, or `next(err)`)
or, for a middleware, as a `Gate`. Each handler is proved against a
specification of which error each input gets and what the store holds
afterwards.

One Dafny module corresponds to each source file:

- `EventModel`, `EventService`, `EventAttendeeModel`, `EventController`,
  `UpdateEventValidation`: events, their derived end date, the temporal
  queries, the attendance ledger, and the update-body validator.
- `EventCategoryModel`, `EventCategoryController`: the category records and
  their handlers.
- `BusLineModel`, `BusLineController`, `BusPointController`: the bus lines,
  the `remainingSeats` hook, and the in-place edits of the point list.
- `UserModel`, `AuthController`, `UserController`, `AuthenticateUser`,
  `IsAdmin`: the user schema and its hooks, login, register, refresh, bearer
  tokens and the admin gate.
- `AppErrors`, `DataValidationErrors`, `ErrorHandler`, `JoiValidation`,
  `MulterConfig`: the error taxonomy, the Joi detail fold, the central error
  handler and the upload filter.
- `Common` and `Documents`: shared definitions (Option, ids, JavaScript
  trimming, store faults, JSON documents).

Some behaviours of the code, as the model states them:

- The bus-line seat count is initialised from `capacity` on the first save
  and is never changed again. Nothing in these files decrements, increments
  or checks it, so no seat invariant is claimed.
- `registerUserInEvent` does not refuse a second registration of the same
  user for the same event. The proved postcondition says that the matching
  count grows by one.
- The central error handler sends only `{ message }`. The field maps of
  validation errors never reach the client.
- `maxAge` without `minAge` is refused. The `Joi.ref("minAge")` comparison
  fails against an absent reference.

The bus-point handlers save the whole line, and `save()` validates every
path loaded from the store as well as the changed ones (Mongoose restricts
it to the changed paths only under `validateModifiedOnly`, which these
handlers do not set). The model therefore validates the whole line.
`AddedPointValidity`, `RemovedPointValidity` and `UpdatePointValidity` show
that on a line that was valid before, this comes down to checking the
changed point. `LowCapacityBlocksPointEdits` shows the other side: once
`updateBusLine`, which runs no validators, has stored a capacity below 5,
every later point edit of that line fails its save.

## Model

| member | source | states |
|---|---|---|
| Common.Trim | src/models/BusLine.ts:10-14 | trimming removes leading and trailing whitespace: its result has no whitespace at either end, and an already trimmed string is unchanged |
| Common.TrimIsSlice | src/models/BusLine.ts:10-14 | the trimmed string is a slice of the original with only whitespace before and after it |
| Documents.RenameId | src/models/Event.ts:77-80 | the transform moves `_id` to `id`: `_id` is gone, `id` exists iff `_id` did and holds its value, and every other key keeps its value |
| DataValidationErrors.FieldMessages | src/errors/DataValidationError.ts:10-14 | the field map has exactly the failing paths of the cause as keys |
| DataValidationErrors.NewDataValidationError | src/errors/DataValidationError.ts:7-15 | the loop builds an error with message "Validation Error", the given status or 422 by default, and one entry per failing path mapped to that path's message; no failing paths give an empty map |
| ErrorHandler.HandleError | src/middlewares/errorHandler.ts:4-19 | an AppError (and its NotFoundError and ValidationError subclasses) is answered with its own status and message; anything else with 500 "Internal Server Error"; the body is the message only |
| ErrorHandler.AnswersByKind | src/middlewares/errorHandler.ts:8-18 | NotFoundError keeps 404 and its message; every ValidationError is 400 "Validation Error" whatever field map it carries; a raw store error is 500 |
| JoiValidation.Fold | src/utils/joiValidation.ts:3-6 | the reduce's result has the keys of the accumulator plus the keys of the details, a detail without `context.key` counting as key ""; untouched keys keep their values |
| JoiValidation.FormatValidationErrorsSpec | src/utils/joiValidation.ts:3-6 | the map has exactly one entry per distinct key of the details, holding the message of the last detail with that key; no details give the empty map |
| MulterConfig.FileFilter | src/configs/multerConfig.ts:11-19 | a file is accepted iff its mimetype starts with "image/"; a refusal is a ValidationError "Invalid image format" whose map is exactly the file's field name mapped to that message |
| MulterConfig.Upload | src/configs/multerConfig.ts:8-19 | an upload passes iff the filter accepts it and it is at most 10485760 bytes; a refused mimetype gives the filter's error |
| MulterConfig.FilterExamples | src/configs/multerConfig.ts:12 | the prefix test is case-sensitive and anchored: "image/png" passes, "Image/png" and "application/image/png" do not |
| EventModel.MissingPaths | src/models/Event.ts:21-36 | the required paths name, description, startDate and capacity are reported, each with mongoose's required error, exactly when absent (an empty string counts as absent); none missing iff the input is complete |
| EventModel.PreSave | src/models/Event.ts:92-96 | the pre-save hook sets endDate to startDate plus duration hours and changes nothing else |
| EventModel.NewEvent | src/models/Event.ts:19-72 | building an event fails with the missing-path validation error iff a required path is missing; otherwise the record carries the id, category and required fields of the input, each optional field as supplied or, when absent, its own default, and the endDate derived from startDate and duration |
| EventModel.DefaultsOfNewEvent | src/models/Event.ts:37-64 | the defaults are price 0, duration 24, registrationClosed false, isActive true, isPaid false, minAge 18, maxAge 60, so a default event ends 24 hours after it starts |
| EventModel.SuppliedEndDateIgnored | src/models/Event.ts:92-96 | a client-supplied endDate has no effect: the saved endDate is always derived from startDate and duration |
| EventModel.SavedEventEndsAfterStart | src/models/Event.ts:92-94 | with a non-negative duration the saved endDate is not before startDate |
| EventModel.EventCollection.Save | src/controllers/eventController.ts:27-32 | `event.save()`: a validation failure or a store failure leaves the collection unchanged; otherwise exactly the new event is appended |
| EventService.SelectKeepsCounts | src/services/eventService.ts:24-36 | a query's filter keeps every matching record as often as it is stored and no record that does not match |
| EventService.GetEvent | src/services/eventService.ts:11-22 | null for a malformed id or for an id no event has; otherwise a stored event with that id |
| EventService.SortByStart | src/services/eventService.ts:25 | `.sort({startDate: 1})`: the result is ordered by non-decreasing startDate and is a permutation of its input |
| EventService.ActiveEventsAtDate | src/services/eventService.ts:24-27 | exactly the active events with startDate <= d <= endDate, ordered by startDate, with each event as often as stored |
| EventService.ActiveEventsStartsAfterDate | src/services/eventService.ts:28-31 | exactly the active events with startDate > d, ordered by startDate, with each event as often as stored |
| EventService.ActiveEndedBeforeDate | src/services/eventService.ts:33-36 | exactly the active events with endDate < d, ordered by startDate, with each event as often as stored |
| EventService.ExactlyOneQuery | src/services/eventService.ts:24-36 | a stored active event with endDate >= startDate is in exactly one of the three queries at any date |
| EventService.InactiveNeverReported | src/services/eventService.ts:24-36 | an inactive event is in none of the three queries |
| EventService.FirstMatch | src/services/eventService.ts:62 | `findOneAndDelete` picks the first record of that user and event, or none when no record matches |
| EventService.AttendeeLedger.IsUserRegisteredInEvent | src/services/eventService.ts:38-44 | a failing `findOne` fails the call; otherwise true iff some record has that user and that event |
| EventService.AttendeeLedger.GetEventAttendee | src/services/eventService.ts:56-59 | a failing `findOne` fails the call; otherwise a stored record of that user and event, or null iff the user is not registered |
| EventService.AttendeeLedger.GetEventAttendees | src/services/eventService.ts:69-72 | a failing `find` fails the call; otherwise exactly the stored records of that event |
| EventService.AttendeeLedger.RegisterUserInEvent | src/services/eventService.ts:46-54 | appends one record with isApproved = !isPaid (isPaid false by default) and receipt {null, null} by default; afterwards the user is registered, and an existing registration is not refused: the count of matching records grows by one; a failed save stores nothing, and a failed `populate` after it fails the call with the record stored |
| EventService.AttendeeLedger.DeleteEventAttendee | src/services/eventService.ts:61-67 | removes and returns the first matching record and keeps the rest in order, or returns null and changes nothing; a cloud delete is requested iff the removed receipt has a non-empty cloudinaryPublicId; a failing `findOneAndDelete` changes nothing, and a failing cloud delete fails the call after the record is removed |
| EventService.ReceiptCleanup | src/services/eventService.ts:63-65 | at most one cloud delete, exactly when the receipt's public id is a non-empty string, and of that id |
| EventService.CountPositive | src/services/eventService.ts:38-44 | the count of matching records is positive iff some record matches |
| EventService.DefaultReceiptNeedsNoCleanup | src/services/eventService.ts:46 | the default receipt and a receipt with an empty public id cause no cloud delete |
| EventAttendeeModel.NewAttendee | src/models/EventAttendee.ts:5-37 | userId and eventId are required and a missing one is reported with a required error; isApproved defaults to true and the receipt to {null, null} |
| EventAttendeeModel.AttendeeToJson | src/models/EventAttendee.ts:43-49 | the output lacks userId, eventId, `__v`, `_id` and `receipt.cloudinaryPublicId`; every other field, including isApproved and receipt.imageUrl, is unchanged; a null or absent receipt makes the transform throw |
| EventAttendeeModel.AttendeeJsonOfRecord | src/models/EventAttendee.ts:43-49 | the JSON of a stored record is exactly {id, isApproved, receipt: {imageUrl}} |
| EventController.CreateEvent | src/controllers/eventController.ts:8-35 | a missing or malformed category id gives ValidationError {category: "Invalid category id format"}; a lookup failure is passed on; an unknown category gives {category: "Category doesn't exist"}; these and a failed save store nothing; success stores exactly the event built from the body and answers 201 with it |
| EventController.GetAllEvents | src/controllers/eventController.ts:37-50 | every stored event, inactive ones included, or the store error |
| EventController.GetCurrentEvents | src/controllers/eventController.ts:52-70 | exactly the active events with endDate > now, including those not yet started |
| EventController.GetFinishedEvents | src/controllers/eventController.ts:72-90 | exactly the active events with endDate < now |
| EventController.CurrentAndFinished | src/controllers/eventController.ts:57-77 | current and finished results are disjoint; an event ending exactly now is in neither; an active upcoming event is current |
| UpdateEventValidation.TextProblem | src/middlewares/validateUpdateEventReq.ts:8-29 | a string rule is met iff the value is a non-empty string of at least its minimum length |
| UpdateEventValidation.DateProblem | src/middlewares/validateUpdateEventReq.ts:30-38 | the date rule is met iff the value is a string, or a number, that converts as an ISO date to a moment no earlier than now |
| UpdateEventValidation.DateMessages | src/middlewares/validateUpdateEventReq.ts:30-38 | a value that is neither string nor number, or a number that does not convert, gets the `date.base` message; a string that does not convert the `date.format` message; a moment before now the `date.min` message |
| UpdateEventValidation.NumberProblem | src/middlewares/validateUpdateEventReq.ts:39-67 | a strict number rule is met iff the value is a number (not a numeric string) within ±(2^53 − 1), whole where the rule says integer, and above zero; a number outside that range gets Joi's default "must be a safe number" message first |
| UpdateEventValidation.UnsafeCapacityRefused | src/middlewares/validateUpdateEventReq.ts:39-48 | a capacity above 2^53 − 1, 1e16 say, is refused with `"capacity" must be a safe number` |
| UpdateEventValidation.BooleanProblem | src/middlewares/validateUpdateEventReq.ts:68-82 | a strict boolean rule is met iff the value is true or false |
| UpdateEventValidation.MaxAgeProblem | src/middlewares/validateUpdateEventReq.ts:92-102 | the maxAge rule is met iff maxAge is a positive whole number and the body has a numeric minAge below it |
| UpdateEventValidation.FieldProblem | src/middlewares/validateUpdateEventReq.ts:7-103 | a key's value gets no message iff it meets that key's rule |
| UpdateEventValidation.KeyDetail | src/middlewares/validateUpdateEventReq.ts:7-103 | a schema key yields no detail iff it is absent or its value meets its rule |
| UpdateEventValidation.FirstFieldProblem | src/middlewares/validateUpdateEventReq.ts:7-103 | with abortEarly, no detail iff every schema key conforms; otherwise the detail of a failing key |
| UpdateEventValidation.FirstUnknownKey | src/middlewares/validateUpdateEventReq.ts:7-103 | no detail iff every body key is a schema key; otherwise a "not allowed" detail for a key outside the schema |
| UpdateEventValidation.ValidateBodySpec | src/middlewares/validateUpdateEventReq.ts:105 | the validation finds no detail iff the body conforms to every rule |
| UpdateEventValidation.ValidateSpec | src/middlewares/validateUpdateEventReq.ts:105-112 | the middleware calls next() with no error iff the body conforms; otherwise it calls next with a ValidationError whose map is the formatted single detail |
| UpdateEventValidation.EmptyBodyPasses | src/middlewares/validateUpdateEventReq.ts:7-103 | every key is optional: an empty body passes |
| UpdateEventValidation.AcceptedBodyMeetsRules | src/middlewares/validateUpdateEventReq.ts:7-103 | an accepted body has only schema keys; name and description are strings of length >= 3; category is a non-empty string; startDate is an ISO date not before now; capacity, duration and minAge are positive integers (real numbers, not numeric strings); price is positive; the three flags are booleans; maxAge is a positive integer greater than a present numeric minAge |
| UpdateEventValidation.SinglePropertyBody | src/middlewares/validateUpdateEventReq.ts:7-103 | a body with one schema key is judged by that key's rule alone |
| UpdateEventValidation.SinglePropertyVerdict | src/middlewares/validateUpdateEventReq.ts:7-112 | a body with one schema key passes iff its value meets that key's rule, and is otherwise refused with that rule's first failing message under the key |
| UpdateEventValidation.MaxAgeAloneRefused | src/middlewares/validateUpdateEventReq.ts:92-102 | any positive whole maxAge sent without minAge is refused with the reference error |
| UpdateEventValidation.NumericStringRefused | src/middlewares/validateUpdateEventReq.ts:39-48 | the strict number rule refuses every string capacity, numeric ones such as "10" included, with "Capacity should be a number" |
| UpdateEventValidation.FractionRefused | src/middlewares/validateUpdateEventReq.ts:39-48 | every capacity in the safe range that is not a whole number, 2.5 say, is refused with "Capacity must be an integer" |
| UpdateEventValidation.RegistrationFlagRefusedAsWritten | src/middlewares/validateUpdateEventReq.ts:68-72 | with the schema key as written, a body setting the model field registrationClosed to any value, true included, is refused as not allowed |
| UpdateEventValidation.RegistrationFlagAccepted | src/middlewares/validateUpdateEventReq.ts:68-72 | with the key matching the model field, every boolean registrationClosed passes and every string is refused with "registrationClosed must be true/false" |
| EventCategoryModel.NewCategory | src/models/EventCategory.ts:11-23 | name is required (an empty string counts as absent); imageUrl and cloudinaryPublicId start as null |
| EventCategoryModel.CategoryToJson | src/models/EventCategory.ts:27-33 | toJSON renames `_id` to `id` and removes cloudinaryPublicId, keeping every other key |
| EventCategoryModel.CategoryToObject | src/models/EventCategory.ts:35-41 | toObject renames `_id` to `id` and keeps cloudinaryPublicId |
| EventCategoryModel.CategoryProjections | src/models/EventCategory.ts:27-41 | a stored category's toJSON is {id, name, imageUrl, `__v`} and its toObject also keeps cloudinaryPublicId |
| EventCategoryController.GetCategoryEvents | src/controllers/eventCategoryController.ts:62-77 | a malformed id is a ValidationError before any store call; otherwise exactly the events whose category is that id |
| EventCategoryController.CategoryTable.GetCategoryById | src/controllers/eventCategoryController.ts:40-60 | a malformed id gives ValidationError "Invalid id format", a store failure is passed on, an unknown id gives NotFoundError "Category with id [..] doesn't exist"; otherwise 200 with the stored category |
| EventCategoryController.CategoryTable.CreateCategory | src/controllers/eventCategoryController.ts:9-28 | the pre-check fails only on a lookup error; a missing name fails validation; a same-named category is refused only through the unique index's duplicate key; success stores the new category (no images) and answers 201; names stay unique |
| EventCategoryController.CategoryTable.UpdateCategoryById | src/controllers/eventCategoryController.ts:79-126 | malformed id 400, store failure passed on, unknown id 404, a different category with the name "Category name already exists"; every failure leaves the table unchanged; success changes only that category's name and answers 201 with it |
| EventCategoryController.CategoryTable.DeleteCategoryById | src/controllers/eventCategoryController.ts:128-149 | malformed id 400, unknown id 404 with nothing removed; otherwise the category is removed and the answer is 204 |
| EventCategoryController.RenameToOwnNameAllowed | src/controllers/eventCategoryController.ts:100-102 | the uniqueness lookup excludes the category itself, so renaming to its own name is never refused |
| BusLineModel.TrimmedText | src/models/BusLine.ts:10-14 | a string path with `trim` stores the trimmed value, and an absent value stays absent |
| BusLineModel.CastPoint | src/models/BusLine.ts:35-53 | casting a bus point trims its name and changes nothing else |
| BusLineModel.FindPoint | src/controllers/busPointController.ts:43 | `busPoints.id(id)` finds the first point with that id, or none iff no point has it |
| BusLineModel.WithoutPointMembers | src/controllers/busPointController.ts:48 | removal keeps exactly the points whose id differs |
| BusLineModel.WithoutAbsentPoint | src/controllers/busPointController.ts:48 | removing an id no point has leaves the list unchanged |
| BusLineModel.Assign | src/controllers/busPointController.ts:78 | `Object.assign` assigns every key of the update, `_id` included: a value overwrites its path (a name is trimmed), an explicit null clears it, and a path the update does not mention keeps its value |
| BusLineModel.EmptyPatchIsIdentity | src/controllers/busPointController.ts:78 | an empty update leaves the point unchanged |
| BusLineModel.AssignValidity | src/controllers/busPointController.ts:78 | a null for a required path leaves an invalid point; an update that touches no required path keeps a valid point valid |
| BusLineModel.PreSave | src/models/BusLine.ts:64-69 | on a new line with remainingSeats unset, remainingSeats becomes capacity; otherwise it is kept; nothing else changes |
| BusLineModel.BusLineDocument.PushPoint | src/controllers/busPointController.ts:20 | the document's point list gets the new point appended |
| BusLineModel.BusLineDocument.RemovePoint | src/controllers/busPointController.ts:48 | the document's point list loses the points with that id |
| BusLineModel.BusLineDocument.AssignToPoint | src/controllers/busPointController.ts:78 | only the chosen point is merged with the update |
| BusLineModel.BusLineDocument.RunPreSave | src/models/BusLine.ts:64-69 | the hook leaves the document as PreSave describes |
| BusLineModel.RemainingSeatsOnlyInitialised | src/models/BusLine.ts:65-67 | saving an existing line never resets remainingSeats, even after a capacity change; an explicit value on a new line is kept; a second save changes nothing |
| BusLineModel.WithoutPointKeepsOrder | src/controllers/busPointController.ts:43-48 | no point with the id remains; when none had it the list is unchanged; when one had it the list gets shorter |
| BusLineModel.WithoutSinglePoint | src/controllers/busPointController.ts:48 | removing the one point with that id leaves the points before and after it in order |
| BusLineController.CastPoints | src/models/BusLine.ts:35-53 | each point of a list is cast, in place and in order |
| BusLineController.NewLineFromBody | src/controllers/busLineController.ts:7-21 | only the whitelisted fields are copied: remainingSeats and the image fields are unset, the name is trimmed, isActive defaults to true |
| BusLineController.CreatedLineIgnoresUncopiedFields | src/controllers/busLineController.ts:7-23 | a client cannot set remainingSeats or the images: the created line is the same whatever they are, and remainingSeats starts equal to capacity |
| BusLineController.UpdatedLine | src/controllers/busLineController.ts:62-80 | the update writes only the listed fields that are present and never remainingSeats or the images |
| BusLineController.UpdateKeepsRemainingSeats | src/controllers/busLineController.ts:62-80 | remainingSeats survives a capacity change, and since validators do not run on this update any capacity below 5 is stored, leaving the line invalid |
| BusLineController.BusLineStore.CreateBusLine | src/controllers/busLineController.ts:6-32 | any create error (validation, store, duplicate id) gives 500 "Database error. Please try again later." and stores nothing; success stores and answers 201 with the line whose remainingSeats equals its capacity |
| BusLineController.BusLineStore.GetBusLines | src/controllers/busLineController.ts:34-42 | 500 on a store error; otherwise 200 with exactly the stored lines |
| BusLineController.BusLineStore.GetBusLineById | src/controllers/busLineController.ts:44-58 | 500 on a store error or a malformed id, 404 "Bus Line not found" for an unknown id, otherwise 200 with the line |
| BusLineController.BusLineStore.UpdateBusLine | src/controllers/busLineController.ts:60-91 | 500 on a store error; no not-found check: an unknown id answers 200 with null and changes nothing; otherwise the line is updated and returned |
| BusLineController.BusLineStore.DeleteBusLine | src/controllers/busLineController.ts:93-103 | 500 on a store error; otherwise 204 whether or not the id existed, and the line is gone |
| BusPointController.WithAddedPoint | src/controllers/busPointController.ts:20 | the new point is appended: the length grows by one, earlier points are unchanged, the rest of the line is unchanged |
| BusPointController.AddedPointValidity | src/controllers/busPointController.ts:20-22 | a valid line stays valid after the append iff the new point is valid |
| BusPointController.AddBusPoint | src/controllers/busPointController.ts:7-29 | 500 on a store error, 404 "Bus Line not found" with no change; a failed save gives 500 with no change; otherwise 201 with the line holding the appended point |
| BusPointController.RemoveBusPoint | src/controllers/busPointController.ts:31-58 | 500, 404 for the line, 404 "Bus Point not found", each with no change; a failed save still answers 200, with null and no change; otherwise 200 with the line without that point |
| BusPointController.RemovedPointValidity | src/controllers/busPointController.ts:48-50 | removing a point keeps a valid line valid |
| BusPointController.UpdateBusPoint | src/controllers/busPointController.ts:60-86 | 500, 404 for the line or the point, or 500 on a failed save, each with no change; otherwise only that point is merged with the update and the line is answered with 200 |
| BusPointController.UpdatePointValidity | src/controllers/busPointController.ts:78-80 | after merging one point the line is valid iff that point is |
| BusPointController.LowCapacityBlocksPointEdits | src/controllers/busPointController.ts:38-86 | on a line with a stored capacity below 5 every point edit fails its save, since the save validates the loaded paths too |
| BusPointController.GetAllBusPoints | src/controllers/busPointController.ts:88-101 | 500 or 404 as for the line; otherwise 200 with exactly the line's point list |
| UserModel.ParseRole | src/models/User.ts:11-16 | a parsed role's name is the string parsed |
| UserModel.RoleNamesRoundTrip | src/models/User.ts:11-16 | parsing a role's name gives the role back; exactly guest, student, employee and admin parse |
| UserModel.NameProblem | src/models/User.ts:24-39 | a first or last name passes iff, trimmed, it is present and 2-20 ASCII letters; a missing or blank one fails its required validator |
| UserModel.EmailShapeExamples | src/models/User.ts:56 | the unanchored email test accepts "john.doe@example.com" and a match inside a longer text, and refuses a text without `@` or with a space after it |
| UserModel.EmailProblem | src/models/User.ts:50-59 | the email passes iff, trimmed, it is present and contains a non-space run, `@`, a non-space run, `.`, a non-space run |
| UserModel.BirthdateProblem | src/models/User.ts:40-49 | the birthdate passes iff present and not later than now |
| UserModel.PasswordProblem | src/models/User.ts:64-67 | the password passes iff present |
| UserModel.RoleProblem | src/models/User.ts:72-79 | the role passes iff absent or one of the four role names |
| UserModel.UserProblemsSpec | src/models/User.ts:24-79 | the validation error has exactly one entry for each failing path among firstName, lastName, birthdate, email, password and role |
| UserModel.UserProblemsEmpty | src/models/User.ts:24-79 | there are no problems iff the input is accepted |
| UserModel.MissingPasswordProblem | src/models/User.ts:64-67 | a missing password is reported under "password" by its required validator with "Password is required" |
| UserModel.NewUser | src/models/User.ts:22-84 | a user is built iff the input passes validation; names and email are trimmed; emailVerified defaults to false, isActive to true, role to guest |
| UserModel.HashHooks | src/models/User.ts:106-138 | pre-save keeps an unmodified password and replaces a modified one by its hash; a failed hash is "Error saving password"; only the password changes; the update hook replaces a present password by its hash and passes an update without one through unchanged |
| UserModel.UserDocument.RunPreSave | src/models/User.ts:106-119 | the document is left as the pre-save hook decides, and unchanged when it aborts |
| UserModel.UserUpdateQuery.RunPreFindOneAndUpdate | src/models/User.ts:121-138 | validators are always enabled, and the update is left as the hook decides |
| UserModel.UserToJson | src/models/User.ts:86-93 | toJSON sets id from `_id` and its output never has password, `_id` or `__v`; every other key is kept |
| UserModel.UserJsonOfRecord | src/models/User.ts:86-93 | a stored user's JSON has exactly id, names, birthdate, email, emailVerified, isActive and role |
| UserModel.CreateOutcome | src/models/User.ts:50-119 | `User.create`: invalid input gives the validation error; then a failed hash gives "Error saving password"; then a store failure; then a taken id or email the duplicate key error; otherwise the validated user with the hashed password |
| UserModel.UserStore.FindByEmail | src/controllers/authController.ts:40 | the user with that email, or none iff no user has it |
| UserModel.UserStore.Create | src/controllers/userController.ts:16 | the store changes exactly as CreateOutcome says and keeps ids and emails unique |
| UserController.ClassifyCreateError | src/controllers/userController.ts:18-34 | a validation error becomes DataValidationError with 400 when some path failed `required` and 422 otherwise, carrying each path's message; a duplicate key gives 409 "Email already exists. Please use a different email."; anything else 500 |
| UserController.ClassifyExamples | src/controllers/userController.ts:18-34 | a failed hash is answered 500, and a missing password 400 |
| UserController.Login | src/controllers/userController.ts:8-12 | the stub answers 200 with the body `{loggedIn: "test"}` |
| UserController.LoginIgnoresBody | src/controllers/userController.ts:8-12 | the stub's answer does not depend on the request |
| UserController.Register | src/controllers/userController.ts:14-37 | the body goes to create unchanged; a failure is classified and stores nothing; success answers 201 with the created user |
| UserController.ClientChosenRole | src/controllers/userController.ts:14-16 | role and isActive are client-controlled here: a body asking for an inactive admin creates one |
| UserController.GetUsers | src/controllers/userController.ts:39-47 | 500 on a store error; otherwise exactly the stored users |
| AuthController.TokensCarryIdAndRole | src/controllers/authController.ts:22-31 | access and refresh tokens carry the same payload {id, role} and differ only in secret; two users get the same payload iff they share id and role |
| AuthController.Login | src/controllers/authController.ts:33-63 | a missing email or password gives 400 before any lookup; a store failure 500; an unknown email and a wrong password the same 401; the lookup uses the trimmed email, as the schema's `trim` setter casts the query value; success returns the access and refresh tokens of the user with that email |
| AuthController.Stripped | src/controllers/authController.ts:66-68 | isActive and role are deleted from the body and nothing else changes |
| AuthController.RegisteredUsersAreActiveGuests | src/controllers/authController.ts:66-70 | a user registered here is always an active guest |
| AuthController.RegisterReply | src/controllers/authController.ts:72-101 | a create failure is classified as in the legacy handler; a created user whose stored password is outside 8-25 characters gives 422; otherwise 201 with the user and both tokens |
| AuthController.Register | src/controllers/authController.ts:65-102 | the stripped body is created (the store changes exactly as create says, even when the answer is 422) and the answer is RegisterReply of the outcome |
| AuthController.RegisterRefusesEveryStoredUser | src/controllers/authController.ts:90-92 | with a 60-character bcrypt hash, every successful create is answered 422 |
| AuthController.RegisterRefusesAcceptedRequest | src/controllers/authController.ts:90-92 | every acceptable registration with a fresh email is stored and then answered 422 |
| AuthController.WellFormedRequest | src/models/User.ts:24-67 | the schema's documented example user (John, Doe, 2000-01-01, john.doe@example.com, Passw0rd!) passes every user validator from that date on |
| AuthController.RegisterRefusesValidRequest | src/controllers/authController.ts:90-92 | the documented example request is stored and answered 422 |
| AuthController.RegisterCheckedSpec | src/controllers/authController.ts:90-92 | the corrected handler creates the user iff the submitted password is 8-25 characters and create succeeds, answering 201 with both tokens; a present password of the wrong length gives 422 |
| AuthController.RegisterCheckedAcceptsValidRequest | src/controllers/authController.ts:90-92 | the corrected handler answers 201 to the documented example request |
| AuthController.RegisterChecked | src/controllers/authController.ts:65-102 | the corrected handler's store changes only on a successful create, and its answer is the corrected reply |
| AuthController.Refresh | src/controllers/authController.ts:104-140 | a missing token gives 400, a failed verification 403, a store failure 500, an unknown user 404; otherwise a new access token for the stored user with the token's id |
| AuthenticateUser.FirstSpace | src/middlewares/authenticateUser.ts:14 | the position of the first space, or none iff there is no space |
| AuthenticateUser.Split | src/middlewares/authenticateUser.ts:14 | `split(" ")` gives at least one piece, none containing a space |
| AuthenticateUser.JoinSplit | src/middlewares/authenticateUser.ts:14 | joining the pieces with single spaces gives the header back |
| AuthenticateUser.SplitJoin | src/middlewares/authenticateUser.ts:14 | splitting a join of space-free pieces gives the pieces back |
| AuthenticateUser.TokenAfterAnyScheme | src/middlewares/authenticateUser.ts:13-14 | the scheme is never checked: any first word, a space and a token yield the token, with or without more words after it; a header without a space yields no token |
| AuthenticateUser.Authenticate | src/middlewares/authenticateUser.ts:13-46 | no token gives 401 "Access token required.", a failed verification 403 "Invalid or expired access token.", a store failure 500, an unknown id 404; the request is authenticated iff the verified id names a stored user, and then as that user |
| AuthenticateUser.AuthenticatedRequest.AuthenticateUser | src/middlewares/authenticateUser.ts:12-50 | on success `req.user` is the user found and next() has no error; on every failure `req.user` is untouched |
| IsAdmin.IsAdmin | src/middlewares/isAdmin.ts:6-14 | no user gives 401 "User not authenticated." before the role is looked at; a role other than admin gives 403 "Access denied. Admins only."; an admin passes |
| IsAdmin.AuthenticateThenIsAdmin | src/middlewares/isAdmin.ts:6-14 | after a successful authentication the gate passes iff the user is an admin, refuses others with 403, and never answers 401 |

## Left out

- Seat coordination: nothing in the modelled files changes or checks `remainingSeats` after the first save, and `subscribe` in src/controllers/busUsersController.ts only inserts a row. No seat invariant is modelled.
- Routing, Swagger comments and the application bootstrap are wiring only. Middleware order appears only as the composition lemma `IsAdmin.AuthenticateThenIsAdmin`.
- The handlers that are routed but not shown (attendEvent, missEvent, eventAttendees, getEventById, updateEvent, deleteEvent, validateCreateEventReq, parseFormWithSingleImage) are not part of this model. The same goes for getAllEventsService, the driver, attendee and user-bus CRUD, and the relational src/models/BusPoint.ts.
- bcrypt, jsonwebtoken and the random token generator are parameters. Token expiry is not modelled, and a token is its payload paired with its secret.
- Cloudinary uploads, multer's storage, e-mail sending and console logging are I/O. The cloud delete of `deleteEventAttendee` is only a recorded request.
- `populate("category")`, `populate("driverID")` and `populate("user"/"event")` are left out. They only join referenced documents into the response. Only the failure of the two `populate` calls in `registerUserInEvent` is modelled.
- Timestamps (`createdAt`, `updatedAt`) are not modelled. The virtual `id` is the record's own id field.
- Time is integer seconds, and `setHours` is modelled as adding duration × 3600 seconds. Local time and daylight saving are not modelled.
- Floating point is left out: numbers are exact reals, and the `precision(2)` rule on price is not modelled. Joi's safe-integer bound is checked on the exact value.
- Latitude and longitude are left out: a bus point checks only that they are present.
- `getAge` and `verifyPassword` are left out. `getAge` is clock arithmetic. `verifyPassword` is a direct call of the compare function, which `AuthController.Login` takes as a parameter.
- Lengths are counted in Dafny characters. JavaScript counts UTF-16 code units, and no Unicode case or normalisation rules are modelled.
- `mongoose.Types.ObjectId.isValid` is modelled as "24 hexadecimal digits". The real predicate also accepts some other 12-character strings.
- Concurrency is left out: the check-then-insert between `isUserRegisteredInEvent` and `registerUserInEvent` is sequential only.
- The store is assumed to cast every value to its schema type. A malformed id passed to a bus-line or user lookup is the CastError, answered 500. A cast failure inside the attendance ledger is not told apart from any other failure of its queries: each ledger operation takes a StoreFault, and the service passes the failure on unhandled.
- BusLineController.BusLineStore.CreateBusLine: mongoose checks the whole document on create. It is approximated by one predicate over the line (`LineValid`), and the individual messages are not modelled because the handler replaces them by its own 500.
- An update body's `_id` key set to null, or to a string that is not an ObjectId, is not modelled: the patch carries either no `_id` or a well-formed one. Values of the wrong type in the body are covered by the cast assumption above.
- EventController.GetAllEvents: states which events are returned, not their order. A query without `sort` has no specified order.
- The error classes' constructor arities (ValidationError given a message and a map where it takes only a map, and AppError given three arguments where it takes two) are not reconciled. `ValidationError` keeps both arguments its callers pass, and `ErrorHandler.HandleError` sends neither map.
- The `Joi.ref` failure when maxAge comes without minAge uses Joi's own default message, which is a constant of the model.
- The duplicate src/models/EventForm.ts and src/services/authService.ts are not modelled a second time.

## Findings

| source | as written | input that shows it | evidently intended | confidence | as-written member | corrected member |
|---|---|---|---|---|---|---|
| src/middlewares/validateUpdateEventReq.ts:68-72 | the schema key is `registrationClose`, while the event field is `registrationClosed` (src/models/Event.ts:45-48) | the body `{ "registrationClosed": true }` is refused as not allowed | the key `registrationClosed`, so the flag can be updated and is checked as a strict boolean | not executed | UpdateEventValidation.RegistrationFlagRefusedAsWritten | UpdateEventValidation.RegistrationFlagAccepted |
| src/controllers/authController.ts:90-92 | the 8-25 length check reads `newUser.password` after create, which is the stored 60-character bcrypt hash | the documented example request (John, Doe, 2000-01-01, john.doe@example.com, Passw0rd!) is stored and then answered 422 | check the submitted password before creating the user, and answer 201 when it is 8-25 characters | not executed | AuthController.RegisterRefusesValidRequest | AuthController.RegisterCheckedAcceptsValidRequest |
