# dev_events: the data layer in Dafny

This project models the part of the dev_events application that decides what may
be stored and what is read back:

- **Event model** (`database/event.model.ts`). It covers:
  - the schema's setters (`trim`, and `lowercase` on `slug`);
  - the validators (required fields, the `mode` enum, non-empty `agenda` and `tags`);
  - the pre-save hook, which derives the slug from the title and normalises the date and the 24-hour time;
  - the unique index on `slug`.
- **Booking model** (`database/booking.model.ts`). It covers:
  - the e-mail setters (`lowercase`, then `trim`) and the e-mail pattern `^[^\s@]+@[^\s@]+\.[^\s@]+$`;
  - the required `eventId` and `email`;
  - the pre-save check that the referenced event exists. It runs only for a new booking or a changed `eventId`.
- **Similar events** (`lib/actions/event.actions.ts`, `getSimilarEvents`). It looks an event up by slug and returns every other event sharing a tag with it. Any failure gives `[]`.

Modules, one per component:

| module | file | what it holds |
|---|---|---|
| `Wrappers` | wrappers.dfy | `Option`, `Result` |
| `Text` | text.dfy | JavaScript `\s`, `\w`, `toLowerCase` (ASCII), `trim`, `indexOf`, `split`, `padStart` |
| `Slug` | slug.dfy | the slug chain of the pre-save hook and its proofs |
| `TimeOfDay` | time.dfy | the time pattern, its meaning, and the time normalisation of the hook |
| `EmailAddress` | email.dfy | the booking e-mail setters and pattern |
| `EventModel` | event_model.dfy | event records, setters, validators, `EventDocument` (a document with its pre-save hook), `EventCollection` (the store and its indexes) |
| `BookingModel` | booking_model.dfy | booking records, validators, `BookingDocument`, `BookingCollection` |
| `EventActions` | event_actions.dfy | `getSimilarEvents` as a filter over the stored events |

How the code is modelled:

- **Documents are objects.** `EventDocument` and `BookingDocument` are classes. Their fields are the record, the `isNew` flag and the set of modified paths. Their methods do what Mongoose does in place:
  - assignment through the setters;
  - the pre-save hook, which assigns `slug`, `date` and `time` step by step and returns at the first error;
  - marking the document saved.

  The collections are classes holding a sequence of records. `Save` runs Mongoose's order:
  1. validation of every path;
  2. the schema's pre-save hook;
  3. the write, which an index may refuse. A new document is inserted whole. A loaded one is written as a `$set` of its changed paths on the stored record with its id, so a document loaded before another write does not put back the values that write changed.

  Each state-changing method is tied by its postcondition to a pure function (`PreSaveHook`, `SaveEvent`, `SaveBooking`). The lemmas state the properties of those functions.
- **Missing values.**
  - A string field that is missing is the empty string. Mongoose's `required` refuses both.
  - A list field is always present: Mongoose gives arrays the default `[]`. `required` passes on `[]`, which the schema's custom validator then refuses with "… must contain at least one item".
  - A booking's `eventId` is an `Option`.
- **Errors.**
  - Validation errors are a map from path to message, as in Mongoose's `ValidationError.errors`. Each path reports its first failing validator: `required`, then the enum, then the custom validator.
  - Every path is validated on every save. For a new document, and for a loaded document whose fields were all read from the store, Mongoose's default validates the same paths.
  - Hook errors are the exact messages passed to `next(new Error(...))`.
  - Index violations are `DuplicateKey("slug")` or `DuplicateKey("_id")`.
- **Things the code cannot see become parameters.**
  - `new Date(d).toISOString().split("T")[0]` is a function `isoDate: string -> Option<string>` passed to the hook. `None` means the date does not parse.
  - A throwing `Event.findById` in the booking hook is the flag `lookupFails`.
  - A failure of the connection or of a query in `getSimilarEvents` is the `Failure` case of its `db` argument.

What the code does at three points where a reader might expect otherwise:

- The time pattern `^([0-1]?[0-9]|2[0-3]):([0-5][0-9])$` at `database/event.model.ts:139` needs two minute digits, so the `padStart` calls at line 148 can only ever add a zero to the hour: "9:05" is stored as "09:05" while "9:5" is refused (`TimeOfDay.NineOhFiveExample`, `TimeOfDay.NineFiveExample`, `TimeOfDay.RefusesSingleDigitMinute`).
- A bad date or time is not a validation error. The pre-save hook runs after validation has passed. It hands a plain `Error` to `next`, with "Invalid date format" or "Time must be in HH:MM format (24-hour)". The model reports these as `HookFailed(message)`.
- The comment above the e-mail pattern calls it RFC 5322 compliant. It is much weaker than RFC 5322. Any text without white space or '@' is accepted on each side of the '@', provided a dot stands inside the domain part. "a@b..c" is accepted (`EmailAddress.AcceptsDoubleDot`).

## Model

| member | source | states |
|---|---|---|
| `Text.Trim` | database/event.model.ts:140 | `String.prototype.trim`: drops the leading and the trailing run of ECMAScript white space and line terminators; `Text.TrimShape` and `Text.SpacedTrim` state what is left |
| `Text.Lower` | database/event.model.ts:116 | `toLowerCase` on ASCII letters: keeps the length and maps each letter A-Z to its lower case, leaving every other character as it is |
| `Text.TrimShape` | database/event.model.ts:140 | `trim` gives a contiguous part of its input, and that part neither starts nor ends with white space |
| `Text.SpacedTrim` | database/event.model.ts:140 | white space around a text whose ends are not white space is exactly what `trim` removes |
| `Text.TrimIdempotent` | database/event.model.ts:27 | trimming twice is trimming once |
| `Text.TrimLowerCommute` | database/booking.model.ts:29-30 | trimming and lower-casing commute, so the order of the two setters does not matter |
| `Text.TrimLowerIdempotent` | database/booking.model.ts:29-30 | running the `lowercase` and `trim` setters again on their output changes nothing |
| `Text.IndexOf` | database/event.model.ts:147 | the result is `None` exactly when the character is absent, and otherwise the first position holding it |
| `Text.Split` | database/event.model.ts:147 | `split` gives at least one part, and no part contains the separator |
| `Text.JoinSplit` | database/event.model.ts:147 | joining the parts of a `split` with the separator gives back the text that was split, so `split` loses nothing |
| `Text.SplitOnce` | database/event.model.ts:147 | splitting at a separator that occurs once gives the text on either side of it |
| `Text.PadStart` | database/event.model.ts:148 | `padStart` reaches the target length, ends with the input and is filled in front with the fill character |
| `Slug.Slugify` | database/event.model.ts:115-121 | the hook's slug chain: lower-case, trim, strip `[^\w\s-]`, each white-space run to '-', each hyphen run to one '-', hyphens at either end removed; the `Slug` lemmas below state what it yields |
| `Slug.StripSpecial` | database/event.model.ts:118 | `.replace(/[^\w\s-]/g, "")`: keeps the characters of `[\w\s-]` in order and drops every other one |
| `Slug.TrimHyphens` | database/event.model.ts:121 | the last replace of the chain: removes the run of hyphens at the start and the run at the end |
| `Slug.StripSpecialChars` | database/event.model.ts:118 | removing `[^\w\s-]` leaves only word characters, white space and '-', each taken from the input |
| `Slug.ReplaceRuns` | database/event.model.ts:119-120 | replacing runs gives the empty string only for the empty input, and starts with the replacement exactly when the input starts with a run |
| `Slug.ReplaceRunsChars` | database/event.model.ts:119-120 | every character the replacement produces is the replacement or an input character outside the class |
| `Slug.CollapsedHasNoDoubleHyphen` | database/event.model.ts:120 | after `.replace(/-+/g, "-")` no two hyphens stand side by side |
| `Slug.StrippedChars` | database/event.model.ts:116-118 | after lower-casing, trimming and stripping, no upper-case letter or special character is left |
| `Slug.SlugifyChars` | database/event.model.ts:115-121 | every character of a derived slug is in `[a-z0-9_-]` |
| `Slug.SlugifyIsSlug` | database/event.model.ts:115-121 | a derived slug has only `[a-z0-9_-]`, no hyphen at either end and no two hyphens in a row |
| `Slug.SlugKeepsWordChars` | database/event.model.ts:115-121 | the derived slug keeps exactly the word characters of the lower-cased title, in order; every other character is gone or became a hyphen |
| `Slug.SlugSettersNoOp` | database/event.model.ts:29-33 | the `lowercase` and `trim` setters of `slug` leave a derived slug unchanged |
| `Slug.SlugifyFixesSlugs` | database/event.model.ts:115-121 | deriving a slug from a well-formed slug gives it back |
| `Slug.SlugifyIdempotent` | database/event.model.ts:115-121 | deriving the slug of a derived slug changes nothing |
| `Slug.StripAppend` | database/event.model.ts:118 | stripping special characters works piece by piece over a concatenation |
| `Slug.ReplaceRunsAfterText` | database/event.model.ts:119-120 | text outside the class passes through the run replacement unchanged |
| `Slug.ReplaceRunsOfRun` | database/event.model.ts:119-120 | a whole run of the class becomes one replacement character |
| `Slug.SpacedHyphenExample` | database/event.model.ts:119-121 | the title "a - b" gives the slug "a-b" |
| `Slug.SlugOfWords` | database/event.model.ts:115-121 | words of `\w` separated by single spaces, followed by punctuation, give the lower-cased words joined by '-' |
| `Slug.ReactSummitExample` | database/event.model.ts:115-121 | the title "React Summit 2025!!" gives the slug "react-summit-2025" |
| `TimeOfDay.TimeRegexTest` | database/event.model.ts:139-142 | `timeRegex.test(trimmedTime)`: the colon at index 1 or 2, an hour group `[0-1]?[0-9]` or `2[0-3]` before it, a minute group `[0-5][0-9]` after it and nothing else |
| `TimeOfDay.TimeRegexTestSound` | database/event.model.ts:139 | placing the colon at index 1 or 2 only is the same as trying every split of the anchored pattern |
| `TimeOfDay.TimeRegexMeaning` | database/event.model.ts:139 | the pattern accepts exactly the spellings `H:MM` and `HH:MM` of a time with hour 0-23 and minute 0-59 |
| `TimeOfDay.MatchDenotes` | database/event.model.ts:139 | every accepted string spells the hour and minute read from it |
| `TimeOfDay.DenotesMatches` | database/event.model.ts:139 | every spelling of a time of day is accepted |
| `TimeOfDay.DenotesUnique` | database/event.model.ts:139 | a string spells at most one time of day |
| `TimeOfDay.SplitTime` | database/event.model.ts:147 | splitting an accepted time on ':' gives its hour part and its minute part |
| `TimeOfDay.PadTime` | database/event.model.ts:147-148 | padding the two halves of an accepted time gives the canonical `HH:MM` spelling of the time it denotes |
| `TimeOfDay.NormalizeTime` | database/event.model.ts:138-149 | a refused time fails with "Time must be in HH:MM format (24-hour)" and its trimmed text spells no time of day; an accepted one is stored as the five-character zero-padded spelling of the time its trimmed text spells |
| `TimeOfDay.NormalizeTimeAccepts` | database/event.model.ts:139-143 | a time is accepted exactly when its trimmed text spells a time of day |
| `TimeOfDay.NormalizeTimeOfDenotes` | database/event.model.ts:147-148 | any spelling of hour h and minute m is stored as the canonical spelling of h and m |
| `TimeOfDay.NormalizeTimeCanonical` | database/event.model.ts:147-148 | the canonical spelling is stored as it is |
| `TimeOfDay.NormalizeTimeIdempotent` | database/event.model.ts:147-148 | normalising a normalised time changes nothing |
| `TimeOfDay.PadsSingleDigitHour` | database/event.model.ts:148 | a one-digit hour gains a leading zero |
| `TimeOfDay.RefusesSingleDigitMinute` | database/event.model.ts:139-143 | a one-digit minute is refused, never padded |
| `TimeOfDay.RefusesHourPast23` | database/event.model.ts:139-143 | two-digit hours 24 to 99 are refused |
| `TimeOfDay.RefusesMinutePast59` | database/event.model.ts:139-143 | minutes 60 to 99 are refused |
| `TimeOfDay.IgnoresSurroundingSpace` | database/event.model.ts:140 | white space around a time is dropped before the test |
| `TimeOfDay.NineOhFiveExample` | database/event.model.ts:138-149 | "9:05" is stored as "09:05" |
| `TimeOfDay.NineFiveExample` | database/event.model.ts:139-143 | "9:5" is refused |
| `EmailAddress.NormalizeEmail` | database/booking.model.ts:29-30 | what the `lowercase` and `trim` setters store for an assigned address: lower-cased, then trimmed |
| `EmailAddress.IsValidEmail` | database/booking.model.ts:34-35 | `emailRegex.test(email)`: a non-empty local part before the first '@', and after it a part free of white space and '@' with a dot neither first nor last |
| `EmailAddress.ValidMatches` | database/booking.model.ts:34-35 | every address the test accepts matches the anchored pattern |
| `EmailAddress.MatchesValid` | database/booking.model.ts:34-35 | every address matching the pattern is accepted by the test |
| `EmailAddress.IsValidEmailMeansRegex` | database/booking.model.ts:34-35 | the test accepts exactly what the pattern matches |
| `EmailAddress.AcceptsSegments` | database/booking.model.ts:34 | any non-empty local part, domain label and rest free of white space and '@' make an accepted address |
| `EmailAddress.AcceptsDoubleDot` | database/booking.model.ts:33-35 | "a@b..c" is accepted: the pattern is far weaker than RFC 5322 |
| `EmailAddress.ValidHasOneAt` | database/booking.model.ts:34 | an accepted address has exactly one '@' |
| `EmailAddress.RefusesWithoutDot` | database/booking.model.ts:34 | an address with no dot after its '@' is refused |
| `EmailAddress.RefusesSpace` | database/booking.model.ts:34 | an address with white space anywhere is refused |
| `EmailAddress.NormalizeEmailIdempotent` | database/booking.model.ts:29-30 | setting a stored address again changes nothing |
| `EmailAddress.NormalizedShape` | database/booking.model.ts:29-30 | a stored address has no upper-case ASCII letter and no white space at either end |
| `EmailAddress.NormalizeSpacedAddress` | database/booking.model.ts:29-30 | white space around an address is dropped and its letters are lowered |
| `EmailAddress.UpperCaseAddressExample` | database/booking.model.ts:29-35 | "A@B.COM" is stored as "a@b.com", which the pattern accepts |
| `EventModel.Setter` | database/event.model.ts:24-99 | what each string path stores when assigned: `slug` lower-cased and trimmed, `date` and `time` as given, every other path trimmed |
| `EventModel.PathError` | database/event.model.ts:24-101 | each path's first failing validator: the `required` message on an empty string, the enum message on a mode outside the enum, "… must contain at least one item" on an empty list, nothing on the slug |
| `EventModel.ValidationErrors` | database/event.model.ts:22-106 | the `errors` map of the validation error: each path with a failing validator, keyed to its message |
| `EventModel.SlugStep` | database/event.model.ts:114-122 | the hook's first step: the slug is derived from the title when the title changed or the slug is empty, and left alone otherwise |
| `EventModel.PreSaveHook` | database/event.model.ts:112-152 | the whole hook: the slug step, then the date step when `date` changed, then the time step when `time` changed; the first failing step ends it and earlier assignments stay |
| `EventModel.ParseMode` | database/event.model.ts:67-75 | an accepted mode string is the name of the mode it is read as |
| `EventModel.ModeRoundTrip` | database/event.model.ts:70-73 | every mode's name is accepted and read back as that mode |
| `EventModel.ParseModeExact` | database/event.model.ts:70-73 | the enum admits exactly "online", "offline" and "hybrid" |
| `EventModel.SetterIdempotent` | database/event.model.ts:24-101 | assigning a stored value to its path again stores it unchanged |
| `EventModel.ApplySetters` | database/event.model.ts:22-106 | a created record holds every string field passed through its path's setter, and the lists and id as given |
| `EventModel.ApplySettersIdempotent` | database/event.model.ts:22-106 | running the setters over a record that went through them changes nothing |
| `EventModel.ValidationErrorsEmpty` | database/event.model.ts:24-101 | validation reports no error exactly when every required string is non-empty, the mode is in the enum and both lists are non-empty |
| `EventModel.ModeOutsideEnum` | database/event.model.ts:67-75 | `mode` is reported exactly when it is not one of the enum's values, with the enum message when it is not empty |
| `EventModel.EmptyListsReported` | database/event.model.ts:81-101 | an empty agenda or tag list is reported on its own path with "… must contain at least one item", and only then |
| `EventModel.MissingFieldReported` | database/event.model.ts:24-101 | a missing required string is reported with its path's `required` message |
| `EventModel.SlugNotValidated` | database/event.model.ts:29-33 | the slug is not validated, so even an empty slug passes |
| `EventModel.HookKeepsOtherFields` | database/event.model.ts:112-152 | the hook assigns only `slug`, `date` and `time` |
| `EventModel.HookSlug` | database/event.model.ts:114-122 | the slug is re-derived from the title, and is then well formed, exactly when the title changed or the slug is empty; otherwise it is left unchanged |
| `EventModel.HookFails` | database/event.model.ts:125-149 | the hook fails exactly when a changed date does not parse ("Invalid date format") or a changed time is refused ("Time must be in HH:MM format (24-hour)") |
| `EventModel.HookTime` | database/event.model.ts:138-149 | the time is touched only when it changed; a changed time that passes is stored as five characters, the zero-padded time it spells |
| `EventModel.HookDate` | database/event.model.ts:125-135 | the date is touched only when it changed, and is then replaced by its ISO day |
| `EventModel.HookSlugStable` | database/event.model.ts:114-122 | a stored slug survives a later hook run that does not change the title |
| `EventModel.HookTimeStable` | database/event.model.ts:138-149 | a time the hook stored is accepted again unchanged |
| `EventModel.HookOnSettled` | database/event.model.ts:112-152 | the hook changes nothing in a document whose slug and changed time are already in stored form |
| `EventModel.HookIdempotent` | database/event.model.ts:112-152 | running the hook again on what it stored, with nothing or only the time changed, succeeds and changes nothing |
| `EventModel.EventDocument.constructor` | database/event.model.ts:22-106 | a new document holds its input through the setters, is new, and counts every given field as changed |
| `EventModel.EventDocument.Loaded` | lib/actions/event.actions.ts:12 | a document as a query returns it: the stored values, not new, nothing changed |
| `EventModel.EventDocument.Assign` | database/event.model.ts:24-80 | assigning a string path stores the setter's output there and marks the path changed when the document is new or the value differs |
| `EventModel.EventDocument.AssignList` | database/event.model.ts:81-101 | assigning `agenda` or `tags` stores the list and marks the path changed when the document is new or the list differs |
| `EventModel.EventDocument.PreSave` | database/event.model.ts:112-152 | the in-place hook leaves the document and returns the error that `PreSaveHook` gives for the old document and changed paths; its assignment of the slug marks the slug changed when the document is new or the value differs |
| `EventModel.HookMarks` | database/event.model.ts:114-149 | the paths the hook's assignments add to the changed set: only the slug, since the date and time are assigned only when already changed |
| `EventModel.FindFirst` | lib/actions/event.actions.ts:12 | a single-document query: the first stored event the filter admits, and `None` exactly when no stored event passes it |
| `EventModel.FindById` | database/booking.model.ts:54 | the lookup finds a stored event with the id exactly when one exists |
| `EventModel.Insert` | database/event.model.ts:155 | writing a new event: refused with a duplicate key on `_id`, then on `slug`, when the value is stored already; appended otherwise |
| `EventModel.Merge` | database/event.model.ts:155 | what a `$set` of the changed paths leaves: the stored event with those paths, and only those, taken from the document |
| `EventModel.MergeUpToDate` | database/event.model.ts:155 | writing the changed paths of a document that agrees with the store elsewhere stores exactly that document |
| `EventModel.DisjointWriteBacksKept` | database/event.model.ts:155 | two documents loaded from one event and changing different paths both keep their changes when written back in turn |
| `EventModel.Replace` | database/event.model.ts:155 | writing a loaded event back as a `$set` of its changed paths: refused when no event has its id or another event holds the slug it would leave; otherwise only the event with its id changes |
| `EventModel.SaveEvent` | database/event.model.ts:112-155 | `doc.save()`: validation, then the pre-save hook, then the write; a refused save leaves the store as it was |
| `EventModel.InsertKeepsIndexes` | database/event.model.ts:155 | an insert that goes through keeps ids and slugs unique and appends exactly the new event |
| `EventModel.ReplaceKeepsIndexes` | database/event.model.ts:155 | a write-back that goes through keeps ids and slugs unique and changes only the event with its id, which gets the written paths |
| `EventModel.SaveKeepsIndexes` | database/event.model.ts:155 | every save, whatever its outcome, keeps slugs unique across the store |
| `EventModel.SaveEffect` | database/event.model.ts:112-155 | a refused save leaves the store unchanged; a successful one stores a valid event as the hook left it when new, appended; when loaded, its changed paths and the slug the hook changed are written over the stored event with its id |
| `EventModel.UpToDateSaveStoresDoc` | database/event.model.ts:112-155 | saving a loaded document that agrees with the store on its unchanged paths puts exactly the document, as the hook left it, in place of the stored event |
| `EventModel.SaveValidatesFirst` | database/event.model.ts:22-106 | an invalid document is refused with its validation errors before the hook runs |
| `EventModel.SaveRefusesTakenSlug` | database/event.model.ts:155 | a new event whose slug is already stored is refused with a duplicate key, on `slug` when its id is fresh, and the store is unchanged |
| `EventModel.SaveRunsHook` | database/event.model.ts:112-152 | a valid document reaches the hook, and a successful save stores what the hook left |
| `EventModel.NewEventSlugDerived` | database/event.model.ts:114-122 | a newly created event that is saved carries the slug derived from its title, which is well formed |
| `EventModel.NewEventTimeCanonical` | database/event.model.ts:138-149 | a newly created event that is saved carries a five-character time that normalises to itself |
| `EventModel.EventDocument.MarkSaved` | database/event.model.ts:151 | after a successful write the document keeps its values, is no longer new and has nothing changed |
| `EventModel.EventCollection.constructor` | database/event.model.ts:155 | an empty collection, which satisfies both unique indexes |
| `EventModel.EventCollection.Save` | database/event.model.ts:112-155 | the in-place save keeps both indexes unique and leaves the store, the document and the result `SaveEvent` gives; a refused save keeps the changed paths, with the slug when the hook changed it |
| `BookingModel.ApplyBookingSetters` | database/booking.model.ts:26-30 | what `new Booking(input)` holds: the event id as given, the address lower-cased and then trimmed |
| `BookingModel.BookingValidationErrors` | database/booking.model.ts:21-39 | the `errors` map of the validation error: `eventId` when missing; `email` when missing, or when the pattern refuses it |
| `BookingModel.BookingValidationEmpty` | database/booking.model.ts:21-39 | validation reports no error exactly when the booking has an event id and an accepted address |
| `BookingModel.MissingFieldsReported` | database/booking.model.ts:21-39 | a missing event id or address gets its `required` message; a present but refused address gets "Please provide a valid email address" |
| `BookingModel.CreatedEmailChecked` | database/booking.model.ts:29-35 | the validator checks the address after the setters have run |
| `BookingModel.CreatedSpacedEmail` | database/booking.model.ts:29-35 | an address given with surrounding white space and capitals is stored and checked trimmed and lower-cased |
| `BookingModel.ReferenceCheck` | database/booking.model.ts:50-66 | the hook's error: none unless the booking is new or `eventId` changed; then "Error validating event reference" if the lookup throws, "Event not found…" if no event has the id |
| `BookingModel.ReferenceCheckMeaning` | database/booking.model.ts:50-66 | the hook refuses a new or re-pointed booking exactly when the lookup throws ("Error validating event reference") or finds no event ("Event not found…") |
| `BookingModel.EmailOnlyUpdateSkipsCheck` | database/booking.model.ts:52 | an update of a stored booking that leaves `eventId` alone skips the reference check |
| `BookingModel.BookingDocument.constructor` | database/booking.model.ts:26-39 | a new booking holds its address lower-cased and trimmed, and counts its given fields as changed |
| `BookingModel.BookingDocument.Loaded` | database/booking.model.ts:52 | a stored booking as a query returns it: not new, nothing changed, so the guard skips the reference check unless `eventId` is assigned |
| `BookingModel.BookingDocument.AssignEmail` | database/booking.model.ts:29-30 | assigning an address stores it lower-cased and trimmed |
| `BookingModel.BookingDocument.AssignEventId` | database/booking.model.ts:21-25 | assigning an event id stores it and marks it changed when new or different |
| `BookingModel.BookingDocument.PreSave` | database/booking.model.ts:50-69 | the hook returns the reference check's error for the document as it stands |
| `BookingModel.InsertBooking` | database/booking.model.ts:72-75 | writing a new booking: only the `_id` index can refuse it, since the two other indexes are not unique |
| `BookingModel.MergeBooking` | database/booking.model.ts:72-75 | what a `$set` of the changed paths leaves: the stored booking with those paths, and only those, taken from the document |
| `BookingModel.MergeBookingUpToDate` | database/booking.model.ts:72-75 | writing the changed paths of a booking that agrees with the store elsewhere stores exactly that booking |
| `BookingModel.ReplaceBooking` | database/booking.model.ts:72-75 | writing a loaded booking back as a `$set` of its changed paths on the booking with its id; refused when no booking has the id |
| `BookingModel.SaveBooking` | database/booking.model.ts:50-75 | `doc.save()`: validation, then the reference check, then the write |
| `BookingModel.SaveBookingEffect` | database/booking.model.ts:50-75 | a refused save leaves the bookings unchanged; a successful one stores a valid booking, growing the store by exactly that booking when new and only when its event exists, and otherwise writing its changed paths over the booking with its id |
| `BookingModel.UpToDateBookingSaveStoresDoc` | database/booking.model.ts:50-75 | saving a loaded booking that agrees with the store on its unchanged paths puts exactly that booking in place of the stored one |
| `BookingModel.NewBookingNeedsEvent` | database/booking.model.ts:54-61 | a valid new booking whose event does not exist is refused with "Event not found…" and nothing is stored |
| `BookingModel.LookupFailureRefuses` | database/booking.model.ts:63-64 | a failing lookup refuses a new or re-pointed booking with "Error validating event reference" |
| `BookingModel.DuplicatePairAllowed` | database/booking.model.ts:72-75 | a second booking of the same event by the same address is stored |
| `BookingModel.EmailOnlyUpdateIgnoresEvents` | database/booking.model.ts:52 | saving a stored booking whose `eventId` did not change succeeds whatever the events hold, and the stored booking keeps its event |
| `BookingModel.BookingDocument.MarkSaved` | database/booking.model.ts:68 | after a successful write the booking keeps its values, is no longer new and has nothing changed |
| `BookingModel.BookingCollection.constructor` | database/booking.model.ts:72-75 | an empty booking collection, whose ids are trivially unique |
| `BookingModel.BookingCollection.Save` | database/booking.model.ts:50-69 | the in-place save keeps ids unique, leaves the bookings and result `SaveBooking` gives, and leaves the events untouched |
| `EventActions.GetSimilarEvents` | lib/actions/event.actions.ts:10-21 | the action: find the event with the slug as the slug path casts it, then every event the query admits; a failure gives `[]` |
| `EventActions.MatchesQuery` | lib/actions/event.actions.ts:14-16 | the filter: an id other than the source's (any id when there is no source) and a tag among the source's tags (none when there is no source) |
| `EventActions.FindOneBySlug` | lib/actions/event.actions.ts:12 | the filter value is cast through the slug path's setters (lower-cased, trimmed); the lookup finds a stored event whose slug is the cast value exactly when one exists |
| `EventActions.LookupIgnoresCaseAndSpace` | lib/actions/event.actions.ts:12 | looking up a slug, or finding similar events by it, gives the same as with the lower-cased, trimmed slug |
| `EventActions.MixedCaseSlugFindsEvent` | lib/actions/event.actions.ts:12-17 | "React-Summit-2025" finds the event stored as "react-summit-2025", and its similar events |
| `EventActions.FindMatching` | lib/actions/event.actions.ts:14-17 | the query returns exactly the stored events the filter admits |
| `EventActions.SimilarIsExactly` | lib/actions/event.actions.ts:12-17 | with a source event, the result holds exactly the other stored events sharing a tag with it |
| `EventActions.SimilarSound` | lib/actions/event.actions.ts:14-16 | every returned event is stored, shares a tag with the source and is not the source |
| `EventActions.SimilarComplete` | lib/actions/event.actions.ts:14-17 | every other stored event sharing a tag with the source is returned; there is no cap |
| `EventActions.NoSourceMatchesNothing` | lib/actions/event.actions.ts:15-16 | with no source the `$in` list is empty and no event passes the filter |
| `EventActions.UnknownSlugGivesNothing` | lib/actions/event.actions.ts:12-16 | a slug that, lower-cased and trimmed, no stored event holds gives the empty result |
| `EventActions.FailureGivesNothing` | lib/actions/event.actions.ts:18-19 | a failure gives the empty result rather than an error |
| `EventActions.FindMatchingKeepsOrder` | lib/actions/event.actions.ts:14-17 | the result keeps store order: matching two stretches of the store gives the first stretch's matches, then the second's |

## Left out

- `lib/mongodb.ts`: the memoised connection promise is I/O and concurrency. A failed connection appears only as the `Failure` argument of `GetSimilarEvents`.
- Date normalisation (`database/event.model.ts:125-135`) depends on JavaScript's `Date` parsing and `toISOString`. It is the parameter `isoDate`, an opaque partial function.
- The `unstable_cache` wrapper of `getSimilarEvents` and its one-hour revalidation: framework caching.
- `lib/actions/booking.actions.ts`, `lib/constants.ts`, `database/index.ts`, the pages and the route handler: a thin wrapper, sample data, re-exports and rendering.
- Timestamps, `_id` generation and model registration are library behaviour. A document's id is given by its creator.
- Mongoose casting: an `eventId` that is not an ObjectId fails casting in Mongoose. Here an id is a natural number or absent.
- An array path explicitly set to `null` would fail `required` with "Agenda is required" or "Tags are required". The model has no null lists, so those two messages are never produced.
- The text of `ValidationError.message`, which joins the per-path messages, is not modelled. The per-path map is.
- The race between the booking's reference check and a concurrent deletion of the event: no concurrency is modelled.
- `Event.find` returns documents in natural order. The model returns them in store order.
- `Text.Lower`: only ASCII letters are lowered. JavaScript's `toLowerCase` maps other scripts too, and a few non-ASCII letters, such as the Kelvin sign U+212A, lower to ASCII letters that the slug would keep.
