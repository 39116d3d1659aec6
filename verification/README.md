# Calendrix in Dafny

Calendrix is a calendar application. A NestJS backend keeps events in
memory and stores uploaded images and videos on disk; a Next.js page lists
the events, sends the event form and raises desktop reminders. This project
models the logic those two sides run and proves what it promises:

- `Entities` — the `Event` record (backend entity and frontend type alike).
- `Validation` — the global `ValidationPipe` (whitelist, forbid unknown
  properties) running the class-validator decorators of `CreateEventDto`
  and of `UpdateEventDto = PartialType(CreateEventDto)`, as a small rule
  engine. Each rule set comes with a declarative predicate and a lemma
  proving the two are equivalent. Accepted bodies become DTO values.
- `Query` — `findAll`: search, start-date bounds, and the sort driven by the
  service's comparator (modelled as an insertion sort using that
  comparator).
- `EventsService` — `create`, `findOne`, `update`, `remove` and
  `tryDeleteFile` over a `seq<Event>` store. `update` and `remove` return
  the URLs they would hand to `deleteFile` instead of deleting.
- `FileUploads` and `Paths` — the multer filename generator (UUID +
  `path.extname`), the MIME and size rules of the two upload routes,
  `getFileUrl`, and `deleteFile` by `path.basename` over an abstract set of
  stored file names.
- `Notifications` — the page's arming effect and the notification →
  follow-up → snooze cycle, as a state machine with explicit timers.
- `Client` — `handleSubmit`'s checks and payload cleaning, local list
  updates, and the today / upcoming lists.
- `Wrappers`, `Text`, `Seqs`, `Runtime` — `Option`/`Result`/`Patch`, the
  JavaScript string operations used (`includes`, `trim`, `startsWith`,
  `<` on strings), generic sequence lemmas, and the runtime oracles.

Platform behaviour that the code only calls is passed in as a
`Runtime.Platform` value of total functions:

- `parseDate` is `new Date(s).getTime()`; `None` stands for an Invalid Date.
- `toLower` is `toLowerCase`.
- `isDateString` is class-validator's ISO 8601 check.

Comparisons against an Invalid Date are false, as in JavaScript. The
generated UUIDs, the current time and the two midnights are parameters.

The model follows what the code does, also where that departs from the
intent its comments and API annotations suggest:

- `create` has no start/end ordering check, so it stores an event whose
  start equals or follows its end.
- `update` signals inverted times with a plain `Error`, which Nest answers
  with 500, not 400.
- An upload over the size limit is refused by multer's limit, which Nest
  answers with 413 (`PayloadTooLarge`), not 400.
- When the event list changes, the page clears only the arming timers. The
  follow-up and snooze timers are never tracked, so they keep running.
- Any `sortOrder` other than an empty one or exactly `asc` sorts descending
  (`ASC` included); the query string is not validated.
- A browser's `setTimeout` takes its delay as a signed 32-bit value, so the
  page's arming timer for an event more than 2^31 - 1 ms (about 24.9 days)
  ahead fires early, most often at once. This is recorded under
  "## Findings". The page's effect is modelled as written (`RebuildAsWritten`)
  and with the corrected pass (`Rebuild`), which caps each delay and arms
  again until the start; the lemmas about later transitions hold for both.

## Model

| member | source | states |
|---|---|---|
| Entities.SameIds | frontend/src/app/page.tsx:336-338 | lists whose ids agree position by position have the same id set and are unique together |
| Validation.PartialType | backend/api/src/events/dto/update-event.dto.ts:5 | `PartialType` keeps every property and its decorators and adds `IsOptional` to each |
| Validation.StrictPartialType | backend/api/src/events/dto/update-event.dto.ts:5 | the corrected partial type keeps every decorator and makes only originally required properties skippable, and then only when absent |
| Validation.WhitelistIff | backend/api/src/main.ts:33-40 | the pipe reports no unknown property exactly when every body key is a declared property |
| Validation.PropertyIff | backend/api/src/main.ts:33-40 | a property gets no violation exactly when it is skipped or all of its constraints hold |
| Validation.RulesIff | backend/api/src/main.ts:33-40 | a rule list reports nothing exactly when every rule accepts the body |
| Validation.ValidateIff | backend/api/src/main.ts:33-40 | validation passes exactly when all keys are whitelisted and every rule accepts |
| Validation.SixIff | backend/api/src/events/dto/create-event.dto.ts:4-35 | for a six-property DTO, validation passes exactly when the keys are among the six and each rule accepts |
| Validation.SixNames | backend/api/src/events/dto/create-event.dto.ts:4-35 | a rule list whose names match the create DTO's declares exactly the six event properties |
| Validation.TitleRule | backend/api/src/events/dto/create-event.dto.ts:5-9 | the title rule accepts exactly a present string of length at least 3, or an absent (or, when optional, null) title |
| Validation.DateRule | backend/api/src/events/dto/create-event.dto.ts:16-24 | a time rule accepts exactly a non-empty ISO 8601 string, or an absent (or, when optional, null) value |
| Validation.OptionalStringRule | backend/api/src/events/dto/create-event.dto.ts:11-14 | an optional string rule accepts exactly absent, null or a string |
| Validation.CreateValidationIff | backend/api/src/events/dto/create-event.dto.ts:4-35 | the creation pipe accepts exactly bodies with only declared keys, a title of length ≥ 3, two ISO times and optional string fields |
| Validation.UpdateValidationAsWrittenIff | backend/api/src/events/dto/update-event.dto.ts:5 | as written, the update pipe accepts the same rules with every property absent or null |
| Validation.UpdateRulesRequiredShape | backend/api/src/events/dto/update-event.dto.ts:5 | in the corrected update DTO, title and times keep their create decorators plus skip-when-absent |
| Validation.UpdateRulesOptionalShape | backend/api/src/events/dto/update-event.dto.ts:5 | in the corrected update DTO, description and media URLs stay optional strings |
| Validation.UpdateRequiredAccepts | backend/api/src/events/dto/update-event.dto.ts:5 | the corrected title and time rules accept exactly an absent property or one passing its create rule |
| Validation.UpdateOptionalAccepts | backend/api/src/events/dto/create-event.dto.ts:11-14 | the corrected optional rules accept exactly absent, null or a string |
| Validation.UpdateValidationIff | backend/api/src/events/dto/update-event.dto.ts:5 | the corrected update pipe accepts exactly the bodies where each supplied title or time passes its create rule |
| Validation.ParseCreateEventDto | backend/api/src/events/dto/create-event.dto.ts:4-35 | a POST body yields a DTO exactly when valid, with the body's values; otherwise a non-empty violation set |
| Validation.ParseUpdateEventDto | backend/api/src/events/dto/update-event.dto.ts:5 | a PATCH body yields a DTO exactly when valid; a field is overwritten exactly when its key is present, and title and times still meet their create rules |
| Validation.CreateAcceptsUnorderedTimes | backend/api/src/events/dto/create-event.dto.ts:16-24 | no cross-field check: equal start and end pass validation |
| Validation.EmptyUpdateAccepted | backend/api/src/events/dto/update-event.dto.ts:5 | an empty PATCH body is valid and overwrites nothing |
| Validation.ServerFieldsRejected | backend/api/src/main.ts:35-36 | a body naming `id`, `createdAt` or `updatedAt` is refused by both pipes |
| Validation.UpdateAcceptsUnorderedTimes | backend/api/src/events/events.service.ts:115-119 | the update DTO checks no ordering; only the service does, after merging |
| Validation.NullTitlePassesAsWritten | backend/api/src/events/dto/update-event.dto.ts:5 | as written, a PATCH body `{"title": null}` passes validation |
| Validation.NullTitleRejected | backend/api/src/events/dto/update-event.dto.ts:5 | the corrected update DTO refuses a null title |
| Query.CompareNeverZero | backend/api/src/events/events.service.ts:79-83 | the comparator answers 1 or -1, never 0 |
| Query.CompareInconsistentOnTies | backend/api/src/events/events.service.ts:79-83 | on equal keys it answers -1 both ways, so it is no consistent comparator |
| Query.FiltersSelect | backend/api/src/events/events.service.ts:40-61 | search, start bound and end bound together keep exactly the records meeting every supplied criterion, in store order |
| Query.FindAllSelects | backend/api/src/events/events.service.ts:36-87 | the result holds each selected record as often as the store does and nothing else (a permutation of a subsequence) |
| Query.FindAllUnsortedKeepsOrder | backend/api/src/events/events.service.ts:64-87 | without `sortBy` the selected records keep insertion order |
| Query.FindAllNoParams | backend/api/src/events/events.service.ts:36-37 | with no parameters the whole store comes back in insertion order |
| Query.EmptySearchKeepsAll | backend/api/src/events/events.service.ts:40 | an empty search term filters nothing |
| Query.InvalidStartDateDropsAll | backend/api/src/events/events.service.ts:49-54 | an unparseable `startDate` drops every record |
| Query.InvalidStartTimeDropped | backend/api/src/events/events.service.ts:49-61 | a record whose start does not parse is dropped by either bound |
| Query.AfterStrictWeak | backend/api/src/events/events.service.ts:68-83 | on comparable keys the comparator's "after" is asymmetric and its negation transitive, in both orders |
| Query.AfterConnected | backend/api/src/events/events.service.ts:68-83 | with pairwise-distinct keys any two records are ordered one way or the other |
| Query.DistinctKeysNoDup | backend/api/src/events/events.service.ts:64-84 | distinct keys leave no record twice |
| Query.FilteredFacts | backend/api/src/events/events.service.ts:36-61 | when the selected records have distinct keys, the filtered records come from the store, stay comparable and are duplicate-free |
| Query.OrderOfIff | backend/api/src/events/events.service.ts:66 | the sort is ascending exactly when `sortOrder` is absent, empty or `asc`; any other string sorts descending |
| Query.FindAllSorted | backend/api/src/events/events.service.ts:64-84 | with `sortBy` and distinct keys among the selected records, the result is strictly ascending by the key, or descending when `sortOrder` selects that |
| Query.ReversedAscendingIsDescending | backend/api/src/events/events.service.ts:78-83 | an ascending arrangement read backwards is descending under the `desc` comparator |
| Query.DescendingIsReversedAscending | backend/api/src/events/events.service.ts:78-83 | with distinct keys among the selected records, `desc` gives the `asc` result reversed |
| EventsService.FindIndex | backend/api/src/events/events.service.ts:100-101 | the index is the first record with the id, and none exists exactly when the id is unknown |
| EventsService.Create | backend/api/src/events/events.service.ts:24-34 | one record is appended, carrying the DTO's fields, the fresh id and `createdAt == updatedAt == now`; earlier records are unchanged |
| EventsService.FindOne | backend/api/src/events/events.service.ts:90-97 | the record with the id, or NotFound with the quoted-id message exactly when the id is unknown |
| EventsService.Update | backend/api/src/events/events.service.ts:99-132 | unknown id gives NotFound; merged start ≥ end gives the 500 error with nothing stored or deleted; otherwise the merged record replaces the old one at the same index and the replaced media are requested for deletion |
| EventsService.Remove | backend/api/src/events/events.service.ts:134-146 | unknown id gives NotFound; otherwise the record is spliced out and both of its media URLs are offered for deletion |
| EventsService.ApplyDeletions | backend/api/src/file-uploads/file-uploads.service.ts:15-28 | a series of `deleteFile` calls removes every named basename and keeps every other file |
| EventsService.CreateThenFindOne | backend/api/src/events/events.service.ts:24-97 | with a fresh id, ids stay unique and `findOne` returns the created record |
| EventsService.FindIndexUnique | backend/api/src/events/events.service.ts:100 | with unique ids the only record with that id is the one found |
| EventsService.UpdateKeepsIdentity | backend/api/src/events/events.service.ts:108-112 | an update keeps `id` and `createdAt` and sets `updatedAt` to now |
| EventsService.UpdatePatchesFields | backend/api/src/events/events.service.ts:108-112 | each field comes from the DTO when supplied and from the stored record otherwise |
| EventsService.UpdateThenFindOne | backend/api/src/events/events.service.ts:130-131 | an accepted update keeps ids unique and `findOne` then returns the updated record |
| EventsService.UpdateRefusesInvertedTimes | backend/api/src/events/events.service.ts:115-119 | supplied start ≥ supplied end is refused with "Start time must be before end time" |
| EventsService.UpdateAcceptsInvalidTimes | backend/api/src/events/events.service.ts:117 | an unparseable start slips past the ordering check |
| EventsService.InvertedAsWrittenOnStrings | backend/api/src/events/events.service.ts:115-119 | on two string times, the null-aware ordering check is the one `Update` makes |
| EventsService.NullEndTimeRefusedAsWritten | backend/api/src/events/events.service.ts:115-119 | as written, a null end is the epoch, so an event starting after 1970 fails the check with the 500 |
| EventsService.NullStartTimePassesAsWritten | backend/api/src/events/events.service.ts:115-119 | as written, a null start passes the check against an end after 1970 |
| EventsService.UpdateDeletesReplacedMedia | backend/api/src/events/events.service.ts:121-128 | no media in the DTO means no deletion; a hosted image replaced by a different truthy URL is deleted; every deletion names an old hosted URL |
| EventsService.UpdateClearingMediaKeepsFile | backend/api/src/events/events.service.ts:122 | clearing the image with null or "" deletes nothing |
| EventsService.RemoveFilters | backend/api/src/events/events.service.ts:145 | with unique ids, removal keeps exactly the other records in order |
| EventsService.SpliceIds | backend/api/src/events/events.service.ts:145 | splicing one record out removes exactly its id and keeps ids unique |
| EventsService.RemoveThenNotFound | backend/api/src/events/events.service.ts:134-146 | after removal the id is unknown and the other ids remain |
| EventsService.FileUrlIsHostedHere | backend/api/src/file-uploads/file-uploads.service.ts:11 | every `getFileUrl` result passes the local-file test of `tryDeleteFile` |
| EventsService.ExternalUrlNotDeleted | backend/api/src/events/events.service.ts:149-153 | a URL without `localhost:3000/uploads/` is never handed to `deleteFile` |
| EventsService.UploadedUrlIsHostedHere | backend/api/src/file-uploads/file-uploads.controller.ts:45-52 | every URL the upload routes answer with is one `tryDeleteFile` deletes |
| EventsService.RemoveDeletesUploadedImage | backend/api/src/events/events.service.ts:140-145 | an uploaded image attached to an event is gone from the uploads directory once the event is removed |
| Paths.LastIndexOf | backend/api/src/file-uploads/file-uploads.service.ts:17 | the last position of the character, or none exactly when it does not occur |
| Paths.StripTrailingSlashes | backend/api/src/file-uploads/file-uploads.service.ts:17 | the longest prefix not ending in `/` after which only slashes follow |
| Paths.AfterLastSlash | backend/api/src/file-uploads/file-uploads.service.ts:17 | the part after the last `/` holds no `/` |
| Paths.NoSlashIsOwnSegment | backend/api/src/file-uploads/file-uploads.service.ts:17 | a name without `/` is its own basename segment |
| Paths.BasenameHasNoSlash | backend/api/src/file-uploads/file-uploads.service.ts:17 | `basename` never contains `/` |
| Paths.BasenameAfterSlash | backend/api/src/file-uploads/file-uploads.service.ts:17 | the basename of `prefix/f` is `f` for a non-empty `/`-free `f` |
| Paths.ExtNameShape | backend/api/src/file-uploads/file-uploads.module.ts:17 | `extname` is empty or a suffix starting with its only `.` |
| Paths.ExtNameOfPrefixed | backend/api/src/file-uploads/file-uploads.module.ts:16-18 | prefixing a dot-free, slash-free stem keeps the extension |
| FileUploads.DeleteFile | backend/api/src/file-uploads/file-uploads.service.ts:15-28 | true exactly when the basename was stored; only that file is removed |
| FileUploads.FileUrlBasename | backend/api/src/file-uploads/file-uploads.service.ts:11-17 | the basename of `getFileUrl(f)` is `f` |
| FileUploads.DeleteFileUrlRoundTrip | backend/api/src/file-uploads/file-uploads.service.ts:11-24 | deleting a stored file's URL removes exactly it and reports true |
| FileUploads.DeleteFileIdempotent | backend/api/src/file-uploads/file-uploads.service.ts:20-24 | a second deletion reports false and changes nothing |
| FileUploads.DeleteFileKeepsWellFormed | backend/api/src/file-uploads/file-uploads.service.ts:15-28 | deletion keeps the directory listing well formed |
| FileUploads.UuidHasNoDotOrSlash | backend/api/src/file-uploads/file-uploads.module.ts:16 | a v4 UUID string holds neither `.` nor `/` |
| FileUploads.StoredFilenameKeepsExtension | backend/api/src/file-uploads/file-uploads.module.ts:16-18 | the stored name has the original's extension |
| FileUploads.StoredFilenameShape | backend/api/src/file-uploads/file-uploads.module.ts:16-18 | the stored name is non-empty, `/`-free and neither `.` nor `..` |
| FileUploads.StoredFilenamesDistinct | backend/api/src/file-uploads/file-uploads.module.ts:16 | distinct UUIDs give distinct stored names |
| FileUploads.Upload | backend/api/src/file-uploads/file-uploads.controller.ts:27-53 | accepted exactly for an allowed MIME type within the size limit; no file, a wrong type and an oversized file each give their error; success echoes name, URL, type and size and stores the file |
| FileUploads.UploadThenDelete | backend/api/src/file-uploads/file-uploads.controller.ts:45-52 | the answered URL deletes exactly the stored file |
| FileUploads.UploadKeepsWellFormed | backend/api/src/file-uploads/file-uploads.module.ts:14-18 | uploads keep the directory listing well formed |
| FileUploads.SixMegabyteImageRefused | backend/api/src/file-uploads/file-uploads.controller.ts:37 | a 6 MB image exceeds the 5 MB limit |
| Notifications.PermissionIff | frontend/src/app/page.tsx:9-25 | permission holds exactly when supported and granted, or undecided and granted on asking |
| Notifications.TimerDelayRanges | frontend/src/app/page.tsx:163-167 | the browser honours a delay exactly when it is at most 2^31 - 1 ms; from 2^31 to 2^32 ms it runs at once, from 2^32 ms it runs 2^32 ms early |
| Notifications.ArmAsWrittenIff | frontend/src/app/page.tsx:158-171 | as written, a timer is armed exactly for events starting after now, due after the browser's converted delay |
| Notifications.FarEventNotifiedAtOnce | frontend/src/app/page.tsx:163-167 | as written, an event 2^31 to 2^32 ms ahead gets a timer due immediately |
| Notifications.ThirtyDaysAheadAsWritten | frontend/src/app/page.tsx:163-167 | as written, an event thirty days ahead is notified at once |
| Notifications.FarEventRearmedAtOnce | frontend/src/app/page.tsx:155-176 | as written, every list refresh arms an event 2^31 to 2^32 ms ahead with a timer due at once, which then shows its notification |
| Notifications.CappedDelayHonoured | frontend/src/app/page.tsx:163-167 | the corrected pass's capped delay is positive, no more than the wait, and honoured by the browser |
| Notifications.ArmIff | frontend/src/app/page.tsx:158-171 | the corrected pass arms exactly the events starting after now, aimed at their start and due there when at most 2^31 - 1 ms away |
| Notifications.ArmFollowsList | frontend/src/app/page.tsx:158-171 | the arming pass follows list order, one timer per upcoming event, aimed at its start |
| Notifications.ArmingShowsAtTarget | frontend/src/app/page.tsx:165-167 | an arming timer never notifies early: it arms again no later than its target, or it runs exactly at the target |
| Notifications.RebuildReplacesArming | frontend/src/app/page.tsx:155-176 | after a list change the arming timers are exactly the corrected pass's; follow-up and snooze timers are kept |
| Notifications.FireWithoutPermission | frontend/src/app/page.tsx:180-185 | without permission nothing is shown and no follow-up is scheduled |
| Notifications.FireWithPermission | frontend/src/app/page.tsx:187-224 | the notice has title "Event: "+title, the description or default body, the image or default icon; it becomes active and a follow-up is due 10000 ms later |
| Notifications.CloseRemovesEntry | frontend/src/app/page.tsx:195-203 | clicking or closing removes the event's active entry and leaves the others |
| Notifications.FollowUpPrompts | frontend/src/app/page.tsx:206-214 | a follow-up while the event is active closes the notice and shows the snooze prompt with its text |
| Notifications.FollowUpAfterDismissal | frontend/src/app/page.tsx:207 | a follow-up after dismissal does nothing |
| Notifications.SnoozeReschedules | frontend/src/app/page.tsx:216-221 | clicking the prompt closes it and schedules the event 300000 ms later |
| Notifications.SnoozeCountsFromClick | frontend/src/app/page.tsx:216-221 | when time has passed before the click, the snooze is due 300000 ms after the click |
| Notifications.DismissPromptSchedulesNothing | frontend/src/app/page.tsx:209-222 | closing the snooze prompt without clicking removes it and schedules nothing |
| Notifications.UnmountCloses | frontend/src/app/page.tsx:147-175 | unmounting closes exactly the notifications the map names, empties the map and drops only the arming timers |
| Notifications.RebuildKeepsInv | frontend/src/app/page.tsx:155-176 | rebuilding with the corrected pass keeps timers not overdue, arming timers due no later than their target, and active entries consistent |
| Notifications.RebuildAsWrittenKeepsInv | frontend/src/app/page.tsx:155-176 | rebuilding with the page's own pass keeps the invariant |
| Notifications.AdvanceKeepsInv | frontend/src/app/page.tsx:155-221 | time passing up to the next due timer keeps the invariant |
| Notifications.DismissPromptKeepsInv | frontend/src/app/page.tsx:209-222 | dismissing a prompt keeps the invariant |
| Notifications.CloseKeepsInv | frontend/src/app/page.tsx:195-203 | closing keeps the invariant |
| Notifications.ClickPromptKeepsInv | frontend/src/app/page.tsx:216-221 | snoozing keeps the invariant |
| Notifications.UnmountKeepsInv | frontend/src/app/page.tsx:147-151 | unmounting keeps the invariant |
| Notifications.TickKeepsInv | frontend/src/app/page.tsx:165-221 | running the next timer keeps the invariant, in the state machine armed by the corrected pass or by the page's own |
| Client.ReplaceById | frontend/src/app/page.tsx:336-338 | same length; a record with the id becomes the saved one, the others stay |
| Client.SubmitIff | frontend/src/app/page.tsx:282-299 | a form is sent exactly when filled, not in the past and start before end; each rejection carries the first failing check's message |
| Client.InvalidTimesPassClientChecks | frontend/src/app/page.tsx:287-299 | unparseable times pass both time checks |
| Client.SubmitCleansMedia | frontend/src/app/page.tsx:302-314 | text fields are sent as entered; a media URL is sent exactly when non-blank and not `data:` |
| Client.RestoreKeepsInline | frontend/src/app/page.tsx:305-331 | the local copy shows the form's `data:` value, otherwise the server's, and nothing else changes |
| Client.PayloadValidForCreate | frontend/src/app/page.tsx:302-321 | a sent payload names no server field and, with a title of ≥ 3 characters and ISO times, passes the creation rules |
| Client.ShortTitleOnlyServerRejects | frontend/src/app/page.tsx:282 | a two-character title passes the page's check but not the server's |
| Client.EditKeepsPositions | frontend/src/app/page.tsx:334-339 | an edit keeps length, positions, ids and their uniqueness |
| Client.CreateAppends | frontend/src/app/page.tsx:340-342 | a create appends the saved record after the others |
| Client.DeleteLocallyIff | frontend/src/app/page.tsx:359 | a delete keeps exactly the records with other ids, in order |
| Client.TodayFuturePartition | frontend/src/app/page.tsx:610-631 | today's and upcoming lists are disjoint and together hold the events starting at or after today's midnight |
| Text.ContainsIff | backend/api/src/events/events.service.ts:44-45 | `includes` holds exactly when the term occurs at some offset |
| Text.ContainsEmpty | backend/api/src/events/events.service.ts:40-46 | every string includes the empty term |
| Text.TrimEmptyIff | frontend/src/app/page.tsx:308-312 | `trim()` is empty exactly when every character is JavaScript whitespace |
| Text.LexTotal | backend/api/src/events/events.service.ts:79-83 | two different titles are ordered one way or the other by `<` |
| Text.LexNotLessTransitive | backend/api/src/events/events.service.ts:79-83 | "not less than" on titles is transitive |
| Text.MeasuredLengthPlain | backend/api/src/events/dto/create-event.dto.ts:8 | the length `@MinLength` measures is the number of code points when the title has no variation selector |

## Left out

- `frontend/src/services/api.ts` (fetch wrappers and query-string building) is not part of this model; the payload's JSON body is modelled instead.
- Rendering, modal state, the calendar grid, EventDetailModal and the YouTube-id regex: presentation only.
- Local-time and DST arithmetic for the two midnights and the form's date formatting: the midnights are inputs.
- Real file-system calls (`existsSync`, `unlinkSync`, `sendFile` in `getFile`) and the uploads wipe at startup: the uploads directory is a set of names.
- Multer and busboy streaming: an upload is one `IncomingFile`. The module-wide 10 MB default limit is replaced by each route's own limit, which is what applies.
- Nest modules, dependency injection, CORS, Swagger, and `ParseUUIDPipe` on the id routes: ids are plain strings.
- The `sortBy` query string is taken as one of its four declared values; any other string is not modelled.
- Text.LexLess: JavaScript's `<` on strings compares UTF-16 code units, while the model compares code points. The two disagree when a character above U+FFFF meets one in U+E000–U+FFFF (`"😀" < "！"` holds in JavaScript, not in the model), so a title sort can differ on such titles.
- Real timers and the browser Notification API: timers are records run by `Tick`, permission is an input, and an asynchronous permission answer is taken as immediate.
- Message texts of validation violations: the model reports which constraint failed, not class-validator's wording.
- `toLowerCase` and `Date` parsing are oracles. `@MinLength` measures code points without U+FE0E and U+FE0F, as validator.js `isLength` does; the page's own checks only test for empty strings.
- Validation.ParseCreateEventDto: with `enableImplicitConversion`, class-transformer turns a JSON number or boolean under a declared string property into its string form before validating. The model treats such a value as a non-string, so it refuses some bodies the server accepts.
- Validation.ParseUpdateEventDto: the same conversion is not modelled.
- Query.FindAllSorted: promises an order only for pairwise-distinct keys. With ties the comparator is inconsistent, and JavaScript's `sort` then promises no order. The model's insertion sort fixes one order, but nothing is claimed about it.
- Notifications.Rebuild: arms with the corrected pass, which caps each delay and arms again until the start; the page's own effect is `RebuildAsWritten`, whose far-ahead timers fire early (see "## Findings"). Both keep the invariant.
- Notifications.Tick: runs timers one at a time in due order; equal due times run in any order. Time passes between timers only through `Advance`, which never skips a due timer.
- EventsService.Update: takes the DTO of the corrected update pipe, whose title and times cannot be `null`. As written, a `null` that the pipe lets through reaches the merge. `{"endTime": null}` makes the end the epoch, so an event starting after 1970 gets the 500 (NullEndTimeRefusedAsWritten). `{"startTime": null}` passes the check and the null start is stored (NullStartTimePassesAsWritten). A `null` title is stored and makes a later search throw. `Event` holds strings, so a stored `null` is not represented.

## Findings

| source | as written | input that shows it | evidently intended | confidence | as-written member | corrected member |
|---|---|---|---|---|---|---|
| frontend/src/app/page.tsx:163-167 | `setTimeout(show, startTime - now)` with no bound on the delay; browsers take the delay modulo 2^32 as a signed value and run a negative one at once | an event starting 30 days (2592000000 ms) after the page loads: its notification appears immediately, and again on every list refresh | the notification appears at the event's start, however far ahead | not executed | Notifications.FarEventRearmedAtOnce | Notifications.ArmingShowsAtTarget |
| backend/api/src/events/dto/update-event.dto.ts:5 | `PartialType` marks every property `@IsOptional()`, which skips validation for `null` as well as for absent values | `PATCH /events/:id` with body `{"title": null}` passes the pipe. The merge then stores a `null` title, and a later search calls `toLowerCase` on it | Optional on update should mean "may be absent". A supplied title or time should still be a string meeting its create rule | not executed | Validation.NullTitlePassesAsWritten | Validation.ParseUpdateEventDto |
