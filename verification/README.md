# PR Messenger — a verified model of the client core

PR Messenger is a browser chat client with no server. Every tab of the client on one device
reads and writes one shared room directory, a JSON object kept in local storage under the
key `prMessengerRooms`. The directory maps a six-digit room code to a room. A room holds its
code, a creation time, its participants, its message history and an `active` flag. Tabs see
each other's changes in two ways: a one-second poll that reloads the current room, and the
browser's `storage` event.

This project models that core in Dafny:

- `Rooms` (`rooms.dfy`) defines the entities as values: room, participant, message and the
  four message kinds (system notice, text, voice, file). It also defines the pure room
  updates that `createRoom`, `joinRoom`, `leaveRoom` and the file upload perform.
- `Store` (`store.dfy`) defines the directory. `RoomStore` is a class whose one field is
  the directory, with `saveRoom`, `getRoom` and `getRooms`. Several sessions hold the same
  `RoomStore` object, which is how the model shares the storage entry between tabs.
- `Session` (`session.dfy`) defines `Messenger`, the client of one tab. It is a class whose
  fields are the signed-in user, the current room, the call flag and the poll flag. Its
  methods are the operations of `app.js`, and each is proved against the pure updates above.
  The module also holds the join guards, the reconciliation step shared by the poll and the
  storage event, and the room-code generator.
- `Files` (`files.dfy`) holds the 50 000 000-byte upload limit and `getFileType`.
- `Durations` (`durations.dfy`) holds `formatDuration`, which labels voice messages.
- `Strings` (`strings.dfy`) holds the JavaScript string behaviour the client relies on:
  `trim()`, ASCII `toLowerCase()`, `toString()` of integers and `padStart`.
- `Scenarios` (`scenarios.dfy`) holds two tabs working on one directory.

Parts of JavaScript's semantics are written out explicitly:

- `%` truncates toward zero (`Durations.JsRemainder`).
- `Math.floor` of a quotient by a positive divisor is Dafny's `/`.
- `trim()` removes exactly the ECMAScript white-space and line-terminator characters.
- `split('.').pop()` is the text after the last dot, or the whole name when it has no dot.
- A missing storage entry reads as an empty directory.

The clock, `Math.random()` and `generateId()` are outside the model. Their values are
parameters: timestamps, message and user ids, and the draw behind a room code.

## Model

| member | source | states |
|---|---|---|
| Store.RoomStore.constructor | app.js:1129-1132 | a storage entry that was never written reads as an empty directory |
| Store.RoomStore.GetRooms | app.js:1129-1132 | the directory read back is the stored directory, with every room filed under its own code |
| Store.RoomStore.GetRoom | app.js:1124-1127 | a room is found exactly when its code is in the directory; the room found is the entry stored under that code and carries that code |
| Store.Lookup | app.js:1126 | `rooms[code] \|\| null` on a map; its behaviour after a save is stated by `LookupAfterPut` |
| Store.Put | app.js:1120 | `rooms[room.code] = room`; stated by `LookupAfterPut` and `PutKeepsWellKeyed` |
| Store.RoomStore.SaveRoom | app.js:1118-1122 | saving reads the directory, replaces the entry under the room's own code and writes it back; rooms stay filed under their own codes |
| Store.LookupAfterPut | app.js:1118-1127 | loading after a save returns the saved room under its code and the old entry under any other code; saving never removes a code |
| Store.PutKeepsWellKeyed | app.js:1118-1122 | saving keeps every room filed under its own code |
| Session.GenerateRoomCode | app.js:261-263 | every generated code is exactly six decimal digits |
| Session.GeneratedCodeIsJoinable | app.js:261-263 | every generated code passes the length check of `joinRoom` |
| Rooms.NewRoom | app.js:320-341 | the room `createRoom` builds; stated by `CreateThenGet` and `Messenger.CreateRoom` |
| Session.CreateThenGet | app.js:303-356 | after creating a room, loading its code gives an active room whose only participant is the creator and whose only message is the system notice |
| Session.JoinTarget | app.js:370-384 | the guards of `joinRoom` in their order; stated by `JoinRefusals` and used by `Messenger.JoinRoom` |
| Session.JoinRefusals | app.js:367-384 | a well-formed join is refused as "not found" exactly when the code is absent or its room is inactive; a join is granted exactly for an active stored room of a six-character code with a non-empty name, and it gets that room |
| Session.Reconcile | app.js:1141-1150 | a tab outside any room stays outside; a tab in a room adopts the stored copy when the code is stored and keeps its own copy otherwise |
| Session.ReconcileIdempotent | app.js:1141-1150 | a second reconciliation against the same directory changes nothing |
| Session.ReconcileSeesLatestSave | app.js:1141-1150 | after any tab saves the room this tab shows, this tab's next poll shows exactly that save |
| Session.Messenger.constructor | app.js:3-35 | a new tab is outside any room and any call, and its poll is running |
| Session.Messenger.StartSync | app.js:1135-1151 | the poll is scheduled |
| Session.Messenger.EndCall | app.js:1030-1058 | no call is in progress afterwards, and nothing else changes |
| Session.Messenger.CreateRoom | app.js:303-356 | an empty trimmed name is refused with no change; otherwise a fresh active room under the code, with the caller as its only participant (role creator) and one "Room <code> created" notice, is saved over any previous entry and becomes the current room |
| Session.Messenger.JoinRoom | app.js:358-415 | the guards run in the source's order (code length, name, room found and active) and a refusal changes nothing; on success the stored room gets the caller appended as participant and a "<name> joined the room" notice, is saved and becomes the current room |
| Session.Messenger.LeaveRoom | app.js:421-473 | a call in progress is ended; in a room, the current copy gets a "<name> left the room" notice, loses every participant with the leaver's id, is deactivated when nobody is left, and is saved; no room is ever removed; afterwards the tab is outside any room and the poll runs again |
| Rooms.AddParticipant | app.js:386-400 | the joiner appended to the participants, then a join notice appended to the history; stated by `JoinEffects` and used by `Messenger.JoinRoom` |
| Rooms.JoinEffects | app.js:393-400 | joining appends the newcomer after the unchanged participant list and exactly one join notice after the unchanged history, and leaves the code, creation time and active flag as they were |
| Rooms.LeaveUpdate | app.js:437-452 | the leave notice, the filter and the deactivation; stated by `LeaveEffects` and `LastLeaverDeactivates` |
| Rooms.LeaveEffects | app.js:437-455 | leaving appends exactly one leave notice after the unchanged history, keeps exactly the participants with another id, and leaves the room active exactly when it was active and someone is left |
| Rooms.LastLeaverDeactivates | app.js:449-452 | when everybody left in the room has the leaver's id, the room is deactivated |
| Rooms.WithoutParticipant | app.js:446 | the filter never lengthens the list; membership and order are stated by `WithoutParticipantMembers` and `WithoutParticipantDistributes` |
| Rooms.LeavingKeepsOthers | app.js:446 | the filter removes only the leaver and keeps everyone else in their order |
| Rooms.WithoutParticipantMembers | app.js:446 | a participant survives the filter exactly when they were present and have another id |
| Rooms.WithoutParticipantDistributes | app.js:446 | the filter keeps order: filtering a concatenation concatenates the filtered parts |
| Rooms.WithoutAbsentParticipant | app.js:446 | a list in which nobody has the id is unchanged by the filter |
| Rooms.WithoutEveryone | app.js:446-451 | a list in which everybody has the id is emptied by the filter |
| Session.Messenger.SendMessage | app.js:623-645 | a message is sent exactly when the tab is in a room and the input has text left after trimming; a sent message holds the trimmed text and the user's name and is appended and saved; otherwise nothing changes |
| Strings.TrimEmptyIff | app.js:627-629 | trimming leaves nothing exactly when the input is all white space, so a white-space-only message is never sent |
| Strings.Trim | app.js:627 | the trimmed text is no longer than the input and neither starts nor ends with white space |
| Strings.TrimCharacterization | app.js:627 | trimming white space around a text that neither starts nor ends with white space gives that text back |
| Strings.TrimIdempotent | app.js:627 | trimming twice is trimming once |
| Strings.LeadingWhitespace | app.js:627 | the index where `trim` starts: everything before it is white space and the character at it is not |
| Strings.TrailingWhitespace | app.js:627 | the index where `trim` ends: everything from it on is white space and the character before it is not |
| Strings.TrimStartSkips | app.js:627 | white space in front of a text that does not start with white space is dropped, and nothing more |
| Strings.TrimEndSkips | app.js:627 | white space after a text that does not end with white space is dropped, and nothing more |
| Session.Messenger.SendVoiceMessage | app.js:732-760 | in a room, one voice message with the recording and its elapsed time formatted as minutes:seconds is appended and saved; outside a room nothing changes |
| Session.Messenger.ProcessFiles | app.js:812-840 | outside a room no file is looked at; in a room every file over 50 000 000 bytes is refused and every other file is read, both in the order given |
| Files.Accepted | app.js:815-819 | every accepted file is within the size limit |
| Files.Rejected | app.js:815-819 | every refused file is over the size limit |
| Files.AcceptedCount | app.js:815-819 | a file within the limit is accepted exactly as often as it was offered; a file over the limit is never accepted |
| Files.RejectedCount | app.js:815-819 | a file over the limit is refused exactly as often as it was offered; a file within the limit is never refused |
| Files.AcceptedAndRejectedPartition | app.js:815-819 | every offered file is either accepted or refused, never both and never lost |
| Files.SizeLimitBoundary | app.js:816 | a file of exactly 50 000 000 bytes is accepted, one byte more is refused |
| Session.Messenger.OnFileLoaded | app.js:821-836 | a completed read appends one file message (name, size, type from `getFileType`, contents, sender) to the current room and saves it; with nobody signed in the callback fails before changing anything |
| Rooms.FileMessage | app.js:823-832 | the file message of one read, typed by `GetFileType` |
| Rooms.DeliverLoads | app.js:821-836 | the room after the reads complete in the order given; stated by `DeliverLoadsAppends` and `UploadBatch` |
| Rooms.DeliverLoadsAppends | app.js:821-836 | delivering a batch of reads appends exactly their file messages and changes nothing else in the room |
| Rooms.SentFilesOfLoads | app.js:821-836 | the file messages of a batch name exactly the loaded files, in the order the reads complete |
| Rooms.FileMessages | app.js:821-836 | one message per completed read, every one of them a file message |
| Rooms.UploadBatch | app.js:812-840 | whatever order the reads complete in, a batch adds one file message per accepted file with its name and size, none for a file over the limit, and leaves the earlier history and every other field untouched |
| Files.GetFileType | app.js:842-855 | the type is always one of `images`, `documents`, `audio`, `video` or `document` |
| Files.CategoryOf | app.js:844-854 | the category of an extension is always one of the five names |
| Files.CategoryOfIff | app.js:844-854 | each category is returned exactly for the extensions of its list, and `document` exactly for an extension in none of them |
| Files.CategoryOfCases | app.js:851-854 | the lists are tried in the table's order: images, documents, audio, video, then the default |
| Files.ExtensionListsDisjoint | app.js:844-849 | no extension is listed under two categories |
| Files.FindCategory | app.js:851-854 | the search returns the default or the name of a row of the table |
| Files.ExtensionStart | app.js:843 | the extension starts just after the last dot, or at the beginning when there is none |
| Files.Extension | app.js:843 | the extension never contains a dot |
| Files.ExtensionAfterLastDot | app.js:843 | the extension of `stem.ext` is `ext` when `ext` has no dot |
| Files.ExtensionWithoutDot | app.js:843 | a name without a dot is its own extension |
| Files.FileTypeByExtension | app.js:842-855 | only the text after the last dot decides the type, compared in lower case |
| Files.FileTypeIgnoresCase | app.js:843 | the type does not depend on the letter case of the name |
| Files.FileTypeOfCapitalisedName | app.js:842-855 | `Report.PDF` is a `documents` file |
| Files.FileTypeOfDoubleExtension | app.js:842-855 | `archive.tar.gz` falls back to `document` |
| Files.FileTypeOfNameWithoutDot | app.js:842-855 | a file called `mp3` is `audio` |
| Strings.ToLowerAscii | app.js:843 | lower-casing keeps the length and maps each ASCII capital to its small letter |
| Session.Messenger.PollTick | app.js:1141-1150 | the poll's current room becomes the reconciled room, and the view is redrawn exactly when the room changed |
| Session.Messenger.HandleStorageChange | app.js:1153-1163 | an event for another key changes nothing; for the directory key, the current room becomes its stored copy in the new value (a removed entry reads as empty), and the view is redrawn exactly when that copy exists |
| Durations.FormatDuration | app.js:1184-1188 | `formatDuration`; stated by `FormatDurationShape`, `DurationRoundTrip` and `NegativeDurationExample` |
| Durations.Label | app.js:1187 | the `M:SS` template; stated by `LabelShape` and `LabelRoundTrip` |
| Durations.FormatDurationShape | app.js:1184-1188 | for a non-negative duration the label is whole minutes, a colon, then exactly two digits of seconds |
| Durations.DurationRoundTrip | app.js:1184-1188 | reading a label back gives the duration in whole seconds: no information beyond the dropped milliseconds is lost |
| Durations.MinutesAndSeconds | app.js:1185-1186 | minutes times 60 plus the seconds field is the duration in whole seconds |
| Durations.TwoDigitValue | app.js:1187 | the padded seconds field is two digits that read back as the seconds |
| Durations.DigitRoundTrip | app.js:1187 | a digit reads back as its value |
| Durations.ParseDurationOf | app.js:1187 | a label splits into its minutes field and its two-character seconds field at the colon |
| Durations.FieldsRoundTrip | app.js:1187 | the decimal minutes and the padded seconds read back as minutes times 60 plus seconds |
| Durations.LabelRoundTrip | app.js:1187 | a label of non-negative minutes and of seconds below 60 reads back as minutes times 60 plus seconds |
| Durations.LabelShape | app.js:1187 | a label of non-negative minutes and of seconds below 60 is the minutes' digits, a colon and two digits of seconds |
| Durations.PaddedSeconds | app.js:1187 | `padStart(2, '0')` of a seconds value below 60 is its tens digit followed by its units digit |
| Durations.SecondsField | app.js:1186 | for a non-negative duration the truncating `%` agrees with the floored one, and the seconds field is below 60 |
| Durations.NegativeDurationExample | app.js:1184-1188 | a negative duration renders with negative fields: -1 ms is `-1:-1` |
| Durations.JsRemainder | app.js:1186 | the dividend is the divisor times the quotient rounded toward zero plus the remainder; the remainder has the sign of the dividend and is smaller in size than the divisor |
| Strings.DecimalString | app.js:1187 | `toString()` of a non-negative integer is a non-empty string of digits |
| Strings.DecimalRoundTrip | app.js:1187 | reading the decimal text of a number back gives the number |
| Strings.DecimalStringLength | app.js:262 | a number between 10^k and 10^(k+1) has k+1 digits |
| Strings.IntString | app.js:1187 | a non-negative integer renders as its decimal digits |
| Strings.PadStart | app.js:1187 | padding reaches at least the width, keeps the text as a suffix and fills the front with the fill character |
| Strings.DigitChar | app.js:1187 | every digit value renders as a decimal digit character |
| Strings.DigitValue | app.js:1187 | a digit character reads back as a value below ten that renders as that character |
| Strings.Pow10 | app.js:262 | powers of ten are positive; a helper that states the digit range in `DecimalStringLength`, which gives the six-digit length of room codes |
| Rooms.LoadedFiles | app.js:821-836 | one file per completed read |
| Scenarios.TwoTabsShareARoom | app.js:1141-1150 | one tab creates a room, a second joins and sends a message, and after one poll both tabs show the same room with two participants and three messages |
| Scenarios.StaleWriteDropsAJoin | app.js:1118-1122 | a tab that sends before polling saves its stale copy over the directory and loses a join made in another tab (the last writer wins) |

## Left out

- The user interface: the DOM, modals, toasts, message rendering, `escapeHtml`, `formatFileSize`, `getFileIcon`, `scrollToBottom` and `copyRoomCode`. They only present data.
- The element checks that return early when the page lacks a form element: the modal inputs of `createRoom` and `joinRoom`, and the message input of `sendMessage` (`!input`, app.js:625). They fail only when the page is broken.
- Calls: WebRTC, media streams, screen sharing and call timers are browser services. Only the `isInCall` flag and `endCall` are modelled. The two-participant guard of the call buttons is not modelled.
- Voice capture: `startVoiceRecording`, `stopRecording` and `discardRecording` drive `MediaRecorder`. The recording reaches the model as an object-URL string plus an elapsed time.
- `generateId`, `Date` and `Math.random`: they become parameters. Ids are not proved unique.
- JSON and local storage: the directory is a Dafny map, and writing the serialised directory is a map update. A stored entry that is not valid JSON makes `JSON.parse` throw in `getRooms`. The model has no unparsable state.
- Poll comparison: the poll compares the JSON texts of the two rooms. The model compares the rooms as values. The two agree because every room the client builds has its keys in the same order.
- Session.Messenger.JoinRoom: counts characters as Unicode scalar values, where `code.length` counts UTF-16 code units. The two differ only for a code holding characters outside the Basic Multilingual Plane.
- Store.Lookup: property names inherited by plain JavaScript objects are not modelled. None of them has six characters, so `joinRoom` can never reach one.
- Concurrency: tabs are modelled as sessions taking turns on one shared `RoomStore`, each operation running whole. Tabs are separate pages, so another tab's write can land between the `getRooms()` read and the `setItem` write inside `saveRoom` (app.js:1119-1121); that interleaving is out of scope. Timer scheduling is reduced to the `syncActive` flag plus the `PollTick` body.
- The `syncActive` flag is true in every reachable state, because `leaveRoom` stops the poll and restarts it in the same call. The flag only records the `clearInterval`/`setInterval` pair and no other contract reads it.
- File reads: `FileReader` contents are a data-URL parameter. The order in which reads complete is a parameter of `Rooms.UploadBatch`, so only the count, the filtering and the content of the appended messages are claimed, not their order.
- Strings.ToLowerAscii: lower-cases ASCII letters only. Two non-ASCII characters lower-case to text holding an ASCII letter: the Kelvin sign (U+212A) becomes `k`, and U+0130 becomes `i` followed by U+0307. No listed extension contains `k`, and U+0307 is neither a `.` nor part of any listed extension. So `getFileType` gives the same result either way.
- Durations.FormatDuration: integers of 10^21 and more, which JavaScript prints in exponent notation, and non-integer or floating-point inputs are not modelled.
- Session.GenerateRoomCode: takes the integer draw `Math.floor(Math.random() * 900000)`. Floating-point rounding of the product is not modelled.
- Store.RoomStore.SaveRoom: never fails. In the browser, `localStorage.setItem` (app.js:1121) throws once the directory exceeds the storage quota of a few megabytes. Accepted files of up to 50 000 000 bytes are stored as data URLs (app.js:829), so most accepted files cannot actually be saved. After such a failed write, `onload` and `sendMessage` have already appended to the tab's copy (app.js:834, app.js:639), which keeps the unsaved message until the next poll restores the stored copy. `createRoom` and `joinRoom` have already set the user (app.js:334, app.js:386) but not the room, a state `Messenger.Valid` excludes. None of these partial states are modelled.
- Rooms.UploadBatch: requires every accepted file to be read exactly once. The source has no `onerror` handler, so a read that fails adds no message. That case is not covered.
- `enterRoom` is not modelled separately: it only calls `createRoom`.
