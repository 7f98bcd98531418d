# Smart Hostel room registry, in Dafny

This project models the core of the Smart Hostel room manager and proves properties of it:

- **HostelManager**, the room registry of the stand-alone `SmartHostelServer`. It adds rooms, lists them, searches and allocates them, and keeps a JSON snapshot file.
- **The snapshot codec** that HostelManager reads and writes:
  - `toJson`, `toJsonArray` and `jsonEscape` write the snapshot;
  - `parseRoomsJsonArray`, `parseFlatJsonObject` and `stripQuotes` read it back;
  - `parseIntSafe` and `parseBoolSafe` read its fields.
- **The Spring `HostelService`**, with the same registry logic, and the mutable `Room` bean it stores.
- **The pure helpers of the browser client `web/app.js`**: `escapeHtml`, `badgeYesNo`, and the text `setOutput` shows.

## Modules

**`Wrappers`** (wrappers.dfy): `Option`, which stands for Java `null` and `Optional`.

**`JavaString`** (java_string.dfy): the library behaviour the core relies on.
- The 32-bit `int` type.
- `String.trim`, `toLowerCase(Locale.ROOT)` and `equalsIgnoreCase` (ASCII case folding).
- `indexOf`, and `replace` / JavaScript `replaceAll`.
- `compareTo`, as a lexicographic order `LexLe`.
- `Integer.parseInt` and `int`-to-text conversion.

**`Rooms`** (rooms.dfy): the registry logic both services share.
- The `Room` record and the registry invariants: a well-formed room, and numbers distinct ignoring case.
- The five seed rooms.
- The search filter, a stable insertion sort standing for the Java sorts, `Search` and `Allocate`.

**`SnapshotJson`** (snapshot_json.dfy): the codec.
- Specification functions for what each codec routine returns.
- Methods with the source's loops, proved equal to those functions.

**`SnapshotRoundTrip`** (snapshot_roundtrip.dfy): what reading a written snapshot gives.
- One room with a backslash-free number comes back unchanged.
- Of several rooms only the first comes back (see Findings).
- The corrected reading returns every room.

**`SmartHostelServer`** (smart_hostel_server.dfy): `class HostelManager`.
- Fields `rooms` and `disk`. The snapshot file is `disk`: `None` when the file is missing, otherwise its text.
- The constructor runs the load path or the seed path.
- `addRoom` loops and saves; search and allocate are read-only.

**`Service`** (hostel_service.dfy): `class HostelService`.
- Numbers are compared after trim and lower-case.
- There is no capacity check and no snapshot.

**`Bean`** (room_bean.dfy): `class Room` of model/Room.java, with its two constructors, getters and setters.

**`WebApp`** (web_app.dfy): `escapeHtml`, `badgeYesNo` and the text `setOutput` shows.
- `escapeHtml` is proved against a character-by-character reference.
- Undoing its five replacements in reverse order is proved to restore the input.

## Model

| member | source | states |
|---|---|---|
| JavaString.Trim | SmartHostelServer.java:70 | the result is empty exactly when every char is at most U+0020; otherwise it neither starts nor ends with such a char |
| JavaString.TrimInfix | SmartHostelServer.java:70 | the trimmed text is a contiguous piece of the input, and everything dropped before and after it is chars at most U+0020 |
| JavaString.TrimIdempotent | SmartHostelServer.java:104 | trimming a trimmed text changes nothing |
| JavaString.ToLower | src/main/java/com/smarthostel/service/HostelService.java:63 | same length; every char is lower-cased on its own (ASCII `A`-`Z` shifted, others kept) |
| JavaString.ToLowerIdempotent | src/main/java/com/smarthostel/service/HostelService.java:63 | lower-casing twice is lower-casing once |
| JavaString.EqualsIgnoreCaseIff | SmartHostelServer.java:73 | `equalsIgnoreCase` holds exactly when the lower-cased texts are equal |
| JavaString.IndexOf | SmartHostelServer.java:444 | -1 exactly when the char is absent; otherwise the index of its first occurrence |
| JavaString.LexLeTotal | SmartHostelServer.java:89 | the `compareTo` order on room numbers is total |
| JavaString.LexLeTransitive | SmartHostelServer.java:89 | the `compareTo` order is transitive |
| JavaString.LexLeAntisymmetric | SmartHostelServer.java:89 | two numbers that compare both ways are equal |
| JavaString.ParseInt | SmartHostelServer.java:467 | a value exactly when the text is an optional sign and at least one digit whose value fits in an `int`, and then that value; `None`, the NumberFormatException case, otherwise |
| JavaString.ParseIntLeadingZeroAndPlus | SmartHostelServer.java:467 | a leading zero or a `+` sign does not change what a run of digits parses to |
| JavaString.ParseIntOutOfRange | SmartHostelServer.java:467 | the decimal text of a value beyond the `int` range does not parse |
| JavaString.ParseIntToString | SmartHostelServer.java:351 | parsing the decimal text of any `int` gives that `int` back |
| JavaString.ReplaceAbsent | SmartHostelServer.java:408 | replacing a target whose first char does not occur changes nothing |
| Rooms.AppendWellFormed | SmartHostelServer.java:71-75 | appending a room with a non-empty trimmed number and positive capacity keeps every stored room so |
| Rooms.AppendDistinct | SmartHostelServer.java:72-75 | appending a number not stored yet (ignoring case) keeps the numbers distinct |
| Rooms.SeedValid | SmartHostelServer.java:60-64 | the five seed rooms are well formed and have distinct numbers |
| Rooms.FilterCount | SmartHostelServer.java:86-88 | filtering keeps each matching room as often as it is stored and drops every other room |
| Rooms.SortPermutes | SmartHostelServer.java:89 | the sort rearranges: the multiset of rooms is unchanged |
| Rooms.SortOrders | SmartHostelServer.java:89 | the sort result is in ascending comparator order |
| Rooms.SortSorted | SmartHostelServer.java:96 | sorting a list already in comparator order returns it unchanged (stability) |
| Rooms.TiedIff | SmartHostelServer.java:89 | the search comparator ties two rooms exactly when their capacities and numbers are equal |
| Rooms.SortStable | SmartHostelServer.java:89 | the sort is stable: rooms the comparator ties keep their relative order |
| Rooms.SortedByRefines | SmartHostelServer.java:89-96 | a list sorted by (capacity, number) is sorted by capacity |
| Rooms.Search | SmartHostelServer.java:84-91 | exactly the matching rooms, each as often as stored, ascending by capacity and then by number |
| Rooms.SearchStable | SmartHostelServer.java:84-91 | matches with the same capacity and number come out in their stored order |
| Rooms.Allocate | SmartHostelServer.java:93-98 | none exactly when no room matches; otherwise a matching stored room of least capacity, the first search result |
| Rooms.SeedSearchScenario | src/main/java/com/smarthostel/service/HostelService.java:44-51 | over the seed, a search for at least two beds lists 102, 104, 103, 201 |
| Rooms.SeedAllocateScenario | src/main/java/com/smarthostel/service/HostelService.java:53-60 | over the seed, allocating two students with AC and washroom picks room 104 |
| SnapshotJson.ToJsonArray | SmartHostelServer.java:357-366 | the loop's text is `[`, the objects of the rooms separated by commas, `]` |
| SnapshotJson.ParseIntSafe | SmartHostelServer.java:464-471 | the value of the trimmed text when `Integer.parseInt` accepts it; the fallback for `null`, for malformed text and for values beyond the `int` range |
| SnapshotJson.ParseBoolSafeCases | SmartHostelServer.java:473-479 | true for a trimmed `true` in any case, false for `false` in any case, the fallback for everything else and for `null` |
| SnapshotJson.SplitParts | SmartHostelServer.java:428-441 | the loop cuts the body at every comma outside quotes, last part included |
| SnapshotJson.AddParts | SmartHostelServer.java:443-450 | the loop maps the unquoted key before the first colon to the unquoted value after it, skipping parts without one |
| SnapshotJson.ParseFlatJsonObject | SmartHostelServer.java:419-452 | the map is what the brace-stripped, comma-split body says; empty for a blank body |
| SnapshotJson.CutObjects | SmartHostelServer.java:374-390 | the loop cuts the text into trimmed objects at each closing brace at depth zero outside quotes |
| SnapshotJson.KeepRecords | SmartHostelServer.java:392-402 | the loop keeps, in order, the records with a non-empty number and a positive capacity |
| SnapshotJson.ParseRoomsJsonArray | SmartHostelServer.java:368-404 | the rooms the bracket-stripped text names, all well formed; empty for a blank snapshot |
| SnapshotJson.RecordOf | SmartHostelServer.java:394-401 | a kept record has a non-empty trimmed number and a positive capacity |
| SnapshotRoundTrip.JsonEscapeQuotesOnly | SmartHostelServer.java:406-409 | without backslashes, jsonEscape only puts a backslash before each quote |
| SnapshotRoundTrip.StripQuotesUndoesEscape | SmartHostelServer.java:454-462 | stripQuotes of a quoted jsonEscape of a backslash-free text gives the text back |
| SnapshotRoundTrip.FlatObjectOfRoom | SmartHostelServer.java:348-355 | parseFlatJsonObject of toJson of a room is the map of its four fields |
| SnapshotRoundTrip.RecordOfRoom | SmartHostelServer.java:394-401 | the object of a well-formed room reads back as that room |
| SnapshotRoundTrip.RecordOfLaterRoom | SmartHostelServer.java:385-388 | an object cut with its leading comma has key `{"roomNo"` and is dropped |
| SnapshotRoundTrip.ObjectTextsOfArray | SmartHostelServer.java:374-390 | a snapshot is cut into the first object and every later object with its comma in front |
| SnapshotRoundTrip.DecodeSnapshot | SmartHostelServer.java:357-404 | reading a written snapshot gives nothing for no rooms and the first room alone otherwise |
| SnapshotRoundTrip.SecondRoomLost | SmartHostelServer.java:385-399 | a two-room snapshot reads back as its first room only |
| SnapshotRoundTrip.CorrectedSnapshotRoundTrip | SmartHostelServer.java:385-388 | with the separating comma dropped, every room of a snapshot of well-formed rooms with backslash-free numbers comes back in order |
| SnapshotJson.CorrectedDecodeRooms | SmartHostelServer.java:392-402 | the corrected reading keeps only well-formed rooms |
| SmartHostelServer.LoadedRooms | SmartHostelServer.java:100-114 | a load that succeeds installs a non-empty list of well-formed rooms |
| SmartHostelServer.HostelManager.constructor | SmartHostelServer.java:56-67 | the snapshot's rooms if it has any, else the five seed rooms, written out; the invariant holds |
| SmartHostelServer.HostelManager.LoadFromDisk | SmartHostelServer.java:100-114 | true exactly when the file yields rooms; then the list is those rooms, else it is unchanged |
| SmartHostelServer.HostelManager.SaveToDisk | SmartHostelServer.java:116-130 | the file becomes the snapshot of the list; the list is unchanged |
| SmartHostelServer.HostelManager.AddRoom | SmartHostelServer.java:69-78 | true exactly when the trimmed number is non-empty, the capacity positive and the number not stored ignoring case; then the room is appended and saved, else nothing changes; the invariant and distinct numbers are preserved |
| SmartHostelServer.HostelManager.HasNumberLoop | SmartHostelServer.java:72-74 | the loop finds exactly whether some stored number equals the input ignoring case |
| SmartHostelServer.HostelManager.GetAllRooms | SmartHostelServer.java:80-82 | a copy equal to the list |
| SmartHostelServer.HostelManager.SearchRooms | SmartHostelServer.java:84-91 | the search over the stored list (see Rooms.Search) |
| SmartHostelServer.HostelManager.AllocateRoom | SmartHostelServer.java:93-98 | the allocation over the stored list (see Rooms.Allocate) |
| SmartHostelServer.RestartKeepsFirstRoom | SmartHostelServer.java:100-130 | loading the file the last save wrote gives nothing for an empty list, else the first room alone |
| SmartHostelServer.SeedRestart | SmartHostelServer.java:56-67 | a restart after the seed path holds room 101 alone |
| Service.NormalizeEmptyIff | src/main/java/com/smarthostel/service/HostelService.java:62-64 | empty exactly for `null` or a blank number |
| Service.NormalizeIdempotent | src/main/java/com/smarthostel/service/HostelService.java:62-64 | normalising a normalised number changes nothing |
| Service.NormalizedTakenIff | src/main/java/com/smarthostel/service/HostelService.java:31-35 | comparing normalised numbers ignoring case rejects exactly the duplicates HostelManager rejects |
| Service.ZeroCapacityAccepted | src/main/java/com/smarthostel/service/HostelService.java:26-37 | a new non-blank number is accepted whatever the capacity |
| Service.HostelService.constructor | src/main/java/com/smarthostel/service/HostelService.java:17-24 | all five adds succeed and the list is exactly the seed rooms |
| Service.HostelService.AddRoom | src/main/java/com/smarthostel/service/HostelService.java:26-38 | true exactly when the normalised number is non-empty and not taken; then the room with its number trimmed is appended, else nothing changes |
| Service.HostelService.NormalizedTakenLoop | src/main/java/com/smarthostel/service/HostelService.java:31-35 | the loop finds exactly whether a stored number's normalised form matches |
| Service.HostelService.GetAllRooms | src/main/java/com/smarthostel/service/HostelService.java:40-42 | a copy equal to the list |
| Service.HostelService.SearchRooms | src/main/java/com/smarthostel/service/HostelService.java:44-51 | the same search as HostelManager |
| Service.HostelService.AllocateRoom | src/main/java/com/smarthostel/service/HostelService.java:53-60 | the same allocation as HostelManager; empty for no candidate |
| Bean.Room.Empty | src/main/java/com/smarthostel/model/Room.java:9-11 | number `null`, capacity 0, both flags false |
| Bean.Room.constructor | src/main/java/com/smarthostel/model/Room.java:13-18 | the four fields are exactly the arguments |
| Bean.Room.GetRoomNo | src/main/java/com/smarthostel/model/Room.java:20-22 | returns the number field |
| Bean.Room.SetRoomNo | src/main/java/com/smarthostel/model/Room.java:24-26 | sets the number; the other three fields are unchanged |
| Bean.Room.GetCapacity | src/main/java/com/smarthostel/model/Room.java:28-30 | returns the capacity field |
| Bean.Room.SetCapacity | src/main/java/com/smarthostel/model/Room.java:32-34 | sets the capacity; the other three fields are unchanged |
| Bean.Room.IsHasAC | src/main/java/com/smarthostel/model/Room.java:36-38 | returns the AC flag |
| Bean.Room.SetHasAC | src/main/java/com/smarthostel/model/Room.java:40-42 | sets the AC flag; the other three fields are unchanged |
| Bean.Room.IsHasAttachedWashroom | src/main/java/com/smarthostel/model/Room.java:44-46 | returns the washroom flag |
| Bean.Room.SetHasAttachedWashroom | src/main/java/com/smarthostel/model/Room.java:48-50 | sets the washroom flag; the other three fields are unchanged |
| Bean.FillEmpty | src/main/java/com/smarthostel/model/Room.java:9-50 | an empty bean filled through the four setters has the same state as the four-argument constructor gives |
| WebApp.EscapeHtmlByChar | web/app.js:48-55 | the five replacements equal replacing each character by its reference on its own |
| WebApp.EscapeHtmlClean | web/app.js:48-55 | the output holds none of `<`, `>`, `"`, `'` |
| WebApp.EscapeHtmlAmpersands | web/app.js:50 | every `&` of the output begins `&amp;`, `&lt;`, `&gt;`, `&quot;` or `&#039;` |
| WebApp.UnescapeEscape | web/app.js:49-54 | undoing the replacements in reverse order gives the input back |
| WebApp.EscapePlain | web/app.js:48-55 | text without the five specials is returned unchanged |
| WebApp.EscapeHtmlLonger | web/app.js:48-55 | the output is never shorter than the input |
| WebApp.BadgeTellsFlag | web/app.js:65-69 | the two badges differ, so the badge shows which flag it was given |
| WebApp.ToneLabel | web/app.js:80-88 | SUCCESS, ERROR or NOTICE for `success`, `danger`, `warning`; INFO for anything else and for an absent tone |
| WebApp.JsTrim | web/app.js:89 | empty exactly for an all-blank text; otherwise it starts and ends with a non-blank char |
| WebApp.JsTrimInfix | web/app.js:89 | the trimmed text is a contiguous piece of the input, with only blanks dropped around it |
| WebApp.OutputStartsWithLabel | web/app.js:89 | the shown text begins with the label and a colon |
| WebApp.OutputWithoutBody | web/app.js:89 | without a body the text is `label: title` for a title without trailing blanks |

## Left out

- The HTTP side of SmartHostelServer is not modelled: transport, static files, CORS, `parseQuery`/`urlDecode` and `contentType`. The operations accept all inputs. The transport's clamps (`minCapacity` at least one, `students` at least one) are not preconditions, because the registry methods handle every value.
- File I/O is not modelled. The snapshot file is the field `disk`. A missing file or a failed read is `None`. Writes always succeed, since the source swallows their errors. A `null` path is not modelled.
- `synchronized`: every operation is atomic and sequential.
- Spring, `HostelController` and Bean Validation (`@NotBlank`, `@Min`) are not modelled, so HostelService is modelled as accepting any capacity.
- HostelService stores `Room` beans. Its model stores room values. Aliasing through beans returned by `getAllRooms`, `searchRooms` or `allocateRoom` is not modelled. The bean class is modelled on its own in `Bean`.
- JavaString.EqualsIgnoreCase and JavaString.ToLower fold ASCII letters only. Java folds all of Unicode.
- JavaString.LexLe compares chars as Unicode scalar values. Java compares UTF-16 units, which differs only beyond the Basic Multilingual Plane.
- JavaString.ParseInt reads ASCII digits only. `Integer.parseInt` also accepts other Unicode decimal digits.
- The room round trip is proved only for numbers without a backslash. With a backslash, jsonEscape's doubling and stripQuotes's unescaping do not undo each other for every text.
- web/app.js `String(str)` conversion of non-text values is not modelled: EscapeHtml takes text.
- web/app.js `title` is modelled as text. `body` is absent (`null`, `undefined` or `""`) or text; other falsy values are not modelled.
- The DOM side of web/app.js is not modelled: fetch calls, tab wiring, form validation, `el.textContent` assignment.
- Helper members are split out of single source functions so that each proof stays small:
  - CutObjects and KeepRecords are the two loops of parseRoomsJsonArray;
  - SplitParts and AddParts are the two loops of parseFlatJsonObject;
  - HasNumberLoop and NormalizedTakenLoop are the loops of the two addRoom methods;
  - AddSeedRoom is one call of the Spring constructor.

## Findings

| source | as written | input that shows it | evidently intended | confidence | as-written member | corrected member |
|---|---|---|---|---|---|---|
| SmartHostelServer.java:385-388 | the comma between two objects is appended to `cur` after the first object is cut, so every later object text starts with `,`; its first key then reads as `{"roomNo"` (line 446), the number is empty and the record is dropped (line 399) | a snapshot of rooms 101 and 102, `[{"roomNo":"101",...},{"roomNo":"102",...}]`, reads back as room 101 alone | reading a snapshot gives back every room it holds | not executed | SnapshotRoundTrip.SecondRoomLost | SnapshotRoundTrip.CorrectedSnapshotRoundTrip |

HostelManager keeps the as-written reading (`SnapshotJson.DecodeRooms`), because that is what the server does on restart (SmartHostelServer.RestartKeepsFirstRoom). The corrected reading, `SnapshotJson.CorrectedDecodeRooms`, drops the separating comma before reading each object. It is proved to return every room of any snapshot of well-formed rooms whose numbers have no backslash.
