# ahl-backend core, modelled in Dafny

This project models the pure and sequential core of the `ahl-backend` school
application server (Go). Most of that server is HTTP and SQL glue. The parts
modelled here are the pieces that glue relies on:

- **Field validators** (`utils/validation.go`). Accounts, timetables, timetable
  entries, checklists, cafeteria menus, monthly events and schools each have
  one. Each is a chain of guards that returns the first failing reason, or nil.
  The model returns a `Verdict`: `Accepted`, `Rejected(reason)` (one `Reason`
  constructor per error message), or `Panicked` where the Go code crashes
  instead of answering.
- **The stricter account validator of the database layer**
  (`ValidateNewAccount` in `db/db.go`). The `GetSchool` lookup becomes the set
  of registered school ids. The lookup itself is modelled too, because as
  written it never finds a school (see "## Findings").
- **The permission-level tagged union** (`models/accounts.go`). It is a closed
  datatype with the four variants Unknown, StudentInfo, TeacherInfo and
  AdminInfo. Each variant carries exactly its Go struct's fields, so only a
  student has a timetable, grade, class, number, checklist id and friends,
  and only a student or a teacher has a school id.
- **The attendance tri-state** `NO`/`IGNORED`/`YES` and `Attends`
  (`models/Events.go`).
- **The e-mail recogniser** (`utils/email.go`, repeated as `isEmailValid` in
  `utils/validation.go`). The anchored pattern
  `^[a-zA-Z0-9._%+-]+@[a-zA-Z0-9.-]+\.[a-zA-Z]{2,}$` is written twice. First
  as its language: a ghost split of the string into three character runs.
  Then as a recogniser made of greedy scans. The two are proved equal.
- **The binary packing helpers** (`utils/bytes.go`, `models/bytes.go`,
  `models/conversions.go`). These back the BLOB columns `timetable_list`
  (int64 ids) and `friends` (UUIDs). They are methods with loops over a growing
  buffer and over arrays allocated up front, as in the Go code. Each method's
  postcondition ties its result to a specification function in `Codec`. The
  round-trip, length, layout and concatenation properties are lemmas about
  those functions.

Modules, one per Go file plus shared definitions:

| module | file | models |
|---|---|---|
| `Wrappers` | `wrappers.dfy` | `Option`; a nil pointer or nil interface is `None` |
| `GoTypes` | `gotypes.dfy` | `int8`, `int64`, `byte`, `uuid.UUID` and `uuid.Nil` |
| `Models` | `models.dfy` | `models/accounts.go`, `models/Events.go`, and the record shapes the validators read |
| `Email` | `email.dfy` | `utils/email.go` and `isEmailValid` of `utils/validation.go` |
| `Validation` | `validation.dfy` | `utils/validation.go` |
| `DbValidation` | `db_validation.dfy` | `ValidateNewAccount` of `db/db.go` |
| `Blocks` | `blocks.dfy` | fixed-size block framing shared by both codecs |
| `Codec` | `codec.dfy` | the byte layouts: specification functions and their properties |
| `UtilsBytes` | `utils_bytes.dfy` | `utils/bytes.go` |
| `ModelsBytes` | `models_bytes.dfy` | `models/bytes.go` |
| `Conversions` | `conversions.dfy` | `models/conversions.go` |

Three behaviours of the code are easy to misread:

- Grade, class and number are rejected only when zero, so negative values
  are accepted (`StudentChecks`).
- `models/menu.go` declares 18 allergy codes, but the menu validator accepts
  only 1 to 13, so codes 14 to 18 are always rejected
  (`LateAllergyCodesRejected`).
- `models/accounts.go` declares `type UserId string`, but every validator
  compares user ids and teacher/student ids with `uuid.Nil`, so ids are
  16-byte UUIDs here.

`utils.IsEmailValid` and `utils.isEmailValid` compile the same pattern literal.
Both are modelled by the single function `Email.IsEmailValid`, so they agree on
every input by construction.

The `models/bytes.go` methods carry exactly the same postconditions as their
`utils/bytes.go` namesakes, over the same specification functions. So the two
copies return the same bytes and arrays on every input.

## Model

| member | source | states |
|---|---|---|
| `Models.GetLevel` | models/accounts.go:25-64 | the level is 0 for Unknown, 1 for StudentInfo, 2 for TeacherInfo and 3 for AdminInfo, each code exactly for its variant |
| `Models.LevelIdentifiesVariant` | models/accounts.go:25-30 | two permission infos have the same level iff they come from the same variant, so the level determines the variant |
| `Models.LevelIgnoresFields` | models/accounts.go:48-50 | the level depends on the variant only, not on field values |
| `Models.Attends` | models/Events.go:31-33 | YES attends, and neither NO nor IGNORED does; `Models.AttendsOnlyYes` states the exact set |
| `Models.AttendsOnlyYes` | models/Events.go:25-33 | the three codes are distinct; `Attends` holds exactly for 1 (YES), and fails for NO, IGNORED and every value outside the three codes |
| `Email.PrefixRun` | utils/email.go:8 | the greedy scan returns the longest prefix inside the character class: every scanned character is in it and the next one is not |
| `Email.SuffixRun` | utils/email.go:8 | the greedy scan from the right returns the longest suffix inside the character class |
| `Email.PrefixRunStopsAt` | utils/email.go:8 | a class run of length k followed by an outside character (or the end) makes the left scan return exactly k |
| `Email.SuffixRunStopsAt` | utils/email.go:8 | the mirror property for the right scan |
| `Email.IsEmailValid` | utils/email.go:6-11 | an accepted address has at least six characters and contains an '@'; `Email.IsEmailValidMatchesPattern` gives its exact language |
| `Email.AcceptedMatchesPattern` | utils/email.go:6-11 | every accepted string splits into local part, '@', domain, '.', and two or more letters |
| `Email.PatternAccepted` | utils/email.go:6-11 | every string of the pattern's language is accepted |
| `Email.IsEmailValidMatchesPattern` | utils/email.go:6-11 | the recogniser accepts exactly the language of the anchored pattern |
| `Email.AcceptedParts` | utils/email.go:8 | an accepted address has exactly one '@', a non-empty local part over `[a-zA-Z0-9._%+-]`, a non-empty domain over `[a-zA-Z0-9.-]`, and at least two ASCII letters after its last '.' |
| `Email.AcceptedIsPrintableAscii` | utils/email.go:8 | an accepted string has at least 6 characters, all printable non-blank ASCII, so the empty string, whitespace and non-ASCII text are rejected |
| `Email.ExampleAddressAccepted` | utils/validation.go:268-273 | `kim@ex.com` is accepted |
| `Validation.CheckPermission` | utils/validation.go:32-65 | the level switch accepts iff the level-specific fields pass, and panics iff the permission info is nil |
| `Validation.CheckProfile` | utils/validation.go:19-30 | the shared guards accept iff name, e-mail, password and permission info pass; they panic iff the profile passes and the permission info is nil |
| `Validation.ValidateNewAccount` | utils/validation.go:14-67 | accepts iff the account is non-nil and its profile and level-specific fields pass; panics iff the profile passes with a nil permission info |
| `Validation.ValidateAccount` | utils/validation.go:70-127 | accepts iff the account is non-nil, its user id is not nil, and it passes ValidateNewAccount's checks; panics exactly where ValidateNewAccount would after the user-id check |
| `Validation.AccountIsNewAccountWithUserId` | utils/validation.go:70-78 | a nil account gets "account is nil" from both, a nil user id is rejected first, and otherwise the two validators return the same verdict |
| `Validation.ProfileRejectionOrder` | utils/validation.go:79-90 | name, e-mail presence, e-mail pattern and password are checked in that order, and the reason names the first that fails |
| `Validation.StudentChecks` | utils/validation.go:93-109 | for a student: an empty school id, then a zero grade, class or number is rejected in that order; all other values, negative ones included, are accepted |
| `Validation.OtherLevelChecks` | utils/validation.go:110-124 | a teacher needs only a school id, an admin nothing more, and Unknown is always rejected as an invalid level |
| `Validation.ValidateTimetable` | utils/validation.go:130-140 | accepts iff the timetable is non-nil and has at least one entry; a nil timetable gets "timetable is nil" and an empty one "timetable has no entries" |
| `Validation.ValidateTimeTableEntry` | utils/validation.go:142-159 | accepts iff teacher id is not nil and location, day, period and subject are non-empty |
| `Validation.TimeTableEntryRejectionOrder` | utils/validation.go:142-159 | each rejection reason holds exactly when its field is the first missing one |
| `Validation.CheckChecklistItems` | utils/validation.go:173-177 | the item loop accepts iff every item has text, and otherwise reports "item text is required" |
| `Validation.ValidateChecklist` | utils/validation.go:162-180 | accepts iff the checklist is non-nil, has a student id and a title, and every item has text; a nil checklist gets "checklist is nil" |
| `Validation.ChecklistRejectionOrder` | utils/validation.go:162-180 | the student id, then the title, then any item without text is rejected in that order; a checklist with zero items is accepted |
| `Validation.FirstInvalidAllergy` | utils/validation.go:205-211 | finds nothing iff every code is in 1..13; what it finds is a code of the item outside 1..13 |
| `Validation.FirstInvalidAllergyAt` | utils/validation.go:206-209 | the code reported is the first one outside 1..13 |
| `Validation.CheckMenuEntry` | utils/validation.go:201-215 | one item passes iff it has a name, only codes in 1..13, and contents; a missing name is reported first, then the first out-of-range allergy code (carried in the reason), then missing contents |
| `Validation.CheckMenuEntries` | utils/validation.go:200-216 | the item loop accepts iff every item passes, and only reports item-level reasons |
| `Validation.MenuEntriesReportFirstInvalid` | utils/validation.go:200-216 | the item loop reports exactly the first failing item's reason |
| `Validation.ValidateCafeteriaMenu` | utils/validation.go:183-219 | accepts iff school id, meal name and date are non-empty, there is at least one item, and every item passes; the item-level reason is given by `CafeteriaMenuRejectionOrder` |
| `Validation.CafeteriaMenuRejectionOrder` | utils/validation.go:184-216 | school id, meal name, date, then the empty item list are rejected in that order; after them the verdict is the first failing item's `CheckMenuEntry` reason (name, then first out-of-range allergy, then contents) |
| `Validation.LateAllergyCodesRejected` | utils/validation.go:205-211 | a menu carrying any of the codes 14 to 18 (WALNUT to SHELLFISH) is never accepted, and that code is the reason when it is the first failure |
| `Validation.ValidAttendanceTypes` | utils/validation.go:263-265 | every attending value is valid, and the valid values that do not attend are exactly NO and IGNORED |
| `Validation.IsValidAttendanceType` | utils/validation.go:263-265 | `isValidAttendanceType` accepts exactly -1, 0 and 1 |
| `Validation.CheckEventEntry` | utils/validation.go:229-242 | one event passes iff its date parses and its three attendance codes are valid; each reason holds exactly when its check is the first to fail, in the order date, first, second, third grade, and carries the offending date or code |
| `Validation.CheckEventEntries` | utils/validation.go:228-243 | the event loop accepts iff every event passes, and only reports event-level reasons |
| `Validation.EventEntriesReportFirstInvalid` | utils/validation.go:228-243 | the event loop reports exactly the first failing event's reason |
| `Validation.ValidateEvents` | utils/validation.go:221-245 | accepts iff the school id is non-empty, the month is in 1..12, and every event passes |
| `Validation.EventsRejectionOrder` | utils/validation.go:221-245 | school id, then month, then the first failing event decide the reason; a month without events is accepted |
| `Validation.ValidateSchool` | utils/validation.go:247-261 | accepts iff school id, region id, school name and region name are all non-empty |
| `Validation.SchoolRejectionOrder` | utils/validation.go:247-261 | each reason holds exactly when its field is the first empty one |
| `DbValidation.ValidateNewAccount` | db/db.go:594-654 | accepts iff the account passes the utils checks and a student's school is registered; never panics; a nil account gets "account is nil", a failing profile the utils profile reason, a nil permission info "permission info is empty", and a student with a set but unregistered school id "unregistered school id" |
| `DbValidation.DbStrongerThanUtils` | db/db.go:594-654 | whatever the db validator accepts the utils validator accepts; with a permission info present and a registered school the two verdicts are equal |
| `DbValidation.AbsentPermissionRejected` | db/db.go:611-613 | a nil permission info is rejected as "permission info is empty" before the level switch, where the utils validator panics |
| `DbValidation.StudentRegistryOrder` | db/db.go:621-636 | the registry check runs after the empty-school-id check and before the grade, class and number checks |
| `DbValidation.TeacherIgnoresRegistry` | db/db.go:637-644 | a teacher's verdict does not depend on the registry |
| `DbValidation.ExampleStudentRegistration` | db/db.go:615-636 | a complete student account is accepted by the db validator iff its school is registered, and accepted by `utils.ValidateAccount` |
| `DbValidation.FirstWithId` | db/db.go:578-581 | finds nothing iff no row has the school id (compared exactly); what it finds is a row of the table with that id |
| `DbValidation.LookupSchool` | db/db.go:576-591 | `GetSchool` returns a school iff the scan has one target per column of `schools` and some row has the id (compared exactly); the school returned has that id |
| `DbValidation.RegisteredIds` | db/db.go:624-627 | every id in the registered set is one the lookup finds a school for |
| `DbValidation.AsWrittenStudentsRejected` | db/db.go:585 | with the six scan targets of the code, no school id is registered and every student with a passing profile and a set school id is rejected as unregistered |
| `DbValidation.IntendedLookupRegistersTable` | db/db.go:576-591 | with one scan target per column, the registered ids are exactly the table's school ids (compared exactly), and a student whose school is in the table gets the utils verdict |
| `Blocks.Chunks` | utils/bytes.go:21-31 | the decoders' framing: all blocks have length k, and there are exactly len(data)/k of them |
| `Blocks.FlattenLength` | utils/bytes.go:10-19 | uniform k-blocks flatten to k times their number of elements |
| `Blocks.FlattenAppend` | utils/bytes.go:12-17 | flattening distributes over concatenation |
| `Blocks.FlattenSingle` | utils/bytes.go:44-46 | one block flattens to itself |
| `Blocks.FlattenBlock` | utils/bytes.go:10-19 | block i sits at positions k·i up to k·i+k of the flattening |
| `Blocks.ChunkAt` | utils/bytes.go:21-31 | chunk i is the slice k·i up to k·i+k of the data |
| `Blocks.ChunksOfFlatten` | utils/bytes.go:10-32 | chunking undoes flattening |
| `Blocks.FlattenOfChunks` | utils/bytes.go:21-31 | flattening the chunks gives the data up to its last whole block |
| `Blocks.ChunksIgnoreTail` | utils/bytes.go:21-31 | chunking ignores the trailing partial block |
| `Codec.EightBytesHoldInt64` | utils/bytes.go:13 | eight bytes hold exactly 2^64 patterns |
| `Codec.LittleEndian` | utils/bytes.go:13 | the little-endian form of a number has exactly n bytes |
| `Codec.FromLittleEndian` | utils/bytes.go:26 | n little-endian bytes denote a number below 256^n |
| `Codec.LittleEndianRoundTrip` | utils/bytes.go:13 | reading back the n little-endian bytes of a number below 256^n gives the number |
| `Codec.FromLittleEndianRoundTrip` | utils/bytes.go:26 | writing back the number read from bytes gives the bytes |
| `Codec.TwosComplement` | utils/bytes.go:13 | the 64-bit pattern is below 2^64, with the top bit clear exactly for non-negative values |
| `Codec.FromTwosComplement` | utils/bytes.go:26 | reading a 64-bit pattern as int64 inverts the two's complement |
| `Codec.LastByteWeight` | utils/bytes.go:26 | the last of n little-endian bytes weighs 256^(n-1) |
| `Codec.SignBitInLastByte` | utils/bytes.go:26 | eight little-endian bytes denote at least 2^63 exactly when the last byte's top bit is set |
| `Codec.Int64ToBytes` | utils/bytes.go:13 | `binary.Write` of one int64 produces eight bytes |
| `Codec.BytesToInt64` | utils/bytes.go:26 | `binary.Read` of eight bytes gives the int64 whose two's complement they spell little-endian, negative exactly when the last byte's top bit is set |
| `Codec.Int64BytesAreLittleEndian` | utils/bytes.go:13 | the eight bytes are the value's two's complement, least significant byte first |
| `Codec.Int64RoundTrip` | utils/bytes.go:13-26 | reading back the eight bytes written for a value gives the value |
| `Codec.BytesRoundTrip` | utils/bytes.go:13-26 | writing back the value read from eight bytes gives the bytes |
| `Codec.Int64Blocks` | utils/bytes.go:11-17 | one eight-byte block per element |
| `Codec.EncodeInt64s` | utils/bytes.go:10-19 | the reference encoding of an int64 array has 8·n bytes |
| `Codec.DecodeInt64s` | utils/bytes.go:21-32 | the reference decoding yields len(data)/8 values |
| `Codec.EncodeInt64sLayout` | utils/bytes.go:10-19 | the encoding of n values has 8·n bytes, and element i occupies bytes 8i..8i+7 as little-endian two's complement |
| `Codec.EncodeInt64sAppend` | utils/bytes.go:12-17 | enc(a ++ b) == enc(a) ++ enc(b) |
| `Codec.EncodeInt64sPush` | utils/bytes.go:12-17 | appending one value appends its eight bytes |
| `Codec.DecodeInt64sLayout` | utils/bytes.go:21-31 | the decoder yields len(data)/8 values, value i read from bytes 8i..8i+7 |
| `Codec.Int64sRoundTrip` | utils/bytes.go:10-32 | decoding the encoding of any int64 array gives the array back |
| `Codec.Int64sReEncode` | utils/bytes.go:21-31 | re-encoding the decoded values gives the first 8·(len/8) bytes of the data |
| `Codec.DecodeInt64sIgnoresTail` | utils/bytes.go:21-31 | the decoder ignores the trailing len(data) mod 8 bytes |
| `Codec.EncodeUuids` | utils/bytes.go:42-48 | the reference encoding of a UUID array has 16·n bytes |
| `Codec.DecodeUuids` | utils/bytes.go:50-57 | the reference decoding yields len(data)/16 UUIDs |
| `Codec.EncodeUuidsLayout` | utils/bytes.go:42-48 | the encoding of n UUIDs has 16·n bytes, UUID i at bytes 16i..16i+15 |
| `Codec.EncodeUuidsAppend` | utils/bytes.go:44-46 | UUID encoding distributes over concatenation |
| `Codec.EncodeUuidsPush` | utils/bytes.go:44-46 | appending one UUID appends its sixteen bytes |
| `Codec.DecodeUuidsLayout` | utils/bytes.go:50-57 | the decoder yields len(data)/16 UUIDs, UUID i copied from bytes 16i..16i+15 |
| `Codec.UuidsRoundTrip` | utils/bytes.go:42-57 | decoding the encoding of any UUID array gives the array back |
| `Codec.UuidsReEncode` | utils/bytes.go:50-57 | re-encoding the decoded UUIDs gives the first 16·(len/16) bytes of the data |
| `Codec.DecodeUuidsIgnoresTail` | utils/bytes.go:50-57 | the decoder ignores the trailing len(data) mod 16 bytes |
| `Codec.DbIdsToInt64s` | models/conversions.go:3-9 | the conversion preserves length, and output element i has the value of input element i |
| `Codec.Int64sToDbIds` | models/conversions.go:11-17 | the conversion preserves length, and output element i has the value of input element i |
| `Codec.ConversionsInverse` | models/conversions.go:3-17 | the two conversions are mutual inverses with a 64-bit `int`, and the empty array maps to the empty array |
| `UtilsBytes.Int64ArrayToBytes` | utils/bytes.go:10-19 | the buffer holds the encoding of the whole array |
| `UtilsBytes.BytesToInt64Array` | utils/bytes.go:21-32 | the returned array is the decoding of the data; no short read happens, in a newly allocated array |
| `UtilsBytes.Int64ArrayToDbIdArray` | utils/bytes.go:34-40 | the returned array is the element-wise conversion of the input, in a newly allocated array |
| `UtilsBytes.UuidArrayToBytes` | utils/bytes.go:42-48 | the result is the UUIDs' bytes concatenated in order |
| `UtilsBytes.BytesToUUIDArray` | utils/bytes.go:50-57 | the returned array is the decoding of the data into 16-byte UUIDs, in a newly allocated array |
| `UtilsBytes.DbIdArrayToInt64Array` | utils/bytes.go:59-65 | the returned array is the element-wise conversion of the input, in a newly allocated array |
| `ModelsBytes.Int64ArrayToBytes` | models/bytes.go:9-18 | the same encoding as the utils version |
| `ModelsBytes.BytesToInt64Array` | models/bytes.go:20-31 | the same decoding as the utils version, in a newly allocated array |
| `ModelsBytes.UuidArrayToBytes` | models/bytes.go:33-39 | the same UUID encoding as the utils version |
| `ModelsBytes.BytesToUUIDArray` | models/bytes.go:41-48 | the same UUID decoding as the utils version, in a newly allocated array |
| `Conversions.DbIdArrayToInt64Array` | models/conversions.go:3-9 | the returned array is the element-wise conversion of the input, in a newly allocated array |
| `Conversions.Int64ArrayToDbIdArray` | models/conversions.go:11-17 | the returned array is the element-wise conversion of the input, in a newly allocated array |

## Findings

| source | as written | input that shows it | evidently intended | confidence | as-written member | corrected member |
|---|---|---|---|---|---|---|
| db/db.go:576-591 | `GetSchool` runs `SELECT *` on `schools`, which has 7 columns (db/db.go:20), and scans the row into 6 destinations. `row.Scan` fails, and the lookup returns nil for every id | a student account with a passing profile and school id `S1`, where `S1` is a row of `schools`: it is rejected as "unregistered school id" | the lookup returns the row whose `school_id` matches, so registered students pass | high; not executed | `DbValidation.AsWrittenStudentsRejected` | `DbValidation.IntendedLookupRegistersTable` |

## Left out

- SQL CRUD in `db/db.go` (connection, table creation, every get, create, update and delete) is database I/O. The flattening helpers those functions call are not part of this model.
- `ValidateNewAccount` of `db/db.go` takes the parameter `registered`, the set of school ids for which `GetSchool` returns a school. Any failure of that query, a missing row or a failed scan, becomes a nil school and so the rejection "unregistered school id". As written, the scan always fails, so in the program as it stands `registered` is always empty (`AsWrittenStudentsRejected`). The parameter models the intended lookup (`IntendedLookupRegistersTable`), and the accepting half of `ExampleStudentRegistration` is reachable only with it.
- DbValidation.FirstWithId: compares school ids by exact string equality. The `schools` table is declared with the collation `utf8mb4_0900_ai_ci` (db/db.go:20), so `WHERE school_id = ?` matches ids case- and accent-insensitively; the real query can return a row whose id differs from the argument in case or accent, which this function does not find.
- DbValidation.LookupSchool: inherits the exact comparison of `FirstWithId`. Under the table's case- and accent-insensitive collation the query also finds a school for an id that differs from a stored id only in case or accent.
- DbValidation.IntendedLookupRegistersTable: states that the corrected lookup registers exactly the ids stored in the table. Under the case- and accent-insensitive collation the registered set would also contain every case or accent variant of those ids, so the set proved here is a subset of the one the database would yield.
- The database itself is a sequence of `School` rows, and the extra `school_email` column is not stored. `models/school.go` names its flag `OrganizationEmailOnly`, while `GetSchool` scans into `SchoolEmailOnly`. The model keeps the struct's name.
- The date check of `ValidateEvents` calls Go's `time.Parse`. It is the parameter `parsesAsDate`, not a reimplementation of Go date parsing.
- Password hashing (`HashPassword`, `VerifyPassword`) wraps bcrypt and is not modelled.
- JWT, JWE and RSA code, HTTP handlers, controllers, middleware, OAuth and map-file I/O are glue over libraries, the network and the file system.
- The `"invalid permission info for …"` branches of the account validators are not modelled. `PermissionInfo` is a closed datatype here, and the level fixes the variant, so the type assertions always succeed.
- `ValidateTimeTableEntry`, `ValidateCafeteriaMenu`, `ValidateEvents` and `ValidateSchool` take values, not pointers. The Go functions do not check for nil and would crash on a nil argument.
- Grade, class, number and month are unbounded integers. The validators only compare them with constants, so Go's `int` width changes nothing.
- The panics after a failing `binary.Write` or `binary.Read` are not modelled. Writing to a `bytes.Buffer` cannot fail, and each read finds eight unread bytes. `BytesToInt64Array` asserts the second fact.
- Strings are sequences of characters. Go's byte-level view of invalid UTF-8 is not modelled.
- The text of the `%s`/`%d` error messages is not modelled. The `Reason` constructors carry the offending value instead.
- The model does not include a record-shape check for `models/timetable.go`. `Timetable` is shaped after what `ValidateTimetable` reads.
- The connection-pool settings are resource configuration.
