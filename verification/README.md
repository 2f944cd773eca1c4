# unidpp-archive: a verified model

The archive notarizes snapshots of product passports. A POST is stamped, anchored
in a transparency log where one answers, signed, journaled as one line of JSON and
kept as one file; a GET serves it again byte for byte. This project models that
path from the bytes up and proves what it promises: the body a POST answered with
is the body every later GET answers with, across restarts and crashes; and where
a promise has a condition, the condition.

| layer | modules |
|---|---|
| calendar and timestamps | `Calendar`, `Timestamps` |
| text, hex, UTF-8 | `Text`, `Hex`, `Utf8`, `KnownAnswers` |
| JSON: printer, parser, lexer, grammar | `Json`, `JsonRoundTrip`, `JsonShape`, `JsonLexing`, `JsonStrings`, `JsonGrammar` |
| records and their three projections | `Canonical`, `Records`, `JournalLines`, `JournalDecoding`, `Documents`, `SnapshotIds` |
| the same as a verifier and a client read them | `Statements`, `DocumentViews` |
| the journal, the store and crashes | `Journal`, `LineReading`, `Recovery`, `Store`, `Reopening` |
| the service as a state machine | `Ingest`, `Intake`, `Receipts`, `Archive`, `Requests`, `Runs`, `Submissions`, `Restarts`, `Catalogue`, `Losses` |
| reading the log's HTTP response | `Chunked`, `ChunkedEncoding`, `HttpResponse`, `HttpFraming`, `HttpRoundTrip`, `LogExchange` |

Where the code changes state, the model does: `Store.SnapshotStore` keeps its
records, journal file and directory in fields and is opened, replayed, repaired and
appended to by methods with loops; the same goes for the line reader, the canonical
writer, the record under construction, the connection and the handler. Each method
is proved equal to a function, and the theorems are about the functions.

The main results, hardest first:

- `Runs.PostedBodyIsServedForever`: end to end, in any run of interleaved creates,
  cancellations, stops, crashes inside an append, stops inside an open and restarts,
  whatever the clock shows. It asks one thing, of the posted snapshot's own append
  (`Runs.MayAppend`): the journal held exactly the records of memory, ended in a
  newline, had no torn line, and the record replays. Nothing before or after matters,
  and `Runs.AnsweredAppendSurvivesIff` shows that this is exactly what the answered
  record needs to survive a stop and a restart. `Losses.AnswersAreFinalIff` is the
  same from the side of a GET: where memory and disk agree, all answers are final
  exactly when the journal does not end in a record without its newline.
- `Submissions.SubmissionIsServedForever`: the same from the request on. Every later
  answer is a body in which a client, reading it member by member, finds the request
  that arrived and the log's answer to it; `Submissions.EveryRecordWasSubmitted` says
  of every record of every run, across crashes, which request and which reply it holds.
- `Statements.StatementReads` and `Statements.RebuiltStatementReads`: a verifier who
  reads the signed bytes by the published recipe finds every field in its place, and
  the bytes rebuilt from any document at all, tampered with or not, say what it shows.
- `DocumentViews.BodyIsRead`, `JournalDecoding.RecordExactly`, `Intake.RequestExactly`
  and `JsonGrammar.DocumentExactly`: which served documents, journal values, requests
  and JSON texts are read, and as what, stated apart from the code that writes them and
  exact both ways.
- `LogExchange.ReceiptCrossesTheWire`: from the bytes of the log's response, under any
  head, framing and cut, to the anchor that is recorded.
- `Restarts.RunKeepsIff` and `Restarts.EveryAnswerIsAvailable`: when the service also
  comes up again with everything. A run keeps it so throughout exactly when each of
  its appends is durable, each crash inside an append is one the next open gets over
  (`Restarts.CrashKeepsAllIff`), and no stop inside an open leaves a file short.
- `Recovery.CrashDuringAppend` and `Reopening.CrashRecovery`: behind any journal that
  replays, for any record and any byte of its line or its file, what the next open
  yields; `Reopening.StoppedOpenRecovers` does the same for a stop inside an open.
- `Catalogue.ImmutableExactlyWhenPast`: the exact instants whose catalogue is final
  while the clock does not go back. If it may, none is (`Catalogue.NoCatalogueIsFinal`);
  `Catalogue.AnyClockReopensThePast` adds which are if only records that replay are
  appended.
- `Losses`: runs from an empty archive that lose a posted snapshot, that lose the
  whole store, that cannot be opened after a crash inside a letter, and that put
  the catalogue out of order.
- `Archive.IngestIsSerialized`: no interleaving of creates ever conflicts.
- `Journal.ReplayExactly`: the lookahead loop against its one-sentence promise.
- `JournalLines.CutLineFails` and `JournalLines.GluedLineFails`: why a torn or fused
  line is always recognized, from a lexer run over everything the parser accepts.
- `Calendar.FormulasRefineTheNaiveCalendar`: Hinnant's formulas against stepping
  one day at a time.
- `Chunked.DecodesExactly`, `HttpFraming.FramingExactly`, `HttpResponse.Receive` and
  `HttpRoundTrip.ReceivingInvertsSending`: the decoder's language, the headers that
  select a framing, responses that do not depend on how the stream was cut, and
  receiving as the inverse of sending.

Where the code and its own documentation differ, the model follows the code:

- README.md:40 promises the same bytes forever. After an append behind an
  unterminated tail the appended snapshot is lost at the next start
  (`Losses.PostedSnapshotIsLost`), and with it a complete last record that lacked
  only its newline (`Recovery.FusedAppend`); after one more append, which reuses the
  lost id, the store never opens again (`Losses.StoreIsLost`). A log receipt nested
  126 or 127 levels deep is accepted and served but its line never replays
  (`Receipts.AcceptedButNeverReplayed`).
- README.md:146 says a torn final line is tolerated. A cut inside a multi-byte
  character is refused (`Losses.CutCharacterIsRefused`).
- src/api.rs:682 calls the catalogue at an explicit instant immutable. It is not
  while the instant is not past (`Catalogue.PresentStillChanges`), nor once the clock
  steps back, which the code does not prevent (`Catalogue.NoCatalogueIsFinal`,
  `Losses.SteppedBackCatalogue`), nor while it lists a record without its newline
  (`Catalogue.ImmutableExactlyWhenPast`).
- src/model.rs:581-582 says lexical order of ids is sequencing order. That ends at
  the thirteenth digit (`SnapshotIds.OrderedExactlyToTwelveDigits`).
- Section 7.1 of RFC 9112 ends each chunk with CRLF and the body with a trailer
  section. The decoder skips the two bytes after a chunk unread, stops at the
  zero-size line, and allows a plus sign and white space around a size
  (`Chunked.DecodesExactly`); an extension that is not UTF-8 is refused, and any
  refusal counts as waiting for more data until the stream ends.

## Model

| member | source | states |
|---|---|---|
| Calendar.EpochIsDayZero | src/time.rs:210-218 | 1970-01-01 is day 0 |
| Calendar.NextDayCountsOne | src/time.rs:190-218 | the calendar's next day, by month lengths and leap years, has the next number, in every year including negative ones |
| Calendar.StrictlyIncreasing | src/time.rs:210-218 | a later valid date has a larger number |
| Calendar.DayNumberIsInjective | src/time.rs:210-218 | two valid dates never share a number |
| Calendar.CivilIsInverse | src/time.rs:221-232 | every integer day number yields a valid date that has that number |
| Calendar.DateSurvivesTheRoundTrip | src/time.rs:210-232 | every valid date comes back from its number |
| Calendar.FormulasRefineTheNaiveCalendar | src/time.rs:190-232 | both formulas agree, for every number, with stepping day by day from the epoch |
| Calendar.CivilFromDays64 | src/time.rs:221-232 | computed in 64-bit words the result is the same and no intermediate overflows |
| Calendar.EverySecondHasADay | src/time.rs:153-155 | every 64-bit second count gives a day within the range that is free of overflow |
| Timestamps.ReadDigits | src/time.rs:176-188 | the digit loop reads the decimal value, or fails exactly off the end or at a non-digit |
| Timestamps.ParseTimestamp | src/time.rs:70-148 | the parser with its moving position equals its specification and never indexes out of range |
| Timestamps.ReadClockAt | src/time.rs:91-117 | the optional clock and the fraction loop equal their specification |
| Timestamps.ReadZoneAt | src/time.rs:118-143 | the zone branch equals its specification |
| Timestamps.AcceptsExactly | src/time.rs:70-148 | a text is accepted as an instant exactly when a well-formed spelling prints as that text and denotes that instant |
| Timestamps.SpellingVariantsAgree | src/time.rs:70-148 | accepted spellings parse alike exactly when day, clock and offset add up to one instant; separators, letter case, colon, fraction and absent zone play no part |
| Timestamps.ParsedIsBounded | src/time.rs:70-148 | every accepted value lies within 86340 seconds of the four-digit years |
| Timestamps.PrintExactly | src/time.rs:151-167 | every date and clock of the four-digit years is printed with its fields, separators and Z |
| Timestamps.PrintParse | src/time.rs:70-167 | printing then parsing is the identity on the four-digit years, and outside them the printed text does not parse |
| Timestamps.PrintOrder | src/time.rs:151-167 | on that range lexical order of the texts is the order of the instants |
| Hex.EncodeHex | src/hex.rs:8-14 | the encoding loop spells every byte as two lower-case digits |
| Hex.DecodeHex | src/hex.rs:18-41 | the decoding loop equals its specification, error cases included |
| Hex.DecodesExactly | src/hex.rs:18-50 | a text decodes to given bytes exactly when it is white space, perhaps 0x or 0X, their digits in letters of either case, and white space |
| Hex.HashExactly | src/model.rs:114-117 | a text is a hash exactly when it is its 64 digits in either case, with nothing around them |
| Hex.HexRoundTrip | src/hex.rs:8-50 | decoding inverts encoding |
| Hex.HashRoundTrip | src/model.rs:114-117 | a hash survives its 64 hex digits |
| Hex.HexadecimalValue | src/http.rs:239-240 | the digits of a number in base 16 have that value |
| Text.LexExactly | src/model.rs:581-585 | one text is before another exactly when, behind what they share, it ends or has the smaller character |
| Text.ParseU64Exactly | src/model.rs:98-102 | a text is a number exactly when it is its decimal digits with any leading zeros and perhaps a plus sign |
| Text.TrimExactly | src/api.rs:652 | trimming takes all white space off both ends and nothing else |
| KnownAnswers.IdSample | src/model.rs:583-585 | the id of 42 |
| KnownAnswers.PrettySample | src/model.rs:499-503 | a line for each member, two spaces a level, one space behind a colon |
| KnownAnswers.CompactSample | src/store.rs:226-229 | no space at all |
| KnownAnswers.EscapeSample | src/store.rs:226-229 | quotes, backslashes and control characters are escaped, in the shortest form, and nothing else is |
| SnapshotIds.IdsAreInjective | src/model.rs:581-585 | different sequence numbers have different ids, over all 64-bit numbers |
| SnapshotIds.OrderedExactlyToTwelveDigits | src/model.rs:581-585 | ids below a bound are lexically ordered as their numbers exactly when the bound is at most 10^12 |
| Records.WriteCore | src/model.rs:345-362 | the writer calls append exactly the core statement's fields in order |
| Records.WriteStatement | src/model.rs:366-380 | the writer appends the anchoring outcome to the core |
| Records.Draft.SealWith | src/model.rs:443-451 | the four updates amount to `Seal`, and a signer error changes nothing |
| Statements.StatementReads | src/api.rs:451-453 | read by the recipe, the signed bytes give the service, id, number, passport, hashes and instant of the record, flag 0, or flag 1 and the log's id, receipt number, tree size and root, and then end |
| Statements.CoreReads | src/api.rs:452-455 | the core alone, which the log is sent the hash of, reads as the same fields without an anchor |
| Statements.RebuiltStatementReads | src/model.rs:603-682 | for any document, the bytes rebuilt from it read as exactly the fields it shows at their paths, and none are rebuilt where one is missing, of a wrong kind or of another service |
| Statements.StatementBindsFields | src/model.rs:345-380 | two records have the same signed bytes exactly when they agree on every committed field |
| Documents.BodyIgnoresDigest | src/model.rs:443-503 | the rendered body does not depend on the digest computed from it |
| Documents.SealForgets | src/model.rs:440-451 | sealing depends on nothing an earlier seal set |
| Documents.SealIsStable | src/model.rs:440-451 | sealing leaves the signed bytes alone, fixes the digest of the resulting body, commits to the hash of the core, signs the statement and is idempotent |
| Documents.CoreRebuilds | src/model.rs:603-632 | the core is rebuilt from the document alone exactly when the instant is in the four-digit years |
| Documents.StatementRebuilds | src/model.rs:637-682 | the signed bytes are rebuilt from the document alone exactly when, besides, an anchored outcome has its parts |
| Documents.SealedDocumentVerifies | src/model.rs:443-497 | a sealed document names its key, its signature verifies over the rebuilt bytes, and its commitment and statement digest are the hashes of the rebuilt bytes |
| Documents.ServedBytesParse | src/model.rs:499-503 | the served bytes are UTF-8 and parse back to the document exactly when the receipt is at most 124 levels deep |
| DocumentViews.SubmissionReads | src/model.rs:464-472 | the submission section shows submitter, instant, passport, both hashes and state size, each under its name, or reads as nothing if the instant does not print |
| DocumentViews.DocumentReads | src/model.rs:454-497 | a reader of all members by name gets every field of the record back exactly when its instants print and its receipt is an object |
| DocumentViews.BodyIsRead | src/model.rs:499-503 | from the served bytes the same reader gets every field exactly when, besides, the receipt is at most 124 levels deep |
| Documents.AcceptedReceiptIsJournalable | src/model.rs:88-130 | an accepted receipt yields a complete outcome that can be journaled exactly when its instant prints |
| JournalLines.AnchoringRoundTrip | src/model.rs:187-304 | an outcome survives its journal value exactly when its instant prints, its receipt is an object and an anchored one is complete |
| JournalLines.JournalRoundTrip | src/model.rs:506-578 | a record survives its journal value exactly when it is Journalable; one made by the service that is not decodes to nothing |
| JournalDecoding.AnchoringExactly | src/model.rs:216-304 | a value, whoever wrote it, is read as an outcome exactly when each member is of its kind, absent or null, the status is one of the two, and an anchored one has all parts |
| JournalDecoding.RecordExactly | src/model.rs:524-578 | a value is read as a record exactly when each member is of its kind and says so |
| JournalDecoding.SummaryExactly | src/model.rs:88-130 | any receipt is taken for exactly what it says of itself; a number goes before a receipt id, and what lacks a part is refused |
| JournalLines.LineRoundTrip | src/store.rs:124-126 | a printed line decodes to its record exactly when the record is Journalable and its receipt at most 125 levels deep; one made by the service otherwise decodes to nothing |
| JournalLines.LineShape | src/store.rs:226-229 | a line is one bare object without any control character, so without a raw newline |
| JournalLines.CutLineFails | src/store.rs:147-153 | no proper non-empty prefix of a line decodes |
| JournalLines.GluedLineFails | src/store.rs:91-96 | a line, whole or cut short, glued to any non-blank tail does not decode |
| Json.ObjectMember | src/model.rs:506-521 | a listed member is found under its key, whatever the order of insertion |
| JsonRoundTrip.DocumentRoundTrip | src/store.rs:124-126 | both printed forms of a value parse back to it exactly when it nests less than 128 levels, for integers, strings, arrays and objects |
| JsonStrings.StringExactly | src/store.rs:124-126 | a string is read exactly in its spellings, each character plain, behind a backslash or as one or two UTF-16 units in hex |
| JsonStrings.NumberExactly | src/store.rs:124-126 | a number is read exactly as its decimal digits without leading zeros, where nothing else of a number follows |
| JsonGrammar.DocumentExactly | src/store.rs:124-126 | a text is the document of a value exactly when it is a spelling of it, with space around any token, nested less than 128 levels, the last of equal keys counting |
| JsonRoundTrip.CompactIsOneLine | src/store.rs:226-229 | the compact form contains no control character |
| JsonShape.ParsedIsShaped | src/log_anchor.rs:142-143 | whatever parses is made of sorted maps and nests at most 127 levels |
| JsonLexing.PrefixDoesNotParse | src/store.rs:147-153 | no proper non-empty prefix of a bare object is a document |
| JsonLexing.GluedDoesNotParse | src/store.rs:91-96 | text with a journal line, whole or cut short, glued to its end does not read as an object |
| Utf8.PrefixDecodesIff | src/store.rs:113-122 | a prefix of encoded text is valid UTF-8 exactly when cut between characters |
| Utf8.AsciiCutsAnywhere | src/store.rs:113-122 | ASCII text may be cut anywhere |
| Utf8.EncodeDecode | src/store.rs:109-122 | accepted bytes are the encoding of the text they decode to |
| Journal.LineReader.Next | src/store.rs:109-122 | each read yields the next line of the bytes, its line ending stripped, or an error where it is not UTF-8 |
| LineReading.FileIsRead | src/store.rs:109-122 | the lines of a file are its texts without their endings, of either kind, a last text without ending kept whole, and an error for each line that is not UTF-8 |
| Journal.ReplayExactly | src/store.rs:106-161 | replay yields given records exactly when every line holds its record in sequence with a matching digest, save a torn last line that is not blank |
| Journal.LinesAppend | src/store.rs:109-122 | after a newline, more bytes only add lines |
| Recovery.AppendIsDurable | src/store.rs:211-230 | the next replay yields the appended record after the earlier ones exactly when the journal was clean and the record replays |
| Recovery.FusedAppend | src/store.rs:91-96 | an append behind an unterminated tail is lost, with a complete last record that lacked its newline |
| Recovery.AppendAfterTornLineIsFatal | src/store.rs:147-156 | an append behind a terminated torn line makes replay fail |
| Recovery.CrashDuringAppend | src/store.rs:211-230 | behind any journal that replays, for any record, what the replay after each number of bytes of its line yields |
| Recovery.CleanRecordsStay | src/store.rs:106-161 | whatever is written behind a clean journal, every replay that succeeds starts with its records |
| Recovery.NothingRevives | src/store.rs:106-161 | whatever is written behind a terminated journal that does not replay, it still does not |
| Recovery.SecuredPrefix | src/store.rs:106-161 | any journal that replays starts with a clean one that holds all its records but an exposed last one |
| Recovery.ShapedWholeLine | src/store.rs:128-146 | a complete line of a record made by the service adds that record where it is due, if it replays, and nothing if it does not |
| Store.VerifyExactly | src/store.rs:166-198 | verification succeeds exactly when no file contradicts a record; it then leaves every file in place and overwrites none |
| Store.OpenExactly | src/store.rs:77-104 | a store opens with given records exactly when the journal holds them line by line and no file contradicts them; nothing is overwritten |
| Store.OpenIsIdempotent | src/store.rs:77-104 | a second open finds the same records and changes no byte, a kept torn tail included |
| Store.SnapshotStore.OpenStore | src/store.rs:77-104 | records, files and journal after an open, failed or not, as `Open` specifies |
| Store.SnapshotStore.ReplayJournal | src/store.rs:106-161 | the loop that reads one line ahead equals `Replay` |
| Store.SnapshotStore.VerifySnapshotFiles | src/store.rs:166-198 | the repair loop equals `Verify`, including the files healed before a failure |
| Store.SnapshotStore.AppendSnapshot | src/store.rs:211-243 | conflict exactly on a number out of order, a journal error exactly on a digest that is not the body's; else the line and its newline, the file and the record are added; errors change nothing |
| Store.FindExactly | src/store.rs:253-255 | over service-created records the search finds record k for the id of k and nothing for any other id |
| Store.ListedExactly | src/store.rs:260-266 | the listing holds exactly the matching records, each as often as stored |
| Store.ListedIsPrefix | src/store.rs:260-266 | with instants in order, the listing as of an instant is the prefix notarized by then |
| Store.PrefixesExactlyInOrder | src/store.rs:260-266 | every as-of listing is a prefix exactly when the instants never decrease |
| Store.ListedAppend | src/store.rs:260-266 | listing distributes over appending, for any passport and instant |
| Reopening.CrashRecovery | src/store.rs:77-243 | after a crash anywhere in an append to any journal, the exact result of opening again, with every file its record's body |
| Reopening.StoppedOpenLeaves | src/store.rs:166-198 | the disk after a stop inside an open: each record done has its file, at most one file begun, nothing overwritten |
| Reopening.StoppedOpenRecovers | src/store.rs:166-198 | after a stop inside an open the next open ends as an undisturbed one would, unless a file was left short; then it fails |
| Intake.RequestExactly | src/api.rs:295-397 | a body is accepted as a request exactly when each required text and hash is there and, but for white space, valid, and each optional member is absent, null or valid |
| Intake.AcceptedIsRepresentable | src/api.rs:339-397 | the statement signed for an accepted request always reads back with its fields |
| Ingest.OutcomeShape | src/api.rs:590-599 | whatever the log answers, the outcome has the parts its status needs and its receipt is well formed and at most 127 levels deep |
| Ingest.NotarizedPreserves | src/api.rs:579-606 | the notarized record holds each field of the request in its own field, the number and instant of its reservation, the id of that number, and the log's reply |
| Ingest.NotarizedIsCreated | src/api.rs:579-606 | it is sealed and commits to what the log was sent |
| Ingest.CreatedIsReplayableIff | src/api.rs:590-606 | it replays exactly when both clocks read four-digit years and its receipt is at most 125 levels deep |
| Ingest.CreateAnswers | src/api.rs:612-633 | a conflict, a server error, or the record's id, instant and body, and when which |
| Ingest.GetServesStored | src/api.rs:651-673 | a GET answers with the stored body of an id given out, with any white space around it in the path |
| Ingest.FoundExactly | src/api.rs:651-673 | and for no other path |
| Ingest.AppState.CreateSnapshot | src/api.rs:572-633 | a create that nothing interrupts stores and answers with a record that preserves the request, keeps the log's reply and is stamped with the clock, or fails in the signer and changes nothing |
| Receipts.SummaryReads | src/model.rs:88-130 | the summary of a log's receipt is what the log put into it, however it is numbered, exactly when the log has a name and its instant prints |
| Receipts.AnswerIsRecorded | src/api.rs:593-599 | an anchored outcome has the log's id, receipt number, tree size, root and instant each in its own field, the receipt as it came and the hash that was sent; else it is unanchored with the complaint and nothing more |
| Receipts.RepliesAreRecorded | src/api.rs:593-599 | for any reply: a failure keeps its own reason, an unusable text the complaint about it |
| Receipts.AcceptedButNeverReplayed | src/api.rs:590-606 | a concrete receipt that is accepted as anchored and whose line never decodes |
| Archive.SerializedStep | src/api.rs:572-615 | every step keeps one task past the lock and its reservation next |
| Archive.IngestIsSerialized | src/api.rs:572-615 | in every run, whatever the clock shows, at most one create is past the lock, its number is next, and its append neither conflicts nor fails |
| Archive.StepKeepsSound | src/api.rs:572-633 | every step, careful or not, keeps the records of memory authentic and numbered, their files in place, and the journal's records genuine and among them |
| Archive.RunKeepsSound | src/api.rs:572-633 | so does every run |
| Archive.RunInMemory | src/api.rs:572-633 | without a restart records only grow by appending in any run, with or without a journal |
| Runs.GetIsImmutable | src/api.rs:651-673 | where memory and disk agree and no record is exposed, what a GET finds it finds in every run, for any path, across restarts |
| Runs.GetIsImmutableInMemory | src/api.rs:651-673 | without a restart it finds the same from any state at all |
| Runs.PostedBodyIsServedForever | src/api.rs:601-673 | in every run each later GET of a posted id answers with the posted body and its digest, if the snapshot's own append was durable |
| Submissions.StepCarries | src/api.rs:572-606 | through every step each request in flight is the one that arrived as that task, and its reply the one the log gave to it |
| Submissions.EveryRecordWasSubmitted | src/api.rs:572-615 | in every run each record in memory or still in the journal preserves a request that arrived and the log's reply to it |
| Submissions.SubmissionIsServedForever | src/api.rs:572-673 | every later GET of a durably posted id answers with a body that reads as the request that arrived, field by field, and as the log's answer to it |
| Runs.EveryDocumentVerifies | src/model.rs:440-497 | every record of every run, while its instant prints, has a document that verifies on its own |
| Runs.AnsweredAppendSurvivesIff | src/store.rs:211-243 | in any state of any run, an answered append survives a stop and a restart exactly when it was durable |
| Restarts.CrashKeepsAllIff | src/store.rs:211-243 | where memory and disk agree, the restart after a crash inside an append succeeds with every record exactly when nothing was written, or no character was cut, the journal was clean or ended in an unterminated torn line, and a surviving record's file is absent or whole |
| Restarts.CrashServesFewerIff | src/store.rs:91-96 | such a restart succeeds with fewer records exactly when the append wrote behind a record without its newline and did not stop inside a character |
| Restarts.RestartAfterCrash | src/store.rs:77-243 | from any state of any run, after a crash inside an append, whether the restart succeeds and with which records and files |
| Restarts.RestartAfterCrashOnCleanJournal | src/store.rs:77-243 | on a clean journal the restart succeeds exactly when no character was cut and the surviving record's file is absent or whole; it adds the interrupted record exactly when its line is whole and replays |
| Restarts.RestartAfterStoppedOpening | src/store.rs:166-198 | after a stop inside an open the restart ends as an undisturbed one exactly when no file was left short; otherwise it fails |
| Restarts.StepKeepsIff | src/store.rs:77-243 | where nothing answered is lost, a step keeps it so exactly when it is careful |
| Restarts.RunKeepsIff | src/store.rs:77-243 | a run keeps it so throughout exactly when each of its events is careful |
| Restarts.EveryAnswerIsAvailable | src/api.rs:651-673 | after every careful run the service is up or comes up at the next restart, and serves everything it ever found |
| Requests.HandlerIsARun | src/api.rs:572-633 | the handler run alone and its five interleavable events have the same effect and the same answer |
| Requests.CancelLeavesNoTrace | src/api.rs:572-599 | a create cancelled at the lock or at the log leaves the system as it was |
| Catalogue.CatalogueIsPrefix | src/api.rs:697-702 | in every run in which the clock does not go back, instants never decrease and the whole catalogue as of an instant is a prefix |
| Catalogue.CatalogueIsStable | src/api.rs:697-702 | once an instant is before the clock and every stamp in flight, and no record it lists is exposed, its catalogue never changes in any run in which the clock does not go back |
| Catalogue.PresentStillChanges | src/api.rs:369-375 | an instant not yet past has a run, with a steady clock, that adds a record to its catalogue |
| Catalogue.ImmutableExactlyWhenPast | src/api.rs:369-375 | over all runs in which the clock does not go back, the catalogue at an instant is immutable exactly when that instant is past and lists no exposed record |
| Catalogue.AnyClockReopensThePast | src/time.rs:47-57 | if the clock may go back, over the runs in which every appended record replays, a catalogue is immutable exactly when its instant lies before the year 0 |
| Catalogue.NoCatalogueIsFinal | src/time.rs:47-57 | over all runs no catalogue is immutable where memory and disk agree and a create can go through: a post after the clock went back changes it |
| Catalogue.FreshArchiveIsReady | src/store.rs:77-104 | an empty archive opens in sync, clean and ready, so the hypotheses above are met |
| Losses.PostedSnapshotIsLost | src/store.rs:91-96 | a run from an empty archive in which a snapshot is posted, answered, and gone after a clean stop and a restart |
| Losses.AnswersAreFinalIff | src/store.rs:91-96 | where memory and disk agree and a create can go through, all that a GET finds is final in every run exactly when the journal does not end in a record without its newline |
| Losses.StoreIsLost | src/store.rs:147-156 | the same run with one more post, answered under the lost id, after which the store never opens again |
| Losses.CutCharacterIsRefused | src/store.rs:113-122 | a run whose crash cuts an accented letter of a passport id and whose restart fails |
| Losses.SteppedBackCatalogue | src/api.rs:697-702 | a run with the clock set back whose catalogue holds the second snapshot and not the first |
| Chunked.FindSubsliceExactly | src/http.rs:223-225 | the index found is the first occurrence, and none is found exactly when there is none |
| Chunked.DecodeChunkedBody | src/http.rs:229-255 | the decoding loop equals its specification, refusals and overflow included |
| Chunked.DecodeIsStable | src/http.rs:227-255 | anything but waiting for data is unchanged by more bytes |
| Chunked.DecodesExactly | src/http.rs:227-255 | the bytes that decode, and to what, as a grammar |
| Chunked.PrefixDecodesIff | src/http.rs:227-255 | a prefix of a chunked stream decodes exactly when it reaches the end of the zero-size line; shorter ones wait |
| ChunkedEncoding.SizeExactly | src/http.rs:236-240 | a line is a size exactly when it is UTF-8 for hex digits, perhaps behind a plus sign, with white space around and anything behind a semicolon |
| ChunkedEncoding.PanicsExactly | src/http.rs:232-254 | the position overflows exactly at a size too large for it behind complete chunks |
| ChunkedEncoding.DecodingInvertsEncoding | src/http.rs:227-255 | decoding inverts any conforming encoding, with any sizes in hex, extensions and trailer |
| HttpResponse.Receive | src/http.rs:129-216 | the read loops give the response of the whole stream, however it was cut into reads |
| HttpResponse.ReceiveBody | src/http.rs:168-211 | the same for each of the three framings |
| HttpFraming.FramingExactly | src/http.rs:169-176 | chunked exactly when some transfer-encoding, in any letter case, mentions "chunked", in any letter case, whatever lengths are beside it; else the first content-length if it is a number; else to the end |
| HttpRoundTrip.StatusReads | src/http.rs:148-158 | the status is the second word of the first line, in whatever white space, if it fits sixteen bits |
| HttpRoundTrip.HeadReads | src/http.rs:146-167 | parsing a head gives back the status and the headers it was written from, white space around names and values and lines without a colon left out, or refuses the status |
| HttpRoundTrip.HeadEnds | src/http.rs:141-144 | the first blank line is the one that ends the head |
| HttpRoundTrip.HeadIsNeeded | src/http.rs:131-145 | a stream is refused for a missing head exactly when no blank line occurs in it |
| HttpRoundTrip.ReceivingInvertsSending | src/http.rs:129-216 | the response received is the one sent: status, headers and data, under the framing its headers announce, a counted body cut short included |
| LogExchange.Hop | src/log_anchor.rs:121-144 | what the handler goes on with, however the response was cut into reads |
| LogExchange.ReceiptCrossesTheWire | src/log_anchor.rs:121-144 | a receipt sent in a 2xx response, under any head and framing, is recorded as the anchor, each value in its own field |
| LogExchange.RefusalCrossesTheWire | src/log_anchor.rs:130-141 | any other status is recorded as unanchored with the status and the beginning of the body |
| HttpResponse.LaterBytes | src/http.rs:168-216 | bytes after a complete chunked or counted body are never looked at; a body without framing takes in all of them |

## Left out

- Foreign code: SHA-256, Ed25519 signing and key ids are arbitrary functions (`Records.Service`), with the one assumption, where it is needed, that a signature made with a key verifies under it; signing is deterministic.
- Records.WriteCore: the real `CanonicalWriter` belongs to `unidpp_model`, which is not part of this model; one encoding is fixed (big-endian integers, raw hashes, strings with an 8-byte length), and the results of `Statements` are relative to it.
- Hash parsing also belongs to `unidpp_model`; it is taken to accept exactly 64 hex digits.
- JsonRoundTrip.DocumentRoundTrip: numbers are 64-bit integers. Fractions, exponents, "-0" and larger integers, which serde_json reads as floats, are refused; serde_json itself does not promise that a float it prints reads back as the same one. The 128-level limit is serde_json's own.
- JsonShape.ParsedIsShaped: covers texts without floats, for the same reason.
- Ingest.OutcomeShape: a log reply with a float in it counts as unusable, where the service would anchor with it.
- Timestamps.ParseTimestamp: texts are sequences of characters rather than bytes, as in Hex.DecodeHex; neither accepts any character outside ASCII, so nothing accepted differs. Error texts are not modelled.
- The three prose labels of the document (`OAIS_PROFILE`, the adapter note, the verification hint) are arbitrary strings.
- Store.SnapshotStore.AppendSnapshot: I/O errors that return control to a running service, fsync, lock poisoning and a snapshot path shared by two ids are not modelled; a failure is a crash of the process.
- Archive.Step: a reservation asks for fewer than 2^64 records, which a vector's length guarantees; the clock is an event.
- Runs.PostedBodyIsServedForever: the notary key and the configured paths do not change over a run, and a journal is configured.
- Catalogue.CatalogueIsPrefix: about runs in which the clock does not go back, which the code does not enforce; Store.PrefixesExactlyInOrder has the condition for any records, and Losses.SteppedBackCatalogue a run that fails it.
- Catalogue.CatalogueIsStable: about such runs too; Catalogue.NoCatalogueIsFinal says that nothing is left without.
- Catalogue.ImmutableExactlyWhenPast: about such runs too, with the same complement.
- Catalogue.AnyClockReopensThePast: about runs in which every appended record replays; Catalogue.NoCatalogueIsFinal covers the others.
- HttpResponse.Receive: lossy UTF-8 decoding of the response head is an arbitrary function; the request that is written, the connection and the timeout are left out.
- LogExchange.ReceiptCrossesTheWire: asks of lossy decoding that it leave these valid texts alone; LogExchange.Hop takes the words of the JSON parser's and the receipt check's complaints as an argument.
- Submissions.SubmissionIsServedForever: what a client reads needs a receipt of at most 124 levels, as DocumentViews.BodyIsRead shows.
- Intake.RequestExactly: says which bodies are refused, not with which message.
- Bearer tokens, discovery, health and keyring documents, audit pagination, ETag and cache header texts, environment configuration: one branch each.
- The log's Merkle inclusion proof and signed tree head: code of other crates that only tests here exercise.
