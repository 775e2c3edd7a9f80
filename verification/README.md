# adb-broker: a model of its hard parts

adb-broker reads files off an Android phone over the adb sync protocol, writes one hash-chained audit
record for every operation, anchors the chain in the systemd journal, and verifies both. This project
models six parts of it and proves what each is for.

- **The audit log** (`ByteStrings`, `JsonString`, `Utf8`, `Decimal`, `Timestamp`, `AuditRecord`, `AuditGolden`,
  `TailScan`, `AuditChain`, `AuditLines`, `AuditLog`, `AuditRuns`, `AuditGiven`, `AuditTail`, `AuditGap`,
  `AuditAnchors`, `AnchorDatagram`, `AnchoredRuns`, `AuditPublished`, `AuditFindings`). The printer and the
  parser of a record undo each other; the backwards scan equals "the last line"; every run keeps what it was
  given, and every crash leaves a log that resumes where it should; an edited tail is refused; what verify
  finds of any file is told from the records held and the newest anchor, and a chain that matches an anchor is
  the chain that was anchored, or a collision is exhibited. SHA-256 and the reader of a stored line are function parameters: nothing is
  assumed of the one, and of the other only that it takes a printed line for what it says.
- **Path confinement** (`DevicePath`, `PathShape`, `Sorting`). The byte test is segment prefix, and no run of parsing, joining and
  narrowing leaves the compiled roots.
- **The adb wire** (`LittleEndian`, `SyncWire`, `SyncSession`, `SyncRuns`, `HostWire`, `HostConn`). A sync
  session stays aligned to whole replies or is dead for good; a host connection sends nothing outside its
  vocabulary and never reuses a socket wrongly.
- **The device walk** (`WalkSpec`, `WalkLedger`, `Walker`, `WalkFacts`, `TreeWalk`, `FixtureWalk`). The
  deferred, stateful walk refines a simple reading of the tree on honest devices, and on any device its
  summary is what the answers add, confined to the tree asked for; the second, local walk agrees with it.
- **The device store** (`WalkSession`, `Store`, `StoreConnect`, `StoreFacts`). Walks and fetches run on one sync session
  that is rebuilt after failures without drifting to another device, down to the bytes each session's socket
  was sent; no run puts a path on the wire outside the compiled roots.
- **The journal reader** (`JournalFormat`, `JournalReader`, `JournalWalk`, `JournalFilter`, `JournalVerdict`,
  `JournalEntries`, `JournalSearch`) told entry by entry on any files, and
  against an independent writer (`JournalLayout`, `JournalBuilder`, `JournalWriter`, `JournalRoundTrip`,
  `JournalAgreement`).

Objects whose fields change are classes (`Log`, `SyncConn`, `Walker`, `AdbConn`, `DeviceStore`, `DataCache`,
...). Each of their methods is proved against a function of the old state, and whole runs are then
reasoned about through those functions. The outside world enters as parameters: a stream is bytes plus
the point where it is cut, a device is any function from the commands put before and the one put now to
an answer, a file is its bytes, and the caller's callbacks are functions.

`dafny verify dfyconfig.toml` checks everything.

## What the proofs turned up

- `Append` puts no bound on a line, `VerifyChain` reads lines up to 1 MiB with their line feed
  (`foundation/audit/log.go:660-672`), and `TailRecord` needs the last line *and the line feed before it*
  within 1 MiB (`foundation/audit/log.go:597-621`). So the tail of a valid log can be out of reach by one
  byte; `OpenResumes` and `VerifierAcceptsWritten` give the exact conditions, and `VerifiesButWillNotOpen`
  writes such a log.
- A log that lacks only its final line feed verifies but does not open (`MissingNewlineSplitsReaders`).
- A log whose path is over 256 bytes, or holds a line feed or a NUL, can never be anchored
  (`UnsendablePathIsNeverAnchored`).
- The two walks name a root directory that is off the pin differently: volume unresolved over the wire, path
  denied locally (`RootsFail`).
- The walk of an honest device fails when a directory's path is over 4096 bytes, because naming it
  retires the session (`WalkReadsTree`).
- The two walks differ past depth 128, where only the device walk has a limit (`WalksAgree`).
- A fetch result can carry an empty serial without any fault in the broker: `Fetch` does not require that
  the serial of the session was ever parsed, although the comment at
  `business/domain/device/stores/adbsyncdb/adbsyncdb.go:446-453` says an empty one can only mean a bug
  (`UnnameableIsFetched`, with `SpaceIsFetched` for one; `RunIsPinned` says exactly when).
- The reader passes over an entry that carries both a readable `_EXE` of another program and a compressed
  `_EXE` that is the one wanted (`OmittedOnlyForAnotherExe` says exactly when, `MeantButOmitted` shows one).
  journald stamps one `_EXE`, and with one the search never omits silently (`NeverSilentlyOmitted`).

## Model

| member | source | states |
|---|---|---|
| `JsonString.AppendJSONString` | foundation/audit/record.go:159-202 | The index loop appends exactly the quoted literal: the two JSON escapes, short and \u00 control escapes, U+FFFD for every byte of ill-formed UTF-8, every other rune as it stands. |
| `JsonString.EscapesAre` | foundation/audit/record.go:159-202 | Each ASCII character is spelled as section 7 of RFC 8259 allows: quotation mark, reverse solidus and five controls by a letter, the other controls by number, the rest as they are. |
| `Utf8.ValidExactly` | foundation/audit/record.go:154-202 | What a literal keeps as it is are exactly the encodings of sequences of Unicode scalar values, so no surrogate, no overlong form and nothing past U+10FFFF. |
| `JsonString.ParseQuoted` | foundation/audit/record.go:159-202 | A literal is read back as the string with its ill-formed bytes replaced, and reading stops exactly where printing did, whatever follows. |
| `JsonString.EscapedSanitize` | foundation/audit/record.go:154-202 | Replacing ill-formed bytes first prints the same literal, so what the file holds hashes to what was hashed. |
| `JsonString.SanitizeFixes` | foundation/audit/record.go:154-202 | Replacement leaves a string alone exactly when it is well-formed UTF-8. |
| `JsonString.QuotedHasNoControl` | foundation/audit/record.go:159-202 | No byte of a literal is a control byte, so no value can hold a line feed. |
| `Decimal.ParseIntPrinted` | foundation/audit/record.go:83-121 | A printed integer is read back and reading stops where printing did. |
| `Timestamp.Representable` | foundation/audit/record.go:143-150 | A timestamp can be rendered exactly when its year is 0 to 9999. |
| `Timestamp.ParseCanonicalTime` | foundation/audit/record.go:143-150 | A rendered timestamp reads back as the instant cut to milliseconds. |
| `AuditRecord.Canonical` | foundation/audit/record.go:83-121 | The growing buffer ends as the canonical form, or nothing when the time cannot be rendered. |
| `AuditRecord.EncodeLine` | foundation/audit/log.go:414-429 | Cutting the brace and adding the hash gives exactly the line of a record with fifteen members. |
| `AuditRecord.LineIsCanonicalWithHash` | foundation/audit/log.go:404-429 | A stored line is the canonical form with the hash spliced in before its brace and one line feed after. |
| `AuditGolden.CanonicalIsFlat` | foundation/audit/record.go:83-121 | For every record the canonical form is the fourteen members written out one after another under their own names, the volume nested, between braces. |
| `AuditGolden.LineIsFlat` | foundation/audit/log.go:404-429 | A stored line is those members, the hash as the last, a brace and a line feed. |
| `AuditGolden.SampleIsCanonical` | foundation/audit/record_test.go:39-44 | The record of the repository's golden test has, byte for byte, the canonical form that test fixes, its own hash ignored. |
| `AuditRecord.LineEndsInOnlyNewline` | foundation/audit/log.go:404-429 | A stored line holds no line feed before its last byte, so lines cannot run into each other. |
| `AuditRecord.DecodeEncode` | foundation/audit/log.go:457-492 | Decoding the line of any record with a representable time gives the record as a file can hold it, invalid UTF-8 included. |
| `AuditRecord.StrictReads` | foundation/audit/log.go:457-492 | The reader of exactly the printed spelling reads every printed line, so what the results on written logs ask of a reader can be met. |
| `AuditRecord.NormalFixes` | foundation/audit/log.go:457-492 | A record with well-formed strings and whole milliseconds comes back as itself. |
| `AuditRecord.CanonicalOfNormal` | foundation/audit/log.go:404-411 | What is read back has the canonical form that was hashed. |
| `AuditRecord.CanonicalInjective` | foundation/audit/record.go:83-121 | Two records have one canonical form exactly when, their own hashes aside, they are the same record once strings are cleaned and times cut. |
| `AuditRecord.DecodeHex` | foundation/audit/log.go:495-508 | A digest is recovered from its 64 hex characters, so hex is injective. |
| `AuditRecord.HexSpells` | foundation/audit/log.go:404-411 | Each byte of a digest is spelled by two lower-case digits, the high one first. |
| `TailScan.TailLine` | foundation/audit/log.go:557-622 | The doubling backwards window terminates and equals the last line after trimming line feeds, with its size cut-off, for every file content. |
| `TailScan.TailIsLastLine` | foundation/audit/log.go:557-622 | The last line is given back exactly when the whole file, or that line with the feed before it and those after, is within 1 MiB; otherwise the line is too long. |
| `AuditChain.CheckRecord` | foundation/audit/log.go:514-534 | A record verifies exactly when its link is the head before it and its hash is the recomputed digest. |
| `AuditChain.VerifyChain` | foundation/audit/log.go:660-700 | The loop reports the first line that diverges or cannot be read, or a summary of every record, exactly as the content determines. |
| `AuditChain.TamperEvident` | foundation/audit/log.go:660-700 | Two verified chains of one length and one head agree record for record in canonical form, or two different inputs with one digest are exhibited. |
| `AuditTail.ChainIsFollowed` | foundation/audit/log.go:514-534 | Records verify as a chain with some head exactly when there is a head before each of them and after the last, starting at zero, such that each is numbered from one, names the head before it in hex of either case, and carries the digest of that head and its own canonical form. |
| `AuditFindings.CleanExactly` | foundation/audit/log.go:660-700 | A file verifies exactly when it is scanned to its end, every line that is not blank decodes, and the records are such a chain. |
| `AuditLines.LinesAreScanned` | foundation/audit/log.go:660-672 | A file of lines, each ended by a line feed with or without a carriage return, is read as just those lines. |
| `AuditLines.UnendedIsScanned` | foundation/audit/log.go:660-672 | What follows the last line feed is one more line. |
| `AuditLines.TooLongStops` | foundation/audit/log.go:660-672 | A line of 1 MiB or more ends the scan where it stands, whatever follows, and the scan is known not to have ended. |
| `AuditLines.BlankIsSkipped` | foundation/audit/log.go:672-680 | A line of ASCII white space alone changes nothing; any other must decode, and its record stands in its place. |
| `AuditLog.FindResume` | foundation/audit/log.go:111-155 | Reads the last line and resumes where the state function says; what that comes to on any file is OpenRecomputes and OpenElse. |
| `AuditTail.OpenRecomputes` | foundation/audit/log.go:111-155 | On any file whose last line holds a record, not the zero one, Open resumes at n and head exactly when n is its number and the record names some link and carries the digest of that link and its own canonical form, which is head. |
| `AuditTail.OpenElse` | foundation/audit/log.go:111-155 | Any other file: refused when it does not end in a line feed, when its last line is out of reach, or when that holds no record; an empty chain when it has no line, or ends in the zero record. |
| `AuditTail.EditedTailIsCaught` | foundation/audit/log.go:111-155 | With the last line of a written log replaced by one under the same link and hash but another canonical form, Open fails, or two different inputs with one digest are exhibited. |
| `AuditLog.Log.Open` | foundation/audit/log.go:111-155 | Open changes nothing on disk and gives a handle exactly when there is a point to resume from. |
| `AuditLog.Log.Create` | foundation/audit/log.go:183-202 | Create refuses an existing file and otherwise starts an empty chain. |
| `AuditLog.Log.Append` | foundation/audit/log.go:313-352 | The record stored says of the operation what the caller gave, its time cut to milliseconds, and is numbered, linked and hashed on the live chain; it is handed back exactly when the log is open, the time can be rendered, the write landed and the flush held; the chain advances once the line was written; otherwise nothing changes. |
| `AuditLog.Log.Close` | foundation/audit/log.go:355-367 | Closing drops the handle and leaves the file alone. |
| `AuditRuns.RunIsSound` | foundation/audit/log.go:313-352 | In every interleaving of appends, failed flushes, refusals, closes and opens the file holds exactly the records that landed, each stamped with its number and link, and a live handle stands right after them. |
| `AuditGiven.RunKeepsGiven` | foundation/audit/log.go:313-352 | In every run of appends that land or fail, flushes that fail, refusals, closes and opens, record number i of the file carries every member of the i-th append given while a handle was live and whose line landed, with its number, link and hash; and when a handle is live is told from the events alone. |
| `AuditRuns.OpenResumes` | foundation/audit/log.go:111-155 | Opening what the log wrote resumes after exactly its records, unless the last line is out of the tail scan's reach, and then it fails. |
| `AuditRuns.CrashSafe` | foundation/audit/log.go:93-155 | After any k bytes of the next line, Open succeeds exactly when k is none or all of them and the last whole line is in reach, and resumes with the matching number and head. |
| `AuditRuns.VerifierAcceptsWritten` | foundation/audit/log.go:660-700 | The verifier accepts a written log exactly when every line fits its reader, counting every record; otherwise it reads up to the first that does not fit. |
| `AuditRuns.FitCountAll` | foundation/audit/log.go:660-672 | Every line fits exactly when none is over 1 MiB with its line feed. |
| `AuditGap.VerifiesButWillNotOpen` | foundation/audit/log.go:597-672 | Two appends, the second of a definite length, leave a live log that the verifier accepts in full, whatever verdict it may give, and that Open refuses. |
| `AuditRuns.MissingNewlineSplitsReaders` | foundation/audit/log.go:587-595 | A file lacking only its final line feed satisfies the verifier and is refused by Open. |
| `AuditAnchors.EncodeAnchor` | foundation/audit/anchor.go:115-156 | The datagram is built, field by field, exactly when every value may be sent. |
| `AnchorDatagram.PayloadIsRead` | foundation/audit/anchor.go:115-156 | The datagram, cut into lines and each line at its first equals sign, is the fields it was built from, in order. |
| `AnchorDatagram.DatagramIsAnchor` | foundation/audit/anchor.go:115-156 | Under the names a reader asks for, the datagram of any anchor that may be sent carries that anchor, its message id, message, priority and identifier. |
| `AuditAnchors.SendableByPath` | foundation/audit/anchor.go:202-212 | Whether a log's tail can be anchored depends on its path alone: at most 256 bytes, no line feed, no NUL. |
| `AuditAnchors.ToAnchorFields` | app/broker/verify.go:302-319 | A published anchor's fields read back as that anchor. |
| `AuditAnchors.ToAnchorExactly` | app/broker/verify.go:302-335 | Fields are read as an anchor exactly when they spell one: a 64-bit decimal, leading zeros allowed and a sign not, and 64 lower-case hex digits. |
| `AuditAnchors.NewestIsFirst` | app/broker/verify.go:131-132 | The newest anchor is the first of those with the highest number. |
| `AnchoredRuns.Recorder.AnchorTail` | foundation/audit/anchor.go:184-198 | Publishes the live number and head, or nothing. |
| `AnchoredRuns.Recorder.Record` | business/domain/device/devicebus/extensions/deviceaudit/deviceaudit.go:235-311 | One record, then one anchor only if the record was durable; a failure to anchor is reported exactly when it is the first of the run, and changes nothing else. |
| `AnchoredRuns.RunIsAnchored` | app/broker/broker.go:404-572 | In every single-writer run from creation each published anchor is the chain state after the records it was published at. |
| `AuditPublished.RunPublishes` | business/domain/device/devicebus/extensions/deviceaudit/deviceaudit.go:235-311 | Every run anchors its log exactly at its creation and after each durable record, as far as the journal takes it and the path can be sent, each anchor at the count of records given by then; and nothing about the journal changes the log. |
| `AnchoredRuns.CreationIsAnchored` | app/broker/broker.go:395-410 | A log that was just created is anchored at no records before anything else happens. |
| `AnchoredRuns.LastOperationIsAnchored` | app/broker/broker.go:495-566 | A run whose last action recorded an operation durably while the journal took it ends with its newest anchor on all of its records. |
| `AnchoredRuns.VerifyAfterTruncation` | app/broker/verify.go:100-155 | Verify on the first m records says truncated exactly when the newest anchor covers more, matches at it, behind past it, unanchored without one, and that the chain fails exactly when a line is too long for it; never altered. |
| `AnchoredRuns.EveryCutIsSeen` | app/broker/verify.go:100-155 | After a run that ends in a durable, anchored record, every shorter prefix of the log is reported truncated, or fails on a line too long. |
| `AuditFindings.FindingIs` | app/broker/verify.go:100-155 | Of any file and any anchors: the chain fails exactly when the file does not verify; else, unanchored without anchors, truncated exactly when fewer records are held than the newest anchor counts, behind exactly when more, altered exactly when as many are held and the head differs, and matches otherwise. |
| `AuditFindings.FindingOnRun` | app/broker/verify.go:100-155 | The same for any file put in place of the log of any run, told from the records that run recorded up to its newest anchor. |
| `AuditFindings.AlteredIsSeen` | app/broker/verify.go:140-143 | A file with as many records as the newest anchor covers, one of them another in canonical form, is found altered, or two different inputs with one digest are exhibited. |
| `AnchoredRuns.MatchMeansSameRecords` | app/broker/verify.go:134-143 | Any file that verify finds to match, read by any reader that takes printed lines for what they are, holds in canonical form the records the newest anchor was published after, or a collision is exhibited. |
| `AnchoredRuns.UnsendablePathIsNeverAnchored` | foundation/audit/anchor.go:115-212 | A log whose path cannot be sent is never anchored in any run. |
| `DevicePath.WithinIsSegmentPrefix` | business/types/devicepath/path.go:360-366 | On absolute paths the byte test is exactly whole-segment prefix. |
| `DevicePath.ChildExtends` | business/types/devicepath/path.go:294-309 | A child is its parent plus one segment, and under an authorised parent a name is refused only for its own sake. |
| `DevicePath.Allowlist.Narrow` | business/types/devicepath/path.go:164-191 | A non-empty, well-formed subset within the allowlist replaces it, sorted and without repeats; anything else changes nothing. |
| `DevicePath.SortSorts` | business/types/devicepath/path.go:164-191 | The sort keeps the elements and orders them. |
| `DevicePath.BeforeIs` | business/types/devicepath/path.go:164-191 | The order is byte by byte: the one that runs out first, or is lower where they first differ. |
| `DevicePath.CompiledIsWellFormed` | business/types/devicepath/path.go:133-136 | The compiled roots pass their own rules. |
| `DevicePath.RunIsConfined` | business/types/devicepath/path.go:164-309 | In every run of parsing, joining and narrowing, every path obtained is confined and what the allowlist accepts only shrinks. |
| `DevicePath.ConfinedMeans` | business/types/devicepath/path.go:314-343 | A confined path lies under a compiled root and has no empty, dot or NUL-bearing segment. |
| `PathShape.AcceptedIsReached` | business/types/devicepath/path.go:239-366 | Under any allowlist of well-formed roots a path is accepted exactly when it is reached from one of them by plain names: none empty, dot or dot-dot, none with a slash or a NUL. |
| `PathShape.AcceptedAtFirst` | business/types/devicepath/path.go:133-136 | Before any narrowing that is exactly /sdcard/ and one of the six compiled folders, and plain names below it. |
| `PathShape.ConfinedIsReached` | business/types/devicepath/path.go:314-366 | And so is every confined path. |
| `SyncWire.DecodeEncodeStat` | foundation/adbwire/sync.go:313-353 | A stat body decodes to what was encoded. |
| `SyncWire.EncodeDecodeStat` | foundation/adbwire/sync.go:313-353 | A body that decodes is the encoding of its result, so no other bytes mean the same. |
| `SyncWire.StatStands` | foundation/adbwire/sync.go:313-353 | Each field of a stat body is read from its own place and width, times in two's complement; a body is refused exactly for a device, inode or size of 2^63 or more. |
| `SyncWire.RepliesAre` | foundation/adbwire/sync.go:18-35 | Each reply the results speak of starts with its own four letters and has its lengths in four bytes. |
| `SyncWire.StatDelivered` | foundation/adbwire/sync.go:261-307 | A 72-byte stat reply is read exactly, whatever follows. |
| `SyncWire.ListDelivered` | foundation/adbwire/sync.go:366-449 | A whole listing delivers exactly its entries and takes exactly its bytes, the 76-byte DONE included. |
| `SyncWire.ListCut` | foundation/adbwire/sync.go:366-449 | A listing cut anywhere fails after exactly the entries that arrived whole. |
| `SyncWire.ListIsWhole` | foundation/adbwire/sync.go:366-449 | A listing that ends took exactly a whole reply encoding the entries delivered. |
| `SyncWire.TransferDelivered` | foundation/adbwire/sync.go:468-535 | For every chunking up to 64 KiB a transfer delivers exactly the payload and takes exactly its bytes, the 8-byte DONE included. |
| `SyncWire.TransferCut` | foundation/adbwire/sync.go:468-535 | A transfer cut anywhere fails after exactly the chunks that arrived whole. |
| `SyncWire.TransferIsWhole` | foundation/adbwire/sync.go:468-535 | A transfer that ends took exactly a whole reply, and the sink holds its payload. |
| `SyncWire.RefusedChunk` | foundation/adbwire/sync.go:468-535 | A chunk of which the sink takes only part ends the transfer with just that part written. |
| `SyncWire.RefusedEntry` | foundation/adbwire/sync.go:366-449 | An entry the callback refuses ends the listing, the last one shown to it. |
| `SyncSession.SyncConn.SendPath` | foundation/adbwire/sync.go:192-211 | A path with a NUL or over 4096 bytes puts no byte on the wire; any other is sent whole or the write fails. |
| `SyncSession.SyncConn.StatCommand` | foundation/adbwire/sync.go:261-307 | The stat commands move stream and session exactly as specified; a dead session touches neither. |
| `SyncSession.SyncConn.ListDir` | foundation/adbwire/sync.go:366-449 | The listing loop moves stream and session exactly as specified. |
| `SyncSession.SyncConn.Receive` | foundation/adbwire/sync.go:468-535 | The transfer loop moves stream and session exactly as specified. |
| `SyncSession.SyncConn.Close` | foundation/adbwire/sync.go:135-151 | Closing retires the session. |
| `SyncSession.SyncConn.Kill` | foundation/adbwire/sync.go:177-188 | A failure retires the session and drops its stream. |
| `SyncRuns.ExecAligned` | foundation/adbwire/sync.go:261-535 | A command succeeds exactly when it can be sent and a whole reply to it is next, and takes that reply and nothing more. |
| `SyncRuns.SentIs` | foundation/adbwire/sync.go:192-211 | A command that is sent puts four letters for what it asks, the path's length in four bytes and the path on the wire. |
| `SyncRuns.SendableIs` | foundation/adbwire/sync.go:192-211 | It can be sent exactly when the session is live, the path is at most 4096 bytes without a NUL, and the socket takes it whole. |
| `SyncRuns.DeadStaysDead` | foundation/adbwire/sync.go:156-188 | Once dead, no later command of any run reads or writes a byte. |
| `SyncRuns.RunIsAligned` | foundation/adbwire/sync.go:261-535 | After any run of successful commands the bytes taken are whole replies in order, one per command, and those sent exactly the commands. |
| `SyncRuns.RunIsAnswered` | foundation/adbwire/sync.go:261-535 | When the device answers each command with a whole reply, each command gets its own. |
| `SyncRuns.CutListing` | foundation/adbwire/sync.go:366-449 | A cut listing retires the session having handed over exactly the whole entries. |
| `SyncRuns.CutTransfer` | foundation/adbwire/sync.go:468-535 | A cut transfer retires the session having written exactly the whole chunks. |
| `Walker.Walker.WalkRoot` | business/domain/device/stores/adbsyncdb/walk.go:53-88 | The walker's summary, commands and records are those of the walk function, with no command put while a listing is open. |
| `Walker.Walker.WalkDir` | business/domain/device/stores/adbsyncdb/walk.go:101-159 | One directory: listed, re-checked if anything was off the pin, then its subdirectories in order. |
| `Walker.Walker.Classify` | business/domain/device/stores/adbsyncdb/walk.go:167-232 | The per-entry rules, in order, from inside a listing. |
| `Walker.Walker.Emit` | business/domain/device/stores/adbsyncdb/walk.go:235-258 | One regular file becomes one record, an error or the caller's stop. |
| `Walker.Walker.Descend` | business/domain/device/stores/adbsyncdb/walk.go:290-330 | A subdirectory is stated again before it is opened, and recorded, refused or walked. |
| `Walker.Walker.RecheckRoot` | business/domain/device/stores/adbsyncdb/walk.go:349-372 | The volume root is stated again once. |
| `WalkFacts.EntryEndsOnce` | business/domain/device/stores/adbsyncdb/walk.go:167-258 | Every listed entry ends in exactly one place: a dot name, a record, an error, a refusal, a descent, or a directory past the depth asked for. |
| `WalkSpec.KindShows` | business/types/filekind/filekind.go:32-52 | Whatever its permissions and whatever the higher bits, a mode with the type of a file, a directory or a link is read as that, and any other type as neither. |
| `WalkFacts.RootIsDecided` | business/domain/device/stores/adbsyncdb/walk.go:53-88 | The walk ends on its root disconnected, permission denied, root not found, not a directory or volume unresolved exactly for what the stat of it was; and lists it exactly when that showed a directory on the pin. |
| `WalkFacts.WalkIsAccounted` | business/domain/device/stores/adbsyncdb/walk.go:101-330 | Against any device the summary is exactly, and in order, what the answers to the commands put add; every directory stated good is listed, and in a walk that ends well the directories accepted are just those stated again. A walk the caller stopped stands at the record it did not take. |
| `WalkFacts.WalkRechecksOnce` | business/domain/device/stores/adbsyncdb/walk.go:332-372 | Against any device the volume root is stated at most once; a walk that ends well stated it exactly when some listed entry or stated directory was off the pin, and found it on the pin; found anywhere else, that is how the walk ends. |
| `WalkFacts.WalkIsConfined` | business/domain/device/stores/adbsyncdb/walk.go:101-330 | Against any device every record is an entry the device listed, a regular file on the pin under the directory listed, one to min(MaxDepth, 128) plain names below the root; a directory is listed only straight after it was stated to be one on the pin, and no command names anything outside. |
| `WalkFacts.WalkIsInStep` | business/domain/device/stores/adbsyncdb/walk.go:53-159 | A walk puts no command after one that was not answered in full, and each way it can end is told exactly: well, when the last was; stopped, inside a listing; volume unresolved, when the root did not hold; disconnected, when the last was not answered in full; or on its root. |
| `WalkSession.WalkStaysAlive` | business/domain/device/stores/adbsyncdb/walk.go:53-159 | On a real session every command of a walk is put on a live stream; only the last can retire it, and then the walk fails. |
| `WalkSession.StreamingIsSame` | business/domain/device/stores/adbsyncdb/walk.go:121-141 | Classifying entries as they arrive, and leaving the listing where the caller stops, comes to the same as classifying the whole of it. |
| `TreeWalk.ClassifyHonest` | business/domain/device/stores/adbsyncdb/walk.go:167-258 | One honest entry yields exactly its own record, refusal or descent. |
| `TreeWalk.WalkReadsTree` | business/domain/device/stores/adbsyncdb/walk.go:53-159 | On a static, readable tree of files, directories, links and other things, each reported by the mode it has, the walk ends well exactly when every directory it must name fits the protocol's path limit, and then it is the simple recursive reading of the tree by those kinds. |
| `FixtureWalk.FixtureWalker.WalkRoot` | business/domain/device/stores/fixturedb/fixturedb.go:311-333 | The local walk checks its root without following a link and walks it as the function says. |
| `FixtureWalk.FixtureWalker.WalkDir` | business/domain/device/stores/fixturedb/fixturedb.go:338-366 | Entries in reading order, subdirectories in place, until the caller stops. |
| `FixtureWalk.FixtureWalker.Visit` | business/domain/device/stores/fixturedb/fixturedb.go:371-423 | One entry: named, its device checked with links followed, then judged by its own kind. |
| `FixtureWalk.StopsAtFirstRefusal` | business/domain/device/stores/fixturedb/fixturedb.go:338-423 | Whatever the caller refuses, the local walk emits what it would emit to a caller that takes everything, up to the first record refused, and all of it, with the same counts, if there is none. |
| `FixtureWalk.HeldInAnyOrder` | business/domain/device/stores/fixturedb/fixturedb.go:338-366 | What a directory holds does not depend on the order it is read in. |
| `FixtureWalk.WalksAgree` | business/domain/device/stores/fixturedb/fixturedb.go:311-423 | For every tree and every MaxDepth: when a directory it must name is over the path limit the device walk ends disconnected, and otherwise the two walks emit the same records and count the same files and refusals, except past depth 128: there, and only there, the device walk reports errors; capped at 128 the local walk agrees always. |
| `FixtureWalk.RootsFail` | business/domain/device/stores/fixturedb/fixturedb.go:311-333 | On any root that is not a directory on the pin both walks emit and count nothing; a root that is no directory they name alike, one off the pin the device walk calls volume unresolved and the local one path denied. |
| `Store.SelectsOnlyTheOneMeant` | business/domain/device/stores/adbsyncdb/adbsyncdb.go:463-487 | A device is chosen exactly when the one named is attached, and then the first listed under that serial, or none is named and one is attached; several and none named is its own error. |
| `Store.ConnectServes` | business/domain/device/stores/adbsyncdb/reconnect.go:71-142 | A session is on the device its row names, with the required features read from that device. |
| `StoreFacts.ConnectsExactly` | business/domain/device/stores/adbsyncdb/reconnect.go:71-142 | A session is established exactly when the server answers throughout and the device meant has stat_v2, ls_v2 and sendrecv_v2, and then it is that device's, with its state, the server's version, its features and the number attached; each thing that can stop it ends in its own error. |
| `StoreFacts.SessionExactly` | business/domain/device/stores/adbsyncdb/reconnect.go:34-60 | A live session is used again, with no dial, unless another device is named; otherwise one dial, to the device named or else the pinned one; a pinned serial that cannot be named stops that. |
| `StoreFacts.RunIsFounded` | business/domain/device/stores/adbsyncdb/reconnect.go:34-142 | In every run a live session is the one the last dial gave, on a device that server listed, under its state, version, features and count, with only the head of its stream read; and what a probe reports is just that row. |
| `Store.SerialsAre` | business/types/serial/serial.go:35-62 | A serial can be named exactly when it is 1 to 64 ASCII letters, digits, colons, dots, underscores and hyphens. |
| `Store.StepKept` | business/domain/device/stores/adbsyncdb/adbsyncdb.go:220-460 | One operation of any kind leaves the session gone or live on the pinned serial, touches only the device named or else the pinned one, moves the pin only when it names a device or none was pinned, and reports the serial of the device it touched. |
| `Store.RunIsPinned` | business/domain/device/stores/adbsyncdb/reconnect.go:34-180 | Over every run of operations and failures: no dead channel stays installed, a live session stands on the pinned serial, an operation naming a serial touches only that device, one naming none only the pinned one. |
| `Store.SameDeviceUntilNamed` | business/domain/device/stores/adbsyncdb/reconnect.go:34-60 | Two commands of one run with no serial named in between went to the same device. |
| `Store.RunIsPermitted` | business/domain/device/stores/adbsyncdb/adbsyncdb.go:283-460 | In every run, whatever the devices answer, every command put on the wire names a path under a compiled root without following links, or states /sdcard itself; and only a fetch transfers anything. |
| `Store.FetchChecksFirst` | business/domain/device/stores/adbsyncdb/adbsyncdb.go:346-460 | A transfer is asked for exactly when the same device has just stated the same path as a regular file on the pinned volume and the caller took its size; one rebuild follows exactly a failed transfer. |
| `Store.FetchIsOneReply` | business/domain/device/stores/adbsyncdb/adbsyncdb.go:407-460 | What a fetch returns is the payload of one whole transfer reply, next on the pinned device's stream. |
| `StoreFacts.FetchDecides` | business/domain/device/stores/adbsyncdb/adbsyncdb.go:346-406 | What a fetch comes to for each stat: path not found, permission denied, transfer failed, not a regular file, path denied or the caller's refusal, for the first rule broken in that order; else the transfer is asked for. |
| `StoreFacts.FetchLeaves` | business/domain/device/stores/adbsyncdb/adbsyncdb.go:407-460 | A refused fetch leaves the session after its stat, a whole transfer after that reply; a failed one leaves what a new dial to the pinned device gives, one rebuild counted, and reports why the rebuild failed if it did. |
| `StoreFacts.ResolvesTheRoot` | business/domain/device/stores/adbsyncdb/adbsyncdb.go:246-281 | The volume pinned is the device and inode that the device states /sdcard to have, links followed, exactly when that is a directory without an error. |
| `StoreFacts.ListLeaves` | business/domain/device/stores/adbsyncdb/adbsyncdb.go:288-327 | A listing reports the walk's own records, refusals and errors, and leaves the session where its last command left it, or none when a command failed or the caller stopped. |
| `StoreFacts.ZeroPathDoesNothing` | business/domain/device/stores/adbsyncdb/adbsyncdb.go:299-300 | The zero path is refused before any device is asked. |
| `Store.AnySerialIsServed` | business/domain/device/stores/adbsyncdb/reconnect.go:71-142 | A device attached alone is served whatever its serial. |
| `Store.UnnameableIsFetched` | business/domain/device/stores/adbsyncdb/adbsyncdb.go:446-460 | From any device attached alone under a serial no record can name a fetch completes with the file's bytes and is reported under the empty serial. |
| `Store.SpaceIsFetched` | business/domain/device/stores/adbsyncdb/adbsyncdb.go:446-460 | A device whose serial is one space is such a device. |
| `StoreConnect.ConnectsTo` | business/domain/device/stores/adbsyncdb/reconnect.go:101-116 | Features, transport and sync of the chosen device, each on the socket the connection gives it, come to what the store takes them for. |
| `StoreConnect.ConnectIsAsSeen` | business/domain/device/stores/adbsyncdb/reconnect.go:71-142 | Establishing a session call by call over a host connection, whatever the server sends, is exactly what the store takes it for; the stream it leaves is on a socket that was sent the transport request for the session's own serial and then the sync request, and nothing else. |
| `StoreConnect.FeaturesDelivered` | foundation/adbwire/adbwire.go:371-392 | The features of a device are the names its answer has between commas. |
| `Store.DeviceStore.SessionLocked` | business/domain/device/stores/adbsyncdb/reconnect.go:34-60 | The live session, kept, replaced or established as the function says. |
| `Store.DeviceStore.ConnectLocked` | business/domain/device/stores/adbsyncdb/reconnect.go:71-142 | Version, devices, features, transport, stream, in that order, each failure ending it. |
| `Store.DeviceStore.ReconnectLocked` | business/domain/device/stores/adbsyncdb/reconnect.go:149-158 | Drops the session, counts the rebuild, and establishes one on the pinned device. |
| `Store.DeviceStore.DropSessionIfDead` | business/domain/device/stores/adbsyncdb/reconnect.go:165-169 | Only a dead session is dropped. |
| `Store.DeviceStore.ProbeDevice` | business/domain/device/stores/adbsyncdb/adbsyncdb.go:220-235 | Reports the session's row, when its serial can be named. |
| `Store.DeviceStore.Resolve` | business/domain/device/stores/adbsyncdb/adbsyncdb.go:246-281 | States the compiled volume root, following links, and pins a directory's device. |
| `Store.DeviceStore.List` | business/domain/device/stores/adbsyncdb/adbsyncdb.go:288-327 | Walks the tree on the named device's session; the session is dropped when a command failed or the caller stopped; the summary is reported either way. |
| `Store.DeviceStore.Fetch` | business/domain/device/stores/adbsyncdb/adbsyncdb.go:346-460 | The whole operation changes the store as the function says. |
| `HostWire.ParseHex4` | foundation/adbwire/framing.go:52-58 | A four-digit length prefix is read back. |
| `HostWire.ParseHexExactly` | foundation/adbwire/framing.go:141-144 | A number is read exactly from hex digits of either case, at least one and, leading zeros aside, at most eight. |
| `HostWire.RequestIsRead` | foundation/adbwire/framing.go:52-58 | A request is read back as its service and takes exactly its bytes. |
| `HostWire.PayloadDelivered` | foundation/adbwire/framing.go:166-183 | A whole payload, empty or not, is read exactly, whatever follows. |
| `HostWire.PayloadCut` | foundation/adbwire/framing.go:166-183 | A payload cut anywhere is not read. |
| `HostWire.DevicesDelivered` | foundation/adbwire/adbwire.go:341-363 | A printed device list, the empty one included, reads back as itself. |
| `HostWire.DevicesUnended` | foundation/adbwire/adbwire.go:341-363 | So does one without a line feed after its last device. |
| `HostWire.DevicesRefused` | foundation/adbwire/adbwire.go:341-363 | A list is refused exactly when some line that is not empty lacks a serial, a tab or a state. |
| `HostConn.ReplyDelivered` | foundation/adbwire/adbwire.go:224-265 | OKAY and a whole payload answer with it; FAIL, or a cut anywhere, does not. |
| `HostConn.RequestsAre` | foundation/adbwire/adbwire.go:54-76 | The requests that name no device, byte for byte, and the service in each that names one. |
| `HostConn.AllowedIs` | foundation/adbwire/adbwire.go:458-469 | A device is asked for by any serial that is not empty and holds no NUL, tab or line feed, and by no other. |
| `HostConn.UseIsClean` | foundation/adbwire/adbwire.go:452-469 | Nothing sent on any connection's socket before a sync stream holds a NUL, a tab or a line feed. |
| `HostConn.StepKeeps` | foundation/adbwire/adbwire.go:180-449 | Every call keeps the socket discipline; a socket is handed over at most when none was, and afterwards nothing is dialled or written. |
| `HostConn.RunKeepsDiscipline` | foundation/adbwire/adbwire.go:91-111 | In every run, whatever the server does, each socket carried at most one query, or one transport and then the sync service; at most one is handed over. |
| `HostConn.EverySocketCarriesOneUse` | foundation/adbwire/adbwire.go:54-76 | From a fresh dial, nothing outside the closed vocabulary is ever sent and never a host request after a transport. |
| `HostConn.StreamStartsAfterOkay` | foundation/adbwire/adbwire.go:437-449 | The stream handed over starts with the byte after the OKAY to the sync request. |
| `HostConn.AdbConn.PrepareSocket` | foundation/adbwire/adbwire.go:180-206 | A spent connection dials again; a closed, handed-over or mis-ordered one refuses. |
| `HostConn.AdbConn.Query` | foundation/adbwire/adbwire.go:224-265 | One request, one reply, and the socket is spent either way. |
| `HostConn.AdbConn.SwitchService` | foundation/adbwire/adbwire.go:274-309 | After OKAY nothing more is read; after anything else the socket is spent. |
| `HostConn.AdbConn.ListDevices` | foundation/adbwire/adbwire.go:341-363 | The devices in the reply, or none when one line is malformed. |
| `HostConn.AdbConn.SelectTransport` | foundation/adbwire/adbwire.go:397-428 | Selects a transport, refusing a serial that would corrupt the request. |
| `HostConn.AdbConn.OpenSync` | foundation/adbwire/adbwire.go:437-449 | Hands the socket to a sync session that starts where the reply ended. |
| `HostConn.AdbConn.Close` | foundation/adbwire/adbwire.go:161-173 | Closes the socket, unless it was handed over. |
| `JournalFormat.ParseEntryObject` | foundation/journal/format.go:273-316 | The item loop gives the entry's fields and its non-zero data offsets at the layout's width. |
| `JournalFormat.ParseEntryArray` | foundation/journal/format.go:330-357 | The item loop gives every slot, zeroes included, at the layout's width. |
| `JournalFormat.EntryStands` | foundation/journal/format.go:273-316 | Each field of an entry is read from its own place; its items follow from byte 64, one data offset every 16 bytes or, compact, every 4, and a zero names nothing. |
| `JournalFormat.ArrayStands` | foundation/journal/format.go:330-357 | An array's items follow from byte 24, every 8 bytes or, compact, every 4; the next array is named at 16. |
| `JournalFormat.CompressedIs` | foundation/journal/format.go:383-412 | An object is compressed exactly when one of the three lowest flag bits is set; otherwise its payload starts at 64 or, compact, 72. |
| `JournalFormat.CutJoins` | foundation/journal/format.go:398-410 | A payload is cut at its first = into the name and value it was made of. |
| `JournalReader.ScanEntryOffsets` | foundation/journal/journal.go:506-561 | The loop terminates on any bytes and equals the walk function. |
| `JournalReader.ReadIsInside` | foundation/journal/journal.go:712-757 | An object is read only from an aligned place in the arena, of the type wanted, exactly as long as it says, within the limit and never past the written region. |
| `JournalReader.ReadObjectIs` | foundation/journal/journal.go:712-757 | What reading an object comes to, exactly: corrupt where none can begin, truncated past the written region or where the type is still zero, corrupt for another type or an impossible size, truncated when it runs out, else whole. |
| `JournalReader.OpensExactly` | foundation/journal/format.go:191-238 | A file opens exactly with a whole header, the signature, no incompatible flag but the five known, and sizes in range; and the bytes that may hold objects are those below the end declared, as far as the file goes. |
| `JournalReader.FilterOkIs` | foundation/journal/journal.go:161-185 | A filter is accepted exactly with 32 lower-case hex digits, a user id of zero or more and a path from the root. |
| `JournalReader.DataCache.Put` | foundation/journal/journal.go:807-819 | An object is remembered exactly when the budget covers it; what is held always costs what the budget has lost, and is what reading gives. |
| `JournalReader.ReadData` | foundation/journal/journal.go:765-788 | With the memo or without, the object read is the same. |
| `JournalReader.ReadFields` | foundation/journal/journal.go:657-697 | The loop gives the first value of each name and the compressed count, or fails. |
| `JournalReader.MatchEntry` | foundation/journal/journal.go:565-642 | The verdict on one entry is that of the specification, whatever the memo holds; what that comes to is VerdictIs. |
| `JournalVerdict.VerdictIs` | foundation/journal/journal.go:565-642 | No match for an entry not yet wholly written; a failure when it, or an object it names, is not what a journal holds there; otherwise the judgement of its objects by the first value under each name. |
| `JournalVerdict.DecidedIsJudged` | foundation/journal/journal.go:587-642 | The decision on the fields read is that judgement of the objects themselves. |
| `JournalVerdict.ReturnedExactly` | foundation/journal/journal.go:587-642 | An entry whose objects all read is returned exactly when MESSAGE_ID, _UID and _EXE each have one value, those asked for, and its time is below 2^63, whatever else is compressed; and what is returned is what it says. |
| `JournalVerdict.FailsExactly` | foundation/journal/journal.go:587-697 | The search fails on such an entry exactly when a deciding name has two values; or message id and user are those asked for and no _EXE is readable beside something compressed; or all three are and the time does not fit. |
| `JournalWalk.WalkIsChain` | foundation/journal/journal.go:500-561 | A walk that succeeds met arrays at different aligned places inside the written region, each named by the one before, and gives their items up to the first zero slot and the header's count, never more. |
| `JournalWalk.ChainIsWalked` | foundation/journal/journal.go:506-561 | And every such chain, whether it ends in nothing or at an array not yet written, is walked to exactly that result. |
| `JournalWalk.LaterExtends` | foundation/journal/journal.go:500-561 | Of two snapshots of one file whose arrays are, byte for byte, only filled, the earlier result is a prefix of the later. |
| `JournalFilter.FieldsHold` | foundation/journal/journal.go:651-697 | Every readable name is kept with its first value, the only value for a name that decides, and something unread is counted. |
| `JournalFilter.OmittedOnlyForAnotherExe` | foundation/journal/journal.go:587-642 | An entry the filter means is passed over exactly when another program's path could be read in it; otherwise it is returned or fails. |
| `JournalFilter.TwoPrograms` | foundation/journal/journal.go:587-642 | For every filter with a path over 507 bytes and every other path there is an entry that the filter means and the search passes over. |
| `JournalFilter.MeantButOmitted` | foundation/journal/journal.go:587-642 | There is such an entry: one program's path stored compressed, another's as it is, and the search comes to "no match". |
| `JournalFilter.NeverSilentlyOmitted` | foundation/journal/journal.go:565-642 | A readable entry whose logged fields are those asked for, naming no other program, never comes to "no match". |
| `JournalFilter.MatchedIsMeant` | foundation/journal/journal.go:565-642 | Nothing is returned unless every readable object under the three deciding names agrees with the filter. |
| `JournalFilter.MatchedCarries` | foundation/journal/journal.go:620-641 | Each part of a match, the cursor's included, is what the entry logged first under the name that part is stamped with; a number absent or malformed is -1. |
| `JournalFilter.AtoiReadsDecimal` | foundation/journal/journal.go:829-844 | A number spelled in decimal is read as itself, over all 64-bit integers. |
| `JournalFilter.AtoiExactly` | foundation/journal/journal.go:829-844 | A value is read as n exactly when it spells it: a sign or none, any zeros, the digits, within 64 bits; nothing else is read as a number, the empty value included. |
| `JournalFilter.EverySpellingNormalizes` | foundation/journal/journal.go:846-856 | Every spelling of a message id, dashed anywhere and in either case, is recognised as that id. |
| `JournalFilter.NormalizesExactly` | foundation/journal/journal.go:846-856 | And nothing else is recognised as it. |
| `JournalEntries.MatchInFile` | foundation/journal/journal.go:478-499 | The loop gives the matches of every offset in order, or the first failure. |
| `JournalEntries.OrderIsDetermined` | foundation/journal/journal.go:366-373 | Whatever sorts the matches by the four keys gives the same list. |
| `JournalEntries.KeysRise` | foundation/journal/journal.go:366-373 | In the sorted list sequence number, then time, then file, then place never fall. |
| `JournalSearch.SearchExactly` | foundation/journal/journal.go:346-380 | Over any files at all a search succeeds exactly when the filter is accepted, every file's arrays can be walked and no entry of any fails; and then it returns exactly the entries that match. |
| `JournalEntries.Reader.Entries` | foundation/journal/journal.go:346-380 | The sorted matches of every file, a refusal of a bad filter, or nothing once closed. |
| `JournalEntries.Reader.Close` | foundation/journal/journal.go:324-330 | Closing drops every file. |
| `JournalLayout.ObjectAtStart` | foundation/journal/builder_test.go:197-347 | Each object stands at the offset planned from the sizes before it. |
| `JournalLayout.ArrayIsRead` | foundation/journal/builder_test.go:284-300 | An array's encoding reads back in either layout. |
| `JournalLayout.EntryIsRead` | foundation/journal/builder_test.go:267-282 | An entry's encoding reads back in either layout. |
| `JournalLayout.DataIsRead` | foundation/journal/builder_test.go:255-265 | A data object's encoding reads back as its payload, or as compressed. |
| `JournalBuilder.ChunksJoin` | foundation/journal/builder_test.go:375-386 | The groups of offsets, one per array, join to the offsets. |
| `JournalBuilder.HeaderIsRead` | foundation/journal/builder_test.go:302-344 | The header reads back, or is refused exactly for a flag bit not known. |
| `JournalWriter.BuildInPlace` | foundation/journal/builder_test.go:197-347 | Planning offsets and filling a zeroed buffer in place gives exactly the file laid out by concatenation. |
| `JournalWriter.CollectData` | foundation/journal/builder_test.go:351-372 | One data object per distinct field in order of first appearance, with its first entry and its count. |
| `JournalRoundTrip.Opens` | foundation/journal/journal.go:412-457 | A built file opens exactly when it declares no incompatible flag that is not known. |
| `JournalRoundTrip.OffsetsAreFound` | foundation/journal/journal.go:506-561 | The reader finds every entry's offset in the order written, up to the declared count, for any chunks and slack. |
| `JournalRoundTrip.EntryMatches` | foundation/journal/journal.go:565-642 | The verdict on a built entry is the judgement of its own fields by the first value under each name, no reader function named. |
| `JournalAgreement.EntriesAreThoseBuilt` | foundation/journal/journal.go:346-380 | Searching built files gives exactly the entries so judged to match, ordered by sequence number, time, file and place, or fails exactly as that judgement of an entry says. |
| `JournalAgreement.LayoutsAgree` | foundation/journal/format.go:52-55 | The same contents in either layout, with any chunks and slack, give the same result. |

## Left out

- SHA-256, base64, the calendar and time zones: digests are a parameter, times are already in UTC fields.
- `encoding/json` and `time.Parse` in general: the reader of a line is a parameter, and what it makes of a
  spelling the log does not print is left open; `DecodeLine` is the reader of exactly the printed spelling.
- Blank lines spelled with white space outside ASCII, which the verifier's trimming also skips.
- Durability itself (fsync, descriptor flags, `confirmAppendable`), permissions, deadlines, contexts, mutexes.
- A write that reports failure after landing in part or whole before a further append on the same handle, and
  two processes appending at once; the code leaves both to the next open or to verify.
- AnchoredRuns.VerifyAfterTruncation: says nothing of the content of a record at an anchor older than the end of the log, which verify does not check.
- Reading anchors from journal export lines (`app/broker/verify.go:356-541`): JSON decoding of one line.
- The journald datagram's framing beyond its fields, and the socket it goes to.
- Listing or fetching with no callback or sink, an unpinned volume or a negative depth: refused before any
  state is touched.
- toBusFileRecord's failure branch (`walk.go:241-249`): sizes and times already fit the types used here.
- Error texts and the translation of wire errors into codes; failures are told apart only where the callers' behaviour depends on it.
- The comparison of the size handed over before a transfer with the bytes received, which the code does not make.
- WalkSession.StreamingIsSame: a listing is read whole and then classified, where the code classifies as entries arrive; a listing the caller stops retires the session either way.
- FixtureWalk.FixtureWalker.Visit: on a static, readable tree, so the branches for an entry that vanished or a directory that cannot be read are absent.
- JournalReader.MatchEntry: the cursor is kept as its parts; its text form is not printed. Lower-casing is of ASCII, which decides equality with a validated message id the same way.
- JournalRoundTrip.Opens: globbing, opening and permission errors of files are not modelled; a file is its bytes.
- JournalWalk.LaterExtends: that journald writes a slot or a link only once is what the snapshots are asked; its own code is not modelled.
- JournalWriter.BuildInPlace: the header is assembled first and copied in last in one piece, where the code writes its fields one by one; hash values, field objects and compression are absent there as in the code.
- SipHash lookups, decompression, and the flag parsing, usage texts, JSON responses and subcommands of the broker.
