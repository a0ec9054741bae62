# Verified model of the property register

A Dafny 4.11 model of the hard parts of the property-management server, with proofs. Run
`dafny verify dfyconfig.toml` in this directory to check everything.

Each component has a model on values, in which whole runs can be reasoned about, and - where
the program changes tables, arrays or streams step by step - classes whose methods do the same
step by step and are proved to take exactly the model's steps.

| files | component |
|---|---|
| `Bytes`, `Aead`, `ChunkedFormat`, `ChunkedTheory`, `StreamHeader`, `ChunkedStream`, `StreamLayout` | the encrypted attachment stream: chunk nonces, binary header, writer and reader, byte by byte |
| `Text`, `Canonical` | white space, digits and the canonical form of names, codes and queries |
| `RegisterModel`, `RegisterViews`, `RegisterTheory`, `RegisterHistory`, `RegisterExample`, `RegisterUndo`, `RegisterValues`, `RegisterRequests`, `RegisterOutcomes`, `RegisterStore` | the property register, its audit log and undo; what each request leaves, and when it is accepted |
| `Like`, `SearchSql`, `SearchCompiler`, `SearchTheory`, `SearchFilters`, `SearchPages` | the advanced search: filters checked and compiled to joins, conditions and numbered arguments; what each finds; its pages |
| `LastAdmin`, `AccountUpdates` | account updates under the one-administrator rule, concurrent and one at a time |
| `Utf8Cap`, `AttachmentModel`, `AttachmentTheory`, `AttachmentSealing`, `AttachmentLeaks`, `AttachmentCorrections`, `AttachmentExamples`, `AttachmentRequests`, `AttachmentStore` | text extraction, correction, sealing and document search |
| `SignInThrottle`, `SignInHistory`, `Sessions`, `SignIn` | the sign-in delay and what it remembers, the session table and the sign-in that uses both |

## What is taken as given

- AES-GCM is ideal: a key opens exactly what it has sealed, and sealing is injective in the
  plaintext. Data keys, nonces, tokens and ids drawn at random are parameters; a data key is
  one never used before, and no id or token is issued twice.
- NFKC, the class of combining marks, the case mappings and the UUID parser are parameters. The
  register and the search hold for any canonical form; `Canonical` says what this one ignores.
- The clock is a parameter: one reading per request, in whole nanoseconds.
- A committed transaction is one step, except where interleaving is the point (under the default
  READ COMMITTED isolation of PostgreSQL): account updates are taken statement by statement, the
  extraction worker commit by commit, and the requests that correct, re-queue or edit an
  attachment as a reading and a later writing.
- Names are ordered by some collation, a parameter.
- LIKE is section 9.7.1 of the PostgreSQL manual; UTF-8 is section 3 of RFC 3629.

## Where the code does not do what it says

Each is followed as it is, with the exact condition proved and, where that leaves one to be found,
a case that shows it.

- **Lengths that disagree.** `Stream` reports success for some declared lengths that are not the
  length of the source (`ChunkedTheory.StreamAcceptsExactly`). What it wrote then never opens
  (`OwnOutputOpensExactly`; `AcceptedButUnreadable` is the smallest case).
- **No partial file.** The comment on `OpenStream` promises none after a failure. Whatever the
  bytes and the header, a reading writes nothing if and only if its first chunk does not open
  (`ChunkedTheory.WritesNothingExactly`, and for whole files
  `ChunkedStream.OpenStreamWritesNothingExactly`); a failure after that leaves the chunks before
  it. `APartialFile` is a file of two chunks cut after its first frame.
- **Frames.** The comment on `Stream` puts a nonce in front of every chunk's ciphertext. None is
  written; the reader rebuilds it from the prefix and the chunk's number (`ChunkedStream.SealChunks`,
  `StreamLayout.TurnFaults`).
- **Searching for two choices.** An `includesAll` filter uses up two placeholder numbers for
  each choice but binds one argument for each and one for the field. The statement runs if and
  only if every such filter names one choice (`SearchTheory.SearchRunsExactly`, `TwoChoicesNeverRun`).
- **The last administrator.** A locking scan drops rows that stopped qualifying while it waited.
  It can come back empty, and the check then passes. A commit takes the last administrator away
  if and only if its check passed on an empty scan, its target is the only active administrator
  by then, and its change makes it none (`LastAdmin.CommitLosesTheRuleExactly`). A run keeps an
  administrator throughout if and only if it has no such commit (`RuleHoldsExactly`);
  `ThePoolCanEmpty` is a run of three requests that has one.
- **Promotion to sensitive.** A promotion that overlaps the worker storing a text, a correction
  or another edit can leave readable text on a sensitive attachment. For each overlap the exact
  condition is in `AttachmentLeaks` (`StoringLeaksExactly`, `CorrectionLeaksExactly`,
  `EditLeaksExactly`), no other step can do it (`StepLeaksExactly`), and a run keeps every
  sensitive attachment sealed throughout if and only if none of the three conditions is ever met
  (`SealedExactly`). `ALeakingRun`, `ALeakingCorrection` and `ALeakingPromotion` in
  `AttachmentExamples` are a run for each. A promotion can put back the text it had read in place
  of a correction made meanwhile (`AttachmentSealing.EditChangesTheTextExactly`,
  `ALostCorrection`). And an edit that promotes nothing writes the flag back as it read it: no
  attachment ever goes back from sensitive if and only if no such edit commits over a promotion
  (`EditUncoversExactly`, `FlagsKeptExactly`, `AnUndonePromotion`); the sealed text is then lost
  to readers. Runs without overlaps are safe (`CalmRunsAreConfidential`, `EditKeepsFlagAndText`).
- **Corrections.** A hand correction is safe from everything but a deletion, another correction
  and a sealing promotion if and only if its row was not queued and no request that had found it
  uncorrected is about to queue it (`AttachmentCorrections.CorrectionIsSafeExactly`;
  `AQueuedCorrection` and `AnOvertakenCheck` are a run for each half).
- **Undo by code.** Audit rows name a property by its code, so an undo lands on whichever
  property holds that code now (`RegisterHistory.UndoLandsWhereTheCodeIs`,
  `ReusedCodeMisleadsUndo`). `RegisterExample.AMisledUndo` is a run of four requests after which
  such an undo goes through and renames the other property.
- **Undo after later edits.** The comment on the undo handler promises a refusal once the
  property's version has moved on. No undo looks at that: it is accepted if and only if its record
  is an ordinary one not yet reversed, its property is found, and that property can take back what
  was recorded (`RegisterOutcomes.UndoAcceptedExactly`).
- **Contains.** A `contains` filter compares the canonical query with the text as typed: typing a
  whole stored text finds it if and only if the text contains its own canonical form
  (`SearchTheory.StoredTextIsFoundExactly`); a stored "A" is missed (`AStoredTextIsMissed`).
- **Boxes never saved.** `isFalse` also asks for an unset value, but a joined row always has one:
  a property is found by one of `isTrue` and `isFalse` if and only if the box was ever saved
  (`SearchTheory.TickedOrNotExactly`).
- **Names not yet normalised.** An attachment name not yet normalised is matched with the typed
  text as a pattern, which finds what was typed if and only if it holds no wildcard
  (`SearchTheory.RawNameIsLiteralExactly`, `APercentSignFindsEveryRawName`).
- **One's own account.** An update is refused for the caller's own account whatever it changes
  (`LastAdmin.OwnAccountIsRefusedExactly`, `ARenameOfOneselfIsRefused`).
- **Archived conflicts.** Restoring reports a property as archived exactly if it is not, archiving
  exactly if it is (`RegisterTheory.ArchivedReasonExactly`).
- **The first retry delay** of the schedule is never used (`AttachmentTheory.EveryFailureCounts`).

## Model

| member | source | states |
|---|---|---|
| ChunkedFormat.NoncesDistinctExactly | api/internal/crypto/stream.go:243-248 | the chunk nonces of one run are pairwise distinct if and only if there are at most 2^32 of them |
| ChunkedTheory.StreamAcceptsExactly | api/internal/crypto/stream.go:129-168 | exactly which pairs of a source and a declared length the writer reports as written |
| ChunkedTheory.OwnOutputOpensExactly | api/internal/crypto/stream.go:129-237 | of the runs the writer accepted, the reader opens exactly those whose declared length was true, and gives the source back |
| ChunkedTheory.AcceptedButUnreadable | api/internal/crypto/stream.go:129-168 | one byte declared as two is reported as written and never opens |
| ChunkedTheory.CutStreamHasWrittenItsFrames | api/internal/crypto/stream.go:173-237 | a genuine stream cut after k frames is refused with exactly its first k chunks written |
| ChunkedTheory.WritesNothingExactly | api/internal/crypto/stream.go:204-237 | for any ciphertext and header, a reading writes nothing if and only if its first chunk does not open, and of a length that is not zero it then fails |
| ChunkedTheory.RunSealsNoEmptyPlaintext | api/internal/crypto/stream.go:129-168 | a run seals no empty chunk, so the condition above applies to every file it wrote |
| ChunkedTheory.APartialFile | api/internal/crypto/stream.go:173-237 | one byte more than a chunk, cut after the first frame: refused with a whole chunk written |
| ChunkedTheory.NoForgedPlaintext | api/internal/crypto/stream.go:204-237 | for any ciphertext, prefix, chunk size and claimed length under the key, only a chunk-aligned part of the source is written, and success on a nonzero length means all of it, with its true length |
| ChunkedTheory.EveryTurnIsAligned | api/internal/crypto/stream.go:207-233 | after every turn of the reader's loop, what is written so far is a chunk-aligned part of the source |
| ChunkedTheory.AllTurns | api/internal/crypto/stream.go:207-233 | the turns together write exactly what the whole reading does |
| ChunkedTheory.FinalMeansExact | api/internal/crypto/stream.go:142-156 | an accepted run marks a chunk final only if the declared length was right |
| StreamHeader.HeaderReadsBack | api/internal/crypto/stream.go:266-334 | reading undoes writing, whatever follows and consuming exactly the header, if and only if the header fits the layout |
| StreamHeader.ParsedIsWritten | api/internal/crypto/stream.go:266-334 | bytes that parse are the bytes the writer would have written for what they parse to |
| ChunkedStream.BuildChunkNonce | api/internal/crypto/stream.go:243-248 | the array filled in place is the chunk's nonce |
| ChunkedStream.BuildChunkAad | api/internal/crypto/stream.go:255-262 | the array filled in place is the index and the final flag |
| ChunkedStream.WriteHeader | api/internal/crypto/stream.go:266-289 | appends the header's encoding to the sink |
| ChunkedStream.ReadHeader | api/internal/crypto/stream.go:293-334 | parses the header, with the error of the first missing part, and leaves the source after it, or, failing, after a wrong magic number or at its end |
| ChunkedStream.SealChunks | api/internal/crypto/stream.go:129-168 | the loop and the probe seal and write exactly the chunks of the format, and end as it says |
| ChunkedStream.OpenChunks | api/internal/crypto/stream.go:204-237 | the loop writes, fails and leaves unread exactly what the format's reader does |
| ChunkedStream.Envelope.Stream | api/internal/crypto/stream.go:91-171 | header, frames, what the keys have sealed, and the verdict on the declared length |
| ChunkedStream.Envelope.OpenStream | api/internal/crypto/stream.go:178-238 | every check in order, then the chunk loop under the unwrapped key; the sink is untouched if and only if no first chunk opens |
| ChunkedStream.OpenStreamWritesNothingExactly | api/internal/crypto/stream.go:178-238 | for any header and bytes, opening a file writes nothing if and only if its key or its first chunk does not open |
| ChunkedStream.OwnFileOpensExactly | api/internal/crypto/stream.go:91-334 | a file just written: its header is found again, and the rest opens exactly if the declared length was true |
| ChunkedStream.NoFileForges | api/internal/crypto/stream.go:178-238 | any header and bytes carrying the same wrapped key yield no plaintext but a chunk-aligned part of the source |
| Bytes.U16Bytes | api/internal/crypto/stream.go:267 | two bytes, the high one first: each byte is the digit of its place in base 256 |
| Bytes.U32Bytes | api/internal/crypto/stream.go:243-288 | the same for four bytes |
| Bytes.U64Bytes | api/internal/crypto/stream.go:286-288 | the same for eight |
| StreamLayout.NonceLayout | api/internal/crypto/stream.go:243-248 | the prefix, cut or padded with zeros, in the first eight bytes of a nonce; the last four weigh up to the counter |
| StreamLayout.AadLayout | api/internal/crypto/stream.go:255-262 | the first four bytes weigh up to the counter, the fifth is one for the last chunk and zero for any other |
| StreamLayout.HeaderLayout | api/internal/crypto/stream.go:266-289 | where every field of a header lies: 50 47, then each length in front of what it measures, all integers with the high byte first |
| StreamLayout.StreamHeadLayout | api/internal/crypto/stream.go:91-128 | the header a stream is given: a prefix of eight bytes, the chunk size as 00 01 00 00, the declared length in the last eight bytes |
| StreamLayout.ChunkIs | api/internal/crypto/stream.go:129-160 | chunk k of a run is numbered k, holds the k-th 65536 bytes of the source, and is final exactly if it ends at the declared length |
| StreamLayout.StreamFaults | api/internal/crypto/stream.go:129-168 | the writer reports "short" exactly if a source of whole chunks ends before the declared length, and "long" exactly if it has more than the chunks that length takes |
| StreamLayout.WrongMagicExactly | api/internal/crypto/stream.go:293-303 | a header is refused for its magic number exactly if its first two bytes are not 50 47 |
| StreamLayout.CutHeaderIsRefused | api/internal/crypto/stream.go:293-334 | a header cut at any byte is refused for the part that byte belongs to |
| StreamLayout.TurnFaults | api/internal/crypto/stream.go:204-237 | each turn of the reader: done, too much plaintext, too few bytes, a chunk that does not verify, or on with the next |
| StreamLayout.OpenFileFaults | api/internal/crypto/stream.go:178-203 | exactly when each of the five checks in front of the loop refuses a file |
| Text.NormaliseName | api/internal/httpx/property_write_handlers.go:20-40 | the builder loop collapses every run of blanks to one space and trims |
| Text.NormalisedNameIsStable | api/internal/httpx/property_write_handlers.go:20-40 | a stored name has single spaces only and normalising it again changes nothing |
| Text.NormalisedNameKeepsWords | api/internal/httpx/property_write_handlers.go:20-40 | a stored name has the words of the trimmed one, one space between any two and none around |
| Text.TrimIsTheMiddle | api/internal/httpx/property_write_handlers.go:21 | trimming takes white space off the two ends and nothing else |
| Text.SpacesAre | api/internal/httpx/property_write_handlers.go:21-29 | the code points trimming takes off, and the four the builder loop collapses |
| Text.DigitsAre | api/internal/identity/canonical.go:58-87 | each of the ten digits U+0660 to U+0669 becomes the Western digit of its value, and no other character changes |
| Canonical.EasternToWesternDigits | api/internal/identity/canonical.go:58-87 | the builder loop replaces exactly the ten Eastern digits |
| Canonical.StripCombiningMarks | api/internal/identity/canonical.go:132-144 | the loop drops exactly the combining marks |
| Canonical.PassesAreOne | api/internal/identity/canonical.go:108-124 | the passes after NFKC together replace each character by itself, none disturbing another |
| Canonical.DigitScriptDoesNotMatter | api/internal/identity/canonical.go:89-130 | digits typed in either script give the same canonical form |
| Canonical.MarksDoNotMatter | api/internal/identity/canonical.go:89-144 | a mark or a tatweel inserted anywhere in the text after NFKC leaves the canonical form as it was |
| Canonical.VariantsDoNotMatter | api/internal/identity/canonical.go:89-130 | one letter swapped for a variant of it anywhere in the text after NFKC leaves the canonical form as it was |
| Canonical.LettersSettle | api/internal/identity/canonical.go:108-124 | the letter passes done twice change nothing more |
| Canonical.LetterIs | api/internal/identity/canonical.go:108-124 | what becomes of a single character, by code point |
| Canonical.CanonicalIsLowered | api/internal/identity/canonical.go:126-129 | the case mapping comes last: a canonical form has nothing left to fold |
| Canonical.CompatibleFormsDoNotMatter | api/internal/identity/canonical.go:98-106 | texts NFKC does not tell apart have one canonical form |
| RegisterStore.DiffAuditMaps | api/internal/httpx/property_audit_diff.go:105-133 | both sides of the diff hold exactly the keys that differ, null standing for absence |
| RegisterStore.ChangedSensitiveFields | api/internal/httpx/property_audit_diff.go:135-153 | exactly the fields whose decrypted value changed |
| RegisterStore.DiffPropertyAuditStates | api/internal/httpx/property_audit_diff.go:89-103 | the before and after payloads of two register states |
| RegisterViews.DiffPatches | api/internal/httpx/property_audit_diff.go:105-133 | the after side of a diff, applied as a patch, turns the old map into the new one |
| RegisterOutcomes.DiffNamesExactly | api/internal/httpx/property_audit_diff.go:105-133 | the diff names a key if and only if the two sides differ at it |
| RegisterOutcomes.SecretsNamedExactly | api/internal/httpx/property_audit_diff.go:135-153 | a sensitive field is named if and only if its text, or whether it has one, changed |
| RegisterOutcomes.SealedChangesAreFinal | api/internal/httpx/property_audit_diff.go:135-153 | an accepted update records a sensitive field, which bars its undo, if and only if it changed some sensitive text |
| RegisterStore.Register.NewPropertyAuditState | api/internal/httpx/property_audit_diff.go:20-38 | reads the state of one property that audit rows compare |
| RegisterStore.Register.AuditCustomValues | api/internal/httpx/property_audit_diff.go:40-59 | separates public values from decrypted sensitive ones |
| RegisterStore.Register.ReadCustomValues | api/internal/properties/custom_value_store.go:193-272 | every stored value of a property, each once, each multiselect gathered into one entry |
| RegisterStore.Register.DeleteCustomValues | api/internal/properties/custom_value_store.go:82-90 | both value tables without the property's rows, all others kept |
| RegisterStore.Register.DeleteCustomValuesForFields | api/internal/properties/custom_value_store.go:30-47 | both value tables without the named fields of the property |
| RegisterStore.Register.SaveInput | api/internal/properties/custom_value_store.go:92-190 | the upsert of one value, sealed if its field is sensitive; refused for an unknown choice |
| RegisterStore.Register.SaveCustomValues | api/internal/properties/custom_value_store.go:66-80 | all inputs in order, or a failure |
| RegisterStore.Register.BuildInputs | api/internal/httpx/property_custom_value_helpers.go:56-104 | the request's values against the definitions, or refused |
| RegisterStore.Register.UpdateProperty | api/internal/properties/store.go:284-327 | the guarded update of one row, or which error it reports |
| RegisterStore.Register.UpdateCode | api/internal/properties/store.go:329-379 | the guarded code change, a code held by another row refused |
| RegisterStore.Register.ArchiveRow | api/internal/properties/store.go:381-419 | the guarded archiving of one row |
| RegisterStore.Register.RestoreRow | api/internal/properties/store.go:421-456 | the guarded restoring of one row |
| RegisterStore.Register.WriteAudit | api/internal/audit/writer.go:105-175 | appends one row to the log and changes nothing else |
| RegisterStore.Register.CountReversalsOf | api/internal/audit/writer.go:384-393 | the number of rows that reverse a record |
| RegisterStore.Register.GenerateCode | api/internal/properties/code.go:55-73 | the first free code of at most five drawn |
| RegisterTheory.ChosenCodeIsFree | api/internal/properties/code.go:38-73 | a code given to a new property is well formed and held by no other |
| RegisterTheory.ArchivedReasonExactly | api/internal/properties/store.go:381-455 | restoring reports an archived conflict if and only if the property is not archived, archiving if and only if it is, whatever the version |
| RegisterValues.PublicAfterAll | api/internal/properties/custom_value_store.go:66-190 | after saving the values of a request, a public field has what the entries of the request say, in order: text, flag, choice or set of choices |
| RegisterValues.SecretAfterAll | api/internal/properties/custom_value_store.go:92-130 | and a sensitive field has the last text an entry gives it, sealed |
| RegisterValues.EachFieldIsItsEntry | api/internal/httpx/property_custom_value_helpers.go:56-104 | in a request that names each field once, a field has a value exactly if its entry carries the operand of its kind, and the value is that operand; a field nobody names has none |
| RegisterValues.SavedExactly | api/internal/properties/custom_value_store.go:66-190 | values that passed the check are stored exactly if every choice they name exists |
| RegisterRequests.GeneratedCodeIs | api/internal/properties/code.go:55-65 | a generated code is P- and the number drawn, with zeros in front up to three digits |
| RegisterRequests.CreationIs | api/internal/httpx/property_write_handlers.go:42-193 | the new row, its code, its values and its audit row, read off the request |
| RegisterRequests.ModificationIs | api/internal/httpx/property_write_handlers.go:195-352 | name and lookups as asked for, the version up by one, every value exactly as the request says, and nothing else changed |
| RegisterRequests.CodeChangeIs | api/internal/httpx/property_write_handlers.go:354-445 | the code as typed, trimmed, in Western digits, and its canonical form |
| RegisterRequests.ArchivingIs | api/internal/httpx/property_write_handlers.go:447-550 | the moment, the actor, and the note of the request, trimmed, or none if it is blank |
| RegisterRequests.RestoringIs | api/internal/httpx/property_write_handlers.go:552-641 | the archive columns cleared, the version up by one |
| RegisterOutcomes.CreatedExactly | api/internal/httpx/property_write_handlers.go:42-193 | exactly when a creation is accepted, and exactly when each reason refuses it |
| RegisterOutcomes.ModifiedExactly | api/internal/httpx/property_write_handlers.go:195-352 | the same for an update: bad request, not found, archived, version, unknown choice |
| RegisterOutcomes.CodeChangedExactly | api/internal/httpx/property_write_handlers.go:354-445 | the same for a code change; an unknown property counts as a conflict of versions |
| RegisterOutcomes.ArchivedExactly | api/internal/httpx/property_write_handlers.go:447-550 | the same for an archiving; a note of more than 500 characters is refused |
| RegisterOutcomes.RestoredExactly | api/internal/httpx/property_write_handlers.go:552-641 | the same for a restoring |
| RegisterStore.Register.HandleCreateProperty | api/internal/httpx/property_write_handlers.go:42-193 | outcome and whole new state of a creation |
| RegisterStore.Register.HandleUpdateProperty | api/internal/httpx/property_write_handlers.go:195-352 | outcome and whole new state of an update, its audit row included; a refusal changes nothing |
| RegisterStore.Register.HandleChangePropertyCode | api/internal/httpx/property_write_handlers.go:354-445 | the same for a code change |
| RegisterStore.Register.HandleArchiveProperty | api/internal/httpx/property_write_handlers.go:447-550 | the same for an archiving |
| RegisterStore.Register.HandleRestoreProperty | api/internal/httpx/property_write_handlers.go:552-641 | the same for a restoring |
| RegisterStore.Register.ResolvePropertyIdForUndo | api/internal/httpx/audit_undo_helpers.go:205-218 | the property an undo is aimed at |
| RegisterStore.Register.ResolvePropertyIdByCode | api/internal/httpx/audit_undo_helpers.go:220-242 | the holder of a code, if there is one |
| RegisterStore.Register.InputsFromAudit | api/internal/httpx/audit_undo_helpers.go:73-158 | succeeds exactly if every recorded value can be restored, and then saving the inputs restores all of them |
| RegisterStore.Register.UndoPropertyModified | api/internal/httpx/audit_undo_handler.go:139-246 | outcome and whole new state of undoing a modification |
| RegisterStore.Register.UndoPropertyArchived | api/internal/httpx/audit_undo_handler.go:248-308 | the same for an archiving |
| RegisterStore.Register.UndoPropertyRestored | api/internal/httpx/audit_undo_handler.go:310-381 | the same for a restoring |
| RegisterStore.Register.UndoPropertyCodeChanged | api/internal/httpx/audit_undo_handler.go:383-452 | the same for a code change |
| RegisterStore.Register.HandleUndoAuditRecord | api/internal/httpx/audit_undo_handler.go:25-88 | the refusals in order, then the undo of the record's own kind |
| RegisterViews.RestoreFieldsPatches | api/internal/properties/custom_value_store.go:30-80 | deleting the recorded fields and saving their recorded values patches the public values: set, removed for null, untouched elsewhere |
| RegisterViews.RestoreFieldsKeepsSecrets | api/internal/properties/custom_value_store.go:30-80 | the same leaves every sensitive value as it was |
| RegisterTheory.UndoIsThreeWayMerge | api/internal/httpx/audit_undo_handler.go:139-452 | an accepted undo, in whatever later state, sets exactly what the record's before side names on one property and leaves the rest, sensitive values included |
| RegisterOutcomes.UndoAcceptedExactly | api/internal/httpx/audit_undo_handler.go:25-452 | an undo is accepted if and only if its record is an ordinary one not yet reversed, its property is found, and that property is in a state to take back what was recorded |
| RegisterOutcomes.UndoRefusedExactly | api/internal/httpx/audit_undo_handler.go:47-75 | exactly when an undo is refused as already undone, or for being of an undo |
| RegisterOutcomes.SensitiveRefusedExactly | api/internal/httpx/audit_undo_handler.go:139-160 | and exactly when for a sensitive text |
| RegisterOutcomes.UndoMissesExactly | api/internal/httpx/audit_undo_handler.go:248-452 | exactly when for the property being active, or archived |
| RegisterOutcomes.UndoRecords | api/internal/httpx/audit_undo_handler.go:139-452 | the reversal logs what the undo found beside what it put back |
| RegisterHistory.EveryReachableStateIsValid | api/internal/properties/store.go:219-463 | over every run: unique codes with matching canonical forms, archive columns set together, values that fit their fields, reversals that point backward, once, never at a reversal |
| RegisterHistory.StepIsItsPatch | api/internal/httpx/property_write_handlers.go:195-641 | an accepted write is exactly the patch its own audit row records, on one property, with the version up by one |
| RegisterHistory.ReplayReproducesTheRegister | api/internal/httpx/property_write_handlers.go:243-336 | in every reachable state, replaying a property's audit rows from its creation gives its public state |
| RegisterHistory.OneWriterPerVersion | api/internal/properties/store.go:284-463 | of two writes that expect the same version, the second is refused whatever lies between |
| RegisterHistory.UndoLandsWhereTheCodeIs | api/internal/httpx/audit_undo_helpers.go:205-242 | an undo is aimed at a property if and only if it holds the recorded code now |
| RegisterHistory.ReusedCodeMisleadsUndo | api/internal/httpx/audit_undo_helpers.go:205-242 | after a code has changed hands, undoing the first holder's record is aimed at the second |
| RegisterExample.AMisledUndo | api/internal/httpx/audit_undo_handler.go:139-246 | such a run from the empty register: created, renamed, its code changed and taken by another; undoing the renaming is accepted and gives the other property the first one's old name, and changes nothing else |
| RegisterUndo.UndoAccepted | api/internal/httpx/audit_undo_handler.go:139-452 | undoing a plain edit is accepted in every state that looks as it did right after it |
| RegisterUndo.UndoSteppedBack | api/internal/httpx/audit_undo_handler.go:139-452 | undone at once, every property looks as before the edit, sensitive values included |
| RegisterUndo.UndoingARunRestoresTheStart | api/internal/httpx/audit_undo_handler.go:109-452 | undoing the records of any run of plain edits last to first is always accepted and restores the starting look and the sensitive values of every property |
| Like.EscapedSearchIsLiteral | api/internal/identity/canonical.go:30-34 | for all strings, an escaped query between percent signs matches exactly the texts that contain it |
| Like.EscapedTextTakesItself | api/internal/identity/canonical.go:30-34 | escaped text in a pattern takes exactly itself off the front of a text |
| Like.UnescapedSearchIsNot | api/internal/identity/canonical.go:24-34 | without the escaping a lone percent sign finds a text that does not contain it |
| Like.TypedSearchIsLiteralExactly | api/internal/properties/search_store.go:171-183 | a query put between percent signs unescaped matches exactly the texts that contain it if and only if it holds no percent sign, underscore or backslash |
| Like.ClosedByPercent | api/internal/properties/search_store.go:143-183 | no search pattern ends in an unpaired escape, which the server would refuse |
| SearchCompiler.BuildSearchInputs | api/internal/properties/search_store.go:72-115 | accepts exactly the filters on known, non-sensitive fields with a suiting operator, and otherwise reports the first one at fault |
| SearchFilters.FilterAcceptedExactly | api/internal/properties/search_store.go:72-115 | of the filters on known fields that are not sensitive, exactly six pairs of operator and type are let through; the error for each of the others |
| SearchFilters.AcceptedIfSatisfiable | api/internal/properties/search_store.go:93-115 | an operator other than isFalse is let through if and only if some value its field can hold satisfies it with some operand |
| SearchFilters.UntickedExactly | api/internal/properties/search_store.go:106-109 | isFalse is left to checkboxes, where it holds exactly of one saved without a tick |
| SearchFilters.FiltersReadWhatReadersSee | api/internal/properties/search_store.go:323-388 | a filter let through holds exactly of the properties whose value, as readers see it, is what the operator asks for |
| SearchCompiler.BuildCustomFilter | api/internal/properties/search_store.go:323-388 | grows joins, conditions, arguments and the next number by one filter, or refuses it |
| SearchCompiler.BuildChoices | api/internal/properties/search_store.go:365-385 | one EXISTS for each choice |
| SearchCompiler.CompileSearch | api/internal/properties/search_store.go:131-223 | the whole clause building, filter by filter |
| SearchTheory.CompilesExactly | api/internal/properties/search_store.go:323-388 | of all filters, exactly those without their operand are refused at this stage |
| SearchTheory.SearchRunsExactly | api/internal/properties/search_store.go:206-246 | both statements run, with distinct aliases and as many arguments as placeholders, if and only if each includesAll filter names one choice |
| SearchTheory.TwoChoicesNeverRun | api/internal/properties/search_store.go:365-385 | a search for two choices of one field compiles to a statement that is refused |
| SearchTheory.CompiledSearchMeans | api/internal/properties/search_store.go:131-223 | evaluating the emitted joins and conditions against the emitted arguments selects exactly the properties that satisfy every box and filter |
| SearchTheory.SearchFindsExactly | api/internal/properties/search_store.go:120-223 | the same for every statement that runs |
| SearchFilters.BlankFinds | api/internal/properties/search_store.go:131-137 | the empty search finds exactly the properties that are not archived, or all |
| SearchFilters.FreeTextFinds | api/internal/properties/search_store.go:139-145 | free text finds exactly those whose name or code contains it, canonical forms compared |
| SearchFilters.DocumentTextFinds | api/internal/properties/search_store.go:147-166 | document text finds exactly those with an attachment whose normalised text contains it |
| SearchFilters.YesFinds | api/internal/properties/search_store.go:187-193 | "yes" finds exactly the properties with an attachment |
| SearchFilters.NoFinds | api/internal/properties/search_store.go:187-193 | and "no" those without |
| SearchTheory.JoinStep | api/internal/properties/search_store.go:333-364 | a join under a new alias narrows the selection to properties whose value for the field satisfies the condition |
| SearchTheory.SealedTextIsNotSearched | api/internal/properties/search_store.go:30-32 | what sealed values say has no influence on what any statement selects |
| SearchTheory.StoredTextIsFoundExactly | api/internal/properties/search_store.go:328-339 | the statement compiled from a contains filter with a stored text selects its property if and only if the text contains its canonical form |
| SearchTheory.AStoredTextIsMissed | api/internal/properties/search_store.go:328-339 | with any canonical form that folds case, a stored "A" is not found by typing it |
| SearchTheory.TickedOrNotExactly | api/internal/properties/search_store.go:351-364 | of the statements compiled for ticked and not ticked, one selects a property, never both, if and only if its box was ever saved |
| SearchTheory.RawNameIsLiteralExactly | api/internal/properties/search_store.go:171-183 | names not yet normalised are matched literally if and only if the typed text holds no wildcard |
| SearchTheory.APercentSignFindsEveryRawName | api/internal/properties/search_store.go:171-183 | typing a percent sign finds every such name |
| SearchPages.AListingExists | api/internal/properties/search_store.go:225-246 | for any statement there is a listing of exactly what it selects, in the order asked for |
| SearchPages.OrderedIsUnique | api/internal/properties/search_store.go:245 | and only one: the order by name and id leaves no ties |
| SearchPages.PagesRebuildListing | api/internal/properties/search_store.go:124-129 | the first pages put end to end are the beginning of the listing |
| SearchPages.PageShows | api/internal/properties/search_store.go:124-129 | page n of size 1 to 100 shows that many entries, or what is left, from where the pages before it end |
| SearchPages.OddPagesShow | api/internal/properties/search_store.go:124-129 | any other size is taken for 25, any page below 1 for the first |
| SearchPages.PagesShowTheSelection | api/internal/properties/search_store.go:124-246 | every page is determined, and enough pages show exactly the selected properties, each once, in order |
| SearchSql.EvalStable | api/internal/properties/search_store.go:315-321 | a condition depends on neither later arguments nor other aliases |
| LastAdmin.CountLocked | api/internal/identity/invariants.go:54-80 | the count refuses exactly when the target is the only row locked |
| LastAdmin.Accounts.DecideUpdate | api/internal/httpx/user_handlers.go:271-302 | the current row read, the effective values, and the refusals that need no lock |
| LastAdmin.Accounts.LockNext | api/internal/identity/invariants.go:44-66 | one row of the locking scan, locked even if it no longer qualifies and is dropped |
| LastAdmin.Accounts.Decide | api/internal/identity/invariants.go:54-80 | the verdict over the locked rows |
| LastAdmin.Accounts.UpdateAccount | api/internal/identity/store.go:126-150 | sets the named columns of the row's latest version, holding its lock |
| LastAdmin.Accounts.CommitUpdate | api/internal/httpx/user_handlers.go:373-376 | the committed row, the locks released, an administrator kept if one was counted |
| LastAdmin.StepKeepsInv | api/internal/identity/invariants.go:30-81 | every step keeps: counted rows stay locked and administrators, unchecked changes only raise, checked ones spare a counted row |
| LastAdmin.CarefulRunsKeepAnAdmin | api/internal/identity/invariants.go:20-81 | in every interleaving in which no check passes on an empty scan, every committed state has an active administrator |
| LastAdmin.LockingThePoolIsEnough | api/internal/identity/invariants.go:20-81 | checks made with every active administrator locked are such, so the rule holds |
| LastAdmin.CommitLosesTheRuleExactly | api/internal/identity/invariants.go:44-81 | a commit leaves no active administrator if and only if its check passed on an empty scan, its target is the only active administrator left, and its change makes it none |
| LastAdmin.RuleHoldsExactly | api/internal/identity/invariants.go:20-81 | in every interleaving from any accounts with an administrator: there is one at every moment if and only if no such commit is taken |
| LastAdmin.ThePoolCanEmpty | api/internal/identity/invariants.go:44-74 | an interleaving of three updates after which there is none |
| AccountUpdates.AppliedIs | api/internal/identity/store.go:126-150 | what an update names is set - true reactivates - and what it leaves out is kept |
| AccountUpdates.AloneIsAllowed | api/internal/httpx/user_handlers.go:271-376 | an update nobody gets in the way of changes nothing, wherever it stops, or else was allowed - account found, not the caller, an administrator left if there was one - and set what it names on that account alone |
| AccountUpdates.AllowedIsDone | api/internal/httpx/user_handlers.go:271-376 | and every update that is allowed goes through |
| LastAdmin.OwnAccountIsRefusedExactly | api/internal/identity/invariants.go:30-33 | on reading its target, an update is refused if and only if the target is the caller, whatever it changes |
| LastAdmin.ARenameOfOneselfIsRefused | api/internal/identity/invariants.go:30-33 | an administrator changing neither role nor state of their own account is refused |
| Utf8Cap.CapText | api/internal/attachments/worker.go:354-370 | the loop over characters returns the capped text and whether it was cut |
| Utf8Cap.CappedIsLongest | api/internal/attachments/worker.go:352-370 | the cap keeps whole characters and as many as fit |
| Utf8Cap.CutIsAtACharacter | api/internal/attachments/worker.go:352-370 | the byte after the cut begins a character |
| Utf8Cap.Utf8Widths | api/internal/attachments/worker.go:352-370 | how many bytes a character takes, and what the first may be |
| Utf8Cap.Utf8Spells | api/internal/attachments/worker.go:352-370 | and that together they spell its code point |
| AttachmentStore.Attachments.ClaimNext | api/internal/attachments/worker.go:154-189 | claims a due row that no other due row precedes in the order of the queue, passing over locked ones, or there is none |
| AttachmentStore.Attachments.FinishRun | api/internal/attachments/worker.go:97-152 | each outcome of the extractor, up to its next commit; the delay index is in bounds |
| AttachmentStore.Attachments.UpsertText | api/internal/attachments/worker.go:270-316 | the text row in the shape the claim asked for |
| AttachmentStore.Attachments.SetOutcome | api/internal/attachments/worker.go:245-335 | the terminal state that follows a stored text |
| AttachmentStore.Attachments.ReadForCorrection | api/internal/httpx/attachment_content_handler.go:342-363 | the flag as a correction reads it |
| AttachmentStore.Attachments.WriteCorrection | api/internal/httpx/attachment_content_handler.go:365-431 | the corrected text stored in the shape that reading asked for |
| AttachmentStore.Attachments.ReadForRequeue | api/internal/httpx/attachment_content_handler.go:465-492 | refused if the text is corrected, then if the row is queued |
| AttachmentStore.Attachments.WriteRequeue | api/internal/httpx/attachment_content_handler.go:493-526 | queued unless it is queued or gone by then; the mark is not looked at again |
| AttachmentStore.Attachments.LoadForEdit | api/internal/httpx/attachment_handlers.go:447-469 | the flag as an edit reads it; refused for an archived property and for a demotion |
| AttachmentStore.Attachments.BeginEdit | api/internal/httpx/attachment_handlers.go:480-509 | the row held from here on and, for a promotion, the readable text found |
| AttachmentStore.Attachments.CommitEdit | api/internal/httpx/attachment_handlers.go:480-529 | the flag written as asked for or as it was read, and the text that was read sealed in place of the one there, unless it was empty |
| AttachmentStore.Attachments.GetText | api/internal/httpx/attachment_content_handler.go:235-292 | the text a reader gets |
| AttachmentTheory.RetriesAreBounded | api/internal/attachments/worker.go:88-152 | in every run: at most three runs a queueing, three attempts, and a next time only on a queued row |
| AttachmentTheory.EveryFailureCounts | api/internal/attachments/worker.go:122-135 | a failing run adds one attempt, waits as scheduled, and the third is the last |
| AttachmentRequests.ClaimedExactly | api/internal/attachments/worker.go:154-189 | a row is claimed if and only if it is queued, its time has come and nobody holds it; the claim keeps its flag and its attempts |
| AttachmentRequests.ExtractionEnds | api/internal/attachments/worker.go:136-335 | an extracted text ends, with its row, as done - an empty one as empty - with no next time, the longest fitting part of it stored as the claim asked for, and marked cut exactly if some is missing |
| AttachmentRequests.NothingExtracted | api/internal/attachments/worker.go:102-121 | an unsuitable file ends as not eligible, one of too many pages as too large, and no text is stored |
| AttachmentRequests.FailureEnds | api/internal/attachments/worker.go:122-135 | a failed run is taken up again after two minutes, the next after ten, and the third is the last |
| AttachmentRequests.CorrectionEnds | api/internal/httpx/attachment_content_handler.go:342-431 | a correction is what readers get from then on, trimmed and marked |
| AttachmentRequests.RequeueEnds | api/internal/httpx/attachment_content_handler.go:465-526 | exactly when a re-extraction is let through, and that it is due at once with all its attempts |
| AttachmentRequests.EditEnds | api/internal/httpx/attachment_handlers.go:447-529 | an edit can make an attachment sensitive, never the other way; it seals the text and changes nothing for readers |
| AttachmentRequests.ReadersGet | api/internal/httpx/attachment_content_handler.go:235-292 | readers get whatever is readable, and a sealed text of a sensitive attachment only |
| AttachmentStore.QueueOrder | api/internal/attachments/worker.go:154-189 | no next time first, then the earlier one, then the older row |
| AttachmentSealing.CalmRunsAreConfidential | api/internal/attachments/worker.go:270-316 | if no promotion overlaps another request that goes by the flag, a sensitive attachment has no readable text but the empty one, another no sealed text, and what every request has read is still so |
| AttachmentSealing.FoundExactly | api/internal/httpx/attachment_content_handler.go:581-591 | document search finds exactly the readable texts that contain the canonical query |
| AttachmentSealing.EditKeepsFlagAndText | api/internal/httpx/attachment_handlers.go:480-529 | in such runs no edit changes a text any reader gets or takes the flag away |
| AttachmentSealing.EditChangesTheTextExactly | api/internal/httpx/attachment_handlers.go:480-529 | an edit changes what readers get of its attachment if and only if it seals another text than the one there, or seals none and changes the flag beside a sealed text; of no other attachment |
| AttachmentLeaks.StoringLeaksExactly | api/internal/attachments/worker.go:270-316 | storing leaves readable text on a sensitive attachment if and only if the claim predates the promotion and the stored text is not empty |
| AttachmentLeaks.CorrectionLeaksExactly | api/internal/httpx/attachment_content_handler.go:351-431 | a correction does if and only if it read the flag before the promotion and the text is not blank |
| AttachmentLeaks.EditLeaksExactly | api/internal/httpx/attachment_handlers.go:480-529 | an edit does if and only if it leaves the flag set, has no text to seal, and finds a readable one there when it commits |
| AttachmentLeaks.StepLeaksExactly | api/internal/attachments/worker.go:270-316 | from a state without such a text, a step leads to one if and only if it is one of these three |
| AttachmentLeaks.SealedExactly | api/internal/attachments/worker.go:270-316 | in every interleaving: no sensitive attachment has a readable text but the empty one at any moment if and only if no step ever meets one of the three conditions |
| AttachmentLeaks.CalmRunsAreSealed | api/internal/attachments/worker.go:270-316 | runs in which no promotion overlaps another request that goes by the flag are such |
| AttachmentLeaks.SensitiveIsNeverFound | api/internal/httpx/attachment_content_handler.go:534-591 | in every run that never leaks, a query that is not empty once normalised never finds a sensitive attachment |
| AttachmentLeaks.EditUncoversExactly | api/internal/httpx/attachment_handlers.go:475-491 | an edit takes the flag off a sensitive attachment if and only if it promotes nothing and had read it before the promotion; a text sealed by then is read by nobody |
| AttachmentLeaks.FlagsKeptExactly | api/internal/httpx/attachment_handlers.go:475-491 | in every interleaving: no attachment goes from sensitive back if and only if no such edit is committed |
| AttachmentExamples.ALeakingRun | api/internal/attachments/worker.go:88-152 | a run in which that happens |
| AttachmentExamples.ALeakingCorrection | api/internal/httpx/attachment_content_handler.go:351-431 | a run for the second |
| AttachmentExamples.ALeakingPromotion | api/internal/httpx/attachment_handlers.go:499-529 | a run for the third |
| AttachmentExamples.ALostCorrection | api/internal/httpx/attachment_handlers.go:499-529 | a run in which a promotion puts an older text back in place of a correction |
| AttachmentExamples.AnUndonePromotion | api/internal/httpx/attachment_handlers.go:475-491 | a run in which an edit undoes a promotion |
| AttachmentCorrections.RunKeepsSettled | api/internal/httpx/attachment_content_handler.go:465-506 | a corrected text whose row is not queued, nor about to be, survives every run without a deletion, another correction or a promotion that clears the mark |
| AttachmentCorrections.CorrectionIsSafeExactly | api/internal/httpx/attachment_content_handler.go:351-506 | a correction just written survives all such runs if and only if its row was not queued and no request that had found it uncorrected is about to queue it |
| AttachmentExamples.AQueuedCorrection | api/internal/attachments/worker.go:154-189 | a run in which a correction on a queued row is overwritten |
| AttachmentExamples.AnOvertakenCheck | api/internal/httpx/attachment_content_handler.go:465-526 | a run in which a row that was not queued is, after its correction, by a request that had looked before it |
| SignInThrottle.RequiredWaitIs | api/internal/auth/delay.go:12-25 | the wait is min(60, 2^(n-1)) seconds for every n from 1 on |
| SignInThrottle.RemainingWait | api/internal/auth/delay.go:30-45 | at most 60 whole seconds, and none exactly when the wait has passed |
| SignInHistory.Schedule | api/internal/auth/delay.go:12-25 | 1, 2, 4, 8, 16, 32 and then 60 seconds |
| SignInHistory.RemainingWaitIs | api/internal/auth/delay.go:30-45 | what is still owed, rounded up to whole seconds |
| SignInThrottle.DelaySchedule.Consult | api/internal/auth/delay_schedule.go:21-40 | the wait owed, a forgotten row deleted |
| SignInThrottle.DelaySchedule.RecordFailure | api/internal/auth/delay_schedule.go:44-58 | stale rows swept, the user's count up by one |
| SignInHistory.SuccessClears | api/internal/httpx/auth_handlers.go:47-134 | getting in clears the record of that user and of nobody else |
| SignInHistory.FailureAddsOne | api/internal/auth/delay_schedule.go:44-58 | a failure adds one to what still counts, and drops what is past its time |
| SignInHistory.ForgottenExactly | api/internal/auth/delay_schedule.go:16-58 | a record counts for fifteen minutes, to the nanosecond |
| SignInHistory.TallyIsKept | api/internal/auth/delay_schedule.go:16-64 | in every history the row of a user says how many failures were recorded since that user last got in, or since a gap of more than fifteen minutes, and when the last was |
| SignInHistory.FirstAfterSuccess | api/internal/httpx/auth_handlers.go:47-134 | the first failure after a success counts one and costs one second, whatever came before |
| SignInThrottle.FailuresAreBounded | api/internal/auth/delay_schedule.go:16-64 | after any history, in any window of T seconds in which a user does not get in, 60 times the failures recorded is at most 357 + T |
| SignInThrottle.TheBoundIsTight | api/internal/auth/delay.go:12-45 | for every n from 7 on there is such a window, of exactly 60n - 357 seconds, in which n failures are recorded |
| Sessions.SweepingIsInvisible | api/internal/auth/sweep.go:14-24 | every request of a run is answered as in the same run without its sweeps |
| Sessions.AnsweredExactly | api/internal/auth/session.go:53-89 | a request is answered exactly with the session its history makes good: issued for the token within eight hours, used within half an hour, not revoked |
| Sessions.LiveIs | api/internal/auth/session.go:70-82 | half an hour idle, eight hours in all, to the nanosecond |
| Sessions.RevokedIsFinal | api/internal/auth/session.go:92-95 | a revoked session is never answered again |
| Sessions.RevokeAllEndsSessions | api/internal/auth/session.go:99-102 | cutting an account off ends every session it has at that moment |
| Sessions.SessionTable.IssueSession | api/internal/auth/session.go:38-51 | a new row, tokens staying unique |
| Sessions.SessionTable.LookupSession | api/internal/auth/session.go:57-82 | the live session of a token, or none |
| Sessions.SessionTable.RequireSession | api/internal/httpx/middleware.go:43-77 | look-up, then the account, then the touch, in one transaction |
| Sessions.SessionTable.RevokeAllForAccount | api/internal/auth/session.go:99-102 | every session of the account revoked |
| Sessions.SessionTable.SweepExpired | api/internal/auth/sweep.go:14-24 | exactly the sessions that are not live are removed |
| SignIn.Handler.HandleSignIn | api/internal/httpx/auth_handlers.go:47-134 | answer, delay table, session issued and audit rows of a sign-in, in the order of the checks; the session issued is found by its token, and a success leaves the user no record |
| SignIn.EntriesAre | api/internal/httpx/auth_handlers.go:60-134 | which audit row each outcome leaves, in the order of the checks |

## Left out

- Passwords, roles and who may call what: every step is available to the caller the handler would let through.
- Timestamps and accounts on rows (`created_at`, `updated_by` and the like), except where a decision reads them.
- JSON, HTTP status codes and messages: an outcome is one of a handful of reasons.
- Errors of the database, the disk and the random source, except where the worker gives up on a write.
- Internals of AES-GCM, SHA-256, Argon2, NFKC and the extraction tools.
- Undo of lookups, custom fields, choices and attachment descriptions.
- Two undo requests racing on one record, and two workers on one row.
- `ListProperties`, the audit query and the dashboard: their clause building is the search's without joins.
- RegisterStore.Register.HandleUndoAuditRecord: of several recorded custom values that cannot be restored, which one is reported depends on map order; the model has one reason for all of them.
- LastAdmin.Accounts.UpdateAccount: display names, audit rows and the sessions a deactivation revokes are not in the model.
- SearchTheory.JoinStep: the SQL is a syntax tree with numbered placeholders, not text.
