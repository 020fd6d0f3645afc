# RadioLedger: a verified model of its log exchange and account logic

RadioLedger keeps amateur radio logs. This Dafny project models the parts of it that have to
be exactly right and proves what they promise:

- **ADIF files** (`pkg/adif`). A streaming parser with a header scan, read-ahead fields, an
  EOF flag, a record counter and a byte offset; a writer that rewrites modes and sorts fields
  stably; the mutable record between them. The parser is a class proved against a reference
  reading of the bytes (`AdifSyntax.Lex`, then marker-delimited groups), that reading against a
  grammar of ADI files in any spelling to which every byte string belongs, and the writer is a
  class proved against the text of an export. On top of that: for every input it is said
  exactly which records come back and with which error; no field is lost, repeated or
  moved, except that an error cuts the rest off; parsing undoes printing
  under an exact condition, and one import and export brings any
  file whatsoever into a normal form that further rounds leave byte for byte alone, as long as
  its values fit and its records are below the limit.
- **Mode tables.** MODE/SUBMODE normalisation over any coherent set of tables, and the proof
  that the built-in tables are coherent.
- **Login lockout.** Counter, lock and sweeper as objects, and a sliding-window bound over
  every run.
- **Smaller algorithms with a sharp property.** Maidenhead locators (two implementations),
  base-62 API keys, greedy line wrapping, the Goose version scan, keyset paging, preference
  filtering, callsign decomposition, and the merge of extra JSON fields in map order.

## Conventions

A Go string is a sequence of bytes; here it is a `string` whose characters stand for the
bytes with the same codes. Case folding, trimming, letters and digits are those of ASCII.
Go integers that can overflow are bounded where the code bounds them: lengths and cursors go
through a 64-bit `ParseInt`, and where a length is printed values are no longer than a Go
string can be (`GoSized`). Objects that the source updates in place are classes; a Go slice
that shares a backing array is an array with a length. The mode tables and the field order
are parameters of the ADIF results; `ModeCatalogue` and `RadioLedger` supply the built-in ones.

## Where the code and its documentation differ

- The comment on headerless files (`pkg/adif/parser.go:83-84` and `111-116`) says that all
  content is records and that the fields before the first EOR are record 0. The code joins
  them to the next group instead. The model follows the code; `RecordBoundaries` says what is
  returned, `HeaderlessAsDocumented` exactly when the comment is met, and
  `HeaderlessRecordsMerge` gives a file of two records that is read as one.
- `ErrTooManyRecords` is documented for files that exceed the limit. The code also returns it
  for a file with exactly the limit whose last record is terminated, as in
  `ExactlyTheLimit`; `SucceedsIff` and `RoundTripIff` give the exact conditions.
- An export reads back to the same bytes only if no record is without fields
  (`ExportIsFixpoint`): such a record is written as a bare `<EOR>` and not read back
  (`EmptyRecordIsLost`).
- At longitude +180 or latitude +90 the returned locator does not contain the point
  (`ContainsIff`; `EdgesWrap` has a point on each edge).
- A callsign with an empty segment in the place of a prefix or suffix loses its slash
  (`RecomposeIff`; `TrailingSlashLost` has "W1AW/").

## Model

| member | source | states |
|---|---|---|
| `AdifParser.Parser.FindNextTag` | pkg/adif/parser.go:296-316 | Skips to the next `<` and returns the tag up to `>` or to the end of the data; the tokens still to come are those of that tag and what follows. `offset` counts every byte consumed. |
| `AdifParser.Parser.ReadFieldValue` | pkg/adif/parser.go:351-365 | Exactly n bytes, or all that is left together with the end-of-file flag; nothing for n = 0. |
| `AdifParser.Parser.ReadStep` | pkg/adif/parser.go:239-280 | One round of the scan takes exactly one token off the reference token sequence, or skips a malformed tag; an over-length field carries the current offset. |
| `AdifParser.Parser.ScanFields` | pkg/adif/parser.go:231-292 | The fields before the first marker, the marker or error, and the tokens left, as the reference scan defines them. |
| `AdifParser.Parser.Header` | pkg/adif/parser.go:86-127 | BOM, header scan, prefetch and EOF flag follow the reference header step; a second call returns the cached result and changes nothing. |
| `AdifParser.Parser.NextGroup` | pkg/adif/parser.go:152-215 | The loop of Next: prefetched fields are joined to the next group, groups without fields are skipped, EOF is remembered. |
| `AdifParser.Parser.Next` | pkg/adif/parser.go:133-215 | One step of the reference machine on every header/no-header/EOF/limit path; when the header has not been parsed, it is parsed and kept first. The record is a fresh object. |
| `AdifParser.ParseAll` | pkg/adif/parser.go:392-411 | Header, records and error equal the reference parse of the bytes, for every input and every options; terminates. |
| `AdifReference.NextTakesGroup` | pkg/adif/parser.go:152-215 | On every state a call of Next takes exactly the first non-empty pending group, whatever it skips, or ends with the error or end of file that the input ends with. |
| `AdifGrammar.ContentMeans` | pkg/adif/parser.go:320-348 | A tag means what its parts mean, each trimmed on its own, for every spelling with no, one or more colons; without a name, or with a length that is no number from 0 up, it means nothing. |
| `AdifGrammar.EveryContent` | pkg/adif/parser.go:320-348 | Every tag is spelled in one of these ways, so the parse of each tag is settled. |
| `AdifGrammar.FileLexes` | pkg/adif/parser.go:231-292 | A file given as text and tags in any case and padding, with values behind field tags and any way of breaking off, reads as it is meant. |
| `AdifGrammar.EveryFile` | pkg/adif/parser.go:231-292 | Every byte string is such a file. |
| `AdifGrammar.AnyMarker` | pkg/adif/parser.go:251-259 | EOR and EOH are markers in any case and padding. |
| `AdifGrammar.MarksRespelled` | pkg/adif/parser.go:251-259 | Spelling the markers of a file differently changes nothing in its parse. |
| `AdifGrammar.SameMeaningSameParse` | pkg/adif/parser.go:231-292 | Files that mean the same are parsed alike: text between tags, malformed tags, padding and case do not matter. |
| `AdifGrammar.TooLongReported` | pkg/adif/parser.go:261-267 | The first over-length field is reported with its name and length at the byte behind its tag, unless the record limit ends the parse before. |
| `AdifExamples.AnySpelling` | pkg/adif/parser.go:251-259 | A file of a header and two records, with every tag in any spelling, is parsed into these two records under upper-case names. |
| `AdifExamples.LowerCaseFile` | pkg/adif/parser.go:251-259 | The same for the bytes of a file in lower case. |
| `AdifGuarantees.BomIgnored` | pkg/adif/parser.go:92-99 | A byte-order mark moves the position of an error by three bytes and changes nothing else. |
| `AdifReference.RecordsAreGroups` | pkg/adif/parser.go:133-215 | From any parser state the records until an error are the non-empty groups closed before the first over-length field or the end of the file, in order, cut by the record limit; says exactly which error ends the run. |
| `AdifGuarantees.RecordBoundaries` | pkg/adif/parser.go:102-127 | What every parse returns, over-length fields included: with EOH as first marker the header is the first group and the records are the other non-empty groups; otherwise the header is empty and the first two groups are joined; an over-length field before any marker fails the header. |
| `AdifGuarantees.HeaderlessAsDocumented` | pkg/adif/parser.go:83-84 | The parse of a headerless file is the documented one (all content is records, one per group) if and only if one of its first two groups is there and empty; for every limit and every end of the file. |
| `AdifExamples.HeaderlessRecordsMerge` | pkg/adif/parser.go:111-116 | The bytes of two records without a header are parsed as one record with the fields of both. |
| `AdifGuarantees.Conservation` | pkg/adif/parser.go:86-292 | On arbitrary bytes header fields followed by record fields are a prefix of the file's fields, and all of them on success: none dropped, duplicated or moved. At most MaxRecords records. |
| `AdifGuarantees.SucceedsIff` | pkg/adif/parser.go:140-150 | A parse reaches EOF if and only if no field is over-length and the records are fewer than the limit, or exactly the limit with the last one unterminated. |
| `AdifExamples.ExactlyTheLimit` | pkg/adif/parser.go:148-150 | A file with one terminated record is refused under a limit of one, after that record. |
| `AdifRoundTrip.GroupsOfRecord` | pkg/adif/doc.go:12-17 | Fields followed by a marker are one group, and the groups after it are those of the rest. |
| `AdifRoundTrip.GroupsOfTail` | pkg/adif/parser.go:239-244 | Fields that run to the end of the file are the last group. |
| `AdifRoundTrip.GroupsOfBroken` | pkg/adif/parser.go:261-267 | Fields in front of an over-length field are lost with it, and nothing comes after it. |
| `Utf8.Sanitize` | pkg/adif/parser.go:369-378 | Valid text is left alone; other text is what the legacy decoder gives if that is valid UTF-8, and otherwise repaired; the result is always valid UTF-8. |
| `Utf8.ValidIff` | pkg/adif/parser.go:370-372 | Text is valid exactly when it is the UTF-8 encoding of some code points, surrogates excluded. |
| `Utf8.RepairsRun` | pkg/adif/parser.go:377-378 | The repair keeps valid text and turns each run of bad bytes into one U+FFFD. |
| `Utf8.ToValidIsValid` | pkg/adif/parser.go:377-378 | Replacing bad runs by U+FFFD yields valid UTF-8. |
| `AdifSyntax.WithDefaults` | pkg/adif/parser.go:70-76 | Each option that is not positive gives way to a positive default, and each positive one is kept. |
| `GoStrings.TrimSpaceIs` | pkg/adif/parser.go:321-336 | Trimming takes exactly the white space off both ends. |
| `GoStrings.CapitalLetters` | pkg/adif/parser.go:251-259 | Folding case takes each small letter to its capital. |
| `AdifRecord.Record.Get` | pkg/adif/record.go:21-29 | The value of the first field with the upper-cased name, or empty. |
| `AdifRecord.Record.Has` | pkg/adif/record.go:44-52 | Whether any field has the upper-cased name. |
| `AdifRecord.Record.Set` | pkg/adif/record.go:56-65 | Changes the value of the first such field in place, keeping its type and position, or appends one. |
| `AdifRecord.Record.Delete` | pkg/adif/record.go:69-82 | Compacts the backing array in place to the other fields in their order; returns how many went. |
| `AdifRecord.Record.Clone` | pkg/adif/record.go:85-89 | A fresh record on a fresh array with the same fields. |
| `AdifCanonical.WithValueNamed` | pkg/adif/record.go:56-65 | Setting a name changes only the first field under that name, seen name by name. |
| `AdifRecord.WithValueInPlace` | pkg/adif/record.go:56-65 | Setting changes the first field of the name where it stands, between unchanged neighbours, and keeps its type. |
| `AdifRecord.WithValueAtEnd` | pkg/adif/record.go:56-65 | Setting a name that is not there appends an untyped field. |
| `AdifCanonical.WithoutNamed` | pkg/adif/record.go:69-82 | Deleting a name removes all fields under it and no other. |
| `AdifModes.BuildModeAliases` | pkg/adif/mode.go:148-155 | Whatever order the submodes are visited in, the table is the explicit aliases plus every other submode as its own alias. |
| `AdifModes.NormalizeCloses` | pkg/adif/mode.go:189-223 | Over coherent tables an accepted pair is canonical and stays as it is when normalised again; the canonical pairs are exactly the pairs left alone. |
| `AdifModes.NormalizeMeaning` | pkg/adif/mode.go:173-223 | Accepted pairs described by the tables alone: the pair the tables give for the mode, with a submode belonging to it, or a canonical mode given under MFSK; all else refused. |
| `AdifModes.AloneMeans` | pkg/adif/mode.go:173-197 | A mode given alone, in any case and padding, becomes the pair of its alias, or itself if it is canonical, or is refused. |
| `AdifModes.AliasTable` | pkg/adif/mode.go:78-156 | The alias table has exactly the explicit aliases as they are and every other submode standing for itself under its mode. |
| `ModeCatalogue.SubmodeAlone` | pkg/adif/mode.go:28-71 | Every built-in submode given as the mode becomes its mode with itself as the submode. |
| `ModeCatalogue.AliasAlone` | pkg/adif/mode.go:79-142 | Every built-in alias given as the mode becomes the pair it is written with. |
| `ModeCatalogue.ModeAlone` | pkg/adif/mode.go:12-24 | Every built-in mode stays as it is. |
| `ModeCatalogue.BuiltInIsCoherent` | pkg/adif/mode.go:12-142 | The built-in modes, submodes and aliases are coherent: entries normalised, every alias leads to a canonical pair, no canonical mode is an alias. |
| `RadioLedger.ModesClose` | pkg/adif/mode.go:173-223 | Normalisation closure and its exact fixed points for the built-in tables, for all strings. |
| `AdifModes.CanonicalizeRecordMode` | pkg/adif/mode.go:228-245 | The record's fields become their canonical form in place; true exactly when the pair was accepted. |
| `AdifCanonical.CanonicalByName` | pkg/adif/mode.go:228-245 | Canonicalisation touches only MODE and SUBMODE: first MODE set, SUBMODE set or all removed. |
| `AdifCanonical.CanonicalSettles` | pkg/adif/mode.go:228-245 | A canonicalised record reads back as an unknown or canonical pair, also with repeated MODE or SUBMODE fields. |
| `AdifSort.BeforeIsStrictTotalOrder` | pkg/adif/writer.go:177-198 | The comparison is irreflexive, transitive, and ties only equal names. |
| `AdifSort.SortLayout` | pkg/adif/writer.go:148-150 | Table fields first in table order, then others alphabetically, APP_ fields last and alphabetically; alphabetical means that the first different byte decides and a prefix comes first. |
| `AdifSort.StringLessIff` | pkg/adif/writer.go:183-197 | The string comparison of the sort is that alphabetical order. |
| `AdifSort.SortSpec` | pkg/adif/writer.go:151-205 | The canonical order is the one and only sorted list that keeps the fields under each name in their order, and a permutation. |
| `AdifSort.SortEqualIff` | pkg/adif/writer.go:151-205 | Two field lists sort to the same list if and only if they have the same fields under each name. |
| `AdifSort.SortFields` | pkg/adif/writer.go:151-205 | The in-place sort of a copy equals that canonical order. |
| `AdifCanonical.PermutedExportAlike` | pkg/adif/writer.go:30-31 | Records with the same distinct-named fields in any order are exported as the same fields in the same order. |
| `AdifWriter.Writer.WriteField` | pkg/adif/writer.go:133-146 | Appends the tag with decimal byte length and optional type, the value and a newline. |
| `AdifWriter.Writer.WriteHeader` | pkg/adif/writer.go:59-95 | Appends preamble, standard fields, extras and EOH once; nothing when already written or switched off. |
| `AdifWriter.Writer.WriteRecord` | pkg/adif/writer.go:99-120 | Appends the canonicalised, sorted fields of a copy and EOR, after a header if none was written; the record itself is not changed. |
| `AdifWriter.Writer.WriteRecords` | pkg/adif/writer.go:123-130 | Appends the records in order, after a header if none was written; without records nothing happens, and no header is written. |
| `AdifWriter.FormatRecord` | pkg/adif/writer.go:209-214 | The text of one record without a header. |
| `AdifWriter.FormatAll` | pkg/adif/writer.go:217-243 | The text of header and records, with the header's standard fields replaced. |
| `AdifExamples.ExportBytes` | pkg/adif/writer.go:59-146 | The bytes of the whole export of one record, line by line. |
| `AdifWriter.ExtrasNamed` | pkg/adif/writer.go:225-234 | The extra header fields are all fields but the three standard ones, by upper-cased name. |
| `GoStrings.ParseFormatInt` | pkg/adif/parser.go:338-341 | Decimal text of a 64-bit number parses back to it; numbers beyond the range are refused. |
| `GoStrings.ParseSigned` | pkg/adif/parser.go:338-341 | A sign or none and digits with any leading zeros parse to the number they denote if it is in the 64-bit range. |
| `GoStrings.ParseOnlySigned` | pkg/adif/parser.go:338-341 | Nothing else parses. |
| `GoStrings.DigitsAppend` | pkg/adif/parser.go:338-341 | The number that digits denote is decimal place value. |
| `AdifRoundTrip.TagRoundTrip` | pkg/adif/parser.go:320-348 | The written tag of a well-formed field parses to its name, length and type. |
| `AdifRoundTrip.FieldRoundTrip` | pkg/adif/writer.go:133-146 | A written field that fits is read back unchanged, whatever its value contains; one that does not fit is an over-length field. |
| `AdifExport.ParseUndoesFormat` | pkg/adif/writer.go:217-243 | Parsing an export whose values fit yields the standard header fields, the extras, and the non-empty records in export form, as far as the record limit allows. |
| `AdifExport.RoundTripIff` | pkg/adif/parser.go:144-150 | The round trip is lossless if and only if every value fits, the records are strictly fewer than the limit, and none is without fields. |
| `AdifExport.ExportIsPrintable` | pkg/adif/writer.go:99-120 | Canonicalising and sorting well-formed records and replacing the standard header fields leave every field well-formed, so that what the round trip needs of the caller is stated on the caller's own fields. |
| `AdifCanonical.ExportedIdempotent` | pkg/adif/writer.go:99-120 | Canonicalising and sorting an exported record changes nothing. |
| `AdifExport.ReadsBackIff` | pkg/adif/parser.go:140-150 | Reading an export back ends without an error if and only if its values fit and its non-empty records are below the limit; it then gives exactly those records in export form. |
| `AdifExport.ExportIsFixpoint` | pkg/adif/writer.go:217-243 | Whenever an export reads back without an error, exporting the result again with the same version gives the same bytes if and only if no record was without fields. |
| `AdifExamples.EmptyRecordIsLost` | pkg/adif/writer.go:99-120 | The export of one record without fields reads back with no record and exports to other bytes. |
| `AdifImport.ParsedIsImportable` | pkg/adif/parser.go:231-292 | Whatever the bytes, every record returned is non-empty and every field can be written back. |
| `AdifImport.AnyFileNormalizes` | pkg/adif/parser.go:392-411 | For arbitrary input bytes, even when their parse stops at an error: the export of what was read imports again if and only if its values fit and its records are below the limit; it then gives back the export form of everything read, and exports to the same bytes. |
| `RadioLedger.FilesNormalize` | pkg/adif/writer.go:217-243 | The same with the built-in mode tables and field order. |
| `ExtraFields.MergeExtraFields` | api/internal/handler/export.go:575-598 | The record after visiting the extra fields in a given order. |
| `ExtraFields.MergedNamed` | api/internal/handler/export.go:585-597 | A name keeps the fields it has; otherwise the first visited key that offers a non-blank value wins. |
| `ExtraFields.OrderIrrelevantIff` | api/internal/handler/export.go:585-597 | The merged fields do not depend on the map order if and only if no two keys put different values under one free name. |
| `ExtraFields.DistinctKeysExportAlike` | api/internal/handler/export.go:585-597 | With distinct normalised keys every map order exports the same fields in the same order. |
| `ExtraFields.BuiltDistinct` | api/internal/handler/export.go:439-527 | Whatever a row sets, before and after its mode is canonicalised, and whatever extra fields are merged in, no name occurs twice in the record or in its export. |
| `ExtraFields.LastAssignmentWins` | api/internal/handler/export.go:529-535 | After a list of assignments a record holds, under each name, the trimmed value of the last non-blank one, or what it held before. |
| `ExtraFields.BuiltHolds` | api/internal/handler/export.go:439-527 | What a built record holds under each name: what was set last, else what canonicalising left of what was set before, else the first extra field that offers a value. |
| `Lockout.Tracker.StateFor` | api/internal/handler/auth.go:678-685 | Finds the state of an address or adds a zero one. |
| `Lockout.Tracker.LoginLockedUntil` | api/internal/handler/auth.go:687-705 | Reports an active lock, and clears an expired one with its counter; other addresses are untouched. |
| `Lockout.Tracker.RecordFailedLoginAttempt` | api/internal/handler/auth.go:707-723 | Counts a failure outside a lock and locks for 15 minutes at the fifth; other addresses are untouched. |
| `Lockout.Tracker.ResetLoginAttempts` | api/internal/handler/auth.go:725-727 | Forgets one address. |
| `Lockout.Tracker.Sweep` | api/internal/handler/auth.go:729-752 | In whatever order the map is visited, exactly the stale entries go. |
| `Lockout.Tracker.Attempt` | api/internal/handler/auth.go:604-655 | Gate, verdict and recording in the order of the handler, as one atomic step. |
| `Lockout.VerdictDecides` | api/internal/handler/auth.go:617-655 | Without a lock a login is accepted if and only if the password is right, gets a server error if and only if the database fails, and is unauthorised if and only if the user or password is missing or wrong. |
| `Lockout.LoginUpdates` | api/internal/handler/auth.go:617-655 | Without a lock a success forgets the address, a failure is counted and the fifth locks for 15 minutes, a database error counts nothing, and other addresses stay. |
| `Lockout.RefusedIffLocked` | api/internal/handler/auth.go:605-614 | A login is refused if and only if the address is locked, whatever the password, and the lock and counter stay. |
| `Lockout.AlwaysOk` | api/internal/handler/auth.go:241-246 | In every reachable state counters are 0..4, and 0 while a lock is set. |
| `Lockout.SlidingWindow` | api/internal/handler/auth.go:233-238 | Over every run of logins and sweeps, 15 minutes without a success hold at most five recorded failures; after the fifth the address is locked for the rest of them. |
| `Lockout.LockHasCause` | api/internal/handler/auth.go:707-723 | A lock exists only after five recorded failures with no success between, and ends 15 minutes after a recorded failure. |
| `Lockout.LockStands` | api/internal/handler/auth.go:687-705 | Over every run: until its end no login of anybody and no sweep removes, extends or shortens a lock, and every login for the address is refused. |
| `Lockout.RefusalHasCause` | api/internal/handler/auth.go:695-698 | Over every run: a login is refused only after five recorded failures with no success between, one of them in the last 15 minutes. |
| `Lockout.RightPasswordGetsIn` | api/internal/handler/auth.go:605-655 | Over every run: the right password is accepted and clears the address, unless five failures have been recorded since the last success and one of them in the last 15 minutes. |
| `Lockout.SweepLeavesRecent` | api/internal/handler/auth.go:729-752 | Over every run: after a sweep only addresses are left that are locked or had a login attempt in the last 30 minutes. |
| `Lockout.CountersBounded` | api/internal/handler/auth.go:687-723 | Under every interleaving of the critical sections, with any clocks, counters stay in 0..4. |
| `Gridsquare.MixedRadix` | pkg/gridsquare/gridsquare.go:46-98 | On the half-open ranges the six characters are the 18/10/24 digits of floor((lng+180)*12) and floor((lat+90)*24). |
| `Gridsquare.ContainsIff` | pkg/gridsquare/gridsquare.go:53-71 | The cell contains the point if and only if neither coordinate is at its upper end. |
| `Gridsquare.EdgesWrap` | pkg/gridsquare/gridsquare.go:53-71 | A point at +180 and a point at +90 with the locators they get, which do not contain them. |
| `Gridsquare.RefusedIff` | pkg/gridsquare/gridsquare.go:35-45 | Exactly what is out of range is refused, and the error names what is wrong, precision first. |
| `Gridsquare.PrecisionPrefix` | pkg/gridsquare/gridsquare.go:73-96 | The 4-character locator is a prefix of the 6-character one. |
| `Gridsquare.WithinHalfCell` | pkg/gridsquare/gridsquare.go:105-137 | The centre of the locator is within half a cell of the point. |
| `Gridsquare.LocatorRoundTrip` | pkg/gridsquare/gridsquare.go:105-177 | From a valid locator to its centre and back is the identity up to case. |
| `Maidenhead.LatLonToGrid` | api/internal/geo/maidenhead.go:20-70 | Upper-cased, the result is that of the other package at precision 6 for every coordinate in range, edges included; empty out of range. |
| `Maidenhead.GridToLatLon` | api/internal/geo/maidenhead.go:76-114 | The centre the other package computes for the trimmed text, and (0, 0) exactly when that rejects it: no locator has its centre there. |
| `Base62.EncodeBase62` | api/internal/handler/apikeys.go:301-318 | At least 43 alphabet characters whose base-62 value is the big-endian value of the bytes; exactly 43 for up to 32 bytes. |
| `Base62.FortyThreeDigits` | api/internal/handler/apikeys.go:312-314 | 62^42 < 256^32 < 62^43: the width is enough and not more than needed. |
| `Base62.EncodingInjective` | api/internal/handler/apikeys.go:301-318 | Byte strings of one length with the same text are equal. |
| `Base62.EncodingUnique` | api/internal/handler/apikeys.go:301-318 | The text of a given width with that value is unique. |
| `Base62.GenerateApiKey` | api/internal/handler/apikeys.go:292-298 | Every key is 46 characters: the prefix and the encoding of the random bytes. |
| `Soapbox.WrapSoapbox` | api/internal/handler/cabrillo.go:315-332 | The lines are the joined groups of the greedy filling. |
| `Soapbox.GreedyOptimal` | api/internal/handler/cabrillo.go:314-332 | The groups are the words in order, each fits or is one over-long word, and no other such grouping has fewer lines. |
| `Soapbox.GreedyUnique` | api/internal/handler/cabrillo.go:320-330 | The greedy lines are the one wrapping in which the first word of each later line does not fit behind the line before. |
| `Soapbox.WordsSplit` | api/internal/handler/cabrillo.go:316-316 | White space separates words: the words on both sides of it are all the words. |
| `Soapbox.WordAlone` | api/internal/handler/cabrillo.go:316-316 | Text without white space is one word. |
| `Soapbox.WrapKeepsWords` | api/internal/handler/cabrillo.go:315-332 | Reading the words off the lines gives exactly the words of the text. |
| `GooseVersion.CurrentGooseVersion` | api/internal/handler/health.go:134-167 | The loop with its skip set computes the recursive scan. |
| `GooseVersion.ScanIsTopOfStack` | api/internal/handler/health.go:134-167 | For every history of ups and downs the scan of its log is the top of the stack of applied versions, or 0. |
| `Pagination.List` | api/internal/handler/confirmations.go:161-186 | One page after the cursor, and a next cursor exactly when more rows follow. |
| `Pagination.CursorRoundTrip` | api/internal/handler/confirmations.go:104-107 | A cursor reads back as the id it was made from. |
| `Pagination.PagesAreComplete` | api/internal/handler/confirmations.go:94-186 | Following the cursors from the first page ends, and the pages are all rows in order, each exactly once, all full but the last. |
| `Pagination.ClientSeesAll` | api/internal/handler/confirmations.go:94-97 | The same for whatever page size is asked for, and no page is longer than the maximum. |
| `Pagination.PageSizeOf` | api/internal/handler/common.go:132-145 | A number is taken as the page size, up to the maximum of 100; 0 and numbers beyond 64 bits give the default. |
| `Pagination.PageSizeDefault` | api/internal/handler/common.go:132-145 | Blank, negative and malformed sizes give the default. |
| `Pagination.AfterSelects` | api/internal/handler/confirmations.go:133-136 | The rows behind a cursor are those with a smaller id, or all without a cursor. |
| `Pagination.BadCursorIsNone` | api/internal/handler/confirmations.go:104-107 | A malformed or non-positive cursor gives the first page. |
| `Pagination.HugeCursor` | api/internal/handler/confirmations.go:104-107 | A cursor beyond 64 bits reads as the largest or smallest 64-bit number. |
| `KnownValues.CollectKnown` | api/internal/handler/band_mode_visibility.go:300-309 | The known values among the given ones, each once. |
| `KnownValues.FilterKnownValues` | api/internal/handler/band_mode_visibility.go:295-316 | The subsequence of the known list, without repetitions, of the values that occur, whatever their order and repetition. |
| `KnownValues.SelectionUnique` | api/internal/handler/band_mode_visibility.go:311-313 | A selection in the order of the known list is determined by its members, so the choice of sort does not matter. |
| `Callsign.LooksLikeCall` | pkg/adif/callsign.go:127-142 | At least three characters with a digit and a letter among them. |
| `Callsign.ExtractWpxPrefix` | pkg/adif/callsign.go:159-189 | The shortest prefix ending in a digit after a letter, or the whole call if there is none. |
| `Callsign.WpxPrefixUnique` | pkg/adif/callsign.go:146-149 | That description determines the prefix. |
| `Callsign.ParseCallsign` | pkg/adif/callsign.go:73-123 | The parts by the slashes of the trimmed upper-case callsign: which is the base, the prefix and the suffix for one, two and more segments; the WPX prefix is the override or that of the base. |
| `Callsign.PartsAreUnique` | pkg/adif/callsign.go:79-113 | That description determines the parts of every callsign. |
| `Callsign.TwoSegments` | pkg/adif/callsign.go:87-104 | Of two segments the second is the base behind a prefix if it looks like a call and is no known suffix, and otherwise a suffix. |
| `Callsign.ManySegments` | pkg/adif/callsign.go:106-112 | Of three or more segments the first is the prefix, the second the base and the rest the suffix. |
| `Callsign.DocumentedParts` | pkg/adif/callsign.go:94-98 | VK9/W5XXX and W5XXX/P. |
| `Callsign.DocumentedPrefixes` | pkg/adif/callsign.go:151-158 | The WPX prefixes of W1AW, VE3XYZ, 3W3RR and 9A1AA. |
| `Callsign.RecomposeIff` | pkg/adif/callsign.go:79-113 | Joining the present parts gives back the callsign if and only if no segment in the place of an optional part is empty. |
| `Callsign.NothingLost` | pkg/adif/callsign.go:79-113 | When all segments are non-empty, joining the parts gives back the callsign. |
| `Callsign.TrailingSlashLost` | pkg/adif/callsign.go:79-113 | "W1AW/" is taken apart into "W1AW" alone. |

## Left out

- Lockout.SlidingWindow: each login is one atomic step on a clock that does not go back; in the code the gate and the recording are separate critical sections, for which only the counter bound (`Lockout.CountersBounded`) is stated.
- Utf8.Sanitize: the Windows-1252 table belongs to a library and is a parameter; the results hold for every decoder.
- GoStrings.ParseFormatInt: the sign and range rules of 64-bit decimal parsing are modelled; other bases and underscores cannot occur.
- Gridsquare.MixedRadix: coordinates are real numbers, so floating-point rounding, NaN and infinities are not modelled.
- AdifSort.SortFields: the library's stable sort is an insertion sort here; `SortSpec` shows that any stable sort gives the same result.
- KnownValues.FilterKnownValues: the same holds for its sort, by `SelectionUnique`.
- Pagination.List: the rows are those the SQL query selects for one user and set of filters, and stay fixed while a client pages.
- ExtraFields.MergeExtraFields: decoding the JSON and turning values into text come before the model; the order of the map is a parameter.
- ExtraFields.BuiltDistinct: which fields a row sets, and how its numbers and times are written, are parameters.
- Lockout.Tracker.Attempt: request validation, the database lookup and the password comparison are a parameter with five outcomes; the issue of a token after an accepted password, and its failure, come after the model.
- Non-ASCII case folding and white space, and rune decoding in callsigns.
- Context cancellation, and reader or writer errors other than end of file.
- `FieldsPerLine`, which the writer never reads.
- Great-circle distance between locators.
- HTTP handlers, SQL, workers, encryption, tokens, user interfaces, role tables and field catalogues.
