# rubackup decision core in Dafny

rubackup runs a list of backup *entries* once a day. For each enabled entry it does the following:
- it creates today's backup file with a backup module, when today fits the entry's backup schedule;
- it optionally encrypts that file;
- it writes a `sha256` checksum sidecar next to it and sets the file's ownership and mode;
- it lists the backups in the local backup directory and deletes those that no longer fit the daily / weekly / monthly retention schedule (*rotation*);
- when the entry has a remote module, it lists the backups in an S3 bucket, uploads the local backups the bucket lacks, and rotates the remote backups too.

The run ends with a summary and an optional notification. All of this is driven by a YAML configuration, which is validated first. The YAML is split into fragments that are merged, then checked against *validation rules*: mandatory options, defaults, a validator per option, and no unknown options.

This project models the decision logic of that system:
- the retention classifier and the date arithmetic under it;
- the backup record (`Bakfile`) and checksum sidecar naming;
- the local and remote catalog builders;
- the per-entry pipeline and the run aggregation;
- the configuration rule engine, its validators and the loading and merging of configuration fragments;
- the small helpers around them (`path_to_command`, `compress_to_extension`, the LVM snapshot naming).

It proves the properties the code promises about that logic.

How the model is laid out:
- **Pure code** becomes functions with contracts, plus lemmas relating them. This covers scheduling, naming, validators, catalogs and the rule engine.
- **Code that updates state step by step** becomes methods with loops, proved equal to those functions:
  - `process_entries` and `process_entry`;
  - the loops of `parse_and_validate_rules`, `load_category`, `load_config` and `validate_config`;
  - the listers;
  - `list_all_related_files`.
- **The backup directory** is a class, `BackupGeneric.LocalDir`. Its `entries` are changed in place by `delete`, `mkcsum` and `setperm`.
- **The S3 bucket** is a class, `RemoteS3.Bucket`. Its `objects` are changed by `send` and `delete`.

Ruby behaviour that matters is written out:
- **Dates.** Dates follow the proleptic Gregorian calendar. `Date#<<` clamps the day to the end of the target month. `wday` counts from Sunday = 0. `age` is a difference of Modified Julian Day numbers.
- **Patterns.** `^`/`$` in a pattern match at every line boundary. A pattern that is not anchored matches anywhere.
- **Hashes.** A Hash keeps its insertion order, and `h[k] = v` keeps an existing key's place.
- **Truthiness.** Only `nil` and `false` are false.
- **Exceptions.** A Ruby exception, such as a `raise`, a `NoMethodError` on `nil` or a missing method, becomes an `Err` result. Each phase of `process_entry` rescues its own exception and counts one error.
- **The rotation quirk.** `list.delete(bakfile)` inside `list.each` skips the record after each deleted one. The model reproduces this (`Rotation.Sweep`), and proves both what the pass guarantees and what it misses.
- **The weekday quirk.** `DayOfWeekValidator`'s failure message calls `Array#split`, which does not exist, so a bad day name raises instead of pushing a message. The model keeps that behaviour.

Parameters of the model:
- the collaborators of `process_entry`: the producing backup module, the encryptor, the digest and the clock (`Core.Oracle`);
- the filesystem probes of the validators (`Validators.Probes`);
- the module registry (`Validators.Registry`);
- the host name;
- what running an LVM command yields.

## Model

The model follows Ruby 3.4: `=~` is answered only by strings and `nil` (from Ruby 3.2), and `NoMethodError` messages and `Hash#inspect` use the 3.4 wording and spacing.

| member | source | states |
|---|---|---|
| Dates.Weekday | src/lib/utils/scheduling.rb:47 | `wday` is in 0..6 (Sunday 0) |
| Dates.DaysInMonth | src/lib/utils/scheduling.rb:38 | every month has 28 to 31 days |
| Dates.ShiftMonths | src/lib/utils/scheduling.rb:38 | `Date#>>` lands exactly `n` calendar months away, on the same day, clamped to the last day of the target month when the day does not exist there |
| Dates.ShiftMonthsBack | src/lib/utils/scheduling.rb:38 | `today << n` is a valid date |
| Dates.ShiftMonthsZero | src/lib/utils/scheduling.rb:38 | shifting by zero months leaves a date unchanged |
| Dates.ShiftMonthsBackMonotone | src/lib/utils/scheduling.rb:38 | going back more months never gives a later date, and going back gives a strictly earlier one |
| Dates.ParseYmd | src/lib/utils/scheduling.rb:27 | `strptime('%Y%m%d')` yields only valid dates with four-digit years |
| Dates.YmdRoundTrip | src/lib/utils/scheduling.rb:27 | writing a date as `%Y%m%d` gives eight digits that parse back to the same date |
| Scheduling.FindDated | src/lib/utils/scheduling.rb:26 | finds the leftmost position where `<basename>-` and eight digits occur, or reports that there is none |
| Scheduling.DetermineCreationDate | src/lib/utils/scheduling.rb:25-31 | succeeds exactly when the first `<basename>-` + 8-digit occurrence spells a valid date; raises otherwise |
| Scheduling.FirstDatedAtUnique | src/lib/utils/scheduling.rb:26 | the first match of the pattern is unique |
| Scheduling.CreationDateOfDatedName | src/lib/utils/scheduling.rb:25-27 | a name `<basename>-YYYYMMDD<anything>` yields that date |
| Scheduling.NoCreationDateWithoutDigits | src/lib/utils/scheduling.rb:28-30 | a name without `<basename>-` and eight digits raises |
| Scheduling.DetermineBackupSchedule | src/lib/utils/scheduling.rb:35-54 | daily iff younger than `daily` days; weekly iff not daily, on the weekday anchor and younger than `7*weekly` days; monthly only on the day-of-month anchor and after `today << monthly` |
| Scheduling.ScheduleIsFirstWindow | src/lib/utils/scheduling.rb:45-53 | the result is the first tier, in order daily, weekly, monthly, whose window holds the date; `nil` iff no window does; daily wins over matching anchors |
| Scheduling.DailyBoundary | src/lib/utils/scheduling.rb:36-45 | a backup exactly `daily` days old is not daily |
| Scheduling.OffAnchorKeptOnlyDaily | src/lib/utils/scheduling.rb:45-53 | a date on neither anchor is kept iff it is in the daily window |
| Scheduling.TodayIsDaily | src/lib/utils/scheduling.rb:36-45 | with `daily >= 1`, today classifies as daily |
| Scheduling.TodayKeptIff | src/lib/utils/scheduling.rb:36-53 | today is kept iff `daily >= 1`, or it is the weekday anchor with `weekly >= 1`, or the month-day anchor with `monthly >= 1` |
| Scheduling.ShiftBackBeforeIff | src/lib/utils/scheduling.rb:38 | `today << n` is before today iff `n >= 1` |
| Scheduling.DeeperScheduleKeepsMore | src/lib/utils/scheduling.rb:36-53 | increasing any depth never turns a kept backup into an expired one |
| Scheduling.ScheduleExamples | src/lib/utils/scheduling.rb:45-53 | with daily 7, weekly 4 and Monday as anchor, the last week is daily, the Mondays of four weeks are weekly, other days are dropped |
| Scheduling.MonthlyExamples | src/lib/utils/scheduling.rb:38-51 | with monthly 6, the 1st of a month within the last six months is monthly and an older one is dropped |
| Bakfiles.NewBakfile | src/lib/core/bakfile.rb:30-35 | a new record has no name, date or size and an empty `csum` |
| Bakfiles.Age | src/lib/core/bakfile.rb:38-40 | `age` is defined iff the record has a date, and is then the number of days from that date to today |
| Bakfiles.AgeOfToday | src/lib/core/bakfile.rb:38-40 | a backup dated today has age 0 |
| Bakfiles.SidecarNames | src/lib/core/bakfile.rb:47-50 | one `<name>.<ext>` per extension, in order |
| Bakfiles.ListAllRelatedFiles | src/lib/core/bakfile.rb:43-52 | empty without a name; otherwise the name followed by `<name>.<ext>` for each extension in `csum` order, `1 + |csum|` files in all |
| Bakfiles.RelatedFilesAreMainOrSidecar | src/lib/core/bakfile.rb:46-51 | every related file is the main file or the sidecar of a recorded extension |
| Bakfiles.StrLeIsTotalOrder | src/lib/core/bakfile.rb:56 | the string order `sort` uses is a total order |
| Sorting.InsertionSort | src/lib/core/bakfile.rb:56 | `sort` gives a sorted permutation of its input |
| Sorting.SortIgnoresOrder | src/lib/core/bakfile.rb:56 | the sorted result depends only on the multiset of values, not on their order |
| Bakfiles.SumListOfNoSidecars | src/lib/core/bakfile.rb:55-57 | an empty `csum` gives the signature `""` |
| Bakfiles.SumListIgnoresOrder | src/lib/core/bakfile.rb:56 | the signature does not depend on the order of `csum` |
| Bakfiles.SplitJoin | src/lib/core/bakfile.rb:56 | joining comma-free extensions with `,` can be split back |
| Bakfiles.JoinEmptyOnlyForNoParts | src/lib/core/bakfile.rb:56 | the joined signature is empty iff there is no extension |
| Bakfiles.PlainAfterSort | src/lib/core/bakfile.rb:56 | sorting keeps the extensions comma-free and non-empty |
| Bakfiles.SumListEqualIff | src/lib/core/bakfile.rb:55-57 | two signatures are equal iff the two `csum` lists are permutations of each other |
| Checksums.SidecarNameIsChecksum | src/lib/utils/checksums.rb:60-70 | `checksum?` accepts `<name>.<ext>` for every listed extension |
| Checksums.ChecksumNameOnOneLine | src/lib/utils/checksums.rb:59-65 | a one-line name is a checksum name iff it ends with a listed extension preceded by at least one character |
| Checksums.AnyCharacterBeforeExtension | src/lib/utils/checksums.rb:60 | the unescaped `.` lets `xsha256` count as a checksum name |
| Checksums.PlainArchiveIsNotChecksum | src/lib/utils/checksums.rb:60-64 | every one-line name that ends in none of the six extensions is not a checksum name |
| Checksums.ChecksumOnEarlierLine | src/lib/utils/checksums.rb:60 | because `$` also matches before a line break, `a.md5\nb.tgz` is a checksum name though it does not end in an extension |
| Checksums.BareExtensionIsNotChecksum | src/lib/utils/checksums.rb:60 | none of the six extensions, with nothing in front of it, is a checksum name |
| Checksums.CreateChecksum | src/lib/utils/checksums.rb:29-56 | succeeds iff the type is md5, sha1 or sha256 and the backup is readable; the sidecar is `<bakfile>.<sumtype>` holding `<digest>  <bakfile>\n`; other types raise with their message |
| Checksums.CreatedSidecarIsChecksum | src/lib/utils/checksums.rb:42-60 | every sidecar `create` writes is recognised by `checksum?` |
| Checksums.SidecarIsOneLine | src/lib/utils/checksums.rb:52-54 | the sidecar content is exactly one line |
| BackupGeneric.Lookup | src/lib/modules/backup-generic.rb:68 | finds an entry with that name, or reports that there is none |
| BackupGeneric.LookupAbsent | src/lib/modules/backup-generic.rb:68 | a name absent before an entry is found at that entry |
| BackupGeneric.Without | src/lib/modules/backup-generic.rb:83 | removing a file keeps every other entry and only those |
| BackupGeneric.FilterKeepsUniqueNames | src/lib/modules/backup-generic.rb:83 | removing entries never duplicates a name |
| BackupGeneric.PutFacts | src/lib/utils/checksums.rb:52-54 | writing a file makes its name lead to it and keeps every other entry |
| BackupGeneric.PutKeepsUniqueNames | src/lib/utils/checksums.rb:52-54 | writing a file never duplicates a name in the directory |
| BackupGeneric.LookupUnique | src/lib/modules/backup-generic.rb:68 | in a directory with unique names, the lookup finds the one entry with that name |
| BackupGeneric.BasenameWithDateRoundTrip | src/lib/modules/backup-generic.rb:45-48 | `<basename>-<curdate>` plus any extension gives back today's date, and is accepted by the listing pattern when the extension starts with `.` |
| BackupGeneric.GlobbedNameDate | src/lib/modules/backup-generic.rb:58-64 | a name the glob accepts gets the date spelled right after `<basename>-` |
| BackupGeneric.SortedCandidatesFacts | src/lib/modules/backup-generic.rb:58-60 | the candidates sorted by mtime are a permutation of the glob matches that are not checksum names, in mtime order |
| BackupGeneric.RecordContents | src/lib/modules/backup-generic.rb:61-72 | the record of a candidate holds its name, size, date and detected sidecars |
| BackupGeneric.LocalCatalogContents | src/lib/modules/backup-generic.rb:51-75 | `list` succeeds only with a backup directory, and then returns one complete record per candidate, oldest mtime first |
| BackupGeneric.DetectedSumsIff | src/lib/modules/backup-generic.rb:65-71 | an extension is recorded iff it is listed and its sidecar is a regular file |
| BackupGeneric.DeleteFilesEffect | src/lib/modules/backup-generic.rb:78-85 | deleting removes only the named files, and when nothing raised none of them is left |
| BackupGeneric.DeleteFilesSucceeds | src/lib/modules/backup-generic.rb:80-84 | deleting distinct existing non-directory files never raises |
| BackupGeneric.MkCsumResult | src/lib/modules/backup-generic.rb:88-92 | `mkcsum` returns `<file>.sha256`, a checksum name, now a regular file holding the sidecar line, and keeps every other entry |
| BackupGeneric.PermPlanShape | src/lib/modules/backup-generic.rb:95-109 | ownership changes iff owner or group is set, mode changes iff mode is set, only the two files are touched, and only when both are named |
| BackupGeneric.ApplyChangesAppend | src/lib/modules/backup-generic.rb:100-108 | applying the two blocks one after the other is applying their concatenation |
| BackupGeneric.LocalDir.constructor | src/lib/modules/backup-generic.rb:53 | the directory starts with the given entries |
| BackupGeneric.LocalDir.DetectSums | src/lib/modules/backup-generic.rb:65-71 | the push loop records exactly the detected extensions, in `list_extensions` order |
| BackupGeneric.LocalDir.ListRecord | src/lib/modules/backup-generic.rb:61-72 | the record built in the loop is the record of the candidate |
| BackupGeneric.LocalDir.List | src/lib/modules/backup-generic.rb:51-75 | `list` returns the local catalog |
| BackupGeneric.LocalDir.Delete | src/lib/modules/backup-generic.rb:78-85 | the directory afterwards is the result of deleting the related files in order, stopping at the first that raises |
| BackupGeneric.LocalDir.MkCsum | src/lib/modules/backup-generic.rb:88-92 | the directory afterwards holds the written sidecar |
| BackupGeneric.ApplyChangeFacts | src/lib/modules/backup-generic.rb:101-107 | a change raises iff its file is missing or its kind (`chown` or `chmod`) is refused; otherwise the file carries the new mode, or the configured owner and group |
| BackupGeneric.LocalDir.Change | src/lib/modules/backup-generic.rb:101-107 | one `chown`/`chmod`, raising without a directory, on a missing file, or when the system refuses that kind of change |
| BackupGeneric.LocalDir.ChangeBoth | src/lib/modules/backup-generic.rb:101-107 | the two changes of a block, the second only when the first did not raise |
| BackupGeneric.LocalDir.SetPerm | src/lib/modules/backup-generic.rb:95-109 | the directory afterwards has the planned ownership and mode changes applied |
| RemoteS3.KeyLeIsTotalPreorder | src/lib/modules/remote-aws-s3.rb:70 | the key order of the listing is a total preorder |
| RemoteS3.ListingFacts | src/lib/modules/remote-aws-s3.rb:70 | the listing is in key order, holds at most 1000 objects, all from the bucket, and the whole bucket when it is no larger |
| RemoteS3.RemoteSumsIff | src/lib/modules/remote-aws-s3.rb:77-81 | an extension is recorded iff exactly one listed object has the key `<name>.<ext>` |
| RemoteS3.CoreObjectsFacts | src/lib/modules/remote-aws-s3.rb:71 | exactly the listed keys holding `<basename>-` + 8 digits anywhere and not checksum names are kept, in listing order |
| RemoteS3.RemoteCatalogFailure | src/lib/modules/remote-aws-s3.rb:72-76 | `list` raises iff some kept key spells an invalid date |
| RemoteS3.RemoteCatalogContents | src/lib/modules/remote-aws-s3.rb:72-85 | one record per kept object, in listing order, with key, size, date and unique sidecars |
| RemoteS3.DatedKeyIsCatalogued | src/lib/modules/remote-aws-s3.rb:71 | a listed key that starts with `<basename>-` and a date, and is not a checksum name, is kept |
| RemoteS3.StripTrailingSlashes | src/lib/modules/remote-aws-s3.rb:94 | the stripped path is a prefix without a trailing `/` |
| RemoteS3.AfterLastSlash | src/lib/modules/remote-aws-s3.rb:94 | the last path component holds no `/` |
| RemoteS3.AfterLastSlashOfSuffix | src/lib/modules/remote-aws-s3.rb:94 | a slash-free name after a directory is its own last component |
| RemoteS3.BasenameOfJoin | src/lib/modules/remote-aws-s3.rb:94 | `File.basename(File.join(dir, name))` is `name` |
| RemoteS3.WithoutKeyFacts | src/lib/modules/remote-aws-s3.rb:104 | deleting a key removes exactly the objects with that key |
| RemoteS3.WithKeyOfNone | src/lib/modules/remote-aws-s3.rb:104 | selecting a key that no object carries gives nothing |
| RemoteS3.SendStoresUnderBasename | src/lib/modules/remote-aws-s3.rb:89-96 | a successful upload leaves exactly one object keyed by the file's base name, with its size, and keeps every other key |
| RemoteS3.Bucket.constructor | src/lib/modules/remote-aws-s3.rb:69 | the bucket starts with the given objects and reachability |
| RemoteS3.Bucket.DetectSums | src/lib/modules/remote-aws-s3.rb:77-81 | the push loop records exactly the uniquely present sidecar extensions, in order |
| RemoteS3.Bucket.ListRecord | src/lib/modules/remote-aws-s3.rb:73-83 | the record built in the loop is the record of the object |
| RemoteS3.Bucket.List | src/lib/modules/remote-aws-s3.rb:63-86 | `list` returns the remote catalog, and raises when the bucket cannot be reached |
| RemoteS3.Bucket.Send | src/lib/modules/remote-aws-s3.rb:89-96 | the bucket afterwards holds the upload under the file's base name |
| RemoteS3.Bucket.Delete | src/lib/modules/remote-aws-s3.rb:99-105 | removes the objects with exactly that key; a missing key is no error; an unreachable bucket raises and is unchanged |
| Rotation.SweepOutcome | src/lib/core/core.rb:179-187 | the `each`-with-`delete` pass deletes exactly `Removed` in order, and leaves the list as the untouched prefix followed by `Kept` |
| Rotation.KeptAndRemovedPartition | src/lib/core/core.rb:179-187 | a pass splits the list into what it keeps and what it deletes |
| Rotation.RemovedAreExpired | src/lib/core/core.rb:182-186 | a pass deletes only expired records |
| Rotation.LiveRecordsSurvive | src/lib/core/core.rb:182 | a record that has not expired is never deleted |
| Rotation.KeptCleanWithoutAdjacentExpired | src/lib/core/core.rb:179-187 | without two adjacent expired records, no expired record is left after the pass |
| Rotation.FirstExpiredIsRemoved | src/lib/core/core.rb:179-187 | the first expired record is always deleted |
| Rotation.SkippedNeighbourNeedsSecondPass | src/lib/core/core.rb:185 | of two adjacent expired records, the second survives the pass; rotation is not idempotent |
| Core.LocalRecordsAreComplete | src/lib/modules/backup-generic.rb:61-64 | every local record has a name and a valid date |
| Core.RemoteRecordsAreComplete | src/lib/modules/remote-aws-s3.rb:73-76 | every remote record has a name and a valid date |
| Core.EncryptStep | src/lib/core/core.rb:118-132 | step 1.2 on the directory object |
| Core.ChecksumStep | src/lib/core/core.rb:135-146 | step 1.3 on the directory object |
| Core.PermStep | src/lib/core/core.rb:149-157 | step 1.4 on the directory object |
| Core.CreateBackup | src/lib/core/core.rb:96-158 | phase 1 on the directory object |
| Core.ListLocal | src/lib/core/core.rb:164-172 | phase 2.1: the catalog, or `nil` and one error |
| Core.RotateLocal | src/lib/core/core.rb:178-191 | phase 2.2 on the directory object, with the skip-after-delete pass |
| Core.ListRemote | src/lib/core/core.rb:199-208 | phase 3.1: the remote catalog, or `nil` and one error |
| Core.SendAll | src/lib/core/core.rb:243-247 | the upload loop of one backup on the bucket object |
| Core.UploadOne | src/lib/core/core.rb:215-252 | one turn of the upload loop on the bucket object: an expired backup is passed over, otherwise its plan is sent |
| Core.UploadAll | src/lib/core/core.rb:213-256 | phase 3.2 on the bucket object |
| Core.DeleteRemote | src/lib/core/core.rb:268-271 | the deletion loop of one remote backup on the bucket object |
| Core.RotateRemote | src/lib/core/core.rb:262-278 | phase 3.3 on the bucket object, with the skip-after-delete pass |
| Core.ProcessEntry | src/lib/core/core.rb:82-282 | `process_entry` returns true iff no phase raised, and leaves the directory and the bucket as the phases make them |
| Core.CreationFacts | src/lib/core/core.rb:96-157 | nothing is created unless a backup module exists and today fits the schedule; a sidecar comes only with a backup file, a directory and the `.sha256` name; a failed producer or encryptor leaves no backup name and costs exactly one error |
| Core.FreshBackupGetsSidecar | src/lib/core/core.rb:96-146 | an unencrypted backup freshly produced into the directory gets its `sha256` sidecar |
| Core.FailedListingCascades | src/lib/core/core.rb:165-215 | a failed local listing also fails the rotation and, with a remote module, the uploads |
| Core.FailedRemoteListingCascades | src/lib/core/core.rb:201-263 | a failed remote listing also fails the remote rotation |
| Core.UnreachableUploadChangesNothing | src/lib/core/core.rb:213-256 | uploads to an unreachable bucket change nothing |
| Core.UnreachableBucketIsLeftAlone | src/lib/core/core.rb:196-279 | an unreachable bucket is left as it was, and the entry counts at least two errors |
| Core.LocalDeleteAllEffect | src/lib/core/core.rb:184 | deleting local backups removes only their related files |
| Core.LocalRotationDeletesOnlyExpired | src/lib/core/core.rb:179-187 | local rotation removes only files of expired backups, and a completed pass keeps every live backup in the catalog |
| Core.DeleteKeysEffect | src/lib/core/core.rb:268-271 | deleting keys removes only those keys; all go when nothing raised; it succeeds iff the bucket is reachable or there is no key |
| Core.RemoteDeleteAllEffect | src/lib/core/core.rb:263-273 | deleting remote backups removes only objects keyed by their related files, and all of them when nothing raised |
| Core.RemoteRotationDeletesOnlyExpired | src/lib/core/core.rb:262-278 | remote rotation deletes only objects of backups expired under the remote schedule, keeps the live ones in the catalog, and leaves none of the deleted backups' files |
| Core.SidecarNamesDifferFromName | src/lib/core/core.rb:223-224 | a sidecar name is never the main name |
| Core.UploadPlanCases | src/lib/core/core.rb:219-235 | the plan names only related files; the main file is planned iff no remote copy has the same name and size; the plan is empty iff a copy exists and, for the first one, the signatures agree or there are no sidecars |
| Core.MirroredCopyNeedsNoUpload | src/lib/core/core.rb:227-234 | a matching remote copy with the same extensions, in any order, means nothing is uploaded |
| Core.ChangedSidecarsAreUploaded | src/lib/core/core.rb:231-233 | a matching copy with other extensions means exactly the local sidecars are uploaded, in `csum` order |
| Core.SendOne | src/lib/core/core.rb:244-246 | one send keeps other keys and stores the file under its name |
| Core.SendFilesEffect | src/lib/core/core.rb:243-247 | sending keeps objects under other keys, adds only the sent keys, and gives each file a copy when nothing raised |
| Core.UploadPlanWithinRelated | src/lib/core/core.rb:219-235 | any plan lists only related files of its backup |
| Core.PlanOfPlainRecordIsPlain | src/lib/core/core.rb:219-235 | the planned names have no directory part |
| Core.HasCopyPersists | src/lib/core/core.rb:243-247 | a copy already in the bucket survives successful sends |
| Core.UploadStepEffect | src/lib/core/core.rb:215-252 | one turn uploads only the backup's related files, skips expired backups, and gives each planned file a copy when it succeeds |
| Core.UploadKeepsCopies | src/lib/core/core.rb:213-256 | a copy already in the bucket survives the upload phase |
| Core.UploadMirrorsFittingBackups | src/lib/core/core.rb:213-256 | after a successful upload phase every planned file of a backup that fits the remote schedule has a copy of its local size |
| Core.UploadTouchesOnlyRelatedFiles | src/lib/core/core.rb:213-256 | the upload phase writes only keys of related files of local backups |
| Run.EntryStatus | src/lib/core/core.rb:37-53 | IGNORED iff the entry is disabled; SUCCESS iff it is enabled and its run counts no error |
| Run.Results | src/lib/core/core.rb:33-57 | one result per entry, in order, under its name |
| Run.ProcessEntries | src/lib/core/core.rb:25-79 | the results, the summary, the notification and the returned flag are those of the run report |
| Run.FailuresZero | src/lib/core/core.rb:48-78 | no error is counted iff no result is FAILURE |
| Run.RunSucceedsIffNoFailure | src/lib/core/core.rb:37-78 | the run succeeds iff every enabled entry succeeds; every entry gets exactly one result; disabled ones are IGNORED |
| Run.FailuresCount | src/lib/core/core.rb:48-50 | the error count is the number of FAILURE results |
| Run.NotificationFacts | src/lib/core/core.rb:69-76 | a notification goes out iff `notify_type` and `notify_opts` are both set, and it carries the summary and the subject |
| Run.SubjectFacts | src/lib/core/core.rb:69-73 | the subject starts with the host and ends in `[SUCCESS]` iff there was no error |
| Values.StoreFetch | src/lib/core/config.rb:51 | after `h[key] = v` the key holds `v` and every other key what it held |
| Values.StoreKeys | src/lib/core/config.rb:51 | `h[key] = v` keeps the key order and appends a new key |
| Values.StoreUnique | src/lib/core/config.rb:51 | `h[key] = v` never duplicates a key |
| Values.MergeFacts | src/lib/core/config.rb:118 | after `merge!` the merged-in keys win, the others keep their value, and the key order is kept |
| Values.Fetch | src/lib/core/config.rb:36-37 | `fetch` finds a value iff the key is present, and the value is the one stored under it |
| Values.StoreAppends | src/lib/core/config.rb:51 | storing a new key appends the pair at the end |
| Values.EscapedFacts | src/lib/core/validators.rb:160 | `String#inspect`, as used when a message shows a hash or an array, writes plain text unchanged, never a line break, and never a quote without a backslash before it |
| Text.NatToString | src/lib/core/validators.rb:86 | `to_s` of a non-negative integer is a non-empty string of digits |
| Text.ParseCanonicalIntOfText | src/lib/core/validators.rb:85-86 | the canonical-integer reader gives back every integer from its `to_s` text |
| Config.CheckRule | src/lib/core/config.rb:29-53 | the loop body for one rule computes the rule's effect |
| Config.ParseAndValidateRules | src/lib/core/config.rb:25-63 | the two loops compute the rule engine's result |
| Config.UnexpectedItems | src/lib/core/config.rb:55-60 | one message per input key that no rule names |
| Config.NoRuleNamed | src/lib/core/config.rb:56-57 | the rule selection is empty iff no rule has that name |
| Config.ApplyRulesRaises | src/lib/core/config.rb:36-42 | the rules raise iff a given option's validator raises |
| Config.ApplyRulesKeys | src/lib/core/config.rb:50-52 | the result keys are rule names, each once |
| Config.ApplyRuleShape | src/lib/core/config.rb:31-52 | one rule stores its selected value, if any, and reports a missing mandatory option |
| Config.ApplyRulesValues | src/lib/core/config.rb:36-52 | each option holds the validator's value when given, the default when absent, and nothing when that is `nil` |
| Config.ApplyRulesErrorCount | src/lib/core/config.rb:32-42 | one message per missing mandatory option and per failed validation |
| Config.ParseRulesRaises | src/lib/core/config.rb:25-63 | raises iff the input is not a hash or a validator raises |
| Config.ParseRulesResults | src/lib/core/config.rb:26-62 | the result keys are unique rule names, and each holds its selected value |
| Config.ParseRulesErrorCount | src/lib/core/config.rb:32-60 | the messages are one per missing mandatory option, per failed validation and per unexpected key |
| Config.ParseRulesClean | src/lib/core/config.rb:25-63 | no message iff nothing mandatory is missing, every given option validates and every key has a rule |
| Config.MissingIsReported | src/lib/core/config.rb:32-34 | a missing mandatory option is reported |
| Config.MandatoryDefault | src/lib/core/config.rb:32-52 | a missing mandatory option is reported, yet its default is stored |
| Config.PassedMandatory | src/lib/core/config.rb:32-52 | after a clean pass every mandatory option is given, validated without a message, and stored as the validator made it |
| Config.LoadCategory | src/lib/core/config.rb:66-96 | the loop computes the category's loaded definitions, from a hash or from a list of pairs |
| Config.DefinitionsLoadedOk | src/lib/core/config.rb:78-90 | loading raises iff some definition fails its rules |
| Config.DefinitionsLoadedValues | src/lib/core/config.rb:78-90 | the loaded definitions keep their names and order, each holding its parsed options |
| Config.LoadedCategoryFacts | src/lib/core/config.rb:66-96 | `nil` iff the category is absent; raises when it is neither a hash nor a list; for a hash or a list, raises iff a definition fails, and otherwise every name maps to its parsed options; an empty list loads as an empty hash; a list loads only when every element is a `[name, options]` pair with hash options |
| Config.Basename | src/lib/core/config.rb:111 | a base name holds no `/` |
| Config.LoadConfig | src/lib/core/config.rb:99-124 | the loop over the fragments computes the merged configuration, and fails when there is no file |
| Config.MergeFile | src/lib/core/config.rb:114-120 | the loop over one fragment computes its merge; an empty list changes nothing, a non-empty list raises on `curfile[key]`, and any other non-hash raises on `each` |
| Config.ListFragmentsFacts | src/lib/core/config.rb:112-121 | non-hash fragments leave the configuration unchanged iff every one is an empty list, and otherwise raise |
| Config.FragmentsInBasenameOrder | src/lib/core/config.rb:111 | fragments are processed in base-name order, each once |
| Config.MergeFragmentFacts | src/lib/core/config.rb:114-120 | a new key takes the fragment's value, a known key is merged with the fragment winning, other keys are untouched; it raises iff a key clashes with a non-hash |
| Config.FetchIsUnique | src/lib/core/config.rb:114-118 | in a hash with distinct keys, each pair's key leads to that pair's value |
| Config.FetchOther | src/lib/core/config.rb:114-118 | fetching another key ignores the last pair |
| ConfigValidation.CheckEntry | src/lib/core/config.rb:258-292 | the loop over the module kinds computes the entry check |
| ConfigValidation.ValidateConfig | src/lib/core/config.rb:127-301 | the method computes the whole validation |
| ConfigValidation.PluginPairs | src/lib/core/config.rb:264-291 | a half-set `*_type`/`*_opts` pair raises; an absent pair changes nothing; a set pair that passes names a registered module, and the entry then holds the parsed options and the module |
| ConfigValidation.NotifyPair | src/lib/core/config.rb:227-244 | the same both-or-neither rule holds for the notification |
| ConfigValidation.GlobalRulesNamed | src/lib/core/config.rb:206-214 | the global rules have distinct names and start with the two mandatory schedule anchors |
| ConfigValidation.GlobalDefaultsDoNotExcuse | src/lib/core/config.rb:208-209 | a missing `day_of_week`/`day_of_month` is an error even though it has a default |
| ConfigValidation.ScheduleRulesPassed | src/lib/core/config.rb:208-244 | a passing global section has a weekday number 0..6 for the named day and a day of month 1..31 |
| ConfigValidation.ValidatedGlobalSchedule | src/lib/core/config.rb:202-244 | the same holds for the `$globcfg` a successful validation leaves |
| ConfigValidation.NotifyKeepsSchedule | src/lib/core/config.rb:242 | the notification check changes only `notify_opts` |
| ConfigValidation.ResourcesFromShape | src/lib/core/config.rb:131-176 | one resource per category, in order, `nil` iff the category is absent |
| ConfigValidation.ResourcesLoaded | src/lib/core/config.rb:131-176 | `$resources` holds the four categories in order, each a hash or `nil` |
| ConfigValidation.LoadedCategoryNil | src/lib/core/config.rb:70-76 | a category loads as `nil` iff it is absent |
| ConfigValidation.EntriesKeepNames | src/lib/core/config.rb:251-298 | every loaded entry is checked, in order, under its own name |
| ConfigValidation.EmptyEntryList | src/lib/core/config.rb:198 | `entries: []` validates to no entries at all |
| Validators.WeekdayNumber | src/lib/core/validators.rb:194 | the day name's weekday number is in 0..6 and names that day |
| Validators.LeadingDigits | src/lib/core/validators.rb:85 | the digits `to_i` reads are a prefix of the text |
| Validators.StringToIOfText | src/lib/core/validators.rb:85-86 | `to_i` reads back every `to_s` |
| Validators.IntegerTextRoundTrip | src/lib/core/validators.rb:85-86 | a string survives `to_i`/`to_s` iff it is canonical integer text |
| Validators.FirstUnexpectedKey | src/lib/core/validators.rb:389-395 | finds the first key that is not supported, or reports that there is none |
| Validators.ScanItems | src/lib/core/validators.rb:120-142 | the item loop: at most one message, the input unchanged, and a pass iff every item passes |
| Validators.Checked | src/lib/core/validators.rb:53-61 | a check passes its input unchanged, or pushes one message |
| Validators.ValidateAndSubstitute | src/lib/core/validators.rb:44-428 | the method, running the loops, computes each validator's verdict |
| Validators.ScanShape | src/lib/core/validators.rb:120-126 | a scan that does not raise pushes at most one message and keeps the value |
| Validators.VerdictShape | src/lib/core/validators.rb:44-428 | every validator raises, or passes, or pushes one message and returns its input |
| Validators.ScanPasses | src/lib/core/validators.rb:120-142 | a scan passes iff every item passes |
| Validators.IntegerValidatorAccepts | src/lib/core/validators.rb:83-92 | accepts exactly canonical integer text and integers, unconverted; `nil` fails; other types raise |
| Validators.DayOfMonthValidatorAccepts | src/lib/core/validators.rb:167-184 | accepts exactly the integers 1..31 |
| Validators.DayOfWeekValidatorNumbers | src/lib/core/validators.rb:186-197 | succeeds iff the value is Mon..Sun, giving its weekday number; anything else raises |
| Validators.ByteSizeValidatorAccepts | src/lib/core/validators.rb:157-165 | `<digits>M` and `<digits>G` pass |
| Validators.PatternValidatorsOnOneLine | src/lib/core/validators.rb:159-221 | on one-line text, the size, region and access-key validators pass iff their pattern matches, and otherwise push their message |
| Validators.ByteSizeOnFirstLine | src/lib/core/validators.rb:159 | a value whose first line is a size passes whatever follows |
| Validators.PatternValidatorsOnOtherValues | src/lib/core/validators.rb:159-221 | the size, region, access-key and e-mail validators raise `NoMethodError` on a value that is neither a string nor `nil`, and push their one message for `nil` |
| Validators.ReferenceSubstitutes | src/lib/core/validators.rb:229-291 | a reference validator substitutes the named resource, and fails when the category or the name is missing |
| Validators.FilesysComplaintNone | src/lib/core/validators.rb:384-424 | a filesystem description draws no complaint iff it is good |
| Validators.FsaArrayValidatorAccepts | src/lib/core/validators.rb:375-428 | accepts exactly an array of good filesystem descriptions |
| Validators.ListValidatorAccepts | src/lib/core/validators.rb:114-144 | the list validators accept exactly arrays of existing directories (or files) |
| Utilities.CompressToExtension | src/lib/utils/utilities.rb:35-50 | gives an extension iff the program is one of the five known |
| Utilities.CompressExtensionInjective | src/lib/utils/utilities.rb:36-46 | no two known programs share an extension |
| Utilities.RubySplit | src/lib/utils/utilities.rb:26 | `split(':')` fields hold no separator, and the last one is not empty |
| Utilities.DropTrailingEmpty | src/lib/utils/utilities.rb:26 | `split` drops only trailing empty fields and keeps the rest in order |
| Utilities.PathToCommand | src/lib/utils/utilities.rb:25-32 | `dir/command` for the first existing `PATH` directory holding the command; `nil` iff none does |
| LvmSnapshots.ParseLine | src/lib/utils/lvm-snapshots.rb:28-30 | a parsed line is exactly `/dev/<vg>/<lv>` over `[-A-Za-z0-9_.]` |
| LvmSnapshots.FirstVolume | src/lib/utils/lvm-snapshots.rb:28 | the first matching line gives the volume, if any line matches |
| LvmSnapshots.ParseDevicePath | src/lib/utils/lvm-snapshots.rb:28-30 | the path of a valid volume parses back to that volume |
| LvmSnapshots.ParseDeviceFacts | src/lib/utils/lvm-snapshots.rb:28-33 | a device parses iff one of its lines is a valid volume path |
| LvmSnapshots.CreateFacts | src/lib/utils/lvm-snapshots.rb:25-49 | `create` raises on an unparsable device, a missing `lvcreate` or a failed command; otherwise it returns `/dev/<vg>/snap_<prefix>_<lv>`, which parses back |
| LvmSnapshots.SnapshotPathParses | src/lib/utils/lvm-snapshots.rb:35-48 | a snapshot path with a plain prefix is a valid volume of the same group |
| LvmSnapshots.DestroyFacts | src/lib/utils/lvm-snapshots.rb:52-64 | `destroy` succeeds iff `lvremove` is found and succeeds |

## Left out

- **Shell producers.** The backup producers in backup-tarball.rb, backup-mysqldp.rb, backup-pgsqldp.rb, backup-rsyncget.rb, backup-blockcopy.rb, backup-fsarchiver.rb and backup-ebssnap.rb are not part of this model. They are external commands and AWS calls. Their outcome is `Oracle.produced`.
- **Encryption.** encrypt-gnupg.rb is a gpg subprocess. Its outcome is `Oracle.encrypted`.
- **Notification and services.** notify-aws-ses.rb (e-mail) and services.rb are not part of this model. `Run.ProcessEntries` returns the notification it would send, rather than sending it.
- **Module classes.** The generic module classes (`*-generic.rb`) and the dynamic class loading of modules.rb are represented by `Validators.Registry`, which holds the registered type names per module kind. The option rules of each module are the `OptionRules` parameter.
- **Program entry and helpers.** rubackup.rb (command line, globals, `PATH` changes), exit-status.rb and output.rb (logging) are not part of this model. Only the exit code 12 of `load_config` appears, as the error `"exit 12"`.
- **I/O and the environment.**
  - Reading files and computing digests are left out; the digest is a parameter.
  - `File.mtime` and `File.size` are fields of a directory entry.
  - `Time.now`, `sleep` between entries, `Socket.gethostname` (a parameter) and `FileUtils.mkdir_p` are left out.
  - YAML parsing is left out: a fragment is given as a parsed `Value`.
- **Credentials.** The AWS credentials and region in `get_s3_access` are reduced to whether the bucket can be reached (`Bucket.reachable`).
- **S3 listing.** `list_objects` returns at most 1000 keys, in key order, and the source reads no continuation token. The model does the same, so backups beyond the first 1000 keys are never listed.
- **Config to entry settings.** The validated entry hash is not translated into `Core.EntryConfig` within the model. `process_entry` is modelled from already-extracted settings.
- **Configuration values.** Floats, symbols and dates are not modelled. A configuration value is nil, a boolean, an integer, a string, an array or a hash.
- **The calendar.** Ruby's Julian-to-Gregorian switch in 1582 is not modelled: dates are proleptic Gregorian. Backup dates are four-digit years from file names.
- **`$entries` order.**
  - Run.Results: entry names are distinct because `$entries` is a Hash, so the model appends the result pairs instead of storing them by key.
  - Config.FragmentsInBasenameOrder: the order of two fragments with the same base name is the model's insertion-sort order. Ruby's `sort_by` does not promise any order for such ties.
- **Integer parsing.** Validators.StringToIOfText: `String#to_i`'s acceptance of leading whitespace and `_` digit separators is not modelled. Such strings are refused by `IntegerValidator` either way, because their text differs from the canonical `to_s`.
- **The base name as a pattern.** `bakfile_basename` is checked only as a string, and the program puts it unescaped into the regex `/<basename>-(\d{8})/` (scheduling.rb:26, remote-aws-s3.rb:71) and into the `Dir.glob` pattern (backup-generic.rb:58), together with `bakfile_dir`. The model reads both literally. So for a base name or directory holding regex or glob metacharacters (`.`, `+`, `*`, `?`, `[`, `]`, `{`, `}`, `(`, `)`, `|`, `^`, `$`, `\`) the model and the program differ: with `a.b` the program also lists and rotates `aXb-20240610.tgz`; with `c++` its regex never matches and local listing raises; with `db[1]` its glob matches `db1-…` and not `db[1]-…`. The members below are stated for the literal reading only.
- Scheduling.FindDated: searches for the base name literally, not as regex text.
- Scheduling.DetermineCreationDate: agrees with the program only when the base name has no regex metacharacters.
- Scheduling.CreationDateOfDatedName: does not hold in the program for base names with regex metacharacters, such as `c++`.
- Scheduling.NoCreationDateWithoutDigits: with a base name such as `a.b` the program does find a date, in `aXb-20240610`.
- BackupGeneric.BasenameWithDateRoundTrip: the round trip fails in the program for base names with regex or glob metacharacters.
- BackupGeneric.GlobbedNameDate: the glob and the date regex are both read literally.
- BackupGeneric.SortedCandidatesFacts: the glob is read literally; and for backups with equal modification times the model keeps directory order, while the program's `sort_by` (backup-generic.rb:60) and `Dir.glob` leave that order unspecified. `Rotation.Sweep` skips the neighbour of a deleted record, so which of two expired backups with equal mtimes survives a pass is fixed in the model and unspecified in the program.
- BackupGeneric.LocalCatalogContents: inherits the literal glob and the fixed order of equal modification times.
- BackupGeneric.LocalDir.List: inherits the literal glob and the fixed order of equal modification times.
- RemoteS3.CoreObjectsFacts: the keys are matched against the base name literally, where the program uses it as regex text.
- RemoteS3.RemoteCatalogFailure: for base names with regex metacharacters, the set of keys that make the listing raise differs from the program's.
- RemoteS3.RemoteCatalogContents: inherits the literal base name of `CoreObjects`.
- RemoteS3.DatedKeyIsCatalogued: does not hold in the program for base names such as `c++`.
- Run.ProcessEntries: each entry's backup directory and bucket are parameters, as they stand when its turn comes. The model does not carry one entry's writes over to the next. In the program, entries that share a `bakfile_dir` or an S3 bucket see each other's files. Because the remote pattern is not anchored, entry `db` also lists and rotates the `mydb-…` keys of another entry in the same bucket.
- **Lists where a hash is expected.** A category or a fragment given as a YAML list is iterated as Ruby's `each do |key,val|` does.
- Config.ListedPair: names are strings in the model. For a listed `[name, options]` pair whose name is not a string, the program stores the options under that non-string key; the model uses the empty name.
- Config.LoadedCategoryFacts: when a list names the same definition twice, the stored options are not stated. The model stores the later one in the place of the first, like Ruby's `results[key] =`.
- Config.MergeFile: a non-empty list fragment whose first key is an integer is indexed by the program (`curfile[0]`). The model raises, as the program does for every string key.
- Values.Quote: `String#inspect` escapes the quote, the backslash, `#{`, `#$`, `#@` and the named control characters. Other non-printing characters are written as they are rather than as `\u` escapes.
- **Backup modules that override `list` and `delete`.** Phases 2.1 and 2.2 of `process_entry` (core.rb:165-191) model the `list` and `delete` of backup-generic.rb only. backup-ebssnap.rb overrides both, listing and deleting EC2 snapshots (backup-ebssnap.rb:185-219); those overrides are not part of this model.
