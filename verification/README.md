# callbrowser: a Dafny model of the sync-and-aggregate core

callbrowser is an Android app that copies the phone's call log, SMS inbox and
contacts into a local Room database and shows them on three screens:

- a main list with one row per phone number;
- a per-number history;
- a contacts list.

This project models that core as pure functions over immutable values and
proves properties of it.

The tables are `map`s keyed by their primary key:

- `calls` by `id`;
- `messages` by `id`;
- `contacts` by `contactId`.

A content-provider query is a `Snapshot`: either the rows of its cursor, or
`Unavailable` when the query throws. A background sync is one function from
the old tables and the provider snapshot to the new tables. A screen is a
function from the tables, and from any clock or calendar values it reads, to
what it shows.

The modules follow the source files:

- **`PhoneNumber`** is the digit-filter normaliser that the repository, both
  observers and the history screen each define as a private copy. It is the
  join key between calls, messages and contacts.
- **`Tables`, `Sorting`, `Seqs`, `Text`, `Decimal`, `KotlinMath`, `Durations`**
  hold the shared vocabulary:
  - upsert with `REPLACE`, `MAX`, `GROUP BY`;
  - a stable sort standing for `ORDER BY` and `sortedByDescending`;
  - `filter` and `toSet`;
  - BINARY string order;
  - `%d` and `%02d` text;
  - Kotlin's truncating `/` and `%`;
  - the hours-minutes-seconds split.
- **`Entities`, `Provider`** hold the Room entities, the UI entries and the raw
  provider rows, and the cursor-row-to-entity conversions.
- **`CallDao`, `MessageDao`, `ContactDao`** hold every query and write of the
  three DAOs. This includes the per-number summaries, with and without the
  `GLOB '*[0-9]*'` filter.
- **`DeltaSync`, `Debounce`, `CallLogObserver`, `SmsObserver`, `ContactObserver`**
  model the observers. Each one imports the provider rows dated after the
  table's newest date, behind a one-second leading-edge debounce.
- **`CommunicationRepository`, `ContactRepository`** model the initial full
  import that skips known ids and sets the saved-contact flag by substring
  match, the contact sync, and the observer lifecycle.
- **`CombinedList`, `History`** model the merge of call and message summaries
  into one row per number, and the merge of one number's calls and messages
  into a single history.
- **`MainActivity`, `CallHistoryActivity`, `ContactsActivity`** and the three
  adapters model the screens:
  - the main screen's filters and content-spinner logic;
  - the detail screen's fetch, merge and totals;
  - the contact screen's sort spinner and sync-if-empty;
  - what each list row shows and the DiffUtil rules.

## Model

Source paths are relative to the repository root.

| member | source | states |
|---|---|---|
| PhoneNumber.Normalize | app/src/main/java/com/example/callbrowser/data/repository/CommunicationRepository.kt:300-302 | the key is all ASCII digits, no longer than the raw number, and holds every digit of the raw number as often as the raw number does |
| PhoneNumber.NormalizeIsDigitFilter | app/src/main/java/com/example/callbrowser/data/sync/CallLogObserver.kt:100-102 | removing every non-digit is exactly the in-order filter that keeps the digits |
| PhoneNumber.NormalizeIsSubsequence | app/src/main/java/com/example/callbrowser/data/sync/SmsObserver.kt:101-103 | the key is a subsequence of the raw number |
| PhoneNumber.NormalizeFixesDigits | app/src/main/java/com/example/callbrowser/CallHistoryActivity.kt:306-308 | a string of digits is its own key |
| PhoneNumber.NormalizeIdempotent | app/src/main/java/com/example/callbrowser/CallHistoryActivity.kt:306-308 | normalising a key again changes nothing |
| PhoneNumber.NormalizeConcat | app/src/main/java/com/example/callbrowser/data/repository/CommunicationRepository.kt:300-302 | normalisation works per character, so the key of a concatenation is the concatenation of the keys |
| PhoneNumber.NormalizeEmptyIff | app/src/main/java/com/example/callbrowser/data/local/dao/MessageDao.kt:27 | the key is empty exactly when the raw address contains no digit, so `GLOB '*[0-9]*'` on the address removes exactly the messages whose key is empty |
| KotlinMath.TruncDiv | app/src/main/java/com/example/callbrowser/data/repository/CommunicationRepository.kt:64 | Kotlin's `Long` division: the quotient's magnitude is the floor of the magnitudes' quotient, and a non-zero quotient is positive exactly when the operands' signs agree |
| KotlinMath.TruncRem | app/src/main/java/com/example/callbrowser/CallLogAdapter.kt:84-85 | Kotlin's `%`: quotient times divisor plus remainder is the dividend, the remainder is smaller than the divisor in magnitude, and it takes the dividend's sign |
| KotlinMath.TruncAgreesOnNatural | app/src/main/java/com/example/callbrowser/CallHistoryAdapter.kt:105-107 | on a non-negative dividend and a positive divisor, Kotlin's and Dafny's `/` and `%` agree |
| Durations.Split | app/src/main/java/com/example/callbrowser/CallHistoryActivity.kt:204-206 | for a non-negative duration, `toHours`, `toMinutes % 60` and `% 60` give minutes and seconds below 60 that recombine to the duration |
| Durations.HmsTextOfNatural | app/src/main/java/com/example/callbrowser/CallHistoryActivity.kt:208-212 | the text is `"Hh Mm Ss"` from one hour, `"Mm Ss"` from one minute, otherwise `"Ss"`, each field in decimal |
| Durations.ZeroSeconds | app/src/main/java/com/example/callbrowser/CallHistoryActivity.kt:203 | zero seconds reads `"0s"` under the general rule too |
| Durations.HmsText | app/src/main/java/com/example/callbrowser/CallHistoryActivity.kt:202-213 | the hours-minutes-seconds text ends in its seconds unit `s`, starts with a digit for a non-negative duration, and shows an hours field exactly from one hour and a minutes field exactly from one minute; the same text serves CallHistoryAdapter.kt:103-114 |
| Decimal.NatToString | app/src/main/java/com/example/callbrowser/CallHistoryActivity.kt:195-196 | a count prints as at least one decimal digit, with no leading zero |
| Decimal.ParseNatToString | app/src/main/java/com/example/callbrowser/CallHistoryActivity.kt:195-196 | reading the printed digits back gives the count |
| Decimal.NatToStringInjective | app/src/main/java/com/example/callbrowser/CallHistoryActivity.kt:195-196 | different counts print differently |
| Decimal.IntToString | app/src/main/java/com/example/callbrowser/ContactsAdapter.kt:53 | a template prints a non-negative Int as its digits and a negative one as `-` followed by the digits of its magnitude |
| Decimal.Pad2 | app/src/main/java/com/example/callbrowser/CallLogAdapter.kt:88-89 | `%02d` gives at least two characters, `0d` below ten, exactly two digits below a hundred, and digits that read back as the value |
| Text.StrLeTotal | app/src/main/java/com/example/callbrowser/data/local/dao/ContactDao.kt:13-14 | any two names are ordered one way or the other by the BINARY collation |
| Text.StrLeTrans | app/src/main/java/com/example/callbrowser/data/local/dao/ContactDao.kt:13-14 | the BINARY collation is transitive |
| Text.StrLeAntisymmetric | app/src/main/java/com/example/callbrowser/data/local/dao/ContactDao.kt:13-14 | only equal names are ordered both ways |
| Sorting.Sort | app/src/main/java/com/example/callbrowser/data/repository/CommunicationRepository.kt:84 | sorting is a permutation: same multiset, same length |
| Sorting.SortSorted | app/src/main/java/com/example/callbrowser/data/repository/CommunicationRepository.kt:84 | under a total preorder the result is sorted |
| Sorting.SortStable | app/src/main/java/com/example/callbrowser/data/repository/CommunicationRepository.kt:118-124 | `sortedByDescending` is stable: when the input is already ordered by a tie-break, the result is ordered by the key and, among elements the key ranks equal, by that tie-break |
| Sorting.SortKeepsSorted | app/src/main/java/com/example/callbrowser/data/repository/CommunicationRepository.kt:118-124 | an input that is already sorted comes back unchanged |
| Sorting.SortSameElements | app/src/main/java/com/example/callbrowser/CallHistoryActivity.kt:177-183 | an element is in the sorted list exactly when it is in the input |
| Sorting.SortDistinct | app/src/main/java/com/example/callbrowser/data/repository/CommunicationRepository.kt:84 | keys that were distinct before sorting stay distinct |
| Seqs.Filter | app/src/main/java/com/example/callbrowser/MainActivity.kt:329 | `filter` keeps exactly the elements that satisfy the predicate, and no more of them than the input had |
| Seqs.FilterSubsequence | app/src/main/java/com/example/callbrowser/MainActivity.kt:329 | `filter` keeps list order |
| Seqs.FilterPartition | app/src/main/java/com/example/callbrowser/MainActivity.kt:329 | a predicate and its negation split the list: lengths add up and multisets add up |
| Seqs.FilterIdempotent | app/src/main/java/com/example/callbrowser/MainActivity.kt:329 | filtering twice by one predicate is filtering once |
| Seqs.Dedup | app/src/main/java/com/example/callbrowser/data/repository/CommunicationRepository.kt:44 | `toSet` keeps the same members and no duplicates |
| Seqs.DedupDistinct | app/src/main/java/com/example/callbrowser/data/repository/CommunicationRepository.kt:44 | a list without duplicates passes unchanged |
| Tables.Upsert | app/src/main/java/com/example/callbrowser/data/local/dao/CallDao.kt:35-36 | an insert with `REPLACE` stores the row under its key, keeps every other row, and keeps the table keyed |
| Tables.UpsertAll | app/src/main/java/com/example/callbrowser/data/local/dao/CallDao.kt:32-33 | a batch insert with `REPLACE`: the keys become old keys plus batch keys, untouched rows stay, and for each key the batch's last row wins |
| Tables.UpsertAllIdempotent | app/src/main/java/com/example/callbrowser/data/local/dao/CallDao.kt:32-33 | inserting the same batch twice is inserting it once |
| Tables.Remove | app/src/main/java/com/example/callbrowser/data/local/dao/CallDao.kt:38-39 | deleting by key removes that key and leaves every other row |
| Tables.MaxOf | app/src/main/java/com/example/callbrowser/data/local/dao/CallDao.kt:44-45 | `SELECT MAX` is null exactly on an empty table; otherwise some row attains it and no row exceeds it |
| Tables.Watermark | app/src/main/java/com/example/callbrowser/data/sync/CallLogObserver.kt:38 | `MAX(...) ?: 0L`: 0 on an empty table, otherwise a value some row attains, and no row is above it |
| Tables.GroupOf | app/src/main/java/com/example/callbrowser/data/local/dao/CallDao.kt:27 | a `GROUP BY` group holds exactly the rows with that group key, unchanged |
| Tables.GroupKeys | app/src/main/java/com/example/callbrowser/data/local/dao/CallDao.kt:27 | the grouped keys are exactly those with a non-empty group |
| Tables.SortedRows | app/src/main/java/com/example/callbrowser/data/local/dao/CallDao.kt:13-14 | `SELECT * ... ORDER BY` lists every row once and is sorted |
| Tables.SortedRowsDistinct | app/src/main/java/com/example/callbrowser/data/local/dao/CallDao.kt:13-14 | a listing of a keyed table repeats no key |
| DeltaSync.Newer | app/src/main/java/com/example/callbrowser/data/sync/CallLogObserver.kt:65-66 | the `date > ?` selection keeps exactly the candidates dated after the mark |
| DeltaSync.Import | app/src/main/java/com/example/callbrowser/data/sync/CallLogObserver.kt:35-50 | a delta import writes exactly when some candidate is newer than the table's watermark; otherwise the table is unchanged. The table stays keyed, every newer candidate's key is stored, other rows are kept, and no foreign key appears |
| DeltaSync.WrittenRowNewer | app/src/main/java/com/example/callbrowser/data/sync/CallLogObserver.kt:38-41 | every row an import writes is dated after the old watermark |
| DeltaSync.ImportRaisesWatermark | app/src/main/java/com/example/callbrowser/data/sync/CallLogObserver.kt:38-41 | an import that writes strictly raises the watermark |
| DeltaSync.ImportIdempotent | app/src/main/java/com/example/callbrowser/data/sync/CallLogObserver.kt:35-50 | with distinct candidate keys, importing again from the same provider writes nothing |
| DeltaSync.StoredAfterImport | app/src/main/java/com/example/callbrowser/data/sync/CallLogObserver.kt:39-41 | with distinct keys, every newer candidate is stored exactly as fetched |
| DeltaSync.ImportPreserves | app/src/main/java/com/example/callbrowser/data/sync/CallLogObserver.kt:39-41 | a row invariant that the table and the candidates satisfy also holds after the import |
| Provider.CallFromRow | app/src/main/java/com/example/callbrowser/data/repository/CommunicationRepository.kt:174-187 | a call row becomes an entity with the same id, number, name, type, date and duration, the normalised key, and the saved flag the rule gives for that key |
| Provider.MessageFromRow | app/src/main/java/com/example/callbrowser/data/repository/CommunicationRepository.kt:232-246 | an SMS row becomes an entity with no name, body `""` when the body is null, `read` exactly when the column is 1, the normalised key, and the saved flag for that key |
| Provider.CallEntities | app/src/main/java/com/example/callbrowser/data/repository/CommunicationRepository.kt:166-188 | rows with a null number are skipped; every other row gives exactly one entity |
| Provider.MessageEntities | app/src/main/java/com/example/callbrowser/data/repository/CommunicationRepository.kt:224-247 | rows with a null address are skipped; every other row gives exactly one entity |
| Provider.CallEntitiesOfDated | app/src/main/java/com/example/callbrowser/data/sync/CallLogObserver.kt:52-98 | selecting `date > since` in the query and then converting gives the same list as converting and then selecting |
| Provider.MessageEntitiesOfDated | app/src/main/java/com/example/callbrowser/data/sync/SmsObserver.kt:52-99 | the same commutation for SMS rows |
| Provider.CallEntitiesDistinct | app/src/main/java/com/example/callbrowser/data/repository/CommunicationRepository.kt:166-188 | distinct provider ids give entities with distinct ids |
| Provider.MessageEntitiesDistinct | app/src/main/java/com/example/callbrowser/data/repository/CommunicationRepository.kt:224-247 | distinct provider ids give entities with distinct ids |
| CallDao.AllCalls | app/src/main/java/com/example/callbrowser/data/local/dao/CallDao.kt:13-14 | every stored call exactly once (distinct ids in a valid table), newest first |
| CallDao.CallsForNumber | app/src/main/java/com/example/callbrowser/data/local/dao/CallDao.kt:16-20 | exactly the stored calls with that normalised number, newest first |
| CallDao.Summarize | app/src/main/java/com/example/callbrowser/data/local/dao/CallDao.kt:22-26 | a group's summary has the row count, the summed duration, the maximal date and type (both attained), and number, name and saved flag from one row of the group |
| CallDao.UniqueNumbersWithCallCount | app/src/main/java/com/example/callbrowser/data/local/dao/CallDao.kt:22-30 | one summary per normalised number present in the table, each summarising its group, newest first |
| CallDao.SortedSummaries | app/src/main/java/com/example/callbrowser/data/local/dao/CallDao.kt:27-28 | ordering the per-number summaries by date keeps one summary per group key and sorts them newest first |
| CallDao.InsertCalls | app/src/main/java/com/example/callbrowser/data/local/dao/CallDao.kt:32-33 | a `REPLACE` batch: the keys become old keys plus batch ids, untouched calls stay, and the last call per id wins |
| CallDao.InsertCall | app/src/main/java/com/example/callbrowser/data/local/dao/CallDao.kt:35-36 | a `REPLACE` insert stores the call under its id and keeps every other call |
| CallDao.DeleteCall | app/src/main/java/com/example/callbrowser/data/local/dao/CallDao.kt:38-39 | deleting by id removes that id only |
| CallDao.DeleteAllCalls | app/src/main/java/com/example/callbrowser/data/local/dao/CallDao.kt:41-42 | the table is empty afterwards |
| CallDao.LastSyncTimestamp | app/src/main/java/com/example/callbrowser/data/local/dao/CallDao.kt:44-45 | `MAX(date)` is null exactly on an empty table; otherwise it is the date of some call and no call is later |
| CallDao.ReinsertReplaces | app/src/main/java/com/example/callbrowser/data/local/dao/CallDao.kt:35-36 | re-inserting a stored id replaces the row and keeps the row count |
| MessageDao.AllMessages | app/src/main/java/com/example/callbrowser/data/local/dao/MessageDao.kt:13-14 | every stored message exactly once, newest first |
| MessageDao.MessagesForNumber | app/src/main/java/com/example/callbrowser/data/local/dao/MessageDao.kt:16-20 | exactly the stored messages with that key, newest first, as many as the count query reports |
| MessageDao.MessageCountForNumber | app/src/main/java/com/example/callbrowser/data/local/dao/MessageDao.kt:43-44 | the count is zero exactly when no message has that key, and never exceeds the table size |
| MessageDao.Summarize | app/src/main/java/com/example/callbrowser/data/local/dao/MessageDao.kt:33-37 | a group's summary has the row count, the maximal date and type (both attained), and address, name, saved and read flags from one row of the group |
| MessageDao.Summaries | app/src/main/java/com/example/callbrowser/data/local/dao/MessageDao.kt:33-41 | one summary per key present, each summarising its group, newest first |
| MessageDao.SortedSummaries | app/src/main/java/com/example/callbrowser/data/local/dao/MessageDao.kt:38-39 | ordering the per-key summaries by date keeps one per key and sorts them newest first |
| MessageDao.DigitRows | app/src/main/java/com/example/callbrowser/data/local/dao/MessageDao.kt:27 | the `GLOB '*[0-9]*'` filter keeps exactly the messages whose address contains a digit, unchanged |
| MessageDao.UniqueNumbersWithMessageCount | app/src/main/java/com/example/callbrowser/data/local/dao/MessageDao.kt:22-31 | one summary per key among messages whose address has a digit, newest first |
| MessageDao.UniqueNumbersWithMessageCountAll | app/src/main/java/com/example/callbrowser/data/local/dao/MessageDao.kt:33-41 | one summary per key among all messages, newest first |
| MessageDao.FilteredKeysSubset | app/src/main/java/com/example/callbrowser/data/local/dao/MessageDao.kt:22-41 | the filtered listing's keys are among the unfiltered listing's keys |
| MessageDao.FilterKeepsNonEmptyGroups | app/src/main/java/com/example/callbrowser/data/local/dao/MessageDao.kt:27-28 | with normalised keys, the filter leaves every non-empty key's group intact |
| MessageDao.FilteredGroupKeys | app/src/main/java/com/example/callbrowser/data/local/dao/MessageDao.kt:27-28 | with normalised keys, the filter removes exactly the empty key from the grouped keys |
| MessageDao.FilteredKeysAreNonEmptyKeys | app/src/main/java/com/example/callbrowser/data/local/dao/MessageDao.kt:22-41 | the two listings differ exactly by the empty key, and each filtered summary also summarises the unfiltered group |
| MessageDao.FilteredKeyIsKey | app/src/main/java/com/example/callbrowser/data/local/dao/MessageDao.kt:27-28 | a key that survives the filter is a non-empty key of the whole table |
| MessageDao.FilteredKeysNonEmpty | app/src/main/java/com/example/callbrowser/data/local/dao/MessageDao.kt:22-31 | no summary in the filtered listing has the empty key |
| MessageDao.InsertMessages | app/src/main/java/com/example/callbrowser/data/local/dao/MessageDao.kt:46-47 | a `REPLACE` batch: old keys plus batch ids, untouched messages stay, and the last message per id wins |
| MessageDao.InsertMessage | app/src/main/java/com/example/callbrowser/data/local/dao/MessageDao.kt:49-50 | a `REPLACE` insert stores the message under its id and keeps every other message |
| MessageDao.DeleteMessage | app/src/main/java/com/example/callbrowser/data/local/dao/MessageDao.kt:52-53 | deleting by id removes that id only |
| MessageDao.DeleteAllMessages | app/src/main/java/com/example/callbrowser/data/local/dao/MessageDao.kt:55-56 | the table is empty afterwards |
| MessageDao.LastSyncTimestamp | app/src/main/java/com/example/callbrowser/data/local/dao/MessageDao.kt:58-59 | `MAX(date)` is null exactly on an empty table; otherwise it is attained and is an upper bound |
| ContactDao.NameAscendingOrders | app/src/main/java/com/example/callbrowser/data/local/dao/ContactDao.kt:13 | `ORDER BY name ASC` is a total preorder, with null names first |
| ContactDao.AllContacts | app/src/main/java/com/example/callbrowser/data/local/dao/ContactDao.kt:13-14 | every stored contact once, sorted by name ascending |
| ContactDao.AllContactsByLastUpdated | app/src/main/java/com/example/callbrowser/data/local/dao/ContactDao.kt:16-17 | every stored contact once, most recently updated first |
| ContactDao.AllContactsByTimesContacted | app/src/main/java/com/example/callbrowser/data/local/dao/ContactDao.kt:19-20 | every stored contact once, most contacted first |
| ContactDao.ContactById | app/src/main/java/com/example/callbrowser/data/local/dao/ContactDao.kt:22-23 | found exactly when a stored contact has that `contactId`, and then the result is that contact |
| ContactDao.LastSyncTimestamp | app/src/main/java/com/example/callbrowser/data/local/dao/ContactDao.kt:25-26 | `MAX(lastUpdatedTimestamp)` is null exactly on an empty table; otherwise it is attained and is an upper bound |
| ContactDao.ContactCount | app/src/main/java/com/example/callbrowser/data/local/dao/ContactDao.kt:28-29 | the count is zero exactly on an empty table, and equals the length of the listing |
| ContactDao.InsertContacts | app/src/main/java/com/example/callbrowser/data/local/dao/ContactDao.kt:31-32 | a `REPLACE` batch on the unique `contactId`: the keys become old keys plus batch keys, and the last row per key wins |
| ContactDao.InsertContact | app/src/main/java/com/example/callbrowser/data/local/dao/ContactDao.kt:34-35 | a `REPLACE` insert stores the contact under its `contactId` and keeps every other contact |
| ContactDao.DeleteContact | app/src/main/java/com/example/callbrowser/data/local/dao/ContactDao.kt:37-38 | deleting by `contactId` removes that key only |
| ContactDao.DeleteAllContacts | app/src/main/java/com/example/callbrowser/data/local/dao/ContactDao.kt:40-41 | the table is empty afterwards |
| ContactDao.ContactsUpdatedAfter | app/src/main/java/com/example/callbrowser/data/local/dao/ContactDao.kt:43-44 | exactly the contacts updated strictly after the timestamp, with no repeated key |
| ContactDao.LookupAfterWrite | app/src/main/java/com/example/callbrowser/data/local/dao/ContactDao.kt:22-38 | after an insert, a lookup finds the inserted contact; after a delete, it finds nothing; other keys are unaffected |
| ContactRepository.NameDescendingOrders | app/src/main/java/com/example/callbrowser/data/repository/ContactRepository.kt:20 | descending by lower-cased name, with null read as `""`, is a total preorder |
| ContactRepository.GetContacts | app/src/main/java/com/example/callbrowser/data/repository/ContactRepository.kt:17-24 | every stored contact once, in the order the option selects; the descending-name option keeps the ascending order among equal lower-cased names |
| ContactRepository.ToEntity | app/src/main/java/com/example/callbrowser/data/repository/ContactRepository.kt:94-118 | the row's id becomes `contactId`; there is a phone number only when `HAS_PHONE_NUMBER > 0`; email is null; `lastUpdated` is 0 when the column is missing |
| ContactRepository.Fetched | app/src/main/java/com/example/callbrowser/data/repository/ContactRepository.kt:71-120 | a positive `since` selects exactly the rows updated after it; otherwise every row is fetched |
| ContactRepository.FetchContacts | app/src/main/java/com/example/callbrowser/data/repository/ContactRepository.kt:58-124 | the fetch fails exactly when the provider query throws; otherwise it yields the selected rows as entities |
| ContactRepository.SyncContacts | app/src/main/java/com/example/callbrowser/data/repository/ContactRepository.kt:26-40 | the result is true exactly when the query succeeds. On failure the table is unchanged; on success the fetched rows since the watermark are upserted and no stored contact is lost |
| ContactRepository.FetchedNonPositive | app/src/main/java/com/example/callbrowser/data/repository/ContactRepository.kt:71-77 | every non-positive `since` means "no selection" |
| ContactRepository.FetchedDistinct | app/src/main/java/com/example/callbrowser/data/repository/ContactRepository.kt:94-120 | distinct provider ids give distinct `contactId`s |
| ContactRepository.WatermarkKeeps | app/src/main/java/com/example/callbrowser/data/repository/ContactRepository.kt:28-33 | a sync from a positive watermark never lowers it |
| ContactRepository.NothingNewerAfterSync | app/src/main/java/com/example/callbrowser/data/repository/ContactRepository.kt:28-33 | after a sync, no provider row is newer than the new watermark |
| ContactRepository.FetchedNothing | app/src/main/java/com/example/callbrowser/data/repository/ContactRepository.kt:71-77 | when no row passes the selection, nothing is fetched |
| ContactRepository.SyncContactsIdempotent | app/src/main/java/com/example/callbrowser/data/repository/ContactRepository.kt:26-40 | syncing twice against an unchanged provider is syncing once |
| ContactRepository.PerformFullSync | app/src/main/java/com/example/callbrowser/data/repository/ContactRepository.kt:42-52 | on success the table holds exactly the provider's contacts, the last row per id winning; on failure the table is unchanged |
| ContactRepository.FullSyncContents | app/src/main/java/com/example/callbrowser/data/repository/ContactRepository.kt:44-46 | the unselected fetch covers exactly the provider ids, row for row |
| ContactRepository.FullFetchAligned | app/src/main/java/com/example/callbrowser/data/repository/ContactRepository.kt:71-120 | without a selection the fetch is the provider rows converted one by one, in cursor order |
| ContactRepository.HasContacts | app/src/main/java/com/example/callbrowser/data/repository/ContactRepository.kt:54-56 | true exactly when the table is not empty |
| CommunicationRepository.ListedIsSaved | app/src/main/java/com/example/callbrowser/data/repository/CommunicationRepository.kt:183-185 | a number whose key is a contact key is saved |
| CommunicationRepository.ContactSaved | app/src/main/java/com/example/callbrowser/data/repository/CommunicationRepository.kt:183-185 | the saved rule: with no contact number nothing is saved, and a key that is itself a contact key is saved |
| CommunicationRepository.SavedBy | app/src/main/java/com/example/callbrowser/data/repository/CommunicationRepository.kt:183-185 | the rule as the function the entity builders apply: it holds for no key when there are no contacts, and for every contact's own key |
| CommunicationRepository.EmptyKeySavesAll | app/src/main/java/com/example/callbrowser/data/repository/CommunicationRepository.kt:183-185 | an empty contact key is contained in every number, so every number counts as saved |
| CommunicationRepository.EmptyNumberSavedIff | app/src/main/java/com/example/callbrowser/data/repository/CommunicationRepository.kt:183-185 | a number with an empty key is saved exactly when any contact number exists |
| CommunicationRepository.ContactNumbers | app/src/main/java/com/example/callbrowser/data/repository/CommunicationRepository.kt:255-276 | the contact key set is exactly the keys of the non-null phone numbers, all of them digit strings |
| CommunicationRepository.DigitlessContactSavesAll | app/src/main/java/com/example/callbrowser/data/repository/CommunicationRepository.kt:269-270 | one contact phone number without digits makes every call and message count as saved |
| CommunicationRepository.NewCalls | app/src/main/java/com/example/callbrowser/data/repository/CommunicationRepository.kt:166-188 | the batch is exactly the entities of the provider rows that have a number and an unknown id |
| CommunicationRepository.ImportAllCalls | app/src/main/java/com/example/callbrowser/data/repository/CommunicationRepository.kt:138-194 | stored calls are kept unchanged, every numbered provider row's id ends up stored, and each new row comes from such a row; validity is kept |
| CommunicationRepository.CallBatchWritten | app/src/main/java/com/example/callbrowser/data/repository/CommunicationRepository.kt:191-193 | writing the batch only when it is non-empty has the same effect as the whole import |
| CommunicationRepository.ImportedCallSaved | app/src/main/java/com/example/callbrowser/data/repository/CommunicationRepository.kt:174-187 | each newly stored call carries its own key and the saved flag the rule gives for it |
| CommunicationRepository.CallFromRowSaved | app/src/main/java/com/example/callbrowser/data/repository/CommunicationRepository.kt:183-185 | the converted call is saved exactly when some contact key is contained in its key or contains it |
| CommunicationRepository.ImportAllCallsIdempotent | app/src/main/java/com/example/callbrowser/data/repository/CommunicationRepository.kt:138-194 | a second import of the same provider rows changes nothing |
| CommunicationRepository.NoNewCalls | app/src/main/java/com/example/callbrowser/data/repository/CommunicationRepository.kt:171-172 | when every numbered row's id is already stored, the batch is empty |
| CommunicationRepository.NewMessages | app/src/main/java/com/example/callbrowser/data/repository/CommunicationRepository.kt:224-247 | the batch is exactly the entities of the SMS rows that have an address and an unknown id |
| CommunicationRepository.ImportAllMessages | app/src/main/java/com/example/callbrowser/data/repository/CommunicationRepository.kt:196-253 | stored messages are kept, every addressed row's id ends up stored, and each new row comes from such a row |
| CommunicationRepository.MessageBatchWritten | app/src/main/java/com/example/callbrowser/data/repository/CommunicationRepository.kt:250-252 | writing the batch only when it is non-empty has the same effect as the whole import |
| CommunicationRepository.ImportedMessageSaved | app/src/main/java/com/example/callbrowser/data/repository/CommunicationRepository.kt:232-246 | each newly stored message has no name, its own key, and the saved flag the rule gives |
| CommunicationRepository.MessageFromRowSaved | app/src/main/java/com/example/callbrowser/data/repository/CommunicationRepository.kt:241-243 | the converted message is saved exactly when some contact key is contained in its key or contains it |
| CommunicationRepository.ImportAllMessagesIdempotent | app/src/main/java/com/example/callbrowser/data/repository/CommunicationRepository.kt:196-253 | a second import of the same SMS rows changes nothing |
| CommunicationRepository.NoNewMessages | app/src/main/java/com/example/callbrowser/data/repository/CommunicationRepository.kt:229-230 | when every addressed row's id is already stored, the batch is empty |
| CommunicationRepository.PerformInitialSync | app/src/main/java/com/example/callbrowser/data/repository/CommunicationRepository.kt:128-136 | the sync completes exactly when all three queries succeed; calls are untouched when the contacts or call query fails, and messages are untouched when it does not complete. A completed sync is the call import followed by the message import, both using the contacts' keys |
| CommunicationRepository.PerformInitialSyncIdempotent | app/src/main/java/com/example/callbrowser/data/repository/CommunicationRepository.kt:128-136 | running the initial sync twice against unchanged providers is running it once |
| CommunicationRepository.InitialSyncStoresEverything | app/src/main/java/com/example/callbrowser/data/repository/CommunicationRepository.kt:128-136 | a completed sync keeps every stored row and stores every numbered call and addressed message of the providers |
| CommunicationRepository.DetailedHistory | app/src/main/java/com/example/callbrowser/data/repository/CommunicationRepository.kt:89-125 | the history is newest first, calls before messages at equal dates, and holds as many calls and messages as the two per-number queries return |
| CommunicationRepository.MergedEntries | app/src/main/java/com/example/callbrowser/data/repository/CommunicationRepository.kt:92-124 | the merge shows every call and every message as an entry, and nothing else |
| CommunicationRepository.DetailedHistoryContents | app/src/main/java/com/example/callbrowser/data/repository/CommunicationRepository.kt:89-125 | the history holds exactly the stored calls and messages whose key is the number's key |
| CommunicationRepository.StartObservers | app/src/main/java/com/example/callbrowser/data/repository/CommunicationRepository.kt:278-290 | afterwards both observers exist; an existing observer is kept, a missing one is created fresh, and the count says how many were registered |
| CommunicationRepository.StopObservers | app/src/main/java/com/example/callbrowser/data/repository/CommunicationRepository.kt:292-298 | afterwards neither observer exists; at most two are unregistered, none exactly when none existed |
| CommunicationRepository.StartObserversIdempotent | app/src/main/java/com/example/callbrowser/data/repository/CommunicationRepository.kt:278-290 | starting twice registers nothing the second time |
| CommunicationRepository.RestartResets | app/src/main/java/com/example/callbrowser/data/repository/CommunicationRepository.kt:278-298 | stop then start gives two fresh observers, so their debounce marks reset to 0 |
| CombinedList.CallMap | app/src/main/java/com/example/callbrowser/data/repository/CommunicationRepository.kt:41 | `associateBy` maps each key to the last summary with that key |
| CombinedList.MessageMap | app/src/main/java/com/example/callbrowser/data/repository/CommunicationRepository.kt:38 | `associateBy` maps each key to the last summary with that key |
| CombinedList.AllNumbers | app/src/main/java/com/example/callbrowser/data/repository/CommunicationRepository.kt:44 | the union of both key sets, each key once |
| CombinedList.MergeRow | app/src/main/java/com/example/callbrowser/data/repository/CommunicationRepository.kt:46-83 | a row exists exactly when a summary exists. It is keyed by the number and carries both counts (0 when missing). The call side wins when its date is not older, and then the row has the call type and date. Otherwise the row is message-only, with type -1, duration 0 and the message date. Its date is the later of the two |
| CombinedList.AverageDuration | app/src/main/java/com/example/callbrowser/data/repository/CommunicationRepository.kt:64 | `totalDuration / maxOf(callCount, 1)` is the floor of the mean duration |
| CombinedList.CombinedRows | app/src/main/java/com/example/callbrowser/data/repository/CommunicationRepository.kt:46-83 | `mapNotNull` gives at most one row per key, each the merge of that key's summaries |
| CombinedList.CombinedRowsOneEach | app/src/main/java/com/example/callbrowser/data/repository/CommunicationRepository.kt:46-83 | when every key has a summary, there is exactly one row per key, in key order |
| CombinedList.Combined | app/src/main/java/com/example/callbrowser/data/repository/CommunicationRepository.kt:31-86 | the main list has exactly one row per number with a call or message summary, newest first, each row the merge of that number's summaries |
| CombinedList.CombinedSorted | app/src/main/java/com/example/callbrowser/data/repository/CommunicationRepository.kt:84 | sorting the merged rows keeps one row per key and orders them newest first |
| CombinedList.CombinedKeys | app/src/main/java/com/example/callbrowser/data/repository/CommunicationRepository.kt:31-86 | over the database, the main list's numbers are the call keys plus the keys of messages whose address has a digit |
| CombinedList.CombinedCounts | app/src/main/java/com/example/callbrowser/data/repository/CommunicationRepository.kt:31-86 | over the database, a row's call and message counts are the sizes of its number's groups, and at least one is positive |
| History.Orders | app/src/main/java/com/example/callbrowser/data/repository/CommunicationRepository.kt:118-124 | newest-first and calls-before-messages are total preorders |
| History.MergeHistory | app/src/main/java/com/example/callbrowser/data/repository/CommunicationRepository.kt:118-124 | the merge is a permutation of calls followed by messages, newest first, and a call precedes a message at an equal date (stable sort) |
| History.MergeHistoryContents | app/src/main/java/com/example/callbrowser/CallHistoryActivity.kt:177-183 | a call or message is in the merged history exactly when it was in its input list |
| History.MergeHistoryCounts | app/src/main/java/com/example/callbrowser/CallHistoryActivity.kt:192-193 | the merged history holds exactly as many calls and messages as were fetched |
| CallLogObserver.FetchRecentCalls | app/src/main/java/com/example/callbrowser/data/sync/CallLogObserver.kt:52-98 | every fetched call is dated after `since`, not saved, and keyed by its normalised number; every numbered row after `since` is fetched |
| CallLogObserver.SyncRecentCalls | app/src/main/java/com/example/callbrowser/data/sync/CallLogObserver.kt:35-50 | a failed query or an empty batch leaves the table unchanged; validity and normalised keys are kept; a write stores a call newer than the old watermark |
| CallLogObserver.SyncRecentCallsIsImport | app/src/main/java/com/example/callbrowser/data/sync/CallLogObserver.kt:38-41 | the observer's sync is the delta import of the numbered call rows, all marked not saved |
| CallLogObserver.SyncRecentCallsIdempotent | app/src/main/java/com/example/callbrowser/data/sync/CallLogObserver.kt:35-50 | a second sync against an unchanged call log writes nothing |
| CallLogObserver.SyncRecentCallsRaisesWatermark | app/src/main/java/com/example/callbrowser/data/sync/CallLogObserver.kt:38-41 | a sync that writes strictly raises `MAX(date)` |
| CallLogObserver.OnChange | app/src/main/java/com/example/callbrowser/data/sync/CallLogObserver.kt:25-33 | a notification within the window changes nothing; otherwise the mark moves to now; a write happens only past the window |
| CallLogObserver.OnChangeAfterSync | app/src/main/java/com/example/callbrowser/data/sync/CallLogObserver.kt:25-50 | after a sync, a second notification against an unchanged call log writes nothing, whenever it comes |
| SmsObserver.FetchRecentMessages | app/src/main/java/com/example/callbrowser/data/sync/SmsObserver.kt:52-99 | every fetched message is dated after `since`, unnamed, not saved, and keyed by its normalised address; every addressed row after `since` is fetched |
| SmsObserver.SyncRecentMessages | app/src/main/java/com/example/callbrowser/data/sync/SmsObserver.kt:35-50 | a failed query or an empty batch leaves the table unchanged; validity and normalised keys are kept; a write stores a message newer than the old watermark |
| SmsObserver.SyncRecentMessagesIsImport | app/src/main/java/com/example/callbrowser/data/sync/SmsObserver.kt:38-41 | the observer's sync is the delta import of the addressed SMS rows, all marked not saved |
| SmsObserver.SyncRecentMessagesIdempotent | app/src/main/java/com/example/callbrowser/data/sync/SmsObserver.kt:35-50 | a second sync against an unchanged inbox writes nothing |
| SmsObserver.SyncRecentMessagesRaisesWatermark | app/src/main/java/com/example/callbrowser/data/sync/SmsObserver.kt:38-41 | a sync that writes strictly raises `MAX(date)` |
| SmsObserver.OnChange | app/src/main/java/com/example/callbrowser/data/sync/SmsObserver.kt:25-33 | a notification within the window changes nothing; otherwise the mark moves to now; a write happens only past the window |
| SmsObserver.OnChangeAfterSync | app/src/main/java/com/example/callbrowser/data/sync/SmsObserver.kt:25-50 | after a sync, a second notification against an unchanged inbox writes nothing |
| ContactObserver.OnChange | app/src/main/java/com/example/callbrowser/data/sync/ContactObserver.kt:23-41 | a sync starts exactly when more than 1000 ms have passed since the mark; a failed sync leaves the table unchanged; validity is kept |
| ContactObserver.RunAll | app/src/main/java/com/example/callbrowser/data/sync/ContactObserver.kt:23-30 | a run of notifications leaves the debouncer where `Run` does and starts as many syncs as `Run` fires |
| ContactObserver.RunAllSyncsOnce | app/src/main/java/com/example/callbrowser/data/sync/ContactObserver.kt:23-41 | against an unchanged provider, any run of notifications has the effect of at most one contact sync |
| Debounce.OnChange | app/src/main/java/com/example/callbrowser/data/sync/CallLogObserver.kt:25-33 | a sync starts exactly when `now - lastSyncTime > 1000`, and only then does the mark move to `now` |
| Debounce.Run | app/src/main/java/com/example/callbrowser/data/sync/CallLogObserver.kt:25-33 | a run of notifications gives one fire-or-drop decision per notification |
| Debounce.RunCons | app/src/main/java/com/example/callbrowser/data/sync/CallLogObserver.kt:25-33 | a run is `onChange` applied to each notification in turn, each starting from the mark the previous one left |
| Debounce.SyncsStarted | app/src/main/java/com/example/callbrowser/data/sync/CallLogObserver.kt:29-31 | the number of started syncs is at most the number of notifications, and 0 exactly when none fired |
| Debounce.RunSpaced | app/src/main/java/com/example/callbrowser/data/sync/CallLogObserver.kt:25-33 | in any run, each started sync is more than 1000 ms after the initial mark and more than 1000 ms after the previous started sync |
| Debounce.RunFinalMark | app/src/main/java/com/example/callbrowser/data/sync/CallLogObserver.kt:29-30 | the final mark is the time of the last notification that fired, or the initial mark if none did |
| Debounce.BurstDropped | app/src/main/java/com/example/callbrowser/data/sync/CallLogObserver.kt:29 | notifications all within the window of the mark start nothing and leave the mark alone |
| Debounce.LeadingEdge | app/src/main/java/com/example/callbrowser/data/sync/CallLogObserver.kt:25-33 | in a burst, the first notification past the window syncs and the rest of the burst within 1000 ms is dropped |
| Debounce.FromStart | app/src/main/java/com/example/callbrowser/data/sync/CallLogObserver.kt:23-33 | with the mark starting at 0, notifications at 0, 200, 400 and 1500 ms start one sync, at 1500 |
| Debounce.LaterBurst | app/src/main/java/com/example/callbrowser/data/sync/CallLogObserver.kt:23-33 | for a burst starting after the first second, `t, t+200, t+400, t+1500` starts syncs at `t` and `t+1500` only |
| CallHistoryActivity.CallOfRow | app/src/main/java/com/example/callbrowser/CallHistoryActivity.kt:244-252 | a call row becomes an entry with the row's id, number, name, type, date and duration, not saved, with count 1 |
| CallHistoryActivity.MessageOfRow | app/src/main/java/com/example/callbrowser/CallHistoryActivity.kt:289-298 | an SMS row becomes an entry named after the screen's contact, saved exactly when there is a contact name, with body `""` for null and `read` exactly when the column is 1 |
| CallHistoryActivity.FetchCalls | app/src/main/java/com/example/callbrowser/CallHistoryActivity.kt:215-258 | exactly the rows whose number equals the raw or the normalised phone number, as entries |
| CallHistoryActivity.FetchMessages | app/src/main/java/com/example/callbrowser/CallHistoryActivity.kt:260-304 | exactly the rows whose address equals the raw or the normalised phone number, as entries |
| CallHistoryActivity.FetchedBelongToNumber | app/src/main/java/com/example/callbrowser/CallHistoryActivity.kt:228-229 | every fetched call or message has the raw or the normalised number. Calls are never saved; messages are saved exactly when the screen has a contact name |
| CallHistoryActivity.NoCallSelected | app/src/main/java/com/example/callbrowser/CallHistoryActivity.kt:228-229 | no call is fetched exactly when no row's number is the raw or the normalised number |
| CallHistoryActivity.NoMessageSelected | app/src/main/java/com/example/callbrowser/CallHistoryActivity.kt:273-274 | no message is fetched exactly when no row's address is the raw or the normalised number |
| CallHistoryActivity.MergeKeepsTalkTime | app/src/main/java/com/example/callbrowser/CallHistoryActivity.kt:194 | the talk time summed over the merged history is the sum of the fetched calls' durations |
| CallHistoryActivity.SumDurations | app/src/main/java/com/example/callbrowser/CallHistoryActivity.kt:194 | `sumOf { it.duration }`: with no negative duration the total is non-negative and at least each single call's duration |
| CallHistoryActivity.TalkTime | app/src/main/java/com/example/callbrowser/CallHistoryActivity.kt:194 | the talk time of a history counts only calls: it is zero for a history of messages alone, and non-negative when no call has a negative duration |
| CallHistoryActivity.FormatDuration | app/src/main/java/com/example/callbrowser/CallHistoryActivity.kt:202-213 | the special `"0s"` case agrees with the general hours-minutes-seconds text, so the total is that text for every duration |
| CallHistoryActivity.Assemble | app/src/main/java/com/example/callbrowser/CallHistoryActivity.kt:177-198 | the list is newest first with calls first on ties, and holds every call and message. The empty state shows exactly when both inputs are empty. Otherwise the totals are the call count, the message count and the summed call duration with its text |
| CallHistoryActivity.LoadHistory | app/src/main/java/com/example/callbrowser/CallHistoryActivity.kt:164-200 | the loaded screen is sorted, shows the empty state exactly when neither query fetched anything, and totals the fetched calls and messages |
| CallHistoryActivity.LoadHistoryContents | app/src/main/java/com/example/callbrowser/CallHistoryActivity.kt:164-183 | a call or message is on the screen exactly when its query fetched it |
| CallHistoryActivity.SetupHeader | app/src/main/java/com/example/callbrowser/CallHistoryActivity.kt:64-101 | the title is the name, or the number when there is none. The number line shows exactly when a name different from the number exists, and the add-contact button shows exactly when it does not |
| CallLogAdapter.CallTypeLabel | app/src/main/java/com/example/callbrowser/CallLogAdapter.kt:61-69 | codes 1 to 6 get their six labels in order; any other code reads `"Unknown"` |
| CallLogAdapter.CallTypeOfLabel | app/src/main/java/com/example/callbrowser/CallLogAdapter.kt:61-69 | the inverse reading: a label names a code exactly when it is one of the six |
| CallLogAdapter.CallTypeLabelRoundTrip | app/src/main/java/com/example/callbrowser/CallLogAdapter.kt:61-69 | each known type reads back as itself, and every other code as no type |
| CallLogAdapter.DisplayName | app/src/main/java/com/example/callbrowser/CallLogAdapter.kt:46 | the name line is the name, or the number when there is no name |
| CallLogAdapter.NumberLine | app/src/main/java/com/example/callbrowser/CallLogAdapter.kt:47 | the number line is the number, `" ("`, the call count in decimal, and `")"` |
| CallLogAdapter.FormatDuration | app/src/main/java/com/example/callbrowser/CallLogAdapter.kt:81-91 | the text is empty exactly for zero seconds |
| CallLogAdapter.FormatDurationOfNatural | app/src/main/java/com/example/callbrowser/CallLogAdapter.kt:83-90 | from one hour the text is `H:MM:SS`, below it `M:SS`, with two-digit zero-filled fields |
| CallLogAdapter.FormatDurationInjective | app/src/main/java/com/example/callbrowser/CallLogAdapter.kt:81-91 | different non-negative durations never show the same text |
| CallLogAdapter.SameContentsIsSameItem | app/src/main/java/com/example/callbrowser/CallLogAdapter.kt:94-102 | unchanged contents imply the same item; the same item with a new date has changed contents |
| CallHistoryAdapter.MessageTypeLabel | app/src/main/java/com/example/callbrowser/CallHistoryAdapter.kt:86-94 | boxes 1 to 6 get their six labels in order; any other code reads `"Message"` |
| CallHistoryAdapter.MessageTypeOfLabel | app/src/main/java/com/example/callbrowser/CallHistoryAdapter.kt:86-94 | the inverse reading: a label names a box exactly when it is one of the six |
| CallHistoryAdapter.MessageTypeLabelRoundTrip | app/src/main/java/com/example/callbrowser/CallHistoryAdapter.kt:86-94 | each known box reads back as itself, and every other code as none |
| CallHistoryAdapter.ItemLabel | app/src/main/java/com/example/callbrowser/CallHistoryAdapter.kt:33-38 | a call row is labelled by its call type, a message row by its box |
| CallHistoryAdapter.LabelTellsKind | app/src/main/java/com/example/callbrowser/CallHistoryAdapter.kt:57-94 | no call label equals a message label, so equal labels mean the same kind of row |
| CallHistoryAdapter.FormatDuration | app/src/main/java/com/example/callbrowser/CallHistoryAdapter.kt:103-114 | `"0 sec"` exactly for zero seconds, and otherwise the hours-minutes-seconds text |
| CallHistoryAdapter.Bind | app/src/main/java/com/example/callbrowser/CallHistoryAdapter.kt:40-101 | the duration is visible exactly on call rows and shows the formatted duration; the body is visible exactly on message rows and shows the body |
| CallHistoryAdapter.BindShowsOneField | app/src/main/java/com/example/callbrowser/CallHistoryAdapter.kt:45-82 | exactly one of the duration and the body is visible |
| CallHistoryAdapter.DiffRules | app/src/main/java/com/example/callbrowser/CallHistoryAdapter.kt:117-133 | a call and a message are never the same item, unchanged contents imply the same item, and unchanged contents mean equality |
| ContactsAdapter.NameText | app/src/main/java/com/example/callbrowser/ContactsAdapter.kt:45 | the name, or `"Unknown"` |
| ContactsAdapter.PhoneText | app/src/main/java/com/example/callbrowser/ContactsAdapter.kt:46 | the phone number, or `"No phone number"` |
| ContactsAdapter.TimesContactedText | app/src/main/java/com/example/callbrowser/ContactsAdapter.kt:53 | `"Contacted: "`, the count in decimal, `" times"` |
| ContactsAdapter.Initial | app/src/main/java/com/example/callbrowser/ContactsAdapter.kt:56 | one character: the upper-cased first letter of a non-empty name, otherwise `"?"` |
| ContactsAdapter.InitialOfFirstLetter | app/src/main/java/com/example/callbrowser/ContactsAdapter.kt:56 | names with the same first letter get the same avatar |
| ContactsAdapter.SameContentsIsSameItem | app/src/main/java/com/example/callbrowser/ContactsAdapter.kt:65-73 | unchanged contents imply the same item; a new contacted count on the same item changes the contents |
| ContactsActivity.SortOptionFor | app/src/main/java/com/example/callbrowser/ContactsActivity.kt:76-83 | an unknown spinner position sorts by name ascending |
| ContactsActivity.PositionOf | app/src/main/java/com/example/callbrowser/ContactsActivity.kt:73-83 | the spinner position shown for an option is one of the four positions, and selecting it gives the option back |
| ContactsActivity.SortOptionRoundTrip | app/src/main/java/com/example/callbrowser/ContactsActivity.kt:31-83 | positions 0 to 3 and the four options correspond one to one, and the initial position selects the initial option |
| ContactsActivity.ToContactEntry | app/src/main/java/com/example/callbrowser/ContactsActivity.kt:143-154 | `contactId` becomes the entry id, and name and phone are carried over |
| ContactsActivity.ContactEntryRoundTrip | app/src/main/java/com/example/callbrowser/ContactsActivity.kt:143-154 | the conversion and its inverse lose nothing in either direction |
| ContactsActivity.Entries | app/src/main/java/com/example/callbrowser/ContactsActivity.kt:118 | `map { it.toContactEntry() }` converts row by row in order, so entries and rows correspond both ways, and distinct `contactId`s give distinct entry ids |
| ContactsActivity.ContactList | app/src/main/java/com/example/callbrowser/ContactsActivity.kt:117-118 | the submitted list is the repository's listing for the option, converted entry by entry in the same order: one entry per stored contact, every entry converts back to a stored contact, and ids are distinct |
| ContactsActivity.CountText | app/src/main/java/com/example/callbrowser/ContactsActivity.kt:119 | the count line ends in `" contacts"` and its leading digits read back as the number of stored contacts |
| ContactsActivity.OpenScreen | app/src/main/java/com/example/callbrowser/ContactsActivity.kt:126-130 | a non-empty table is left alone; an empty one gets exactly the provider's contact ids, or stays empty when the query fails |
| ContactsActivity.OpenScreenIdempotent | app/src/main/java/com/example/callbrowser/ContactsActivity.kt:126-130 | opening the screen again against an unchanged provider changes nothing |
| MainActivity.ApplyFilters | app/src/main/java/com/example/callbrowser/MainActivity.kt:328-361 | the shown rows are an order-preserving sub-list holding exactly the rows that every filter accepts |
| MainActivity.NoSelectionKeepsAll | app/src/main/java/com/example/callbrowser/MainActivity.kt:37-42 | with the initial filters the whole list is shown |
| MainActivity.CallTypeExcludesMessageRows | app/src/main/java/com/example/callbrowser/MainActivity.kt:339-344 | a specific call type shows only rows of exactly that type, so no message-only row |
| MainActivity.ContentFilters | app/src/main/java/com/example/callbrowser/MainActivity.kt:331-336 | the calls filter shows rows with a call; both message filters show message-only rows with a message |
| MainActivity.MessagesWithCallTypeEmpty | app/src/main/java/com/example/callbrowser/MainActivity.kt:331-344 | a message content type combined with a specific call type always shows an empty list |
| MainActivity.SavedUnsavedPartition | app/src/main/java/com/example/callbrowser/MainActivity.kt:347-351 | the saved and unsaved lists split the list shown under "all contacts", as counts and as multisets |
| MainActivity.OnContentSelected | app/src/main/java/com/example/callbrowser/MainActivity.kt:100-112 | the content type becomes the position and the other filters stay; on reload the flag becomes "numbers-only selected", otherwise it is kept |
| MainActivity.ContentSpinnerKeepsFlag | app/src/main/java/com/example/callbrowser/MainActivity.kt:100-112 | from an agreeing state, the list reloads exactly when the numbers-only type is entered or left, and the flag agrees again afterwards |
| MainActivity.InitialFiltersAgree | app/src/main/java/com/example/callbrowser/MainActivity.kt:37-40 | the screen starts with the flag agreeing with the content type |

## Left out

- The content providers, Room, `Flow`, coroutines and dispatchers are left out.
  - A provider query is a `Snapshot` parameter: its rows in cursor order, or
    `Unavailable` when the query throws.
  - A `null` cursor is the same as an empty row sequence.
  - Each DAO call is a function of the current table.
  - Background work runs to completion in one step, so interleavings of
    concurrent syncs are not modelled.
- `System.currentTimeMillis()` is a parameter (`now`). The Calendar-based
  `isSameDay` is a parameter (`sameDay`). Date text (`SimpleDateFormat`) is not
  modelled.
- Unicode case mapping (`lowercase`, `uppercaseChar`) is a parameter. Strings
  are sequences of Unicode scalar values, compared by code point. Kotlin
  strings are UTF-16, so two places can differ from the app:
- ContactRepository.GetContacts: the name-descending order compares
  lower-cased names by code point. Kotlin's `compareTo` compares UTF-16 code
  units, so a name holding a character above U+FFFF (a surrogate pair) and one
  holding a character in U+E000–U+FFFF can come out in the opposite order. The
  ascending `ORDER BY name` of SQLite's BINARY collation compares UTF-8 bytes,
  which agrees with code-point order, so `ContactDao.AllContacts` is unaffected.
- ContactsAdapter.Initial: the avatar is the upper-cased first character of
  the name. For a name starting with a character above U+FFFF, Kotlin's
  `firstOrNull()` yields only the high surrogate, while the model upper-cases
  the whole character.
- Int and Long widths are unbounded integers; overflow of summed durations and
  counts is not modelled. Kotlin's truncating division is written out in
  `KotlinMath`.
- The `syncTimestamp` columns (defaults from the clock) and the contacts
  table's auto-generated row id are dropped.
  - The contacts table is keyed by its unique `contactId`.
  - `REPLACE` on that unique index is modelled as an upsert, and the hidden
    surrogate id is left out.
- Ties in SQL `ORDER BY` have no defined order in SQLite, so the model fixes
  one: a stable sort of an arbitrary enumeration of the table. The properties
  stated about listings are the ones that hold for any order of the ties.
- The provider-side `DATE DESC` ordering of cursors is not assumed; the rows
  arrive in whatever order the snapshot lists them.
- `getPrimaryPhoneNumber` (a second provider query) is the `primaryPhone` field
  of a provider contact row.
- Colours, icons, click handlers, intents, permission requests, toasts and view
  inflation are left out. So are `AppDatabase`, `CallBrowserApplication`,
  `ContactSyncWorker`, the crash reporter and the unit test.
- MainActivity's `onResume`/`onPause` only call the repository's
  `startObservers`/`stopObservers`. They are modelled by
  `CommunicationRepository.StartObservers` and `StopObservers`.
- MainActivity's data loading (`reloadData`, `collectLatest`) is not modelled
  beyond `CombinedList.Combined`. The `numbersOnlyMessages` flag chooses
  between the filtered and the unfiltered summary query. The repository
  takes no such argument, so the main list is modelled over the filtered query
  (`MessageDao.UniqueNumbersWithMessageCount`). The unfiltered variant is
  modelled and related to it separately.
- Nothing in the code refreshes `isContactSaved` after an observer stores a
  row as "not saved" (the comments say the repository will update it). The
  model keeps those rows unsaved.
- The "Unknown"/"Incoming"… label `when` is written twice, in `CallLogAdapter`
  and `CallHistoryAdapter`. It is modelled once, as `CallLogAdapter.CallTypeLabel`.
- `CallLogEntry.kt` as written has no `messageCount` parameter, yet
  `getCombinedCommunicationList` passes one. The model gives the entry a
  `messageCount` field that defaults to 0, as the repository's use requires.
- Debounce.FromStart: the observers start their mark at `0`, so a
  notification at absolute time 0 does not fire (`0 - 0 > 1000` is false).
  The burst 0, 200, 400, 1500 therefore starts one sync, at 1500.
  `Debounce.LaterBurst` states the same burst pattern past the first second,
  where both its first and its last notification start a sync.
- CallLogAdapter.FormatDuration: the contract pins down only the zero case.
  The text for positive durations is stated by `FormatDurationOfNatural`.
  Negative durations get Kotlin's truncating fields, but no property is stated
  for them.
- CallDao.Summarize: the query has two aggregates, `MAX(date)` and
  `MAX(type)`. SQLite then takes the bare columns (`number`, `name`,
  `isContactSaved`) from a row where one of them reaches its maximum, and which
  one decides is not specified. The model only promises that the bare columns
  come from one row of the group.
- MessageDao.Summarize: the same two aggregates, so the bare columns
  (`address`, `name`, `isContactSaved`, `read`) are only promised to come from
  one row of the group.
