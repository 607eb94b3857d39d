# api-daemon core, modelled in Dafny

This project models three parts of the api-daemon (the B2G/KaiOS system
daemon) and proves properties of them:

- **The contacts store** (`services/contacts/src/db.rs`):
  - how a contact is laid out in the SQLite tables and read back:
    - the `contact_main` row, with its `\u{001E}`-delimited `tel_number` and `email` search columns;
    - the `(contact_id, data_type, value)` rows of `contact_additional`;
  - the conversion of a SIM record into a contact;
  - the `LIKE` patterns that `find` and `find_blocked_numbers` build;
  - the batching loop of `ContactDbCursor`;
  - the table-level operations of `ContactsDb`:
    - `clear_contacts`, `remove`, `save`, `import_sim_contacts`, `import_vcf`;
    - `set_ice`, `remove_ice`;
    - the blocked-number, speed-dial and group mutators.
- **The per-session settings service** (`services/settings/src/service.rs`):
  - the permission gate in front of every request, with its `fake-identity`/`uds` bypass;
  - `get`'s error mapping;
  - the bookkeeping of proxies and observers;
  - the registrations a session makes with the settings store every session shares, and undoes when it is dropped.
- **The shared helpers** (`common/src/lib.rs`):
  - the "is anyone listening" gate over the event map;
  - the wire form of a `SystemTime`: whole milliseconds since the Unix epoch.

Modules and files:

| file | module | what |
|---|---|---|
| `wrappers.dfy` | `Wrappers` | `Option`, `Result` |
| `common.dfy` | `Common` | integer widths, the event gate, `SystemTime` on the wire |
| `text.dfy` | `Text` | the Rust string behaviour the store relies on: `split`, UTF-8 byte length and char-boundary slicing, `i64` to text and back |
| `contacts_types.dfy` | `ContactsTypes` | `ContactInfo` and its defaults, SIM records, find options, errors, events |
| `contacts_codec.dfy` | `ContactsCodec` | SIM conversion, main and additional rows written and read back, the vCard property mapping |
| `contacts_find.dfy` | `ContactsFind` | sort/order strings, the `find` query and the `find_blocked_numbers` pattern, what each pattern selects |
| `contacts_cursor.dfy` | `ContactsCursor` | the cursor's worker loop as a sequential generator |
| `contacts_db.dfy` | `ContactsStore` | class `ContactsDb` over abstract tables, with an event log |
| `settings_service.dfy` | `Settings` | class `SettingsService`, the shared registry as a multiset of registrations |

How the store is represented:

- **Tables:**
  - `contact_main` is a map from contact id to its row;
  - `contact_additional` and `group_contacts` are sequences of rows in table order;
  - `blocked_numbers` is a set;
  - `speed_dials` and `groups` are maps keyed by their primary keys.
- **Constraints:** the UNIQUE and PRIMARY KEY columns of the schema become the errors an INSERT or UPDATE meets.
- **Events:** the event broadcaster is the log of events handed to it.
- **Nondeterminism:** fresh UUIDs and the current time are parameters.
- **Dates:** a `SystemTime` is a count of nanoseconds since the epoch, negative before it.

Where the code and its comments or documentation disagree, the model follows the code:

- `remove_group` always broadcasts its `Remove` event, even when no such group existed, unlike the other mutators.
- `add_observer` records `(name, id)` under the object reference with `insert`. A second `add_observer` on the same reference therefore replaces the earlier entry. Dropping the session then unregisters only the later observer, so the earlier registration stays in the shared store. Lemma `Settings.AddObserverRecorded` states both cases, and `Settings.SettingsService.Drop` undoes exactly what `observers` records.

## Model

| member | source | states |
|---|---|---|
| Common.IsEventInMap | common/src/lib.rs:35-40 | true exactly when the `(service, object, event)` key is present and mapped to `true`; an absent key or `false` gives false; being a function of the map's value, it cannot change the map |
| Common.GateFollowsItsOwnEntry | common/src/lib.rs:35-40 | setting one key's flag changes that key's gate to the flag and leaves every other gate as it was |
| Common.GateClosedOnRemoval | common/src/lib.rs:35-40 | removing a key closes its gate and leaves every other gate as it was |
| Common.Serialize | common/src/lib.rs:149-153 | before the epoch the wire value is 0; at or after it the value is the whole milliseconds since the epoch (sub-millisecond part dropped) |
| Common.Deserialize | common/src/lib.rs:134-139 | `ms` becomes the epoch plus `ms` milliseconds, a whole number of milliseconds at or after the epoch, and serializes back to `ms`; the `unwrap` of `checked_add` is the precondition |
| Common.EveryWireValueIsRepresentable | common/src/lib.rs:137-139 | the `unwrap` never panics: every `u64` millisecond count names an instant the platform holds |
| Common.DeserializeSerialize | common/src/lib.rs:134-153 | an instant at or after the epoch travels as itself truncated to whole milliseconds |
| Common.PreEpochTravelsAsEpoch | common/src/lib.rs:151-153 | every instant before the epoch reads back as the epoch |
| Common.SerializeMonotonic | common/src/lib.rs:149-150 | serialization keeps the order of instants |
| ContactsCodec.FromSimContact | services/contacts/src/db.rs:184-222 | the SIM tel and email strings split on `\u{001E}` into plain fields in order (joining them gives the strings back); the one name fills name, family and given name; the category is exactly `["SIM"]`; both timestamps are `now`; everything else is the default |
| ContactsCodec.EncodeSearchColumn | services/contacts/src/db.rs:385-407 | the appending loop builds the separator, then each value followed by a separator, in list order |
| ContactsCodec.EmptySearchColumn | services/contacts/src/db.rs:385-392 | with no values the search column is exactly one separator |
| ContactsCodec.SearchColumnSplits | services/contacts/src/db.rs:385-407 | splitting a search column on the separator gives back the values, between an empty piece on each side, when no value holds the separator |
| ContactsCodec.SaveMainData | services/contacts/src/db.rs:380-446 | the `contact_main` row: the names, both search columns, the tel/email lists as their JSON columns, the photo, and the dates as whole seconds |
| ContactsCodec.SecsColumn | services/contacts/src/db.rs:409-427 | a date column is the whole seconds since the epoch (0 before the epoch) |
| ContactsCodec.TimeFromSecs | services/contacts/src/db.rs:298-313 | a non-negative column reads back as that many seconds after the epoch; a negative one leaves the contact's date unchanged |
| ContactsCodec.SecsColumnRoundTrip | services/contacts/src/db.rs:298-313 | a date written and read back is the date truncated to whole seconds, or the epoch for one before it |
| ContactsCodec.MainDataRoundTrip | services/contacts/src/db.rs:256-316 | reading back a saved main row restores the id, names, photo and tel/email lists exactly, and the dates truncated to whole seconds |
| ContactsCodec.FillMainData | services/contacts/src/db.rs:256-316 | the contact takes the id; without a row nothing else changes, and the main row never touches a list, text, ICE, address or url field |
| ContactsCodec.KindOfListName | services/contacts/src/db.rs:331-372 | each name the writer uses for a list field is recognised by the reader as that field |
| ContactsCodec.KindOfTextName | services/contacts/src/db.rs:331-372 | each name the writer uses for a text field is recognised by the reader as that field |
| ContactsCodec.KindOf | services/contacts/src/db.rs:331-372 | the reader takes a row for a list or text field only under the name the writer uses for that field |
| ContactsCodec.FillVecField | services/contacts/src/db.rs:225-235 | a missing list becomes the one-element list and an existing one gets the value appended |
| ContactsCodec.FillAdditionalData | services/contacts/src/db.rs:318-378 | the contact takes the id and folds in the rows one after the other, in query order |
| ContactsCodec.ApplyRow | services/contacts/src/db.rs:331-372 | one row of `contact_additional` never touches the id or a main-row field, and a row of unknown type changes nothing |
| ContactsCodec.FillAdditional | services/contacts/src/db.rs:318-378 | folding the rows of `contact_additional` in query order never touches the id or a main-row field |
| ContactsCodec.VecRows | services/contacts/src/db.rs:237-245 | one row per list element, in list order, none for a missing list |
| ContactsCodec.StrRows | services/contacts/src/db.rs:247-253 | one row exactly when the text is not empty |
| ContactsCodec.SaveVecField | services/contacts/src/db.rs:237-245 | the loop appends one row per element, in order |
| ContactsCodec.SaveListFields | services/contacts/src/db.rs:452-459 | the rows of the eight list fields, field after field |
| ContactsCodec.SaveTextFields | services/contacts/src/db.rs:460-474 | the rows of the non-empty text fields |
| ContactsCodec.SaveExtraFields | services/contacts/src/db.rs:476-488 | a row for a non-zero ICE position as its decimal text, then the addresses and url JSON when present |
| ContactsCodec.IceRowWritten | services/contacts/src/db.rs:476-478 | ICE position 0 writes no `ice_position` row; any other position writes its decimal text first |
| ContactsCodec.SaveGroups | services/contacts/src/db.rs:490-498 | one `groups` row and one `group_contacts` link per group, in order |
| ContactsCodec.SaveAdditionalData | services/contacts/src/db.rs:448-501 | every `contact_additional` row and `group_contacts` link written for a contact, in insertion order |
| ContactsCodec.AdditionalDataRoundTrip | services/contacts/src/db.rs:318-501 | folding the written rows into the contact's main data restores every additional field: lists with elements in order (an empty list comes back missing), non-empty texts, a non-zero ICE position, the JSON fields |
| ContactsCodec.AdditionalDataRestored | services/contacts/src/db.rs:318-501 | the same round trip field by field: each list field as it was or missing when empty, each text field, the ICE position, addresses and url |
| ContactsCodec.ContactFromVcard | services/contacts/src/db.rs:1077-1107 | the loop over one card's properties, from the default contact, in card order |
| ContactsCodec.VcardEmails | services/contacts/src/db.rs:1079-1089 | the valued EMAIL properties append their values, in order, to the emails |
| ContactsCodec.VcardTels | services/contacts/src/db.rs:1090-1101 | the valued TEL properties append their values, in order, to the tels |
| ContactsCodec.VcardTitles | services/contacts/src/db.rs:1104-1105 | every TITLE property appends its value (or "") to the job titles |
| ContactsCodec.VcardNameLast | services/contacts/src/db.rs:1102-1103 | the last FN property decides the name; without one the name stays |
| ContactsCodec.VcardKeepsOtherFields | services/contacts/src/db.rs:1077-1107 | a card changes nothing but the emails, tels, job titles and name |
| ContactsCodec.VcardFieldsArePlain | services/contacts/src/db.rs:1079-1101 | every email and tel a card adds has no type, is not preferred and has no carrier |
| ContactsFind.SortColumn | services/contacts/src/db.rs:106-113 | each sort option names a non-empty column |
| ContactsFind.OrderKeyword | services/contacts/src/db.rs:116-122 | each order names a non-empty keyword |
| ContactsFind.SortAndOrderInjective | services/contacts/src/db.rs:106-122 | distinct sort options give distinct columns and distinct orders give distinct keywords |
| ContactsFind.FuzzyCore | services/contacts/src/db.rs:1169-1178 | the fuzzy core is a suffix of the value: the whole value when it has at most 7 bytes; for a longer value exactly 7 bytes when some tail of the value is 7 bytes long (the cut falls between characters), and otherwise the whole value; non-empty for a non-empty value |
| ContactsFind.BoundaryCutSucceeds | services/contacts/src/db.rs:909-913 | `get(len - 7..)` succeeds exactly when some tail of the value is 7 bytes long |
| ContactsFind.FuzzyCoreAscii | services/contacts/src/db.rs:1169-1178 | on ASCII values the core is the last 7 characters, or the whole value when shorter |
| ContactsFind.FuzzyCoreAsWritten | services/contacts/src/db.rs:903-918 | as `find` writes it, the core is the corrected one or empty, and it differs from the corrected one exactly when the value is longer than 7 bytes and the cut falls inside a character |
| ContactsFind.FindSourceOf | services/contacts/src/db.rs:867-888 | `find` searches the `category` rows exactly for the category filter and a `contact_main` column otherwise |
| ContactsFind.FindPatternWith | services/contacts/src/db.rs:891-932 | the option match of `find`, given the fuzzy core: the `LIKE` pattern each option binds on each field |
| ContactsFind.FindPattern | services/contacts/src/db.rs:891-932 | the pattern `find` binds with the corrected fuzzy core; the selection lemmas below are stated against it |
| ContactsFind.FindStartsWithText | services/contacts/src/db.rs:891-902 | `StartsWith` binds `%\u{1E}v%` on tel and email and `v%` on the other fields |
| ContactsFind.FindEqualsText | services/contacts/src/db.rs:920-930 | `Equals` binds `%\u{1E}v\u{1E}%` on tel and email and `v` on the other fields |
| ContactsFind.FindOtherOptionsText | services/contacts/src/db.rs:903-931 | `Contains` binds `%v%` on every field and `Match` the empty pattern; `FuzzyMatch` binds `%core\u{1E}%` with the core as written, which is the corrected core except for a cut inside a character |
| ContactsFind.FindFuzzyCutInsideText | services/contacts/src/db.rs:903-918 | for a value longer than 7 bytes whose cut falls inside a character, `find` binds `%\u{1E}%` on every field |
| ContactsFind.FindPatternAsWritten | services/contacts/src/db.rs:890-931 | apart from `FuzzyMatch`, the pattern as written is the corrected pattern |
| ContactsFind.FindQueryOf | services/contacts/src/db.rs:865-945 | the query searches the filter field's column with the filter option's pattern as written, ordered by the sort column and order except for categories, which are never ordered; its pattern differs from the corrected one exactly for a `FuzzyMatch` whose cut falls inside a character |
| ContactsFind.EqualsSelectsStoredValue | services/contacts/src/db.rs:920-930 | on a stored search column, `Equals` on tel or email matches exactly when the value is one of the contact's tels or emails |
| ContactsFind.StartsWithSelectsPrefix | services/contacts/src/db.rs:891-902 | on a stored search column, `StartsWith` matches exactly when a tel or email begins with the value |
| ContactsFind.FuzzyMatchSelectsSuffix | services/contacts/src/db.rs:903-918 | on a stored search column, `FuzzyMatch` matches exactly when a tel ends with the fuzzy core |
| ContactsFind.FuzzyMatchAsWrittenSelects | services/contacts/src/db.rs:903-918 | on a stored search column, `FuzzyMatch` as written selects every contact when the cut falls inside a character, and otherwise exactly what the corrected pattern selects |
| ContactsFind.ContainsSelectsSubstring | services/contacts/src/db.rs:919 | on a stored search column, `Contains` on tel or email matches exactly when the value occurs inside one of the stored tels or emails (every contact for the empty value) |
| ContactsFind.NameFieldPatterns | services/contacts/src/db.rs:891-930 | on name fields `StartsWith` matches the names beginning with the value and `Equals` the name itself |
| ContactsFind.FuzzyCutInsideCharacter | services/contacts/src/db.rs:903-918 | for `"1€234567"` the as-written core is empty and its pattern matches every contact, while the corrected core is the whole value |
| ContactsFind.BlockedNumberPattern | services/contacts/src/db.rs:1158-1190 | `Match` is refused with `InvalidFilterOption("Match")` and only `Match` is |
| ContactsFind.BlockedNumberPatternsSelect | services/contacts/src/db.rs:1167-1186 | the numbers selected are those starting with, ending with the fuzzy core of, containing, or equal to the value |
| ContactsFind.BlockedFuzzyMatchesItself | services/contacts/src/db.rs:1169-1179 | a number always matches its own fuzzy pattern |
| ContactsCursor.BatchLimit | services/contacts/src/db.rs:613 | `batch_size as usize`: a non-negative size is itself and a negative one wraps to a huge one |
| ContactsCursor.Collect | services/contacts/src/db.rs:579-624 | the inner loop of `Next` consumes a prefix of the rows, at least one row when any is left |
| ContactsCursor.NextBatch | services/contacts/src/db.rs:578-624 | one `Next` from an empty batch consumes a prefix of the rows, at least one row when any is left |
| ContactsCursor.ContactDbCursor.constructor | services/contacts/src/db.rs:553-571 | the cursor walks the prepared statement's rows, or none when it could not be prepared |
| ContactsCursor.ContactDbCursor.Next | services/contacts/src/db.rs:577-624 | one `Next` answers what the worker's inner loop sends first and consumes exactly the rows that loop fetched |
| ContactsCursor.CollectBatch | services/contacts/src/db.rs:582-616 | without fetch errors a `Next` answers a batch of at most `batch_size` contacts (any number for 0), fewer only when the rows ran out, and the batch followed by what the remaining rows yield is what the rows yield |
| ContactsCursor.CollectKeepsSent | services/contacts/src/db.rs:582-616 | once a message is sent, it is the answer the caller receives |
| ContactsCursor.CollectFetchError | services/contacts/src/db.rs:619-622 | a fetch error makes the answer `None` exactly when it happens among the rows the `Next` walked |
| ContactsCursor.EmptyBatchMeansEnd | services/contacts/src/db.rs:581-591 | once the rows yield nothing more, a `Next` answers the empty batch; before that a batch is never empty |
| ContactsCursor.DrainStep | services/contacts/src/db.rs:582-616 | one `Next` of a drain: a non-empty batch of at most `batch_size`, full unless it is the last, then the batches of the remaining rows |
| ContactsCursor.DrainYieldsAllContacts | services/contacts/src/db.rs:582-616 | draining a cursor without fetch errors, the batches put end to end are the contacts whose fill succeeded, in query order |
| ContactsCursor.DrainBatchSizes | services/contacts/src/db.rs:582-616 | draining answers only non-empty batches of at most `batch_size`, all full but the last |
| ContactsStore.CountMatchesIds | services/contacts/src/db.rs:678-696 | the `COUNT(*)` of `remove` equals the number of ids exactly when the ids are distinct and all stored |
| ContactsStore.RowsNotOf | services/contacts/src/db.rs:702-705 | the deletion keeps exactly the rows of other contacts |
| ContactsStore.LinksNotOf | services/contacts/src/db.rs:714-717 | the deletion keeps exactly the links of other contacts |
| ContactsStore.BlankContacts | services/contacts/src/db.rs:706-709 | every speed dial keeps its key and tel and loses its contact id exactly when that id is deleted |
| ContactsStore.RemovedContacts | services/contacts/src/db.rs:718-720 | the `Remove` event lists a default contact carrying each id, in order |
| ContactsStore.RemoveStep | services/contacts/src/db.rs:699-721 | one turn of `remove`'s loop extends what has been deleted and listed by one id |
| ContactsStore.RemoveKeepsBelonging | services/contacts/src/db.rs:699-721 | after the deletions every remaining additional row and link still belongs to a stored contact |
| ContactsStore.ContactsDb.constructor | services/contacts/src/db.rs:648-653 | a fresh store: every table empty, nothing broadcast |
| ContactsStore.ContactsDb.ClearContacts | services/contacts/src/db.rs:663-673 | every contact goes with its rows and links, speed dials keep their key and tel but lose their contact; numbers and groups stay, no event |
| ContactsStore.ContactsDb.DeleteContacts | services/contacts/src/db.rs:699-721 | the loop deletes each id's rows and links, blanks its dials and lists it, in order |
| ContactsStore.ContactsDb.Remove | services/contacts/src/db.rs:675-731 | all or nothing: an empty list is a binding error; unless the ids are distinct and all stored it fails with `InvalidContactId` and changes nothing; otherwise it deletes every contact with its rows and links, blanks their speed dials and broadcasts one `Remove` event listing them |
| ContactsStore.Stamped | services/contacts/src/db.rs:741-765 | an update keeps the id and takes the update time; a creation takes the new id and its creation time; nothing else changes |
| ContactsStore.SaveStep | services/contacts/src/db.rs:741-775 | one turn of `save`'s loop either changes nothing or appends the stamped contact to the saved ones, with its main row stored |
| ContactsStore.SaveAll | services/contacts/src/db.rs:740-776 | `save`'s loop keeps what was saved before and saves at most one contact per input |
| ContactsStore.SaveStepKeepsBelonging | services/contacts/src/db.rs:740-776 | one saved contact keeps every additional row and link tied to a stored contact |
| ContactsStore.SaveAllKeepsBelonging | services/contacts/src/db.rs:740-776 | the whole save keeps every additional row and link tied to a stored contact |
| ContactsStore.SaveStepReadsBack | services/contacts/src/db.rs:740-776 | a saved contact leaves its main row and exactly the rows `save_additional_data` wrote for it, which read back as its additional data |
| ContactsStore.UpdatedContacts | services/contacts/src/db.rs:740-775 | an update saves at most the contacts given |
| ContactsStore.SaveUpdateSaves | services/contacts/src/db.rs:740-776 | an update saves every contact that has an id, stamped, in order, and skips the others |
| ContactsStore.CreatedContacts | services/contacts/src/db.rs:740-775 | each new contact carries its new id and creation time |
| ContactsStore.SaveCreateKeys | services/contacts/src/db.rs:740-776 | with distinct fresh ids, a creation stores a main row under each new id |
| ContactsStore.SaveCreateSaves | services/contacts/src/db.rs:740-776 | with distinct fresh ids, a creation saves every contact, in order, under its new id |
| ContactsStore.ContactsDb.StoreContact | services/contacts/src/db.rs:767-774 | one contact's main row, additional rows and group links are inserted |
| ContactsStore.ContactsDb.SaveOne | services/contacts/src/db.rs:741-775 | one turn of `save`'s loop is `SaveStep`: skip an update without an id, delete an updated contact's rows, skip a main row that meets the primary key |
| ContactsStore.ContactsDb.SaveContacts | services/contacts/src/db.rs:740-776 | the loop leaves the tables and the saved list that `SaveAll` gives |
| ContactsStore.ContactsDb.Save | services/contacts/src/db.rs:733-790 | the tables become what saving each contact in turn gives, the invariants hold, and one `Create` or `Update` event lists the contacts saved |
| ContactsStore.SimContacts | services/contacts/src/db.rs:1375-1380 | each SIM record converted, in order, keeping its id, with representable dates |
| ContactsStore.ContactsDb.ImportSimContacts | services/contacts/src/db.rs:1375-1380 | the converted SIM records are saved as updates |
| ContactsStore.VcardContacts | services/contacts/src/db.rs:1072-1111 | one contact per card that parsed, at most one per card, with representable dates |
| ContactsStore.CollectVcardContacts | services/contacts/src/db.rs:1073-1111 | the loop over the cards collects one contact per parsed card, in order |
| ContactsStore.ContactsDb.ImportVcf | services/contacts/src/db.rs:1070-1113 | the parsed cards are saved as new contacts and their number returned |
| ContactsStore.SetIceValue | services/contacts/src/db.rs:1010-1015 | the update rewrites exactly the contact's `ice_position` rows |
| ContactsStore.SetIcePlacesPosition | services/contacts/src/db.rs:1001-1022 | after `set_ice` the contact has an `ice_position` row, each of its rows holds the position, and every other row is as it was |
| ContactsStore.SetIceKeepsPositionsUnique | services/contacts/src/db.rs:988-1022 | with the position free, no position ends up held twice and each contact still holds at most one row |
| ContactsStore.ContactsDb.SetIce | services/contacts/src/db.rs:974-1025 | an unknown contact is `InvalidContactId`; a position any `ice_position` row holds (the contact's own included) is `IcePositionUsed`; both change nothing; otherwise the contact's row is updated or one inserted |
| ContactsStore.RowsWithoutIce | services/contacts/src/db.rs:1041-1044 | the deletion keeps exactly the rows that are not this contact's `ice_position` rows |
| ContactsStore.RemoveIceFreesOnlyItsPosition | services/contacts/src/db.rs:1027-1047 | after `remove_ice` the contact has no `ice_position` row and only the positions it held are freed |
| ContactsStore.ContactsDb.RemoveIce | services/contacts/src/db.rs:1027-1047 | an unknown contact is `InvalidContactId` and changes nothing; otherwise its `ice_position` rows are deleted |
| ContactsStore.ContactsDb.AddBlockedNumber | services/contacts/src/db.rs:1115-1130 | a stored number fails the unique constraint and changes nothing; otherwise it is added and a `Create` event sent |
| ContactsStore.ContactsDb.RemoveBlockedNumber | services/contacts/src/db.rs:1132-1147 | the number is deleted; a `Remove` event goes out exactly when it was stored |
| ContactsStore.ContactsDb.AddSpeedDial | services/contacts/src/db.rs:1208-1236 | a stored dial key fails the unique constraint and changes nothing; otherwise the dial is added and a `Create` event sent |
| ContactsStore.ContactsDb.UpdateSpeedDial | services/contacts/src/db.rs:1238-1265 | a stored key is rewritten with an `Update` event; an unknown key changes nothing and sends nothing |
| ContactsStore.ContactsDb.RemoveSpeedDial | services/contacts/src/db.rs:1267-1285 | the key is deleted; a `Remove` event with empty tel and contact goes out exactly when it was stored |
| ContactsStore.NamesStayUnique | services/contacts/src/db.rs:1314-1332 | a name may go under an id without breaking the unique names exactly when no other group holds it |
| ContactsStore.ContactsDb.AddGroup | services/contacts/src/db.rs:1310-1327 | a clash on the new id or the name fails and changes nothing; otherwise the group is added and a `Create` event sent |
| ContactsStore.ContactsDb.UpdateGroup | services/contacts/src/db.rs:1329-1345 | renaming to a name another group holds fails; an unknown id changes nothing; otherwise the group is renamed with an `Update` event |
| ContactsStore.RowsNotInGroup | services/contacts/src/db.rs:1292-1295 | the deletion keeps exactly the rows that are not `groups` rows naming the group |
| ContactsStore.LinksNotInGroup | services/contacts/src/db.rs:1291 | the deletion keeps exactly the links to other groups |
| ContactsStore.ContactsDb.RemoveGroup | services/contacts/src/db.rs:1287-1308 | the group, its links and the `groups` rows naming it go, and a `Remove` event with an empty name is always sent |
| Settings.HasPermission | services/settings/src/service.rs:41-58 | the `fake-identity` and `uds` identities hold every permission; any other identity holds exactly the permissions it was granted |
| Settings.PermissionMonotonic | services/settings/src/service.rs:41-58 | granting more permissions never takes one away, and the bypass identities hold every permission |
| Settings.GetReply | services/settings/src/service.rs:84-97 | the setting on success; otherwise an error naming the requested setting, `NonExistingSetting` exactly when the store found no row and `UnknownError` for every other failure |
| Settings.SettingsService.Clear | services/settings/src/service.rs:62-72 | without `settings:write` a permission error and nothing else; otherwise resolve or reject as the store cleared or not |
| Settings.SettingsService.Get | services/settings/src/service.rs:74-100 | without `settings:read` a permission error; otherwise `GetReply` of the store's lookup |
| Settings.SettingsService.Set | services/settings/src/service.rs:102-117 | without `settings:write` a permission error; otherwise resolve or reject as the store stored or not |
| Settings.SettingsService.GetBatch | services/settings/src/service.rs:119-134 | without `settings:read` a permission error; otherwise the settings found, or reject |
| Settings.SettingsService.Create | services/settings/src/service.rs:199-217 | registers exactly one dispatcher with the shared store and starts with no proxies and no observers |
| Settings.SettingsService.AddObserver | services/settings/src/service.rs:136-159 | without `settings:read` a permission error and no change; it resolves exactly when the reference names a tracked setting observer, and then registers the observer and records `(name, id)` under the reference; otherwise it rejects and nothing changes |
| Settings.SettingsService.RemoveObserver | services/settings/src/service.rs:161-187 | without `settings:read` a permission error; it resolves exactly when the reference is tracked and recorded, and then unregisters the recorded id under the requested name, leaving the entry in place; otherwise nothing changes |
| Settings.SettingsService.ReleaseObject | services/settings/src/service.rs:234-237 | the proxy is forgotten and the answer says whether it was tracked; the observers are untouched |
| Settings.SettingsService.Drop | services/settings/src/service.rs:240-250 | the dispatcher and every observer recorded in `observers` are unregistered from the shared store |
| Settings.RecordedWithout | services/settings/src/service.rs:247-249 | the registrations the recorded observers stand for do not depend on the order the map yields them |
| Settings.AddObserverRecorded | services/settings/src/service.rs:148-158 | recording under a fresh reference adds exactly its registration to what dropping undoes; recording under a used reference replaces the earlier one, which dropping then no longer undoes |
| Settings.CreateThenDropRestores | services/settings/src/service.rs:199-250 | a session made by `Create` and dropped by `Drop` without recording an observer leaves the shared store's registrations as it found them |

## Left out

- SQLite itself: the SQL text, `LIKE` matching (its `%`/`_` wildcards inside values and its ASCII case folding), `COLLATE NOCASE` ordering and transactions. Patterns are read literally, the ordering is kept as the column and keyword, and every operation is atomic.
- SQL failures other than the unique and primary-key constraints and the empty `IN (?)` binding of `remove`: a failing `prepare`, `execute` or `commit` (the `?` early returns). The schema's foreign keys are not enforced either; the store's invariant `Valid` states the belonging they would demand.
- `serde_json`: the `tel_json`/`email_json` columns are the lists they encode, and the `addresses`/`url` JSON is opaque text.
- `Uuid::new_v4()` and `SystemTime::now()`: fresh ids and the current time are parameters.
- ContactsCodec.FromSimContact: `From<&SimContactInfo>` reads the clock twice for `published` and `updated`; the model uses one `now` for both.
- ContactsStore.ContactsDb.Save: an update reads the clock twice and keeps the second reading; the model uses one `now`.
- The cursor's worker thread and channels: a `Next` is a call answered with the first message the worker sends. `Stop`, the cursor's `Drop` and a failed `recv` are not modelled. The fill results of each row (`row_to_contact_id`, `fill_main_data`, `fill_additional_data`) are given with the row.
- The plain reads `get`, `count`, `get_all`, `get_all_ice`, `get_speed_dials`, `get_all_groups`, `get_contactids_from_group` and `get_all_blocked_numbers`: they are queries through the cursor or `rows_to_vec` with no logic beyond the SQL. `find` is modelled as the query it prepares, with the `FuzzyMatch` core as written.
- `add_dispatcher`/`remove_dispatcher` of the contacts store: they pass through to the broadcaster.
- The vCard parser (`ical::VcardParser`): a card is given as its parsed properties, or as none when it did not parse.
- The schema and its upgrade (`create_db`, `ContactsSchemaManager`).
- The settings store (services/settings/src/db.rs) is not part of this model. Its registry is a multiset of registrations, the ids it hands out are parameters, and the outcomes of `clear`, `set`, `get` and `get_batch` are parameters of the requests.
- The threads `get`, `set` and `get_batch` spawn: each request runs synchronously and returns its reply.
- `format_request` and `on_request` of the settings service: message decoding and dispatch.
- Common.Serialize: `as_millis() as u64` wrap-around is modelled, but the `serde` serializer is not; the value is the `u64` itself.
- The logging macros, and the `bincode`/`JsonValue` helpers of common/src/lib.rs.

## Findings

| source | as written | input that shows it | evidently intended | confidence | as-written member | corrected member |
|---|---|---|---|---|---|---|
| services/contacts/src/db.rs:903-918 | `find`'s `FuzzyMatch` keeps the last 7 bytes of the value, and when that cut falls inside a multi-byte character `get` fails and the core stays `""`, so the pattern `%\u{1E}%` matches every contact | tel filter `"1€234567"` (10 bytes; byte 3 is inside `€`) | keep the whole value when the cut is not on a character boundary, as `find_blocked_numbers` does at lines 1169-1178 | not executed; medium | ContactsFind.FuzzyCutInsideCharacter | ContactsFind.FuzzyCore |
