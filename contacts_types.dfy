/**
 * The records the contacts store works with (services/contacts/src/db.rs
 * and the types it imports): a contact, a SIM contact, the find options,
 * the store's errors and the change events it broadcasts.
 *
 * JSON columns: `addresses` and `url` are kept as the JSON text the store
 * writes and reads (never empty, since a serialized list is at least "[]");
 * the tel and email lists are kept as lists.
 */
module ContactsTypes {

  import opened Wrappers
  import opened Common

  /** The `\u{001E}` record separator that delimits tel numbers and emails. */
  const SEP: char := '\U{1E}'

  /** Most trailing digits `FuzzyMatch` compares. */
  const MIN_MATCH_DIGITS: nat := 7

  type byte = x: int | 0 <= x < 256

  /** Serialized JSON, as `serde_json::to_string` produces it: never empty. */
  type JsonText = s: string | |s| > 0 witness "[]"

  datatype ContactField = ContactField(atype: string, value: string, pref: bool)

  datatype ContactTelField = ContactTelField(atype: string, value: string, pref: bool, carrier: string)

  datatype ContactInfo = ContactInfo(
    id: string,
    published: SystemTime,
    updated: SystemTime,
    bday: SystemTime,
    anniversary: SystemTime,
    sex: string,
    genderIdentity: string,
    ringtone: string,
    photoType: string,
    photoBlob: seq<byte>,
    addresses: Option<JsonText>,
    email: Option<seq<ContactField>>,
    url: Option<JsonText>,
    name: string,
    tel: Option<seq<ContactTelField>>,
    honorificPrefix: Option<seq<string>>,
    givenName: string,
    phoneticGivenName: string,
    additionalName: Option<seq<string>>,
    familyName: string,
    phoneticFamilyName: string,
    honorificSuffix: Option<seq<string>>,
    nickname: Option<seq<string>>,
    category: Option<seq<string>>,
    org: Option<seq<string>>,
    jobTitle: Option<seq<string>>,
    note: Option<seq<string>>,
    groups: Option<seq<string>>,
    icePosition: i64)

  /** `ContactInfo::default()`: empty strings, no lists, every date at the epoch. */
  const DEFAULT_CONTACT: ContactInfo := ContactInfo(
    "", UNIX_EPOCH, UNIX_EPOCH, UNIX_EPOCH, UNIX_EPOCH, "", "", "", "", [],
    None, None, None, "", None, None, "", "", None, "", "", None,
    None, None, None, None, None, None, 0)

  datatype SimContactInfo = SimContactInfo(id: string, tel: string, email: string, name: string)

  datatype SortOption = GivenName | FamilyName | Name

  datatype Order = Ascending | Descending

  datatype FilterByOption = Name | GivenName | FamilyName | Email | Tel | Category

  datatype FilterOption = StartsWith | FuzzyMatch | Contains | Equals | Match

  datatype ContactFindSortOptions = ContactFindSortOptions(
    sortBy: SortOption,
    sortOrder: Order,
    filterValue: string,
    filterOption: FilterOption,
    filterBy: FilterByOption,
    onlyMainData: bool)

  datatype BlockedNumberFindOptions = BlockedNumberFindOptions(filterValue: string, filterOption: FilterOption)

  datatype ChangeReason = Create | Update | Remove

  datatype SpeedDialInfo = SpeedDialInfo(dialKey: string, tel: string, contactId: string)

  datatype GroupInfo = GroupInfo(name: string, id: string)

  /** The SQLite failures the model distinguishes. */
  datatype SqliteError =
    | UniqueConstraintFailed      // an INSERT/UPDATE clashes with a UNIQUE or PRIMARY KEY column
    | InvalidParameterCount       // a statement run with fewer values than placeholders

  datatype Error =
    | Sqlite(cause: SqliteError)
    | InvalidFilterOption(message: string)
    | InvalidContactId(message: string)
    | IcePositionUsed(message: string)

  /** The events the store hands to its broadcaster. */
  datatype ContactsEvent =
    | ContactsChange(reason: ChangeReason, contacts: seq<ContactInfo>)
    | BlockedNumberChange(reason: ChangeReason, number: string)
    | SpeedDialChange(reason: ChangeReason, speedDial: SpeedDialInfo)
    | GroupChange(reason: ChangeReason, group: GroupInfo)
}
