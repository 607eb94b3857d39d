/**
 * How a contact is laid out in the store's tables and read back
 * (services/contacts/src/db.rs, `impl ContactInfo` and its macros):
 *  - `From<&SimContactInfo>`: a SIM record becomes a contact;
 *  - `save_main_data`: the `contact_main` row, with the `\u{001E}`-delimited
 *    `tel_number` and `email` search columns; `fill_main_data` reads it back;
 *  - `save_additional_data`: one `(contact_id, data_type, value)` row per
 *    list element or non-empty text field; `fill_additional_data` folds the
 *    rows back into a contact;
 *  - the vCard property mapping of `import_vcf`.
 */
module ContactsCodec {

  import opened Wrappers
  import opened Common
  import opened Text
  import opened ContactsTypes

  // ---------------------------------------------------------------------
  // From<&SimContactInfo>
  // ---------------------------------------------------------------------

  function TelValues(tels: seq<ContactTelField>): (values: seq<string>)
    ensures |values| == |tels| && forall i :: 0 <= i < |tels| ==> values[i] == tels[i].value
  {
    seq(|tels|, i requires 0 <= i < |tels| => tels[i].value)
  }

  function EmailValues(emails: seq<ContactField>): (values: seq<string>)
    ensures |values| == |emails| && forall i :: 0 <= i < |emails| ==> values[i] == emails[i].value
  {
    seq(|emails|, i requires 0 <= i < |emails| => emails[i].value)
  }

  /**
   * `ContactInfo::from(&SimContactInfo)`: the SIM's tel and email strings are
   * split on `\u{001E}` into plain fields, in order (joining the values again
   * gives the SIM's strings back); the one name fills name, family name and
   * given name; the category is exactly ["SIM"]; both timestamps are `now`.
   */
  function FromSimContact(sim: SimContactInfo, now: SystemTime): (c: ContactInfo)
    ensures c.id == sim.id
    ensures c.name == sim.name && c.familyName == sim.name && c.givenName == sim.name
    ensures c.tel.Some? && |c.tel.value| >= 1 && Join(TelValues(c.tel.value), SEP) == sim.tel
    ensures forall i :: 0 <= i < |c.tel.value| ==>
              c.tel.value[i].atype == "" && !c.tel.value[i].pref && c.tel.value[i].carrier == "" &&
              SEP !in c.tel.value[i].value
    ensures c.email.Some? && |c.email.value| >= 1 && Join(EmailValues(c.email.value), SEP) == sim.email
    ensures forall i :: 0 <= i < |c.email.value| ==>
              c.email.value[i].atype == "" && !c.email.value[i].pref && SEP !in c.email.value[i].value
    ensures c.category == Some(["SIM"])
    ensures c.published == now && c.updated == now
    ensures c.(id := "", name := "", familyName := "", givenName := "", tel := None, email := None,
               category := None, published := UNIX_EPOCH, updated := UNIX_EPOCH) == DEFAULT_CONTACT
  {
    var simTels := Split(sim.tel, SEP);
    var simEmails := Split(sim.email, SEP);
    var tels := seq(|simTels|, i requires 0 <= i < |simTels| => ContactTelField("", simTels[i], false, ""));
    var emails := seq(|simEmails|, i requires 0 <= i < |simEmails| => ContactField("", simEmails[i], false));
    JoinSplit(sim.tel, SEP);
    JoinSplit(sim.email, SEP);
    assert TelValues(tels) == simTels;
    assert EmailValues(emails) == simEmails;
    DEFAULT_CONTACT.(
      id := sim.id, name := sim.name, familyName := sim.name, givenName := sim.name,
      tel := Some(tels), email := Some(emails), category := Some(["SIM"]),
      published := now, updated := now)
  }

  // ---------------------------------------------------------------------
  // The tel_number / email search columns
  // ---------------------------------------------------------------------

  /**
   * The search column for a list of values: the separator, then every value
   * followed by the separator. Equivalently: the list with an empty piece on
   * each side, joined with the separator.
   */
  function SearchColumn(values: seq<string>): string {
    Join([""] + values + [""], SEP)
  }

  /** The values of an optional list, as the loops of `save_main_data` see them. */
  function OrEmpty<T>(list: Option<seq<T>>): seq<T> {
    if list.Some? then list.value else []
  }

  /**
   * The appending loop of `save_main_data`: start from the separator, then
   * append each value and a separator.
   */
  method EncodeSearchColumn(values: seq<string>) returns (column: string)
    ensures column == SearchColumn(values)
  {
    column := [SEP];
    EmptySearchColumn();
    assert values[..0] == [];
    for i := 0 to |values|
      invariant column == SearchColumn(values[..i])
    {
      SearchColumnSnoc(values[..i], values[i]);
      assert values[..i + 1] == values[..i] + [values[i]];
      column := column + values[i];
      column := column + [SEP];
    }
    assert values[..|values|] == values;
  }

  /** Appending one value to the list appends it and a separator to the column. */
  lemma SearchColumnSnoc(values: seq<string>, v: string)
    ensures SearchColumn(values + [v]) == SearchColumn(values) + v + [SEP]
  {
    var head := Join([""] + values, SEP);
    JoinSnoc([""] + values, v, SEP);
    JoinSnoc([""] + values + [v], "", SEP);
    JoinSnoc([""] + values, "", SEP);
    assert [""] + (values + [v]) + [""] == ([""] + values + [v]) + [""];
    assert SearchColumn(values + [v]) == head + [SEP] + v + [SEP] + "";
    assert SearchColumn(values) == head + [SEP] + "";
    assert head + [SEP] + v + [SEP] + "" == (head + [SEP] + "") + v + [SEP];
  }

  /** With no values the column is exactly one separator. */
  lemma EmptySearchColumn()
    ensures SearchColumn([]) == [SEP]
  {
    assert [""] + [] + [""] == ["", ""];
    assert Join(["", ""], SEP) == "" + [SEP] + Join([""], SEP);
    assert "" + [SEP] + "" == [SEP];
  }

  /**
   * Splitting a search column on the separator gives back the values, with
   * an empty piece before and after, when no value holds the separator.
   */
  lemma SearchColumnSplits(values: seq<string>)
    requires forall i :: 0 <= i < |values| ==> SEP !in values[i]
    ensures Split(SearchColumn(values), SEP) == [""] + values + [""]
  {
    var parts := [""] + values + [""];
    forall i | 0 <= i < |parts| ensures SEP !in parts[i] {
      if 0 < i < |parts| - 1 { assert parts[i] == values[i - 1]; }
    }
    SplitJoin(parts, SEP);
  }

  // ---------------------------------------------------------------------
  // contact_main: save_main_data / fill_main_data
  // ---------------------------------------------------------------------

  /**
   * One `contact_main` row. The JSON columns `tel_json`/`email_json` are
   * kept as the lists they encode; `None` is the empty column.
   */
  datatype MainRecord = MainRecord(
    name: string,
    familyName: string,
    givenName: string,
    telNumber: string,
    telJson: Option<seq<ContactTelField>>,
    email: string,
    emailJson: Option<seq<ContactField>>,
    photoType: string,
    photoBlob: seq<byte>,
    published: i64,
    updated: i64,
    bday: i64,
    anniversary: i64)

  /** `n as i64` for a `u64` `n`: the low 64 bits, read as two's complement. */
  function AsI64(n: u64): (r: i64)
    ensures n <= I64_MAX ==> r == n
  {
    if n <= I64_MAX then n else n - U64_LIMIT
  }

  /** The date columns: `duration_since(UNIX_EPOCH).as_secs() as i64`, or 0 before the epoch. */
  function SecsColumn(t: SystemTime): (secs: i64)
    requires Representable(t)
    ensures t.nanos < 0 ==> secs == 0
    ensures t.nanos >= 0 ==> secs >= 0 && secs * NANOS_PER_SEC <= t.nanos < (secs + 1) * NANOS_PER_SEC
  {
    if t.nanos >= 0 then AsI64(t.nanos / NANOS_PER_SEC) else 0
  }

  /**
   * The date columns read back: `UNIX_EPOCH.checked_add(from_secs(secs as u64))`.
   * A negative column wraps to a `u64` past every representable instant, so
   * the addition fails and the previous value stays.
   */
  function TimeFromSecs(previous: SystemTime, secs: i64): (t: SystemTime)
    ensures secs >= 0 ==> t.nanos == secs * NANOS_PER_SEC && Representable(t)
    ensures secs < 0 ==> t == previous
  {
    if secs >= 0 then SystemTime(secs * NANOS_PER_SEC) else previous
  }

  /** Contacts whose dates the platform can hold. */
  predicate DatesRepresentable(c: ContactInfo) {
    Representable(c.published) && Representable(c.updated) &&
    Representable(c.bday) && Representable(c.anniversary)
  }

  /** The row `save_main_data` inserts for a contact. */
  function MainRecordOf(c: ContactInfo): MainRecord
    requires DatesRepresentable(c)
  {
    MainRecord(
      c.name, c.familyName, c.givenName,
      SearchColumn(TelValues(OrEmpty(c.tel))), c.tel,
      SearchColumn(EmailValues(OrEmpty(c.email))), c.email,
      c.photoType, c.photoBlob,
      SecsColumn(c.published), SecsColumn(c.updated), SecsColumn(c.bday), SecsColumn(c.anniversary))
  }

  /** `save_main_data`: builds the two search columns with their appending loops. */
  method SaveMainData(c: ContactInfo) returns (row: MainRecord)
    requires DatesRepresentable(c)
    ensures row == MainRecordOf(c)
  {
    var telNumber := EncodeSearchColumn(TelValues(OrEmpty(c.tel)));
    var emailAddress := EncodeSearchColumn(EmailValues(OrEmpty(c.email)));
    row := MainRecord(
      c.name, c.familyName, c.givenName, telNumber, c.tel, emailAddress, c.email,
      c.photoType, c.photoBlob,
      SecsColumn(c.published), SecsColumn(c.updated), SecsColumn(c.bday), SecsColumn(c.anniversary));
  }

  /**
   * `fill_main_data`: the contact takes the id; if the id has a row (at most
   * one, as `contact_id` is the primary key), its names, photo and dates
   * overwrite the contact's, and its non-empty JSON columns its tel/email.
   */
  function FillMainData(c: ContactInfo, id: string, row: Option<MainRecord>): (filled: ContactInfo)
    ensures filled.id == id
    ensures row.None? ==> filled == c.(id := id)
    ensures forall f :: ListOf(filled, f) == ListOf(c, f)
    ensures forall g :: TextOf(filled, g) == TextOf(c, g)
    ensures filled.icePosition == c.icePosition && filled.addresses == c.addresses && filled.url == c.url
  {
    var c := c.(id := id);
    match row
    case None => c
    case Some(r) =>
      c.(name := r.name, familyName := r.familyName, givenName := r.givenName,
         tel := if r.telJson.Some? then r.telJson else c.tel,
         email := if r.emailJson.Some? then r.emailJson else c.email,
         photoType := r.photoType, photoBlob := r.photoBlob,
         published := TimeFromSecs(c.published, r.published),
         updated := TimeFromSecs(c.updated, r.updated),
         bday := TimeFromSecs(c.bday, r.bday),
         anniversary := TimeFromSecs(c.anniversary, r.anniversary))
  }

  /** A date as it survives the seconds column: whole seconds, the epoch before it. */
  function ThroughSecsColumn(t: SystemTime): SystemTime {
    if t.nanos >= 0 then SystemTime(t.nanos - t.nanos % NANOS_PER_SEC) else UNIX_EPOCH
  }

  lemma SecsColumnRoundTrip(t: SystemTime)
    requires Representable(t)
    ensures TimeFromSecs(UNIX_EPOCH, SecsColumn(t)) == ThroughSecsColumn(t)
  {
    if t.nanos >= 0 {
      assert t.nanos / NANOS_PER_SEC <= I64_MAX;
    }
  }

  /**
   * Reading back the main row of a saved contact into a default contact
   * restores its names, photo, tel and email lists exactly, and its dates
   * truncated to whole seconds (the epoch for dates before it).
   */
  lemma MainDataRoundTrip(c: ContactInfo)
    requires DatesRepresentable(c)
    ensures var r := FillMainData(DEFAULT_CONTACT, c.id, Some(MainRecordOf(c)));
      && r.id == c.id && r.name == c.name && r.familyName == c.familyName && r.givenName == c.givenName
      && r.tel == c.tel && r.email == c.email && r.photoType == c.photoType && r.photoBlob == c.photoBlob
      && r.published == ThroughSecsColumn(c.published) && r.updated == ThroughSecsColumn(c.updated)
      && r.bday == ThroughSecsColumn(c.bday) && r.anniversary == ThroughSecsColumn(c.anniversary)
  {
    SecsColumnRoundTrip(c.published);
    SecsColumnRoundTrip(c.updated);
    SecsColumnRoundTrip(c.bday);
    SecsColumnRoundTrip(c.anniversary);
  }

  // ---------------------------------------------------------------------
  // contact_additional: save_additional_data / fill_additional_data
  // ---------------------------------------------------------------------

  datatype AdditionalRow = AdditionalRow(contactId: string, dataType: string, value: string)

  /** One `group_contacts` row (its INTEGER key is not modelled). */
  datatype GroupContact = GroupContact(groupId: string, contactId: string)

  /** The list-valued fields, each stored as one row per element. */
  datatype ListField = HonorificPrefix | AdditionalName | HonorificSuffix | Nickname
                     | Category | Org | JobTitle | Note | Groups

  /** The text fields, each stored as one row when non-empty. */
  datatype TextField = Sex | GenderIdentity | Ringtone | PhoneticGivenName | PhoneticFamilyName

  /** What a `data_type` string names. */
  datatype DataKind = ListData(list: ListField) | TextData(text: TextField)
                    | AddressesData | UrlData | IcePositionData | UnknownData

  function ListFieldName(f: ListField): string {
    match f
    case HonorificPrefix => "honorific_prefix"
    case AdditionalName => "additional_name"
    case HonorificSuffix => "honorific_suffix"
    case Nickname => "nickname"
    case Category => "category"
    case Org => "org"
    case JobTitle => "job_title"
    case Note => "note"
    case Groups => "groups"
  }

  function TextFieldName(g: TextField): string {
    match g
    case Sex => "sex"
    case GenderIdentity => "gender_identity"
    case Ringtone => "ringtone"
    case PhoneticGivenName => "phonetic_given_name"
    case PhoneticFamilyName => "phonetic_family_name"
  }

  /** The `if row.data_type == ...` chain of `fill_additional_data`. */
  function KindOf(dataType: string): (kind: DataKind)
    ensures kind.ListData? ==> dataType == ListFieldName(kind.list)
    ensures kind.TextData? ==> dataType == TextFieldName(kind.text)
  {
    if dataType == "honorific_prefix" then ListData(HonorificPrefix)
    else if dataType == "phonetic_given_name" then TextData(PhoneticGivenName)
    else if dataType == "phonetic_family_name" then TextData(PhoneticFamilyName)
    else if dataType == "additional_name" then ListData(AdditionalName)
    else if dataType == "honorific_suffix" then ListData(HonorificSuffix)
    else if dataType == "nickname" then ListData(Nickname)
    else if dataType == "category" then ListData(ListField.Category)
    else if dataType == "org" then ListData(Org)
    else if dataType == "job_title" then ListData(JobTitle)
    else if dataType == "note" then ListData(Note)
    else if dataType == "addresses" then AddressesData
    else if dataType == "ringtone" then TextData(Ringtone)
    else if dataType == "gender_identity" then TextData(GenderIdentity)
    else if dataType == "sex" then TextData(Sex)
    else if dataType == "url" then UrlData
    else if dataType == "groups" then ListData(Groups)
    else if dataType == "ice_position" then IcePositionData
    else UnknownData
  }

  /** The names the writer uses for list fields are the ones the reader recognises. */
  lemma KindOfListName(f: ListField)
    ensures KindOf(ListFieldName(f)) == ListData(f)
  {
  }

  /** The names the writer uses for text fields are the ones the reader recognises. */
  lemma KindOfTextName(g: TextField)
    ensures KindOf(TextFieldName(g)) == TextData(g)
  {
  }

  function ListOf(c: ContactInfo, f: ListField): Option<seq<string>> {
    match f
    case HonorificPrefix => c.honorificPrefix
    case AdditionalName => c.additionalName
    case HonorificSuffix => c.honorificSuffix
    case Nickname => c.nickname
    case Category => c.category
    case Org => c.org
    case JobTitle => c.jobTitle
    case Note => c.note
    case Groups => c.groups
  }

  function WithList(c: ContactInfo, f: ListField, v: Option<seq<string>>): (r: ContactInfo)
    ensures ListOf(r, f) == v
  {
    match f
    case HonorificPrefix => c.(honorificPrefix := v)
    case AdditionalName => c.(additionalName := v)
    case HonorificSuffix => c.(honorificSuffix := v)
    case Nickname => c.(nickname := v)
    case Category => c.(category := v)
    case Org => c.(org := v)
    case JobTitle => c.(jobTitle := v)
    case Note => c.(note := v)
    case Groups => c.(groups := v)
  }

  function TextOf(c: ContactInfo, g: TextField): string {
    match g
    case Sex => c.sex
    case GenderIdentity => c.genderIdentity
    case Ringtone => c.ringtone
    case PhoneticGivenName => c.phoneticGivenName
    case PhoneticFamilyName => c.phoneticFamilyName
  }

  function WithText(c: ContactInfo, g: TextField, s: string): (r: ContactInfo)
    ensures TextOf(r, g) == s
  {
    match g
    case Sex => c.(sex := s)
    case GenderIdentity => c.(genderIdentity := s)
    case Ringtone => c.(ringtone := s)
    case PhoneticGivenName => c.(phoneticGivenName := s)
    case PhoneticFamilyName => c.(phoneticFamilyName := s)
  }

  /**
   * The `fillVecField` macro: a missing list becomes the one-element list,
   * an existing one gets the value appended.
   */
  function FillVecField<T>(field: Option<seq<T>>, value: T): (r: Option<seq<T>>)
    ensures r.Some? && |r.value| == |OrEmpty(field)| + 1
    ensures r.value[..|r.value| - 1] == OrEmpty(field) && r.value[|r.value| - 1] == value
  {
    if field.None? then Some([value]) else Some(field.value + [value])
  }

  /** One iteration of `fill_additional_data`'s loop. */
  function ApplyRow(c: ContactInfo, row: AdditionalRow): (r: ContactInfo)
    ensures ClearAdditional(r) == ClearAdditional(c)
    ensures KindOf(row.dataType).UnknownData? ==> r == c
  {
    match KindOf(row.dataType)
    case ListData(f) => WithList(c, f, FillVecField(ListOf(c, f), row.value))
    case TextData(g) => WithText(c, g, row.value)
    case AddressesData => if row.value != "" then c.(addresses := Some(row.value)) else c
    case UrlData => if row.value != "" then c.(url := Some(row.value)) else c
    case IcePositionData => c.(icePosition := ParseI64(row.value).GetOr(0))
    case UnknownData => c
  }

  /** The rows applied one after the other, in query order. */
  function FillAdditional(c: ContactInfo, rows: seq<AdditionalRow>): (r: ContactInfo)
    ensures ClearAdditional(r) == ClearAdditional(c)
    decreases |rows|
  {
    if |rows| == 0 then c else FillAdditional(ApplyRow(c, rows[0]), rows[1..])
  }

  /** `fill_additional_data`: the contact takes the id, then every row of that id in turn. */
  method FillAdditionalData(c: ContactInfo, id: string, rows: seq<AdditionalRow>) returns (filled: ContactInfo)
    ensures filled == FillAdditional(c.(id := id), rows)
  {
    filled := c.(id := id);
    for i := 0 to |rows|
      invariant FillAdditional(filled, rows[i..]) == FillAdditional(c.(id := id), rows)
    {
      assert rows[i..][1..] == rows[i + 1..];
      filled := ApplyRow(filled, rows[i]);
    }
  }

  /** The `saveVecField` macro's rows: one per element, in list order. */
  function VecRows(id: string, dataType: string, values: Option<seq<string>>): (rows: seq<AdditionalRow>)
    ensures |rows| == |OrEmpty(values)|
    ensures forall i :: 0 <= i < |rows| ==> rows[i] == AdditionalRow(id, dataType, OrEmpty(values)[i])
  {
    var xs := OrEmpty(values);
    seq(|xs|, i requires 0 <= i < |xs| => AdditionalRow(id, dataType, xs[i]))
  }

  /** The `saveStrField` macro's rows: one row when the text is not empty. */
  function StrRows(id: string, dataType: string, data: string): (rows: seq<AdditionalRow>)
    ensures |rows| <= 1
    ensures |rows| == 1 <==> data != ""
    ensures forall i :: 0 <= i < |rows| ==> rows[i] == AdditionalRow(id, dataType, data)
  {
    if data != "" then [AdditionalRow(id, dataType, data)] else []
  }

  /** The list fields `save_additional_data` writes first, in its order (groups come last). */
  const LIST_FIELDS: seq<ListField> :=
    [HonorificPrefix, AdditionalName, HonorificSuffix, Nickname, ListField.Category, Org, JobTitle, Note]

  /** The text fields, in the order they are written. */
  const TEXT_FIELDS: seq<TextField> := [Sex, GenderIdentity, Ringtone, PhoneticGivenName, PhoneticFamilyName]

  function ListRowsOf(c: ContactInfo, f: ListField): seq<AdditionalRow> {
    VecRows(c.id, ListFieldName(f), ListOf(c, f))
  }

  function TextRowsOf(c: ContactInfo, g: TextField): seq<AdditionalRow> {
    StrRows(c.id, TextFieldName(g), TextOf(c, g))
  }

  /** The rows of several list fields, one field after the other. */
  function ListsRows(c: ContactInfo, fs: seq<ListField>): seq<AdditionalRow> {
    if |fs| == 0 then [] else ListsRows(c, fs[..|fs| - 1]) + ListRowsOf(c, fs[|fs| - 1])
  }

  /** The rows of several text fields, one field after the other. */
  function TextsRows(c: ContactInfo, gs: seq<TextField>): seq<AdditionalRow> {
    if |gs| == 0 then [] else TextsRows(c, gs[..|gs| - 1]) + TextRowsOf(c, gs[|gs| - 1])
  }

  /** The ICE position (when not 0), then the addresses and url JSON (when present). */
  function ExtraRows(c: ContactInfo): seq<AdditionalRow> {
    (if c.icePosition != 0 then StrRows(c.id, "ice_position", IntToString(c.icePosition)) else [])
    + (if c.addresses.Some? then StrRows(c.id, "addresses", c.addresses.value) else [])
    + (if c.url.Some? then StrRows(c.id, "url", c.url.value) else [])
  }

  /** Every row `save_additional_data` inserts into `contact_additional`, in insertion order. */
  function AdditionalRowsOf(c: ContactInfo): seq<AdditionalRow> {
    ListPartRows(c) + TextPartRows(c) + ExtraRows(c) + ListRowsOf(c, Groups)
  }

  /** The rows of the list fields written before the texts, in their order. */
  function ListPartRows(c: ContactInfo): seq<AdditionalRow> {
    ListRowsOf(c, HonorificPrefix) + ListRowsOf(c, AdditionalName) + ListRowsOf(c, HonorificSuffix)
    + ListRowsOf(c, Nickname) + ListRowsOf(c, ListField.Category) + ListRowsOf(c, Org)
    + ListRowsOf(c, JobTitle) + ListRowsOf(c, Note)
  }

  /** The rows of the text fields, in their order. */
  function TextPartRows(c: ContactInfo): seq<AdditionalRow> {
    TextRowsOf(c, Sex) + TextRowsOf(c, GenderIdentity) + TextRowsOf(c, Ringtone)
    + TextRowsOf(c, PhoneticGivenName) + TextRowsOf(c, PhoneticFamilyName)
  }

  /** One `group_contacts` row per group, in order. */
  function GroupLinks(id: string, groups: seq<string>): (links: seq<GroupContact>)
    ensures |links| == |groups|
    ensures forall i :: 0 <= i < |links| ==> links[i] == GroupContact(groups[i], id)
  {
    seq(|groups|, i requires 0 <= i < |groups| => GroupContact(groups[i], id))
  }

  /** The `group_contacts` rows `save_additional_data` inserts for a contact. */
  function GroupLinksOf(c: ContactInfo): seq<GroupContact> {
    GroupLinks(c.id, OrEmpty(c.groups))
  }

  /** No row is written for a zero ICE position, and a non-zero one is written as its decimal text. */
  lemma IceRowWritten(c: ContactInfo)
    ensures c.icePosition == 0 ==> forall r :: r in ExtraRows(c) ==> r.dataType != "ice_position"
    ensures c.icePosition != 0 ==> ExtraRows(c)[0] == AdditionalRow(c.id, "ice_position", IntToString(c.icePosition))
  {
    NatToDigitsNonEmpty(c.icePosition);
  }

  lemma NatToDigitsNonEmpty(n: int)
    ensures IntToString(n) != ""
  {
  }

  /** `saveVecField`: inserts one row per element, in order. */
  method SaveVecField(rows: seq<AdditionalRow>, id: string, dataType: string, values: Option<seq<string>>)
    returns (out: seq<AdditionalRow>)
    ensures out == rows + VecRows(id, dataType, values)
  {
    out := rows;
    if values.Some? {
      var xs := values.value;
      for i := 0 to |xs|
        invariant out == rows + VecRows(id, dataType, Some(xs[..i]))
      {
        assert VecRows(id, dataType, Some(xs[..i + 1])) == VecRows(id, dataType, Some(xs[..i])) + [AdditionalRow(id, dataType, xs[i])];
        out := out + [AdditionalRow(id, dataType, xs[i])];
      }
      assert xs[..|xs|] == xs;
    }
  }

  /** `ListsRows` of the written list fields, spelled out. */
  lemma ListsRowsUnfold(c: ContactInfo)
    ensures ListsRows(c, LIST_FIELDS) == ListPartRows(c)
  {
    var f1 := [HonorificPrefix];
    var f2 := f1 + [AdditionalName];
    var f3 := f2 + [HonorificSuffix];
    var f4 := f3 + [Nickname];
    var f5 := f4 + [ListField.Category];
    var f6 := f5 + [Org];
    var f7 := f6 + [JobTitle];
    var f8 := f7 + [Note];
    assert f8 == LIST_FIELDS;
    assert f1[..0] == [];
    assert ListsRows(c, f1) == ListRowsOf(c, HonorificPrefix);
    assert f2[..1] == f1;
    assert ListsRows(c, f2) == ListsRows(c, f1) + ListRowsOf(c, AdditionalName);
    assert f3[..2] == f2;
    assert ListsRows(c, f3) == ListsRows(c, f2) + ListRowsOf(c, HonorificSuffix);
    assert f4[..3] == f3;
    assert ListsRows(c, f4) == ListsRows(c, f3) + ListRowsOf(c, Nickname);
    assert f5[..4] == f4;
    assert ListsRows(c, f5) == ListsRows(c, f4) + ListRowsOf(c, ListField.Category);
    assert f6[..5] == f5;
    assert ListsRows(c, f6) == ListsRows(c, f5) + ListRowsOf(c, Org);
    assert f7[..6] == f6;
    assert ListsRows(c, f7) == ListsRows(c, f6) + ListRowsOf(c, JobTitle);
    assert f8[..7] == f7;
    assert ListsRows(c, f8) == ListsRows(c, f7) + ListRowsOf(c, Note);
  }

  /** `TextsRows` of the written text fields, spelled out. */
  lemma TextsRowsUnfold(c: ContactInfo)
    ensures TextsRows(c, TEXT_FIELDS) == TextPartRows(c)
  {
    var g1 := [Sex];
    var g2 := g1 + [GenderIdentity];
    var g3 := g2 + [Ringtone];
    var g4 := g3 + [PhoneticGivenName];
    var g5 := g4 + [PhoneticFamilyName];
    assert g5 == TEXT_FIELDS;
    assert g1[..0] == [];
    assert TextsRows(c, g1) == TextRowsOf(c, Sex);
    assert g2[..1] == g1;
    assert TextsRows(c, g2) == TextsRows(c, g1) + TextRowsOf(c, GenderIdentity);
    assert g3[..2] == g2;
    assert TextsRows(c, g3) == TextsRows(c, g2) + TextRowsOf(c, Ringtone);
    assert g4[..3] == g3;
    assert TextsRows(c, g4) == TextsRows(c, g3) + TextRowsOf(c, PhoneticGivenName);
    assert g5[..4] == g4;
    assert TextsRows(c, g5) == TextsRows(c, g4) + TextRowsOf(c, PhoneticFamilyName);
  }

  /** `saveVecField` for one list field. */
  method SaveListField(rows: seq<AdditionalRow>, c: ContactInfo, f: ListField) returns (out: seq<AdditionalRow>)
    ensures out == rows + ListRowsOf(c, f)
  {
    out := SaveVecField(rows, c.id, ListFieldName(f), ListOf(c, f));
  }

  /** `saveVecField` for the written list fields, in order. */
  method SaveListFields(c: ContactInfo) returns (rows: seq<AdditionalRow>)
    ensures rows == ListPartRows(c)
  {
    rows := [];
    rows := SaveListField(rows, c, HonorificPrefix);
    var r := ListRowsOf(c, HonorificPrefix);
    assert rows == r;
    rows := SaveListField(rows, c, AdditionalName);
    r := r + ListRowsOf(c, AdditionalName);
    assert rows == r;
    rows := SaveListField(rows, c, HonorificSuffix);
    r := r + ListRowsOf(c, HonorificSuffix);
    assert rows == r;
    rows := SaveListField(rows, c, Nickname);
    r := r + ListRowsOf(c, Nickname);
    assert rows == r;
    rows := SaveListField(rows, c, ListField.Category);
    r := r + ListRowsOf(c, ListField.Category);
    assert rows == r;
    rows := SaveListField(rows, c, Org);
    r := r + ListRowsOf(c, Org);
    assert rows == r;
    rows := SaveListField(rows, c, JobTitle);
    r := r + ListRowsOf(c, JobTitle);
    assert rows == r;
    rows := SaveListField(rows, c, Note);
    r := r + ListRowsOf(c, Note);
    assert rows == r;
  }

  /** `saveStrField` for the text fields, in order. */
  method SaveTextFields(c: ContactInfo) returns (rows: seq<AdditionalRow>)
    ensures rows == TextPartRows(c)
  {
    rows := StrRows(c.id, "sex", c.sex);
    rows := rows + StrRows(c.id, "gender_identity", c.genderIdentity);
    rows := rows + StrRows(c.id, "ringtone", c.ringtone);
    rows := rows + StrRows(c.id, "phonetic_given_name", c.phoneticGivenName);
    rows := rows + StrRows(c.id, "phonetic_family_name", c.phoneticFamilyName);
  }

  /**
   * `save_additional_data`: the rows for the list fields, the non-empty text
   * fields, a non-zero ICE position, the JSON fields and the groups, and one
   * `group_contacts` row per group.
   */
  method SaveAdditionalData(c: ContactInfo) returns (rows: seq<AdditionalRow>, links: seq<GroupContact>)
    ensures rows == AdditionalRowsOf(c)
    ensures links == GroupLinksOf(c)
  {
    var listRows := SaveListFields(c);
    var textRows := SaveTextFields(c);
    var extraRows := SaveExtraFields(c);
    var groupRows;
    groupRows, links := SaveGroups(c);
    rows := listRows + textRows + extraRows + groupRows;
  }

  /** The ICE position, addresses and url rows of `save_additional_data`. */
  method SaveExtraFields(c: ContactInfo) returns (rows: seq<AdditionalRow>)
    ensures rows == ExtraRows(c)
  {
    rows := [];
    if c.icePosition != 0 {
      rows := rows + StrRows(c.id, "ice_position", IntToString(c.icePosition));
    }
    if c.addresses.Some? {
      rows := rows + StrRows(c.id, "addresses", c.addresses.value);
    }
    if c.url.Some? {
      rows := rows + StrRows(c.id, "url", c.url.value);
    }
  }

  /** The groups loop of `save_additional_data`: a `groups` row and a `group_contacts` row per group. */
  method SaveGroups(c: ContactInfo) returns (rows: seq<AdditionalRow>, links: seq<GroupContact>)
    ensures rows == ListRowsOf(c, Groups)
    ensures links == GroupLinksOf(c)
  {
    rows := [];
    links := [];
    var gs := OrEmpty(c.groups);
    for i := 0 to |gs|
      invariant rows == VecRows(c.id, "groups", Some(gs[..i]))
      invariant links == GroupLinks(c.id, gs[..i])
    {
      assert VecRows(c.id, "groups", Some(gs[..i + 1])) == VecRows(c.id, "groups", Some(gs[..i])) + [AdditionalRow(c.id, "groups", gs[i])];
      assert GroupLinks(c.id, gs[..i + 1]) == GroupLinks(c.id, gs[..i]) + [GroupContact(gs[i], c.id)];
      rows := rows + [AdditionalRow(c.id, "groups", gs[i])];
      links := links + [GroupContact(gs[i], c.id)];
    }
    assert gs[..|gs|] == gs;
  }

  // --- the round trip -----------------------------------------------------

  /** A contact as the main row leaves it: every additional field at its default. */
  function ClearAdditional(c: ContactInfo): ContactInfo {
    c.(honorificPrefix := None, additionalName := None, honorificSuffix := None, nickname := None,
       category := None, org := None, jobTitle := None, note := None, groups := None,
       sex := "", genderIdentity := "", ringtone := "", phoneticGivenName := "", phoneticFamilyName := "",
       icePosition := 0, addresses := None, url := None)
  }

  /** A list as it survives the table: an empty list writes no row and reads back as none. */
  function NonEmpty(list: Option<seq<string>>): Option<seq<string>> {
    if list.Some? && |list.value| > 0 then list else None
  }

  /** A contact with every empty list field turned into a missing one. */
  function NormalizeLists(c: ContactInfo): ContactInfo {
    c.(honorificPrefix := NonEmpty(c.honorificPrefix), additionalName := NonEmpty(c.additionalName),
       honorificSuffix := NonEmpty(c.honorificSuffix), nickname := NonEmpty(c.nickname),
       category := NonEmpty(c.category), org := NonEmpty(c.org), jobTitle := NonEmpty(c.jobTitle),
       note := NonEmpty(c.note), groups := NonEmpty(c.groups))
  }

  lemma {:induction false} FillAdditionalAppend(c: ContactInfo, a: seq<AdditionalRow>, b: seq<AdditionalRow>)
    ensures FillAdditional(c, a + b) == FillAdditional(FillAdditional(c, a), b)
    decreases |a|
  {
    if |a| > 0 {
      assert (a + b)[1..] == a[1..] + b;
      FillAdditionalAppend(ApplyRow(c, a[0]), a[1..], b);
    } else {
      assert a + b == b;
    }
  }

  /** `fillVecField` applied to each value in turn. */
  function AppendAll(list: Option<seq<string>>, xs: seq<string>): Option<seq<string>>
    decreases |xs|
  {
    if |xs| == 0 then list else AppendAll(FillVecField(list, xs[0]), xs[1..])
  }

  /** Appending values one by one appends them all, in order; none at all leaves the list alone. */
  lemma {:induction false} AppendAllConcat(list: Option<seq<string>>, xs: seq<string>)
    ensures AppendAll(list, xs) == if |xs| == 0 then list else Some(OrEmpty(list) + xs)
    decreases |xs|
  {
    if |xs| > 0 {
      var next := FillVecField(list, xs[0]);
      assert OrEmpty(next) == OrEmpty(list) + [xs[0]];
      AppendAllConcat(next, xs[1..]);
      assert AppendAll(list, xs) == AppendAll(next, xs[1..]);
      assert [xs[0]] + xs[1..] == xs;
      if |xs| == 1 {
        assert xs == [xs[0]];
        assert next == Some(OrEmpty(list) + xs);
      }
      assert OrEmpty(list) + [xs[0]] + xs[1..] == OrEmpty(list) + xs;
    }
  }

  /** Reading one list field's rows runs `fillVecField` on that field for each value, in order. */
  lemma {:induction false} FillVecRows(c: ContactInfo, id: string, f: ListField, xs: seq<string>)
    ensures FillAdditional(c, VecRows(id, ListFieldName(f), Some(xs))) == WithList(c, f, AppendAll(ListOf(c, f), xs))
    decreases |xs|
  {
    var rows := VecRows(id, ListFieldName(f), Some(xs));
    if |xs| > 0 {
      assert rows[1..] == VecRows(id, ListFieldName(f), Some(xs[1..]));
      KindOfListName(f);
      var c1 := WithList(c, f, FillVecField(ListOf(c, f), xs[0]));
      assert ApplyRow(c, rows[0]) == c1;
      FillVecRows(c1, id, f, xs[1..]);
      ListUpdateTwice(c, f, FillVecField(ListOf(c, f), xs[0]), AppendAll(ListOf(c1, f), xs[1..]));
    } else {
      assert rows == [];
      ListUpdateToSame(c, f);
    }
  }

  lemma ListUpdateToSame(c: ContactInfo, f: ListField)
    ensures WithList(c, f, ListOf(c, f)) == c
  {
  }

  lemma ListUpdateTwice(c: ContactInfo, f: ListField, v: Option<seq<string>>, w: Option<seq<string>>)
    ensures WithList(WithList(c, f, v), f, w) == WithList(c, f, w)
  {
  }

  /** One list field's rows read into a contact where that field is still missing. */
  lemma FillListStep(before: ContactInfo, c: ContactInfo, f: ListField) returns (after: ContactInfo)
    requires ListOf(before, f) == None
    ensures after == FillAdditional(before, ListRowsOf(c, f))
    ensures after == WithList(before, f, NonEmpty(ListOf(c, f)))
  {
    var xs := OrEmpty(ListOf(c, f));
    assert ListRowsOf(c, f) == VecRows(c.id, ListFieldName(f), Some(xs));
    FillVecRows(before, c.id, f, xs);
    AppendAllConcat(None, xs);
    assert [] + xs == xs;
    after := FillAdditional(before, ListRowsOf(c, f));
  }

  /** A contact with its list fields all missing. */
  function ClearLists(c: ContactInfo): ContactInfo {
    c.(honorificPrefix := None, additionalName := None, honorificSuffix := None, nickname := None,
       category := None, org := None, jobTitle := None, note := None, groups := None)
  }

  /** A contact with its text fields all empty. */
  function ClearTexts(c: ContactInfo): ContactInfo {
    c.(sex := "", genderIdentity := "", ringtone := "", phoneticGivenName := "", phoneticFamilyName := "")
  }

  /** Setting one list field changes that field and nothing else. */
  lemma WithListFrame(c: ContactInfo, f: ListField, v: Option<seq<string>>)
    ensures ClearLists(WithList(c, f, v)) == ClearLists(c)
    ensures forall g :: g != f ==> ListOf(WithList(c, f, v), g) == ListOf(c, g)
  {
  }

  /** Setting one text field changes that field and nothing else. */
  lemma WithTextFrame(c: ContactInfo, g: TextField, s: string)
    ensures ClearTexts(WithText(c, g, s)) == ClearTexts(c)
    ensures forall h :: h != g ==> TextOf(WithText(c, g, s), h) == TextOf(c, h)
  {
  }

  predicate Distinct<T(==)>(xs: seq<T>) {
    forall i, j :: 0 <= i < j < |xs| ==> xs[i] != xs[j]
  }

  /**
   * Reading the rows of distinct, still missing list fields sets each of
   * them to its value in `c` (none when empty) and changes nothing else.
   */
  lemma {:induction false} FillListsPhase(x: ContactInfo, c: ContactInfo, fs: seq<ListField>)
    requires Distinct(fs)
    requires forall f :: f in fs ==> ListOf(x, f) == None
    ensures var r := FillAdditional(x, ListsRows(c, fs));
      && ClearLists(r) == ClearLists(x)
      && forall g :: ListOf(r, g) == if g in fs then NonEmpty(ListOf(c, g)) else ListOf(x, g)
  {
    if |fs| > 0 {
      var p := fs[..|fs| - 1];
      var f := fs[|fs| - 1];
      assert fs == p + [f];
      assert f !in p by {
        forall i | 0 <= i < |p| ensures p[i] != f { assert p[i] == fs[i]; }
      }
      assert Distinct(p);
      FillListsPhase(x, c, p);
      var mid := FillAdditional(x, ListsRows(c, p));
      FillAdditionalAppend(x, ListsRows(c, p), ListRowsOf(c, f));
      var r := FillListStep(mid, c, f);
      WithListFrame(mid, f, NonEmpty(ListOf(c, f)));
    }
  }

  /** A text field's row read into a contact where that field is still empty. */
  lemma FillTextStep(before: ContactInfo, c: ContactInfo, g: TextField) returns (after: ContactInfo)
    requires TextOf(before, g) == ""
    ensures after == FillAdditional(before, TextRowsOf(c, g))
    ensures after == WithText(before, g, TextOf(c, g))
  {
    KindOfTextName(g);
    after := FillAdditional(before, TextRowsOf(c, g));
    if TextOf(c, g) == "" {
      assert WithText(before, g, "") == before;
    }
  }

  /**
   * Reading the rows of distinct, still empty text fields sets each of them
   * to its value in `c` and changes nothing else.
   */
  lemma {:induction false} FillTextsPhase(x: ContactInfo, c: ContactInfo, gs: seq<TextField>)
    requires Distinct(gs)
    requires forall g :: g in gs ==> TextOf(x, g) == ""
    ensures var r := FillAdditional(x, TextsRows(c, gs));
      && ClearTexts(r) == ClearTexts(x)
      && forall h :: TextOf(r, h) == if h in gs then TextOf(c, h) else TextOf(x, h)
  {
    if |gs| > 0 {
      var p := gs[..|gs| - 1];
      var g := gs[|gs| - 1];
      assert gs == p + [g];
      assert g !in p by {
        forall i | 0 <= i < |p| ensures p[i] != g { assert p[i] == gs[i]; }
      }
      assert Distinct(p);
      FillTextsPhase(x, c, p);
      var mid := FillAdditional(x, TextsRows(c, p));
      FillAdditionalAppend(x, TextsRows(c, p), TextRowsOf(c, g));
      var r := FillTextStep(mid, c, g);
      WithTextFrame(mid, g, TextOf(c, g));
    }
  }

  /** Reading the ICE and JSON rows sets exactly those three fields. */
  lemma FillExtraPhase(x: ContactInfo, c: ContactInfo)
    requires x.icePosition == 0 && x.addresses.None? && x.url.None?
    ensures FillAdditional(x, ExtraRows(c)) == x.(icePosition := c.icePosition, addresses := c.addresses, url := c.url)
  {
    var r1 := if c.icePosition != 0 then StrRows(c.id, "ice_position", IntToString(c.icePosition)) else [];
    var r2 := if c.addresses.Some? then StrRows(c.id, "addresses", c.addresses.value) else [];
    var r3 := if c.url.Some? then StrRows(c.id, "url", c.url.value) else [];
    var x1 := x.(icePosition := c.icePosition);
    var x2 := x1.(addresses := c.addresses);
    var x3 := x2.(url := c.url);
    FillIceRow(x, c.id, c.icePosition);
    FillAddressesRow(x1, c);
    FillUrlRow(x2, c);
    FillAdditionalAppend(x, r1, r2);
    FillAdditionalAppend(x, r1 + r2, r3);
  }

  /** A single row is read back by applying it. */
  lemma FillOneRow(x: ContactInfo, row: AdditionalRow)
    ensures FillAdditional(x, [row]) == ApplyRow(x, row)
  {
    assert [row][1..] == [];
  }

  /** The reader recognises the names of the single-valued fields. */
  lemma KindOfSingleNames()
    ensures KindOf("ice_position") == IcePositionData
    ensures KindOf("addresses") == AddressesData
    ensures KindOf("url") == UrlData
  {
  }

  /** A non-zero ICE position's row reads back as that position. */
  lemma FillIceRow(x: ContactInfo, id: string, ice: i64)
    requires x.icePosition == 0
    ensures FillAdditional(x, if ice != 0 then StrRows(id, "ice_position", IntToString(ice)) else []) == x.(icePosition := ice)
  {
    ParseIntToString(ice);
    NatToDigitsNonEmpty(ice);
    if ice != 0 {
      var row := AdditionalRow(id, "ice_position", IntToString(ice));
      assert StrRows(id, "ice_position", IntToString(ice)) == [row];
      FillOneRow(x, row);
      KindOfSingleNames();
    }
  }

  /** The addresses row reads back as the JSON it holds. */
  lemma FillAddressesRow(x: ContactInfo, c: ContactInfo)
    ensures FillAdditional(x, if c.addresses.Some? then StrRows(c.id, "addresses", c.addresses.value) else [])
            == if c.addresses.Some? then x.(addresses := c.addresses) else x
  {
    if c.addresses.Some? {
      var row := AdditionalRow(c.id, "addresses", c.addresses.value);
      assert StrRows(c.id, "addresses", c.addresses.value) == [row];
      FillOneRow(x, row);
      KindOfSingleNames();
      assert ApplyRow(x, row) == x.(addresses := c.addresses);
    }
  }

  /** The url row reads back as the JSON it holds. */
  lemma FillUrlRow(x: ContactInfo, c: ContactInfo)
    ensures FillAdditional(x, if c.url.Some? then StrRows(c.id, "url", c.url.value) else [])
            == if c.url.Some? then x.(url := c.url) else x
  {
    if c.url.Some? {
      var row := AdditionalRow(c.id, "url", c.url.value);
      assert StrRows(c.id, "url", c.url.value) == [row];
      FillOneRow(x, row);
      KindOfSingleNames();
      assert ApplyRow(x, row) == x.(url := c.url);
    }
  }

  /** The written list fields are distinct and, with groups, are all of them. */
  lemma ListFieldsCover(f: ListField)
    ensures Distinct(LIST_FIELDS)
    ensures f in LIST_FIELDS <==> f != Groups
  {
    match f
    case HonorificPrefix => assert LIST_FIELDS[0] == f;
    case AdditionalName => assert LIST_FIELDS[1] == f;
    case HonorificSuffix => assert LIST_FIELDS[2] == f;
    case Nickname => assert LIST_FIELDS[3] == f;
    case Category => assert LIST_FIELDS[4] == f;
    case Org => assert LIST_FIELDS[5] == f;
    case JobTitle => assert LIST_FIELDS[6] == f;
    case Note => assert LIST_FIELDS[7] == f;
    case Groups =>
  }

  /** The written text fields are distinct and are all of them. */
  lemma TextFieldsCover(g: TextField)
    ensures Distinct(TEXT_FIELDS)
    ensures g in TEXT_FIELDS
  {
    match g
    case Sex => assert TEXT_FIELDS[0] == g;
    case GenderIdentity => assert TEXT_FIELDS[1] == g;
    case Ringtone => assert TEXT_FIELDS[2] == g;
    case PhoneticGivenName => assert TEXT_FIELDS[3] == g;
    case PhoneticFamilyName => assert TEXT_FIELDS[4] == g;
  }

  /** Two contacts agreeing on their main fields and on every additional field are equal. */
  lemma AdditionalFieldsDetermine(a: ContactInfo, b: ContactInfo)
    requires ClearAdditional(a) == ClearAdditional(b)
    requires forall f :: ListOf(a, f) == ListOf(b, f)
    requires forall g :: TextOf(a, g) == TextOf(b, g)
    requires a.icePosition == b.icePosition && a.addresses == b.addresses && a.url == b.url
    ensures a == b
  {
    assert ListOf(a, HonorificPrefix) == ListOf(b, HonorificPrefix);
    assert ListOf(a, AdditionalName) == ListOf(b, AdditionalName);
    assert ListOf(a, HonorificSuffix) == ListOf(b, HonorificSuffix);
    assert ListOf(a, Nickname) == ListOf(b, Nickname);
    assert ListOf(a, ListField.Category) == ListOf(b, ListField.Category);
    assert ListOf(a, Org) == ListOf(b, Org);
    assert ListOf(a, JobTitle) == ListOf(b, JobTitle);
    assert ListOf(a, Note) == ListOf(b, Note);
    assert ListOf(a, Groups) == ListOf(b, Groups);
    assert TextOf(a, Sex) == TextOf(b, Sex);
    assert TextOf(a, GenderIdentity) == TextOf(b, GenderIdentity);
    assert TextOf(a, Ringtone) == TextOf(b, Ringtone);
    assert TextOf(a, PhoneticGivenName) == TextOf(b, PhoneticGivenName);
    assert TextOf(a, PhoneticFamilyName) == TextOf(b, PhoneticFamilyName);
  }

  /** Contacts with the same list-free part agree on every field but the lists. */
  lemma ClearListsKeeps(x: ContactInfo, y: ContactInfo)
    requires ClearLists(x) == ClearLists(y)
    ensures ClearAdditional(x) == ClearAdditional(y)
    ensures forall g :: TextOf(x, g) == TextOf(y, g)
    ensures x.icePosition == y.icePosition && x.addresses == y.addresses && x.url == y.url
  {
    assert ClearLists(x).sex == x.sex && ClearLists(y).sex == y.sex;
    assert forall g :: TextOf(x, g) == TextOf(ClearLists(x), g);
    assert forall g :: TextOf(y, g) == TextOf(ClearLists(y), g);
  }

  /** Contacts with the same text-free part agree on every field but the texts. */
  lemma ClearTextsKeeps(x: ContactInfo, y: ContactInfo)
    requires ClearTexts(x) == ClearTexts(y)
    ensures ClearAdditional(x) == ClearAdditional(y)
    ensures forall f :: ListOf(x, f) == ListOf(y, f)
    ensures x.icePosition == y.icePosition && x.addresses == y.addresses && x.url == y.url
  {
    assert forall f :: ListOf(x, f) == ListOf(ClearTexts(x), f);
    assert forall f :: ListOf(y, f) == ListOf(ClearTexts(y), f);
  }

  /** Setting the ICE position and the JSON fields keeps the lists, the texts and the main fields. */
  lemma ExtraKeeps(x: ContactInfo, ice: i64, addresses: Option<JsonText>, url: Option<JsonText>)
    ensures var y := x.(icePosition := ice, addresses := addresses, url := url);
      && ClearAdditional(y) == ClearAdditional(x)
      && (forall f :: ListOf(y, f) == ListOf(x, f))
      && (forall g :: TextOf(y, g) == TextOf(x, g))
  {
  }

  /** The save order splits into the written lists, the texts, the ICE/JSON rows and the groups. */
  lemma RowsInPhases(c: ContactInfo)
    ensures AdditionalRowsOf(c) ==
      ListsRows(c, LIST_FIELDS) + TextsRows(c, TEXT_FIELDS) + ExtraRows(c) + ListRowsOf(c, Groups)
  {
    ListsRowsUnfold(c);
    TextsRowsUnfold(c);
  }

  /** Folding all the rows is folding each phase's rows in turn. */
  lemma FillInPhases(x: ContactInfo, c: ContactInfo)
    ensures FillAdditional(x, AdditionalRowsOf(c)) ==
      FillAdditional(FillAdditional(FillAdditional(FillAdditional(x, ListsRows(c, LIST_FIELDS)),
        TextsRows(c, TEXT_FIELDS)), ExtraRows(c)), ListRowsOf(c, Groups))
  {
    var lists := ListsRows(c, LIST_FIELDS);
    var texts := TextsRows(c, TEXT_FIELDS);
    var extra := ExtraRows(c);
    RowsInPhases(c);
    FillAdditionalAppend(x, lists, texts);
    FillAdditionalAppend(x, lists + texts, extra);
    FillAdditionalAppend(x, lists + texts + extra, ListRowsOf(c, Groups));
  }

  /** The main fields of a contact are not additional data. */
  lemma ClearAdditionalTwice(c: ContactInfo)
    ensures ClearAdditional(ClearAdditional(c)) == ClearAdditional(c)
    ensures ClearAdditional(NormalizeLists(c)) == ClearAdditional(c)
  {
  }

  /**
   * Round trip of the additional data: folding the rows `save_additional_data`
   * writes into a contact that has only its main data restores every
   * additional field. List fields come back with their elements in order
   * (an empty list comes back missing); non-empty text fields, a non-zero ICE
   * position and the JSON fields come back as they were.
   */
  lemma AdditionalDataRoundTrip(c: ContactInfo)
    ensures FillAdditional(ClearAdditional(c), AdditionalRowsOf(c)) == NormalizeLists(c)
  {
    var r := FillAdditional(ClearAdditional(c), AdditionalRowsOf(c));
    AdditionalDataRestored(c);
    NormalizeKeepsTexts(c);
    ClearAdditionalTwice(c);
    AdditionalFieldsDetermine(r, NormalizeLists(c));
  }

  /** The round trip field by field. */
  lemma AdditionalDataRestored(c: ContactInfo)
    ensures var r := FillAdditional(ClearAdditional(c), AdditionalRowsOf(c));
      && ClearAdditional(r) == ClearAdditional(c)
      && (forall f :: ListOf(r, f) == NonEmpty(ListOf(c, f)))
      && (forall g :: TextOf(r, g) == TextOf(c, g))
      && r.icePosition == c.icePosition && r.addresses == c.addresses && r.url == c.url
  {
    var x0 := ClearAdditional(c);
    var x1 := AfterListPhase(c);
    var x2 := AfterTextPhase(c, x1);
    var x3 := AfterExtraPhase(c, x2);
    var x4 := AfterGroupsPhase(c, x3);
    FillInPhases(x0, c);
    assert FillAdditional(x0, AdditionalRowsOf(c)) == x4;
    assert ClearAdditional(x4) == ClearAdditional(c);
    forall f ensures ListOf(x4, f) == NonEmpty(ListOf(c, f)) {
      if f != Groups {
        assert ListOf(x4, f) == ListOf(x3, f) == ListOf(x2, f) == ListOf(x1, f);
      }
    }
  }

  /** After the groups rows: the groups are restored and nothing else changes. */
  lemma AfterGroupsPhase(c: ContactInfo, x3: ContactInfo) returns (x4: ContactInfo)
    requires ListOf(x3, Groups) == None
    ensures x4 == FillAdditional(x3, ListRowsOf(c, Groups))
    ensures ClearAdditional(x4) == ClearAdditional(x3)
    ensures ListOf(x4, Groups) == NonEmpty(ListOf(c, Groups))
    ensures forall f :: f != Groups ==> ListOf(x4, f) == ListOf(x3, f)
    ensures forall g :: TextOf(x4, g) == TextOf(x3, g)
    ensures x4.icePosition == x3.icePosition && x4.addresses == x3.addresses && x4.url == x3.url
  {
    x4 := FillListStep(x3, c, Groups);
    WithListFrame(x3, Groups, NonEmpty(ListOf(c, Groups)));
    ClearListsKeeps(x4, x3);
  }

  lemma NormalizeKeepsTexts(c: ContactInfo)
    ensures forall g :: TextOf(NormalizeLists(c), g) == TextOf(c, g)
    ensures forall f :: ListOf(NormalizeLists(c), f) == NonEmpty(ListOf(c, f))
  {
  }

  /** After the list rows: the written lists are restored and everything else is still cleared. */
  lemma AfterListPhase(c: ContactInfo) returns (x1: ContactInfo)
    ensures x1 == FillAdditional(ClearAdditional(c), ListsRows(c, LIST_FIELDS))
    ensures ClearAdditional(x1) == ClearAdditional(c)
    ensures forall f :: ListOf(x1, f) == if f == Groups then None else NonEmpty(ListOf(c, f))
    ensures forall g :: TextOf(x1, g) == ""
    ensures x1.icePosition == 0 && x1.addresses == None && x1.url == None
  {
    var x0 := ClearAdditional(c);
    ListFieldsCover(Groups);
    forall f | f in LIST_FIELDS ensures ListOf(x0, f) == None { }
    FillListsPhase(x0, c, LIST_FIELDS);
    x1 := FillAdditional(x0, ListsRows(c, LIST_FIELDS));
    ClearListsKeeps(x1, x0);
    ClearAdditionalTwice(c);
    forall f ensures ListOf(x1, f) == if f == Groups then None else NonEmpty(ListOf(c, f)) {
      ListFieldsCover(f);
    }
  }

  /** After the text rows: the texts are restored too. */
  lemma AfterTextPhase(c: ContactInfo, x1: ContactInfo) returns (x2: ContactInfo)
    requires forall g :: TextOf(x1, g) == ""
    ensures x2 == FillAdditional(x1, TextsRows(c, TEXT_FIELDS))
    ensures ClearAdditional(x2) == ClearAdditional(x1)
    ensures forall f :: ListOf(x2, f) == ListOf(x1, f)
    ensures forall g :: TextOf(x2, g) == TextOf(c, g)
    ensures x2.icePosition == x1.icePosition && x2.addresses == x1.addresses && x2.url == x1.url
  {
    TextFieldsCover(Sex);
    FillTextsPhase(x1, c, TEXT_FIELDS);
    x2 := FillAdditional(x1, TextsRows(c, TEXT_FIELDS));
    ClearTextsKeeps(x2, x1);
    forall g ensures TextOf(x2, g) == TextOf(c, g) {
      TextFieldsCover(g);
    }
  }

  /** After the ICE and JSON rows: those three fields are restored too. */
  lemma AfterExtraPhase(c: ContactInfo, x2: ContactInfo) returns (x3: ContactInfo)
    requires x2.icePosition == 0 && x2.addresses == None && x2.url == None
    ensures x3 == FillAdditional(x2, ExtraRows(c))
    ensures ClearAdditional(x3) == ClearAdditional(x2)
    ensures forall f :: ListOf(x3, f) == ListOf(x2, f)
    ensures forall g :: TextOf(x3, g) == TextOf(x2, g)
    ensures x3.icePosition == c.icePosition && x3.addresses == c.addresses && x3.url == c.url
  {
    FillExtraPhase(x2, c);
    x3 := FillAdditional(x2, ExtraRows(c));
    ExtraKeeps(x2, c.icePosition, c.addresses, c.url);
  }

  // ---------------------------------------------------------------------
  // import_vcf: one vCard's properties to a contact
  // ---------------------------------------------------------------------

  /** A parsed vCard property: its name and its value, if it has one. */
  datatype VcardProperty = VcardProperty(name: string, value: Option<string>)

  /** What one property does to the emails: a valued EMAIL appends a plain field. */
  function VcardEmail(email: Option<seq<ContactField>>, p: VcardProperty): Option<seq<ContactField>> {
    if p.name == "EMAIL" && p.value.Some? then FillVecField(email, ContactField("", p.value.value, false)) else email
  }

  /** What one property does to the tels: a valued TEL appends a plain field. */
  function VcardTel(tel: Option<seq<ContactTelField>>, p: VcardProperty): Option<seq<ContactTelField>> {
    if p.name == "TEL" && p.value.Some? then FillVecField(tel, ContactTelField("", p.value.value, false, "")) else tel
  }

  /** What one property does to the name: FN sets it, to "" when it has no value. */
  function VcardName(name: string, p: VcardProperty): string {
    if p.name == "FN" then p.value.GetOr("") else name
  }

  /** What one property does to the job titles: TITLE appends its value, or "". */
  function VcardTitle(jobTitle: Option<seq<string>>, p: VcardProperty): Option<seq<string>> {
    if p.name == "TITLE" then FillVecField(jobTitle, p.value.GetOr("")) else jobTitle
  }

  /**
   * One property of the `import_vcf` loop. The property names are distinct,
   * so at most one of the four fields changes, as in the source's
   * `if`/`else if` chain; every other property is ignored.
   */
  function ApplyVcardProperty(c: ContactInfo, p: VcardProperty): ContactInfo {
    c.(email := VcardEmail(c.email, p), tel := VcardTel(c.tel, p),
       name := VcardName(c.name, p), jobTitle := VcardTitle(c.jobTitle, p))
  }

  /** The properties applied one after the other, in the card's order. */
  function ApplyVcard(c: ContactInfo, props: seq<VcardProperty>): ContactInfo
    decreases |props|
  {
    if |props| == 0 then c else ApplyVcard(ApplyVcardProperty(c, props[0]), props[1..])
  }

  /** The loop of `import_vcf` over one card: a default contact, then every property in turn. */
  method ContactFromVcard(props: seq<VcardProperty>) returns (contact: ContactInfo)
    ensures contact == ApplyVcard(DEFAULT_CONTACT, props)
  {
    contact := DEFAULT_CONTACT;
    for i := 0 to |props|
      invariant ApplyVcard(contact, props[i..]) == ApplyVcard(DEFAULT_CONTACT, props)
    {
      assert props[i..][1..] == props[i + 1..];
      contact := ApplyVcardProperty(contact, props[i]);
    }
  }

  /** The values of the properties called `name` that have one, in order. */
  function ValuesNamed(props: seq<VcardProperty>, name: string): (values: seq<string>)
    ensures |values| <= |props|
    decreases |props|
  {
    if |props| == 0 then []
    else (if props[0].name == name && props[0].value.Some? then [props[0].value.value] else [])
         + ValuesNamed(props[1..], name)
  }

  /** The values of every TITLE property, "" for one without a value, in order. */
  function Titles(props: seq<VcardProperty>): (titles: seq<string>)
    ensures |titles| <= |props|
    decreases |props|
  {
    if |props| == 0 then []
    else (if props[0].name == "TITLE" then [props[0].value.GetOr("")] else []) + Titles(props[1..])
  }

  /** The name the last FN property gives, if the card has one. */
  function LastFormattedName(props: seq<VcardProperty>): Option<string>
    decreases |props|
  {
    if |props| == 0 then None
    else
      var later := LastFormattedName(props[1..]);
      if later.Some? then later
      else if props[0].name == "FN" then Some(props[0].value.GetOr(""))
      else None
  }

  /** One property adds its value to the emails when it is a valued EMAIL. */
  lemma VcardEmailValues(email: Option<seq<ContactField>>, p: VcardProperty)
    ensures EmailValues(OrEmpty(VcardEmail(email, p)))
         == EmailValues(OrEmpty(email)) + if p.name == "EMAIL" && p.value.Some? then [p.value.value] else []
  {
    if p.name == "EMAIL" && p.value.Some? {
      assert OrEmpty(VcardEmail(email, p)) == OrEmpty(email) + [ContactField("", p.value.value, false)];
    } else {
      assert EmailValues(OrEmpty(email)) + [] == EmailValues(OrEmpty(email));
    }
  }

  /** One property adds its value to the tels when it is a valued TEL. */
  lemma VcardTelValues(tel: Option<seq<ContactTelField>>, p: VcardProperty)
    ensures TelValues(OrEmpty(VcardTel(tel, p)))
         == TelValues(OrEmpty(tel)) + if p.name == "TEL" && p.value.Some? then [p.value.value] else []
  {
    if p.name == "TEL" && p.value.Some? {
      assert OrEmpty(VcardTel(tel, p)) == OrEmpty(tel) + [ContactTelField("", p.value.value, false, "")];
    } else {
      assert TelValues(OrEmpty(tel)) + [] == TelValues(OrEmpty(tel));
    }
  }

  /** The emails after a card's properties, one after the other. */
  function EmailsAfter(email: Option<seq<ContactField>>, props: seq<VcardProperty>): Option<seq<ContactField>>
    decreases |props|
  {
    if |props| == 0 then email else EmailsAfter(VcardEmail(email, props[0]), props[1..])
  }

  /** The tels after a card's properties, one after the other. */
  function TelsAfter(tel: Option<seq<ContactTelField>>, props: seq<VcardProperty>): Option<seq<ContactTelField>>
    decreases |props|
  {
    if |props| == 0 then tel else TelsAfter(VcardTel(tel, props[0]), props[1..])
  }

  /** A card's emails and tels depend only on the emails and tels it starts from. */
  lemma {:induction false} VcardProjections(c: ContactInfo, props: seq<VcardProperty>)
    ensures ApplyVcard(c, props).email == EmailsAfter(c.email, props)
    ensures ApplyVcard(c, props).tel == TelsAfter(c.tel, props)
    decreases |props|
  {
    if |props| > 0 {
      var c1 := ApplyVcardProperty(c, props[0]);
      assert ApplyVcard(c, props) == ApplyVcard(c1, props[1..]);
      VcardProjections(c1, props[1..]);
    }
  }

  lemma {:induction false} EmailsAfterValues(email: Option<seq<ContactField>>, props: seq<VcardProperty>)
    ensures EmailValues(OrEmpty(EmailsAfter(email, props))) == EmailValues(OrEmpty(email)) + ValuesNamed(props, "EMAIL")
    decreases |props|
  {
    var x := EmailValues(OrEmpty(email));
    if |props| > 0 {
      var p := props[0];
      var e1 := VcardEmail(email, p);
      var here := if p.name == "EMAIL" && p.value.Some? then [p.value.value] else [];
      var y := ValuesNamed(props[1..], "EMAIL");
      EmailsAfterValues(e1, props[1..]);
      VcardEmailValues(email, p);
      ValuesNamedStep(props, "EMAIL");
      assert EmailsAfter(email, props) == EmailsAfter(e1, props[1..]);
      Associate(x, here, y);
    } else {
      Associate(x, [], []);
    }
  }

  /** The values named in a card: the first property's, then the rest's. */
  lemma ValuesNamedStep(props: seq<VcardProperty>, name: string)
    requires |props| > 0
    ensures ValuesNamed(props, name)
         == (if props[0].name == name && props[0].value.Some? then [props[0].value.value] else []) + ValuesNamed(props[1..], name)
  {
  }

  lemma {:induction false} TelsAfterValues(tel: Option<seq<ContactTelField>>, props: seq<VcardProperty>)
    ensures TelValues(OrEmpty(TelsAfter(tel, props))) == TelValues(OrEmpty(tel)) + ValuesNamed(props, "TEL")
    decreases |props|
  {
    var x := TelValues(OrEmpty(tel));
    if |props| > 0 {
      var p := props[0];
      var t1 := VcardTel(tel, p);
      var here := if p.name == "TEL" && p.value.Some? then [p.value.value] else [];
      var y := ValuesNamed(props[1..], "TEL");
      TelsAfterValues(t1, props[1..]);
      VcardTelValues(tel, p);
      ValuesNamedStep(props, "TEL");
      assert TelsAfter(tel, props) == TelsAfter(t1, props[1..]);
      Associate(x, here, y);
    } else {
      Associate(x, [], []);
    }
  }

  /** A card's valued EMAIL properties append their values, in order, to the emails. */
  lemma VcardEmails(c: ContactInfo, props: seq<VcardProperty>)
    ensures EmailValues(OrEmpty(ApplyVcard(c, props).email)) == EmailValues(OrEmpty(c.email)) + ValuesNamed(props, "EMAIL")
  {
    VcardProjections(c, props);
    EmailsAfterValues(c.email, props);
  }

  /** A card's valued TEL properties append their values, in order, to the tels. */
  lemma VcardTels(c: ContactInfo, props: seq<VcardProperty>)
    ensures TelValues(OrEmpty(ApplyVcard(c, props).tel)) == TelValues(OrEmpty(c.tel)) + ValuesNamed(props, "TEL")
  {
    VcardProjections(c, props);
    TelsAfterValues(c.tel, props);
  }

  /** A card's TITLE properties append their values (or ""), in order, to the job titles. */
  lemma {:induction false} VcardTitles(c: ContactInfo, props: seq<VcardProperty>)
    ensures OrEmpty(ApplyVcard(c, props).jobTitle) == OrEmpty(c.jobTitle) + Titles(props)
    decreases |props|
  {
    if |props| > 0 {
      var p := props[0];
      var c1 := ApplyVcardProperty(c, p);
      assert ApplyVcard(c, props) == ApplyVcard(c1, props[1..]);
      VcardTitles(c1, props[1..]);
      var here := if p.name == "TITLE" then [p.value.GetOr("")] else [];
      assert Titles(props) == here + Titles(props[1..]);
      assert OrEmpty(c1.jobTitle) == OrEmpty(c.jobTitle) + here;
      assert OrEmpty(c.jobTitle) + here + Titles(props[1..]) == OrEmpty(c.jobTitle) + Titles(props);
    } else {
      assert OrEmpty(c.jobTitle) + [] == OrEmpty(c.jobTitle);
    }
  }

  /** The last FN property decides the name; without one the name stays. */
  lemma {:induction false} VcardNameLast(c: ContactInfo, props: seq<VcardProperty>)
    ensures ApplyVcard(c, props).name == LastFormattedName(props).GetOr(c.name)
    decreases |props|
  {
    if |props| > 0 {
      var c1 := ApplyVcardProperty(c, props[0]);
      assert ApplyVcard(c, props) == ApplyVcard(c1, props[1..]);
      VcardNameLast(c1, props[1..]);
    }
  }

  /** A card changes nothing but the emails, the tels, the job titles and the name. */
  lemma {:induction false} VcardKeepsOtherFields(c: ContactInfo, props: seq<VcardProperty>)
    ensures ApplyVcard(c, props).(email := c.email, tel := c.tel, jobTitle := c.jobTitle, name := c.name) == c
    decreases |props|
  {
    if |props| > 0 {
      var c1 := ApplyVcardProperty(c, props[0]);
      assert ApplyVcard(c, props) == ApplyVcard(c1, props[1..]);
      VcardKeepsOtherFields(c1, props[1..]);
    }
  }

  predicate PlainEmails(c: ContactInfo) {
    forall i :: 0 <= i < |OrEmpty(c.email)| ==> OrEmpty(c.email)[i].atype == "" && !OrEmpty(c.email)[i].pref
  }

  predicate PlainTels(c: ContactInfo) {
    forall i :: 0 <= i < |OrEmpty(c.tel)| ==>
      OrEmpty(c.tel)[i].atype == "" && !OrEmpty(c.tel)[i].pref && OrEmpty(c.tel)[i].carrier == ""
  }

  /** Every field a card adds is a plain one: no type, not preferred, no carrier. */
  lemma {:induction false} VcardFieldsArePlain(c: ContactInfo, props: seq<VcardProperty>)
    requires PlainEmails(c) && PlainTels(c)
    ensures PlainEmails(ApplyVcard(c, props)) && PlainTels(ApplyVcard(c, props))
    decreases |props|
  {
    if |props| > 0 {
      var p := props[0];
      var c1 := ApplyVcardProperty(c, p);
      assert ApplyVcard(c, props) == ApplyVcard(c1, props[1..]);
      if p.name == "EMAIL" && p.value.Some? {
        assert OrEmpty(c1.email) == OrEmpty(c.email) + [ContactField("", p.value.value, false)];
      } else {
        assert c1.email == c.email;
      }
      if p.name == "TEL" && p.value.Some? {
        assert OrEmpty(c1.tel) == OrEmpty(c.tel) + [ContactTelField("", p.value.value, false, "")];
      } else {
        assert c1.tel == c.tel;
      }
      VcardFieldsArePlain(c1, props[1..]);
    }
  }
}
