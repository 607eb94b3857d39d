/**
 * The contacts store (`ContactsDb` in services/contacts/src/db.rs) over
 * abstract tables: `contact_main` keyed by contact id, `contact_additional`
 * as its rows in table order, `blocked_numbers`, `speed_dials` keyed by dial
 * key, `groups` keyed by group id and `group_contacts` in table order. The
 * broadcaster is the log of events the store has handed to it.
 *
 * The store's SQL statements become updates of these values; the UNIQUE and
 * PRIMARY KEY columns of the schema become the errors an INSERT or UPDATE
 * meets. Fresh UUIDs and the current time are parameters.
 */
module ContactsStore {

  import opened Wrappers
  import opened Common
  import opened Text
  import opened ContactsTypes
  import opened ContactsCodec

  /** A `speed_dials` row without its key. */
  datatype SpeedDial = SpeedDial(tel: string, contactId: string)

  // ---------------------------------------------------------------------
  // Table helpers: the rows a DELETE keeps
  // ---------------------------------------------------------------------

  /** The set of ids a list names: what `contact_id in (?, ?, …)` tests against. */
  function Elements(ids: seq<string>): (s: set<string>)
    ensures forall x :: x in s <==> x in ids
    decreases |ids|
  {
    if |ids| == 0 then {} else Elements(ids[..|ids| - 1]) + {ids[|ids| - 1]}
  }

  /** Adding an entry keeps a list distinct exactly when the entry is new. */
  lemma DistinctSnoc(init: seq<string>, last: string)
    ensures Distinct(init + [last]) <==> Distinct(init) && last !in init
  {
    var ids := init + [last];
    if Distinct(ids) {
      forall i, j | 0 <= i < j < |init| ensures init[i] != init[j] {
        assert ids[i] == init[i] && ids[j] == init[j];
      }
      forall i | 0 <= i < |init| ensures init[i] != last {
        assert ids[i] == init[i] && ids[|init|] == last;
      }
    }
    if Distinct(init) && last !in init {
      forall i, j | 0 <= i < j < |ids| ensures ids[i] != ids[j] {
        assert ids[i] == init[i];
        if j < |init| {
          assert ids[j] == init[j];
        }
      }
    }
  }

  /** A list names as many ids as it has entries exactly when no id repeats. */
  lemma {:induction false} ElementsCard(ids: seq<string>)
    ensures |Elements(ids)| <= |ids|
    ensures |Elements(ids)| == |ids| <==> Distinct(ids)
    decreases |ids|
  {
    if |ids| > 0 {
      var init := ids[..|ids| - 1];
      var last := ids[|ids| - 1];
      ElementsCard(init);
      assert ids == init + [last];
      DistinctSnoc(init, last);
      assert Elements(ids) == Elements(init) + {last};
      if last !in init {
        assert |Elements(ids)| == |Elements(init)| + 1;
      }
    }
  }

  /** A subset as large as its superset is the superset. */
  lemma SubsetOfSameSize(a: set<string>, b: set<string>)
    requires a <= b && |a| == |b|
    ensures a == b
  {
    assert b == a + (b - a);
    assert |b - a| == 0;
  }

  /**
   * `SELECT COUNT(*) FROM contact_main WHERE contact_id in (…)` equals the
   * number of ids given exactly when the ids are distinct and all stored.
   */
  lemma CountMatchesIds(keys: set<string>, ids: seq<string>)
    ensures |keys * Elements(ids)| == |ids| <==>
              Distinct(ids) && forall i :: 0 <= i < |ids| ==> ids[i] in keys
  {
    var e := Elements(ids);
    ElementsCard(ids);
    assert |keys * e| <= |e| by {
      assert e == (keys * e) + (e - keys);
    }
    if |keys * e| == |ids| {
      SubsetOfSameSize(keys * e, e);
      assert e <= keys;
      forall i | 0 <= i < |ids| ensures ids[i] in keys {
        assert ids[i] in e;
      }
    }
    if Distinct(ids) && forall i :: 0 <= i < |ids| ==> ids[i] in keys {
      assert keys * e == e;
    }
  }

  /** The `contact_additional` rows that belong to none of `ids`, in table order. */
  function RowsNotOf(rows: seq<AdditionalRow>, ids: set<string>): (kept: seq<AdditionalRow>)
    ensures forall r :: r in kept <==> r in rows && r.contactId !in ids
    decreases |rows|
  {
    if |rows| == 0 then []
    else
      var last := rows[|rows| - 1];
      RowsNotOf(rows[..|rows| - 1], ids) + (if last.contactId in ids then [] else [last])
  }

  /** The `group_contacts` rows that link none of `ids`, in table order. */
  function LinksNotOf(links: seq<GroupContact>, ids: set<string>): (kept: seq<GroupContact>)
    ensures forall l :: l in kept <==> l in links && l.contactId !in ids
    decreases |links|
  {
    if |links| == 0 then []
    else
      var last := links[|links| - 1];
      LinksNotOf(links[..|links| - 1], ids) + (if last.contactId in ids then [] else [last])
  }

  /** Deleting the rows of one set of ids, then those of another, deletes those of both. */
  lemma {:induction false} RowsNotOfTwice(rows: seq<AdditionalRow>, ids: set<string>, more: set<string>)
    ensures RowsNotOf(RowsNotOf(rows, ids), more) == RowsNotOf(rows, ids + more)
    decreases |rows|
  {
    if |rows| > 0 {
      var init := rows[..|rows| - 1];
      RowsNotOfTwice(init, ids, more);
      var tail := if rows[|rows| - 1].contactId in ids then [] else [rows[|rows| - 1]];
      RowsNotOfAppend(RowsNotOf(init, ids), tail, more);
    }
  }

  /** A DELETE over two stretches of rows is the DELETE over each. */
  lemma {:induction false} RowsNotOfAppend(a: seq<AdditionalRow>, b: seq<AdditionalRow>, ids: set<string>)
    ensures RowsNotOf(a + b, ids) == RowsNotOf(a, ids) + RowsNotOf(b, ids)
    decreases |b|
  {
    if |b| > 0 {
      var b' := b[..|b| - 1];
      assert (a + b)[..|a + b| - 1] == a + b';
      RowsNotOfAppend(a, b', ids);
    } else {
      assert a + b == a;
    }
  }

  /** The same for `group_contacts`. */
  lemma {:induction false} LinksNotOfTwice(links: seq<GroupContact>, ids: set<string>, more: set<string>)
    ensures LinksNotOf(LinksNotOf(links, ids), more) == LinksNotOf(links, ids + more)
    decreases |links|
  {
    if |links| > 0 {
      var init := links[..|links| - 1];
      LinksNotOfTwice(init, ids, more);
      var tail := if links[|links| - 1].contactId in ids then [] else [links[|links| - 1]];
      LinksNotOfAppend(LinksNotOf(init, ids), tail, more);
    }
  }

  lemma {:induction false} LinksNotOfAppend(a: seq<GroupContact>, b: seq<GroupContact>, ids: set<string>)
    ensures LinksNotOf(a + b, ids) == LinksNotOf(a, ids) + LinksNotOf(b, ids)
    decreases |b|
  {
    if |b| > 0 {
      var b' := b[..|b| - 1];
      assert (a + b)[..|a + b| - 1] == a + b';
      LinksNotOfAppend(a, b', ids);
    } else {
      assert a + b == a;
    }
  }

  /** `UPDATE speed_dials SET contact_id = '' WHERE contact_id in ids`. */
  function BlankContacts(dials: map<string, SpeedDial>, ids: set<string>): (blanked: map<string, SpeedDial>)
    ensures blanked.Keys == dials.Keys
    ensures forall k :: k in dials ==> blanked[k].tel == dials[k].tel
    ensures forall k :: k in dials ==>
              blanked[k].contactId == if dials[k].contactId in ids then "" else dials[k].contactId
  {
    map k | k in dials :: if dials[k].contactId in ids then dials[k].(contactId := "") else dials[k]
  }

  /** Deleting the rows of no id keeps every row. */
  lemma {:induction false} RowsNotOfNothing(rows: seq<AdditionalRow>)
    ensures RowsNotOf(rows, {}) == rows
    decreases |rows|
  {
    if |rows| > 0 {
      var n := |rows| - 1;
      RowsNotOfNothing(rows[..n]);
      assert RowsNotOf(rows, {}) == RowsNotOf(rows[..n], {}) + [rows[n]];
      assert rows[..n] + [rows[n]] == rows;
    }
  }

  lemma {:induction false} LinksNotOfNothing(links: seq<GroupContact>)
    ensures LinksNotOf(links, {}) == links
    decreases |links|
  {
    if |links| > 0 {
      var n := |links| - 1;
      LinksNotOfNothing(links[..n]);
      assert LinksNotOf(links, {}) == LinksNotOf(links[..n], {}) + [links[n]];
      assert links[..n] + [links[n]] == links;
    }
  }

  /** Blanking the dials of one set of ids, then of another, blanks those of both. */
  lemma BlankContactsTwice(dials: map<string, SpeedDial>, ids: set<string>, more: set<string>)
    ensures BlankContacts(BlankContacts(dials, ids), more) == BlankContacts(dials, ids + more)
    ensures BlankContacts(dials, {}) == dials
  {
  }

  /** The contact ids of the rows: what a `contact_id` foreign key would demand be stored. */
  predicate RowsBelong(rows: seq<AdditionalRow>, ids: set<string>) {
    forall r :: r in rows ==> r.contactId in ids
  }

  predicate LinksBelong(links: seq<GroupContact>, ids: set<string>) {
    forall l :: l in links ==> l.contactId in ids
  }

  /** Group names are unique, as the `groups.name` column demands. */
  predicate UniqueNames(groups: map<string, string>) {
    forall a, b :: a in groups && b in groups && groups[a] == groups[b] ==> a == b
  }

  /** The `ice_position` rows: their values, with the contact each belongs to. */
  predicate IsIceRow(r: AdditionalRow) {
    r.dataType == "ice_position"
  }

  /** Some `ice_position` row holds `value`. */
  predicate IceValueUsed(rows: seq<AdditionalRow>, value: string) {
    exists r :: r in rows && IsIceRow(r) && r.value == value
  }

  /** No two `ice_position` rows hold the same position. */
  predicate UniqueIcePositions(rows: seq<AdditionalRow>) {
    forall i, j ::
      0 <= i < |rows| && 0 <= j < |rows| && IsIceRow(rows[i]) && IsIceRow(rows[j]) && rows[i].value == rows[j].value
      ==> i == j
  }

  /** `UPDATE contact_additional SET value = position WHERE contact_id = id AND data_type = 'ice_position'`. */
  function SetIceValue(rows: seq<AdditionalRow>, id: string, value: string): (updated: seq<AdditionalRow>)
    ensures |updated| == |rows|
    ensures forall i :: 0 <= i < |rows| ==>
              updated[i] == if rows[i].contactId == id && IsIceRow(rows[i]) then rows[i].(value := value) else rows[i]
  {
    seq(|rows|, i requires 0 <= i < |rows| =>
      if rows[i].contactId == id && IsIceRow(rows[i]) then rows[i].(value := value) else rows[i])
  }

  /** `DELETE FROM contact_additional WHERE contact_id = id AND data_type = 'ice_position'`. */
  function RowsWithoutIce(rows: seq<AdditionalRow>, id: string): (kept: seq<AdditionalRow>)
    ensures forall r :: r in kept <==> r in rows && !(r.contactId == id && IsIceRow(r))
    decreases |rows|
  {
    if |rows| == 0 then []
    else
      var last := rows[|rows| - 1];
      RowsWithoutIce(rows[..|rows| - 1], id) + (if last.contactId == id && IsIceRow(last) then [] else [last])
  }

  /** `DELETE FROM contact_additional WHERE data_type = 'groups' AND value IS id`. */
  function RowsNotInGroup(rows: seq<AdditionalRow>, groupId: string): (kept: seq<AdditionalRow>)
    ensures forall r :: r in kept <==> r in rows && !(r.dataType == "groups" && r.value == groupId)
    decreases |rows|
  {
    if |rows| == 0 then []
    else
      var last := rows[|rows| - 1];
      RowsNotInGroup(rows[..|rows| - 1], groupId) + (if last.dataType == "groups" && last.value == groupId then [] else [last])
  }

  /** `DELETE FROM group_contacts WHERE group_id IS id`. */
  function LinksNotInGroup(links: seq<GroupContact>, groupId: string): (kept: seq<GroupContact>)
    ensures forall l :: l in kept <==> l in links && l.groupId != groupId
    decreases |links|
  {
    if |links| == 0 then []
    else
      var last := links[|links| - 1];
      LinksNotInGroup(links[..|links| - 1], groupId) + (if last.groupId == groupId then [] else [last])
  }

  /** The contacts a `Remove` event lists: a default contact carrying each id, in order. */
  function RemovedContacts(ids: seq<string>): (contacts: seq<ContactInfo>)
    ensures |contacts| == |ids|
    ensures forall i :: 0 <= i < |ids| ==> contacts[i] == DEFAULT_CONTACT.(id := ids[i])
  {
    seq(|ids|, i requires 0 <= i < |ids| => DEFAULT_CONTACT.(id := ids[i]))
  }

  /** The rows `fill_additional_data` selects for one contact: `WHERE contact_id = id`, in table order. */
  function RowsOf(rows: seq<AdditionalRow>, id: string): (mine: seq<AdditionalRow>)
    ensures forall r :: r in mine <==> r in rows && r.contactId == id
    decreases |rows|
  {
    if |rows| == 0 then []
    else
      var last := rows[|rows| - 1];
      RowsOf(rows[..|rows| - 1], id) + (if last.contactId == id then [last] else [])
  }

  lemma {:induction false} RowsOfAppend(a: seq<AdditionalRow>, b: seq<AdditionalRow>, id: string)
    ensures RowsOf(a + b, id) == RowsOf(a, id) + RowsOf(b, id)
    decreases |b|
  {
    if |b| > 0 {
      var b' := b[..|b| - 1];
      assert (a + b)[..|a + b| - 1] == a + b';
      RowsOfAppend(a, b', id);
    } else {
      assert a + b == a;
    }
  }

  /** Rows that all belong to `id` are selected whole, in order. */
  lemma {:induction false} RowsOfOwnRows(rows: seq<AdditionalRow>, id: string)
    requires forall r :: r in rows ==> r.contactId == id
    ensures RowsOf(rows, id) == rows
    decreases |rows|
  {
    if |rows| > 0 {
      RowsOfOwnRows(rows[..|rows| - 1], id);
      assert rows[..|rows| - 1] + [rows[|rows| - 1]] == rows;
    }
  }

  /** Rows none of which belongs to `id` select nothing. */
  lemma RowsOfNone(rows: seq<AdditionalRow>, id: string)
    requires forall r :: r in rows ==> r.contactId != id
    ensures RowsOf(rows, id) == []
  {
    if RowsOf(rows, id) != [] {
      assert RowsOf(rows, id)[0] in RowsOf(rows, id);
    }
  }

  /** All the rows carry `id`. */
  predicate CarryId(rows: seq<AdditionalRow>, id: string) {
    forall r :: r in rows ==> r.contactId == id
  }

  lemma CarryIdAppend(a: seq<AdditionalRow>, b: seq<AdditionalRow>, id: string)
    requires CarryId(a, id) && CarryId(b, id)
    ensures CarryId(a + b, id)
  {
  }

  lemma ListRowsCarryId(c: ContactInfo, f: ListField)
    ensures CarryId(ListRowsOf(c, f), c.id)
  {
    forall r | r in ListRowsOf(c, f) ensures r.contactId == c.id {
      var i :| 0 <= i < |ListRowsOf(c, f)| && ListRowsOf(c, f)[i] == r;
    }
  }

  lemma TextRowsCarryId(c: ContactInfo, g: TextField)
    ensures CarryId(TextRowsOf(c, g), c.id)
  {
  }

  /** Every row `save_additional_data` writes carries the contact's id. */
  lemma AdditionalRowsCarryId(c: ContactInfo)
    ensures CarryId(AdditionalRowsOf(c), c.id)
    ensures forall l :: l in GroupLinksOf(c) ==> l.contactId == c.id
  {
    var id := c.id;
    ListRowsCarryId(c, HonorificPrefix);
    ListRowsCarryId(c, AdditionalName);
    ListRowsCarryId(c, HonorificSuffix);
    ListRowsCarryId(c, Nickname);
    ListRowsCarryId(c, ListField.Category);
    ListRowsCarryId(c, Org);
    ListRowsCarryId(c, JobTitle);
    ListRowsCarryId(c, Note);
    ListRowsCarryId(c, Groups);
    var l1 := ListRowsOf(c, HonorificPrefix) + ListRowsOf(c, AdditionalName);
    CarryIdAppend(ListRowsOf(c, HonorificPrefix), ListRowsOf(c, AdditionalName), id);
    var l2 := l1 + ListRowsOf(c, HonorificSuffix);
    CarryIdAppend(l1, ListRowsOf(c, HonorificSuffix), id);
    var l3 := l2 + ListRowsOf(c, Nickname);
    CarryIdAppend(l2, ListRowsOf(c, Nickname), id);
    var l4 := l3 + ListRowsOf(c, ListField.Category);
    CarryIdAppend(l3, ListRowsOf(c, ListField.Category), id);
    var l5 := l4 + ListRowsOf(c, Org);
    CarryIdAppend(l4, ListRowsOf(c, Org), id);
    var l6 := l5 + ListRowsOf(c, JobTitle);
    CarryIdAppend(l5, ListRowsOf(c, JobTitle), id);
    CarryIdAppend(l6, ListRowsOf(c, Note), id);
    TextRowsCarryId(c, Sex);
    TextRowsCarryId(c, GenderIdentity);
    TextRowsCarryId(c, Ringtone);
    TextRowsCarryId(c, PhoneticGivenName);
    TextRowsCarryId(c, PhoneticFamilyName);
    var t1 := TextRowsOf(c, Sex) + TextRowsOf(c, GenderIdentity);
    CarryIdAppend(TextRowsOf(c, Sex), TextRowsOf(c, GenderIdentity), id);
    var t2 := t1 + TextRowsOf(c, Ringtone);
    CarryIdAppend(t1, TextRowsOf(c, Ringtone), id);
    var t3 := t2 + TextRowsOf(c, PhoneticGivenName);
    CarryIdAppend(t2, TextRowsOf(c, PhoneticGivenName), id);
    CarryIdAppend(t3, TextRowsOf(c, PhoneticFamilyName), id);
    assert CarryId(ExtraRows(c), id);
    CarryIdAppend(ListPartRows(c), TextPartRows(c), id);
    CarryIdAppend(ListPartRows(c) + TextPartRows(c), ExtraRows(c), id);
    CarryIdAppend(ListPartRows(c) + TextPartRows(c) + ExtraRows(c), ListRowsOf(c, Groups), id);
    forall l | l in GroupLinksOf(c) ensures l.contactId == id {
      var i :| 0 <= i < |GroupLinksOf(c)| && GroupLinksOf(c)[i] == l;
    }
  }

  // ---------------------------------------------------------------------
  // save
  // ---------------------------------------------------------------------

  /** The tables `save` writes, and the contacts it has saved so far. */
  datatype Saving = Saving(main: map<string, MainRecord>, additional: seq<AdditionalRow>,
                           links: seq<GroupContact>, saved: seq<ContactInfo>)

  /**
   * The contact `save` stores: an update is stamped with the time of the
   * update, a new contact gets a fresh id and its creation time.
   */
  function Stamped(c: ContactInfo, isUpdate: bool, newId: string, now: SystemTime): (stored: ContactInfo)
    ensures isUpdate ==> stored.id == c.id && stored.updated == now && stored.published == c.published
    ensures !isUpdate ==> stored.id == newId && stored.published == now && stored.updated == c.updated
    ensures stored.(id := c.id, published := c.published, updated := c.updated) == c
  {
    if isUpdate then c.(updated := now) else c.(id := newId, published := now)
  }

  /**
   * One turn of `save`'s loop. An update without an id is skipped; an update
   * first deletes the contact's rows. A main row whose INSERT meets the
   * primary key is an error the loop logs and skips.
   */
  function SaveStep(s: Saving, c: ContactInfo, isUpdate: bool, newId: string, now: SystemTime): (r: Saving)
    requires DatesRepresentable(c) && Representable(now)
    ensures |s.saved| <= |r.saved| <= |s.saved| + 1 && r.saved[..|s.saved|] == s.saved
    ensures |r.saved| == |s.saved| ==> r == s
    ensures |r.saved| > |s.saved| ==>
              r.saved[|s.saved|] == Stamped(c, isUpdate, newId, now) && r.saved[|s.saved|].id in r.main
  {
    if isUpdate && c.id == "" then s
    else
      var contact := Stamped(c, isUpdate, newId, now);
      var id := contact.id;
      var main := if isUpdate then s.main - {id} else s.main;
      if id in main then s
      else
        var additional := if isUpdate then RowsNotOf(s.additional, {id}) else s.additional;
        var links := if isUpdate then LinksNotOf(s.links, {id}) else s.links;
        Saving(main[id := MainRecordOf(contact)], additional + AdditionalRowsOf(contact),
               links + GroupLinksOf(contact), s.saved + [contact])
  }

  predicate AllDatesRepresentable(contacts: seq<ContactInfo>) {
    forall i :: 0 <= i < |contacts| ==> DatesRepresentable(contacts[i])
  }

  /** The new id `save` draws for the contact at `i` (updates draw none). */
  function NewId(isUpdate: bool, newIds: seq<string>, i: nat): string
    requires isUpdate || i < |newIds|
  {
    if isUpdate then "" else newIds[i]
  }

  /** `save`'s loop over the first `|contacts|` contacts. */
  function SaveAll(s: Saving, contacts: seq<ContactInfo>, isUpdate: bool, newIds: seq<string>, now: SystemTime): (r: Saving)
    requires AllDatesRepresentable(contacts) && Representable(now)
    requires isUpdate || |contacts| <= |newIds|
    ensures |s.saved| <= |r.saved| <= |s.saved| + |contacts| && r.saved[..|s.saved|] == s.saved
    decreases |contacts|
  {
    if |contacts| == 0 then s
    else
      var n := |contacts| - 1;
      SaveStep(SaveAll(s, contacts[..n], isUpdate, newIds, now), contacts[n], isUpdate, NewId(isUpdate, newIds, n), now)
  }

  /** `save` keeps every additional and `group_contacts` row tied to a stored contact. */
  lemma SaveStepKeepsBelonging(s: Saving, c: ContactInfo, isUpdate: bool, newId: string, now: SystemTime)
    requires DatesRepresentable(c) && Representable(now)
    requires RowsBelong(s.additional, s.main.Keys) && LinksBelong(s.links, s.main.Keys)
    ensures var r := SaveStep(s, c, isUpdate, newId, now);
      RowsBelong(r.additional, r.main.Keys) && LinksBelong(r.links, r.main.Keys)
  {
    var contact := Stamped(c, isUpdate, newId, now);
    AdditionalRowsCarryId(contact);
  }

  lemma {:induction false} SaveAllKeepsBelonging(s: Saving, contacts: seq<ContactInfo>, isUpdate: bool,
                                                 newIds: seq<string>, now: SystemTime)
    requires AllDatesRepresentable(contacts) && Representable(now)
    requires isUpdate || |contacts| <= |newIds|
    requires RowsBelong(s.additional, s.main.Keys) && LinksBelong(s.links, s.main.Keys)
    ensures var r := SaveAll(s, contacts, isUpdate, newIds, now);
      RowsBelong(r.additional, r.main.Keys) && LinksBelong(r.links, r.main.Keys)
    decreases |contacts|
  {
    if |contacts| > 0 {
      var n := |contacts| - 1;
      SaveAllKeepsBelonging(s, contacts[..n], isUpdate, newIds, now);
      SaveStepKeepsBelonging(SaveAll(s, contacts[..n], isUpdate, newIds, now), contacts[n], isUpdate,
                             NewId(isUpdate, newIds, n), now);
    }
  }

  /**
   * What a saved contact leaves in the tables: its main row, and exactly the
   * additional rows `save_additional_data` wrote for it, which read back as
   * the contact's additional data (its empty lists read as none).
   */
  lemma SaveStepReadsBack(s: Saving, c: ContactInfo, isUpdate: bool, newId: string, now: SystemTime)
    requires DatesRepresentable(c) && Representable(now)
    requires RowsBelong(s.additional, s.main.Keys)
    requires isUpdate ==> c.id != ""
    requires !isUpdate ==> newId !in s.main
    ensures var contact := Stamped(c, isUpdate, newId, now);
      var r := SaveStep(s, c, isUpdate, newId, now);
      && r.saved == s.saved + [contact]
      && r.main[contact.id] == MainRecordOf(contact)
      && RowsOf(r.additional, contact.id) == AdditionalRowsOf(contact)
      && FillAdditional(ClearAdditional(contact), RowsOf(r.additional, contact.id)) == NormalizeLists(contact)
  {
    var contact := Stamped(c, isUpdate, newId, now);
    var id := contact.id;
    var before := if isUpdate then RowsNotOf(s.additional, {id}) else s.additional;
    RowsOfNone(before, id);
    AdditionalRowsCarryId(contact);
    RowsOfOwnRows(AdditionalRowsOf(contact), id);
    RowsOfAppend(before, AdditionalRowsOf(contact), id);
    AdditionalDataRoundTrip(contact);
  }

  /** The contacts an update saves: those with an id, each stamped, in order. */
  function UpdatedContacts(contacts: seq<ContactInfo>, now: SystemTime): (saved: seq<ContactInfo>)
    ensures |saved| <= |contacts|
    decreases |contacts|
  {
    if |contacts| == 0 then []
    else
      var last := contacts[|contacts| - 1];
      UpdatedContacts(contacts[..|contacts| - 1], now) + (if last.id == "" then [] else [Stamped(last, true, "", now)])
  }

  /** An update saves every contact that has an id, and skips the others. */
  lemma {:induction false} SaveUpdateSaves(s: Saving, contacts: seq<ContactInfo>, now: SystemTime)
    requires AllDatesRepresentable(contacts) && Representable(now)
    ensures SaveAll(s, contacts, true, [], now).saved == s.saved + UpdatedContacts(contacts, now)
    decreases |contacts|
  {
    if |contacts| > 0 {
      var n := |contacts| - 1;
      SaveUpdateSaves(s, contacts[..n], now);
      Associate(s.saved, UpdatedContacts(contacts[..n], now), if contacts[n].id == "" then [] else [Stamped(contacts[n], true, "", now)]);
    } else {
      Associate(s.saved, [], []);
    }
  }

  /** The contacts a creation saves when its ids are fresh: each, with its id and time. */
  function CreatedContacts(contacts: seq<ContactInfo>, newIds: seq<string>, now: SystemTime): (saved: seq<ContactInfo>)
    requires |contacts| <= |newIds|
    ensures |saved| == |contacts|
    ensures forall i :: 0 <= i < |contacts| ==> saved[i] == Stamped(contacts[i], false, newIds[i], now)
  {
    seq(|contacts|, i requires 0 <= i < |contacts| => Stamped(contacts[i], false, newIds[i], now))
  }

  /** Saving a new contact under a fresh id adds it and its main row. */
  lemma SaveCreateStep(s: Saving, c: ContactInfo, newId: string, now: SystemTime)
    requires DatesRepresentable(c) && Representable(now)
    requires newId !in s.main
    ensures var r := SaveStep(s, c, false, newId, now);
      r.saved == s.saved + [Stamped(c, false, newId, now)] && r.main.Keys == s.main.Keys + {newId}
  {
  }

  /** The last new id is fresh when the ids are distinct and none is stored. */
  lemma FreshLastId(keys: set<string>, newIds: seq<string>, n: nat)
    requires n < |newIds| && Distinct(newIds[..n + 1])
    requires newIds[n] !in keys
    ensures newIds[n] !in keys + Elements(newIds[..n])
    ensures Distinct(newIds[..n])
    ensures Elements(newIds[..n + 1]) == Elements(newIds[..n]) + {newIds[n]}
  {
    assert newIds[..n + 1] == newIds[..n] + [newIds[n]];
    DistinctSnoc(newIds[..n], newIds[n]);
    assert newIds[..n + 1][..n] == newIds[..n];
  }

  lemma CreatedContactsSnoc(contacts: seq<ContactInfo>, newIds: seq<string>, now: SystemTime)
    requires 0 < |contacts| <= |newIds|
    ensures var n := |contacts| - 1;
      CreatedContacts(contacts, newIds, now) ==
        CreatedContacts(contacts[..n], newIds, now) + [Stamped(contacts[n], false, newIds[n], now)]
  {
    var n := |contacts| - 1;
    var a := CreatedContacts(contacts, newIds, now);
    var b := CreatedContacts(contacts[..n], newIds, now) + [Stamped(contacts[n], false, newIds[n], now)];
    forall i | 0 <= i < |a| ensures a[i] == b[i] {
      if i < n {
        assert contacts[..n][i] == contacts[i];
      }
    }
  }

  /** With distinct fresh ids, a creation stores a main row under each new id. */
  lemma {:induction false} SaveCreateKeys(s: Saving, contacts: seq<ContactInfo>, newIds: seq<string>, now: SystemTime)
    requires AllDatesRepresentable(contacts) && Representable(now)
    requires |contacts| <= |newIds|
    requires Distinct(newIds[..|contacts|])
    requires forall i :: 0 <= i < |contacts| ==> newIds[i] !in s.main
    ensures SaveAll(s, contacts, false, newIds, now).main.Keys == s.main.Keys + Elements(newIds[..|contacts|])
    decreases |contacts|
  {
    if |contacts| > 0 {
      var n := |contacts| - 1;
      FreshLastId(s.main.Keys, newIds, n);
      SaveCreateKeys(s, contacts[..n], newIds, now);
      SaveCreateStep(SaveAll(s, contacts[..n], false, newIds, now), contacts[n], newIds[n], now);
    }
  }

  /**
   * With distinct fresh ids, a creation saves every contact, in order, under
   * its new id.
   */
  lemma {:induction false} SaveCreateSaves(s: Saving, contacts: seq<ContactInfo>, newIds: seq<string>, now: SystemTime)
    requires AllDatesRepresentable(contacts) && Representable(now)
    requires |contacts| <= |newIds|
    requires Distinct(newIds[..|contacts|])
    requires forall i :: 0 <= i < |contacts| ==> newIds[i] !in s.main
    ensures SaveAll(s, contacts, false, newIds, now).saved == s.saved + CreatedContacts(contacts, newIds, now)
    decreases |contacts|
  {
    if |contacts| > 0 {
      var n := |contacts| - 1;
      FreshLastId(s.main.Keys, newIds, n);
      SaveCreateKeys(s, contacts[..n], newIds, now);
      SaveCreateSaves(s, contacts[..n], newIds, now);
      var last := Stamped(contacts[n], false, newIds[n], now);
      SaveCreateStep(SaveAll(s, contacts[..n], false, newIds, now), contacts[n], newIds[n], now);
      CreatedContactsSnoc(contacts, newIds, now);
      Associate(s.saved, CreatedContacts(contacts[..n], newIds, now), [last]);
    } else {
      Associate(s.saved, [], []);
    }
  }

  // ---------------------------------------------------------------------
  // The store
  // ---------------------------------------------------------------------

  const REMOVE_UNKNOWN_ID: string := "Try to remove none exist contact"
  const SET_ICE_UNKNOWN_ID: string := "Try to set_ice with invalid contact id"
  const SET_ICE_POSITION_USED: string := "Try to set_ice with position already used"
  const REMOVE_ICE_UNKNOWN_ID: string := "Try to remove_ice with invalid contact id"

  /** One turn of `remove`'s loop extends what it has deleted by one id. */
  lemma RemoveStep(rows: seq<AdditionalRow>, links: seq<GroupContact>, dials: map<string, SpeedDial>,
                   ids: seq<string>, i: nat)
    requires i < |ids|
    ensures var done := Elements(ids[..i]);
      && Elements(ids[..i + 1]) == done + {ids[i]}
      && RowsNotOf(RowsNotOf(rows, done), {ids[i]}) == RowsNotOf(rows, Elements(ids[..i + 1]))
      && LinksNotOf(LinksNotOf(links, done), {ids[i]}) == LinksNotOf(links, Elements(ids[..i + 1]))
      && BlankContacts(BlankContacts(dials, done), {ids[i]}) == BlankContacts(dials, Elements(ids[..i + 1]))
      && RemovedContacts(ids[..i + 1]) == RemovedContacts(ids[..i]) + [DEFAULT_CONTACT.(id := ids[i])]
  {
    var done := Elements(ids[..i]);
    assert ids[..i + 1][..i] == ids[..i];
    assert Elements(ids[..i + 1]) == done + {ids[i]};
    RowsNotOfTwice(rows, done, {ids[i]});
    LinksNotOfTwice(links, done, {ids[i]});
    BlankContactsTwice(dials, done, {ids[i]});
  }

  /** Deleting contacts with their rows and links keeps the rest tied to stored contacts. */
  lemma RemoveKeepsBelonging(main: map<string, MainRecord>, rows: seq<AdditionalRow>, links: seq<GroupContact>,
                             ids: set<string>)
    requires RowsBelong(rows, main.Keys) && LinksBelong(links, main.Keys)
    ensures RowsBelong(RowsNotOf(rows, ids), (main - ids).Keys)
    ensures LinksBelong(LinksNotOf(links, ids), (main - ids).Keys)
  {
  }

  /** The `ice_position` row `set_ice` writes. */
  function IceRow(contactId: string, position: i64): AdditionalRow {
    AdditionalRow(contactId, "ice_position", IntToString(position))
  }

  /** The contact has an `ice_position` row. */
  predicate HasIceRow(rows: seq<AdditionalRow>, contactId: string) {
    exists r :: r in rows && r.contactId == contactId && IsIceRow(r)
  }

  /** What `set_ice` makes of `contact_additional` once its checks pass: update the contact's row, or insert one. */
  function IceRowsAfterSet(rows: seq<AdditionalRow>, contactId: string, position: i64): seq<AdditionalRow> {
    if HasIceRow(rows, contactId) then SetIceValue(rows, contactId, IntToString(position))
    else rows + [IceRow(contactId, position)]
  }

  /** Each contact has at most one `ice_position` row, as `set_ice` alone never adds a second. */
  predicate OneIceRowEach(rows: seq<AdditionalRow>) {
    forall i, j ::
      0 <= i < |rows| && 0 <= j < |rows| && IsIceRow(rows[i]) && IsIceRow(rows[j]) && rows[i].contactId == rows[j].contactId
      ==> i == j
  }

  /**
   * After `set_ice` the contact has an `ice_position` row, every one of its
   * `ice_position` rows holds the position, and every other row is as it was.
   */
  lemma {:induction false} SetIcePlacesPosition(rows: seq<AdditionalRow>, id: string, position: i64)
    ensures var after := IceRowsAfterSet(rows, id, position);
      && HasIceRow(after, id)
      && (forall r :: r in after && r.contactId == id && IsIceRow(r) ==> r.value == IntToString(position))
      && (forall r :: r in after && !(r.contactId == id && IsIceRow(r)) <==> r in rows && !(r.contactId == id && IsIceRow(r)))
  {
    var v := IntToString(position);
    var after := IceRowsAfterSet(rows, id, position);
    if HasIceRow(rows, id) {
      assert after == SetIceValue(rows, id, v) && |after| == |rows|;
      var r :| r in rows && r.contactId == id && IsIceRow(r);
      var k :| 0 <= k < |rows| && rows[k] == r;
      assert after[k] == r.(value := v);
      forall x | x in after && x.contactId == id && IsIceRow(x)
        ensures x.value == v
      {
        var m :| 0 <= m < |rows| && after[m] == x;
      }
      forall x
        ensures x in after && !(x.contactId == id && IsIceRow(x)) <==> x in rows && !(x.contactId == id && IsIceRow(x))
      {
        if x in after && !(x.contactId == id && IsIceRow(x)) {
          var m :| 0 <= m < |rows| && after[m] == x;
        }
        if x in rows && !(x.contactId == id && IsIceRow(x)) {
          var m :| 0 <= m < |rows| && rows[m] == x;
          assert after[m] == x;
        }
      }
    } else {
      assert after == rows + [IceRow(id, position)];
      assert after[|rows|] == IceRow(id, position);
    }
  }

  /**
   * `set_ice` keeps positions unique: once the position is known to be free
   * and the contact holds at most one `ice_position` row, no position ends
   * up held twice, and each contact still holds at most one row.
   */
  lemma {:induction false} SetIceKeepsPositionsUnique(rows: seq<AdditionalRow>, id: string, position: i64)
    requires UniqueIcePositions(rows) && OneIceRowEach(rows)
    requires !IceValueUsed(rows, IntToString(position))
    ensures UniqueIcePositions(IceRowsAfterSet(rows, id, position))
    ensures OneIceRowEach(IceRowsAfterSet(rows, id, position))
  {
    var v := IntToString(position);
    var after := IceRowsAfterSet(rows, id, position);
    if HasIceRow(rows, id) {
      forall i, j | 0 <= i < |after| && 0 <= j < |after| && IsIceRow(after[i]) && IsIceRow(after[j])
        ensures after[i].value == after[j].value ==> i == j
        ensures after[i].contactId == after[j].contactId ==> i == j
      {
        assert IsIceRow(rows[i]) && IsIceRow(rows[j]);
        if rows[i].contactId == id && rows[j].contactId != id {
          assert after[i].value == v && after[j] == rows[j];
        } else if rows[i].contactId != id && rows[j].contactId == id {
          assert after[j].value == v && after[i] == rows[i];
        }
      }
    } else {
      assert after == rows + [IceRow(id, position)];
      forall i, j | 0 <= i < |after| && 0 <= j < |after| && IsIceRow(after[i]) && IsIceRow(after[j])
        ensures after[i].value == after[j].value ==> i == j
        ensures after[i].contactId == after[j].contactId ==> i == j
      {
        if i < |rows| && j == |rows| {
          assert after[i] == rows[i] && after[j] == IceRow(id, position);
        } else if i == |rows| && j < |rows| {
          assert after[j] == rows[j] && after[i] == IceRow(id, position);
        }
      }
    }
  }

  /** `remove_ice` leaves the contact no `ice_position` row and frees its positions only. */
  lemma RemoveIceFreesOnlyItsPosition(rows: seq<AdditionalRow>, id: string, value: string)
    ensures !HasIceRow(RowsWithoutIce(rows, id), id)
    ensures IceValueUsed(RowsWithoutIce(rows, id), value) <==>
              exists r :: r in rows && IsIceRow(r) && r.value == value && r.contactId != id
  {
    var kept := RowsWithoutIce(rows, id);
    if IceValueUsed(kept, value) {
      var r :| r in kept && IsIceRow(r) && r.value == value;
      assert r in rows && r.contactId != id;
    }
  }

  /** The `name` may go under `id` without breaking uniqueness exactly when no other group holds it. */
  lemma NamesStayUnique(groups: map<string, string>, id: string, name: string)
    requires UniqueNames(groups)
    ensures UniqueNames(groups[id := name]) <==> forall other :: other in groups && other != id ==> groups[other] != name
  {
    if !(forall other :: other in groups && other != id ==> groups[other] != name) {
      var other :| other in groups && other != id && groups[other] == name;
      assert groups[id := name][other] == groups[id := name][id];
    }
  }

  /** The contacts `import_sim_contacts` hands to `save`: each SIM record converted, in order. */
  function SimContacts(sims: seq<SimContactInfo>, now: SystemTime): (contacts: seq<ContactInfo>)
    requires Representable(now)
    ensures |contacts| == |sims|
    ensures forall i :: 0 <= i < |sims| ==> contacts[i].id == sims[i].id && contacts[i].updated == now
    ensures AllDatesRepresentable(contacts)
  {
    seq(|sims|, i requires 0 <= i < |sims| => FromSimContact(sims[i], now))
  }

  /** The contacts `import_vcf` collects: one per card that parsed, built from the default contact. */
  function VcardContacts(cards: seq<Option<seq<VcardProperty>>>): (contacts: seq<ContactInfo>)
    ensures |contacts| <= |cards|
    ensures |contacts| == |cards| <==> forall i :: 0 <= i < |cards| ==> cards[i].Some?
    // a vCard touches no date, so each contact keeps the default, representable ones
    ensures AllDatesRepresentable(contacts)
    decreases |cards|
  {
    if |cards| == 0 then []
    else
      var last := cards[|cards| - 1];
      if last.Some? then
        VcardKeepsOtherFields(DEFAULT_CONTACT, last.value);
        VcardContacts(cards[..|cards| - 1]) + [ApplyVcard(DEFAULT_CONTACT, last.value)]
      else
        VcardContacts(cards[..|cards| - 1])
  }

  /** The parsing half of `import_vcf`: one contact per card that parsed, in order. */
  method CollectVcardContacts(cards: seq<Option<seq<VcardProperty>>>) returns (contacts: seq<ContactInfo>)
    ensures contacts == VcardContacts(cards)
  {
    contacts := [];
    for i := 0 to |cards|
      invariant contacts == VcardContacts(cards[..i])
    {
      assert cards[..i + 1][..i] == cards[..i];
      if cards[i].Some? {
        var contact := ContactFromVcard(cards[i].value);
        contacts := contacts + [contact];
      }
    }
    assert cards[..|cards|] == cards;
  }

  class ContactsDb {
    var contactMain: map<string, MainRecord>
    var contactAdditional: seq<AdditionalRow>
    var blockedNumbers: set<string>
    var speedDials: map<string, SpeedDial>
    /** `groups`: group id to name. */
    var groups: map<string, string>
    var groupContacts: seq<GroupContact>
    /** What the store has handed to its broadcaster, oldest first. */
    var events: seq<ContactsEvent>

    /**
     * The tables as the schema declares them: every additional row and
     * group link belongs to a stored contact, and group names are unique.
     */
    predicate Valid()
      reads this
    {
      && RowsBelong(contactAdditional, contactMain.Keys)
      && LinksBelong(groupContacts, contactMain.Keys)
      && UniqueNames(groups)
    }

    /** `ContactsDb::new` on a fresh database: every table empty, nothing broadcast. */
    constructor()
      ensures Valid()
      ensures contactMain == map[] && contactAdditional == [] && blockedNumbers == {}
      ensures speedDials == map[] && groups == map[] && groupContacts == [] && events == []
    {
      contactMain := map[];
      contactAdditional := [];
      blockedNumbers := {};
      speedDials := map[];
      groups := map[];
      groupContacts := [];
      events := [];
    }

    /**
     * `clear_contacts`: every contact goes with its additional rows and group
     * links, speed dials lose their contact; numbers and groups stay, and no
     * event is sent.
     */
    method ClearContacts()
      requires Valid()
      modifies this
      ensures Valid()
      ensures contactMain == map[] && contactAdditional == [] && groupContacts == []
      ensures speedDials.Keys == old(speedDials).Keys
      ensures forall k :: k in speedDials ==> speedDials[k] == SpeedDial(old(speedDials)[k].tel, "")
      ensures blockedNumbers == old(blockedNumbers) && groups == old(groups) && events == old(events)
    {
      speedDials := map k | k in speedDials :: speedDials[k].(contactId := "");
      contactAdditional := [];
      groupContacts := [];
      contactMain := map[];
    }

    /** The four statements `remove` runs for one id. */
    method DeleteContact(id: string)
      modifies this
      ensures contactAdditional == RowsNotOf(old(contactAdditional), {id})
      ensures speedDials == BlankContacts(old(speedDials), {id})
      ensures contactMain == old(contactMain) - {id}
      ensures groupContacts == LinksNotOf(old(groupContacts), {id})
      ensures blockedNumbers == old(blockedNumbers) && groups == old(groups) && events == old(events)
    {
      contactAdditional := RowsNotOf(contactAdditional, {id});
      speedDials := BlankContacts(speedDials, {id});
      contactMain := contactMain - {id};
      groupContacts := LinksNotOf(groupContacts, {id});
    }

    /** The loop of `remove`: the four statements for each id in turn, collecting the removed contacts. */
    method DeleteContacts(contactIds: seq<string>) returns (removed: seq<ContactInfo>)
      modifies this
      ensures contactMain == old(contactMain) - Elements(contactIds)
      ensures contactAdditional == RowsNotOf(old(contactAdditional), Elements(contactIds))
      ensures speedDials == BlankContacts(old(speedDials), Elements(contactIds))
      ensures groupContacts == LinksNotOf(old(groupContacts), Elements(contactIds))
      ensures removed == RemovedContacts(contactIds)
      ensures blockedNumbers == old(blockedNumbers) && groups == old(groups) && events == old(events)
    {
      removed := [];
      RowsNotOfNothing(contactAdditional);
      LinksNotOfNothing(groupContacts);
      BlankContactsTwice(speedDials, {}, {});
      assert contactIds[..0] == [];
      for i := 0 to |contactIds|
        invariant contactMain == old(contactMain) - Elements(contactIds[..i])
        invariant contactAdditional == RowsNotOf(old(contactAdditional), Elements(contactIds[..i]))
        invariant speedDials == BlankContacts(old(speedDials), Elements(contactIds[..i]))
        invariant groupContacts == LinksNotOf(old(groupContacts), Elements(contactIds[..i]))
        invariant removed == RemovedContacts(contactIds[..i])
        invariant blockedNumbers == old(blockedNumbers) && groups == old(groups) && events == old(events)
      {
        var id := contactIds[i];
        RemoveStep(old(contactAdditional), old(groupContacts), old(speedDials), contactIds, i);
        DeleteContact(id);
        removed := removed + [DEFAULT_CONTACT.(id := id)];
      }
      assert contactIds[..|contactIds|] == contactIds;
    }

    /**
     * `remove`: all or nothing. Unless the ids are distinct and all stored,
     * it fails with `InvalidContactId` and changes nothing (an empty list
     * fails binding its one placeholder). Otherwise it deletes each contact
     * with its rows and links, blanks the speed dials that named it, and
     * broadcasts one `Remove` event listing the ids.
     */
    method Remove(contactIds: seq<string>) returns (result: Result<(), Error>)
      requires Valid()
      modifies this
      ensures Valid()
      ensures |contactIds| == 0 ==> result == Err(Sqlite(InvalidParameterCount))
      ensures |contactIds| > 0 ==>
                (result.Ok? <==> Distinct(contactIds) && forall i :: 0 <= i < |contactIds| ==> contactIds[i] in old(contactMain))
      ensures |contactIds| > 0 && result.Err? ==> result.error == InvalidContactId(REMOVE_UNKNOWN_ID)
      ensures result.Err? ==> unchanged(this)
      ensures result.Ok? ==>
                var ids := Elements(contactIds);
                && contactMain == old(contactMain) - ids
                && contactAdditional == RowsNotOf(old(contactAdditional), ids)
                && speedDials == BlankContacts(old(speedDials), ids)
                && groupContacts == LinksNotOf(old(groupContacts), ids)
                && events == old(events) + [ContactsChange(ChangeReason.Remove, RemovedContacts(contactIds))]
                && blockedNumbers == old(blockedNumbers) && groups == old(groups)
    {
      if |contactIds| == 0 {
        return Err(Sqlite(InvalidParameterCount));
      }
      var count := |contactMain.Keys * Elements(contactIds)|;
      CountMatchesIds(contactMain.Keys, contactIds);
      if count != |contactIds| {
        return Err(InvalidContactId(REMOVE_UNKNOWN_ID));
      }
      var removed := DeleteContacts(contactIds);
      RemoveKeepsBelonging(old(contactMain), old(contactAdditional), old(groupContacts), Elements(contactIds));
      events := events + [ContactsChange(ChangeReason.Remove, removed)];
      result := Ok(());
    }
  
    /** The INSERTs of one contact: its main row, its additional rows and its group links. */
    method StoreContact(contact: ContactInfo)
      requires DatesRepresentable(contact)
      modifies this
      ensures contactMain == old(contactMain)[contact.id := MainRecordOf(contact)]
      ensures contactAdditional == old(contactAdditional) + AdditionalRowsOf(contact)
      ensures groupContacts == old(groupContacts) + GroupLinksOf(contact)
      ensures blockedNumbers == old(blockedNumbers) && speedDials == old(speedDials)
      ensures groups == old(groups) && events == old(events)
    {
      var row := SaveMainData(contact);
      contactMain := contactMain[contact.id := row];
      var rows, links := SaveAdditionalData(contact);
      contactAdditional := contactAdditional + rows;
      groupContacts := groupContacts + links;
    }

    /** One turn of `save`'s loop. */
    method SaveOne(c: ContactInfo, isUpdate: bool, newId: string, now: SystemTime, saved: seq<ContactInfo>)
      returns (savedAfter: seq<ContactInfo>)
      requires DatesRepresentable(c) && Representable(now)
      modifies this
      ensures Saving(contactMain, contactAdditional, groupContacts, savedAfter) ==
              SaveStep(Saving(old(contactMain), old(contactAdditional), old(groupContacts), saved), c, isUpdate, newId, now)
      ensures blockedNumbers == old(blockedNumbers) && speedDials == old(speedDials)
      ensures groups == old(groups) && events == old(events)
    {
      savedAfter := saved;
      if isUpdate && c.id == "" {
        return;
      }
      var contact := Stamped(c, isUpdate, newId, now);
      if isUpdate {
        contactAdditional := RowsNotOf(contactAdditional, {contact.id});
        groupContacts := LinksNotOf(groupContacts, {contact.id});
        contactMain := contactMain - {contact.id};
      }
      if contact.id in contactMain {
        // the main row's INSERT meets the primary key: logged and skipped
        return;
      }
      StoreContact(contact);
      savedAfter := saved + [contact];
    }

    /**
     * `save`: each contact in turn as `SaveStep` says, in one transaction,
     * then one `Create` or `Update` event listing the contacts saved (sent
     * even when none was). `newIds` are the UUIDs a creation draws.
     */
    method Save(contacts: seq<ContactInfo>, isUpdate: bool, newIds: seq<string>, now: SystemTime)
      requires Valid()
      requires AllDatesRepresentable(contacts) && Representable(now)
      requires isUpdate || |contacts| <= |newIds|
      modifies this
      ensures Valid()
      ensures var r := SaveAll(Saving(old(contactMain), old(contactAdditional), old(groupContacts), []),
                               contacts, isUpdate, newIds, now);
        && contactMain == r.main && contactAdditional == r.additional && groupContacts == r.links
        && events == old(events) + [ContactsChange(if isUpdate then Update else Create, r.saved)]
      ensures blockedNumbers == old(blockedNumbers) && speedDials == old(speedDials) && groups == old(groups)
    {
      SaveAllKeepsBelonging(Saving(contactMain, contactAdditional, groupContacts, []), contacts, isUpdate, newIds, now);
      var saved := SaveContacts(contacts, isUpdate, newIds, now);
      events := events + [ContactsChange(if isUpdate then Update else Create, saved)];
    }

    /** The loop of `save`, over every contact in turn. */
    method SaveContacts(contacts: seq<ContactInfo>, isUpdate: bool, newIds: seq<string>, now: SystemTime)
      returns (saved: seq<ContactInfo>)
      requires AllDatesRepresentable(contacts) && Representable(now)
      requires isUpdate || |contacts| <= |newIds|
      modifies this
      ensures Saving(contactMain, contactAdditional, groupContacts, saved) ==
              SaveAll(Saving(old(contactMain), old(contactAdditional), old(groupContacts), []), contacts, isUpdate, newIds, now)
      ensures blockedNumbers == old(blockedNumbers) && speedDials == old(speedDials)
      ensures groups == old(groups) && events == old(events)
    {
      ghost var start := Saving(contactMain, contactAdditional, groupContacts, []);
      saved := [];
      for i := 0 to |contacts|
        invariant Saving(contactMain, contactAdditional, groupContacts, saved) ==
                  SaveAll(start, contacts[..i], isUpdate, newIds, now)
        invariant blockedNumbers == old(blockedNumbers) && speedDials == old(speedDials)
        invariant groups == old(groups) && events == old(events)
      {
        assert contacts[..i + 1][..i] == contacts[..i];
        saved := SaveOne(contacts[i], isUpdate, NewId(isUpdate, newIds, i), now, saved);
      }
      assert contacts[..|contacts|] == contacts;
    }

    /**
     * `import_sim_contacts`: the SIM records, converted, are saved as
     * updates, so each keeps its SIM id and one without an id is skipped.
     */
    method ImportSimContacts(sims: seq<SimContactInfo>, now: SystemTime)
      requires Valid() && Representable(now)
      modifies this
      ensures Valid()
      ensures var r := SaveAll(Saving(old(contactMain), old(contactAdditional), old(groupContacts), []),
                               SimContacts(sims, now), true, [], now);
        && contactMain == r.main && contactAdditional == r.additional && groupContacts == r.links
        && events == old(events) + [ContactsChange(Update, r.saved)]
      ensures blockedNumbers == old(blockedNumbers) && speedDials == old(speedDials) && groups == old(groups)
    {
      var contacts := SimContacts(sims, now);
      Save(contacts, true, [], now);
    }

    /**
     * `import_vcf`: every card that parsed becomes a contact (the others are
     * dropped), all are saved as new contacts under the drawn ids, and the
     * number of contacts is returned.
     */
    method ImportVcf(cards: seq<Option<seq<VcardProperty>>>, newIds: seq<string>, now: SystemTime)
      returns (result: Result<nat, Error>)
      requires Valid() && Representable(now)
      requires |VcardContacts(cards)| <= |newIds|
      modifies this
      ensures Valid()
      ensures result == Ok(|VcardContacts(cards)|)
      ensures var r := SaveAll(Saving(old(contactMain), old(contactAdditional), old(groupContacts), []),
                               VcardContacts(cards), false, newIds, now);
        && contactMain == r.main && contactAdditional == r.additional && groupContacts == r.links
        && events == old(events) + [ContactsChange(Create, r.saved)]
      ensures blockedNumbers == old(blockedNumbers) && speedDials == old(speedDials) && groups == old(groups)
    {
      var contacts := CollectVcardContacts(cards);
      Save(contacts, false, newIds, now);
      return Ok(|contacts|);
    }
    /**
     * `set_ice`: the contact must exist and no `ice_position` row may hold
     * the position yet (the column is text, so the position is compared in
     * its decimal form); then the contact's row is updated or one inserted.
     */
    method SetIce(contactId: string, position: i64) returns (result: Result<(), Error>)
      requires Valid()
      modifies this
      ensures Valid()
      ensures contactId !in old(contactMain) ==> result == Err(InvalidContactId(SET_ICE_UNKNOWN_ID))
      ensures contactId in old(contactMain) && IceValueUsed(old(contactAdditional), IntToString(position)) ==>
                result == Err(IcePositionUsed(SET_ICE_POSITION_USED))
      ensures result.Ok? <==>
                contactId in old(contactMain) && !IceValueUsed(old(contactAdditional), IntToString(position))
      ensures result.Err? ==> unchanged(this)
      ensures result.Ok? ==> contactAdditional == IceRowsAfterSet(old(contactAdditional), contactId, position)
      ensures contactMain == old(contactMain) && blockedNumbers == old(blockedNumbers)
      ensures speedDials == old(speedDials) && groups == old(groups)
      ensures groupContacts == old(groupContacts) && events == old(events)
    {
      if contactId !in contactMain {
        return Err(InvalidContactId(SET_ICE_UNKNOWN_ID));
      }
      if IceValueUsed(contactAdditional, IntToString(position)) {
        return Err(IcePositionUsed(SET_ICE_POSITION_USED));
      }
      if HasIceRow(contactAdditional, contactId) {
        contactAdditional := SetIceValue(contactAdditional, contactId, IntToString(position));
      } else {
        contactAdditional := contactAdditional + [IceRow(contactId, position)];
      }
      return Ok(());
    }

    /** `remove_ice`: the contact must exist; its `ice_position` rows are deleted. */
    method RemoveIce(contactId: string) returns (result: Result<(), Error>)
      requires Valid()
      modifies this
      ensures Valid()
      ensures result.Err? <==> contactId !in old(contactMain)
      ensures result.Err? ==> result == Err(InvalidContactId(REMOVE_ICE_UNKNOWN_ID)) && unchanged(this)
      ensures result.Ok? ==> contactAdditional == RowsWithoutIce(old(contactAdditional), contactId)
      ensures contactMain == old(contactMain) && blockedNumbers == old(blockedNumbers)
      ensures speedDials == old(speedDials) && groups == old(groups)
      ensures groupContacts == old(groupContacts) && events == old(events)
    {
      if contactId !in contactMain {
        return Err(InvalidContactId(REMOVE_ICE_UNKNOWN_ID));
      }
      contactAdditional := RowsWithoutIce(contactAdditional, contactId);
      return Ok(());
    }

    /** `add_blocked_number`: the number column is unique; a stored number is refused. */
    method AddBlockedNumber(number: string) returns (result: Result<(), Error>)
      modifies this
      ensures result.Err? <==> number in old(blockedNumbers)
      ensures result.Err? ==> result == Err(Sqlite(UniqueConstraintFailed)) && unchanged(this)
      ensures result.Ok? ==> blockedNumbers == old(blockedNumbers) + {number}
      ensures result.Ok? ==> events == old(events) + [BlockedNumberChange(Create, number)]
      ensures contactMain == old(contactMain) && contactAdditional == old(contactAdditional)
      ensures speedDials == old(speedDials) && groups == old(groups) && groupContacts == old(groupContacts)
    {
      if number in blockedNumbers {
        return Err(Sqlite(UniqueConstraintFailed));
      }
      blockedNumbers := blockedNumbers + {number};
      events := events + [BlockedNumberChange(Create, number)];
      return Ok(());
    }

    /** `remove_blocked_number`: deletes the number; an event goes out only when a row went. */
    method RemoveBlockedNumber(number: string)
      modifies this
      ensures blockedNumbers == old(blockedNumbers) - {number}
      ensures events == old(events) + (if number in old(blockedNumbers) then [BlockedNumberChange(ChangeReason.Remove, number)] else [])
      ensures contactMain == old(contactMain) && contactAdditional == old(contactAdditional)
      ensures speedDials == old(speedDials) && groups == old(groups) && groupContacts == old(groupContacts)
    {
      if number in blockedNumbers {
        blockedNumbers := blockedNumbers - {number};
        events := events + [BlockedNumberChange(ChangeReason.Remove, number)];
      }
    }

    /** `add_speed_dial`: the dial key column is unique; a stored key is refused. */
    method AddSpeedDial(dialKey: string, tel: string, contactId: string) returns (result: Result<(), Error>)
      modifies this
      ensures result.Err? <==> dialKey in old(speedDials)
      ensures result.Err? ==> result == Err(Sqlite(UniqueConstraintFailed)) && unchanged(this)
      ensures result.Ok? ==> speedDials == old(speedDials)[dialKey := SpeedDial(tel, contactId)]
      ensures result.Ok? ==> events == old(events) + [SpeedDialChange(Create, SpeedDialInfo(dialKey, tel, contactId))]
      ensures contactMain == old(contactMain) && contactAdditional == old(contactAdditional)
      ensures blockedNumbers == old(blockedNumbers) && groups == old(groups) && groupContacts == old(groupContacts)
    {
      if dialKey in speedDials {
        return Err(Sqlite(UniqueConstraintFailed));
      }
      speedDials := speedDials[dialKey := SpeedDial(tel, contactId)];
      events := events + [SpeedDialChange(Create, SpeedDialInfo(dialKey, tel, contactId))];
      return Ok(());
    }

    /** `update_speed_dial`: rewrites a stored key; an unknown key changes nothing and sends nothing. */
    method UpdateSpeedDial(dialKey: string, tel: string, contactId: string)
      modifies this
      ensures dialKey in old(speedDials) ==> speedDials == old(speedDials)[dialKey := SpeedDial(tel, contactId)]
      ensures dialKey !in old(speedDials) ==> speedDials == old(speedDials)
      ensures events == old(events) +
                (if dialKey in old(speedDials) then [SpeedDialChange(Update, SpeedDialInfo(dialKey, tel, contactId))] else [])
      ensures contactMain == old(contactMain) && contactAdditional == old(contactAdditional)
      ensures blockedNumbers == old(blockedNumbers) && groups == old(groups) && groupContacts == old(groupContacts)
    {
      if dialKey in speedDials {
        speedDials := speedDials[dialKey := SpeedDial(tel, contactId)];
        events := events + [SpeedDialChange(Update, SpeedDialInfo(dialKey, tel, contactId))];
      }
    }

    /** `remove_speed_dial`: deletes the key; the event carries the key with empty tel and contact. */
    method RemoveSpeedDial(dialKey: string)
      modifies this
      ensures speedDials == old(speedDials) - {dialKey}
      ensures events == old(events) +
                (if dialKey in old(speedDials) then [SpeedDialChange(ChangeReason.Remove, SpeedDialInfo(dialKey, "", ""))] else [])
      ensures contactMain == old(contactMain) && contactAdditional == old(contactAdditional)
      ensures blockedNumbers == old(blockedNumbers) && groups == old(groups) && groupContacts == old(groupContacts)
    {
      if dialKey in speedDials {
        speedDials := speedDials - {dialKey};
        events := events + [SpeedDialChange(ChangeReason.Remove, SpeedDialInfo(dialKey, "", ""))];
      }
    }

    /**
     * `add_group`: a new group under the freshly drawn `newId`. The id is the
     * primary key and the name is unique, so a clash on either is refused.
     */
    method AddGroup(name: string, newId: string) returns (result: Result<(), Error>)
      requires Valid()
      modifies this
      ensures Valid()
      ensures result.Err? <==> newId in old(groups) || name in old(groups).Values
      ensures result.Err? ==> result == Err(Sqlite(UniqueConstraintFailed)) && unchanged(this)
      ensures result.Ok? ==> groups == old(groups)[newId := name]
      ensures result.Ok? ==> events == old(events) + [GroupChange(Create, GroupInfo(name, newId))]
      ensures contactMain == old(contactMain) && contactAdditional == old(contactAdditional)
      ensures blockedNumbers == old(blockedNumbers) && speedDials == old(speedDials)
      ensures groupContacts == old(groupContacts)
    {
      if newId in groups || name in groups.Values {
        return Err(Sqlite(UniqueConstraintFailed));
      }
      NamesStayUnique(groups, newId, name);
      groups := groups[newId := name];
      events := events + [GroupChange(Create, GroupInfo(name, newId))];
      return Ok(());
    }

    /**
     * `update_group`: renames a stored group; another group holding the name
     * is a unique-constraint failure, and an unknown id changes nothing.
     */
    method UpdateGroup(id: string, name: string) returns (result: Result<(), Error>)
      requires Valid()
      modifies this
      ensures Valid()
      ensures result.Err? <==> id in old(groups) && exists other :: other in old(groups) && other != id && old(groups)[other] == name
      ensures result.Err? ==> result == Err(Sqlite(UniqueConstraintFailed))
      ensures result.Err? || id !in old(groups) ==> unchanged(this)
      ensures result.Ok? && id in old(groups) ==> groups == old(groups)[id := name]
      ensures result.Ok? && id in old(groups) ==> events == old(events) + [GroupChange(Update, GroupInfo(name, id))]
      ensures contactMain == old(contactMain) && contactAdditional == old(contactAdditional)
      ensures blockedNumbers == old(blockedNumbers) && speedDials == old(speedDials)
      ensures groupContacts == old(groupContacts)
    {
      if id !in groups {
        return Ok(());
      }
      NamesStayUnique(groups, id, name);
      if exists other :: other in groups && other != id && groups[other] == name {
        return Err(Sqlite(UniqueConstraintFailed));
      }
      groups := groups[id := name];
      events := events + [GroupChange(Update, GroupInfo(name, id))];
      return Ok(());
    }

    /**
     * `remove_group`: drops the group's links, the `groups` rows naming it
     * and the group itself, then always sends a `Remove` event with an empty
     * name, whether or not such a group existed.
     */
    method RemoveGroup(id: string)
      requires Valid()
      modifies this
      ensures Valid()
      ensures groupContacts == LinksNotInGroup(old(groupContacts), id)
      ensures contactAdditional == RowsNotInGroup(old(contactAdditional), id)
      ensures groups == old(groups) - {id}
      ensures events == old(events) + [GroupChange(ChangeReason.Remove, GroupInfo("", id))]
      ensures contactMain == old(contactMain) && blockedNumbers == old(blockedNumbers) && speedDials == old(speedDials)
    {
      groupContacts := LinksNotInGroup(groupContacts, id);
      contactAdditional := RowsNotInGroup(contactAdditional, id);
      groups := groups - {id};
      events := events + [GroupChange(ChangeReason.Remove, GroupInfo("", id))];
    }
  }
}
