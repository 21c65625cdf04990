/**
 * The message list (`get_all_messages` and the repository's `get_all`) and the
 * per-admin history (`getSentSmsHistory`).  The database is a parameter: `db`
 * answers a `findAndCountAll` for a where clause, offset and limit, and the
 * grouped history rows are given as they come back.  Dates are instants in
 * milliseconds; `toTime` is what `new Date(text)` makes of a filter date.
 */
module SmsQuery {
  import opened Wrappers
  import opened Strings
  import opened Delivery
  import NumberWords
  import Arith

  // ---- the where clause -------------------------------------------------------------

  /** The request body of the list; `admin_id` is absent when `None`. */
  datatype SmsFilter = SmsFilter(
    phone_number: string,
    message_id: string,
    message_text: string,
    startDate: string,
    endDate: string,
    admin_id: Option<int>,
    sms_type: Option<TemplateType>)

  /** One constraint of `whereOptions`. */
  datatype Constraint =
    | Equals(value: int)            // `whereOptions.adminId = adminId`
    | EqualsText(id: int)           // `{ [Op.eq]: `${filter.admin_id}` }`: the id as text
    | Contains(text: string)        // `{ [Op.iLike]: `%${text}%` }`
    | Between(start: string, end: string)  // `{ [Op.between]: [start, end + 1 day] }`

  /** The columns `whereOptions` can constrain. */
  datatype Key = AdminKey | RecipientKey | TextKey | IdKey | CreatedKey

  type Where = map<Key, Constraint>

  const DayMs := 86400000

  /** `filter.admin_id` is truthy: present and not 0. */
  predicate AdminFilter(filter: SmsFilter) {
    filter.admin_id.Some? && filter.admin_id.value != 0
  }

  /** What the filter and the caller put under `key`, if anything. */
  function ConstraintFor(key: Key, adminId: int, isSuperAdmin: bool, filter: SmsFilter): Option<Constraint> {
    match key
    case AdminKey =>
      if AdminFilter(filter) then Some(EqualsText(filter.admin_id.value))
      else if !isSuperAdmin then Some(Equals(adminId))
      else None
    case RecipientKey => if filter.phone_number != "" then Some(Contains(filter.phone_number)) else None
    case TextKey => if filter.message_text != "" then Some(Contains(filter.message_text)) else None
    case IdKey => if filter.message_id != "" then Some(Contains(filter.message_id)) else None
    case CreatedKey =>
      if filter.startDate != "" && filter.endDate != "" then Some(Between(filter.startDate, filter.endDate)) else None
  }

  const AllKeys: set<Key> := {AdminKey, RecipientKey, TextKey, IdKey, CreatedKey}

  /** The where clause the filter and the caller make, key by key. */
  function WhereOptions(adminId: int, isSuperAdmin: bool, filter: SmsFilter): (w: Where)
    ensures forall key :: key in w <==> ConstraintFor(key, adminId, isSuperAdmin, filter).Some?
    ensures forall key :: key in w ==> w[key] == ConstraintFor(key, adminId, isSuperAdmin, filter).value
    ensures Agrees(w, 5, adminId, isSuperAdmin, filter)
  {
    map key | key in AllKeys && ConstraintFor(key, adminId, isSuperAdmin, filter).Some? :: ConstraintFor(key, adminId, isSuperAdmin, filter).value
  }

  /** `get_all`'s filling of `whereOptions`: each truthy field sets its key, and a truthy `admin_id` overwrites the caller's restriction. */
  method BuildWhere(adminId: int, isSuperAdmin: bool, filter: SmsFilter) returns (whereOptions: Where)
    ensures whereOptions == WhereOptions(adminId, isSuperAdmin, filter)
  {
    whereOptions := map[];
    if !isSuperAdmin {
      whereOptions := whereOptions[AdminKey := Equals(adminId)];
    }
    if AdminFilter(filter) {
      whereOptions := whereOptions[AdminKey := EqualsText(filter.admin_id.value)];
    }
    assert Agrees(whereOptions, 1, adminId, isSuperAdmin, filter);
    ghost var before := whereOptions;
    if filter.phone_number != "" {
      whereOptions := whereOptions[RecipientKey := Contains(filter.phone_number)];
    }
    AgreeStep(before, whereOptions, 1, RecipientKey, adminId, isSuperAdmin, filter);
    before := whereOptions;
    if filter.message_text != "" {
      whereOptions := whereOptions[TextKey := Contains(filter.message_text)];
    }
    AgreeStep(before, whereOptions, 2, TextKey, adminId, isSuperAdmin, filter);
    before := whereOptions;
    if filter.message_id != "" {
      whereOptions := whereOptions[IdKey := Contains(filter.message_id)];
    }
    AgreeStep(before, whereOptions, 3, IdKey, adminId, isSuperAdmin, filter);
    before := whereOptions;
    if filter.startDate != "" && filter.endDate != "" {
      whereOptions := whereOptions[CreatedKey := Between(filter.startDate, filter.endDate)];
    }
    AgreeStep(before, whereOptions, 4, CreatedKey, adminId, isSuperAdmin, filter);
    AgreeingAreEqual(whereOptions, WhereOptions(adminId, isSuperAdmin, filter), adminId, isSuperAdmin, filter);
  }

  /** The order in which `get_all` fills the keys. */
  function Rank(key: Key): (r: nat)
    ensures r < 5
  {
    match key
    case AdminKey => 0
    case RecipientKey => 1
    case TextKey => 2
    case IdKey => 3
    case CreatedKey => 4
  }

  /** `w` holds what the filter puts under the first `done` keys, and nothing under the others. */
  ghost predicate Agrees(w: Where, done: nat, adminId: int, isSuperAdmin: bool, filter: SmsFilter) {
    forall key :: (key in w <==> Rank(key) < done && ConstraintFor(key, adminId, isSuperAdmin, filter).Some?)
      && (key in w ==> w[key] == ConstraintFor(key, adminId, isSuperAdmin, filter).value)
  }

  /** One more key filled in as the filter says, the others left as they were. */
  lemma AgreeStep(before: Where, after: Where, done: nat, key: Key, adminId: int, isSuperAdmin: bool, filter: SmsFilter)
    requires Agrees(before, done, adminId, isSuperAdmin, filter) && Rank(key) == done
    requires forall k :: k != key ==> (k in after <==> k in before) && (k in after ==> after[k] == before[k])
    requires key in after <==> ConstraintFor(key, adminId, isSuperAdmin, filter).Some?
    requires key in after ==> after[key] == ConstraintFor(key, adminId, isSuperAdmin, filter).value
    ensures Agrees(after, done + 1, adminId, isSuperAdmin, filter)
  {
  }

  /** A filter fills the where clause in only one way. */
  lemma AgreeingAreEqual(a: Where, b: Where, adminId: int, isSuperAdmin: bool, filter: SmsFilter)
    requires Agrees(a, 5, adminId, isSuperAdmin, filter) && Agrees(b, 5, adminId, isSuperAdmin, filter)
    ensures a == b
  {
  }

  // ---- what a where clause selects --------------------------------------------------

  /** A stored message, with the admin it is joined to; the `sms` table has no `sms_type` column. */
  datatype SmsRow = SmsRow(
    id: string,
    adminId: Option<int>,
    recipient: string,
    message_text: string,
    play_mobile_status: int,
    play_mobile_data: string,
    createdAt: int,
    admin: Option<string>)

  /** `t` occurs in `s`. */
  predicate Occurs(t: string, s: string) {
    StartsWith(s, t) || (s != [] && Occurs(t, s[1..]))
  }

  /** `value ILIKE '%text%'`: `text` occurs in `value`, letters compared without case. */
  predicate ILike(value: string, text: string) {
    Occurs(ToLower(text), ToLower(value))
  }

  /** The column a text constraint under `key` is about. */
  function Column(m: SmsRow, key: Key): string {
    if key == RecipientKey then m.recipient
    else if key == TextKey then m.message_text
    else m.id
  }

  /** The database's reading of one constraint: `ILIKE` compares without case, `BETWEEN` includes both ends. */
  predicate Holds(key: Key, c: Constraint, m: SmsRow, toTime: string -> int) {
    match c
    case Equals(v) => m.adminId == Some(v)
    case EqualsText(id) => m.adminId == Some(id)  // the text `${id}` names no other number: TextNamesNumber
    case Contains(t) => ILike(Column(m, key), t)
    case Between(s, e) => toTime(s) <= m.createdAt <= toTime(e) + DayMs
  }

  /** Comparing an integer column with the text `${id}` is comparing it with `id`: distinct numbers have distinct decimal texts. */
  lemma TextNamesNumber(a: int, b: int)
    ensures IntToString(a) == IntToString(b) <==> a == b
  {
    if IntToString(a) == IntToString(b) {
      if a < 0 && b < 0 {
        assert NatToString(-a) == IntToString(a)[1..] == NatToString(-b);
        NatToStringInjective(-a, -b);
      } else if a >= 0 && b >= 0 {
        NatToStringInjective(a, b);
      }
    }
  }

  predicate Satisfies(m: SmsRow, w: Where, toTime: string -> int) {
    forall key :: key in w ==> Holds(key, w[key], m, toTime)
  }

  /** The messages the list is meant to select, stated condition by condition. */
  predicate Selected(m: SmsRow, adminId: int, isSuperAdmin: bool, filter: SmsFilter, toTime: string -> int) {
    (AdminFilter(filter) ==> m.adminId == filter.admin_id)
    && (!AdminFilter(filter) && !isSuperAdmin ==> m.adminId == Some(adminId))
    && (filter.phone_number != "" ==> ILike(m.recipient, filter.phone_number))
    && (filter.message_text != "" ==> ILike(m.message_text, filter.message_text))
    && (filter.message_id != "" ==> ILike(m.id, filter.message_id))
    && (filter.startDate != "" && filter.endDate != "" ==>
          toTime(filter.startDate) <= m.createdAt <= toTime(filter.endDate) + DayMs)
  }

  /** What the constraint under `key`, if there is one, asks of `m`. */
  predicate KeyHolds(key: Key, m: SmsRow, adminId: int, isSuperAdmin: bool, filter: SmsFilter, toTime: string -> int) {
    var c := ConstraintFor(key, adminId, isSuperAdmin, filter);
    c.Some? ==> Holds(key, c.value, m, toTime)
  }

  lemma SatisfiesByKey(m: SmsRow, adminId: int, isSuperAdmin: bool, filter: SmsFilter, toTime: string -> int)
    ensures Satisfies(m, WhereOptions(adminId, isSuperAdmin, filter), toTime) <==>
      (KeyHolds(AdminKey, m, adminId, isSuperAdmin, filter, toTime) && KeyHolds(RecipientKey, m, adminId, isSuperAdmin, filter, toTime)
       && KeyHolds(TextKey, m, adminId, isSuperAdmin, filter, toTime) && KeyHolds(IdKey, m, adminId, isSuperAdmin, filter, toTime)
       && KeyHolds(CreatedKey, m, adminId, isSuperAdmin, filter, toTime))
  {
    var w := WhereOptions(adminId, isSuperAdmin, filter);
    if KeyHolds(AdminKey, m, adminId, isSuperAdmin, filter, toTime) && KeyHolds(RecipientKey, m, adminId, isSuperAdmin, filter, toTime)
       && KeyHolds(TextKey, m, adminId, isSuperAdmin, filter, toTime) && KeyHolds(IdKey, m, adminId, isSuperAdmin, filter, toTime)
       && KeyHolds(CreatedKey, m, adminId, isSuperAdmin, filter, toTime)
    {
      forall key | key in w
        ensures Holds(key, w[key], m, toTime)
      {
        assert KeyHolds(key, m, adminId, isSuperAdmin, filter, toTime);
      }
    }
    if Satisfies(m, w, toTime) {
      forall key
        ensures KeyHolds(key, m, adminId, isSuperAdmin, filter, toTime)
      {
        if key in w { assert Holds(key, w[key], m, toTime); }
      }
    }
  }

  /** The where clause selects exactly the messages `Selected` describes. */
  lemma WhereSelects(m: SmsRow, adminId: int, isSuperAdmin: bool, filter: SmsFilter, toTime: string -> int)
    ensures Satisfies(m, WhereOptions(adminId, isSuperAdmin, filter), toTime) <==> Selected(m, adminId, isSuperAdmin, filter, toTime)
  {
    SatisfiesByKey(m, adminId, isSuperAdmin, filter, toTime);
    AdminKeyMeans(m, adminId, isSuperAdmin, filter, toTime);
    RecipientKeyMeans(m, adminId, isSuperAdmin, filter, toTime);
    TextKeyMeans(m, adminId, isSuperAdmin, filter, toTime);
    IdKeyMeans(m, adminId, isSuperAdmin, filter, toTime);
    CreatedKeyMeans(m, adminId, isSuperAdmin, filter, toTime);
  }

  lemma AdminKeyMeans(m: SmsRow, adminId: int, isSuperAdmin: bool, filter: SmsFilter, toTime: string -> int)
    ensures KeyHolds(AdminKey, m, adminId, isSuperAdmin, filter, toTime) <==>
      (AdminFilter(filter) ==> m.adminId == filter.admin_id)
      && (!AdminFilter(filter) && !isSuperAdmin ==> m.adminId == Some(adminId))
  {
  }

  lemma RecipientKeyMeans(m: SmsRow, adminId: int, isSuperAdmin: bool, filter: SmsFilter, toTime: string -> int)
    ensures KeyHolds(RecipientKey, m, adminId, isSuperAdmin, filter, toTime) <==>
      (filter.phone_number != "" ==> ILike(m.recipient, filter.phone_number))
  {
  }

  lemma TextKeyMeans(m: SmsRow, adminId: int, isSuperAdmin: bool, filter: SmsFilter, toTime: string -> int)
    ensures KeyHolds(TextKey, m, adminId, isSuperAdmin, filter, toTime) <==>
      (filter.message_text != "" ==> ILike(m.message_text, filter.message_text))
  {
  }

  lemma IdKeyMeans(m: SmsRow, adminId: int, isSuperAdmin: bool, filter: SmsFilter, toTime: string -> int)
    ensures KeyHolds(IdKey, m, adminId, isSuperAdmin, filter, toTime) <==>
      (filter.message_id != "" ==> ILike(m.id, filter.message_id))
  {
  }

  lemma CreatedKeyMeans(m: SmsRow, adminId: int, isSuperAdmin: bool, filter: SmsFilter, toTime: string -> int)
    ensures KeyHolds(CreatedKey, m, adminId, isSuperAdmin, filter, toTime) <==>
      (filter.startDate != "" && filter.endDate != "" ==> toTime(filter.startDate) <= m.createdAt <= toTime(filter.endDate) + DayMs)
  {
  }

  /** Without an `admin_id` filter, an admin who is not a super-admin sees only their own messages. */
  lemma OwnMessagesOnly(m: SmsRow, adminId: int, filter: SmsFilter, toTime: string -> int)
    requires !AdminFilter(filter) && Satisfies(m, WhereOptions(adminId, false, filter), toTime)
    ensures m.adminId == Some(adminId)
  {
    WhereSelects(m, adminId, false, filter, toTime);
  }

  /** A truthy `admin_id` decides the admin, whoever asks. */
  lemma AdminFilterOverrides(adminId: int, isSuperAdmin: bool, filter: SmsFilter)
    requires AdminFilter(filter)
    ensures WhereOptions(adminId, isSuperAdmin, filter)[AdminKey] == EqualsText(filter.admin_id.value)
  {
  }

  /** A super-admin with an empty filter is shown every message. */
  lemma SuperAdminSeesAll(m: SmsRow, adminId: int, filter: SmsFilter, toTime: string -> int)
    requires !AdminFilter(filter) && filter.phone_number == "" && filter.message_text == "" && filter.message_id == ""
    requires filter.startDate == "" || filter.endDate == ""
    ensures Satisfies(m, WhereOptions(adminId, true, filter), toTime)
  {
    assert WhereOptions(adminId, true, filter) == map[];
  }

  /** `sms_type` in the filter is never looked at, and a date range needs both ends. */
  lemma IgnoredFields(adminId: int, isSuperAdmin: bool, filter: SmsFilter, t: Option<TemplateType>)
    ensures WhereOptions(adminId, isSuperAdmin, filter.(sms_type := t)) == WhereOptions(adminId, isSuperAdmin, filter)
    ensures CreatedKey in WhereOptions(adminId, isSuperAdmin, filter) <==> filter.startDate != "" && filter.endDate != ""
  {
    var other := filter.(sms_type := t);
    assert forall key :: ConstraintFor(key, adminId, isSuperAdmin, other) == ConstraintFor(key, adminId, isSuperAdmin, filter);
    assert Agrees(WhereOptions(adminId, isSuperAdmin, other), 5, adminId, isSuperAdmin, filter);
    AgreeingAreEqual(WhereOptions(adminId, isSuperAdmin, other), WhereOptions(adminId, isSuperAdmin, filter), adminId, isSuperAdmin, filter);
  }

  // ---- pages ------------------------------------------------------------------------

  /** `Math.ceil(count / limit)`: the least whole number at or above the quotient, for either sign of `limit`. */
  function TotalPages(count: nat, limit: int): (p: int)
    requires limit != 0
    ensures limit > 0 ==> (p - 1) * limit < count <= p * limit
    ensures limit < 0 ==> p * limit <= count < (p - 1) * limit
  {
    if limit > 0 then
      var q := count / limit;
      if count % limit == 0 then q else q + 1
    else
      -(count / -limit)
  }

  /** `(page - 1) * limit`: the number of messages before the page. */
  function Offset(page: int, limit: int): (o: int)
    ensures o + limit == page * limit
  {
    (page - 1) * limit
  }

  /** With a positive limit, page 1 starts at the beginning, pages follow each other without gap or overlap, and the last page holds the last message. */
  lemma PagesTile(count: nat, limit: int, page: int)
    requires limit > 0
    ensures Offset(1, limit) == 0
    ensures Offset(page + 1, limit) == Offset(page, limit) + limit
    ensures count > 0 ==> var last := TotalPages(count, limit);
      last >= 1 && Offset(last, limit) < count <= Offset(last, limit) + limit
  {
    if count > 0 {
      var last := TotalPages(count, limit);
      if last < 1 {
        Arith.MulMono(last, 0, limit);
      }
    }
  }

  // ---- the list ---------------------------------------------------------------------

  /** What `findAndCountAll` returns: a page of rows and the number of all matching rows. */
  datatype Found = Found(rows: seq<SmsRow>, count: nat)

  /** A message as the list shows it: its admin is the admin's name, or `null` without one. */
  datatype SmsView = SmsView(
    id: string,
    adminId: Option<int>,
    recipient: string,
    message_text: string,
    play_mobile_status: int,
    play_mobile_data: string,
    createdAt: int,
    admin: Option<string>)

  datatype AdminRow = AdminRow(id: int, name: string)
  /** A drop-down item: `label` (here `caption`, as `label` is reserved) is the name, `value` the id. */
  datatype AdminOption = AdminOption(caption: string, value: int)

  datatype SmsPage = SmsPage(totalPages: int, totalCount: nat, admins: seq<AdminOption>, result: seq<SmsView>)

  function View(m: SmsRow): (v: SmsView)
    ensures v.id == m.id && v.adminId == m.adminId && v.recipient == m.recipient && v.message_text == m.message_text
    ensures v.play_mobile_status == m.play_mobile_status
    ensures v.play_mobile_data == m.play_mobile_data && v.createdAt == m.createdAt && v.admin == m.admin
  {
    SmsView(m.id, m.adminId, m.recipient, m.message_text, m.play_mobile_status, m.play_mobile_data, m.createdAt, m.admin)
  }

  function Views(rows: seq<SmsRow>): (vs: seq<SmsView>)
    ensures |vs| == |rows| && forall i :: 0 <= i < |rows| ==> vs[i] == View(rows[i])
  {
    seq(|rows|, i requires 0 <= i < |rows| => View(rows[i]))
  }

  /** The admins for the filter's drop-down: every admin, as label (its name) and value (its id), in order. */
  function AdminOptions(admins: seq<AdminRow>): (os: seq<AdminOption>)
    ensures |os| == |admins| && forall i :: 0 <= i < |admins| ==> os[i] == AdminOption(admins[i].name, admins[i].id)
  {
    seq(|admins|, i requires 0 <= i < |admins| => AdminOption(admins[i].name, admins[i].id))
  }

  /** A database that answers correctly out of `table`: every row it returns matches, at most `limit` of them, newest first, and the count is that of all matches. */
  ghost predicate Answers(table: seq<SmsRow>, toTime: string -> int, db: (Where, int, int) -> Found) {
    forall w: Where, offset: int, limit: int ::
      var found := db(w, offset, limit);
      (forall i :: 0 <= i < |found.rows| ==> found.rows[i] in table && Satisfies(found.rows[i], w, toTime))
      && (limit >= 0 ==> |found.rows| <= limit)
      && (forall i, j :: 0 <= i < j < |found.rows| ==> found.rows[i].createdAt >= found.rows[j].createdAt)
      && found.count == |Matching(table, w, toTime)|
  }

  function Matching(table: seq<SmsRow>, w: Where, toTime: string -> int): (r: seq<SmsRow>)
    ensures |r| <= |table| && forall m :: m in r <==> m in table && Satisfies(m, w, toTime)
  {
    if table == [] then []
    else (if Satisfies(table[0], w, toTime) then [table[0]] else []) + Matching(table[1..], w, toTime)
  }

  /** `get_all({adminId, isSuperAdmin, offset, limit, filter})`. */
  method GetAll(adminId: int, isSuperAdmin: bool, offset: int, limit: int, filter: SmsFilter,
                db: (Where, int, int) -> Found, admins: seq<AdminRow>) returns (r: SmsPage)
    requires limit != 0
    ensures var found := db(WhereOptions(adminId, isSuperAdmin, filter), offset, limit);
      r.totalCount == found.count && r.totalPages == TotalPages(found.count, limit)
      && r.result == Views(found.rows) && r.admins == AdminOptions(admins)
  {
    var whereOptions := BuildWhere(adminId, isSuperAdmin, filter);
    var messages := db(whereOptions, offset, limit);
    var totalPages := TotalPages(messages.count, limit);
    r := SmsPage(totalPages, messages.count, AdminOptions(admins), Views(messages.rows));
  }

  /** `get_all_messages({admin, page, limit, filter})`: the caller's own id and flag, and the offset of the page. */
  method GetAllMessages(admin: AdminRow, isSuperAdmin: bool, page: int, limit: int, filter: SmsFilter,
                        db: (Where, int, int) -> Found, admins: seq<AdminRow>) returns (r: SmsPage)
    requires limit != 0
    ensures var found := db(WhereOptions(admin.id, isSuperAdmin, filter), Offset(page, limit), limit);
      r.totalCount == found.count && r.totalPages == TotalPages(found.count, limit)
      && r.result == Views(found.rows) && r.admins == AdminOptions(admins)
  {
    var offset := (page - 1) * limit;
    r := GetAll(admin.id, isSuperAdmin, offset, limit, filter, db, admins);
  }

  /** Against a database that answers correctly, an admin who is not a super-admin and sets no `admin_id` is shown only their own messages, newest first. */
  lemma ListShowsOwnMessages(table: seq<SmsRow>, toTime: string -> int, db: (Where, int, int) -> Found,
                             adminId: int, filter: SmsFilter, offset: int, limit: int)
    requires Answers(table, toTime, db) && !AdminFilter(filter)
    ensures var vs := Views(db(WhereOptions(adminId, false, filter), offset, limit).rows);
      (forall i :: 0 <= i < |vs| ==> vs[i].adminId == Some(adminId))
      && (forall i, j :: 0 <= i < j < |vs| ==> vs[i].createdAt >= vs[j].createdAt)
  {
    var w := WhereOptions(adminId, false, filter);
    var found := db(w, offset, limit);
    forall i | 0 <= i < |found.rows|
      ensures found.rows[i].adminId == Some(adminId)
    {
      OwnMessagesOnly(found.rows[i], adminId, filter, toTime);
    }
  }

  // ---- history ----------------------------------------------------------------------

  /**
   * A grouped row of `repo.getSentSmsHistory()`: an admin, how many messages it sent,
   * and when the last one went.  The query is `raw` without `nest`, so the included
   * admin's name comes as the flat key `admin.name` and the row has no `admin` object.
   */
  datatype HistoryRow = HistoryRow(adminId: Option<int>, totalSms: nat, lastSmsDate: int, adminDotName: Option<string>)

  datatype Price = Price(number: nat, inWords: string)
  datatype History = History(adminId: Option<int>, totalSms: nat, lastSmsDate: int, admin: Option<string>, price: Price)

  const PricePerSms := 100
  const Currency := " so‘m"

  /**
   * One history entry: every message costs 100, and the price is also spelled out in
   * words, followed by the currency.  `result.admin?.name` finds no `admin` object in
   * a flat row, so the name is always `null`.
   */
  function HistoryOf(row: HistoryRow): (h: History)
    ensures h.adminId == row.adminId && h.totalSms == row.totalSms && h.lastSmsDate == row.lastSmsDate && h.admin == None
    ensures h.price.number == row.totalSms * PricePerSms
    ensures h.price.inWords == NumberWords.Words(h.price.number) + Currency
  {
    var priceNumber := row.totalSms * PricePerSms;
    History(row.adminId, row.totalSms, row.lastSmsDate, None, Price(priceNumber, NumberWords.Words(priceNumber) + Currency))
  }

  /** `getSentSmsHistory()`: one entry per grouped row, in order. */
  function SentSmsHistory(rows: seq<HistoryRow>): (hs: seq<History>)
    ensures |hs| == |rows| && forall i :: 0 <= i < |rows| ==> hs[i] == HistoryOf(rows[i])
  {
    seq(|rows|, i requires 0 <= i < |rows| => HistoryOf(rows[i]))
  }

  /** One message costs "bir yuz so‘m". */
  lemma OneMessagePrice(row: HistoryRow)
    requires row.totalSms == 1
    ensures HistoryOf(row).price.inWords == "bir yuz" + Currency
  {
    NumberWords.WordsOfHundred();
  }
}
