/**
 * `TemplateService`: the listing of a template's folder (`getTemplateById`) and
 * `processExcelAndSendSMS`, which reads `public/<folder>/<file>` and sends one
 * message per row that has a phone number in the template's column.  Reading the
 * workbook (exceljs) is the parameter `read`; the sends go through
 * `Delivery.SendMessage`.
 */
module TemplateService {
  import opened Wrappers
  import opened Errors
  import opened Strings
  import opened Delivery
  import opened Folders
  import opened Spreadsheet
  import opened TemplateRender
  import opened TemplateRepo

  // ---- getTemplateById ----------------------------------------------------------------

  /** `ITemplate`: the row and the public URLs of the files in its folder and in `sent/`. */
  datatype Listing = Listing(template: Template, files: seq<string>, sentFiles: seq<string>)

  /** An entry the listing shows: a plain file, other than `sent` when `skipSent`. */
  predicate Listed(e: Entry, skipSent: bool) {
    e.FileEntry? && !(skipSent && e.name == "sent")
  }

  /** The directory's listed entries, as `prefix + name`, in listing order. */
  function FileUrls(prefix: string, es: seq<Entry>, skipSent: bool): (r: seq<string>)
    ensures |r| <= |es|
    ensures forall u :: u in r <==> exists i :: 0 <= i < |es| && Listed(es[i], skipSent) && u == prefix + es[i].name
  {
    if es == [] then []
    else
      var rest := FileUrls(prefix, es[1..], skipSent);
      assert forall i :: 0 <= i < |es[1..]| ==> es[1..][i] == es[i + 1];
      if Listed(es[0], skipSent) then [prefix + es[0].name] + rest else rest
  }

  /**
   * `getTemplateById(id)`: a missing folder lists nothing; otherwise the plain files
   * beside `sent` and the plain files inside `sent/`. Every error, the repo's
   * NotFound included, is rethrown as a 500.
   */
  function GetTemplateById(repo: TemplateRepo, id: Id): (r: Result<Listing, Thrown>)
    reads repo, repo.disk
    ensures r.Err? ==> r.error.Base? && r.error.error.statusCode == 500
    ensures id !in repo.templates ==> r == Err(InternalServer(TemplateNotFoundMessage))
    ensures r.Ok? ==> id in repo.templates && r.value.template == repo.templates[id]
    ensures id in repo.templates && FolderOf(repo.disk.public, repo.templates[id].name).None? ==>
      r == Ok(Listing(repo.templates[id], [], []))
  {
    match repo.FindById(id)
    case Err(e) => Err(Rethrown(e))
    case Ok(template) =>
      var base := "/public/" + template.name + "/";
      match FolderOf(repo.disk.public, template.name)
      case None => Ok(Listing(template, [], []))
      case Some(FileEntry(_, _)) => Err(Rethrown(Plain(NotADirectory)))
      case Some(DirEntry(_, es)) =>
        var files := FileUrls(base, es, true);
        match Lookup(es, "sent")
        case None => Ok(Listing(template, files, []))
        case Some(FileEntry(_, _)) => Err(Rethrown(Plain(NotADirectory)))
        case Some(DirEntry(_, sent)) => Ok(Listing(template, files, FileUrls("/public/" + template.name + "/sent/", sent, false)))
  }

  /** A URL built on `prefix` is listed exactly when the directory holds a listed entry of that name. */
  lemma UrlsNameEntries(prefix: string, es: seq<Entry>, skipSent: bool)
    ensures forall f :: prefix + f in FileUrls(prefix, es, skipSent) <==> exists i :: 0 <= i < |es| && Listed(es[i], skipSent) && f == es[i].name
  {
    forall f, i | 0 <= i < |es| && prefix + f == prefix + es[i].name
      ensures f == es[i].name
    {
      assert f == (prefix + f)[|prefix|..];
      assert es[i].name == (prefix + es[i].name)[|prefix|..];
    }
  }

  /** `files` names exactly the folder's plain files other than `sent`. */
  lemma ListedFiles(repo: TemplateRepo, id: Id, es: seq<Entry>)
    requires id in repo.templates
    requires FolderOf(repo.disk.public, repo.templates[id].name) == Some(DirEntry(repo.templates[id].name, es))
    requires !Has(es, "sent") || Lookup(es, "sent").value.DirEntry?
    ensures GetTemplateById(repo, id).Ok?
    ensures forall f :: "/public/" + repo.templates[id].name + "/" + f in GetTemplateById(repo, id).value.files <==>
      exists i :: 0 <= i < |es| && Listed(es[i], true) && f == es[i].name
  {
    UrlsNameEntries("/public/" + repo.templates[id].name + "/", es, true);
  }

  /** `sentFiles` names exactly the plain files of `sent/`. */
  lemma ListedSentFiles(repo: TemplateRepo, id: Id, es: seq<Entry>, sent: seq<Entry>)
    requires id in repo.templates
    requires FolderOf(repo.disk.public, repo.templates[id].name) == Some(DirEntry(repo.templates[id].name, es))
    requires Lookup(es, "sent") == Some(DirEntry("sent", sent))
    ensures GetTemplateById(repo, id).Ok?
    ensures forall f :: "/public/" + repo.templates[id].name + "/sent/" + f in GetTemplateById(repo, id).value.sentFiles <==>
      exists i :: 0 <= i < |sent| && Listed(sent[i], false) && f == sent[i].name
  {
    UrlsNameEntries("/public/" + repo.templates[id].name + "/sent/", sent, false);
  }

  /** A folder without `sent` has no sent files to show. */
  lemma NoSentFolderNoSentFiles(repo: TemplateRepo, id: Id, es: seq<Entry>)
    requires id in repo.templates
    requires FolderOf(repo.disk.public, repo.templates[id].name) == Some(DirEntry(repo.templates[id].name, es))
    requires !Has(es, "sent")
    ensures GetTemplateById(repo, id).Ok? && GetTemplateById(repo, id).value.sentFiles == []
  {
  }

  // ---- processExcelAndSendSMS -------------------------------------------------------

  const NoFirstSheetMessage := "Excelda 1-chi varaq topilmadi!"

  function TemplateMissingMessage(folderName: string): string {
    "DBda shablon topilmadi! name='" + folderName + "'"
  }

  function ExcelMissingMessage(excelFileName: string): string {
    "Excel fayl topilmadi: " + excelFileName
  }

  /** The administrator every template message is sent as. */
  const TemplateAdminId := 1

  /** The phone number of a row: the trimmed text of its cell in `column`, unless that cell is falsy or only white space. */
  function PhoneOf(row: Row, column: string): (r: Option<string>)
    ensures r.Some? <==> Spreadsheet.Truthy(CellAt(row, column)) && Trim(Stringify(CellAt(row, column).value)) != ""
    ensures r.Some? ==> r.value == Trim(Stringify(CellAt(row, column).value)) && Trimmed(r.value) && r.value != ""
  {
    var cell := CellAt(row, column);
    if !Spreadsheet.Truthy(cell) then None
    else
      var phone := Trim(Stringify(cell.value));
      if phone == "" then None else Some(phone)
  }

  /** The message a row asks for: to its phone number, with the template rendered against the row, as admin 1, typed as the template (or `OTHER`). */
  function RowMessage(t: Template, row: Row): (r: Option<SmsDto>)
    ensures r.Some? <==> PhoneOf(row, t.recipient_number_column).Some?
    ensures r.Some? ==> r.value == SmsDto(PhoneOf(row, t.recipient_number_column).value, Render(t.sms_template, row), TemplateAdminId, Some(t.template_type.GetOr(Other)))
  {
    match PhoneOf(row, t.recipient_number_column)
    case None => None
    case Some(phone) => Some(SmsDto(phone, Render(t.sms_template, row), TemplateAdminId, Some(t.template_type.GetOr(Other))))
  }

  /** The messages a sheet's rows ask for, in row order. */
  function RowSends(t: Template, rows: seq<Row>): (r: seq<SmsDto>)
    ensures |r| <= |rows|
    ensures forall k :: 0 <= k < |r| ==> r[k].adminId == TemplateAdminId && r[k].sms_type.Some? && r[k].recipient != ""
  {
    if rows == [] then []
    else
      var last := RowMessage(t, rows[|rows| - 1]);
      RowSends(t, rows[..|rows| - 1]) + (if last.Some? then [last.value] else [])
  }

  /** The rows that are skipped for want of a phone number. */
  function Skipped(t: Template, rows: seq<Row>): nat {
    if rows == [] then 0
    else Skipped(t, rows[..|rows| - 1]) + (if RowMessage(t, rows[|rows| - 1]).None? then 1 else 0)
  }

  /** Every row is either skipped or sent: skipped + sent = rowCount. */
  lemma {:induction false} SkippedPlusSent(t: Template, rows: seq<Row>)
    ensures Skipped(t, rows) + |RowSends(t, rows)| == |rows|
  {
    if rows != [] {
      SkippedPlusSent(t, rows[..|rows| - 1]);
    }
  }

  /** Rows contribute independently and in order. */
  lemma {:induction false} RowSendsAppend(t: Template, a: seq<Row>, b: seq<Row>)
    ensures RowSends(t, a + b) == RowSends(t, a) + RowSends(t, b)
    decreases |b|
  {
    if b == [] {
      assert a + b == a;
    } else {
      var b' := b[..|b| - 1];
      RowSendsAppend(t, a, b');
      assert (a + b)[..|a + b| - 1] == a + b';
      assert (a + b)[|a + b| - 1] == b[|b| - 1];
    }
  }

  lemma OneRowSends(t: Template, row: Row)
    ensures RowSends(t, [row]) == if RowMessage(t, row).Some? then [RowMessage(t, row).value] else []
  {
    assert [row][..0] == [];
  }

  /** Extending the visited rows by one adds that row's message, if it has one. */
  lemma RowSendsStep(t: Template, rows: seq<Row>, i: nat)
    requires i < |rows|
    ensures RowSends(t, rows[..i + 1]) == RowSends(t, rows[..i]) + (if RowMessage(t, rows[i]).Some? then [RowMessage(t, rows[i]).value] else [])
  {
    assert rows[..i + 1][..i] == rows[..i];
  }

  /** When nothing was sent before row `i` and row `i` has a phone number, its message is the first one sent. */
  lemma {:induction false} FirstSend(t: Template, rows: seq<Row>, i: nat)
    requires i < |rows| && RowSends(t, rows[..i]) == [] && RowMessage(t, rows[i]).Some?
    ensures RowSends(t, rows) != [] && RowSends(t, rows)[0] == RowMessage(t, rows[i]).value
  {
    RowSendsStep(t, rows, i);
    RowSendsAppend(t, rows[..i + 1], rows[i + 1..]);
    assert rows[..i + 1] + rows[i + 1..] == rows;
  }

  /** Every message a template sends goes to a trimmed, non-empty number, and carries the row's rendering of the template. */
  lemma {:induction false} SendsAreRowMessages(t: Template, rows: seq<Row>, k: nat)
    requires k < |RowSends(t, rows)|
    ensures exists i :: 0 <= i < |rows| && RowMessage(t, rows[i]) == Some(RowSends(t, rows)[k])
    ensures Trimmed(RowSends(t, rows)[k].recipient)
  {
    var last := |rows| - 1;
    var init := RowSends(t, rows[..last]);
    if k < |init| {
      SendsAreRowMessages(t, rows[..last], k);
      var i :| 0 <= i < |rows[..last]| && RowMessage(t, rows[..last][i]) == Some(init[k]);
      assert rows[..last][i] == rows[i];
    } else {
      assert RowMessage(t, rows[last]) == Some(RowSends(t, rows)[k]);
    }
  }

  /** The workbook entry `public/<folder>/<file>`, if the folder is a directory holding that name. */
  function ExcelEntry(public: Option<seq<Entry>>, folderName: string, excelFileName: string): (r: Option<Entry>)
    ensures r.Some? ==> r.value.name == excelFileName
    ensures r.Some? <==>
      (FolderOf(public, folderName).Some? && FolderOf(public, folderName).value.DirEntry?
       && Has(FolderOf(public, folderName).value.entries, excelFileName))
  {
    match FolderOf(public, folderName)
    case Some(DirEntry(_, es)) => Lookup(es, excelFileName)
    case _ => None
  }

  /** The rows `processExcelAndSendSMS` works through once the template, the file and the first sheet are found, or the error it raises first. */
  function ExcelRows(template: Option<Template>, public: Option<seq<Entry>>, folderName: string, excelFileName: string,
                     read: Entry -> Result<Workbook, Thrown>): (r: Result<seq<Row>, Thrown>)
    ensures template.None? ==> r == Err(NotFound(TemplateMissingMessage(folderName)))
    ensures template.Some? && ExcelEntry(public, folderName, excelFileName).None? ==> r == Err(NotFound(ExcelMissingMessage(excelFileName)))
    ensures r.Ok? ==>
      (template.Some? && ExcelEntry(public, folderName, excelFileName).Some?
       && read(ExcelEntry(public, folderName, excelFileName).value).Ok?
       && read(ExcelEntry(public, folderName, excelFileName).value).value.sheets != []
       && r.value == read(ExcelEntry(public, folderName, excelFileName).value).value.sheets[0].rows)
  {
    if template.None? then Err(NotFound(TemplateMissingMessage(folderName)))
    else match ExcelEntry(public, folderName, excelFileName)
      case None => Err(NotFound(ExcelMissingMessage(excelFileName)))
      case Some(entry) =>
        match read(entry)
        case Err(e) => Err(e)
        case Ok(book) =>
          match FirstSheet(book)
          case None => Err(NotFound(NoFirstSheetMessage))
          case Some(sheet) => Ok(sheet.rows)
  }

  /** The template `findByName` returns in the model: the one with the lowest id (the query itself fixes no order). */
  ghost function FirstNamed(templates: map<Id, Template>, name: string): (r: Option<Template>)
    ensures r.Some? ==> r.value.name == name
  {
    if exists id :: id in templates && templates[id].name == name then
      var id := MinNamed(templates, name);
      Some(templates[id])
    else None
  }

  ghost function MinNamed(templates: map<Id, Template>, name: string): (id: Id)
    requires exists id :: id in templates && templates[id].name == name
    ensures id in templates && templates[id].name == name
    ensures forall k :: k in templates && k < id ==> templates[k].name != name
  {
    var some :| some in templates && templates[some].name == name;
    MinBelow(templates, name, some)
  }

  ghost function MinBelow(templates: map<Id, Template>, name: string, bound: Id): (id: Id)
    requires bound in templates && templates[bound].name == name
    ensures id in templates && templates[id].name == name && id <= bound
    ensures forall k :: k in templates && k < id ==> templates[k].name != name
    decreases bound
  {
    if exists k :: k in templates && k < bound && templates[k].name == name then
      var k :| k in templates && k < bound && templates[k].name == name;
      MinBelow(templates, name, k)
    else bound
  }

  /** The record `send_message` left for a message that went out. */
  ghost predicate Recorded(records: map<Id, SmsRecord>, id: Id, dto: SmsDto, config: Config) {
    id in records && records[id].recipient == dto.recipient && records[id].message_text == dto.message_text
    && records[id].adminId == dto.adminId
    && (Configured(config) <==> records[id].play_mobile_status.Some?)
  }

  /** The store after `sent` went out from id `first` on: older rows untouched, one record per message. */
  ghost predicate RecordsSent(before: map<Id, SmsRecord>, after: map<Id, SmsRecord>, first: Id, sent: seq<SmsDto>, config: Config) {
    (forall id :: id in before ==> id in after && after[id] == before[id])
    && (forall k :: 0 <= k < |sent| ==> Recorded(after, first + k, sent[k], config))
  }

  lemma RecordsSentStep(before: map<Id, SmsRecord>, mid: map<Id, SmsRecord>, after: map<Id, SmsRecord>,
                        first: Id, sent: seq<SmsDto>, dto: SmsDto, config: Config)
    requires RecordsSent(before, mid, first, sent, config)
    requires forall id :: id in before ==> id < first
    requires forall id :: id in mid && id != first + |sent| ==> id in after && after[id] == mid[id]
    requires Recorded(after, first + |sent|, dto, config)
    ensures RecordsSent(before, after, first, sent + [dto], config)
  {
    var s := sent + [dto];
    forall k | 0 <= k < |s|
      ensures Recorded(after, first + k, s[k], config)
    {
      if k < |sent| { assert Recorded(mid, first + k, sent[k], config); }
    }
  }

  /** What one `send_message` call leaves: its own record, the others untouched, and an error exactly when unconfigured. */
  lemma SendRecorded(before: map<Id, SmsRecord>, after: map<Id, SmsRecord>, id: Id, dto: SmsDto,
                     config: Config, gateway: Envelope -> GatewayOutcome, r: Result<SmsRecord, Thrown>)
    requires SendEffect(before, after, id, dto, config, gateway, r)
    ensures Recorded(after, id, dto, config)
    ensures forall other :: other in before && other != id ==> other in after && after[other] == before[other]
    ensures r.Err? <==> !Configured(config)
    ensures r.Err? ==> r.error == Plain(MissingConfigMessage)
  {
    SendTouchesOneRecord(before, after, id, dto, config, gateway, r);
    if Configured(config) {
      ConfiguredSendSucceeds(before, after, id, dto, config, gateway, r);
    } else {
      UnconfiguredSendLeavesPending(before, after, id, dto, config, gateway, r);
    }
  }

  /**
   * The result and the messages handed to `send_message` when `sends` are due:
   * all of them once the gateway is configured, otherwise the first one, whose
   * send throws.
   */
  function RowsOutcome(sends: seq<SmsDto>, config: Config): (o: (Result<nat, Thrown>, seq<SmsDto>))
    ensures o.0.Ok? ==> o.0.value == |sends| && o.1 == sends
    ensures o.0.Err? <==> !Configured(config) && sends != []
    ensures o.0.Err? ==> o.0.error == Plain(MissingConfigMessage) && o.1 == [sends[0]]
  {
    if Configured(config) || sends == [] then (Ok(|sends|), sends)
    else (Err(Plain(MissingConfigMessage)), [sends[0]])
  }

  /** The loop has visited `rows[..i]` and handed their messages to `send_message`, which returned each time. */
  ghost predicate Visited(t: Template, rows: seq<Row>, i: nat, sent: seq<SmsDto>, config: Config) {
    i <= |rows| && sent == RowSends(t, rows[..i]) && (!Configured(config) ==> sent == [])
  }

  /**
   * The row loop of `processExcelAndSendSMS`: each row with a phone number is sent,
   * in row order, each send finished before the next; a send that throws ends the
   * loop. `sent` lists the messages handed to `send_message`, `r` the count of
   * those that returned (`sentCount`).
   */
  method SendRows(t: Template, rows: seq<Row>, sms: SmsRepo, config: Config, gateway: Envelope -> GatewayOutcome)
    returns (r: Result<nat, Thrown>, sent: seq<SmsDto>)
    requires sms.Valid()
    modifies sms
    ensures sms.Valid() && sms.nextId == old(sms.nextId) + |sent|
    ensures RecordsSent(old(sms.records), sms.records, old(sms.nextId), sent, config)
    ensures (r, sent) == RowsOutcome(RowSends(t, rows), config)
  {
    ghost var initial := sms.records;
    ghost var first := sms.nextId;
    sent := [];
    var sentCount := 0;
    var rowIndex := 0;
    while rowIndex < |rows|
      invariant Visited(t, rows, rowIndex, sent, config) && sentCount == |sent|
      invariant sms.Valid() && sms.nextId == first + |sent|
      invariant RecordsSent(initial, sms.records, first, sent, config)
      invariant forall id :: id in initial ==> id < first
    {
      var thrown;
      thrown, sent := VisitRow(t, rows, rowIndex, sms, config, gateway, initial, first, sent);
      if thrown {
        return Err(Plain(MissingConfigMessage)), sent;
      }
      sentCount := |sent|;
      rowIndex := rowIndex + 1;
    }
    assert rows[..rowIndex] == rows;
    r := Ok(sentCount);
  }

  /** One pass of the row loop: sends row `i`'s message if it has one; `thrown` when that send throws, which ends the loop. */
  method VisitRow(t: Template, rows: seq<Row>, i: nat, sms: SmsRepo, config: Config, gateway: Envelope -> GatewayOutcome,
                  ghost initial: map<Id, SmsRecord>, ghost first: Id, sent: seq<SmsDto>)
    returns (thrown: bool, sent': seq<SmsDto>)
    requires Visited(t, rows, i, sent, config) && i < |rows|
    requires sms.Valid() && sms.nextId == first + |sent|
    requires RecordsSent(initial, sms.records, first, sent, config) && forall id :: id in initial ==> id < first
    modifies sms
    ensures sms.Valid() && sms.nextId == first + |sent'|
    ensures RecordsSent(initial, sms.records, first, sent', config)
    ensures !thrown ==> Visited(t, rows, i + 1, sent', config)
    ensures thrown ==> (Err(Plain(MissingConfigMessage)), sent') == RowsOutcome(RowSends(t, rows), config)
  {
    var message := RowMessage(t, rows[i]);
    if message.None? {
      SkipStep(t, rows, i, sent, config);
      return false, sent;
    }
    ghost var before := sms.records;
    var result, dto := SendRecordedMessage(sms, message.value, config, gateway);
    SendStep(initial, before, sms.records, first, t, rows, i, sent, config, result, message.value);
    thrown := result.Err?;
    sent' := sent + [dto];
  }

  /** A row without a phone number is passed over. */
  lemma SkipStep(t: Template, rows: seq<Row>, i: nat, sent: seq<SmsDto>, config: Config)
    requires Visited(t, rows, i, sent, config) && i < |rows| && RowMessage(t, rows[i]).None?
    ensures Visited(t, rows, i + 1, sent, config)
  {
    RowSendsStep(t, rows, i);
  }

  /** One awaited `send_message` in the loop: its record joins the others, and a throw ends the loop with the outcome `RowsOutcome` predicts. */
  lemma SendStep(initial: map<Id, SmsRecord>, before: map<Id, SmsRecord>, after: map<Id, SmsRecord>, first: Id,
                 t: Template, rows: seq<Row>, i: nat, sent: seq<SmsDto>,
                 config: Config, result: Result<SmsRecord, Thrown>, dto: SmsDto)
    requires Visited(t, rows, i, sent, config) && i < |rows| && RowMessage(t, rows[i]) == Some(dto)
    requires RecordsSent(initial, before, first, sent, config) && forall id :: id in initial ==> id < first
    requires Recorded(after, first + |sent|, dto, config)
    requires forall other :: other in before && other != first + |sent| ==> other in after && after[other] == before[other]
    requires result.Err? <==> !Configured(config)
    ensures RecordsSent(initial, after, first, sent + [dto], config)
    ensures result.Ok? ==> Visited(t, rows, i + 1, sent + [dto], config)
    ensures result.Err? ==> (Err(Plain(MissingConfigMessage)), sent + [dto]) == RowsOutcome(RowSends(t, rows), config)
  {
    RecordsSentStep(initial, before, after, first, sent, dto, config);
    RowSendsStep(t, rows, i);
    if result.Err? {
      FirstSend(t, rows, i);
      assert sent + [dto] == [dto];
    }
  }

  /** `send_message(dto)` as the row loop sees it: one new record for the message, the others untouched, and a throw exactly when unconfigured. */
  method SendRecordedMessage(sms: SmsRepo, dto: SmsDto, config: Config, gateway: Envelope -> GatewayOutcome)
    returns (r: Result<SmsRecord, Thrown>, sent: SmsDto)
    requires sms.Valid()
    modifies sms
    ensures sms.Valid() && sms.nextId == old(sms.nextId) + 1
    ensures Recorded(sms.records, old(sms.nextId), dto, config)
    ensures forall other :: other in old(sms.records) && other != old(sms.nextId) ==> other in sms.records && sms.records[other] == old(sms.records[other])
    ensures r.Err? <==> !Configured(config)
    ensures r.Err? ==> r.error == Plain(MissingConfigMessage)
    ensures sent == WithDefaultType(dto)
  {
    ghost var before := sms.records;
    r, sent := SendMessage(sms, dto, config, gateway);
    SendRecorded(before, sms.records, old(sms.nextId), dto, config, gateway, r);
  }

  /**
   * `processExcelAndSendSMS(folderName, excelFileName)`: a missing template, a
   * missing file, an unreadable workbook and a missing first sheet raise, in that
   * order, before anything is sent; then the rows of the first sheet are sent.
   */
  method ProcessExcel(repo: TemplateRepo, sms: SmsRepo, folderName: string, excelFileName: string,
                      config: Config, gateway: Envelope -> GatewayOutcome, read: Entry -> Result<Workbook, Thrown>)
    returns (r: Result<nat, Thrown>, sent: seq<SmsDto>)
    requires repo.Valid() && sms.Valid()
    modifies sms
    ensures sms.Valid() && sms.nextId == old(sms.nextId) + |sent|
    ensures RecordsSent(old(sms.records), sms.records, old(sms.nextId), sent, config)
    ensures var rows := ExcelRows(FirstNamed(repo.templates, folderName), repo.disk.public, folderName, excelFileName, read);
      if rows.Err? then r == Err(rows.error) && sent == []
      else (r, sent) == RowsOutcome(RowSends(FirstNamed(repo.templates, folderName).value, rows.value), config)
  {
    var found := repo.FindByName(folderName);
    if found.None? {
      return Err(NotFound(TemplateMissingMessage(folderName))), [];
    }
    var template := repo.templates[found.value];
    assert FirstNamed(repo.templates, folderName) == Some(template) by {
      var m := MinNamed(repo.templates, folderName);
      assert !(m < found.value) && !(found.value < m);
    }
    var rows := ExcelRows(Some(template), repo.disk.public, folderName, excelFileName, read);
    if rows.Err? {
      return Err(rows.error), [];
    }
    r, sent := SendRows(template, rows.value, sms, config, gateway);
  }
}
