/**
 * `send_messages_to_recipients_from_excel`: reads an uploaded workbook, takes the
 * text of column 1 of every row of the first sheet as a recipient when it is not
 * empty, and hands the list to the bulk dispatch.  Loading the workbook (exceljs)
 * is the parameter `load`.
 */
module ExcelSend {
  import opened Wrappers
  import opened Errors
  import opened Spreadsheet
  import opened FileRepo
  import opened Delivery
  import Duration
  import Dispatch

  const NoSheetMessage := "Excel faylda 1-chi varaq (sheet) topilmadi."

  /** The recipients of a sheet's rows: the column-1 texts that are not empty, as they are (not trimmed), in row order. */
  function ColumnOneTexts(rows: seq<Row>): (r: seq<string>)
    ensures |r| <= |rows|
    ensures forall i :: 0 <= i < |r| ==> r[i] != ""
  {
    if rows == [] then []
    else
      var last := CellText(rows[|rows| - 1], FirstColumn);
      ColumnOneTexts(rows[..|rows| - 1]) + (if last != "" then [last] else [])
  }

  /** `worksheet.eachRow(...)` pushing every non-empty column-1 text. */
  method CollectRecipients(sheet: Sheet) returns (recipients: seq<string>)
    ensures recipients == ColumnOneTexts(sheet.rows)
  {
    recipients := [];
    var i := 0;
    while i < |sheet.rows|
      invariant i <= |sheet.rows|
      invariant recipients == ColumnOneTexts(sheet.rows[..i])
    {
      var recipient := CellText(sheet.rows[i], FirstColumn);
      assert sheet.rows[..i + 1][..i] == sheet.rows[..i];
      if recipient != "" {
        recipients := recipients + [recipient];
      }
      i := i + 1;
    }
    assert sheet.rows[..i] == sheet.rows;
  }

  /** Rows contribute independently, in order: the recipients of two blocks of rows are those of the first, then those of the second. */
  lemma {:induction false} ColumnOneTextsAppend(a: seq<Row>, b: seq<Row>)
    ensures ColumnOneTexts(a + b) == ColumnOneTexts(a) + ColumnOneTexts(b)
    decreases |b|
  {
    if b == [] {
      assert a + b == a;
    } else {
      var b' := b[..|b| - 1];
      ColumnOneTextsAppend(a, b');
      assert (a + b)[..|a + b| - 1] == a + b';
      assert (a + b)[|a + b| - 1] == b[|b| - 1];
    }
  }

  /** A row gives itself as recipient exactly when its column-1 text is not empty. */
  lemma OneRow(row: Row)
    ensures ColumnOneTexts([row]) == if CellText(row, FirstColumn) != "" then [CellText(row, FirstColumn)] else []
  {
    assert [row][..0] == [];
  }

  /** A sheet whose column-1 cells are all empty gives no recipient. */
  lemma {:induction false} EmptyColumnNoRecipients(rows: seq<Row>)
    requires forall i :: 0 <= i < |rows| ==> FirstColumn !in rows[i]
    ensures ColumnOneTexts(rows) == []
  {
    if rows != [] {
      EmptyColumnNoRecipients(rows[..|rows| - 1]);
      assert FirstColumn !in rows[|rows| - 1];
    }
  }

  /** A text cell's value becomes a recipient with its white space kept. */
  lemma UntrimmedRecipient(row: Row, text: string)
    requires text != "" && CellAt(row, FirstColumn) == Some(Text(text))
    ensures ColumnOneTexts([row]) == [text]
  {
    OneRow(row);
  }

  /** The recipients a workbook yields, or the error reading it raises. */
  function ExcelRecipients(book: Workbook): (r: Result<seq<string>, Thrown>)
    ensures r.Err? <==> book.sheets == []
    ensures r.Err? ==> r.error == Plain(NoSheetMessage)
    ensures r.Ok? ==> r.value == ColumnOneTexts(book.sheets[0].rows)
  {
    match FirstSheet(book)
    case None => Err(Plain(NoSheetMessage))
    case Some(sheet) => Ok(ColumnOneTexts(sheet.rows))
  }

  /**
   * `send_messages_to_recipients_from_excel(data)`: a missing file, a workbook that does
   * not load and a workbook without sheets raise, in that order, before anything is sent;
   * otherwise the reply and trace are those of the bulk dispatch of the recipients.
   */
  method SendFromExcel(store: FileStore, file_id: Id, message_text: string, adminId: int, load: Bytes -> Result<Workbook, Thrown>)
    returns (r: Result<string, Thrown>, trace: seq<Dispatch.Event>)
    requires store.Valid()
    ensures store.FindFileById(file_id).Err? ==> r == Err(store.FindFileById(file_id).error) && trace == []
    ensures store.FindFileById(file_id).Ok? && load(store.FindFileById(file_id).value).Err? ==>
      r == Err(load(store.FindFileById(file_id).value).error) && trace == []
    ensures store.FindFileById(file_id).Ok? && load(store.FindFileById(file_id).value).Ok? ==>
      var recipients := ExcelRecipients(load(store.FindFileById(file_id).value).value);
      if recipients.Err? then r == Err(recipients.error) && trace == []
      else
        var data := Dispatch.ManyRecipients(recipients.value, message_text, adminId);
        r == Ok(Dispatch.Reply(Duration.DurationText(Dispatch.EstimateMs(|recipients.value|))))
        && trace == Dispatch.Schedule(data, Dispatch.BatchSize, Dispatch.DelayBetweenBatchesMs)
  {
    trace := [];
    var fileBuffer := store.FindFileById(file_id);
    if fileBuffer.Err? {
      return Err(fileBuffer.error), trace;
    }
    var workbook := load(fileBuffer.value);
    if workbook.Err? {
      return Err(workbook.error), trace;
    }
    var worksheet := FirstSheet(workbook.value);
    if worksheet.None? {
      return Err(Plain(NoSheetMessage)), trace;
    }
    var recipients := CollectRecipients(worksheet.value);
    var dataForMethod := Dispatch.ManyRecipients(recipients, message_text, adminId);
    var reply;
    reply, trace := Dispatch.SendManyRecipients(dataForMethod);
    r := Ok(reply);
  }
}
