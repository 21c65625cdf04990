# File2SMS — a verified model of the bulk-SMS pipeline

File2SMS is an HTTP back end that lets administrators send SMS messages
through the Play Mobile gateway. Messages go to a single recipient, to a
list of recipients, to the first column of an uploaded Excel workbook, or
to the rows of an Excel workbook dropped into a template folder under
`public/`. In that last case a text template with `$$A$$`-style
placeholders is filled in from each row's cells. A watcher polls the
template folders. Every message is stored before it is handed to the
gateway, and is updated with the gateway's answer afterwards. Sent
messages can be listed with filters and pages, and each admin's traffic
is priced, with the price spelled out in Uzbek words.

This project models that core in Dafny, module by module:

- `Errors`, `ValidationErrors`, `ErrorHandler`, `CatchError`: the error
  classes and their HTTP status codes, and the two ways errors become
  responses.
- `Delivery`: storing a message, calling the gateway and writing its
  answer back (`SmsRepo` is a class over a map of records).
- `Dispatch`: the batched fan-out to many recipients and its time
  estimate.
- `Duration` and `NumberWords`: the two text formatters. Each is a method
  that builds its text step by step as the source does (`NumberWords` in
  a loop), proved against a reference function.
- `ExcelSend` and `Spreadsheet`: the workbook model and the
  first-column recipient collection.
- `FileRepo`: file upload, covering name sanitising, the first free path,
  the content type and the stored record, and reading a file back.
- `Folders`: the `public/` directory tree.
- `TemplateRepo`: creating, renaming and deleting templates together with
  their folders.
- `TemplateService`: listing a template's files, and the row-by-row Excel
  send.
- `TemplateRender`: placeholder substitution.
- `TemplateWatcher`: the polling watcher, a class with the `isScanning`
  flag and the timer.
- `SmsQuery`: the filters, paging and history of the message list.
- `AuthService`: admin registration, login, update and deletion
  (`AdminStore` is a class over the admin table).

These parts are parameters of the model rather than modelled code:

- the outside world: the gateway, the database query engine, Excel
  parsing, password hashing, token signing and the per-file processing
  the watcher triggers;
- the clock: the gap between batches is recorded as a `Pause` event in a
  trace.

Where the code does something a reader may not expect, the model follows
the code:

- A message whose record disappears before the gateway's answer is
  written back fails with a plain `Error`, not with a `NotFoundError`.
  The model's repository never loses a record, so `Delivery.SendMessage`
  proves that branch unreachable.
- The time estimate is `(ceil(n / 100) - 1) * 300` ms. It is not "zero
  when everything fits in one batch" for every `n`: for 0 recipients it
  is -300 ms, and the reply then reads "-300 millisoniya"
  (`Dispatch.EstimateExamples`, `Duration.DurationOfMinusThreeHundred`).
- An Excel row is skipped when its phone cell is absent or falsy, or
  when its trimmed text is empty. `processExcelAndSendSMS` returns
  nothing: the count of sent rows is only logged. The model returns that
  count as the success value.
- When the sanitised base name is empty and the first path is taken, the
  upload loop extends the path of the files directory itself, so the
  file is written beside it as `src/public/files-1.pdf`. The record says
  `/public/files/-1.pdf`, where `findFileById` finds nothing
  (`FileRepo.EmptyBaseWritesBeside`, `FileRepo.LocNamesCandidate`).
- The history query is `raw` without `nest`, so each row has no `admin`
  object and every history entry's admin name is `null`.

## Model

| member | source | states |
|---|---|---|
| Errors.New | src/errors/errors.ts:6-15 | a thrown error carries its class's status code, the given message or the class's default, and data only for a validation error |
| Errors.ClassOfStatus | src/errors/errors.ts:26-66 | each non-validation error class is recovered from its status code, and a code no class uses has none |
| Errors.StatusOfDeterminesClass | src/errors/errors.ts:26-66 | the status codes of the non-validation error classes are pairwise different |
| Errors.ToJson | src/errors/errors.ts:17-23 | the JSON body holds exactly status and message, plus data when the data is truthy |
| Errors.ToJsonDataOnlyForValidation | src/errors/errors.ts:17-23 | a `data` key appears only for a validation error with truthy data, and always then |
| ValidationErrors.ConstraintMessages | src/errors/validation.error.ts:6-8 | no findings give no messages |
| ValidationErrors.ConstraintMessagesAppend | src/errors/validation.error.ts:6-8 | the flattened messages of two lists of findings are the concatenation of each list's messages |
| ValidationErrors.FindingWithoutConstraints | src/errors/validation.error.ts:7 | a finding without constraints contributes no message |
| ValidationErrors.ConstraintMessagesMembership | src/errors/validation.error.ts:6-8 | a message is in the flattened list exactly when some finding carries it |
| ValidationErrors.ValidationError | src/errors/validation.error.ts:4-10 | status 422, message VALIDATION_ERROR, and the flattened messages as data, which is always truthy |
| ErrorHandler.Handle | src/middleware/errorHandler.middleware.ts:5-30 | the VALIDATION_ERROR message gives 422 with an errors key when there is data; any other error keeps its status and message; a non-error gives 500 Internal Server Error |
| ErrorHandler.HandleKeepsClassStatus | src/middleware/errorHandler.middleware.ts:20-23 | an error of any class with any other message is answered with that class's status and that message |
| ErrorHandler.ValidationMessageOverridesStatus | src/middleware/errorHandler.middleware.ts:11-18 | the response status follows the message: a NotFound error carrying the message VALIDATION_ERROR is answered with 422 |
| ErrorHandler.ValidationErrorResponse | src/middleware/errorHandler.middleware.ts:11-18 | a validation error is answered with 422 and its flattened constraint messages under errors |
| CatchError.CatchError | src/utils/catch-error.util.ts:4-15 | an error keeps its status and message, with data when truthy; a non-error gives 500 Unexpected error occurred |
| CatchError.CatchErrorHasNoValidationCase | src/utils/catch-error.util.ts:5-9 | unlike the middleware, the controller helper keeps the error's own status and puts data under data rather than errors |
| Delivery.WithDefaultType | src/domain/sms/sms.service.ts:152-154 | a message without a type gets the type OTHER; one with a type keeps it |
| Delivery.PlayMobileSend | src/domain/sms/sms.service.ts:182-219 | fails exactly when the gateway configuration is incomplete; otherwise the gateway's answer, the answer a failure carries, or 500 Internal Server Error |
| Delivery.Pending | src/domain/sms/sms.service.ts:156 | a new record has no gateway status and no gateway data |
| Delivery.WithAnswer | src/domain/sms/sms.service.ts:165-170 | writing back the answer sets status and data and changes nothing else |
| Delivery.SmsRepo.Create | src/domain/sms/sms.repo.ts:107-111 | stores the pending record under a fresh id |
| Delivery.SmsRepo.Update | src/domain/sms/sms.repo.ts:113-121 | writes the answer into an existing record and returns it; a missing id changes nothing and returns nothing |
| Delivery.SendMessage | src/domain/sms/sms.service.ts:149-176 | adds exactly one record; with a configuration it carries the gateway's answer, without one it stays pending and the configuration error is thrown |
| Delivery.ConfiguredSendSucceeds | src/domain/sms/sms.service.ts:164-175 | with a configuration the send succeeds and the new record holds the recipient, the text and an answer, 500 when the gateway failed without one |
| Delivery.UnconfiguredSendLeavesPending | src/domain/sms/sms.service.ts:197-201 | without a configuration the record stays pending and the missing-configuration error is thrown |
| Delivery.SendTouchesOneRecord | src/domain/sms/sms.service.ts:149-176 | every other stored record is unchanged |
| Dispatch.Batches | src/domain/sms/sms.service.ts:110 | the number of batches is the ceiling of the recipients over 100 |
| Dispatch.MessageFor | src/domain/sms/sms.service.ts:132-137 | the i-th message goes to the i-th recipient with the shared text, admin and the type OTHER |
| Dispatch.SendMessagesAsync | src/domain/sms/sms.service.ts:124-147 | the sends and pauses issued are those of the reference schedule |
| Dispatch.SendManyRecipients | src/domain/sms/sms.service.ts:104-122 | replies with the formatted estimate and starts the schedule with batches of 100 and gaps of 300 ms |
| Dispatch.SendsInOrder | src/domain/sms/sms.service.ts:131-140 | every recipient is sent exactly once, in list order |
| Dispatch.PausesUpTo | src/domain/sms/sms.service.ts:143-145 | the number of pauses up to any point counts the full batches passed, with no pause after the last recipient |
| Dispatch.PausePositions | src/domain/sms/sms.service.ts:143-145 | a pause comes right after every 100th send except the last one, and nowhere else |
| Dispatch.BatchesArePausesPlusOne | src/domain/sms/sms.service.ts:110 | there is one batch more than there are pauses |
| Dispatch.EstimateIsWaitingTime | src/domain/sms/sms.service.ts:110-145 | for a non-empty list the estimate is exactly the total of the pauses |
| Dispatch.EstimateExamples | src/domain/sms/sms.service.ts:110-113 | up to 100 recipients the estimate is 0; 250 recipients take 600 ms; an empty list gives -300 |
| Duration.Breakdown | src/domain/sms/sms.service.ts:298-300 | hours, minutes and seconds recombine to the milliseconds with minutes and seconds below 60 and less than a second left |
| Duration.BreakdownFloors | src/domain/sms/sms.service.ts:298-300 | the parts are the floored divisions the source computes |
| Duration.BreakdownUnique | src/domain/sms/sms.service.ts:298-300 | only one breakdown meets those bounds |
| Duration.FormatDuration | src/domain/sms/sms.service.ts:293-312 | the step-by-step appends build exactly the reference text |
| Duration.DurationTextTrimmed | src/domain/sms/sms.service.ts:293-312 | the text is never empty and has no surrounding blanks |
| Duration.DurationEndsWithSeconds | src/domain/sms/sms.service.ts:309-311 | from one second up the text ends with the seconds followed by soniya |
| Duration.DurationShowsHoursIff | src/domain/sms/sms.service.ts:303-308 | the text starts with the hours exactly when there is at least one hour |
| Duration.PartsShowMinutesIff | src/domain/sms/sms.service.ts:302-311 | the minutes and their word daqiqa are written, just before the seconds, exactly when minutes or hours are non-zero |
| Duration.DurationShowsMinutesIff | src/domain/sms/sms.service.ts:306-308 | from one second up the text shows the minutes exactly when minutes or hours are non-zero |
| Duration.DurationOfSixHundred | src/domain/sms/sms.service.ts:294-296 | under a second the text is the milliseconds followed by millisoniya |
| Duration.DurationOfMinusThreeHundred | src/domain/sms/sms.service.ts:294-296 | a negative estimate is shown as negative milliseconds |
| Duration.DurationOfOneHour | src/domain/sms/sms.service.ts:302-311 | one hour reads 1 soat 0 daqiqa 0 soniya |
| Duration.DurationOfTenMinutes | src/domain/sms/sms.service.ts:302-311 | ten minutes read 10 daqiqa 0 soniya, with no hours part |
| NumberWords.ChunkTextIsWord | src/domain/sms/sms.service.ts:267-283 | every group from 1 to 999 is spelled as non-empty words with single blanks between them |
| NumberWords.Groups | src/domain/sms/sms.service.ts:264-288 | the base-1000 groups of a number are non-zero and below 1000, highest scale first, with scales strictly decreasing and none below the starting scale |
| NumberWords.GroupsRecombine | src/domain/sms/sms.service.ts:264-288 | the groups are the number's three-digit groups: each value times 1000 to its place sums back to the number |
| NumberWords.GroupsValueShift | src/domain/sms/sms.service.ts:264-287 | counting places from one scale lower multiplies the groups' value by a thousand |
| NumberWords.GroupWords | src/domain/sms/sms.service.ts:267-285 | the loop body spells a group as the reference chunk text |
| NumberWords.LoopStep | src/domain/sms/sms.service.ts:264-288 | each turn of the loop keeps the words equal to the spelled groups seen so far |
| NumberWords.ConvertNumberToWords | src/domain/sms/sms.service.ts:221-291 | the loop builds exactly the reference spelling |
| NumberWords.WordsTrimmed | src/domain/sms/sms.service.ts:285-290 | every spelling is non-empty words with single blanks between them |
| NumberWords.WordsOfZero | src/domain/sms/sms.service.ts:260 | zero is nol |
| NumberWords.WordsBelowThousand | src/domain/sms/sms.service.ts:264-290 | below 1000 a number is spelled as one group |
| NumberWords.WordsOfSmallNumbers | src/domain/sms/sms.service.ts:276-279 | 1 to 9 and 10 to 19 come straight from the tables |
| NumberWords.WordsOfRoundThousands | src/domain/sms/sms.service.ts:264-288 | a whole number of thousands is its thousands followed by ming |
| NumberWords.WordsOfThousands | src/domain/sms/sms.service.ts:264-288 | a number with thousands and a rest reads thousands, ming, then the rest |
| NumberWords.WordsOfHundred | src/domain/sms/sms.service.ts:269-274 | 100 is bir yuz |
| NumberWords.WordsOfTwoThousandFiveHundred | src/domain/sms/sms.service.ts:264-288 | 2500 is ikki ming besh yuz |
| NumberWords.WordsOfMillion | src/domain/sms/sms.service.ts:258 | a million uses the third scale word |
| NumberWords.WordsPastMilliard | src/domain/sms/sms.service.ts:258-285 | past the last scale word the word undefined appears |
| ExcelSend.ColumnOneTexts | src/domain/sms/sms.service.ts:88-93 | only non-empty first-column texts are collected, at most one per row |
| ExcelSend.CollectRecipients | src/domain/sms/sms.service.ts:88-93 | the row loop collects exactly the reference recipients |
| ExcelSend.ColumnOneTextsAppend | src/domain/sms/sms.service.ts:88-93 | the recipients of two row ranges are those of each range in row order |
| ExcelSend.EmptyColumnNoRecipients | src/domain/sms/sms.service.ts:89-92 | rows without a first-column cell give no recipients |
| ExcelSend.UntrimmedRecipient | src/domain/sms/sms.service.ts:89-92 | a first-column text is taken as written, without trimming |
| ExcelSend.ExcelRecipients | src/domain/sms/sms.service.ts:82-93 | a workbook without a sheet is an error; otherwise the recipients of its first sheet |
| ExcelSend.SendFromExcel | src/domain/sms/sms.service.ts:72-102 | an unknown file, an unreadable workbook or a missing sheet sends nothing and passes the error on; otherwise the collected recipients are dispatched with the estimate reply |
| Spreadsheet.FirstSheet | src/domain/sms/sms.service.ts:82-85 | there is a first sheet exactly when the workbook has sheets |
| FileRepo.Sanitise | src/domain/file/file.repo.ts:17-21 | the result is clean: only letters and digits in runs joined by single dashes, with no dash at either end |
| FileRepo.ReplaceRunsShape | src/domain/file/file.repo.ts:19-21 | after a run replacement, no two replacement characters are adjacent |
| FileRepo.CleanIsFixpoint | src/domain/file/file.repo.ts:17-21 | sanitising an already clean name leaves it unchanged |
| FileRepo.SanitiseIdempotent | src/domain/file/file.repo.ts:17-21 | sanitising twice is sanitising once |
| FileRepo.ExtName | src/domain/file/file.repo.ts:15 | the extension is empty or a suffix starting at the last dot, never the whole name |
| FileRepo.BaseName | src/domain/file/file.repo.ts:14 | base name and extension put back together give the file name |
| FileRepo.CandidateInjective | src/domain/file/file.repo.ts:43-47 | different counters give different file names |
| FileRepo.JoinFiles | src/domain/file/file.repo.ts:23-39 | joining a name to the files directory gives the directory itself exactly for the names "" and "." |
| FileRepo.LocNamesCandidate | src/domain/file/file.repo.ts:23-47 | the path an attempt writes is the recorded name in the files directory, except for an empty base after the first attempt, when it is files followed by that name, beside the directory |
| FileRepo.EmptyBaseWritesBeside | src/domain/file/file.repo.ts:33-45 | a file named !!!.pdf has an empty base, and its second attempt writes files-1.pdf beside the directory while the name kept is -1.pdf |
| FileRepo.LocInjective | src/domain/file/file.repo.ts:23-47 | different attempts check different paths |
| FileRepo.LaterLocInjective | src/domain/file/file.repo.ts:44-45 | different counters after the first attempt give different paths |
| FileRepo.LocZeroIsNotLater | src/domain/file/file.repo.ts:23-45 | the first path differs from every later one |
| FileRepo.LocationsCount | src/domain/file/file.repo.ts:43-47 | m tries check m different paths |
| FileRepo.FailedAttemptsBound | src/domain/file/file.repo.ts:43-47 | the name loop cannot fail more times than the disk has files, plus one for the directory, so it ends |
| FileRepo.UniqueName | src/domain/file/file.repo.ts:32-47 | the chosen path is free, every earlier path was taken, and the name kept is the candidate of the same attempt |
| FileRepo.UniqueNameIsFirstFree | src/domain/file/file.repo.ts:32-47 | the first free path is unique |
| FileRepo.ContentType | src/domain/file/file.repo.ts:60-84 | Word, Excel, PowerPoint and PDF mimetypes get their kind; any other mimetype is kept |
| FileRepo.ContentTypeIdempotent | src/domain/file/file.repo.ts:60-84 | mapping a content type again changes nothing |
| FileRepo.KnownTypesAreRenamed | src/domain/file/file.repo.ts:60-84 | a known mimetype is always replaced by one of the four kinds |
| FileRepo.RecordFor | src/domain/file/file.repo.ts:86-92 | the record holds the sanitised base name, the extension, the public path of the stored file and the content type |
| FileRepo.RecordKeepsValid | src/domain/file/file.repo.ts:49-92 | a new record whose file was written at its name, or beside the directory, keeps every record pointing at a file |
| FileRepo.FileStore.Upload | src/domain/file/file.repo.ts:13-93 | stores the data at the first free path, leaves every other file in place, and records it under a fresh id; the record reads the data back unless the base is empty and the first path was taken, when the data lies beside the directory |
| FileRepo.FileStore.FindFileById | src/domain/file/file.repo.ts:95-106 | an unknown id is a bad request; a known one yields the bytes at its name in the files directory, and ENOENT when nothing is there |
| FileRepo.UnknownFileIsBadRequest | src/domain/file/file.repo.ts:98-100 | the missing-file error has status 400 |
| Folders.Put | src/domain/template/template.repo.ts:42-45 | after creating an entry it is found under its name, and every other name finds what it found before |
| Folders.Without | src/domain/template/template.repo.ts:151-156 | removing an entry keeps exactly the entries with other names |
| Folders.LookupWithout | src/domain/template/template.repo.ts:151-156 | removing one entry leaves every other name's entry where lookup finds it |
| Folders.RenameAt | src/domain/template/template.repo.ts:78 | a rename changes the name of one entry and nothing else |
| Folders.RenameBack | src/domain/template/template.repo.ts:78 | renaming back restores the directory |
| Folders.WellFormedPut | src/domain/template/template.repo.ts:42-45 | creating an entry keeps the names in every directory unique |
| TemplateRepo.Rethrown | src/domain/template/template.repo.ts:48-50 | every error leaving the repository becomes a 500 with the original message |
| TemplateRepo.RethrownHidesClass | src/domain/template/template.repo.ts:48-50 | a not-found or conflict error reaches the client as 500, not with its own status |
| TemplateRepo.Patched | src/domain/template/template.repo.ts:82-91 | each given field replaces the stored one, the others stay, and an empty update only renames |
| TemplateRepo.DeleteBlocker | src/domain/template/template.repo.ts:120-148 | deletion is blocked only by a non-directory or by a non-empty folder |
| TemplateRepo.DeletableIff | src/domain/template/template.repo.ts:120-148 | a folder can be deleted exactly when it is empty or holds only an empty sent folder |
| TemplateRepo.NewFolderIsDeletable | src/domain/template/template.repo.ts:42-45 | a folder just created by `create` can be deleted again |
| TemplateRepo.ContentBlocksDelete | src/domain/template/template.repo.ts:120-148 | any other content blocks deletion |
| TemplateRepo.TemplateRepo.FindById | src/domain/template/template.repo.ts:24-30 | finds the stored template, or is a 404 with the template-not-found message |
| TemplateRepo.TemplateRepo.FindByName | src/domain/template/template.repo.ts:162-166 | finds a template with that name, the lowest id as the model's choice, or none when no template has it |
| TemplateRepo.TemplateRepo.Create | src/domain/template/template.repo.ts:32-51 | an existing folder is a conflict and a missing public folder a file-system error, both as 500 and changing nothing; otherwise the folder with its sent sub-folder and the template are added |
| TemplateRepo.TemplateRepo.Update | src/domain/template/template.repo.ts:53-99 | an unknown id, a missing old folder or a taken new name fail as 500 and change nothing; otherwise the fields are patched and the folder renamed when the name changes |
| TemplateRepo.TemplateRepo.Delete | src/domain/template/template.repo.ts:101-160 | a missing folder only drops the record; a blocked folder fails as 500 and changes nothing; otherwise both the folder and the record go |
| TemplateService.FileUrls | src/domain/template/template.service.ts:41-53 | lists exactly the public URLs of the listed entries, sent excluded when asked |
| TemplateService.GetTemplateById | src/domain/template/template.service.ts:22-59 | an unknown template is a 500; a template without a folder is listed with no files; any other listing describes the stored template |
| TemplateService.ListedFiles | src/domain/template/template.service.ts:41-43 | the files listed are exactly the folder's entries except sent |
| TemplateService.ListedSentFiles | src/domain/template/template.service.ts:46-53 | the sent files listed are exactly the entries of the sent folder |
| TemplateService.NoSentFolderNoSentFiles | src/domain/template/template.service.ts:46-53 | without a sent folder there are no sent files |
| TemplateService.PhoneOf | src/domain/template/template.service.ts:177-188 | a row has a phone exactly when its cell is truthy and its trimmed text is non-empty, and the phone is that trimmed text |
| TemplateService.RowMessage | src/domain/template/template.service.ts:190-200 | a row with a phone yields the rendered template to that phone from admin 1, typed by the template or OTHER |
| TemplateService.RowSends | src/domain/template/template.service.ts:175-202 | each message sent from the rows goes from admin 1 to a non-empty phone and has a type |
| TemplateService.SkippedPlusSent | src/domain/template/template.service.ts:175-202 | skipped rows plus sent messages account for every row |
| TemplateService.RowSendsAppend | src/domain/template/template.service.ts:175-202 | the sends of two row ranges are those of each range in order |
| TemplateService.FirstSend | src/domain/template/template.service.ts:175-202 | the first row with a phone gives the first message |
| TemplateService.SendsAreRowMessages | src/domain/template/template.service.ts:175-202 | every message sent is some row's message, to a trimmed phone |
| TemplateService.ExcelEntry | src/domain/template/template.service.ts:152-161 | the Excel file is found exactly when the template folder exists and holds an entry of that name |
| TemplateService.ExcelRows | src/domain/template/template.service.ts:140-170 | an unknown template, a missing file or a workbook without sheets is a 404; otherwise the rows of the first sheet |
| TemplateService.RowsOutcome | src/domain/template/template.service.ts:172-202 | all messages are sent and counted, or, with no gateway configuration, the first send throws after storing one message |
| TemplateService.SendRows | src/domain/template/template.service.ts:172-202 | the row loop stores one record per message it sends and ends as the reference outcome says |
| TemplateService.SendRecordedMessage | src/domain/sms/sms.service.ts:149-176 | one new record holds the message, every other record is unchanged, and the send fails exactly without a configuration |
| TemplateService.ProcessExcel | src/domain/template/template.service.ts:140-207 | a lookup error sends nothing; otherwise the rows of the template's workbook are sent as the reference outcome says |
| TemplateRender.UpperRun | src/domain/template/template.service.ts:214 | the longest prefix of capital letters |
| TemplateRender.Placeholder | src/domain/template/template.service.ts:214-219 | a placeholder at the start of the text is found exactly when one matches, and the match is unique |
| TemplateRender.Replacement | src/domain/template/template.service.ts:217-218 | the replacement is the trimmed text of the cell, and empty for a falsy cell |
| TemplateRender.Parse | src/domain/template/template.service.ts:214-219 | splits a template into literal text and placeholder holes |
| TemplateRender.ParseRoundTrip | src/domain/template/template.service.ts:214-219 | parsing a template and writing it back gives the template |
| TemplateRender.RenderFillsPieces | src/domain/template/template.service.ts:213-220 | rendering fills the holes of the parse with the row's cells and keeps the literal text |
| TemplateRender.TemplateWithoutPlaceholders | src/domain/template/template.service.ts:213-220 | a template without holes is sent unchanged |
| TemplateRender.TemplateWithoutDollars | src/domain/template/template.service.ts:213-220 | a template without a double dollar is sent unchanged |
| TemplateRender.ValueNotRescanned | src/domain/template/template.service.ts:216-219 | a cell value that looks like a placeholder is not substituted again |
| TemplateRender.MatchAfterStrayDollar | src/domain/template/template.service.ts:214 | a stray leading dollar stays and the placeholder after it is substituted |
| TemplateRender.MatchesDoNotOverlap | src/domain/template/template.service.ts:214 | the closing dollars of one placeholder cannot open the next |
| TemplateWatcher.ExcelFiles | src/domain/template/template.watcher.service.ts:64-67 | keeps exactly the names ending in .xlsx or .xls |
| TemplateWatcher.ExcelFilesNotSent | src/domain/template/template.watcher.service.ts:64-67 | the sent folder itself is never processed |
| TemplateWatcher.MoveToSent | src/domain/template/template.watcher.service.ts:82-90 | a successful move leaves the file in sent, not beside it, and every other entry unchanged |
| TemplateWatcher.ScanFolder | src/domain/template/template.watcher.service.ts:51-99 | a folder without a sent folder, and any file, is left as it is |
| TemplateWatcher.Tick | src/domain/template/template.watcher.service.ts:49-100 | one scan treats every top entry of public on its own and keeps their order |
| TemplateWatcher.FolderAttempts | src/domain/template/template.watcher.service.ts:58-80 | a template folder's Excel files are processed in listing order; other entries are not processed |
| TemplateWatcher.FolderAttemptsIff | src/domain/template/template.watcher.service.ts:58-80 | a file is processed exactly when it is an Excel file of a folder that holds a sent folder |
| TemplateWatcher.AttemptedIff | src/domain/template/template.watcher.service.ts:49-100 | across public, a file is processed exactly when some template folder holds it as an Excel file |
| TemplateWatcher.MoveKeepsWellFormed | src/domain/template/template.watcher.service.ts:82-90 | moving a file keeps the names in every directory unique |
| TemplateWatcher.UntouchedUnlessProcessed | src/domain/template/template.watcher.service.ts:70-98 | a file whose processing never succeeds stays where it was |
| TemplateWatcher.SentKept | src/domain/template/template.watcher.service.ts:70-98 | the sent folder survives the scan |
| TemplateWatcher.FailedFileRetried | src/domain/template/template.watcher.service.ts:92-97 | a failed file stays in the template folder and is picked up again on the next scan |
| TemplateWatcher.MovedOnlyAfterSuccess | src/domain/template/template.watcher.service.ts:77-90 | a file leaves the folder only after its processing succeeded |
| TemplateWatcher.MovedIntoSent | src/domain/template/template.watcher.service.ts:82-90 | a processed file ends up in sent with its contents |
| TemplateWatcher.OtherEntriesUntouched | src/domain/template/template.watcher.service.ts:51-61 | entries of public that are not template folders are left as they are |
| TemplateWatcher.TemplateWatcher.StartWatching | src/domain/template/template.watcher.service.ts:21-26 | registers one interval and remembers its handle |
| TemplateWatcher.TemplateWatcher.StopWatching | src/domain/template/template.watcher.service.ts:28-33 | clears the remembered interval, if any, and only it |
| TemplateWatcher.TemplateWatcher.ScanPublicFolder | src/domain/template/template.watcher.service.ts:35-106 | a scan while one is running does nothing; a missing public folder changes nothing; otherwise public becomes one scan of it, and the flag is reset |
| TemplateWatcher.TemplateWatcher.ScanTemplateFolder | src/domain/template/template.watcher.service.ts:58-98 | one folder becomes its scan and its Excel files are tried in order |
| TemplateWatcher.TemplateWatcher.TakeFile | src/domain/template/template.watcher.service.ts:70-98 | one file is processed and, on success, moved into sent |
| SmsQuery.WhereOptions | src/domain/sms/sms.repo.ts:51-75 | a condition exists exactly for the filter fields that are set, plus the caller's own id for an admin who is not a super-admin |
| SmsQuery.BuildWhere | src/domain/sms/sms.repo.ts:51-75 | the step-by-step construction builds that condition map |
| SmsQuery.WhereSelects | src/domain/sms/sms.repo.ts:51-75 | a message satisfies the conditions exactly when it matches every filter that is set |
| SmsQuery.TextNamesNumber | src/domain/sms/sms.repo.ts:56-57 | comparing admin ids as text is comparing them as numbers |
| SmsQuery.OwnMessagesOnly | src/domain/sms/sms.repo.ts:53-58 | an admin who is not a super-admin and sets no admin filter matches only their own messages |
| SmsQuery.AdminFilterOverrides | src/domain/sms/sms.repo.ts:56-58 | an admin filter replaces the caller's own id |
| SmsQuery.SuperAdminSeesAll | src/domain/sms/sms.repo.ts:51-75 | a super-admin with no filter matches every message |
| SmsQuery.IgnoredFields | src/domain/sms/sms.repo.ts:51-75 | the type filter is ignored, and a date range needs both ends |
| SmsQuery.TotalPages | src/domain/sms/sms.repo.ts:85 | the page count is the ceiling of the count over the limit |
| SmsQuery.Offset | src/domain/sms/sms.service.ts:60 | the offset is the page start, one page below page times limit |
| SmsQuery.PagesTile | src/domain/sms/sms.service.ts:60 | pages start at 0, follow each other without gaps, and the last page holds the last message |
| SmsQuery.Views | src/domain/sms/sms.repo.ts:100-103 | one row per message found, with every column of the sms table carried over; there is no sms_type, which the table does not have |
| SmsQuery.AdminOptions | src/domain/sms/sms.repo.ts:87-94 | every admin as a label and value pair, in order |
| SmsQuery.GetAll | src/domain/sms/sms.repo.ts:38-105 | the page holds the database's rows and count for that condition map, the page count and the admin options |
| SmsQuery.GetAllMessages | src/domain/sms/sms.service.ts:49-70 | the repository is asked with the caller's id and the page's offset |
| SmsQuery.ListShowsOwnMessages | src/domain/sms/sms.repo.ts:77-83 | against a correct database an ordinary admin sees only their own messages, newest first |
| SmsQuery.HistoryOf | src/domain/sms/sms.service.ts:31-46 | each message costs 100, the price is also spelled in words followed by the currency, and the admin name is null because the raw row has no admin object |
| SmsQuery.SentSmsHistory | src/domain/sms/sms.service.ts:28-47 | one history entry per grouped row, in order |
| SmsQuery.OneMessagePrice | src/domain/sms/sms.service.ts:33-43 | one message is priced bir yuz so‘m |
| Strings.LowerChar | src/domain/auth/auth.service.ts:35 | a capital of ASCII, Latin-1 or basic Cyrillic becomes a small letter, every other character is kept, and white space stays white space |
| AuthService.Normalize | src/domain/auth/auth.service.ts:35 | a normalised username is trimmed and has no capitals left |
| AuthService.NormalizeIdempotent | src/domain/auth/auth.service.ts:35 | normalising twice is normalising once |
| AuthService.NormalizeIgnoresCaseAndPadding | src/domain/auth/auth.service.ts:35 | leading blanks, trailing blanks and letter case do not change a username |
| AuthService.CyrillicNamesFold | src/domain/auth/auth.service.ts:35 | a padded Cyrillic name in capitals normalises to its small letters |
| AuthService.TrimOfTrailingPadding | src/domain/auth/auth.service.ts:35 | trailing blanks are trimmed away whatever precedes them |
| AuthService.FindByUsername | src/domain/auth/auth.service.ts:30-37 | finds an admin with the normalised name exactly when there is one |
| AuthService.FindById | src/domain/auth/auth.service.ts:100-106 | finds the position of the admin with that id exactly when there is one |
| AuthService.WithoutId | src/domain/auth/auth.service.ts:116-121 | deleting keeps exactly the admins with other ids |
| AuthService.WithoutIdDistinct | src/domain/auth/auth.service.ts:116-121 | deleting keeps ids and usernames unique |
| AuthService.Stripped | src/domain/auth/auth.service.ts:49 | a request can never grant the super-admin flag |
| AuthService.Updated | src/domain/auth/auth.service.ts:108-113 | an update keeps id and username, takes the new name and new password hash when given, and can only lower the super-admin flag |
| AuthService.SigningSecret | src/domain/auth/auth.service.ts:123-127 | tokens are signed with the configured secret, or a non-empty default |
| AuthService.Login | src/domain/auth/auth.service.ts:61-87 | succeeds exactly when the user exists and the password matches, with a token for that admin's id and username; every failure is the same bad request |
| AuthService.LoginFailsUniformly | src/domain/auth/auth.service.ts:61-87 | an unknown user and a wrong password give the same answer |
| AuthService.RegisteredCanLogIn | src/domain/auth/auth.service.ts:39-87 | after a registration, logging in under any spelling of the name with the right password gives that admin's token |
| AuthService.AdminStore.Register | src/domain/auth/auth.service.ts:39-59 | a taken username is a conflict and a missing salt an error, both changing nothing; otherwise a new ordinary admin with the normalised username and the hashed password is added |
| AuthService.AdminStore.UpdateAdmin | src/domain/auth/auth.service.ts:89-114 | a missing salt for a new password or an unknown id fails and changes nothing; otherwise only that admin is updated |
| AuthService.AdminStore.DeleteAdmin | src/domain/auth/auth.service.ts:116-121 | removes the admin with that id and keeps the others |

## Left out

- The Play Mobile gateway (axios), Excel parsing (exceljs), bcrypt hashing and comparison, and JWT signing are parameters of the model: functions the caller supplies. Their behaviour is not modelled.
- `verifyToken` and `getAllAdmins` in auth.service.ts are not modelled: they only call the JWT library and the database.
- Timers and concurrency: `send_message_many_recipients` does not wait for its sends. `Dispatch.SendMessagesAsync` returns the sends and pauses as a trace instead of running them in time. The watcher's interval ticks are modelled as calls to `ScanPublicFolder`.
- The database is an abstract query function. `SmsQuery.ListShowsOwnMessages` assumes that it answers correctly. The repository base class CoreRepo is not part of this model. Fields passed through with `...data` beyond the modelled ones are left out.
- `ILIKE` matching treats `%` and `_` inside the filter text literally, and letter case is folded for the capitals of ASCII, Latin-1 and the basic Cyrillic block only (`Strings.IsCapital`).
- Date parsing in the date filter is a parameter `toTime`, and the length of a day is a constant.
- Unicode NFC normalisation before sanitising is left out. The sanitiser keeps exactly the letters of its pattern: ASCII and the Cyrillic а–я, А–Я, ё and Ё.
- File-system error messages are shortened to their codes (ENOENT, ENOTDIR). `path.join` is modelled for plain name components only (`Folders.IsComponent`). A rename keeps the entry's position in its listing.
- The per-file processing the watcher triggers is an oracle `process`. Its link to `TemplateService.ProcessExcel` is not proved.
- UUIDs are modelled as natural-number counters, and route-parameter ids as naturals.
- Page and limit values that are NaN or fractional are left out; the limit must be non-zero.
- The `file_size` fields (floating-point `toFixed`) are left out of the file record.
- The logger, the controllers, the routes and `uploadMultiple` are left out.
- Null-valued fields in an update request are treated like absent ones.
- The `?.` case of an undefined username is left out: usernames are always strings.
- AuthService.Normalize: folds only the capitals of ASCII, Latin-1 and the basic Cyrillic block (U+0400 to U+042F). JavaScript's `toLowerCase` also folds other scripts (Greek, extended Latin, Armenian and more) and has special cases such as U+0130, which the model keeps as they are.
- TemplateRepo.TemplateRepo.FindByName: `findOne` has no `ORDER BY`, so the database may return any row with the name, and the ids are UUIDs. Returning the lowest counter id is the model's fixed choice, not a promise of the source; `TemplateService.FirstNamed` makes the same choice.
- Spreadsheet.CellValue: a cell is text or a whole number. Fractional numbers, dates, booleans and object values (rich text, hyperlinks, formulas) are left out. For an object value, `String(value)` gives "[object Object]" while `.text` gives its text, a difference the model cannot show.
- TemplateService.PhoneOf: a column name that exceljs's `getCell` does not accept (lower case, more than three letters, or beyond XFD) makes it throw, so `processExcelAndSendSMS` rejects at the first row (for a placeholder, at the first row with a phone number), before anything is sent. The model reads such a cell as empty (`Spreadsheet.CellAt`), and likewise for a placeholder of more than three letters in `TemplateRender.Render`.
