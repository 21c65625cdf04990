/**
 * `TemplateWatcherService`: a timer that scans `public/` for template folders
 * (directories holding `sent`), hands each Excel file in them to the template
 * service and moves the file into `sent/` once it has been processed.  The
 * outcome of `processExcelAndSendSMS` for a folder and file is the parameter
 * `process` (true when it returned without throwing); the timer runtime is the
 * map `intervals` of the intervals currently scheduled.
 */
module TemplateWatcher {
  import opened Wrappers
  import opened Strings
  import opened Folders

  /** The names the scan picks up: ending in `.xlsx` or `.xls`, and not `sent`. */
  predicate IsExcelName(f: string) {
    (EndsWith(f, ".xlsx") || EndsWith(f, ".xls")) && f != "sent"
  }

  /** `files.filter(...)`: the Excel names of a listing, in listing order. */
  function ExcelFiles(names: seq<string>): (r: seq<string>)
    ensures |r| <= |names|
    ensures forall f :: f in r <==> f in names && IsExcelName(f)
  {
    if names == [] then []
    else (if IsExcelName(names[0]) then [names[0]] else []) + ExcelFiles(names[1..])
  }

  lemma ExcelFilesNotSent(names: seq<string>)
    ensures forall k :: 0 <= k < |ExcelFiles(names)| ==> ExcelFiles(names)[k] != "sent"
  {
    var files := ExcelFiles(names);
    assert forall k :: 0 <= k < |files| ==> files[k] in files;
  }

  /** A directory entry the scan treats as a template folder. */
  predicate IsTemplateFolder(e: Entry) {
    e.DirEntry? && Has(e.entries, "sent")
  }

  /**
   * `rename(folder/f, folder/sent/f)`: `None` when it throws (no such entry, `sent`
   * not a directory, or a same-named entry in `sent/` that cannot be replaced).
   * A file replaces a file of the same name.
   */
  function MoveToSent(es: seq<Entry>, f: string): (r: Option<seq<Entry>>)
    requires f != "sent"
    ensures r.Some? ==> !Has(r.value, f) && Lookup(es, f).Some?
    ensures r.Some? ==>
      (Lookup(r.value, "sent").Some? && Lookup(r.value, "sent").value.DirEntry?
       && Lookup(Lookup(r.value, "sent").value.entries, f) == Lookup(es, f))
    ensures r.Some? ==> forall n :: n != f && n != "sent" ==> Lookup(r.value, n) == Lookup(es, n)
  {
    match Lookup(es, f)
    case None => None
    case Some(src) =>
      match Lookup(es, "sent")
      case Some(DirEntry(_, inner)) =>
        if Lookup(inner, f).Some? && !(src.FileEntry? && Lookup(inner, f).value.FileEntry?) then None
        else
          var rest := Without(es, f);
          NotHasWithout(es, f);
          forall n | n != f
            ensures Lookup(rest, n) == Lookup(es, n)
          {
            LookupWithout(es, f, n);
          }
          Some(Put(rest, DirEntry("sent", Put(inner, src))))
      case _ => None
  }

  /** One file of a template folder: processed, then moved when processing returned and the rename succeeds. */
  function FolderStep(folder: string, es: seq<Entry>, f: string, process: (string, string) -> bool): seq<Entry>
    requires f != "sent"
  {
    if !process(folder, f) then es
    else match MoveToSent(es, f)
      case Some(moved) => moved
      case None => es
  }

  /** The template folder's entries after its files were taken one after the other. */
  function ProcessFolder(folder: string, es: seq<Entry>, files: seq<string>, process: (string, string) -> bool): seq<Entry>
    requires forall k :: 0 <= k < |files| ==> files[k] != "sent"
  {
    if files == [] then es
    else FolderStep(folder, ProcessFolder(folder, es, files[..|files| - 1], process), files[|files| - 1], process)
  }

  /** A `public/` entry after a tick: template folders have their Excel files processed; everything else is left as it is. */
  function ScanFolder(e: Entry, process: (string, string) -> bool): (r: Entry)
    ensures r.name == e.name && r.DirEntry? == e.DirEntry?
    ensures !IsTemplateFolder(e) ==> r == e
  {
    if IsTemplateFolder(e) then
      var files := ExcelFiles(Names(e.entries));
      ExcelFilesNotSent(Names(e.entries));
      DirEntry(e.name, ProcessFolder(e.name, e.entries, files, process))
    else e
  }

  /** `public/` after a tick. */
  function Tick(public: seq<Entry>, process: (string, string) -> bool): (r: seq<Entry>)
    ensures |r| == |public| && forall k :: 0 <= k < |public| ==> r[k] == ScanFolder(public[k], process)
  {
    seq(|public|, k requires 0 <= k < |public| => ScanFolder(public[k], process))
  }

  /** One call per file of folder `folder`, in order. */
  function Calls(folder: string, files: seq<string>): (r: seq<(string, string)>)
    ensures |r| == |files| && forall k :: 0 <= k < |files| ==> r[k] == (folder, files[k])
  {
    seq(|files|, k requires 0 <= k < |files| => (folder, files[k]))
  }

  lemma CallsStep(folder: string, files: seq<string>, j: nat)
    requires j < |files|
    ensures Calls(folder, files[..j + 1]) == Calls(folder, files[..j]) + [(folder, files[j])]
  {
  }

  /** The calls a folder asks for: one per Excel name, in listing order. */
  function FolderAttempts(e: Entry): (r: seq<(string, string)>)
    ensures !IsTemplateFolder(e) ==> r == []
    ensures IsTemplateFolder(e) ==> r == Calls(e.name, ExcelFiles(Names(e.entries)))
  {
    if IsTemplateFolder(e) then Calls(e.name, ExcelFiles(Names(e.entries))) else []
  }

  /** `g` of the first `i` elements of `xs`, one after the other. */
  function Concat<T, U>(xs: seq<T>, g: T -> seq<U>, i: nat): seq<U>
    requires i <= |xs|
  {
    if i == 0 then [] else Concat(xs, g, i - 1) + g(xs[i - 1])
  }

  /** What `Concat` holds comes from one of the elements it was made of. */
  lemma {:induction false} ConcatSource<T, U>(xs: seq<T>, g: T -> seq<U>, i: nat, u: U) returns (k: nat)
    requires i <= |xs| && u in Concat(xs, g, i)
    ensures k < i && u in g(xs[k])
  {
    if u in g(xs[i - 1]) {
      k := i - 1;
    } else {
      k := ConcatSource(xs, g, i - 1, u);
    }
  }

  /** `Concat` holds what every one of its elements gives. */
  lemma {:induction false} ConcatHas<T, U>(xs: seq<T>, g: T -> seq<U>, i: nat, k: nat, u: U)
    requires k < i <= |xs| && u in g(xs[k])
    ensures u in Concat(xs, g, i)
  {
    if k < i - 1 {
      ConcatHas(xs, g, i - 1, k, u);
    }
  }

  /** The calls of `processExcelAndSendSMS` for the first `i` entries of `public/`, in order. */
  function AttemptsUpTo(public: seq<Entry>, i: nat): seq<(string, string)>
    requires i <= |public|
  {
    Concat(public, FolderAttempts, i)
  }

  function TickAttempts(public: seq<Entry>): seq<(string, string)> {
    AttemptsUpTo(public, |public|)
  }

  /** `public/` part-way through a tick: the first `i` entries scanned, the rest as listed. */
  ghost predicate Scanned(current: seq<Entry>, entries: seq<Entry>, i: nat, process: (string, string) -> bool) {
    i <= |entries| && |current| == |entries|
    && (forall k :: 0 <= k < i ==> current[k] == ScanFolder(entries[k], process))
    && (forall k :: i <= k < |entries| ==> current[k] == entries[k])
  }

  lemma ScannedStep(current: seq<Entry>, entries: seq<Entry>, i: nat, process: (string, string) -> bool)
    requires Scanned(current, entries, i, process) && i < |entries|
    ensures Scanned(current[i := ScanFolder(entries[i], process)], entries, i + 1, process)
  {
  }

  lemma ProcessFolderStep(folder: string, es: seq<Entry>, files: seq<string>, j: nat, process: (string, string) -> bool)
    requires j < |files| && forall k :: 0 <= k < |files| ==> files[k] != "sent"
    ensures ProcessFolder(folder, es, files[..j + 1], process) == FolderStep(folder, ProcessFolder(folder, es, files[..j], process), files[j], process)
  {
    assert files[..j + 1][..j] == files[..j];
  }

  // ---- the watcher ------------------------------------------------------------------

  const DefaultIntervalMs := 1000

  class TemplateWatcher {
    var isScanning: bool
    var timer: Option<nat>
    /** The intervals the runtime has scheduled: handle to period. */
    var intervals: map<nat, nat>
    const disk: Disk

    ghost predicate Valid()
      reads this, disk
    {
      disk.Valid()
    }

    /** A new watcher is idle and has no timer. */
    constructor(disk: Disk)
      requires disk.Valid()
      ensures Valid() && !isScanning && timer == None && intervals == map[] && this.disk == disk
    {
      isScanning := false;
      timer := None;
      intervals := map[];
      this.disk := disk;
    }

    /** `startWatching(intervalMs)`: schedules a scan every `intervalMs` under the fresh handle `handle` and keeps that handle. */
    method StartWatching(intervalMs: nat, handle: nat)
      requires handle !in intervals
      modifies this
      ensures timer == Some(handle) && intervals == old(intervals)[handle := intervalMs]
      ensures isScanning == old(isScanning)
    {
      intervals := intervals[handle := intervalMs];
      timer := Some(handle);
    }

    /** `stopWatching()`: cancels the kept interval, if there is one; `timer` and `isScanning` stay as they are. */
    method StopWatching()
      modifies this
      ensures timer == old(timer) && isScanning == old(isScanning)
      ensures old(timer).Some? ==> intervals == old(intervals) - {old(timer).value}
      ensures old(timer).None? ==> intervals == old(intervals)
    {
      if timer.Some? {
        intervals := intervals - {timer.value};
      }
    }

    /**
     * `scanPublicFolder()`: skipped while a scan is running; otherwise a run over
     * every entry of `public/`, in listing order, that always ends with the flag
     * cleared. `attempts` lists the calls of `processExcelAndSendSMS`.
     */
    method ScanPublicFolder(process: (string, string) -> bool) returns (attempts: seq<(string, string)>)
      requires Valid()
      modifies this, disk
      ensures Valid() && timer == old(timer) && intervals == old(intervals)
      ensures old(isScanning) ==> isScanning && disk.public == old(disk.public) && attempts == []
      ensures !old(isScanning) ==> !isScanning
      ensures !old(isScanning) && old(disk.public).None? ==> disk.public == None && attempts == []
      ensures !old(isScanning) && old(disk.public).Some? ==>
        disk.public == Some(Tick(old(disk.public.value), process)) && attempts == TickAttempts(old(disk.public.value))
    {
      if isScanning {
        return [];
      }
      isScanning := true;
      attempts := [];
      if disk.public.None? {
        isScanning := false;
        return;
      }
      var entries := disk.public.value;
      var i := 0;
      while i < |entries|
        invariant i <= |entries| && isScanning && timer == old(timer) && intervals == old(intervals)
        invariant disk.Valid() && disk.public.Some? && Scanned(disk.public.value, entries, i, process)
        invariant attempts == AttemptsUpTo(entries, i)
      {
        var dirent := entries[i];
        ScannedStep(disk.public.value, entries, i, process);
        if IsTemplateFolder(dirent) {
          var tried := ScanTemplateFolder(i, process);
          attempts := attempts + tried;
        } else {
          assert disk.public.value[i := ScanFolder(dirent, process)] == disk.public.value;
          assert attempts + [] == attempts;
        }
        i := i + 1;
      }
      assert disk.public.value == Tick(entries, process);
      isScanning := false;
    }

    /** The inner loop: every Excel file of the template folder at position `i`, in listing order; a failure on one does not stop the next. */
    method ScanTemplateFolder(i: nat, process: (string, string) -> bool) returns (tried: seq<(string, string)>)
      requires disk.Valid() && disk.public.Some? && i < |disk.public.value| && IsTemplateFolder(disk.public.value[i])
      modifies disk
      ensures disk.Valid() && disk.public.Some?
      ensures disk.public.value == old(disk.public.value)[i := ScanFolder(old(disk.public.value)[i], process)]
      ensures tried == FolderAttempts(old(disk.public.value)[i])
    {
      var folder := disk.public.value[i];
      var folderName := folder.name;
      var files := ExcelFiles(Names(folder.entries));
      ExcelFilesNotSent(Names(folder.entries));
      assert WellFormed(folder.entries);
      tried := [];
      var current := folder.entries;
      var j := 0;
      while j < |files|
        invariant j <= |files|
        invariant current == ProcessFolder(folderName, folder.entries, files[..j], process)
        invariant WellFormed(current)
        invariant disk.Valid() && disk.public.Some?
        invariant disk.public.value == old(disk.public.value)[i := DirEntry(folderName, current)]
        invariant tried == Calls(folderName, files[..j])
      {
        var excelFileName := files[j];
        assert excelFileName != "sent";
        ProcessFolderStep(folderName, folder.entries, files, j, process);
        CallsStep(folderName, files, j);
        tried := tried + [(folderName, excelFileName)];
        ghost var before := disk.public.value;
        current := TakeFile(i, folderName, current, excelFileName, process);
        assert disk.public.value == before[i := DirEntry(folderName, current)];
        j := j + 1;
      }
      assert files[..j] == files;
    }

    /** One Excel file: handed to the template service, then renamed into `sent/` when that returned; a rename that throws is logged and the file stays. */
    method TakeFile(i: nat, folderName: string, current: seq<Entry>, f: string, process: (string, string) -> bool)
      returns (next: seq<Entry>)
      requires disk.Valid() && disk.public.Some? && i < |disk.public.value|
      requires disk.public.value[i] == DirEntry(folderName, current) && f != "sent"
      modifies disk
      ensures next == FolderStep(folderName, current, f, process) && WellFormed(next)
      ensures disk.Valid() && disk.public == Some(old(disk.public.value)[i := DirEntry(folderName, next)])
    {
      assert WellFormed(current);
      next := current;
      if process(folderName, f) {
        var moved := MoveToSent(current, f);
        if moved.Some? {
          MoveKeepsWellFormed(current, f);
          WellFormedReplace(disk.public.value, i, DirEntry(folderName, moved.value));
          disk.public := Some(disk.public.value[i := DirEntry(folderName, moved.value)]);
          next := moved.value;
          return;
        }
      }
      assert disk.public.value == disk.public.value[i := DirEntry(folderName, next)];
    }
  }

  lemma {:induction false} MoveKeepsWellFormed(es: seq<Entry>, f: string)
    requires f != "sent" && WellFormed(es) && MoveToSent(es, f).Some?
    ensures WellFormed(MoveToSent(es, f).value)
  {
    var src := Lookup(es, f).value;
    var sent := Lookup(es, "sent").value;
    var a := Find(es, f).value;
    var b := Find(es, "sent").value;
    assert es[a] == src && es[b] == sent;
    WellFormedPut(sent.entries, src);
    WellFormedWithout(es, f);
    WellFormedPut(Without(es, f), DirEntry("sent", Put(sent.entries, src)));
  }

  // ---- properties -------------------------------------------------------------------

  /**
   * An entry of a template folder other than `sent` is left exactly as it was
   * unless it is one of the files taken and its processing returned: in particular
   * a file whose processing threw stays in place, and non-Excel entries are never moved.
   */
  lemma {:induction false} UntouchedUnlessProcessed(folder: string, es: seq<Entry>, files: seq<string>,
                                                    process: (string, string) -> bool, n: string)
    requires forall k :: 0 <= k < |files| ==> files[k] != "sent"
    requires n != "sent"
    requires forall k :: 0 <= k < |files| && files[k] == n ==> !process(folder, n)
    ensures Lookup(ProcessFolder(folder, es, files, process), n) == Lookup(es, n)
  {
    if files != [] {
      var init := files[..|files| - 1];
      UntouchedUnlessProcessed(folder, es, init, process, n);
    }
  }

  /** The folder keeps its `sent` through a tick. */
  lemma {:induction false} SentKept(folder: string, es: seq<Entry>, files: seq<string>, process: (string, string) -> bool)
    requires forall k :: 0 <= k < |files| ==> files[k] != "sent"
    requires Has(es, "sent")
    ensures Has(ProcessFolder(folder, es, files, process), "sent")
  {
    if files != [] {
      SentKept(folder, es, files[..|files| - 1], process);
    }
  }

  /** An Excel file whose processing threw is still in its folder after the tick, and is picked up again by the next one. */
  lemma FailedFileRetried(e: Entry, f: string, process: (string, string) -> bool)
    requires IsTemplateFolder(e) && f in ExcelFiles(Names(e.entries)) && !process(e.name, f)
    ensures Lookup(ScanFolder(e, process).entries, f) == Lookup(e.entries, f)
    ensures IsTemplateFolder(ScanFolder(e, process))
    ensures f in ExcelFiles(Names(ScanFolder(e, process).entries))
  {
    var files := ExcelFiles(Names(e.entries));
    ExcelFilesNotSent(Names(e.entries));
    UntouchedUnlessProcessed(e.name, e.entries, files, process, f);
    SentKept(e.name, e.entries, files, process);
    var after := ScanFolder(e, process).entries;
    var idx := Find(after, f).value;
    assert Names(after)[idx] == f;
  }

  /** A file leaves its folder only when its processing returned. */
  lemma MovedOnlyAfterSuccess(e: Entry, f: string, process: (string, string) -> bool)
    requires IsTemplateFolder(e) && f in ExcelFiles(Names(e.entries))
    requires !Has(ScanFolder(e, process).entries, f)
    ensures process(e.name, f)
  {
    if !process(e.name, f) {
      FailedFileRetried(e, f, process);
    }
  }

  /** A file that is processed and renamed lands in `sent/` unchanged. */
  lemma MovedIntoSent(folder: string, es: seq<Entry>, f: string, process: (string, string) -> bool)
    requires f != "sent" && process(folder, f) && MoveToSent(es, f).Some?
    ensures var r := FolderStep(folder, es, f, process);
      !Has(r, f) && Lookup(r, "sent").Some? && Lookup(r, "sent").value.DirEntry?
      && Lookup(Lookup(r, "sent").value.entries, f) == Lookup(es, f)
  {
  }

  /** Entries of `public/` that are not template folders come through a tick unchanged. */
  lemma OtherEntriesUntouched(public: seq<Entry>, process: (string, string) -> bool, k: nat)
    requires k < |public| && !IsTemplateFolder(public[k])
    ensures Tick(public, process)[k] == public[k]
  {
  }

  /** `public/` entry `e` is a template folder called `folder` holding the Excel file `f`. */
  predicate HoldsExcel(e: Entry, folder: string, f: string) {
    IsTemplateFolder(e) && e.name == folder && f in ExcelFiles(Names(e.entries))
  }

  /** A folder asks for `(folder, f)` exactly when it is the template folder `folder` holding the Excel file `f`. */
  lemma FolderAttemptsIff(e: Entry, folder: string, f: string)
    ensures (folder, f) in FolderAttempts(e) <==> HoldsExcel(e, folder, f)
  {
    var last := FolderAttempts(e);
    if HoldsExcel(e, folder, f) {
      var files := ExcelFiles(Names(e.entries));
      var idx :| 0 <= idx < |files| && files[idx] == f;
      assert last[idx] == (folder, f);
    }
  }

  /** The calls of a tick: `(folder, f)` is attempted exactly when `f` is an Excel name in a template folder `folder`. */
  lemma AttemptedIff(public: seq<Entry>, folder: string, f: string)
    ensures (folder, f) in TickAttempts(public) <==> exists k :: 0 <= k < |public| && HoldsExcel(public[k], folder, f)
  {
    if (folder, f) in TickAttempts(public) {
      var k := ConcatSource(public, FolderAttempts, |public|, (folder, f));
      FolderAttemptsIff(public[k], folder, f);
    }
    if exists k :: 0 <= k < |public| && HoldsExcel(public[k], folder, f) {
      var k :| 0 <= k < |public| && HoldsExcel(public[k], folder, f);
      FolderAttemptsIff(public[k], folder, f);
      ConcatHas(public, FolderAttempts, |public|, k, (folder, f));
    }
  }
}
