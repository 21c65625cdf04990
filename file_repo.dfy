/**
 * `FileUploadRepo`: stores an uploaded file under `src/public/files` with a
 * sanitised, collision-free name and records it; `findFileById` reads it back.
 * The disk is the map `disk` from the paths the upload code builds to file contents.
 */
module FileRepo {
  import opened Wrappers
  import opened Strings
  import opened Errors
  import opened Delivery
  import Folders

  // ---- the file name sanitiser ------------------------------------------------------

  /** The class `[a-zA-Zа-яА-ЯёЁ0-9]` the sanitiser keeps. */
  predicate Allowed(c: char) {
    ('a' <= c <= 'z') || ('A' <= c <= 'Z') || ('\U{0430}' <= c <= '\U{044F}') || ('\U{0410}' <= c <= '\U{042F}')
    || c == '\U{0451}' || c == '\U{0401}' || ('0' <= c <= '9')
  }

  predicate Disallowed(c: char) {
    !Allowed(c)
  }

  lemma AllowedIsNotSpace(c: char)
    requires Allowed(c)
    ensures !IsSpace(c)
  {
  }

  /** `s` with its leading run of `inRun` characters removed. */
  function DropRun(s: string, inRun: char -> bool): (r: string)
    ensures |r| <= |s| && r == s[|s| - |r|..]
    ensures r == [] || !inRun(r[0])
    ensures forall i :: 0 <= i < |s| - |r| ==> inRun(s[i])
  {
    if s != [] && inRun(s[0]) then
      var r := DropRun(s[1..], inRun);
      assert forall i :: 1 <= i < |s| - |r| ==> s[i] == s[1..][i - 1];
      r
    else s
  }

  /** `s.replace(/[class]+/g, sub)`: every maximal run of characters of the class becomes the one character `sub`. */
  function ReplaceRuns(s: string, inRun: char -> bool, sub: char): string
    decreases |s|
  {
    if s == [] then []
    else if inRun(s[0]) then [sub] + ReplaceRuns(DropRun(s, inRun), inRun, sub)
    else [s[0]] + ReplaceRuns(s[1..], inRun, sub)
  }

  /** No two characters of the class are adjacent in `s`. */
  predicate Isolated(s: string, inRun: char -> bool) {
    forall i :: 0 <= i < |s| - 1 ==> !(inRun(s[i]) && inRun(s[i + 1]))
  }

  /** Character by character substitution of `sub` for the characters of the class. */
  function Subst(s: string, inRun: char -> bool, sub: char): (r: string)
    ensures |r| == |s| && forall i :: 0 <= i < |s| ==> r[i] == if inRun(s[i]) then sub else s[i]
  {
    seq(|s|, i requires 0 <= i < |s| => if inRun(s[i]) then sub else s[i])
  }

  /** After the replacement every character is `sub` or outside the class, and no two class characters are adjacent. */
  lemma {:induction false} ReplaceRunsShape(s: string, inRun: char -> bool, sub: char)
    ensures var r := ReplaceRuns(s, inRun, sub);
      (forall i :: 0 <= i < |r| ==> r[i] == sub || !inRun(r[i])) && Isolated(r, inRun)
    decreases |s|
  {
    if s != [] {
      var rest := if inRun(s[0]) then DropRun(s, inRun) else s[1..];
      var c := if inRun(s[0]) then sub else s[0];
      ReplaceRunsShape(rest, inRun, sub);
      var r' := ReplaceRuns(rest, inRun, sub);
      var r := [c] + r';
      assert r == ReplaceRuns(s, inRun, sub);
      if r' != [] && inRun(s[0]) {
        assert r'[0] == rest[0];
      }
      forall i | 0 <= i < |r| - 1
        ensures !(inRun(r[i]) && inRun(r[i + 1]))
      {
        if i > 0 {
          assert r[i] == r'[i - 1] && r[i + 1] == r'[i];
        }
      }
      forall i | 0 <= i < |r|
        ensures r[i] == sub || !inRun(r[i])
      {
        if i > 0 {
          assert r[i] == r'[i - 1];
        }
      }
    }
  }

  /** Where the class characters are isolated, replacing runs is replacing characters. */
  lemma {:induction false} ReplaceIsolated(s: string, inRun: char -> bool, sub: char)
    requires Isolated(s, inRun)
    ensures ReplaceRuns(s, inRun, sub) == Subst(s, inRun, sub)
    decreases |s|
  {
    if s != [] {
      assert Isolated(s[1..], inRun) by {
        forall i | 0 <= i < |s[1..]| - 1
          ensures !(inRun(s[1..][i]) && inRun(s[1..][i + 1]))
        {
          assert s[1..][i] == s[i + 1] && s[1..][i + 1] == s[i + 2];
        }
      }
      ReplaceIsolated(s[1..], inRun, sub);
      if inRun(s[0]) {
        assert DropRun(s[1..], inRun) == s[1..];
      }
      assert Subst(s, inRun, sub) == [if inRun(s[0]) then sub else s[0]] + Subst(s[1..], inRun, sub);
    }
  }

  /** A sanitised name: kept characters and '-', with no '-' at either end and no "--". */
  predicate Clean(t: string) {
    (forall i :: 0 <= i < |t| ==> Allowed(t[i]) || t[i] == '-')
    && (t != [] ==> t[0] != '-' && t[|t| - 1] != '-')
    && (forall i :: 0 <= i < |t| - 1 ==> !(t[i] == '-' && t[i + 1] == '-'))
  }

  /** Every run of disallowed characters becomes a space; the result is trimmed and every run of white space becomes '-'. */
  function Sanitise(base: string): (r: string)
    ensures Clean(r)
  {
    var spaced := ReplaceRuns(base, Disallowed, ' ');
    ReplaceRunsShape(base, Disallowed, ' ');
    var trimmed := Trim(spaced);
    var r := ReplaceRuns(trimmed, IsSpace, '-');
    SanitiseIsClean(spaced, trimmed, r);
    r
  }

  lemma SanitiseIsClean(spaced: string, trimmed: string, r: string)
    requires (forall i :: 0 <= i < |spaced| ==> spaced[i] == ' ' || Allowed(spaced[i])) && Isolated(spaced, Disallowed)
    requires trimmed == Trim(spaced) && r == ReplaceRuns(trimmed, IsSpace, '-')
    ensures Clean(r)
  {
    var a, b := TrimIsInfix(spaced);
    forall i | 0 <= i < |trimmed|
      ensures trimmed[i] == spaced[a + i] && (trimmed[i] == ' ' || Allowed(trimmed[i]))
      ensures IsSpace(trimmed[i]) <==> trimmed[i] == ' '
    {
      if trimmed[i] != ' ' {
        AllowedIsNotSpace(trimmed[i]);
      }
    }
    assert Isolated(trimmed, IsSpace) by {
      forall i | 0 <= i < |trimmed| - 1
        ensures !(IsSpace(trimmed[i]) && IsSpace(trimmed[i + 1]))
      {
        assert trimmed[i + 1] == spaced[a + i + 1];
      }
    }
    ReplaceIsolated(trimmed, IsSpace, '-');
    DashedIsClean(trimmed);
  }

  /** A trimmed text of kept characters and single spaces becomes clean when its spaces become '-'. */
  lemma DashedIsClean(t: string)
    requires forall i :: 0 <= i < |t| ==> t[i] == ' ' || Allowed(t[i])
    requires Isolated(t, IsSpace) && Trimmed(t)
    ensures Clean(Subst(t, IsSpace, '-'))
  {
    var r := Subst(t, IsSpace, '-');
    forall i | 0 <= i < |t|
      ensures r[i] == '-' <==> t[i] == ' '
      ensures Allowed(r[i]) || r[i] == '-'
    {
      if t[i] != ' ' {
        AllowedIsNotSpace(t[i]);
      }
    }
  }

  /** A clean name is left as it is: '-' is itself disallowed, becomes a space and turns back into '-'. */
  lemma CleanIsFixpoint(t: string)
    requires Clean(t)
    ensures Sanitise(t) == t
  {
    var u := Subst(t, Disallowed, ' ');
    CleanSpaced(t);
    ReplaceIsolated(t, Disallowed, ' ');
    TrimmedIsFixpoint(u);
    ReplaceIsolated(u, IsSpace, '-');
  }

  /** In a clean name the disallowed characters are exactly its isolated '-', and they become the isolated spaces of a trimmed text. */
  lemma CleanSpaced(t: string)
    requires Clean(t)
    ensures Isolated(t, Disallowed)
    ensures var u := Subst(t, Disallowed, ' ');
      Trimmed(u) && Isolated(u, IsSpace) && Subst(u, IsSpace, '-') == t
  {
    forall i | 0 <= i < |t|
      ensures Disallowed(t[i]) <==> t[i] == '-'
      ensures !IsSpace(t[i])
    {
      if t[i] != '-' {
        AllowedIsNotSpace(t[i]);
      }
    }
    var u := Subst(t, Disallowed, ' ');
    forall i | 0 <= i < |u|
      ensures IsSpace(u[i]) <==> t[i] == '-'
    {
    }
    var v := Subst(u, IsSpace, '-');
    assert forall i :: 0 <= i < |t| ==> v[i] == t[i];
  }

  /** Sanitising twice is sanitising once. */
  lemma SanitiseIdempotent(base: string)
    ensures Sanitise(Sanitise(base)) == Sanitise(base)
  {
    CleanIsFixpoint(Sanitise(base));
  }

  // ---- base name and extension ------------------------------------------------------

  /** The index of the last '.' of `s`. */
  function LastDot(s: string): (r: Option<nat>)
    ensures r.Some? ==> r.value < |s| && s[r.value] == '.' && forall i :: r.value < i < |s| ==> s[i] != '.'
    ensures r.None? ==> forall i :: 0 <= i < |s| ==> s[i] != '.'
  {
    if s == [] then None
    else if s[|s| - 1] == '.' then Some(|s| - 1)
    else LastDot(s[..|s| - 1])
  }

  /**
   * `path.extname(name)` of a name without directory part: from the last '.' on,
   * except when there is no '.', when the last '.' is the first character, or for "..".
   */
  function ExtName(name: string): (ext: string)
    ensures ext == "" || (EndsWith(name, ext) && |ext| < |name|)
    ensures ext != "" ==> ext[0] == '.' && forall i :: 1 <= i < |ext| ==> ext[i] != '.'
    ensures ext == "" <==> (forall i :: 0 < i < |name| ==> name[i] != '.') || name == ".."
  {
    match LastDot(name)
    case None => ""
    case Some(d) => if d == 0 || name == ".." then "" else name[d..]
  }

  /** `path.basename(name, ext)`: the name without its extension. */
  function BaseName(name: string): (base: string)
    ensures base + ExtName(name) == name
  {
    name[..|name| - |ExtName(name)|]
  }

  // ---- the collision-free name --------------------------------------------------------

  /** The `k`-th name tried: `base + ext`, then `base-1 + ext`, `base-2 + ext`, ... */
  function Candidate(base: string, ext: string, k: nat): string {
    if k == 0 then base + ext else base + "-" + NatToString(k) + ext
  }

  /** Different attempts try different names. */
  lemma CandidateInjective(base: string, ext: string, j: nat, k: nat)
    requires Candidate(base, ext, j) == Candidate(base, ext, k)
    ensures j == k
  {
    if j > 0 && k > 0 {
      var x := Candidate(base, ext, j);
      var lo := |base| + 1;
      assert |NatToString(j)| == |NatToString(k)|;
      assert x[lo..lo + |NatToString(j)|] == NatToString(j);
      assert Candidate(base, ext, k)[lo..lo + |NatToString(k)|] == NatToString(k);
      NatToStringInjective(j, k);
    }
  }

  /**
   * A path the upload code builds, after `path.join` normalises it: an entry of
   * `src/public/files`, or an entry of `src/public` beside that directory.
   */
  datatype Location = InFiles(name: string) | Beside(name: string)

  /** `src/public/files` itself, which exists. */
  const FilesDir := Beside("files")

  /** `path.join(filesDir, name)` for a name with no '/': "" and "." resolve to the directory itself. */
  function JoinFiles(name: string): (l: Location)
    ensures l == FilesDir <==> name == "" || name == "."
  {
    if name == "" || name == "." then FilesDir else InFiles(name)
  }

  /** A template literal `${path}${suffix}`: the text runs on in the last component of the path. */
  function Extended(l: Location, suffix: string): Location {
    match l
    case InFiles(n) => InFiles(n + suffix)
    case Beside(n) => Beside(n + suffix)
  }

  /**
   * The path the `k`-th attempt checks and writes: `base + ext` joined to the
   * directory, then `baseFilePath-k + ext`, where `baseFilePath` is `base` joined
   * to the directory.
   */
  function Loc(base: string, ext: string, k: nat): Location {
    if k == 0 then JoinFiles(base + ext) else Extended(JoinFiles(base), "-" + NatToString(k) + ext)
  }

  /**
   * The path of an attempt against the name the record keeps: the same name in the
   * files directory, except that for an empty base the later attempts write
   * `files-k + ext` into `src/public`, and the record's `-k + ext` names nothing there.
   */
  lemma LocNamesCandidate(base: string, ext: string, k: nat)
    requires Clean(base) && Loc(base, ext, k) != FilesDir
    ensures Candidate(base, ext, k) != "" && Candidate(base, ext, k) != "."
    ensures base != "" || k == 0 ==> Loc(base, ext, k) == InFiles(Candidate(base, ext, k))
    ensures base == "" && k > 0 ==> Loc(base, ext, k) == Beside("files" + Candidate(base, ext, k))
  {
    if base != "" {
      assert !Allowed('.');
      assert base != ".";
      LocOfNamedBase(base, ext, k);
    } else {
      LocOfEmptyBase(ext, k);
    }
  }

  lemma LocOfNamedBase(base: string, ext: string, k: nat)
    requires base != "" && base != "."
    ensures Loc(base, ext, k) == InFiles(Candidate(base, ext, k))
    ensures Candidate(base, ext, k) != "" && Candidate(base, ext, k) != "."
  {
    if k == 0 {
      assert |base + ext| > 1 || base + ext == base;
    } else {
      var suffix := "-" + NatToString(k) + ext;
      assert Candidate(base, ext, k) == base + suffix;
      assert |base + suffix| > 1;
    }
  }

  lemma LocOfEmptyBase(ext: string, k: nat)
    requires Loc("", ext, k) != FilesDir
    ensures Candidate("", ext, k) != "" && Candidate("", ext, k) != "."
    ensures k == 0 ==> Loc("", ext, k) == InFiles(Candidate("", ext, k))
    ensures k > 0 ==> Loc("", ext, k) == Beside("files" + Candidate("", ext, k))
  {
    if k == 0 {
      assert Candidate("", ext, k) == ext;
    } else {
      var suffix := "-" + NatToString(k) + ext;
      assert Candidate("", ext, k) == suffix && suffix[0] == '-';
    }
  }

  /** A file named "!!!.pdf" whose first path is taken is written to `src/public/files-1.pdf` and recorded as `-1.pdf`. */
  lemma EmptyBaseWritesBeside()
    ensures Sanitise(BaseName("!!!.pdf")) == "" && ExtName("!!!.pdf") == ".pdf"
    ensures Loc("", ".pdf", 1) == Beside("files-1.pdf") && Candidate("", ".pdf", 1) == "-1.pdf"
  {
    SymbolsBeforeDot();
    SymbolsSanitiseToEmpty();
    SecondAttemptOfEmptyBase();
  }

  lemma SecondAttemptOfEmptyBase()
    ensures Loc("", ".pdf", 1) == Beside("files-1.pdf") && Candidate("", ".pdf", 1) == "-1.pdf"
  {
    var one := NatToString(1);
    assert one == "1";
    assert Candidate("", ".pdf", 1) == "-" + one + ".pdf";
    assert Loc("", ".pdf", 1) == Extended(FilesDir, "-" + one + ".pdf");
  }

  lemma SymbolsBeforeDot()
    ensures ExtName("!!!.pdf") == ".pdf" && BaseName("!!!.pdf") == "!!!"
  {
    var name := "!!!.pdf";
    var a, b, c := name[..6], name[..5], name[..4];
    assert a == "!!!.pd" && b == "!!!.p" && c == "!!!.";
    assert c[3] == '.' && LastDot(c) == Some(3);
    assert b[4] != '.' && b[..4] == c && LastDot(b) == Some(3);
    assert a[5] != '.' && a[..5] == b && LastDot(a) == Some(3);
    assert name[6] != '.' && LastDot(name) == Some(3);
    assert name[3..] == ".pdf";
    assert name[..3] == "!!!";
  }

  lemma SymbolsSanitiseToEmpty()
    ensures Sanitise("!!!") == ""
  {
    assert DropRun("!!!"[2..], Disallowed) == "";
    assert DropRun("!!!", Disallowed) == "";
    assert ReplaceRuns("!!!", Disallowed, ' ') == " ";
    assert TrimStart(" ") == "";
    assert Trim(" ") == "";
  }

  /** Different attempts try different paths. */
  lemma LocInjective(base: string, ext: string, j: nat, k: nat)
    requires Loc(base, ext, j) == Loc(base, ext, k)
    ensures j == k
  {
    if j > 0 && k > 0 {
      LaterLocInjective(base, ext, j, k);
    } else if j == 0 && k > 0 {
      LocZeroIsNotLater(base, ext, k);
    } else if j > 0 && k == 0 {
      LocZeroIsNotLater(base, ext, j);
    }
  }

  lemma LaterLocInjective(base: string, ext: string, j: nat, k: nat)
    requires j > 0 && k > 0 && Loc(base, ext, j) == Loc(base, ext, k)
    ensures j == k
  {
    var n := JoinFiles(base).name;
    var sj := "-" + NatToString(j) + ext;
    var sk := "-" + NatToString(k) + ext;
    assert Extended(JoinFiles(base), sj) == Extended(JoinFiles(base), sk);
    assert n + sj == n + sk;
    assert sj == (n + sj)[|n|..] && sk == (n + sk)[|n|..];
    SuffixedNumbers(NatToString(j), NatToString(k), ext);
    NatToStringInjective(j, k);
  }

  lemma SuffixedNumbers(a: string, b: string, ext: string)
    requires "-" + a + ext == "-" + b + ext
    ensures a == b
  {
    var x := "-" + a + ext;
    assert |a| == |b|;
    assert a == x[1..1 + |a|];
    assert b == ("-" + b + ext)[1..1 + |b|];
  }

  lemma LocZeroIsNotLater(base: string, ext: string, k: nat)
    requires k > 0
    ensures Loc(base, ext, 0) != Loc(base, ext, k)
  {
    var sk := "-" + NatToString(k) + ext;
    if JoinFiles(base) == FilesDir {
      assert Loc(base, ext, k) == Beside("files" + sk);
      assert |"files" + sk| > |"files"|;
    } else {
      assert Loc(base, ext, k) == InFiles(base + sk);
      assert |base + sk| > |base + ext|;
    }
  }

  /** The paths of the first `m` attempts. */
  function Locations(base: string, ext: string, m: nat): (c: set<Location>)
    ensures forall k :: 0 <= k < m ==> Loc(base, ext, k) in c
  {
    if m == 0 then {} else Locations(base, ext, m - 1) + {Loc(base, ext, m - 1)}
  }

  /** The first `m` attempts try `m` different paths. */
  lemma {:induction false} LocationsCount(base: string, ext: string, m: nat)
    ensures |Locations(base, ext, m)| == m
    ensures forall x :: x in Locations(base, ext, m) ==> exists k :: 0 <= k < m && x == Loc(base, ext, k)
  {
    if m > 0 {
      LocationsCount(base, ext, m - 1);
      var c := Locations(base, ext, m - 1);
      if Loc(base, ext, m - 1) in c {
        var k :| 0 <= k < m - 1 && Loc(base, ext, m - 1) == Loc(base, ext, k);
        LocInjective(base, ext, m - 1, k);
      }
    }
  }

  /** `fs.existsSync(path)`: a file on the disk, or the files directory itself. */
  predicate Taken(disk: set<Location>, l: Location) {
    l == FilesDir || l in disk
  }

  /** A disk holds only so many files: at most that many attempts can fail. */
  lemma {:induction false} FailedAttemptsBound(disk: set<Location>, base: string, ext: string, m: nat)
    requires forall k :: 0 <= k < m ==> Taken(disk, Loc(base, ext, k))
    ensures m <= |disk| + 1
  {
    var c := Locations(base, ext, m);
    LocationsCount(base, ext, m);
    var room := disk + {FilesDir};
    assert c <= room;
    SubsetSize(c, room);
  }

  lemma {:induction false} SubsetSize<T>(a: set<T>, b: set<T>)
    requires a <= b
    ensures |a| <= |b|
    decreases |a|
  {
    if a != {} {
      var x :| x in a;
      SubsetSize(a - {x}, b - {x});
    }
  }

  /**
   * The `while (fs.existsSync(filePath))` loop of `upload`: the first path of the
   * sequence that is not taken, with the name `fullNameFile` the loop keeps beside it.
   */
  method UniqueName(disk: set<Location>, base: string, ext: string) returns (filePath: Location, fullName: string, attempts: nat)
    ensures filePath == Loc(base, ext, attempts) && !Taken(disk, filePath)
    ensures fullName == Candidate(base, ext, attempts)
    ensures forall k :: 0 <= k < attempts ==> Taken(disk, Loc(base, ext, k))
  {
    filePath := JoinFiles(base + ext);
    fullName := base + ext;
    var baseFilePath := JoinFiles(base);
    var counter := 1;
    while Taken(disk, filePath)
      invariant 1 <= counter && filePath == Loc(base, ext, counter - 1) && fullName == Candidate(base, ext, counter - 1)
      invariant forall k :: 0 <= k < counter - 1 ==> Taken(disk, Loc(base, ext, k))
      decreases |disk| + 1 - (counter - 1)
    {
      FailedAttemptsBound(disk, base, ext, counter);
      fullName := base + "-" + NatToString(counter) + ext;
      filePath := Extended(baseFilePath, "-" + NatToString(counter) + ext);
      counter := counter + 1;
    }
    attempts := counter - 1;
  }

  /** The chosen path is the same whatever way it is found: a path that is free and follows only taken ones is the one the loop picks. */
  lemma {:induction false} UniqueNameIsFirstFree(disk: set<Location>, base: string, ext: string, a: nat, b: nat)
    requires !Taken(disk, Loc(base, ext, a)) && forall k :: 0 <= k < a ==> Taken(disk, Loc(base, ext, k))
    requires !Taken(disk, Loc(base, ext, b)) && forall k :: 0 <= k < b ==> Taken(disk, Loc(base, ext, k))
    ensures a == b
  {
  }

  // ---- the content type -----------------------------------------------------------------

  const WordTypes := ["application/msword", "application/vnd.openxmlformats-officedocument.wordprocessingml.document"]
  const ExcelTypes := ["application/vnd.ms-excel", "application/vnd.openxmlformats-officedocument.spreadsheetml.sheet"]
  const PowerPointTypes := ["application/vnd.ms-powerpoint", "application/vnd.openxmlformats-officedocument.presentationml.presentation"]
  const PdfType := "application/pdf"

  /** The label stored for a mimetype: the four known families by name, anything else unchanged. */
  function ContentType(mimetype: string): (kind: string)
    ensures mimetype in WordTypes ==> kind == "Word"
    ensures mimetype in ExcelTypes ==> kind == "Excel"
    ensures mimetype in PowerPointTypes ==> kind == "PowerPoint"
    ensures mimetype == PdfType ==> kind == "PDF"
    ensures mimetype !in WordTypes + ExcelTypes + PowerPointTypes + [PdfType] ==> kind == mimetype
  {
    if mimetype in WordTypes then "Word"
    else if mimetype in ExcelTypes then "Excel"
    else if mimetype in PowerPointTypes then "PowerPoint"
    else if mimetype == PdfType then "PDF"
    else mimetype
  }

  /** A label is never mapped again: applying the mapping to its result changes nothing. */
  lemma ContentTypeIdempotent(mimetype: string)
    ensures ContentType(ContentType(mimetype)) == ContentType(mimetype)
  {
  }

  /** A known mimetype never reaches the record as it is. */
  lemma KnownTypesAreRenamed(mimetype: string)
    requires mimetype in WordTypes + ExcelTypes + PowerPointTypes + [PdfType]
    ensures ContentType(mimetype) != mimetype && ContentType(mimetype) in ["Word", "Excel", "PowerPoint", "PDF"]
  {
  }

  // ---- the store ------------------------------------------------------------------------

  type Bytes = seq<bv8>

  /** The uploaded file: its client-side name (with no directory part), mimetype and contents. */
  datatype UploadedFile = UploadedFile(name: string, mimetype: string, data: Bytes)

  /** A row of the `files` table; the size fields are left out. */
  datatype FileRecord = FileRecord(file_name: string, file_path: string, content_type: string, extension: string)

  const FilesUrl := "/public/files/"

  /** The record `upload` writes for the file stored under `fullName`. */
  function RecordFor(file: UploadedFile, fullName: string): (rec: FileRecord)
    ensures rec.file_name == Sanitise(BaseName(file.name)) && rec.extension == ExtName(file.name)
    ensures rec.file_path == FilesUrl + fullName && rec.content_type == ContentType(file.mimetype)
  {
    FileRecord(Sanitise(BaseName(file.name)), FilesUrl + fullName, ContentType(file.mimetype), ExtName(file.name))
  }

  /** The name in the files directory a record points to. */
  function StoredName(rec: FileRecord): string
    requires StartsWith(rec.file_path, FilesUrl)
  {
    rec.file_path[|FilesUrl|..]
  }

  /**
   * Every record points at a file of the files directory, not at the directory
   * itself; its contents were written there or, for an empty base name, beside it.
   */
  ghost predicate StoreValid(disk: map<Location, Bytes>, records: map<Id, FileRecord>, nextId: Id) {
    forall id :: id in records ==>
      id < nextId && StartsWith(records[id].file_path, FilesUrl)
      && StoredName(records[id]) != "" && StoredName(records[id]) != "."
      && (InFiles(StoredName(records[id])) in disk || Beside("files" + StoredName(records[id])) in disk)
  }

  /** Writing a new file and a record that points at it, under the next id, keeps the store valid. */
  lemma RecordKeepsValid(disk: map<Location, Bytes>, records: map<Id, FileRecord>, nextId: Id,
                         l: Location, data: Bytes, rec: FileRecord)
    requires StoreValid(disk, records, nextId)
    requires StartsWith(rec.file_path, FilesUrl) && StoredName(rec) != "" && StoredName(rec) != "."
    requires l == InFiles(StoredName(rec)) || l == Beside("files" + StoredName(rec))
    ensures StoreValid(disk[l := data], records[nextId := rec], nextId + 1)
  {
  }

  /** `src/public` with its `files` directory, and the `files` table. */
  class FileStore {
    var disk: map<Location, Bytes>
    var records: map<Id, FileRecord>
    var nextId: Id

    ghost predicate Valid()
      reads this
    {
      StoreValid(disk, records, nextId)
    }

    constructor(files: map<Location, Bytes>)
      ensures Valid() && disk == files && records == map[] && nextId == 0
    {
      disk := files;
      records := map[];
      nextId := 0;
    }

    /**
     * `upload(file)`: moves the file to the first free path and records it. The
     * record reads the file back except when the sanitised base is empty and the
     * first path was taken: the file then lies beside the files directory.
     */
    method Upload(file: UploadedFile) returns (id: Id, rec: FileRecord, attempts: nat)
      requires Valid()
      modifies this
      ensures Valid()
      ensures var base := Sanitise(BaseName(file.name));
        var ext := ExtName(file.name);
        !Taken(old(disk).Keys, Loc(base, ext, attempts))
        && (forall k :: 0 <= k < attempts ==> Taken(old(disk).Keys, Loc(base, ext, k)))
        && disk == old(disk)[Loc(base, ext, attempts) := file.data]
        && rec == RecordFor(file, Candidate(base, ext, attempts))
      ensures id == old(nextId) && id !in old(records) && records == old(records)[id := rec] && nextId == old(nextId) + 1
      ensures Sanitise(BaseName(file.name)) != "" || attempts == 0 ==> FindFileById(id) == Ok(file.data)
      ensures Sanitise(BaseName(file.name)) == "" && attempts > 0 ==>
        StartsWith(rec.file_path, FilesUrl) && Beside("files" + StoredName(rec)) in disk && disk[Beside("files" + StoredName(rec))] == file.data
    {
      var baseName := BaseName(file.name);
      var extName := ExtName(file.name);
      baseName := Sanitise(baseName);
      var filePath, fullNameFile;
      filePath, fullNameFile, attempts := UniqueName(disk.Keys, baseName, extName);
      LocNamesCandidate(baseName, extName, attempts);
      rec := RecordFor(file, fullNameFile);
      assert StoredName(rec) == fullNameFile;
      RecordKeepsValid(disk, records, nextId, filePath, file.data, rec);
      disk := disk[filePath := file.data];
      id := nextId;
      records := records[id := rec];
      nextId := nextId + 1;
    }

    /**
     * `findFileById(id)`: `BadRequest` (not `NotFound`) for an unknown id; otherwise
     * `readFileSync` of the record's name in the files directory, which fails with
     * ENOENT when nothing is there.
     */
    function FindFileById(id: Id): (r: Result<Bytes, Thrown>)
      requires Valid()
      reads this
      ensures id !in records ==> r == Err(BadRequest(FileNotFoundMessage))
      ensures id in records && InFiles(StoredName(records[id])) in disk ==> r == Ok(disk[InFiles(StoredName(records[id]))])
      ensures id in records && InFiles(StoredName(records[id])) !in disk ==> r == Err(Plain(Folders.NoSuchEntry))
    {
      if id !in records then Err(BadRequest(FileNotFoundMessage))
      else if InFiles(StoredName(records[id])) in disk then Ok(disk[InFiles(StoredName(records[id]))])
      else Err(Plain(Folders.NoSuchEntry))
    }
  }

  const FileNotFoundMessage := "File not found"

  /** An unknown file is reported with status 400. */
  lemma UnknownFileIsBadRequest()
    ensures BadRequest(FileNotFoundMessage).error.statusCode == 400
  {
  }
}
