/**
 * The directory tree under `public/` that the template code reads and changes
 * with `fs.existsSync`, `readdirSync`, `mkdirSync`, `renameSync`, `rename` and
 * `rmSync`.  A directory is the sequence of its entries in listing order; the
 * tree starts at `public` itself, which may be missing.
 */
module Folders {
  import opened Wrappers

  type Bytes = seq<bv8>

  datatype Entry = FileEntry(name: string, data: Bytes) | DirEntry(name: string, entries: seq<Entry>)

  /** A name the code joins onto a path as one component; `path.join` would resolve anything else. */
  predicate IsComponent(name: string) {
    name != "" && name != "." && name != ".." && '/' !in name
  }

  function Names(es: seq<Entry>): (ns: seq<string>)
    ensures |ns| == |es| && forall i :: 0 <= i < |es| ==> ns[i] == es[i].name
  {
    seq(|es|, i requires 0 <= i < |es| => es[i].name)
  }

  /** No two entries of a directory share a name, here and in every sub-directory. */
  predicate WellFormed(es: seq<Entry>) {
    (forall i, j :: 0 <= i < j < |es| ==> es[i].name != es[j].name)
    && (forall i :: 0 <= i < |es| ==> es[i].DirEntry? ==> WellFormed(es[i].entries))
  }

  /** The position of the entry called `name`. */
  function Find(es: seq<Entry>, name: string): (r: Option<nat>)
    ensures r.Some? ==> r.value < |es| && es[r.value].name == name && forall j :: 0 <= j < r.value ==> es[j].name != name
    ensures r.None? ==> forall j :: 0 <= j < |es| ==> es[j].name != name
  {
    if es == [] then None
    else if es[0].name == name then Some(0)
    else match Find(es[1..], name)
      case None => None
      case Some(k) => Some(k + 1)
  }

  /** `fs.existsSync(dir/name)`: any kind of entry. */
  predicate Has(es: seq<Entry>, name: string) {
    Find(es, name).Some?
  }

  function Lookup(es: seq<Entry>, name: string): (r: Option<Entry>)
    ensures r.Some? <==> Has(es, name)
    ensures r.Some? ==> r.value in es && r.value.name == name
  {
    match Find(es, name)
    case None => None
    case Some(i) => Some(es[i])
  }

  /** The directory without the entry called `name` (what `rmSync` and the source side of a rename leave). */
  function Without(es: seq<Entry>, name: string): (r: seq<Entry>)
    ensures forall e :: e in r <==> e in es && e.name != name
    ensures |r| <= |es|
  {
    if es == [] then []
    else if es[0].name == name then Without(es[1..], name)
    else [es[0]] + Without(es[1..], name)
  }

  /** The directory with the entry called `e.name` replaced by `e`, or with `e` added at the end. */
  function Put(es: seq<Entry>, e: Entry): (r: seq<Entry>)
    ensures Has(r, e.name) && Lookup(r, e.name) == Some(e)
    ensures forall n :: n != e.name ==> Lookup(r, n) == Lookup(es, n)
    ensures forall n :: Has(r, n) <==> Has(es, n) || n == e.name
  {
    match Find(es, e.name)
    case None =>
      assert forall n :: Find(es + [e], n) == (if Has(es, n) then Find(es, n) else if n == e.name then Some(|es|) else None) by {
        forall n
          ensures Find(es + [e], n) == (if Has(es, n) then Find(es, n) else if n == e.name then Some(|es|) else None)
        {
          FindAppend(es, e, n);
        }
      }
      es + [e]
    case Some(i) =>
      var r := es[i := e];
      assert forall n :: n != e.name ==> Find(r, n) == Find(es, n) by {
        forall n | n != e.name
          ensures Find(r, n) == Find(es, n)
        {
          FindUpdate(es, i, e, n);
        }
      }
      FindUpdate(es, i, e, e.name);
      r
  }

  lemma {:induction false} FindAppend(es: seq<Entry>, e: Entry, n: string)
    ensures Find(es + [e], n) == if Has(es, n) then Find(es, n) else if n == e.name then Some(|es|) else None
  {
    if es != [] {
      assert (es + [e])[1..] == es[1..] + [e];
      FindAppend(es[1..], e, n);
    }
  }

  lemma {:induction false} FindUpdate(es: seq<Entry>, i: nat, e: Entry, n: string)
    requires i < |es| && es[i].name == e.name && Find(es, e.name) == Some(i)
    ensures Find(es[i := e], n) == Find(es, n)
  {
    if i > 0 {
      assert es[i := e][1..] == es[1..][i - 1 := e];
      FindUpdate(es[1..], i - 1, e, n);
    }
  }

  /** Removing an entry leaves the others to be found as before. */
  lemma {:induction false} LookupWithout(es: seq<Entry>, name: string, n: string)
    requires n != name
    ensures Lookup(Without(es, name), n) == Lookup(es, n)
  {
    if es != [] {
      LookupWithout(es[1..], name, n);
      if es[0].name != name {
        assert ([es[0]] + Without(es[1..], name))[1..] == Without(es[1..], name);
      }
    }
  }

  lemma NotHasWithout(es: seq<Entry>, name: string)
    ensures !Has(Without(es, name), name)
  {
  }

  /** The error codes Node's `fs` throws here; a thrown message is shortened to its code. */
  const NoSuchEntry := "ENOENT"
  const NotADirectory := "ENOTDIR"

  /** `dir/old` renamed to `dir/newName` in place, keeping its contents. */
  function RenameAt(es: seq<Entry>, i: nat, newName: string): (r: seq<Entry>)
    requires i < |es|
    ensures |r| == |es| && r[i].name == newName
    ensures forall j :: 0 <= j < |es| && j != i ==> r[j] == es[j]
  {
    es[i := match es[i] case FileEntry(_, d) => FileEntry(newName, d) case DirEntry(_, c) => DirEntry(newName, c)]
  }

  /** Renaming back restores the directory. */
  lemma RenameBack(es: seq<Entry>, i: nat, newName: string)
    requires i < |es|
    ensures RenameAt(RenameAt(es, i, newName), i, es[i].name) == es
  {
  }

  lemma {:induction false} WellFormedAppend(es: seq<Entry>, e: Entry)
    requires WellFormed(es) && !Has(es, e.name)
    requires e.DirEntry? ==> WellFormed(e.entries)
    ensures WellFormed(es + [e])
  {
    var r := es + [e];
    forall i | 0 <= i < |r| && r[i].DirEntry?
      ensures WellFormed(r[i].entries)
    {
      if i < |es| { assert r[i] == es[i]; }
    }
  }

  lemma {:induction false} WellFormedRename(es: seq<Entry>, i: nat, newName: string)
    requires WellFormed(es) && i < |es| && !Has(es, newName)
    ensures WellFormed(RenameAt(es, i, newName))
  {
    var r := RenameAt(es, i, newName);
    forall j | 0 <= j < |r| && r[j].DirEntry?
      ensures WellFormed(r[j].entries)
    {
      if j != i { assert r[j] == es[j]; } else { assert r[j].entries == es[j].entries; }
    }
  }

  lemma {:induction false} WellFormedReplace(es: seq<Entry>, i: nat, e: Entry)
    requires WellFormed(es) && i < |es| && e.name == es[i].name
    requires e.DirEntry? ==> WellFormed(e.entries)
    ensures WellFormed(es[i := e])
  {
    var r := es[i := e];
    forall j | 0 <= j < |r| && r[j].DirEntry?
      ensures WellFormed(r[j].entries)
    {
      if j != i { assert r[j] == es[j]; }
    }
  }

  lemma {:induction false} WellFormedWithout(es: seq<Entry>, name: string)
    requires WellFormed(es)
    ensures WellFormed(Without(es, name))
  {
    if es != [] {
      var tail := es[1..];
      assert WellFormed(tail) by {
        forall j | 0 <= j < |tail| && tail[j].DirEntry?
          ensures WellFormed(tail[j].entries)
        {
          assert tail[j] == es[j + 1];
        }
      }
      WellFormedWithout(tail, name);
      if es[0].name != name {
        var rest := Without(tail, name);
        WellFormedPrepend(es[0], rest);
      }
    }
  }

  lemma {:induction false} WellFormedPrepend(e: Entry, es: seq<Entry>)
    requires WellFormed(es) && !Has(es, e.name)
    requires e.DirEntry? ==> WellFormed(e.entries)
    ensures WellFormed([e] + es)
  {
    var r := [e] + es;
    forall j | 0 <= j < |r| && r[j].DirEntry?
      ensures WellFormed(r[j].entries)
    {
      if j > 0 { assert r[j] == es[j - 1]; }
    }
  }

  lemma WellFormedPut(es: seq<Entry>, e: Entry)
    requires WellFormed(es)
    requires e.DirEntry? ==> WellFormed(e.entries)
    ensures WellFormed(Put(es, e))
  {
    match Find(es, e.name)
    case None => WellFormedAppend(es, e);
    case Some(i) => WellFormedReplace(es, i, e);
  }

  /** The `public/` directory; `None` while it does not exist. */
  class Disk {
    var public: Option<seq<Entry>>

    ghost predicate Valid()
      reads this
    {
      public.Some? ==> WellFormed(public.value)
    }

    constructor(public: Option<seq<Entry>>)
      requires public.Some? ==> WellFormed(public.value)
      ensures Valid() && this.public == public
    {
      this.public := public;
    }
  }
}
