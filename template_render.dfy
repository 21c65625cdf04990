/**
 * `buildMessageFromRow`: `templateStr.replace(/\$\$([A-Z]+)\$\$/g, ...)`.  The
 * global regular expression is tried at each position from left to right; a
 * match is replaced by the trimmed value of the cell named by its letters and
 * scanning resumes right after it, so matches never overlap and replaced text
 * is never scanned again.
 */
module TemplateRender {
  import opened Wrappers
  import opened Strings
  import opened Spreadsheet

  predicate IsUpper(c: char) {
    'A' <= c <= 'Z'
  }

  predicate AllUpper(s: string) {
    forall i :: 0 <= i < |s| ==> IsUpper(s[i])
  }

  /** `s` starts with a match of `\$\$[A-Z]+\$\$` whose letters are the `k` characters after the first two. */
  predicate MatchesAt(s: string, k: nat) {
    0 < k && k + 4 <= |s| && s[0] == '$' && s[1] == '$' && AllUpper(s[2..k + 2]) && s[k + 2] == '$' && s[k + 3] == '$'
  }

  /** The length of the run of capital letters `s` starts with. */
  function UpperRun(s: string): (n: nat)
    ensures n <= |s| && AllUpper(s[..n])
    ensures n < |s| ==> !IsUpper(s[n])
  {
    if s != [] && IsUpper(s[0]) then
      var n := 1 + UpperRun(s[1..]);
      assert s[..n] == [s[0]] + s[1..][..n - 1];
      n
    else 0
  }

  /** The regular expression tried at the start of `s`: the column letters of the match there, if there is one. */
  function Placeholder(s: string): (r: Option<string>)
    ensures r.Some? ==> MatchesAt(s, |r.value|) && r.value == s[2..|r.value| + 2]
    ensures r.Some? ==> forall k :: MatchesAt(s, k) ==> k == |r.value|
    ensures r.None? ==> forall k :: !MatchesAt(s, k)
  {
    if |s| >= 2 && s[0] == '$' && s[1] == '$' then
      var k := UpperRun(s[2..]);
      assert s[2..][..k] == s[2..k + 2];
      assert forall k2 :: MatchesAt(s, k2) ==> k2 == k by {
        forall k2 | MatchesAt(s, k2)
          ensures k2 == k
        {
          RunOfMatch(s, k2);
        }
      }
      if k > 0 && k + 4 <= |s| && s[k + 2] == '$' && s[k + 3] == '$' then
        Some(s[2..k + 2])
      else
        None
    else
      None
  }

  /** A match's letters are exactly the run of capitals after the opening `$$`. */
  lemma RunOfMatch(s: string, k: nat)
    requires MatchesAt(s, k)
    ensures UpperRun(s[2..]) == k
  {
    var t := s[2..];
    assert t[k] == s[k + 2] && t[..k] == s[2..k + 2];
  }

  /** The replacement of a match naming column `col`: `String(row.getCell(col)?.value || "").trim()`. */
  function Replacement(row: Row, col: string): (v: string)
    ensures Trimmed(v)
    ensures !Truthy(CellAt(row, col)) ==> v == ""
  {
    var cell := CellAt(row, col);
    Trim(if Truthy(cell) then Stringify(cell.value) else "")
  }

  /** `buildMessageFromRow(templateStr, row)`. */
  function Render(s: string, row: Row): string
    decreases |s|
  {
    if s == [] then []
    else
      match Placeholder(s)
      case Some(col) => Replacement(row, col) + Render(s[|col| + 4..], row)
      case None => [s[0]] + Render(s[1..], row)
  }

  // ---- the structural reading of a template -------------------------------------------

  /** A template read as a sequence of literal characters and placeholders. */
  datatype Piece = Lit(c: char) | Hole(col: string)

  predicate ValidPieces(ps: seq<Piece>) {
    forall i :: 0 <= i < |ps| && ps[i].Hole? ==> ps[i].col != [] && AllUpper(ps[i].col)
  }

  /** The text a piece was read from. */
  function PieceText(p: Piece): string {
    match p
    case Lit(c) => [c]
    case Hole(col) => "$$" + col + "$$"
  }

  /** The text a sequence of pieces was read from. */
  function Unparse(ps: seq<Piece>): string {
    if ps == [] then [] else PieceText(ps[0]) + Unparse(ps[1..])
  }

  /** A piece once filled in: a literal stays, a placeholder becomes its value. */
  function PieceValue(p: Piece, row: Row): string {
    match p
    case Lit(c) => [c]
    case Hole(col) => Replacement(row, col)
  }

  /** The pieces with every placeholder replaced by its value, which is inserted verbatim. */
  function Fill(ps: seq<Piece>, row: Row): string {
    if ps == [] then [] else PieceValue(ps[0], row) + Fill(ps[1..], row)
  }

  lemma UnparseCons(p: Piece, ps: seq<Piece>)
    ensures Unparse([p] + ps) == PieceText(p) + Unparse(ps)
  {
    assert ([p] + ps)[1..] == ps;
  }

  lemma FillCons(p: Piece, ps: seq<Piece>, row: Row)
    ensures Fill([p] + ps, row) == PieceValue(p, row) + Fill(ps, row)
  {
    assert ([p] + ps)[1..] == ps;
  }

  /** A template that starts with a match is the match followed by the rest. */
  lemma PlaceholderSplits(s: string, col: string)
    requires Placeholder(s) == Some(col)
    ensures s == PieceText(Hole(col)) + s[|col| + 4..]
  {
    var k := |col|;
    assert s == s[..2] + s[2..k + 2] + s[k + 2..k + 4] + s[k + 4..];
    assert s[..2] == "$$";
    assert s[k + 2..k + 4] == "$$";
  }

  /** The left-to-right, non-overlapping reading of `s`. */
  function Parse(s: string): (ps: seq<Piece>)
    ensures ValidPieces(ps)
    decreases |s|
  {
    if s == [] then []
    else
      match Placeholder(s)
      case Some(col) => [Hole(col)] + Parse(s[|col| + 4..])
      case None => [Lit(s[0])] + Parse(s[1..])
  }

  // ---- properties -------------------------------------------------------------------

  /** Reading a template loses nothing: the text outside the placeholders is kept verbatim. */
  lemma {:induction false} ParseRoundTrip(s: string)
    ensures Unparse(Parse(s)) == s
    decreases |s|
  {
    if s != [] {
      match Placeholder(s)
      case Some(col) =>
        var rest := s[|col| + 4..];
        ParseRoundTrip(rest);
        UnparseCons(Hole(col), Parse(rest));
        PlaceholderSplits(s, col);
      case None =>
        ParseRoundTrip(s[1..]);
        UnparseCons(Lit(s[0]), Parse(s[1..]));
        assert s == [s[0]] + s[1..];
    }
  }

  /** Rendering replaces each placeholder of the reading by its value and keeps every other character. */
  lemma {:induction false} RenderFillsPieces(s: string, row: Row)
    ensures Render(s, row) == Fill(Parse(s), row)
    decreases |s|
  {
    if s != [] {
      match Placeholder(s)
      case Some(col) =>
        var rest := s[|col| + 4..];
        RenderFillsPieces(rest, row);
        FillCons(Hole(col), Parse(rest), row);
      case None =>
        RenderFillsPieces(s[1..], row);
        FillCons(Lit(s[0]), Parse(s[1..]), row);
    }
  }

  predicate NoHoles(ps: seq<Piece>) {
    forall i :: 0 <= i < |ps| ==> ps[i].Lit?
  }

  /** Without placeholders, filling gives back the text the pieces were read from. */
  lemma {:induction false} FillWithoutHoles(ps: seq<Piece>, row: Row)
    requires NoHoles(ps)
    ensures Fill(ps, row) == Unparse(ps)
  {
    if ps != [] {
      assert NoHoles(ps[1..]) by {
        forall i | 0 <= i < |ps[1..]|
          ensures ps[1..][i].Lit?
        {
          assert ps[1..][i] == ps[i + 1];
        }
      }
      FillWithoutHoles(ps[1..], row);
    }
  }

  /** A template in which the expression matches nowhere renders unchanged. */
  lemma TemplateWithoutPlaceholders(s: string, row: Row)
    requires NoHoles(Parse(s))
    ensures Render(s, row) == s
  {
    RenderFillsPieces(s, row);
    FillWithoutHoles(Parse(s), row);
    ParseRoundTrip(s);
  }

  predicate HasDoubleDollar(s: string) {
    exists i :: 0 <= i < |s| - 1 && s[i] == '$' && s[i + 1] == '$'
  }

  /** A template with no "$$" has no placeholder. */
  lemma {:induction false} NoDoubleDollarNoHoles(s: string)
    requires !HasDoubleDollar(s)
    ensures NoHoles(Parse(s))
    decreases |s|
  {
    if s != [] {
      assert Placeholder(s).None? by {
        if |s| >= 2 {
          assert !(s[0] == '$' && s[1] == '$');
        }
      }
      assert !HasDoubleDollar(s[1..]);
      NoDoubleDollarNoHoles(s[1..]);
      var ps := Parse(s);
      assert ps == [Lit(s[0])] + Parse(s[1..]);
      forall i | 0 <= i < |ps|
        ensures ps[i].Lit?
      {
        if i > 0 {
          assert ps[i] == Parse(s[1..])[i - 1];
        }
      }
    }
  }

  /** A template with no "$$" renders unchanged. */
  lemma TemplateWithoutDollars(s: string, row: Row)
    requires !HasDoubleDollar(s)
    ensures Render(s, row) == s
  {
    NoDoubleDollarNoHoles(s);
    TemplateWithoutPlaceholders(s, row);
  }

  /** A cell whose value is itself a placeholder is inserted as it is: replaced text is not scanned again. */
  lemma ValueNotRescanned()
    ensures Render("$$A$$", map["A" := Text("$$B$$"), "B" := Text("x")]) == "$$B$$"
  {
    var row := map["A" := Text("$$B$$"), "B" := Text("x")];
    var s := "$$A$$";
    assert s[2..3] == "A";
    assert MatchesAt(s, 1);
    assert Placeholder(s) == Some("A");
    assert s[5..] == [];
    TrimmedIsFixpoint("$$B$$");
  }

  /** The scan moves one character on where the expression does not match: in "$$$A$$" the match starts at the second '$'. */
  lemma MatchAfterStrayDollar()
    ensures Render("$$$A$$", map["A" := Text("1")]) == "$1"
  {
    var row := map["A" := Text("1")];
    var s := "$$$A$$";
    assert s[2..3][0] == '$' && s[2..4][0] == '$';
    assert !MatchesAt(s, 1) && !MatchesAt(s, 2);
    assert Placeholder(s) == None;
    assert s[1..] == "$$A$$";
    assert s[1..][2..3] == "A";
    assert MatchesAt(s[1..], 1);
    assert Placeholder(s[1..]) == Some("A");
    assert s[1..][5..] == [];
    TrimmedIsFixpoint("1");
  }

  /** Matches do not overlap: in "$$A$$B$$" the closing "$$" of the first match is not reused. */
  lemma MatchesDoNotOverlap()
    ensures Render("$$A$$B$$", map["A" := Text("1"), "B" := Text("2")]) == "1B$$"
  {
    var row := map["A" := Text("1"), "B" := Text("2")];
    var s := "$$A$$B$$";
    assert s[2..3] == "A";
    assert MatchesAt(s, 1);
    assert Placeholder(s) == Some("A");
    var t := s[5..];
    assert t == "B$$";
    assert Placeholder(t) == None;
    assert Placeholder(t[1..]) == None;
    assert t[1..][1..] == "$";
    assert Placeholder(t[1..][1..]) == None;
    assert t[1..][1..][1..] == [];
    assert Render(t[1..][1..], row) == "$";
    assert Render(t[1..], row) == "$$";
    assert Render(t, row) == "B$$";
    TrimmedIsFixpoint("1");
    assert Replacement(row, "A") == "1";
  }
}
