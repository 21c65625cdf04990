/**
 * `convertNumberToWords`: a non-negative integer in Uzbek words, built from groups
 * of three decimal digits, highest group first, each followed by its scale word
 * ("ming", "million", "milliard").  Zero groups are omitted.
 */
module NumberWords {
  import opened Strings
  import Arith

  const Units: seq<string> := ["", "bir", "ikki", "uch", "to'rt", "besh", "olti", "yetti", "sakkiz", "to'qqiz"]
  const Teens: seq<string> := ["o'n", "o'n bir", "o'n ikki", "o'n uch", "o'n to'rt", "o'n besh", "o'n olti", "o'n yetti", "o'n sakkiz", "o'n to'qqiz"]
  const Tens: seq<string> := ["", "", "yigirma", "o'ttiz", "qirq", "ellik", "oltmish", "yetmish", "sakson", "to'qson"]
  /** `units[d]`. */
  function Unit(d: nat): string
    requires d < 10
  {
    Units[d]
  }

  /** `teens[d]`, the words of 10 + d. */
  function Teen(d: nat): string
    requires d < 10
  {
    Teens[d]
  }

  /** `tens[d]`, the words of 10 * d for d >= 2. */
  function Ten(d: nat): string
    requires d < 10
  {
    Tens[d]
  }

  /**
   * `${thousands[i]}`: the scale word of the i-th group.  The table ends at
   * "milliard"; a fifth group reads past it and JavaScript renders the missing
   * entry as "undefined".
   */
  function Scale(i: nat): (w: string)
    ensures i == 0 <==> w == ""
    ensures Trimmed(w)
  {
    if i < 4 then ["", "ming", "million", "milliard"][i] else "undefined"
  }

  /** A non-empty string with no white space at either end. */
  predicate IsWord(w: string) {
    w != [] && Trimmed(w)
  }

  /** Every entry is a word. */
  predicate AllWords(ps: seq<string>) {
    forall k :: 0 <= k < |ps| ==> IsWord(ps[k])
  }

  lemma UnitIsWord(d: nat)
    requires 0 < d < 10
    ensures IsWord(Unit(d))
  {
    if d == 1 {} else if d == 2 {} else if d == 3 {} else if d == 4 {} else if d == 5 {}
    else if d == 6 {} else if d == 7 {} else if d == 8 {} else {}
  }

  lemma TeenIsWord(d: nat)
    requires d < 10
    ensures IsWord(Teen(d))
  {
    if d == 0 {} else if d == 1 {} else if d == 2 {} else if d == 3 {} else if d == 4 {}
    else if d == 5 {} else if d == 6 {} else if d == 7 {} else if d == 8 {} else {}
  }

  lemma TenIsWord(d: nat)
    requires 2 <= d < 10
    ensures IsWord(Ten(d))
  {
    if d == 2 {} else if d == 3 {} else if d == 4 {} else if d == 5 {}
    else if d == 6 {} else if d == 7 {} else if d == 8 {} else {}
  }

  lemma WordConcat(x: string, y: string)
    requires IsWord(x) && IsWord(y)
    ensures IsWord(x + " " + y)
  {
    TrimmedConcat(x, y);
  }

  // ---- the reference reading ----------------------------------------------------

  /** The hundreds of a group in words: "<unit> yuz", or nothing. */
  function HundredsText(h: nat): string
    requires h < 10
  {
    if h > 0 then Unit(h) + " yuz" else ""
  }

  /** The last two digits of a group in words: a unit, a teen, a ten, or a ten and a unit; nothing for 00. */
  function RemainderText(r: nat): string
    requires r < 100
  {
    if r == 0 then ""
    else if r < 10 then Unit(r)
    else if r < 20 then Teen(r - 10)
    else if r % 10 == 0 then Ten(r / 10)
    else Ten(r / 10) + " " + Unit(r % 10)
  }

  /** The words of a group 1..999: its hundreds and its last two digits, separated by one space, an absent part left out. */
  function ChunkText(c: nat): string
    requires 0 < c < 1000
  {
    var hw, rw := HundredsText(c / 100), RemainderText(c % 100);
    if hw == "" then rw else if rw == "" then hw else hw + " " + rw
  }

  lemma HundredsIsWord(h: nat)
    requires 0 < h < 10
    ensures IsWord(HundredsText(h))
  {
    UnitIsWord(h);
    WordConcat(Unit(h), "yuz");
  }

  lemma RemainderIsWord(r: nat)
    requires 0 < r < 100
    ensures IsWord(RemainderText(r))
  {
    if r < 10 {
      UnitIsWord(r);
    } else if r < 20 {
      TeenIsWord(r - 10);
    } else {
      TenIsWord(r / 10);
      if r % 10 != 0 {
        UnitIsWord(r % 10);
        WordConcat(Ten(r / 10), Unit(r % 10));
      }
    }
  }

  lemma ChunkTextIsWord(c: nat)
    requires 0 < c < 1000
    ensures IsWord(ChunkText(c))
  {
    var h, r := c / 100, c % 100;
    if h > 0 {
      HundredsIsWord(h);
    }
    if r > 0 {
      RemainderIsWord(r);
    }
    if h > 0 && r > 0 {
      WordConcat(HundredsText(h), RemainderText(r));
    }
  }

  /** A non-zero group of three digits, `scale` places of a thousand up. */
  datatype Group = Group(value: nat, scale: nat)

  predicate ValidGroups(gs: seq<Group>) {
    forall k :: 0 <= k < |gs| ==> 0 < gs[k].value < 1000
  }

  /** The non-zero groups of `n`, whose lowest group is the i-th, highest group first. */
  function Groups(n: nat, i: nat): (gs: seq<Group>)
    ensures ValidGroups(gs)
    ensures forall k :: 0 <= k < |gs| ==> gs[k].scale >= i
    ensures forall j, k :: 0 <= j < k < |gs| ==> gs[j].scale > gs[k].scale
    decreases n
  {
    if n == 0 then []
    else Groups(n / 1000, i + 1) + (if n % 1000 != 0 then [Group(n % 1000, i)] else [])
  }

  function Pow1000(e: nat): nat {
    if e == 0 then 1 else 1000 * Pow1000(e - 1)
  }

  /** The number a list of groups stands for, `scale` counted from `i`: the sum of each value times 1000 to its place. */
  function GroupsValue(gs: seq<Group>, i: nat): int
    requires forall k :: 0 <= k < |gs| ==> gs[k].scale >= i
  {
    if gs == [] then 0
    else GroupsValue(gs[..|gs| - 1], i) + gs[|gs| - 1].value * Pow1000(gs[|gs| - 1].scale - i)
  }

  /** The groups recombine to the number: they are its base-1000 digits, zero digits left out. */
  lemma {:induction false} GroupsRecombine(n: nat, i: nat)
    ensures GroupsValue(Groups(n, i), i) == n
    decreases n
  {
    if n > 0 {
      var higher := Groups(n / 1000, i + 1);
      GroupsRecombine(n / 1000, i + 1);
      GroupsValueShift(higher, i);
      if n % 1000 != 0 {
        var gs := higher + [Group(n % 1000, i)];
        assert Groups(n, i) == gs;
        assert gs[..|gs| - 1] == higher;
      } else {
        assert Groups(n, i) == higher;
      }
    }
  }

  /** Counting places from one scale lower multiplies the value by a thousand. */
  lemma {:induction false} GroupsValueShift(gs: seq<Group>, i: nat)
    requires forall k :: 0 <= k < |gs| ==> gs[k].scale >= i + 1
    ensures GroupsValue(gs, i) == 1000 * GroupsValue(gs, i + 1)
  {
    if gs != [] {
      var last := gs[|gs| - 1];
      GroupsValueShift(gs[..|gs| - 1], i);
      assert Pow1000(last.scale - i) == 1000 * Pow1000(last.scale - (i + 1));
      assert last.value * (1000 * Pow1000(last.scale - (i + 1))) == 1000 * (last.value * Pow1000(last.scale - (i + 1)));
    }
  }

  /** One group with its scale word: "<group words>" or "<group words> <scale>". */
  function Phrase(g: Group): string
    requires 0 < g.value < 1000
  {
    if g.scale == 0 then ChunkText(g.value) else ChunkText(g.value) + " " + Scale(g.scale)
  }

  function Phrases(gs: seq<Group>): (ps: seq<string>)
    requires ValidGroups(gs)
    ensures |ps| == |gs|
  {
    if gs == [] then [] else [Phrase(gs[0])] + Phrases(gs[1..])
  }

  /** The reference reading of `convertNumberToWords(num)`: "nol" for zero, else the groups' phrases joined by single spaces. */
  function Words(num: nat): string {
    if num == 0 then "nol" else Join(Phrases(Groups(num, 0)), " ")
  }

  lemma PhraseIsWord(g: Group)
    requires 0 < g.value < 1000
    ensures IsWord(Phrase(g))
  {
    ChunkTextIsWord(g.value);
    if g.scale != 0 {
      WordConcat(ChunkText(g.value), Scale(g.scale));
    }
  }

  lemma {:induction false} PhrasesAreWords(gs: seq<Group>)
    requires ValidGroups(gs)
    ensures AllWords(Phrases(gs))
  {
    if gs != [] {
      PhraseIsWord(gs[0]);
      PhrasesAreWords(gs[1..]);
    }
  }

  lemma ConcatAssoc<T>(a: seq<T>, b: seq<T>, c: seq<T>)
    ensures a + (b + c) == (a + b) + c
  {
  }

  lemma JoinCons(x: string, ps: seq<string>)
    requires ps != []
    ensures Join([x] + ps, " ") == x + " " + Join(ps, " ")
  {
    assert ([x] + ps)[1..] == ps;
  }

  lemma {:induction false} JoinOfWords(ps: seq<string>)
    requires AllWords(ps)
    ensures Trimmed(Join(ps, " "))
    ensures ps != [] <==> Join(ps, " ") != []
    decreases |ps|
  {
    if |ps| > 1 {
      JoinOfWords(ps[1..]);
      WordConcat(ps[0], Join(ps[1..], " "));
    }
  }

  /** Joining a list with one more element in front. */
  lemma JoinPrepend(p: string, ps: seq<string>)
    ensures Join([p] + ps, " ") == p + (if ps == [] then "" else " " + Join(ps, " "))
  {
    if ps != [] {
      JoinCons(p, ps);
    }
  }

  /** Putting a group in front of the groups read so far puts its phrase in front of their words. */
  lemma JoinPhrasesCons(g: Group, done: seq<Group>)
    requires 0 < g.value < 1000 && ValidGroups(done)
    ensures ValidGroups([g] + done)
    ensures Join(Phrases([g] + done), " ") == Phrase(g) + (if done == [] then "" else " " + Join(Phrases(done), " "))
  {
    assert ([g] + done)[1..] == done;
    var p, ps := Phrase(g), Phrases(done);
    assert Phrases([g] + done) == [p] + ps;
    JoinPrepend(p, ps);
  }

  // ---- the computation as the source performs it ----------------------------------

  /** `${t} ${s} ${rest}`.trim() for a word `t`, a scale word `s` (possibly empty) and the words so far (empty when `s` is). */
  lemma PrependTrim(t: string, s: string, rest: string)
    requires IsWord(t) && Trimmed(s) && Trimmed(rest)
    requires s == "" ==> rest == ""
    ensures Trim(t + " " + s + " " + rest) == (if s == "" then t else t + " " + s) + (if rest == "" then "" else " " + rest)
  {
    if rest == "" {
      if s == "" {
        assert t + " " + s + " " + rest == t + "  ";
        TrimDropsPadding(t, "  ");
      } else {
        assert t + " " + s + " " + rest == (t + " " + s) + " ";
        TrimmedConcat(t, s);
        TrimDropsPadding(t + " " + s, " ");
      }
    } else {
      TrimmedConcat(t, s);
      TrimmedConcat(t + " " + s, rest);
      TrimmedIsFixpoint(t + " " + s + " " + rest);
    }
  }

  /** One loop step: `${chunkWords.trim()} ${thousands[i]} ${words}`.trim() prepends the group's phrase to the words so far. */
  lemma StepPrepends(g: Group, done: seq<Group>)
    requires 0 < g.value < 1000 && ValidGroups(done)
    requires g.scale == 0 ==> done == []
    ensures ValidGroups([g] + done)
    ensures Trim(ChunkText(g.value) + " " + Scale(g.scale) + " " + Join(Phrases(done), " ")) == Join(Phrases([g] + done), " ")
  {
    PhrasesAreWords(done);
    JoinOfWords(Phrases(done));
    ChunkTextIsWord(g.value);
    PrependTrim(ChunkText(g.value), Scale(g.scale), Join(Phrases(done), " "));
    JoinPhrasesCons(g, done);
  }

  /** The groups still to be read once the lowest group of `n` has been consumed. */
  lemma GroupsStep(num: nat, n: nat, i: nat, done: seq<Group>)
    requires n > 0 && Groups(n, i) + done == Groups(num, 0)
    ensures n % 1000 != 0 ==> Groups(n / 1000, i + 1) + ([Group(n % 1000, i)] + done) == Groups(num, 0)
    ensures n % 1000 == 0 ==> Groups(n / 1000, i + 1) + done == Groups(num, 0)
  {
    var higher := Groups(n / 1000, i + 1);
    if n % 1000 != 0 {
      assert Groups(n, i) == higher + [Group(n % 1000, i)];
      ConcatAssoc(higher, [Group(n % 1000, i)], done);
    } else {
      assert Groups(n, i) == higher;
    }
  }

  /** The words of a group as the loop body accumulates them in `chunkWords`, before trimming. */
  function ChunkRaw(c: nat): string
    requires 0 < c < 1000
  {
    var h, r := c / 100, c % 100;
    (if h > 0 then Unit(h) + " yuz " else "")
    + (if r < 10 then Unit(r) else if r < 20 then Teen(r - 10) else Ten(r / 10) + " " + Unit(r % 10))
  }

  /** Trimming the words of the parts of a group, joined as the loop body joins them, leaves the parts separated by single spaces. */
  lemma TrimParts(hw: string, rw: string, pad: string)
    requires hw == "" || IsWord(hw)
    requires rw == "" || IsWord(rw)
    requires hw != "" || rw != ""
    requires pad == "" || pad == " "
    ensures Trim((if hw == "" then "" else hw + " ") + rw + pad) == if hw == "" then rw else if rw == "" then hw else hw + " " + rw
  {
    if hw == "" {
      assert (if hw == "" then "" else hw + " ") + rw + pad == rw + pad;
      TrimDropsPadding(rw, pad);
    } else if rw == "" {
      assert (if hw == "" then "" else hw + " ") + rw + pad == hw + (" " + pad);
      TrimDropsPadding(hw, " " + pad);
    } else {
      TrimmedConcat(hw, rw);
      TrimDropsPadding(hw + " " + rw, pad);
    }
  }

  /** `chunkWords.trim()` is the group's reference reading. */
  lemma TrimChunkRaw(c: nat)
    requires 0 < c < 1000
    ensures Trim(ChunkRaw(c)) == ChunkText(c)
  {
    var h, r := c / 100, c % 100;
    var hw, rw := HundredsText(h), RemainderText(r);
    if h > 0 {
      HundredsIsWord(h);
    }
    if r > 0 {
      RemainderIsWord(r);
    }
    var lead := if hw == "" then "" else hw + " ";
    assert (if h > 0 then Unit(h) + " yuz " else "") == lead;
    if r < 20 {
      assert ChunkRaw(c) == lead + rw + "";
      TrimParts(hw, rw, "");
    } else if r % 10 == 0 {
      assert ChunkRaw(c) == lead + rw + " ";
      TrimParts(hw, rw, " ");
    } else {
      assert ChunkRaw(c) == lead + rw + "";
      TrimParts(hw, rw, "");
    }
  }

  /** The body of the `if (chunk)` branch up to `chunkWords.trim()`: the words of one non-zero group. */
  method GroupWords(chunk: nat) returns (chunkWords: string)
    requires 0 < chunk < 1000
    ensures chunkWords == ChunkText(chunk)
  {
    var hundreds := chunk / 100;
    var remainder := chunk % 100;
    ghost var lead := if hundreds > 0 then Unit(hundreds) + " yuz " else "";
    ghost var tail := if remainder < 10 then Unit(remainder) else if remainder < 20 then Teen(remainder - 10) else Ten(remainder / 10) + " " + Unit(remainder % 10);
    chunkWords := "";
    if hundreds > 0 {
      chunkWords := chunkWords + Unit(hundreds) + " yuz ";
    }
    assert chunkWords == lead;
    if remainder < 10 {
      chunkWords := chunkWords + Unit(remainder);
    } else if remainder < 20 {
      chunkWords := chunkWords + Teen(remainder - 10);
    } else {
      var tensValue := remainder / 10;
      chunkWords := chunkWords + Ten(tensValue) + " " + Unit(remainder % 10);
    }
    assert chunkWords == lead + tail;
    TrimChunkRaw(chunk);
    chunkWords := Trim(chunkWords);
  }

  /** `convertNumberToWords`, as the source computes it: group by group from the lowest, re-trimming the accumulated words. */
  /** The loop state of `convertNumberToWords`: `done` holds the groups read so far, `words` their phrases. */
  ghost predicate LoopState(num: nat, n: nat, i: nat, done: seq<Group>, words: string) {
    ValidGroups(done) && Groups(n, i) + done == Groups(num, 0)
    && words == Join(Phrases(done), " ") && (i == 0 ==> done == [])
  }

  /** One iteration of the loop keeps `LoopState`, whether or not the group it reads is zero. */
  lemma LoopStep(num: nat, n: nat, i: nat, done: seq<Group>, words: string)
    requires n > 0 && LoopState(num, n, i, done, words)
    ensures n % 1000 != 0 ==>
      LoopState(num, n / 1000, i + 1, [Group(n % 1000, i)] + done, Trim(ChunkText(n % 1000) + " " + Scale(i) + " " + words))
    ensures n % 1000 == 0 ==> LoopState(num, n / 1000, i + 1, done, words)
  {
    GroupsStep(num, n, i, done);
    if n % 1000 != 0 {
      StepPrepends(Group(n % 1000, i), done);
    }
  }

  /** When no digits are left, the words are those of every group of `num`. */
  lemma LoopDone(num: nat, i: nat, done: seq<Group>, words: string)
    requires num > 0 && LoopState(num, 0, i, done, words)
    ensures Trim(words) == Words(num)
  {
    assert Groups(0, i) == [];
    assert done == Groups(num, 0);
    PhrasesAreWords(done);
    JoinOfWords(Phrases(done));
    TrimmedIsFixpoint(words);
  }

  /** `convertNumberToWords`: reads `num` three digits at a time from the lowest group and prepends each non-zero group's words with its scale word. */
  method ConvertNumberToWords(num: nat) returns (words: string)
    ensures words == Words(num)
  {
    if num == 0 {
      return "nol";
    }
    words := "";
    var i: nat, n: nat := 0, num;
    ghost var done: seq<Group> := [];
    while n > 0
      invariant LoopState(num, n, i, done, words)
      decreases n
    {
      var chunk := n % 1000;
      LoopStep(num, n, i, done, words);
      if chunk != 0 {
        var chunkWords := GroupWords(chunk);
        words := Trim(chunkWords + " " + Scale(i) + " " + words);
        done := [Group(chunk, i)] + done;
      }
      n := n / 1000;
      i := i + 1;
    }
    LoopDone(num, i, done, words);
    words := Trim(words);
  }

  // ---- properties -------------------------------------------------------------------

  /** A positive number has at least one non-zero group. */
  lemma {:induction false} GroupsOfPositive(n: nat, i: nat)
    requires n > 0
    ensures Groups(n, i) != []
    decreases n
  {
    if n % 1000 == 0 {
      assert n / 1000 > 0;
      GroupsOfPositive(n / 1000, i + 1);
    }
  }

  /** The result never has surrounding white space, and is never empty. */
  lemma WordsTrimmed(num: nat)
    ensures IsWord(Words(num))
  {
    if num != 0 {
      GroupsOfPositive(num, 0);
      PhrasesAreWords(Groups(num, 0));
      JoinOfWords(Phrases(Groups(num, 0)));
    }
  }

  /** A number whose lowest group is zero has the groups of the number a thousand times smaller, one scale up. */
  lemma GroupsShift(n: nat, i: nat)
    requires n > 0 && n % 1000 == 0
    ensures Groups(n, i) == Groups(n / 1000, i + 1)
  {
  }

  /** A number below one thousand is a single group. */
  lemma GroupsSingle(c: nat, i: nat)
    requires 0 < c < 1000
    ensures Groups(c, i) == [Group(c, i)]
  {
    assert c / 1000 == 0 && c % 1000 == c;
    assert Groups(0, i + 1) == [];
  }

  lemma JoinOne(p: string)
    ensures Join([p], " ") == p
  {
  }

  lemma JoinTwo(p: string, q: string)
    ensures Join([p, q], " ") == p + " " + q
  {
    assert [p, q][1..] == [q];
  }

  lemma PhrasesTwo(g: Group, h: Group)
    requires 0 < g.value < 1000 && 0 < h.value < 1000
    ensures Phrases([g, h]) == [Phrase(g), Phrase(h)]
  {
    assert [g, h][1..] == [h];
  }

  /** The words of a number with a single non-zero group are that group's phrase. */
  lemma WordsOfOneGroup(num: nat, g: Group)
    requires num > 0 && 0 < g.value < 1000 && Groups(num, 0) == [g]
    ensures Words(num) == Phrase(g)
  {
    var ps := Phrases(Groups(num, 0));
    assert ps == [Phrase(g)];
    JoinOne(Phrase(g));
  }

  /** The words of a number with two non-zero groups are their phrases, separated by a space. */
  lemma WordsOfTwoGroups(num: nat, g: Group, h: Group)
    requires num > 0 && 0 < g.value < 1000 && 0 < h.value < 1000 && Groups(num, 0) == [g, h]
    ensures Words(num) == Phrase(g) + " " + Phrase(h)
  {
    PhrasesTwo(g, h);
    JoinTwo(Phrase(g), Phrase(h));
  }

  /** Numbers below one thousand are the words of a single group, with no scale word. */
  lemma WordsBelowThousand(num: nat)
    requires 0 < num < 1000
    ensures Words(num) == ChunkText(num)
  {
    GroupsSingle(num, 0);
    WordsOfOneGroup(num, Group(num, 0));
  }

  /** 1..9 read as their unit word and 10..19 as their "o'n ..." word. */
  lemma WordsOfSmallNumbers(num: nat)
    requires 0 < num < 20
    ensures num < 10 ==> Words(num) == Unit(num)
    ensures 10 <= num ==> Words(num) == Teen(num - 10)
  {
    WordsBelowThousand(num);
    assert num / 100 == 0 && num % 100 == num;
  }

  lemma MingBetween(r: string, x: string, y: string)
    requires r == (x + " " + "ming") + " " + y
    ensures r == x + " ming " + y
  {
  }

  /** A multiple of one thousand below one million reads as its thousands group followed by "ming". */
  lemma {:induction false} WordsOfRoundThousands(n: nat)
    requires 1000 <= n < 1000000 && n % 1000 == 0
    ensures Words(n) == ChunkText(n / 1000) + " ming"
  {
    var g := Group(n / 1000, 1);
    GroupsShift(n, 0);
    GroupsSingle(n / 1000, 1);
    assert Groups(n, 0) == [g];
    WordsOfOneGroup(n, g);
    assert Scale(1) == "ming";
    assert Phrase(g) == ChunkText(n / 1000) + " " + Scale(1);
  }

  /** A number between one thousand and one million whose low group is not zero reads as its thousands group, "ming", then its low group. */
  lemma {:induction false} WordsOfThousands(n: nat)
    requires 1000 <= n < 1000000 && n % 1000 != 0
    ensures Words(n) == ChunkText(n / 1000) + " ming " + ChunkText(n % 1000)
  {
    var a, b := n / 1000, n % 1000;
    GroupsSingle(a, 1);
    assert Groups(n, 0) == [Group(a, 1)] + [Group(b, 0)];
    WordsOfTwoGroups(n, Group(a, 1), Group(b, 0));
    assert Scale(1) == "ming";
    MingBetween(Words(n), ChunkText(a), ChunkText(b));
  }

  lemma WordsOfZero()
    ensures Words(0) == "nol"
  {
  }

  lemma WordsOfHundred()
    ensures Words(100) == "bir yuz"
  {
    WordsBelowThousand(100);
    assert ChunkText(100) == HundredsText(1);
  }

  /** The spelling of the groups of 2500. */
  lemma SpellTwoThousandFiveHundred(w: string)
    requires w == ChunkText(2) + " ming " + ChunkText(500)
    ensures w == "ikki ming besh yuz"
  {
    ChunkOfTwo();
    ChunkOfFiveHundred();
  }

  lemma ChunkOfTwo()
    ensures ChunkText(2) == "ikki"
  {
    assert 2 / 100 == 0 && 2 % 100 == 2;
    assert HundredsText(0) == "" && RemainderText(2) == Unit(2);
  }

  lemma ChunkOfFiveHundred()
    ensures ChunkText(500) == "besh yuz"
  {
    assert 500 / 100 == 5 && 500 % 100 == 0;
    assert RemainderText(0) == "" && HundredsText(5) == Unit(5) + " yuz";
  }

  lemma WordsOfTwoThousandFiveHundred()
    ensures Words(2500) == "ikki ming besh yuz"
  {
    WordsOfThousands(2500);
    SpellTwoThousandFiveHundred(Words(2500));
  }

  /** The spelling of a single group "1" at scale `i`. */
  lemma SpellOne(w: string, i: nat)
    requires w == Phrase(Group(1, i))
    ensures i == 2 ==> w == "bir million"
    ensures i == 4 ==> w == "bir undefined"
  {
    assert ChunkText(1) == "bir";
  }

  lemma WordsOfMillion()
    ensures Words(1000000) == "bir million"
  {
    GroupsShift(1000000, 0);
    GroupsShift(1000, 1);
    GroupsSingle(1, 2);
    WordsOfOneGroup(1000000, Group(1, 2));
    SpellOne(Words(1000000), 2);
  }

  /** From 10^12 on the fifth group's scale word is "undefined": the conversion is only meaningful below 10^12. */
  lemma WordsPastMilliard()
    ensures Words(1000000000000) == "bir undefined"
  {
    GroupsShift(1000000000000, 0);
    GroupsShift(1000000000, 1);
    GroupsShift(1000000, 2);
    GroupsShift(1000, 3);
    GroupsSingle(1, 4);
    WordsOfOneGroup(1000000000000, Group(1, 4));
    SpellOne(Words(1000000000000), 4);
  }
}
