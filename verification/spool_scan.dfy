/** AllGroups::recurse: the walk over the spool that skips every article whose
    number is below that of an article known to be too old. */
module SpoolScan {
  import opened Text

  const LONG_MIN: int := -0x8000_0000_0000_0000
  const LONG_MAX: int := 0x7FFF_FFFF_FFFF_FFFF

  /** What stat(2) says of a directory entry; a directory's entries are in the
      order of readdir(3). */
  datatype Node = Dir(entries: seq<Entry>) | File(mtime: int) | Other

  datatype Entry = Entry(name: string, node: Node)

  /** strtol on the whole name; None where the code takes -1 instead. */
  function NumberOf(name: string): (r: Option<int>)
    ensures r.Some? ==> LONG_MIN <= r.value <= LONG_MAX
  {
    var s := LTrim(name);
    var negative := s != "" && s[0] == '-';
    var digits := if negative || (s != "" && s[0] == '+') then s[1..] else s;
    if digits == "" || DigitRun(digits) != |digits| then None
    else
      var n: int := DecimalValue(digits);
      var v := if negative then -n else n;
      if LONG_MIN <= v <= LONG_MAX then Some(v) else None
  }

  predicate Hidden(e: Entry) { e.name != "" && e.name[0] == '.' }

  /** Below the mark: not even looked at. */
  predicate Below(e: Entry, mark: int)
  {
    !Hidden(e) && NumberOf(e.name).Some? && NumberOf(e.name).value < mark
  }

  predicate IsArticle(e: Entry)
  {
    !Hidden(e) && e.node.File? && NumberOf(e.name).Some? && NumberOf(e.name).value >= 0
  }

  /** An article that is too old. */
  predicate Old(e: Entry, start: int) { IsArticle(e) && e.node.mtime < start }

  predicate Recent(e: Entry, start: int) { IsArticle(e) && e.node.mtime >= start }

  predicate Visible(e: Entry) { !Hidden(e) && e.node.Dir? }

  // ----- the plain filter by mtime -------------------------------------------------------

  /** All recent articles at or below an entry. */
  function Yield(dir: string, e: Entry, start: int): seq<string>
    decreases e, 0
  {
    var path := dir + "/" + e.name;
    if Recent(e, start) then [path]
    else if Visible(e) then Filter(path, e.node.entries, start)
    else []
  }

  function Filter(dir: string, entries: seq<Entry>, start: int): seq<string>
    decreases entries, 1
  {
    if entries == [] then [] else Yield(dir, entries[0], start) + Filter(dir, entries[1..], start)
  }

  predicate Shown(e: Entry) { e.name == "" || e.name[0] != '.' }

  /** The file of an article, by its name, that is recent enough. */
  predicate IsRecentFile(e: Entry, start: int)
  {
    match e.node
    case File(mtime) => Shown(e) && NumberOf(e.name).Some? && 0 <= NumberOf(e.name).value && start <= mtime
    case _ => false
  }

  /** The path of a recent article, not depending on the order of any directory. */
  predicate InTree(dir: string, entries: seq<Entry>, start: int, p: string)
    decreases entries
  {
    exists i ::
      && 0 <= i < |entries|
      && var e := entries[i];
         var path := dir + "/" + e.name;
         || (IsRecentFile(e, start) && p == path)
         || (e.node.Dir? && Shown(e) && InTree(path, e.node.entries, start, p))
  }

  lemma {:induction false} FilterIsTree(dir: string, entries: seq<Entry>, start: int, p: string)
    ensures p in Filter(dir, entries, start) <==> InTree(dir, entries, start, p)
    decreases entries
  {
    if entries != [] {
      var e, rest := entries[0], entries[1..];
      var path := dir + "/" + e.name;
      FilterIsTree(dir, rest, start, p);
      if e.node.Dir? {
        FilterIsTree(path, e.node.entries, start, p);
      }
      assert forall i :: 0 < i < |entries| ==> entries[i] == rest[i - 1];
      if InTree(dir, rest, start, p) {
        var i :| 0 <= i < |rest| &&
          ((IsRecentFile(rest[i], start) && p == dir + "/" + rest[i].name)
           || (rest[i].node.Dir? && Shown(rest[i]) && InTree(dir + "/" + rest[i].name, rest[i].node.entries, start, p)));
        assert entries[i + 1] == rest[i];
      }
    }
  }

  // ----- the walk with the low-water mark ---------------------------------------------------

  function NextMark(e: Entry, mark: int, start: int): (next: int)
    ensures next >= mark
  {
    if !Below(e, mark) && Old(e, start) then NumberOf(e.name).value else mark
  }

  /** The paths that are visited at or below an entry. */
  function WalkHere(dir: string, e: Entry, mark: int, start: int): seq<string>
    decreases e, 0
  {
    var path := dir + "/" + e.name;
    if Below(e, mark) then []
    else if Visible(e) then Walk(path, e.node.entries, -1, start)
    else if Recent(e, start) then [path]
    else []
  }

  /** The paths that are visited, in order. */
  function Walk(dir: string, entries: seq<Entry>, mark: int, start: int): seq<string>
    decreases entries, 1
  {
    if entries == [] then []
    else WalkHere(dir, entries[0], mark, start) + Walk(dir, entries[1..], NextMark(entries[0], mark, start), start)
  }

  /** The mark hides nothing: no entry that yields a recent article has a number
      below the first mark, or below that of an old article listed before it; and so
      on in every directory. */
  predicate Quiet(dir: string, entries: seq<Entry>, mark: int, start: int)
    decreases entries
  {
    && (forall j :: 0 <= j < |entries| && Below(entries[j], mark) ==> Yield(dir, entries[j], start) == [])
    && (forall i, j ::
          0 <= i < j < |entries| && Old(entries[i], start) && Below(entries[j], NumberOf(entries[i].name).value) ==>
            Yield(dir, entries[j], start) == [])
    && (forall j :: 0 <= j < |entries| && Visible(entries[j]) ==>
          Quiet(dir + "/" + entries[j].name, entries[j].node.entries, -1, start))
  }

  lemma QuietStep(dir: string, entries: seq<Entry>, mark: int, start: int)
    requires entries != []
    ensures
      var e := entries[0];
      Quiet(dir, entries, mark, start) <==>
        && (Below(e, mark) ==> Yield(dir, e, start) == [])
        && (Visible(e) ==> Quiet(dir + "/" + e.name, e.node.entries, -1, start))
        && Quiet(dir, entries[1..], NextMark(e, mark, start), start)
  {
  }

  /** The walk visits no more than the filter, in the same order, and all of it if
      and only if the mark hides nothing. */
  lemma {:induction false} WalkIsFilter(dir: string, entries: seq<Entry>, mark: int, start: int)
    ensures |Walk(dir, entries, mark, start)| <= |Filter(dir, entries, start)|
    ensures Walk(dir, entries, mark, start) == Filter(dir, entries, start) <==> Quiet(dir, entries, mark, start)
    ensures Quiet(dir, entries, mark, start) <==> |Walk(dir, entries, mark, start)| == |Filter(dir, entries, start)|
    decreases entries
  {
    if entries != [] {
      hide Quiet, Below, Hidden, NumberOf;
      var e := entries[0];
      QuietStep(dir, entries, mark, start);
      WalkIsFilter(dir, entries[1..], NextMark(e, mark, start), start);
      if e.node.Dir? {
        WalkIsFilter(dir + "/" + e.name, e.node.entries, -1, start);
      }
    }
  }

  // ----- when the mark hides nothing, whatever the order ----------------------------------------

  predicate InOrder(a: Entry, b: Entry)
  {
    IsArticle(a) && IsArticle(b) && NumberOf(a.name).value < NumberOf(b.name).value ==> a.node.mtime <= b.node.mtime
  }

  /** Modification times do not decrease with the article number, and only files
      have numbers for names; in every directory. */
  predicate InOrderOfAge(entries: seq<Entry>)
  {
    && (forall i, j :: 0 <= i < |entries| && 0 <= j < |entries| ==> InOrder(entries[i], entries[j]))
    && (forall i :: 0 <= i < |entries| && Visible(entries[i]) ==>
          NumberOf(entries[i].name).None? && InOrderOfAge(entries[i].node.entries))
  }

  lemma {:induction false} InOrderIsQuiet(dir: string, entries: seq<Entry>, start: int)
    requires InOrderOfAge(entries)
    ensures Quiet(dir, entries, -1, start)
    decreases entries
  {
    hide NumberOf;
    forall i | 0 <= i < |entries| && Visible(entries[i])
      ensures Quiet(dir + "/" + entries[i].name, entries[i].node.entries, -1, start)
    {
      InOrderIsQuiet(dir + "/" + entries[i].name, entries[i].node.entries, start);
    }
  }

  /** With files in order of age, the walk visits exactly the recent articles: the
      right-hand side says nothing of the order of any directory. */
  lemma WalkVisitsRecent(dir: string, entries: seq<Entry>, start: int, p: string)
    requires InOrderOfAge(entries)
    ensures p in Walk(dir, entries, -1, start) <==> InTree(dir, entries, start, p)
  {
    hide Walk, Filter, InTree;
    InOrderIsQuiet(dir, entries, start);
    WalkIsFilter(dir, entries, -1, start);
    FilterIsTree(dir, entries, start, p);
  }

  /** A group whose last component is a number is a directory with a number for a
      name, and is skipped with everything in it when it is below the mark. */
  lemma NumberedDirectoryIsSkipped(start: int)
    ensures
      var group := Entry("2600", Dir([Entry("7", File(start))]));
      var entries := [Entry("3000", File(start - 1)), group];
      && Walk("alt", entries, -1, start) == []
      && Filter("alt", entries, start) == ["alt/2600/7"]
  {
    var stale, recent := Entry("3000", File(start - 1)), Entry("7", File(start));
    var group := Entry("2600", Dir([recent]));
    SomeNumbers();
    hide NumberOf, Walk, Filter;
    WalkTwo("alt", stale, group, -1, start);
    FilterTwo("alt", stale, group, start);
    FilterOne("alt/2600", recent, start);
    assert "alt" + "/" + "2600" == "alt/2600" && "alt/2600" + "/" + "7" == "alt/2600/7";
  }

  lemma WalkTwo(dir: string, a: Entry, b: Entry, mark: int, start: int)
    ensures Walk(dir, [a, b], mark, start) == WalkHere(dir, a, mark, start) + WalkHere(dir, b, NextMark(a, mark, start), start)
  {
    hide WalkHere, NextMark;
    assert [a, b][1..] == [b] && [b][1..] == [];
    var next := NextMark(a, mark, start);
    assert Walk(dir, [b], next, start) == WalkHere(dir, b, next, start) + Walk(dir, [], NextMark(b, next, start), start);
  }

  lemma FilterOne(dir: string, e: Entry, start: int)
    ensures Filter(dir, [e], start) == Yield(dir, e, start)
  {
    hide Yield;
    assert [e][1..] == [];
  }

  lemma FilterTwo(dir: string, a: Entry, b: Entry, start: int)
    ensures Filter(dir, [a, b], start) == Yield(dir, a, start) + Yield(dir, b, start)
  {
    hide Yield;
    assert [a, b][1..] == [b];
    FilterOne(dir, b, start);
  }

  lemma SomeNumbers()
    ensures NumberOf("3000") == Some(3000) && NumberOf("2600") == Some(2600) && NumberOf("7") == Some(7)
  {
    hide DecimalValue;
    FourDigits("3000");
    FourDigits("2600");
    OneDigit("7");
    hide NumberOf;
    NumberOfDigits("3000");
    NumberOfDigits("2600");
    NumberOfDigits("7");
  }

  lemma OneDigit(s: string)
    requires |s| == 1 && AllDigits(s)
    ensures DecimalValue(s) == DigitValue(s[0])
  {
    assert s[..0] == "";
  }

  lemma FourDigits(s: string)
    requires |s| == 4 && AllDigits(s)
    ensures DecimalValue(s)
         == 1000 * DigitValue(s[0]) + 100 * DigitValue(s[1]) + 10 * DigitValue(s[2]) + DigitValue(s[3])
  {
    OneDigit(s[..1]);
    assert s[..2][..1] == s[..1] && s[..3][..2] == s[..2];
    assert DecimalValue(s[..2]) == 10 * DecimalValue(s[..1]) + DigitValue(s[1]);
    assert DecimalValue(s[..3]) == 10 * DecimalValue(s[..2]) + DigitValue(s[2]);
  }

  lemma NumberOfDigits(s: string)
    requires s != "" && AllDigits(s)
    ensures NumberOf(s) == if DecimalValue(s) <= LONG_MAX then Some(DecimalValue(s)) else None
  {
    assert s + "" == s;
    DigitRunOf(s, "");
    assert IsDigit(s[0]);
  }

  /** A sign is taken, and a name that does not end in a digit is not a number. */
  lemma NumberOfSigned(s: string)
    requires s != "" && AllDigits(s)
    ensures
      var v: int := DecimalValue(s);
      && NumberOf("+" + s) == NumberOf(s)
      && NumberOf("-" + s) == if -v >= LONG_MIN then Some(-v) else None
  {
    hide DecimalValue;
    NumberOfDigits(s);
    AfterSign("+", s);
    AfterSign("-", s);
  }

  lemma AfterSign(sign: string, s: string)
    requires sign in {"+", "-"} && s != "" && AllDigits(s)
    ensures LTrim(sign + s) == sign + s && (sign + s)[1..] == s && DigitRun(s) == |s|
  {
    assert s + "" == s;
    DigitRunOf(s, "");
  }

  lemma NotANumber(name: string)
    requires name == "" || !IsDigit(name[|name| - 1])
    ensures NumberOf(name) == None
  {
    var s := LTrim(name);
    if s != "" {
      var digits := if s[0] == '-' || s[0] == '+' then s[1..] else s;
      if digits != "" {
        assert digits[|digits| - 1] == name[|name| - 1];
      }
    }
  }

  // ----- the loop as written ---------------------------------------------------------------------

  lemma WalkStep(dir: string, entries: seq<Entry>, n: nat, mark: int, start: int)
    requires n < |entries|
    ensures Walk(dir, entries[n..], mark, start)
         == WalkHere(dir, entries[n], mark, start)
            + Walk(dir, entries[n + 1..], NextMark(entries[n], mark, start), start)
  {
    hide WalkHere, NextMark;
    assert entries[n..][1..] == entries[n + 1..];
  }

  lemma WalkNone(dir: string, mark: int, start: int)
    ensures Walk(dir, [], mark, start) == []
  {
  }

  lemma PathsAssociative(a: seq<string>, b: seq<string>, c: seq<string>)
    ensures a + (b + c) == (a + b) + c
  {
  }

  class Scanner {
    const startMtime: int
    var visited: seq<string>

    constructor (startMtime: int)
      ensures visited == [] && this.startMtime == startMtime
    {
      this.startMtime, visited := startMtime, [];
    }

    /** AllGroups::recurse; visited records the calls of visit(path). */
    method Recurse(dir: string, entries: seq<Entry>)
      modifies `visited
      ensures visited == old(visited) + Walk(dir, entries, -1, startMtime)
      decreases entries
    {
      hide NumberOf, Walk, Hidden;
      var lowWaterMark := -1;
      var n := 0;
      assert entries[0..] == entries;
      while n < |entries|
        invariant n <= |entries| && lowWaterMark >= -1
        invariant visited + Walk(dir, entries[n..], lowWaterMark, startMtime)
               == old(visited) + Walk(dir, entries, -1, startMtime)
      {
        var e := entries[n];
        ghost var before, mark := visited, lowWaterMark;
        var number := NumberOf(e.name);
        var article := if number.Some? then number.value else -1;
        if !Hidden(e) && (number.None? || article >= lowWaterMark) {
          var nodepath := dir + "/" + e.name;
          if e.node.Dir? {
            Recurse(nodepath, e.node.entries);
          } else if e.node.File? && article >= 0 {
            if e.node.mtime >= startMtime {
              visited := visited + [nodepath];
            } else {
              lowWaterMark := article;
            }
          }
        }
        WalkStep(dir, entries, n, mark, startMtime);
        n := n + 1;
        PathsAssociative(before, WalkHere(dir, e, mark, startMtime), Walk(dir, entries[n..], lowWaterMark, startMtime));
      }
      WalkNone(dir, lowWaterMark, startMtime);
      assert entries[n..] == [];
    }
  }
}
