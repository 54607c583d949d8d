/** The header parser of spoolstats/Article.cc and the partial read that feeds
    it in spoolstats/AllGroups.cc. */
module ArticleHeaders {
  import opened Text

  type HeaderMap = map<string, string>

  // ----- the parser, on what is left of the text --------------------------------------------

  /** The length of the line end at the start of s, 0 if there is none. */
  function Eol(s: string): (n: nat)
    ensures n <= |s|
  {
    if |s| > 0 && s[0] == '\n' then 1
    else if |s| > 1 && s[0] == '\r' && s[1] == '\n' then 2
    else 0
  }

  /** A header ends here: a line end that no folded line follows. */
  predicate Eoh(s: string)
  {
    var n := Eol(s);
    n > 0 && !(|s| > n && IsBlank(s[n]))
  }

  /** Where the first header ends; |s| if it is truncated. */
  function HeaderEnd(s: string): (n: nat)
    ensures n <= |s| && (n < |s| ==> Eoh(s[n..]))
  {
    if s == "" || Eoh(s) then 0 else 1 + HeaderEnd(s[1..])
  }

  /** Where the first colon is; |s| if there is none. */
  function Colon(s: string): (n: nat)
    ensures n <= |s| && (n < |s| ==> s[n] == ':')
  {
    if s == "" || s[0] == ':' then 0 else 1 + Colon(s[1..])
  }

  /** One header, line end removed. Blanks before the value are dropped; those
      after it stay, for all that the code has a loop to drop them: its guard
      never holds. */
  function Store(header: string, m: HeaderMap): HeaderMap
  {
    var colon := Colon(header);
    if colon == |header| then m
    else m[Lower(header[..colon]) := SkipWs(header[colon + 1..])]
  }

  function Parse(s: string, m: HeaderMap): HeaderMap
    decreases |s|
  {
    var h := HeaderEnd(s);
    if s == "" || Eol(s) > 0 || h == |s| then m
    else
      EolOfEoh(s, h);
      Parse(s[h + Eol(s[h..])..], Store(s[..h], m))
  }

  lemma EolOfEoh(s: string, h: nat)
    requires h < |s| && Eoh(s[h..])
    ensures 0 < Eol(s[h..]) && h + Eol(s[h..]) <= |s|
  {
  }

  // ----- reading only the start ----------------------------------------------------------------

  predicate BlankLineAt(s: string, i: nat)
    requires i <= |s|
  {
    "\n\n" <= s[i..] || "\r\n\r\n" <= s[i..]
  }

  ghost predicate HasBlankLine(s: string)
  {
    exists i :: 0 <= i <= |s| && BlankLineAt(s, i)
  }

  lemma EolOfPrefix(p: string, t: string)
    requires p <= t && Eol(p) > 0
    ensures Eol(t) == Eol(p)
  {
  }

  /** Before or at the blank line, line ends and header ends look the same in a
      prefix as in the whole. */
  lemma SameStart(p: string, t: string, i: nat)
    requires p <= t && i <= |p| && BlankLineAt(p, i)
    ensures Eol(p) == Eol(t) && Eoh(p) == Eoh(t)
    ensures i == 0 ==> Eoh(p)
  {
    var b := p[i..];
    assert b[0] == p[i] && b[1] == p[i + 1];
    if b[0] == '\r' {
      assert b[2] == p[i + 2] && b[3] == p[i + 3];
    }
  }

  lemma EndsAtOnce(s: string)
    requires Eoh(s)
    ensures HeaderEnd(s) == 0
  {
  }

  /** Up to the blank line, both texts end their first header at the same place. */
  lemma {:induction false} SameHeaderEnd(p: string, t: string, i: nat)
    requires p <= t && i <= |p| && BlankLineAt(p, i)
    ensures HeaderEnd(p) == HeaderEnd(t) <= i
    ensures Eol(p[HeaderEnd(p)..]) == Eol(t[HeaderEnd(p)..])
    decreases i
  {
    hide Eol, Eoh, BlankLineAt;
    SameStart(p, t, i);
    if Eoh(p) {
      EndsAtOnce(p);
      EndsAtOnce(t);
      assert p[0..] == p && t[0..] == t;
    } else {
      BlankLineLater(p, i);
      SameHeaderEnd(p[1..], t[1..], i - 1);
      var h := HeaderEnd(p[1..]);
      assert p[1..][h..] == p[h + 1..];
      assert t[1..][h..] == t[h + 1..];
    }
  }

  lemma BlankLineLater(p: string, i: nat)
    requires 0 < i <= |p| && BlankLineAt(p, i)
    ensures BlankLineAt(p[1..], i - 1) && i + 1 < |p|
  {
    assert p[1..][i - 1..] == p[i..];
  }

  lemma BlankLineChars(p: string, i: nat)
    requires i <= |p| && BlankLineAt(p, i)
    ensures i + 1 < |p|
    ensures
      || (p[i] == '\n' && p[i + 1] == '\n')
      || (i + 3 < |p| && p[i] == '\r' && p[i + 1] == '\n' && p[i + 2] == '\r' && p[i + 3] == '\n')
  {
    var b := p[i..];
    assert b[0] == p[i] && b[1] == p[i + 1];
    if b[0] == '\r' {
      assert b[2] == p[i + 2] && b[3] == p[i + 3];
    }
  }

  lemma BlankLineShift(p: string, next: nat, i: nat)
    requires next <= i <= |p| && BlankLineAt(p, i)
    ensures BlankLineAt(p[next..], i - next)
  {
    assert p[next..][i - next..] == p[i..];
  }

  lemma EolChars(p: string, h: nat)
    requires h <= |p|
    ensures
      Eol(p[h..]) ==
      if h < |p| && p[h] == '\n' then 1
      else if h + 1 < |p| && p[h] == '\r' && p[h + 1] == '\n' then 2
      else 0
  {
  }

  /** After the first header the rest starts with a line end or still holds the
      blank line. */
  lemma RestHasBlankLine(p: string, i: nat)
    requires i <= |p| && BlankLineAt(p, i) && HeaderEnd(p) <= i && HeaderEnd(p) < |p|
    ensures
      var next := HeaderEnd(p) + Eol(p[HeaderEnd(p)..]);
      next <= |p| && (Eol(p[next..]) > 0 || (next <= i && BlankLineAt(p[next..], i - next)))
  {
    hide HeaderEnd, Eol, Eoh, BlankLineAt;
    var h := HeaderEnd(p);
    EolChars(p, h);
    BlankLineChars(p, i);
    var next := h + Eol(p[h..]);
    if next <= i {
      BlankLineShift(p, next, i);
    } else {
      EolChars(p, next);
    }
  }

  /** Parsing any prefix that holds a blank line gives the same headers as
      parsing the whole article. */
  lemma {:induction false} PrefixSuffices(p: string, t: string, m: HeaderMap)
    requires p <= t
    requires Eol(p) > 0 || HasBlankLine(p)
    ensures Parse(p, m) == Parse(t, m)
    decreases |p|
  {
    hide HeaderEnd, Store, Eol, Eoh, BlankLineAt;
    if Eol(p) > 0 {
      EolOfPrefix(p, t);
    } else {
      var i :| 0 <= i <= |p| && BlankLineAt(p, i);
      SameStart(p, t, i);
      SameHeaderEnd(p, t, i);
      BlankLineInside(p, i);
      RestHasBlankLine(p, i);
      var h := HeaderEnd(p);
      var next := h + Eol(p[h..]);
      EolOfEoh(p, h);
      assert p[next..] <= t[next..];
      assert p[..h] == t[..h];
      if Eol(p[next..]) == 0 {
        assert BlankLineAt(p[next..], i - next);
      }
      PrefixSuffices(p[next..], t[next..], Store(p[..h], m));
    }
  }

  lemma BlankLineInside(p: string, i: nat)
    requires i <= |p| && BlankLineAt(p, i)
    ensures i + 1 < |p|
  {
  }

  // ----- rendering headers -------------------------------------------------------------------------

  /** A header as an article may have it: blanks after the colon, folded lines in
      the value, and either line end. */
  datatype Field = Field(name: string, pad: string, value: string, crlf: bool)

  function LineBreak(crlf: bool): string { if crlf then "\r\n" else "\n" }

  /** Every line end within s is followed by a blank, and a final CR does not
      run into an LF. */
  predicate Folded(s: string, crlf: bool)
  {
    && (forall i :: 0 <= i < |s| && s[i] == '\n' ==> i + 1 < |s| && IsBlank(s[i + 1]))
    && (s != "" && s[|s| - 1] == '\r' ==> crlf)
  }

  predicate GoodField(f: Field)
  {
    && ':' !in f.name && '\n' !in f.name
    && (f.name != "" ==> !IsBlank(f.name[0]))
    && (forall i :: 0 <= i < |f.pad| ==> IsBlank(f.pad[i]))
    && (f.value != "" ==> !IsBlank(f.value[0]))
    && Folded(f.value, f.crlf)
  }

  function FieldText(f: Field): string { f.name + (":" + (f.pad + f.value)) }

  predicate GoodFields(fields: seq<Field>) { forall i :: 0 <= i < |fields| ==> GoodField(fields[i]) }

  function Render(fields: seq<Field>, tail: string): string
  {
    if fields == [] then tail
    else FieldText(fields[0]) + (LineBreak(fields[0].crlf) + Render(fields[1..], tail))
  }

  function StoreAll(fields: seq<Field>, m: HeaderMap): HeaderMap
  {
    if fields == [] then m
    else StoreAll(fields[1..], m[Lower(fields[0].name) := fields[0].value])
  }

  lemma {:induction false} HeaderEndOf(x: string, crlf: bool, rest: string)
    requires Folded(x, crlf) && (rest == "" || !IsBlank(rest[0]))
    ensures HeaderEnd(x + (LineBreak(crlf) + rest)) == |x|
  {
    hide Folded, LineBreak, Eoh, HeaderEnd;
    var s := x + (LineBreak(crlf) + rest);
    if x == "" {
      assert s == LineBreak(crlf) + rest;
      EndsAtBreak(crlf, rest);
      EndsAtOnce(s);
    } else {
      FoldedTail(x, crlf);
      HeaderEndOf(x[1..], crlf, rest);
      assert s[1..] == x[1..] + (LineBreak(crlf) + rest);
      NotEndedInside(x, crlf, rest);
      EndsLater(s);
    }
  }

  lemma EndsAtBreak(crlf: bool, rest: string)
    requires rest == "" || !IsBlank(rest[0])
    ensures Eoh(LineBreak(crlf) + rest)
  {
    var s := LineBreak(crlf) + rest;
    assert s[Eol(s)..] == rest;
  }

  lemma EndsLater(s: string)
    requires s != "" && !Eoh(s)
    ensures HeaderEnd(s) == 1 + HeaderEnd(s[1..])
  {
    hide Eoh;
  }

  lemma NotEndedInside(x: string, crlf: bool, rest: string)
    requires x != "" && Folded(x, crlf)
    ensures !Eoh(x + (LineBreak(crlf) + rest))
  {
    var s := x + (LineBreak(crlf) + rest);
    if x[0] == '\n' {
      assert IsBlank(s[1]);
    } else if x[0] == '\r' {
      if |x| == 1 {
        assert s[1] == '\r';
      } else if x[1] == '\n' {
        assert IsBlank(s[2]);
      }
    }
  }

  lemma {:induction false} ColonOf(name: string, rest: string)
    requires ':' !in name
    ensures Colon(name + (":" + rest)) == |name|
  {
    var s := name + (":" + rest);
    if name != "" {
      assert s[1..] == name[1..] + (":" + rest);
      ColonOf(name[1..], rest);
    }
  }

  lemma {:induction false} SkipPad(pad: string, value: string)
    requires forall i :: 0 <= i < |pad| ==> IsBlank(pad[i])
    requires value != "" ==> !IsBlank(value[0])
    ensures SkipWs(pad + value) == value
  {
    if pad == "" {
      assert pad + value == value;
    } else {
      assert (pad + value)[1..] == pad[1..] + value;
      SkipPad(pad[1..], value);
    }
  }

  lemma StoreField(f: Field, m: HeaderMap)
    requires GoodField(f)
    ensures Store(FieldText(f), m) == m[Lower(f.name) := f.value]
  {
    hide SkipWs, Colon;
    var s := FieldText(f);
    ColonOf(f.name, f.pad + f.value);
    SkipPad(f.pad, f.value);
    assert s[..|f.name|] == f.name;
    assert s[|f.name| + 1..] == f.pad + f.value;
  }

  lemma FoldedTail(x: string, crlf: bool)
    requires x != "" && Folded(x, crlf)
    ensures Folded(x[1..], crlf)
  {
  }

  lemma {:induction false} FoldedPrepend(a: string, x: string, crlf: bool)
    requires Folded(x, crlf) && '\n' !in a
    requires x == "" && a != "" ==> a[|a| - 1] != '\r'
    ensures Folded(a + x, crlf)
  {
    if a == "" {
      assert a + x == x;
    } else {
      FoldedPrepend(a[1..], x, crlf);
      var y := a[1..] + x;
      assert a + x == [a[0]] + y;
    }
  }

  lemma FieldIsFolded(f: Field)
    requires GoodField(f)
    ensures Folded(FieldText(f), f.crlf)
  {
    hide Folded;
    assert Folded("", f.crlf) by { EmptyIsFolded(f.crlf); }
    FoldedPrepend(f.pad, f.value, f.crlf);
    FoldedPrepend(f.name + ":", f.pad + f.value, f.crlf);
    assert FieldText(f) == (f.name + ":") + (f.pad + f.value);
  }

  lemma EmptyIsFolded(crlf: bool)
    ensures Folded("", crlf)
  {
  }

  lemma FieldStarts(f: Field)
    requires GoodField(f)
    ensures FieldText(f) != "" && !IsBlank(FieldText(f)[0]) && FieldText(f)[0] != '\n'
    ensures |FieldText(f)| > 1 && FieldText(f)[0] == '\r' ==> FieldText(f)[1] != '\n'
  {
    hide Folded;
    if |f.name| > 1 {
      assert FieldText(f)[1] == f.name[1];
    }
  }

  lemma RenderStarts(fields: seq<Field>, tail: string)
    requires GoodFields(fields) && (tail == "" || !IsBlank(tail[0]))
    ensures var r := Render(fields, tail); r == "" || !IsBlank(r[0])
  {
    if fields != [] {
      FieldStarts(fields[0]);
      assert Render(fields, tail)[0] == FieldText(fields[0])[0];
    }
  }

  /** Parsing rendered headers gives every name in lower case with its value,
      a later header replacing an earlier one of the same name. */
  lemma {:induction false} ParseRendered(fields: seq<Field>, crlf: bool, body: string, m: HeaderMap)
    requires GoodFields(fields)
    ensures Parse(Render(fields, LineBreak(crlf) + body), m) == StoreAll(fields, m)
    decreases |fields|
  {
    var tail := LineBreak(crlf) + body;
    if fields != [] {
      hide Store, FieldText, LineBreak, HeaderEnd, GoodField;
      var f, rest := fields[0], Render(fields[1..], tail);
      TailStarts(crlf, body);
      RenderStarts(fields[1..], tail);
      FieldStarts(f);
      FieldIsFolded(f);
      HeaderEndOf(FieldText(f), f.crlf, rest);
      StoreField(f, m);
      ParseOne(FieldText(f), f.crlf, rest, m);
      ParseRendered(fields[1..], crlf, body, m[Lower(f.name) := f.value]);
    }
  }

  lemma TailStarts(crlf: bool, body: string)
    ensures var t := LineBreak(crlf) + body; t != "" && !IsBlank(t[0]) && Eol(t) > 0
  {
  }

  lemma ParseOne(x: string, crlf: bool, rest: string, m: HeaderMap)
    requires x != "" && x[0] != '\n' && (|x| > 1 && x[0] == '\r' ==> x[1] != '\n')
    requires x[|x| - 1] == '\r' ==> crlf
    requires HeaderEnd(x + (LineBreak(crlf) + rest)) == |x|
    ensures Parse(x + (LineBreak(crlf) + rest), m) == Parse(rest, Store(x, m))
  {
    hide Store, HeaderEnd, Eol, LineBreak, Eoh;
    var b := LineBreak(crlf);
    var s := x + (b + rest);
    NotAtLineEnd(x, crlf, rest);
    EolOfBreak(crlf, rest);
    assert s[..|x|] == x;
    assert s[|x|..] == b + rest;
    assert s[|x| + |b|..] == rest;
  }

  /** A line without a colon is passed over. */
  lemma NoColonIsSkipped(x: string, crlf: bool, rest: string, m: HeaderMap)
    requires x != "" && ':' !in x && '\n' !in x && x[|x| - 1] != '\r' && (rest == "" || !IsBlank(rest[0]))
    ensures Parse(x + (LineBreak(crlf) + rest), m) == Parse(rest, m)
  {
    hide Parse, Store, HeaderEnd, LineBreak;
    HeaderEndOf(x, crlf, rest);
    ParseOne(x, crlf, rest, m);
    NothingStored(x, m);
  }

  lemma {:induction false} NoColon(x: string)
    requires ':' !in x
    ensures Colon(x) == |x|
  {
    if x != "" {
      NoColon(x[1..]);
    }
  }

  lemma NothingStored(x: string, m: HeaderMap)
    requires ':' !in x
    ensures Store(x, m) == m
  {
    NoColon(x);
  }

  /** A header whose end is missing is passed over too. */
  lemma TruncatedIsSkipped(x: string, m: HeaderMap)
    requires '\n' !in x
    ensures Parse(x, m) == m
  {
    hide Store;
    NoEnd(x);
  }

  lemma {:induction false} NoEnd(x: string)
    requires '\n' !in x
    ensures HeaderEnd(x) == |x|
  {
    if x != "" {
      NoEnd(x[1..]);
    }
  }

  lemma NotAtLineEnd(x: string, crlf: bool, rest: string)
    requires x != "" && x[0] != '\n' && (|x| > 1 && x[0] == '\r' ==> x[1] != '\n')
    requires x[|x| - 1] == '\r' ==> crlf
    ensures Eol(x + (LineBreak(crlf) + rest)) == 0
  {
    var s := x + (LineBreak(crlf) + rest);
    assert s[0] == x[0];
    assert |x| > 1 ==> s[1] == x[1];
  }

  lemma EolOfBreak(crlf: bool, rest: string)
    ensures Eol(LineBreak(crlf) + rest) == |LineBreak(crlf)| > 0
  {
  }

  /** Blanks at the end of a value stay: the loop that should drop them has a guard
      that never holds. */
  lemma TrailingBlanksStay(body: string)
    ensures Parse("From: x \n\n" + body, map[]) == map["from" := "x "]
  {
    hide Parse;
    var f := Field("From", " ", "x ", false);
    assert GoodField(f);
    ParseRendered([f], false, body, map[]);
    assert [f][1..] == [];
    assert Render([], "\n" + body) == "\n" + body;
    assert FieldText(f) == "From: x ";
    assert "From: x \n\n" + body == FieldText(f) + ("\n" + ("\n" + body));
    assert Lower("From") == "from";
    assert StoreAll([], map["from" := "x "]) == map["from" := "x "];
  }

  predicate Occurs(fields: seq<Field>, key: string)
  {
    exists i :: 0 <= i < |fields| && Lower(fields[i].name) == key
  }

  predicate IsLast(fields: seq<Field>, i: int, key: string)
  {
    0 <= i < |fields| && Lower(fields[i].name) == key
    && forall j :: i < j < |fields| ==> Lower(fields[j].name) != key
  }

  /** What "last one wins" means, for every key. */
  lemma {:induction false} LastOneWins(fields: seq<Field>, m: HeaderMap, key: string)
    ensures key in StoreAll(fields, m) <==>
              key in m || Occurs(fields, key)
    ensures forall i :: IsLast(fields, i, key) ==> StoreAll(fields, m)[key] == fields[i].value
    ensures key in m && !Occurs(fields, key) ==> StoreAll(fields, m)[key] == m[key]
    decreases |fields|
  {
    hide Lower;
    if fields != [] {
      var f, rest := fields[0], fields[1..];
      LastOneWins(rest, m[Lower(f.name) := f.value], key);
      assert forall i :: 0 < i < |fields| ==> fields[i] == rest[i - 1];
      assert Occurs(fields, key) <==> Lower(f.name) == key || Occurs(rest, key) by {
        if Occurs(rest, key) {
          var i :| 0 <= i < |rest| && Lower(rest[i].name) == key;
          assert Lower(fields[i + 1].name) == key;
        }
      }
      forall i | IsLast(fields, i, key)
        ensures StoreAll(fields, m)[key] == fields[i].value
      {
        if i > 0 {
          assert IsLast(rest, i - 1, key);
        }
      }
    }
  }

  // ----- the parser as written ------------------------------------------------------------------------

  class Article {
    var headers: HeaderMap
    var bytes: nat

    constructor (text: string, bytes: nat)
      ensures headers == Parse(text, map[]) && this.bytes == bytes
    {
      headers, this.bytes := map[], bytes;
      new;
      ParseText(text);
    }

    /** Article::parse: pos moves past one header at a time. */
    method ParseText(text: string)
      modifies this`headers
      ensures headers == Parse(text, old(headers))
    {
      hide Store, HeaderEnd, Eol, Eoh;
      var pos := 0;
      assert text[0..] == text;
      while pos < |text|
        invariant pos <= |text|
        invariant Parse(text[pos..], headers) == Parse(text, old(headers))
        decreases |text| - pos
      {
        if Eol(text[pos..]) > 0 {
          return;  // end of headers
        }
        var headerEnd := EndOfHeader(text, pos);
        if headerEnd >= |text| {
          return;  // truncated
        }
        ghost var s, h := text[pos..], headerEnd - pos;
        EolOfEoh(s, h);
        assert s[..h] == text[pos..headerEnd] && s[h..] == text[headerEnd..];
        var header := text[pos..headerEnd];
        pos := headerEnd + Eol(text[headerEnd..]);
        assert s[h + Eol(s[h..])..] == text[pos..];
        headers := Store(header, headers);
      }
    }

    method EndOfHeader(text: string, pos: nat) returns (headerEnd: nat)
      requires pos <= |text|
      ensures headerEnd == pos + HeaderEnd(text[pos..])
    {
      hide Eoh;
      headerEnd := pos;
      while headerEnd < |text| && !Eoh(text[headerEnd..])
        invariant pos <= headerEnd <= |text|
        invariant pos + HeaderEnd(text[pos..]) == headerEnd + HeaderEnd(text[headerEnd..])
      {
        assert text[headerEnd..][1..] == text[headerEnd + 1..];
        headerEnd := headerEnd + 1;
      }
    }
  }

  const READ_SIZE: nat := 2048

  /** The reading loop of AllGroups::visit: pieces are appended until the text
      holds a blank line or the file ends. pieces is what read(2) returns: at
      least one byte while there are any, and never more than asked for. */
  method ReadHead(file: string, pieces: seq<nat>) returns (article: string)
    ensures Parse(article, map[]) == Parse(file, map[])
  {
    article := "";
    var turn := 0;
    while |article| < |file| && !FindsBlankLine(article)
      invariant article <= file
      decreases |file| - |article|
    {
      var left := |file| - |article|;
      var most := if left < READ_SIZE then left else READ_SIZE;
      var count := if turn < |pieces| && 0 < pieces[turn] <= most then pieces[turn] else most;
      article := article + file[|article|..|article| + count];
      turn := turn + 1;
    }
    if |article| < |file| {
      FindIsHas(article);
      PrefixSuffices(article, file, map[]);
    } else {
      assert article == file;
    }
  }

  /** article.find("\n\n") or article.find("\r\n\r\n") */
  predicate FindsBlankLine(s: string)
  {
    BlankLineAt(s, 0) || (s != "" && FindsBlankLine(s[1..]))
  }

  lemma {:induction false} FindIsHas(s: string)
    requires FindsBlankLine(s)
    ensures HasBlankLine(s)
  {
    if !BlankLineAt(s, 0) {
      FindIsHas(s[1..]);
      var i :| 0 <= i <= |s[1..]| && BlankLineAt(s[1..], i);
      assert s[1..][i..] == s[i + 1..];
      assert BlankLineAt(s, i + 1);
    }
  }
}
