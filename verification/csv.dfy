/** The CSV dialect of lib/parse_csv.cc: integers and quoted strings with octal
    escapes. */
module Csv {
  import opened Text

  const INTMAX_MAX: nat := 0x7FFF_FFFF_FFFF_FFFF

  datatype Value = Text(s: string) | Integer(n: int)

  /** Characters are bytes. */
  predicate Bytes(s: string) { forall i :: 0 <= i < |s| ==> s[i] as int < 256 }

  predicate SevenBit(s: string) { forall i :: 0 <= i < |s| ==> s[i] as int < 128 }

  predicate IsOctal(c: char) { '0' <= c <= '7' }

  predicate AllOctal(s: string) { forall i :: 0 <= i < |s| ==> IsOctal(s[i]) }

  // ----- printing ------------------------------------------------------------------------

  function Octal(n: nat): (s: string)
    ensures s != "" && AllOctal(s)
  {
    if n < 8 then [DigitChar(n)] else Octal(n / 8) + [DigitChar(n % 8)]
  }

  /** oct << setw(3) << setfill('0'), for an int: a negative one is printed as
      its 32-bit pattern. */
  function OctalField(v: int): (s: string)
    requires -128 <= v < 256
    ensures |s| >= 3 && AllOctal(s)
  {
    var d := Octal(if v < 0 then 0x1_0000_0000 + v else v);
    if |d| == 1 then "00" + d else if |d| == 2 then "0" + d else d
  }

  /** The value of a char, which the C++ implementation may take to be signed. */
  function CharValue(c: char, signed: bool): (v: int)
    requires c as int < 256
    ensures -128 <= v < 256
  {
    if signed && c as int >= 128 then c as int - 256 else c as int
  }

  function QuoteChar(c: char, signed: bool): string
    requires c as int < 256
  {
    var v := CharValue(c, signed);
    if c == '"' || c == '\\' then ['\\', c]
    else if v < 0x20 || v > 0x7E then "\\" + OctalField(v)
    else [c]
  }

  function QuoteBody(s: string, signed: bool): string
    requires Bytes(s)
  {
    if s == "" then "" else QuoteChar(s[0], signed) + QuoteBody(s[1..], signed)
  }

  /** csv_quote */
  function Quote(s: string, signed: bool): string
    requires Bytes(s)
  {
    "\"" + QuoteBody(s, signed) + "\""
  }

  predicate Printable(v: Value)
  {
    match v
    case Text(s) => Bytes(s)
    case Integer(n) => 0 <= n <= INTMAX_MAX
  }

  predicate PrintableRow(row: seq<Value>) { forall i :: 0 <= i < |row| ==> Printable(row[i]) }

  predicate PrintableRows(rows: seq<seq<Value>>) { forall i :: 0 <= i < |rows| ==> PrintableRow(rows[i]) }

  function PrintValue(v: Value, signed: bool): string
    requires Printable(v)
  {
    match v
    case Text(s) => Quote(s, signed)
    case Integer(n) => Decimal(n)
  }

  /** The values of a row with commas between them. */
  function PrintRow(row: seq<Value>, signed: bool): string
    requires PrintableRow(row)
  {
    if row == [] then ""
    else if |row| == 1 then PrintValue(row[0], signed)
    else PrintValue(row[0], signed) + ("," + PrintRow(row[1..], signed))
  }

  function PrintRows(rows: seq<seq<Value>>, signed: bool): string
    requires PrintableRows(rows)
  {
    if rows == [] then "" else PrintRow(rows[0], signed) + ("\n" + PrintRows(rows[1..], signed))
  }

  // ----- reading, on what is left of the line; None for an exception ------------------------

  /** Up to three octal digits into a char, from count digits already read.
      Running off the end of the line is an exception. */
  function ReadOctal(s: string, count: nat, ch: nat): (r: Option<(char, string)>)
    requires count <= 3 && ch < 256
    ensures r.Some? ==> |r.value.1| <= |s|
    decreases 3 - count
  {
    if count == 3 then Some((ch as char, s))
    else if s == "" then None
    else if IsOctal(s[0]) then ReadOctal(s[1..], count + 1, (8 * ch + DigitValue(s[0])) % 256)
    else Some((ch as char, s))
  }

  /** What follows a backslash. */
  function ReadEscape(s: string): (r: Option<(char, string)>)
    ensures r.Some? ==> |r.value.1| <= |s|
  {
    if s == "" then None
    else if IsDigit(s[0]) then ReadOctal(s, 0, 0)
    else Some((s[0], s[1..]))
  }

  /** The rest of a string, up to and past its closing quote. */
  function ReadString(s: string): (r: Option<(string, string)>)
    ensures r.Some? ==> |r.value.1| < |s|
    decreases |s|
  {
    if s == "" then None
    else if s[0] == '"' then Some(("", s[1..]))
    else
      var (ch, rest) :- if s[0] == '\\' then ReadEscape(s[1..]) else Some((s[0], s[1..]));
      var (text, rest') :- ReadString(rest);
      Some(([ch] + text, rest'))
  }

  function Capped(n: nat): int { if n <= INTMAX_MAX then n else INTMAX_MAX }

  function ReadValue(s: string): (r: Option<(Value, string)>)
    requires s != ""
    ensures r.Some? ==> |r.value.1| < |s|
  {
    if IsDigit(s[0]) then
      var n := DigitRun(s);
      Some((Integer(Capped(DecimalValue(s[..n]))), s[n..]))
    else if s[0] == '"' then
      var (text, rest) :- ReadString(s[1..]);
      Some((Text(text), rest))
    else None
  }

  /** One line without its newline. */
  function ReadRow(s: string): Option<seq<Value>>
    decreases |s|
  {
    if s == "" then Some([])
    else
      var (v, rest) :- ReadValue(s);
      if rest == "" then Some([v])
      else if rest[0] != ',' then None
      else
        var row :- ReadRow(rest[1..]);
        Some([v] + row)
  }

  function LineEnd(file: string): (n: nat)
    ensures n <= |file| && (n < |file| ==> file[n] == '\n')
    ensures '\n' !in file[..n]
  {
    if file == "" || file[0] == '\n' then 0 else 1 + LineEnd(file[1..])
  }

  /** A whole file: a line must end in a newline and not contain a NUL. */
  function ReadRows(file: string): Option<seq<seq<Value>>>
    decreases |file|
  {
    if file == "" then Some([])
    else
      var n := LineEnd(file);
      if n == |file| || '\0' in file[..n] then None
      else
        var row :- ReadRow(file[..n]);
        var rows :- ReadRows(file[n + 1..]);
        Some([row] + rows)
  }

  // ----- one character ------------------------------------------------------------------------

  lemma OctalDigits(v: nat)
    requires v < 256
    ensures OctalField(v) == [DigitChar(v / 64), DigitChar(v / 8 % 8), DigitChar(v % 8)]
  {
    if v >= 64 {
      assert Octal(v / 8 / 8) == [DigitChar(v / 64)];
      assert Octal(v / 8) == Octal(v / 8 / 8) + [DigitChar(v / 8 % 8)];
    } else if v >= 8 {
      assert Octal(v / 8) == [DigitChar(v / 8)];
    }
  }

  /** Three octal digits are always taken together, even before another digit. */
  lemma ReadThreeDigits(a: char, b: char, c: char, rest: string)
    requires IsOctal(a) && IsOctal(b) && IsOctal(c)
    ensures
      var n := 64 * DigitValue(a) + 8 * DigitValue(b) + DigitValue(c);
      ReadEscape([a, b, c] + rest) == Some(((n % 256) as char, rest))
  {
    hide ReadOctal, DigitValue, IsOctal;
    OctalValue(a);
    OctalValue(b);
    OctalValue(c);
    var x, y, z := DigitValue(a), DigitValue(b), DigitValue(c);
    Below256(x);
    Below256(8 * x + y);
    ReadOneDigit(a, [b, c] + rest, 0, 0);
    ReadOneDigit(b, [c] + rest, 1, x);
    ReadOneDigit(c, rest, 2, 8 * x + y);
    ReadNoMore(rest, (64 * x + 8 * y + z) % 256);
    assert IsDigit(a) && ([a, b, c] + rest)[0] == a;
    assert [a, b, c] + rest == [a] + ([b, c] + rest);
    assert [b, c] + rest == [b] + ([c] + rest);
  }

  lemma OctalValue(c: char)
    requires IsOctal(c)
    ensures IsDigit(c) && DigitValue(c) < 8
  {
  }

  lemma Below256(n: nat)
    requires n < 256
    ensures n % 256 == n
  {
  }

  lemma ReadNoMore(rest: string, ch: nat)
    requires ch < 256
    ensures ReadOctal(rest, 3, ch) == Some((ch as char, rest))
  {
  }

  lemma ReadOneDigit(c: char, rest: string, count: nat, ch: nat)
    requires IsOctal(c) && count < 3 && ch < 256
    ensures ReadOctal([c] + rest, count, ch) == ReadOctal(rest, count + 1, (8 * ch + DigitValue(c)) % 256)
  {
    assert ([c] + rest)[1..] == rest;
  }

  /** The character goes through if its value is not negative. */
  lemma ReadQuotedChar(c: char, signed: bool, rest: string)
    requires c as int < 256 && (signed ==> c as int < 128)
    ensures ReadString(QuoteChar(c, signed) + rest) == Prepend([c], ReadString(rest))
  {
    hide ReadEscape, OctalField, ReadString;
    var v := c as int;
    if c == '"' || c == '\\' {
      EscapedItself(c, rest);
      ReadEscaped([c], c, rest);
      assert ['\\', c] + rest == "\\" + [c] + rest;
    } else if v < 0x20 || v > 0x7E {
      hide QuoteChar, Prepend;
      ReadOctalChar(c, rest);
      assert QuoteChar(c, signed) == "\\" + OctalField(v) by { QuoteOctal(c, signed); }
    } else {
      ReadLiteral(c, rest);
    }
  }

  lemma QuoteOctal(c: char, signed: bool)
    requires c as int < 256 && (signed ==> c as int < 128)
    requires c != '"' && c != '\\' && (c as int < 0x20 || c as int > 0x7E)
    ensures QuoteChar(c, signed) == "\\" + OctalField(c as int)
  {
    hide OctalField;
  }

  lemma ThreeOctalDigits(v: nat)
    requires v < 256
    ensures 64 * (v / 64) + 8 * (v / 8 % 8) + v % 8 == v
  {
  }

  lemma ReadOctalChar(c: char, rest: string)
    requires c as int < 256
    ensures ReadString("\\" + OctalField(c as int) + rest) == Prepend([c], ReadString(rest))
  {
    hide ReadEscape, OctalField, ReadString, Prepend;
    var v := c as int;
    var d := OctalField(v);
    OctalDigits(v);
    ThreeOctalDigits(v);
    ReadThreeDigits(d[0], d[1], d[2], rest);
    ReadEscaped(d, c, rest);
  }

  /** One more character, or more, in front of what was read. */
  function Prepend(x: string, r: Option<(string, string)>): Option<(string, string)>
  {
    match r
    case None => None
    case Some(t) => Some((x + t.0, t.1))
  }

  lemma ReadEscaped(escape: string, ch: char, rest: string)
    requires ReadEscape(escape + rest) == Some((ch, rest))
    ensures ReadString("\\" + escape + rest) == Prepend([ch], ReadString(rest))
  {
    hide ReadEscape;
    var s := "\\" + escape + rest;
    assert s[1..] == escape + rest;
  }

  lemma ReadLiteral(c: char, rest: string)
    requires c != '"' && c != '\\'
    ensures ReadString([c] + rest) == Prepend([c], ReadString(rest))
  {
    assert ([c] + rest)[1..] == rest;
  }

  /** A backslash before anything but a digit stands for what follows it. */
  lemma EscapedItself(c: char, rest: string)
    requires !IsDigit(c)
    ensures ReadEscape([c] + rest) == Some((c, rest))
  {
    assert ([c] + rest)[1..] == rest;
  }

  /** Anything that starts with a digit is an integer, the largest if it is too
      large. */
  lemma NumberIsRead(digits: string, rest: string)
    requires digits != "" && AllDigits(digits) && (rest == "" || !IsDigit(rest[0]))
    ensures ReadValue(digits + rest)
         == Some((Integer(if DecimalValue(digits) <= INTMAX_MAX then DecimalValue(digits) else INTMAX_MAX), rest))
  {
    DigitRunOf(digits, rest);
    assert (digits + rest)[..|digits|] == digits && (digits + rest)[|digits|..] == rest;
    assert IsDigit((digits + rest)[0]);
  }

  // ----- strings ---------------------------------------------------------------------------------

  lemma {:induction false} ReadQuotedBody(s: string, signed: bool, rest: string)
    requires Bytes(s) && (signed ==> SevenBit(s))
    ensures ReadString(QuoteBody(s, signed) + ("\"" + rest)) == Some((s, rest))
    decreases |s|
  {
    hide QuoteChar;
    var tail := "\"" + rest;
    if s == "" {
      assert "" + tail == tail;
      assert tail[1..] == rest;
    } else {
      var body := QuoteBody(s[1..], signed);
      ReadQuotedBody(s[1..], signed, rest);
      assert QuoteBody(s, signed) + tail == QuoteChar(s[0], signed) + (body + tail);
      ReadQuotedChar(s[0], signed, body + tail);
      assert [s[0]] + s[1..] == s;
    }
  }

  lemma ReadQuoted(s: string, signed: bool, rest: string)
    requires Bytes(s) && (signed ==> SevenBit(s))
    ensures ReadValue(Quote(s, signed) + rest) == Some((Text(s), rest))
  {
    hide ReadString, QuoteBody;
    var q := Quote(s, signed) + rest;
    assert q[1..] == QuoteBody(s, signed) + ("\"" + rest);
    ReadQuotedBody(s, signed, rest);
  }

  // ----- where plain char is signed -----------------------------------------------------------------

  lemma {:induction false} OctalLength(n: nat, k: nat, p: nat)
    requires k >= 1 && p == Power8(k - 1) && p <= n < 8 * p
    ensures |Octal(n)| == k
  {
    if k == 1 {
      assert p == 1;
    } else {
      assert p == 8 * Power8(k - 2);
      OctalLength(n / 8, k - 1, Power8(k - 2));
    }
  }

  function Power8(k: nat): nat { if k == 0 then 1 else 8 * Power8(k - 1) }

  /** A negative char is printed as eleven digits. */
  lemma NegativeIsLong(v: int)
    requires -128 <= v < 0
    ensures |OctalField(v)| == 11
  {
    assert Power8(10) == 0x4000_0000;
    OctalLength(0x1_0000_0000 + v, 11, Power8(10));
  }

  lemma {:induction false} ReadPlain(d: string, rest: string)
    requires AllOctal(d)
    ensures ReadString(d + rest) == Prepend(d, ReadString(rest))
  {
    if d == "" {
      assert d + rest == rest;
      assert Prepend("", ReadString(rest)) == ReadString(rest) by {
        if ReadString(rest).Some? {
          assert "" + ReadString(rest).value.0 == ReadString(rest).value.0;
        }
      }
    } else {
      hide ReadString;
      ReadPlain(d[1..], rest);
      assert d + rest == [d[0]] + (d[1..] + rest);
      ReadLiteral(d[0], d[1..] + rest);
      if ReadString(rest).Some? {
        ConcatAssociative([d[0]], d[1..], ReadString(rest).value.0);
        assert [d[0]] + d[1..] == d;
      }
    }
  }

  /** A string's length after printing and reading where char is signed: every
      byte from 128 on comes back as nine. */
  function ReadLength(s: string): nat
  {
    if s == "" then 0 else (if s[0] as int >= 128 then 9 else 1) + ReadLength(s[1..])
  }

  lemma ReadNegativeChar(c: char, rest: string)
    requires 128 <= c as int < 256
    ensures ReadString(rest).Some? ==>
      var r := ReadString(QuoteChar(c, true) + rest);
      r.Some? && |r.value.0| == 9 + |ReadString(rest).value.0| && r.value.1 == ReadString(rest).value.1
  {
    hide ReadEscape, ReadString, OctalField;
    var d := OctalField(c as int - 256);
    NegativeIsLong(c as int - 256);
    var head, more := [d[0], d[1], d[2]], d[3..];
    assert QuoteChar(c, true) + rest == "\\" + head + (more + rest);
    ReadThreeDigits(d[0], d[1], d[2], more + rest);
    ReadEscaped(head, ReadEscape(head + (more + rest)).value.0, more + rest);
    ReadPlain(more, rest);
  }

  lemma {:induction false} ReadSignedBody(s: string, rest: string)
    requires Bytes(s)
    ensures
      var r := ReadString(QuoteBody(s, true) + ("\"" + rest));
      r.Some? && |r.value.0| == ReadLength(s)
    decreases |s|
  {
    hide QuoteChar;
    var tail := "\"" + rest;
    if s == "" {
      assert "" + tail == tail;
    } else {
      var more := QuoteBody(s[1..], true) + tail;
      ReadSignedBody(s[1..], rest);
      assert QuoteBody(s, true) + tail == QuoteChar(s[0], true) + more;
      if s[0] as int >= 128 {
        ReadNegativeChar(s[0], more);
      } else {
        ReadQuotedChar(s[0], true, more);
      }
    }
  }

  lemma {:induction false} LongerUnlessSevenBit(s: string)
    ensures ReadLength(s) >= |s|
    ensures ReadLength(s) == |s| ==> SevenBit(s)
  {
    if s != "" {
      LongerUnlessSevenBit(s[1..]);
      assert s == [s[0]] + s[1..];
    }
  }

  /** Where char is unsigned every string survives quoting; where it is signed
      exactly those of seven-bit characters do. */
  lemma QuoteRoundTrip(s: string, signed: bool)
    requires Bytes(s)
    ensures ReadValue(Quote(s, signed)) == Some((Text(s), "")) <==> !signed || SevenBit(s)
  {
    hide ReadString, QuoteBody;
    var q := Quote(s, signed);
    assert q + "" == q;
    if !signed || SevenBit(s) {
      ReadQuoted(s, signed, "");
    } else {
      ReadSignedBody(s, "");
      LongerUnlessSevenBit(s);
      assert q[1..] == QuoteBody(s, signed) + ("\"" + "");
    }
  }

  // ----- rows and files --------------------------------------------------------------------------------

  /** No text of the row, or file, has a character that quoting would spoil. */
  predicate Survives(v: Value, signed: bool)
  {
    Printable(v) && (signed && v.Text? ==> SevenBit(v.s))
  }

  predicate RowSurvives(row: seq<Value>, signed: bool)
  {
    forall i :: 0 <= i < |row| ==> Survives(row[i], signed)
  }

  predicate FileSurvives(rows: seq<seq<Value>>, signed: bool)
  {
    forall i :: 0 <= i < |rows| ==> RowSurvives(rows[i], signed)
  }

  lemma ReadPrintedValue(v: Value, signed: bool, rest: string)
    requires Survives(v, signed) && (rest == "" || rest[0] == ',')
    ensures PrintValue(v, signed) + rest != ""
    ensures ReadValue(PrintValue(v, signed) + rest) == Some((v, rest))
  {
    match v {
      case Text(s) =>
        hide ReadValue;
        ReadQuoted(s, signed, rest);
      case Integer(n) =>
        var d := Decimal(n);
        DigitRunOf(d, rest);
        DecimalValueOfDecimal(n);
        assert (d + rest)[..|d|] == d && (d + rest)[|d|..] == rest;
        assert IsDigit((d + rest)[0]);
    }
  }

  /** A value that does not survive is read as another one, or not at all. */
  lemma ReadSpoiltValue(v: Value, signed: bool, rest: string)
    requires Printable(v) && !Survives(v, signed)
    ensures PrintValue(v, signed) + rest != ""
    ensures ReadValue(PrintValue(v, signed) + rest).Some? ==> ReadValue(PrintValue(v, signed) + rest).value.0 != v
  {
    hide ReadString, QuoteBody, SevenBit, Bytes;
    var s := v.s;
    var q := Quote(s, true);
    ReadSignedBody(s, rest);
    LongerUnlessSevenBit(s);
    assert (q + rest)[1..] == QuoteBody(s, true) + ("\"" + rest);
  }

  lemma RowPrintsFirst(row: seq<Value>, signed: bool)
    requires row != [] && PrintableRow(row)
    ensures
      var rest := if |row| == 1 then "" else "," + PrintRow(row[1..], signed);
      PrintRow(row, signed) == PrintValue(row[0], signed) + rest
  {
    hide PrintValue;
  }

  lemma RowStartsWith(s: string)
    requires s != "" && ReadRow(s).Some?
    ensures ReadValue(s).Some? && ReadRow(s).value != [] && ReadRow(s).value[0] == ReadValue(s).value.0
  {
    hide ReadValue;
  }

  lemma RowGoesOn(v: Value, s: string, rest: string, row: seq<Value>)
    requires s != "" && ReadValue(s) == Some((v, rest)) && rest != "" && rest[0] == ','
    ensures ReadRow(s) == Some([v] + row) <==> ReadRow(rest[1..]) == Some(row)
  {
    hide ReadValue;
    if ReadRow(rest[1..]).Some? {
      var more := ReadRow(rest[1..]).value;
      assert ([v] + more)[1..] == more && ([v] + row)[1..] == row;
    }
  }

  lemma RowEnds(v: Value, s: string)
    requires s != "" && ReadValue(s) == Some((v, ""))
    ensures ReadRow(s) == Some([v])
  {
  }

  lemma EmptyRoundTrip(signed: bool)
    ensures ReadRow(PrintRow([], signed)) == Some([]) && RowSurvives([], signed)
  {
  }

  lemma RowSurvivesParts(row: seq<Value>, signed: bool)
    requires row != []
    ensures RowSurvives(row, signed) <==> Survives(row[0], signed) && RowSurvives(row[1..], signed)
  {
    hide Survives;
    assert row == [row[0]] + row[1..];
  }

  /** A printed row is read back exactly if every text in it survives. */
  lemma {:induction false} RowRoundTrip(row: seq<Value>, signed: bool)
    requires PrintableRow(row)
    ensures ReadRow(PrintRow(row, signed)) == Some(row) <==> RowSurvives(row, signed)
  {
    hide ReadValue, PrintValue, Survives, Printable, RowSurvives, ReadRow, PrintRow;
    if row == [] {
      EmptyRoundTrip(signed);
    } else {
      var v := row[0];
      RowSurvivesParts(row, signed);
      RowPrintsFirst(row, signed);
      var rest := if |row| == 1 then "" else "," + PrintRow(row[1..], signed);
      if Survives(v, signed) {
        ReadPrintedValue(v, signed, rest);
        assert row == [v] + row[1..];
        if |row| > 1 {
          RowRoundTrip(row[1..], signed);
          assert rest[1..] == PrintRow(row[1..], signed);
          RowGoesOn(v, PrintRow(row, signed), rest, row[1..]);
        } else {
          RowEnds(v, PrintRow(row, signed));
          EmptyRoundTrip(signed);
          assert row == [v] && row[1..] == [];
        }
      } else {
        ReadSpoiltValue(v, signed, rest);
        if ReadRow(PrintRow(row, signed)).Some? {
          RowStartsWith(PrintRow(row, signed));
        }
      }
    }
  }

  /** Nothing that is printed looks like the end of a line or of a C string. */
  predicate Plain(s: string) { '\n' !in s && '\0' !in s }

  predicate Visible(s: string) { forall i :: 0 <= i < |s| ==> 0x20 <= s[i] as int <= 0x7E }

  /** Whatever the string, what is printed is printable ASCII. */
  lemma {:induction false} QuoteIsVisible(s: string, signed: bool)
    requires Bytes(s)
    ensures Visible(QuoteBody(s, signed)) && Visible(Quote(s, signed))
  {
    hide QuoteChar, Visible;
    if s == "" {
      MarksAreVisible();
    } else {
      QuoteIsVisible(s[1..], signed);
      CharIsVisible(s[0], signed);
      VisibleConcat(QuoteChar(s[0], signed), QuoteBody(s[1..], signed));
    }
    MarksAreVisible();
    VisibleConcat("\"", QuoteBody(s, signed));
    VisibleConcat("\"" + QuoteBody(s, signed), "\"");
  }

  lemma MarksAreVisible()
    ensures Visible("") && Visible("\"")
  {
  }

  lemma VisibleConcat(a: string, b: string)
    requires Visible(a) && Visible(b)
    ensures Visible(a + b)
  {
  }

  lemma CharIsVisible(c: char, signed: bool)
    requires c as int < 256
    ensures Visible(QuoteChar(c, signed))
  {
  }

  /** A string of such characters without quotes and backslashes is printed as it is. */
  lemma {:induction false} PlainIsKept(s: string, signed: bool)
    requires Visible(s) && '"' !in s && '\\' !in s
    ensures Bytes(s) && QuoteBody(s, signed) == s
  {
    if s != "" {
      PlainIsKept(s[1..], signed);
      assert s == [s[0]] + s[1..];
    }
  }

  lemma {:induction false} QuoteBodyIsPlain(s: string, signed: bool)
    requires Bytes(s)
    ensures Plain(QuoteBody(s, signed))
  {
    if s != "" {
      QuoteBodyIsPlain(s[1..], signed);
      assert Plain(QuoteChar(s[0], signed));
    }
  }

  lemma {:induction false} PrintedRowIsPlain(row: seq<Value>, signed: bool)
    requires PrintableRow(row)
    ensures Plain(PrintRow(row, signed))
  {
    hide QuoteBody, Decimal;
    if row != [] {
      match row[0] {
        case Text(s) =>
          assert Printable(row[0]);
          QuoteBodyIsPlain(s, signed);
        case Integer(n) =>
          assert Printable(row[0]);
          DecimalIsPlain(n);
      }
      if |row| > 1 {
        PrintedRowIsPlain(row[1..], signed);
      }
    }
  }

  lemma DecimalIsPlain(n: nat)
    ensures Plain(Decimal(n))
  {
  }

  lemma {:induction false} LineEndOf(line: string, rest: string)
    requires '\n' !in line
    ensures LineEnd(line + ("\n" + rest)) == |line|
  {
    var s := line + ("\n" + rest);
    if line == "" {
      assert s[0] == '\n';
    } else {
      assert s[1..] == line[1..] + ("\n" + rest);
      LineEndOf(line[1..], rest);
    }
  }

  /** A printed file is read back exactly if every text in it survives. */
  lemma {:induction false} FileRoundTrip(rows: seq<seq<Value>>, signed: bool)
    requires PrintableRows(rows)
    ensures ReadRows(PrintRows(rows, signed)) == Some(rows) <==> FileSurvives(rows, signed)
  {
    hide ReadRow, PrintRow, RowSurvives, PrintableRow, ReadRows;
    if rows == [] {
      NoRows();
    } else {
      RowRoundTrip(rows[0], signed);
      PrintedRowIsPlain(rows[0], signed);
      FileStep(PrintRow(rows[0], signed), PrintRows(rows[1..], signed));
      FileRoundTrip(rows[1..], signed);
      FirstAndRest(rows, signed);
    }
  }

  lemma NoRows()
    ensures ReadRows("") == Some([])
  {
  }

  lemma FileStep(line: string, more: string)
    requires Plain(line)
    ensures
      ReadRows(line + ("\n" + more)) ==
      if ReadRow(line).None? || ReadRows(more).None? then None
      else Some([ReadRow(line).value] + ReadRows(more).value)
  {
    hide ReadRow;
    var file := line + ("\n" + more);
    LineEndOf(line, more);
    assert file[..|line|] == line && file[|line| + 1..] == more;
  }

  lemma FirstAndRest(rows: seq<seq<Value>>, signed: bool)
    requires rows != []
    ensures FileSurvives(rows, signed) <==> RowSurvives(rows[0], signed) && FileSurvives(rows[1..], signed)
    ensures forall row, more :: [row] + more == rows <==> row == rows[0] && more == rows[1..]
  {
    hide RowSurvives;
    assert rows == [rows[0]] + rows[1..];
    forall row, more: seq<seq<Value>>
      ensures [row] + more == rows <==> row == rows[0] && more == rows[1..]
    {
      assert ([row] + more)[0] == row && ([row] + more)[1..] == more;
    }
  }

  // ----- the loops as written ---------------------------------------------------------------------------

  method CsvQuote(s: string, signed: bool) returns (quoted: string)
    requires Bytes(s)
    ensures quoted == Quote(s, signed)
  {
    hide QuoteChar;
    quoted := "\"";
    var n := 0;
    assert s[0..] == s;
    while n < |s|
      invariant n <= |s|
      invariant quoted + QuoteBody(s[n..], signed) == "\"" + QuoteBody(s, signed)
    {
      ConcatAssociative(quoted, QuoteChar(s[n], signed), QuoteBody(s[n + 1..], signed));
      assert s[n..][1..] == s[n + 1..];
      quoted := quoted + QuoteChar(s[n], signed);
      n := n + 1;
    }
    assert quoted + "" == quoted;
    quoted := quoted + "\"";
  }

  /** The three-digit loop. */
  method OctalAt(ll: string, pos0: nat) returns (ok: bool, ch: char, pos: nat)
    requires pos0 <= |ll|
    ensures ok <==> ReadOctal(ll[pos0..], 0, 0).Some?
    ensures pos0 <= pos <= |ll|
    ensures ok ==> ReadOctal(ll[pos0..], 0, 0).value == (ch, ll[pos..])
  {
    pos := pos0;
    var count, value := 0, 0;
    while count < 3
      invariant pos0 <= pos <= |ll| && count <= 3 && 0 <= value < 256
      invariant ReadOctal(ll[pos..], count, value) == ReadOctal(ll[pos0..], 0, 0)
    {
      if pos == |ll| {
        return false, '\0', pos;
      }
      if !IsOctal(ll[pos]) {
        break;
      }
      assert ll[pos..][1..] == ll[pos + 1..];
      value := (8 * value + DigitValue(ll[pos])) % 256;
      pos := pos + 1;
      count := count + 1;
    }
    ok, ch := true, value as char;
  }

  /** The loop over a quoted string; ok is false for an exception. */
  method StringAt(ll: string, pos0: nat) returns (ok: bool, t: string, pos: nat)
    requires pos0 <= |ll|
    ensures pos <= |ll|
    ensures ok ==> pos > pos0 && ReadString(ll[pos0..]) == Some((t, ll[pos..]))
    ensures !ok ==> ReadString(ll[pos0..]) == None
  {
    hide ReadOctal;
    pos, t, ok := pos0, "", true;
    PrependNothing(ReadString(ll[pos0..]));
    while true
      invariant pos0 <= pos <= |ll| && ok
      invariant ReadString(ll[pos0..]) == Prepend(t, ReadString(ll[pos..]))
      decreases |ll| - pos
    {
      if pos == |ll| {
        return false, t, pos;
      }
      assert ll[pos..][1..] == ll[pos + 1..];
      if ll[pos] == '"' {
        assert t + "" == t;
        pos := pos + 1;
        return;
      }
      var ch := ll[pos];
      var next := pos + 1;
      if ch == '\\' {
        if next == |ll| {
          return false, t, pos;
        }
        assert ll[next..][1..] == ll[next + 1..];
        if IsDigit(ll[next]) {
          ok, ch, next := OctalAt(ll, next);
          if !ok {
            return;
          }
        } else {
          ch := ll[next];
          next := next + 1;
        }
      }
      PrependMore(t, [ch], ReadString(ll[next..]));
      t := t + [ch];
      pos := next;
    }
  }

  lemma PrependNothing(r: Option<(string, string)>)
    ensures Prepend("", r) == r
  {
    if r.Some? {
      assert "" + r.value.0 == r.value.0;
    }
  }

  lemma PrependMore(a: string, b: string, r: Option<(string, string)>)
    ensures Prepend(a, Prepend(b, r)) == Prepend(a + b, r)
  {
    if r.Some? {
      ConcatAssociative(a, b, r.value.0);
    }
  }

  /** The loop over the values of a line. */
  method ReadLine(ll: string) returns (ok: bool, v: seq<Value>)
    ensures ok ==> ReadRow(ll) == Some(v)
    ensures !ok ==> ReadRow(ll) == None
  {
    hide ReadString, ReadRow;
    v, ok := [], true;
    var pos := 0;
    assert ll[0..] == ll;
    AfterNothing(ReadRow(ll));
    while pos < |ll|
      invariant pos <= |ll| && ok
      invariant ReadRow(ll) == AfterValues(v, ReadRow(ll[pos..]))
      decreases |ll| - pos
    {
      var start, value := pos, Integer(0);
      ok, value, pos := ValueAt(ll, start);
      RowStep(ll[start..]);
      if !ok {
        return;
      }
      if pos < |ll| && ll[pos] != ',' {
        return false, v;  // missing comma
      }
      EmptyRow();
      assert pos < |ll| ==> ll[pos..][1..] == ll[pos + 1..];
      AfterOneMore(v, value, if pos < |ll| then ReadRow(ll[pos + 1..]) else Some([]));
      v := v + [value];
      pos := if pos < |ll| then pos + 1 else pos;
    }
    EmptyRow();
    assert ll[pos..] == "" && v + [] == v;
  }

  lemma EmptyRow()
    ensures ReadRow("") == Some([])
  {
  }

  lemma RowStep(s: string)
    requires s != ""
    ensures ReadRow(s) ==
      match ReadValue(s)
      case None => None
      case Some((v, rest)) =>
        if rest != "" && rest[0] != ',' then None
        else AfterValues([v], if rest == "" then Some([]) else ReadRow(rest[1..]))
  {
    hide ReadValue;
    if ReadValue(s).Some? {
      var v := ReadValue(s).value.0;
      assert [v] + [] == [v];
    }
  }

  method ValueAt(ll: string, start: nat) returns (ok: bool, value: Value, pos: nat)
    requires start < |ll|
    ensures pos <= |ll|
    ensures ok ==> pos > start && ReadValue(ll[start..]) == Some((value, ll[pos..]))
    ensures !ok ==> ReadValue(ll[start..]) == None
  {
    hide ReadString;
    ok, value, pos := true, Integer(0), start;
    if IsDigit(ll[pos]) {
      pos := DigitsAt(ll, pos);
      assert ll[start..][..pos - start] == ll[start..pos];
      assert ll[start..][pos - start..] == ll[pos..];
      value := Integer(Capped(DecimalValue(ll[start..pos])));
    } else if ll[pos] == '"' {
      assert ll[start..][1..] == ll[pos + 1..];
      var t;
      ok, t, pos := StringAt(ll, pos + 1);
      value := Text(t);
    } else {
      ok := false;  // syntax error
    }
  }

  method DigitsAt(ll: string, pos0: nat) returns (pos: nat)
    requires pos0 < |ll| && IsDigit(ll[pos0])
    ensures pos0 < pos <= |ll| && pos - pos0 == DigitRun(ll[pos0..]) && AllDigits(ll[pos0..pos])
  {
    pos := pos0;
    while pos < |ll| && IsDigit(ll[pos])
      invariant pos0 <= pos <= |ll| && AllDigits(ll[pos0..pos])
      invariant pos == pos0 ==> IsDigit(ll[pos])
    {
      assert ll[pos0..pos + 1] == ll[pos0..pos] + [ll[pos]];
      pos := pos + 1;
    }
    assert ll[pos0..] == ll[pos0..pos] + ll[pos..];
    DigitRunOf(ll[pos0..pos], ll[pos..]);
  }

  /** Values already read, in front of the rest of the row. */
  function AfterValues(v: seq<Value>, rest: Option<seq<Value>>): Option<seq<Value>>
  {
    match rest
    case None => None
    case Some(row) => Some(v + row)
  }

  lemma AfterNothing(rest: Option<seq<Value>>)
    ensures AfterValues([], rest) == rest
  {
    if rest.Some? {
      assert [] + rest.value == rest.value;
    }
  }

  lemma AfterOneMore(v: seq<Value>, x: Value, rest: Option<seq<Value>>)
    ensures AfterValues(v, AfterValues([x], rest)) == AfterValues(v + [x], rest)
  {
    if rest.Some? {
      assert v + ([x] + rest.value) == v + [x] + rest.value;
    }
  }
}
