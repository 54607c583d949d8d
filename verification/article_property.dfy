/** spoolstats/ArticleProperty.cc: how many articles, from which senders, have
    each value of some property; summaries of that by a coarser property; and
    the log file it is kept in. */
module ArticleProperties {
  import Csv
  import opened MapSum
  import opened Text

  datatype PropertyValue = PropertyValue(value: string, articles: nat, senders: set<string>, senderCount: nat)

  type Values = map<string, PropertyValue>

  function Fresh(value: string): PropertyValue { PropertyValue(value, 0, {}, 0) }

  /** The entry that is found, or inserted, for a value. */
  function Find(values: Values, value: string): PropertyValue
  {
    if value in values then values[value] else Fresh(value)
  }

  /** Every entry carries its own key. */
  predicate Keyed(values: Values)
  {
    forall k :: k in values ==> values[k].value == k
  }

  function ArticleMap(values: Values): map<string, int>
  {
    map k | k in values :: values[k].articles
  }

  ghost function Articles(values: Values): int { Sum(ArticleMap(values)) }

  lemma ArticlesPut(values: Values, k: string, v: PropertyValue)
    ensures Articles(values[k := v]) == Articles(values) - Find(values, k).articles + v.articles
  {
    SumPut(ArticleMap(values), k, v.articles);
    assert ArticleMap(values[k := v]) == ArticleMap(values)[k := v.articles];
  }

  // ----- update ----------------------------------------------------------------------------

  function Updated(values: Values, sender: string, value: string): Values
  {
    var v := Find(values, value);
    var senders := v.senders + {sender};
    values[value := PropertyValue(v.value, v.articles + 1, senders, |senders|)]
  }

  datatype Sighting = Sighting(sender: string, value: string)

  function UpdatedAll(history: seq<Sighting>): Values
  {
    if history == [] then map[]
    else
      var m := |history| - 1;
      Updated(UpdatedAll(history[..m]), history[m].sender, history[m].value)
  }

  function Sightings(history: seq<Sighting>, value: string): nat
  {
    if history == [] then 0
    else
      var m := |history| - 1;
      Sightings(history[..m], value) + (if history[m].value == value then 1 else 0)
  }

  function SendersOf(history: seq<Sighting>, value: string): set<string>
  {
    set i | 0 <= i < |history| && history[i].value == value :: history[i].sender
  }

  /** What the table holds for one value. */
  lemma {:induction false} UpdatesOf(history: seq<Sighting>, v: string)
    ensures v in UpdatedAll(history) <==> Sightings(history, v) > 0
    ensures Find(UpdatedAll(history), v)
         == PropertyValue(v, Sightings(history, v), SendersOf(history, v), |SendersOf(history, v)|)
  {
    hide SendersOf;
    if history == [] {
      NoSenders(v);
    } else {
      var m := |history| - 1;
      UpdatesOf(history[..m], v);
      SendersOneMore(history[..m], history[m], v);
      assert history[..m] + [history[m]] == history;
    }
  }

  lemma {:induction false} UpdatesTotal(history: seq<Sighting>)
    ensures Articles(UpdatedAll(history)) == |history|
  {
    hide Articles;
    if history == [] {
      NoArticles();
    } else {
      var m := |history| - 1;
      UpdatesTotal(history[..m]);
      ArticlesPut(UpdatedAll(history[..m]), history[m].value, Find(UpdatedAll(history), history[m].value));
    }
  }

  /** After any run of updates, the table holds exactly the values seen, with how
      often and from whom; its total is the number of updates. */
  lemma UpdatesAreCounted(history: seq<Sighting>)
    ensures
      var values := UpdatedAll(history);
      && Articles(values) == |history|
      && forall v ::
           && (v in values <==> Sightings(history, v) > 0)
           && (v in values ==>
                 values[v] == PropertyValue(v, Sightings(history, v), SendersOf(history, v), |SendersOf(history, v)|))
  {
    hide SendersOf, Sightings, UpdatedAll, Articles;
    UpdatesTotal(history);
    forall v
      ensures v in UpdatedAll(history) <==> Sightings(history, v) > 0
      ensures Find(UpdatedAll(history), v)
           == PropertyValue(v, Sightings(history, v), SendersOf(history, v), |SendersOf(history, v)|)
    {
      UpdatesOf(history, v);
    }
  }

  lemma NoSenders(v: string)
    ensures SendersOf([], v) == {}
  {
  }

  lemma NoArticles()
    ensures Articles(map[]) == 0
  {
  }

  lemma SendersOneMore(before: seq<Sighting>, last: Sighting, v: string)
    ensures SendersOf(before + [last], v) == SendersOf(before, v) + if last.value == v then {last.sender} else {}
  {
    var history := before + [last];
    forall x
      ensures x in SendersOf(history, v) <==> x in SendersOf(before, v) || (last.value == v && x == last.sender)
    {
      if x in SendersOf(before, v) {
        var i :| 0 <= i < |before| && before[i].value == v && before[i].sender == x;
        assert history[i] == before[i];
      }
      if last.value == v && x == last.sender {
        assert history[|before|] == last;
      }
    }
  }

  // ----- summaries ---------------------------------------------------------------------------

  /** operator+= */
  function Merge(a: PropertyValue, b: PropertyValue): PropertyValue
  {
    PropertyValue(a.value, a.articles + b.articles, a.senders + b.senders, a.senderCount + b.senderCount)
  }

  function Summary(entries: seq<PropertyValue>, summarizer: string -> string, dest: Values): Values
  {
    if entries == [] then dest
    else
      var m := |entries| - 1;
      var before, sname := Summary(entries[..m], summarizer, dest), summarizer(entries[m].value);
      before[sname := Merge(Find(before, sname), entries[m])]
  }

  function ArticlesAs(entries: seq<PropertyValue>, summarizer: string -> string, sname: string): nat
  {
    if entries == [] then 0
    else
      var m := |entries| - 1;
      ArticlesAs(entries[..m], summarizer, sname) + (if summarizer(entries[m].value) == sname then entries[m].articles else 0)
  }

  function SenderCountsAs(entries: seq<PropertyValue>, summarizer: string -> string, sname: string): nat
  {
    if entries == [] then 0
    else
      var m := |entries| - 1;
      SenderCountsAs(entries[..m], summarizer, sname)
      + (if summarizer(entries[m].value) == sname then entries[m].senderCount else 0)
  }

  /** Each summary has the articles and the added-up sender counts of its entries. */
  lemma {:induction false} SummaryAddsUp(
      entries: seq<PropertyValue>, summarizer: string -> string, dest: Values, sname: string)
    ensures
      var v := Find(Summary(entries, summarizer, dest), sname);
      && v.articles == Find(dest, sname).articles + ArticlesAs(entries, summarizer, sname)
      && v.senderCount == Find(dest, sname).senderCount + SenderCountsAs(entries, summarizer, sname)
  {
    if entries != [] {
      SummaryAddsUp(entries[..|entries| - 1], summarizer, dest, sname);
    }
  }

  /** Every summary is kept under its own name. */
  lemma {:induction false} SummaryIsKeyed(entries: seq<PropertyValue>, summarizer: string -> string, dest: Values)
    requires Keyed(dest)
    ensures Keyed(Summary(entries, summarizer, dest))
  {
    if entries != [] {
      SummaryIsKeyed(entries[..|entries| - 1], summarizer, dest);
    }
  }

  /** The entries of a table, each once, in some order. */
  predicate Enumerates(entries: seq<PropertyValue>, values: Values)
  {
    && (forall i :: 0 <= i < |entries| ==> entries[i].value in values && values[entries[i].value] == entries[i])
    && (forall i, j :: 0 <= i < j < |entries| ==> entries[i].value != entries[j].value)
    && (forall k :: k in values ==> exists i :: 0 <= i < |entries| && entries[i].value == k)
  }

  function TotalArticles(entries: seq<PropertyValue>): nat
  {
    if entries == [] then 0 else TotalArticles(entries[..|entries| - 1]) + entries[|entries| - 1].articles
  }

  lemma {:induction false} TotalIsArticles(entries: seq<PropertyValue>, values: Values)
    requires Enumerates(entries, values)
    ensures TotalArticles(entries) == Articles(values)
  {
    hide Articles;
    if entries == [] {
      assert values == map[] by {
        assert forall k :: k !in values;
      }
      NoArticles();
    } else {
      hide Enumerates;
      var m := |entries| - 1;
      var k := entries[m].value;
      EnumeratesRest(entries, values);
      TotalIsArticles(entries[..m], values - {k});
      ArticlesPut(values - {k}, k, entries[m]);
      assert (values - {k})[k := entries[m]] == values;
    }
  }

  lemma {:induction false} SummaryTotal(entries: seq<PropertyValue>, summarizer: string -> string, dest: Values)
    ensures Articles(Summary(entries, summarizer, dest)) == Articles(dest) + TotalArticles(entries)
  {
    hide Articles;
    if entries != [] {
      var m := |entries| - 1;
      SummaryTotal(entries[..m], summarizer, dest);
      var before, sname := Summary(entries[..m], summarizer, dest), summarizer(entries[m].value);
      ArticlesPut(before, sname, Merge(Find(before, sname), entries[m]));
    }
  }

  /** Summarizing conserves the number of articles, whatever the summarizer and
      whatever order the table is gone through in. */
  lemma SummaryConserves(entries: seq<PropertyValue>, values: Values, summarizer: string -> string, dest: Values)
    requires Enumerates(entries, values)
    ensures Articles(Summary(entries, summarizer, dest)) == Articles(dest) + Articles(values)
  {
    SummaryTotal(entries, summarizer, dest);
    TotalIsArticles(entries, values);
  }

  /** Some entry summarized as sname has this sender. */
  predicate SentAs(entries: seq<PropertyValue>, summarizer: string -> string, sname: string, sender: string)
  {
    exists i :: 0 <= i < |entries| && summarizer(entries[i].value) == sname && sender in entries[i].senders
  }

  /** Each summary name gets the union of the senders of its entries. */
  lemma {:induction false} SummaryUnitesSenders(
      entries: seq<PropertyValue>, summarizer: string -> string, dest: Values, sname: string, sender: string)
    ensures sender in Find(Summary(entries, summarizer, dest), sname).senders
       <==> sender in Find(dest, sname).senders || SentAs(entries, summarizer, sname, sender)
  {
    if entries != [] {
      var m := |entries| - 1;
      SummaryUnitesSenders(entries[..m], summarizer, dest, sname, sender);
      assert forall i :: 0 <= i < m ==> entries[..m][i] == entries[i];
    }
  }

  /** The sender sets of two entries summarized as sname never meet. */
  predicate Apart(entries: seq<PropertyValue>, summarizer: string -> string, sname: string)
  {
    forall i, j ::
      0 <= i < j < |entries| && summarizer(entries[i].value) == summarizer(entries[j].value) == sname ==>
        entries[i].senders !! entries[j].senders
  }

  predicate Exact(v: PropertyValue) { v.senderCount == |v.senders| }

  /** In a fresh summary the added-up sender counts bound the number of distinct
      senders, and are equal to it if and only if no sender is in two entries. */
  lemma {:induction false} SummedSenderCount(entries: seq<PropertyValue>, summarizer: string -> string, sname: string)
    requires forall i :: 0 <= i < |entries| ==> Exact(entries[i])
    ensures
      var v := Find(Summary(entries, summarizer, map[]), sname);
      v.senderCount >= |v.senders| && (Exact(v) <==> Apart(entries, summarizer, sname))
  {
    hide Apart, SentAs;
    if entries == [] {
      ApartNone(summarizer, sname);
    } else {
      hide Find, Merge;
      var m := |entries| - 1;
      var before, last := entries[..m], entries[m];
      assert entries == before + [last];
      SummedSenderCount(before, summarizer, sname);
      ApartOneMore(before, last, summarizer, sname);
      var v := Find(Summary(before, summarizer, map[]), sname);
      forall x
        ensures x in v.senders <==> SentAs(before, summarizer, sname, x)
      {
        SummaryUnitesSenders(before, summarizer, map[], sname, x);
        FindInNone(sname);
      }
      SummaryOneMore(entries, summarizer, map[], sname);
      if summarizer(last.value) == sname {
        MergeSenders(v, last);
      }
    }
  }

  lemma FindInNone(sname: string)
    ensures Find(map[], sname).senders == {}
  {
  }

  lemma SummaryOneMore(entries: seq<PropertyValue>, summarizer: string -> string, dest: Values, sname: string)
    requires entries != []
    ensures
      var m := |entries| - 1;
      var before := Find(Summary(entries[..m], summarizer, dest), sname);
      Find(Summary(entries, summarizer, dest), sname)
        == if summarizer(entries[m].value) == sname then Merge(before, entries[m]) else before
  {
  }

  lemma MergeSenders(a: PropertyValue, b: PropertyValue)
    requires a.senderCount >= |a.senders| && Exact(b)
    ensures Merge(a, b).senderCount >= |Merge(a, b).senders|
    ensures Exact(Merge(a, b)) <==> Exact(a) && forall x :: x in a.senders ==> x !in b.senders
  {
    var common := a.senders * b.senders;
    assert |a.senders + b.senders| == |a.senders| + |b.senders| - |common|;
    assert |common| == 0 <==> common == {};
    if forall x :: x in a.senders ==> x !in b.senders {
      assert common == {};
    }
    if common == {} {
      forall x | x in a.senders
        ensures x !in b.senders
      {
        assert x !in common;
      }
    }
  }

  lemma ApartNone(summarizer: string -> string, sname: string)
    ensures Apart([], summarizer, sname)
  {
  }

  lemma ApartOneMore(before: seq<PropertyValue>, last: PropertyValue, summarizer: string -> string, sname: string)
    ensures Apart(before + [last], summarizer, sname) <==>
              && Apart(before, summarizer, sname)
              && (summarizer(last.value) == sname ==>
                    forall x :: SentAs(before, summarizer, sname, x) ==> x !in last.senders)
  {
    var entries := before + [last];
    assert forall i :: 0 <= i < |before| ==> entries[i] == before[i];
    if Apart(entries, summarizer, sname) && summarizer(last.value) == sname {
      forall x | SentAs(before, summarizer, sname, x)
        ensures x !in last.senders
      {
        var i :| 0 <= i < |before| && summarizer(before[i].value) == sname && x in before[i].senders;
        assert entries[i].senders !! entries[|before|].senders;
      }
    }
    if && Apart(before, summarizer, sname)
       && (summarizer(last.value) == sname ==>
             forall x :: SentAs(before, summarizer, sname, x) ==> x !in last.senders)
    {
      forall i, j | 0 <= i < j < |entries| && summarizer(entries[i].value) == summarizer(entries[j].value) == sname
        ensures entries[i].senders !! entries[j].senders
      {
        if j == |before| {
          forall x | x in entries[i].senders
            ensures x !in last.senders
          {
            assert x in before[i].senders;
          }
        }
      }
    }
  }

  // ----- the log file ----------------------------------------------------------------------------

  function LogRow(v: PropertyValue): seq<Csv.Value>
  {
    [Csv.Text(v.value), Csv.Integer(v.articles), Csv.Integer(v.senderCount)]
  }

  function LogRows(entries: seq<PropertyValue>): (rows: seq<seq<Csv.Value>>)
    ensures |rows| == |entries|
    ensures forall i :: 0 <= i < |rows| ==> rows[i] == LogRow(entries[i])
  {
    seq(|entries|, i requires 0 <= i < |entries| => LogRow(entries[i]))
  }

  /** One row into the table; None for a value of the wrong type, at which the code
      throws, and for a row of fewer than three values, which it reads out of bounds.
      A value that is there already is kept. */
  function RestoreRow(row: seq<Csv.Value>, values: Values): Option<Values>
  {
    if |row| < 3 || !row[0].Text? || !row[1].Integer? || !row[2].Integer? || row[1].n < 0 || row[2].n < 0 then None
    else if row[0].s in values then Some(values)
    else Some(values[row[0].s := PropertyValue(row[0].s, row[1].n, {}, row[2].n)])
  }

  function Restore(rows: seq<seq<Csv.Value>>, values: Values): Option<Values>
  {
    if rows == [] then Some(values)
    else
      var before :- Restore(rows[..|rows| - 1], values);
      RestoreRow(rows[|rows| - 1], before)
  }

  /** What is logged of an entry: not the senders themselves. */
  function Logged(v: PropertyValue): PropertyValue { v.(senders := {}) }

  function LoggedAll(values: Values): Values
  {
    map k | k in values :: Logged(values[k])
  }

  predicate CanLog(v: PropertyValue, signed: bool)
  {
    && v.articles <= Csv.INTMAX_MAX && v.senderCount <= Csv.INTMAX_MAX
    && Csv.Bytes(v.value) && (signed ==> Csv.SevenBit(v.value))
  }

  lemma RestoreLast(rows: seq<seq<Csv.Value>>)
    requires rows != []
    ensures
      var before := Restore(rows[..|rows| - 1], map[]);
      Restore(rows, map[]) == if before.None? then None else RestoreRow(rows[|rows| - 1], before.value)
  {
    hide RestoreRow;
  }

  lemma RestoreLogRow(v: PropertyValue, values: Values)
    requires v.value !in values
    ensures RestoreRow(LogRow(v), values) == Some(values[v.value := Logged(v)])
  {
  }

  lemma {:induction false} RestoreLogRows(entries: seq<PropertyValue>, values: Values)
    requires Enumerates(entries, values)
    ensures Restore(LogRows(entries), map[]) == Some(LoggedAll(values))
  {
    if entries == [] {
      assert values == map[] by {
        assert forall k :: k !in values;
      }
      assert LogRows(entries) == [];
      assert LoggedAll(values) == map[];
    } else {
      hide Enumerates, LoggedAll, Restore, RestoreRow, LogRow, LogRows;
      var m := |entries| - 1;
      var k := entries[m].value;
      EnumeratesRest(entries, values);
      RestoreLogRows(entries[..m], values - {k});
      assert LogRows(entries)[..m] == LogRows(entries[..m]);
      LoggedOneMore(values, k);
      RestoreLast(LogRows(entries));
      RestoreLogRow(entries[m], LoggedAll(values - {k}));
    }
  }

  lemma EnumeratesRest(entries: seq<PropertyValue>, values: Values)
    requires Enumerates(entries, values) && entries != []
    ensures
      var m := |entries| - 1;
      var k := entries[m].value;
      k in values && values[k] == entries[m] && Enumerates(entries[..m], values - {k})
  {
    var m := |entries| - 1;
    var k := entries[m].value;
    assert forall i :: 0 <= i < m ==> entries[..m][i] == entries[i];
    forall x | x in values - {k}
      ensures exists i :: 0 <= i < m && entries[..m][i].value == x
    {
      var i :| 0 <= i < |entries| && entries[i].value == x;
      assert entries[..m][i].value == x;
    }
  }

  lemma LoggedOneMore(values: Values, k: string)
    requires k in values
    ensures k !in LoggedAll(values - {k})
    ensures LoggedAll(values) == LoggedAll(values - {k})[k := Logged(values[k])]
  {
  }

  /** Logging a table and reading the log into an empty one restores every value
      with its article and sender counts. */
  lemma LogsRestore(entries: seq<PropertyValue>, values: Values, signed: bool)
    requires Enumerates(entries, values)
    requires forall k :: k in values ==> CanLog(values[k], signed)
    ensures Csv.PrintableRows(LogRows(entries))
    ensures Csv.ReadRows(Csv.PrintRows(LogRows(entries), signed)) == Some(LogRows(entries))
    ensures Restore(LogRows(entries), map[]) == Some(LoggedAll(values))
  {
    forall i | 0 <= i < |entries|
      ensures Csv.RowSurvives(LogRow(entries[i]), signed) && Csv.PrintableRow(LogRow(entries[i]))
    {
      assert CanLog(values[entries[i].value], signed);
    }
    Csv.FileRoundTrip(LogRows(entries), signed);
    RestoreLogRows(entries, values);
  }

  // ----- one step of each loop -------------------------------------------------------------------------

  lemma EnumeratesNone()
    ensures Enumerates([], map[])
  {
  }

  lemma EnumeratesMore(entries: seq<PropertyValue>, values: Values, v: PropertyValue)
    requires Enumerates(entries, values) && v.value !in values
    ensures Enumerates(entries + [v], values[v.value := v])
  {
    var more, values' := entries + [v], values[v.value := v];
    assert forall i :: 0 <= i < |entries| ==> more[i] == entries[i];
    forall k | k in values'
      ensures exists i :: 0 <= i < |more| && more[i].value == k
    {
      if k in values {
        var i :| 0 <= i < |entries| && entries[i].value == k;
        assert more[i].value == k;
      } else {
        assert more[|entries|].value == k;
      }
    }
  }

  lemma SummaryNone(summarizer: string -> string, dest: Values)
    ensures Summary([], summarizer, dest) == dest
  {
  }

  lemma SummaryStep(entries: seq<PropertyValue>, v: PropertyValue, summarizer: string -> string, dest: Values)
    ensures
      var before, sname := Summary(entries, summarizer, dest), summarizer(v.value);
      Summary(entries + [v], summarizer, dest) == before[sname := Merge(Find(before, sname), v)]
  {
    assert (entries + [v])[..|entries|] == entries;
  }

  lemma NothingToLog(signed: bool)
    ensures Csv.PrintableRows(LogRows([])) && Csv.PrintRows(LogRows([]), signed) == ""
  {
  }

  lemma {:induction false} PrintOneMore(rows: seq<seq<Csv.Value>>, row: seq<Csv.Value>, signed: bool)
    requires Csv.PrintableRows(rows) && Csv.PrintableRow(row)
    ensures Csv.PrintableRows(rows + [row])
    ensures Csv.PrintRows(rows + [row], signed) == Csv.PrintRows(rows, signed) + (Csv.PrintRow(row, signed) + "\n")
  {
    hide Csv.PrintRow, Csv.PrintableRow;
    var all := rows + [row];
    if rows == [] {
      assert all[1..] == [];
    } else {
      PrintOneMore(rows[1..], row, signed);
      assert all[1..] == rows[1..] + [row];
      var line, more := Csv.PrintRow(rows[0], signed), Csv.PrintRows(rows[1..], signed);
      var last := Csv.PrintRow(row, signed) + "\n";
      ConcatAssociative(line, "\n" + more, last);
      ConcatAssociative("\n", more, last);
    }
  }

  /** The line that is written for an entry. */
  function LogLine(v: PropertyValue, signed: bool): string
    requires Csv.Bytes(v.value)
  {
    Csv.Quote(v.value, signed) + "," + Decimal(v.articles) + "," + Decimal(v.senderCount) + "\n"
  }

  lemma LogLineIsRow(v: PropertyValue, signed: bool)
    requires CanLog(v, signed)
    ensures Csv.PrintableRow(LogRow(v))
    ensures LogLine(v, signed) == Csv.PrintRow(LogRow(v), signed) + "\n"
  {
    hide Csv.Quote, Decimal;
    var row := LogRow(v);
    assert forall i :: 0 <= i < 3 ==> Csv.Printable(row[i]);
    assert row[1..] == [row[1], row[2]] && row[1..][1..] == [row[2]];
    var a, b, c := Csv.Quote(v.value, signed), Decimal(v.articles), Decimal(v.senderCount);
    assert Csv.PrintRow(row[1..][1..], signed) == c;
    assert Csv.PrintRow(row[1..], signed) == b + ("," + c);
    assert Csv.PrintRow(row, signed) == a + ("," + (b + ("," + c)));
    assert a + "," + b + "," + c + "\n" == a + ("," + (b + ("," + c))) + "\n";
  }

  lemma LogOneMore(entries: seq<PropertyValue>, v: PropertyValue, signed: bool)
    requires CanLog(v, signed) && Csv.PrintableRows(LogRows(entries))
    ensures Csv.PrintableRows(LogRows(entries + [v]))
    ensures Csv.PrintRows(LogRows(entries + [v]), signed)
         == Csv.PrintRows(LogRows(entries), signed) + LogLine(v, signed)
  {
    hide CanLog, Csv.PrintRow, Csv.PrintableRow, LogLine, LogRow, Csv.PrintableRows, Csv.PrintRows;
    LogLineIsRow(v, signed);
    PrintOneMore(LogRows(entries), LogRow(v), signed);
    assert LogRows(entries + [v]) == LogRows(entries) + [LogRow(v)];
  }

  lemma BytesOfCanLog(v: PropertyValue, signed: bool)
    requires CanLog(v, signed)
    ensures Csv.Bytes(v.value)
  {
  }

  lemma {:induction false} RestoreFails(rows: seq<seq<Csv.Value>>, n: nat, values: Values)
    requires n <= |rows| && Restore(rows[..n], values) == None
    ensures Restore(rows, values) == None
  {
    hide RestoreRow;
    if n < |rows| {
      assert rows[..|rows| - 1][..n] == rows[..n];
      RestoreFails(rows[..|rows| - 1], n, values);
    } else {
      assert rows[..n] == rows;
    }
  }

  lemma RestoreStep(rows: seq<seq<Csv.Value>>, n: nat, values: Values)
    requires n < |rows| && Restore(rows[..n], values).Some?
    ensures
      var restored := RestoreRow(rows[n], Restore(rows[..n], values).value);
      && Restore(rows[..n + 1], values) == restored
      && (restored.None? ==> Restore(rows, values) == None)
  {
    hide RestoreRow;
    assert rows[..n + 1][..n] == rows[..n];
    if Restore(rows[..n + 1], values) == None {
      RestoreFails(rows, n + 1, values);
    }
  }

  // ----- the class -----------------------------------------------------------------------------------

  class ArticleProperty {
    var values: Values

    constructor ()
      ensures values == map[]
    {
      values := map[];
    }

    method Update(sender: string, value: string)
      modifies this`values
      ensures values == Updated(old(values), sender, value)
    {
      if value !in values {
        values := values[value := Fresh(value)];
      }
      var v := values[value];
      v := v.(articles := v.articles + 1);
      v := v.(senders := v.senders + {sender});
      v := v.(senderCount := |v.senders|);
      values := values[value := v];
    }

    /** The entries come in some order, named by the result. */
    method Summarize(dest: ArticleProperty, summarizer: string -> string) returns (ghost entries: seq<PropertyValue>)
      requires dest != this && Keyed(values)
      modifies dest`values
      ensures Enumerates(entries, values)
      ensures dest.values == Summary(entries, summarizer, old(dest.values))
      ensures Articles(dest.values) == old(Articles(dest.values)) + Articles(values)
    {
      hide Articles, Enumerates, Summary, Merge;
      entries := [];
      var left := values.Keys;
      EnumeratesNone();
      SummaryNone(summarizer, dest.values);
      assert values - left == map[];
      while left != {}
        invariant left <= values.Keys
        invariant Enumerates(entries, values - left)
        invariant dest.values == Summary(entries, summarizer, old(dest.values))
      {
        var k :| k in left;
        var v := values[k];
        var sname := summarizer(k);
        if sname !in dest.values {
          dest.values := dest.values[sname := Fresh(sname)];
        }
        dest.values := dest.values[sname := Merge(dest.values[sname], v)];
        EnumeratesMore(entries, values - left, v);
        SummaryStep(entries, v, summarizer, old(dest.values));
        assert values - (left - {k}) == (values - left)[k := v];
        entries := entries + [v];
        left := left - {k};
      }
      assert values - {} == values;
      SummaryConserves(entries, values, summarizer, old(dest.values));
    }

    method Logs(signed: bool) returns (file: string, ghost entries: seq<PropertyValue>)
      requires Keyed(values) && forall k :: k in values ==> CanLog(values[k], signed)
      ensures Enumerates(entries, values)
      ensures Csv.PrintableRows(LogRows(entries)) && file == Csv.PrintRows(LogRows(entries), signed)
      ensures Csv.ReadRows(file).Some? && Restore(Csv.ReadRows(file).value, map[]) == Some(LoggedAll(values))
    {
      hide CanLog, Enumerates, LogRow, Csv.PrintRows, Csv.PrintableRows, Csv.Quote, LogRows, Csv.Bytes, Decimal, Csv.ReadRows, Restore, LoggedAll;
      entries, file := [], "";
      NothingToLog(signed);
      var left := values.Keys;
      EnumeratesNone();
      assert values - left == map[];
      while left != {}
        invariant left <= values.Keys
        invariant Enumerates(entries, values - left)
        invariant Csv.PrintableRows(LogRows(entries)) && file == Csv.PrintRows(LogRows(entries), signed)
      {
        var k :| k in left;
        var v := values[k];
        BytesOfCanLog(v, signed);
        var quoted := Csv.CsvQuote(v.value, signed);
        var line := quoted + "," + Decimal(v.articles) + "," + Decimal(v.senderCount) + "\n";
        file := file + line;
        LogOneMore(entries, v, signed);
        EnumeratesMore(entries, values - left, v);
        assert values - (left - {k}) == (values - left)[k := v];
        entries := entries + [v];
        left := left - {k};
      }
      assert values - {} == values;
      LogsRestore(entries, values, signed);
    }

    method ReadLogs(file: string) returns (ok: bool)
      modifies this`values
      ensures ok == (Csv.ReadRows(file).Some? && Restore(Csv.ReadRows(file).value, old(values)).Some?)
      ensures ok ==> Some(values) == Restore(Csv.ReadRows(file).value, old(values))
    {
      hide Csv.ReadRows;
      var result := Csv.ReadRows(file);
      ok := result.Some?;
      if ok {
        var rows := result.value;
        var n := 0;
        while n < |rows| && ok
          invariant n <= |rows|
          invariant ok ==> Restore(rows[..n], old(values)) == Some(values)
          invariant !ok ==> Restore(rows, old(values)) == None
          decreases |rows| - n, ok
        {
          RestoreStep(rows, n, old(values));
          var restored := RestoreRow(rows[n], values);
          if restored.None? {
            ok := false;
          } else {
            values := restored.value;
            n := n + 1;
          }
        }
        assert ok ==> rows[..n] == rows;
      }
    }
  }
}
