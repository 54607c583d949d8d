/** What spoolstats counts: SenderCountingBucket.cc and AllGroups::visit.
    An article that is valid, in the sampling range and not seen before is added
    to the totals, to the tables of user agents and character sets, and to every
    configured group and hierarchy that lists it. */
module SpoolCount {
  import opened ArticleHeaders
  import opened ArticleProperties
  import opened GroupDedup
  import opened MapSum
  import opened Text
  import DateText

  // ----- one bucket ----------------------------------------------------------------------

  datatype Visit = Sent(sender: string, size: nat)

  datatype Tally = Tally(articles: nat, bytes: nat, senders: map<string, nat>, senderCount: nat)

  const EMPTY: Tally := Tally(0, 0, map[], 0)

  function Visited(t: Tally, v: Visit): Tally
  {
    var senders := Bump(t.senders, v.sender);
    Tally(t.articles + 1, t.bytes + v.size, senders, |senders|)
  }

  function VisitedAll(history: seq<Visit>): Tally
  {
    if history == [] then EMPTY
    else
      var m := |history| - 1;
      Visited(VisitedAll(history[..m]), history[m])
  }

  function TotalSize(history: seq<Visit>): nat
  {
    if history == [] then 0 else TotalSize(history[..|history| - 1]) + history[|history| - 1].size
  }

  function VisitsBy(history: seq<Visit>, sender: string): nat
  {
    if history == [] then 0
    else
      var m := |history| - 1;
      VisitsBy(history[..m], sender) + (if history[m].sender == sender then 1 else 0)
  }

  function Senders(history: seq<Visit>): set<string>
  {
    set i | 0 <= i < |history| :: history[i].sender
  }

  lemma SendersOneMore(before: seq<Visit>, last: Visit)
    ensures Senders(before + [last]) == Senders(before) + {last.sender}
  {
    var history := before + [last];
    forall x
      ensures x in Senders(history) <==> x in Senders(before) || x == last.sender
    {
      if x in Senders(before) {
        var i :| 0 <= i < |before| && before[i].sender == x;
        assert history[i] == before[i];
      }
      assert history[|before|] == last;
    }
  }

  /** The totals of a bucket after any history of visits. */
  lemma {:induction false} TallyTotals(history: seq<Visit>)
    ensures
      var t := VisitedAll(history);
      && t.articles == |history| == Sum(t.senders)
      && t.bytes == TotalSize(history)
      && t.senders.Keys == Senders(history)
      && t.senderCount == |Senders(history)|
  {
    hide Sum, Senders, Visited;
    if history == [] {
      NoSum();
      NoVisitors();
    } else {
      var m := |history| - 1;
      TallyTotals(history[..m]);
      SendersOneMore(history[..m], history[m]);
      assert history[..m] + [history[m]] == history;
      VisitedSum(VisitedAll(history[..m]), history[m]);
    }
  }

  lemma VisitedSum(t: Tally, v: Visit)
    ensures
      var u := Visited(t, v);
      && u.articles == t.articles + 1 && u.bytes == t.bytes + v.size
      && u.senders.Keys == t.senders.Keys + {v.sender} && u.senderCount == |u.senders.Keys|
      && Sum(u.senders) == Sum(t.senders) + 1
  {
    hide Sum;
    SumPut(t.senders, v.sender, CountOf(t.senders, v.sender) + 1);
  }

  lemma NoSum()
    ensures Sum<string>(map[]) == 0
  {
  }

  lemma NoVisitors()
    ensures Senders([]) == {}
  {
  }

  lemma {:induction false} TallyPerSender(history: seq<Visit>, sender: string)
    ensures CountOf(VisitedAll(history).senders, sender) == VisitsBy(history, sender)
  {
    if history != [] {
      TallyPerSender(history[..|history| - 1], sender);
    }
  }

  class SenderCountingBucket {
    var articles: nat
    var bytes: nat
    var senders: map<string, nat>
    var senderCount: nat

    function View(): Tally
      reads this
    {
      Tally(articles, bytes, senders, senderCount)
    }

    constructor ()
      ensures View() == EMPTY
    {
      articles, bytes, senders, senderCount := 0, 0, map[], 0;
    }

    method Visit(sender: string, size: nat)
      modifies this
      ensures View() == Visited(old(View()), Sent(sender, size))
    {
      articles := articles + 1;
      bytes := bytes + size;
      if sender !in senders {
        senders := senders[sender := 1];
      } else {
        senders := senders[sender := senders[sender] + 1];
      }
      senderCount := |senders|;
    }
  }

  // ----- one article -----------------------------------------------------------------------

  datatype Posting = Posting(headers: HeaderMap, size: nat) {
    predicate Valid() { "message-id" in headers && "date" in headers && "from" in headers }

    function Mid(): string
      requires Valid()
    {
      headers["message-id"]
    }

    function AsVisit(): Visit
      requires Valid()
    {
      Sent(headers["from"], size)
    }

    function UserAgent(): string
    {
      if "user-agent" in headers then headers["user-agent"]
      else if "x-newsreader" in headers then headers["x-newsreader"]
      else if "x-mailer" in headers then headers["x-mailer"]
      else "(unknown)"
    }

    /** The code looks the header up without checking that it is there. */
    function Groups(): seq<string>
      requires "newsgroups" in headers
    {
      SplitAt(headers["newsgroups"], ',')
    }
  }

  /** lib/split.cc: the pieces between the separators. */
  function SplitAt(s: string, sep: char): (pieces: seq<string>)
    ensures pieces != []
  {
    if s == "" then [""]
    else
      var rest := SplitAt(s[1..], sep);
      if s[0] == sep then [""] + rest else [[s[0]] + rest[0]] + rest[1..]
  }

  function Join(pieces: seq<string>, sep: char): string
    requires pieces != []
  {
    if |pieces| == 1 then pieces[0] else pieces[0] + ([sep] + Join(pieces[1..], sep))
  }

  /** Splitting loses nothing and leaves no separator in a piece. */
  lemma {:induction false} SplitIsJoin(s: string, sep: char)
    ensures Join(SplitAt(s, sep), sep) == s
    ensures forall i :: 0 <= i < |SplitAt(s, sep)| ==> sep !in SplitAt(s, sep)[i]
  {
    if s != "" {
      var rest := SplitAt(s[1..], sep);
      SplitIsJoin(s[1..], sep);
      assert s == [s[0]] + s[1..];
      if s[0] == sep {
        assert ([""] + rest)[1..] == rest;
      } else if |rest| > 1 {
        assert ([[s[0]] + rest[0]] + rest[1..])[1..] == rest[1..];
        ConcatAssociative([s[0]], rest[0], [sep] + Join(rest[1..], sep));
      }
    }
  }

  /** The charset function stands for Article::charset. */
  datatype Config = Config(
    hierarchies: set<string>, startTime: int, endTime: int, zones: map<string, int>, charset: HeaderMap -> string)

  predicate Eligible(conf: Config, a: Posting)
  {
    a.Valid() && conf.startTime <= DateText.ParseDate(conf.zones, a.headers["date"]) < conf.endTime
  }

  predicate Accepts(conf: Config, seen: set<string>, a: Posting)
  {
    Eligible(conf, a) && a.Mid() !in seen
  }

  // ----- the first article of each message ID ----------------------------------------------------

  function MidsOf(conf: Config, articles: seq<Posting>): set<string>
  {
    set i | 0 <= i < |articles| && Eligible(conf, articles[i]) :: articles[i].Mid()
  }

  lemma MidsOneMore(conf: Config, before: seq<Posting>, a: Posting)
    ensures MidsOf(conf, before + [a]) == MidsOf(conf, before) + if Eligible(conf, a) then {a.Mid()} else {}
  {
    hide DateText.ParseDate;
    var all := before + [a];
    forall x
      ensures x in MidsOf(conf, all) <==> x in MidsOf(conf, before) || (Eligible(conf, a) && a.Mid() == x)
    {
      if x in MidsOf(conf, before) {
        var i :| 0 <= i < |before| && Eligible(conf, before[i]) && before[i].Mid() == x;
        assert all[i] == before[i];
      }
      assert all[|before|] == a;
    }
  }

  /** The eligible articles, the first of each message ID. */
  function FirstOfEach(conf: Config, articles: seq<Posting>): (r: seq<Posting>)
    ensures forall i :: 0 <= i < |r| ==> Eligible(conf, r[i])
  {
    if articles == [] then []
    else
      var m := |articles| - 1;
      var before := FirstOfEach(conf, articles[..m]);
      if Accepts(conf, MidsOf(conf, before), articles[m]) then before + [articles[m]] else before
  }

  lemma NoMids(conf: Config)
    ensures MidsOf(conf, []) == {}
  {
  }

  // ----- everything that is counted ------------------------------------------------------------

  datatype Counts = Counts(
    articles: nat, bytes: nat, seen: set<string>, useragents: Values, charsets: Values,
    hierarchies: map<string, Tally>, groups: map<string, Tally>)

  function FindTally(m: map<string, Tally>, k: string): Tally
  {
    if k in m then m[k] else EMPTY
  }

  function VisitKey(m: map<string, Tally>, k: string, v: Visit): map<string, Tally>
  {
    m[k := Visited(FindTally(m, k), v)]
  }

  function VisitKeys(m: map<string, Tally>, keys: seq<string>, v: Visit): map<string, Tally>
  {
    if keys == [] then m
    else VisitKey(VisitKeys(m, keys[..|keys| - 1], v), keys[|keys| - 1], v)
  }

  function Start(conf: Config): Counts
  {
    Counts(0, 0, {}, map[], map[], map h | h in conf.hierarchies :: EMPTY, map[])
  }

  /** An article that is accepted has the header its groups are read from. */
  predicate Grouped(conf: Config, seen: set<string>, a: Posting)
  {
    Accepts(conf, seen, a) ==> "newsgroups" in a.headers
  }

  function Step(conf: Config, s: Counts, a: Posting): Counts
    requires Grouped(conf, s.seen, a)
  {
    if !Accepts(conf, s.seen, a) then s
    else
      var gs, v := Sort(a.Groups()), a.AsVisit();
      Counts(
        s.articles + 1, s.bytes + a.size, s.seen + {a.Mid()},
        Updated(s.useragents, v.sender, a.UserAgent()),
        Updated(s.charsets, v.sender, conf.charset(a.headers)),
        VisitKeys(s.hierarchies, HierarchyVisits(gs, conf.hierarchies), v),
        VisitKeys(s.groups, GroupVisits(gs, conf.hierarchies), v))
  }

  predicate HaveGroups(articles: seq<Posting>)
  {
    forall i :: 0 <= i < |articles| ==> articles[i].Valid() && "newsgroups" in articles[i].headers
  }

  /** Every article that is accepted has its groups; one that is skipped need not. */
  predicate AllGrouped(conf: Config, articles: seq<Posting>)
  {
    HaveGroups(FirstOfEach(conf, articles))
  }

  lemma GroupedBefore(conf: Config, articles: seq<Posting>)
    requires articles != [] && AllGrouped(conf, articles)
    ensures
      var m := |articles| - 1;
      AllGrouped(conf, articles[..m]) && Grouped(conf, MidsOf(conf, FirstOfEach(conf, articles[..m])), articles[m])
  {
    hide Accepts, MidsOf;
    var m := |articles| - 1;
    var before, a := FirstOfEach(conf, articles[..m]), articles[m];
    assert forall i :: 0 <= i < |before| ==> FirstOfEach(conf, articles)[i] == before[i];
    if Accepts(conf, MidsOf(conf, before), a) {
      assert FirstOfEach(conf, articles)[|before|] == a;
    }
  }

  function Run(conf: Config, articles: seq<Posting>): (s: Counts)
    requires AllGrouped(conf, articles)
    ensures s.seen == MidsOf(conf, FirstOfEach(conf, articles))
  {
    if articles == [] then
      NoMids(conf);
      Start(conf)
    else
      var m := |articles| - 1;
      GroupedBefore(conf, articles);
      MidsOneMore(conf, FirstOfEach(conf, articles[..m]), articles[m]);
      Step(conf, Run(conf, articles[..m]), articles[m])
  }

  // ----- the counters balance ---------------------------------------------------------------------

  ghost predicate Balanced(s: Counts)
  {
    s.articles == |s.seen| == Articles(s.useragents) == Articles(s.charsets)
  }

  lemma StepBalances(conf: Config, s: Counts, a: Posting)
    requires Grouped(conf, s.seen, a) && Balanced(s)
    ensures Balanced(Step(conf, s, a))
  {
    hide Articles, Sort, HierarchyVisits, GroupVisits, VisitKeys, DateText.ParseDate, Posting.UserAgent, Posting.Groups;
    if Accepts(conf, s.seen, a) {
      var sender, agent, charset := a.headers["from"], a.UserAgent(), conf.charset(a.headers);
      ArticlesPut(s.useragents, agent, Find(Updated(s.useragents, sender, agent), agent));
      ArticlesPut(s.charsets, charset, Find(Updated(s.charsets, sender, charset), charset));
    }
  }

  /** Total articles = distinct message IDs = sum over user agents = sum over
      character sets, for every sequence of articles. */
  lemma {:induction false} RunBalances(conf: Config, articles: seq<Posting>)
    requires AllGrouped(conf, articles)
    ensures Balanced(Run(conf, articles))
  {
    hide Step;
    if articles == [] {
      NoArticles();
    } else {
      var m := |articles| - 1;
      GroupedBefore(conf, articles);
      RunBalances(conf, articles[..m]);
      StepBalances(conf, Run(conf, articles[..m]), articles[m]);
    }
  }

  // ----- what each counter means --------------------------------------------------------------------

  /** Each message ID of an eligible article is there exactly once. */
  lemma {:induction false} EachIdOnce(conf: Config, articles: seq<Posting>)
    ensures
      var firsts := FirstOfEach(conf, articles);
      && MidsOf(conf, firsts) == MidsOf(conf, articles)
      && |firsts| == |MidsOf(conf, articles)|
  {
    hide DateText.ParseDate, MidsOf;
    if articles == [] {
      NoMids(conf);
    } else {
      var m := |articles| - 1;
      var before, a := FirstOfEach(conf, articles[..m]), articles[m];
      EachIdOnce(conf, articles[..m]);
      MidsOneMore(conf, articles[..m], a);
      MidsOneMore(conf, before, a);
      assert articles[..m] + [a] == articles;
    }
  }

  lemma RunSees(conf: Config, articles: seq<Posting>)
    requires AllGrouped(conf, articles)
    ensures Run(conf, articles).seen == MidsOf(conf, articles)
  {
    hide Run, MidsOf;
    EachIdOnce(conf, articles);
  }

  /** The visits of the articles that list group g. */
  function VisitsOfGroup(articles: seq<Posting>, g: string): seq<Visit>
    requires HaveGroups(articles)
  {
    if articles == [] then []
    else
      var m := |articles| - 1;
      var before := VisitsOfGroup(articles[..m], g);
      if g in articles[m].Groups() then before + [articles[m].AsVisit()] else before
  }

  function Repeat(v: Visit, n: nat): seq<Visit>
  {
    if n == 0 then [] else Repeat(v, n - 1) + [v]
  }

  /** How often an article is counted in a hierarchy: twice if the bare name is split
      off from its other groups. */
  function Times(groups: seq<string>, conf: set<string>, h: string): nat
  {
    if h !in conf || !Present(groups, h) then 0 else if Split(groups, conf, h) then 2 else 1
  }

  /** The visits of the articles that list some group of hierarchy h, as often as they
      are counted. */
  function VisitsOfHierarchy(conf: Config, articles: seq<Posting>, h: string): seq<Visit>
    requires HaveGroups(articles)
  {
    if articles == [] then []
    else
      var m := |articles| - 1;
      VisitsOfHierarchy(conf, articles[..m], h)
      + Repeat(articles[m].AsVisit(), Times(articles[m].Groups(), conf.hierarchies, h))
  }

  /** The same, each article once. */
  function ArticlesOfHierarchy(articles: seq<Posting>, h: string): seq<Visit>
    requires HaveGroups(articles)
  {
    if articles == [] then []
    else
      var m := |articles| - 1;
      var before := ArticlesOfHierarchy(articles[..m], h);
      if Present(articles[m].Groups(), h) then before + [articles[m].AsVisit()] else before
  }

  lemma VisitedOneMore(before: seq<Visit>, v: Visit)
    ensures VisitedAll(before + [v]) == Visited(VisitedAll(before), v)
  {
    assert (before + [v])[..|before|] == before;
  }

  function VisitedTimes(t: Tally, v: Visit, n: nat): Tally
  {
    if n == 0 then t else Visited(VisitedTimes(t, v, n - 1), v)
  }

  lemma {:induction false} VisitedRepeat(before: seq<Visit>, v: Visit, n: nat)
    ensures VisitedAll(before + Repeat(v, n)) == VisitedTimes(VisitedAll(before), v, n)
  {
    hide Visited, VisitedAll;
    if n == 0 {
      assert before + [] == before;
    } else {
      VisitedRepeat(before, v, n - 1);
      VisitedOneMore(before + Repeat(v, n - 1), v);
      assert before + Repeat(v, n) == before + Repeat(v, n - 1) + [v];
    }
  }

  /** Visits to the keys of a list: a key gets as many as it is there times. */
  lemma {:induction false} VisitKeysAt(m: map<string, Tally>, keys: seq<string>, v: Visit, k: string)
    ensures FindTally(VisitKeys(m, keys, v), k) == VisitedTimes(FindTally(m, k), v, Count(keys, k))
    ensures k in VisitKeys(m, keys, v) <==> k in m || Count(keys, k) > 0
  {
    hide Visited;
    if keys != [] {
      VisitKeysAt(m, keys[..|keys| - 1], v, k);
    }
  }

  lemma VisitedOnce(t: Tally, v: Visit)
    ensures VisitedTimes(t, v, 0) == t && VisitedTimes(t, v, 1) == Visited(t, v)
  {
    assert VisitedTimes(t, v, 0) == t;
  }

  /** After any run, a group of a configured hierarchy has counted exactly the
      articles that list it, each message ID once; other groups are not kept. */
  lemma {:induction false} GroupTallies(conf: Config, articles: seq<Posting>, g: string)
    requires AllGrouped(conf, articles)
    ensures
      FindTally(Run(conf, articles).groups, g)
        == if HierarchyOf(g) in conf.hierarchies then VisitedAll(VisitsOfGroup(FirstOfEach(conf, articles), g)) else EMPTY
  {
    hide DateText.ParseDate, MidsOf, Sort, HierarchyVisits, GroupVisits, VisitKeys, Posting.UserAgent, Posting.Groups, Updated, Visited, VisitedAll, HierarchyOf, Count;
    if articles == [] {
      assert VisitedAll([]) == EMPTY by { NothingVisited(); }
    } else {
      var m := |articles| - 1;
      GroupedBefore(conf, articles);
      var a, s, before := articles[m], Run(conf, articles[..m]), FirstOfEach(conf, articles[..m]);
      GroupTallies(conf, articles[..m], g);
      if Accepts(conf, s.seen, a) {
        var v := a.AsVisit();
        GroupCountedOnce(a.Groups(), conf.hierarchies, g);
        VisitKeysAt(s.groups, GroupVisits(Sort(a.Groups()), conf.hierarchies), v, g);
        VisitedOnce(FindTally(s.groups, g), v);
        VisitedOneMore(VisitsOfGroup(before, g), v);
        assert (before + [a])[..|before|] == before;
      }
    }
  }

  lemma NothingVisited()
    ensures VisitedAll([]) == EMPTY
  {
  }

  /** After any run, a configured hierarchy has counted exactly the articles that list
      a group of it, each message ID once, or twice where the bare name is split
      off. */
  lemma {:induction false} HierarchyTallies(conf: Config, articles: seq<Posting>, h: string)
    requires AllGrouped(conf, articles)
    ensures
      FindTally(Run(conf, articles).hierarchies, h) == VisitedAll(VisitsOfHierarchy(conf, FirstOfEach(conf, articles), h))
  {
    hide DateText.ParseDate, MidsOf, Sort, HierarchyVisits, GroupVisits, VisitKeys, Posting.UserAgent, Posting.Groups, Updated, Visited, VisitedAll, HierarchyOf, Count, Present, Split, Repeat, VisitedTimes;
    if articles == [] {
      NothingVisited();
    } else {
      var m := |articles| - 1;
      GroupedBefore(conf, articles);
      var a, s, before := articles[m], Run(conf, articles[..m]), FirstOfEach(conf, articles[..m]);
      HierarchyTallies(conf, articles[..m], h);
      if Accepts(conf, s.seen, a) {
        var v := a.AsVisit();
        HierarchyCount(a.Groups(), conf.hierarchies, h);
        VisitKeysAt(s.hierarchies, HierarchyVisits(Sort(a.Groups()), conf.hierarchies), v, h);
        VisitedRepeat(VisitsOfHierarchy(conf, before, h), v, Times(a.Groups(), conf.hierarchies, h));
        assert (before + [a])[..|before|] == before;
      }
    }
  }

  predicate AllDotted(articles: seq<Posting>)
    requires HaveGroups(articles)
  {
    forall i :: 0 <= i < |articles| ==> Dots(articles[i].Groups())
  }

  predicate Dots(groups: seq<string>)
  {
    forall j :: 0 <= j < |groups| ==> '.' in groups[j]
  }

  lemma OnceIfDotted(groups: seq<string>, conf: set<string>, h: string)
    requires Dots(groups) && h in conf
    ensures Times(groups, conf, h) == if Present(groups, h) then 1 else 0
  {
    hide HierarchyOf;
    forall g
      ensures '.' in h ==> !Dotted(g, h)
    {
      HierarchyIs(g, h);
    }
  }

  lemma RepeatOnce(v: Visit)
    ensures Repeat(v, 0) == [] && Repeat(v, 1) == [v]
  {
    assert Repeat(v, 0) == [];
  }

  /** Where every group name that is counted has a dot, each article is there once. */
  lemma {:induction false} DottedCountOnce(conf: Config, articles: seq<Posting>, h: string)
    requires HaveGroups(articles)
    requires AllDotted(articles) && h in conf.hierarchies
    ensures VisitsOfHierarchy(conf, articles, h) == ArticlesOfHierarchy(articles, h)
  {
    hide Times, Posting.Groups, Repeat, Present, Dots;
    if articles != [] {
      var m := |articles| - 1;
      DottedCountOnce(conf, articles[..m], h);
      assert Dots(articles[m].Groups());
      OnceIfDotted(articles[m].Groups(), conf.hierarchies, h);
      RepeatOnce(articles[m].AsVisit());
    }
  }

  // ----- the class -------------------------------------------------------------------------------------

  lemma VisitKeysStep(m: map<string, Tally>, keys: seq<string>, k: string, v: Visit)
    ensures VisitKeys(m, keys + [k], v) == VisitKey(VisitKeys(m, keys, v), k, v)
  {
    assert (keys + [k])[..|keys|] == keys;
  }

  /** One turn of the loop over the sorted groups. */
  lemma VisitsStep(gs: seq<string>, n: nat, conf: set<string>)
    requires n < |gs|
    ensures
      var visits, h := GroupVisits(gs[..n], conf), HierarchyOf(gs[n]);
      var counted := !Repeated(gs, n) && h in conf;
      && GroupVisits(gs[..n + 1], conf) == (if counted then visits + [gs[n]] else visits)
      && HierarchyVisits(gs[..n + 1], conf)
           == (if counted && LastHierarchy(visits) != Some(h) then HierarchyVisits(gs[..n], conf) + [h]
               else HierarchyVisits(gs[..n], conf))
  {
    hide HierarchyOf;
    assert gs[..n + 1][..n] == gs[..n];
  }

  lemma LastOneMore(visits: seq<string>, g: string)
    ensures LastHierarchy(visits + [g]) == Some(HierarchyOf(g))
  {
  }

  lemma VisitsOfNone(conf: set<string>, m: map<string, Tally>, v: Visit)
    ensures GroupVisits([], conf) == [] && HierarchyVisits([], conf) == []
    ensures VisitKeys(m, [], v) == m
    ensures LastHierarchy([]) == None
  {
  }

  ghost predicate Distinct(buckets: map<string, SenderCountingBucket>)
  {
    forall k, l :: k in buckets && l in buckets && k != l ==> buckets[k] != buckets[l]
  }

  function Tallies(buckets: map<string, SenderCountingBucket>): map<string, Tally>
    reads buckets.Values
  {
    map k | k in buckets :: buckets[k].View()
  }

  lemma TalliesPut(buckets: map<string, SenderCountingBucket>, k: string, bucket: SenderCountingBucket)
    ensures Tallies(buckets[k := bucket]) == Tallies(buckets)[k := bucket.View()]
  {
  }

  lemma TalliesKeys(buckets: map<string, SenderCountingBucket>)
    ensures Tallies(buckets).Keys == buckets.Keys
  {
  }

  lemma VisitNewKey(m: map<string, Tally>, k: string, v: Visit)
    requires k !in m
    ensures VisitKey(m[k := EMPTY], k, v) == VisitKey(m, k, v)
  {
  }

  lemma NewIsDistinct(buckets: map<string, SenderCountingBucket>, k: string, bucket: SenderCountingBucket)
    requires Distinct(buckets) && bucket !in buckets.Values
    ensures Distinct(buckets[k := bucket])
    ensures buckets[k := bucket].Values <= buckets.Values + {bucket}
  {
    forall l | l in buckets
      ensures buckets[l] != bucket
    {
      assert buckets[l] in buckets.Values;
    }
  }

  method VisitBucket(buckets: map<string, SenderCountingBucket>, k: string, v: Visit)
    requires Distinct(buckets) && k in buckets
    modifies buckets[k]
    ensures Tallies(buckets) == VisitKey(old(Tallies(buckets)), k, v)
  {
    hide Visited;
    buckets[k].Visit(v.sender, v.size);
  }

  lemma SameBucket(
      buckets: map<string, SenderCountingBucket>, last: SenderCountingBucket?, name: Option<string>, h: string)
    requires Distinct(buckets) && h in buckets
    requires last == null <==> name == None
    requires last != null ==> name.value in buckets && last == buckets[name.value]
    ensures buckets[h] == last <==> name == Some(h)
  {
  }

  /** Group objects are kept by name in one map here; the code keeps them in the
      Hierarchy object of the part of the name before the first dot. */
  class AllGroups {
    const conf: Config
    var articles: nat
    var bytes: nat
    var seen: set<string>
    const useragents: ArticleProperty
    const charsets: ArticleProperty
    const hierarchies: map<string, SenderCountingBucket>
    var groups: map<string, SenderCountingBucket>

    ghost predicate Valid()
      reads this
    {
      && useragents != charsets
      && hierarchies.Keys == conf.hierarchies
      && Distinct(hierarchies) && Distinct(groups)
      && hierarchies.Values !! groups.Values
    }

    function View(): Counts
      reads this, useragents, charsets, hierarchies.Values, groups.Values
    {
      Counts(articles, bytes, seen, useragents.values, charsets.values, Tallies(hierarchies), Tallies(groups))
    }

    /** The Hierarchy objects are made beforehand, one per configured name. */
    constructor (conf: Config, hierarchies: map<string, SenderCountingBucket>)
      requires hierarchies.Keys == conf.hierarchies && Distinct(hierarchies)
      requires forall h :: h in hierarchies ==> hierarchies[h].View() == EMPTY
      ensures Valid() && this.hierarchies == hierarchies && this.conf.hierarchies == conf.hierarchies
      ensures View() == Start(conf)
    {
      this.conf, this.hierarchies := conf, hierarchies;
      articles, bytes, seen, groups := 0, 0, {}, map[];
      useragents := new ArticleProperty();
      charsets := new ArticleProperty();
    }

    /** h->group(g)->visit(a): a group not met before gets a new object. */
    method VisitGroup(g: string, v: Visit)
      requires Valid()
      modifies this`groups, groups.Values
      ensures Valid() && fresh(groups.Values - old(groups.Values))
      ensures Tallies(groups) == VisitKey(old(Tallies(groups)), g, v)
      ensures Tallies(hierarchies) == old(Tallies(hierarchies))
    {
      hide Tallies, VisitKey, Distinct;
      if g !in groups {
        var bucket := new SenderCountingBucket();
        NewIsDistinct(groups, g, bucket);
        TalliesPut(groups, g, bucket);
        TalliesKeys(groups);
        VisitNewKey(Tallies(groups), g, v);
        groups := groups[g := bucket];
      }
      VisitBucket(groups, g, v);
    }

    /** The loop of AllGroups::visit(path) over the sorted groups. */
    method VisitGroups(gs: seq<string>, v: Visit) returns (visited: bool)
      requires Valid()
      modifies this`groups, groups.Values, hierarchies.Values
      ensures Valid() && fresh(groups.Values - old(groups.Values))
      ensures Tallies(hierarchies) == VisitKeys(old(Tallies(hierarchies)), HierarchyVisits(gs, conf.hierarchies), v)
      ensures Tallies(groups) == VisitKeys(old(Tallies(groups)), GroupVisits(gs, conf.hierarchies), v)
      ensures visited <==> GroupVisits(gs, conf.hierarchies) != []
    {
      hide VisitKeys, HierarchyVisits, GroupVisits, HierarchyOf, LastHierarchy, Tallies, VisitKey, Distinct, Repeated, View;
      visited := false;
      var last: SenderCountingBucket? := null;
      ghost var visits: seq<string> := [];
      VisitsOfNone(conf.hierarchies, Tallies(hierarchies), v);
      VisitsOfNone(conf.hierarchies, Tallies(groups), v);
      assert gs[..0] == [];
      var n := 0;
      while n < |gs|
        invariant n <= |gs|
        invariant Valid() && fresh(groups.Values - old(groups.Values))
        invariant visits == GroupVisits(gs[..n], conf.hierarchies)
        invariant Tallies(hierarchies) == VisitKeys(old(Tallies(hierarchies)), HierarchyVisits(gs[..n], conf.hierarchies), v)
        invariant Tallies(groups) == VisitKeys(old(Tallies(groups)), visits, v)
        invariant visited <==> visits != []
        invariant last == null <==> LastHierarchy(visits) == None
        invariant last != null ==>
          LastHierarchy(visits).value in hierarchies && last == hierarchies[LastHierarchy(visits).value]
      {
        VisitsStep(gs, n, conf.hierarchies);
        if !Repeated(gs, n) {
          var hname := HierarchyOf(gs[n]);
          if hname in hierarchies {
            var h := hierarchies[hname];
            VisitKeysStep(old(Tallies(groups)), visits, gs[n], v);
            VisitGroup(gs[n], v);
            visited := true;
            SameBucket(hierarchies, last, LastHierarchy(visits), hname);
            LastOneMore(visits, gs[n]);
            visits := visits + [gs[n]];
            if h != last {
              VisitKeysStep(old(Tallies(hierarchies)), HierarchyVisits(gs[..n], conf.hierarchies), hname, v);
              VisitBucket(hierarchies, hname, v);
              last := h;
            }
          }
        }
        n := n + 1;
      }
      assert gs[..n] == gs;
    }

    /** AllGroups::visit(path), the article having been read and parsed. */
    method VisitArticle(a: Posting) returns (visited: bool)
      requires Valid() && Grouped(conf, seen, a)
      modifies this, useragents, charsets, groups.Values, hierarchies.Values
      ensures Valid() && fresh(groups.Values - old(groups.Values))
      ensures View() == Step(conf, old(View()), a)
      ensures visited <==>
                Accepts(conf, old(seen), a) && exists g :: g in a.Groups() && HierarchyOf(g) in conf.hierarchies
    {
      hide VisitKeys, HierarchyVisits, GroupVisits, HierarchyOf, Sort, DateText.ParseDate, Posting.UserAgent, Updated, Distinct;
      var accepted := a.Valid();
      if accepted {
        var date := DateText.ParseDateText(conf.zones, a.headers["date"]);
        accepted := conf.startTime <= date < conf.endTime && a.Mid() !in seen;
      }
      visited := false;
      if accepted {
        visited := CountArticle(a);
        SomeVisit(a.Groups(), conf.hierarchies);
      }
    }

    /** AllGroups::visit(path): only the start of the file is read, but what is
        counted is what the whole file says. */
    method VisitFile(file: string, pieces: seq<nat>) returns (visited: bool)
      requires Valid() && Grouped(conf, seen, Posting(Parse(file, map[]), |file|))
      modifies this, useragents, charsets, groups.Values, hierarchies.Values
      ensures Valid() && fresh(groups.Values - old(groups.Values))
      ensures View() == Step(conf, old(View()), Posting(Parse(file, map[]), |file|))
    {
      hide Step, View, Distinct, Parse, Grouped;
      var text := ReadHead(file, pieces);
      var article := new Article(text, |file|);
      visited := VisitArticle(Posting(article.headers, article.bytes));
    }

    /** AllGroups::visit(const Article *) */
    method CountTotals(a: Posting)
      requires Valid() && a.Valid()
      modifies `articles, `bytes, useragents, charsets
      ensures articles == old(articles) + 1 && bytes == old(bytes) + a.size
      ensures useragents.values == Updated(old(useragents.values), a.AsVisit().sender, a.UserAgent())
      ensures charsets.values == Updated(old(charsets.values), a.AsVisit().sender, conf.charset(a.headers))
    {
      hide Posting.UserAgent, Updated, Distinct;
      articles, bytes := articles + 1, bytes + a.size;
      var sender := a.headers["from"];
      useragents.Update(sender, a.UserAgent());
      charsets.Update(sender, conf.charset(a.headers));
    }

    /** The part of AllGroups::visit(path) for an article that is accepted. */
    method CountArticle(a: Posting) returns (visited: bool)
      requires Valid() && Grouped(conf, seen, a) && Accepts(conf, seen, a)
      modifies this, useragents, charsets, groups.Values, hierarchies.Values
      ensures Valid() && fresh(groups.Values - old(groups.Values))
      ensures View() == Step(conf, old(View()), a)
      ensures visited <==> GroupVisits(Sort(a.Groups()), conf.hierarchies) != []
    {
      hide VisitKeys, HierarchyVisits, GroupVisits, Tallies, Sort, DateText.ParseDate, Posting.UserAgent, Posting.Groups, Updated, Distinct;
      seen := seen + {a.Mid()};
      CountTotals(a);
      visited := VisitGroups(Sort(a.Groups()), a.AsVisit());
    }
  }

  lemma SomeVisit(groups: seq<string>, conf: set<string>)
    ensures GroupVisits(Sort(groups), conf) != [] <==> exists g :: g in groups && HierarchyOf(g) in conf
  {
    hide HierarchyOf, GroupVisits, Sort;
    SortSorts(groups);
    GroupVisitsAre(Sort(groups), conf);
    var visits := GroupVisits(Sort(groups), conf);
    if visits != [] {
      assert visits[0] in visits;
    }
  }
}
