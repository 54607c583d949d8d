/** What the counters of spoolstats say, in terms of the headers of the articles
    alone: who is counted as a sender, of which groups, with how many bytes. */
module SpoolMeaning {
  import opened ArticleHeaders
  import opened ArticleProperties
  import opened GroupDedup
  import opened MapSum
  import opened SpoolCount
  import DateText

  /** The article may be counted: its three headers are there and its date is within
      the sampling range. */
  predicate InSample(conf: Config, a: Posting)
  {
    && "message-id" in a.headers && "date" in a.headers && "from" in a.headers
    && conf.startTime <= DateText.ParseDate(conf.zones, a.headers["date"])
    && DateText.ParseDate(conf.zones, a.headers["date"]) < conf.endTime
  }

  /** The ID is that of some article of the sample. */
  predicate IsIdOf(conf: Config, articles: seq<Posting>, id: string)
  {
    exists i :: 0 <= i < |articles| && InSample(conf, articles[i]) && articles[i].headers["message-id"] == id
  }

  lemma InSampleIsEligible(conf: Config, a: Posting)
    ensures InSample(conf, a) <==> Eligible(conf, a)
  {
    hide DateText.ParseDate;
  }

  /** The IDs seen are those of the articles of the sample. */
  lemma SeenIds(conf: Config, articles: seq<Posting>, id: string)
    requires AllGrouped(conf, articles)
    ensures id in Run(conf, articles).seen <==> IsIdOf(conf, articles, id)
  {
    hide Run, Eligible, InSample;
    RunSees(conf, articles);
    forall i | 0 <= i < |articles|
      ensures InSample(conf, articles[i]) <==> Eligible(conf, articles[i])
    {
      InSampleIsEligible(conf, articles[i]);
    }
    HasId(conf, articles, id);
  }

  lemma HasId(conf: Config, articles: seq<Posting>, id: string)
    ensures id in MidsOf(conf, articles) <==> IsIdOf(conf, articles, id)
  {
    hide DateText.ParseDate;
  }

  predicate From(a: Posting, sender: string)
    requires a.Valid()
  {
    a.headers["from"] == sender
  }

  predicate Lists(a: Posting, g: string)
    requires "newsgroups" in a.headers
  {
    g in SplitAt(a.headers["newsgroups"], ',')
  }

  /** How many articles from a sender list a group. */
  function ArticlesFrom(articles: seq<Posting>, g: string, sender: string): nat
    requires HaveGroups(articles)
  {
    if articles == [] then 0
    else
      var m := |articles| - 1;
      ArticlesFrom(articles[..m], g, sender) + (if Lists(articles[m], g) && From(articles[m], sender) then 1 else 0)
  }

  /** The size of all articles that list a group. */
  function BytesOf(articles: seq<Posting>, g: string): nat
    requires HaveGroups(articles)
  {
    if articles == [] then 0
    else
      var m := |articles| - 1;
      BytesOf(articles[..m], g) + (if Lists(articles[m], g) then articles[m].size else 0)
  }

  lemma VisitsByOneMore(before: seq<Visit>, v: Visit, sender: string)
    ensures VisitsBy(before + [v], sender) == VisitsBy(before, sender) + (if v.sender == sender then 1 else 0)
    ensures TotalSize(before + [v]) == TotalSize(before) + v.size
  {
    assert (before + [v])[..|before|] == before;
  }

  lemma {:induction false} GroupVisitsMean(articles: seq<Posting>, g: string, sender: string)
    requires HaveGroups(articles)
    ensures VisitsBy(VisitsOfGroup(articles, g), sender) == ArticlesFrom(articles, g, sender)
    ensures TotalSize(VisitsOfGroup(articles, g)) == BytesOf(articles, g)
  {
    hide VisitsBy, TotalSize;
    if articles == [] {
      NoVisits(sender);
    } else {
      var m := |articles| - 1;
      GroupVisitsMean(articles[..m], g, sender);
      VisitsByOneMore(VisitsOfGroup(articles[..m], g), articles[m].AsVisit(), sender);
    }
  }

  lemma NoVisits(sender: string)
    ensures VisitsBy([], sender) == 0 && TotalSize([]) == 0
  {
  }

  /** After any run, a configured group's count for a sender is the number of counted
      articles that list the group and come from that sender by their From header; and
      its bytes are the sizes of those that list it. */
  lemma GroupCounters(conf: Config, articles: seq<Posting>, g: string, sender: string)
    requires AllGrouped(conf, articles) && HierarchyOf(g) in conf.hierarchies
    ensures
      var t := FindTally(Run(conf, articles).groups, g);
      && CountOf(t.senders, sender) == ArticlesFrom(FirstOfEach(conf, articles), g, sender)
      && t.bytes == BytesOf(FirstOfEach(conf, articles), g)
  {
    hide Run, VisitsOfGroup, VisitsBy, TotalSize, ArticlesFrom, BytesOf, VisitedAll, FirstOfEach, FindTally;
    var firsts := FirstOfEach(conf, articles);
    GroupTallies(conf, articles, g);
    TallyPerSender(VisitsOfGroup(firsts, g), sender);
    TallyTotals(VisitsOfGroup(firsts, g));
    GroupVisitsMean(firsts, g, sender);
  }

  /** The same for hierarchies, each article as often as it is counted. */
  function WeightIn(conf: Config, a: Posting, h: string): nat
    requires "newsgroups" in a.headers
  {
    Times(SplitAt(a.headers["newsgroups"], ','), conf.hierarchies, h)
  }

  function WeightFrom(conf: Config, articles: seq<Posting>, h: string, sender: string): nat
    requires HaveGroups(articles)
  {
    if articles == [] then 0
    else
      var m := |articles| - 1;
      WeightFrom(conf, articles[..m], h, sender) + (if From(articles[m], sender) then WeightIn(conf, articles[m], h) else 0)
  }

  function WeightedBytes(conf: Config, articles: seq<Posting>, h: string): nat
    requires HaveGroups(articles)
  {
    if articles == [] then 0
    else
      var m := |articles| - 1;
      WeightedBytes(conf, articles[..m], h) + WeightIn(conf, articles[m], h) * articles[m].size
  }

  lemma {:induction false} VisitsByRepeat(before: seq<Visit>, v: Visit, n: nat, sender: string)
    ensures VisitsBy(before + Repeat(v, n), sender) == VisitsBy(before, sender) + (if v.sender == sender then n else 0)
    ensures TotalSize(before + Repeat(v, n)) == TotalSize(before) + n * v.size
  {
    hide VisitsBy, TotalSize;
    if n == 0 {
      assert before + [] == before;
    } else {
      VisitsByRepeat(before, v, n - 1, sender);
      VisitsByOneMore(before + Repeat(v, n - 1), v, sender);
      assert before + Repeat(v, n) == before + Repeat(v, n - 1) + [v];
      assert n * v.size == (n - 1) * v.size + v.size;
    }
  }

  lemma {:induction false} HierarchyVisitsMean(conf: Config, articles: seq<Posting>, h: string, sender: string)
    requires HaveGroups(articles)
    ensures VisitsBy(VisitsOfHierarchy(conf, articles, h), sender) == WeightFrom(conf, articles, h, sender)
    ensures TotalSize(VisitsOfHierarchy(conf, articles, h)) == WeightedBytes(conf, articles, h)
  {
    hide VisitsBy, TotalSize, Times, Repeat;
    if articles == [] {
      NoVisits(sender);
    } else {
      var m := |articles| - 1;
      HierarchyVisitsMean(conf, articles[..m], h, sender);
      VisitsByRepeat(VisitsOfHierarchy(conf, articles[..m], h), articles[m].AsVisit(), WeightIn(conf, articles[m], h), sender);
    }
  }

  /** After any run, a hierarchy's count for a sender, and its bytes. */
  lemma HierarchyCounters(conf: Config, articles: seq<Posting>, h: string, sender: string)
    requires AllGrouped(conf, articles)
    ensures
      var t := FindTally(Run(conf, articles).hierarchies, h);
      && CountOf(t.senders, sender) == WeightFrom(conf, FirstOfEach(conf, articles), h, sender)
      && t.bytes == WeightedBytes(conf, FirstOfEach(conf, articles), h)
  {
    hide Run, VisitsOfHierarchy, VisitsBy, TotalSize, WeightFrom, WeightedBytes, VisitedAll, FirstOfEach, FindTally;
    var firsts := FirstOfEach(conf, articles);
    HierarchyTallies(conf, articles, h);
    TallyPerSender(VisitsOfHierarchy(conf, firsts, h), sender);
    TallyTotals(VisitsOfHierarchy(conf, firsts, h));
    HierarchyVisitsMean(conf, firsts, h, sender);
  }

  // ----- the two tables of properties -------------------------------------------------------

  /** The first of the three headers that is there names the user agent. */
  lemma AgentIs(a: Posting)
    ensures "user-agent" in a.headers ==> a.UserAgent() == a.headers["user-agent"]
    ensures "user-agent" !in a.headers && "x-newsreader" in a.headers ==> a.UserAgent() == a.headers["x-newsreader"]
    ensures "user-agent" !in a.headers && "x-newsreader" !in a.headers && "x-mailer" in a.headers ==>
              a.UserAgent() == a.headers["x-mailer"]
    ensures a.headers.Keys !! {"user-agent", "x-newsreader", "x-mailer"} ==> a.UserAgent() == "(unknown)"
  {
    if a.headers.Keys !! {"user-agent", "x-newsreader", "x-mailer"} {
      assert forall k :: k in {"user-agent", "x-newsreader", "x-mailer"} ==> k !in a.headers.Keys;
    }
  }

  predicate AllValid(articles: seq<Posting>) { forall i :: 0 <= i < |articles| ==> articles[i].Valid() }

  function AgentSightings(articles: seq<Posting>): seq<Sighting>
    requires AllValid(articles)
  {
    if articles == [] then []
    else
      var m := |articles| - 1;
      AgentSightings(articles[..m]) + [Sighting(articles[m].headers["from"], articles[m].UserAgent())]
  }

  function CharsetSightings(conf: Config, articles: seq<Posting>): seq<Sighting>
    requires AllValid(articles)
  {
    if articles == [] then []
    else
      var m := |articles| - 1;
      CharsetSightings(conf, articles[..m]) + [Sighting(articles[m].headers["from"], conf.charset(articles[m].headers))]
  }

  function TotalBytes(articles: seq<Posting>): nat
  {
    if articles == [] then 0 else TotalBytes(articles[..|articles| - 1]) + articles[|articles| - 1].size
  }

  lemma UpdatedOneMore(history: seq<Sighting>, s: Sighting)
    ensures UpdatedAll(history + [s]) == Updated(UpdatedAll(history), s.sender, s.value)
  {
    assert (history + [s])[..|history|] == history;
  }

  /** After any run, the totals are those of the counted articles, and the tables hold
      one sighting of each: its sender by the From header, with its user agent and with
      its character set. */
  lemma {:induction false} TotalsAndTables(conf: Config, articles: seq<Posting>)
    requires AllGrouped(conf, articles)
    ensures
      var s, firsts := Run(conf, articles), FirstOfEach(conf, articles);
      && AllValid(firsts)
      && s.articles == |firsts| && s.bytes == TotalBytes(firsts)
      && s.useragents == UpdatedAll(AgentSightings(firsts))
      && s.charsets == UpdatedAll(CharsetSightings(conf, firsts))
  {
    hide DateText.ParseDate, MidsOf, Sort, HierarchyVisits, GroupVisits, VisitKeys, Posting.UserAgent, Posting.Groups, Updated,
         UpdatedAll;
    if articles == [] {
      NothingUpdated();
    } else {
      var m := |articles| - 1;
      var a, before := articles[m], FirstOfEach(conf, articles[..m]);
      GroupedBefore(conf, articles);
      TotalsAndTables(conf, articles[..m]);
      if Accepts(conf, MidsOf(conf, before), a) {
        assert (before + [a])[..|before|] == before;
        UpdatedOneMore(AgentSightings(before), Sighting(a.headers["from"], a.UserAgent()));
        UpdatedOneMore(CharsetSightings(conf, before), Sighting(a.headers["from"], conf.charset(a.headers)));
      }
    }
  }

  lemma NothingUpdated()
    ensures UpdatedAll([]) == map[]
  {
  }
}
