/** How spoolstats/AllGroups.cc counts an article once per group and once per
    hierarchy: sort the group names, skip equal neighbours, and skip a
    hierarchy that is that of the last counted group. */
module GroupDedup {
  import opened Text

  // ----- the loop as functions of the sorted list -----------------------------------------

  /** groups[n].find('.'): the part before the first dot. */
  function HierarchyOf(g: string): (h: string)
    ensures h <= g && '.' !in h
    ensures h != g ==> |h| < |g| && g[|h|] == '.'
  {
    if g == "" || g[0] == '.' then "" else [g[0]] + HierarchyOf(g[1..])
  }

  predicate Repeated(gs: seq<string>, n: nat)
    requires n < |gs|
  {
    n > 0 && gs[n - 1] == gs[n]
  }

  /** The groups that are visited, in order. */
  function GroupVisits(gs: seq<string>, conf: set<string>): seq<string>
  {
    if gs == [] then []
    else
      var m := |gs| - 1;
      var before := GroupVisits(gs[..m], conf);
      if Repeated(gs, m) || HierarchyOf(gs[m]) !in conf then before else before + [gs[m]]
  }

  function LastHierarchy(visits: seq<string>): Option<string>
  {
    if visits == [] then None else Some(HierarchyOf(visits[|visits| - 1]))
  }

  /** The hierarchies that are visited, in order: with last_h that of the group
      visited before. */
  function HierarchyVisits(gs: seq<string>, conf: set<string>): seq<string>
  {
    if gs == [] then []
    else
      var m := |gs| - 1;
      var before := HierarchyVisits(gs[..m], conf);
      var h := HierarchyOf(gs[m]);
      if Repeated(gs, m) || h !in conf || LastHierarchy(GroupVisits(gs[..m], conf)) == Some(h) then before
      else before + [h]
  }

  // ----- sorting ------------------------------------------------------------------------------

  predicate Sorted(gs: seq<string>)
  {
    forall i, j :: 0 <= i < j < |gs| ==> !Less(gs[j], gs[i])
  }

  predicate StrictlySorted(gs: seq<string>)
  {
    forall i, j :: 0 <= i < j < |gs| ==> Less(gs[i], gs[j])
  }

  lemma NotLessTransitive(a: string, b: string, c: string)
    requires !Less(b, a) && !Less(c, b)
    ensures !Less(c, a)
  {
    Trichotomy(a, b);
    Trichotomy(b, c);
    Trichotomy(a, c);
    if Less(a, b) && Less(b, c) {
      LessTransitive(a, b, c);
    }
  }

  function Insert(x: string, gs: seq<string>): (r: seq<string>)
    ensures multiset(r) == multiset{x} + multiset(gs)
  {
    if gs == [] then [x]
    else if Less(gs[0], x) then
      assert gs == [gs[0]] + gs[1..];
      [gs[0]] + Insert(x, gs[1..])
    else [x] + gs
  }

  /** x may stand in front of gs. */
  predicate Heads(x: string, gs: seq<string>)
  {
    forall k :: 0 <= k < |gs| ==> !Less(gs[k], x)
  }

  lemma PrependSorted(x: string, gs: seq<string>)
    requires Sorted(gs) && Heads(x, gs)
    ensures Sorted([x] + gs)
  {
    hide Less;
  }

  lemma TailSorted(gs: seq<string>)
    requires Sorted(gs) && gs != []
    ensures Sorted(gs[1..]) && Heads(gs[0], gs[1..])
  {
    hide Less;
  }

  lemma {:induction false} HeadsInserted(y: string, x: string, gs: seq<string>)
    requires Heads(y, gs) && !Less(x, y)
    ensures Heads(y, Insert(x, gs))
  {
    hide Less;
    if gs != [] && Less(gs[0], x) {
      HeadsInserted(y, x, gs[1..]);
    }
  }

  lemma HeadsBefore(x: string, gs: seq<string>)
    requires gs != [] && !Less(gs[0], x) && Heads(gs[0], gs[1..])
    ensures Heads(x, gs)
  {
    hide Less;
    forall k | 0 <= k < |gs|
      ensures !Less(gs[k], x)
    {
      if k > 0 {
        assert gs[k] == gs[1..][k - 1];
        NotLessTransitive(x, gs[0], gs[k]);
      }
    }
  }

  lemma {:induction false} InsertSorted(x: string, gs: seq<string>)
    requires Sorted(gs)
    ensures Sorted(Insert(x, gs))
  {
    hide Less, Sorted, Heads;
    if gs == [] {
      EmptyIsSorted();
      EmptyHeads(x);
      PrependSorted(x, []);
      assert [x] + [] == [x];
    } else {
      TailSorted(gs);
      if Less(gs[0], x) {
        InsertSorted(x, gs[1..]);
        Trichotomy(gs[0], x);
        HeadsInserted(gs[0], x, gs[1..]);
        PrependSorted(gs[0], Insert(x, gs[1..]));
      } else {
        HeadsBefore(x, gs);
        PrependSorted(x, gs);
      }
    }
  }

  lemma EmptyIsSorted()
    ensures Sorted([])
  {
  }

  lemma EmptyHeads(x: string)
    ensures Heads(x, [])
  {
  }

  /** std::sort on byte strings */
  function Sort(gs: seq<string>): (r: seq<string>)
    ensures multiset(r) == multiset(gs)
  {
    if gs == [] then []
    else
      assert gs == [gs[0]] + gs[1..];
      Insert(gs[0], Sort(gs[1..]))
  }

  lemma {:induction false} SortSorts(gs: seq<string>)
    ensures Sorted(Sort(gs))
    ensures forall g :: g in Sort(gs) <==> g in gs
  {
    hide Sorted, Insert;
    if gs != [] {
      SortSorts(gs[1..]);
      InsertSorted(gs[0], Sort(gs[1..]));
    } else {
      EmptyIsSorted();
    }
    forall g ensures g in Sort(gs) <==> g in gs {
      assert g in Sort(gs) <==> g in multiset(Sort(gs));
      assert g in gs <==> g in multiset(gs);
    }
  }

  /** Any other sorting algorithm gives the same list. */
  lemma {:induction false} SortedIsUnique(r: seq<string>, s: seq<string>)
    requires Sorted(r) && Sorted(s) && multiset(r) == multiset(s)
    ensures r == s
  {
    hide Less, Sorted;
    assert |r| == |multiset(r)| == |multiset(s)| == |s|;
    if r != [] {
      assert r[0] in multiset(s) && s[0] in multiset(r);
      FirstIsLeast(r, s[0]);
      FirstIsLeast(s, r[0]);
      Trichotomy(r[0], s[0]);
      HeadAndTail(r);
      HeadAndTail(s);
      TailSorted(r);
      TailSorted(s);
      SortedIsUnique(r[1..], s[1..]);
    }
  }

  lemma HeadAndTail(gs: seq<string>)
    requires gs != []
    ensures gs == [gs[0]] + gs[1..]
    ensures multiset(gs[1..]) == multiset(gs) - multiset{gs[0]}
  {
    assert gs == [gs[0]] + gs[1..];
  }

  lemma FirstIsLeast(gs: seq<string>, x: string)
    requires Sorted(gs) && x in gs
    ensures !Less(x, gs[0])
  {
    hide Less;
    Trichotomy(x, x);
  }

  // ----- each listed group once ------------------------------------------------------------------

  /** The visited groups are the distinct listed ones of a configured
      hierarchy, in strict order. */
  lemma {:induction false} GroupVisitsAre(gs: seq<string>, conf: set<string>)
    requires Sorted(gs)
    ensures StrictlySorted(GroupVisits(gs, conf))
    ensures forall g :: g in GroupVisits(gs, conf) <==> g in gs && HierarchyOf(g) in conf
  {
    hide Less, HierarchyOf;
    if gs != [] {
      var m := |gs| - 1;
      var before, g := GroupVisits(gs[..m], conf), gs[m];
      GroupVisitsAre(gs[..m], conf);
      assert gs == gs[..m] + [g];
      if !Repeated(gs, m) && HierarchyOf(g) in conf {
        forall i | 0 <= i < |before|
          ensures Less(before[i], g)
        {
          assert before[i] in gs[..m];
          var k :| 0 <= k < m && gs[k] == before[i];
          Trichotomy(gs[k], g);
          if gs[k] == g {
            Trichotomy(gs[m - 1], g);
          }
        }
      }
    }
  }

  /** How often x occurs. */
  function Count(s: seq<string>, x: string): nat
  {
    if s == [] then 0 else Count(s[..|s| - 1], x) + (if s[|s| - 1] == x then 1 else 0)
  }

  lemma {:induction false} CountOfStrict(s: seq<string>, x: string)
    requires StrictlySorted(s)
    ensures Count(s, x) == if x in s then 1 else 0
  {
    hide Less;
    if s != [] {
      var m := |s| - 1;
      CountOfStrict(s[..m], x);
      assert s == s[..m] + [s[m]];
      LastIsNew(s);
    }
  }

  lemma LastIsNew(s: seq<string>)
    requires StrictlySorted(s) && s != []
    ensures s[|s| - 1] !in s[..|s| - 1]
  {
    hide Less;
    Trichotomy(s[|s| - 1], s[|s| - 1]);
  }

  /** An article adds exactly one to each distinct group it lists in a configured
      hierarchy and nothing to any other, in any order and with any repeats. */
  lemma GroupCountedOnce(groups: seq<string>, conf: set<string>, g: string)
    ensures Count(GroupVisits(Sort(groups), conf), g)
         == if g in groups && HierarchyOf(g) in conf then 1 else 0
  {
    hide HierarchyOf, StrictlySorted;
    SortSorts(groups);
    GroupVisitsAre(Sort(groups), conf);
    CountOfStrict(GroupVisits(Sort(groups), conf), g);
  }

  // ----- runs of one hierarchy -----------------------------------------------------------------------

  /** At index i of the visited groups, h begins a new run. */
  predicate RunStart(visits: seq<string>, h: string, i: nat)
    requires i < |visits|
  {
    HierarchyOf(visits[i]) == h && (i == 0 || HierarchyOf(visits[i - 1]) != h)
  }

  function Runs(visits: seq<string>, h: string): nat
  {
    if visits == [] then 0
    else
      var m := |visits| - 1;
      Runs(visits[..m], h) + (if RunStart(visits, h, m) then 1 else 0)
  }

  /** A hierarchy is counted once per run of it among the visited groups. */
  lemma {:induction false} CountIsRuns(gs: seq<string>, conf: set<string>, h: string)
    ensures Count(HierarchyVisits(gs, conf), h) == Runs(GroupVisits(gs, conf), h)
  {
    hide HierarchyOf, Count, Runs;
    if gs == [] {
      CountNone(h);
    } else {
      var m := |gs| - 1;
      var g := gs[m];
      CountIsRuns(gs[..m], conf, h);
      CountOneMore(HierarchyVisits(gs[..m], conf), HierarchyOf(g), h);
      RunsOneMore(GroupVisits(gs[..m], conf), g, h);
    }
  }

  lemma CountNone(h: string)
    ensures Count([], h) == Runs([], h) == 0
  {
  }

  lemma CountOneMore(s: seq<string>, y: string, x: string)
    ensures Count(s + [y], x) == Count(s, x) + (if y == x then 1 else 0)
  {
    assert (s + [y])[..|s|] == s;
  }

  lemma RunsOneMore(visits: seq<string>, g: string, h: string)
    ensures Runs(visits + [g], h)
         == Runs(visits, h) + (if HierarchyOf(g) == h && LastHierarchy(visits) != Some(h) then 1 else 0)
  {
    hide HierarchyOf;
    assert (visits + [g])[..|visits|] == visits;
  }

  predicate Has(visits: seq<string>, h: string)
  {
    exists i :: 0 <= i < |visits| && HierarchyOf(visits[i]) == h
  }

  predicate Contiguous(visits: seq<string>, h: string)
  {
    forall i, j, k :: 0 <= i < j < k < |visits| && HierarchyOf(visits[i]) == h && HierarchyOf(visits[k]) == h ==>
      HierarchyOf(visits[j]) == h
  }

  lemma {:induction false} RunsIfContiguous(visits: seq<string>, h: string)
    requires Contiguous(visits, h)
    ensures Runs(visits, h) == if Has(visits, h) then 1 else 0
  {
    hide HierarchyOf, Contiguous, Has;
    if visits == [] {
      HasNone(h);
    } else {
      var m := |visits| - 1;
      ContiguousPrefix(visits, h);
      RunsIfContiguous(visits[..m], h);
      HasOneMore(visits, h);
      LastGoesOn(visits, h);
    }
  }

  lemma HasNone(h: string)
    ensures !Has([], h)
  {
  }

  lemma ContiguousPrefix(visits: seq<string>, h: string)
    requires Contiguous(visits, h) && visits != []
    ensures Contiguous(visits[..|visits| - 1], h)
  {
    hide HierarchyOf;
  }

  lemma HasOneMore(visits: seq<string>, h: string)
    requires visits != []
    ensures
      var m := |visits| - 1;
      && (Has(visits, h) <==> HierarchyOf(visits[m]) == h || Has(visits[..m], h))
      && (m > 0 && HierarchyOf(visits[m - 1]) == h ==> Has(visits[..m], h))
  {
    hide HierarchyOf;
    var m := |visits| - 1;
    assert forall i :: 0 <= i < m ==> visits[..m][i] == visits[i];
  }

  /** The last group starts a run exactly if it is the first of its hierarchy. */
  lemma LastGoesOn(visits: seq<string>, h: string)
    requires Contiguous(visits, h) && visits != []
    ensures
      var m := |visits| - 1;
      HierarchyOf(visits[m]) == h && Has(visits[..m], h) ==> m > 0 && HierarchyOf(visits[m - 1]) == h
  {
    hide HierarchyOf;
    var m := |visits| - 1;
    if HierarchyOf(visits[m]) == h && Has(visits[..m], h) {
      var i :| 0 <= i < m && HierarchyOf(visits[..m][i]) == h;
      assert visits[..m][i] == visits[i];
    }
  }

  /** Runs of two parts, when the second does not go on with a run of the first. */
  lemma {:induction false} RunsOfParts(a: seq<string>, b: seq<string>, h: string)
    requires b != [] ==> HierarchyOf(b[0]) != h
    ensures Runs(a + b, h) == Runs(a, h) + Runs(b, h)
  {
    hide HierarchyOf;
    if b == [] {
      assert a + b == a;
    } else {
      var m := |b| - 1;
      assert (a + b)[..|a| + m] == a + b[..m];
      if m > 0 {
        RunsOfParts(a, b[..m], h);
        assert (a + b)[|a| + m - 1] == b[m - 1];
      } else {
        assert b[..0] == [] && a + [] == a;
      }
    }
  }

  // ----- where the groups of one hierarchy stand -----------------------------------------------------

  /** The groups of h are h itself and those that begin with h and a dot. */
  lemma {:induction false} HierarchyIs(g: string, h: string)
    ensures HierarchyOf(g) == h <==> '.' !in h && (g == h || h + "." <= g)
  {
    if '.' in h {
    } else if g == "" || g[0] == '.' {
    } else if h == "" {
      assert HierarchyOf(g)[0] == g[0];
    } else {
      HierarchyIs(g[1..], h[1..]);
      assert h == [h[0]] + h[1..] && g == [g[0]] + g[1..];
      assert h + "." == [h[0]] + (h[1..] + ".");
      assert h + "." <= g <==> h[0] == g[0] && h[1..] + "." <= g[1..];
    }
  }

  lemma {:induction false} PrefixIsLess(p: string, x: string)
    requires p < x
    ensures Less(p, x)
  {
    if p != "" {
      PrefixIsLess(p[1..], x[1..]);
    }
  }

  /** Only strings that begin with p lie between p and one that begins with p. */
  lemma {:induction false} BetweenBeginsWith(p: string, x: string, y: string)
    requires Less(p, x) && Less(x, y) && p <= y
    ensures p <= x
  {
    if p != "" {
      BetweenBeginsWith(p[1..], x[1..], y[1..]);
      assert p == [p[0]] + p[1..] && x == [x[0]] + x[1..];
    }
  }

  /** After a common prefix the next character decides. */
  lemma {:induction false} NextDecides(p: string, x: string, y: string)
    requires p < x && p < y && x[|p|] < y[|p|]
    ensures Less(x, y)
  {
    if p != "" {
      NextDecides(p[1..], x[1..], y[1..]);
    }
  }

  /** g is of hierarchy h and has a dot. */
  predicate Dotted(g: string, h: string) { g != h && HierarchyOf(g) == h }

  lemma DottedIsGreater(g: string, h: string)
    requires Dotted(g, h)
    ensures Less(h, g) && h + "." <= g && h < g && g[|h|] == '.'
  {
    hide HierarchyOf, Less;
    HierarchyIs(g, h);
    assert h + "." <= g;
    assert (h + ".")[|h|] == '.';
    PrefixIsLess(h, g);
  }

  /** x sorts between the bare name h and any group that begins with h and a dot. */
  predicate SortsBetween(h: string, x: string) { h < x && x[|h|] < '.' }

  lemma DotNext(h: string, x: string)
    requires h < x
    ensures x[|h|] == '.' ==> h + "." <= x
  {
  }

  lemma SortsBetweenIs(h: string, x: string, y: string)
    requires Dotted(y, h)
    ensures SortsBetween(h, x) ==> HierarchyOf(x) != h && Less(h, x) && Less(x, y)
    ensures HierarchyOf(x) != h && Less(h, x) && Less(x, y) ==> SortsBetween(h, x)
  {
    hide HierarchyOf, Less;
    DottedIsGreater(y, h);
    HierarchyIs(x, h);
    HierarchyIs(y, h);
    if SortsBetween(h, x) {
      PrefixIsLess(h, x);
      NextDecides(h, x, y);
      assert (h + ".")[|h|] == '.';
    }
    if HierarchyOf(x) != h && Less(h, x) && Less(x, y) {
      BetweenBeginsWith(h, x, y);
      Trichotomy(h, h);
      DotNext(h, x);
      if x[|h|] > '.' {
        NextDecides(h, y, x);
        Trichotomy(x, y);
      }
    }
  }

  lemma DottedAreContiguous(visits: seq<string>, h: string, i: nat, j: nat, k: nat)
    requires StrictlySorted(visits) && i < j < k < |visits|
    requires Dotted(visits[i], h) && Dotted(visits[k], h)
    ensures Dotted(visits[j], h)
  {
    hide HierarchyOf, Less;
    var a, b, c := visits[i], visits[j], visits[k];
    assert Less(a, b) && Less(b, c);
    DottedIsGreater(a, h);
    DottedIsGreater(c, h);
    if !(h + "." <= b) {
      if h + "." != a {
        PrefixIsLess(h + ".", a);
        LessTransitive(h + ".", a, b);
      }
      BetweenBeginsWith(h + ".", b, c);
    }
    HierarchyIs(a, h);
    HierarchyIs(b, h);
  }

  // ----- each hierarchy once, or twice -----------------------------------------------------------------

  /** Without the bare name, a hierarchy forms one run. */
  lemma WithoutBareName(visits: seq<string>, h: string)
    requires StrictlySorted(visits) && h !in visits
    ensures Contiguous(visits, h)
  {
    hide HierarchyOf, StrictlySorted;
    forall i, j, k | 0 <= i < j < k < |visits| && HierarchyOf(visits[i]) == h && HierarchyOf(visits[k]) == h
      ensures HierarchyOf(visits[j]) == h
    {
      DottedAreContiguous(visits, h, i, j, k);
    }
  }

  /** The bare name is the first of its hierarchy. */
  lemma BareNameIsFirst(visits: seq<string>, p: nat, i: nat)
    requires StrictlySorted(visits) && i < |visits| && p < |visits|
    requires HierarchyOf(visits[i]) == visits[p]
    ensures p <= i
  {
    hide HierarchyOf, Less;
    if i < p {
      assert Less(visits[i], visits[p]);
      Trichotomy(visits[i], visits[p]);
      DottedIsGreater(visits[i], visits[p]);
    }
  }

  /** At the bare name, the visits part into a first run and the rest. */
  lemma UpToBareName(visits: seq<string>, p: nat)
    requires StrictlySorted(visits) && p < |visits| && '.' !in visits[p]
    ensures Runs(visits[..p + 1], visits[p]) == 1
  {
    hide HierarchyOf, StrictlySorted, Runs;
    var h, a := visits[p], visits[..p + 1];
    HierarchyIs(h, h);
    forall i | 0 <= i < p
      ensures HierarchyOf(a[i]) != h
    {
      if HierarchyOf(a[i]) == h {
        BareNameIsFirst(visits, p, i);
      }
    }
    assert a[p] == h;
    RunsIfContiguous(a, h);
  }

  lemma StrictTail(visits: seq<string>, p: nat)
    requires StrictlySorted(visits) && p <= |visits|
    ensures StrictlySorted(visits[p..])
    ensures p > 0 ==> visits[p - 1] !in visits[p..]
  {
    hide Less;
    forall x
      ensures !Less(x, x)
    {
      Trichotomy(x, x);
    }
  }

  /** With the bare name at p, there is a second run if and only if the next
      group is not of the hierarchy and a later one is. */
  lemma WithBareName(visits: seq<string>, p: nat)
    requires StrictlySorted(visits) && p < |visits| && '.' !in visits[p]
    ensures
      var h, rest := visits[p], visits[p + 1..];
      Runs(visits, h) == if Has(rest, h) && HierarchyOf(rest[0]) != h then 2 else 1
  {
    hide HierarchyOf, StrictlySorted, Runs, Contiguous;
    var h, rest := visits[p], visits[p + 1..];
    UpToBareName(visits, p);
    StrictTail(visits, p + 1);
    WithoutBareName(rest, h);
    RunsIfContiguous(rest, h);
    assert visits == visits[..p + 1] + rest;
    if rest == [] || HierarchyOf(rest[0]) != h {
      RunsOfParts(visits[..p + 1], rest, h);
    } else {
      OneRun(visits, p);
    }
  }

  lemma OneRun(visits: seq<string>, p: nat)
    requires StrictlySorted(visits) && p + 1 < |visits| && '.' !in visits[p]
    requires HierarchyOf(visits[p + 1]) == visits[p]
    ensures Runs(visits, visits[p]) == 1
  {
    hide HierarchyOf, StrictlySorted, Runs;
    var h := visits[p];
    HierarchyIs(h, h);
    forall i, j, k | 0 <= i < j < k < |visits| && HierarchyOf(visits[i]) == h && HierarchyOf(visits[k]) == h
      ensures HierarchyOf(visits[j]) == h
    {
      BareNameIsFirst(visits, p, i);
      if j > p + 1 {
        OnlyOneBareName(visits, p, p + 1);
        OnlyOneBareName(visits, p, k);
        DottedAreContiguous(visits, h, p + 1, j, k);
      }
    }
    RunsIfContiguous(visits, h);
  }

  lemma OnlyOneBareName(visits: seq<string>, p: nat, k: nat)
    requires StrictlySorted(visits) && p < k < |visits|
    ensures visits[k] != visits[p]
  {
    hide Less;
    Trichotomy(visits[p], visits[k]);
  }

  predicate Present(groups: seq<string>, h: string)
  {
    exists g :: g in groups && HierarchyOf(g) == h
  }

  /** Some listed group of another configured hierarchy keeps the bare name h
      apart from the other groups of h. */
  predicate Split(groups: seq<string>, conf: set<string>, h: string)
  {
    && h in groups
    && (exists g :: g in groups && Dotted(g, h))
    && (exists x :: x in groups && HierarchyOf(x) in conf && SortsBetween(h, x))
  }

  lemma SplitIsSecondRun(groups: seq<string>, conf: set<string>, visits: seq<string>, p: nat)
    requires StrictlySorted(visits) && p < |visits| && '.' !in visits[p] && visits[p] in conf
    requires forall g :: g in visits <==> g in groups && HierarchyOf(g) in conf
    ensures
      var h, rest := visits[p], visits[p + 1..];
      Split(groups, conf, h) <==> Has(rest, h) && HierarchyOf(rest[0]) != h
  {
    hide HierarchyOf, Less, SortsBetween;
    var h, rest := visits[p], visits[p + 1..];
    if Has(rest, h) && HierarchyOf(rest[0]) != h {
      var k :| 0 <= k < |rest| && HierarchyOf(rest[k]) == h;
      var x, y := visits[p + 1], visits[p + 1 + k];
      assert x in visits && y in visits && h in visits;
      OnlyOneBareName(visits, p, p + 1 + k);
      assert Less(h, x) && Less(x, y);
      SortsBetweenIs(h, x, y);
      assert Dotted(y, h);
    }
    if Split(groups, conf, h) {
      var y :| y in groups && Dotted(y, h);
      var x :| x in groups && HierarchyOf(x) in conf && SortsBetween(h, x);
      SortsBetweenIs(h, x, y);
      DottedIsGreater(y, h);
      assert y in visits && x in visits;
      var j :| 0 <= j < |visits| && visits[j] == x;
      var k :| 0 <= k < |visits| && visits[k] == y;
      InOrder(visits, p, j);
      InOrder(visits, j, k);
      assert rest[k - p - 1] == y;
      if HierarchyOf(rest[0]) == h {
        OnlyOneBareName(visits, p, p + 1);
        DottedAreContiguous(visits, h, p + 1, j, k);
      }
    }
  }

  lemma InOrder(visits: seq<string>, i: nat, j: nat)
    requires StrictlySorted(visits) && i < |visits| && j < |visits| && Less(visits[i], visits[j])
    ensures i < j
  {
    hide Less;
    Trichotomy(visits[i], visits[j]);
  }

  /** How often an article is added to a hierarchy: once if it lists a group of it,
      except twice when the bare name is split off from the others. */
  lemma HierarchyCount(groups: seq<string>, conf: set<string>, h: string)
    ensures Count(HierarchyVisits(Sort(groups), conf), h)
         == if h !in conf || !Present(groups, h) then 0 else if Split(groups, conf, h) then 2 else 1
  {
    hide HierarchyOf, StrictlySorted, Sort, Runs, Less, SortsBetween, Sorted, Contiguous, GroupVisits, HierarchyVisits, Count;
    var visits := GroupVisits(Sort(groups), conf);
    SortSorts(groups);
    GroupVisitsAre(Sort(groups), conf);
    CountIsRuns(Sort(groups), conf, h);
    assert Has(visits, h) <==> h in conf && Present(groups, h) by {
      if h in conf && Present(groups, h) {
        var g :| g in groups && HierarchyOf(g) == h;
        assert g in visits;
      }
      if Has(visits, h) {
        var i :| 0 <= i < |visits| && HierarchyOf(visits[i]) == h;
        assert visits[i] in visits;
      }
    }
    if '.' in h || h !in visits {
      WithoutBareNameInConf(groups, conf, visits, h);
      RunsIfContiguous(visits, h);
    } else {
      var p :| 0 <= p < |visits| && visits[p] == h;
      HierarchyIs(h, h);
      WithBareName(visits, p);
      SplitIsSecondRun(groups, conf, visits, p);
    }
  }

  lemma WithoutBareNameInConf(groups: seq<string>, conf: set<string>, visits: seq<string>, h: string)
    requires StrictlySorted(visits) && ('.' in h || h !in visits)
    requires forall g :: g in visits <==> g in groups && HierarchyOf(g) in conf
    ensures Contiguous(visits, h)
    ensures h in conf ==> !Split(groups, conf, h)
  {
    hide HierarchyOf, StrictlySorted, SortsBetween;
    HierarchyIs(h, h);
    if '.' in h {
      forall g ensures HierarchyOf(g) != h {
        HierarchyIs(g, h);
      }
    } else {
      WithoutBareName(visits, h);
    }
  }

  /** If every group name has a dot, an article adds exactly one to each distinct
      hierarchy it is listed in. */
  lemma HierarchyCountedOnce(groups: seq<string>, conf: set<string>, h: string)
    requires forall g :: g in groups ==> '.' in g
    ensures Count(HierarchyVisits(Sort(groups), conf), h)
         == if h in conf && Present(groups, h) then 1 else 0
  {
    hide HierarchyOf, Sort, Count, HierarchyVisits, SortsBetween;
    HierarchyCount(groups, conf, h);
    forall g
      ensures '.' in h ==> !Dotted(g, h)
    {
      HierarchyIs(g, h);
    }
  }

  /** Without that premise a hierarchy can be counted twice. */
  lemma CountedTwice()
    ensures Count(HierarchyVisits(Sort(["h", "h-x.y", "h.z"]), {"h", "h-x"}), "h") == 2
  {
    hide HierarchyVisits, Sort, Count, HierarchyOf;
    var groups := ["h", "h-x.y", "h.z"];
    HierarchyIs("h", "h");
    HierarchyIs("h.z", "h");
    HierarchyIs("h-x.y", "h-x");
    assert "h" + "." <= "h.z" && "h-x" + "." <= "h-x.y";
    assert groups[0] == "h" && groups[1] == "h-x.y" && groups[2] == "h.z";
    assert Dotted("h.z", "h");
    assert SortsBetween("h", "h-x.y");
    assert Split(groups, {"h", "h-x"}, "h");
    HierarchyCount(groups, {"h", "h-x"}, "h");
  }
}
