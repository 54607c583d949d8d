/** The unbalanced binary search tree that lib/seen.c keeps in its tracking
    file, as an array of nodes. Links are node numbers and 0 means "none": the
    root is node 0 and is never a child. */
module SearchTree {
  import opened Text

  datatype Node = Node(left: nat, right: nat, key: string)

  /** Every link goes to a later node of the file, so no descent can loop. */
  predicate Forward(t: seq<Node>)
  {
    forall i :: 0 <= i < |t| ==>
      && (t[i].left == 0 || i < t[i].left < |t|)
      && (t[i].right == 0 || i < t[i].right < |t|)
  }

  /** The nodes that can be reached from node i. */
  ghost function Reach(t: seq<Node>, i: nat): (r: set<nat>)
    requires Forward(t) && i < |t|
    ensures i in r && forall j :: j in r ==> i <= j < |t|
    decreases |t| - i
  {
    var n := t[i];
    {i}
    + (if n.left == 0 then {} else Reach(t, n.left))
    + (if n.right == 0 then {} else Reach(t, n.right))
  }

  /** The keys of the subtree at link i. */
  ghost function Keys(t: seq<Node>, i: nat): set<string>
    requires Forward(t) && i < |t|
    decreases |t| - i
  {
    var n := t[i];
    {n.key}
    + (if n.left == 0 then {} else Keys(t, n.left))
    + (if n.right == 0 then {} else Keys(t, n.right))
  }

  ghost predicate Below(keys: set<string>, key: string)
  {
    forall k :: k in keys ==> Less(k, key)
  }

  ghost predicate Above(keys: set<string>, key: string)
  {
    forall k :: k in keys ==> Less(key, k)
  }

  /** The search-tree order: smaller keys to the left, larger to the right. */
  ghost predicate Ordered(t: seq<Node>, i: nat)
    requires Forward(t) && i < |t|
    decreases |t| - i
  {
    var n := t[i];
    && (n.left != 0 ==>
          Ordered(t, n.left) && Below(Keys(t, n.left), n.key))
    && (n.right != 0 ==>
          Ordered(t, n.right) && Above(Keys(t, n.right), n.key))
  }

  ghost predicate IsTree(t: seq<Node>)
  {
    Forward(t) && (t != [] ==> Ordered(t, 0))
  }

  /** The set a file stands for. */
  ghost function Contents(t: seq<Node>): set<string>
    requires Forward(t)
  {
    if t == [] then {} else Keys(t, 0)
  }

  // ----- searching ------------------------------------------------------------

  function Child(n: Node, c: string): nat
  {
    if Compare(c, n.key) < 0 then n.left else n.right
  }

  /** The node at which the search for c that starts at node i stops. */
  function Descend(t: seq<Node>, c: string, i: nat): (p: nat)
    requires Forward(t) && i < |t|
    ensures i <= p < |t|
    decreases |t| - i
  {
    if Compare(c, t[i].key) == 0 || Child(t[i], c) == 0 then i
    else Descend(t, c, Child(t[i], c))
  }

  /** A descent finds c exactly when c is one of the keys. */
  lemma {:induction false} DescendFinds(t: seq<Node>, c: string, i: nat)
    requires Forward(t) && i < |t| && Ordered(t, i)
    ensures Descend(t, c, i) in Reach(t, i)
    ensures t[Descend(t, c, i)].key in Keys(t, i)
    ensures t[Descend(t, c, i)].key == c <==> c in Keys(t, i)
    decreases |t| - i
  {
    var n := t[i];
    CompareEqual(c, n.key);
    CompareFlip(n.key, c);
    if n.left != 0 {
      DescendFinds(t, c, n.left);
    }
    if n.right != 0 {
      DescendFinds(t, c, n.right);
    }
    if c in Keys(t, i) && c != n.key {
      Trichotomy(c, n.key);
    }
  }

  // ----- what a change leaves alone -------------------------------------------

  lemma {:induction false} ReachKeys(t: seq<Node>, i: nat, j: nat)
    requires Forward(t) && i < |t| && j in Reach(t, i)
    ensures t[j].key in Keys(t, i)
    decreases |t| - i
  {
    var n := t[i];
    if n.left != 0 && j in Reach(t, n.left) {
      ReachKeys(t, n.left, j);
    } else if n.right != 0 && j in Reach(t, n.right) {
      ReachKeys(t, n.right, j);
    }
  }

  /** A subtree depends on its reachable nodes only. */
  lemma {:induction false} Frame(t: seq<Node>, u: seq<Node>, i: nat)
    requires Forward(t) && Forward(u) && i < |t| <= |u|
    requires forall j :: j in Reach(t, i) ==> u[j] == t[j]
    ensures Reach(u, i) == Reach(t, i)
    ensures Keys(u, i) == Keys(t, i)
    ensures Ordered(u, i) == Ordered(t, i)
    decreases |t| - i
  {
    var n := t[i];
    assert u[i] == n;
    if n.left != 0 {
      Frame(t, u, n.left);
    }
    if n.right != 0 {
      Frame(t, u, n.right);
    }
  }

  // ----- inserting in two writes ----------------------------------------------

  /** First write: the new node goes to the end of the file. */
  function Append(t: seq<Node>, c: string): seq<Node>
  {
    t + [Node(0, 0, c)]
  }

  function SetChild(n: Node, c: string, link: nat): Node
  {
    if Compare(c, n.key) < 0 then n.(left := link) else n.(right := link)
  }

  /** Second write: the parent of the last node is rewritten to point to it.
      Nothing is written when the new node is the root or a duplicate. */
  function Link(t: seq<Node>, c: string): seq<Node>
    requires Forward(t) && t != []
  {
    if |t| == 1 then t
    else
      var p := Descend(t, c, 0);
      if t[p].key == c then t else Attach(t, c, p, |t| - 1)
  }

  /** After the first write the file is a tree for the old set; the first
      node of an empty file is an insertion by itself. */
  lemma AppendKeepsSet(t: seq<Node>, c: string)
    requires IsTree(t)
    ensures IsTree(Append(t, c))
    ensures Contents(Append(t, c)) == if t == [] then {c} else Contents(t)
    ensures t != [] ==> |t| !in Reach(Append(t, c), 0)
  {
    if t != [] {
      Frame(t, Append(t, c), 0);
    }
  }

  function Attach(t: seq<Node>, c: string, p: nat, j: nat): seq<Node>
    requires p < |t|
  {
    t[p := SetChild(t[p], c, j)]
  }

  function OtherChild(n: Node, c: string): nat
  {
    if Compare(c, n.key) < 0 then n.right else n.left
  }

  /** The search never enters the subtree on the other side, because the
      order keeps the two subtrees' keys apart. */
  lemma OtherSideApart(t: seq<Node>, c: string, i: nat)
    requires Forward(t) && i < |t| && Ordered(t, i)
    requires OtherChild(t[i], c) != 0
    ensures Descend(t, c, i) !in Reach(t, OtherChild(t[i], c))
  {
    var p := Descend(t, c, i);
    var n := t[i];
    var other := OtherChild(n, c);
    if p in Reach(t, other) {
      ReachKeys(t, other, p);
      DescendFinds(t, c, Child(n, c));
      Trichotomy(t[p].key, n.key);
      assert false;
    }
  }

  lemma AttachAtTop(t: seq<Node>, c: string, i: nat, j: nat)
    requires Forward(t) && i < |t| && Ordered(t, i) && c != t[i].key && Child(t[i], c) == 0
    requires i < j < |t| && t[j] == Node(0, 0, c)
    ensures
      var u := Attach(t, c, i, j);
      Forward(u) && Keys(u, i) == Keys(t, i) + {c} && Ordered(u, i)
  {
    var u := Attach(t, c, i, j);
    var other := OtherChild(t[i], c);
    if other != 0 {
      Frame(t, u, other);
    }
    CompareEqual(c, t[i].key);
    CompareFlip(t[i].key, c);
    assert u[j] == t[j];
    assert Keys(u, j) == {c};
  }

  /** If one subtree gains c and the other stays, so does the tree that has
      both. */
  lemma GrowLeft(t: seq<Node>, u: seq<Node>, c: string, i: nat)
    requires Forward(t) && Forward(u) && i < |t| == |u| && u[i] == t[i]
    requires Ordered(t, i) && Less(c, t[i].key)
    requires t[i].left != 0
    requires Keys(u, t[i].left) == Keys(t, t[i].left) + {c} && Ordered(u, t[i].left)
    requires t[i].right != 0 ==>
               Keys(u, t[i].right) == Keys(t, t[i].right) && Ordered(u, t[i].right)
    ensures Keys(u, i) == Keys(t, i) + {c} && Ordered(u, i)
  {
  }

  lemma GrowRight(t: seq<Node>, u: seq<Node>, c: string, i: nat)
    requires Forward(t) && Forward(u) && i < |t| == |u| && u[i] == t[i]
    requires Ordered(t, i) && Less(t[i].key, c)
    requires t[i].right != 0
    requires Keys(u, t[i].right) == Keys(t, t[i].right) + {c} && Ordered(u, t[i].right)
    requires t[i].left != 0 ==>
               Keys(u, t[i].left) == Keys(t, t[i].left) && Ordered(u, t[i].left)
    ensures Keys(u, i) == Keys(t, i) + {c} && Ordered(u, i)
  {
  }

  /** Attaching node j, which holds c, below the node where the search for c
      fell off the tree. */
  lemma {:induction false} AttachAddsKey(t: seq<Node>, c: string, i: nat, j: nat)
    requires Forward(t) && i < |t| && Ordered(t, i) && c !in Keys(t, i)
    requires j < |t| && t[j] == Node(0, 0, c)
    requires Descend(t, c, i) < j
    ensures
      var u := Attach(t, c, Descend(t, c, i), j);
      Forward(u) && Keys(u, i) == Keys(t, i) + {c} && Ordered(u, i)
    decreases |t| - i
  {
    var p := Descend(t, c, i);
    var u := Attach(t, c, p, j);
    var n := t[i];
    CompareEqual(c, n.key);
    if p == i {
      AttachAtTop(t, c, i, j);
    } else {
      AttachAddsKey(t, c, Child(n, c), j);
      if OtherChild(n, c) != 0 {
        OtherSideApart(t, c, i);
        Frame(t, u, OtherChild(n, c));
      }
      CompareFlip(n.key, c);
      if Compare(c, n.key) < 0 {
        GrowLeft(t, u, c, i);
      } else {
        GrowRight(t, u, c, i);
      }
    }
  }

  /** The second write moves the file from the old set to the old set plus c,
      whatever unreachable nodes earlier crashes left behind. */
  lemma LinkAddsKey(t: seq<Node>, c: string)
    requires IsTree(t)
    ensures
      var u := Link(Append(t, c), c);
      IsTree(u) && Contents(u) == Contents(t) + {c}
  {
    AppendKeepsSet(t, c);
    var a := Append(t, c);
    if t != [] {
      DescendFinds(a, c, 0);
      if c !in Contents(t) {
        AttachAddsKey(a, c, 0, |t|);
      }
    }
  }

  /** Remembering a key again adds one unreachable node and nothing else. */
  lemma DuplicateIsUnreachable(t: seq<Node>, c: string)
    requires IsTree(t) && c in Contents(t)
    ensures Link(Append(t, c), c) == Append(t, c)
    ensures Reach(Append(t, c), 0) == Reach(t, 0)
  {
    AppendKeepsSet(t, c);
    DescendFinds(Append(t, c), c, 0);
    Frame(t, Append(t, c), 0);
  }

  // ----- whole histories of a file --------------------------------------------

  /** One call of remember: finished, or stopped between its two writes. */
  datatype Call = Finished(key: string) | Stopped(key: string)

  function Apply(t: seq<Node>, call: Call): seq<Node>
    requires Forward(t)
  {
    match call
    case Finished(c) =>
      assert Forward(Append(t, c));
      Link(Append(t, c), c)
    case Stopped(c) => Append(t, c)
  }

  ghost predicate History(calls: seq<Call>, t: seq<Node>)
  {
    if calls == [] then t == []
    else exists s :: History(calls[..|calls| - 1], s) && Forward(s) && t == Apply(s, calls[|calls| - 1])
  }

  /** The keys a history leaves behind: those of the finished calls, and that
      of the very first call, whose one write makes it the root. */
  ghost function Recorded(calls: seq<Call>): set<string>
  {
    (set i | 0 <= i < |calls| && (calls[i].Finished? || i == 0) :: calls[i].key)
  }

  lemma RecordedStep(calls: seq<Call>)
    requires calls != []
    ensures
      var m := |calls| - 1;
      Recorded(calls) ==
        Recorded(calls[..m]) + (if calls[m].Finished? || m == 0 then {calls[m].key} else {})
  {
    var m := |calls| - 1;
    forall k | k in Recorded(calls[..m])
      ensures k in Recorded(calls)
    {
      var i :| 0 <= i < m && (calls[..m][i].Finished? || i == 0) && calls[..m][i].key == k;
      assert calls[i].key == k;
    }
  }

  /** The file is a search tree for exactly the remembered keys after every
      run of calls with any number of crashes between the two writes. */
  lemma {:induction false} HistoryIsSet(calls: seq<Call>, t: seq<Node>)
    requires History(calls, t)
    ensures IsTree(t) && |t| == |calls|
    ensures Contents(t) == Recorded(calls)
  {
    if calls == [] {
      NothingRecorded();
    } else {
      hide Contents, IsTree, Forward, Apply, Recorded;
      var m := |calls| - 1;
      var s :| History(calls[..m], s) && Forward(s) && t == Apply(s, calls[m]);
      HistoryIsSet(calls[..m], s);
      ApplyAdds(s, calls[m]);
      RecordedStep(calls);
    }
  }

  lemma NothingRecorded()
    ensures IsTree([]) && Contents([]) == Recorded([]) == {}
  {
  }

  lemma ApplyAdds(t: seq<Node>, call: Call)
    requires IsTree(t)
    ensures IsTree(Apply(t, call)) && |Apply(t, call)| == |t| + 1
    ensures Contents(Apply(t, call)) == Contents(t) + if call.Finished? || t == [] then {call.key} else {}
  {
    hide Contents, Ordered;
    AppendKeepsSet(t, call.key);
    LinkAddsKey(t, call.key);
    EmptyFile();
  }

  lemma EmptyFile()
    ensures IsTree([]) && Contents([]) == {}
  {
  }

  /** Hence a search answers yes for the remembered keys and no others. */
  lemma SearchAfterHistory(calls: seq<Call>, t: seq<Node>, c: string)
    requires History(calls, t)
    ensures IsTree(t)
    ensures (t != [] && t[Descend(t, c, 0)].key == c) <==> c in Recorded(calls)
  {
    HistoryIsSet(calls, t);
    if t != [] {
      DescendFinds(t, c, 0);
    }
  }
}
