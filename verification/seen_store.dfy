/** The tracking file of lib/seen.c: 64-byte nodes, stored links in big-endian
    byte offsets, appended to and rewritten in place. */
module SeenStore {
  import opened Text
  import opened ByteOrder
  import opened SearchTree

  const NODE_SIZE: nat := 64
  const COMMIT_SIZE: nat := 48
  /** A file offset fits a signed 64-bit integer. */
  const MAX_NODES: nat := 0x200_0000_0000_0000

  /** A node as it lies in the file; the links are 64-bit patterns. */
  datatype DiskNode = DiskNode(left: nat, right: nat, commit: string)

  /** `fatal` stops the process; everything else returns. */
  datatype Outcome<+T> = Done(value: T) | Fatal

  /** How far one call of remember gets. */
  datatype Fate =
    | Completes
    | DiesBeforeLink            // killed, or pwrite failed, after the append
    | ShortAppend(kept: nat)    // write(2) stored only some of the 64 bytes

  /** A commit ID that the fixed-size field holds with its terminator. */
  predicate ValidId(c: string)
  {
    |c| < COMMIT_SIZE && '\0' !in c
  }

  function Encode(n: Node): DiskNode
  {
    DiskNode(FileOrder(NODE_SIZE * n.left), FileOrder(NODE_SIZE * n.right), n.key)
  }

  function Decode(d: DiskNode): Node
  {
    Node(NativeOrder(d.left) / NODE_SIZE, NativeOrder(d.right) / NODE_SIZE, d.commit)
  }

  function DecodeAll(file: seq<DiskNode>): (t: seq<Node>)
    ensures |t| == |file|
    ensures forall i :: 0 <= i < |file| ==> t[i] == Decode(file[i])
  {
    seq(|file|, i requires 0 <= i < |file| => Decode(file[i]))
  }

  /** The node holds what Encode writes: whole-node offsets and a good ID. */
  ghost predicate Proper(d: DiskNode)
  {
    d == Encode(Decode(d)) && ValidId(d.commit)
  }

  ghost predicate AllProper(file: seq<DiskNode>)
  {
    forall i :: 0 <= i < |file| ==> Proper(file[i])
  }

  lemma EncodeDecode(n: Node)
    requires n.left < MAX_NODES && n.right < MAX_NODES
    ensures Decode(Encode(n)) == n
    ensures NativeOrder(Encode(n).left) == NODE_SIZE * n.left
    ensures NativeOrder(Encode(n).right) == NODE_SIZE * n.right
  {
    assert Pow256(LINK_BYTES) == 0x1_0000_0000_0000_0000;
    LinksSurviveSwap(NODE_SIZE * n.left);
    LinksSurviveSwap(NODE_SIZE * n.right);
  }

  /** The link that the code follows from a node on the way to c. */
  function Branch(d: DiskNode, c: string): nat
  {
    NativeOrder(if Compare(c, d.commit) < 0 then d.left else d.right)
  }

  /** One turn of either descent loop, in file terms: it stops at the end of the
      tree descent or goes on with the same descent further down the file. */
  lemma DescentTurn(file: seq<DiskNode>, i: nat, c: string)
    requires i < |file| <= MAX_NODES && AllProper(file) && Forward(DecodeAll(file))
    ensures
      var t := DecodeAll(file);
      var branch := Branch(file[i], c);
      && (Compare(c, file[i].commit) == 0 <==> c == file[i].commit)
      && (c == file[i].commit || branch == 0 ==> Descend(t, c, i) == i)
      && (c != file[i].commit && branch != 0 ==>
            && branch % NODE_SIZE == 0 && i < branch / NODE_SIZE < |file|
            && Descend(t, c, branch / NODE_SIZE) == Descend(t, c, i))
  {
    CompareEqual(c, file[i].commit);
    EncodeDecode(Decode(file[i]));
  }

  /** Rewriting one link of the parent in place is SetChild on the tree. */
  lemma RewriteLink(file: seq<DiskNode>, i: nat, c: string, j: nat)
    requires i < |file| && AllProper(file) && Forward(DecodeAll(file))
    requires |file| <= MAX_NODES && j < |file|
    ensures
      var d := file[i];
      var link := FileOrder(NODE_SIZE * j);
      var e := if Compare(c, d.commit) < 0 then d.(left := link) else d.(right := link);
      AllProper(file[i := e]) && DecodeAll(file[i := e]) == Attach(DecodeAll(file), c, i, j)
  {
    var u := SetChild(Decode(file[i]), c, j);
    EncodeDecode(u);
    assert DecodeAll(file)[i] == Decode(file[i]);
  }

  /** The tree that a call of remember leaves, by how far the call got. */
  function Stored(t: seq<Node>, c: string, fate: Fate): seq<Node>
    requires Forward(t)
  {
    assert Forward(Append(t, c));
    match fate
    case Completes => Link(Append(t, c), c)
    case DiesBeforeLink => Append(t, c)
    case ShortAppend(_) => t
  }

  /** The new set: only a finished call adds the commit, except that the root
      needs no link and counts as soon as it is written. */
  lemma StoredSet(t: seq<Node>, c: string, fate: Fate)
    requires IsTree(t)
    ensures IsTree(Stored(t, c, fate))
    ensures Contents(Stored(t, c, fate)) ==
      if fate.Completes? || (fate.DiesBeforeLink? && t == []) then Contents(t) + {c} else Contents(t)
  {
    AppendKeepsSet(t, c);
    LinkAddsKey(t, c);
  }

  /** The first write. */
  lemma DecodeAppend(file: seq<DiskNode>, c: string)
    requires ValidId(c) && AllProper(file)
    ensures AllProper(file + [Encode(Node(0, 0, c))])
    ensures DecodeAll(file + [Encode(Node(0, 0, c))]) == Append(DecodeAll(file), c)
  {
    EncodeDecode(Node(0, 0, c));
  }

  class SeenFile {
    var nodes: seq<DiskNode>
    var torn: nat            // bytes of an incomplete node at the end

    ghost function Tree(): seq<Node>
      reads this
    {
      DecodeAll(nodes)
    }

    ghost predicate Valid()
      reads this
    {
      && torn < NODE_SIZE
      && |nodes| <= MAX_NODES
      && AllProper(nodes)
      && IsTree(Tree())
    }

    /** The set of remembered commits. */
    ghost function Remembered(): set<string>
      requires Valid()
      reads this
    {
      Contents(Tree())
    }

    constructor ()
      ensures Valid() && nodes == [] && torn == 0 && Remembered() == {}
    {
      nodes, torn := [], 0;
    }

    /** lseek to the end. */
    function Length(): (length: nat)
      requires torn < NODE_SIZE
      reads this
      ensures length % NODE_SIZE == torn && length / NODE_SIZE == |nodes|
    {
      NODE_SIZE * |nodes| + torn
    }

    /** Read the node at a byte offset: None at the end of the file. */
    method Get(pos: nat) returns (r: Outcome<Option<DiskNode>>)
      requires pos % NODE_SIZE == 0 && torn < NODE_SIZE
      ensures pos >= Length() ==> r == Done(None)
      ensures pos / NODE_SIZE < |nodes| && |nodes[pos / NODE_SIZE].commit| < COMMIT_SIZE ==>
                r == Done(Some(nodes[pos / NODE_SIZE]))
      ensures pos / NODE_SIZE < |nodes| && |nodes[pos / NODE_SIZE].commit| >= COMMIT_SIZE ==> r == Fatal
      ensures pos < Length() && pos / NODE_SIZE == |nodes| ==> r == Fatal
    {
      if pos >= Length() {
        return Done(None);
      }
      if pos / NODE_SIZE >= |nodes| {
        return Fatal;  // truncated tracking file
      }
      if |nodes[pos / NODE_SIZE].commit| >= COMMIT_SIZE {
        return Fatal;  // corrupted tracking file: no terminator
      }
      r := Done(Some(nodes[pos / NODE_SIZE]));
    }

    /** The answer is exactly membership; only an empty file with a torn first
        node cannot be searched. */
    method Seen(commit: string) returns (r: Outcome<bool>)
      requires Valid()
      ensures nodes != [] || torn == 0 ==> r == Done(commit in Remembered())
      ensures nodes == [] && torn > 0 ==> r == Fatal
    {
      var got := Get(0);
      if got.Fatal? {
        return Fatal;
      }
      if got.value.None? {
        return Done(false);
      }
      ghost var t := Tree();
      var n := got.value.value;
      var pos: nat := 0;
      DescendFinds(t, commit, 0);
      DescentTurn(nodes, 0, commit);
      while Compare(commit, n.commit) != 0
        invariant pos % NODE_SIZE == 0 && pos / NODE_SIZE < |nodes|
        invariant n == nodes[pos / NODE_SIZE]
        invariant Descend(t, commit, pos / NODE_SIZE) == Descend(t, commit, 0)
        decreases |nodes| - pos / NODE_SIZE
      {
        DescentTurn(nodes, pos / NODE_SIZE, commit);
        var branch := Branch(n, commit);
        if branch == 0 {
          return Done(false);
        }
        got := Get(branch);
        if got.Fatal? || got.value.None? {
          return Fatal;  // missing tracking file node
        }
        n := got.value.value;
        pos := branch;
      }
      DescentTurn(nodes, pos / NODE_SIZE, commit);
      r := Done(true);
    }

    /** Append, then link from the parent. Whatever the fate, the file stays a
        search tree; a torn file refuses and is left alone. */
    method Remember(commit: string, fate: Fate) returns (r: Outcome<()>)
      requires Valid() && ValidId(commit) && |nodes| < MAX_NODES
      requires fate.ShortAppend? ==> fate.kept < NODE_SIZE
      modifies this
      ensures Valid()
      ensures old(torn) > 0 ==> r == Fatal && nodes == old(nodes) && torn == old(torn)
      ensures old(torn) == 0 ==>
                && torn == (if fate.ShortAppend? then fate.kept else 0)
                && Tree() == Stored(old(Tree()), commit, fate)
                && r == (if fate.Completes? then Done(()) else Fatal)
    {
      var newNodePos := Length();
      if newNodePos % NODE_SIZE != 0 {
        return Fatal;  // tracking file has unsuitable length
      }
      StoredSet(Tree(), commit, fate);
      r := Fatal;
      if fate.ShortAppend? {
        torn := fate.kept;  // short write on tracking file
      } else {
        AppendNode(commit);
        if fate.Completes? {
          if newNodePos != 0 {
            LinkLast(commit, newNodePos);
          }
          r := Done(());
        }
      }
    }

    /** The first half of remember: the new node goes to the end of the file. */
    method AppendNode(commit: string)
      requires Valid() && ValidId(commit) && |nodes| < MAX_NODES && torn == 0
      modifies this
      ensures Valid() && torn == 0
      ensures Tree() == Append(old(Tree()), commit)
    {
      DecodeAppend(nodes, commit);
      AppendKeepsSet(Tree(), commit);
      nodes := nodes + [Encode(Node(0, 0, commit))];
    }

    /** The second half of remember: find the parent and rewrite its link. */
    method LinkLast(commit: string, newNodePos: nat)
      requires newNodePos == NODE_SIZE * (|nodes| - 1) && 1 < |nodes| <= MAX_NODES && torn == 0
      requires AllProper(nodes)
      requires Forward(Tree())
      modifies this
      ensures torn == 0
      ensures AllProper(nodes)
      ensures Tree() == Link(old(Tree()), commit)
    {
      var parent: nat := 0;
      while true
        invariant nodes == old(nodes) && torn == 0
        invariant parent % NODE_SIZE == 0 && parent / NODE_SIZE < |nodes|
        invariant Descend(Tree(), commit, parent / NODE_SIZE) == Descend(Tree(), commit, 0)
        decreases |nodes| - parent / NODE_SIZE
      {
        var got := Get(parent);
        var n := got.value.value;
        DescentTurn(nodes, parent / NODE_SIZE, commit);
        var c := Compare(commit, n.commit);
        if c == 0 {
          return;  // already remembered: the new node is wasted
        }
        var child := Branch(n, commit);
        if child != 0 {
          parent := child;
        } else {
          RewriteLink(nodes, parent / NODE_SIZE, commit, |nodes| - 1);
          var link := FileOrder(newNodePos);
          var m := if c < 0 then n.(left := link) else n.(right := link);
          nodes := nodes[parent / NODE_SIZE := m];
          return;
        }
      }
    }
  }
}
