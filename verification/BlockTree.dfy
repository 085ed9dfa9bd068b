/** The mutable block tree: insertion, lookup, fork choice, common ancestors, ranges and pruning. */
module BlockTrees {
  import opened Basics
  import opened Ancestry
  import opened BlockTreeSpec
  import opened BlockTreeNode
  import opened PruneWalk
  import opened Runtimes

  datatype TreeError =
    | ParentNotFound | BlockExists | UnexpectedNumber | PrimaryCheckFailed
    | NodeNotFound | StartNodeNotFound | EndNodeNotFound | StartGreaterThanEnd
    | NumGreaterThanHighest | NumLowerThanRoot

  // ---------------------------------------------------------------- the links of a tree, as values

  /** The list of children of each block of a tree. */
  type Kids = map<Hash, seq<Hash>>

  ghost predicate ListedByParent(bs: Blocks, kids: Kids, h: Hash) {
    h in bs && bs[h].parent.Some? && bs[h].parent.value in kids && h in kids[bs[h].parent.value]
  }

  /**
   The tree is exactly what descends from its root; each block lists exactly the blocks whose parent
   it is, once.
   */
  ghost predicate TreeLinks(bs: Blocks, root: Hash, kids: Kids) {
    && WellFormed(bs) && root in bs && kids.Keys == Tree(bs, root)
    && (forall h, i {:trigger kids[h][i]} :: h in kids && 0 <= i < |kids[h]| ==>
          kids[h][i] in kids && bs[kids[h][i]].parent == Some(h))
    && (forall h {:trigger ListedByParent(bs, kids, h)} :: h in kids && h != root ==> ListedByParent(bs, kids, h))
    && (forall h {:trigger NoRepeats(kids[h])} :: h in kids ==> NoRepeats(kids[h]))
  }

  /** The tree after a childless block is added at the end of its parent's list. */
  function InsertKid(kids: Kids, parent: Hash, h: Hash): Kids
    requires parent in kids
  {
    kids[parent := kids[parent] + [h]][h := []]
  }

  lemma {:induction false} InsertLinks(bs: Blocks, root: Hash, kids: Kids, parent: Hash, h: Hash, b: Block)
    requires TreeLinks(bs, root, kids) && parent in kids && h !in bs
    requires b.parent == Some(parent) && b.number == bs[parent].number + 1
    ensures TreeLinks(bs[h := b], root, InsertKid(kids, parent, h))
  {
    TreeExtend(bs, root, h, b);
    var bs', kids' := bs[h := b], InsertKid(kids, parent, h);
    assert h !in kids;
    forall x, i {:trigger kids'[x][i]} | x in kids' && 0 <= i < |kids'[x]| ensures
        kids'[x][i] in kids' && bs'[kids'[x][i]].parent == Some(x) {
      if x in kids && i < |kids[x]| { assert kids'[x][i] == kids[x][i]; }
    }
    forall x {:trigger ListedByParent(bs', kids', x)} | x in kids' && x != root ensures ListedByParent(bs', kids', x) {
      if x == h {
        assert kids'[parent][|kids[parent]|] == h;
      } else {
        assert ListedByParent(bs, kids, x);
      }
    }
    forall i | 0 <= i < |kids[parent]| ensures kids[parent][i] != h {
      assert kids[parent][i] in kids;
    }
    forall x {:trigger NoRepeats(kids'[x])} | x in kids' ensures NoRepeats(kids'[x]) {
      if x != h { assert NoRepeats(kids[x]); }
    }
  }

  /** The part of a tree at and below one of its blocks. */
  ghost predicate Restricts<T>(bs: Blocks, fin: Hash, m: map<Hash, T>, part: map<Hash, T>)
    requires WellFormed(bs)
  {
    && (forall h {:trigger h in part} :: h in part <==> h in m && AncOrEq(bs, fin, h))
    && (forall h {:trigger part[h]} :: h in part ==> part[h] == m[h])
  }

  ghost function Below<T>(bs: Blocks, fin: Hash, m: map<Hash, T>): (part: map<Hash, T>)
    requires WellFormed(bs)
    ensures Restricts(bs, fin, m, part)
  {
    map h | h in m && AncOrEq(bs, fin, h) :: m[h]
  }

  /** Cutting a tree down to one of its subtrees. */
  lemma {:induction false} RerootLinks(bs: Blocks, root: Hash, kids: Kids, fin: Hash, kids': Kids)
    requires TreeLinks(bs, root, kids) && fin in kids && Restricts(bs, fin, kids, kids')
    ensures TreeLinks(bs, fin, kids')
  {
    TreeReroot(bs, root, fin);
    assert kids'.Keys == Tree(bs, fin);
    forall h, i {:trigger kids'[h][i]} | h in kids' && 0 <= i < |kids'[h]| ensures
        kids'[h][i] in kids' && bs[kids'[h][i]].parent == Some(h) {
      var c := kids[h][i];
      AncStep(bs, c);
      AncTransitive(bs, fin, h, c);
    }
    forall h {:trigger ListedByParent(bs, kids', h)} | h in kids' && h != fin ensures ListedByParent(bs, kids', h) {
      if h == root { AncAntisymmetric(bs, h, fin); }
      assert ListedByParent(bs, kids, h);
    }
    forall h {:trigger NoRepeats(kids'[h])} | h in kids' ensures NoRepeats(kids'[h]) {
      assert NoRepeats(kids[h]);
    }
  }

  // ---------------------------------------------------------------- the links in memory

  /** The nodes of these blocks, in order. */
  ghost predicate NodesOf(index: Index, hs: seq<Hash>, ns: seq<Node>) {
    |hs| == |ns| && forall i :: 0 <= i < |hs| ==> hs[i] in index && ns[i] == index[hs[i]]
  }

  /** The node of `h` carries its children and its parent link. */
  ghost predicate CarriesAt(bs: Blocks, index: Index, root: Hash, kids: Kids, h: Hash)
    requires h in index && h in kids
    reads index[h]
  {
    && NodesOf(index, kids[h], index[h].children) && index[h].slots == index[h].children
    && if h == root then index[h].parent == null
       else
         && index[h].parent != null && Indexed(index, index[h].parent)
         && h in bs && bs[h].parent == Some(index[h].parent.hash)
  }

  /** The nodes in memory carry the links of the tree. */
  ghost predicate Carries(bs: Blocks, index: Index, root: Hash, kids: Kids, nodes: set<Node>)
    reads nodes
  {
    && index.Keys == kids.Keys && Matches(bs, index) && Owns(index, nodes)
    && forall h {:trigger CarriesAt(bs, index, root, kids, h)} :: h in index ==> CarriesAt(bs, index, root, kids, h)
  }

  ghost predicate LeavesMatch(index: Index, leaves: map<Hash, Node>, kids: Kids) {
    && (forall h :: h in leaves <==> h in kids && kids[h] == [])
    && (forall h :: h in leaves ==> h in index && leaves[h] == index[h])
  }

  lemma {:induction false} InsertLeaves(index: Index, leaves: map<Hash, Node>, kids: Kids, parent: Hash, n: Node)
    requires LeavesMatch(index, leaves, kids) && n.hash !in index && n.hash !in kids && parent in kids
    ensures LeavesMatch(index[n.hash := n], (leaves - {parent})[n.hash := n], InsertKid(kids, parent, n.hash))
  {
  }

  /** The searches of the nodes apply to an intact tree. */
  lemma {:induction false} CarriedLinks(bs: Blocks, index: Index, root: Hash, kids: Kids, nodes: set<Node>)
    requires TreeLinks(bs, root, kids) && Carries(bs, index, root, kids, nodes)
    ensures Linked(bs, index, nodes, kids.Keys - {root}) && UpLinks(bs, index, nodes, root)
  {
    forall h | h in index ensures ListsChildren(bs, index, index[h]) {
      assert CarriesAt(bs, index, root, kids, h);
      forall i | 0 <= i < |index[h].slots| ensures ChildOf(bs, index, h, index[h].slots[i]) {
        assert kids[h][i] in kids;
      }
      assert NoRepeats(kids[h]) && HashesOf(index[h].children) == kids[h];
    }
    forall h {:trigger Listed(bs, index, h)} | h in kids.Keys - {root} ensures Listed(bs, index, h) {
      assert ListedByParent(bs, kids, h);
      var p := bs[h].parent.value;
      assert CarriesAt(bs, index, root, kids, p);
      var i :| 0 <= i < |kids[p]| && kids[p][i] == h;
      assert index[p].children[i] == index[h];
    }
    forall h {:trigger UpLink(bs, index, root, h)} | h in index ensures UpLink(bs, index, root, h) {
      assert CarriesAt(bs, index, root, kids, h);
    }
    forall h {:trigger bs[h].parent} | h in index && h != root ensures
        h in bs && bs[h].parent.Some? && bs[h].parent.value in index {
      assert ListedByParent(bs, kids, h);
    }
  }

  // ---------------------------------------------------------------- the tree

  /** Every block ever added; the lists of children; the node of each block now in the tree. */
  datatype Shadow = Shadow(bs: Blocks, kids: Kids, index: Index, nodes: set<Node>)

  class BlockTree {
    var root: Node
    var leaves: map<Hash, Node>
    var runtimes: Mapping
    ghost var g: Shadow

    ghost predicate Valid()
      reads this`root, this`leaves, this`g, g.nodes
    {
      && TreeLinks(g.bs, root.hash, g.kids) && Indexed(g.index, root)
      && Carries(g.bs, g.index, root.hash, g.kids, g.nodes) && LeavesMatch(g.index, leaves, g.kids)
    }

    constructor (hash: Hash, number: nat, arrival: int)
      ensures Valid() && fresh(g.nodes) && root.hash == hash && runtimes == map[]
      ensures g.bs == map[hash := Block(None, number, arrival, false)]
    {
      var n := new Node(hash, null, number, arrival, false);
      root, leaves, runtimes := n, map[hash := n], map[];
      g := Shadow(map[hash := Block(None, number, arrival, false)], map[hash := []], map[hash := n], {n});
    }

    /** The leaf map is the leaves of the history's tree. */
    lemma {:induction false} LeavesAreLeaves(h: Hash)
      requires Valid()
      ensures h in leaves <==> IsLeaf(g.bs, root.hash, h)
    {
      if h in leaves {
        forall c | c in g.bs ensures g.bs[c].parent != Some(h) {
          assert c in g.kids && c != root.hash ==> ListedByParent(g.bs, g.kids, c);
          if g.bs[c].parent == Some(h) {
            AncStep(g.bs, c);
            AncTransitive(g.bs, root.hash, h, c);
            if c == root.hash { AncAntisymmetric(g.bs, h, c); }
          }
        }
      } else if h in g.kids {
        assert g.kids[h][0] in g.kids;
      }
    }

    /** In an intact tree every link below a block is in place. */
    lemma {:induction false} IntactReaches(a: Hash, d: Hash)
      requires TreeLinks(g.bs, root.hash, g.kids) && a in g.kids
      ensures Reaches(g.bs, g.kids.Keys - {root.hash}, a, d) <==> AncOrEq(g.bs, a, d)
      ensures FullBelow(g.bs, g.kids.Keys - {root.hash}, a)
    {
      forall x | x in g.bs && StrictAnc(g.bs, a, x) ensures x in g.kids && x != root.hash {
        AncTransitive(g.bs, root.hash, a, x);
        if x == root.hash { AncAntisymmetric(g.bs, a, x); }
      }
      if AncOrEq(g.bs, a, d) { FullBelowReaches(g.bs, g.kids.Keys - {root.hash}, a, d); }
    }

    /** Finds exactly the hashes of the tree: the root, then the leaves, then below the root. */
    method GetNode(h: Hash) returns (r: Node?)
      requires Valid()
      ensures h in g.index ==> r == g.index[h]
      ensures h !in g.index ==> r == null
    {
      if root.hash == h { return root; }
      if h in leaves { return leaves[h]; }
      ghost var keep := g.kids.Keys - {root.hash};
      CarriedLinks(g.bs, g.index, root.hash, g.kids, g.nodes);
      IntactReaches(root.hash, h);
      r := SearchChildren(h, keep);
    }

    method SearchChildren(h: Hash, ghost keep: set<Hash>) returns (r: Node?)
      requires Linked(g.bs, g.index, g.nodes, keep) && Indexed(g.index, root) && root.hash != h
      requires FullBelow(g.bs, keep, root.hash) && (h in g.index ==> AncOrEq(g.bs, root.hash, h))
      ensures h in g.index ==> r == g.index[h]
      ensures h !in g.index ==> r == null
    {
      var i := 0;
      while i < |root.children|
        invariant 0 <= i <= |root.children|
        invariant h in g.index ==> forall j :: 0 <= j < i ==> !AncOrEq(g.bs, root.children[j].hash, h)
      {
        var child := root.children[i];
        assert ListsChildren(g.bs, g.index, root) && child == root.slots[i];
        FullBelowChild(g.bs, keep, child.hash);
        if AncOrEq(g.bs, child.hash, h) { FullBelowReaches(g.bs, keep, child.hash, h); }
        r := child.GetNode(h, g.bs, g.index, g.nodes, keep);
        if r != null { return; }
        i := i + 1;
      }
      if h in g.index { root.BelowByChild(g.bs, g.index, g.nodes, keep, g.index[h]); }
      return null;
    }

    /** Inserts a block below its parent. The checks come in the source's order. */
    method AddBlock(h: Hash, parentHash: Hash, number: nat, arrival: int, primary: Option<bool>)
      returns (r: Result<(), TreeError>)
      requires Valid()
      requires h in g.bs ==> g.bs[h].parent == Some(parentHash) || (g.bs[h].parent.None? && parentHash !in g.bs)
      modifies this`leaves, this`g, g.nodes`children, g.nodes`slots
      ensures Valid() && fresh(g.nodes - old(g.nodes)) && root == old(root)
      ensures r == AddResult(old(g.bs), root.hash, h, parentHash, number, primary)
      ensures r.Err? ==> g == old(g)
      ensures r.Ok? ==>
        h !in old(g.bs) && g.bs == old(g.bs)[h := Block(Some(parentHash), number, arrival, primary.value)]
      ensures r.Ok? ==> g.kids == old(g.kids)[parentHash := old(g.kids)[parentHash] + [h]][h := []]
    {
      var parent := GetNode(parentHash);
      if parent == null { return Err(ParentNotFound); }
      if h in g.bs { AncStep(g.bs, h); AncTransitive(g.bs, root.hash, parentHash, h); }
      var existing := GetNode(h);
      if existing != null { return Err(BlockExists); }
      if parent.number + 1 != number { return Err(UnexpectedNumber); }
      if primary.None? { return Err(PrimaryCheckFailed); }
      Insert(parent, h, arrival, primary.value);
      return Ok(());
    }

    method Insert(parent: Node, h: Hash, arrival: int, primary: bool)
      requires Valid() && Indexed(g.index, parent) && h !in g.bs
      modifies this`leaves, this`g, parent`children, parent`slots
      ensures Valid() && fresh(g.nodes - old(g.nodes))
      ensures g.bs == old(g.bs)[h := Block(Some(parent.hash), parent.number + 1, arrival, primary)]
      ensures g.kids == InsertKid(old(g.kids), parent.hash, h)
    {
      ghost var g0 := g;
      ghost var b := Block(Some(parent.hash), parent.number + 1, arrival, primary);
      var n := new Node(h, parent, parent.number + 1, arrival, primary);
      InsertLinks(g.bs, root.hash, g.kids, parent.hash, h, b);
      InsertLeaves(g.index, leaves, g.kids, parent.hash, n);
      leaves := (leaves - {parent.hash})[h := n];
      g := Shadow(g.bs[h := b], InsertKid(g.kids, parent.hash, h), g.index[h := n], g.nodes + {n});
      Attach(parent, n, g0.bs, root.hash, g0.index, g0.kids, g0.nodes, b);
    }

    /** Makes a tree block the root and drops everything that does not descend from it. */
    method Prune(fin: Hash) returns (pruned: seq<Hash>)
      requires Valid()
      modifies this`root, this`leaves, this`runtimes, this`g, g.nodes`children, g.nodes`slots, g.nodes`parent
      ensures Valid() && g.bs == old(g.bs) && g.nodes == old(g.nodes)
      ensures root.hash == if fin in old(g.index) then fin else old(root.hash)
      ensures forall h :: h in g.index <==> h in old(g.index) && (fin in old(g.index) ==> AncOrEq(g.bs, fin, h))
      ensures forall h :: h in g.kids ==> g.kids[h] == old(g.kids)[h]
      ensures runtimes == RuntimesAfter(g.bs, old(root.hash), old(g.kids.Keys), old(runtimes), fin)
      ensures pruned == Reported(g.bs, old(g.kids), old(root.hash), fin)
      ensures forall x :: x in pruned ==> x in old(g.index) && fin in old(g.index) && Unrelated(g.bs, x, fin)
    {
      pruned := [];
      if fin == root.hash { return; }
      var n := GetNode(fin);
      if n == null { return; }
      FinaliseRuntimes(n);
      pruned := PruneTo(n);
    }

    method FinaliseRuntimes(n: Node)
      requires Valid() && Indexed(g.index, n) && n != root
      modifies this`runtimes
      ensures runtimes == Finalised(old(runtimes), Segment(g.bs, root.hash, n.hash))
    {
      var hashes := CanonicalSegment(n);
      var mapping, stopped := OnFinalisation(runtimes, hashes);
      runtimes := mapping;
    }

    /** Cuts the other forks and makes the node the root. */
    method PruneTo(n: Node) returns (pruned: seq<Hash>)
      requires Valid() && Indexed(g.index, n) && n.hash != root.hash
      modifies this`root, this`leaves, this`g, g.nodes`children, g.nodes`slots, g.nodes`parent
      ensures Valid() && root == n && g.bs == old(g.bs) && g.nodes == old(g.nodes)
      ensures g.index == Below(g.bs, n.hash, old(g.index)) && g.kids == Below(g.bs, n.hash, old(g.kids))
      ensures pruned == Reported(g.bs, old(g.kids), old(root.hash), n.hash)
      ensures forall x :: x in pruned ==> x in old(g.index) && Unrelated(g.bs, x, n.hash)
    {
      pruned := CutForks(n);
      FreeNode(n, g.bs, root.hash, g.kids, g.index, g.nodes);
      SetRoot(n);
    }

    /** The newly finalised blocks, collected from the last one back. */
    method CanonicalSegment(n: Node) returns (hashes: seq<Hash>)
      requires Valid() && Indexed(g.index, n) && n != root
      ensures hashes == Segment(g.bs, root.hash, n.hash)
    {
      ghost var path := PathTo(g.bs, root.hash, n.hash);
      PathIsChain(g.bs, root.hash, n.hash);
      AncHeight(g.bs, root.hash, n.hash);
      var count := n.number - root.number;
      if root.number == 0 { count := count + 1; }
      ghost var skipped := |path| - count;
      hashes := seq(count, i => 0);
      var block: Node? := n;
      var i := count - 1;
      while i >= 0
        invariant -1 <= i < count && |hashes| == count
        invariant i >= 0 ==> block != null && Indexed(g.index, block) && block.hash == path[i + skipped]
        invariant forall j :: i < j < count ==> hashes[j] == path[j + skipped]
      {
        hashes := hashes[i := block.hash];
        assert CarriesAt(g.bs, g.index, root.hash, g.kids, block.hash);
        block := block.parent;
        i := i - 1;
      }
      assert path[skipped..] == hashes;
    }

    /** The walk from the root that cuts the other forks; the finalised block's subtree stays whole. */
    method CutForks(n: Node) returns (pruned: seq<Hash>)
      requires Valid() && Indexed(g.index, n) && n.hash != root.hash
      modifies g.nodes`children, g.nodes`slots
      ensures CarriesBelow(g.bs, g.index, root.hash, g.kids, g.nodes, n.hash)
      ensures pruned == Reported(g.bs, g.kids, root.hash, n.hash)
      ensures forall x :: x in pruned ==> x in g.index && Unrelated(g.bs, x, n.hash)
    {
      CarriedLinks(g.bs, g.index, root.hash, g.kids, g.nodes);
      KeepChain(g.bs, g.index, g.nodes, root.hash, n.hash);
      WholeSlices(g.bs, g.index, root.hash, g.kids, g.nodes);
      SlicesFine(g.bs, g.index, g.nodes, g.kids.Keys - {root.hash});
      pruned := root.Prune(n, [], g.bs, g.index, root.hash, g.nodes);
      WalkPrunes(g.bs, Whole(g.kids), root.hash, n.hash, []);
      ghost var sl := SlicesOf(g.index, g.nodes);
      forall x | x in pruned ensures x in g.index && Unrelated(g.bs, x, n.hash) {
        assert ReportedAt(g.bs, n.hash, sl, x);
      }
      forall h {:trigger CarriesAt(g.bs, g.index, root.hash, g.kids, h)} | h in g.index && AncOrEq(g.bs, n.hash, h)
        ensures CarriesAt(g.bs, g.index, root.hash, g.kids, h)
      {
        assert old(CarriesAt(g.bs, g.index, root.hash, g.kids, h));
        assert SliceKept(g.bs, n.hash, Whole(g.kids), sl, h);
        assert ListsChildren(g.bs, g.index, g.index[h]);
        CarriedSlice(g.bs, g.index, g.kids, h);
      }
    }

    method SetRoot(n: Node)
      requires TreeLinks(g.bs, root.hash, g.kids) && Indexed(g.index, n) && g.index.Keys == g.kids.Keys
      requires Carries(g.bs, Below(g.bs, n.hash, g.index), n.hash, Below(g.bs, n.hash, g.kids), g.nodes)
      modifies this`root, this`leaves, this`g
      ensures Valid() && root == n && g.bs == old(g.bs) && g.nodes == old(g.nodes)
      ensures g.index == Below(g.bs, n.hash, old(g.index)) && g.kids == Below(g.bs, n.hash, old(g.kids))
    {
      ghost var index', kids' := Below(g.bs, n.hash, g.index), Below(g.bs, n.hash, g.kids);
      RerootLinks(g.bs, root.hash, g.kids, n.hash, kids');
      var found := LeavesBelow(n, g.bs, index', kids', g.nodes);
      root, leaves, g := n, found, g.(kids := kids', index := index');
    }
  }

  /** An intact tree is walked with whole slices. */
  lemma {:induction false} WholeSlices(bs: Blocks, index: Index, root: Hash, kids: Kids, nodes: set<Node>)
    requires Carries(bs, index, root, kids, nodes)
    ensures SlicesOf(index, nodes) == Whole(kids)
  {
    forall h | h in index ensures SliceOf(index[h]) == Slice(kids[h], |kids[h]|) {
      assert CarriesAt(bs, index, root, kids, h);
      assert HashesOf(index[h].slots) == kids[h];
    }
  }

  /** A node with a whole slice has its children in place. */
  lemma {:induction false} CarriedSlice(bs: Blocks, index: Index, kids: Kids, h: Hash)
    requires h in index && h in kids && ListsChildren(bs, index, index[h])
    requires SliceOf(index[h]) == Slice(kids[h], |kids[h]|)
    ensures NodesOf(index, kids[h], index[h].children) && index[h].slots == index[h].children
  {
    var n := index[h];
    assert n.slots[..|n.slots|] == n.slots;
    forall i | 0 <= i < |kids[h]| ensures kids[h][i] in index && n.children[i] == index[kids[h][i]] {
      assert ChildOf(bs, index, n.hash, n.slots[i]) && HashesOf(n.slots)[i] == kids[h][i];
    }
  }

  /** Pruning to a block of the tree other than its root re-keys the runtimes. */
  ghost function RuntimesAfter(bs: Blocks, root: Hash, tree: set<Hash>, m: Mapping, fin: Hash): Mapping
    requires WellFormed(bs) && root in bs && tree == Tree(bs, root)
  {
    if fin == root || fin !in tree then m else Finalised(m, Segment(bs, root, fin))
  }

  /** The nodes at and below `fin` carry the links of the tree. */
  ghost predicate CarriesBelow(bs: Blocks, index: Index, root: Hash, kids: Kids, nodes: set<Node>, fin: Hash)
    requires WellFormed(bs)
    reads nodes
  {
    && index.Keys == kids.Keys && Matches(bs, index) && Owns(index, nodes)
    && forall h {:trigger CarriesAt(bs, index, root, kids, h)} ::
         h in index && AncOrEq(bs, fin, h) ==> CarriesAt(bs, index, root, kids, h)
  }

  lemma {:induction false} KeepChain(bs: Blocks, index: Index, nodes: set<Node>, root: Hash, fin: Hash)
    requires WellFormed(bs) && Linked(bs, index, nodes, index.Keys - {root})
    ensures Linked(bs, index, nodes, OnChain(bs, index.Keys, root, fin))
  {
  }

  /** Frees the finalised node from its parent: its subtree becomes a tree of its own. */
  method FreeNode(n: Node, ghost bs: Blocks, ghost root: Hash, ghost kids: Kids, ghost index: Index,
      ghost nodes: set<Node>)
    requires TreeLinks(bs, root, kids) && Indexed(index, n) && CarriesBelow(bs, index, root, kids, nodes, n.hash)
    modifies n`parent
    ensures Carries(bs, Below(bs, n.hash, index), n.hash, Below(bs, n.hash, kids), nodes)
  {
    ghost var index', kids' := Below(bs, n.hash, index), Below(bs, n.hash, kids);
    assert index'.Keys == kids'.Keys;
    assert CarriesAt(bs, index, root, kids, n.hash);
    n.parent := null;
    forall h {:trigger CarriesAt(bs, index', n.hash, kids', h)} | h in index'
      ensures CarriesAt(bs, index', n.hash, kids', h)
    {
      assert old(CarriesAt(bs, index, root, kids, h));
      SubtreeNode(bs, index, root, kids, n.hash, h);
    }
  }

  method Attach(parent: Node, n: Node, ghost bs: Blocks, ghost root: Hash, ghost index: Index, ghost kids: Kids,
      ghost nodes: set<Node>, ghost b: Block)
    requires Carries(bs, index, root, kids, nodes) && Indexed(index, parent) && n.hash !in bs && n !in nodes
    requires n.children == [] && n.slots == [] && n.parent == parent && n.hash != root
    requires b == Block(Some(parent.hash), n.number, n.arrival, n.primary)
    modifies parent`children, parent`slots
    ensures Carries(bs[n.hash := b], index[n.hash := n], root, InsertKid(kids, parent.hash, n.hash), nodes + {n})
  {
    assert CarriesAt(bs, index, root, kids, parent.hash);
    parent.AddChild(n);
    ghost var bs', index', kids' := bs[n.hash := b], index[n.hash := n], InsertKid(kids, parent.hash, n.hash);
    forall h {:trigger CarriesAt(bs', index', root, kids', h)} | h in index'
      ensures CarriesAt(bs', index', root, kids', h)
    {
      if h in index && h != parent.hash { assert CarriesAt(bs, index, root, kids, h); }
    }
  }

  /** The leaf map of a tree, collected from its root. */
  method LeavesBelow(root: Node, ghost bs: Blocks, ghost index: Index, ghost kids: Kids, ghost nodes: set<Node>)
    returns (found: map<Hash, Node>)
    requires TreeLinks(bs, root.hash, kids) && Indexed(index, root) && Carries(bs, index, root.hash, kids, nodes)
    ensures LeavesMatch(index, found, kids)
  {
    CarriedLinks(bs, index, root.hash, kids, nodes);
    var ns := root.GetLeaves([], bs, index, nodes, kids.Keys - {root.hash});
    ChildlessNodes(root, bs, index, kids, nodes);
    found := ByHash(ns);
    forall h | h in kids && kids[h] == [] ensures h in found {
      assert index[h] in ns;
    }
  }

  /** Nodes stored under their hashes. */
  method ByHash(ns: seq<Node>) returns (found: map<Hash, Node>)
    ensures forall n :: n in ns ==> n.hash in found
    ensures forall h :: h in found ==> found[h] in ns && found[h].hash == h
  {
    found := map[];
    var i := 0;
    while i < |ns|
      invariant 0 <= i <= |ns| && forall k :: 0 <= k < i ==> ns[k].hash in found
      invariant forall h :: h in found ==> found[h] in ns && found[h].hash == h
    {
      found := found[ns[i].hash := ns[i]];
      i := i + 1;
    }
  }

  lemma {:induction false} ChildlessNodes(root: Node, bs: Blocks, index: Index, kids: Kids, nodes: set<Node>)
    requires TreeLinks(bs, root.hash, kids) && Carries(bs, index, root.hash, kids, nodes)
    ensures forall h :: h in index ==> (kids[h] == [] <==> index[h].children == [])
  {
    forall h | h in index ensures kids[h] == [] <==> index[h].children == [] {
      assert CarriesAt(bs, index, root.hash, kids, h);
    }
  }

  /** Below the finalised block, a node's neighbours are themselves below it. */
  lemma {:induction false} SubtreeNode(bs: Blocks, index: Index, root: Hash, kids: Kids, fin: Hash, h: Hash)
    requires TreeLinks(bs, root, kids) && index.Keys == kids.Keys && fin in kids && h in kids && AncOrEq(bs, fin, h)
    ensures forall i :: 0 <= i < |kids[h]| ==> kids[h][i] in kids && AncOrEq(bs, fin, kids[h][i])
    ensures h != fin ==>
      h != root && bs[h].parent.Some? && bs[h].parent.value in kids && AncOrEq(bs, fin, bs[h].parent.value)
  {
    forall i | 0 <= i < |kids[h]| ensures kids[h][i] in kids && AncOrEq(bs, fin, kids[h][i]) {
      AncStep(bs, kids[h][i]);
      AncTransitive(bs, fin, h, kids[h][i]);
    }
    if h != fin {
      if h == root { AncAntisymmetric(bs, h, fin); }
      assert ListedByParent(bs, kids, h);
    }
  }

  /** What an insertion answers, from the history alone. */
  ghost function AddResult(bs: Blocks, root: Hash, h: Hash, parentHash: Hash, number: nat, primary: Option<bool>)
    : Result<(), TreeError>
    requires WellFormed(bs)
  {
    if parentHash !in Tree(bs, root) then Err(ParentNotFound)
    else if h in Tree(bs, root) then Err(BlockExists)
    else if bs[parentHash].number + 1 != number then Err(UnexpectedNumber)
    else if primary.None? then Err(PrimaryCheckFailed)
    else Ok(())
  }
}
