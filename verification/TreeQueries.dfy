/** What the block tree answers about ancestry, common ancestors, ranges and runtimes. */
module TreeQueries {
  import opened Basics
  import opened Ancestry
  import opened BlockTreeSpec
  import opened BlockTreeNode
  import opened BlockTrees
  import opened ForkChoice
  import opened Runtimes

  /** The downward search answers ancestry. Equal hashes are not even looked up. */
  method IsDescendantOf(bt: BlockTree, parent: Hash, child: Hash) returns (r: Result<bool, TreeError>)
    requires bt.Valid()
    ensures r ==
      if parent == child then Ok(true)
      else if parent !in bt.g.index then Err(StartNodeNotFound)
      else if child !in bt.g.index then Err(EndNodeNotFound)
      else Ok(AncOrEq(bt.g.bs, parent, child))
  {
    if parent == child { return Ok(true); }
    var pn := bt.GetNode(parent);
    if pn == null { return Err(StartNodeNotFound); }
    var cn := bt.GetNode(child);
    if cn == null { return Err(EndNodeNotFound); }
    CarriedLinks(bt.g.bs, bt.g.index, bt.root.hash, bt.g.kids, bt.g.nodes);
    bt.IntactReaches(parent, child);
    var b := cn.IsDescendantOf(pn, bt.g.bs, bt.g.index, bt.g.nodes, bt.g.kids.Keys - {bt.root.hash});
    return Ok(b);
  }

  // ---------------------------------------------------------------- common ancestors

  /** The blocks above both `a` and `b` are the blocks above both `c` and `d`. */
  ghost predicate SameShared(bs: Blocks, a: Hash, b: Hash, c: Hash, d: Hash)
    requires WellFormed(bs)
  {
    forall x {:trigger AncOrEq(bs, x, a)} {:trigger AncOrEq(bs, x, c)} ::
      AncOrEq(bs, x, a) && AncOrEq(bs, x, b) <==> AncOrEq(bs, x, c) && AncOrEq(bs, x, d)
  }

  /** Stepping the higher of two blocks to its parent loses no shared ancestor. */
  lemma {:induction false} SharedStep(bs: Blocks, a: Hash, b: Hash, c: Hash, d: Hash)
    requires WellFormed(bs) && SameShared(bs, a, b, c, d) && c in bs && d in bs && bs[c].parent.Some?
    requires bs[c].number > bs[d].number || (bs[c].number == bs[d].number && c != d)
    ensures SameShared(bs, a, b, bs[c].parent.value, d)
  {
    if AncOrEq(bs, c, d) && c != d { AncHeight(bs, c, d); }
    forall x
      ensures AncOrEq(bs, x, a) && AncOrEq(bs, x, b) <==> AncOrEq(bs, x, bs[c].parent.value) && AncOrEq(bs, x, d)
    {
      StepUp(bs, c, d, x);
      assert AncOrEq(bs, x, a) && AncOrEq(bs, x, b) <==> AncOrEq(bs, x, c) && AncOrEq(bs, x, d);
    }
  }

  lemma {:induction false} SharedSwap(bs: Blocks, a: Hash, b: Hash, c: Hash, d: Hash)
    requires WellFormed(bs) && SameShared(bs, a, b, c, d)
    ensures SameShared(bs, a, b, d, c)
  {
    forall x ensures AncOrEq(bs, x, a) && AncOrEq(bs, x, b) <==> AncOrEq(bs, x, d) && AncOrEq(bs, x, c) {
      assert AncOrEq(bs, x, a) && AncOrEq(bs, x, b) <==> AncOrEq(bs, x, c) && AncOrEq(bs, x, d);
    }
  }

  /** The block whose ancestors are exactly the common ancestors of both. */
  method LowestCommonAncestor(bt: BlockTree, a: Hash, b: Hash) returns (r: Result<Hash, TreeError>)
    requires bt.Valid()
    ensures r.Ok? <==> a in bt.g.index && b in bt.g.index
    ensures r.Ok? ==> forall x :: AncOrEq(bt.g.bs, x, r.value) <==> AncOrEq(bt.g.bs, x, a) && AncOrEq(bt.g.bs, x, b)
    ensures r.Err? ==> r == Err(NodeNotFound)
  {
    var aNode := bt.GetNode(a);
    if aNode == null { return Err(NodeNotFound); }
    var bNode := bt.GetNode(b);
    if bNode == null { return Err(NodeNotFound); }
    var lca := CommonAncestor(bt, aNode, bNode);
    return Ok(lca);
  }

  /** Level the two nodes, then climb together. Neither walk can run past the root. */
  method CommonAncestor(bt: BlockTree, aNode: Node, bNode: Node) returns (lca: Hash)
    requires bt.Valid() && Indexed(bt.g.index, aNode) && Indexed(bt.g.index, bNode)
    ensures forall x :: AncOrEq(bt.g.bs, x, lca) <==> AncOrEq(bt.g.bs, x, aNode.hash) && AncOrEq(bt.g.bs, x, bNode.hash)
  {
    var higher: Node, lower: Node := bNode, aNode;
    SharedSwap(bt.g.bs, aNode.hash, bNode.hash, aNode.hash, bNode.hash);
    if aNode.number > bNode.number { higher, lower := aNode, bNode; }
    var diff := higher.number - lower.number;
    AtOrAboveRoot(bt, lower);
    while diff > 0
      invariant Indexed(bt.g.index, higher) && diff == higher.number - lower.number >= 0
      invariant SameShared(bt.g.bs, aNode.hash, bNode.hash, higher.hash, lower.hash)
    {
      AncStepUp(bt, higher);
      SharedStep(bt.g.bs, aNode.hash, bNode.hash, higher.hash, lower.hash);
      assert CarriesAt(bt.g.bs, bt.g.index, bt.root.hash, bt.g.kids, higher.hash);
      higher := higher.parent;
      diff := diff - 1;
    }
    while higher.hash != lower.hash
      invariant Indexed(bt.g.index, higher) && Indexed(bt.g.index, lower) && higher.number == lower.number
      invariant SameShared(bt.g.bs, aNode.hash, bNode.hash, higher.hash, lower.hash)
      decreases higher.number
    {
      BothBelowRoot(bt, higher, lower);
      AncStepUp(bt, higher);
      AncStepUp(bt, lower);
      assert CarriesAt(bt.g.bs, bt.g.index, bt.root.hash, bt.g.kids, higher.hash);
      assert CarriesAt(bt.g.bs, bt.g.index, bt.root.hash, bt.g.kids, lower.hash);
      SharedStep(bt.g.bs, aNode.hash, bNode.hash, higher.hash, lower.hash);
      SharedSwap(bt.g.bs, aNode.hash, bNode.hash, higher.parent.hash, lower.hash);
      SharedStep(bt.g.bs, aNode.hash, bNode.hash, lower.hash, higher.parent.hash);
      SharedSwap(bt.g.bs, aNode.hash, bNode.hash, lower.parent.hash, higher.parent.hash);
      higher, lower := higher.parent, lower.parent;
    }
    return higher.hash;
  }

  lemma {:induction false} AtOrAboveRoot(bt: BlockTree, n: Node)
    requires bt.Valid() && Indexed(bt.g.index, n)
    ensures n.number >= bt.root.number && (n != bt.root ==> n.number > bt.root.number)
  {
    if n.hash != bt.root.hash { AncHeight(bt.g.bs, bt.root.hash, n.hash); }
  }

  /** Two different blocks with one number are both below the root. */
  lemma {:induction false} BothBelowRoot(bt: BlockTree, m: Node, n: Node)
    requires bt.Valid() && Indexed(bt.g.index, m) && Indexed(bt.g.index, n) && m.number == n.number && m.hash != n.hash
    ensures m.number > bt.root.number && n.number > bt.root.number
  {
    AtOrAboveRoot(bt, m);
    AtOrAboveRoot(bt, n);
  }

  // ---------------------------------------------------------------- ranges

  /** What the walk collects: the start, then the end's ancestors above the start's number. */
  ghost predicate Collected(bs: Blocks, start: Hash, end: Hash, hs: seq<Hash>)
    requires WellFormed(bs) && start in bs && end in bs
  {
    && |hs| == bs[end].number - bs[start].number + 1 && hs != [] && hs[0] == start
    && forall i {:trigger hs[i]} :: 0 < i < |hs| ==> AncestorAt(bs, end, bs[start].number + i, hs[i])
  }

  /** The collected blocks are the path between the two exactly when the start is an ancestor of the end. */
  lemma {:induction false} CollectedIsPathIff(bs: Blocks, start: Hash, end: Hash, hs: seq<Hash>)
    requires WellFormed(bs) && start in bs && end in bs && Collected(bs, start, end, hs)
    ensures AncOrEq(bs, start, end) ==> hs == PathTo(bs, start, end)
    ensures AncOrEq(bs, start, end) <==> IsPath(bs, hs) && hs[|hs| - 1] == end
  {
    if AncOrEq(bs, start, end) {
      var path := PathTo(bs, start, end);
      PathIsChain(bs, start, end);
      forall i | 0 <= i < |hs| ensures hs[i] == path[i] {
        PathMembers(bs, start, end, path[i]);
        if i > 0 { AncSameNumber(bs, hs[i], path[i], end); }
      }
    }
    if IsPath(bs, hs) && |hs| > 1 {
      assert AncestorAt(bs, end, bs[start].number + 1, hs[1]);
      AncStep(bs, hs[1]);
      AncTransitive(bs, start, hs[1], end);
    }
  }

  /** From a block on another fork the range jumps: block 3 follows block 1, whose child it is not. */
  lemma {:induction false} RangeCanJump()
    ensures var bs := map[0 := Block(None, 0, 0, false), 1 := Block(Some(0), 1, 0, false),
                          2 := Block(Some(0), 1, 0, false), 3 := Block(Some(2), 2, 0, false)];
      WellFormed(bs) && Collected(bs, 1, 3, [1, 3]) && !IsPath(bs, [1, 3])
  {
    var bs := map[0 := Block(None, 0, 0, false), 1 := Block(Some(0), 1, 0, false),
                  2 := Block(Some(0), 1, 0, false), 3 := Block(Some(2), 2, 0, false)];
    assert AncestorAt(bs, 3, 2, [1, 3][1]);
    assert bs[[1, 3][1]].parent != Some([1, 3][0]);
  }

  /** Fills the range from its end. The nil-parent error cannot occur in a tree. */
  method AccumulateHashes(bt: BlockTree, endNode: Node, startNode: Node) returns (r: Result<seq<Hash>, TreeError>)
    requires bt.Valid() && Indexed(bt.g.index, endNode) && Indexed(bt.g.index, startNode)
    ensures startNode.number > endNode.number ==> r == Err(StartGreaterThanEnd)
    ensures startNode.number <= endNode.number ==> r.Ok? && Collected(bt.g.bs, startNode.hash, endNode.hash, r.value)
  {
    if startNode.number > endNode.number { return Err(StartGreaterThanEnd); }
    var blocksInRange := endNode.number - startNode.number + 1;
    var hashes: seq<Hash> := seq(blocksInRange, i => 0);
    var position := blocksInRange - 1;
    hashes := hashes[0 := startNode.hash];
    var node: Node := endNode;
    AtOrAboveRoot(bt, startNode);
    while position > 0
      invariant 0 <= position < blocksInRange == |hashes| && hashes[0] == startNode.hash
      invariant Indexed(bt.g.index, node) && AncestorAt(bt.g.bs, endNode.hash, startNode.number + position, node.hash)
      invariant forall i ::
        position < i < blocksInRange ==> AncestorAt(bt.g.bs, endNode.hash, startNode.number + i, hashes[i])
    {
      hashes := hashes[position := node.hash];
      AncStepUp(bt, node);
      assert CarriesAt(bt.g.bs, bt.g.index, bt.root.hash, bt.g.kids, node.hash);
      AncTransitive(bt.g.bs, node.parent.hash, node.hash, endNode.hash);
      node := node.parent;
      position := position - 1;
    }
    return Ok(hashes);
  }

  /** The range between two blocks of the tree. */
  method RangeInMemory(bt: BlockTree, start: Hash, end: Hash) returns (r: Result<seq<Hash>, TreeError>)
    requires bt.Valid()
    ensures end !in bt.g.index ==> r == Err(EndNodeNotFound)
    ensures end in bt.g.index && start !in bt.g.index ==> r == Err(StartNodeNotFound)
    ensures end in bt.g.index && start in bt.g.index ==>
      if bt.g.bs[start].number > bt.g.bs[end].number then r == Err(StartGreaterThanEnd)
      else r.Ok? && Collected(bt.g.bs, start, end, r.value)
  {
    var endNode := bt.GetNode(end);
    if endNode == null { return Err(EndNodeNotFound); }
    var startNode := bt.GetNode(start);
    if startNode == null { return Err(StartNodeNotFound); }
    if startNode.number > endNode.number { return Err(StartGreaterThanEnd); }
    r := AccumulateHashes(bt, endNode, startNode);
  }

  // ---------------------------------------------------------------- runtimes

  /** The nearest entry on the way up; a hash with its own entry is answered without looking at the tree. */
  method GetBlockRuntime(bt: BlockTree, hash: Hash) returns (r: Result<Option<Instance>, TreeError>)
    requires bt.Valid()
    ensures r ==
      if hash !in bt.runtimes && hash !in bt.g.index then Err(NodeNotFound)
      else Ok(RuntimeOf(bt.g.bs, bt.root.hash, bt.runtimes, hash))
  {
    if hash in bt.runtimes { return Ok(Some(bt.runtimes[hash])); }
    var node := bt.GetNode(hash);
    if node == null { return Err(NodeNotFound); }
    assert CarriesAt(bt.g.bs, bt.g.index, bt.root.hash, bt.g.kids, hash);
    ghost var below := node.hash;
    var current := node.parent;
    while current != null
      invariant below in bt.g.index && bt.g.index[below].parent == current && below !in bt.runtimes
      invariant RuntimeOf(bt.g.bs, bt.root.hash, bt.runtimes, hash) ==
        RuntimeOf(bt.g.bs, bt.root.hash, bt.runtimes, below)
      decreases if current == null then -1 else current.number
    {
      assert CarriesAt(bt.g.bs, bt.g.index, bt.root.hash, bt.g.kids, below);
      if current.hash in bt.runtimes { return Ok(Some(bt.runtimes[current.hash])); }
      assert CarriesAt(bt.g.bs, bt.g.index, bt.root.hash, bt.g.kids, current.hash);
      below := current.hash;
      current := current.parent;
    }
    assert CarriesAt(bt.g.bs, bt.g.index, bt.root.hash, bt.g.kids, below);
    return Ok(None);
  }
}
