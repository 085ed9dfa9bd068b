/**
 Nodes of the block tree, linked in both directions. Searches and pruning are stated against the
 ancestry of the block history, also for a tree some of whose links have already been cut.
 */
module BlockTreeNode {
  import opened Basics
  import opened Ancestry
  import opened BlockTreeSpec
  import opened PruneWalk

  type Index = map<Hash, Node>

  // ---------------------------------------------------------------- what ties nodes to the history

  ghost predicate Owns(index: Index, nodes: set<Node>) {
    forall h {:trigger index[h]} :: h in index ==> index[h] in nodes
  }

  /** Each indexed node carries the data of its block. */
  ghost predicate Matches(bs: Blocks, index: Index) {
    forall h {:trigger index[h]} :: h in index ==>
      && index[h].hash == h && h in bs
      && index[h].number == bs[h].number && index[h].arrival == bs[h].arrival && index[h].primary == bs[h].primary
  }

  ghost predicate Indexed(index: Index, n: Node) {
    n.hash in index && index[n.hash] == n
  }

  ghost predicate ChildOf(bs: Blocks, index: Index, h: Hash, c: Node) {
    Indexed(index, c) && c.hash in bs && bs[c.hash].parent == Some(h)
  }

  ghost function HashesOf(ns: seq<Node>): (hs: seq<Hash>)
    ensures |hs| == |ns| && forall i {:trigger hs[i]} {:trigger ns[i]} :: 0 <= i < |hs| ==> hs[i] == ns[i].hash
  {
    seq(|ns|, i requires 0 <= i < |ns| => ns[i].hash)
  }

  /** What a node lists as children are blocks whose parent it is, each once. */
  ghost predicate ListsChildren(bs: Blocks, index: Index, n: Node)
    reads n
  {
    && |n.children| <= |n.slots| && n.children == n.slots[..|n.children|] && NoRepeats(HashesOf(n.children))
    && (forall i :: 0 <= i < |n.slots| ==> ChildOf(bs, index, n.hash, n.slots[i]))
  }

  /** The node is listed by its parent. */
  ghost predicate Listed(bs: Blocks, index: Index, h: Hash)
    reads if h in bs && bs[h].parent.Some? && bs[h].parent.value in index then {index[bs[h].parent.value]} else {}
  {
    h in index && h in bs && bs[h].parent.Some? && bs[h].parent.value in index
    && index[h] in index[bs[h].parent.value].children
  }

  /** The node's parent link is the parent of the history; only the root has none. */
  ghost predicate UpLink(bs: Blocks, index: Index, root: Hash, h: Hash)
    requires h in index
    reads index[h]
  {
    if h == root then index[h].parent == null
    else
      && index[h].parent != null && Indexed(index, index[h].parent)
      && h in bs && bs[h].parent == Some(index[h].parent.hash)
  }

  /** Every node lists only its children, and the nodes of `keep` are listed by their parents. */
  ghost predicate Linked(bs: Blocks, index: Index, nodes: set<Node>, keep: set<Hash>)
    reads nodes
  {
    && WellFormed(bs) && Matches(bs, index) && Owns(index, nodes)
    && (forall h {:trigger ListsChildren(bs, index, index[h])} :: h in index ==> ListsChildren(bs, index, index[h]))
    && (forall h {:trigger Listed(bs, index, h)} :: h in keep ==> Listed(bs, index, h))
  }

  /** The parents of the tree's blocks, the root's aside, are in the tree. */
  ghost predicate ParentsIndexed(bs: Blocks, index: Index, root: Hash) {
    forall h {:trigger bs[h].parent} :: h in index && h != root ==>
      h in bs && bs[h].parent.Some? && bs[h].parent.value in index
  }

  ghost predicate UpLinks(bs: Blocks, index: Index, nodes: set<Node>, root: Hash)
    reads nodes
  {
    && ParentsIndexed(bs, index, root) && Owns(index, nodes)
    && forall h {:trigger UpLink(bs, index, root, h)} :: h in index ==> UpLink(bs, index, root, h)
  }

  /** `d` is below `a` and every link on the way is in place. */
  ghost predicate Reaches(bs: Blocks, keep: set<Hash>, a: Hash, d: Hash)
    requires WellFormed(bs)
  {
    AncOrEq(bs, a, d) && forall x :: StrictAnc(bs, a, x) && AncOrEq(bs, x, d) ==> x in keep
  }

  lemma {:induction false} ReachesStep(bs: Blocks, keep: set<Hash>, a: Hash, d: Hash) returns (c: Hash)
    requires WellFormed(bs) && Reaches(bs, keep, a, d) && a != d
    ensures c in keep && c in bs && bs[c].parent == Some(a) && Reaches(bs, keep, c, d)
  {
    c := ChildToward(bs, a, d);
    assert StrictAnc(bs, a, c) by { AncStep(bs, c); }
    forall x | StrictAnc(bs, c, x) && AncOrEq(bs, x, d) ensures x in keep {
      AncTransitive(bs, a, c, x);
      if a == x { AncAntisymmetric(bs, a, c); }
      assert StrictAnc(bs, a, x);
    }
  }

  lemma {:induction false} AncStep(bs: Blocks, c: Hash)
    requires WellFormed(bs) && c in bs && bs[c].parent.Some?
    ensures StrictAnc(bs, bs[c].parent.value, c)
  {
  }

  /** Everything below `a` is linked. */
  ghost predicate FullBelow(bs: Blocks, keep: set<Hash>, a: Hash)
    requires WellFormed(bs)
  {
    forall x :: x in bs && StrictAnc(bs, a, x) ==> x in keep
  }

  lemma {:induction false} FullBelowReaches(bs: Blocks, keep: set<Hash>, a: Hash, d: Hash)
    requires WellFormed(bs) && FullBelow(bs, keep, a) && AncOrEq(bs, a, d)
    ensures Reaches(bs, keep, a, d)
  {
    forall x | StrictAnc(bs, a, x) && AncOrEq(bs, x, d) ensures x in keep {
      AncHeight(bs, a, x);
    }
  }

  lemma {:induction false} FullBelowChild(bs: Blocks, keep: set<Hash>, c: Hash)
    requires WellFormed(bs) && c in bs && bs[c].parent.Some? && FullBelow(bs, keep, bs[c].parent.value)
    ensures FullBelow(bs, keep, c)
  {
    forall x | x in bs && StrictAnc(bs, c, x) ensures x in keep {
      var p := bs[c].parent.value;
      AncStep(bs, c);
      AncTransitive(bs, p, c, x);
      if p == x { AncAntisymmetric(bs, p, c); }
      assert StrictAnc(bs, p, x);
    }
  }

  // ---------------------------------------------------------------- pruning

  /** The blocks on one chain with the finalised block, the root aside: the links pruning must not cut. */
  ghost function OnChain(bs: Blocks, ids: set<Hash>, root: Hash, fin: Hash): set<Hash>
    requires WellFormed(bs)
  {
    set h | h in ids && h != root && (AncOrEq(bs, h, fin) || AncOrEq(bs, fin, h))
  }

  /** Between the root and a block of the tree every block is in the tree. */
  lemma {:induction false} BetweenIndexed(bs: Blocks, index: Index, root: Hash, x: Hash, h: Hash)
    requires WellFormed(bs) && ParentsIndexed(bs, index, root) && h in index && AncOrEq(bs, root, x)
    requires AncOrEq(bs, x, h)
    ensures x in index
    decreases Height(bs, h)
  {
    if x != h {
      if h == root {
        AncAntisymmetric(bs, x, root);
      } else {
        BetweenIndexed(bs, index, root, x, bs[h].parent.value);
      }
    }
  }

  /** The two searches of pruning see exactly the ancestry, whatever has been cut elsewhere. */
  lemma {:induction false} ChainReaches(bs: Blocks, index: Index, root: Hash, fin: Hash, h: Hash)
    requires WellFormed(bs) && ParentsIndexed(bs, index, root) && fin in index && h in index
    requires AncOrEq(bs, root, fin) && AncOrEq(bs, root, h)
    ensures Reaches(bs, OnChain(bs, index.Keys, root, fin), fin, h) <==> AncOrEq(bs, fin, h)
    ensures Reaches(bs, OnChain(bs, index.Keys, root, fin), h, fin) <==> AncOrEq(bs, h, fin)
  {
    var keep := OnChain(bs, index.Keys, root, fin);
    if AncOrEq(bs, fin, h) {
      forall x | StrictAnc(bs, fin, x) && AncOrEq(bs, x, h) ensures x in keep {
        AncTransitive(bs, root, fin, x);
        BetweenIndexed(bs, index, root, x, h);
        if x == root { AncAntisymmetric(bs, fin, root); }
      }
    }
    if AncOrEq(bs, h, fin) {
      forall x | StrictAnc(bs, h, x) && AncOrEq(bs, x, fin) ensures x in keep {
        AncTransitive(bs, root, h, x);
        BetweenIndexed(bs, index, root, x, fin);
        if x == root { AncAntisymmetric(bs, h, root); }
      }
    }
  }

  // ---------------------------------------------------------------- nodes

  /** Where a hash first appears among nodes; past the end if it does not. */
  ghost function FirstWith(ns: seq<Node>, h: Hash): (i: nat)
    ensures i <= |ns| && (i < |ns| ==> ns[i].hash == h) && forall j :: 0 <= j < i ==> ns[j].hash != h
  {
    if ns == [] || ns[0].hash == h then 0 else 1 + FirstWith(ns[1..], h)
  }

  function Taken(ns: seq<Node>, i: nat): seq<Node>
    requires i < |ns|
  {
    ns[..i] + ns[i + 1..]
  }

  /** Deleting one of several different children. */
  lemma {:induction false} TakenFacts(slots: seq<Node>, i: nat, n: nat)
    requires i < n <= |slots| && NoRepeats(HashesOf(slots[..n]))
    ensures var ns := Taken(slots[..n], i);
      && ShiftLeft(slots, i, n)[..n - 1] == ns
      && NoRepeats(HashesOf(ns)) && slots[i].hash !in HashesOf(ns)
      && (forall h :: h in HashesOf(ns) ==> h in HashesOf(slots[..n]))
  {
    var before, ns := slots[..n], Taken(slots[..n], i);
    var hs := HashesOf(before);
    assert HashesOf(ns) == hs[..i] + hs[i + 1..];
    RemoveOne(hs, i);
    forall h | h in hs[..i] + hs[i + 1..] ensures h in hs { assert h in hs[..i] || h in hs[i + 1..]; }
  }

  lemma {:induction false} TakenOthers(ns: seq<Node>, i: nat)
    requires i < |ns|
    ensures forall c :: c in ns && c != ns[i] ==> c in Taken(ns, i)
  {
    assert ns == ns[..i] + [ns[i]] + ns[i + 1..];
  }

  /** The children of a node, as the pruning walk sees them. */
  ghost function SliceOf(n: Node): Slice
    reads n
  {
    Slice(HashesOf(n.slots), |n.children|)
  }

  ghost function SlicesOf(index: Index, nodes: set<Node>): Slices
    requires Owns(index, nodes)
    reads nodes
  {
    map h | h in index :: SliceOf(index[h])
  }

  lemma {:induction false} FirstWithIn(ns: seq<Node>, h: Hash)
    ensures FirstIn(HashesOf(ns), h) == FirstWith(ns, h)
  {
    var i, j := FirstIn(HashesOf(ns), h), FirstWith(ns, h);
    assert i < |ns| ==> HashesOf(ns)[i] == ns[i].hash;
    assert j < |ns| ==> HashesOf(ns)[j] == ns[j].hash;
  }

  lemma {:induction false} DeletedSlice(slots: seq<Node>, n: nat, h: Hash)
    requires n <= |slots|
    ensures var i := FirstWith(slots[..n], h);
      Deleted(Slice(HashesOf(slots), n), h) ==
        if i == n then Slice(HashesOf(slots), n) else Slice(HashesOf(ShiftLeft(slots, i, n)), n - 1)
  {
    var hs, i := HashesOf(slots), FirstWith(slots[..n], h);
    assert HashesOf(slots[..n]) == hs[..n];
    FirstWithIn(slots[..n], h);
    if i < n { assert HashesOf(ShiftLeft(slots, i, n)) == hs[..i] + hs[i + 1..n] + hs[n - 1..]; }
  }

  class Node {
    const hash: Hash
    const number: nat
    const arrival: int
    const primary: bool
    var parent: Node?
    var children: seq<Node>
    /** The array behind `children`: what a loop over the slice reads while the slice shrinks under it. */
    var slots: seq<Node>

    constructor (hash: Hash, parent: Node?, number: nat, arrival: int, primary: bool)
      ensures this.hash == hash && this.number == number && this.arrival == arrival && this.primary == primary
      ensures this.parent == parent && children == [] && slots == []
    {
      this.hash, this.number, this.arrival, this.primary := hash, number, arrival, primary;
      this.parent, children, slots := parent, [], [];
    }

    method AddChild(n: Node)
      modifies this`children, this`slots
      ensures children == slots == old(children) + [n]
    {
      children := children + [n];
      slots := children;
    }

    /** What a node reaches below itself, one of its children reaches. */
    lemma {:induction false} ReachesThrough(bs: Blocks, index: Index, nodes: set<Node>, keep: set<Hash>, d: Hash)
      returns (j: nat)
      requires Linked(bs, index, nodes, keep) && Indexed(index, this) && Reaches(bs, keep, hash, d) && hash != d
      ensures j < |children| && Reaches(bs, keep, children[j].hash, d)
    {
      var c := ReachesStep(bs, keep, hash, d);
      assert Listed(bs, index, c);
      j :| 0 <= j < |children| && children[j] == index[c];
    }

    /** Searches the node and everything below it for a hash. */
    method GetNode(h: Hash, ghost bs: Blocks, ghost index: Index, ghost nodes: set<Node>, ghost keep: set<Hash>)
      returns (r: Node?)
      requires Linked(bs, index, nodes, keep) && Indexed(index, this)
      ensures r != null ==> h in index && index[h] == r && AncOrEq(bs, hash, h)
      ensures Reaches(bs, keep, hash, h) && h in index ==> r != null
      decreases Upper(bs, number)
    {
      if hash == h { return this; }
      var i := 0;
      while i < |children|
        invariant 0 <= i <= |children|
        invariant h in index ==> forall j :: 0 <= j < i ==> !Reaches(bs, keep, children[j].hash, h)
      {
        var child := children[i];
        assert ListsChildren(bs, index, this) && child == slots[i];
        UpperShrinks(bs, hash);
        AncStep(bs, child.hash);
        r := child.GetNode(h, bs, index, nodes, keep);
        if r != null {
          AncTransitive(bs, hash, child.hash, h);
          return;
        }
        i := i + 1;
      }
      ghost var found := h in index && Reaches(bs, keep, hash, h);
      if found { ghost var _ := ReachesThrough(bs, index, nodes, keep, h); }
      return null;
    }

    /** Searches downwards from `ancestor` for this node. */
    method IsDescendantOf(ancestor: Node, ghost bs: Blocks, ghost index: Index, ghost nodes: set<Node>,
        ghost keep: set<Hash>) returns (b: bool)
      requires Linked(bs, index, nodes, keep) && Indexed(index, this) && Indexed(index, ancestor)
      ensures b ==> AncOrEq(bs, ancestor.hash, hash)
      ensures Reaches(bs, keep, ancestor.hash, hash) ==> b
      decreases Upper(bs, ancestor.number)
    {
      if hash == ancestor.hash { return true; }
      var i := 0;
      while i < |ancestor.children|
        invariant 0 <= i <= |ancestor.children|
        invariant forall j :: 0 <= j < i ==> !Reaches(bs, keep, ancestor.children[j].hash, hash)
      {
        var child := ancestor.children[i];
        assert ListsChildren(bs, index, ancestor) && child == ancestor.slots[i];
        UpperShrinks(bs, ancestor.hash);
        AncStep(bs, child.hash);
        b := IsDescendantOf(child, bs, index, nodes, keep);
        if b {
          AncTransitive(bs, ancestor.hash, child.hash, hash);
          return;
        }
        i := i + 1;
      }
      ghost var found := Reaches(bs, keep, ancestor.hash, hash);
      if found { ghost var _ := ancestor.ReachesThrough(bs, index, nodes, keep, hash); }
      return false;
    }

    /** Collects the childless nodes at or below this one. */
    method GetLeaves(leaves: seq<Node>, ghost bs: Blocks, ghost index: Index, ghost nodes: set<Node>,
        ghost keep: set<Hash>) returns (r: seq<Node>)
      requires Linked(bs, index, nodes, keep) && Indexed(index, this) && FullBelow(bs, keep, hash)
      ensures forall n :: n in r <==>
        n in leaves || (Indexed(index, n) && AncOrEq(bs, hash, n.hash) && n.children == [])
      decreases Upper(bs, number)
    {
      r := leaves;
      if |children| == 0 { r := r + [this]; }
      var i := 0;
      while i < |children|
        invariant 0 <= i <= |children|
        invariant forall n :: n in r <==>
          (n in leaves || (this == n && children == []) ||
           (Indexed(index, n) && n.children == [] && exists j :: 0 <= j < i && AncOrEq(bs, children[j].hash, n.hash)))
      {
        var child := children[i];
        assert ListsChildren(bs, index, this) && child == slots[i];
        UpperShrinks(bs, hash);
        FullBelowChild(bs, keep, child.hash);
        r := child.GetLeaves(r, bs, index, nodes, keep);
        i := i + 1;
      }
      forall n | Indexed(index, n)
        ensures AncOrEq(bs, hash, n.hash) <==>
          n == this || exists j :: 0 <= j < |children| && AncOrEq(bs, children[j].hash, n.hash)
      {
        BelowByChild(bs, index, nodes, keep, n);
      }
    }

    lemma {:induction false} BelowByChild(bs: Blocks, index: Index, nodes: set<Node>, keep: set<Hash>, n: Node)
      requires Linked(bs, index, nodes, keep) && Indexed(index, this) && FullBelow(bs, keep, hash) && Indexed(index, n)
      ensures AncOrEq(bs, hash, n.hash) <==>
        n == this || exists j :: 0 <= j < |children| && AncOrEq(bs, children[j].hash, n.hash)
    {
      if AncOrEq(bs, hash, n.hash) && n != this {
        FullBelowReaches(bs, keep, hash, n.hash);
        var j := ReachesThrough(bs, index, nodes, keep, n.hash);
      }
      forall j | 0 <= j < |children| && AncOrEq(bs, children[j].hash, n.hash) ensures AncOrEq(bs, hash, n.hash) {
        assert ListsChildren(bs, index, this) && children[j] == slots[j];
        AncStep(bs, children[j].hash);
        AncTransitive(bs, hash, children[j].hash, n.hash);
      }
    }

    /** Removes the child from the slice by shifting the rest one slot to the left. */
    method DeleteChild(toDelete: Node)
      requires |children| <= |slots| && children == slots[..|children|]
      modifies this`children, this`slots
      ensures var i := FirstWith(old(children), toDelete.hash);
        if i == old(|children|) then children == old(children) && slots == old(slots)
        else children == Taken(old(children), i) && slots == ShiftLeft(old(slots), i, old(|children|))
    {
      var i := 0;
      while i < |children|
        invariant 0 <= i <= |children| && children == old(children) && slots == old(slots)
        invariant i <= FirstWith(children, toDelete.hash)
      {
        if children[i].hash == toDelete.hash {
          slots := ShiftLeft(slots, i, |children|);
          children := Taken(children, i);
          return;
        }
        i := i + 1;
      }
    }

    /** Takes one child out of the list; what is left is still a list of children. */
    method Detach(child: Node, ghost bs: Blocks, ghost index: Index)
      requires ListsChildren(bs, index, this)
      modifies this`children, this`slots
      ensures ListsChildren(bs, index, this) && SliceOf(this) == Deleted(old(SliceOf(this)), child.hash)
      ensures forall c :: c in old(children) && c.hash != child.hash ==> c in children
    {
      ghost var i, n := FirstWith(children, child.hash), |children|;
      DeletedSlice(slots, n, child.hash);
      if i < n { TakenFacts(slots, i, n); TakenOthers(children, i); }
      DeleteChild(child);
    }

    /** Cuts this node, which is on another fork than the finalised block, from its parent. */
    method Cut(ghost fin: Hash, ghost bs: Blocks, ghost index: Index, ghost root: Hash, ghost nodes: set<Node>)
      requires WellFormed(bs) && Linked(bs, index, nodes, OnChain(bs, index.Keys, root, fin))
      requires UpLinks(bs, index, nodes, root)
      requires Indexed(index, this) && AncOrEq(bs, root, fin) && Unrelated(bs, hash, fin)
      modifies nodes`children, nodes`slots
      ensures Linked(bs, index, nodes, OnChain(bs, index.Keys, root, fin)) && UpLinks(bs, index, nodes, root)
      ensures SlicesOf(index, nodes) == Without(bs, old(SlicesOf(index, nodes)), hash)
    {
      ghost var sl := SlicesOf(index, nodes);
      assert UpLink(bs, index, root, hash);
      ghost var p := parent.hash;
      CutLink(bs, index, nodes, OnChain(bs, index.Keys, root, fin));
      forall h {:trigger UpLink(bs, index, root, h)} | h in index ensures UpLink(bs, index, root, h) {
        assert old(UpLink(bs, index, root, h));
      }
      forall h | h in index ensures SliceOf(index[h]) == Without(bs, sl, hash)[h] {
        assert sl[h] == old(SliceOf(index[h]));
      }
    }

    method CutLink(ghost bs: Blocks, ghost index: Index, ghost nodes: set<Node>, ghost keep: set<Hash>)
      requires Linked(bs, index, nodes, keep) && parent != null && Indexed(index, parent) && hash !in keep
      modifies parent`children, parent`slots
      ensures Linked(bs, index, nodes, keep) && SliceOf(parent) == Deleted(old(SliceOf(parent)), hash)
    {
      assert ListsChildren(bs, index, parent);
      parent.Detach(this, bs, index);
      forall h {:trigger Listed(bs, index, h)} | h in keep ensures Listed(bs, index, h) {
        assert old(Listed(bs, index, h));
        assert index[h].hash != hash;
      }
    }

    /**
     Walks from an ancestor of the finalised block and cuts what is on other forks. The loop reads the
     array of the slice it is shrinking, so it may skip or repeat siblings: exactly what it reports and what
     it leaves is given by the walk on slices.
     */
    method Prune(finalised: Node, pruned: seq<Hash>, ghost bs: Blocks, ghost index: Index, ghost root: Hash,
        ghost nodes: set<Node>)
      returns (r: seq<Hash>)
      requires WellFormed(bs) && Linked(bs, index, nodes, OnChain(bs, index.Keys, root, finalised.hash))
      requires UpLinks(bs, index, nodes, root)
      requires Indexed(index, this) && Indexed(index, finalised) && AncOrEq(bs, root, finalised.hash)
      requires AncOrEq(bs, root, hash)
      modifies nodes`children, nodes`slots
      ensures Linked(bs, index, nodes, OnChain(bs, index.Keys, root, finalised.hash)) && UpLinks(bs, index, nodes, root)
      ensures (SlicesOf(index, nodes), r) == Walk(bs, old(SlicesOf(index, nodes)), hash, finalised.hash, pruned)
      decreases Upper(bs, number), 1
    {
      ghost var keep := OnChain(bs, index.Keys, root, finalised.hash);
      r := pruned;
      ChainReaches(bs, index, root, finalised.hash, hash);
      var below := IsDescendantOf(finalised, bs, index, nodes, keep);
      if below { return; }
      var above := finalised.IsDescendantOf(this, bs, index, nodes, keep);
      if !above {
        Cut(finalised.hash, bs, index, root, nodes);
        r := r + [hash];
      }
      r := PruneChildren(finalised, r, bs, index, root, nodes);
    }

    /** The loop over the children. */
    method PruneChildren(finalised: Node, pruned: seq<Hash>, ghost bs: Blocks, ghost index: Index, ghost root: Hash,
        ghost nodes: set<Node>)
      returns (r: seq<Hash>)
      requires WellFormed(bs) && Linked(bs, index, nodes, OnChain(bs, index.Keys, root, finalised.hash))
      requires UpLinks(bs, index, nodes, root)
      requires Indexed(index, this) && Indexed(index, finalised) && AncOrEq(bs, root, finalised.hash)
      requires AncOrEq(bs, root, hash)
      modifies nodes`children, nodes`slots
      ensures Linked(bs, index, nodes, OnChain(bs, index.Keys, root, finalised.hash)) && UpLinks(bs, index, nodes, root)
      ensures (SlicesOf(index, nodes), r) ==
        WalkChildren(bs, old(SlicesOf(index, nodes)), hash, finalised.hash, pruned, 0, old(|children|))
      decreases Upper(bs, number), 0
    {
      ghost var keep := OnChain(bs, index.Keys, root, finalised.hash);
      r := pruned;
      var n := |children|;
      var i := 0;
      assert ListsChildren(bs, index, this);
      while i < n
        invariant 0 <= i && n <= |slots| && Linked(bs, index, nodes, keep) && UpLinks(bs, index, nodes, root)
        invariant WalkChildren(bs, old(SlicesOf(index, nodes)), hash, finalised.hash, pruned, 0, n) ==
          WalkChildren(bs, SlicesOf(index, nodes), hash, finalised.hash, r, i, n)
      {
        r := PruneChild(i, finalised, r, bs, index, root, nodes, n);
        i := i + 1;
      }
    }

    /** One turn of the loop. */
    method PruneChild(i: nat, finalised: Node, pruned: seq<Hash>, ghost bs: Blocks, ghost index: Index,
        ghost root: Hash, ghost nodes: set<Node>, ghost n: nat)
      returns (r: seq<Hash>)
      requires WellFormed(bs) && Linked(bs, index, nodes, OnChain(bs, index.Keys, root, finalised.hash))
      requires UpLinks(bs, index, nodes, root)
      requires Indexed(index, this) && Indexed(index, finalised) && AncOrEq(bs, root, finalised.hash)
      requires AncOrEq(bs, root, hash)
      requires i < n <= |slots|
      modifies nodes`children, nodes`slots
      ensures Linked(bs, index, nodes, OnChain(bs, index.Keys, root, finalised.hash)) && UpLinks(bs, index, nodes, root)
      ensures |slots| == old(|slots|)
      ensures WalkChildren(bs, old(SlicesOf(index, nodes)), hash, finalised.hash, pruned, i, n) ==
        WalkChildren(bs, SlicesOf(index, nodes), hash, finalised.hash, r, i + 1, n)
      decreases Upper(bs, number), 0, 0
    {
      var child := slots[i];
      ghost var sl := SlicesOf(index, nodes);
      assert ListsChildren(bs, index, this);
      SlicesFine(bs, index, nodes, OnChain(bs, index.Keys, root, finalised.hash));
      UpperShrinks(bs, hash);
      AncStep(bs, child.hash);
      AncTransitive(bs, root, hash, child.hash);
      r := child.Prune(finalised, pruned, bs, index, root, nodes);
      WalkPrunes(bs, sl, child.hash, finalised.hash, pruned);
      assert SliceKept(bs, finalised.hash, sl, SlicesOf(index, nodes), hash);
    }
  }

  lemma {:induction false} SlicesFine(bs: Blocks, index: Index, nodes: set<Node>, keep: set<Hash>)
    requires Linked(bs, index, nodes, keep)
    ensures Fine(SlicesOf(index, nodes))
  {
    var sl := SlicesOf(index, nodes);
    forall h {:trigger FineAt(sl, sl[h])} | h in sl ensures FineAt(sl, sl[h]) {
      var n := index[h];
      assert ListsChildren(bs, index, n);
      assert HashesOf(n.slots)[..|n.children|] == HashesOf(n.children);
      forall i | 0 <= i < |n.slots| ensures HashesOf(n.slots)[i] in sl { assert ChildOf(bs, index, h, n.slots[i]); }
    }
  }
}
