/** The fork choice over the leaf map, and lookups on the best chain. */
module ForkChoice {
  import opened Basics
  import opened Ancestry
  import opened BlockTreeSpec
  import opened BlockTreeNode
  import opened BlockTrees

  /** Counts primary blocks on the way up; the root, which has no parent, is not counted. */
  function PrimaryAncestorCount(n: Node, count: nat, ghost bt: BlockTree): (r: nat)
    requires bt.Valid() && Indexed(bt.g.index, n)
    reads bt, bt.g.nodes
    ensures r == count + PrimaryCount(bt.g.bs, bt.root.hash, n.hash)
    decreases n.number
  {
    assert CarriesAt(bt.g.bs, bt.g.index, bt.root.hash, bt.g.kids, n.hash);
    var counted := if n.primary && n.parent != null then count + 1 else count;
    if n.parent == null then counted else PrimaryAncestorCount(n.parent, counted, bt)
  }

  /** Of leaves numbered above 0, in whatever order they are met: highest, then earliest, then lowest hash. */
  method HighestLeaf(lm: map<Hash, Node>, ghost bs: Blocks) returns (deepest: Node)
    requires lm != map[]
    requires forall h ::
      h in lm ==> lm[h].hash == h && h in bs && bs[h].number == lm[h].number && bs[h].arrival == lm[h].arrival
    requires forall h :: h in lm ==> lm[h].number > 0
    ensures deepest.hash in lm && lm[deepest.hash] == deepest
    ensures forall h :: h in lm && h != deepest.hash ==> Higher(bs, deepest.hash, h)
  {
    var max := 0;
    var found: Node? := null;
    var rest := lm.Keys;
    while rest != {}
      invariant rest <= lm.Keys
      invariant found == null ==> max == 0 && rest == lm.Keys
      invariant found != null ==> found.hash in lm && lm[found.hash] == found && found.number == max
      invariant found != null ==> forall h :: h in lm && h !in rest && h != found.hash ==> Higher(bs, found.hash, h)
      decreases |rest|
    {
      var h :| h in rest;
      rest := rest - {h};
      var node := lm[h];
      if max < node.number {
        max := node.number;
        found := node;
      } else if max == node.number && node.arrival < found.arrival {
        found := node;
      } else if max == node.number && node.arrival == found.arrival {
        if node.hash < found.hash {
          found := node;
        }
      }
    }
    deepest := found;
  }

  /** The leaves met so far, grouped by their primary count. */
  ghost predicate Counted(primaries: map<Hash, nat>, counts: map<nat, seq<Hash>>, done: set<Hash>)
  {
    && done <= primaries.Keys
    && (forall c, i {:trigger counts[c][i]} :: c in counts && 0 <= i < |counts[c]| ==>
          counts[c][i] in done && primaries[counts[c][i]] == c)
    && (forall h {:trigger primaries[h]} :: h in done ==> primaries[h] in counts && h in counts[primaries[h]])
    && (forall c {:trigger counts[c]} :: c in counts ==> counts[c] != [])
    && (forall c {:trigger counts[c]} :: c in counts && |counts[c]| > 1 ==> counts[c][0] != counts[c][1])
  }

  function AddCount(counts: map<nat, seq<Hash>>, c: nat, h: Hash): map<nat, seq<Hash>> {
    counts[c := (if c in counts then counts[c] else []) + [h]]
  }

  lemma {:induction false} CountOne(primaries: map<Hash, nat>, counts: map<nat, seq<Hash>>, done: set<Hash>, h: Hash)
    requires Counted(primaries, counts, done) && h !in done && h in primaries
    ensures Counted(primaries, AddCount(counts, primaries[h], h), done + {h})
  {
    var counts' := AddCount(counts, primaries[h], h);
    forall c, i {:trigger counts'[c][i]} | c in counts' && 0 <= i < |counts'[c]|
      ensures counts'[c][i] in done + {h} && primaries[counts'[c][i]] == c
    {
      if c in counts && i < |counts[c]| { assert counts'[c][i] == counts[c][i]; }
    }
  }

  /** Groups the leaves, in whatever order they are met, by their primary count. */
  method CountLeaves(primaries: map<Hash, nat>) returns (counts: map<nat, seq<Hash>>, highest: nat)
    ensures Counted(primaries, counts, primaries.Keys)
    ensures forall h :: h in primaries ==> primaries[h] <= highest
    ensures primaries != map[] ==> highest in counts
  {
    counts := map[];
    highest := 0;
    var rest := primaries.Keys;
    ghost var done: set<Hash> := {};
    while rest != {}
      invariant (forall h {:trigger h in rest} :: h in rest ==> h in primaries && h !in done)
      invariant (forall h {:trigger h in primaries} :: h in primaries ==> h in rest || h in done)
      invariant Counted(primaries, counts, done) && AtMost(primaries, done, highest)
      invariant highest in counts || (highest == 0 && counts == map[])
      decreases |rest|
    {
      var h :| h in rest;
      CountOne(primaries, counts, done, h);
      rest := rest - {h};
      done := done + {h};
      if primaries[h] > highest { highest := primaries[h]; }
      counts := AddCount(counts, primaries[h], h);
    }
    assert done == primaries.Keys;
    if h :| h in primaries { assert primaries[h] in counts; }
  }

  ghost predicate AtMost(primaries: map<Hash, nat>, done: set<Hash>, n: nat) {
    forall h {:trigger primaries[h]} :: h in done && h in primaries ==> primaries[h] <= n
  }

  /** The leaves with the most primary blocks. */
  method MostPrimaries(primaries: map<Hash, nat>) returns (hs: seq<Hash>, ghost highest: nat)
    requires primaries != map[]
    ensures hs != [] && (|hs| > 1 ==> hs[0] != hs[1])
    ensures forall i :: 0 <= i < |hs| ==> hs[i] in primaries && primaries[hs[i]] == highest
    ensures forall h :: h in primaries ==> primaries[h] <= highest && (primaries[h] == highest ==> h in hs)
  {
    var counts, most := CountLeaves(primaries);
    hs, highest := counts[most], most;
  }

  method PrimaryCounts(bt: BlockTree) returns (primaries: map<Hash, nat>)
    requires bt.Valid()
    ensures primaries != map[] && primaries.Keys == bt.leaves.Keys
    ensures forall h :: h in primaries ==> primaries[h] == PrimaryCount(bt.g.bs, bt.root.hash, h)
  {
    primaries := map h | h in bt.leaves :: PrimaryAncestorCount(bt.leaves[h], 0, bt);
    assert LeafBelow(bt, bt.root.hash) in primaries;
  }

  /** The best leaf: the unique maximum of the fork choice, whatever order the map is read in. */
  method BestBlock(bt: BlockTree) returns (best: Node)
    requires bt.Valid()
    ensures Indexed(bt.g.index, best) && IsBest(bt.g.bs, bt.root.hash, best.hash)
  {
    var primaries := PrimaryCounts(bt);
    var hs, highest := MostPrimaries(primaries);
    best := PickBest(bt, hs);
    BestOfLeaves(bt, primaries, best.hash, hs, highest);
  }

  method PickBest(bt: BlockTree, hs: seq<Hash>) returns (best: Node)
    requires bt.Valid() && hs != [] && (|hs| > 1 ==> hs[0] != hs[1])
    requires forall i :: 0 <= i < |hs| ==> hs[i] in bt.leaves
    ensures best.hash in hs && Indexed(bt.g.index, best)
    ensures forall h :: h in hs && h != best.hash ==> Higher(bt.g.bs, best.hash, h)
  {
    if |hs| == 1 {
      best := bt.leaves[hs[0]];
    } else {
      best := BestOfMany(bt, hs);
    }
  }

  /** Several leaves share the highest count: the tie-break decides. */
  method BestOfMany(bt: BlockTree, hs: seq<Hash>) returns (best: Node)
    requires bt.Valid() && |hs| > 1 && hs[0] != hs[1]
    requires forall i :: 0 <= i < |hs| ==> hs[i] in bt.leaves
    ensures best.hash in hs && Indexed(bt.g.index, best)
    ensures forall h :: h in hs && h != best.hash ==> Higher(bt.g.bs, best.hash, h)
  {
    var lm2 := map[];
    var i := 0;
    while i < |hs|
      invariant 0 <= i <= |hs|
      invariant forall h :: h in lm2 <==> h in hs[..i]
      invariant forall h :: h in lm2 ==> h in bt.leaves && lm2[h] == bt.leaves[h]
    {
      assert hs[..i + 1] == hs[..i] + [hs[i]];
      lm2 := lm2[hs[i] := bt.leaves[hs[i]]];
      i := i + 1;
    }
    assert hs[..i] == hs;
    assert hs[0] in lm2;
    forall h | h in lm2 ensures lm2[h].number > 0 {
      ManyLeaves(bt, h, hs[if h == hs[0] then 1 else 0]);
    }
    best := HighestLeaf(lm2, bt.g.bs);
  }

  /** Every block has a leaf at or below it. */
  ghost function LeafBelow(bt: BlockTree, h: Hash): (l: Hash)
    requires bt.Valid() && h in bt.g.kids
    reads bt, bt.g.nodes
    ensures l in bt.leaves
    decreases Upper(bt.g.bs, bt.g.bs[h].number)
  {
    if bt.g.kids[h] == [] then h else
      UpperShrinks(bt.g.bs, h);
      LeafBelow(bt, bt.g.kids[h][0])
  }

  /** With two leaves, neither is the root, so their numbers are above 0. */
  lemma {:induction false} ManyLeaves(bt: BlockTree, a: Hash, b: Hash)
    requires bt.Valid() && a != b && a in bt.leaves && b in bt.leaves
    ensures bt.leaves[a].number > 0
  {
    if b != bt.root.hash { RootHasChild(bt.g.bs, bt.root.hash, bt.g.kids, b); }
    AncHeight(bt.g.bs, bt.root.hash, a);
  }

  lemma {:induction false} RootHasChild(bs: Blocks, root: Hash, kids: Kids, d: Hash)
    requires TreeLinks(bs, root, kids) && d in kids && d != root
    ensures kids[root] != []
  {
    var c := ChildToward(bs, root, d);
    AncStep(bs, c);
    assert ListedByParent(bs, kids, c);
  }

  lemma {:induction false} BestOfLeaves(bt: BlockTree, primaries: map<Hash, nat>, best: Hash, hs: seq<Hash>,
      highest: nat)
    requires bt.Valid() && primaries.Keys == bt.leaves.Keys && best in primaries && primaries[best] == highest
    requires forall h :: h in primaries ==> primaries[h] == PrimaryCount(bt.g.bs, bt.root.hash, h)
    requires forall h :: h in primaries ==> primaries[h] <= highest && (primaries[h] == highest ==> h in hs)
    requires forall h :: h in hs ==> h in bt.g.bs && (h != best ==> Higher(bt.g.bs, best, h))
    ensures IsBest(bt.g.bs, bt.root.hash, best)
  {
    bt.LeavesAreLeaves(best);
    forall l | IsLeaf(bt.g.bs, bt.root.hash, l) && l != best ensures Better(bt.g.bs, bt.root.hash, best, l) {
      bt.LeavesAreLeaves(l);
      assert l in primaries;
    }
  }

  /** The block with a number on the best chain: found for every number from the root to the best leaf. */
  method GetHashByNumber(bt: BlockTree, num: nat) returns (r: Result<Hash, TreeError>, ghost leaf: Hash)
    requires bt.Valid()
    ensures leaf in bt.g.bs && IsBest(bt.g.bs, bt.root.hash, leaf)
    ensures bt.root.number <= num <= bt.g.bs[leaf].number ==> r.Ok? && AncestorAt(bt.g.bs, leaf, num, r.value)
    ensures num > bt.g.bs[leaf].number ==> r == Err(NumGreaterThanHighest)
    ensures num < bt.root.number ==> r == Err(NumLowerThanRoot)
  {
    var best := BestBlock(bt);
    leaf := best.hash;
    if leaf != bt.root.hash { AncHeight(bt.g.bs, bt.root.hash, leaf); }
    if best.number < num { return Err(NumGreaterThanHighest), leaf; }
    if best.number == num { return Ok(best.hash), leaf; }
    if bt.root.number > num { return Err(NumLowerThanRoot), leaf; }
    if bt.root.number == num { return Ok(bt.root.hash), leaf; }
    assert CarriesAt(bt.g.bs, bt.g.index, bt.root.hash, bt.g.kids, best.hash);
    var curr := best.parent;
    AncStepUp(bt, best);
    while true
      invariant curr != null && Indexed(bt.g.index, curr) && AncOrEq(bt.g.bs, curr.hash, best.hash)
      invariant num <= curr.number
      decreases curr.number
    {
      if curr.number == num { return Ok(curr.hash), leaf; }
      assert CarriesAt(bt.g.bs, bt.g.index, bt.root.hash, bt.g.kids, curr.hash);
      AncStepUp(bt, curr);
      AncTransitive(bt.g.bs, curr.parent.hash, curr.hash, best.hash);
      curr := curr.parent;
    }
  }

  lemma {:induction false} AncStepUp(bt: BlockTree, n: Node)
    requires bt.Valid() && Indexed(bt.g.index, n) && n.number > bt.root.number
    ensures n.parent != null && Indexed(bt.g.index, n.parent) && AncOrEq(bt.g.bs, n.parent.hash, n.hash)
    ensures n.parent.number + 1 == n.number
  {
    assert CarriesAt(bt.g.bs, bt.g.index, bt.root.hash, bt.g.kids, n.hash);
    AncStep(bt.g.bs, n.hash);
  }
}
