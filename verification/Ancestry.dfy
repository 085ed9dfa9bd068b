/** The block history as a value, and the tree order it induces. */
module Ancestry {
  import opened Basics

  /**
   What a block tree keeps of a block: the parent link (none for the oldest block held), the number,
   when the block arrived and whether it was authored in a primary slot.
   */
  datatype Block = Block(parent: Option<Hash>, number: nat, arrival: int, primary: bool)

  type Blocks = map<Hash, Block>

  /** Parents are present, and a block is numbered one above its parent. */
  ghost predicate WellFormed(bs: Blocks) {
    forall h {:trigger bs[h].parent} :: h in bs && bs[h].parent.Some? ==>
      bs[h].parent.value in bs && bs[h].number == bs[bs[h].parent.value].number + 1
  }

  function Height(bs: Blocks, h: Hash): nat {
    if h in bs then bs[h].number else 0
  }

  /** Walking parent links from `d` meets `a`. A block is its own ancestor here. */
  ghost predicate AncOrEq(bs: Blocks, a: Hash, d: Hash)
    requires WellFormed(bs)
    decreases Height(bs, d)
  {
    a == d || (d in bs && bs[d].parent.Some? && AncOrEq(bs, a, bs[d].parent.value))
  }

  ghost predicate StrictAnc(bs: Blocks, a: Hash, d: Hash)
    requires WellFormed(bs)
  {
    a != d && AncOrEq(bs, a, d)
  }

  /** Neither block is on the other's chain. */
  ghost predicate Unrelated(bs: Blocks, a: Hash, b: Hash)
    requires WellFormed(bs)
  {
    !AncOrEq(bs, a, b) && !AncOrEq(bs, b, a)
  }

  lemma {:induction false} AncHeight(bs: Blocks, a: Hash, d: Hash)
    requires WellFormed(bs) && StrictAnc(bs, a, d)
    ensures a in bs && d in bs && bs[a].number < bs[d].number
    decreases Height(bs, d)
  {
    var p := bs[d].parent.value;
    if a != p { AncHeight(bs, a, p); }
  }

  lemma {:induction false} AncTransitive(bs: Blocks, a: Hash, b: Hash, c: Hash)
    requires WellFormed(bs) && AncOrEq(bs, a, b) && AncOrEq(bs, b, c)
    ensures AncOrEq(bs, a, c)
    decreases Height(bs, c)
  {
    if b != c { AncTransitive(bs, a, b, bs[c].parent.value); }
  }

  lemma {:induction false} AncAntisymmetric(bs: Blocks, a: Hash, b: Hash)
    requires WellFormed(bs) && AncOrEq(bs, a, b) && AncOrEq(bs, b, a)
    ensures a == b
  {
    if a != b { AncHeight(bs, a, b); AncHeight(bs, b, a); }
  }

  /** The defining law of a tree order: two ancestors of one block are on one chain. */
  lemma {:induction false} AncComparable(bs: Blocks, a: Hash, b: Hash, d: Hash)
    requires WellFormed(bs) && AncOrEq(bs, a, d) && AncOrEq(bs, b, d)
    ensures AncOrEq(bs, a, b) || AncOrEq(bs, b, a)
    decreases Height(bs, d)
  {
    if a != d && b != d { AncComparable(bs, a, b, bs[d].parent.value); }
  }

  /** Two ancestors of one block with the same number are the same block. */
  lemma {:induction false} AncSameNumber(bs: Blocks, a: Hash, b: Hash, d: Hash)
    requires WellFormed(bs) && AncOrEq(bs, a, d) && AncOrEq(bs, b, d)
    requires a in bs && b in bs && bs[a].number == bs[b].number
    ensures a == b
  {
    AncComparable(bs, a, b, d);
    if a != b {
      if AncOrEq(bs, a, b) { AncHeight(bs, a, b); } else { AncHeight(bs, b, a); }
    }
  }

  /** Below a block, the chain to a descendant passes through one of its children. */
  lemma {:induction false} ChildToward(bs: Blocks, a: Hash, d: Hash) returns (c: Hash)
    requires WellFormed(bs) && StrictAnc(bs, a, d)
    ensures c in bs && bs[c].parent == Some(a) && AncOrEq(bs, c, d)
    decreases Height(bs, d)
  {
    if bs[d].parent == Some(a) {
      c := d;
    } else {
      c := ChildToward(bs, a, bs[d].parent.value);
    }
  }

  /** Stepping a block to its parent loses no ancestor it shares with a block it is not above. */
  lemma {:induction false} StepUp(bs: Blocks, h: Hash, l: Hash, x: Hash)
    requires WellFormed(bs) && h in bs && bs[h].parent.Some? && !AncOrEq(bs, h, l)
    ensures AncOrEq(bs, x, h) && AncOrEq(bs, x, l) <==> AncOrEq(bs, x, bs[h].parent.value) && AncOrEq(bs, x, l)
  {
  }

  /** Adding a block that is not there yet changes no ancestry among the blocks already held. */
  lemma {:induction false} AncExtend(bs: Blocks, h: Hash, b: Block, a: Hash, d: Hash)
    requires WellFormed(bs) && h !in bs && WellFormed(bs[h := b]) && d in bs
    ensures AncOrEq(bs[h := b], a, d) <==> AncOrEq(bs, a, d)
    decreases Height(bs, d)
  {
    if bs[d].parent.Some? { AncExtend(bs, h, b, a, bs[d].parent.value); }
  }

  /** Three blocks in a row, for examples. */
  function ChainOf3(): (bs: Blocks)
    ensures WellFormed(bs) && AncOrEq(bs, 0, 1) && AncOrEq(bs, 1, 2) && AncOrEq(bs, 0, 2)
    ensures !AncOrEq(bs, 1, 0) && !AncOrEq(bs, 2, 1) && !AncOrEq(bs, 2, 0)
  {
    map[0 := Block(None, 0, 0, false), 1 := Block(Some(0), 1, 0, false), 2 := Block(Some(1), 2, 0, false)]
  }
}
