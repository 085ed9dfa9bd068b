/** The block tree as a value: the descendants of a root in the block history, its leaves and its fork choice. */
module BlockTreeSpec {
  import opened Basics
  import opened Ancestry

  /** The blocks of the tree: the root and everything below it. */
  ghost function Tree(bs: Blocks, root: Hash): set<Hash>
    requires WellFormed(bs)
  {
    set h | h in bs && AncOrEq(bs, root, h)
  }

  ghost predicate IsLeaf(bs: Blocks, root: Hash, h: Hash)
    requires WellFormed(bs)
  {
    h in Tree(bs, root) && forall c :: c in bs ==> bs[c].parent != Some(h)
  }

  /** Primary blocks from `h` up to the root, the root not counted. */
  ghost function PrimaryCount(bs: Blocks, root: Hash, h: Hash): nat
    requires WellFormed(bs)
    decreases Height(bs, h)
  {
    if h !in bs || h == root || bs[h].parent.None? then 0
    else (if bs[h].primary then 1 else 0) + PrimaryCount(bs, root, bs[h].parent.value)
  }

  /** The fork choice: more primary blocks, then higher, then earlier, then the lower hash. */
  ghost predicate Better(bs: Blocks, root: Hash, a: Hash, b: Hash)
    requires WellFormed(bs) && a in bs && b in bs
  {
    var (ca, cb) := (PrimaryCount(bs, root, a), PrimaryCount(bs, root, b));
    || ca > cb
    || (ca == cb && Higher(bs, a, b))
  }

  /** The tie-break among leaves with the same number of primary blocks. */
  predicate Higher(bs: Blocks, a: Hash, b: Hash)
    requires a in bs && b in bs
  {
    || bs[a].number > bs[b].number
    || (bs[a].number == bs[b].number && bs[a].arrival < bs[b].arrival)
    || (bs[a].number == bs[b].number && bs[a].arrival == bs[b].arrival && a < b)
  }

  /** The fork choice is a strict total order, so the best leaf is unique. */
  lemma {:induction false} BetterTotal(bs: Blocks, root: Hash, a: Hash, b: Hash)
    requires WellFormed(bs) && a in bs && b in bs
    ensures a != b ==> Better(bs, root, a, b) || Better(bs, root, b, a)
    ensures !(Better(bs, root, a, b) && Better(bs, root, b, a))
  {
  }

  ghost predicate IsBest(bs: Blocks, root: Hash, h: Hash)
    requires WellFormed(bs)
  {
    IsLeaf(bs, root, h) && forall l :: IsLeaf(bs, root, l) && l != h ==> Better(bs, root, h, l)
  }

  lemma {:induction false} BestUnique(bs: Blocks, root: Hash, a: Hash, b: Hash)
    requires WellFormed(bs) && IsBest(bs, root, a) && IsBest(bs, root, b)
    ensures a == b
  {
    BetterTotal(bs, root, a, b);
  }

  /** The ancestor of `h` with number `num`. */
  ghost predicate AncestorAt(bs: Blocks, h: Hash, num: nat, a: Hash)
    requires WellFormed(bs)
  {
    a in bs && bs[a].number == num && AncOrEq(bs, a, h)
  }

  /** Consecutive blocks are parent and child. */
  ghost predicate IsPath(bs: Blocks, path: seq<Hash>) {
    && (forall i :: 0 <= i < |path| ==> path[i] in bs)
    && (forall i :: 0 < i < |path| ==> bs[path[i]].parent == Some(path[i - 1]))
  }

  /** Blocks numbered `n` or more: the measure of a walk down the tree. */
  ghost function Upper(bs: Blocks, n: nat): set<Hash> {
    set h | h in bs && bs[h].number >= n
  }

  lemma {:induction false} UpperShrinks(bs: Blocks, h: Hash)
    requires h in bs
    ensures Upper(bs, bs[h].number + 1) < Upper(bs, bs[h].number)
  {
    assert h in Upper(bs, bs[h].number) && h !in Upper(bs, bs[h].number + 1);
  }

  /** Adding a block below a tree block extends the tree by that block. */
  lemma {:induction false} TreeExtend(bs: Blocks, root: Hash, h: Hash, b: Block)
    requires WellFormed(bs) && h !in bs && WellFormed(bs[h := b])
    requires b.parent.Some? && b.parent.value in Tree(bs, root)
    ensures Tree(bs[h := b], root) == Tree(bs, root) + {h}
  {
    forall x | x in bs ensures x in Tree(bs[h := b], root) <==> x in Tree(bs, root) {
      AncExtend(bs, h, b, root, x);
    }
    AncExtend(bs, h, b, root, b.parent.value);
  }

  /** Re-rooting the tree at one of its blocks keeps exactly that block and its descendants. */
  lemma {:induction false} TreeReroot(bs: Blocks, root: Hash, fin: Hash)
    requires WellFormed(bs) && fin in Tree(bs, root)
    ensures Tree(bs, fin) == set h | h in Tree(bs, root) && AncOrEq(bs, fin, h)
  {
    forall h | h in bs && AncOrEq(bs, fin, h) ensures h in Tree(bs, root) {
      AncTransitive(bs, root, fin, h);
    }
  }
}
